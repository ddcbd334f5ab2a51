/** The credential calls on the tables themselves; each leaves what module Credentials says and answers the same. */
module CredentialService {
  import opened Wrappers
  import opened Text
  import opened NetworkPolicy
  import opened CredentialPolicy
  import opened Credentials

  // ----- bearer tokens -----

  predicate IsTokenChar(c: char) {
    'A' <= c <= 'Z' || 'a' <= c <= 'z' || '0' <= c <= '9' || c == '_' || c == '-'
  }

  predicate AllTokenChars(s: string) {
    forall i :: 0 <= i < |s| ==> IsTokenChar(s[i])
  }

  /** `mqic_`, 12 characters, a dot, 43 characters; the letters of the first five in either case. */
  predicate IsToken(t: string) {
    |t| == 61 && Lower(t[..5]) == "mqic_" && AllTokenChars(t[5..17]) && t[17] == '.' && AllTokenChars(t[18..])
  }

  function PrefixOf(token: string): string
    requires IsToken(token)
  {
    token[..17]
  }

  function ParseBearer(authorization: Option<string>): (t: Option<string>)
    ensures t.Some? ==> IsToken(t.value)
  {
    if authorization.None? || |authorization.value| < 7 then None
    else
      var s := authorization.value;
      if Lower(s[..7]) == "bearer " && IsToken(s[7..]) then Some(s[7..]) else None
  }

  /** A token sent as a bearer header is read back, and nothing but a bearer header with a token is read. */
  lemma BearerExactly(header: string, token: string)
    ensures ParseBearer(Some(header)) == Some(token) <==>
              IsToken(token) && |header| == 68 && Lower(header[..7]) == "bearer " && header[7..] == token
  {
    hide Lower, IsToken;
    assert IsToken(token) ==> |token| == 61 by { TokenLength(token); }
    if |header| >= 7 {
      TokenLength(header[7..]);
    }
  }

  lemma TokenLength(t: string)
    ensures IsToken(t) ==> |t| == 61
  {
  }

  /** A stored token; the table keeps its digest, here the token itself. */
  datatype StoredToken = StoredToken(credential: string, token: string)

  lemma BearerLower()
    ensures Lower("Bearer ") == "bearer "
  {
  }

  class Tables {
    var tokens: map<string, StoredToken>              // by prefix
    var integrations: map<string, Integration>
    var credentials: map<string, Credential>
    var admins: set<(string, string)>
    var rotations: seq<Rotation>

    constructor ()
      ensures Current() == EMPTY && tokens == map[]
    {
      tokens, integrations, credentials, admins, rotations := map[], map[], map[], {}, [];
    }

    /** The credential whose stored token the header carries. */
    function Presented(authorization: Option<string>): Option<string>
      reads this`tokens
    {
      match ParseBearer(authorization)
      case None => None
      case Some(t) => if PrefixOf(t) in tokens && tokens[PrefixOf(t)].token == t then Some(tokens[PrefixOf(t)].credential) else None
    }

    function Current(): State
      reads this
    {
      State(integrations, credentials, admins, rotations)
    }

    /** A header presents a credential exactly when its token, the whole of it, is the one stored under the token's prefix. */
    lemma PresentedExactly(header: string, id: string)
      ensures Presented(Some(header)) == Some(id) <==>
                && |header| == 68 && Lower(header[..7]) == "bearer " && IsToken(header[7..])
                && header[7..24] in tokens && tokens[header[7..24]] == StoredToken(id, header[7..])
    {
      hide Lower, IsToken, ParseBearer;
      if |header| >= 7 {
        BearerExactly(header, header[7..]);
        TokenLength(header[7..]);
      }
      if ParseBearer(Some(header)).Some? {
        BearerExactly(header, ParseBearer(Some(header)).value);
      }
      assert |header| == 68 ==> header[7..][..17] == header[7..24];
    }

    /** Whoever sends a stored token as a bearer header presents its credential. */
    lemma TokenPresents(token: string, id: string)
      requires IsToken(token) && PrefixOf(token) in tokens && tokens[PrefixOf(token)] == StoredToken(id, token)
      ensures Presented(Some("Bearer " + token)) == Some(id)
    {
      hide IsToken, ParseBearer;
      TokenLength(token);
      BearerLower();
      var header := "Bearer " + token;
      assert header[..7] == "Bearer " && header[7..] == token;
      BearerExactly(header, token);
    }

    method RequireAdministrator(workspace: string, user: string) returns (ok: bool)
      ensures ok <==> (workspace, user) in admins
    {
      ok := (workspace, user) in admins;
    }

    /** The conditional update that ends a credential, and how many rows it met. */
    method EndActive(id: string, now: int, unexpiredAt: Option<int>) returns (count: nat)
      modifies this`credentials
      ensures count == if id in old(credentials) && old(credentials)[id].status == Active && old(credentials)[id].revokedAt.None?
                          && (unexpiredAt.Some? ==> unexpiredAt.value < old(credentials)[id].expiresAt) then 1 else 0
      ensures credentials == if count == 1 then old(credentials)[id := RevokedAt(old(credentials)[id], now)] else old(credentials)
    {
      count := 0;
      if id in credentials && credentials[id].status == Active && credentials[id].revokedAt.None?
         && (unexpiredAt.Some? ==> unexpiredAt.value < credentials[id].expiresAt) {
        credentials := credentials[id := credentials[id].(status := Revoked, revokedAt := Some(now))];
        count := 1;
      }
    }

    method CreateIntegrationWithCredential(id: string, credentialId: string, workspace: string, actor: string, name: string,
                                           input: PolicyInput, now: int, resources: Resources, token: string)
      returns (r: Result<string, Refusal>)
      requires IsToken(token)
      modifies this
      ensures tokens == if r.Ok? then old(tokens)[PrefixOf(token) := StoredToken(credentialId, token)] else old(tokens)
      ensures r.Ok? ==> Presented(Some("Bearer " + token)) == Some(credentialId)
      ensures var d := CreateWithCredential(old(Current()), id, credentialId, workspace, actor, name, input, now, resources);
              Current() == d.state && r == d.answer
    {
      hide NormalizePolicy, ResourcesValid, Trim;
      var integration := CheckedNames(workspace, actor, name, true);
      if integration.Err? {
        return Err(integration.error);
      }
      var policy := NormalizePolicy(input, now);
      if policy.Err? {
        return Err(policy.error);
      }
      var ok := RequireAdministrator(integration.value.workspace, integration.value.creatorReference);
      if !ok {
        return Err(Forbidden);
      }
      if !ResourcesValid(policy.value, resources) {
        return Err(ResourceInvalid);
      }
      integrations := integrations[id := integration.value];
      credentials := credentials[credentialId := NewCredential(id, policy.value, now)];
      tokens := tokens[PrefixOf(token) := StoredToken(credentialId, token)];
      TokenPresents(token, credentialId);
      return Ok(credentialId);
    }

    method IssueCredential(integration: string, credentialId: string, input: PolicyInput, now: int, actor: Option<string>,
                           resources: Resources, token: string) returns (r: Result<string, Refusal>)
      requires IsToken(token)
      modifies this`credentials, this`tokens
      ensures tokens == if r.Ok? then old(tokens)[PrefixOf(token) := StoredToken(credentialId, token)] else old(tokens)
      ensures r.Ok? ==> Presented(Some("Bearer " + token)) == Some(credentialId)
      ensures var d := CreateCredential(old(Current()), integration, credentialId, input, now, actor, resources);
              Current() == d.state && r == d.answer
    {
      var policy := NormalizePolicy(input, now);
      if policy.Err? {
        return Err(policy.error);
      }
      if integration !in integrations || integrations[integration].status != Live || integrations[integration].creator.None? {
        return Err(Unavailable);
      }
      var i := integrations[integration];
      var ok := RequireAdministrator(i.workspace, i.creator.value);
      if ok {
        ok := RequireAdministrator(i.workspace, if actor.Some? then actor.value else i.creator.value);
      }
      if !ok {
        return Err(Forbidden);
      }
      if !ResourcesValid(policy.value, resources) {
        return Err(ResourceInvalid);
      }
      credentials := credentials[credentialId := NewCredential(integration, policy.value, now)];
      tokens := tokens[PrefixOf(token) := StoredToken(credentialId, token)];
      TokenPresents(token, credentialId);
      return Ok(credentialId);
    }

    method RevokeCredential(id: string, now: int, actor: Option<string>, target: Option<Target>) returns (r: Result<bool, Refusal>)
      requires id in credentials && credentials[id].status == Active ==> credentials[id].revokedAt.None?
      modifies this`credentials
      ensures var d := Revoke(old(Current()), id, now, actor, target); Current() == d.state && r == d.answer
    {
      if target.Some? && !OnTarget(Current(), id, target.value) {
        return Err(NotFound);
      }
      if id !in credentials || credentials[id].deletedAt.Some? || credentials[id].integration !in integrations {
        return Ok(false);
      }
      var i := integrations[credentials[id].integration];
      if actor.None? && i.creator.None? {
        return Err(Forbidden);
      }
      var ok := RequireAdministrator(i.workspace, if actor.Some? then actor.value else i.creator.value);
      if !ok {
        return Err(Forbidden);
      }
      if credentials[id].status == Revoked {
        return Ok(false);
      }
      var count := EndActive(id, now, None);
      return Ok(true);
    }

    /** The old row is ended and its replacement inserted together. */
    method RotateCredential(id: string, newId: string, body: RotateBody, categoryOrder: seq<string>, sourceOrder: seq<string>, now: int,
                            actor: string, target: Target, resources: Resources, token: string) returns (r: Result<string, Refusal>)
      requires IsToken(token)
      modifies this`credentials, this`rotations, this`tokens
      ensures tokens == if r.Ok? then old(tokens)[PrefixOf(token) := StoredToken(newId, token)] else old(tokens)
      ensures r.Ok? ==> Presented(Some("Bearer " + token)) == Some(newId)
      ensures var d := Rotate(old(Current()), id, newId, body, categoryOrder, sourceOrder, now, actor, target, resources);
              Current() == d.state && r == d.answer
    {
      if !OnTarget(Current(), id, target) {
        return Err(NotFound);
      }
      var previous := credentials[id];
      var i := integrations[previous.integration];
      var policy := RotatedPolicy(body, previous.grants, categoryOrder, sourceOrder, now);
      if policy.Err? {
        return Err(policy.error);
      }
      if !ResourcesValid(policy.value, resources) {
        return Err(ResourceInvalid);
      }
      if previous.status != Active || previous.revokedAt.Some? || previous.expiresAt <= now || i.status != Live || i.creator.None? {
        return Err(CannotRotate);
      }
      var ok := RequireAdministrator(i.workspace, i.creator.value);
      if ok {
        ok := RequireAdministrator(i.workspace, actor);
      }
      if !ok {
        return Err(Forbidden);
      }
      var count := EndActive(id, now, Some(now));
      credentials := credentials[newId := NewCredential(previous.integration, policy.value, now)];
      rotations := rotations + [Rotation(id, newId, ReplacesNothing(body))];
      tokens := tokens[PrefixOf(token) := StoredToken(newId, token)];
      TokenPresents(token, newId);
      return Ok(newId);
    }

    /** Hides a revoked credential; hiding the last visible one deletes its integration. */
    method DeleteCredential(id: string, actor: string, target: Target, now: int) returns (r: Result<(), Refusal>)
      modifies this`credentials, this`integrations
      ensures var d := Hide(old(Current()), id, actor, target, now); Current() == d.state && r == d.answer
    {
      if !OnTarget(Current(), id, target) {
        return Err(NotFound);
      }
      var ok := RequireAdministrator(target.workspace, actor);
      if !ok {
        return Err(Forbidden);
      }
      if credentials[id].status != Revoked || credentials[id].revokedAt.None? {
        return Err(NotRevoked);
      }
      credentials := credentials[id := credentials[id].(deletedAt := Some(now))];
      var remaining := Visible(credentials, target.integration);
      if remaining == {} {
        integrations := integrations[target.integration := integrations[target.integration].(status := Deleted)];
      }
      return Ok(());
    }

    /**
     The header names a credential by its token's prefix and proves it by the whole token; one read then decides. A
     refusal of a proven token is audited; the usage stamp is a separate conditional update that cannot change the decision.
     */
    method Authenticate(authorization: Option<string>, clientIp: Option<string>, now: int) returns (granted: Option<Grants>, audited: bool)
      modifies this`credentials
      ensures var id := old(Presented(authorization));
              && (granted.Some? <==> id.Some? && Authenticates(old(Current()), id.value, clientIp, now))
              && (granted.Some? ==> granted.value == old(credentials)[id.value].grants)
              && (audited <==> id.Some? && id.value in old(credentials) && granted.None?)
              && Current() == if granted.Some? then Touch(old(Current()), id.value, now) else old(Current())
    {
      hide IsIpAllowed, ScopesSupported, ParseBearer, PrefixOf;
      var token := ParseBearer(authorization);
      if token.None? {
        return None, false;
      }
      var prefix := PrefixOf(token.value);
      if prefix !in tokens || tokens[prefix].token != token.value || tokens[prefix].credential !in credentials {
        return None, false;
      }
      var id := tokens[prefix].credential;
      if !Authenticates(Current(), id, clientIp, now) {
        return None, true;
      }
      var c := credentials[id];
      if c.lastUsedAt.None? || now - c.lastUsedAt.value >= USAGE_INTERVAL {
        credentials := credentials[id := c.(lastUsedAt := Some(now))];
      }
      return Some(c.grants), false;
    }
  }
}
