/** When each management call takes place, what it then leaves, and which refusal it meets otherwise. */
module CredentialDecisions {
  import opened Wrappers
  import opened Text
  import opened NetworkPolicy
  import opened NetworkTheorems
  import opened CredentialPolicy
  import opened Credentials
  import opened CredentialTheorems

  /** Every listed id, without its outer white space, is one of these. */
  predicate AllIn(ids: seq<string>, known: set<string>) {
    forall i :: 0 <= i < |ids| ==> Trim(ids[i]) in known
  }

  lemma ListedIn(ids: seq<string>, listed: set<string>, known: set<string>)
    requires forall x :: x in listed <==> x in Trimmed(ids)
    ensures listed <= known <==> AllIn(ids, known)
  {
    TrimmedMembers(ids);
    if listed <= known {
      forall i | 0 <= i < |ids| ensures Trim(ids[i]) in known {
        assert Trim(ids[i]) in Trimmed(ids);
      }
    }
  }

  /** The resources a normalised policy names are known exactly when the input's are. */
  lemma ResourcesKnown(input: PolicyInput, now: int, r: Resources)
    requires NormalizePolicy(input, now).Ok?
    ensures ResourcesValid(NormalizePolicy(input, now).value, r)
            <==> AllIn(ListOr(input.categoryIds), r.categories) && AllIn(ListOr(input.sourceIds), r.sources)
  {
    hide NormalizePolicy, AllIn, Trimmed, Stored, Acceptable, Lists;
    NormalizePolicySound(input, now);
    var p := NormalizePolicy(input, now).value;
    ListedIn(ListOr(input.categoryIds), Elements(p.categoryIds), r.categories);
    ListedIn(ListOr(input.sourceIds), Elements(p.sourceIds), r.sources);
  }

  // ----- issuing -----

  /** An integration with its first credential, for an administrator, with a proper name, an acceptable policy and known resources. */
  lemma CreationDecided(s: State, id: string, credentialId: string, workspace: string, actor: string, name: string, input: PolicyInput,
                        now: int, r: Resources)
    ensures var d := CreateWithCredential(s, id, credentialId, workspace, actor, name, input, now, r);
            && (d.answer.Err? ==> d.state == s)
            && (if Trim(workspace) == "" || Trim(actor) == "" || Trim(name) == "" then d.answer == Err(FieldMissing)
                else if |Trim(name)| > 100 then d.answer == Err(NameTooLong)
                else if !Acceptable(input, now) then NormalizePolicy(input, now).Err? && d.answer == Err(NormalizePolicy(input, now).error)
                else if (Trim(workspace), Trim(actor)) !in s.admins then d.answer == Err(Forbidden)
                else if !AllIn(ListOr(input.categoryIds), r.categories) || !AllIn(ListOr(input.sourceIds), r.sources) then
                  d.answer == Err(ResourceInvalid)
                else
                  && d.answer == Ok(credentialId) && credentialId in d.state.credentials
                  && d.state == s.(integrations := s.integrations[id :=
                                     Integration(Trim(name), Trim(workspace), Some(Trim(actor)), Trim(actor), Live)],
                                   credentials := s.credentials[credentialId := d.state.credentials[credentialId]])
                  && AsRequested(d.state.credentials[credentialId], id, input, now))
  {
    hide NormalizePolicy, ResourcesValid, AllIn, Acceptable, AsRequested, Trim, NewCredential;
    NormalizePolicySound(input, now);
    StoredAsRequested(id, input, now);
    if NormalizePolicy(input, now).Ok? {
      ResourcesKnown(input, now, r);
    }
  }

  /** An integration alone: the same without a policy, and without the limit on the name. */
  lemma EmptyCreationDecided(s: State, id: string, workspace: string, actor: string, name: string)
    ensures var d := CreateIntegration(s, id, workspace, actor, name);
            && (d.answer.Err? ==> d.state == s)
            && (if Trim(workspace) == "" || Trim(actor) == "" || Trim(name) == "" then d.answer == Err(FieldMissing)
                else if (Trim(workspace), Trim(actor)) !in s.admins then d.answer == Err(Forbidden)
                else
                  && d.answer == Ok(id)
                  && d.state == s.(integrations := s.integrations[id :=
                                     Integration(Trim(name), Trim(workspace), Some(Trim(actor)), Trim(actor), Live)]))
  {
    hide Trim;
  }

  /** One more credential, into a live integration whose creator is still an administrator, by an administrator. */
  lemma IssueDecided(s: State, integration: string, id: string, input: PolicyInput, now: int, actor: Option<string>, r: Resources)
    ensures var d := CreateCredential(s, integration, id, input, now, actor, r);
            && (d.answer.Err? ==> d.state == s)
            && (if !Acceptable(input, now) then NormalizePolicy(input, now).Err? && d.answer == Err(NormalizePolicy(input, now).error)
                else if integration !in s.integrations || s.integrations[integration].status == Deleted
                        || s.integrations[integration].creator.None? then d.answer == Err(Unavailable)
                else
                  var i := s.integrations[integration];
                  if (i.workspace, i.creator.value) !in s.admins || (actor.Some? && (i.workspace, actor.value) !in s.admins) then
                    d.answer == Err(Forbidden)
                  else if !AllIn(ListOr(input.categoryIds), r.categories) || !AllIn(ListOr(input.sourceIds), r.sources) then
                    d.answer == Err(ResourceInvalid)
                  else
                    && d.answer == Ok(id) && id in d.state.credentials
                    && d.state == s.(credentials := s.credentials[id := d.state.credentials[id]])
                    && AsRequested(d.state.credentials[id], integration, input, now))
  {
    hide NormalizePolicy, ResourcesValid, AllIn, Acceptable, AsRequested, NewCredential;
    NormalizePolicySound(input, now);
    StoredAsRequested(integration, input, now);
    if NormalizePolicy(input, now).Ok? {
      ResourcesKnown(input, now, r);
    }
  }

  // ----- rotating -----

  /** A credential that is not hidden, of this integration, of this workspace, and the integration is not deleted. */
  predicate InPlace(s: State, id: string, t: Target) {
    && id in s.credentials && s.credentials[id].integration == t.integration && s.credentials[id].deletedAt.None?
    && t.integration in s.integrations && s.integrations[t.integration].workspace == t.workspace && s.integrations[t.integration].status == Live
  }

  /** Each list the request brings comes with its flag. */
  predicate ListsFlagged(body: RotateBody) {
    && (body.categoryIds.Some? ==> body.categoryFlag.Some?) && (body.sourceIds.Some? ==> body.sourceFlag.Some?)
    && (body.cidrs.Some? ==> body.cidrFlag.Some?)
  }

  /** The parts the request replaces are in order: known scopes, ids that are not blank, networks that parse, no list whose flag is off. */
  predicate PartsAcceptable(body: RotateBody) {
    && (body.scopes.Some? ==> ScopesSupported(body.scopes.value))
    && (body.categoryFlag.Some? ==>
          IdsPresent(ListOr(body.categoryIds)) && (body.categoryFlag.value || ListOr(body.categoryIds) == []))
    && (body.sourceFlag.Some? ==> IdsPresent(ListOr(body.sourceIds)) && (body.sourceFlag.value || ListOr(body.sourceIds) == []))
    && (body.cidrFlag.Some? ==>
          (forall i :: 0 <= i < |ListOr(body.cidrs)| ==> ParseCidr(Trim(ListOr(body.cidrs)[i])).Some?)
          && (body.cidrFlag.value || ListOr(body.cidrs) == []))
  }

  /** The resources in force after the rotation are all there. */
  predicate RotatedResourcesKnown(body: RotateBody, previous: Grants, r: Resources) {
    && (if body.categoryFlag.Some? then AllIn(ListOr(body.categoryIds), r.categories) else previous.categories <= r.categories)
    && (if body.sourceFlag.Some? then AllIn(ListOr(body.sourceIds), r.sources) else previous.sources <= r.sources)
  }

  /** What was stored is in order, so only what a rotation replaces can be refused. */
  lemma PlanDecided(body: RotateBody, previous: Grants, categoryOrder: seq<string>, sourceOrder: seq<string>, now: int)
    requires Stored(previous) && Reads(categoryOrder, previous.categories) && Reads(sourceOrder, previous.sources)
    ensures var plan := RotatedPolicy(body, previous, categoryOrder, sourceOrder, now);
            if !ListsFlagged(body) then plan == Err(FlagMissing)
            else if body.expiresAt - now <= 0 || body.expiresAt - now > 365 * 24 * 60 * 60 * 1000 then plan == Err(ExpiryOutOfRange)
            else if !PartsAcceptable(body) then plan.Err? && plan.error in {IdMissing, CidrInvalid, RestrictionNotEnabled, ScopeUnsupported}
            else plan.Ok? && plan.value.expiresAt == body.expiresAt && CarriedOver(GrantsOf(plan.value), previous, body)
  {
    hide Trim, NormalizePolicy, NormalizeCidrs, Lists, UniqueIds, Trimmed, CarriedOver, GrantsOf, ParseCidr, Stored, Reads;
    hide IdsPresent, ScopesSupported;
    RotationKeepsTheRest(body, previous, categoryOrder, sourceOrder, now);
    StoredAcceptable(previous, categoryOrder, sourceOrder);
    if ListsFlagged(body) {
      var input := RotationPolicy(body, previous, categoryOrder, sourceOrder).value;
      PolicyRefusals(input, now);
    }
  }

  lemma StoredAcceptable(g: Grants, categoryOrder: seq<string>, sourceOrder: seq<string>)
    requires Stored(g) && Reads(categoryOrder, g.categories) && Reads(sourceOrder, g.sources)
    ensures ScopesSupported(g.scopes) && IdsPresent(categoryOrder) && IdsPresent(sourceOrder)
    ensures forall i :: 0 <= i < |g.cidrs| ==> ParseCidr(Trim(g.cidrs[i])).Some?
    ensures (g.categoryFlag || categoryOrder == []) && (g.sourceFlag || sourceOrder == []) && (g.cidrFlag || g.cidrs == [])
  {
    hide Trim, ParseCidr, FormatCidr, ScopesSupported;
    StoredParts(g);
    NormalizedStays(g.cidrs);
    NormalizeSound(g.cidrs);
    ReadPresent(categoryOrder, g.categories);
    ReadPresent(sourceOrder, g.sources);
  }

  lemma ReadPresent(order: seq<string>, rows: set<string>)
    requires Reads(order, rows) && AllTrimmed(rows)
    ensures IdsPresent(order) && (rows == {} ==> order == [])
  {
    hide Trim;
    forall i | 0 <= i < |order| ensures Trim(order[i]) != "" {
      assert order[i] in Elements(order);
    }
    if order != [] {
      assert order[0] in Elements(order);
    }
  }

  lemma PlanResources(body: RotateBody, previous: Grants, p: Policy, r: Resources)
    requires CarriedOver(GrantsOf(p), previous, body)
    ensures ResourcesValid(p, r) <==> RotatedResourcesKnown(body, previous, r)
  {
    hide Lists, Trimmed, AllIn;
    if body.categoryFlag.Some? {
      ListedIn(ListOr(body.categoryIds), Elements(p.categoryIds), r.categories);
    }
    if body.sourceFlag.Some? {
      ListedIn(ListOr(body.sourceIds), Elements(p.sourceIds), r.sources);
    }
  }

  /**
   A rotation of a credential whose stored policy is in order. Refused in this order: the credential is not in place, a list
   has no flag, the expiry is out of range, a replaced part is not acceptable, a resource is unknown, the credential has
   ended or expired or its integration has lost its creator, the creator or the actor is no administrator. In every other
   case the old row ends now and a new one, active until the asked-for expiry, carries its policy over.
   */
  lemma RotateDecided(s: State, id: string, newId: string, body: RotateBody, categoryOrder: seq<string>, sourceOrder: seq<string>, now: int,
                      actor: string, t: Target, r: Resources)
    requires id in s.credentials ==>
               && Stored(s.credentials[id].grants)
               && Reads(categoryOrder, s.credentials[id].grants.categories) && Reads(sourceOrder, s.credentials[id].grants.sources)
    requires newId !in s.credentials
    ensures var d := Rotate(s, id, newId, body, categoryOrder, sourceOrder, now, actor, t, r);
            && (d.answer.Err? ==> d.state == s)
            && (if !InPlace(s, id, t) then d.answer == Err(NotFound)
                else
                  var c, i := s.credentials[id], s.integrations[t.integration];
                  if !ListsFlagged(body) then d.answer == Err(FlagMissing)
                  else if body.expiresAt - now <= 0 || body.expiresAt - now > 365 * 24 * 60 * 60 * 1000 then d.answer == Err(ExpiryOutOfRange)
                  else if !PartsAcceptable(body) then
                    d.answer.Err? && d.answer.error in {IdMissing, CidrInvalid, RestrictionNotEnabled, ScopeUnsupported}
                  else if !RotatedResourcesKnown(body, c.grants, r) then d.answer == Err(ResourceInvalid)
                  else if c.status == Revoked || c.revokedAt.Some? || now >= c.expiresAt || i.creator.None? then d.answer == Err(CannotRotate)
                  else if (t.workspace, i.creator.value) !in s.admins || (t.workspace, actor) !in s.admins then d.answer == Err(Forbidden)
                  else
                    && d.answer == Ok(newId) && newId in d.state.credentials
                    && d.state == s.(credentials := s.credentials[id := c.(status := Revoked, revokedAt := Some(now))]
                                                     [newId := d.state.credentials[newId]],
                                     rotations := s.rotations + [Rotation(id, newId, ReplacesNothing(body))])
                    && var n := d.state.credentials[newId];
                       Stage(n) == 0 && n.revokedAt.None? && n.integration == c.integration && n.createdAt == now
                       && n.expiresAt == body.expiresAt && CarriedOver(n.grants, c.grants, body))
  {
    hide RotatedPolicy, ResourcesValid, Stored, Reads, ListsFlagged, PartsAcceptable, RotatedResourcesKnown, CarriedOver, GrantsOf;
    hide ReplacesNothing;
    if id in s.credentials {
      var previous := s.credentials[id].grants;
      PlanDecided(body, previous, categoryOrder, sourceOrder, now);
      var plan := RotatedPolicy(body, previous, categoryOrder, sourceOrder, now);
      if plan.Ok? && CarriedOver(GrantsOf(plan.value), previous, body) {
        PlanResources(body, previous, plan.value, r);
      }
    }
  }

  /**
   In every reachable state the stored policy is in order and an active credential's creator is an administrator, so of the
   authorities only the actor's decides.
   */
  lemma RotatesExactly(steps: seq<Step>, id: string, newId: string, body: RotateBody, categoryOrder: seq<string>, sourceOrder: seq<string>,
                       now: int, actor: string, t: Target, r: Resources)
    ensures var s := Run(EMPTY, steps);
            Enabled(s, RotateStep(id, newId, body, categoryOrder, sourceOrder, now, actor, t, r)) ==>
              (Rotate(s, id, newId, body, categoryOrder, sourceOrder, now, actor, t, r).answer.Ok?
               <==> && InPlace(s, id, t) && Stage(s.credentials[id]) == 0 && now < s.credentials[id].expiresAt
                    && (t.workspace, actor) in s.admins
                    && ListsFlagged(body) && 0 < body.expiresAt - now <= 365 * 24 * 60 * 60 * 1000 && PartsAcceptable(body)
                    && RotatedResourcesKnown(body, s.credentials[id].grants, r))
  {
    hide Run, Rotate, Stored, Reads, ListsFlagged, PartsAcceptable, RotatedResourcesKnown, CarriedOver, ReplacesNothing, LifetimeOk;
    ReachableSound(steps);
    var s := Run(EMPTY, steps);
    if Enabled(s, RotateStep(id, newId, body, categoryOrder, sourceOrder, now, actor, t, r)) {
      if id in s.credentials {
        assert CredentialOk(s, s.credentials[id]);
      }
      RotateDecided(s, id, newId, body, categoryOrder, sourceOrder, now, actor, t, r);
    }
  }

  // ----- revoking and hiding -----

  /** By whom a revocation is made: the named actor, or the creator. */
  function Revoker(i: Integration, actor: Option<string>): Option<string> {
    if actor.Some? then actor else i.creator
  }

  /** A revocation ends an active credential once, when an administrator asks; hidden and unknown ones are quietly left alone. */
  lemma RevokeDecided(s: State, id: string, now: int, actor: Option<string>, t: Option<Target>)
    ensures var d := Revoke(s, id, now, actor, t);
            && (d.answer != Ok(true) ==> d.state == s)
            && (if t.Some? && !InPlace(s, id, t.value) then d.answer == Err(NotFound)
                else if id !in s.credentials || s.credentials[id].deletedAt.Some? || s.credentials[id].integration !in s.integrations then
                  d.answer == Ok(false)
                else
                  var c := s.credentials[id];
                  var i := s.integrations[c.integration];
                  if Revoker(i, actor).None? || (i.workspace, Revoker(i, actor).value) !in s.admins then d.answer == Err(Forbidden)
                  else if c.status == Revoked then d.answer == Ok(false)
                  else
                    && d.answer == Ok(true)
                    && d.state == s.(credentials := s.credentials[id := c.(status := Revoked, revokedAt := Some(now))]))
  {
  }

  /**
   Hiding takes a revoked credential out of sight, when an administrator asks, and deletes its integration exactly when no
   other is left in sight.
   */
  lemma HideDecided(s: State, id: string, actor: string, t: Target, now: int)
    ensures var d := Hide(s, id, actor, t, now);
            && (d.answer.Err? ==> d.state == s)
            && (if !InPlace(s, id, t) then d.answer == Err(NotFound)
                else if (t.workspace, actor) !in s.admins then d.answer == Err(Forbidden)
                else if s.credentials[id].status == Active || s.credentials[id].revokedAt.None? then d.answer == Err(NotRevoked)
                else
                  var alone := forall k :: k in s.credentials && k != id && s.credentials[k].integration == t.integration ==>
                                 s.credentials[k].deletedAt.Some?;
                  && d.answer == Ok(())
                  && d.state == s.(credentials := s.credentials[id := s.credentials[id].(deletedAt := Some(now))],
                                   integrations := if alone then s.integrations[t.integration := s.integrations[t.integration].(status := Deleted)]
                                                   else s.integrations))
  {
    if InPlace(s, id, t) && s.credentials[id].status == Revoked {
      var after := s.credentials[id := s.credentials[id].(deletedAt := Some(now))];
      if Visible(after, t.integration) != {} {
        var k :| k in Visible(after, t.integration);
        assert k != id && after[k] == s.credentials[k];
      } else {
        forall k | k in s.credentials && k != id && s.credentials[k].integration == t.integration ensures s.credentials[k].deletedAt.Some? {
          assert k !in Visible(after, t.integration);
        }
      }
    }
  }

  // ----- authority -----

  /** The administrator without whom the call changes nothing: workspace and user. */
  function Acting(s: State, a: Step): Option<(string, string)> {
    match a
    case CreateIntegrationStep(_, workspace, user, _) => Some((Trim(workspace), Trim(user)))
    case CreateBothStep(_, _, workspace, user, _, _, _, _) => Some((Trim(workspace), Trim(user)))
    case CreateCredentialStep(integration, _, _, _, actor, _) =>
      if integration !in s.integrations || Revoker(s.integrations[integration], actor).None? then None
      else Some((s.integrations[integration].workspace, Revoker(s.integrations[integration], actor).value))
    case RotateStep(_, _, _, _, _, _, user, t, _) => Some((t.workspace, user))
    case RevokeStep(id, _, actor, _) =>
      if id !in s.credentials || s.credentials[id].integration !in s.integrations
         || Revoker(s.integrations[s.credentials[id].integration], actor).None? then None
      else
        Some((s.integrations[s.credentials[id].integration].workspace, Revoker(s.integrations[s.credentials[id].integration], actor).value))
    case HideStep(_, user, t, _) => Some((t.workspace, user))
    case _ => None
  }

  predicate Managing(a: Step) {
    a.CreateIntegrationStep? || a.CreateBothStep? || a.CreateCredentialStep? || a.RotateStep? || a.RevokeStep? || a.HideStep?
  }

  /** No management call changes anything unless the one acting is an administrator of the workspace at that moment. */
  lemma OnlyAdministratorsManage(s: State, a: Step)
    requires Managing(a) && Next(s, a) != s
    ensures Acting(s, a).Some? && Acting(s, a).value in s.admins
  {
    hide NormalizePolicy, RotatedPolicy, ResourcesValid, Trim, ReplacesNothing, Visible, Reads, NewCredential;
  }

  /** A membership lost ends exactly the active credentials its holder created in that workspace; an account deleted, all it created. */
  lemma AuthorityLossExactly(s: State, workspace: string, user: string, now: int, k: string)
    requires k in s.credentials
    ensures var c, t, u := s.credentials[k], LoseAuthority(s, workspace, user, now), DeleteAccount(s, user, now);
            var created := c.integration in s.integrations && s.integrations[c.integration].creator == Some(user);
            && t.credentials.Keys == u.credentials.Keys == s.credentials.Keys
            && t.credentials[k] == (if c.status == Active && created && s.integrations[c.integration].workspace == workspace
                                    then c.(status := Revoked, revokedAt := Some(now)) else c)
            && u.credentials[k] == (if c.status == Active && created then c.(status := Revoked, revokedAt := Some(now)) else c)
    ensures LoseAuthority(s, workspace, user, now).admins == s.admins - {(workspace, user)}
    ensures forall m :: m in DeleteAccount(s, user, now).admins <==> m in s.admins && m.1 != user
    ensures forall i :: i in s.integrations ==>
              i in DeleteAccount(s, user, now).integrations
              && DeleteAccount(s, user, now).integrations[i]
                 == s.integrations[i].(creator := if s.integrations[i].creator == Some(user) then None else s.integrations[i].creator)
  {
  }

  /** A use is stamped exactly on an active, unexpired credential with no stamp in the last five minutes, and the stamp is all it changes. */
  lemma StampExactly(s: State, id: string, now: int)
    ensures var due := id in s.credentials && s.credentials[id].status == Active && s.credentials[id].revokedAt.None?
                       && now < s.credentials[id].expiresAt
                       && (s.credentials[id].lastUsedAt.None? || now - s.credentials[id].lastUsedAt.value >= 300_000);
            Touch(s, id, now)
            == if due then s.(credentials := s.credentials[id := s.credentials[id].(lastUsedAt := Some(now))]) else s
  {
  }
}
