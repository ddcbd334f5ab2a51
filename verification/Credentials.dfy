/**
 The life of machine credentials: issue, rotate, revoke, hide, loss of the creator's authority, authentication.
 Every management call runs under its authority, integration and credential locks, so it is one step; so is the
 database's own revocation when a membership or an account goes.
 */
module Credentials {
  import opened Wrappers
  import opened Text
  import opened NetworkPolicy
  import opened CredentialPolicy

  datatype Status = Active | Revoked

  datatype Credential = Credential(integration: string, createdAt: int, expiresAt: int, grants: Grants,
                                   status: Status, revokedAt: Option<int>, deletedAt: Option<int>, lastUsedAt: Option<int>)

  datatype IntegrationStatus = Live | Deleted

  datatype Integration = Integration(name: string, workspace: string, creator: Option<string>, creatorReference: string,
                                     status: IntegrationStatus)

  /** The audit event of a rotation; plain when the request replaced no part of the policy. */
  datatype Rotation = Rotation(previous: string, next: string, plain: bool)

  datatype State = State(
    integrations: map<string, Integration>,
    credentials: map<string, Credential>,
    admins: set<(string, string)>,               // (workspace, user) pairs with an owner or admin membership
    rotations: seq<Rotation>)

  const EMPTY := State(map[], map[], {}, [])

  datatype Target = Target(workspace: string, integration: string)

  datatype Done<T> = Done(state: State, answer: Result<T, Refusal>)

  /** Resources a restriction may name: the workspace's categories and payment sources that are not archived. */
  datatype Resources = Resources(categories: set<string>, sources: set<string>)

  predicate ResourcesValid(p: Policy, r: Resources) {
    Elements(p.categoryIds) <= r.categories && Elements(p.sourceIds) <= r.sources
  }

  function NewCredential(integration: string, p: Policy, now: int): Credential {
    Credential(integration, now, p.expiresAt, GrantsOf(p), Active, None, None, None)
  }

  // ----- the calls -----

  /** Workspace, creator and name must be there once trimmed; a name has at most 100 characters. */
  function CheckedNames(workspace: string, actor: string, name: string, limited: bool): Result<Integration, Refusal> {
    if Trim(workspace) == "" || Trim(actor) == "" || Trim(name) == "" then Err(FieldMissing)
    else if limited && |Trim(name)| > 100 then Err(NameTooLong)
    else Ok(Integration(Trim(name), Trim(workspace), Some(Trim(actor)), Trim(actor), Live))
  }

  function CreateIntegration(s: State, id: string, workspace: string, actor: string, name: string): Done<string> {
    match CheckedNames(workspace, actor, name, false)
    case Err(e) => Done(s, Err(e))
    case Ok(i) =>
      if (i.workspace, i.creatorReference) !in s.admins then Done(s, Err(Forbidden))
      else Done(s.(integrations := s.integrations[id := i]), Ok(id))
  }

  function CreateWithCredential(s: State, id: string, credentialId: string, workspace: string, actor: string, name: string,
                                input: PolicyInput, now: int, r: Resources): Done<string>
  {
    match CheckedNames(workspace, actor, name, true)
    case Err(e) => Done(s, Err(e))
    case Ok(i) =>
      match NormalizePolicy(input, now)
      case Err(e) => Done(s, Err(e))
      case Ok(p) =>
        if (i.workspace, i.creatorReference) !in s.admins then Done(s, Err(Forbidden))
        else if !ResourcesValid(p, r) then Done(s, Err(ResourceInvalid))
        else
          Done(s.(integrations := s.integrations[id := i],
                  credentials := s.credentials[credentialId := NewCredential(id, p, now)]), Ok(credentialId))
  }

  function CreateCredential(s: State, integration: string, credentialId: string, input: PolicyInput, now: int, actor: Option<string>,
                            r: Resources): Done<string>
  {
    match NormalizePolicy(input, now)
    case Err(e) => Done(s, Err(e))
    case Ok(p) =>
      if integration !in s.integrations then Done(s, Err(Unavailable))
      else
        var i := s.integrations[integration];
        if i.status != Live || i.creator.None? then Done(s, Err(Unavailable))
        else if (i.workspace, i.creator.value) !in s.admins then Done(s, Err(Forbidden))
        else if (i.workspace, if actor.Some? then actor.value else i.creator.value) !in s.admins then Done(s, Err(Forbidden))
        else if !ResourcesValid(p, r) then Done(s, Err(ResourceInvalid))
        else Done(s.(credentials := s.credentials[credentialId := NewCredential(integration, p, now)]), Ok(credentialId))
  }

  /** The locked credential if it is there, not hidden, where the caller says it is, and its integration not deleted. */
  predicate OnTarget(s: State, id: string, target: Target) {
    id in s.credentials && s.credentials[id].deletedAt.None? && s.credentials[id].integration == target.integration
    && target.integration in s.integrations && s.integrations[target.integration].workspace == target.workspace
    && s.integrations[target.integration].status != Deleted
  }

  function RevokedAt(c: Credential, now: int): Credential {
    c.(status := Revoked, revokedAt := Some(now))
  }

  function Revoke(s: State, id: string, now: int, actor: Option<string>, target: Option<Target>): Done<bool> {
    if target.Some? && !OnTarget(s, id, target.value) then Done(s, Err(NotFound))
    else if id !in s.credentials || s.credentials[id].deletedAt.Some? || s.credentials[id].integration !in s.integrations
    then Done(s, Ok(false))
    else
      var c := s.credentials[id];
      var i := s.integrations[c.integration];
      if actor.None? && i.creator.None? then Done(s, Err(Forbidden))
      else if (i.workspace, if actor.Some? then actor.value else i.creator.value) !in s.admins then Done(s, Err(Forbidden))
      else if c.status == Revoked then Done(s, Ok(false))
      else Done(s.(credentials := s.credentials[id := RevokedAt(c, now)]), Ok(true))
  }

  /** The management call and the locked one behind it: what the first refuses comes before what only the lock shows. */
  function Rotate(s: State, id: string, newId: string, body: RotateBody, categoryOrder: seq<string>, sourceOrder: seq<string>, now: int,
                  actor: string, target: Target, r: Resources): Done<string>
  {
    if !OnTarget(s, id, target) then Done(s, Err(NotFound))
    else
      var c := s.credentials[id];
      var i := s.integrations[c.integration];
      match RotatedPolicy(body, c.grants, categoryOrder, sourceOrder, now)
      case Err(e) => Done(s, Err(e))
      case Ok(p) =>
        if !ResourcesValid(p, r) then Done(s, Err(ResourceInvalid))
        else if c.status != Active || c.revokedAt.Some? || c.expiresAt <= now then Done(s, Err(CannotRotate))
        else if i.status != Live || i.creator.None? then Done(s, Err(CannotRotate))
        else if (i.workspace, i.creator.value) !in s.admins || (i.workspace, actor) !in s.admins then Done(s, Err(Forbidden))
        else
          Done(s.(credentials := s.credentials[id := RevokedAt(c, now)][newId := NewCredential(c.integration, p, now)],
                  rotations := s.rotations + [Rotation(id, newId, ReplacesNothing(body))]), Ok(newId))
  }

  function Visible(credentials: map<string, Credential>, integration: string): set<string> {
    set k | k in credentials && credentials[k].integration == integration && credentials[k].deletedAt.None?
  }

  function Hide(s: State, id: string, actor: string, target: Target, now: int): Done<()> {
    if !OnTarget(s, id, target) then Done(s, Err(NotFound))
    else if (target.workspace, actor) !in s.admins then Done(s, Err(Forbidden))
    else
      var c := s.credentials[id];
      if c.status != Revoked || c.revokedAt.None? then Done(s, Err(NotRevoked))
      else
        var credentials := s.credentials[id := c.(deletedAt := Some(now))];
        var i := s.integrations[target.integration];
        Done(s.(credentials := credentials,
                integrations := if Visible(credentials, target.integration) == {} then
                                  s.integrations[target.integration := i.(status := Deleted)] else s.integrations), Ok(()))
  }

  // ----- what the database does when authority goes -----

  predicate CreatedBy(s: State, integration: string, workspace: Option<string>, user: string) {
    integration in s.integrations && s.integrations[integration].creator == Some(user)
    && (workspace.Some? ==> s.integrations[integration].workspace == workspace.value)
  }

  function RevokeAll(s: State, workspace: Option<string>, user: string, now: int): map<string, Credential> {
    map k | k in s.credentials ::
      if CreatedBy(s, s.credentials[k].integration, workspace, user) && s.credentials[k].status == Active
      then RevokedAt(s.credentials[k], now) else s.credentials[k]
  }

  /** A membership is removed or demoted. */
  function LoseAuthority(s: State, workspace: string, user: string, now: int): State {
    s.(admins := s.admins - {(workspace, user)}, credentials := RevokeAll(s, Some(workspace), user, now))
  }

  /** An account is deleted: its memberships go, its credentials are revoked, its integrations lose their creator. */
  function DeleteAccount(s: State, user: string, now: int): State {
    s.(admins := (set m | m in s.admins && m.1 != user),
       credentials := RevokeAll(s, None, user, now),
       integrations := (map k | k in s.integrations ::
                          if s.integrations[k].creator == Some(user) then s.integrations[k].(creator := None) else s.integrations[k]))
  }

  // ----- authentication -----

  /** Every condition the service checks on the credential whose token was presented. */
  predicate Authenticates(s: State, id: string, clientIp: Option<string>, now: int) {
    id in s.credentials
    && var c := s.credentials[id];
       c.integration in s.integrations
       && var i := s.integrations[c.integration];
          && c.status == Active && c.deletedAt.None? && c.revokedAt.None?
          && now < c.expiresAt && c.createdAt <= now && c.expiresAt - c.createdAt <= MAX_LIFETIME
          && i.status == Live
          && i.creator.Some? && (i.workspace, i.creator.value) in s.admins
          && ScopesSupported(c.grants.scopes)
          && IsIpAllowed(clientIp, c.grants.cidrs, c.grants.cidrFlag)
  }

  const USAGE_INTERVAL: int := 5 * 60000

  /** The best-effort usage stamp, a conditional update of its own. */
  function Touch(s: State, id: string, now: int): State {
    if id in s.credentials && s.credentials[id].status == Active && s.credentials[id].revokedAt.None? && now < s.credentials[id].expiresAt
       && (s.credentials[id].lastUsedAt.None? || s.credentials[id].lastUsedAt.value <= now - USAGE_INTERVAL)
    then s.(credentials := s.credentials[id := s.credentials[id].(lastUsedAt := Some(now))]) else s
  }

  // ----- runs -----

  datatype Step =
    | CreateIntegrationStep(id: string, workspace: string, user: string, name: string)
    | CreateBothStep(id: string, newId: string, workspace: string, user: string, name: string, input: PolicyInput, now: int,
                     resources: Resources)
    | CreateCredentialStep(integration: string, newId: string, input: PolicyInput, now: int, actor: Option<string>, resources: Resources)
    | RotateStep(id: string, newId: string, body: RotateBody, categoryOrder: seq<string>, sourceOrder: seq<string>, now: int,
                 user: string, target: Target, resources: Resources)
    | RevokeStep(id: string, now: int, actor: Option<string>, onTarget: Option<Target>)
    | HideStep(id: string, user: string, target: Target, now: int)
    | LoseAuthorityStep(workspace: string, user: string, now: int)
    | GainAuthorityStep(workspace: string, user: string)
    | DeleteAccountStep(user: string, now: int)
    | TouchStep(id: string, now: int)

  /** Fresh ids for inserted rows; restriction rows are read each once, in whatever order. */
  predicate Enabled(s: State, a: Step) {
    match a
    case CreateIntegrationStep(id, _, _, _) => id !in s.integrations
    case CreateBothStep(id, newId, _, _, _, _, _, _) => id !in s.integrations && newId !in s.credentials
    case CreateCredentialStep(_, newId, _, _, _, _) => newId !in s.credentials
    case RotateStep(id, newId, _, categoryOrder, sourceOrder, _, _, _, _) =>
      newId !in s.credentials
      && (id in s.credentials ==>
            Reads(categoryOrder, s.credentials[id].grants.categories) && Reads(sourceOrder, s.credentials[id].grants.sources))
    case _ => true
  }

  function Next(s: State, a: Step): State {
    if !Enabled(s, a) then s
    else
      match a
      case CreateIntegrationStep(id, workspace, user, name) => CreateIntegration(s, id, workspace, user, name).state
      case CreateBothStep(id, newId, workspace, user, name, input, now, r) =>
        CreateWithCredential(s, id, newId, workspace, user, name, input, now, r).state
      case CreateCredentialStep(integration, newId, input, now, actor, r) =>
        CreateCredential(s, integration, newId, input, now, actor, r).state
      case RotateStep(id, newId, body, categoryOrder, sourceOrder, now, user, target, r) =>
        Rotate(s, id, newId, body, categoryOrder, sourceOrder, now, user, target, r).state
      case RevokeStep(id, now, actor, target) => Revoke(s, id, now, actor, target).state
      case HideStep(id, user, target, now) => Hide(s, id, user, target, now).state
      case LoseAuthorityStep(workspace, user, now) => LoseAuthority(s, workspace, user, now)
      case GainAuthorityStep(workspace, user) => s.(admins := s.admins + {(workspace, user)})
      case DeleteAccountStep(user, now) => DeleteAccount(s, user, now)
      case TouchStep(id, now) => Touch(s, id, now)
  }

  function Run(s: State, steps: seq<Step>): State
    decreases |steps|
  {
    if steps == [] then s else Next(Run(s, steps[..|steps| - 1]), steps[|steps| - 1])
  }
}
