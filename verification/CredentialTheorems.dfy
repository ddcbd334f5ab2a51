/** What holds over every run of module Credentials. */
module CredentialTheorems {
  import opened Wrappers
  import opened NetworkPolicy
  import opened NetworkTheorems
  import opened CredentialPolicy
  import opened Credentials

  // ----- the invariant -----

  predicate HasAuthority(s: State, i: Integration) {
    i.creator.Some? && (i.workspace, i.creator.value) in s.admins
  }

  predicate CredentialOk(s: State, c: Credential) {
    && c.integration in s.integrations
    && (c.status == Active <==> c.revokedAt.None?)
    && (c.deletedAt.Some? ==> c.status == Revoked)
    && LifetimeOk(c.expiresAt, c.createdAt)
    && Stored(c.grants)
    && (c.status == Active ==> HasAuthority(s, s.integrations[c.integration]))
  }

  predicate Owns(s: State, k: string, integration: string) {
    k in s.credentials && s.credentials[k].integration == integration
  }

  /** Deleted exactly when it has credentials and all of them are hidden. */
  ghost predicate IntegrationOk(s: State, i: string)
    requires i in s.integrations
  {
    s.integrations[i].status == Deleted <==>
      (exists k :: Owns(s, k, i)) && (forall k :: Owns(s, k, i) ==> s.credentials[k].deletedAt.Some?)
  }

  predicate RotationOk(s: State, r: Rotation) {
    r.previous in s.credentials && r.next in s.credentials && s.credentials[r.previous].status == Revoked
    && s.credentials[r.previous].integration == s.credentials[r.next].integration
    && (r.plain ==> s.credentials[r.previous].grants == s.credentials[r.next].grants)
  }

  predicate EachReplacedOnce(rotations: seq<Rotation>) {
    forall i, j :: 0 <= i < j < |rotations| ==> rotations[i].previous != rotations[j].previous && rotations[i].next != rotations[j].next
  }

  ghost predicate AllCredentialsOk(s: State) {
    forall k :: k in s.credentials ==> CredentialOk(s, s.credentials[k])
  }

  ghost predicate AllIntegrationsOk(s: State) {
    forall i :: i in s.integrations ==> IntegrationOk(s, i)
  }

  ghost predicate AllRotationsOk(s: State) {
    forall j :: 0 <= j < |s.rotations| ==> RotationOk(s, s.rotations[j])
  }

  ghost predicate Invariant(s: State) {
    AllCredentialsOk(s) && AllIntegrationsOk(s) && AllRotationsOk(s) && EachReplacedOnce(s.rotations)
  }

  // ----- a credential only moves forward -----

  /** Active, revoked, hidden. */
  function Stage(c: Credential): nat {
    if c.deletedAt.Some? then 2 else if c.status == Revoked then 1 else 0
  }

  predicate Forward(c: Credential, d: Credential) {
    && Stage(c) <= Stage(d)
    && d.integration == c.integration && d.createdAt == c.createdAt && d.expiresAt == c.expiresAt && d.grants == c.grants
    && (c.status == Revoked ==> d.status == Revoked && d.revokedAt == c.revokedAt)
    && (c.deletedAt.Some? ==> d.deletedAt == c.deletedAt)
  }

  ghost predicate Evolves(s: State, t: State) {
    && (forall k :: k in s.credentials ==> k in t.credentials && Forward(s.credentials[k], t.credentials[k]))
    && (forall i :: i in s.integrations ==>
          i in t.integrations && t.integrations[i].workspace == s.integrations[i].workspace
          && t.integrations[i].creatorReference == s.integrations[i].creatorReference
          && (s.integrations[i].status == Deleted ==> t.integrations[i].status == Deleted))
    && (|s.rotations| <= |t.rotations| && s.rotations == t.rotations[..|s.rotations|])
  }

  lemma NextForward(s: State, a: Step, k: string)
    requires AllCredentialsOk(s) && k in s.credentials
    ensures k in Next(s, a).credentials && Forward(s.credentials[k], Next(s, a).credentials[k])
  {
    hide NormalizePolicy, RotatedPolicy, ResourcesValid, Stored, LifetimeOk, Reads, Visible;
    assert CredentialOk(s, s.credentials[k]);
  }

  lemma NextEvolves(s: State, a: Step)
    requires Invariant(s)
    ensures Evolves(s, Next(s, a))
  {
    hide AllIntegrationsOk, AllRotationsOk, EachReplacedOnce, NormalizePolicy, RotatedPolicy, ResourcesValid, AllCredentialsOk, Forward, Reads, Visible;
    var t := Next(s, a);
    forall k | k in s.credentials ensures k in t.credentials && Forward(s.credentials[k], t.credentials[k]) {
      NextForward(s, a, k);
    }
  }

  lemma EvolvesTransitive(s: State, t: State, u: State)
    requires Evolves(s, t) && Evolves(t, u)
    ensures Evolves(s, u)
  {
    forall k | k in s.credentials ensures k in u.credentials && Forward(s.credentials[k], u.credentials[k]) {
      assert Forward(s.credentials[k], t.credentials[k]) && Forward(t.credentials[k], u.credentials[k]);
    }
    assert u.rotations[..|s.rotations|] == u.rotations[..|t.rotations|][..|s.rotations|];
  }

  // ----- each step keeps the invariant -----

  /** One more active credential, possibly with its new integration; nothing else changes. */
  ghost predicate Issues(s: State, t: State, id: string, c: Credential) {
    && id !in s.credentials
    && t == s.(integrations := t.integrations, credentials := s.credentials[id := c])
    && (forall i :: i in s.integrations ==> i in t.integrations && t.integrations[i] == s.integrations[i])
    && (forall i :: i in t.integrations && i !in s.integrations ==> i == c.integration)
    && CredentialOk(t, c) && c.status == Active && c.deletedAt.None? && t.integrations[c.integration].status == Live
  }

  lemma IssuedIntegrations(s: State, t: State, id: string, c: Credential)
    requires AllIntegrationsOk(s) && Issues(s, t, id, c)
    ensures AllIntegrationsOk(t)
  {
    hide Stored, LifetimeOk, CredentialOk;
    assert c.integration in t.integrations by { IssuedInto(t, c); }
    forall i | i in t.integrations ensures IntegrationOk(t, i) {
      if i == c.integration {
        assert Owns(t, id, i) && t.credentials[id].deletedAt.None?;
      } else {
        assert i in s.integrations;
        assert forall k :: Owns(t, k, i) <==> Owns(s, k, i);
        assert IntegrationOk(s, i);
      }
    }
  }

  lemma IssuedInto(t: State, c: Credential)
    requires CredentialOk(t, c)
    ensures c.integration in t.integrations
  {
  }

  lemma IssuedCredentials(s: State, t: State, id: string, c: Credential)
    requires AllCredentialsOk(s) && Issues(s, t, id, c)
    ensures AllCredentialsOk(t)
  {
    hide Stored, LifetimeOk;
    forall k | k in t.credentials ensures CredentialOk(t, t.credentials[k]) {
      assert k in s.credentials ==> CredentialOk(s, s.credentials[k]);
    }
  }

  /** A new active credential of a live integration whose creator has authority. */
  lemma IssuedKeeps(s: State, t: State, id: string, c: Credential)
    requires Invariant(s) && Issues(s, t, id, c)
    ensures Invariant(t)
  {
    hide CredentialOk, AllIntegrationsOk, AllCredentialsOk;
    IssuedCredentials(s, t, id, c);
    IssuedIntegrations(s, t, id, c);
    forall j | 0 <= j < |t.rotations| ensures RotationOk(t, t.rotations[j]) {
      assert RotationOk(s, s.rotations[j]);
    }
  }

  /** Credentials change in place without being hidden, integrations keep their status. */
  lemma ChangedKeeps(s: State, t: State)
    requires Invariant(s) && Evolves(s, t) && t.rotations == s.rotations
    requires t.credentials.Keys == s.credentials.Keys && t.integrations.Keys == s.integrations.Keys
    requires forall k :: k in s.credentials ==> t.credentials[k].deletedAt == s.credentials[k].deletedAt
    requires forall i :: i in s.integrations ==> t.integrations[i].status == s.integrations[i].status
    requires AllCredentialsOk(t)
    ensures Invariant(t)
  {
    hide AllCredentialsOk, CredentialOk;
    forall i | i in t.integrations ensures IntegrationOk(t, i) {
      assert forall k :: Owns(t, k, i) <==> Owns(s, k, i);
      assert IntegrationOk(s, i);
    }
    forall j | 0 <= j < |t.rotations| ensures RotationOk(t, t.rotations[j]) {
      assert RotationOk(s, s.rotations[j]);
    }
  }

  lemma PolicyStored(input: PolicyInput, now: int)
    ensures NormalizePolicy(input, now).Ok? ==>
              Stored(GrantsOf(NormalizePolicy(input, now).value)) && LifetimeOk(NormalizePolicy(input, now).value.expiresAt, now)
  {
    hide NormalizePolicy, Stored, Acceptable, GrantsOf;
    NormalizePolicySound(input, now);
  }

  lemma EmptyIntegrationKeeps(s: State, id: string, i: Integration)
    requires Invariant(s) && id !in s.integrations && i.status == Live
    ensures Invariant(s.(integrations := s.integrations[id := i]))
  {
    hide Stored, LifetimeOk;
    var t := s.(integrations := s.integrations[id := i]);
    forall k | k in t.credentials ensures CredentialOk(t, t.credentials[k]) {
      assert CredentialOk(s, s.credentials[k]);
    }
    forall j | j in t.integrations ensures IntegrationOk(t, j) {
      assert forall k :: Owns(t, k, j) <==> Owns(s, k, j);
      if j != id {
        assert IntegrationOk(s, j);
      }
    }
    forall j | 0 <= j < |t.rotations| ensures RotationOk(t, t.rotations[j]) {
      assert RotationOk(s, s.rotations[j]);
    }
  }

  lemma CreateKeeps(s: State, a: Step)
    requires Invariant(s) && Enabled(s, a) && (a.CreateIntegrationStep? || a.CreateBothStep? || a.CreateCredentialStep?)
    ensures Invariant(Next(s, a))
  {
    hide Invariant, NormalizePolicy, Stored, ResourcesValid, LifetimeOk, GrantsOf;
    var t := Next(s, a);
    if t != s {
      match a
      case CreateIntegrationStep(id, _, _, _) => EmptyIntegrationKeeps(s, id, t.integrations[id]);
      case CreateBothStep(id, newId, _, _, _, input, now, _) =>
        PolicyStored(input, now);
        IssuedKeeps(s, t, newId, t.credentials[newId]);
      case CreateCredentialStep(_, newId, input, now, _, _) =>
        PolicyStored(input, now);
        IssuedKeeps(s, t, newId, t.credentials[newId]);
    }
  }

  lemma RevokedKeeps(s: State, id: string, now: int)
    requires Invariant(s) && id in s.credentials && s.credentials[id].status == Active
    ensures Invariant(s.(credentials := s.credentials[id := RevokedAt(s.credentials[id], now)]))
    ensures Evolves(s, s.(credentials := s.credentials[id := RevokedAt(s.credentials[id], now)]))
  {
    hide AllIntegrationsOk, AllRotationsOk, EachReplacedOnce, Stored, LifetimeOk;
    var t := s.(credentials := s.credentials[id := RevokedAt(s.credentials[id], now)]);
    forall k | k in t.credentials ensures CredentialOk(t, t.credentials[k]) && Forward(s.credentials[k], t.credentials[k]) {
      assert CredentialOk(s, s.credentials[k]);
    }
    ChangedKeeps(s, t);
  }

  lemma RotationLogged(s: State, r: Rotation)
    requires Invariant(s) && RotationOk(s, r)
    requires forall j :: 0 <= j < |s.rotations| ==> s.rotations[j].previous != r.previous && s.rotations[j].next != r.next
    ensures Invariant(s.(rotations := s.rotations + [r]))
  {
    hide Stored, LifetimeOk;
    var t := s.(rotations := s.rotations + [r]);
    forall k | k in t.credentials ensures CredentialOk(t, t.credentials[k]) {
      assert CredentialOk(s, s.credentials[k]);
    }
    forall i | i in t.integrations ensures IntegrationOk(t, i) {
      assert forall k :: Owns(t, k, i) <==> Owns(s, k, i);
      assert IntegrationOk(s, i);
    }
    forall j | 0 <= j < |t.rotations| ensures RotationOk(t, t.rotations[j]) {
      assert j < |s.rotations| ==> RotationOk(s, s.rotations[j]);
    }
  }

  lemma RotatedStored(s: State, a: Step)
    requires a.RotateStep? && Enabled(s, a) && a.id in s.credentials && Stored(s.credentials[a.id].grants)
    ensures var r := RotatedPolicy(a.body, s.credentials[a.id].grants, a.categoryOrder, a.sourceOrder, a.now);
            r.Ok? ==> Stored(GrantsOf(r.value)) && LifetimeOk(r.value.expiresAt, a.now)
                      && (ReplacesNothing(a.body) ==> GrantsOf(r.value) == s.credentials[a.id].grants)
  {
    hide NormalizePolicy, Stored, GrantsOf, RotationPolicy, ReplacesNothing, LifetimeOk;
    var g := s.credentials[a.id].grants;
    var i := RotationPolicy(a.body, g, a.categoryOrder, a.sourceOrder);
    if i.Ok? {
      PolicyStored(i.value, a.now);
    }
    if ReplacesNothing(a.body) {
      PlainRotation(a.body, g, a.categoryOrder, a.sourceOrder, a.now);
    }
  }

  lemma RotateKeeps(s: State, a: Step)
    requires Invariant(s) && a.RotateStep? && Enabled(s, a)
    ensures Invariant(Next(s, a))
  {
    hide RotatedPolicy, Stored, ResourcesValid, LifetimeOk, GrantsOf, AllIntegrationsOk, ReplacesNothing;
    var t := Next(s, a);
    if t != s {
      var c := s.credentials[a.id];
      assert CredentialOk(s, c);
      RotatedStored(s, a);
      var m := s.(credentials := s.credentials[a.id := RevokedAt(c, a.now)]);
      RevokedKeeps(s, a.id, a.now);
      var n := m.(credentials := m.credentials[a.newId := t.credentials[a.newId]]);
      IssuedKeeps(m, n, a.newId, t.credentials[a.newId]);
      var r := Rotation(a.id, a.newId, ReplacesNothing(a.body));
      forall j | 0 <= j < |s.rotations| ensures s.rotations[j].previous != r.previous && s.rotations[j].next != r.next {
        assert RotationOk(s, s.rotations[j]);
      }
      RotationLogged(n, r);
      assert t == n.(rotations := n.rotations + [r]);
    }
  }

  lemma HiddenIntegrations(s: State, a: Step, j: string)
    requires AllIntegrationsOk(s) && a.HideStep? && Next(s, a) != s && j in s.integrations
    ensures j in Next(s, a).integrations && IntegrationOk(Next(s, a), j)
  {
    hide Visible, AllIntegrationsOk;
    var t := Next(s, a);
    assert IntegrationOk(s, j) by { IntegrationIsOk(s, j); }
    forall k ensures Owns(t, k, j) <==> Owns(s, k, j) {}
    if j == a.target.integration {
      assert Owns(t, a.id, j);
      VisibleNone(t, j);
    }
  }

  lemma IntegrationIsOk(s: State, j: string)
    requires AllIntegrationsOk(s) && j in s.integrations
    ensures IntegrationOk(s, j)
  {
  }

  lemma HiddenCredentials(s: State, a: Step)
    requires AllCredentialsOk(s) && a.HideStep?
    ensures AllCredentialsOk(Next(s, a))
  {
    hide Stored, LifetimeOk, Visible;
    var t := Next(s, a);
    forall k | k in t.credentials ensures CredentialOk(t, t.credentials[k]) {
      assert CredentialOk(s, s.credentials[k]);
    }
  }

  lemma HideKeeps(s: State, a: Step)
    requires Invariant(s) && a.HideStep?
    ensures Invariant(Next(s, a))
  {
    hide Stored, LifetimeOk, EachReplacedOnce, IntegrationOk, AllCredentialsOk, Visible;
    var t := Next(s, a);
    if t != s {
      HiddenCredentials(s, a);
      forall j | j in t.integrations ensures IntegrationOk(t, j) {
        HiddenIntegrations(s, a, j);
      }
      forall j | 0 <= j < |t.rotations| ensures RotationOk(t, t.rotations[j]) {
        assert RotationOk(s, s.rotations[j]);
      }
    }
  }

  lemma VisibleNone(s: State, i: string)
    ensures Visible(s.credentials, i) == {} <==> forall k :: Owns(s, k, i) ==> s.credentials[k].deletedAt.Some?
  {
    if Visible(s.credentials, i) == {} {
      forall k | Owns(s, k, i) ensures s.credentials[k].deletedAt.Some? {
        assert k !in Visible(s.credentials, i);
      }
    }
  }

  lemma AuthorityKeeps(s: State, a: Step)
    requires Invariant(s) && Enabled(s, a)
    requires a.LoseAuthorityStep? || a.GainAuthorityStep? || a.DeleteAccountStep? || a.TouchStep?
    ensures Invariant(Next(s, a))
  {
    hide Stored, LifetimeOk, AllIntegrationsOk, AllRotationsOk, EachReplacedOnce;
    var t := Next(s, a);
    forall k | k in t.credentials ensures CredentialOk(t, t.credentials[k]) {
      assert CredentialOk(s, s.credentials[k]);
    }
    NextEvolves(s, a);
    ChangedKeeps(s, t);
  }

  lemma RevokeKeeps(s: State, a: Step)
    requires Invariant(s) && a.RevokeStep?
    ensures Invariant(Next(s, a))
  {
    hide Invariant;
    if Next(s, a) != s {
      RevokedKeeps(s, a.id, a.now);
    }
  }

  lemma NextKeeps(s: State, a: Step)
    requires Invariant(s)
    ensures Invariant(Next(s, a))
  {
    hide Invariant, CreateIntegration, CreateWithCredential, CreateCredential, Rotate, Revoke, Hide, LoseAuthority, DeleteAccount, Touch;
    if Enabled(s, a) {
      match a
      case RotateStep(_, _, _, _, _, _, _, _, _) => RotateKeeps(s, a);
      case RevokeStep(_, _, _, _) => RevokeKeeps(s, a);
      case HideStep(_, _, _, _) => HideKeeps(s, a);
      case CreateIntegrationStep(_, _, _, _) => CreateKeeps(s, a);
      case CreateBothStep(_, _, _, _, _, _, _, _) => CreateKeeps(s, a);
      case CreateCredentialStep(_, _, _, _, _, _) => CreateKeeps(s, a);
      case _ => AuthorityKeeps(s, a);
    }
  }

  lemma {:induction false} RunKeeps(s: State, steps: seq<Step>)
    requires Invariant(s)
    ensures Invariant(Run(s, steps)) && Evolves(s, Run(s, steps))
    decreases |steps|
  {
    hide Invariant, Next, Forward;
    if steps == [] {
      assert forall k :: k in s.credentials ==> Forward(s.credentials[k], s.credentials[k]) by { ForwardSelf(); }
    } else {
      var init := steps[..|steps| - 1];
      RunKeeps(s, init);
      NextKeeps(Run(s, init), steps[|steps| - 1]);
      NextEvolves(Run(s, init), steps[|steps| - 1]);
      EvolvesTransitive(s, Run(s, init), Run(s, steps));
    }
  }

  lemma ReachableSound(steps: seq<Step>)
    ensures Invariant(Run(EMPTY, steps))
  {
    RunKeeps(EMPTY, steps);
  }

  lemma ForwardSelf()
    ensures forall c :: Forward(c, c)
  {
  }

  // ----- results -----

  /** Over every run: credentials move only forward and never change what they are; lifetimes stay within a year. */
  lemma Lifecycle(before: seq<Step>, after: seq<Step>)
    ensures var s := Run(EMPTY, before);
            && Invariant(s) && Evolves(s, Run(s, after))
            && (forall k :: k in s.credentials ==> 0 < s.credentials[k].expiresAt - s.credentials[k].createdAt <= MAX_LIFETIME)
  {
    hide Evolves;
    ReachableSound(before);
    RunKeeps(Run(EMPTY, before), after);
    var s := Run(EMPTY, before);
    forall k | k in s.credentials ensures 0 < s.credentials[k].expiresAt - s.credentials[k].createdAt <= MAX_LIFETIME {
      assert CredentialOk(s, s.credentials[k]);
    }
  }

  /** An integration is deleted exactly when it has credentials and every one of them is hidden. */
  lemma DeletedExactly(steps: seq<Step>, i: string)
    ensures var s := Run(EMPTY, steps);
            i in s.integrations ==>
              (s.integrations[i].status == Deleted <==>
               (exists k :: Owns(s, k, i)) && (forall k :: Owns(s, k, i) ==> Stage(s.credentials[k]) == 2))
  {
    hide AllCredentialsOk, AllRotationsOk;
    ReachableSound(steps);
    var s := Run(EMPTY, steps);
    if i in s.integrations {
      assert IntegrationOk(s, i);
    }
  }

  /** Who gets in: the holder of an active credential, within its lifetime, from an address it allows; the rest follows. */
  lemma AuthenticatesExactly(steps: seq<Step>, id: string, clientIp: Option<string>, now: int)
    ensures var s := Run(EMPTY, steps);
            Authenticates(s, id, clientIp, now) <==>
              id in s.credentials && Stage(s.credentials[id]) == 0 && s.credentials[id].createdAt <= now < s.credentials[id].expiresAt
              && (!s.credentials[id].grants.cidrFlag
                  || (clientIp.Some? && ParseAddress(clientIp.value).Some?
                      && exists j :: 0 <= j < |s.credentials[id].grants.cidrs|
                                     && InCidr(ParseAddress(clientIp.value).value, s.credentials[id].grants.cidrs[j])))
  {
    hide IsIpAllowed, ParseAddress, InCidr, AllRotationsOk;
    ReachableSound(steps);
    var s := Run(EMPTY, steps);
    if id in s.credentials {
      var c := s.credentials[id];
      assert CredentialOk(s, c);
      assert IntegrationOk(s, c.integration);
      assert Owns(s, id, c.integration);
      AllowedIsPrefixMembership(clientIp, c.grants.cidrs, c.grants.cidrFlag);
      StoredParts(c.grants);
    }
  }

  /** Once revoked, whatever happens later, the credential never authenticates again. */
  lemma RevokedIsFinal(before: seq<Step>, after: seq<Step>, id: string, clientIp: Option<string>, now: int)
    ensures var s := Run(EMPTY, before);
            id in s.credentials && s.credentials[id].status == Revoked ==> !Authenticates(Run(s, after), id, clientIp, now)
  {
    hide Invariant, IsIpAllowed;
    ReachableSound(before);
    RunKeeps(Run(EMPTY, before), after);
  }

  /** Active from now to the asked-for expiry, granting what the input names, networks and flags included. */
  ghost predicate AsRequested(c: Credential, integration: string, input: PolicyInput, now: int) {
    && Stage(c) == 0 && c.revokedAt.None? && c.integration == integration && c.createdAt == now && c.expiresAt == input.expiresAt
    && (forall x :: x in c.grants.scopes <==> x in input.scopes)
    && (forall x :: x in c.grants.categories <==> x in Trimmed(ListOr(input.categoryIds)))
    && (forall x :: x in c.grants.sources <==> x in Trimmed(ListOr(input.sourceIds)))
    && (forall n :: Lists(c.grants.cidrs, n) <==> Lists(Trimmed(ListOr(input.cidrs)), n))
    && Some(c.grants.categoryFlag) == input.categoryFlag && Some(c.grants.sourceFlag) == input.sourceFlag
    && (c.grants.cidrFlag <==> input.cidrFlag == Some(true))
  }

  lemma StoredAsRequested(integration: string, input: PolicyInput, now: int)
    ensures NormalizePolicy(input, now).Ok? ==>
              AsRequested(NewCredential(integration, NormalizePolicy(input, now).value, now), integration, input, now)
  {
    hide Acceptable, Stored, ListOr, Trimmed, Lists;
    NormalizePolicySound(input, now);
    PolicyFields(input, now);
    hide NormalizePolicy;
  }

  /** An issued credential is what was asked for, within the resources there are. */
  lemma IssuedAsRequested(s: State, integration: string, id: string, input: PolicyInput, now: int, actor: Option<string>, r: Resources)
    ensures var d := CreateCredential(s, integration, id, input, now, actor, r);
            d.answer.Ok? ==>
              id in d.state.credentials
              && var c := d.state.credentials[id];
                 AsRequested(c, integration, input, now) && c.grants.categories <= r.categories && c.grants.sources <= r.sources
  {
    hide AsRequested, NormalizePolicy;
    StoredAsRequested(integration, input, now);
  }

  lemma PolicyFields(input: PolicyInput, now: int)
    ensures NormalizePolicy(input, now).Ok? ==>
              var p := NormalizePolicy(input, now).value;
              p.expiresAt == input.expiresAt && Some(p.categoryFlag) == input.categoryFlag && Some(p.sourceFlag) == input.sourceFlag
              && (p.cidrFlag <==> input.cidrFlag == Some(true))
  {
  }

  // What each way of ending a credential leaves: a revoked row, at once.

  lemma RevokeEnds(s: State, id: string, now: int, actor: Option<string>, target: Option<Target>)
    requires Revoke(s, id, now, actor, target).answer == Ok(true)
    ensures id in s.credentials && s.credentials[id].status == Active
    ensures id in Revoke(s, id, now, actor, target).state.credentials && Revoke(s, id, now, actor, target).state.credentials[id].status == Revoked
  {
  }

  lemma RotateEnds(s: State, a: Step)
    requires a.RotateStep? && Enabled(s, a) && Next(s, a) != s
    ensures a.id in s.credentials && s.credentials[a.id].status == Active
    ensures a.id in Next(s, a).credentials && Next(s, a).credentials[a.id].status == Revoked
    ensures a.newId in Next(s, a).credentials && Next(s, a).credentials[a.newId].status == Active
  {
    hide RotatedPolicy, ResourcesValid, ReplacesNothing, GrantsOf, Reads;
  }

  /** Losing the membership or the account leaves the creator no active credential. */
  lemma AuthorityEnds(s: State, workspace: string, user: string, now: int, k: string)
    requires k in s.credentials
    ensures CreatedBy(s, s.credentials[k].integration, Some(workspace), user) ==> LoseAuthority(s, workspace, user, now).credentials[k].status == Revoked
    ensures CreatedBy(s, s.credentials[k].integration, None, user) ==> DeleteAccount(s, user, now).credentials[k].status == Revoked
  {
  }

  /** The step ends the credential: a revocation that took place, a rotation away from it, or its creator's loss of authority or account. */
  predicate Ends(s: State, a: Step, k: string) {
    match a
    case RevokeStep(id, now, actor, target) => id == k && Revoke(s, id, now, actor, target).answer == Ok(true)
    case RotateStep(id, _, _, _, _, _, _, _, _) => id == k && Next(s, a) != s
    case LoseAuthorityStep(workspace, user, _) => k in s.credentials && CreatedBy(s, s.credentials[k].integration, Some(workspace), user)
    case DeleteAccountStep(user, _) => k in s.credentials && CreatedBy(s, s.credentials[k].integration, None, user)
    case _ => false
  }

  lemma EndedIsRevoked(s: State, a: Step, k: string)
    requires Enabled(s, a) && Ends(s, a, k)
    ensures k in Next(s, a).credentials && Next(s, a).credentials[k].status == Revoked
  {
    hide RotatedPolicy, ResourcesValid, ReplacesNothing, GrantsOf, Reads, OnTarget;
    match a
    case RevokeStep(id, now, actor, target) => RevokeEnds(s, id, now, actor, target);
    case RotateStep(_, _, _, _, _, _, _, _, _) => RotateEnds(s, a);
    case LoseAuthorityStep(workspace, user, now) => AuthorityEnds(s, workspace, user, now, k);
    case DeleteAccountStep(user, now) => AuthorityEnds(s, "", user, now, k);
  }

  /** After any of these, whatever follows, nobody authenticates with the credential, at any time and from anywhere. */
  lemma EndedNeverAuthenticates(before: seq<Step>, a: Step, after: seq<Step>, k: string, clientIp: Option<string>, now: int)
    ensures var s := Run(EMPTY, before);
            Enabled(s, a) && Ends(s, a, k) ==> !Authenticates(Run(Next(s, a), after), k, clientIp, now)
  {
    hide Run, Next, Ends, Enabled, Authenticates;
    var s := Run(EMPTY, before);
    if Enabled(s, a) && Ends(s, a, k) {
      EndedIsRevoked(s, a, k);
      OneMoreStep(before, a);
      RevokedIsFinal(before + [a], after, k, clientIp, now);
    }
  }

  lemma OneMoreStep(steps: seq<Step>, a: Step)
    ensures Run(EMPTY, steps + [a]) == Next(Run(EMPTY, steps), a)
  {
    assert (steps + [a])[..|steps|] == steps;
  }

  function ActiveOf(s: State, integration: string): set<string> {
    set k | k in s.credentials && s.credentials[k].integration == integration && s.credentials[k].status == Active
  }

  /** A rotation swaps one active credential of its integration for another; every other integration is untouched. */
  lemma RotationKeepsActiveCount(s: State, a: Step, i: string)
    requires a.RotateStep? && Enabled(s, a)
    ensures |ActiveOf(Next(s, a), i)| == |ActiveOf(s, i)|
    ensures Next(s, a) != s && i == s.credentials[a.id].integration ==>
              a.id in ActiveOf(s, i) && a.newId !in ActiveOf(s, i) && ActiveOf(Next(s, a), i) == ActiveOf(s, i) - {a.id} + {a.newId}
  {
    hide NormalizePolicy, RotatedPolicy, ResourcesValid, ReplacesNothing, GrantsOf, Reads;
    var t := Next(s, a);
    if t != s && i == s.credentials[a.id].integration {
      assert ActiveOf(t, i) == ActiveOf(s, i) - {a.id} + {a.newId};
    } else {
      assert ActiveOf(t, i) == ActiveOf(s, i);
    }
  }

  /** The other calls: an issue adds one, a revocation removes one, hiding and usage stamps change nothing. */
  lemma ActiveCountOtherwise(s: State, a: Step, i: string)
    requires Enabled(s, a) && Invariant(s)
    ensures a.CreateCredentialStep? || a.CreateBothStep? ==>
              ActiveOf(Next(s, a), i) == ActiveOf(s, i) + if Next(s, a) != s && Next(s, a).credentials[a.newId].integration == i then {a.newId} else {}
    ensures a.RevokeStep? ==> ActiveOf(Next(s, a), i) == if Next(s, a) != s then ActiveOf(s, i) - {a.id} else ActiveOf(s, i)
    ensures a.HideStep? || a.TouchStep? || a.GainAuthorityStep? || a.CreateIntegrationStep? ==> ActiveOf(Next(s, a), i) == ActiveOf(s, i)
  {
    hide NormalizePolicy, RotatedPolicy, ResourcesValid, ReplacesNothing, GrantsOf, Reads, Invariant;
  }

  /** Consecutive ids of a chain are recorded rotations that replaced nothing. */
  ghost predicate PlainChain(s: State, chain: seq<string>) {
    forall j :: 0 <= j < |chain| - 1 ==> Rotation(chain[j], chain[j + 1], true) in s.rotations
  }

  lemma {:induction false} ChainSameGrants(s: State, chain: seq<string>)
    requires Invariant(s) && PlainChain(s, chain) && |chain| >= 2
    ensures var last := chain[|chain| - 1];
            chain[0] in s.credentials && last in s.credentials && s.credentials[last].grants == s.credentials[chain[0]].grants
            && s.credentials[last].integration == s.credentials[chain[0]].integration
  {
    hide AllCredentialsOk, AllIntegrationsOk;
    var n := |chain| - 1;
    assert Rotation(chain[n - 1], chain[n - 1 + 1], true) in s.rotations;
    var j :| 0 <= j < |s.rotations| && s.rotations[j] == Rotation(chain[n - 1], chain[n], true);
    assert RotationOk(s, s.rotations[j]);
    if n > 1 {
      var init := chain[..n];
      forall i | 0 <= i < |init| - 1 ensures Rotation(init[i], init[i + 1], true) in s.rotations {
        assert init[i] == chain[i] && init[i + 1] == chain[i + 1];
      }
      ChainSameGrants(s, init);
    }
  }

  /** Any chain of rotations that replaces nothing grants the same scopes, ids and networks, and each link is used once. */
  lemma StablePolicy(steps: seq<Step>, chain: seq<string>)
    ensures var s := Run(EMPTY, steps);
            EachReplacedOnce(s.rotations)
            && (PlainChain(s, chain) && |chain| >= 2 ==>
                  chain[0] in s.credentials && chain[|chain| - 1] in s.credentials
                  && s.credentials[chain[|chain| - 1]].grants == s.credentials[chain[0]].grants)
  {
    hide AllCredentialsOk, AllIntegrationsOk, AllRotationsOk, PlainChain;
    ReachableSound(steps);
    if PlainChain(Run(EMPTY, steps), chain) && |chain| >= 2 {
      ChainSameGrants(Run(EMPTY, steps), chain);
    }
  }

  /** A rotation planned on an earlier reading of the row plans the same as one on the locked row. */
  lemma EarlierReadPlansTheSame(s: State, steps: seq<Step>, id: string, body: RotateBody, categoryOrder: seq<string>, sourceOrder: seq<string>, now: int)
    requires Invariant(s) && id in s.credentials
    ensures id in Run(s, steps).credentials
            && RotatedPolicy(body, s.credentials[id].grants, categoryOrder, sourceOrder, now)
               == RotatedPolicy(body, Run(s, steps).credentials[id].grants, categoryOrder, sourceOrder, now)
  {
    hide Invariant, RotatedPolicy;
    RunKeeps(s, steps);
  }
}
