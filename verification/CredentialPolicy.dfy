/** A credential's policy: what an input must satisfy, what is stored, and how a rotation carries it over. */
module CredentialPolicy {
  import opened Wrappers
  import opened Text
  import opened Sorting
  import opened NetworkPolicy
  import opened NetworkTheorems

  const MAX_LIFETIME: int := 365 * 24 * 60 * 60 * 1000

  const SCOPES: seq<string> := [
    "transactions:create", "transactions:read-own", "transactions:update-own", "transactions:delete-own",
    "categories:read", "payment-sources:read"
  ]

  /** What a caller passes; an absent flag is None, an absent list is None. */
  datatype PolicyInput = PolicyInput(
    expiresAt: int,
    scopes: seq<string>,
    categoryFlag: Option<bool>, categoryIds: Option<seq<string>>,
    sourceFlag: Option<bool>, sourceIds: Option<seq<string>>,
    cidrFlag: Option<bool>, cidrs: Option<seq<string>>)

  datatype Policy = Policy(
    expiresAt: int,
    scopes: seq<string>,
    categoryFlag: bool, categoryIds: seq<string>,
    sourceFlag: bool, sourceIds: seq<string>,
    cidrFlag: bool, cidrs: seq<string>)

  /** What a stored credential grants; each restriction is a row keyed by credential and resource. */
  datatype Grants = Grants(
    scopes: seq<string>,
    categoryFlag: bool, categories: set<string>,
    sourceFlag: bool, sources: set<string>,
    cidrFlag: bool, cidrs: seq<string>)

  datatype Refusal = PolicyNotSelected | IdMissing | CidrInvalid | RestrictionNotEnabled | ExpiryOutOfRange | ScopeUnsupported
                   | FlagMissing | Forbidden | Unavailable | NotFound | CannotRotate | NotRevoked | ResourceInvalid
                   | FieldMissing | NameTooLong

  function ListOr(o: Option<seq<string>>): seq<string> {
    if o.Some? then o.value else []
  }

  // ----- the normaliser -----

  predicate IdsPresent(ids: seq<string>) {
    forall i :: 0 <= i < |ids| ==> Trim(ids[i]) != ""
  }

  function UniqueIds(ids: seq<string>): Result<seq<string>, Refusal> {
    if IdsPresent(ids) then Ok(Dedupe(Trimmed(ids))) else Err(IdMissing)
  }

  predicate ScopesSupported(scopes: seq<string>) {
    forall i :: 0 <= i < |scopes| ==> scopes[i] in SCOPES
  }

  function NormalizeScopes(scopes: seq<string>): Result<seq<string>, Refusal> {
    if ScopesSupported(Dedupe(scopes)) then Ok(Sort(Dedupe(scopes), StringLe)) else Err(ScopeUnsupported)
  }

  predicate LifetimeOk(expiresAt: int, now: int) {
    0 < expiresAt - now <= MAX_LIFETIME
  }

  /** The checks in the order the service makes them. */
  function NormalizePolicy(input: PolicyInput, now: int): Result<Policy, Refusal> {
    if input.categoryFlag.None? || input.sourceFlag.None? then Err(PolicyNotSelected)
    else
      match UniqueIds(ListOr(input.categoryIds))
      case Err(e) => Err(e)
      case Ok(categories) =>
        match UniqueIds(ListOr(input.sourceIds))
        case Err(e) => Err(e)
        case Ok(sources) =>
          match NormalizeCidrs(ListOr(input.cidrs))
          case Err(_) => Err(CidrInvalid)
          case Ok(cidrs) =>
            var cidrFlag := input.cidrFlag.Some? && input.cidrFlag.value;
            if (!input.categoryFlag.value && categories != []) || (!input.sourceFlag.value && sources != [])
               || (!cidrFlag && cidrs != []) then Err(RestrictionNotEnabled)
            else if !LifetimeOk(input.expiresAt, now) then Err(ExpiryOutOfRange)
            else
              match NormalizeScopes(input.scopes)
              case Err(e) => Err(e)
              case Ok(scopes) =>
                Ok(Policy(input.expiresAt, scopes, input.categoryFlag.value, categories, input.sourceFlag.value, sources, cidrFlag, cidrs))
  }

  function Elements(ids: seq<string>): set<string> {
    set x | x in ids
  }

  function GrantsOf(p: Policy): Grants {
    Grants(p.scopes, p.categoryFlag, Elements(p.categoryIds), p.sourceFlag, Elements(p.sourceIds), p.cidrFlag, p.cidrs)
  }

  // ----- what is stored -----

  predicate AllTrimmed(ids: set<string>) {
    forall x :: x in ids ==> x != "" && Trim(x) == x
  }

  predicate StoredScopes(scopes: seq<string>) {
    Distinct(scopes) && Sorted(scopes, StringLe) && ScopesSupported(scopes)
  }

  /** Every stored policy is already in normal form. */
  predicate Stored(g: Grants) {
    && StoredScopes(g.scopes)
    && AllTrimmed(g.categories) && AllTrimmed(g.sources) && IsNormalized(g.cidrs)
    && (g.categoryFlag || g.categories == {}) && (g.sourceFlag || g.sources == {}) && (g.cidrFlag || g.cidrs == [])
  }

  lemma TrimmedMembers(ids: seq<string>)
    ensures forall x :: x in Trimmed(ids) <==> exists i :: 0 <= i < |ids| && x == Trim(ids[i])
  {
    forall x ensures x in Trimmed(ids) <==> exists i :: 0 <= i < |ids| && x == Trim(ids[i]) {
      if x in Trimmed(ids) {
        var i :| 0 <= i < |Trimmed(ids)| && Trimmed(ids)[i] == x;
      }
      if i :| 0 <= i < |ids| && x == Trim(ids[i]) {
        assert Trimmed(ids)[i] == x;
      }
    }
  }

  lemma UniqueIdsSound(ids: seq<string>)
    requires IdsPresent(ids)
    ensures var u := UniqueIds(ids).value;
            Distinct(u) && AllTrimmed(Elements(u)) && forall x :: x in u <==> x in Trimmed(ids)
  {
    hide Trim;
    DedupeSound(Trimmed(ids));
    TrimmedMembers(ids);
    forall x | x in Elements(UniqueIds(ids).value) ensures x != "" && Trim(x) == x {
      var i :| 0 <= i < |ids| && x == Trim(ids[i]);
      TrimTwice(ids[i]);
    }
  }

  lemma SupportedMembers(a: seq<string>, b: seq<string>)
    requires forall x :: x in a <==> x in b
    ensures ScopesSupported(a) <==> ScopesSupported(b)
  {
    if ScopesSupported(b) {
      forall i | 0 <= i < |a| ensures a[i] in SCOPES { assert a[i] in b; }
    }
    if ScopesSupported(a) {
      forall i | 0 <= i < |b| ensures b[i] in SCOPES { assert b[i] in a; }
    }
  }

  lemma ScopesSound(scopes: seq<string>)
    ensures NormalizeScopes(scopes).Ok? <==> ScopesSupported(scopes)
    ensures NormalizeScopes(scopes).Ok? ==>
              StoredScopes(NormalizeScopes(scopes).value) && forall x :: x in NormalizeScopes(scopes).value <==> x in scopes
  {
    DedupeSound(scopes);
    SupportedMembers(Dedupe(scopes), scopes);
    StringLeOrders();
    var d := Dedupe(scopes);
    SortSound(d, StringLe);
    SortDistinct(d, StringLe);
    MultisetMembers(Sort(d, StringLe), d);
    SupportedMembers(Sort(d, StringLe), d);
  }

  /** What the service accepts, stated on the input alone. */
  predicate Acceptable(input: PolicyInput, now: int) {
    && input.categoryFlag.Some? && input.sourceFlag.Some?
    && IdsPresent(ListOr(input.categoryIds)) && IdsPresent(ListOr(input.sourceIds))
    && (forall i :: 0 <= i < |ListOr(input.cidrs)| ==> ParseCidr(Trim(ListOr(input.cidrs)[i])).Some?)
    && (input.categoryFlag.value || ListOr(input.categoryIds) == [])
    && (input.sourceFlag.value || ListOr(input.sourceIds) == [])
    && (input.cidrFlag == Some(true) || ListOr(input.cidrs) == [])
    && 0 < input.expiresAt - now <= 365 * 24 * 60 * 60 * 1000
    && ScopesSupported(input.scopes)
  }

  lemma DedupeEmpty(ids: seq<string>)
    ensures Dedupe(Trimmed(ids)) == [] <==> ids == []
  {
    DedupeSound(Trimmed(ids));
    if ids != [] {
      assert Trimmed(ids)[0] in Trimmed(ids);
    }
  }

  lemma NormalizedEmpty(cidrs: seq<string>)
    requires NormalizeCidrs(cidrs).Ok?
    ensures NormalizeCidrs(cidrs).value == [] <==> cidrs == []
  {
  }

  /** A policy is accepted exactly when the input is in order; what is stored then is in normal form and means the same. */
  lemma NormalizePolicySound(input: PolicyInput, now: int)
    ensures NormalizePolicy(input, now).Ok? <==> Acceptable(input, now)
    ensures NormalizePolicy(input, now).Ok? ==>
              var g := GrantsOf(NormalizePolicy(input, now).value);
              && Stored(g) && LifetimeOk(NormalizePolicy(input, now).value.expiresAt, now)
              && (forall x :: x in g.scopes <==> x in input.scopes)
              && (forall x :: x in g.categories <==> x in Trimmed(ListOr(input.categoryIds)))
              && (forall x :: x in g.sources <==> x in Trimmed(ListOr(input.sourceIds)))
              && (forall n :: Lists(g.cidrs, n) <==> Lists(Trimmed(ListOr(input.cidrs)), n))
  {
    hide Trim, NormalizeScopes, ScopesSupported, NormalizeCidrs, IdsPresent, AllTrimmed, IsNormalized, Lists, ParseCidr, StoredScopes, Trimmed;
    var categories, sources, cidrs := ListOr(input.categoryIds), ListOr(input.sourceIds), ListOr(input.cidrs);
    ScopesSound(input.scopes);
    NormalizeSound(cidrs);
    DedupeEmpty(categories);
    DedupeEmpty(sources);
    if NormalizeCidrs(cidrs).Ok? {
      NormalizedEmpty(cidrs);
    }
    if IdsPresent(categories) && IdsPresent(sources) {
      UniqueIdsSound(categories);
      UniqueIdsSound(sources);
    }
  }

  /** Which refusal an input that is not acceptable meets: the first of the checks it fails. */
  lemma PolicyRefusals(input: PolicyInput, now: int)
    ensures var result := NormalizePolicy(input, now);
            var chosen := input.categoryFlag.Some? && input.sourceFlag.Some?;
            var named := chosen && IdsPresent(ListOr(input.categoryIds)) && IdsPresent(ListOr(input.sourceIds));
            var parsed := named && forall i :: 0 <= i < |ListOr(input.cidrs)| ==> ParseCidr(Trim(ListOr(input.cidrs)[i])).Some?;
            var enabled := parsed && (input.categoryFlag.value || ListOr(input.categoryIds) == [])
                           && (input.sourceFlag.value || ListOr(input.sourceIds) == [])
                           && (input.cidrFlag == Some(true) || ListOr(input.cidrs) == []);
            var inTime := enabled && 0 < input.expiresAt - now <= 365 * 24 * 60 * 60 * 1000;
            && (result == Err(PolicyNotSelected) <==> !chosen)
            && (result == Err(IdMissing) <==> chosen && !named)
            && (result == Err(CidrInvalid) <==> named && !parsed)
            && (result == Err(RestrictionNotEnabled) <==> parsed && !enabled)
            && (result == Err(ExpiryOutOfRange) <==> enabled && !inTime)
            && (result == Err(ScopeUnsupported) <==> inTime && !ScopesSupported(input.scopes))
            && (result.Ok? <==> inTime && ScopesSupported(input.scopes))
  {
    hide Trim, NormalizeCidrs, IdsPresent, ParseCidr, ScopesSupported, StoredScopes;
    var categories, sources, cidrs := ListOr(input.categoryIds), ListOr(input.sourceIds), ListOr(input.cidrs);
    ScopesSound(input.scopes);
    NormalizeSound(cidrs);
    DedupeEmpty(categories);
    DedupeEmpty(sources);
    if NormalizeCidrs(cidrs).Ok? {
      NormalizedEmpty(cidrs);
    }
    if !ScopesSupported(input.scopes) {
      ScopeRefusal(input.scopes);
    }
  }

  lemma ScopeRefusal(scopes: seq<string>)
    requires !ScopesSupported(scopes)
    ensures NormalizeScopes(scopes) == Err(ScopeUnsupported)
  {
    ScopesSound(scopes);
  }

  // ----- a stored policy is a fixed point -----

  /** A reading of restriction rows: each once, in any order. */
  predicate Reads(order: seq<string>, rows: set<string>) {
    Distinct(order) && Elements(order) == rows
  }

  lemma TrimmedStays(order: seq<string>, rows: set<string>)
    requires Reads(order, rows) && AllTrimmed(rows)
    ensures UniqueIds(order) == Ok(order)
  {
    forall i | 0 <= i < |order| ensures Trim(order[i]) == order[i] != "" {
      assert order[i] in Elements(order);
    }
    assert Trimmed(order) == order;
    DedupeStays(order);
  }

  lemma StoredScopesStay(scopes: seq<string>)
    requires StoredScopes(scopes)
    ensures NormalizeScopes(scopes) == Ok(scopes)
  {
    DedupeStays(scopes);
    SortStays(scopes, StringLe);
  }

  // ----- rotation -----

  /** The replaceable part of a rotation request. */
  datatype RotateBody = RotateBody(
    expiresAt: int,
    scopes: Option<seq<string>>,
    categoryFlag: Option<bool>, categoryIds: Option<seq<string>>,
    sourceFlag: Option<bool>, sourceIds: Option<seq<string>>,
    cidrFlag: Option<bool>, cidrs: Option<seq<string>>)

  function FlagOr(o: Option<bool>, previous: bool): Option<bool> {
    Some(if o.Some? then o.value else previous)
  }

  /** A list without its flag is refused; a flag without its list replaces the list by nothing. */
  function RotationPolicy(body: RotateBody, previous: Grants, categoryOrder: seq<string>, sourceOrder: seq<string>): Result<PolicyInput, Refusal> {
    if body.categoryIds.Some? && body.categoryFlag.None? then Err(FlagMissing)
    else if body.sourceIds.Some? && body.sourceFlag.None? then Err(FlagMissing)
    else if body.cidrs.Some? && body.cidrFlag.None? then Err(FlagMissing)
    else
      Ok(PolicyInput(
           body.expiresAt,
           if body.scopes.Some? then body.scopes.value else previous.scopes,
           FlagOr(body.categoryFlag, previous.categoryFlag), Some(if body.categoryFlag.None? then categoryOrder else ListOr(body.categoryIds)),
           FlagOr(body.sourceFlag, previous.sourceFlag), Some(if body.sourceFlag.None? then sourceOrder else ListOr(body.sourceIds)),
           FlagOr(body.cidrFlag, previous.cidrFlag), Some(if body.cidrFlag.None? then previous.cidrs else ListOr(body.cidrs))))
  }

  /** The management call's order: flags, expiry, then the policy as a whole. */
  function RotatedPolicy(body: RotateBody, previous: Grants, categoryOrder: seq<string>, sourceOrder: seq<string>, now: int): Result<Policy, Refusal> {
    match RotationPolicy(body, previous, categoryOrder, sourceOrder)
    case Err(e) => Err(e)
    case Ok(input) => if LifetimeOk(body.expiresAt, now) then NormalizePolicy(input, now) else Err(ExpiryOutOfRange)
  }

  predicate ReplacesNothing(body: RotateBody) {
    && body.scopes.None?
    && body.categoryFlag.None? && body.categoryIds.None?
    && body.sourceFlag.None? && body.sourceIds.None?
    && body.cidrFlag.None? && body.cidrs.None?
  }

  /** What the request replaces is as it says, and the rest is as it was granted. */
  ghost predicate CarriedOver(g: Grants, previous: Grants, body: RotateBody) {
    && (if body.scopes.None? then g.scopes == previous.scopes else forall x :: x in g.scopes <==> x in body.scopes.value)
    && (if body.categoryFlag.None? then g.categoryFlag == previous.categoryFlag && g.categories == previous.categories
        else g.categoryFlag == body.categoryFlag.value && forall x :: x in g.categories <==> x in Trimmed(ListOr(body.categoryIds)))
    && (if body.sourceFlag.None? then g.sourceFlag == previous.sourceFlag && g.sources == previous.sources
        else g.sourceFlag == body.sourceFlag.value && forall x :: x in g.sources <==> x in Trimmed(ListOr(body.sourceIds)))
    && (if body.cidrFlag.None? then g.cidrFlag == previous.cidrFlag && g.cidrs == previous.cidrs
        else g.cidrFlag == body.cidrFlag.value && forall n :: Lists(g.cidrs, n) <==> Lists(Trimmed(ListOr(body.cidrs)), n))
  }

  /** Whatever a rotation does not replace stays exactly as stored; what it replaces is what the request says. */
  lemma RotationKeepsTheRest(body: RotateBody, previous: Grants, categoryOrder: seq<string>, sourceOrder: seq<string>, now: int)
    requires Stored(previous) && Reads(categoryOrder, previous.categories) && Reads(sourceOrder, previous.sources)
    ensures var r := RotatedPolicy(body, previous, categoryOrder, sourceOrder, now);
            r.Ok? ==> CarriedOver(GrantsOf(r.value), previous, body) && r.value.expiresAt == body.expiresAt
  {
    hide Trim, NormalizeScopes, NormalizeCidrs, AllTrimmed, IsNormalized, Lists, UniqueIds, StoredScopes, Trimmed, Acceptable, Stored;
    StoredParts(previous);
    StoredScopesStay(previous.scopes);
    NormalizedStays(previous.cidrs);
    TrimmedStays(categoryOrder, previous.categories);
    TrimmedStays(sourceOrder, previous.sources);
    var i := RotationPolicy(body, previous, categoryOrder, sourceOrder);
    if i.Ok? {
      NormalizePolicySound(i.value, now);
    }
  }

  lemma StoredParts(g: Grants)
    requires Stored(g)
    ensures StoredScopes(g.scopes) && AllTrimmed(g.categories) && AllTrimmed(g.sources) && IsNormalized(g.cidrs)
    ensures (g.categoryFlag || g.categories == {}) && (g.sourceFlag || g.sources == {}) && (g.cidrFlag || g.cidrs == [])
  {
  }

  /** A rotation that replaces nothing is refused for its expiry alone, and otherwise grants exactly what was granted. */
  lemma PlainRotation(body: RotateBody, previous: Grants, categoryOrder: seq<string>, sourceOrder: seq<string>, now: int)
    requires Stored(previous) && Reads(categoryOrder, previous.categories) && Reads(sourceOrder, previous.sources)
    requires ReplacesNothing(body)
    ensures var r := RotatedPolicy(body, previous, categoryOrder, sourceOrder, now);
            if LifetimeOk(body.expiresAt, now) then r.Ok? && GrantsOf(r.value) == previous && r.value.expiresAt == body.expiresAt
            else r == Err(ExpiryOutOfRange)
  {
    hide Trim, NormalizeScopes, NormalizeCidrs, AllTrimmed, IsNormalized, UniqueIds, StoredScopes, Stored, LifetimeOk;
    StoredParts(previous);
    StoredScopesStay(previous.scopes);
    NormalizedStays(previous.cidrs);
    TrimmedStays(categoryOrder, previous.categories);
    TrimmedStays(sourceOrder, previous.sources);
    if categoryOrder != [] {
      assert categoryOrder[0] in Elements(categoryOrder);
    }
    if sourceOrder != [] {
      assert sourceOrder[0] in Elements(sourceOrder);
    }
  }
}
