/**
 The sliding-window limiter: one row of recent call times per key, read and rewritten under a row lock, with the
 clock read under that lock. Three policies share the row: credentials (a total and a mutation budget), failed
 authentications per source (a budget and a block) and step-up attempts (one budget).
 */
module RateLimit {
  import opened Wrappers

  const REQUEST_WINDOW_MS: nat := 60_000
  const AUTH_FAILURE_WINDOW_MS: nat := 5 * 60_000
  const CREDENTIAL_REQUEST_LIMIT: nat := 120
  const CREDENTIAL_MUTATION_LIMIT: nat := 60
  const SOURCE_FAILURE_LIMIT: nat := 20
  const SOURCE_BLOCK_MS: nat := 15 * 60_000
  const MANAGEMENT_STEP_UP_WINDOW_MS: nat := 15 * 60_000
  const MANAGEMENT_USER_ATTEMPT_LIMIT: nat := 5
  const MANAGEMENT_SOURCE_ATTEMPT_LIMIT: nat := 20

  datatype LimitRow = LimitRow(requests: seq<int>, mutations: seq<int>, blockedUntil: Option<int>, expiresAt: int)

  datatype Policy = Credential | FailedAuthentication | StepUp(limit: nat)

  function Window(p: Policy): nat {
    match p
    case Credential => REQUEST_WINDOW_MS
    case FailedAuthentication => AUTH_FAILURE_WINDOW_MS
    case StepUp(_) => MANAGEMENT_STEP_UP_WINDOW_MS
  }

  /** How many calls of one window pass. */
  function Limit(p: Policy): nat {
    match p
    case Credential => CREDENTIAL_REQUEST_LIMIT
    case FailedAuthentication => SOURCE_FAILURE_LIMIT - 1
    case StepUp(limit) => limit
  }

  /** The times still inside the window that ends now. */
  function Rolling(times: seq<int>, now: int, window: nat): seq<int> {
    if times == [] then []
    else
      var rest := Rolling(times[..|times| - 1], now, window);
      if times[|times| - 1] > now - window then rest + [times[|times| - 1]] else rest
  }

  function Least(times: seq<int>): (m: int)
    requires times != []
    ensures m in times && forall x :: x in times ==> m <= x
  {
    if |times| == 1 then times[0]
    else
      var m := Least(times[..|times| - 1]);
      assert forall x :: x in times <==> x in times[..|times| - 1] || x == times[|times| - 1];
      if times[|times| - 1] < m then times[|times| - 1] else m
  }

  function ExpiresFirst(times: seq<int>, window: nat): int
    requires times != []
  {
    Least(times) + window
  }

  function CeilDiv(a: int, b: nat): int
    requires b > 0
  {
    -((-a) / b)
  }

  function RemainingSeconds(until: int, now: int): int {
    var s := CeilDiv(until - now, 1000);
    if s > 1 then s else 1
  }

  /** The row an insert-if-absent leaves before the row lock is taken. */
  function Opened(row: Option<LimitRow>, now: int): LimitRow {
    match row case Some(r) => r case None => LimitRow([], [], None, now)
  }

  /** One locked call: the row it leaves and, when it is rejected, the instant it may be tried again. */
  function Consume(p: Policy, row: Option<LimitRow>, now: int, mutation: bool): (LimitRow, Option<int>)
    requires Limit(p) > 0
  {
    var r := Opened(row, now);
    match p
    case Credential => ConsumeCredentialRow(r, now, mutation)
    case FailedAuthentication => ConsumeFailureRow(r, now)
    case StepUp(limit) => ConsumeStepUpRow(r, now, limit)
  }

  function ConsumeCredentialRow(r: LimitRow, now: int, mutation: bool): (LimitRow, Option<int>) {
    var requests := Rolling(r.requests, now, REQUEST_WINDOW_MS);
    var mutations := Rolling(r.mutations, now, REQUEST_WINDOW_MS);
    var total := if |requests| >= CREDENTIAL_REQUEST_LIMIT then Some(ExpiresFirst(requests, REQUEST_WINDOW_MS)) else None;
    var until :=
      if mutation && |mutations| >= CREDENTIAL_MUTATION_LIMIT then
        var m := ExpiresFirst(mutations, REQUEST_WINDOW_MS);
        if total.None? || m > total.value then Some(m) else total
      else total;
    (LimitRow(if |requests| < CREDENTIAL_REQUEST_LIMIT then requests + [now] else requests,
              if until.None? && mutation then mutations + [now] else mutations,
              None, now + REQUEST_WINDOW_MS),
     until)
  }

  function ConsumeFailureRow(r: LimitRow, now: int): (LimitRow, Option<int>) {
    if r.blockedUntil.Some? && r.blockedUntil.value > now then (r, r.blockedUntil)
    else
      var requests := Rolling(r.requests, now, AUTH_FAILURE_WINDOW_MS);
      if |requests| + 1 >= SOURCE_FAILURE_LIMIT then
        (LimitRow(requests, [], Some(now + SOURCE_BLOCK_MS), now + SOURCE_BLOCK_MS), Some(now + SOURCE_BLOCK_MS))
      else (LimitRow(requests + [now], [], None, now + AUTH_FAILURE_WINDOW_MS), None)
  }

  function ConsumeStepUpRow(r: LimitRow, now: int, limit: nat): (LimitRow, Option<int>)
    requires limit > 0
  {
    var requests := Rolling(r.requests, now, MANAGEMENT_STEP_UP_WINDOW_MS);
    if |requests| >= limit then
      (LimitRow(requests, [], None, now + MANAGEMENT_STEP_UP_WINDOW_MS), Some(ExpiresFirst(requests, MANAGEMENT_STEP_UP_WINDOW_MS)))
    else (LimitRow(requests + [now], [], None, now + MANAGEMENT_STEP_UP_WINDOW_MS), None)
  }

  /** What the cleanup statement deletes. */
  predicate Collectable(r: LimitRow, now: int) {
    r.expiresAt <= now && (r.blockedUntil.None? || r.blockedUntil.value <= now)
  }

  // ----- a run of calls and cleanups on one key, the clock never going back -----

  datatype Event = Call(at: int, mutation: bool) | Cleanup(at: int)

  ghost predicate Ordered(events: seq<Event>) {
    forall i, j :: 0 <= i < j < |events| ==> events[i].at <= events[j].at
  }

  function Step(p: Policy, row: Option<LimitRow>, e: Event): Option<LimitRow>
    requires Limit(p) > 0
  {
    match e
    case Call(at, mutation) => Some(Consume(p, row, at, mutation).0)
    case Cleanup(at) => if row.Some? && Collectable(row.value, at) then None else row
  }

  function After(p: Policy, events: seq<Event>): Option<LimitRow>
    requires Limit(p) > 0
  {
    if events == [] then None else Step(p, After(p, events[..|events| - 1]), events[|events| - 1])
  }

  /** The i-th event is a call that passed. */
  predicate Accepted(p: Policy, events: seq<Event>, i: nat)
    requires Limit(p) > 0 && i < |events|
  {
    events[i].Call? && Consume(p, After(p, events[..i]), events[i].at, events[i].mutation).1.None?
  }

  /** How many of the first n events are accepted calls (mutations only, if asked) made in [from, to). */
  function AcceptedIn(p: Policy, events: seq<Event>, n: nat, from: int, to: int, mutationsOnly: bool): nat
    requires Limit(p) > 0 && n <= |events|
  {
    if n == 0 then 0
    else
      AcceptedIn(p, events, n - 1, from, to, mutationsOnly)
      + (if Accepted(p, events, n - 1) && from <= events[n - 1].at < to && (mutationsOnly ==> events[n - 1].mutation) then 1 else 0)
  }

  function CountFrom(times: seq<int>, from: int): nat {
    if times == [] then 0 else CountFrom(times[..|times| - 1], from) + (if times[|times| - 1] >= from then 1 else 0)
  }

  // ----- the rolling window -----

  lemma SnocElements(times: seq<int>, init: seq<int>, last: int)
    requires times == init + [last]
    ensures forall x :: x in times <==> x in init || x == last
    ensures last in times
  {
  }

  lemma {:induction false} RollingElements(times: seq<int>, now: int, window: nat)
    ensures forall x :: x in Rolling(times, now, window) <==> x in times && x > now - window
    ensures |Rolling(times, now, window)| <= |times|
    ensures |Rolling(times, now, window)| == |times| <==> forall x :: x in times ==> x > now - window
  {
    if times != [] {
      var init, x := times[..|times| - 1], times[|times| - 1];
      SnocElements(times, init, x);
      RollingElements(init, now, window);
      assert |Rolling(times, now, window)| == |Rolling(init, now, window)| + (if x > now - window then 1 else 0);
    }
  }

  lemma {:induction false} RollingNothing(times: seq<int>, now: int, window: nat)
    requires forall x :: x in times ==> x <= now - window
    ensures Rolling(times, now, window) == []
  {
    if times != [] {
      var init, last := times[..|times| - 1], times[|times| - 1];
      SnocElements(times, init, last);
      RollingNothing(init, now, window);
    }
  }

  /** Looking again later at what an earlier look kept is looking later at everything. */
  lemma {:induction false} RollingTwice(times: seq<int>, now: int, later: int, window: nat)
    requires now <= later
    ensures Rolling(Rolling(times, now, window), later, window) == Rolling(times, later, window)
  {
    if times != [] {
      var init, x := times[..|times| - 1], times[|times| - 1];
      RollingTwice(init, now, later, window);
      var kept := Rolling(init, now, window);
      if x > now - window {
        assert (kept + [x])[..|kept|] == kept;
      }
    }
  }

  lemma {:induction false} CountRolling(times: seq<int>, now: int, window: nat, from: int)
    requires from > now - window
    ensures CountFrom(Rolling(times, now, window), from) == CountFrom(times, from)
  {
    if times != [] {
      var init, x := times[..|times| - 1], times[|times| - 1];
      CountRolling(init, now, window, from);
      var kept := Rolling(init, now, window);
      assert (kept + [x])[..|kept|] == kept;
    }
  }

  lemma CountAppend(times: seq<int>, x: int, from: int)
    ensures CountFrom(times + [x], from) == CountFrom(times, from) + (if x >= from then 1 else 0)
  {
    assert (times + [x])[..|times|] == times;
  }

  lemma {:induction false} CountAtMost(times: seq<int>, from: int)
    ensures CountFrom(times, from) <= |times|
    ensures (forall x :: x in times ==> x < from) ==> CountFrom(times, from) == 0
  {
    if times != [] {
      var init, x := times[..|times| - 1], times[|times| - 1];
      SnocElements(times, init, x);
      CountAtMost(init, from);
    }
  }

  // ----- what every row keeps -----

  /** Both lists within their budgets, every mutation also a request, and nothing in the window once the row may be collected. */
  ghost predicate RowSound(p: Policy, r: LimitRow) {
    && |r.requests| <= Limit(p) && |r.mutations| <= CREDENTIAL_MUTATION_LIMIT
    && (forall x :: x in r.mutations ==> x in r.requests)
    && (forall x :: x in r.requests ==> x <= r.expiresAt - Window(p))
    && (r.blockedUntil.Some? ==> p == FailedAuthentication && r.blockedUntil == Some(r.expiresAt)
                                 && forall x :: x in r.requests ==> x <= r.expiresAt - SOURCE_BLOCK_MS)
  }

  predicate Nondecreasing(times: seq<int>) {
    forall i, j :: 0 <= i < j < |times| ==> times[i] <= times[j]
  }

  /** Both lists in clock order, and no more mutations of any instant than requests of that instant. */
  predicate InOrder(requests: seq<int>, mutations: seq<int>) {
    Nondecreasing(requests) && Nondecreasing(mutations) && multiset(mutations) <= multiset(requests)
  }

  /** A row left by an earlier call, seen no earlier than that call. */
  ghost predicate RowSoundAt(p: Policy, row: Option<LimitRow>, now: int) {
    row.Some? ==> RowSound(p, row.value) && InOrder(row.value.requests, row.value.mutations) && forall x :: x in row.value.requests ==> x <= now
  }

  /** The window keeps or drops all calls of an instant alike. */
  lemma {:induction false} RollingMultiset(times: seq<int>, now: int, window: nat, x: int)
    ensures multiset(Rolling(times, now, window))[x] == if x > now - window then multiset(times)[x] else 0
  {
    if times != [] {
      var init, last := times[..|times| - 1], times[|times| - 1];
      RollingMultiset(init, now, window, x);
      assert times == init + [last];
    }
  }

  lemma {:induction false} RollingInOrder(times: seq<int>, now: int, window: nat)
    requires Nondecreasing(times)
    ensures Nondecreasing(Rolling(times, now, window))
  {
    if times != [] {
      var init, last := times[..|times| - 1], times[|times| - 1];
      RollingInOrder(init, now, window);
      RollingElements(init, now, window);
      var kept := Rolling(init, now, window);
      forall k | 0 <= k < |kept| ensures kept[k] <= last {
        assert kept[k] in kept;
        var j :| 0 <= j < |init| && init[j] == kept[k];
        assert times[j] == init[j];
      }
    }
  }

  lemma RolledInOrder(r: LimitRow, now: int, window: nat)
    requires InOrder(r.requests, r.mutations)
    ensures InOrder(Rolling(r.requests, now, window), Rolling(r.mutations, now, window))
  {
    hide Rolling, Nondecreasing;
    RollingInOrder(r.requests, now, window);
    RollingInOrder(r.mutations, now, window);
    var requests, mutations := Rolling(r.requests, now, window), Rolling(r.mutations, now, window);
    forall x ensures multiset(mutations)[x] <= multiset(requests)[x] {
      RollingMultiset(r.requests, now, window, x);
      RollingMultiset(r.mutations, now, window, x);
    }
  }

  lemma LaterInOrder(times: seq<int>, now: int)
    requires Nondecreasing(times) && forall x :: x in times ==> x <= now
    ensures Nondecreasing(times + [now])
  {
    forall i, j | 0 <= i < j < |times + [now]| ensures (times + [now])[i] <= (times + [now])[j] {
      assert times[i] in times;
    }
  }

  lemma AppendedInOrder(requests: seq<int>, mutations: seq<int>, now: int)
    requires InOrder(requests, mutations) && forall x :: x in requests ==> x <= now
    ensures InOrder(requests + [now], mutations) && InOrder(requests + [now], mutations + [now])
    ensures InOrder(requests, []) && InOrder(requests + [now], [])
  {
    hide Nondecreasing;
    NothingInOrder();
    MutationsAreRequests(requests, mutations);
    LaterInOrder(requests, now);
    LaterInOrder(mutations, now);
    assert multiset(requests + [now]) == multiset(requests) + multiset{now};
    assert multiset(mutations + [now]) == multiset(mutations) + multiset{now};
  }

  /** A call appends its own instant, the latest, to the requests, and to the mutations only with a request. */
  lemma ConsumeInOrder(p: Policy, row: Option<LimitRow>, now: int, mutation: bool)
    requires Limit(p) > 0 && RowSoundAt(p, row, now)
    ensures var n := Consume(p, row, now, mutation).0; InOrder(n.requests, n.mutations)
  {
    hide Rolling, ExpiresFirst, InOrder, RowSound;
    var r := Opened(row, now);
    EmptyInOrder();
    RolledInOrder(r, now, Window(p));
    RollingElements(r.requests, now, Window(p));
    AppendedInOrder(Rolling(r.requests, now, Window(p)), Rolling(r.mutations, now, Window(p)), now);
  }

  lemma EmptyInOrder()
    ensures InOrder([], [])
  {
  }

  lemma NothingInOrder()
    ensures Nondecreasing([])
  {
  }

  lemma MutationsAreRequests(requests: seq<int>, mutations: seq<int>)
    requires InOrder(requests, mutations)
    ensures forall x :: x in mutations ==> x in requests
  {
    forall x | x in mutations ensures x in requests {
      assert x in multiset(mutations);
    }
  }

  lemma ConsumeSound(p: Policy, row: Option<LimitRow>, now: int, mutation: bool)
    requires Limit(p) > 0 && RowSoundAt(p, row, now)
    ensures RowSoundAt(p, Some(Consume(p, row, now, mutation).0), now)
  {
    hide Rolling, ExpiresFirst, InOrder;
    var r := Opened(row, now);
    RollingElements(r.requests, now, Window(p));
    RollingElements(r.mutations, now, Window(p));
    ConsumeInOrder(p, row, now, mutation);
  }

  lemma {:induction false} AfterSound(p: Policy, events: seq<Event>, now: int)
    requires Limit(p) > 0 && Ordered(events) && forall i :: 0 <= i < |events| ==> events[i].at <= now
    ensures RowSoundAt(p, After(p, events), now)
  {
    if events != [] {
      var init, e := events[..|events| - 1], events[|events| - 1];
      AfterSound(p, init, e.at);
      if e.Call? {
        ConsumeSound(p, After(p, init), e.at, e.mutation);
      }
    }
  }

  // ----- the rate bound -----

  function Requests(row: Option<LimitRow>): seq<int> {
    match row case Some(r) => r.requests case None => []
  }

  function Mutations(row: Option<LimitRow>): seq<int> {
    match row case Some(r) => r.mutations case None => []
  }

  /** One call: what was recorded stays recorded, and what is accepted is added. */
  lemma CallRecords(p: Policy, row: Option<LimitRow>, at: int, mutation: bool, from: int)
    requires Limit(p) > 0 && from > at - Window(p)
    ensures var (r, until) := Consume(p, row, at, mutation);
            var add := if until.None? && at >= from then 1 else 0;
            && CountFrom(r.requests, from) >= CountFrom(Requests(row), from) + add
            && (p == Credential ==> CountFrom(r.mutations, from) >= CountFrom(Mutations(row), from) + (if mutation then add else 0))
  {
    hide Rolling, CountFrom, ExpiresFirst;
    var r := Opened(row, at);
    CountRolling(r.requests, at, Window(p), from);
    CountRolling(r.mutations, at, Window(p), from);
    CountAppend(Rolling(r.requests, at, Window(p)), at, from);
    CountAppend(Rolling(r.mutations, at, Window(p)), at, from);
  }

  /** Every accepted call still inside the window is among the recorded times; so is every accepted mutation. */
  lemma {:induction false} AcceptedAreRecorded(p: Policy, events: seq<Event>, now: int, from: int, to: int)
    requires Limit(p) > 0 && Ordered(events) && (forall i :: 0 <= i < |events| ==> events[i].at <= now) && from > now - Window(p)
    ensures AcceptedIn(p, events, |events|, from, to, false) <= CountFrom(Requests(After(p, events)), from)
    ensures p == Credential ==> AcceptedIn(p, events, |events|, from, to, true) <= CountFrom(Mutations(After(p, events)), from)
  {
    hide Consume, CountFrom, RowSound;
    if events != [] {
      var init, e := events[..|events| - 1], events[|events| - 1];
      AcceptedAreRecorded(p, init, e.at, from, to);
      AcceptedPrefix(p, events, |init|, from, to);
      var row := After(p, init);
      AfterSound(p, init, e.at);
      match e
      case Call(at, mutation) => CallRecords(p, row, at, mutation, from);
      case Cleanup(at) =>
        if row.Some? && Collectable(row.value, at) {
          CollectedCountsNothing(p, row.value, at, from);
        }
    } else {
      NothingCounted(from);
    }
  }

  lemma NothingCounted(from: int)
    ensures CountFrom([], from) == 0
  {
  }

  lemma CollectedCountsNothing(p: Policy, r: LimitRow, at: int, from: int)
    requires RowSound(p, r) && Collectable(r, at) && from > at - Window(p)
    ensures CountFrom(r.requests, from) == 0 && CountFrom(r.mutations, from) == 0 && CountFrom([], from) == 0
  {
    CountAtMost(r.requests, from);
    CountAtMost(r.mutations, from);
  }

  lemma {:induction false} AcceptedPrefix(p: Policy, events: seq<Event>, n: nat, from: int, to: int)
    requires Limit(p) > 0 && n < |events|
    ensures AcceptedIn(p, events, n, from, to, false) == AcceptedIn(p, events[..n], n, from, to, false)
    ensures AcceptedIn(p, events, n, from, to, true) == AcceptedIn(p, events[..n], n, from, to, true)
  {
    AcceptedSame(p, events, events[..n], n, from, to);
  }

  lemma {:induction false} AcceptedSame(p: Policy, a: seq<Event>, b: seq<Event>, n: nat, from: int, to: int)
    requires Limit(p) > 0 && n <= |a| && n <= |b| && a[..n] == b[..n]
    ensures AcceptedIn(p, a, n, from, to, false) == AcceptedIn(p, b, n, from, to, false)
    ensures AcceptedIn(p, a, n, from, to, true) == AcceptedIn(p, b, n, from, to, true)
    decreases n
  {
    if n > 0 {
      assert a[..n - 1] == a[..n][..n - 1] == b[..n][..n - 1] == b[..n - 1];
      assert a[n - 1] == a[..n][n - 1] == b[..n][n - 1] == b[n - 1];
      AcceptedSame(p, a, b, n - 1, from, to);
    }
  }

  /** Any half-open window holds at most the limit of accepted calls, and at most 60 accepted credential mutations. */
  lemma {:induction false} RateBound(p: Policy, events: seq<Event>, from: int)
    requires Limit(p) > 0 && Ordered(events)
    ensures AcceptedIn(p, events, |events|, from, from + Window(p), false) <= Limit(p)
    ensures p == Credential ==> AcceptedIn(p, events, |events|, from, from + Window(p), true) <= CREDENTIAL_MUTATION_LIMIT
    decreases |events|
  {
    hide Consume, CountFrom, After, Accepted;
    if events != [] {
      var init, e := events[..|events| - 1], events[|events| - 1];
      if e.at < from + Window(p) {
        AcceptedAreRecorded(p, events, e.at, from, from + Window(p));
        AfterSound(p, events, e.at);
        CountAtMost(Requests(After(p, events)), from);
        CountAtMost(Mutations(After(p, events)), from);
      } else {
        RateBound(p, init, from);
        AcceptedPrefix(p, events, |init|, from, from + Window(p));
      }
    }
  }

  // ----- cleanup changes no decision -----

  function CallsOnly(events: seq<Event>): seq<Event> {
    if events == [] then []
    else
      var rest := CallsOnly(events[..|events| - 1]);
      if events[|events| - 1].Call? then rest + [events[|events| - 1]] else rest
  }

  function ActiveBlock(row: Option<LimitRow>, now: int): Option<int> {
    if row.Some? && row.value.blockedUntil.Some? && row.value.blockedUntil.value > now then row.value.blockedUntil else None
  }

  /** Two rows no call from now on can tell apart. */
  ghost predicate SameFrom(p: Policy, a: Option<LimitRow>, b: Option<LimitRow>, now: int) {
    && Rolling(Requests(a), now, Window(p)) == Rolling(Requests(b), now, Window(p))
    && Rolling(Mutations(a), now, Window(p)) == Rolling(Mutations(b), now, Window(p))
    && ActiveBlock(a, now) == ActiveBlock(b, now)
  }

  lemma SameLater(p: Policy, a: Option<LimitRow>, b: Option<LimitRow>, now: int, later: int)
    requires SameFrom(p, a, b, now) && now <= later
    ensures SameFrom(p, a, b, later)
  {
    RollingTwice(Requests(a), now, later, Window(p));
    RollingTwice(Requests(b), now, later, Window(p));
    RollingTwice(Mutations(a), now, later, Window(p));
    RollingTwice(Mutations(b), now, later, Window(p));
  }

  lemma SameDecision(p: Policy, a: Option<LimitRow>, b: Option<LimitRow>, now: int, mutation: bool)
    requires Limit(p) > 0 && SameFrom(p, a, b, now)
    ensures Consume(p, a, now, mutation).1 == Consume(p, b, now, mutation).1
    ensures SameFrom(p, Some(Consume(p, a, now, mutation).0), Some(Consume(p, b, now, mutation).0), now)
  {
    hide Rolling, ExpiresFirst;
    var r, q := Opened(a, now), Opened(b, now);
    assert Requests(a) == r.requests && Mutations(a) == r.mutations && ActiveBlock(a, now) == ActiveBlock(Some(r), now);
    assert Requests(b) == q.requests && Mutations(b) == q.mutations && ActiveBlock(b, now) == ActiveBlock(Some(q), now);
    match p
    case Credential => assert ConsumeCredentialRow(r, now, mutation) == ConsumeCredentialRow(q, now, mutation);
    case FailedAuthentication =>
      if ActiveBlock(a, now).None? {
        assert ConsumeFailureRow(r, now) == ConsumeFailureRow(q, now);
      }
    case StepUp(limit) => assert ConsumeStepUpRow(r, now, limit) == ConsumeStepUpRow(q, now, limit);
  }

  lemma {:induction false} CleanupUnseen(p: Policy, events: seq<Event>, now: int)
    requires Limit(p) > 0 && Ordered(events) && forall i :: 0 <= i < |events| ==> events[i].at <= now
    ensures SameFrom(p, After(p, events), After(p, CallsOnly(events)), now)
  {
    if events != [] {
      var init, e := events[..|events| - 1], events[|events| - 1];
      CleanupUnseen(p, init, e.at);
      AfterSound(p, init, e.at);
      var a, b := After(p, init), After(p, CallsOnly(init));
      match e
      case Call(at, mutation) =>
        SameDecision(p, a, b, at, mutation);
        var calls := CallsOnly(init) + [e];
        assert calls[..|calls| - 1] == CallsOnly(init);
        SameLater(p, Some(Consume(p, a, at, mutation).0), Some(Consume(p, b, at, mutation).0), at, now);
      case Cleanup(at) =>
        if a.Some? && Collectable(a.value, at) {
          RollingNothing(a.value.requests, at, Window(p));
          RollingNothing(a.value.mutations, at, Window(p));
          SameLater(p, None, b, at, now);
        } else {
          SameLater(p, a, b, at, now);
        }
    }
  }

  /** Whatever cleanups ran before, a call is decided as if none had. */
  lemma CleanupNeverChangesADecision(p: Policy, events: seq<Event>, at: int, mutation: bool)
    requires Limit(p) > 0 && Ordered(events) && forall i :: 0 <= i < |events| ==> events[i].at <= at
    ensures Consume(p, After(p, events), at, mutation).1 == Consume(p, After(p, CallsOnly(events)), at, mutation).1
  {
    CleanupUnseen(p, events, at);
    SameDecision(p, After(p, events), After(p, CallsOnly(events)), at, mutation);
  }

  // ----- Retry-After is exact -----

  /**
   After a rejection at `now`, the same kind of call arriving next is accepted at x exactly when x has reached the
   returned instant; a rejected mutation may itself have used up the total budget.
   */
  lemma RetryInstantExact(p: Policy, row: Option<LimitRow>, now: int, mutation: bool, x: int)
    requires Limit(p) > 0 && RowSoundAt(p, row, now) && now <= x
    requires Consume(p, row, now, mutation).1.Some?
    ensures var (r, until) := Consume(p, row, now, mutation);
            until.value > now && (Consume(p, Some(r), x, mutation).1.None? <==> until.value <= x)
  {
    match p
    case Credential => CredentialRetryExact(Opened(row, now), now, mutation, x);
    case FailedAuthentication =>
      var r := Opened(row, now);
      var n := ConsumeFailureRow(r, now).0;
      RollingElements(r.requests, now, AUTH_FAILURE_WINDOW_MS);
      if n.blockedUntil.value <= x {
        RollingNothing(n.requests, x, AUTH_FAILURE_WINDOW_MS);
      }
    case StepUp(limit) =>
      var r := Opened(row, now);
      RollingElements(r.requests, now, MANAGEMENT_STEP_UP_WINDOW_MS);
      BudgetFreesAt(Rolling(r.requests, now, MANAGEMENT_STEP_UP_WINDOW_MS), x, MANAGEMENT_STEP_UP_WINDOW_MS);
  }

  /** A full list loses an entry exactly when the least of its times leaves the window. */
  lemma BudgetFreesAt(times: seq<int>, x: int, window: nat)
    requires times != []
    ensures |Rolling(times, x, window)| < |times| <==> ExpiresFirst(times, window) <= x
    ensures |Rolling(times, x, window)| <= |times|
  {
    RollingElements(times, x, window);
  }

  lemma CredentialRetryExact(r: LimitRow, now: int, mutation: bool, x: int)
    requires RowSound(Credential, r) && (forall y :: y in r.requests ==> y <= now) && now <= x
    requires ConsumeCredentialRow(r, now, mutation).1.Some?
    ensures var (n, until) := ConsumeCredentialRow(r, now, mutation);
            until.value > now && (ConsumeCredentialRow(n, x, mutation).1.None? <==> until.value <= x)
  {
    hide Least, Rolling;
    var w := REQUEST_WINDOW_MS;
    RollingElements(r.requests, now, w);
    RollingElements(r.mutations, now, w);
    var requests, mutations := Rolling(r.requests, now, w), Rolling(r.mutations, now, w);
    var n := ConsumeCredentialRow(r, now, mutation).0;
    assert n.mutations == mutations;
    RollingElements(n.requests, x, w);
    RollingElements(mutations, x, w);
    if |requests| >= CREDENTIAL_REQUEST_LIMIT {
      BudgetFreesAt(requests, x, w);
    }
    if |mutations| >= CREDENTIAL_MUTATION_LIMIT {
      BudgetFreesAt(mutations, x, w);
      assert Least(mutations) in requests && Least(mutations) in n.requests;
    }
  }

  /** The header's whole seconds are the least positive number after which the call passes. */
  lemma RetryAfterSecondsExact(p: Policy, row: Option<LimitRow>, now: int, mutation: bool, k: nat)
    requires Limit(p) > 0 && RowSoundAt(p, row, now) && k > 0
    requires Consume(p, row, now, mutation).1.Some?
    ensures var (r, until) := Consume(p, row, now, mutation);
            Consume(p, Some(r), now + 1000 * k, mutation).1.None? <==> k >= RemainingSeconds(until.value, now)
  {
    RetryInstantExact(p, row, now, mutation, now + 1000 * k);
  }

  /** Over runs: a rejected call of a run, and the first moment after it at which the same call passes. */
  lemma RetryAfterInRuns(p: Policy, events: seq<Event>, at: int, mutation: bool, x: int)
    requires Limit(p) > 0 && Ordered(events) && (forall i :: 0 <= i < |events| ==> events[i].at <= at) && at <= x
    requires Consume(p, After(p, events), at, mutation).1.Some?
    ensures var until := Consume(p, After(p, events), at, mutation).1.value;
            Consume(p, After(p, events + [Call(at, mutation)]), x, mutation).1.None? <==> until <= x
  {
    AfterSound(p, events, at);
    RetryInstantExact(p, After(p, events), at, mutation, x);
    assert (events + [Call(at, mutation)])[..|events|] == events;
  }
}
