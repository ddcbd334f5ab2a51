/**
 Which calls pass, told from the history of calls alone: no row, no list of times, no cleanup. Each policy of the limiter
 is shown to decide every call of every run in clock order exactly so.
 */
module RateLimitDecisions {
  import opened Wrappers
  import opened RateLimit

  // ----- the history's own account -----

  /** Of the first n events, the calls after `from` that were charged: each found fewer than `limit` charged calls in its window. */
  function ChargedSince(events: seq<Event>, n: nat, from: int, window: nat, limit: nat): nat
    requires n <= |events|
  {
    if n == 0 then 0
    else
      var e := events[n - 1];
      ChargedSince(events, n - 1, from, window, limit)
      + (if e.Call? && e.at > from && ChargedSince(events, n - 1, e.at - window, window, limit) < limit then 1 else 0)
  }

  /** A credential has room for one more call of any kind: fewer than 120 charged calls in the last minute. */
  predicate TotalRoom(events: seq<Event>, n: nat, at: int)
    requires n <= |events|
  {
    ChargedSince(events, n, at - 60_000, 60_000, 120) < 120
  }

  /** Of the first n events, the mutations after `from` that passed: room in the total, and fewer than 60 passed mutations in the minute. */
  function MutationsSince(events: seq<Event>, n: nat, from: int): nat
    requires n <= |events|
  {
    if n == 0 then 0
    else
      var e := events[n - 1];
      MutationsSince(events, n - 1, from)
      + (if e.Call? && e.mutation && e.at > from && TotalRoom(events, n - 1, e.at) && MutationsSince(events, n - 1, e.at - 60_000) < 60 then 1
         else 0)
  }

  /** The end of the block a source is under at `at`: a quarter of an hour after the failure that tripped it. */
  function BlockEnd(events: seq<Event>, n: nat, at: int): Option<int>
    requires n <= |events|
  {
    if n == 0 then None
    else
      var e := events[n - 1];
      if e.Call? && at < e.at + 900_000 && BlockEnd(events, n - 1, e.at).None? && FailuresSince(events, n - 1, e.at - 300_000) >= 19 then
        Some(e.at + 900_000)
      else BlockEnd(events, n - 1, at)
  }

  /** Of the first n events, the failures after `from` made outside a block that tripped none: 19 of them in five minutes at most. */
  function FailuresSince(events: seq<Event>, n: nat, from: int): nat
    requires n <= |events|
  {
    if n == 0 then 0
    else
      var e := events[n - 1];
      FailuresSince(events, n - 1, from)
      + (if e.Call? && e.at > from && BlockEnd(events, n - 1, e.at).None? && FailuresSince(events, n - 1, e.at - 300_000) < 19 then 1 else 0)
  }

  // ----- the account does not look ahead -----

  lemma {:induction false} ChargedPrefix(events: seq<Event>, m: nat, n: nat, from: int, window: nat, limit: nat)
    requires n <= m <= |events|
    ensures ChargedSince(events[..m], n, from, window, limit) == ChargedSince(events, n, from, window, limit)
    decreases n
  {
    if n > 0 {
      ChargedPrefix(events, m, n - 1, from, window, limit);
      ChargedPrefix(events, m, n - 1, events[n - 1].at - window, window, limit);
    }
  }

  lemma {:induction false} MutationsPrefix(events: seq<Event>, m: nat, n: nat, from: int)
    requires n <= m <= |events|
    ensures MutationsSince(events[..m], n, from) == MutationsSince(events, n, from)
    decreases n
  {
    if n > 0 {
      MutationsPrefix(events, m, n - 1, from);
      MutationsPrefix(events, m, n - 1, events[n - 1].at - 60_000);
      ChargedPrefix(events, m, n - 1, events[n - 1].at - 60_000, 60_000, 120);
    }
  }

  lemma {:induction false} FailuresPrefix(events: seq<Event>, m: nat, n: nat, at: int)
    requires n <= m <= |events|
    ensures FailuresSince(events[..m], n, at) == FailuresSince(events, n, at)
    ensures BlockEnd(events[..m], n, at) == BlockEnd(events, n, at)
    decreases n
  {
    if n > 0 {
      FailuresPrefix(events, m, n - 1, at);
      FailuresPrefix(events, m, n - 1, events[n - 1].at);
      FailuresPrefix(events, m, n - 1, events[n - 1].at - 300_000);
    }
  }

  // ----- one row, one call -----

  /** The window's size is a count of the recorded times. */
  lemma {:induction false} RollingCount(times: seq<int>, now: int, window: nat)
    ensures |Rolling(times, now, window)| == CountFrom(times, now - window + 1)
  {
    if times != [] {
      RollingCount(times[..|times| - 1], now, window);
    }
  }

  /** A call passes or not, and is recorded or not, by how many recorded calls its window still holds. */
  lemma CredentialCall(row: Option<LimitRow>, at: int, mutation: bool, from: int)
    requires from >= at - 60_000
    ensures var (r, until) := Consume(Credential, row, at, mutation);
            var total, mutated := CountFrom(Requests(row), at - 59_999), CountFrom(Mutations(row), at - 59_999);
            && (until.None? <==> total < 120 && (mutation ==> mutated < 60))
            && CountFrom(r.requests, from + 1) == CountFrom(Requests(row), from + 1) + (if total < 120 && at > from then 1 else 0)
            && CountFrom(r.mutations, from + 1)
               == CountFrom(Mutations(row), from + 1) + (if until.None? && mutation && at > from then 1 else 0)
  {
    hide Rolling, CountFrom, ExpiresFirst;
    var r := Opened(row, at);
    assert r.requests == Requests(row) && r.mutations == Mutations(row);
    RollingCount(r.requests, at, 60_000);
    RollingCount(r.mutations, at, 60_000);
    CountRolling(r.requests, at, 60_000, from + 1);
    CountRolling(r.mutations, at, 60_000, from + 1);
    CountAppend(Rolling(r.requests, at, 60_000), at, from + 1);
    CountAppend(Rolling(r.mutations, at, 60_000), at, from + 1);
  }

  lemma StepUpCall(row: Option<LimitRow>, at: int, mutation: bool, limit: nat, from: int)
    requires limit > 0 && from >= at - 900_000
    ensures var (r, until) := Consume(StepUp(limit), row, at, mutation);
            var attempts := CountFrom(Requests(row), at - 899_999);
            && (until.None? <==> attempts < limit)
            && CountFrom(r.requests, from + 1) == CountFrom(Requests(row), from + 1) + (if attempts < limit && at > from then 1 else 0)
  {
    hide Rolling, CountFrom, ExpiresFirst;
    var r := Opened(row, at);
    assert r.requests == Requests(row);
    RollingCount(r.requests, at, 900_000);
    CountRolling(r.requests, at, 900_000, from + 1);
    CountAppend(Rolling(r.requests, at, 900_000), at, from + 1);
  }

  lemma FailureCall(row: Option<LimitRow>, at: int, mutation: bool, from: int, later: int)
    requires from >= at - 300_000 && later >= at
    ensures var (r, until) := Consume(FailedAuthentication, row, at, mutation);
            var block, failures := ActiveBlock(row, at), CountFrom(Requests(row), at - 299_999);
            && until == (if block.Some? then block else if failures >= 19 then Some(at + 900_000) else None)
            && CountFrom(r.requests, from + 1)
               == CountFrom(Requests(row), from + 1) + (if block.None? && failures < 19 && at > from then 1 else 0)
            && ActiveBlock(Some(r), later)
               == if block.None? && failures >= 19 && later < at + 900_000 then Some(at + 900_000) else ActiveBlock(row, later)
  {
    hide Rolling, CountFrom;
    var r := Opened(row, at);
    assert r.requests == Requests(row);
    RollingCount(r.requests, at, 300_000);
    CountRolling(r.requests, at, 300_000, from + 1);
    CountAppend(Rolling(r.requests, at, 300_000), at, from + 1);
  }

  // ----- the row and the account agree -----

  ghost predicate Upto(events: seq<Event>, now: int) {
    Ordered(events) && forall i :: 0 <= i < |events| ==> events[i].at <= now
  }

  lemma Shorter(events: seq<Event>, now: int)
    requires Upto(events, now) && events != []
    ensures Upto(events[..|events| - 1], events[|events| - 1].at) && events[|events| - 1].at <= now
  {
  }

  /** A cleanup takes a row only when it counts for nothing any more. */
  lemma CleanupCount(p: Policy, events: seq<Event>, at: int, from: int, later: int)
    requires Limit(p) > 0 && Upto(events, at) && from >= at - Window(p) && later >= at
    ensures var row := After(p, events);
            var left := Step(p, row, Cleanup(at));
            && CountFrom(Requests(left), from + 1) == CountFrom(Requests(row), from + 1)
            && CountFrom(Mutations(left), from + 1) == CountFrom(Mutations(row), from + 1)
            && ActiveBlock(left, later) == ActiveBlock(row, later)
  {
    hide CountFrom, RowSound;
    AfterSound(p, events, at);
    var row := After(p, events);
    if row.Some? && Collectable(row.value, at) {
      CollectedCountsNothing(p, row.value, at, from + 1);
    }
  }

  lemma {:induction false} CredentialAccount(events: seq<Event>, now: int, from: int)
    requires Upto(events, now) && from >= now - 60_000
    ensures CountFrom(Requests(After(Credential, events)), from + 1) == ChargedSince(events, |events|, from, 60_000, 120)
    ensures CountFrom(Mutations(After(Credential, events)), from + 1) == MutationsSince(events, |events|, from)
    decreases |events|
  {
    hide Consume, CountFrom, Collectable;
    if events == [] {
      NothingCounted(from + 1);
    } else {
      var init, e := events[..|events| - 1], events[|events| - 1];
      Shorter(events, now);
      CredentialAccount(init, e.at, from);
      CredentialAccount(init, e.at, e.at - 60_000);
      ChargedPrefix(events, |init|, |init|, from, 60_000, 120);
      ChargedPrefix(events, |init|, |init|, e.at - 60_000, 60_000, 120);
      MutationsPrefix(events, |init|, |init|, from);
      MutationsPrefix(events, |init|, |init|, e.at - 60_000);
      match e
      case Call(at, mutation) => CredentialCall(After(Credential, init), at, mutation, from);
      case Cleanup(at) => CleanupCount(Credential, init, at, from, at);
    }
  }

  lemma {:induction false} StepUpAccount(limit: nat, events: seq<Event>, now: int, from: int)
    requires limit > 0 && Upto(events, now) && from >= now - 900_000
    ensures CountFrom(Requests(After(StepUp(limit), events)), from + 1) == ChargedSince(events, |events|, from, 900_000, limit)
    decreases |events|
  {
    hide Consume, CountFrom, Collectable;
    if events == [] {
      NothingCounted(from + 1);
    } else {
      var init, e := events[..|events| - 1], events[|events| - 1];
      Shorter(events, now);
      StepUpAccount(limit, init, e.at, from);
      StepUpAccount(limit, init, e.at, e.at - 900_000);
      ChargedPrefix(events, |init|, |init|, from, 900_000, limit);
      ChargedPrefix(events, |init|, |init|, e.at - 900_000, 900_000, limit);
      match e
      case Call(at, mutation) => StepUpCall(After(StepUp(limit), init), at, mutation, limit, from);
      case Cleanup(at) => CleanupCount(StepUp(limit), init, at, from, at);
    }
  }

  lemma {:induction false} FailureAccount(events: seq<Event>, now: int, from: int)
    requires Upto(events, now) && from >= now - 300_000
    ensures CountFrom(Requests(After(FailedAuthentication, events)), from + 1) == FailuresSince(events, |events|, from)
    ensures ActiveBlock(After(FailedAuthentication, events), now) == BlockEnd(events, |events|, now)
    decreases |events|
  {
    hide Consume, CountFrom, Collectable, ActiveBlock;
    if events == [] {
      NothingCounted(from + 1);
      NoBlock(now);
    } else {
      var init, e := events[..|events| - 1], events[|events| - 1];
      Shorter(events, now);
      FailureAccount(init, now, from);
      FailureAccount(init, e.at, e.at - 300_000);
      FailuresPrefix(events, |init|, |init|, from);
      FailuresPrefix(events, |init|, |init|, e.at - 300_000);
      FailuresPrefix(events, |init|, |init|, e.at);
      FailuresPrefix(events, |init|, |init|, now);
      match e
      case Call(at, mutation) => FailureCall(After(FailedAuthentication, init), at, mutation, from, now);
      case Cleanup(at) => CleanupCount(FailedAuthentication, init, at, from, now);
    }
  }

  lemma NoBlock(now: int)
    ensures ActiveBlock(None, now) == None
  {
  }

  // ----- which calls pass -----

  /** A read passes exactly with fewer than 120 charged calls in its minute, a mutation exactly with fewer than 60 passed mutations too. */
  lemma CredentialPassesExactly(events: seq<Event>, i: nat)
    requires Ordered(events) && i < |events| && events[i].Call?
    ensures Accepted(Credential, events, i)
            <==> TotalRoom(events, i, events[i].at)
                 && (events[i].mutation ==> MutationsSince(events, i, events[i].at - 60_000) < 60)
  {
    hide Consume, CountFrom, ChargedSince, MutationsSince, After;
    var e, past := events[i], events[..i];
    CredentialAccount(past, e.at, e.at - 60_000);
    CredentialCall(After(Credential, past), e.at, e.mutation, e.at);
    ChargedPrefix(events, i, i, e.at - 60_000, 60_000, 120);
    MutationsPrefix(events, i, i, e.at - 60_000);
  }

  /** A rejected mutation is charged like any call while the total has room. */
  lemma RejectedMutationIsCharged(events: seq<Event>, i: nat, from: int)
    requires Ordered(events) && i < |events| && events[i].Call? && events[i].mutation && from < events[i].at
    requires !Accepted(Credential, events, i) && TotalRoom(events, i, events[i].at)
    ensures ChargedSince(events, i + 1, from, 60_000, 120) == ChargedSince(events, i, from, 60_000, 120) + 1
    ensures MutationsSince(events, i + 1, from) == MutationsSince(events, i, from)
  {
    hide Accepted, TotalRoom;
    CredentialPassesExactly(events, i);
    assert TotalRoom(events, i, events[i].at) <==> ChargedSince(events, i, events[i].at - 60_000, 60_000, 120) < 120 by { RoomReading(events, i); }
  }

  lemma RoomReading(events: seq<Event>, i: nat)
    requires i < |events|
    ensures TotalRoom(events, i, events[i].at) <==> ChargedSince(events, i, events[i].at - 60_000, 60_000, 120) < 120
  {
  }

  /** A step-up attempt passes exactly with fewer attempts charged in its quarter of an hour than the budget allows. */
  lemma StepUpPassesExactly(limit: nat, events: seq<Event>, i: nat)
    requires limit > 0 && Ordered(events) && i < |events| && events[i].Call?
    ensures Accepted(StepUp(limit), events, i) <==> ChargedSince(events, i, events[i].at - 900_000, 900_000, limit) < limit
  {
    hide Consume, CountFrom, ChargedSince, After;
    var e, past := events[i], events[..i];
    StepUpAccount(limit, past, e.at, e.at - 900_000);
    StepUpCall(After(StepUp(limit), past), e.at, e.mutation, limit, e.at);
    ChargedPrefix(events, i, i, e.at - 900_000, 900_000, limit);
  }

  /**
   A failed authentication is merely refused exactly when its source is not blocked and it is not the twentieth in five
   minutes; the twentieth blocks the source for a quarter of an hour, and until then every one is told when the block ends.
   */
  lemma FailurePassesExactly(events: seq<Event>, i: nat)
    requires Ordered(events) && i < |events| && events[i].Call?
    ensures var at := events[i].at;
            Consume(FailedAuthentication, After(FailedAuthentication, events[..i]), at, events[i].mutation).1
            == if BlockEnd(events, i, at).Some? then BlockEnd(events, i, at)
               else if FailuresSince(events, i, at - 300_000) >= 19 then Some(at + 900_000)
               else None
  {
    hide Consume, CountFrom, FailuresSince, BlockEnd, ActiveBlock, After;
    var e, past := events[i], events[..i];
    FailureAccount(past, e.at, e.at - 300_000);
    FailureCall(After(FailedAuthentication, past), e.at, e.mutation, e.at, e.at);
    FailuresPrefix(events, i, i, e.at - 300_000);
    FailuresPrefix(events, i, i, e.at);
  }

  /**
   When the cleanup may take the row a call left: once its window is over, or with the block it found or set, a quarter of
   an hour from the failure that set it.
   */
  lemma CollectedExactly(p: Policy, row: Option<LimitRow>, at: int, mutation: bool, now: int)
    requires Limit(p) > 0 && RowSoundAt(p, row, at) && now >= at
    ensures var (r, until) := Consume(p, row, at, mutation);
            Collectable(r, now)
            <==> match p
                 case Credential => now >= at + 60_000
                 case StepUp(_) => now >= at + 900_000
                 case FailedAuthentication => now >= (if until.Some? then until.value else at + 300_000)
  {
    hide Rolling, ExpiresFirst, Nondecreasing;
  }

  /** Whether a source is let through to authenticate at all, at any moment after a run. */
  lemma SourceBlockedExactly(events: seq<Event>, now: int)
    requires Upto(events, now)
    ensures ActiveBlock(After(FailedAuthentication, events), now) == BlockEnd(events, |events|, now)
  {
    FailureAccount(events, now, now);
  }
}
