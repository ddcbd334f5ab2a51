/**
 How close two commits under one key can come. The service measures its retention from the completion stamp; the
 commit follows later, by as much as the transaction deadline lets it.
 */
module IdempotencyGap {
  import opened Wrappers
  import opened TransactionJson
  import opened Idempotency
  import opened IdempotencyInvariant
  import opened IdempotencyTheorems

  /** The deadline of the service's transactions. */
  const TRANSACTION_TIMEOUT_MS: nat := 30_000

  ghost predicate SameKey(e: Event, f: Event) {
    e.Committed? && f.Committed? && KeyOf(e.request).Some? && KeyOf(e.request) == KeyOf(f.request)
  }

  /** How long after its completion stamp an effect became visible. */
  function Lag(e: Event): int
    requires e.Committed?
  {
    e.committedAt - e.completedAt
  }

  /** How much longer than the retention the later stamp came after the earlier one. */
  function Slack(e: Event, f: Event): int
    requires e.Committed? && f.Committed?
  {
    f.completedAt - e.completedAt - RETENTION_MS
  }

  /**
   For every two commits under one key: the gap falls short of the retention by no more than the lag of the earlier
   commit, and it reaches the retention exactly when slack and later lag make that lag up.
   */
  lemma CommitGap(trigger: bool, now: int, refs: References, steps: seq<Step>)
    ensures var s := Run(Initial(trigger, now, refs), steps);
            forall i, j :: 0 <= i < j < |s.log| && SameKey(s.log[i], s.log[j]) ==>
              var e, f := s.log[i], s.log[j];
              && Lag(e) >= 0 && Lag(f) >= 0 && Slack(e, f) >= 0
              && f.committedAt - e.committedAt >= RETENTION_MS - Lag(e)
              && (f.committedAt - e.committedAt >= RETENTION_MS <==> Slack(e, f) + Lag(f) >= Lag(e))
  {
    hide Run, OutcomeShape;
    ReachableSound(trigger, now, refs, steps);
    ExactlyOnce(trigger, now, refs, steps);
    var s := Run(Initial(trigger, now, refs), steps);
    forall i, j | 0 <= i < j < |s.log| && SameKey(s.log[i], s.log[j]) ensures Lag(s.log[i]) >= 0 && Lag(s.log[j]) >= 0 {
      assert CommitSound(s, s.log[i]) && CommitSound(s, s.log[j]);
    }
  }

  // ----- runs under the transaction deadline -----

  /** A commit that comes later than the deadline is a rollback; the clock of the deadline starts no later than the claim. */
  function Timed(s: State, a: Step, deadline: nat): Step {
    if a.Commit? && a.wid in s.workers && s.now > s.workers[a.wid].claimedAt + deadline then Abort(a.wid) else a
  }

  ghost function RunWithin(s: State, steps: seq<Step>, deadline: nat): State
    decreases |steps|
  {
    if steps == [] then s
    else
      var t := RunWithin(s, steps[..|steps| - 1], deadline);
      Next(t, Timed(t, steps[|steps| - 1], deadline))
  }

  /** The steps such a run takes. */
  ghost function TimedSteps(s: State, steps: seq<Step>, deadline: nat): seq<Step>
    decreases |steps|
  {
    if steps == [] then []
    else
      var init := steps[..|steps| - 1];
      TimedSteps(s, init, deadline) + [Timed(RunWithin(s, init, deadline), steps[|steps| - 1], deadline)]
  }

  lemma {:induction false} WithinIsARun(s: State, steps: seq<Step>, deadline: nat)
    ensures Run(s, TimedSteps(s, steps, deadline)) == RunWithin(s, steps, deadline)
    decreases |steps|
  {
    hide Next;
    if steps != [] {
      var init := steps[..|steps| - 1];
      WithinIsARun(s, init, deadline);
      RunAppend(s, TimedSteps(s, init, deadline), Timed(RunWithin(s, init, deadline), steps[|steps| - 1], deadline));
    }
  }

  ghost predicate CommitsInTime(log: seq<Event>, deadline: nat) {
    forall i :: 0 <= i < |log| && log[i].Committed? ==> log[i].committedAt <= log[i].claimedAt + deadline
  }

  /** A step adds at most one event, and a commit event only by committing. */
  lemma NextLog(s: State, a: Step)
    ensures var t := Next(s, a);
            t.log == s.log
            || (|t.log| == |s.log| + 1 && t.log[..|s.log|] == s.log
                && (t.log[|s.log|].Committed? ==>
                      a.Commit? && a.wid in s.workers && t.log[|s.log|].claimedAt == s.workers[a.wid].claimedAt
                      && t.log[|s.log|].committedAt == s.now))
  {
    hide Decide, Replay, LocateRefusal, MutateOutcome, CompletedRecord, HumanVersion, Expired, Written, Finds, ClaimOf;
    if Enabled(s, a) {
      EnabledWorkers(s, a);
    }
  }

  lemma {:induction false} WithinCommitsInTime(s: State, steps: seq<Step>, deadline: nat)
    requires CommitsInTime(s.log, deadline)
    ensures CommitsInTime(RunWithin(s, steps, deadline).log, deadline)
    decreases |steps|
  {
    hide Next;
    if steps != [] {
      var init := steps[..|steps| - 1];
      WithinCommitsInTime(s, init, deadline);
      var t := RunWithin(s, init, deadline);
      NextLog(t, Timed(t, steps[|steps| - 1], deadline));
    }
  }

  /** Under a deadline no lag exceeds it, so two commits under one key are at least the retention less the deadline apart. */
  lemma CommitGapWithin(trigger: bool, now: int, refs: References, steps: seq<Step>, deadline: nat)
    ensures var s := RunWithin(Initial(trigger, now, refs), steps, deadline);
            forall i, j :: 0 <= i < j < |s.log| && SameKey(s.log[i], s.log[j]) ==>
              s.log[j].committedAt - s.log[i].committedAt >= RETENTION_MS - deadline
  {
    hide Run, RunWithin, OutcomeShape;
    var initial := Initial(trigger, now, refs);
    var timed := TimedSteps(initial, steps, deadline);
    WithinIsARun(initial, steps, deadline);
    WithinCommitsInTime(initial, steps, deadline);
    CommitGap(trigger, now, refs, timed);
    ReachableSound(trigger, now, refs, timed);
    var s := RunWithin(initial, steps, deadline);
    forall i, j | 0 <= i < j < |s.log| && SameKey(s.log[i], s.log[j])
      ensures s.log[j].committedAt - s.log[i].committedAt >= RETENTION_MS - deadline
    {
      assert CommitSound(s, s.log[i]);
    }
  }

  /** With the deadline the service sets: less than 7 days, by half a minute at most. */
  lemma CommitGapOfTheService(trigger: bool, now: int, refs: References, steps: seq<Step>)
    ensures var s := RunWithin(Initial(trigger, now, refs), steps, TRANSACTION_TIMEOUT_MS);
            forall i, j :: 0 <= i < j < |s.log| && SameKey(s.log[i], s.log[j]) ==>
              s.log[j].committedAt - s.log[i].committedAt >= RETENTION_MS - 30_000
  {
    hide Run, RunWithin;
    CommitGapWithin(trigger, now, refs, steps, TRANSACTION_TIMEOUT_MS);
  }

  // ----- the bound is reached -----

  /** A keyed create that commits some time after its completion stamp. */
  function CreateSteps(r: Request, quote: Quote, id: string, stamp: Instant, commitAt: int): seq<Step> {
    [Open(0, r), Decided(0), Locate(0, None), Mutate(0, quote, id, [], stamp), Finish(0), Tick(commitAt), Commit(0)]
  }

  /** The key is free: never used, or its record is past retention. */
  predicate KeyReusable(s: State, k: (string, string)) {
    k in s.records ==> s.records[k].status == Done && s.records[k].expiresAt <= s.now
  }

  ghost predicate CanCreate(s: State, r: Request, quote: Quote, id: string, commitAt: int) {
    && s.workers == map[] && r.Create? && KeyOf(r).Some? && KeyReusable(s, KeyOf(r).value)
    && r.command.externalId.None? && CommandReferencesOk(r.principal, s.references, r.command)
    && InRange(quote) && id !in s.rows && s.now <= commitAt
  }

  function NewRow(r: Request, quote: Quote, id: string, stamp: Instant): Transaction
    requires r.Create?
  {
    Transaction(id, r.principal.workspaceId, Some(r.principal.integrationId), None, DetailsOf(r.command, quote), 1, stamp, stamp, None,
                TagRows(r.command.tags, r.principal.workspaceId, id, [], stamp))
  }

  function CreateOutcome(r: Request, quote: Quote, id: string, stamp: Instant): Outcome
    requires r.Create?
  {
    var row := NewRow(r, quote, id, stamp);
    Outcome(Insert(row), TransactionResponse(row, 201), row)
  }

  lemma OpenStep(s: State, r: Request)
    requires s.workers == map[] && r.Create?
    ensures Next(s, Open(0, r)) == s.(workers := map[0 := Worker(r, Opened, s.now, None, None, s.now)])
  {
  }

  lemma ClaimStep(s: State, r: Request)
    requires s.workers == map[0 := Worker(r, Opened, s.now, None, None, s.now)] && KeyOf(r).Some? && KeyReusable(s, KeyOf(r).value)
    ensures Next(s, Decided(0)) == s.(workers := map[0 := Worker(r, Claimed, s.now, None, None, s.now)])
  {
    hide Replay, ClaimOf;
    assert Enabled(s, Decided(0));
  }

  lemma LocateNothing(s: State, r: Request)
    requires s.workers == map[0 := Worker(r, Claimed, s.now, None, None, s.now)]
    requires r.Create? && r.command.externalId.None? && CommandReferencesOk(r.principal, s.references, r.command)
    ensures Next(s, Locate(0, None)) == s.(workers := map[0 := Worker(r, Located, s.now, None, None, s.now)])
  {
    hide CommandReferencesOk;
    assert Enabled(s, Locate(0, None));
  }

  lemma MutateNew(s: State, r: Request, quote: Quote, id: string, stamp: Instant)
    requires s.workers == map[0 := Worker(r, Located, s.now, None, None, s.now)]
    requires r.Create? && r.command.externalId.None? && InRange(quote) && id !in s.rows
    ensures Next(s, Mutate(0, quote, id, [], stamp))
            == s.(workers := map[0 := Worker(r, Mutated, s.now, None, Some(CreateOutcome(r, quote, id, stamp)), s.now)])
  {
    hide InRange, DetailsOf, TransactionResponse, TagRows;
    assert Enabled(s, Mutate(0, quote, id, [], stamp));
  }

  lemma FinishLater(s: State, r: Request, o: Outcome, commitAt: int)
    requires s.workers == map[0 := Worker(r, Mutated, s.now, None, Some(o), s.now)] && s.now <= commitAt
    ensures Next(Next(s, Finish(0)), Tick(commitAt)) == s.(now := commitAt, workers := map[0 := Worker(r, Finished, s.now, None, Some(o), s.now)])
  {
    var f := Next(s, Finish(0));
    assert f == s.(workers := map[0 := Worker(r, Finished, s.now, None, Some(o), s.now)]);
  }

  lemma CommitFinished(s: State, r: Request, o: Outcome, stampedAt: int)
    requires s.workers == map[0 := Worker(r, Finished, stampedAt, None, Some(o), stampedAt)] && KeyOf(r).Some?
    ensures Next(s, Commit(0))
            == s.(workers := map[], rows := Written(s.rows, o.effect),
                  records := s.records[KeyOf(r).value := CompletedRecord(r, o, stampedAt)],
                  log := s.log + [Committed(r, stampedAt, stampedAt, s.now, o)])
  {
    hide CompletedRecord, Written;
  }

  function BeforeCommit(r: Request, quote: Quote, id: string, stamp: Instant, commitAt: int): seq<Step> {
    [Open(0, r), Decided(0), Locate(0, None), Mutate(0, quote, id, [], stamp), Finish(0), Tick(commitAt)]
  }

  lemma CreateReady(s: State, r: Request, quote: Quote, id: string, stamp: Instant, commitAt: int)
    requires CanCreate(s, r, quote, id, commitAt)
    ensures Run(s, BeforeCommit(r, quote, id, stamp, commitAt))
            == s.(now := commitAt, workers := map[0 := Worker(r, Finished, s.now, None, Some(CreateOutcome(r, quote, id, stamp)), s.now)])
  {
    hide Run, Next, CreateOutcome, CommandReferencesOk, InRange;
    var a1, a2, a3, a4, a5, a6 := Open(0, r), Decided(0), Locate(0, None), Mutate(0, quote, id, [], stamp), Finish(0), Tick(commitAt);
    var p1, p2, p3, p4, p5 := [a1], [a1, a2], [a1, a2, a3], [a1, a2, a3, a4], [a1, a2, a3, a4, a5];
    RunNothing(s);
    assert [] + [a1] == p1 && p1 + [a2] == p2 && p2 + [a3] == p3 && p3 + [a4] == p4 && p4 + [a5] == p5;
    assert p5 + [a6] == BeforeCommit(r, quote, id, stamp, commitAt);
    RunAppend(s, [], a1);
    RunAppend(s, p1, a2);
    RunAppend(s, p2, a3);
    RunAppend(s, p3, a4);
    RunAppend(s, p4, a5);
    RunAppend(s, p5, a6);
    OpenStep(s, r);
    ClaimStep(Run(s, p1), r);
    LocateNothing(Run(s, p2), r);
    MutateNew(Run(s, p3), r, quote, id, stamp);
    FinishLater(Run(s, p4), r, CreateOutcome(r, quote, id, stamp), commitAt);
  }

  /** What the create leaves, the deadline permitting. */
  lemma OneCreate(s: State, r: Request, quote: Quote, id: string, stamp: Instant, commitAt: int, deadline: nat)
    requires CanCreate(s, r, quote, id, commitAt) && commitAt <= s.now + deadline
    ensures var o := CreateOutcome(r, quote, id, stamp);
            RunWithin(s, CreateSteps(r, quote, id, stamp, commitAt), deadline)
            == s.(now := commitAt, rows := Written(s.rows, o.effect), records := s.records[KeyOf(r).value := CompletedRecord(r, o, s.now)],
                  log := s.log + [Committed(r, s.now, s.now, commitAt, o)])
  {
    hide Run, Next, CreateOutcome, CompletedRecord, Written;
    var before := BeforeCommit(r, quote, id, stamp, commitAt);
    CreateReady(s, r, quote, id, stamp, commitAt);
    NoCommitNoTimeout(s, before, deadline);
    assert CreateSteps(r, quote, id, stamp, commitAt)[..6] == before;
    CommitFinished(Run(s, before), r, CreateOutcome(r, quote, id, stamp), s.now);
  }

  lemma {:induction false} NoCommitNoTimeout(s: State, steps: seq<Step>, deadline: nat)
    requires forall i :: 0 <= i < |steps| ==> !steps[i].Commit?
    ensures RunWithin(s, steps, deadline) == Run(s, steps)
    decreases |steps|
  {
    hide Next;
    if steps != [] {
      NoCommitNoTimeout(s, steps[..|steps| - 1], deadline);
    }
  }

  lemma {:induction false} WithinJoin(s: State, a: seq<Step>, b: seq<Step>, deadline: nat)
    ensures RunWithin(s, a + b, deadline) == RunWithin(RunWithin(s, a, deadline), b, deadline)
    decreases |b|
  {
    hide Next;
    if b == [] {
      assert a + b == a;
    } else {
      var init := b[..|b| - 1];
      WithinJoin(s, a, init, deadline);
      assert (a + b)[..|a + b| - 1] == a + init;
    }
  }

  /** One create whose commit lags, then the same again as soon as its retention is over. */
  function EarlySteps(r: Request, quote: Quote, a: string, b: string, stamp: Instant, now: int, lag: nat): seq<Step> {
    CreateSteps(r, quote, a, stamp, now + lag) + ([Tick(now + RETENTION_MS)] + CreateSteps(r, quote, b, stamp, now + RETENTION_MS))
  }

  /**
   The bound is reached: for every lag the deadline allows there is a run, within the deadline, whose two commits under
   one key are exactly the retention less that lag apart.
   */
  lemma EarlyCommit(trigger: bool, now: int, refs: References, r: Request, quote: Quote, a: string, b: string, stamp: Instant, lag: nat,
                    deadline: nat)
    requires r.Create? && KeyOf(r).Some? && r.command.externalId.None? && CommandReferencesOk(r.principal, refs, r.command)
    requires InRange(quote) && a != b && lag <= deadline && lag <= RETENTION_MS
    ensures var s := RunWithin(Initial(trigger, now, refs), EarlySteps(r, quote, a, b, stamp, now, lag), deadline);
            |s.log| == 2 && SameKey(s.log[0], s.log[1]) && Inserted(s.log[0]) && Inserted(s.log[1])
            && s.log[1].committedAt - s.log[0].committedAt == RETENTION_MS - lag
  {
    hide RunWithin, Next, CommandReferencesOk, InRange, CreateSteps;
    var s0 := Initial(trigger, now, refs);
    var first, second := CreateSteps(r, quote, a, stamp, now + lag), CreateSteps(r, quote, b, stamp, now + RETENTION_MS);
    OneCreate(s0, r, quote, a, stamp, now + lag, deadline);
    var s1 := RunWithin(s0, first, deadline);
    WithinJoin(s0, first, [Tick(now + RETENTION_MS)] + second, deadline);
    WithinJoin(s1, [Tick(now + RETENTION_MS)], second, deadline);
    TickStep(s1, now + RETENTION_MS, deadline);
    var s2 := RunWithin(s1, [Tick(now + RETENTION_MS)], deadline);
    OneCreate(s2, r, quote, b, stamp, now + RETENTION_MS, deadline);
  }

  lemma TickStep(s: State, to: int, deadline: nat)
    requires s.now <= to
    ensures RunWithin(s, [Tick(to)], deadline) == s.(now := to)
  {
    hide Decide, Replay, DecidedStep, LocateStep, MutateStep, CommitStep, HumanWriteStep;
    assert [Tick(to)][..0] == [];
    assert RunWithin(s, [], deadline) == s;
  }

  // One such run: half a minute of lag, and two effects under one key less than 7 days apart.

  function Epoch(): Instant {
    Instant(1970, 1, 1, 0, 0, 0, 0)
  }

  function SampleCreate(): Request {
    Create(Principal("w", "i", false, [], false, []), Some("k"),
           Command(None, Expense, 100, "PLN", Epoch(), "x", None, [], None, "s"))
  }

  lemma LessThanSevenDays()
    ensures var s := RunWithin(Initial(true, 0, References(map[], {("w", "s")})),
                               EarlySteps(SampleCreate(), Quote(100, Decimal("1"), Epoch(), "q"), "a", "b", Epoch(), 0, 30_000),
                               TRANSACTION_TIMEOUT_MS);
            |s.log| == 2 && SameKey(s.log[0], s.log[1]) && Inserted(s.log[0]) && Inserted(s.log[1])
            && s.log[1].committedAt - s.log[0].committedAt == RETENTION_MS - 30_000 < RETENTION_MS
  {
    hide RunWithin, EarlySteps;
    assert "a"[0] != "b"[0];
    EarlyCommit(true, 0, References(map[], {("w", "s")}), SampleCreate(), Quote(100, Decimal("1"), Epoch(), "q"), "a", "b", Epoch(), 30_000,
                TRANSACTION_TIMEOUT_MS);
  }
}
