/**
 The email outbox as a lease protocol: workers claim rows, deliver them, crash, and reclaim what went stale. A claim
 stamps the row with the clock as its worker read it; nothing else identifies the worker.
 */
module EmailOutbox {
  import opened Wrappers
  import opened Arithmetic

  const MAX_AGE: int := 23 * 60 * 60000
  const MAX_ATTEMPTS: nat := 7
  const STALE: int := 5 * 60000
  const BATCH: nat := 20

  datatype Status = Pending | Processing | Sent | Failed

  datatype Row = Row(payload: string, status: Status, attempts: nat, availableAt: int, lockedAt: Option<int>, sentAt: Option<int>,
                     createdAt: int)

  function RetryDelay(attempt: nat): int {
    var grown := 5000 * Pow2(if attempt >= 1 then attempt - 1 else 0);
    if grown <= 15 * 60000 then grown else 15 * 60000
  }

  /** What a claim at a time may take: due, young enough, below the limit, and pending or stale. */
  predicate Claimable(r: Row, at: int) {
    r.createdAt >= at - MAX_AGE && r.attempts < MAX_ATTEMPTS && r.availableAt <= at
    && (r.status == Pending || (r.status == Processing && r.lockedAt.Some? && r.lockedAt.value < at - STALE))
  }

  function ClaimedRow(r: Row, at: int): Row {
    r.(status := Processing, lockedAt := Some(at))
  }

  function SentRow(r: Row, now: int): Row {
    r.(status := Sent, sentAt := Some(now), lockedAt := None, payload := "")
  }

  /** After a failure: counted from the row as claimed, and given up at the limit or past the age. */
  function FailedRow(current: Row, claimed: Row, now: int): Row {
    var attempts := claimed.attempts + 1;
    current.(status := if attempts >= MAX_ATTEMPTS || claimed.createdAt < now - MAX_AGE then Failed else Pending,
             attempts := attempts, availableAt := now + RetryDelay(attempts), lockedAt := None)
  }

  /** A delivery in progress: the row as the claim returned it. Nothing in the code ends one at the stale limit. */
  datatype Job = Job(id: string, claimed: Row, lockedAt: int)

  /** failures counts the failed deliveries recorded for each row. */
  datatype State = State(rows: map<string, Row>, jobs: map<nat, Job>, failures: map<string, nat>, now: int)

  datatype Step =
    | Enqueue(id: string, payload: string)
    | Claim(job: nat, id: string, at: int)       // one row of a claimed batch
    | Deliver(job: nat)
    | Fail(job: nat)
    | Crash(job: nat)
    | Tick(to: int)

  predicate Enabled(s: State, a: Step) {
    match a
    case Enqueue(id, payload) => id !in s.rows && payload != ""
    case Claim(j, id, at) => j !in s.jobs && id in s.rows && at <= s.now && Claimable(s.rows[id], at)
    case Deliver(j) => j in s.jobs
    case Fail(j) => j in s.jobs
    case Crash(j) => j in s.jobs
    case Tick(to) => s.now <= to
  }

  function Count(m: map<string, nat>, k: string): nat {
    if k in m then m[k] else 0
  }

  function Next(s: State, a: Step): State {
    if !Enabled(s, a) then s
    else
      match a
      case Enqueue(id, payload) => s.(rows := s.rows[id := Row(payload, Pending, 0, s.now, None, None, s.now)])
      case Claim(j, id, at) =>
        var claimed := ClaimedRow(s.rows[id], at);
        s.(rows := s.rows[id := claimed], jobs := s.jobs[j := Job(id, claimed, at)])
      case Deliver(j) =>
        var job := s.jobs[j];
        if job.id !in s.rows then s.(jobs := s.jobs - {j})
        else s.(rows := s.rows[job.id := SentRow(s.rows[job.id], s.now)], jobs := s.jobs - {j})
      case Fail(j) =>
        var job := s.jobs[j];
        if job.id !in s.rows then s.(jobs := s.jobs - {j})
        else s.(rows := s.rows[job.id := FailedRow(s.rows[job.id], job.claimed, s.now)], jobs := s.jobs - {j},
                failures := s.failures[job.id := Count(s.failures, job.id) + 1])
      case Crash(j) => s.(jobs := s.jobs - {j})
      case Tick(to) => s.(now := to)
  }

  function Run(s: State, steps: seq<Step>): State
    decreases |steps|
  {
    if steps == [] then s else Next(Run(s, steps[..|steps| - 1]), steps[|steps| - 1])
  }

  const EMPTY := State(map[], map[], map[], 0)

  // ----- delays -----

  lemma {:induction false} Pow2Monotone(a: nat, b: nat)
    requires a <= b
    ensures Pow2(a) <= Pow2(b)
    decreases b
  {
    if a < b {
      Pow2Monotone(a, b - 1);
    }
  }

  /** Delays double from five seconds and never pass fifteen minutes; within the attempt limit the cap is never reached. */
  lemma RetryDelayBounds(attempt: nat)
    ensures 5000 <= RetryDelay(attempt) <= 15 * 60000
    ensures 1 <= attempt < MAX_ATTEMPTS ==> RetryDelay(attempt + 1) == 2 * RetryDelay(attempt)
    ensures 1 <= attempt <= MAX_ATTEMPTS ==> RetryDelay(attempt) <= 320000
  {
    assert Pow2(0) == 1 && Pow2(1) == 2 && Pow2(2) == 4 && Pow2(3) == 8;
    assert Pow2(4) == 16 && Pow2(5) == 32 && Pow2(6) == 64;
    if attempt >= 1 {
      Pow2Monotone(0, attempt - 1);
      if attempt <= MAX_ATTEMPTS {
        Pow2Monotone(attempt - 1, 6);
      }
      if attempt < MAX_ATTEMPTS {
        Pow2Monotone(attempt, 6);
        assert Pow2(attempt) == 2 * Pow2(attempt - 1);
      }
    }
  }

  // ----- reports, and their limit -----

  /** The stale limit of a delivery has not passed. */
  predicate InTime(s: State, j: Job) {
    s.now <= j.lockedAt + STALE
  }

  /** The step is the report of a live delivery of the row. */
  predicate ReportsOn(s: State, a: Step, id: string) {
    (a.Deliver? || a.Fail?) && a.job in s.jobs && s.jobs[a.job].id == id
  }

  predicate LateReport(s: State, a: Step, id: string) {
    ReportsOn(s, a, id) && !InTime(s, s.jobs[a.job])
  }

  /** Every delivery of this one row that reported did so within the stale limit of its claim. */
  predicate Punctual(steps: seq<Step>, id: string)
    decreases |steps|
  {
    steps != [] ==>
      Punctual(steps[..|steps| - 1], id) && !LateReport(Run(EMPTY, steps[..|steps| - 1]), steps[|steps| - 1], id)
  }

  // ----- what holds of a row as long as its deliveries are punctual -----

  predicate RowSound(s: State, id: string, r: Row) {
    && (r.payload == "" <==> r.status == Sent)
    && r.attempts == Count(s.failures, id) && r.attempts <= MAX_ATTEMPTS
    && (r.status == Pending || r.status == Processing ==> r.attempts < MAX_ATTEMPTS)
    && (r.status == Processing <==> r.lockedAt.Some?)
    && (r.lockedAt.Some? ==> r.lockedAt.value <= s.now)
    && (r.sentAt.Some? <==> r.status == Sent)
  }

  predicate JobSound(s: State, j: Job)
    requires j.id in s.rows
  {
    && j.lockedAt <= s.now
    && (s.rows[j.id].status == Pending ==> j.lockedAt < s.rows[j.id].availableAt)
    && (s.rows[j.id].lockedAt.Some? ==> j.lockedAt <= s.rows[j.id].lockedAt.value)
    && (InTime(s, j) ==> s.rows[j.id] == j.claimed && j.claimed.status == Processing && j.claimed.lockedAt == Some(j.lockedAt))
  }

  /** Rows are never removed, and deliveries and failures are of known rows; this needs no limit. */
  ghost predicate Known(s: State) {
    (forall j :: j in s.jobs ==> s.jobs[j].id in s.rows && s.jobs[j].claimed.status == Processing)
    && forall id :: id in s.failures ==> id in s.rows
  }

  ghost predicate RowInvariant(s: State, id: string) {
    && (id in s.rows ==> RowSound(s, id, s.rows[id]))
    && (forall j :: j in s.jobs && s.jobs[j].id == id ==> id in s.rows && JobSound(s, s.jobs[j]))
    && (forall j, k :: j in s.jobs && k in s.jobs && j != k && s.jobs[j].id == id && s.jobs[k].id == id ==>
          s.jobs[j].lockedAt != s.jobs[k].lockedAt)
  }

  lemma {:induction false} RunKnown(steps: seq<Step>)
    ensures Known(Run(EMPTY, steps))
    decreases |steps|
  {
    hide RetryDelay;
    if steps != [] {
      RunKnown(steps[..|steps| - 1]);
    }
  }

  lemma EnqueueKeeps(s: State, a: Step, id: string)
    requires Known(s) && RowInvariant(s, id) && a.Enqueue?
    ensures RowInvariant(Next(s, a), id)
  {
    var n := Next(s, a);
    forall j | j in n.jobs && n.jobs[j].id == id ensures id in n.rows && JobSound(n, n.jobs[j]) {
      assert JobSound(s, s.jobs[j]);
    }
  }

  lemma ClaimKeeps(s: State, a: Step, id: string)
    requires Known(s) && RowInvariant(s, id) && a.Claim?
    ensures RowInvariant(Next(s, a), id)
  {
    var n := Next(s, a);
    forall j | j in s.jobs && s.jobs[j].id == id
      ensures JobSound(n, s.jobs[j]) && (Enabled(s, a) && a.id == id ==> s.jobs[j].lockedAt < a.at)
    {
      assert JobSound(s, s.jobs[j]);
    }
  }

  /** A delivery in time finds its row as it claimed it, and no other delivery of that row is in time. */
  lemma OnlyOneInTime(s: State, j: nat, k: nat)
    requires j in s.jobs && k in s.jobs && s.jobs[j].id == s.jobs[k].id && RowInvariant(s, s.jobs[j].id)
    requires InTime(s, s.jobs[j]) && InTime(s, s.jobs[k])
    ensures j == k
  {
    assert JobSound(s, s.jobs[j]) && JobSound(s, s.jobs[k]);
  }

  lemma ReportJob(s: State, a: Step, id: string, j: nat)
    requires Known(s) && RowInvariant(s, id) && (a.Deliver? || a.Fail?) && Enabled(s, a) && !LateReport(s, a, id)
    requires j in s.jobs && j != a.job && s.jobs[j].id == id
    ensures id in Next(s, a).rows && JobSound(Next(s, a), s.jobs[j])
  {
    hide RetryDelay;
    var job := s.jobs[a.job];
    assert JobSound(s, s.jobs[j]);
    RetryDelayBounds(job.claimed.attempts + 1);
    if job.id == id && InTime(s, s.jobs[j]) {
      OnlyOneInTime(s, j, a.job);
    }
  }

  lemma ReportRow(s: State, a: Step, id: string)
    requires Known(s) && RowInvariant(s, id) && (a.Deliver? || a.Fail?) && Enabled(s, a) && !LateReport(s, a, id) && id in s.rows
    ensures id in Next(s, a).rows && RowSound(Next(s, a), id, Next(s, a).rows[id])
  {
    hide RetryDelay;
    var job := s.jobs[a.job];
    if job.id == id {
      assert JobSound(s, job);
    }
  }

  lemma ReportKeeps(s: State, a: Step, id: string)
    requires Known(s) && RowInvariant(s, id) && (a.Deliver? || a.Fail?) && Enabled(s, a) && !LateReport(s, a, id)
    ensures RowInvariant(Next(s, a), id)
  {
    hide RetryDelay, RowSound, JobSound, SentRow, FailedRow;
    var n := Next(s, a);
    forall j | j in n.jobs && n.jobs[j].id == id ensures id in n.rows && JobSound(n, n.jobs[j]) {
      ReportJob(s, a, id, j);
    }
    if id in s.rows {
      ReportRow(s, a, id);
    }
  }

  lemma TimeKeeps(s: State, a: Step, id: string)
    requires RowInvariant(s, id) && (a.Crash? || a.Tick?)
    ensures RowInvariant(Next(s, a), id)
  {
    var n := Next(s, a);
    forall j | j in n.jobs && n.jobs[j].id == id ensures JobSound(n, n.jobs[j]) {
      assert JobSound(s, s.jobs[j]);
    }
  }

  lemma NextKeeps(s: State, a: Step, id: string)
    requires Known(s) && RowInvariant(s, id) && !LateReport(s, a, id)
    ensures RowInvariant(Next(s, a), id)
  {
    hide RowInvariant, Known;
    if Enabled(s, a) {
      match a
      case Enqueue(_, _) => EnqueueKeeps(s, a, id);
      case Claim(_, _, _) => ClaimKeeps(s, a, id);
      case Deliver(_) => ReportKeeps(s, a, id);
      case Fail(_) => ReportKeeps(s, a, id);
      case _ => TimeKeeps(s, a, id);
    }
  }

  lemma {:induction false} RunKeeps(steps: seq<Step>, id: string)
    requires Punctual(steps, id)
    ensures RowInvariant(Run(EMPTY, steps), id)
    decreases |steps|
  {
    hide Next, LateReport;
    if steps != [] {
      RunKeeps(steps[..|steps| - 1], id);
      RunKnown(steps[..|steps| - 1]);
      NextKeeps(Run(EMPTY, steps[..|steps| - 1]), steps[|steps| - 1], id);
    }
  }

  // ----- results for punctual rows -----

  /** While the deliveries of a row report within the stale limit, no two of them hold it in time. */
  lemma OneLiveHolder(steps: seq<Step>, j: nat, k: nat)
    ensures var s := Run(EMPTY, steps);
            (j in s.jobs && k in s.jobs && s.jobs[j].id == s.jobs[k].id && Punctual(steps, s.jobs[j].id)
             && InTime(s, s.jobs[j]) && InTime(s, s.jobs[k])) ==> j == k
  {
    hide RowInvariant, Run;
    var s := Run(EMPTY, steps);
    if j in s.jobs && k in s.jobs && s.jobs[j].id == s.jobs[k].id && Punctual(steps, s.jobs[j].id)
       && InTime(s, s.jobs[j]) && InTime(s, s.jobs[k]) {
      RunKeeps(steps, s.jobs[j].id);
      OnlyOneInTime(s, j, k);
    }
  }

  /** Attempts then count the failed deliveries, at most seven; the payload is blank exactly when the mail was sent. */
  lemma AttemptsAreFailures(steps: seq<Step>, id: string)
    ensures var s := Run(EMPTY, steps);
            id in s.rows && Punctual(steps, id) ==>
              s.rows[id].attempts == Count(s.failures, id) <= MAX_ATTEMPTS
              && (s.rows[id].payload == "" <==> s.rows[id].status == Sent)
  {
    hide Run;
    if Punctual(steps, id) {
      RunKeeps(steps, id);
    }
  }

  // ----- when a row is due, exactly -----

  /** In every run, punctual or not: the lock goes with the status, is taken no earlier than the row was due, and only below the limit. */
  predicate LockSound(r: Row) {
    && (r.status == Processing <==> r.lockedAt.Some?)
    && (r.lockedAt.Some? ==> r.availableAt <= r.lockedAt.value)
    && (r.status == Pending || r.status == Processing ==> r.attempts < MAX_ATTEMPTS)
  }

  lemma {:induction false} RunLocked(steps: seq<Step>, id: string)
    ensures var s := Run(EMPTY, steps); id in s.rows ==> LockSound(s.rows[id])
    decreases |steps|
  {
    hide RetryDelay;
    if steps != [] {
      RunLocked(steps[..|steps| - 1], id);
    }
  }

  /**
   When a claim may take a row of a reachable state: never once it is sent or failed; pending, from the moment it is due;
   claimed already, from five minutes after that claim; and in no case past its age of 23 hours.
   */
  lemma ClaimableExactly(steps: seq<Step>, id: string, x: int)
    ensures var s := Run(EMPTY, steps);
            id in s.rows ==>
              var r := s.rows[id];
              (Claimable(r, x) <==> && x <= r.createdAt + 82_800_000
                                    && (match r.status
                                        case Pending => x >= r.availableAt
                                        case Processing => r.lockedAt.Some? && x > r.lockedAt.value + 300_000
                                        case Sent => false
                                        case Failed => false))
  {
    hide Run;
    RunLocked(steps, id);
  }

  /** The delays in milliseconds after the first, second, ... failure of a row. */
  const DELAYS: seq<int> := [5_000, 10_000, 20_000, 40_000, 80_000, 160_000]

  lemma DelayTable(k: nat)
    requires 1 <= k < MAX_ATTEMPTS
    ensures RetryDelay(k) == DELAYS[k - 1]
  {
    assert Pow2(0) == 1 && Pow2(1) == 2 && Pow2(2) == 4 && Pow2(3) == 8;
    assert Pow2(4) == 16 && Pow2(5) == 32;
  }

  /**
   What a failed delivery in time does to its row, by the number of failures it has had: the seventh, or one past the age,
   is the last; any other puts it back, and it may be claimed again exactly once its delay is over and while it is young.
   */
  lemma FailureExactly(steps: seq<Step>, j: nat, x: int)
    ensures var s := Run(EMPTY, steps);
            j in s.jobs && Punctual(steps, s.jobs[j].id) && InTime(s, s.jobs[j]) ==>
              var t, id := Next(s, Fail(j)), s.jobs[j].id;
              && id in s.rows && id in t.rows && t.rows[id].payload == s.rows[id].payload && t.rows[id].createdAt == s.rows[id].createdAt
              && j !in t.jobs && Count(t.failures, id) == Count(s.failures, id) + 1 <= 7
              && var k := Count(t.failures, id);
                 if k == 7 || s.now > s.rows[id].createdAt + 82_800_000 then t.rows[id].status == Failed && !Claimable(t.rows[id], x)
                 else
                   t.rows[id].status == Pending && t.rows[id].lockedAt.None?
                   && (Claimable(t.rows[id], x) <==> s.now + DELAYS[k - 1] <= x <= s.rows[id].createdAt + 82_800_000)
  {
    hide Run, RetryDelay, Punctual;
    var s := Run(EMPTY, steps);
    if j in s.jobs && Punctual(steps, s.jobs[j].id) && InTime(s, s.jobs[j]) {
      var id := s.jobs[j].id;
      RunKeeps(steps, id);
      assert JobSound(s, s.jobs[j]) && RowSound(s, id, s.rows[id]);
      if s.rows[id].attempts + 1 < MAX_ATTEMPTS {
        DelayTable(s.rows[id].attempts + 1);
      }
    }
  }

  /** A mail is due at once, once it is queued, and a delivery takes its payload away and leaves it sent. */
  lemma SendExactly(s: State, a: Step, x: int)
    requires Enabled(s, a)
    ensures a.Enqueue? ==>
              var r := Next(s, a).rows[a.id];
              r.payload == a.payload && r.status == Pending && r.attempts == 0
              && (Claimable(r, x) <==> s.now <= x <= s.now + 82_800_000)
    ensures a.Deliver? && s.jobs[a.job].id in s.rows ==>
              var id := s.jobs[a.job].id;
              Next(s, a).rows[id] == s.rows[id].(status := Sent, sentAt := Some(s.now), lockedAt := None, payload := "")
    ensures a.Claim? ==> Next(s, a).rows == s.rows[a.id := s.rows[a.id].(status := Processing, lockedAt := Some(a.at))]
  {
    hide RetryDelay;
  }

  // ----- finality, exactly -----

  predicate Final(r: Row) {
    r.status == Sent || r.status == Failed
  }

  /** What a report writes over its row. */
  function ReportedRow(s: State, a: Step): Row
    requires (a.Deliver? || a.Fail?) && a.job in s.jobs && s.jobs[a.job].id in s.rows
  {
    var job := s.jobs[a.job];
    if a.Deliver? then SentRow(s.rows[job.id], s.now) else FailedRow(s.rows[job.id], job.claimed, s.now)
  }

  /** In every reachable state a sent or failed row changes exactly by the report of a live delivery of it that says something else. */
  lemma FinalChangesExactly(steps: seq<Step>, a: Step, id: string)
    ensures var s := Run(EMPTY, steps);
            id in s.rows && Final(s.rows[id]) ==>
              id in Next(s, a).rows
              && (Next(s, a).rows[id] != s.rows[id] <==> ReportsOn(s, a, id) && ReportedRow(s, a) != s.rows[id])
  {
    hide RetryDelay, Run;
  }

  /** The row as it is, whatever happens next. */
  ghost predicate StaysForGood(s: State, id: string)
    requires id in s.rows
  {
    forall after: seq<Step> :: id in Run(s, after).rows && Run(s, after).rows[id] == s.rows[id]
  }

  predicate LiveDelivery(s: State, id: string) {
    exists j :: j in s.jobs && s.jobs[j].id == id
  }

  /** A sent or failed row is final exactly when no delivery of it is still live: such a delivery can always turn it. */
  lemma FinalExactly(steps: seq<Step>, id: string)
    ensures var s := Run(EMPTY, steps);
            id in s.rows && Final(s.rows[id]) ==> (StaysForGood(s, id) <==> !LiveDelivery(s, id))
  {
    var s := Run(EMPTY, steps);
    if id in s.rows && Final(s.rows[id]) {
      if j :| j in s.jobs && s.jobs[j].id == id {
        LiveTurns(s, id, j);
      } else {
        forall after: seq<Step> ensures id in Run(s, after).rows && Run(s, after).rows[id] == s.rows[id] {
          QuietStays(s, after, id);
        }
      }
    }
  }

  lemma LiveTurns(s: State, id: string, j: nat)
    requires id in s.rows && Final(s.rows[id]) && j in s.jobs && s.jobs[j].id == id
    ensures !StaysForGood(s, id)
  {
    hide RetryDelay;
    var a := if s.rows[id].status == Sent then Fail(j) else Deliver(j);
    assert [a][..0] == [];
    assert Run(s, [a]) == Next(s, a);
    assert Next(s, a).rows[id] != s.rows[id];
  }

  lemma {:induction false} QuietStays(s: State, after: seq<Step>, id: string)
    requires id in s.rows && Final(s.rows[id]) && !LiveDelivery(s, id)
    ensures var t := Run(s, after); id in t.rows && t.rows[id] == s.rows[id] && !LiveDelivery(t, id)
    decreases |after|
  {
    if after != [] {
      var init, a := after[..|after| - 1], after[|after| - 1];
      QuietStays(s, init, id);
      QuietStep(Run(s, init), a, id);
    }
  }

  lemma QuietStep(s: State, a: Step, id: string)
    requires id in s.rows && Final(s.rows[id]) && !LiveDelivery(s, id)
    ensures var t := Next(s, a); id in t.rows && t.rows[id] == s.rows[id] && !LiveDelivery(t, id)
  {
    hide RetryDelay;
  }

  /**
   Where such a delivery comes from: it claimed the row before the row was finished, and then either it has outlived
   the stale limit itself or an earlier report on the row had.
   */
  lemma LeftoverIsLate(steps: seq<Step>, id: string, j: nat)
    ensures var s := Run(EMPTY, steps);
            id in s.rows && Final(s.rows[id]) && j in s.jobs && s.jobs[j].id == id ==>
              s.jobs[j].claimed.status == Processing
              && (s.now > s.jobs[j].lockedAt + STALE || !Punctual(steps, id))
  {
    hide Run;
    RunKnown(steps);
    if Punctual(steps, id) {
      RunKeeps(steps, id);
    }
  }

  /** So sent and failed are final as long as the deliveries of the row report in time, crashes and reclaims included. */
  lemma {:induction false} FinalForGood(before: seq<Step>, after: seq<Step>, id: string)
    ensures var s, t := Run(EMPTY, before), Run(EMPTY, before + after);
            id in s.rows && Final(s.rows[id]) && Punctual(before + after, id) ==> id in t.rows && t.rows[id] == s.rows[id]
    decreases |after|
  {
    hide Next, RowInvariant, LateReport;
    if after == [] {
      assert before + after == before;
    } else {
      var init, a := after[..|after| - 1], after[|after| - 1];
      var all := before + after;
      assert all[..|all| - 1] == before + init && all[|all| - 1] == a;
      FinalForGood(before, init, id);
      if Punctual(all, id) {
        FinalChangesExactly(before + init, a, id);
        PunctualOnFinal(before + init, a, id);
      }
    }
  }

  lemma PunctualOnFinal(steps: seq<Step>, a: Step, id: string)
    requires Punctual(steps, id) && !LateReport(Run(EMPTY, steps), a, id)
    ensures var s := Run(EMPTY, steps); id in s.rows && Final(s.rows[id]) ==> !ReportsOn(s, a, id)
  {
    hide Run, Punctual;
    var s := Run(EMPTY, steps);
    if ReportsOn(s, a, id) {
      LeftoverIsLate(steps, id, a.job);
    }
  }

  // Without the limit: a delivery outlives its lease, the row is claimed again, the first reports it sent, and the second,
  // in time itself, fails and makes a sent mail pending again with nothing left to send.

  const LATE_RUN: seq<Step> := [Enqueue("m", "x"), Claim(0, "m", 0), Tick(300001), Claim(1, "m", 300001), Deliver(0)]

  function Queued(): Row {
    Row("x", Pending, 0, 0, None, None, 0)
  }

  function FirstClaim(): State {
    State(map["m" := ClaimedRow(Queued(), 0)], map[0 := Job("m", ClaimedRow(Queued(), 0), 0)], map[], 0)
  }

  function SecondClaim(): State {
    State(map["m" := ClaimedRow(Queued(), 300001)],
          map[0 := Job("m", ClaimedRow(Queued(), 0), 0), 1 := Job("m", ClaimedRow(Queued(), 300001), 300001)], map[], 300001)
  }

  lemma LateClaims()
    ensures Run(EMPTY, LATE_RUN[..4]) == SecondClaim()
  {
    var p1, p2, p3, p4 := LATE_RUN[..1], LATE_RUN[..2], LATE_RUN[..3], LATE_RUN[..4];
    assert p1[..0] == [] && p2[..1] == p1 && p3[..2] == p2 && p4[..3] == p3;
    assert Run(EMPTY, p1) == State(map["m" := Queued()], map[], map[], 0);
    assert Run(EMPTY, p2) == FirstClaim();
    assert Run(EMPTY, p3) == FirstClaim().(now := 300001);
    assert ClaimedRow(ClaimedRow(Queued(), 0), 300001) == ClaimedRow(Queued(), 300001);
  }

  lemma LateDeliveryUnsends()
    ensures var s := Run(EMPTY, LATE_RUN);
            var t := Next(s, Fail(1));
            "m" in s.rows && s.rows["m"].status == Sent && 1 in s.jobs && s.jobs[1].id == "m" && InTime(s, s.jobs[1])
            && "m" in t.rows && t.rows["m"].status == Pending && t.rows["m"].payload == ""
  {
    hide RetryDelay;
    LateClaims();
    assert LATE_RUN[..4] == LATE_RUN[..|LATE_RUN| - 1];
  }
}
