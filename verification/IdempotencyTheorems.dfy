/** The promises of the machine API, over every run of the protocol from empty tables. */
module IdempotencyTheorems {
  import opened Wrappers
  import opened TransactionJson
  import opened Idempotency
  import opened IdempotencyInvariant
  import opened IdempotencySteps

  lemma ReachableSound(trigger: bool, now: int, refs: References, steps: seq<Step>)
    ensures Invariant(Run(Initial(trigger, now, refs), steps))
  {
    InitialSound(trigger, now, refs);
    RunKeeps(Initial(trigger, now, refs), steps);
  }

  /**
   Two completions under one key are a whole retention apart by their stamps, and their commits that far apart less the
   time the earlier one took from its stamp to its commit; no record is ever left in progress.
   */
  lemma ExactlyOnce(trigger: bool, now: int, refs: References, steps: seq<Step>)
    ensures var s := Run(Initial(trigger, now, refs), steps);
            && (forall i, j :: 0 <= i < j < |s.log| && s.log[i].Committed? && s.log[j].Committed?
                               && KeyOf(s.log[i].request).Some? && KeyOf(s.log[i].request) == KeyOf(s.log[j].request) ==>
                                 s.log[i].completedAt + RETENTION_MS <= s.log[j].completedAt <= s.log[j].committedAt
                                 && s.log[j].committedAt - s.log[i].committedAt
                                    >= RETENTION_MS - (s.log[i].committedAt - s.log[i].completedAt))
            && (forall k :: k in s.records ==> s.records[k].status == Done)
  {
    hide OutcomeShape;
    ReachableSound(trigger, now, refs, steps);
    var s := Run(Initial(trigger, now, refs), steps);
    forall i, j | 0 <= i < j < |s.log| && s.log[i].Committed? && s.log[j].Committed?
                  && KeyOf(s.log[i].request).Some? && KeyOf(s.log[i].request) == KeyOf(s.log[j].request)
      ensures s.log[i].completedAt + RETENTION_MS <= s.log[j].completedAt <= s.log[j].committedAt
    {
      assert CommitSound(s, s.log[j]);
    }
    forall k | k in s.records ensures s.records[k].status == Done {
      RecordsAreDone(s, k);
    }
  }

  /** Event `a` answers a request under the key of commit `e` before the retention of `e` ends. */
  ghost predicate AnsweredWhileRetained(e: Event, a: Event) {
    && e.Committed? && a.Answered? && KeyOf(e.request).Some? && KeyOf(e.request) == KeyOf(a.request)
    && a.at < e.completedAt + RETENTION_MS
  }

  /**
   While a completion is retained, the same request under its key is only replayed or refused and any other
   request only conflicts; nothing is ever answered "in progress".
   */
  lemma OnlyReplaysBetween(trigger: bool, now: int, refs: References, steps: seq<Step>)
    ensures var s := Run(Initial(trigger, now, refs), steps);
            && (forall i, j :: 0 <= i < j < |s.log| && AnsweredWhileRetained(s.log[i], s.log[j]) ==> AnswerFits(s.log[i], s.log[j]))
            && (forall j :: 0 <= j < |s.log| && s.log[j].Answered? ==> s.log[j].answer != Err(InProgress))
  {
    hide AnswerFits;
    ReachableSound(trigger, now, refs, steps);
    var s := Run(Initial(trigger, now, refs), steps);
    forall i, j | 0 <= i < j < |s.log| && AnsweredWhileRetained(s.log[i], s.log[j])
      ensures AnswerFits(s.log[i], s.log[j])
    {
      assert AnswerSound(s.log, j) && CompletedUnder(s.log[i], KeyOf(s.log[j].request).value);
    }
    forall j | 0 <= j < |s.log| && s.log[j].Answered? ensures s.log[j].answer != Err(InProgress) {
      AnswerHasSource(s.log, j);
    }
  }

  lemma AnswerHasSource(log: seq<Event>, j: nat)
    requires j < |log| && log[j].Answered? && AnswerSound(log, j)
    ensures exists i :: 0 <= i < j && CompletedUnder(log[i], KeyOf(log[j].request).value) && Retained(log[i], log[j].at) && AnswerFits(log[i], log[j])
    ensures log[j].answer != Err(InProgress)
  {
    var i :| 0 <= i < j && CompletedUnder(log[i], KeyOf(log[j].request).value) && Retained(log[i], log[j].at);
    assert AnswerFits(log[i], log[j]);
  }

  /** Answer `a` is the answer of commit `e`, which it repeats. */
  ghost predicate Repeats(a: Event, e: Event) {
    && a.Answered? && e.Committed? && KeyOf(e.request).Some? && KeyOf(e.request) == KeyOf(a.request)
    && Retained(e, a.at) && ClaimOf(e.request) == ClaimOf(a.request)
    && a.answer == Ok(e.outcome.response.(replayed := true))
  }

  /** A replayed answer is the answer of an earlier, still retained completion of the same request, whatever happened to its target since. */
  lemma FaithfulReplay(trigger: bool, now: int, refs: References, steps: seq<Step>)
    ensures var s := Run(Initial(trigger, now, refs), steps);
            forall j :: 0 <= j < |s.log| && s.log[j].Answered? && s.log[j].answer.Ok? ==>
              exists i :: 0 <= i < j && Repeats(s.log[j], s.log[i])
  {
    hide ClaimOf;
    ReachableSound(trigger, now, refs, steps);
    var s := Run(Initial(trigger, now, refs), steps);
    forall j | 0 <= j < |s.log| && s.log[j].Answered? && s.log[j].answer.Ok?
      ensures exists i :: 0 <= i < j && Repeats(s.log[j], s.log[i])
    {
      assert AnswerSound(s.log, j);
      AnswerHasSource(s.log, j);
      var i :| 0 <= i < j && CompletedUnder(s.log[i], KeyOf(s.log[j].request).value) && Retained(s.log[i], s.log[j].at) && AnswerFits(s.log[i], s.log[j]);
      assert Repeats(s.log[j], s.log[i]);
    }
  }

  /** The identity a create asks for. */
  function RequestedIdentity(r: Request): Option<(string, string, string)> {
    if r.Create? && r.command.externalId.Some? then
      Some((r.principal.workspaceId, r.principal.integrationId, r.command.externalId.value))
    else None
  }

  /**
   At most one row is ever created for a source identity, and it stays (deleted or not); every later create of
   that identity, keyed or keyless, writes nothing and answers that it already exists.
   */
  lemma SourceIdentity(trigger: bool, now: int, refs: References, steps: seq<Step>)
    ensures var s := Run(Initial(trigger, now, refs), steps);
            forall i :: 0 <= i < |s.log| && Inserted(s.log[i]) && IdentityOf(s.log[i].outcome.effect.row).Some? ==>
              var row := s.log[i].outcome.effect.row;
              && row.id in s.rows && IdentityOf(s.rows[row.id]) == IdentityOf(row)
              && forall j :: i < j < |s.log| && s.log[j].Committed? && RequestedIdentity(s.log[j].request) == IdentityOf(row) ==>
                   s.log[j].outcome.effect == NoWrite && s.log[j].outcome.response.status == 200
                   && s.log[j].outcome.response.alreadyExists == row.externalId
  {
    ReachableSound(trigger, now, refs, steps);
    var s := Run(Initial(trigger, now, refs), steps);
    forall i, j | 0 <= i < j < |s.log| && Inserted(s.log[i]) && s.log[j].Committed?
                  && IdentityOf(s.log[i].outcome.effect.row).Some?
                  && RequestedIdentity(s.log[j].request) == IdentityOf(s.log[i].outcome.effect.row)
      ensures s.log[j].outcome.effect == NoWrite && s.log[j].outcome.response.status == 200
      ensures s.log[j].outcome.response.alreadyExists == s.log[i].outcome.effect.row.externalId
    {
      LaterCreateWritesNothing(s, i, j);
    }
  }

  lemma LaterCreateWritesNothing(s: State, i: nat, j: nat)
    requires Invariant(s) && i < j < |s.log| && Inserted(s.log[i]) && s.log[j].Committed?
    requires IdentityOf(s.log[i].outcome.effect.row).Some?
    requires RequestedIdentity(s.log[j].request) == IdentityOf(s.log[i].outcome.effect.row)
    ensures s.log[j].outcome.effect == NoWrite && s.log[j].outcome.response.status == 200
    ensures s.log[j].outcome.response.alreadyExists == s.log[i].outcome.effect.row.externalId
  {
    hide WorkersSound, RecordsSound, AnswersSound, CommitsApart, VersionsSound, ChainSound, CompletedRecord;
    assert CommitSound(s, s.log[j]);
    if Inserted(s.log[j]) {
      InsertIdentitiesDiffer(s, i, j);
    }
  }

  lemma InsertIdentitiesDiffer(s: State, i: nat, j: nat)
    requires RowsSound(s) && InsertsSound(s) && i < j < |s.log| && Inserted(s.log[i]) && Inserted(s.log[j])
    requires IdentityOf(s.log[i].outcome.effect.row).Some?
    ensures IdentityOf(s.log[i].outcome.effect.row) != IdentityOf(s.log[j].outcome.effect.row)
  {
    hide IdentityOf;
    var a, b := s.log[i].outcome.effect.row, s.log[j].outcome.effect.row;
    assert IdentityOf(s.rows[a.id]) != IdentityOf(s.rows[b.id]);
  }

  /**
   The version column counts the writes; each consuming write started from the version its predecessors left, and a
   machine write from the version its request named, with the trigger and without.
   */
  lemma VersionChain(trigger: bool, now: int, refs: References, steps: seq<Step>)
    ensures var s := Run(Initial(trigger, now, refs), steps);
            && (forall id :: id in s.rows ==> s.rows[id].version == 1 + WritesTo(s.log, id))
            && (forall j, id :: 0 <= j < |s.log| && Consumes(s.log[j], id) ==> FromVersion(s.log[j]) == 1 + WritesTo(s.log[..j], id))
            && (forall i, j, id :: 0 <= i < j < |s.log| && Consumes(s.log[i], id) && Consumes(s.log[j], id) ==>
                  FromVersion(s.log[i]) < FromVersion(s.log[j]))
            && (forall j, id :: 0 <= j < |s.log| && s.log[j].Committed? && Consumes(s.log[j], id) ==>
                  ExpectedVersion(s.log[j].request) == FromVersion(s.log[j]))
  {
    hide Consumes, FromVersion, ExpectedVersion, Run;
    ReachableSound(trigger, now, refs, steps);
    var s := Run(Initial(trigger, now, refs), steps);
    forall i, j, id | 0 <= i < j < |s.log| && Consumes(s.log[i], id) && Consumes(s.log[j], id)
      ensures FromVersion(s.log[i]) < FromVersion(s.log[j])
    {
      WritesGrow(s.log, i, j, id);
    }
    forall j, id | 0 <= j < |s.log| && s.log[j].Committed? && Consumes(s.log[j], id)
      ensures ExpectedVersion(s.log[j].request) == FromVersion(s.log[j])
    {
      NamedVersion(s, j, id);
    }
  }

  lemma NamedVersion(s: State, j: nat, id: string)
    requires HistorySound(s) && j < |s.log| && s.log[j].Committed? && Consumes(s.log[j], id)
    ensures ExpectedVersion(s.log[j].request) == FromVersion(s.log[j])
  {
    hide AnswersSound, CommitsApart, ChainSound, CompletedRecord, VersionsSound, InsertsSound;
    assert CommitSound(s, s.log[j]);
  }

  lemma {:induction false} WritesGrow(log: seq<Event>, i: nat, j: nat, id: string)
    requires i < j <= |log| && Consumes(log[i], id)
    ensures WritesTo(log[..i], id) < WritesTo(log[..j], id)
    decreases j
  {
    hide Consumes;
    assert log[..j][..j - 1] == log[..j - 1];
    if j > i + 1 {
      WritesGrow(log, i, j - 1, id);
    }
  }

  function ExpectedVersion(r: Request): int {
    match r case Create(_, _, _) => 0 case Update(_, _, _, v, _) => v case Delete(_, _, _, v) => v
  }

  /** Any write to row `id`, counted by a version or not. */
  predicate Touches(e: Event, id: string) {
    match e
    case Committed(_, _, _, _, o) => o.effect.Replace? && o.effect.row.id == id
    case HumanWrote(row, _, _) => row == id
    case Answered(_, _, _) => false
  }

  /** With the trigger, a machine write's If-Match version has counted every earlier write to the row, browser edits included. */
  lemma NoUnseenWrite(now: int, refs: References, steps: seq<Step>)
    ensures var s := Run(Initial(true, now, refs), steps);
            forall i, j, id :: 0 <= i < j < |s.log| && Touches(s.log[i], id) && s.log[j].Committed? && Touches(s.log[j], id) ==>
              FromVersion(s.log[i]) < ExpectedVersion(s.log[j].request) == FromVersion(s.log[j])
  {
    ReachableSound(true, now, refs, steps);
    var s := Run(Initial(true, now, refs), steps);
    RunTrigger(Initial(true, now, refs), steps);
    VersionChain(true, now, refs, steps);
    forall i, j, id | 0 <= i < j < |s.log| && Touches(s.log[i], id) && s.log[j].Committed? && Touches(s.log[j], id)
      ensures FromVersion(s.log[i]) < ExpectedVersion(s.log[j].request) == FromVersion(s.log[j])
    {
      TouchConsumes(s, i, j, id);
    }
  }

  lemma TouchConsumes(s: State, i: nat, j: nat, id: string)
    requires Invariant(s) && s.trigger && i < j < |s.log|
    requires Touches(s.log[i], id) && s.log[j].Committed? && Touches(s.log[j], id)
    ensures Consumes(s.log[i], id) && Consumes(s.log[j], id) && ExpectedVersion(s.log[j].request) == FromVersion(s.log[j])
  {
    hide WorkersSound, RecordsSound, AnswersSound, CommitsApart, ChainSound, CompletedRecord;
    assert CommitSound(s, s.log[j]) && WroteKnownRow(s, s.log[i]) && WroteKnownRow(s, s.log[j]);
  }

  lemma {:induction false} RunTrigger(s: State, steps: seq<Step>)
    ensures Run(s, steps).trigger == s.trigger
    decreases |steps|
  {
    if steps != [] {
      RunTrigger(s, steps[..|steps| - 1]);
      NextTrigger(Run(s, steps[..|steps| - 1]), steps[|steps| - 1]);
    }
  }

  lemma NextTrigger(s: State, a: Step)
    ensures Next(s, a).trigger == s.trigger
  {
    hide Enabled, Decide, Replay, RowReferencesOk, CommandReferencesOk, Matches, CompletedRecord, DetailsOf, HumanVersion, Etag;
    if Enabled(s, a) {
      EnabledWorkers(s, a);
    }
  }

  lemma EnabledWorkers(s: State, a: Step)
    requires Enabled(s, a)
    ensures (a.Decided? || a.Locate? || a.Mutate? || a.Finish? || a.Commit?) ==> a.wid in s.workers
    ensures a.Locate? && a.found.Some? ==> a.found.value in s.rows
    ensures (a.HumanEdit? || a.HumanDelete?) ==> a.id in s.rows
  {
  }

  /** The conditional update repeats a check that its row lock keeps true: it never fails after the first. */
  lemma SecondCheckHolds(trigger: bool, now: int, refs: References, steps: seq<Step>, wid: nat)
    ensures var s := Run(Initial(trigger, now, refs), steps);
            wid in s.workers && s.workers[wid].phase == Located && s.workers[wid].request.Update? ==>
              var w := s.workers[wid];
              w.located.Some? && Matches(s.rows, w.located.value.id, w.request.principal, w.request.externalId, w.request.expectedVersion)
  {
    ReachableSound(trigger, now, refs, steps);
    var s := Run(Initial(trigger, now, refs), steps);
    if wid in s.workers {
      assert WorkerSound(s, s.workers[wid]);
    }
  }

  // ----- what the trigger is for -----

  lemma RunAppend(s: State, steps: seq<Step>, a: Step)
    ensures Run(s, steps + [a]) == Next(Run(s, steps), a)
  {
    assert (steps + [a])[..|steps|] == steps;
  }

  /** A machine client that read version v before a browser edit sends its update with If-Match v afterwards. */
  function StaleSteps(id: string, edit: Details, r: Request, quote: Quote, newId: string, stamp: Instant): seq<Step> {
    [HumanEdit(id, edit, [], stamp), Open(0, r), Decided(0), Locate(0, Some(id)), Mutate(0, quote, newId, [], stamp), Finish(0)]
    + [Commit(0)]
  }

  ghost predicate StaleUpdatePossible(s: State, id: string, edit: Details, r: Request, quote: Quote, newId: string) {
    && s.workers == map[] && id in s.rows && s.rows[id].deletedAt.None? && s.rows[id].id == id
    && r.Update? && OwnedBy(s.rows[id], r.principal, r.externalId) && r.expectedVersion == s.rows[id].version
    && KeyOf(r).Some? && KeyOf(r).value !in s.records
    && RowReferencesOk(r.principal, s.references, s.rows[id].(details := edit))
    && CommandReferencesOk(r.principal, s.references, r.command)
    && InRange(quote) && newId !in s.rows
  }

  /**
   The service passes no version for a browser edit. Whether the stale machine update then overwrites the edit it
   never saw is decided by the trigger alone: with it the edit stands, without it the machine write replaces it.
   */
  lemma StaleUpdateMeetsEdit(s: State, id: string, edit: Details, r: Request, quote: Quote, newId: string, stamp: Instant)
    requires StaleUpdatePossible(s, id, edit, r, quote, newId)
    ensures var t := Run(s, StaleSteps(id, edit, r, quote, newId, stamp));
            id in t.rows && t.rows[id].details == (if s.trigger then edit else DetailsOf(r.command, quote))
  {
    hide ReferencesOk, CommandReferencesOk, InRange, DetailsOf, CompletedRecord, ClaimOf, Etag, Run, Next;
    var a1, a2, a3 := HumanEdit(id, edit, [], stamp), Open(0, r), Decided(0);
    var s3 := AfterDecision(s, id, edit, r, quote, newId, stamp);
    var pre := [a1, a2, a3];
    var a4, a5, a6, a7 := Locate(0, Some(id)), Mutate(0, quote, newId, [], stamp), Finish(0), Commit(0);
    RunAppend(s, pre, a4);
    RunAppend(s, pre + [a4], a5);
    RunAppend(s, pre + [a4] + [a5], a6);
    RunAppend(s, pre + [a4] + [a5] + [a6], a7);
    assert pre + [a4] + [a5] + [a6] + [a7] == StaleSteps(id, edit, r, quote, newId, stamp);
    AfterLocate(s3, id, r, quote, newId, stamp, edit);
  }

  lemma AfterDecision(s: State, id: string, edit: Details, r: Request, quote: Quote, newId: string, stamp: Instant) returns (t: State)
    requires StaleUpdatePossible(s, id, edit, r, quote, newId)
    ensures t == Run(s, [HumanEdit(id, edit, [], stamp), Open(0, r), Decided(0)])
    ensures t.trigger == s.trigger && t.references == s.references && t.now == s.now
    ensures t.workers == map[0 := Worker(r, Claimed, s.now, None, None, s.now)]
    ensures t.rows == s.rows[id := s.rows[id].(details := edit, version := HumanVersion(s, s.rows[id]), updatedAt := stamp, tags := [])]
  {
    hide ReferencesOk, RowReferencesOk, CommandReferencesOk, InRange, DetailsOf, CompletedRecord, ClaimOf, Run, Next;
    var a1, a2, a3 := HumanEdit(id, edit, [], stamp), Open(0, r), Decided(0);
    assert Run(s, []) == s by { RunNothing(s); }
    RunAppend(s, [], a1);
    RunAppend(s, [a1], a2);
    RunAppend(s, [a1, a2], a3);
    assert [] + [a1] == [a1] && [a1] + [a2] == [a1, a2] && [a1, a2] + [a3] == [a1, a2, a3];
    EditedRow(s, id, edit, stamp);
    OpenedWorker(Next(s, a1), r);
    DecidedWorker(Next(Next(s, a1), a2), r);
    t := Run(s, [a1, a2, a3]);
  }

  lemma RunNothing(s: State)
    ensures Run(s, []) == s
  {
  }

  lemma EditedRow(s: State, id: string, edit: Details, stamp: Instant)
    requires s.workers == map[] && id in s.rows && s.rows[id].deletedAt.None?
    ensures var t := Next(s, HumanEdit(id, edit, [], stamp));
            && t == s.(rows := t.rows, log := t.log)
            && t.rows == s.rows[id := s.rows[id].(details := edit, version := HumanVersion(s, s.rows[id]), updatedAt := stamp, tags := [])]
  {
  }

  lemma OpenedWorker(s: State, r: Request)
    requires s.workers == map[] && r.key.Some?
    ensures Next(s, Open(0, r)) == s.(workers := map[0 := Worker(r, Opened, s.now, None, None, s.now)])
  {
  }

  lemma DecidedWorker(s: State, r: Request)
    requires s.workers == map[0 := Worker(r, Opened, s.now, None, None, s.now)] && KeyOf(r).Some? && KeyOf(r).value !in s.records
    ensures Next(s, Decided(0)) == s.(workers := map[0 := Worker(r, Claimed, s.now, None, None, s.now)])
  {
    hide ClaimOf;
  }

  lemma AfterLocate(s: State, id: string, r: Request, quote: Quote, newId: string, stamp: Instant, edit: Details)
    requires s.workers == map[0 := Worker(r, Claimed, s.now, None, None, s.now)] && r.Update? && r.key.Some?
    requires id in s.rows && s.rows[id].deletedAt.None? && OwnedBy(s.rows[id], r.principal, r.externalId) && s.rows[id].id == id
    requires s.rows[id].details == edit && newId !in s.rows
    requires RowReferencesOk(r.principal, s.references, s.rows[id]) && CommandReferencesOk(r.principal, s.references, r.command) && InRange(quote)
    ensures var t := Next(Next(Next(Next(s, Locate(0, Some(id))), Mutate(0, quote, newId, [], stamp)), Finish(0)), Commit(0));
            id in t.rows && t.rows[id].details == (if s.rows[id].version == r.expectedVersion then DetailsOf(r.command, quote) else edit)
  {
    hide ReferencesOk, RowReferencesOk, CommandReferencesOk, InRange, DetailsOf, CompletedRecord, ClaimOf, Etag, Next;
    var l := Next(s, Locate(0, Some(id)));
    var m := Next(l, Mutate(0, quote, newId, [], stamp));
    LocatedOrGone(s, id, r);
    if s.rows[id].version == r.expectedVersion {
      MutatedRow(l, id, r, quote, newId, stamp);
      CommittedRow(m, id);
    } else {
      NothingLeft(l, Mutate(0, quote, newId, [], stamp));
      NothingLeft(l, Finish(0));
      NothingLeft(l, Commit(0));
    }
  }

  lemma NothingLeft(s: State, a: Step)
    requires s.workers == map[] && (a.Mutate? || a.Finish? || a.Commit?)
    ensures Next(s, a) == s
  {
  }

  lemma LocatedOrGone(s: State, id: string, r: Request)
    requires s.workers == map[0 := Worker(r, Claimed, s.now, None, None, s.now)] && r.Update?
    requires id in s.rows && s.rows[id].deletedAt.None? && OwnedBy(s.rows[id], r.principal, r.externalId)
    requires RowReferencesOk(r.principal, s.references, s.rows[id]) && CommandReferencesOk(r.principal, s.references, r.command)
    ensures Next(s, Locate(0, Some(id)))
         == s.(workers := if s.rows[id].version == r.expectedVersion then
                            map[0 := Worker(r, Located, s.now, Some(s.rows[id]), None, s.now)] else map[])
  {
    hide RowReferencesOk, CommandReferencesOk;
  }

  lemma MutatedRow(s: State, id: string, r: Request, quote: Quote, newId: string, stamp: Instant)
    requires id in s.rows && s.workers == map[0 := Worker(r, Located, s.now, Some(s.rows[id]), None, s.now)] && r.Update?
    requires s.rows[id].id == id && Matches(s.rows, id, r.principal, r.externalId, r.expectedVersion) && InRange(quote) && newId !in s.rows
    ensures var m := Next(s, Mutate(0, quote, newId, [], stamp));
            m.workers.Keys == {0} && m.workers[0].phase == Mutated && m.workers[0].outcome.Some?
            && m.workers[0].outcome.value.effect.Replace? && m.workers[0].outcome.value.effect.row.id == id
            && m.workers[0].outcome.value.effect.row.details == DetailsOf(r.command, quote)
  {
    hide InRange, DetailsOf, Etag;
  }

  lemma CommittedRow(m: State, id: string)
    requires m.workers.Keys == {0} && m.workers[0].phase == Mutated && m.workers[0].outcome.Some?
    requires m.workers[0].outcome.value.effect.Replace? && m.workers[0].outcome.value.effect.row.id == id
    ensures var t := Next(Next(m, Finish(0)), Commit(0)); id in t.rows && t.rows[id] == m.workers[0].outcome.value.effect.row
  {
    hide CompletedRecord;
  }
}
