/** Each step of the protocol keeps the invariant; hence every run does. */
module IdempotencySteps {
  import opened Wrappers
  import opened TransactionJson
  import opened Idempotency
  import opened IdempotencyInvariant

  // ----- one more event in the history -----

  lemma WritesToAppend(log: seq<Event>, e: Event, id: string)
    ensures WritesTo(log + [e], id) == WritesTo(log, id) + (if Consumes(e, id) then 1 else 0)
  {
    assert (log + [e])[..|log|] == log;
  }

  lemma AnswersAppend(log: seq<Event>, e: Event)
    requires AnswersSound(log)
    requires e.Answered? ==> AnswerSound(log + [e], |log|)
    ensures AnswersSound(log + [e])
  {
    hide AnswerFits, Retained, KeyOf;
    var more := log + [e];
    forall j | 0 <= j < |more| && more[j].Answered? ensures AnswerSound(more, j) {
      if j < |log| {
        assert AnswerSound(log, j);
        var i :| 0 <= i < j && CompletedUnder(log[i], KeyOf(log[j].request).value) && Retained(log[i], log[j].at);
        assert more[i] == log[i];
      }
    }
  }

  lemma ApartAppend(log: seq<Event>, e: Event)
    requires CommitsApart(log)
    requires e.Committed? && KeyOf(e.request).Some? ==>
               forall i :: 0 <= i < |log| && CompletedUnder(log[i], KeyOf(e.request).value) ==> log[i].completedAt + RETENTION_MS <= e.claimedAt
    ensures CommitsApart(log + [e])
  {
    var more := log + [e];
    forall i, j | 0 <= i < j < |more| && more[i].Committed? && more[j].Committed? && KeyOf(more[i].request).Some?
                  && KeyOf(more[i].request) == KeyOf(more[j].request)
      ensures more[i].completedAt + RETENTION_MS <= more[j].claimedAt
    {
      if j == |log| {
        assert CompletedUnder(log[i], KeyOf(e.request).value);
      }
    }
  }

  lemma ChainAppend(log: seq<Event>, e: Event)
    requires ChainSound(log)
    requires forall id :: Consumes(e, id) ==> FromVersion(e) == 1 + WritesTo(log, id)
    ensures ChainSound(log + [e])
  {
    hide Consumes, FromVersion, WritesTo;
    var more := log + [e];
    forall j, id | 0 <= j < |more| && Consumes(more[j], id) ensures FromVersion(more[j]) == 1 + WritesTo(more[..j], id) {
      assert j < |log| ==> more[..j] == log[..j] && more[j] == log[j];
      assert j == |log| ==> more[..j] == log;
    }
  }

  // ----- clock, references, opening, completing -----

  lemma TickKeeps(s: State, to: int)
    requires Invariant(s) && s.now <= to
    ensures Invariant(s.(now := to))
  {
    hide WritesTo, LeftBy, AnswerFits, OutcomeShape, KeyOf, IdentityOf;
    var t := s.(now := to);
    forall v | v in t.workers ensures WorkerSound(t, t.workers[v]) {
      assert WorkerSound(s, s.workers[v]);
    }
    HistoryFrame(s, t);
  }

  lemma ArchiveKeeps(s: State, refs: References)
    requires Invariant(s)
    ensures Invariant(s.(references := refs))
  {
    hide WritesTo, LeftBy, AnswerFits, OutcomeShape, KeyOf, IdentityOf;
    var t := s.(references := refs);
    forall v | v in t.workers ensures WorkerSound(t, t.workers[v]) {
      assert WorkerSound(s, s.workers[v]);
    }
    HistoryFrame(s, t);
  }

  lemma FinishKeeps(s: State, wid: nat)
    requires Invariant(s) && Enabled(s, Finish(wid))
    ensures Invariant(Next(s, Finish(wid)))
  {
    hide OutcomeShape, IdentityOf, CompletedUnder, HistorySound, RowsSound, RecordsSound, Compatible, IdentityLock, RowLock, KeyLock;
    var w := s.workers[wid];
    var f := w.(phase := Finished, completedAt := s.now);
    assert WorkerSound(s, w);
    FinishKeepsLocks(w, s.now);
    AdvanceSameLocks(s, wid, f);
  }

  lemma FinishKeepsLocks(w: Worker, now: int)
    requires w.phase == Mutated
    ensures var f := w.(phase := Finished, completedAt := now);
            KeyLock(f) == KeyLock(w) && IdentityLock(f) == IdentityLock(w) && RowLock(f) == RowLock(w) && PendingInsert(f) == PendingInsert(w)
  {
  }

  lemma OpenKeeps(s: State, wid: nat, r: Request)
    requires Invariant(s) && Enabled(s, Open(wid, r))
    ensures Invariant(Next(s, Open(wid, r)))
  {
    AdvanceWorker(s, wid, Worker(r, Opened, s.now, None, None, s.now));
  }

  // ----- the decision under the key lock -----

  /** A record is found completed, and claimable only once the retention of every commit under the key is over. */
  lemma ClaimableAfterRetention(s: State, k: (string, string), p: Principal, c: Claim)
    requires RecordsSound(s) && CommitsSound(s)
    requires Decide(if k in s.records then Some(s.records[k]) else None, p, c, s.now) == Claimable
    ensures forall i :: 0 <= i < |s.log| && CompletedUnder(s.log[i], k) ==> s.log[i].completedAt + RETENTION_MS <= s.now
  {
    forall i | 0 <= i < |s.log| && CompletedUnder(s.log[i], k) ensures s.log[i].completedAt + RETENTION_MS <= s.now {
      assert CommitSound(s, s.log[i]);
      if k in s.records && LeftBy(s.records[k], s.log[i], k) {
        RecordExpiry(s.records[k], s.log[i], k);
      }
    }
  }

  lemma ClaimKeeps(s: State, wid: nat)
    requires Invariant(s) && Enabled(s, Decided(wid))
    requires var w := s.workers[wid];
             KeyOf(w.request).Some? ==>
               forall i :: 0 <= i < |s.log| && CompletedUnder(s.log[i], KeyOf(w.request).value) ==> s.log[i].completedAt + RETENTION_MS <= s.now
    ensures Invariant(WithWorker(s, wid, s.workers[wid].(phase := Claimed, claimedAt := s.now)))
  {
    hide OutcomeShape, IdentityOf;
    var w := s.workers[wid];
    assert WorkerSound(s, w);
    AdvanceWorker(s, wid, w.(phase := Claimed, claimedAt := s.now));
  }

  /** A replay gives back the original answer, or refuses. */
  lemma ReplayFaithful(e: Event, p: Principal, rows: map<string, Transaction>, refs: References)
    requires e.Committed? && OutcomeShape(e.request, e.outcome)
    ensures var answer := Replay(CompletedRecord(e.request, e.outcome, e.completedAt), p, rows, refs);
            answer == Err(NotFound) || answer == Ok(e.outcome.response.(replayed := true))
  {
    hide SerializeTransaction, DeserializeTransaction, RowReferencesOk, ReferencesOk, Etag;
    if e.outcome.response.transaction.Some? {
      StoredBodyRoundTrip(e.outcome.response.transaction.value);
    }
  }

  /** The answer is given from a retained commit under its key and fits every one retained. */
  lemma AnswerStands(s: State, a: Event, k: (string, string))
    requires RecordsSound(s) && CommitsSound(s) && a.Answered? && a.at == s.now && KeyOf(a.request) == Some(k)
    requires k in s.records && s.now < s.records[k].expiresAt
    requires forall i :: 0 <= i < |s.log| && LeftBy(s.records[k], s.log[i], k) ==> AnswerFits(s.log[i], a)
    ensures AnswerSound(s.log + [a], |s.log|)
  {
    hide AnswerFits, OutcomeShape, CompletedRecord;
    var more := s.log + [a];
    var i :| 0 <= i < |s.log| && LeftBy(s.records[k], s.log[i], k);
    RecordExpiry(s.records[k], s.log[i], k);
    assert CommitSound(s, s.log[i]);
    assert more[i] == s.log[i] && Retained(more[i], s.now);
    forall i | 0 <= i < |s.log| && CompletedUnder(more[i], k) && a.at < more[i].completedAt + RETENTION_MS
      ensures AnswerFits(more[i], a)
    {
      assert CommitSound(s, s.log[i]);
    }
  }

  lemma AnswerKeeps(s: State, wid: nat, answer: Result<Response, Refusal>)
    requires Invariant(s) && wid in s.workers && KeyOf(s.workers[wid].request).Some?
    requires var a := Answered(s.workers[wid].request, s.now, answer);
             var k := KeyOf(a.request).value;
             k in s.records && s.now < s.records[k].expiresAt
             && forall i :: 0 <= i < |s.log| && LeftBy(s.records[k], s.log[i], k) ==> AnswerFits(s.log[i], a)
    ensures Invariant(Logged(Without(s, wid), Answered(s.workers[wid].request, s.now, answer)))
  {
    hide AnswerFits, AnswerSound, OutcomeShape, CompletedRecord, IdentityOf, WritesTo, WorkersSound, RowsSound, VersionsSound, InsertsSound;
    hide LeftBy, RecordsSound, CommitsSound, CommitsApart, AnswersSound, ChainSound, KeyOf;
    var a := Answered(s.workers[wid].request, s.now, answer);
    RollbackKeeps(s, wid);
    AnswerStands(s, a, KeyOf(a.request).value);
    AnswersAppend(s.log, a);
    ApartAppend(s.log, a);
    ChainAppend(s.log, a) by { AnswersConsumeNothing(a); }
    QuietEvent(Without(s, wid), a);
  }

  lemma AnswersConsumeNothing(a: Event)
    ensures a.Answered? ==> forall id :: !Consumes(a, id)
  {
  }

  lemma RecordExpiry(r: Record, e: Event, k: (string, string))
    requires LeftBy(r, e, k)
    ensures r.status == Done && r.completedAt == e.completedAt && r.expiresAt == e.completedAt + RETENTION_MS
  {
  }

  /** An answer adds an event that commits, inserts and moves nothing. */
  lemma QuietEvent(s: State, a: Event)
    requires Invariant(s) && a.Answered?
    requires AnswersSound(s.log + [a]) && CommitsApart(s.log + [a]) && ChainSound(s.log + [a])
    ensures Invariant(Logged(s, a))
  {
    hide AnswerFits, OutcomeShape, CompletedRecord, IdentityOf, WritesTo, Compatible, LeftBy, RecordsSound, CommitsApart, AnswersSound;
    hide ChainSound;
    var t := Logged(s, a);
    forall v | v in t.workers ensures WorkerSound(t, t.workers[v]) {
      assert WorkerSound(s, s.workers[v]);
    }
    RecordsUnderEvent(s, t, a);
    forall i | 0 <= i < |t.log| && t.log[i].Committed? ensures CommitSound(t, t.log[i]) {
      assert CommitSound(s, s.log[i]);
    }
    forall id | id in t.rows ensures t.rows[id].version == 1 + WritesTo(t.log, id) {
      WritesToAppend(s.log, a, id);
    }
    forall j | 0 <= j < |t.log| ensures WroteKnownRow(t, t.log[j]) {
      if j < |s.log| {
        assert WroteKnownRow(s, s.log[j]);
      }
    }
  }

  /** No committed record is left in progress. */
  lemma RecordsAreDone(s: State, k: (string, string))
    requires RecordsSound(s)
    ensures k in s.records ==> s.records[k].status == Done
  {
    if k in s.records {
      var i :| 0 <= i < |s.log| && LeftBy(s.records[k], s.log[i], k);
      RecordExpiry(s.records[k], s.log[i], k);
    }
  }

  lemma ReplayFits(s: State, k: (string, string), r: Request)
    requires CommitsSound(s) && k in s.records && s.records[k].workspaceId == r.principal.workspaceId && s.records[k].claim == ClaimOf(r)
    ensures var a := Answered(r, s.now, Replay(s.records[k], r.principal, s.rows, s.references));
            forall i :: 0 <= i < |s.log| && LeftBy(s.records[k], s.log[i], k) ==> AnswerFits(s.log[i], a)
  {
    hide OutcomeShape, Replay;
    forall i | 0 <= i < |s.log| && LeftBy(s.records[k], s.log[i], k)
      ensures AnswerFits(s.log[i], Answered(r, s.now, Replay(s.records[k], r.principal, s.rows, s.references)))
    {
      assert CommitSound(s, s.log[i]);
      ReplayFaithful(s.log[i], r.principal, s.rows, s.references);
    }
  }

  lemma DecidedKeeps(s: State, wid: nat)
    requires Invariant(s) && Enabled(s, Decided(wid))
    ensures Invariant(Next(s, Decided(wid)))
  {
    hide OutcomeShape, IdentityOf, Replay, WorkersSound, RowsSound, RecordsSound, CommitsSound, CommitsApart, AnswersSound;
    hide VersionsSound, ChainSound, InsertsSound;
    var w := s.workers[wid];
    var p := w.request.principal;
    if w.request.key.None? {
      ClaimKeeps(s, wid);
    } else {
      var k := KeyOf(w.request).value;
      var existing := if k in s.records then Some(s.records[k]) else None;
      RecordsAreDone(s, k);
      match Decide(existing, p, ClaimOf(w.request), s.now)
      case Claimable =>
        ClaimableAfterRetention(s, k, p, ClaimOf(w.request));
        ClaimKeeps(s, wid);
      case Conflicting => AnswerKeeps(s, wid, Err(Conflict));
      case Busy => assert false;
      case Replayable =>
        ReplayFits(s, k, w.request);
        AnswerKeeps(s, wid, Replay(s.records[k], p, s.rows, s.references));
    }
  }

  // ----- locating and mutating -----

  lemma IdentityReading(t: Transaction, p: Principal, e: string)
    ensures OwnedBy(t, p, e) <==> IdentityOf(t) == Some((p.workspaceId, p.integrationId, e))
  {
  }

  lemma LocatedSound(s: State, wid: nat, found: Option<string>)
    requires Enabled(s, Locate(wid, found)) && WorkerSound(s, s.workers[wid]) && RowsSound(s)
    requires var row := if found.Some? then Some(s.rows[found.value]) else None;
             Next(s, Locate(wid, found)) == WithWorker(s, wid, s.workers[wid].(phase := Located, located := row))
    ensures var row := if found.Some? then Some(s.rows[found.value]) else None;
            WorkerSound(s, s.workers[wid].(phase := Located, located := row))
  {
    hide CommandReferencesOk, RowReferencesOk, OutcomeShape, CompletedUnder;
    var w := s.workers[wid];
    var row := if found.Some? then Some(s.rows[found.value]) else None;
    var l := w.(phase := Located, located := row);
    if IdentityLock(l).Some? && l.located.None? {
      forall id | id in s.rows ensures IdentityOf(s.rows[id]) != IdentityLock(l) {
        IdentityReading(s.rows[id], w.request.principal, w.request.command.externalId.value);
      }
    }
  }

  lemma LocateKeeps(s: State, wid: nat, found: Option<string>)
    requires Invariant(s) && Enabled(s, Locate(wid, found))
    ensures Invariant(Next(s, Locate(wid, found)))
  {
    hide CommandReferencesOk, RowReferencesOk, RecordsSound, HistorySound, OutcomeShape, IdentityOf, CompletedUnder;
    RollbackKeeps(s, wid);
    var w := s.workers[wid];
    var row := if found.Some? then Some(s.rows[found.value]) else None;
    var l := w.(phase := Located, located := row);
    assert WorkerSound(s, w);
    assert found.Some? ==> row.value.id == found.value;
    if WithWorker(s, wid, l) == Next(s, Locate(wid, found)) {
      LocatedSound(s, wid, found);
      forall v | v in s.workers && v != wid ensures Compatible(s.workers[v], l) && Compatible(l, s.workers[v]) {
        assert Compatible(s.workers[v], w) && Compatible(w, s.workers[v]);
        assert WorkerSound(s, s.workers[v]);
      }
      AdvanceWorker(s, wid, l);
    }
  }

  /** A worker takes its outcome: same locks, one fresh id at most. */
  lemma OutcomeKeeps(s: State, wid: nat, o: Outcome)
    requires Invariant(s) && wid in s.workers && s.workers[wid].phase == Located
    requires EffectFits(s, s.workers[wid].(phase := Mutated, outcome := Some(o)))
    requires o.effect.Insert? ==> FreshId(s, o.effect.row.id)
    ensures Invariant(WithOutcome(s, wid, o))
  {
    hide RecordsSound, HistorySound, OutcomeShape, IdentityOf, CompletedUnder, EffectFits, KeyOf;
    var w := s.workers[wid];
    var m := w.(phase := Mutated, outcome := Some(o));
    assert WorkerSound(s, w);
    forall v | v in s.workers && v != wid ensures Compatible(s.workers[v], m) && Compatible(m, s.workers[v]) {
      assert Compatible(s.workers[v], w) && Compatible(w, s.workers[v]);
    }
    AdvanceWorker(s, wid, m);
  }

  /** What a mutation that is not refused writes: the command's row, the changed row, the deleted row. */
  lemma MutateShape(r: Request, located: Option<Transaction>, rows: map<string, Transaction>, refs: References,
                    quote: Quote, id: string, tagIds: seq<string>, stamp: Instant)
    requires located.Some? ==> located.value.id in rows && rows[located.value.id] == located.value
    requires r.Create? && located.Some? ==> r.command.externalId.Some?
    ensures var result := MutateOutcome(r, located, rows, refs, quote, id, tagIds, stamp);
            result.Ok? ==>
              var o := result.value;
              && OutcomeShape(r, o)
              && (o.effect.NoWrite? ==> located == Some(o.target)) && (o.effect.Insert? ==> located.None? && o.effect.row.id == id)
              && (o.effect.Replace? ==>
                    && located.Some? && o.effect.row.id == located.value.id && located.value.deletedAt.None?
                    && located.value.version + 1 == o.effect.row.version && IdentityOf(located.value) == IdentityOf(o.effect.row))
              && (r.Update? ==> located.Some? && KeptBesides(located.value, o.effect.row))
              && (r.Delete? ==> located == Some(o.target))
  {
    hide RowReferencesOk, Etag;
  }

  lemma MutateFits(s: State, wid: nat, quote: Quote, id: string, tagIds: seq<string>, stamp: Instant)
    requires wid in s.workers && s.workers[wid].phase == Located && WorkerSound(s, s.workers[wid]) && FreshId(s, id)
    ensures var n := MutateStep(s, wid, quote, id, tagIds, stamp);
            n == Without(s, wid) || exists o :: n == WithOutcome(s, wid, o) && EffectFits(s, s.workers[wid].(phase := Mutated, outcome := Some(o)))
                                                && (o.effect.Insert? ==> FreshId(s, o.effect.row.id))
  {
    hide RowReferencesOk, CompletedUnder, FreshId, MutateOutcome, OutcomeShape, KeptBesides, IdentityOf;
    var w := s.workers[wid];
    MutateShape(w.request, w.located, s.rows, s.references, quote, id, tagIds, stamp);
    FreshIdIsNew(s, id);
    match MutateOutcome(w.request, w.located, s.rows, s.references, quote, id, tagIds, stamp)
    case Err(_) =>
    case Ok(o) =>
      assert MutateStep(s, wid, quote, id, tagIds, stamp) == WithOutcome(s, wid, o);
  }

  lemma FreshIdIsNew(s: State, id: string)
    ensures FreshId(s, id) ==> id !in s.rows
  {
  }

  lemma MutateKeeps(s: State, wid: nat, quote: Quote, id: string, tagIds: seq<string>, stamp: Instant)
    requires Invariant(s) && Enabled(s, Mutate(wid, quote, id, tagIds, stamp))
    ensures Invariant(Next(s, Mutate(wid, quote, id, tagIds, stamp)))
  {
    hide RecordsSound, HistorySound, RowsSound, WorkerSound, Compatible, EffectFits, MutateStep, WithOutcome, FreshId;
    RollbackKeeps(s, wid);
    MutateFits(s, wid, quote, id, tagIds, stamp);
    var n := MutateStep(s, wid, quote, id, tagIds, stamp);
    if n != Without(s, wid) {
      var o :| n == WithOutcome(s, wid, o) && EffectFits(s, s.workers[wid].(phase := Mutated, outcome := Some(o)))
               && (o.effect.Insert? ==> FreshId(s, o.effect.row.id));
      OutcomeKeeps(s, wid, o);
    }
  }

  // ----- browser writes and cleanup -----

  /** A new or changed row that no live worker has locked or reserved. */
  lemma WorkersUnderRowChange(s: State, t: State, id: string)
    requires WorkersSound(s)
    requires id in t.rows && t.rows == s.rows[id := t.rows[id]] && t.workers == s.workers && t.now == s.now
    requires forall v :: v in s.workers ==> RowLock(s.workers[v]) != Some(id)
    requires id !in s.rows ==> forall v :: v in s.workers ==> PendingInsert(s.workers[v]) != Some(id)
    requires id in s.rows ==> IdentityOf(t.rows[id]) == IdentityOf(s.rows[id])
    requires id !in s.rows ==> forall v :: v in s.workers && IdentityLock(s.workers[v]).Some? ==> IdentityOf(t.rows[id]) != IdentityLock(s.workers[v])
    requires |s.log| <= |t.log| && t.log[..|s.log|] == s.log
    requires forall v, i :: v in s.workers && |s.log| <= i < |t.log| && KeyLock(s.workers[v]).Some? ==> !CompletedUnder(t.log[i], KeyLock(s.workers[v]).value)
    ensures WorkersSound(t)
  {
    hide OutcomeShape, Compatible, IdentityOf;
    forall v | v in t.workers ensures WorkerSound(t, t.workers[v]) {
      var w := s.workers[v];
      assert WorkerSound(s, w);
      forall i | 0 <= i < |t.log| && KeyLock(w).Some? && CompletedUnder(t.log[i], KeyLock(w).value)
        ensures t.log[i].completedAt + RETENTION_MS <= w.claimedAt
      {
        assert i < |s.log| && t.log[i] == t.log[..|s.log|][i] == s.log[i];
      }
    }
    forall v, w | v in t.workers && w in t.workers && v != w ensures Compatible(t.workers[v], t.workers[w]) {
      assert Compatible(s.workers[v], s.workers[w]);
    }
  }

  /** Rows no event has written to have no writes counted. */
  lemma {:induction false} UnknownRowUnwritten(s: State, log: seq<Event>, id: string)
    requires forall j :: 0 <= j < |log| ==> WroteKnownRow(s, log[j])
    requires id !in s.rows
    ensures WritesTo(log, id) == 0
  {
    if log != [] {
      assert WroteKnownRow(s, log[|log| - 1]);
      UnknownRowUnwritten(s, log[..|log| - 1], id);
    }
  }

  /** One event that inserts or replaces the row `id` keeps rows and versions sound. */
  ghost predicate RowEvent(s: State, t: State, id: string, e: Event) {
    && t.log == s.log + [e] && t.trigger == s.trigger
    && id in t.rows && t.rows == s.rows[id := t.rows[id]] && t.rows[id].id == id
    && (id in s.rows ==>
          && IdentityOf(t.rows[id]) == IdentityOf(s.rows[id]) && t.rows[id].integrationId == s.rows[id].integrationId
          && !Inserted(e)
          && t.rows[id].version == s.rows[id].version + (if Consumes(e, id) then 1 else 0)
          && (Consumes(e, id) ==> FromVersion(e) == s.rows[id].version))
    && (id !in s.rows ==>
          && t.rows[id].version == 1 && !Consumes(e, id)
          && (Inserted(e) ==> e.outcome.effect.row == t.rows[id])
          && (IdentityOf(t.rows[id]).Some? ==> forall jd :: jd in s.rows ==> IdentityOf(s.rows[jd]) != IdentityOf(t.rows[id])))
    && (forall jd :: jd != id ==> !Consumes(e, jd))
    && WroteKnownRow(t, e)
  }

  lemma RowsUnderRowChange(s: State, t: State, id: string, e: Event)
    requires RowsSound(s) && InsertsSound(s) && VersionsSound(s) && RowEvent(s, t, id, e)
    ensures RowsSound(t) && InsertsSound(t)
  {
    hide IdentityOf, Consumes, FromVersion, WritesTo;
    forall j | 0 <= j < |t.log| && Inserted(t.log[j])
      ensures t.log[j].outcome.effect.row.id in t.rows
      ensures IdentityOf(t.rows[t.log[j].outcome.effect.row.id]) == IdentityOf(t.log[j].outcome.effect.row)
    {
      if j < |s.log| {
        assert t.log[j] == s.log[j];
      }
    }
    forall i, j | 0 <= i < j < |t.log| && Inserted(t.log[i]) && Inserted(t.log[j])
      ensures t.log[i].outcome.effect.row.id != t.log[j].outcome.effect.row.id
    {
      assert t.log[i] == s.log[i] && WroteKnownRow(s, s.log[i]);
    }
  }

  lemma VersionsUnderRowChange(s: State, t: State, id: string, e: Event)
    requires RowsSound(s) && VersionsSound(s) && ChainSound(s.log) && RowEvent(s, t, id, e)
    ensures VersionsSound(t) && ChainSound(t.log)
  {
    hide IdentityOf, Consumes, FromVersion, WritesTo;
    if id !in s.rows {
      UnknownRowUnwritten(s, s.log, id);
    }
    forall jd | jd in t.rows ensures t.rows[jd].version == 1 + WritesTo(t.log, jd) {
      WritesToAppend(s.log, e, jd);
    }
    forall j | 0 <= j < |t.log| ensures WroteKnownRow(t, t.log[j]) {
      if j < |s.log| {
        assert WroteKnownRow(s, s.log[j]) && t.log[j] == s.log[j];
      }
    }
    ChainAppend(s.log, e);
  }

  /** A browser write: no record, no commit, no answer changes. */
  lemma HumanKeeps(s: State, t: State, id: string, e: Event)
    requires Invariant(s) && e.HumanWrote? && RowEvent(s, t, id, e)
    requires t.records == s.records && t.workers == s.workers && t.now == s.now
    requires forall v :: v in s.workers ==> RowLock(s.workers[v]) != Some(id)
    requires id !in s.rows ==> IdentityOf(t.rows[id]).None? && forall v :: v in s.workers ==> PendingInsert(s.workers[v]) != Some(id)
    ensures Invariant(t)
  {
    hide IdentityOf, WritesTo, OutcomeShape, AnswerFits, CompletedRecord, Consumes, FromVersion;
    WorkersUnderRowChange(s, t, id);
    RowsUnderRowChange(s, t, id, e);
    VersionsUnderRowChange(s, t, id, e);
    ApartAppend(s.log, e);
    AnswersAppend(s.log, e);
    RecordsUnderEvent(s, t, e);
    forall i | 0 <= i < |t.log| && t.log[i].Committed? ensures CommitSound(t, t.log[i]) {
      assert CommitSound(s, s.log[i]);
    }
  }

  lemma RecordsUnderEvent(s: State, t: State, e: Event)
    requires RecordsSound(s) && t.records == s.records && t.log == s.log + [e]
    ensures RecordsSound(t)
  {
    hide LeftBy;
    forall k | k in t.records ensures exists i :: 0 <= i < |t.log| && LeftBy(t.records[k], t.log[i], k) {
      var i :| 0 <= i < |s.log| && LeftBy(s.records[k], s.log[i], k);
      assert t.log[i] == s.log[i];
    }
  }

  lemma CleanupKeeps(s: State)
    requires Invariant(s)
    ensures Invariant(Next(s, Cleanup))
  {
    hide IdentityOf, WritesTo, OutcomeShape, CompletedRecord, LeftBy, Compatible, CompletedUnder;
    hide AnswersSound, CommitsApart, ChainSound;
    var t := Next(s, Cleanup);
    forall v | v in t.workers ensures WorkerSound(t, t.workers[v]) {
      assert WorkerSound(s, s.workers[v]);
    }
    forall i | 0 <= i < |t.log| && t.log[i].Committed? ensures CommitSound(t, t.log[i]) {
      assert CommitSound(s, s.log[i]);
      var k := KeyOf(s.log[i].request);
      if k.Some? && k.value in s.records && LeftBy(s.records[k.value], s.log[i], k.value) {
        RecordExpiry(s.records[k.value], s.log[i], k.value);
      }
    }
    forall j | 0 <= j < |t.log| ensures WroteKnownRow(t, t.log[j]) {
      assert WroteKnownRow(s, s.log[j]);
    }
  }

  // ----- commit -----

  function CommitEvent(s: State, wid: nat): Event
    requires wid in s.workers && s.workers[wid].outcome.Some?
  {
    var w := s.workers[wid];
    Committed(w.request, w.claimedAt, w.completedAt, s.now, w.outcome.value)
  }

  /** The row a commit inserts or replaces, or leaves as it is. */
  function CommitRow(w: Worker): string
    requires w.outcome.Some? && (w.outcome.value.effect.NoWrite? ==> w.located.Some?)
  {
    if w.outcome.value.effect.NoWrite? then w.located.value.id else w.outcome.value.effect.row.id
  }

  /** What a finished worker is about to write, against the committed rows. */
  ghost predicate WritesFit(s: State, w: Worker)
    requires w.outcome.Some?
  {
    match w.outcome.value.effect
    case NoWrite => w.located.Some? && w.located.value.id in s.rows
    case Insert(row) =>
      && row.id !in s.rows && row.version == 1 && row.integrationId.Some?
      && (IdentityOf(row).Some? ==> forall id :: id in s.rows ==> IdentityOf(s.rows[id]) != IdentityOf(row))
    case Replace(row) =>
      && row.id in s.rows && row.version == s.rows[row.id].version + 1 && row.integrationId.Some?
      && row.integrationId == s.rows[row.id].integrationId && IdentityOf(row) == IdentityOf(s.rows[row.id])
  }

  lemma FinishedFits(s: State, w: Worker)
    requires RowsSound(s) && w.phase == Finished && WorkerSound(s, w)
    ensures w.outcome.Some? && WritesFit(s, w)
  {
    hide CompletedRecord, CompletedUnder, Etag, Holds, KeptBesides, KeyLock;
  }

  lemma CommitRowEvent(s: State, wid: nat)
    requires RowsSound(s) && wid in s.workers && s.workers[wid].phase == Finished && WorkerSound(s, s.workers[wid])
    ensures RowEvent(Without(s, wid), CommitStep(s, wid), CommitRow(s.workers[wid]), CommitEvent(s, wid))
  {
    hide CompletedRecord, WorkerSound, IdentityOf;
    FinishedFits(s, s.workers[wid]);
  }

  /** The committed row and key are of no concern to another live worker. */
  lemma CommitOther(s: State, wid: nat, v: nat)
    requires Invariant(s) && wid in s.workers && s.workers[wid].phase == Finished && v in s.workers && v != wid
    ensures var w, o := s.workers[wid], s.workers[v];
            var t, id := CommitStep(s, wid), CommitRow(w);
            && id in t.rows
            && (RowLock(o) != Some(id) || id !in s.rows)
            && (id !in s.rows ==> RowLock(o) != Some(id) && PendingInsert(o) != Some(id))
            && (id !in s.rows && IdentityLock(o).Some? ==> IdentityOf(t.rows[id]) != IdentityLock(o))
            && (KeyLock(o).Some? ==> !CompletedUnder(CommitEvent(s, wid), KeyLock(o).value))
  {
    hide CompletedRecord, OutcomeShape, RecordsSound, HistorySound, IdentityOf;
    var w := s.workers[wid];
    assert WorkerSound(s, w) && Compatible(w, s.workers[v]) && WorkerSound(s, s.workers[v]);
    CommitIdentity(s, wid);
  }

  lemma CommitWorkers(s: State, wid: nat)
    requires Invariant(s) && wid in s.workers && s.workers[wid].phase == Finished
    ensures WorkersSound(CommitStep(s, wid))
  {
    hide CompletedRecord, OutcomeShape, RecordsSound, HistorySound, IdentityOf, CompletedUnder, Compatible;
    RollbackKeeps(s, wid);
    var w := s.workers[wid];
    assert WorkerSound(s, w);
    CommitIdentity(s, wid);
    var r, t, id := Without(s, wid), CommitStep(s, wid), CommitRow(w);
    assert r.workers == t.workers;
    forall v | v in r.workers
      ensures RowLock(r.workers[v]) != Some(id) || id !in s.rows
      ensures id !in s.rows ==> RowLock(r.workers[v]) != Some(id) && PendingInsert(r.workers[v]) != Some(id)
      ensures id !in s.rows && IdentityLock(r.workers[v]).Some? ==> IdentityOf(t.rows[id]) != IdentityLock(r.workers[v])
      ensures KeyLock(r.workers[v]).Some? ==> !CompletedUnder(CommitEvent(s, wid), KeyLock(r.workers[v]).value)
    {
      CommitOther(s, wid, v);
    }
    WorkersUnderRowChange(r, t, id);
  }

  lemma CommitIdentity(s: State, wid: nat)
    requires RowsSound(s) && wid in s.workers && s.workers[wid].phase == Finished && WorkerSound(s, s.workers[wid])
    ensures var w := s.workers[wid];
            var t, id := CommitStep(s, wid), CommitRow(w);
            && id in t.rows && t.rows == s.rows[id := t.rows[id]]
            && (id in s.rows ==> IdentityOf(t.rows[id]) == IdentityOf(s.rows[id]) && RowLock(w) == Some(id))
            && (id !in s.rows ==> PendingInsert(w) == Some(id) && (IdentityOf(t.rows[id]).Some? ==> IdentityOf(t.rows[id]) == IdentityLock(w)))
  {
    hide CompletedRecord, CompletedUnder, Etag, Holds, KeptBesides, KeyLock;
  }

  lemma CommitRecords(s: State, wid: nat)
    requires RecordsSound(s) && wid in s.workers && s.workers[wid].outcome.Some?
    ensures RecordsSound(CommitStep(s, wid))
  {
    hide CompletedRecord, Written;
    var w := s.workers[wid];
    var t := CommitStep(s, wid);
    forall k | k in t.records ensures exists i :: 0 <= i < |t.log| && LeftBy(t.records[k], t.log[i], k) {
      if KeyOf(w.request) == Some(k) {
        assert LeftBy(t.records[k], t.log[|s.log|], k);
      } else {
        var i :| 0 <= i < |s.log| && LeftBy(s.records[k], s.log[i], k);
        assert t.log[i] == s.log[i];
      }
    }
  }

  lemma CommitCommits(s: State, wid: nat)
    requires CommitsSound(s) && wid in s.workers && s.workers[wid].phase == Finished && WorkerSound(s, s.workers[wid])
    ensures CommitsSound(CommitStep(s, wid))
  {
    hide CompletedRecord, IdentityOf, Written, EffectFits, OutcomeShape;
    var w := s.workers[wid];
    var t := CommitStep(s, wid);
    CommitShape(s, w);
    forall i | 0 <= i < |t.log| && t.log[i].Committed? ensures CommitSound(t, t.log[i]) {
      if i < |s.log| {
        assert CommitSound(s, s.log[i]);
        if KeyOf(w.request).Some? && KeyOf(s.log[i].request) == KeyOf(w.request) {
          assert CompletedUnder(s.log[i], KeyLock(w).value);
        }
      }
    }
  }

  lemma CommitShape(s: State, w: Worker)
    requires w.outcome.Some? && EffectFits(s, w)
    ensures OutcomeShape(w.request, w.outcome.value)
    ensures w.outcome.value.effect.NoWrite? ==> w.located.Some?
  {
  }

  lemma CommitKeeps(s: State, wid: nat)
    requires Invariant(s) && Enabled(s, Commit(wid))
    ensures Invariant(Next(s, Commit(wid)))
  {
    hide CompletedRecord, IdentityOf, WritesTo, OutcomeShape, AnswerFits, LeftBy, WorkersSound, RecordsSound, CommitsSound, RowEvent;
    hide VersionsSound, InsertsSound, RowsSound, ChainSound, EffectFits;
    assert WorkerSound(s, s.workers[wid]) && RowsSound(s) by { SoundWorker(s, wid); }
    RollbackKeeps(s, wid);
    CommitRowEvent(s, wid);
    CommitShape(s, s.workers[wid]);
    var r, t, e, id := Without(s, wid), CommitStep(s, wid), CommitEvent(s, wid), CommitRow(s.workers[wid]);
    RowsUnderRowChange(r, t, id, e);
    VersionsUnderRowChange(r, t, id, e);
    CommitWorkers(s, wid);
    CommitRecords(s, wid);
    CommitCommits(s, wid);
    ApartAppend(s.log, e);
    AnswersAppend(s.log, e);
  }

  lemma SoundWorker(s: State, wid: nat)
    requires Invariant(s) && wid in s.workers
    ensures WorkerSound(s, s.workers[wid])
  {
  }

  // ----- every step, every run -----

  lemma NextKeeps(s: State, a: Step)
    requires Invariant(s)
    ensures Invariant(Next(s, a))
  {
    hide Invariant, RowEvent;
    if Enabled(s, a) {
      match a
      case Tick(to) => TickKeeps(s, to);
      case Archive(refs) => ArchiveKeeps(s, refs);
      case Open(wid, r) => OpenKeeps(s, wid, r);
      case Decided(wid) => DecidedKeeps(s, wid);
      case Locate(wid, found) => LocateKeeps(s, wid, found);
      case Mutate(wid, quote, id, tagIds, stamp) => MutateKeeps(s, wid, quote, id, tagIds, stamp);
      case Finish(wid) => FinishKeeps(s, wid);
      case Commit(wid) => CommitKeeps(s, wid);
      case Abort(wid) => RollbackKeeps(s, wid);
      case HumanCreate(row) => HumanCreateKeeps(s, row);
      case HumanEdit(id, details, tagRows, stamp) => HumanWriteKeeps(s, id, Next(s, a).rows[id]);
      case HumanDelete(id, stamp) => HumanWriteKeeps(s, id, Next(s, a).rows[id]);
      case Cleanup => CleanupKeeps(s);
    }
  }

  lemma HumanCreateKeeps(s: State, row: Transaction)
    requires Invariant(s) && Enabled(s, HumanCreate(row))
    ensures Invariant(Next(s, HumanCreate(row)))
  {
    hide WritesTo, OutcomeShape, AnswerFits, CompletedRecord, HistorySound, RecordsSound;
    forall v | v in s.workers ensures RowLock(s.workers[v]) != Some(row.id) && PendingInsert(s.workers[v]) != Some(row.id) {
      assert WorkerSound(s, s.workers[v]);
    }
    HumanKeeps(s, Next(s, HumanCreate(row)), row.id, HumanWrote(row.id, 0, false));
  }

  lemma HumanWriteKeeps(s: State, id: string, row: Transaction)
    requires Invariant(s) && id in s.rows && forall v :: v in s.workers ==> RowLock(s.workers[v]) != Some(id)
    requires row.id == s.rows[id].id && IdentityOf(row) == IdentityOf(s.rows[id]) && row.integrationId == s.rows[id].integrationId
    requires row.version == HumanVersion(s, s.rows[id])
    ensures Invariant(HumanWriteStep(s, id, row))
  {
    hide WritesTo, OutcomeShape, AnswerFits, CompletedRecord, HistorySound, RecordsSound, WorkersSound;
    HumanKeeps(s, HumanWriteStep(s, id, row), id, HumanWrote(id, s.rows[id].version, s.trigger && s.rows[id].integrationId.Some?));
  }

  lemma {:induction false} RunKeeps(s: State, steps: seq<Step>)
    requires Invariant(s)
    ensures Invariant(Run(s, steps))
    decreases |steps|
  {
    if steps != [] {
      RunKeeps(s, steps[..|steps| - 1]);
      NextKeeps(Run(s, steps[..|steps| - 1]), steps[|steps| - 1]);
    }
  }

  lemma InitialSound(trigger: bool, now: int, refs: References)
    ensures Invariant(Initial(trigger, now, refs))
  {
  }
}
