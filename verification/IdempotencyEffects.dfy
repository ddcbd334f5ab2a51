/** What the machine API does to the rows and when it replays, over every run of the protocol from empty tables. */
module IdempotencyEffects {
  import opened Wrappers
  import opened TransactionJson
  import opened Idempotency
  import opened IdempotencyInvariant
  import opened IdempotencySteps
  import opened IdempotencyTheorems

  // ----- what a principal may use and see -----

  /** An active category of its workspace (of the wanted kind) and an active source, both within the allowlists it has. */
  predicate MayUse(p: Principal, refs: References, categoryId: Option<string>, kind: Option<Kind>, sourceId: string) {
    && (match categoryId
        case None => !p.categoryAllowlistEnabled
        case Some(c) =>
          && (!p.categoryAllowlistEnabled || c in p.allowedCategoryIds)
          && (p.workspaceId, c) in refs.categories
          && (kind.None? || refs.categories[(p.workspaceId, c)] == kind.value))
    && (!p.paymentSourceAllowlistEnabled || sourceId in p.allowedPaymentSourceIds)
    && (p.workspaceId, sourceId) in refs.sources
  }

  lemma MayUseExactly(p: Principal, refs: References, categoryId: Option<string>, kind: Option<Kind>, sourceId: string)
    ensures ReferencesOk(p, refs, categoryId, sourceId, kind) <==> MayUse(p, refs, categoryId, kind, sourceId)
  {
  }

  /** The row with this id is there, the principal's own, deleted or not, and refers only to what the principal may use. */
  predicate Visible(p: Principal, rows: map<string, Transaction>, refs: References, id: string) {
    && id in rows && rows[id].workspaceId == p.workspaceId && rows[id].integrationId == Some(p.integrationId)
    && MayUse(p, refs, rows[id].details.categoryId, Some(rows[id].details.kind), rows[id].details.paymentSourceId)
  }

  // ----- when a retry replays -----

  /** The answer to request `r` from the retained commit `e`, on the tables of the moment. */
  function RetryAnswer(e: Event, r: Request, rows: map<string, Transaction>, refs: References): Result<Response, Refusal>
    requires e.Committed?
  {
    var first, p := e.outcome.target, r.principal;
    if p.workspaceId != e.request.principal.workspaceId || ClaimOf(r) != ClaimOf(e.request) then Err(Conflict)
    else if Visible(p, rows, refs, first.id) && MayUse(p, refs, first.details.categoryId, None, first.details.paymentSourceId) then
      Ok(e.outcome.response.(replayed := true))
    else Err(NotFound)
  }

  lemma ReplayExactly(e: Event, p: Principal, rows: map<string, Transaction>, refs: References)
    requires e.Committed? && OutcomeShape(e.request, e.outcome)
    ensures var first := e.outcome.target;
            Replay(CompletedRecord(e.request, e.outcome, e.completedAt), p, rows, refs)
            == if Visible(p, rows, refs, first.id) && MayUse(p, refs, first.details.categoryId, None, first.details.paymentSourceId)
               then Ok(e.outcome.response.(replayed := true)) else Err(NotFound)
  {
    hide SerializeTransaction, DeserializeTransaction, ReferencesOk, MayUse, Etag, Holds;
    var first := e.outcome.target;
    MayUseExactly(p, refs, first.details.categoryId, None, first.details.paymentSourceId);
    if first.id in rows {
      var d := rows[first.id].details;
      MayUseExactly(p, refs, d.categoryId, Some(d.kind), d.paymentSourceId);
    }
    if e.outcome.response.transaction.Some? {
      StoredBodyRoundTrip(e.outcome.response.transaction.value);
    }
  }

  /** A completion under the key whose retention is not over. */
  ghost predicate RetainedUnder(s: State, i: int, k: (string, string)) {
    0 <= i < |s.log| && CompletedUnder(s.log[i], k) && s.now < s.log[i].completedAt + RETENTION_MS
  }

  /**
   Under its key lock a request is answered exactly when a completion under its key is retained: a conflict unless it is
   the same request, the first answer again when the principal still sees the target and may use what it referred to
   then, and "not found" otherwise. With none retained, the request claims the key.
   */
  lemma DecisionExactly(trigger: bool, now: int, refs: References, steps: seq<Step>, wid: nat)
    ensures var s := Run(Initial(trigger, now, refs), steps);
            Enabled(s, Decided(wid)) && s.workers[wid].request.key.Some? ==>
              var r, t := s.workers[wid].request, Next(s, Decided(wid));
              var k := KeyOf(r).value;
              && (forall i :: RetainedUnder(s, i, k) ==>
                    t == s.(workers := s.workers - {wid},
                            log := s.log + [Answered(r, s.now, RetryAnswer(s.log[i], r, s.rows, s.references))]))
              && ((forall i :: !RetainedUnder(s, i, k)) ==>
                    t == s.(workers := s.workers[wid := s.workers[wid].(phase := Claimed, claimedAt := s.now)]))
  {
    hide Run, Next, OutcomeShape, RetryAnswer, WorkersSound, RowsSound, VersionsSound, InsertsSound, RecordsSound, ChainSound;
    ReachableSound(trigger, now, refs, steps);
    var s := Run(Initial(trigger, now, refs), steps);
    if Enabled(s, Decided(wid)) && s.workers[wid].request.key.Some? {
      var k := KeyOf(s.workers[wid].request).value;
      forall i | RetainedUnder(s, i, k)
        ensures Next(s, Decided(wid))
             == s.(workers := s.workers - {wid}, log := s.log + [Answered(s.workers[wid].request, s.now,
                   RetryAnswer(s.log[i], s.workers[wid].request, s.rows, s.references))])
      {
        AnsweredFromRetained(s, wid, i);
      }
      if forall i :: !RetainedUnder(s, i, k) {
        ClaimedWhenNoneRetained(s, wid);
      }
    }
  }

  lemma AnsweredFromRetained(s: State, wid: nat, i: nat)
    requires Invariant(s) && Enabled(s, Decided(wid)) && s.workers[wid].request.key.Some?
    requires RetainedUnder(s, i, KeyOf(s.workers[wid].request).value)
    ensures var r := s.workers[wid].request;
            Next(s, Decided(wid))
            == s.(workers := s.workers - {wid}, log := s.log + [Answered(r, s.now, RetryAnswer(s.log[i], r, s.rows, s.references))])
  {
    hide OutcomeShape, Replay, ClaimOf, Visible, MayUse, WorkersSound, RowsSound, VersionsSound, InsertsSound, RecordsSound, ChainSound;
    assert CommitSound(s, s.log[i]);
    ReplayExactly(s.log[i], s.workers[wid].request.principal, s.rows, s.references);
  }

  lemma ClaimedWhenNoneRetained(s: State, wid: nat)
    requires Invariant(s) && Enabled(s, Decided(wid)) && s.workers[wid].request.key.Some?
    requires forall i :: !RetainedUnder(s, i, KeyOf(s.workers[wid].request).value)
    ensures Next(s, Decided(wid)) == s.(workers := s.workers[wid := s.workers[wid].(phase := Claimed, claimedAt := s.now)])
  {
    hide Replay, ClaimOf, HistorySound, WorkersSound, RowsSound;
    var k := KeyOf(s.workers[wid].request).value;
    if k in s.records {
      var i :| 0 <= i < |s.log| && LeftBy(s.records[k], s.log[i], k);
      RecordExpiry(s.records[k], s.log[i], k);
      assert !RetainedUnder(s, i, k);
    }
  }

  /** The hourly cleanup removes exactly the records whose seven days are over, and nothing else. */
  lemma CleanupExactly(trigger: bool, now: int, refs: References, steps: seq<Step>)
    ensures var s := Run(Initial(trigger, now, refs), steps);
            var t := Next(s, Cleanup);
            && t == s.(records := t.records)
            && (forall k :: k in t.records <==> k in s.records && s.now < s.records[k].completedAt + 7 * 24 * 60 * 60 * 1000)
            && (forall k :: k in t.records ==> t.records[k] == s.records[k])
  {
    hide Run, HistorySound, WorkersSound, RowsSound, CompletedRecord, LeftBy;
    ReachableSound(trigger, now, refs, steps);
    var s := Run(Initial(trigger, now, refs), steps);
    forall k | k in s.records ensures Expired(s.records[k], s.now) <==> s.now >= s.records[k].completedAt + 7 * 24 * 60 * 60 * 1000 {
      var i :| 0 <= i < |s.log| && LeftBy(s.records[k], s.log[i], k);
      RecordExpiry(s.records[k], s.log[i], k);
    }
  }

  // ----- what a commit does to the rows -----

  /**
   The rows a finished request leaves when it commits, by kind of request. A create writes one new active row with what its
   command asks for, or finds the identity taken and writes nothing; an update rewrites the active row at its version and
   leaves it active; a delete marks the active row at its version as deleted and changes nothing else of it.
   */
  ghost predicate Commits(before: map<string, Transaction>, after: map<string, Transaction>, r: Request, o: Outcome) {
    var id := o.target.id;
    match r
    case Create(p, _, c) =>
      if o.response.status == 200 then after == before && id in before && c.externalId.Some? && OwnedBy(before[id], p, c.externalId.value)
      else
        && id !in before && id in after && after == before[id := after[id]] && Holds(after[id], c)
        && after[id].workspaceId == p.workspaceId && after[id].integrationId == Some(p.integrationId)
        && after[id].externalId == c.externalId && after[id].version == 1 && after[id].deletedAt.None?
        && (c.externalId.Some? ==> forall jd :: jd in before ==> !OwnedBy(before[jd], p, c.externalId.value))
    case Update(p, _, e, v, c) =>
      && id in before && OwnedBy(before[id], p, e) && before[id].version == v && before[id].deletedAt.None?
      && id in after && after == before[id := after[id]] && KeptBesides(before[id], after[id])
      && Holds(after[id], c) && after[id].version == v + 1 && after[id].deletedAt.None?
    case Delete(p, _, e, v) =>
      && id in before && OwnedBy(before[id], p, e) && before[id].version == v && before[id].deletedAt.None?
      && id in after && after[id].deletedAt.Some?
      && after == before[id := before[id].(version := v + 1, deletedAt := after[id].deletedAt)]
  }

  lemma CommitWrites(trigger: bool, now: int, refs: References, steps: seq<Step>, wid: nat)
    ensures var s := Run(Initial(trigger, now, refs), steps);
            wid in s.workers && s.workers[wid].phase == Finished ==>
              s.workers[wid].outcome.Some?
              && Commits(s.rows, Next(s, Commit(wid)).rows, s.workers[wid].request, s.workers[wid].outcome.value)
  {
    hide Run, Next, Commits, WorkerSound, HistorySound, RowsSound, RecordsSound;
    ReachableSound(trigger, now, refs, steps);
    var s := Run(Initial(trigger, now, refs), steps);
    if wid in s.workers && s.workers[wid].phase == Finished {
      FinishedCommits(s, wid);
    }
  }

  lemma FinishedCommits(s: State, wid: nat)
    requires RowsSound(s) && wid in s.workers && s.workers[wid].phase == Finished && WorkerSound(s, s.workers[wid])
    ensures s.workers[wid].outcome.Some?
    ensures Commits(s.rows, Next(s, Commit(wid)).rows, s.workers[wid].request, s.workers[wid].outcome.value)
  {
    hide CompletedRecord, CompletedUnder, Holds, KeyLock, Etag;
    var w := s.workers[wid];
    assert Next(s, Commit(wid)).rows == Written(s.rows, w.outcome.value.effect);
    if w.request.Create? && w.located.None? && w.request.command.externalId.Some? {
      forall id | id in s.rows ensures !OwnedBy(s.rows[id], w.request.principal, w.request.command.externalId.value) {
        IdentityReading(s.rows[id], w.request.principal, w.request.command.externalId.value);
      }
    }
  }

  // ----- a deleted row -----

  /** Nothing touches a deleted row again: no request, no browser, no cleanup. */
  lemma DeletedStays(s: State, a: Step, id: string)
    requires Invariant(s)
    ensures id in s.rows && s.rows[id].deletedAt.Some? ==> id in Next(s, a).rows && Next(s, a).rows[id] == s.rows[id]
  {
    hide HistorySound, RecordsSound, Invariant, CommitStep, MutateStep, DecidedStep, LocateStep, Expired, Finds, KeyFree, IdentityFree, RowFree, FreshId;
    if Enabled(s, a) {
      if a.Commit? {
        if s.workers[a.wid].outcome.Some? {
          CommitSparesDeleted(s, a.wid, id);
        }
      } else if a.HumanCreate? {
        FreshIdUnused(s, a);
      } else if !a.HumanEdit? && !a.HumanDelete? {
        OnlyBrowsersWrite(s, a);
      }
    }
  }

  lemma FreshIdUnused(s: State, a: Step)
    ensures Enabled(s, a) && a.HumanCreate? ==> a.row.id !in s.rows
  {
  }

  lemma OnlyBrowsersWrite(s: State, a: Step)
    requires Enabled(s, a) && !a.Commit? && !a.HumanCreate? && !a.HumanEdit? && !a.HumanDelete?
    ensures Next(s, a).rows == s.rows
  {
    hide Decide, Replay, LocateRefusal, MutateOutcome, ClaimOf, Expired;
    EnabledWorkers(s, a);
  }

  lemma CommitSparesDeleted(s: State, wid: nat, id: string)
    requires Invariant(s) && wid in s.workers && s.workers[wid].outcome.Some?
    ensures id in s.rows && s.rows[id].deletedAt.Some? ==> id in CommitStep(s, wid).rows && CommitStep(s, wid).rows[id] == s.rows[id]
  {
    hide HistorySound, RecordsSound, OutcomeShape, CompletedRecord, CompletedUnder, IdentityOf, IdentityLock, KeyLock, LocatedFits, KeptBesides;
    assert WorkerSound(s, s.workers[wid]);
  }

  /** The source identity a request without a create aims at. */
  function Target(r: Request): Option<(string, string, string)> {
    if r.Create? then None else Some((r.principal.workspaceId, r.principal.integrationId, r.externalId))
  }

  ghost predicate Deletes(e: Event) {
    e.Committed? && e.request.Delete?
  }

  /** Every row deleted by a request is as that request left it, and no committed request aimed at its identity since. */
  ghost predicate DeletesStand(s: State) {
    && (forall i :: 0 <= i < |s.log| && Deletes(s.log[i]) ==> Stands(s, s.log[i]))
    && (forall i, j :: 0 <= i < j < |s.log| && Deletes(s.log[i]) && s.log[j].Committed? ==>
          Target(s.log[j].request) != Target(s.log[i].request))
  }

  ghost predicate Stands(s: State, e: Event) {
    && Deletes(e) && e.outcome.effect.Replace?
    && var row := e.outcome.effect.row;
       row.id in s.rows && s.rows[row.id] == row && row.deletedAt.Some? && IdentityOf(row) == Target(e.request)
  }

  lemma StandsStill(s: State, a: Step, e: Event)
    requires Invariant(s) && Stands(s, e)
    ensures Stands(Next(s, a), e)
  {
    hide Invariant, Next;
    DeletedStays(s, a, e.outcome.effect.row.id);
  }

  /** The history grows by at most one event, and by a commit only when a finished worker commits. */
  lemma NextLogs(s: State, a: Step)
    requires Invariant(s)
    ensures Next(s, a).log == s.log
            || (exists e: Event :: !e.Committed? && Next(s, a).log == s.log + [e])
            || (a.Commit? && a.wid in s.workers && s.workers[a.wid].phase == Finished && s.workers[a.wid].outcome.Some?
                && Next(s, a) == CommitStep(s, a.wid))
  {
    hide HistorySound, RecordsSound, Invariant, CommitStep, Decide, Replay, LocateRefusal, MutateOutcome, ClaimOf, Expired, Finds;
    hide KeyFree, IdentityFree, RowFree, FreshId;
    if Enabled(s, a) {
      EnabledWorkers(s, a);
    }
  }

  lemma CommitLogs(s: State, wid: nat)
    requires wid in s.workers && s.workers[wid].outcome.Some?
    ensures CommitStep(s, wid).log == s.log + [CommitEvent(s, wid)]
    ensures CommitEvent(s, wid).Committed? && CommitEvent(s, wid).request == s.workers[wid].request
  {
  }

  /** A commit of an update or delete comes from a worker that holds an active row of its target. */
  lemma CommitsActive(s: State, wid: nat)
    requires Invariant(s) && wid in s.workers && s.workers[wid].phase == Finished && !s.workers[wid].request.Create?
    ensures var w := s.workers[wid];
            w.located.Some? && w.located.value.id in s.rows && s.rows[w.located.value.id] == w.located.value
            && w.located.value.deletedAt.None? && IdentityOf(w.located.value) == Target(w.request)
    ensures s.workers[wid].request.Delete? && s.workers[wid].outcome.Some? ==> Stands(CommitStep(s, wid), CommitEvent(s, wid))
  {
    hide HistorySound, RecordsSound, CompletedRecord, CompletedUnder, IdentityLock, KeyLock, Holds, Etag;
    assert WorkerSound(s, s.workers[wid]);
  }

  lemma DeletesStandNext(s: State, a: Step)
    requires Invariant(s) && DeletesStand(s)
    ensures DeletesStand(Next(s, a))
  {
    hide Invariant, Next, Stands, CommitStep, CommitEvent, IdentityOf, Target;
    var t := Next(s, a);
    NextLogs(s, a);
    forall i | 0 <= i < |s.log| && Deletes(s.log[i]) ensures Stands(t, s.log[i]) {
      StandsStill(s, a, s.log[i]);
    }
    if t.log != s.log {
      if e: Event :| !e.Committed? && t.log == s.log + [e] {
      } else {
        CommitLogs(s, a.wid);
        NewCommit(s, a.wid);
      }
    }
  }

  lemma NewCommit(s: State, wid: nat)
    requires Invariant(s) && DeletesStand(s) && wid in s.workers && s.workers[wid].phase == Finished && s.workers[wid].outcome.Some?
    ensures s.workers[wid].request.Delete? ==> Stands(CommitStep(s, wid), CommitEvent(s, wid))
    ensures forall i :: 0 <= i < |s.log| && Deletes(s.log[i]) ==> Target(s.workers[wid].request) != Target(s.log[i].request)
  {
    hide WorkersSound, HistorySound, RecordsSound, CommitStep, CommitEvent, IdentityOf;
    var w := s.workers[wid];
    if !w.request.Create? {
      CommitsActive(s, wid);
      forall i | 0 <= i < |s.log| && Deletes(s.log[i]) ensures Target(w.request) != Target(s.log[i].request) {
        assert Stands(s, s.log[i]);
        assert IdentityOf(s.rows[w.located.value.id]) != IdentityOf(s.rows[s.log[i].outcome.effect.row.id]);
      }
    }
  }

  lemma {:induction false} RunDeletesStand(s: State, steps: seq<Step>)
    requires Invariant(s) && DeletesStand(s)
    ensures DeletesStand(Run(s, steps))
    decreases |steps|
  {
    hide Invariant, DeletesStand, Next;
    if steps != [] {
      RunDeletesStand(s, steps[..|steps| - 1]);
      RunKeeps(s, steps[..|steps| - 1]);
      DeletesStandNext(Run(s, steps[..|steps| - 1]), steps[|steps| - 1]);
    }
  }

  /**
   Once a delete has committed, its row stays for good as the delete left it: marked deleted, the version one up, all else
   as before. No lookup without tombstones finds the source identity again, no later update or delete of it commits, and
   one that tries is turned away as soon as it looks.
   */
  lemma DeletedIsGone(trigger: bool, now: int, refs: References, steps: seq<Step>, i: nat)
    ensures var s := Run(Initial(trigger, now, refs), steps);
            i < |s.log| && Deletes(s.log[i]) ==>
              var r, o := s.log[i].request, s.log[i].outcome;
              && o.target.id in s.rows && s.rows[o.target.id].deletedAt.Some?
              && s.rows[o.target.id] == o.target.(version := r.expectedVersion + 1, deletedAt := s.rows[o.target.id].deletedAt)
              && OwnedBy(s.rows[o.target.id], r.principal, r.externalId)
              && (forall id :: id in s.rows && OwnedBy(s.rows[id], r.principal, r.externalId) ==> id == o.target.id)
              && (forall found :: Finds(s.rows, r.principal, r.externalId, false, found) ==> found.None?)
              && (forall j :: i < j < |s.log| && s.log[j].Committed? ==> Target(s.log[j].request) != Target(r))
              && (forall wid, found :: Enabled(s, Locate(wid, found)) && Target(s.workers[wid].request) == Target(r) ==>
                    found.None? && Next(s, Locate(wid, found)) == Without(s, wid))
  {
    hide Run, Next, WorkersSound, RecordsSound, CommitsApart, AnswersSound, VersionsSound, ChainSound, InsertsSound, Holds;
    ReachableSound(trigger, now, refs, steps);
    RunDeletesStand(Initial(trigger, now, refs), steps) by { InitialSound(trigger, now, refs); }
    var s := Run(Initial(trigger, now, refs), steps);
    if i < |s.log| && Deletes(s.log[i]) {
      assert CommitSound(s, s.log[i]) && Stands(s, s.log[i]);
      var r, o := s.log[i].request, s.log[i].outcome;
      forall id | id in s.rows && OwnedBy(s.rows[id], r.principal, r.externalId) ensures id == o.target.id {
        IdentityReading(s.rows[id], r.principal, r.externalId);
        assert IdentityOf(s.rows[id]) == IdentityOf(s.rows[o.target.id]);
      }
      forall wid, found | Enabled(s, Locate(wid, found)) && Target(s.workers[wid].request) == Target(r)
        ensures found.None? && Next(s, Locate(wid, found)) == Without(s, wid)
      {
        TurnedAway(s, wid, found, r.principal, r.externalId);
      }
    }
  }

  /** With no active row under its identity, an update or delete ends as it looks. */
  lemma TurnedAway(s: State, wid: nat, found: Option<string>, p: Principal, e: string)
    requires Enabled(s, Locate(wid, found)) && Target(s.workers[wid].request) == Some((p.workspaceId, p.integrationId, e))
    requires forall id :: id in s.rows && OwnedBy(s.rows[id], p, e) ==> s.rows[id].deletedAt.Some?
    ensures found.None? && Next(s, Locate(wid, found)) == Without(s, wid)
  {
    hide RowReferencesOk, CommandReferencesOk, RowFree, IdentityFree;
    var q := s.workers[wid].request.principal;
    assert forall id :: id in s.rows ==> OwnedBy(s.rows[id], q, e) == OwnedBy(s.rows[id], p, e);
  }
}
