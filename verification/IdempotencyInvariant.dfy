/** What every step of the protocol keeps: locks exclusive, workers sound, rows, records and history consistent. */
module IdempotencyInvariant {
  import opened Wrappers
  import opened TransactionJson
  import opened Idempotency

  // ----- readings of the history -----

  function KeyOf(r: Request): Option<(string, string)> {
    if r.key.Some? then Some((r.principal.integrationId, r.key.value)) else None
  }

  /** A machine transaction that committed under this key. */
  ghost predicate CompletedUnder(e: Event, k: (string, string)) {
    e.Committed? && KeyOf(e.request) == Some(k)
  }

  /** A committed write that moved the version of row `id`. */
  predicate Consumes(e: Event, id: string) {
    match e
    case Committed(_, _, _, _, o) => o.effect.Replace? && o.effect.row.id == id
    case HumanWrote(row, _, consumes) => row == id && consumes
    case Answered(_, _, _) => false
  }

  /** The version a consuming write started from. */
  function FromVersion(e: Event): int {
    match e
    case Committed(_, _, _, _, o) => if o.effect.Replace? then o.effect.row.version - 1 else 0
    case HumanWrote(_, v, _) => v
    case Answered(_, _, _) => 0
  }

  function WritesTo(log: seq<Event>, id: string): nat {
    if log == [] then 0
    else WritesTo(log[..|log| - 1], id) + (if Consumes(log[|log| - 1], id) then 1 else 0)
  }

  function IdentityOf(t: Transaction): Option<(string, string, string)> {
    if t.integrationId.Some? && t.externalId.Some? then Some((t.workspaceId, t.integrationId.value, t.externalId.value)) else None
  }

  ghost predicate Inserted(e: Event) {
    e.Committed? && e.outcome.effect.Insert?
  }

  // ----- the invariant, part by part -----

  /** The row holds what the command asks for, and an amount in the base currency that fits its column. */
  ghost predicate Holds(t: Transaction, c: Command) {
    && t.details.categoryId == c.categoryId && t.details.paymentSourceId == c.paymentSourceId && t.details.kind == c.kind
    && t.details.amount == c.amount && t.details.currency == c.currency && t.details.date == c.date
    && t.details.description == c.description && t.details.notes == c.notes && 0 < t.details.baseAmount <= 2_147_483_647
    && |t.tags| == |c.tags|
    && forall k :: 0 <= k < |t.tags| ==>
         t.tags[k].name == c.tags[k] && t.tags[k].workspaceId == t.workspaceId && t.tags[k].transactionId == t.id
  }

  /** What a finished mutation writes and answers, by kind of request. */
  ghost predicate OutcomeShape(r: Request, o: Outcome) {
    match r
    case Create(p, _, c) =>
      || (o.effect.NoWrite? && o.response == Response(None, c.externalId, false, 200, None) && c.externalId.Some?)
      || (o.effect.Insert? && o.response == TransactionResponse(o.target, 201) && o.target == o.effect.row
          && o.target.workspaceId == p.workspaceId && o.target.integrationId == Some(p.integrationId)
          && o.target.externalId == c.externalId && o.target.version == 1 && o.target.deletedAt.None? && Holds(o.target, c))
    case Update(p, _, e, v, c) =>
      o.effect.Replace? && o.response == TransactionResponse(o.target, 200) && o.target == o.effect.row
      && OwnedBy(o.target, p, e) && o.target.version == v + 1 && o.target.deletedAt.None? && Holds(o.target, c)
    case Delete(p, _, e, v) =>
      o.effect.Replace? && o.response == Response(None, None, false, 204, None)
      && OwnedBy(o.effect.row, p, e) && o.effect.row.version == v + 1 && o.effect.row.deletedAt.Some?
      && o.effect.row == o.target.(version := v + 1, deletedAt := o.effect.row.deletedAt)
  }

  /** An update leaves alone whatever is neither the command's nor a stamp of the write. */
  predicate KeptBesides(before: Transaction, after: Transaction) {
    after == before.(details := after.details, version := after.version, updatedAt := after.updatedAt, tags := after.tags)
  }

  /** The effect a worker holds still fits the committed row it locked. */
  ghost predicate EffectFits(s: State, w: Worker) {
    w.outcome.Some? ==>
      var o := w.outcome.value;
      && OutcomeShape(w.request, o)
      && (o.effect.NoWrite? ==> w.located == Some(o.target))
      && (o.effect.Insert? ==> w.located.None? && o.effect.row.id !in s.rows)
      && (o.effect.Replace? ==>
            && w.located.Some? && o.effect.row.id == w.located.value.id
            && w.located.value.deletedAt.None? && w.located.value.version + 1 == o.effect.row.version
            && IdentityOf(w.located.value) == IdentityOf(o.effect.row))
      && (w.request.Update? ==> w.located.Some? && KeptBesides(w.located.value, o.effect.row))
      && (w.request.Delete? ==> w.located == Some(o.target))
  }

  /** What the checks made on reading the locked row established. */
  ghost predicate LocatedFits(w: Worker) {
    w.phase != Opened && w.phase != Claimed ==>
      match w.request
      case Create(p, _, c) => w.located.Some? ==> c.externalId.Some? && OwnedBy(w.located.value, p, c.externalId.value)
      case Update(p, _, e, v, _) =>
        w.located.Some? && OwnedBy(w.located.value, p, e) && w.located.value.deletedAt.None? && w.located.value.version == v
      case Delete(p, _, e, _) => w.located.Some? && OwnedBy(w.located.value, p, e) && w.located.value.deletedAt.None?
  }

  ghost predicate WorkerSound(s: State, w: Worker) {
    && w.claimedAt <= s.now && w.completedAt <= s.now
    && (w.request.key.None? ==> w.request.Create?)
    && (w.outcome.Some? <==> w.phase in {Mutated, Finished})
    && (w.phase == Finished ==> w.claimedAt <= w.completedAt)
    && (w.located.Some? ==> w.phase != Opened && w.phase != Claimed && (w.request.Create? ==> w.request.command.externalId.Some?))
    && (w.located.Some? ==> w.located.value.id in s.rows && s.rows[w.located.value.id] == w.located.value)
    && LocatedFits(w) && EffectFits(s, w)
    && (IdentityLock(w).Some? && w.located.None? ==> forall id :: id in s.rows ==> IdentityOf(s.rows[id]) != IdentityLock(w))
    && (KeyLock(w).Some? ==>
          forall i :: 0 <= i < |s.log| && CompletedUnder(s.log[i], KeyLock(w).value) ==> s.log[i].completedAt + RETENTION_MS <= w.claimedAt)
  }

  /** No two live workers hold one lock, nor have they taken one fresh id. */
  ghost predicate Compatible(v: Worker, w: Worker) {
    && (KeyLock(v).Some? ==> KeyLock(v) != KeyLock(w))
    && (IdentityLock(v).Some? ==> IdentityLock(v) != IdentityLock(w))
    && (RowLock(v).Some? ==> RowLock(v) != RowLock(w))
    && (PendingInsert(v).Some? ==> PendingInsert(v) != PendingInsert(w))
  }

  ghost predicate WorkersSound(s: State) {
    && (forall v :: v in s.workers ==> WorkerSound(s, s.workers[v]))
    && (forall v, w :: v in s.workers && w in s.workers && v != w ==> Compatible(s.workers[v], s.workers[w]))
  }

  ghost predicate RowsSound(s: State) {
    && (forall id :: id in s.rows ==> s.rows[id].id == id)
    && (forall id, jd :: id in s.rows && jd in s.rows && id != jd && IdentityOf(s.rows[id]).Some? ==>
          IdentityOf(s.rows[id]) != IdentityOf(s.rows[jd]))
  }

  /** Every record is completed, and is what some committed request under its key left. */
  ghost predicate RecordsSound(s: State) {
    forall k :: k in s.records ==> exists i :: 0 <= i < |s.log| && LeftBy(s.records[k], s.log[i], k)
  }

  ghost predicate LeftBy(r: Record, e: Event, k: (string, string)) {
    CompletedUnder(e, k) && r == CompletedRecord(e.request, e.outcome, e.completedAt)
  }

  ghost predicate CommitsSound(s: State) {
    forall i :: 0 <= i < |s.log| && s.log[i].Committed? ==> CommitSound(s, s.log[i])
  }

  /** Until its retention ends, a committed request's record stands. */
  ghost predicate CommitSound(s: State, e: Event)
    requires e.Committed?
  {
    && e.claimedAt <= e.completedAt <= e.committedAt <= s.now
    && OutcomeShape(e.request, e.outcome)
    && (KeyOf(e.request).Some? ==>
          var k := KeyOf(e.request).value;
          e.completedAt + RETENTION_MS <= s.now || (k in s.records && LeftBy(s.records[k], e, k)))
  }

  /** Two commits under one key: the later claim waited for the earlier retention to end. */
  ghost predicate CommitsApart(log: seq<Event>) {
    forall i, j :: 0 <= i < j < |log| && log[i].Committed? && log[j].Committed? && KeyOf(log[i].request).Some?
                   && KeyOf(log[i].request) == KeyOf(log[j].request) ==>
                     log[i].completedAt + RETENTION_MS <= log[j].claimedAt
  }

  /** The only answers a request gets from a retained record. */
  ghost predicate AnswerFits(e: Event, a: Event)
    requires e.Committed? && a.Answered?
  {
    if a.request.principal.workspaceId == e.request.principal.workspaceId && ClaimOf(a.request) == ClaimOf(e.request) then
      a.answer == Err(NotFound) || a.answer == Ok(e.outcome.response.(replayed := true))
    else a.answer == Err(Conflict)
  }

  ghost predicate Retained(e: Event, at: int)
    requires e.Committed?
  {
    e.completedAt <= at < e.completedAt + RETENTION_MS
  }

  /** Each answer was given under a key, from a retained commit, and fits every commit retained then. */
  ghost predicate AnswerSound(log: seq<Event>, j: nat)
    requires j < |log| && log[j].Answered?
  {
    && KeyOf(log[j].request).Some?
    && (exists i :: 0 <= i < j && CompletedUnder(log[i], KeyOf(log[j].request).value) && Retained(log[i], log[j].at))
    && (forall i :: 0 <= i < j && CompletedUnder(log[i], KeyOf(log[j].request).value) && log[j].at < log[i].completedAt + RETENTION_MS ==>
          AnswerFits(log[i], log[j]))
  }

  ghost predicate AnswersSound(log: seq<Event>) {
    forall j :: 0 <= j < |log| && log[j].Answered? ==> AnswerSound(log, j)
  }

  /** A row's version counts the writes that moved it. */
  ghost predicate VersionsSound(s: State) {
    && (forall id :: id in s.rows ==> s.rows[id].version == 1 + WritesTo(s.log, id))
    && (forall j :: 0 <= j < |s.log| ==> WroteKnownRow(s, s.log[j]))
  }

  ghost predicate WroteKnownRow(s: State, e: Event) {
    match e
    case Committed(_, _, _, _, o) => (o.effect.Replace? || o.effect.Insert?) ==>
        o.effect.row.id in s.rows && s.rows[o.effect.row.id].integrationId.Some?
    case HumanWrote(id, _, consumes) => id in s.rows && consumes == (s.trigger && s.rows[id].integrationId.Some?)
    case Answered(_, _, _) => true
  }

  ghost predicate ChainSound(log: seq<Event>) {
    forall j, id :: 0 <= j < |log| && Consumes(log[j], id) ==> FromVersion(log[j]) == 1 + WritesTo(log[..j], id)
  }

  /** Every inserted row is still there, under the identity it was inserted with; no two inserts share an id. */
  ghost predicate InsertsSound(s: State) {
    && (forall j :: 0 <= j < |s.log| && Inserted(s.log[j]) ==>
          && s.log[j].outcome.effect.row.id in s.rows
          && IdentityOf(s.rows[s.log[j].outcome.effect.row.id]) == IdentityOf(s.log[j].outcome.effect.row))
    && (forall i, j :: 0 <= i < j < |s.log| && Inserted(s.log[i]) && Inserted(s.log[j]) ==>
          s.log[i].outcome.effect.row.id != s.log[j].outcome.effect.row.id)
  }

  ghost predicate HistorySound(s: State) {
    && CommitsSound(s) && CommitsApart(s.log) && AnswersSound(s.log)
    && VersionsSound(s) && ChainSound(s.log) && InsertsSound(s)
  }

  ghost predicate Invariant(s: State) {
    WorkersSound(s) && RowsSound(s) && RecordsSound(s) && HistorySound(s)
  }

  // ----- steps that touch only workers -----

  lemma RollbackKeeps(s: State, wid: nat)
    requires Invariant(s)
    ensures Invariant(Without(s, wid))
  {
    hide WritesTo, LeftBy, AnswerFits, OutcomeShape, KeyOf, IdentityOf;
    var t := Without(s, wid);
    forall v | v in t.workers ensures WorkerSound(t, t.workers[v]) {
      assert WorkerSound(s, s.workers[v]);
    }
    forall v, w | v in t.workers && w in t.workers && v != w ensures Compatible(t.workers[v], t.workers[w]) {
      assert Compatible(s.workers[v], s.workers[w]);
    }
    HistoryFrame(s, t);
  }

  /** The history part reads neither the workers nor the references. */
  lemma HistoryFrame(s: State, t: State)
    requires RowsSound(s) && RecordsSound(s) && HistorySound(s)
    requires t.trigger == s.trigger && t.rows == s.rows && t.records == s.records && t.log == s.log && s.now <= t.now
    ensures RowsSound(t) && RecordsSound(t) && HistorySound(t)
  {
    hide WritesTo, AnswerFits, OutcomeShape, IdentityOf, Consumes, CompletedRecord;
    forall i | 0 <= i < |t.log| && t.log[i].Committed? ensures CommitSound(t, t.log[i]) {
      assert CommitSound(s, s.log[i]);
    }
    forall j | 0 <= j < |t.log| ensures WroteKnownRow(t, t.log[j]) {
      assert WroteKnownRow(s, s.log[j]);
    }
  }

  lemma AdvanceWorker(s: State, wid: nat, w: Worker)
    requires Invariant(s)
    requires WorkerSound(s, w)
    requires forall v :: v in s.workers && v != wid ==> Compatible(s.workers[v], w) && Compatible(w, s.workers[v])
    ensures Invariant(WithWorker(s, wid, w))
  {
    hide WritesTo, LeftBy, AnswerFits, OutcomeShape, KeyOf, IdentityOf;
    var t := WithWorker(s, wid, w);
    forall v | v in t.workers ensures WorkerSound(t, t.workers[v]) {
      if v != wid {
        assert WorkerSound(s, s.workers[v]);
      }
      assert WorkerSound(s, t.workers[v]);
    }
    forall v, u | v in t.workers && u in t.workers && v != u ensures Compatible(t.workers[v], t.workers[u]) {
      if v != wid && u != wid {
        assert Compatible(s.workers[v], s.workers[u]);
      }
    }
    HistoryFrame(s, t);
  }

  /** A worker that gains no lock and no id stays compatible with the others. */
  lemma AdvanceSameLocks(s: State, wid: nat, w: Worker)
    requires Invariant(s) && wid in s.workers
    requires WorkerSound(s, w)
    requires KeyLock(w) == KeyLock(s.workers[wid]) && IdentityLock(w) == IdentityLock(s.workers[wid])
    requires RowLock(w) == RowLock(s.workers[wid]) && PendingInsert(w) == PendingInsert(s.workers[wid])
    ensures Invariant(WithWorker(s, wid, w))
  {
    hide WorkerSound, KeyLock, IdentityLock, RowLock, PendingInsert, HistorySound, RowsSound, RecordsSound;
    forall v | v in s.workers && v != wid ensures Compatible(s.workers[v], w) && Compatible(w, s.workers[v]) {
      assert Compatible(s.workers[v], s.workers[wid]) && Compatible(s.workers[wid], s.workers[v]);
    }
    AdvanceWorker(s, wid, w);
  }
}
