/**
 Machine writes as a protocol: workers that lock, read, claim, mutate, complete and commit or roll
 back, in any interleaving, over one table of transactions and one table of idempotency records.
 A worker's own writes stay in the worker until it commits; locks are released by commit or rollback.
 */
module Idempotency {
  import opened Wrappers
  import opened Text
  import opened TransactionJson

  const RETENTION_MS: nat := 7 * 24 * 60 * 60 * 1000
  const LEASE_MS: nat := 5 * 60 * 1000

  // ----- requests -----

  datatype Principal = Principal(
    workspaceId: string, integrationId: string,
    categoryAllowlistEnabled: bool, allowedCategoryIds: seq<string>,
    paymentSourceAllowlistEnabled: bool, allowedPaymentSourceIds: seq<string>)

  /** A normalised command; the quote is resolved later, inside the database transaction. */
  datatype Command = Command(
    externalId: Option<string>, kind: Kind, amount: int, currency: string, date: Instant,
    description: string, notes: Option<string>, tags: seq<string>,
    categoryId: Option<string>, paymentSourceId: string)

  datatype Request =
    | Create(principal: Principal, key: Option<string>, command: Command)
    | Update(principal: Principal, key: Option<string>, externalId: string, expectedVersion: int, command: Command)
    | Delete(principal: Principal, key: Option<string>, externalId: string, expectedVersion: int)

  datatype Operation = CreateOperation | UpdateOperation | DeleteOperation

  /** What the digest covers; two requests have one fingerprint exactly when these agree. */
  datatype Fingerprint =
    | CreateIntent(intent: Command)
    | UpdateIntent(intent: Command, expectedVersion: int)
    | DeleteIntent(target: string, expectedVersion: int)

  /** Tags are compared without their case. */
  function StableIntent(c: Command): Command {
    c.(tags := seq(|c.tags|, i requires 0 <= i < |c.tags| => Lower(c.tags[i])))
  }

  datatype Claim = Claim(operation: Operation, targetExternalId: Option<string>, fingerprint: Fingerprint)

  function ClaimOf(r: Request): Claim {
    match r
    case Create(_, _, c) => Claim(CreateOperation, c.externalId, CreateIntent(StableIntent(c)))
    case Update(_, _, e, v, c) => Claim(UpdateOperation, Some(e), UpdateIntent(StableIntent(c), v))
    case Delete(_, _, e, v) => Claim(DeleteOperation, Some(e), DeleteIntent(e, v))
  }

  // ----- answers -----

  datatype Response = Response(transaction: Option<Transaction>, alreadyExists: Option<string>, replayed: bool,
                               status: int, etag: Option<string>)

  datatype Refusal = Conflict | InProgress | NotFound | BadReferences | BadAmount | PreconditionFailed

  /** The strong ETag of section 8.8.3 of RFC 9110; it carries the version. */
  function Etag(version: int): string {
    "\"tx-v" + (if version < 0 then "-" + Numeral(-version, 10) else Numeral(version, 10)) + "\""
  }

  /** 201 or 200 with the row and its ETag. */
  function TransactionResponse(t: Transaction, status: int): Response {
    Response(Some(t), None, false, status, Some(Etag(t.version)))
  }

  // ----- rows -----

  datatype Status = Started | Done

  datatype Record = Record(
    workspaceId: string, claim: Claim, status: Status,
    responseStatus: int, responseBody: Json, responseEtag: Option<string>,
    targetTransactionId: string, retainedCategoryId: Option<string>, retainedPaymentSourceId: string,
    leaseExpiresAt: Option<int>, completedAt: int, expiresAt: int)

  /** Categories (with their type) and payment sources that are not archived. */
  datatype References = References(categories: map<(string, string), Kind>, sources: set<(string, string)>)

  /** What one finished mutation will write and answer. */
  datatype Effect = Insert(row: Transaction) | Replace(row: Transaction) | NoWrite

  datatype Outcome = Outcome(effect: Effect, response: Response, target: Transaction)

  // Opened: no key lock yet. Claimed: key lock held, own claim inserted. Located: external identity and
  // target row locked and read. Mutated: row written. Finished: record completed; only commit remains.
  datatype Phase = Opened | Claimed | Located | Mutated | Finished

  datatype Worker = Worker(request: Request, phase: Phase, claimedAt: int, located: Option<Transaction>,
                           outcome: Option<Outcome>, completedAt: int)

  // ----- history -----

  datatype Event =
    | Committed(request: Request, claimedAt: int, completedAt: int, committedAt: int, outcome: Outcome)
    | Answered(request: Request, at: int, answer: Result<Response, Refusal>)
    | HumanWrote(id: string, fromVersion: int, consumes: bool)

  /**
   `trigger` says whether the table carries the database trigger that advances the version of an
   integration-owned row on every update; it never changes during a run.
   */
  datatype State = State(trigger: bool, now: int, rows: map<string, Transaction>, records: map<(string, string), Record>,
                         references: References, workers: map<nat, Worker>, log: seq<Event>)

  // ----- pure decisions of the service -----

  /** The allowlists first, then that the category (of the wanted type) and the source are active. */
  predicate ReferencesOk(p: Principal, refs: References, categoryId: Option<string>, sourceId: string, kind: Option<Kind>) {
    && (p.categoryAllowlistEnabled ==> categoryId.Some? && categoryId.value in p.allowedCategoryIds)
    && (p.paymentSourceAllowlistEnabled ==> sourceId in p.allowedPaymentSourceIds)
    && (categoryId.Some? ==>
          && (p.workspaceId, categoryId.value) in refs.categories
          && (kind.Some? ==> refs.categories[(p.workspaceId, categoryId.value)] == kind.value))
    && (p.workspaceId, sourceId) in refs.sources
  }

  predicate CommandReferencesOk(p: Principal, refs: References, c: Command) {
    ReferencesOk(p, refs, c.categoryId, c.paymentSourceId, Some(c.kind))
  }

  predicate RowReferencesOk(p: Principal, refs: References, t: Transaction) {
    ReferencesOk(p, refs, t.details.categoryId, t.details.paymentSourceId, Some(t.details.kind))
  }

  datatype Decision = Claimable | Replayable | Conflicting | Busy

  /** The reading of an existing record under the key lock. */
  function Decide(existing: Option<Record>, p: Principal, claim: Claim, now: int): Decision {
    if existing.Some? && (existing.value.status != Done || existing.value.expiresAt > now) then
      var r := existing.value;
      if r.workspaceId != p.workspaceId || r.claim != claim then Conflicting
      else if r.status == Done then Replayable
      else if r.leaseExpiresAt.None? || r.leaseExpiresAt.value > now then Busy
      else Claimable
    else Claimable
  }

  /** The stored answer, after checking again what the principal may see today. */
  function Replay(rec: Record, p: Principal, rows: map<string, Transaction>, refs: References): Result<Response, Refusal> {
    if rec.targetTransactionId !in rows then Err(NotFound)
    else
      var target := rows[rec.targetTransactionId];
      if target.workspaceId != p.workspaceId || target.integrationId != Some(p.integrationId) then Err(NotFound)
      else if !RowReferencesOk(p, refs, target) then Err(NotFound)
      else if !ReferencesOk(p, refs, rec.retainedCategoryId, rec.retainedPaymentSourceId, None) then Err(NotFound)
      else if rec.responseStatus == 204 then Ok(Response(None, None, true, 204, None))
      else if rec.claim.operation == CreateOperation && rec.responseStatus == 200 then
        Ok(Response(None, rec.claim.targetExternalId, true, 200, None))
      else
        match DeserializeTransaction(rec.responseBody)
        case Ok(t) => Ok(Response(Some(t), None, true, rec.responseStatus, rec.responseEtag))
        case Err(_) => Err(Conflict)
  }

  /** The record a completed claim leaves. */
  function CompletedRecord(r: Request, o: Outcome, completedAt: int): Record {
    Record(r.principal.workspaceId, ClaimOf(r), Done, o.response.status,
           match o.response.transaction case Some(t) => SerializeTransaction(t) case None => JNull,
           o.response.etag, o.target.id, o.target.details.categoryId,
           o.target.details.paymentSourceId, None, completedAt, completedAt + RETENTION_MS)
  }

  predicate OwnedBy(t: Transaction, p: Principal, externalId: string) {
    t.workspaceId == p.workspaceId && t.integrationId == Some(p.integrationId) && t.externalId == Some(externalId)
  }

  /** `found` is what a lookup by source identity returns: some match, or nothing when there is none. */
  ghost predicate Finds(rows: map<string, Transaction>, p: Principal, externalId: string, includeDeleted: bool, found: Option<string>) {
    match found
    case Some(id) => id in rows && OwnedBy(rows[id], p, externalId) && (includeDeleted || rows[id].deletedAt.None?)
    case None => forall id :: id in rows ==> !(OwnedBy(rows[id], p, externalId) && (includeDeleted || rows[id].deletedAt.None?))
  }

  function DetailsOf(c: Command, quote: Quote): Details {
    Details(c.categoryId, c.paymentSourceId, c.kind, c.amount, c.currency, quote.baseAmount, quote.rate, quote.rateDate,
            quote.source, c.date, c.description, c.notes)
  }

  /** One tag row per name, in order, under ids the database gives. */
  function TagRows(names: seq<string>, workspaceId: string, transactionId: string, ids: seq<string>, stamp: Instant): seq<Tag> {
    seq(|names|, k requires 0 <= k < |names| =>
      Tag(if k < |ids| then ids[k] else "", workspaceId, transactionId, names[k], stamp, stamp))
  }

  datatype Quote = Quote(baseAmount: int, rate: Decimal, rateDate: Instant, source: string)

  const MAX_INT32: int := 2_147_483_647

  predicate InRange(q: Quote) {
    0 < q.baseAmount <= MAX_INT32
  }

  /** The checks on the row a request located (or did not), in the order the service makes them. */
  function LocateRefusal(r: Request, row: Option<Transaction>, refs: References): Option<Refusal> {
    match r
    case Create(p, _, c) => if CommandReferencesOk(p, refs, c) then None else Some(BadReferences)
    case Update(p, _, _, v, c) =>
      if row.None? then Some(NotFound)
      else if !RowReferencesOk(p, refs, row.value) then Some(NotFound)
      else if !CommandReferencesOk(p, refs, c) then Some(BadReferences)
      else if row.value.version != v then Some(PreconditionFailed)
      else None
    case Delete(p, _, _, _) =>
      if row.None? then Some(NotFound)
      else if !RowReferencesOk(p, refs, row.value) then Some(NotFound)
      else None
  }

  /** The conditional write: it changes a row only if the committed row still answers the whole condition. */
  predicate Matches(rows: map<string, Transaction>, id: string, p: Principal, externalId: string, version: int) {
    id in rows && OwnedBy(rows[id], p, externalId) && rows[id].version == version && rows[id].deletedAt.None?
  }

  /** What the located request writes and answers, or why its transaction rolls back. */
  function MutateOutcome(r: Request, located: Option<Transaction>, rows: map<string, Transaction>, refs: References,
                         quote: Quote, id: string, tagIds: seq<string>, stamp: Instant): Result<Outcome, Refusal>
  {
    match r
    case Create(p, _, c) =>
      if located.Some? then
        if RowReferencesOk(p, refs, located.value) then
          Ok(Outcome(NoWrite, Response(None, c.externalId, false, 200, None), located.value))
        else Err(NotFound)
      else if InRange(quote) then
        var row := Transaction(id, p.workspaceId, Some(p.integrationId), c.externalId, DetailsOf(c, quote), 1, stamp, stamp,
                               None, TagRows(c.tags, p.workspaceId, id, tagIds, stamp));
        Ok(Outcome(Insert(row), TransactionResponse(row, 201), row))
      else Err(BadAmount)
    case Update(p, _, e, v, c) =>
      if !InRange(quote) then Err(BadAmount)
      else if located.Some? && Matches(rows, located.value.id, p, e, v) then
        var row := rows[located.value.id].(details := DetailsOf(c, quote), version := v + 1, updatedAt := stamp,
                                           tags := TagRows(c.tags, p.workspaceId, located.value.id, tagIds, stamp));
        Ok(Outcome(Replace(row), TransactionResponse(row, 200), row))
      else Err(PreconditionFailed)
    case Delete(p, _, e, v) =>
      if located.Some? && Matches(rows, located.value.id, p, e, v) then
        var row := rows[located.value.id].(version := v + 1, deletedAt := Some(stamp));
        Ok(Outcome(Replace(row), Response(None, None, false, 204, None), located.value))
      else Err(PreconditionFailed)
  }

  // ----- locks -----

  /** The advisory lock on the idempotency key. */
  function KeyLock(w: Worker): Option<(string, string)> {
    if w.phase != Opened && w.request.key.Some? then Some((w.request.principal.integrationId, w.request.key.value)) else None
  }

  /** The advisory lock a create takes on its external identity. */
  function IdentityLock(w: Worker): Option<(string, string, string)> {
    if w.phase != Opened && w.phase != Claimed && w.request.Create? && w.request.command.externalId.Some? then
      Some((w.request.principal.workspaceId, w.request.principal.integrationId, w.request.command.externalId.value))
    else None
  }

  /** The row lock of SELECT ... FOR UPDATE. */
  function RowLock(w: Worker): Option<string> {
    if w.phase != Opened && w.phase != Claimed && w.located.Some? then Some(w.located.value.id) else None
  }

  predicate KeyFree(s: State, wid: nat, lock: Option<(string, string)>) {
    lock.Some? ==> forall v :: v in s.workers && v != wid ==> KeyLock(s.workers[v]) != lock
  }

  predicate IdentityFree(s: State, wid: nat, lock: Option<(string, string, string)>) {
    lock.Some? ==> forall v :: v in s.workers && v != wid ==> IdentityLock(s.workers[v]) != lock
  }

  predicate RowFree(s: State, wid: nat, id: string) {
    forall v :: v in s.workers && v != wid ==> RowLock(s.workers[v]) != Some(id)
  }

  /** An id no row has and no pending insert has taken. */
  predicate FreshId(s: State, id: string) {
    && id !in s.rows
    && forall v :: v in s.workers ==> PendingInsert(s.workers[v]) != Some(id)
  }

  function PendingInsert(w: Worker): Option<string> {
    if w.outcome.Some? && w.outcome.value.effect.Insert? then Some(w.outcome.value.effect.row.id) else None
  }

  // ----- steps -----

  datatype Step =
    | Tick(to: int)                                             // the clock advances
    | Archive(references: References)                           // categories and sources are archived or restored
    | Open(wid: nat, request: Request)                          // a request opens its database transaction
    | Decided(wid: nat)                                         // key lock, record read, decision
    | Locate(wid: nat, found: Option<string>)                   // identity lock, row lock, checks
    | Mutate(wid: nat, quote: Quote, id: string, tagIds: seq<string>, stamp: Instant)
    | Finish(wid: nat)                                          // the record is completed
    | Commit(wid: nat)
    | Abort(wid: nat)                                           // any error, crash or timeout
    | HumanCreate(row: Transaction)                             // a browser creates a manual row
    | HumanEdit(id: string, details: Details, tagRows: seq<Tag>, stamp: Instant)
    | HumanDelete(id: string, stamp: Instant)
    | Cleanup                                                   // the hourly deletion of expired records

  /** The version a browser write leaves: no expected version is passed, so only the trigger can move it. */
  function HumanVersion(s: State, t: Transaction): int {
    if s.trigger && t.integrationId.Some? then t.version + 1 else t.version
  }

  ghost predicate Enabled(s: State, a: Step) {
    match a
    case Tick(to) => s.now <= to
    case Archive(_) => true
    case Open(wid, r) => wid !in s.workers && (!r.Create? ==> r.key.Some?)
    case Decided(wid) =>
      wid in s.workers && s.workers[wid].phase == Opened
      && KeyFree(s, wid, KeyLock(s.workers[wid].(phase := Claimed)))
    case Locate(wid, found) =>
      && wid in s.workers && s.workers[wid].phase == Claimed
      && var r := s.workers[wid].request;
      && (match r
          case Create(p, _, c) =>
            && (c.externalId.None? ==> found.None?)
            && (c.externalId.Some? ==> Finds(s.rows, p, c.externalId.value, true, found))
            && IdentityFree(s, wid, IdentityLock(s.workers[wid].(phase := Located)))
          case Update(p, _, e, _, _) => Finds(s.rows, p, e, false, found)
          case Delete(p, _, e, _) => Finds(s.rows, p, e, false, found))
      && (found.Some? ==> RowFree(s, wid, found.value))
    case Mutate(wid, _, id, _, _) =>
      wid in s.workers && s.workers[wid].phase == Located && FreshId(s, id)
    case Finish(wid) => wid in s.workers && s.workers[wid].phase == Mutated
    case Commit(wid) => wid in s.workers && s.workers[wid].phase == Finished
    case Abort(wid) => wid in s.workers
    case HumanCreate(row) =>
      FreshId(s, row.id) && row.integrationId.None? && row.externalId.None? && row.version == 1 && row.deletedAt.None?
    case HumanEdit(id, _, _, _) => id in s.rows && s.rows[id].deletedAt.None? && forall v :: v in s.workers ==> RowLock(s.workers[v]) != Some(id)
    case HumanDelete(id, _) => id in s.rows && s.rows[id].deletedAt.None? && forall v :: v in s.workers ==> RowLock(s.workers[v]) != Some(id)
    case Cleanup => true
  }

  function WithWorker(s: State, wid: nat, w: Worker): State {
    s.(workers := s.workers[wid := w])
  }

  /** Rollback: the worker's writes and locks vanish. */
  function Without(s: State, wid: nat): State {
    s.(workers := s.workers - {wid})
  }

  function Logged(s: State, e: Event): State {
    s.(log := s.log + [e])
  }

  function DecidedStep(s: State, wid: nat): State
    requires wid in s.workers
  {
    var w := s.workers[wid];
    var p := w.request.principal;
    var claimed := WithWorker(s, wid, w.(phase := Claimed, claimedAt := s.now));
    if w.request.key.None? then claimed
    else
      var k := (p.integrationId, w.request.key.value);
      var existing := if k in s.records then Some(s.records[k]) else None;
      match Decide(existing, p, ClaimOf(w.request), s.now)
      case Claimable => claimed
      case Conflicting => Logged(Without(s, wid), Answered(w.request, s.now, Err(Conflict)))
      case Busy => Logged(Without(s, wid), Answered(w.request, s.now, Err(InProgress)))
      case Replayable => Logged(Without(s, wid), Answered(w.request, s.now, Replay(existing.value, p, s.rows, s.references)))
  }

  function LocateStep(s: State, wid: nat, found: Option<string>): State
    requires wid in s.workers
    requires found.Some? ==> found.value in s.rows
  {
    var w := s.workers[wid];
    var row := if found.Some? then Some(s.rows[found.value]) else None;
    if LocateRefusal(w.request, row, s.references).Some? then Without(s, wid)
    else WithWorker(s, wid, w.(phase := Located, located := row))
  }

  function MutateStep(s: State, wid: nat, quote: Quote, id: string, tagIds: seq<string>, stamp: Instant): State
    requires wid in s.workers
  {
    var w := s.workers[wid];
    match MutateOutcome(w.request, w.located, s.rows, s.references, quote, id, tagIds, stamp)
    case Ok(o) => WithOutcome(s, wid, o)
    case Err(_) => Without(s, wid)
  }

  function WithOutcome(s: State, wid: nat, o: Outcome): State
    requires wid in s.workers
  {
    WithWorker(s, wid, s.workers[wid].(phase := Mutated, outcome := Some(o)))
  }

  function Written(rows: map<string, Transaction>, e: Effect): map<string, Transaction> {
    match e
    case Insert(row) => rows[row.id := row]
    case Replace(row) => rows[row.id := row]
    case NoWrite => rows
  }

  function CommitStep(s: State, wid: nat): State
    requires wid in s.workers && s.workers[wid].outcome.Some?
  {
    var w := s.workers[wid];
    var o := w.outcome.value;
    var t := Logged(Without(s, wid), Committed(w.request, w.claimedAt, w.completedAt, s.now, o));
    var written := t.(rows := Written(s.rows, o.effect));
    match w.request.key
    case None => written
    case Some(key) =>
      written.(records := s.records[(w.request.principal.integrationId, key) := CompletedRecord(w.request, o, w.completedAt)])
  }

  predicate Expired(r: Record, now: int) {
    r.status == Done && r.completedAt <= now - RETENTION_MS && r.expiresAt <= now
  }

  function HumanWriteStep(s: State, id: string, row: Transaction): State
    requires id in s.rows
  {
    Logged(s.(rows := s.rows[id := row]),
           HumanWrote(id, s.rows[id].version, s.trigger && s.rows[id].integrationId.Some?))
  }

  /** One step; a step that is not enabled changes nothing. */
  ghost function Next(s: State, a: Step): State {
    if !Enabled(s, a) then s
    else
      match a
      case Tick(to) => s.(now := to)
      case Archive(refs) => s.(references := refs)
      case Open(wid, r) => WithWorker(s, wid, Worker(r, Opened, s.now, None, None, s.now))
      case Decided(wid) => DecidedStep(s, wid)
      case Locate(wid, found) => LocateStep(s, wid, found)
      case Mutate(wid, quote, id, tagIds, stamp) => MutateStep(s, wid, quote, id, tagIds, stamp)
      case Finish(wid) => WithWorker(s, wid, s.workers[wid].(phase := Finished, completedAt := s.now))
      case Commit(wid) => if s.workers[wid].outcome.Some? then CommitStep(s, wid) else s
      case Abort(wid) => Without(s, wid)
      case HumanCreate(row) => Logged(s.(rows := s.rows[row.id := row]), HumanWrote(row.id, 0, false))
      case HumanEdit(id, details, tagRows, stamp) =>
        HumanWriteStep(s, id, s.rows[id].(details := details, version := HumanVersion(s, s.rows[id]), updatedAt := stamp, tags := tagRows))
      case HumanDelete(id, stamp) =>
        HumanWriteStep(s, id, s.rows[id].(version := HumanVersion(s, s.rows[id]), deletedAt := Some(stamp)))
      case Cleanup => s.(records := map k | k in s.records && !Expired(s.records[k], s.now) :: s.records[k])
  }

  function Initial(trigger: bool, now: int, refs: References): State {
    State(trigger, now, map[], map[], refs, map[], [])
  }

  ghost function Run(s: State, steps: seq<Step>): State
    decreases |steps|
  {
    if steps == [] then s else Next(Run(s, steps[..|steps| - 1]), steps[|steps| - 1])
  }
}
