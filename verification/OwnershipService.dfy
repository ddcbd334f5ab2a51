/**
 The service itself: each call runs its database transaction on the tables, statement by statement, and restores
 them when it refuses. `Serve` says what a call does; `ServeIsARun` ties it to the protocol of module Idempotency.
 */
module OwnershipService {
  import opened Wrappers
  import opened Text
  import opened TransactionJson
  import opened Idempotency
  import opened IdempotencyInvariant
  import opened IdempotencySteps
  import opened IdempotencyTheorems
  import opened IdempotencyEffects
  import opened CommandNormalization

  datatype Served = Served(rows: map<string, Transaction>, records: map<(string, string), Record>, answer: Result<Response, Refusal>)

  /** What the outside supplies to one call: quote, fresh ids of rows and tags, database stamp and two clock readings. */
  datatype Inputs = Inputs(quote: Quote, id: string, tagIds: seq<string>, stamp: Instant, now: int, completedAt: int)

  function RowAt(rows: map<string, Transaction>, found: Option<string>): Option<Transaction> {
    if found.Some? && found.value in rows then Some(rows[found.value]) else None
  }

  /** The answer a retained or unfinished record gives at once, if it gives one. */
  function EarlyAnswer(rows: map<string, Transaction>, records: map<(string, string), Record>, refs: References, r: Request, now: int)
    : Option<Result<Response, Refusal>>
  {
    if r.key.None? then None
    else
      var k := (r.principal.integrationId, r.key.value);
      var existing := if k in records then Some(records[k]) else None;
      match Decide(existing, r.principal, ClaimOf(r), now)
      case Claimable => None
      case Conflicting => Some(Err(Conflict))
      case Busy => Some(Err(InProgress))
      case Replayable => Some(Replay(existing.value, r.principal, rows, refs))
  }

  /** A whole call: the tables it leaves and its answer. */
  function Serve(rows: map<string, Transaction>, records: map<(string, string), Record>, refs: References, r: Request,
                 found: Option<string>, i: Inputs): Served
  {
    match EarlyAnswer(rows, records, refs, r, i.now)
    case Some(answer) => Served(rows, records, answer)
    case None =>
      match LocateRefusal(r, RowAt(rows, found), refs)
      case Some(refusal) => Served(rows, records, Err(refusal))
      case None =>
        match MutateOutcome(r, RowAt(rows, found), rows, refs, i.quote, i.id, i.tagIds, i.stamp)
        case Err(refusal) => Served(rows, records, Err(refusal))
        case Ok(o) => Served(Written(rows, o.effect), Recorded(records, r, o, i.completedAt), Ok(o.response))
  }

  function Recorded(records: map<(string, string), Record>, r: Request, o: Outcome, completedAt: int): map<(string, string), Record> {
    if r.key.None? then records
    else records[(r.principal.integrationId, r.key.value) := CompletedRecord(r, o, completedAt)]
  }

  /** What looking up the request's source identity may return. */
  ghost predicate FoundFor(rows: map<string, Transaction>, r: Request, found: Option<string>) {
    match r
    case Create(p, _, c) => if c.externalId.None? then found.None? else Finds(rows, p, c.externalId.value, true, found)
    case Update(p, _, e, _, _) => Finds(rows, p, e, false, found)
    case Delete(p, _, e, _) => Finds(rows, p, e, false, found)
  }

  ghost function SomeMatch(rows: map<string, Transaction>, p: Principal, externalId: string, includeDeleted: bool): (found: Option<string>)
    ensures Finds(rows, p, externalId, includeDeleted, found)
  {
    if id :| id in rows && OwnedBy(rows[id], p, externalId) && (includeDeleted || rows[id].deletedAt.None?) then Some(id) else None
  }

  // ----- a call alone is a run of the protocol -----

  function CallSteps(r: Request, found: Option<string>, i: Inputs): seq<Step> {
    [Open(0, r), Decided(0), Locate(0, found), Mutate(0, i.quote, i.id, i.tagIds, i.stamp), Tick(i.completedAt), Finish(0), Commit(0)]
  }

  lemma ServeIsARun(s: State, r: Request, found: Option<string>, i: Inputs)
    requires s.workers == map[] && s.now == i.now <= i.completedAt && (!r.Create? ==> r.key.Some?)
    requires FoundFor(s.rows, r, found) && i.id !in s.rows
    ensures var t, served := Run(s, CallSteps(r, found, i)), Serve(s.rows, s.records, s.references, r, found, i);
            t.rows == served.rows && t.records == served.records && t.workers == map[]
  {
    hide Run, Next, Serve, EarlyAnswer, LocateRefusal, MutateOutcome, FoundFor, Recorded, Written;
    var a1, a2, a3, a4 := Open(0, r), Decided(0), Locate(0, found), Mutate(0, i.quote, i.id, i.tagIds, i.stamp);
    var a5, a6, a7 := Tick(i.completedAt), Finish(0), Commit(0);
    var p1, p2, p3, p4, p5, p6 := [a1], [a1, a2], [a1, a2, a3], [a1, a2, a3, a4], [a1, a2, a3, a4, a5], [a1, a2, a3, a4, a5, a6];
    assert Run(s, []) == s by { RunNothing(s); }
    assert [] + [a1] == p1 && p1 + [a2] == p2 && p2 + [a3] == p3 && p3 + [a4] == p4 && p4 + [a5] == p5 && p5 + [a6] == p6;
    assert p6 + [a7] == CallSteps(r, found, i);
    RunAppend(s, [], a1);
    RunAppend(s, p1, a2);
    RunAppend(s, p2, a3);
    RunAppend(s, p3, a4);
    RunAppend(s, p4, a5);
    RunAppend(s, p5, a6);
    RunAppend(s, p6, a7);
    DecisionAlone(s, r, i);
    var d := Run(s, p2);
    if EarlyAnswer(s.rows, s.records, s.references, r, i.now).Some? {
      NothingHappens(d, found, i);
    } else {
      RestAlone(d, r, found, i);
    }
    ServeCases(s, r, found, i);
  }

  lemma ServeCases(s: State, r: Request, found: Option<string>, i: Inputs)
    ensures var served := Serve(s.rows, s.records, s.references, r, found, i);
            if EarlyAnswer(s.rows, s.records, s.references, r, i.now).Some? then served.rows == s.rows && served.records == s.records
            else (served.rows, served.records) == AfterLocated(s, r, found, i)
  {
    hide EarlyAnswer, LocateRefusal, MutateOutcome, Recorded, Written;
  }

  function AfterLocated(s: State, r: Request, found: Option<string>, i: Inputs): (map<string, Transaction>, map<(string, string), Record>) {
    match LocateRefusal(r, RowAt(s.rows, found), s.references)
    case Some(_) => (s.rows, s.records)
    case None =>
      match MutateOutcome(r, RowAt(s.rows, found), s.rows, s.references, i.quote, i.id, i.tagIds, i.stamp)
      case Err(_) => (s.rows, s.records)
      case Ok(o) => (Written(s.rows, o.effect), Recorded(s.records, r, o, i.completedAt))
  }

  lemma DecisionAlone(s: State, r: Request, i: Inputs)
    requires s.workers == map[] && s.now == i.now && (!r.Create? ==> r.key.Some?)
    ensures var d := Next(Next(s, Open(0, r)), Decided(0));
            && d.rows == s.rows && d.records == s.records && d.references == s.references && d.now == s.now
            && d.workers == if EarlyAnswer(s.rows, s.records, s.references, r, i.now).Some? then map[]
                            else map[0 := Worker(r, Claimed, s.now, None, None, s.now)]
  {
    hide Replay, ClaimOf, Decide;
    var o := Next(s, Open(0, r));
    assert o == s.(workers := map[0 := Worker(r, Opened, s.now, None, None, s.now)]);
    assert Enabled(o, Decided(0));
  }

  lemma NothingHappens(d: State, found: Option<string>, i: Inputs)
    requires d.workers == map[] && d.now <= i.completedAt
    ensures var l := Next(d, Locate(0, found));
            var m := Next(l, Mutate(0, i.quote, i.id, i.tagIds, i.stamp));
            var t := Next(Next(Next(m, Tick(i.completedAt)), Finish(0)), Commit(0));
            t.rows == d.rows && t.records == d.records && t.workers == map[]
  {
  }

  lemma RestAlone(d: State, r: Request, found: Option<string>, i: Inputs)
    requires d.workers == map[0 := Worker(r, Claimed, d.now, None, None, d.now)] && d.now <= i.completedAt
    requires FoundFor(d.rows, r, found) && i.id !in d.rows
    ensures var l := Next(d, Locate(0, found));
            var m := Next(l, Mutate(0, i.quote, i.id, i.tagIds, i.stamp));
            var t := Next(Next(Next(m, Tick(i.completedAt)), Finish(0)), Commit(0));
            (t.rows, t.records) == AfterLocated(d, r, found, i) && t.workers == map[]
  {
    hide LocateRefusal, MutateOutcome, Written, CompletedRecord, Next, FoundFor;
    var row := RowAt(d.rows, found);
    LocateAlone(d, r, found);
    var l := Next(d, Locate(0, found));
    if LocateRefusal(r, row, d.references).Some? {
      Emptied(l, i);
      assert Next(l, Mutate(0, i.quote, i.id, i.tagIds, i.stamp)) == l by { NothingLeft(l, Mutate(0, i.quote, i.id, i.tagIds, i.stamp)); }
    } else {
      MutateAlone(l, r, row, i);
      var m := Next(l, Mutate(0, i.quote, i.id, i.tagIds, i.stamp));
      match MutateOutcome(r, row, d.rows, d.references, i.quote, i.id, i.tagIds, i.stamp)
      case Err(_) => Emptied(m, i);
      case Ok(o) => CommitAlone(m, r, row, o, i);
    }
  }

  lemma Emptied(m: State, i: Inputs)
    requires m.workers == map[] && m.now <= i.completedAt
    ensures var t := Next(Next(Next(m, Tick(i.completedAt)), Finish(0)), Commit(0));
            t.rows == m.rows && t.records == m.records && t.workers == map[]
  {
  }

  lemma LocateAlone(d: State, r: Request, found: Option<string>)
    requires d.workers == map[0 := Worker(r, Claimed, d.now, None, None, d.now)] && FoundFor(d.rows, r, found)
    ensures Next(d, Locate(0, found)) == d.(workers := if LocateRefusal(r, RowAt(d.rows, found), d.references).Some? then map[]
                                                       else map[0 := Worker(r, Located, d.now, RowAt(d.rows, found), None, d.now)])
  {
    hide LocateRefusal;
  }

  lemma MutateAlone(l: State, r: Request, row: Option<Transaction>, i: Inputs)
    requires l.workers == map[0 := Worker(r, Located, l.now, row, None, l.now)] && i.id !in l.rows
    ensures Next(l, Mutate(0, i.quote, i.id, i.tagIds, i.stamp)) ==
            l.(workers := match MutateOutcome(r, row, l.rows, l.references, i.quote, i.id, i.tagIds, i.stamp)
                          case Err(_) => map[]
                          case Ok(o) => map[0 := Worker(r, Mutated, l.now, row, Some(o), l.now)])
  {
    hide MutateOutcome;
  }

  lemma CommitAlone(m: State, r: Request, row: Option<Transaction>, o: Outcome, i: Inputs)
    requires m.workers == map[0 := Worker(r, Mutated, m.now, row, Some(o), m.now)] && m.now <= i.completedAt
    ensures var t := Next(Next(Next(m, Tick(i.completedAt)), Finish(0)), Commit(0));
            t.rows == Written(m.rows, o.effect) && t.records == Recorded(m.records, r, o, i.completedAt) && t.workers == map[]
  {
    hide Written, CompletedRecord;
  }

  // ----- when a call is accepted, and what it then leaves -----

  /** Each row stands under its own id. */
  predicate Keyed(rows: map<string, Transaction>) {
    forall id :: id in rows ==> rows[id].id == id
  }

  /** The rate, its date and source, and the converted amount of the quote are stored. */
  predicate AtQuote(d: Details, q: Quote) {
    d.baseAmount == q.baseAmount && d.fxRate == q.rate && d.fxRateDate == q.rateDate && d.fxSource == q.source
  }

  /** A create not answered from a record: bad references, identity taken (and visible or not), amount out of range, or one new row. */
  lemma CreateDecided(rows: map<string, Transaction>, records: map<(string, string), Record>, refs: References, r: Request,
                      found: Option<string>, i: Inputs)
    requires r.Create? && Keyed(rows) && FoundFor(rows, r, found) && EarlyAnswer(rows, records, refs, r, i.now).None?
    ensures var served, c, p := Serve(rows, records, refs, r, found, i), r.command, r.principal;
            && (if !MayUse(p, refs, c.categoryId, Some(c.kind), c.paymentSourceId) then served.answer == Err(BadReferences)
                else if found.Some? then
                  served.answer == (if Visible(p, rows, refs, found.value) then Ok(Response(None, c.externalId, false, 200, None)) else Err(NotFound))
                else if i.quote.baseAmount <= 0 || i.quote.baseAmount > 2_147_483_647 then served.answer == Err(BadAmount)
                else
                  && i.id in served.rows && served.rows == rows[i.id := served.rows[i.id]]
                  && var row := served.rows[i.id];
                     && served.answer == Ok(Response(Some(row), None, false, 201, Some(Etag(1))))
                     && row.id == i.id && row.workspaceId == p.workspaceId && row.integrationId == Some(p.integrationId)
                     && row.externalId == c.externalId && row.version == 1 && row.deletedAt.None?
                     && row.createdAt == row.updatedAt == i.stamp && Holds(row, c) && AtQuote(row.details, i.quote))
            && (served.answer.Err? ==> served.rows == rows && served.records == records)
            && (found.Some? ==> served.rows == rows)
  {
    hide RowReferencesOk, CompletedRecord, EarlyAnswer, ReferencesOk, MayUse, Etag;
    var c := r.command;
    MayUseExactly(r.principal, refs, c.categoryId, Some(c.kind), c.paymentSourceId);
    if found.Some? {
      VisibleExactly(r.principal, rows, refs, found.value);
    }
  }

  lemma VisibleExactly(p: Principal, rows: map<string, Transaction>, refs: References, id: string)
    requires id in rows && rows[id].workspaceId == p.workspaceId && rows[id].integrationId == Some(p.integrationId)
    ensures RowReferencesOk(p, refs, rows[id]) <==> Visible(p, rows, refs, id)
  {
    hide ReferencesOk, MayUse;
    MayUseExactly(p, refs, rows[id].details.categoryId, Some(rows[id].details.kind), rows[id].details.paymentSourceId);
  }

  /** An update not answered from a record: the refusals in order, or the active row rewritten at its version and still active. */
  lemma UpdateDecided(rows: map<string, Transaction>, records: map<(string, string), Record>, refs: References, r: Request,
                      found: Option<string>, i: Inputs)
    requires r.Update? && Keyed(rows) && FoundFor(rows, r, found) && EarlyAnswer(rows, records, refs, r, i.now).None?
    ensures var served, c, p, v := Serve(rows, records, refs, r, found, i), r.command, r.principal, r.expectedVersion;
            && (if found.None? || !Visible(p, rows, refs, found.value) then served.answer == Err(NotFound)
                else if !MayUse(p, refs, c.categoryId, Some(c.kind), c.paymentSourceId) then served.answer == Err(BadReferences)
                else if rows[found.value].version != v then served.answer == Err(PreconditionFailed)
                else if i.quote.baseAmount <= 0 || i.quote.baseAmount > 2_147_483_647 then served.answer == Err(BadAmount)
                else
                  && found.value in served.rows && served.rows == rows[found.value := served.rows[found.value]]
                  && var row := served.rows[found.value];
                     && served.answer == Ok(Response(Some(row), None, false, 200, Some(Etag(v + 1))))
                     && KeptBesides(rows[found.value], row) && row.version == v + 1 && row.deletedAt.None?
                     && row.updatedAt == i.stamp && Holds(row, c) && AtQuote(row.details, i.quote))
            && (served.answer.Err? ==> served.rows == rows && served.records == records)
  {
    hide RowReferencesOk, CompletedRecord, EarlyAnswer, ReferencesOk, MayUse, Etag;
    var c := r.command;
    MayUseExactly(r.principal, refs, c.categoryId, Some(c.kind), c.paymentSourceId);
    if found.Some? {
      VisibleExactly(r.principal, rows, refs, found.value);
    }
  }

  /** A delete not answered from a record: the refusals in order, or the active row marked deleted with nothing else of it changed. */
  lemma DeleteDecided(rows: map<string, Transaction>, records: map<(string, string), Record>, refs: References, r: Request,
                      found: Option<string>, i: Inputs)
    requires r.Delete? && Keyed(rows) && FoundFor(rows, r, found) && EarlyAnswer(rows, records, refs, r, i.now).None?
    ensures var served, p, v := Serve(rows, records, refs, r, found, i), r.principal, r.expectedVersion;
            && (if found.None? || !Visible(p, rows, refs, found.value) then served.answer == Err(NotFound)
                else if rows[found.value].version != v then served.answer == Err(PreconditionFailed)
                else
                  && served.answer == Ok(Response(None, None, false, 204, None))
                  && served.rows == rows[found.value := rows[found.value].(version := v + 1, deletedAt := Some(i.stamp))])
            && (served.answer.Err? ==> served.rows == rows && served.records == records)
  {
    hide RowReferencesOk, CompletedRecord, EarlyAnswer, ReferencesOk, MayUse, Etag;
    if found.Some? {
      VisibleExactly(r.principal, rows, refs, found.value);
    }
  }

  /** After an accepted delete, an update or delete of that source identity is not found, whoever in the integration sends it. */
  lemma NotFoundOnceDeleted(rows: map<string, Transaction>, records: map<(string, string), Record>, refs: References, r: Request,
                            found: Option<string>, i: Inputs, next: Request, nextFound: Option<string>, later: Inputs)
    requires r.Delete? && Keyed(rows) && FoundFor(rows, r, found) && EarlyAnswer(rows, records, refs, r, i.now).None?
    requires forall id, jd :: id in rows && jd in rows && OwnedBy(rows[id], r.principal, r.externalId)
                              && OwnedBy(rows[jd], r.principal, r.externalId) ==>
                                id == jd
    requires Target(next).Some? && Target(next) == Target(r)
    ensures var served := Serve(rows, records, refs, r, found, i);
            served.answer.Ok? && FoundFor(served.rows, next, nextFound)
            && EarlyAnswer(served.rows, served.records, refs, next, later.now).None? ==>
              nextFound.None? && Serve(served.rows, served.records, refs, next, nextFound, later).answer == Err(NotFound)
  {
    hide Serve, EarlyAnswer, Visible, MayUse, Holds, KeptBesides;
    DeleteDecided(rows, records, refs, r, found, i);
    var served := Serve(rows, records, refs, r, found, i);
    if served.answer.Ok? && FoundFor(served.rows, next, nextFound) && EarlyAnswer(served.rows, served.records, refs, next, later.now).None? {
      assert nextFound.None?;
      if next.Update? {
        UpdateDecided(served.rows, served.records, refs, next, nextFound, later);
      } else {
        DeleteDecided(served.rows, served.records, refs, next, nextFound, later);
      }
    }
  }

  /** In every state that follows a committed delete, such a call, if no record answers it, is answered "not found". */
  lemma NotFoundForGood(trigger: bool, now: int, refs: References, steps: seq<Step>, j: nat, next: Request, found: Option<string>, i: Inputs)
    ensures var s := Run(Initial(trigger, now, refs), steps);
            j < |s.log| && Deletes(s.log[j]) && Target(next) == Target(s.log[j].request) && FoundFor(s.rows, next, found)
            && EarlyAnswer(s.rows, s.records, s.references, next, i.now).None? ==>
              found.None? && Serve(s.rows, s.records, s.references, next, found, i).answer == Err(NotFound)
  {
    hide Run, Serve, EarlyAnswer, Visible, MayUse, Holds, KeptBesides, Next, Enabled, WorkersSound, RecordsSound, HistorySound, IdentityOf;
    var s := Run(Initial(trigger, now, refs), steps);
    ReachableSound(trigger, now, refs, steps);
    DeletedIsGone(trigger, now, refs, steps, j);
    if j < |s.log| && Deletes(s.log[j]) && Target(next) == Target(s.log[j].request) && FoundFor(s.rows, next, found)
       && EarlyAnswer(s.rows, s.records, s.references, next, i.now).None? {
      if next.Update? {
        UpdateDecided(s.rows, s.records, s.references, next, found, i);
      } else {
        DeleteDecided(s.rows, s.records, s.references, next, found, i);
      }
    }
  }

  // ----- a second request under the key -----

  /** The answer to a retry from the first call, whose target was row `id`, as the tables stand at the retry. */
  function Retried(first: Served, id: string, same: bool, p: Principal, rows: map<string, Transaction>, refs: References)
    : Result<Response, Refusal>
    requires first.answer.Ok? && id in first.rows
  {
    var d := first.rows[id].details;
    if !same then Err(Conflict)
    else if Visible(p, rows, refs, id) && MayUse(p, refs, d.categoryId, None, d.paymentSourceId) then
      Ok(first.answer.value.(replayed := true))
    else Err(NotFound)
  }

  /** The row a served call created, found, rewrote or marked deleted. */
  function TargetRow(found: Option<string>, i: Inputs): string {
    if found.Some? then found.value else i.id
  }

  /**
   While the record of an accepted call is retained, whatever has happened to the rows and references since: another claim
   conflicts; the same claim gets the first answer marked as replayed exactly when the target is still there for the
   principal, with references it may use, and it may also use those the target had then; otherwise it is not found.
   */
  lemma SecondRequest(rows: map<string, Transaction>, records: map<(string, string), Record>, refs: References, r: Request,
                      found: Option<string>, i: Inputs, again: Request, later: int,
                      laterRows: map<string, Transaction>, laterRecords: map<(string, string), Record>, laterRefs: References)
    requires EarlyAnswer(rows, records, refs, r, i.now).None? && r.key.Some? && Keyed(rows) && FoundFor(rows, r, found)
    requires KeyOf(again) == KeyOf(r)
    ensures var served, k := Serve(rows, records, refs, r, found, i), KeyOf(r).value;
            served.answer.Ok? ==>
              && k in served.records && TargetRow(found, i) in served.rows
              && (k in laterRecords && laterRecords[k] == served.records[k] && later < i.completedAt + RETENTION_MS ==>
                    EarlyAnswer(laterRows, laterRecords, laterRefs, again, later)
                    == Some(Retried(served, TargetRow(found, i),
                                    again.principal.workspaceId == r.principal.workspaceId && ClaimOf(again) == ClaimOf(r),
                                    again.principal, laterRows, laterRefs)))
  {
    hide Serve, Retried, Replay, CompletedRecord, ClaimOf, FoundFor, MutateOutcome, LocateRefusal, OutcomeShape, EarlyAnswer;
    var served, k := Serve(rows, records, refs, r, found, i), KeyOf(r).value;
    if served.answer.Ok? {
      var o := AcceptedOutcome(rows, records, refs, r, found, i);
      var e := Committed(r, i.now, i.completedAt, i.completedAt, o);
      ReplayExactly(e, again.principal, laterRows, laterRefs);
      if k in laterRecords && laterRecords[k] == served.records[k] && later < i.completedAt + RETENTION_MS {
        EarlyFromRecord(laterRows, laterRecords, laterRefs, again, later, e);
        RetriedAsStored(served, TargetRow(found, i), again, laterRows, laterRefs, e);
      }
    }
  }

  /** The outcome behind an accepted call: its record, and its target with the references the record retains. */
  lemma AcceptedOutcome(rows: map<string, Transaction>, records: map<(string, string), Record>, refs: References, r: Request,
                        found: Option<string>, i: Inputs) returns (o: Outcome)
    requires EarlyAnswer(rows, records, refs, r, i.now).None? && r.key.Some? && Keyed(rows) && FoundFor(rows, r, found)
    requires Serve(rows, records, refs, r, found, i).answer.Ok?
    ensures var served, k, id := Serve(rows, records, refs, r, found, i), KeyOf(r).value, TargetRow(found, i);
            && OutcomeShape(r, o) && o.response == served.answer.value && o.target.id == id && id in served.rows
            && o.target.details == served.rows[id].details
            && k in served.records && served.records[k] == CompletedRecord(r, o, i.completedAt)
  {
    hide RowReferencesOk, CompletedRecord, EarlyAnswer, CommandReferencesOk, OutcomeShape;
    hide DetailsOf, TagRows, Etag, InRange;
    var row := RowAt(rows, found);
    assert found.Some? ==> row.Some? && row.value.id == found.value;
    assert r.Create? && found.Some? ==> r.command.externalId.Some?;
    MutateShape(r, row, rows, refs, i.quote, i.id, i.tagIds, i.stamp);
    o := MutateOutcome(r, row, rows, refs, i.quote, i.id, i.tagIds, i.stamp).value;
  }

  lemma EarlyFromRecord(rows: map<string, Transaction>, records: map<(string, string), Record>, refs: References, again: Request,
                        later: int, e: Event)
    requires e.Committed? && later < e.completedAt + RETENTION_MS && KeyOf(again).Some? && KeyOf(again).value in records
    requires records[KeyOf(again).value] == CompletedRecord(e.request, e.outcome, e.completedAt)
    ensures EarlyAnswer(rows, records, refs, again, later)
         == Some(if again.principal.workspaceId == e.request.principal.workspaceId && ClaimOf(again) == ClaimOf(e.request)
                 then Replay(records[KeyOf(again).value], again.principal, rows, refs) else Err(Conflict))
  {
    hide Replay, ClaimOf, SerializeTransaction;
  }

  lemma RetriedAsStored(served: Served, id: string, again: Request, rows: map<string, Transaction>, refs: References, e: Event)
    requires e.Committed? && served.answer.Ok? && id in served.rows && e.outcome.response == served.answer.value
    requires e.outcome.target.id == id && e.outcome.target.details == served.rows[id].details
    ensures RetryAnswer(e, again, rows, refs)
         == Retried(served, id, again.principal.workspaceId == e.request.principal.workspaceId && ClaimOf(again) == ClaimOf(e.request),
                    again.principal, rows, refs)
  {
    hide ClaimOf, Visible, MayUse;
  }

  /** The call inserts its claim as started and ends with none: refused, it is gone; accepted, it is completed. */
  lemma NoClaimLeft(rows: map<string, Transaction>, records: map<(string, string), Record>, refs: References, r: Request,
                    found: Option<string>, i: Inputs)
    requires forall k :: k in records ==> records[k].status == Done
    ensures var served := Serve(rows, records, refs, r, found, i); forall k :: k in served.records ==> served.records[k].status == Done
  {
    hide EarlyAnswer, MutateOutcome, LocateRefusal, Written, SerializeTransaction, ClaimOf;
  }

  /** The same for commands as they arrive: a retry is the first request again exactly when the two agree field by field. */
  lemma RetryDecidedByIntent(rows: map<string, Transaction>, records: map<(string, string), Record>, refs: References, p: Principal, key: string,
                             a: RawCommand, b: RawCommand, found: Option<string>, i: Inputs, later: int,
                             laterRows: map<string, Transaction>, laterRecords: map<(string, string), Record>, laterRefs: References)
    requires NormalizeCommand(a).Ok? && NormalizeCommand(b).Ok? && Keyed(rows)
    requires FoundFor(rows, Create(p, Some(key), NormalizeCommand(a).value), found)
    requires EarlyAnswer(rows, records, refs, Create(p, Some(key), NormalizeCommand(a).value), i.now).None?
    ensures var served, k := Serve(rows, records, refs, Create(p, Some(key), NormalizeCommand(a).value), found, i), (p.integrationId, key);
            served.answer.Ok? ==>
              && k in served.records && TargetRow(found, i) in served.rows
              && (k in laterRecords && laterRecords[k] == served.records[k] && later < i.completedAt + RETENTION_MS ==>
                    EarlyAnswer(laterRows, laterRecords, laterRefs, Create(p, Some(key), NormalizeCommand(b).value), later)
                    == Some(Retried(served, TargetRow(found, i), SameIntent(a, b), p, laterRows, laterRefs)))
  {
    hide NormalizeCommand, SameIntent, Retried, ClaimOf, Serve, EarlyAnswer, FoundFor;
    ClaimExactly(p, Some(key), a, b, "", "", 0, 0);
    SecondRequest(rows, records, refs, Create(p, Some(key), NormalizeCommand(a).value), found, i,
                  Create(p, Some(key), NormalizeCommand(b).value), later, laterRows, laterRecords, laterRefs);
  }

  // ----- the tables and the calls -----

  /** The record a claim inserts. */
  function StartedRecord(r: Request, now: int): Record
    requires r.key.Some?
  {
    Record(r.principal.workspaceId, ClaimOf(r), Started, 0, JNull, None, "", None, "", Some(now + LEASE_MS), now, now + LEASE_MS)
  }

  /** A claim that never completed would hold its key against the same request for five minutes, against any other until it is removed. */
  lemma LeaseExactly(rows: map<string, Transaction>, records: map<(string, string), Record>, refs: References, r: Request, now: int,
                     again: Request, later: int)
    requires r.key.Some? && KeyOf(again) == KeyOf(r)
    ensures EarlyAnswer(rows, records[KeyOf(r).value := StartedRecord(r, now)], refs, again, later)
         == if again.principal.workspaceId != r.principal.workspaceId || ClaimOf(again) != ClaimOf(r) then Some(Err(Conflict))
            else if later < now + 5 * 60 * 1000 then Some(Err(InProgress))
            else None
  {
    hide ClaimOf, Replay;
  }

  datatype CallRefusal = ScopeRequired | VersionInvalid | FieldInvalid(field: FieldError) | KeyInvalid | IdentityUnknown | Refused(refusal: Refusal)

  /** The checks a create makes before its transaction, in order: scope, command, key. */
  function CheckedCreate(scopes: seq<string>, key: Option<string>, c: RawCommand): Result<(Option<string>, Command), CallRefusal> {
    if "transactions:create" !in scopes then Err(ScopeRequired)
    else
      match NormalizeCommand(c)
      case Err(e) => Err(FieldInvalid(e))
      case Ok(n) =>
        if key.None? then Ok((None, n))
        else match NormalizeKey(key.value) case None => Err(KeyInvalid) case Some(k) => Ok((Some(k), n))
  }

  predicate VersionOk(v: int) {
    1 <= v < MAX_INT
  }

  /** Those of an update: scope, version, command, external id, key. */
  function CheckedUpdate(scopes: seq<string>, key: string, v: int, c: RawCommand): Result<(string, string, Command), CallRefusal> {
    if "transactions:update-own" !in scopes then Err(ScopeRequired)
    else if !VersionOk(v) then Err(VersionInvalid)
    else
      match NormalizeCommand(c)
      case Err(e) => Err(FieldInvalid(e))
      case Ok(n) =>
        match NormalizeExternalId(if n.externalId.Some? then n.externalId.value else "")
        case Err(e) => Err(FieldInvalid(e))
        case Ok(id) => match NormalizeKey(key) case None => Err(KeyInvalid) case Some(k) => Ok((k, id, n))
  }

  /** Those of a delete: scope, version, external id, key. */
  function CheckedDelete(scopes: seq<string>, key: string, externalId: string, v: int): Result<(string, string), CallRefusal> {
    if "transactions:delete-own" !in scopes then Err(ScopeRequired)
    else if !VersionOk(v) then Err(VersionInvalid)
    else
      match NormalizeExternalId(externalId)
      case Err(e) => Err(FieldInvalid(e))
      case Ok(id) => match NormalizeKey(key) case None => Err(KeyInvalid) case Some(k) => Ok((k, id))
  }

  /** A call reaches its transaction exactly with its scope, an acceptable version, command and external id, and a proper key; as these. */
  lemma CallsChecked(scopes: seq<string>, key: string, v: int, c: RawCommand, externalId: string, k: string, id: string, n: Command)
    ensures CheckedCreate(scopes, None, c) == Ok((None, n)) <==> "transactions:create" in scopes && NormalizeCommand(c) == Ok(n)
    ensures CheckedCreate(scopes, Some(key), c) == Ok((Some(k), n))
            <==> "transactions:create" in scopes && NormalizeCommand(c) == Ok(n) && ProperKey(key, k)
    ensures CheckedUpdate(scopes, key, v, c) == Ok((k, id, n))
            <==> && "transactions:update-own" in scopes && 1 <= v < 2_147_483_647 && NormalizeCommand(c) == Ok(n)
                 && n.externalId == Some(id) && ProperKey(key, k)
    ensures CheckedDelete(scopes, key, externalId, v) == Ok((k, id))
            <==> && "transactions:delete-own" in scopes && 1 <= v < 2_147_483_647
                 && id == Trim(externalId) && id != "" && ByteLength(id) <= 200 && ProperKey(key, k)
  {
    hide NormalizeCommand, Trim, ByteLength;
    if NormalizeCommand(c).Ok? {
      StoredIdStays(c);
      EmptyTrims();
    }
  }

  /** A key's trimmed form: 16 to 128 visible ASCII characters. */
  predicate ProperKey(key: string, k: string) {
    k == Trim(key) && 16 <= |k| <= 128 && forall i :: 0 <= i < |k| ==> 33 <= k[i] as int <= 126
  }

  lemma StoredIdStays(c: RawCommand)
    requires NormalizeCommand(c).Ok?
    ensures var e := NormalizeCommand(c).value.externalId;
            e.Some? ==> Trim(e.value) == e.value && e.value != "" && ByteLength(e.value) <= 200
  {
    hide Trim, ByteLength, NormalizeTags, Upper;
    if c.externalId.Some? {
      TrimTwice(c.externalId.value);
    }
  }

  lemma EmptyTrims()
    ensures Trim("") == ""
  {
  }

  function Wrapped(answer: Result<Response, Refusal>): Result<Response, CallRefusal> {
    match answer case Ok(r) => Ok(r) case Err(e) => Err(Refused(e))
  }

  class Tables {
    var rows: map<string, Transaction>
    var records: map<(string, string), Record>
    var references: References
    var integrations: set<(string, string)>        // (workspace, integration) pairs that exist

    constructor (references: References, integrations: set<(string, string)>)
      ensures rows == map[] && records == map[] && this.references == references && this.integrations == integrations
    {
      rows, records := map[], map[];
      this.references, this.integrations := references, integrations;
    }

    predicate Known(p: Principal)
      reads this`integrations
    {
      (p.workspaceId, p.integrationId) in integrations
    }

    /** A create as it arrives; what is refused before the mutation leaves the tables alone. */
    method CreateIdempotently(p: Principal, scopes: seq<string>, key: Option<string>, c: RawCommand, i: Inputs)
      returns (answer: Result<Response, CallRefusal>, ghost found: Option<string>)
      modifies this`rows, this`records
      ensures match CheckedCreate(scopes, key, c)
              case Err(e) => answer == Err(e) && rows == old(rows) && records == old(records)
              case Ok((k, n)) =>
                if !Known(p) then answer == Err(IdentityUnknown) && rows == old(rows) && records == old(records)
                else
                  FoundFor(old(rows), Create(p, k, n), found)
                  && var served := Serve(old(rows), old(records), references, Create(p, k, n), found, i);
                     rows == served.rows && records == served.records && answer == Wrapped(served.answer)
    {
      hide NormalizeCommand, NormalizeKey, Serve, FoundFor;
      found := None;
      if "transactions:create" !in scopes { return Err(ScopeRequired), found; }
      var command := NormalizeCommand(c);
      if command.Err? { return Err(FieldInvalid(command.error)), found; }
      var normalKey: Option<string> := None;
      if key.Some? {
        normalKey := NormalizeKey(key.value);
        if normalKey.None? { return Err(KeyInvalid), found; }
      }
      if !Known(p) { return Err(IdentityUnknown), found; }
      var result, f := ExecuteCreate(p, normalKey, command.value, i);
      return Wrapped(result), f;
    }

    method UpdateIdempotently(p: Principal, scopes: seq<string>, key: string, expectedVersion: int, c: RawCommand, i: Inputs)
      returns (answer: Result<Response, CallRefusal>, ghost found: Option<string>)
      modifies this`rows, this`records
      ensures match CheckedUpdate(scopes, key, expectedVersion, c)
              case Err(e) => answer == Err(e) && rows == old(rows) && records == old(records)
              case Ok((k, id, n)) =>
                if !Known(p) then answer == Err(IdentityUnknown) && rows == old(rows) && records == old(records)
                else
                  FoundFor(old(rows), Update(p, Some(k), id, expectedVersion, n), found)
                  && var served := Serve(old(rows), old(records), references, Update(p, Some(k), id, expectedVersion, n), found, i);
                     rows == served.rows && records == served.records && answer == Wrapped(served.answer)
    {
      hide NormalizeCommand, NormalizeKey, NormalizeExternalId, Serve, FoundFor;
      found := None;
      if "transactions:update-own" !in scopes { return Err(ScopeRequired), found; }
      if !VersionOk(expectedVersion) { return Err(VersionInvalid), found; }
      var command := NormalizeCommand(c);
      if command.Err? { return Err(FieldInvalid(command.error)), found; }
      var id := NormalizeExternalId(if command.value.externalId.Some? then command.value.externalId.value else "");
      if id.Err? { return Err(FieldInvalid(id.error)), found; }
      var normalKey := NormalizeKey(key);
      if normalKey.None? { return Err(KeyInvalid), found; }
      if !Known(p) { return Err(IdentityUnknown), found; }
      var result, f := ExecuteUpdate(p, normalKey.value, id.value, expectedVersion, command.value, i);
      return Wrapped(result), f;
    }

    method DeleteIdempotently(p: Principal, scopes: seq<string>, key: string, externalId: string, expectedVersion: int, i: Inputs)
      returns (answer: Result<Response, CallRefusal>, ghost found: Option<string>)
      modifies this`rows, this`records
      ensures match CheckedDelete(scopes, key, externalId, expectedVersion)
              case Err(e) => answer == Err(e) && rows == old(rows) && records == old(records)
              case Ok((k, id)) =>
                if !Known(p) then answer == Err(IdentityUnknown) && rows == old(rows) && records == old(records)
                else
                  FoundFor(old(rows), Delete(p, Some(k), id, expectedVersion), found)
                  && var served := Serve(old(rows), old(records), references, Delete(p, Some(k), id, expectedVersion), found, i);
                     rows == served.rows && records == served.records && answer == Wrapped(served.answer)
    {
      hide NormalizeKey, NormalizeExternalId, Serve, FoundFor;
      found := None;
      if "transactions:delete-own" !in scopes { return Err(ScopeRequired), found; }
      if !VersionOk(expectedVersion) { return Err(VersionInvalid), found; }
      var id := NormalizeExternalId(externalId);
      if id.Err? { return Err(FieldInvalid(id.error)), found; }
      var normalKey := NormalizeKey(key);
      if normalKey.None? { return Err(KeyInvalid), found; }
      if !Known(p) { return Err(IdentityUnknown), found; }
      var result, f := ExecuteDelete(p, normalKey.value, id.value, expectedVersion, i);
      return Wrapped(result), f;
    }

    /** The source identity lookup; deleted rows are tombstones a create must see. */
    method FindOwned(p: Principal, externalId: string, includeDeleted: bool) returns (found: Option<string>)
      ensures Finds(rows, p, externalId, includeDeleted, found)
    {
      if id :| id in rows && OwnedBy(rows[id], p, externalId) && (includeDeleted || rows[id].deletedAt.None?) {
        found := Some(id);
      } else {
        found := None;
      }
    }

    /** Under the key lock: answer from an existing record, or replace it by a fresh claim with its lease. */
    method ClaimKey(r: Request, now: int) returns (early: Option<Result<Response, Refusal>>)
      modifies this`records
      ensures early == EarlyAnswer(rows, old(records), references, r, now)
      ensures early.Some? || r.key.None? ==> records == old(records)
      ensures early.None? && r.key.Some? ==> records == old(records)[(r.principal.integrationId, r.key.value) := StartedRecord(r, now)]
    {
      if r.key.None? { return None; }
      var k := (r.principal.integrationId, r.key.value);
      var claim := ClaimOf(r);
      if k in records {
        var existing := records[k];
        if existing.status != Done || existing.expiresAt > now {
          if existing.workspaceId != r.principal.workspaceId || existing.claim != claim {
            return Some(Err(Conflict));
          }
          if existing.status == Done {
            return Some(Replay(existing, r.principal, rows, references));
          }
          if existing.leaseExpiresAt.None? || existing.leaseExpiresAt.value > now {
            return Some(Err(InProgress));
          }
        }
        records := records - {k};
      }
      records := records[k := StartedRecord(r, now)];
      return None;
    }

    /** The claim's record takes the answer and the retention starts. */
    method CompleteClaim(r: Request, o: Outcome, completedAt: int)
      modifies this`records
      ensures records == Recorded(old(records), r, o, completedAt)
    {
      if r.key.Some? {
        records := records[(r.principal.integrationId, r.key.value) := CompletedRecord(r, o, completedAt)];
      }
    }

    method ExecuteCreate(p: Principal, key: Option<string>, c: Command, i: Inputs)
      returns (answer: Result<Response, Refusal>, ghost found: Option<string>)
      modifies this`rows, this`records
      ensures FoundFor(old(rows), Create(p, key, c), found)
      ensures Served(rows, records, answer) == Serve(old(rows), old(records), references, Create(p, key, c), found, i)
    {
      hide Replay, CommandReferencesOk, RowReferencesOk, CompletedRecord, Etag, DetailsOf, InRange, Decide;
      var r := Create(p, key, c);
      var oldRecords := records;
      found := if c.externalId.None? then None else SomeMatch(rows, p, c.externalId.value, true);
      var early := ClaimKey(r, i.now);
      if early.Some? { return early.value, found; }
      if !CommandReferencesOk(p, references, c) {
        records := oldRecords;
        return Err(BadReferences), found;
      }
      var existing: Option<string> := None;
      if c.externalId.Some? {
        existing := FindOwned(p, c.externalId.value, true);
      }
      found := existing;
      if existing.Some? {
        var row := rows[existing.value];
        if !RowReferencesOk(p, references, row) {
          records := oldRecords;
          return Err(NotFound), found;
        }
        answer := Ok(Response(None, c.externalId, false, 200, None));
        CompleteClaim(r, Outcome(NoWrite, answer.value, row), i.completedAt);
      } else {
        if !InRange(i.quote) {
          records := oldRecords;
          return Err(BadAmount), found;
        }
        var row := Transaction(i.id, p.workspaceId, Some(p.integrationId), c.externalId, DetailsOf(c, i.quote), 1, i.stamp, i.stamp,
                               None, TagRows(c.tags, p.workspaceId, i.id, i.tagIds, i.stamp));
        rows := rows[i.id := row];
        answer := Ok(TransactionResponse(row, 201));
        CompleteClaim(r, Outcome(Insert(row), answer.value, row), i.completedAt);
      }
    }

    method ExecuteUpdate(p: Principal, key: string, externalId: string, expectedVersion: int, c: Command, i: Inputs)
      returns (answer: Result<Response, Refusal>, ghost found: Option<string>)
      modifies this`rows, this`records
      ensures FoundFor(old(rows), Update(p, Some(key), externalId, expectedVersion, c), found)
      ensures Served(rows, records, answer)
           == Serve(old(rows), old(records), references, Update(p, Some(key), externalId, expectedVersion, c), found, i)
    {
      hide Replay, CommandReferencesOk, RowReferencesOk, CompletedRecord, Etag, DetailsOf, InRange, Decide;
      var r := Update(p, Some(key), externalId, expectedVersion, c);
      var oldRecords := records;
      found := SomeMatch(rows, p, externalId, false);
      var early := ClaimKey(r, i.now);
      if early.Some? { return early.value, found; }
      var existing := FindOwned(p, externalId, false);
      found := existing;
      if existing.None? || !RowReferencesOk(p, references, rows[existing.value]) {
        records := oldRecords;
        return Err(NotFound), found;
      }
      var row := rows[existing.value];
      if !CommandReferencesOk(p, references, c) {
        records := oldRecords;
        return Err(BadReferences), found;
      }
      if row.version != expectedVersion {
        records := oldRecords;
        return Err(PreconditionFailed), found;
      }
      if !InRange(i.quote) {
        records := oldRecords;
        return Err(BadAmount), found;
      }
      if !Matches(rows, row.id, p, externalId, expectedVersion) {
        records := oldRecords;
        return Err(PreconditionFailed), found;
      }
      var updated := rows[row.id].(details := DetailsOf(c, i.quote), version := expectedVersion + 1, updatedAt := i.stamp,
                                   tags := TagRows(c.tags, p.workspaceId, row.id, i.tagIds, i.stamp));
      rows := rows[updated.id := updated];
      answer := Ok(TransactionResponse(updated, 200));
      CompleteClaim(r, Outcome(Replace(updated), answer.value, updated), i.completedAt);
    }

    method ExecuteDelete(p: Principal, key: string, externalId: string, expectedVersion: int, i: Inputs)
      returns (answer: Result<Response, Refusal>, ghost found: Option<string>)
      modifies this`rows, this`records
      ensures FoundFor(old(rows), Delete(p, Some(key), externalId, expectedVersion), found)
      ensures Served(rows, records, answer)
           == Serve(old(rows), old(records), references, Delete(p, Some(key), externalId, expectedVersion), found, i)
    {
      hide Replay, RowReferencesOk, CompletedRecord, Decide;
      var r := Delete(p, Some(key), externalId, expectedVersion);
      var oldRecords := records;
      found := SomeMatch(rows, p, externalId, false);
      var early := ClaimKey(r, i.now);
      if early.Some? { return early.value, found; }
      var existing := FindOwned(p, externalId, false);
      found := existing;
      if existing.None? || !RowReferencesOk(p, references, rows[existing.value]) {
        records := oldRecords;
        return Err(NotFound), found;
      }
      var row := rows[existing.value];
      if !Matches(rows, row.id, p, externalId, expectedVersion) {
        records := oldRecords;
        return Err(PreconditionFailed), found;
      }
      var deleted := rows[row.id].(version := expectedVersion + 1, deletedAt := Some(i.stamp));
      rows := rows[deleted.id := deleted];
      answer := Ok(Response(None, None, false, 204, None));
      CompleteClaim(r, Outcome(Replace(deleted), answer.value, row), i.completedAt);
    }

    /** The hourly cleanup. */
    method CleanupExpiredIdempotency(now: int) returns (count: nat)
      modifies this`records
      ensures records == map k | k in old(records) && !Expired(old(records)[k], now) :: old(records)[k]
      ensures count == |set k | k in old(records) && Expired(old(records)[k], now)|
    {
      var expired := set k | k in records && Expired(records[k], now);
      records := records - expired;
      count := |expired|;
    }
  }
}
