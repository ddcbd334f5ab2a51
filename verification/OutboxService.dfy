/** One worker process of the outbox: the claim query, a delivery, and the batch that a running batch keeps out. */
module OutboxService {
  import opened Wrappers
  import opened Sorting
  import opened EmailOutbox

  const CLEANUP_INTERVAL: int := 60 * 60000

  /** Deliveries of one batch, in the order the claim returned them. */
  datatype Claimed = Claimed(id: string, row: Row)

  predicate Claims(batch: seq<Claimed>, id: string) {
    exists i :: 0 <= i < |batch| && batch[i].id == id
  }

  /** The oldest due rows, at most twenty, each claimed as it stood. */
  ghost predicate IsBatch(before: map<string, Row>, after: map<string, Row>, batch: seq<Claimed>, now: int) {
    && after.Keys == before.Keys && |batch| <= 20
    && (forall i :: 0 <= i < |batch| ==> batch[i].id in before && Claimable(before[batch[i].id], now)
                                         && batch[i].row == before[batch[i].id].(status := Processing, lockedAt := Some(now)))
    && (forall i, j :: 0 <= i < j < |batch| ==> batch[i].id != batch[j].id)
    && (forall id :: id in before ==>
          after[id] == if Claims(batch, id) then before[id].(status := Processing, lockedAt := Some(now)) else before[id])
    && (forall id :: id in before && Claimable(before[id], now) && !Claims(batch, id) ==>
          |batch| == 20 && forall i :: 0 <= i < |batch| ==> batch[i].row.createdAt <= before[id].createdAt)
  }

  /** The oldest members, at most twenty, each once. */
  predicate OldestOf(rows: map<string, Row>, all: set<string>, ids: seq<string>)
    requires all <= rows.Keys
  {
    && |ids| <= BATCH && Distinct(ids) && (forall id :: id in ids ==> id in all)
    && (forall id :: id in all && id !in ids ==> |ids| == BATCH && forall x :: x in ids ==> rows[x].createdAt <= rows[id].createdAt)
  }

  lemma OldestMembers(rows: map<string, Row>, all: set<string>, ids: seq<string>)
    requires all <= rows.Keys && OldestOf(rows, all, ids)
    ensures |ids| <= BATCH && forall id :: id in ids ==> id in all
  {
  }

  /** How one delivery ended, and when. */
  datatype Report = Report(ok: bool, at: int)

  function Reported(row: Row, report: Report): Row {
    if report.ok then SentRow(row, report.at) else FailedRow(row, row, report.at)
  }

  /**
   A reported delivery's row, written out: sent with its payload blanked; or one failure more, given up at the seventh or past
   23 hours, and due again after a delay that starts at five seconds and doubles.
   */
  lemma ReportedExactly(row: Row, report: Report)
    requires row.attempts < 7
    ensures var after := Reported(row, report);
            if report.ok then after == row.(status := Sent, sentAt := Some(report.at), lockedAt := None, payload := "")
            else if row.attempts == 6 || report.at > row.createdAt + 82_800_000 then
              after == row.(status := Failed, attempts := row.attempts + 1, availableAt := after.availableAt, lockedAt := None)
            else
              after == row.(status := Pending, attempts := row.attempts + 1, availableAt := report.at + DELAYS[row.attempts], lockedAt := None)
  {
    hide RetryDelay;
    if row.attempts < 6 {
      DelayTable(row.attempts + 1);
    }
  }

  class Outbox {
    var rows: map<string, Row>
    var processing: bool
    var lastCleanupAt: int

    constructor ()
      ensures rows == map[] && !processing && lastCleanupAt == 0
    {
      rows, processing, lastCleanupAt := map[], false, 0;
    }

    method Oldest(due: set<string>) returns (oldest: string)
      requires due != {} && due <= rows.Keys
      ensures oldest in due && forall id :: id in due ==> rows[oldest].createdAt <= rows[id].createdAt
    {
      oldest :| oldest in due;
      var rest := due - {oldest};
      while rest != {}
        invariant rest <= due && oldest in due
        invariant forall id :: id in due - rest ==> rows[oldest].createdAt <= rows[id].createdAt
        decreases |rest|
      {
        var id :| id in rest;
        if rows[id].createdAt < rows[oldest].createdAt {
          oldest := id;
        }
        rest := rest - {id};
      }
    }

    /** The inner `SELECT … ORDER BY created_at LIMIT 20`. */
    method SelectOldest(all: set<string>) returns (ids: seq<string>)
      requires all <= rows.Keys
      ensures OldestOf(rows, all, ids)
    {
      ids := [];
      var due := all;
      while due != {} && |ids| < BATCH
        invariant |ids| <= BATCH && due <= all
        invariant forall id :: id in all <==> id in due || id in ids
        invariant forall id :: id in ids ==> id !in due
        invariant Distinct(ids)
        invariant forall x, y :: x in ids && y in due ==> rows[x].createdAt <= rows[y].createdAt
        decreases |due|
      {
        var id := Oldest(due);
        ids := ids + [id];
        due := due - {id};
      }
    }

    /** `UPDATE … WHERE id IN (…) RETURNING …`. */
    method ClaimBatch(now: int) returns (batch: seq<Claimed>)
      modifies this`rows
      ensures IsBatch(old(rows), rows, batch, now)
    {
      hide Claimable, OldestOf;
      var table := rows;
      var due := set id | id in table && Claimable(table[id], now);
      var ids := SelectOldest(due);
      OldestMembers(table, due, ids);
      batch := seq(|ids|, i requires 0 <= i < |ids| && ids[i] in table => Claimed(ids[i], ClaimedRow(table[ids[i]], now)));
      BatchOfOldest(table, due, ids, batch, now);
      rows := map id | id in table :: if id in ids then ClaimedRow(table[id], now) else table[id];
    }

    /** One delivery's report; a success blanks the payload, a failure counts. */
    method Deliver(c: Claimed, ok: bool, now: int)
      requires c.id in rows && rows[c.id] == c.row
      modifies this`rows
      ensures rows == old(rows)[c.id := Reported(c.row, Report(ok, now))]
    {
      if ok {
        rows := rows[c.id := rows[c.id].(status := Sent, sentAt := Some(now), lockedAt := None, payload := "")];
      } else {
        var attempts := c.row.attempts + 1;
        var expired := attempts >= MAX_ATTEMPTS || c.row.createdAt < now - MAX_AGE;
        rows := rows[c.id := rows[c.id].(status := if expired then Failed else Pending, attempts := attempts,
                                         availableAt := now + RetryDelay(attempts), lockedAt := None)];
      }
    }

    /** The deliveries of a batch, reporting in the given order. */
    method Settle(batch: seq<Claimed>, reports: seq<Report>, order: seq<nat>)
      requires |reports| >= |batch| && IsOrder(order, |batch|)
      requires forall i, j :: 0 <= i < j < |batch| ==> batch[i].id != batch[j].id
      requires forall i :: 0 <= i < |batch| ==> batch[i].id in rows && rows[batch[i].id] == batch[i].row
      modifies this`rows
      ensures Settled(old(rows), batch, reports, rows)
    {
      hide Reported, IsOrder, Settled, SettledUpTo, Claims;
      ghost var claimed := rows;
      NothingSettled(claimed, batch, reports);
      var i := 0;
      while i < |order|
        invariant 0 <= i <= |order|
        invariant SettledUpTo(claimed, batch, reports, rows, order[..i])
      {
        NextUnsettled(claimed, batch, reports, rows, order, i);
        assert order[..i + 1] == order[..i] + [order[i]];
        OneMoreSettled(claimed, batch, reports, rows, order[..i], order[i]);
        Deliver(batch[order[i]], reports[order[i]].ok, reports[order[i]].at);
        i := i + 1;
      }
      assert order[..i] == order;
      AllSettled(claimed, batch, reports, rows, order);
    }

    /**
     A batch that starts while another runs does nothing; otherwise each claimed row is reported once, in whatever
     order the deliveries settle.
     */
    method ProcessBatch(now: int, reports: seq<Report>, settle: seq<Claimed> -> seq<nat>) returns (batch: seq<Claimed>)
      requires |reports| >= BATCH && forall b :: IsOrder(settle(b), |b|)
      modifies this
      ensures old(processing) ==> batch == [] && rows == old(rows) && processing && lastCleanupAt == old(lastCleanupAt)
      ensures !old(processing) ==>
                !processing
                && lastCleanupAt == (if now - old(lastCleanupAt) >= 3_600_000 then now else old(lastCleanupAt))
                && exists claimed :: IsBatch(old(rows), claimed, batch, now) && Settled(claimed, batch, reports, rows)
    {
      hide IsBatch, Reported, IsOrder, Settled;
      if processing {
        return [];
      }
      processing := true;
      if now - lastCleanupAt >= CLEANUP_INTERVAL {
        lastCleanupAt := now;
      }
      batch := ClaimBatch(now);
      BatchRows(old(rows), rows, batch, now);
      Settle(batch, reports, settle(batch));
      processing := false;
    }
  }

  lemma BatchOfOldest(rows: map<string, Row>, due: set<string>, ids: seq<string>, batch: seq<Claimed>, now: int)
    requires due == (set id | id in rows && Claimable(rows[id], now)) && OldestOf(rows, due, ids)
    requires |batch| == |ids| && forall i :: 0 <= i < |ids| ==> ids[i] in rows && batch[i] == Claimed(ids[i], ClaimedRow(rows[ids[i]], now))
    ensures var after := map id | id in rows :: if id in ids then ClaimedRow(rows[id], now) else rows[id];
            IsBatch(rows, after, batch, now)
  {
    hide Claimable;
    forall id ensures Claims(batch, id) <==> id in ids {
      if id in ids {
        var i :| 0 <= i < |ids| && ids[i] == id;
        assert batch[i].id == id;
      }
      if Claims(batch, id) {
        var i :| 0 <= i < |batch| && batch[i].id == id;
        assert ids[i] == id;
      }
    }
    forall i | 0 <= i < |batch| ensures batch[i].id in ids && batch[i].id in due && batch[i].row.createdAt == rows[batch[i].id].createdAt {
      assert ids[i] in ids;
    }
  }

  lemma BatchRows(before: map<string, Row>, after: map<string, Row>, batch: seq<Claimed>, now: int)
    requires IsBatch(before, after, batch, now)
    ensures |batch| <= BATCH
    ensures forall j :: 0 <= j < |batch| ==> batch[j].id in after && after[batch[j].id] == batch[j].row
    ensures forall i, j :: 0 <= i < j < |batch| ==> batch[i].id != batch[j].id
  {
    forall j | 0 <= j < |batch| ensures batch[j].id in after && after[batch[j].id] == batch[j].row {
      assert Claims(batch, batch[j].id);
    }
  }

  // ----- deliveries that settle in any order -----

  /** Every index below n, once each. */
  predicate IsOrder(order: seq<nat>, n: nat) {
    Distinct(order) && (forall k :: k in order ==> k < n) && forall k: nat :: k < n ==> k in order
  }

  lemma NothingSettled(claimed: map<string, Row>, batch: seq<Claimed>, reports: seq<Report>)
    requires |reports| >= |batch|
    requires forall i, j :: 0 <= i < j < |batch| ==> batch[i].id != batch[j].id
    requires forall i :: 0 <= i < |batch| ==> batch[i].id in claimed && claimed[batch[i].id] == batch[i].row
    ensures SettledUpTo(claimed, batch, reports, claimed, [])
  {
    hide Reported;
  }

  /** Row by row: a claimed row ends as its delivery reported, the others as the claim left them. */
  ghost predicate Settled(claimed: map<string, Row>, batch: seq<Claimed>, reports: seq<Report>, after: map<string, Row>)
    requires |reports| >= |batch|
  {
    && after.Keys == claimed.Keys
    && (forall i :: 0 <= i < |batch| ==> batch[i].id in after && after[batch[i].id] == Reported(batch[i].row, reports[i]))
    && (forall id :: id in claimed && !Claims(batch, id) ==> after[id] == claimed[id])
  }

  /** The same with only the listed deliveries settled yet. */
  ghost predicate SettledUpTo(claimed: map<string, Row>, batch: seq<Claimed>, reports: seq<Report>, after: map<string, Row>, done: seq<nat>)
    requires |reports| >= |batch|
  {
    && after.Keys == claimed.Keys
    && (forall i :: 0 <= i < |batch| ==>
          batch[i].id in after && after[batch[i].id] == if i in done then Reported(batch[i].row, reports[i]) else batch[i].row)
    && (forall id :: id in claimed && !Claims(batch, id) ==> after[id] == claimed[id])
    && (forall i, j :: 0 <= i < j < |batch| ==> batch[i].id != batch[j].id)
  }

  lemma NextUnsettled(claimed: map<string, Row>, batch: seq<Claimed>, reports: seq<Report>, after: map<string, Row>, order: seq<nat>, i: nat)
    requires |reports| >= |batch| && IsOrder(order, |batch|) && i < |order| && SettledUpTo(claimed, batch, reports, after, order[..i])
    ensures order[i] < |batch| && order[i] !in order[..i]
    ensures batch[order[i]].id in after && after[batch[order[i]].id] == batch[order[i]].row
  {
    hide Reported;
    assert order[i] in order;
    forall k | 0 <= k < i ensures order[..i][k] != order[i] {
      assert order[k] != order[i];
    }
  }

  lemma OneMoreSettled(claimed: map<string, Row>, batch: seq<Claimed>, reports: seq<Report>, before: map<string, Row>, done: seq<nat>, k: nat)
    requires |reports| >= |batch| && k < |batch| && k !in done && SettledUpTo(claimed, batch, reports, before, done)
    ensures SettledUpTo(claimed, batch, reports, before[batch[k].id := Reported(batch[k].row, reports[k])], done + [k])
  {
    hide Reported;
    var after := before[batch[k].id := Reported(batch[k].row, reports[k])];
    assert forall i :: i in done + [k] <==> i in done || i == k;
    forall i | 0 <= i < |batch| && i != k ensures batch[i].id != batch[k].id {}
    forall id | id in claimed && !Claims(batch, id) ensures after[id] == claimed[id] {
      assert batch[k].id != id;
    }
  }

  lemma AllSettled(claimed: map<string, Row>, batch: seq<Claimed>, reports: seq<Report>, after: map<string, Row>, order: seq<nat>)
    requires |reports| >= |batch| && IsOrder(order, |batch|) && SettledUpTo(claimed, batch, reports, after, order)
    ensures Settled(claimed, batch, reports, after)
  {
    hide Reported;
  }
}
