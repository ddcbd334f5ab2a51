/** The paginated export: the query, the loop over pages, the lines it streams, and what a reader finds in the file. */
module CsvExport {
  import opened Wrappers
  import opened Text
  import opened Sorting
  import opened TransactionJson
  import opened Csv

  /** A row as the export query returns it, joined with its names and tags. */
  datatype Record = Record(
    id: string, workspace: string, deleted: bool, date: Instant, createdAt: Instant, kind: Kind, amount: int, currency: string,
    baseAmount: int, baseCurrency: string, fxRate: Decimal, fxRateDate: Instant, fxSource: string, category: Option<string>,
    description: string, notes: Option<string>, tags: seq<string>, paymentSource: Option<string>)

  datatype Filters = Filters(workspace: string, dateFrom: Option<int>, dateTo: Option<int>)

  const BATCH: nat := 500

  /** Instants in time order as whole numbers. */
  function Ordinal(i: Instant): int {
    ((((((i.year * 12 + i.month) * 31 + i.day) * 24 + i.hour) * 60 + i.minute) * 60 + i.second) * 1000) + i.milli
  }

  predicate Selected(r: Record, f: Filters) {
    r.workspace == f.workspace && !r.deleted
    && (f.dateFrom.Some? ==> Ordinal(r.date) >= f.dateFrom.value) && (f.dateTo.Some? ==> Ordinal(r.date) <= f.dateTo.value)
  }

  /** Latest date first, then latest created, then greatest id. */
  predicate Listed(a: Record, b: Record) {
    Ordinal(a.date) > Ordinal(b.date)
    || (Ordinal(a.date) == Ordinal(b.date)
        && (Ordinal(a.createdAt) > Ordinal(b.createdAt) || (Ordinal(a.createdAt) == Ordinal(b.createdAt) && StringLe(b.id, a.id))))
  }

  type Table = map<string, Record>

  predicate TableOk(t: Table) {
    forall k :: k in t ==> t[k].id == k
  }

  /** All selected rows, each once, in the export order. */
  ghost predicate IsListing(t: Table, f: Filters, listed: seq<Record>) {
    && (forall i :: 0 <= i < |listed| ==> listed[i].id in t && t[listed[i].id] == listed[i] && Selected(listed[i], f))
    && (forall k :: k in t && Selected(t[k], f) ==> t[k] in listed)
    && Distinct(listed) && Sorted(listed, Listed)
  }

  lemma ListedOrders()
    ensures TotalPreorder(Listed)
  {
    hide StringLe, Ordinal;
    forall a, b ensures Listed(a, b) || Listed(b, a) {
      StringLeTotal(a.id, b.id);
    }
    forall a, b, c | Listed(a, b) && Listed(b, c) ensures Listed(a, c) {
      if StringLe(c.id, b.id) && StringLe(b.id, a.id) {
        StringLeTransitive(c.id, b.id, a.id);
      }
    }
  }

  lemma ListedStrict(a: Record, b: Record)
    requires a.id != b.id
    ensures !(Listed(a, b) && Listed(b, a))
  {
    StringLeTotal(a.id, b.id);
  }

  /** The order is total, so every execution of the query lists the rows alike: pages of different queries fit together. */
  lemma ListingUnique(t: Table, f: Filters, a: seq<Record>, b: seq<Record>)
    requires IsListing(t, f, a) && IsListing(t, f, b)
    ensures a == b
  {
    hide Listed, Selected;
    forall x ensures x in a <==> x in b {
      if x in a { assert x.id in t && t[x.id] == x; }
      if x in b { assert x.id in t && t[x.id] == x; }
    }
    forall x, y | x in a && y in a && Listed(x, y) && Listed(y, x) ensures x == y {
      if x.id != y.id {
        ListedStrict(x, y);
      }
    }
    SortedUnique(a, b, Listed, |a|);
    SortedUnique(b, a, Listed, |b|);
    assert a[..|a|] == a && b[..|b|] == b;
  }

  /** Whole numbers order instants by year, month, day and time of day, to the millisecond. */
  lemma OrdinalInTimeOrder(a: Instant, b: Instant)
    ensures Ordinal(a) < Ordinal(b)
            <==> || a.year < b.year
                 || (a.year == b.year && a.month < b.month)
                 || (a.year == b.year && a.month == b.month && a.day < b.day)
                 || (a.year == b.year && a.month == b.month && a.day == b.day && TimeOfDay(a) < TimeOfDay(b))
    ensures Ordinal(a) == Ordinal(b) <==> a == b
  {
  }

  function TimeOfDay(i: Instant): int {
    i.hour * 3_600_000 + i.minute * 60_000 + i.second * 1000 + i.milli
  }

  /** A listing holds exactly the workspace's rows that are not deleted and lie in the range, and orders them by date, creation and id, latest first. */
  lemma ListingExactly(t: Table, f: Filters, listed: seq<Record>)
    requires IsListing(t, f, listed)
    ensures forall r :: r in listed <==>
              && r.id in t && t[r.id] == r && r.workspace == f.workspace && !r.deleted
              && (f.dateFrom.Some? ==> f.dateFrom.value <= Ordinal(r.date)) && (f.dateTo.Some? ==> Ordinal(r.date) <= f.dateTo.value)
    ensures forall i, j :: 0 <= i < j < |listed| ==>
              && listed[i].id != listed[j].id
              && Ordinal(listed[i].date) >= Ordinal(listed[j].date)
              && (listed[i].date == listed[j].date ==>
                    && Ordinal(listed[i].createdAt) >= Ordinal(listed[j].createdAt)
                    && (listed[i].createdAt == listed[j].createdAt ==> StringLe(listed[j].id, listed[i].id)))
  {
    hide Ordinal, StringLe;
    forall i, j | 0 <= i < j < |listed|
      ensures listed[i].id != listed[j].id
      ensures Ordinal(listed[i].date) >= Ordinal(listed[j].date)
      ensures listed[i].date == listed[j].date ==>
                && Ordinal(listed[i].createdAt) >= Ordinal(listed[j].createdAt)
                && (listed[i].createdAt == listed[j].createdAt ==> StringLe(listed[j].id, listed[i].id))
    {
      assert listed[i] != listed[j] && Listed(listed[i], listed[j]);
    }
  }

  function Page(listed: seq<Record>, offset: nat, limit: nat): seq<Record> {
    if offset >= |listed| then [] else if offset + limit >= |listed| then listed[offset..] else listed[offset..offset + limit]
  }

  // ----- lines -----

  function JoinTags(tags: seq<string>): string {
    if tags == [] then "" else if |tags| == 1 then tags[0] else tags[0] + ", " + JoinTags(tags[1..])
  }

  function KindText(k: Kind): string {
    if k == Expense then "expense" else "income"
  }

  function TextOr(o: Option<string>): string {
    if o.Some? then o.value else ""
  }

  /** The fourteen columns of a row. */
  function Fields(r: Record): (f: seq<string>)
    ensures |f| == 14
  {
    [ToIso(r.date)[..10], KindText(r.kind), FormatAmount(r.amount), r.currency, FormatAmount(r.baseAmount), r.baseCurrency, r.fxRate.text,
     ToIso(r.fxRateDate)[..10], r.fxSource, TextOr(r.category), r.description, TextOr(r.notes), JoinTags(r.tags), TextOr(r.paymentSource)]
  }

  const HEADER: seq<string> := [
    "date", "type", "amount", "currency", "base_amount", "base_currency", "fx_rate", "fx_rate_date", "fx_source", "category",
    "description", "notes", "tags", "payment_source"
  ]

  /** What a row shows under a column's name. */
  function Shown(r: Record, column: string): string {
    if column == "date" then PrintDate(r.date.year, r.date.month, r.date.day)
    else if column == "type" then (match r.kind case Expense => "expense" case Income => "income")
    else if column == "amount" then FormatAmount(r.amount)
    else if column == "currency" then r.currency
    else if column == "base_amount" then FormatAmount(r.baseAmount)
    else if column == "base_currency" then r.baseCurrency
    else if column == "fx_rate" then r.fxRate.text
    else if column == "fx_rate_date" then PrintDate(r.fxRateDate.year, r.fxRateDate.month, r.fxRateDate.day)
    else if column == "fx_source" then r.fxSource
    else if column == "category" then (match r.category case Some(c) => c case None => "")
    else if column == "description" then r.description
    else if column == "notes" then (match r.notes case Some(n) => n case None => "")
    else if column == "tags" then JoinTags(r.tags)
    else if column == "payment_source" then (match r.paymentSource case Some(p) => p case None => "")
    else ""
  }

  /** Each column holds what its name in the header promises. */
  lemma FieldsByName(r: Record, k: nat)
    requires k < 14
    ensures Fields(r)[k] == Shown(r, HEADER[k])
  {
    hide JoinTags, FormatAmount, PrintDate, PrintTime;
  }

  /** No two columns share a name. */
  lemma ColumnsDiffer(i: nat, j: nat)
    requires i < j < 14
    ensures HEADER[i] != HEADER[j]
  {
  }

  /** Dates and amounts read back from their columns. */
  lemma ShownReads(r: Record)
    ensures ReadDate(Shown(r, "date")) == Some((r.date.year, r.date.month, r.date.day))
    ensures ReadDate(Shown(r, "fx_rate_date")) == Some((r.fxRateDate.year, r.fxRateDate.month, r.fxRateDate.day))
    ensures ReadAmount(Shown(r, "amount")) == Some(r.amount) && ReadAmount(Shown(r, "base_amount")) == Some(r.baseAmount)
  {
    hide ReadDate, ReadAmount, FormatAmount, PrintDate;
    DateRoundTrip(r.date.year, r.date.month, r.date.day);
    DateRoundTrip(r.fxRateDate.year, r.fxRateDate.month, r.fxRateDate.day);
    AmountRoundTrip(r.amount);
    AmountRoundTrip(r.baseAmount);
  }

  /** Tags stand one after the other with a comma and a space between any two. */
  lemma {:induction false} TagsJoined(a: seq<string>, b: seq<string>)
    requires a != [] && b != []
    ensures JoinTags(a + b) == JoinTags(a) + ", " + JoinTags(b)
    ensures JoinTags([]) == "" && JoinTags([a[0]]) == a[0]
  {
    if |a| == 1 {
      assert (a + b)[1..] == b;
    } else {
      TagsJoined(a[1..], b);
      assert (a + b)[1..] == a[1..] + b;
    }
  }

  function AllFields(listed: seq<Record>): (r: seq<seq<string>>)
    ensures |r| == |listed|
  {
    seq(|listed|, i requires 0 <= i < |listed| => Fields(listed[i]))
  }

  class Repository {
    var rows: Table

    constructor ()
      ensures rows == map[]
    {
      rows := map[];
    }

    /** The rows the filters select, each once. */
    method SelectRows(f: Filters) returns (found: seq<Record>)
      requires TableOk(rows)
      ensures forall i :: 0 <= i < |found| ==> found[i].id in rows && rows[found[i].id] == found[i] && Selected(found[i], f)
      ensures forall k :: k in rows && Selected(rows[k], f) ==> rows[k] in found
      ensures Distinct(found)
    {
      hide Selected;
      var rest := set k | k in rows && Selected(rows[k], f);
      ghost var all := rest;
      found := [];
      while rest != {}
        invariant rest <= all
        invariant forall i :: 0 <= i < |found| ==> found[i].id in all - rest && rows[found[i].id] == found[i]
        invariant forall k :: k in all - rest ==> rows[k] in found
        invariant Distinct(found)
        decreases |rest|
      {
        var k :| k in rest;
        found := found + [rows[k]];
        rest := rest - {k};
      }
    }

    /** One page in the export order; every listing of the table has the same page. */
    method ListTransactionsForExport(f: Filters, limit: nat, offset: nat) returns (batch: seq<Record>)
      requires TableOk(rows)
      ensures forall listed :: IsListing(rows, f, listed) ==> batch == Page(listed, offset, limit)
      ensures exists listed :: IsListing(rows, f, listed)
    {
      var found := SelectRows(f);
      SortedListing(rows, f, found);
      hide IsListing, Selected, Listed, Page;
      var sorted := Sort(found, Listed);
      batch := Page(sorted, offset, limit);
      forall listed | IsListing(rows, f, listed) ensures batch == Page(listed, offset, limit) {
        ListingUnique(rows, f, listed, sorted);
      }
    }

    /** The loop over pages: every selected row once, in order, and no more queries than pages. */
    method StreamTransactions(f: Filters) returns (out: seq<Record>)
      requires TableOk(rows)
      ensures IsListing(rows, f, out)
    {
      hide IsListing;
      out := [];
      var offset := 0;
      ghost var listed := SomeListing(rows, f);
      while true
        invariant offset == |out| <= |listed| && out == listed[..offset]
        decreases |listed| - offset
      {
        var batch := ListTransactionsForExport(f, BATCH, offset);
        PageGrows(listed, offset, BATCH);
        assert listed[..|listed|] == listed;
        if |batch| == 0 {
          return;
        }
        out := out + batch;
        if |batch| < BATCH {
          return;
        }
        offset := offset + |batch|;
      }
    }

    method CreateCsvExportChunks(f: Filters) returns (chunks: seq<string>)
      requires TableOk(rows)
      ensures exists listed :: IsListing(rows, f, listed) && Concat(chunks) == Lines([HEADER] + AllFields(listed))
    {
      hide IsListing, SerializeRow, Fields, HEADER, EscapeAll;
      var stream := StreamTransactions(f);
      chunks := [SerializeRow(HEADER) + "\n"];
      var i := 0;
      while i < |stream|
        invariant 0 <= i <= |stream|
        invariant Concat(chunks) == Lines([HEADER] + AllFields(stream[..i]))
      {
        assert stream[..i + 1] == stream[..i] + [stream[i]];
        AllFieldsMore(stream[..i], stream[i]);
        LinesMore([HEADER] + AllFields(stream[..i]), Fields(stream[i]));
        chunks := chunks + [SerializeRow(Fields(stream[i])) + "\n"];
        i := i + 1;
      }
      assert stream[..i] == stream;
    }
  }

  function Concat(chunks: seq<string>): string {
    if chunks == [] then "" else Concat(chunks[..|chunks| - 1]) + chunks[|chunks| - 1]
  }

  lemma AllFieldsMore(listed: seq<Record>, r: Record)
    ensures [HEADER] + AllFields(listed + [r]) == ([HEADER] + AllFields(listed)) + [Fields(r)]
  {
    hide Fields;
    assert AllFields(listed + [r]) == AllFields(listed) + [Fields(r)];
  }

  lemma {:induction false} LinesMore(records: seq<seq<string>>, more: seq<string>)
    ensures Lines(records + [more]) == Lines(records) + (SerializeRow(more) + "\n")
  {
    hide SerializeRow;
    if records == [] {
      assert (records + [more])[1..] == [];
    } else {
      LinesMore(records[1..], more);
      assert (records + [more])[1..] == records[1..] + [more];
    }
  }

  lemma SortedListing(t: Table, f: Filters, found: seq<Record>)
    requires forall i :: 0 <= i < |found| ==> found[i].id in t && t[found[i].id] == found[i] && Selected(found[i], f)
    requires forall k :: k in t && Selected(t[k], f) ==> t[k] in found
    requires Distinct(found)
    ensures IsListing(t, f, Sort(found, Listed))
  {
    hide Listed, Selected, Sort, Distinct, Sorted;
    ListedOrders();
    SortSound(found, Listed);
    SortDistinct(found, Listed);
    MultisetMembers(Sort(found, Listed), found);
    var s := Sort(found, Listed);
    forall i | 0 <= i < |s| ensures s[i].id in t && t[s[i].id] == s[i] && Selected(s[i], f) {
      FoundRow(t, f, found, s[i]);
    }
  }

  lemma FoundRow(t: Table, f: Filters, found: seq<Record>, r: Record)
    requires forall i :: 0 <= i < |found| ==> found[i].id in t && t[found[i].id] == found[i] && Selected(found[i], f)
    requires r in found
    ensures r.id in t && t[r.id] == r && Selected(r, f)
  {
    hide Selected;
  }

  lemma {:induction false} Collect(t: Table, f: Filters, keys: set<string>) returns (found: seq<Record>)
    requires TableOk(t) && keys <= t.Keys && forall k :: k in keys ==> Selected(t[k], f)
    ensures Distinct(found)
    ensures forall i :: 0 <= i < |found| ==> found[i].id in keys && t[found[i].id] == found[i] && Selected(found[i], f)
    ensures forall k :: k in keys ==> t[k] in found
    decreases |keys|
  {
    hide Selected;
    if keys == {} {
      found := [];
    } else {
      var k :| k in keys;
      var rest := Collect(t, f, keys - {k});
      found := rest + [t[k]];
    }
  }

  lemma ListingExists(t: Table, f: Filters)
    requires TableOk(t)
    ensures exists listed :: IsListing(t, f, listed)
  {
    hide Listed, Selected;
    var found := Collect(t, f, set k | k in t && Selected(t[k], f));
    SortedListing(t, f, found);
  }

  ghost function SomeListing(t: Table, f: Filters): (listed: seq<Record>)
    requires TableOk(t)
    ensures IsListing(t, f, listed)
  {
    ListingExists(t, f);
    var listed :| IsListing(t, f, listed);
    listed
  }

  lemma PageGrows(listed: seq<Record>, offset: nat, limit: nat)
    requires offset <= |listed| && limit > 0
    ensures var p := Page(listed, offset, limit);
            listed[..offset] + p == listed[..offset + |p|] && offset + |p| <= |listed| && (|p| < limit ==> offset + |p| == |listed|)
  {
  }

  /**
   What a reader finds in the streamed file of an unchanged table: the header, then one record per row, with each value,
   sanitised, under its column's name.
   */
  lemma ExportRoundTrip(t: Table, f: Filters, listed: seq<Record>)
    requires IsListing(t, f, listed)
    ensures var file := Lines([HEADER] + AllFields(listed));
            ReadFile(file).Some?
            && var records := ReadFile(file).value;
               && |records| == 1 + |listed| && records[0] == HEADER
               && forall i, k :: 0 <= i < |listed| && 0 <= k < 14 ==>
                    |records[i + 1]| == 14 && records[i + 1][k] == Sanitize(Shown(listed[i], records[0][k]))
  {
    hide Fields, ReadFile, Lines, SanitizeAll, Sanitize, Shown, IsListing;
    var all := [HEADER] + AllFields(listed);
    CsvRoundTrip(all);
    HeaderPlain();
    var records := ReadFile(Lines(all)).value;
    forall i, k | 0 <= i < |listed| && 0 <= k < 14
      ensures |records[i + 1]| == 14 && records[i + 1][k] == Sanitize(Shown(listed[i], records[0][k]))
    {
      assert all[i + 1] == Fields(listed[i]);
      FieldsByName(listed[i], k);
      SanitizedAt(Fields(listed[i]), k);
    }
  }

  lemma SanitizedAt(fields: seq<string>, k: nat)
    requires k < |fields|
    ensures SanitizeAll(fields)[k] == Sanitize(fields[k])
  {
  }

  lemma PlainText(s: string)
    requires s != "" && 'a' <= s[0] <= 'z'
    ensures Sanitize(s) == s
  {
    assert TrimStart(s) == s;
  }

  lemma HeaderLetters(i: nat)
    requires i < |HEADER|
    ensures HEADER[i] != "" && 'a' <= HEADER[i][0] <= 'z'
  {
  }

  lemma HeaderPlain()
    ensures SanitizeAll(HEADER) == HEADER
  {
    hide Sanitize, HEADER;
    forall i | 0 <= i < |HEADER| ensures Sanitize(HEADER[i]) == HEADER[i] {
      HeaderLetters(i);
      PlainText(HEADER[i]);
    }
    assert SanitizeAll(HEADER) == HEADER;
  }
}
