/** Calendar dates, month arithmetic clamped to the end of the month, and dates as YYYY-MM-DD text. */
module Calendar {
  import opened Wrappers
  import opened Text
  import opened Sorting

  datatype Date = Date(year: int, month: int, day: int)

  predicate IsLeap(year: int) {
    year % 4 == 0 && (year % 100 != 0 || year % 400 == 0)
  }

  function DaysIn(year: int, month: int): (n: int)
    ensures 28 <= n <= 31
  {
    if month == 2 then (if IsLeap(year) then 29 else 28)
    else if month == 4 || month == 6 || month == 9 || month == 11 then 30
    else 31
  }

  predicate IsDate(d: Date) {
    1 <= d.month <= 12 && 1 <= d.day <= DaysIn(d.year, d.month)
  }

  /** Months counted from year 0. */
  function MonthIndex(d: Date): int {
    d.year * 12 + d.month - 1
  }

  predicate Earlier(a: Date, b: Date) {
    MonthIndex(a) < MonthIndex(b) || (MonthIndex(a) == MonthIndex(b) && a.day < b.day)
  }

  /**
   `new Date(Date.UTC(year, month, day))` for a zero-based month that may be out of range: the month rolls into the
   year, and day 0 is the last day of the month before.
   */
  function Utc(year: int, month: int, day: int): (d: Date)
    requires 0 <= day <= DaysIn(year + month / 12, month % 12 + 1)
    ensures IsDate(d)
  {
    if day == 0 then
      var y, m := year + (month - 1) / 12, (month - 1) % 12 + 1;
      Date(y, m, DaysIn(y, m))
    else Date(year + month / 12, month % 12 + 1, day)
  }

  function Min(a: int, b: int): int { if a <= b then a else b }

  function Max(a: int, b: int): int { if a >= b then a else b }

  // ----- the server's form, on dates -----

  function AddUtcMonthsClamped(d: Date, months: int): (r: Date)
    requires IsDate(d)
    ensures IsDate(r)
  {
    var month := d.month - 1 + months;
    var lastDay := Utc(d.year, month + 1, 0).day;
    Utc(d.year, month, Min(d.day, lastDay))
  }

  function StartOfUtcMonth(d: Date): (r: Date)
    requires IsDate(d)
    ensures IsDate(r)
  {
    Utc(d.year, d.month - 1, 1)
  }

  // ----- the browser's form, on text -----

  /** Four-digit years, and past the years JavaScript reads as 19xx. */
  predicate Printable(d: Date) {
    IsDate(d) && 100 <= d.year <= 9999
  }

  function Print(d: Date): string
    requires Printable(d)
  {
    PrintDate(d.year, d.month, d.day)
  }

  function Read(s: string): (r: Option<Date>)
    ensures r.Some? ==> Printable(r.value)
  {
    match ReadDate(s)
    case None => None
    case Some(p) =>
      var d := Date(p.0, p.1, p.2);
      if Printable(d) then Some(d) else None
  }

  /** The month first, on its own; then the last day of that month; then the parts put together as text. */
  function AddMonthsClamped(s: string, months: int): Option<string> {
    match Read(s)
    case None => None
    case Some(d) =>
      var first := Utc(d.year, d.month - 1 + months, 1);
      var lastDay := Utc(first.year, first.month, 0).day;
      var r := Date(first.year, first.month, Min(d.day, lastDay));
      if 100 <= first.year <= 9999 then Some(PrintDate(r.year, r.month, r.day)) else None
  }

  predicate TextLess(a: string, b: string) {
    StringLe(a, b) && a != b
  }

  // ----- month arithmetic -----

  lemma SplitMonths(total: int)
    ensures total / 12 * 12 + total % 12 == total && 0 <= total % 12 < 12
  {
  }

  lemma IndexUnique(y: int, m: int, z: int, n: int)
    requires y * 12 + m == z * 12 + n && 0 <= m < 12 && 0 <= n < 12
    ensures y == z && m == n
  {
  }

  /** Adding months moves the month index by exactly that many and keeps the day as far as the month allows. */
  lemma AddedMonths(d: Date, n: int)
    requires IsDate(d)
    ensures var r := AddUtcMonthsClamped(d, n);
            MonthIndex(r) == MonthIndex(d) + n && r.day == Min(d.day, DaysIn(r.year, r.month))
  {
    SplitMonths(d.month - 1 + n);
    SplitMonths(d.month + n);
  }

  /** Two dates of one month index share the month. */
  lemma SameMonth(a: Date, b: Date)
    requires IsDate(a) && IsDate(b) && MonthIndex(a) == MonthIndex(b)
    ensures a.year == b.year && a.month == b.month
  {
    IndexUnique(a.year, a.month - 1, b.year, b.month - 1);
  }

  lemma AddIsMonotone(d: Date, m: int, n: int)
    requires IsDate(d) && m < n
    ensures Earlier(AddUtcMonthsClamped(d, m), AddUtcMonthsClamped(d, n))
  {
    hide AddUtcMonthsClamped;
    AddedMonths(d, m);
    AddedMonths(d, n);
  }

  lemma OrderIsTotal(a: Date, b: Date)
    requires IsDate(a) && IsDate(b)
    ensures Earlier(a, b) || Earlier(b, a) || a == b
    ensures !(Earlier(a, b) && Earlier(b, a)) && (a == b ==> !Earlier(a, b))
  {
    if MonthIndex(a) == MonthIndex(b) {
      SameMonth(a, b);
    }
  }

  // ----- text and dates agree -----

  lemma ReadPrinted(d: Date)
    requires Printable(d)
    ensures Read(Print(d)) == Some(d) && |Print(d)| == 10
  {
    DateRoundTrip(d.year, d.month, d.day);
  }

  /** A text is read as a date exactly when it is that date's printed form: ten characters, a real day, a year from 100 to 9999. */
  lemma ReadExactly(s: string, d: Date)
    ensures Read(s) == Some(d) <==> Printable(d) && s == Print(d)
  {
    hide ReadDate, PrintDate;
    ReadDatePrints(s);
    if Printable(d) {
      ReadPrinted(d);
    }
  }

  lemma DigitOrder(a: nat, b: nat)
    requires a < 10 && b < 10
    ensures DigitChar(a) < DigitChar(b) <==> a < b
    ensures DigitChar(a) == DigitChar(b) <==> a == b
  {
  }

  /** Padded numbers compare as text like numbers, whatever follows them. */
  lemma {:induction false} PaddedOrder(m: nat, n: nat, width: nat, s: string, t: string)
    requires m < Pow10(width) && n < Pow10(width)
    ensures StringLe(Padded(m, width) + s, Padded(n, width) + t) <==> m < n || (m == n && StringLe(s, t))
    decreases width
  {
    if width == 0 {
      assert Padded(m, 0) + s == s && Padded(n, 0) + t == t;
    } else {
      var a, b := [DigitChar(m % 10)] + s, [DigitChar(n % 10)] + t;
      PaddedOrder(m / 10, n / 10, width - 1, a, b);
      assert Padded(m, width) + s == Padded(m / 10, width - 1) + a;
      assert Padded(n, width) + t == Padded(n / 10, width - 1) + b;
      DigitOrder(m % 10, n % 10);
      assert a[1..] == s && b[1..] == t;
    }
  }

  lemma SeparatorOrder(c: char, s: string, t: string)
    ensures StringLe([c] + s, [c] + t) <==> StringLe(s, t)
  {
    assert ([c] + s)[1..] == s && ([c] + t)[1..] == t;
  }

  lemma DateText(y: nat, m: nat, d: nat)
    ensures PrintDate(y, m, d) == Padded(y, 4) + ("-" + (Padded(m, 2) + ("-" + (Padded(d, 2) + ""))))
  {
    hide Padded;
  }

  /** Comparing the texts is comparing the dates. */
  lemma TextOrder(a: Date, b: Date)
    requires Printable(a) && Printable(b)
    ensures TextLess(Print(a), Print(b)) <==> Earlier(a, b)
    ensures StringLe(Print(a), Print(b)) <==> !Earlier(b, a)
  {
    hide Padded, StringLe, Pow10;
    PowersOfTen();
    var a1, b1 := Padded(a.day, 2) + "", Padded(b.day, 2) + "";
    var a2, b2 := Padded(a.month, 2) + ("-" + a1), Padded(b.month, 2) + ("-" + b1);
    DateText(a.year, a.month, a.day);
    DateText(b.year, b.month, b.day);
    PaddedOrder(a.year, b.year, 4, "-" + a2, "-" + b2);
    SeparatorOrder('-', a2, b2);
    PaddedOrder(a.month, b.month, 2, "-" + a1, "-" + b1);
    SeparatorOrder('-', a1, b1);
    PaddedOrder(a.day, b.day, 2, "", "");
    assert StringLe("", "") by { EmptyLe(); }
    OrderIsTotal(a, b);
    PrintInjective(a, b);
  }

  lemma EmptyLe()
    ensures StringLe("", "")
  {
  }

  lemma PrintInjective(a: Date, b: Date)
    requires Printable(a) && Printable(b)
    ensures Print(a) == Print(b) ==> a == b
  {
    ReadPrinted(a);
    ReadPrinted(b);
  }

  /** Browser and server add months alike. */
  lemma AddAgrees(d: Date, n: int)
    requires Printable(d)
    ensures var r := AddUtcMonthsClamped(d, n);
            AddMonthsClamped(Print(d), n) == if 100 <= r.year <= 9999 then Some(Print(r)) else None
  {
    hide Print, Read, PrintDate;
    ReadPrinted(d);
    var first := Utc(d.year, d.month - 1 + n, 1);
    SplitMonths(d.month - 1 + n);
    SplitMonths(d.month + n);
    var r := AddUtcMonthsClamped(d, n);
    assert Utc(first.year, first.month, 0).day == DaysIn(first.year, first.month);
    assert r.year == first.year && r.month == first.month;
    PrintIs(r);
  }

  lemma PrintIs(d: Date)
    ensures Printable(d) ==> Print(d) == PrintDate(d.year, d.month, d.day)
  {
  }
}
