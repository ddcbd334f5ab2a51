/** Digits, padding, splitting and joining: the string operations the printers and parsers share. */
module Text {
  import opened Wrappers

  // ----- digits in base 10 and base 16 -----

  predicate IsBase(base: nat) {
    base == 10 || base == 16
  }

  function DigitChar(d: nat): char
    requires d < 16
  {
    "0123456789abcdef"[d]
  }

  /** The value of a digit; 16 stands for "not a digit". */
  function DigitValue(c: char): (d: nat)
    ensures d <= 16
  {
    if '0' <= c <= '9' then (c as int) - ('0' as int)
    else if 'a' <= c <= 'f' then (c as int) - ('a' as int) + 10
    else if 'A' <= c <= 'F' then (c as int) - ('A' as int) + 10
    else 16
  }

  predicate IsNumeral(s: string, base: nat)
    requires IsBase(base)
  {
    s != "" && forall i :: 0 <= i < |s| ==> DigitValue(s[i]) < base
  }

  function Numeral(n: nat, base: nat): (s: string)
    requires IsBase(base)
    decreases n
  {
    if n < base then [DigitChar(n)] else Numeral(n / base, base) + [DigitChar(n % base)]
  }

  function NumeralValue(s: string, base: nat): nat
    requires IsBase(base)
    requires forall i :: 0 <= i < |s| ==> DigitValue(s[i]) < base
  {
    if s == "" then 0 else NumeralValue(s[..|s| - 1], base) * base + DigitValue(s[|s| - 1])
  }

  lemma DigitRoundTrip(d: nat)
    requires d < 16
    ensures DigitValue(DigitChar(d)) == d
  {
    assert "0123456789abcdef"[d] == if d < 10 then ('0' as int + d) as char else ('a' as int + d - 10) as char;
  }

  lemma DivideByBase(n: nat, base: nat)
    requires IsBase(base)
    ensures n / base * base + n % base == n
    ensures n % base < base
    ensures n >= base ==> 0 < n / base < n
  {
    if base == 10 {
      assert n / 10 * 10 + n % 10 == n;
    } else {
      assert n / 16 * 16 + n % 16 == n;
    }
  }

  lemma {:induction false} NumeralRoundTrip(n: nat, base: nat)
    requires IsBase(base)
    ensures IsNumeral(Numeral(n, base), base)
    ensures NumeralValue(Numeral(n, base), base) == n
    ensures n > 0 ==> Numeral(n, base)[0] != '0'
    decreases n
  {
    DivideByBase(n, base);
    var q, r := n / base, n % base;
    if n < base {
      DigitRoundTrip(n);
      assert [DigitChar(n)][..0] == "";
    } else {
      NumeralRoundTrip(q, base);
      DigitRoundTrip(r);
      var s := Numeral(q, base) + [DigitChar(r)];
      assert Numeral(n, base) == s;
      assert s[..|s| - 1] == Numeral(q, base);
    }
  }

  function Power(base: nat, k: nat): nat {
    if k == 0 then 1 else base * Power(base, k - 1)
  }

  /** A numeral is no longer than it needs to be. */
  lemma {:induction false} NumeralLength(n: nat, base: nat, k: nat)
    requires IsBase(base) && 0 < k && n < Power(base, k)
    ensures |Numeral(n, base)| <= k
    decreases k
  {
    assert Power(base, 1) == base;
    if n >= base {
      DivideByBase(n, base);
      if base == 10 {
        assert n / 10 < Power(10, k - 1);
      } else {
        assert n / 16 < Power(16, k - 1);
      }
      NumeralLength(n / base, base, k - 1);
    }
  }

  /** `padStart(width, "0")` of a decimal that fits the width. */
  function Padded(n: nat, width: nat): (s: string)
    ensures |s| == width
  {
    if width == 0 then "" else Padded(n / 10, width - 1) + [DigitChar(n % 10)]
  }

  function Pow10(k: nat): (p: nat)
    ensures p > 0
  {
    if k == 0 then 1 else 10 * Pow10(k - 1)
  }

  lemma {:induction false} PaddedRoundTrip(n: nat, width: nat)
    requires n < Pow10(width)
    ensures forall i :: 0 <= i < width ==> DigitValue(Padded(n, width)[i]) < 10
    ensures NumeralValue(Padded(n, width), 10) == n
  {
    if width > 0 {
      PaddedRoundTrip(n / 10, width - 1);
      var s := Padded(n, width);
      assert s[..|s| - 1] == Padded(n / 10, width - 1);
    }
  }

  lemma NumeralStep(n: nat, d: nat)
    requires n > 0 && d < 10
    ensures Numeral(n * 10 + d, 10) == Numeral(n, 10) + [DigitChar(d)]
  {
    hide DigitChar;
    assert (n * 10 + d) / 10 == n && (n * 10 + d) % 10 == d;
  }

  /** A decimal without a leading zero is how its value is written. */
  lemma {:induction false} NumeralIsOnly(s: string)
    requires IsNumeral(s, 10) && s[0] != '0'
    ensures NumeralValue(s, 10) > 0 && Numeral(NumeralValue(s, 10), 10) == s
    decreases |s|
  {
    hide Numeral, DigitChar, DigitValue;
    var init, d := s[..|s| - 1], DigitValue(s[|s| - 1]);
    DigitCharOf(s[|s| - 1]);
    if |s| > 1 {
      NumeralIsOnly(init);
      NumeralStep(NumeralValue(init, 10), d);
      assert s == init + [s[|s| - 1]];
    } else {
      assert init == "";
      assert s == [s[0]];
      assert Numeral(d, 10) == [DigitChar(d)] by { OneDigit(d); }
    }
  }

  lemma OneDigit(d: nat)
    requires d < 10
    ensures Numeral(d, 10) == [DigitChar(d)]
  {
    hide DigitChar;
  }

  lemma DigitCharOf(c: char)
    ensures DigitValue(c) < 10 ==> DigitChar(DigitValue(c)) == c
    ensures DigitValue(c) == 0 ==> c == '0'
  {
    if DigitValue(c) < 10 {
      DigitRoundTrip(DigitValue(c));
    }
  }

  /** A decimal numeral is the padded form of its value at its own length. */
  lemma {:induction false} NumeralPadded(s: string)
    requires IsNumeral(s, 10)
    ensures NumeralValue(s, 10) < Pow10(|s|) && Padded(NumeralValue(s, 10), |s|) == s
  {
    var init, last := s[..|s| - 1], s[|s| - 1];
    assert s == init + [last];
    DigitCharOf(last);
    LastDigit(NumeralValue(init, 10), DigitValue(last));
    if |s| > 1 {
      NumeralPadded(init);
    } else {
      assert Padded(0, 0) == "";
    }
  }

  lemma LastDigit(q: nat, d: nat)
    requires d < 10
    ensures (q * 10 + d) / 10 == q && (q * 10 + d) % 10 == d
  {
  }

  // ----- white space -----

  /** What JavaScript's trim removes. */
  predicate IsSpace(c: char) {
    var n := c as int;
    9 <= n <= 13 || n == 32 || n == 0xA0 || n == 0x1680 || 0x2000 <= n <= 0x200A || n == 0x2028 || n == 0x2029
    || n == 0x202F || n == 0x205F || n == 0x3000 || n == 0xFEFF
  }

  function TrimStart(s: string): string {
    if s != "" && IsSpace(s[0]) then TrimStart(s[1..]) else s
  }

  function TrimEnd(s: string): string {
    if s != "" && IsSpace(s[|s| - 1]) then TrimEnd(s[..|s| - 1]) else s
  }

  function Trim(s: string): string {
    TrimEnd(TrimStart(s))
  }

  lemma {:induction false} TrimStartEnds(s: string)
    ensures var t := TrimStart(s); t == "" || !IsSpace(t[0])
  {
    if s != "" && IsSpace(s[0]) {
      TrimStartEnds(s[1..]);
    }
  }

  lemma {:induction false} TrimEndEnds(s: string)
    ensures var t := TrimEnd(s); |t| <= |s| && t == s[..|t|] && (t == "" || !IsSpace(t[|t| - 1]))
  {
    if s != "" && IsSpace(s[|s| - 1]) {
      TrimEndEnds(s[..|s| - 1]);
    }
  }

  /** Trimming leaves no space at either end, and a text without one is left alone. */
  lemma TrimTwice(s: string)
    ensures Trim(Trim(s)) == Trim(s)
  {
    var a := TrimStart(s);
    TrimStartEnds(s);
    TrimEndEnds(a);
    var t := TrimEnd(a);
    assert TrimStart(t) == t;
  }

  /** What an optional field stores: nothing for white space. */
  function NonEmpty(o: Option<string>): Option<string> {
    if o.Some? && Trim(o.value) != "" then Some(Trim(o.value)) else None
  }

  /** An optional text counts only with something besides white space, which is dropped at its ends. */
  lemma NonEmptyExactly(o: Option<string>, t: string)
    ensures NonEmpty(o) == Some(t) <==> o.Some? && t == Trim(o.value) && t != ""
  {
    hide Trim;
  }

  // ----- letters -----

  function LowerChar(c: char): char {
    if 'A' <= c <= 'Z' then ((c as int) - ('A' as int) + ('a' as int)) as char else c
  }

  function Lower(s: string): (r: string)
    ensures |r| == |s|
  {
    seq(|s|, i requires 0 <= i < |s| => LowerChar(s[i]))
  }

  // ----- calendar dates as YYYY-MM-DD -----

  function DecimalAt(s: string, lo: nat, hi: nat): Option<nat>
    requires lo <= hi <= |s|
  {
    if IsNumeral(s[lo..hi], 10) then Some(NumeralValue(s[lo..hi], 10)) else None
  }

  lemma PaddedAt(s: string, lo: nat, hi: nat, n: nat)
    requires lo < hi <= |s|
    requires s[lo..hi] == Padded(n, hi - lo) && n < Pow10(hi - lo)
    ensures DecimalAt(s, lo, hi) == Some(n)
  {
    PaddedRoundTrip(n, hi - lo);
  }

  function PrintDate(year: nat, month: nat, day: nat): (s: string)
    ensures |s| == 10
  {
    Padded(year, 4) + "-" + Padded(month, 2) + "-" + Padded(day, 2)
  }

  /** The three numbers of a date text; whether they name a real day is for the caller to say. */
  function ReadDate(s: string): Option<(nat, nat, nat)>
  {
    if |s| != 10 || s[4] != '-' || s[7] != '-' then None
    else
      match (DecimalAt(s, 0, 4), DecimalAt(s, 5, 7), DecimalAt(s, 8, 10))
      case (Some(y), Some(m), Some(d)) => Some((y, m, d))
      case _ => None
  }

  lemma PowersOfTen()
    ensures Pow10(2) == 100 && Pow10(3) == 1000 && Pow10(4) == 10000
  {
    assert Pow10(1) == 10;
    assert Pow10(2) == 100;
    assert Pow10(3) == 1000;
  }

  lemma DateRoundTrip(year: nat, month: nat, day: nat)
    requires year < 10000 && month < 100 && day < 100
    ensures ReadDate(PrintDate(year, month, day)) == Some((year, month, day))
  {
    var a, b, c := Padded(year, 4), Padded(month, 2), Padded(day, 2);
    var s := a + "-" + b + "-" + c;
    assert s == PrintDate(year, month, day);
    PowersOfTen();
    assert s[0..4] == a && s[5..7] == b && s[8..10] == c;
    PaddedAt(s, 0, 4, year);
    PaddedAt(s, 5, 7, month);
    PaddedAt(s, 8, 10, day);
  }

  /** Only the printed form of a date is read as that date. */
  lemma ReadDatePrints(s: string)
    ensures ReadDate(s).Some? ==> s == PrintDate(ReadDate(s).value.0, ReadDate(s).value.1, ReadDate(s).value.2)
  {
    hide Padded, NumeralValue, Pow10;
    if ReadDate(s).Some? {
      NumeralPadded(s[0..4]);
      NumeralPadded(s[5..7]);
      NumeralPadded(s[8..10]);
      assert s == s[0..4] + [s[4]] + s[5..7] + [s[7]] + s[8..10];
    }
  }

  // ----- split and join on one separator character -----

  function Split(s: string, sep: char): (parts: seq<string>)
    ensures |parts| >= 1
  {
    if s == "" then [""]
    else
      var rest := Split(s[1..], sep);
      if s[0] == sep then [""] + rest else [[s[0]] + rest[0]] + rest[1..]
  }

  function Join(parts: seq<string>, sep: char): string
  {
    if |parts| == 0 then ""
    else if |parts| == 1 then parts[0]
    else parts[0] + [sep] + Join(parts[1..], sep)
  }

  lemma {:induction false} SplitPlain(s: string, sep: char)
    requires sep !in s
    ensures Split(s, sep) == [s]
  {
    if s != "" {
      assert s[0] in s;
      assert forall c :: c in s[1..] ==> c in s;
      SplitPlain(s[1..], sep);
      assert s == [s[0]] + s[1..];
    }
  }

  lemma {:induction false} SplitFirst(head: string, tail: string, sep: char)
    requires sep !in head
    ensures Split(head + [sep] + tail, sep) == [head] + Split(tail, sep)
  {
    var s := head + [sep] + tail;
    if head == "" {
      assert s[1..] == tail;
    } else {
      assert forall c :: c in head[1..] ==> c in head;
      SplitFirst(head[1..], tail, sep);
      assert s[1..] == head[1..] + [sep] + tail;
      assert s[0] == head[0] && head[0] in head;
      var rest := Split(s[1..], sep);
      assert rest[0] == head[1..] && rest[1..] == Split(tail, sep);
      assert [head[0]] + head[1..] == head;
    }
  }

  /** Splitting a joined list of separator-free parts gives the parts back. */
  lemma {:induction false} SplitJoin(parts: seq<string>, sep: char)
    requires |parts| >= 1
    requires forall i :: 0 <= i < |parts| ==> sep !in parts[i]
    ensures Split(Join(parts, sep), sep) == parts
  {
    if |parts| == 1 {
      SplitPlain(parts[0], sep);
    } else {
      SplitJoin(parts[1..], sep);
      SplitFirst(parts[0], Join(parts[1..], sep), sep);
    }
  }

  lemma {:induction false} JoinChars(parts: seq<string>, sep: char, c: char)
    requires forall i :: 0 <= i < |parts| ==> c !in parts[i]
    requires c != sep
    ensures c !in Join(parts, sep)
  {
    if |parts| > 1 {
      JoinChars(parts[1..], sep, c);
    }
  }
}
