/**
 The CSV form of a row, the spreadsheet-formula guard, and an independent reader after section 2 of RFC 4180 in which
 a bare LF also ends a record.
 */
module Csv {
  import opened Wrappers
  import opened Text

  // ----- the writer -----

  predicate StartsFormula(v: string) {
    var t := TrimStart(v);
    t != "" && (t[0] == '=' || t[0] == '+' || t[0] == '-' || t[0] == '@')
  }

  /** A value a spreadsheet would take for a formula gets an apostrophe in front. */
  function Sanitize(v: string): string {
    if StartsFormula(v) then "'" + v else v
  }

  function DoubleQuotes(v: string): string {
    if v == "" then "" else (if v[0] == '"' then "\"\"" else [v[0]]) + DoubleQuotes(v[1..])
  }

  predicate IsSpecial(c: char) {
    c == '"' || c == ',' || c == '\r' || c == '\n'
  }

  predicate HasSpecial(v: string) {
    exists i :: 0 <= i < |v| && IsSpecial(v[i])
  }

  function Escape(v: string): string {
    var n := Sanitize(v);
    if n != v || HasSpecial(n) then "\"" + DoubleQuotes(n) + "\"" else DoubleQuotes(n)
  }

  function EscapeAll(fields: seq<string>): (r: seq<string>)
    ensures |r| == |fields|
  {
    seq(|fields|, i requires 0 <= i < |fields| => Escape(fields[i]))
  }

  function SanitizeAll(fields: seq<string>): (r: seq<string>)
    ensures |r| == |fields|
  {
    seq(|fields|, i requires 0 <= i < |fields| => Sanitize(fields[i]))
  }

  function SerializeRow(fields: seq<string>): string {
    Join(EscapeAll(fields), ',')
  }

  // ----- the reader -----

  /** What was read, and what is left. */
  datatype Parsed<T> = Parsed(value: T, rest: string) | Malformed

  /** Up to a comma or a line end; a quote may not stand inside. */
  function ReadPlain(s: string): Parsed<string> {
    if s == "" || s[0] == ',' || s[0] == '\r' || s[0] == '\n' then Parsed("", s)
    else if s[0] == '"' then Malformed
    else
      match ReadPlain(s[1..])
      case Malformed => Malformed
      case Parsed(v, rest) => Parsed([s[0]] + v, rest)
  }

  /** Up to the closing quote; two quotes stand for one. */
  function ReadQuoted(s: string): Parsed<string> {
    if s == "" then Malformed
    else if s[0] != '"' then
      (match ReadQuoted(s[1..])
       case Malformed => Malformed
       case Parsed(v, rest) => Parsed([s[0]] + v, rest))
    else if |s| > 1 && s[1] == '"' then
      (match ReadQuoted(s[2..])
       case Malformed => Malformed
       case Parsed(v, rest) => Parsed(['"'] + v, rest))
    else Parsed("", s[1..])
  }

  function ReadField(s: string): Parsed<string> {
    if s != "" && s[0] == '"' then ReadQuoted(s[1..]) else ReadPlain(s)
  }

  lemma {:induction false} PlainShrinks(s: string)
    ensures ReadPlain(s).Parsed? ==> |ReadPlain(s).rest| <= |s|
  {
    if s != "" && !IsSpecial(s[0]) {
      PlainShrinks(s[1..]);
    }
  }

  lemma {:induction false} QuotedShrinks(s: string)
    ensures ReadQuoted(s).Parsed? ==> |ReadQuoted(s).rest| < |s|
    decreases |s|
  {
    if s != "" && s[0] != '"' {
      QuotedShrinks(s[1..]);
    } else if |s| > 1 && s[1] == '"' {
      QuotedShrinks(s[2..]);
    }
  }

  lemma FieldShrinks(s: string)
    ensures ReadField(s).Parsed? ==> |ReadField(s).rest| <= |s|
  {
    PlainShrinks(s);
    if s != "" {
      QuotedShrinks(s[1..]);
    }
  }

  /** Fields up to the end of the line or of the file. */
  function ReadRecord(s: string): (r: Parsed<seq<string>>)
    ensures r.Parsed? ==> |r.rest| <= |s| && (s != "" ==> |r.rest| < |s|)
    decreases |s|
  {
    FieldShrinks(s);
    match ReadField(s)
    case Malformed => Malformed
    case Parsed(v, rest) =>
      if rest == "" then Parsed([v], "")
      else if rest[0] == '\n' then Parsed([v], rest[1..])
      else if |rest| > 1 && rest[0] == '\r' && rest[1] == '\n' then Parsed([v], rest[2..])
      else if rest[0] != ',' then Malformed
      else
        match ReadRecord(rest[1..])
        case Malformed => Malformed
        case Parsed(more, left) => Parsed([v] + more, left)
  }

  function ReadFile(s: string): Option<seq<seq<string>>>
    decreases |s|
  {
    if s == "" then Some([])
    else
      match ReadRecord(s)
      case Malformed => None
      case Parsed(record, rest) => match ReadFile(rest) case None => None case Some(more) => Some([record] + more)
  }

  // ----- reading what was written -----

  predicate EndsField(rest: string) {
    rest != "" && (rest[0] == ',' || rest[0] == '\n')
  }

  lemma {:induction false} ReadPlainWritten(v: string, rest: string)
    requires !HasSpecial(v) && EndsField(rest)
    ensures DoubleQuotes(v) == v
    ensures ReadPlain(v + rest) == Parsed(v, rest)
  {
    if v == "" {
      assert v + rest == rest;
    } else {
      assert !IsSpecial(v[0]);
      assert !HasSpecial(v[1..]) by {
        forall i | 0 <= i < |v[1..]| ensures !IsSpecial(v[1..][i]) {
          assert v[1..][i] == v[i + 1];
        }
      }
      ReadPlainWritten(v[1..], rest);
      assert (v + rest)[1..] == v[1..] + rest;
      assert [v[0]] + v[1..] == v;
    }
  }

  lemma {:induction false} ReadQuotedWritten(v: string, rest: string)
    requires EndsField(rest)
    ensures ReadQuoted(DoubleQuotes(v) + "\"" + rest) == Parsed(v, rest)
  {
    var s := DoubleQuotes(v) + "\"" + rest;
    if v == "" {
      assert s == "\"" + rest;
      assert s[1..] == rest;
    } else {
      ReadQuotedWritten(v[1..], rest);
      var tail := DoubleQuotes(v[1..]) + "\"" + rest;
      assert [v[0]] + v[1..] == v;
      if v[0] == '"' {
        assert s == "\"\"" + tail;
        assert s[2..] == tail;
      } else {
        assert s == [v[0]] + tail;
        assert s[1..] == tail;
      }
    }
  }

  /** A written field reads back as its sanitised value, and reading stops where the field stops. */
  lemma ReadEscaped(v: string, rest: string)
    requires EndsField(rest)
    ensures ReadField(Escape(v) + rest) == Parsed(Sanitize(v), rest)
  {
    hide Sanitize, ReadQuoted, ReadPlain;
    var n := Sanitize(v);
    if n != v || HasSpecial(n) {
      ReadQuotedWritten(n, rest);
      var body := DoubleQuotes(n) + "\"" + rest;
      assert Escape(v) + rest == "\"" + body;
      assert ("\"" + body)[1..] == body;
    } else {
      ReadPlainWritten(n, rest);
      if n != "" {
        assert !IsSpecial(n[0]);
      }
    }
  }

  /** A written line reads back as its sanitised fields. */
  lemma {:induction false} ReadRowWritten(fields: seq<string>, rest: string)
    requires fields != []
    ensures ReadRecord(SerializeRow(fields) + "\n" + rest) == Parsed(SanitizeAll(fields), rest)
    decreases |fields|
  {
    hide Escape, Sanitize, ReadField;
    var v := fields[0];
    var s := SerializeRow(fields) + "\n" + rest;
    if |fields| == 1 {
      assert s == Escape(v) + ("\n" + rest);
      ReadEscaped(v, "\n" + rest);
      assert ("\n" + rest)[1..] == rest;
      assert SanitizeAll(fields) == [Sanitize(v)];
    } else {
      var more := fields[1..];
      var tail := SerializeRow(more) + "\n" + rest;
      assert EscapeAll(fields)[1..] == EscapeAll(more);
      assert s == Escape(v) + ("," + tail);
      ReadEscaped(v, "," + tail);
      assert ("," + tail)[1..] == tail;
      ReadRowWritten(more, rest);
      assert SanitizeAll(fields) == [Sanitize(v)] + SanitizeAll(more);
    }
  }

  /** The text of a list of records: each line ended by LF. */
  function Lines(records: seq<seq<string>>): string {
    if records == [] then "" else SerializeRow(records[0]) + "\n" + Lines(records[1..])
  }

  function SanitizeRecords(records: seq<seq<string>>): (r: seq<seq<string>>)
    ensures |r| == |records|
  {
    seq(|records|, i requires 0 <= i < |records| => SanitizeAll(records[i]))
  }

  /** Reading a written file gives every record back, sanitised, and nothing else. */
  lemma {:induction false} CsvRoundTrip(records: seq<seq<string>>)
    requires forall i :: 0 <= i < |records| ==> records[i] != []
    ensures ReadFile(Lines(records)) == Some(SanitizeRecords(records))
  {
    hide SerializeRow, ReadRecord, SanitizeAll;
    if records != [] {
      ReadRowWritten(records[0], Lines(records[1..]));
      CsvRoundTrip(records[1..]);
      assert SanitizeRecords(records) == [SanitizeAll(records[0])] + SanitizeRecords(records[1..]);
    }
  }

  /** No field of the file starts a formula, and a value that starts none is kept as it is. */
  lemma SanitizedIsSafe(v: string)
    ensures !StartsFormula(Sanitize(v))
    ensures Sanitize(v) == v <==> !StartsFormula(v)
  {
    if StartsFormula(v) {
      var s := "'" + v;
      assert s[0] == '\'';
      assert TrimStart(s) == s;
    }
  }

  // ----- amounts -----

  function FormatAmount(cents: int): string {
    var a := if cents < 0 then -cents else cents;
    (if cents < 0 then "-" else "") + Numeral(a / 100, 10) + "." + Padded(a % 100, 2)
  }

  function ReadAmount(s: string): Option<int> {
    var negative := s != "" && s[0] == '-';
    var u := if negative then s[1..] else s;
    if |u| < 4 || u[|u| - 3] != '.' then None
    else
      match (DecimalAt(u, 0, |u| - 3), DecimalAt(u, |u| - 2, |u|))
      case (Some(w), Some(f)) =>
        var cents: int := w * 100 + f;
        Some(if negative then -cents else cents)
      case _ => None
  }

  /** An exported amount reads back to the cent. */
  lemma AmountRoundTrip(cents: int)
    ensures ReadAmount(FormatAmount(cents)) == Some(cents)
  {
    hide Numeral, Padded, NumeralValue;
    var a: nat := if cents < 0 then -cents else cents;
    var w, f := Numeral(a / 100, 10), Padded(a % 100, 2);
    NumeralRoundTrip(a / 100, 10);
    PowersOfTen();
    var u := w + "." + f;
    var s := FormatAmount(cents);
    if cents < 0 {
      assert s == "-" + u;
      assert s[1..] == u;
    } else {
      assert s == u;
      assert DigitValue(w[0]) < 10;
    }
    assert u[0..|u| - 3] == w && u[|u| - 2..|u|] == f;
    PaddedAt(u, |u| - 2, |u|, a % 100);
  }
}
