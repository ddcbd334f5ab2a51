/**
 Exactly which texts are addresses and networks, by the ways of writing them: dotted decimals, eight groups, groups around
 one "::", a dotted tail, and a prefix length after a slash. Nothing else parses.
 */
module NetworkGrammar {
  import opened Wrappers
  import opened Text
  import opened Arithmetic
  import opened NetworkPolicy
  import opened NetworkForms

  // ----- splitting, joining and numerals, backwards -----

  /** Joining the parts of a text gives it back, and no part holds the separator. */
  lemma {:induction false} JoinSplit(s: string, sep: char)
    ensures Join(Split(s, sep), sep) == s
    ensures forall i :: 0 <= i < |Split(s, sep)| ==> sep !in Split(s, sep)[i]
  {
    if s != "" {
      JoinSplit(s[1..], sep);
      var rest := Split(s[1..], sep);
      assert s == [s[0]] + s[1..];
      if s[0] == sep {
        assert ([""] + rest)[1..] == rest;
      } else {
        var parts := [[s[0]] + rest[0]] + rest[1..];
        assert parts[1..] == rest[1..];
      }
    }
  }

  /** A decimal without a leading zero, 0 itself included, is how its value is written. */
  lemma CanonicalNumeral(s: string)
    requires IsNumeral(s, 10) && (|s| > 1 ==> s[0] != '0')
    ensures Numeral(NumeralValue(s, 10), 10) == s
  {
    hide Numeral, DigitChar, DigitValue;
    if s[0] == '0' {
      assert s == "0" && s[..0] == "";
      OneDigit(0);
      DigitRoundTrip(0);
      ZeroChar();
    } else {
      NumeralIsOnly(s);
    }
  }

  lemma ZeroChar()
    ensures DigitChar(0) == '0'
  {
  }

  // ----- dotted addresses -----

  lemma ComposeLast(parts: seq<nat>, k: nat)
    requires parts != [] && parts[|parts| - 1] < Pow2(k)
    ensures var v := Compose(parts, k);
            Shr(v, k) == Compose(parts[..|parts| - 1], k) && Low(v, k) == parts[|parts| - 1]
  {
    hide Shr, Low, Pow2;
    ShiftUnique(Compose(parts, k), Compose(parts[..|parts| - 1], k), parts[|parts| - 1], k);
  }

  /** Four bytes put together come apart again, and stay below 2 to the 32nd. */
  lemma FourBytes(parts: seq<nat>)
    requires |parts| == 4 && forall i :: 0 <= i < 4 ==> parts[i] <= 255
    ensures OctetsOf(Compose(parts, 8)) == parts && Compose(parts, 8) < Pow2(32)
  {
    hide Shr, Low, Pow2, Compose;
    PowerValues();
    var v := Compose(parts, 8);
    ComposeLast(parts, 8);
    ComposeLast(parts[..3], 8);
    ComposeLast(parts[..2], 8);
    ComposeLast(parts[..1], 8);
    assert parts[..3][..2] == parts[..2] && parts[..2][..1] == parts[..1] && parts[..1][..0] == [];
    ShrNone(v);
    ShrShr(v, 8, 8);
    ShrShr(v, 16, 8);
    ShrShr(v, 24, 8);
    assert Compose([], 8) == 0 by { NothingComposed(); }
    Below32(v);
  }

  lemma NothingComposed()
    ensures Compose([], 8) == 0
  {
  }

  lemma Below32(v: nat)
    requires Shr(v, 32) == 0
    ensures v < Pow2(32)
  {
    hide Pow2;
    assert 0 * Pow2(32) + Low(v, 32) == v;
  }

  /** A dotted text is an IPv4 address exactly in its printed form: four decimals to 255 without leading zeros. */
  lemma DottedExactly(s: string, v: nat)
    ensures IsDotted(s) && DottedValue(s) == v <==> v < Pow2(32) && s == FormatAddress(Address(V4, v))
  {
    hide Numeral, NumeralValue, Compose, Join, Split, Pow2, OctetsOf, Fields;
    if IsDotted(s) {
      var parts := Split(s, '.');
      var values := NumeralValues(parts, 10);
      JoinSplit(s, '.');
      forall i | 0 <= i < 4 ensures Numeral(values[i], 10) == parts[i] && values[i] <= 255 {
        CanonicalNumeral(parts[i]);
      }
      FourBytes(values);
      assert Numerals(values, 10) == parts;
    }
    if v < Pow2(32) {
      OctetsText(v);
    }
  }

  // ----- groups -----

  lemma GroupIsPlain(s: string)
    ensures IsGroup(s) ==> s != "" && ':' !in s && '%' !in s && '/' !in s && '.' !in s
  {
    if IsGroup(s) {
      forall c | c in s ensures c != ':' && c != '%' && c != '/' && c != '.' {
        var i :| 0 <= i < |s| && s[i] == c;
        assert DigitValue(s[i]) < 16;
      }
    }
  }

  lemma GroupsArePlain(parts: seq<string>)
    requires AreGroups(parts)
    ensures PlainGroups(parts)
  {
    hide IsGroup;
    forall i | 0 <= i < |parts|
      ensures parts[i] != "" && ':' !in parts[i] && '%' !in parts[i] && '/' !in parts[i] && '.' !in parts[i]
    {
      GroupIsPlain(parts[i]);
    }
  }

  lemma {:induction false} DoubleAt(s: string)
    ensures FindDouble(s).Some? ==> var i := FindDouble(s).value; s == s[..i] + "::" + s[i + 2..]
  {
    if |s| >= 2 && !(s[0] == ':' && s[1] == ':') {
      DoubleAt(s[1..]);
      if FindDouble(s).Some? {
        var i := FindDouble(s[1..]).value;
        assert s == [s[0]] + s[1..];
        assert s[..i + 1] == [s[0]] + s[1..][..i];
        assert s[i + 3..] == s[1..][i + 2..];
      }
    }
  }

  lemma PartsJoined(s: string)
    ensures Join(PartsOf(s), ':') == s
  {
    JoinSplit(s, ':');
  }

  /** Eight groups of one to four hexadecimal digits, with colons between. */
  predicate WrittenPlain(s: string, parts: seq<string>) {
    |parts| == 8 && AreGroups(parts) && s == Join(parts, ':')
  }

  /** At most seven groups, before and after one "::". */
  predicate WrittenShort(s: string, head: seq<string>, tail: seq<string>) {
    AreGroups(head) && AreGroups(tail) && |head| + |tail| <= 7 && s == Join(head, ':') + "::" + Join(tail, ':')
  }

  /** The groups a short form stands for. */
  function Filled(head: seq<string>, tail: seq<string>): seq<string>
    requires |head| + |tail| <= 8
  {
    head + seq(8 - |head| - |tail|, _ => "0") + tail
  }

  lemma PlainText(s: string, parts: seq<string>)
    requires WrittenPlain(s, parts)
    ensures IsColonText(s) && Groups(s) == parts && '%' !in s && '.' !in s && '/' !in s
  {
    hide IsGroup, Join, Split, FindDouble;
    GroupsArePlain(parts);
    JoinedGroups(parts);
  }

  lemma ShortText(s: string, head: seq<string>, tail: seq<string>)
    requires WrittenShort(s, head, tail)
    ensures IsColonText(s) && Groups(s) == Filled(head, tail) && '%' !in s && '.' !in s && '/' !in s
  {
    hide IsGroup, Join, Split, FindDouble, IsColonText, Groups;
    GroupsArePlain(head);
    GroupsArePlain(tail);
    GroupsAround(head, tail);
  }

  /** Group text is written in one of the two ways, and has the groups written. */
  lemma ColonTextExactly(s: string)
    ensures IsColonText(s) <==> (exists parts :: WrittenPlain(s, parts)) || (exists head, tail :: WrittenShort(s, head, tail))
    ensures IsColonText(s) ==> '%' !in s && '.' !in s && '/' !in s
  {
    hide IsGroup, Join, Split, FindDouble, Groups;
    if IsColonText(s) {
      match FindDouble(s) {
        case None =>
          PartsJoined(s);
          assert WrittenPlain(s, PartsOf(s));
          PlainText(s, PartsOf(s));
        case Some(i) =>
          DoubleAt(s);
          PartsJoined(s[..i]);
          PartsJoined(s[i + 2..]);
          assert WrittenShort(s, PartsOf(s[..i]), PartsOf(s[i + 2..]));
          ShortText(s, PartsOf(s[..i]), PartsOf(s[i + 2..]));
      }
    }
    if parts :| WrittenPlain(s, parts) {
      PlainText(s, parts);
    }
    if head, tail :| WrittenShort(s, head, tail) {
      ShortText(s, head, tail);
    }
  }

  /** A text without dots is an address exactly when it is written in groups, and then it is the address of those groups. */
  lemma GroupTextExactly(s: string)
    requires '.' !in s
    ensures ParseAddress(s).Some? <==> (exists parts :: WrittenPlain(s, parts)) || (exists head, tail :: WrittenShort(s, head, tail))
    ensures forall parts :: WrittenPlain(s, parts) ==> ParseAddress(s) == Some(Address(V6, Compose(NumeralValues(parts, 16), 16)))
    ensures forall head, tail :: WrittenShort(s, head, tail) ==>
              ParseAddress(s) == Some(Address(V6, Compose(NumeralValues(Filled(head, tail), 16), 16)))
  {
    hide IsDotted, IsColonText, Groups, WrittenPlain, Compose, NumeralValues, AreGroups, Join;
    NotDotted(s);
    ColonTextExactly(s);
    forall parts | WrittenPlain(s, parts) ensures ParseAddress(s) == Some(Address(V6, Compose(NumeralValues(parts, 16), 16))) {
      PlainText(s, parts);
    }
    forall head, tail | WrittenShort(s, head, tail)
      ensures ParseAddress(s) == Some(Address(V6, Compose(NumeralValues(Filled(head, tail), 16), 16)))
    {
      ShortText(s, head, tail);
    }
  }

  // ----- a dotted tail -----

  /** The last 32 bits as the two groups they are. */
  function TailGroupText(v: nat): string {
    Numeral(Shr(v, 16), 16) + ":" + Numeral(Low(v, 16), 16)
  }

  lemma TailPlain(v: nat)
    requires v < Pow2(32)
    ensures '.' !in TailGroupText(v) && '%' !in TailGroupText(v)
  {
    hide Numeral, Pow2, Shr, Low;
    PowerValues();
    ShrShr(v, 16, 16);
    ShrAll(v, 32);
    Below16(Shr(v, 16));
    NumeralText(Shr(v, 16), 16, 4);
    NumeralText(Low(v, 16), 16, 4);
  }

  lemma Below16(v: nat)
    requires Shr(v, 16) == 0
    ensures v < Pow2(16)
  {
    hide Pow2;
    assert 0 * Pow2(16) + Low(v, 16) == v;
  }

  lemma {:induction false} LastColonSplits(s: string)
    ensures LastColon(s).Some? ==> var i := LastColon(s).value; s == s[..i] + ":" + s[i + 1..] && ':' !in s[i + 1..]
  {
    if s != "" && s[|s| - 1] != ':' {
      LastColonSplits(s[..|s| - 1]);
      if LastColon(s).Some? {
        var i := LastColon(s).value;
        assert s == s[..|s| - 1] + [s[|s| - 1]];
        assert s[i + 1..] == s[..|s| - 1][i + 1..] + [s[|s| - 1]];
      }
    }
  }

  /** The text ends, after a colon, in the IPv4 address v, and what stands before holds no dot. */
  predicate EndsDotted(s: string, front: string, v: nat) {
    v < Pow2(32) && '.' !in front && s == front + ":" + FormatAddress(Address(V4, v))
  }

  lemma NoColonHead(front: string, t: string, c: char)
    ensures c in front + ":" + t <==> c in front || c == ':' || c in t
  {
  }

  lemma DottedTail(s: string, front: string, v: nat)
    requires EndsDotted(s, front, v)
    ensures ParseAddress(s) == ParseAddress(front + ":" + TailGroupText(v))
  {
    hide FormatAddress, Numeral, Shr, Low, Pow2, IsDotted, IsColonText, Groups, Compose, NumeralValues, LastColon, DottedValue;
    var t := FormatAddress(Address(V4, v));
    OctetsText(v);
    DotInside(t);
    LastColonAt(front, t);
    MixedNotDotted(front, t);
    assert s[|front| + 1..] == t && s[..|front|] == front;
    var r := front + ":" + TailGroupText(v);
    assert WithoutDottedTail(s) == Some(front + ":" + Numeral(Shr(v, 16), 16) + ":" + Numeral(Low(v, 16), 16));
    assert front + ":" + Numeral(Shr(v, 16), 16) + ":" + Numeral(Low(v, 16), 16) == r;
    TailPlain(v);
    NoColonHead(front, t, '%');
    NoColonHead(front, TailGroupText(v), '%');
    NoColonHead(front, TailGroupText(v), '.');
    NotDotted(r);
  }

  /** Any other text with a dot is an address exactly when it is IPv4, or ends so after a colon and is one with that tail in groups. */
  lemma DottedTextExactly(s: string, a: Address)
    requires '.' in s
    ensures ParseAddress(s) == Some(a)
            <==> || (a.family == V4 && a.value < Pow2(32) && s == FormatAddress(a))
                 || (exists front, v :: EndsDotted(s, front, v) && ParseAddress(front + ":" + TailGroupText(v)) == Some(a))
  {
    hide FormatAddress, Numeral, Shr, Low, Pow2, IsDotted, IsColonText, Groups, Compose, NumeralValues, LastColon, DottedValue, EndsDotted;
    hide TailGroupText, WithoutDottedTail;
    DottedExactly(s, a.value);
    if a == Address(V4, a.value) && a.value < Pow2(32) && s == FormatAddress(a) {
      OctetsText(a.value);
    }
    forall front, v | EndsDotted(s, front, v) ensures ParseAddress(s) == ParseAddress(front + ":" + TailGroupText(v)) {
      DottedTail(s, front, v);
    }
    if ParseAddress(s) == Some(a) && !IsDotted(s) {
      var front, v := TailOf(s);
    }
  }

  lemma TailOf(s: string) returns (front: string, v: nat)
    requires '.' in s && ParseAddress(s).Some? && !IsDotted(s)
    ensures EndsDotted(s, front, v)
  {
    hide FormatAddress, Numeral, Shr, Low, Pow2, IsDotted, IsColonText, Groups, Compose, NumeralValues, LastColon, DottedValue;
    LastColonSplits(s);
    var i := LastColon(s).value;
    front, v := s[..i], DottedValue(s[i + 1..]);
    DottedExactly(s[i + 1..], v);
    var r := front + ":" + TailGroupText(v);
    assert WithoutDottedTail(s).value == r;
    ColonTextExactly(r);
    NoColonHead(front, TailGroupText(v), '.');
  }

  // ----- networks -----

  /** No address text holds a slash. */
  lemma AddressNoSlash(s: string)
    ensures ParseAddress(s).Some? ==> '/' !in s
  {
    hide FormatAddress, Numeral, Shr, Low, Pow2, IsDotted, IsColonText, Groups, Compose, NumeralValues, LastColon, DottedValue, Join;
    if ParseAddress(s).Some? {
      if IsDotted(s) {
        DottedExactly(s, DottedValue(s));
        OctetsText(DottedValue(s));
      } else if '.' in s {
        var front, v := TailOf(s);
        OctetsText(v);
        DottedTail(s, front, v);
        var r := front + ":" + TailGroupText(v);
        TailPlain(v);
        NoColonHead(front, TailGroupText(v), '.');
        NoColonHead(front, TailGroupText(v), '/');
        NoColonHead(front, FormatAddress(Address(V4, v)), '/');
        NotDotted(r);
        ColonTextExactly(r);
      } else {
        ColonTextExactly(s);
      }
    }
  }

  /** A network text is an address text, a slash and a prefix length without leading zeros that the family allows. */
  lemma CidrExactly(s: string, n: Network)
    ensures RawCidr(s) == Some(n)
            <==> n.prefix <= Bits(n.family)
                 && exists t :: s == t + "/" + Numeral(n.prefix, 10) && ParseAddress(t) == Some(Address(n.family, n.value))
  {
    hide ParseAddress, Numeral, NumeralValue, Split, Join;
    if RawCidr(s) == Some(n) {
      var parts := Split(s, '/');
      JoinSplit(s, '/');
      JoinedPair(parts[0], parts[1]);
      assert parts == [parts[0], parts[1]];
      CanonicalNumeral(parts[1]);
      assert s == parts[0] + "/" + Numeral(n.prefix, 10);
    }
    if n.prefix <= Bits(n.family) {
      if t :| s == t + "/" + Numeral(n.prefix, 10) && ParseAddress(t) == Some(Address(n.family, n.value)) {
        PowerValues();
        NumeralText(n.prefix, 10, 3);
        AddressNoSlash(t);
        SplitFirst(t, Numeral(n.prefix, 10), '/');
        SplitPlain(Numeral(n.prefix, 10), '/');
        EmptyIsNoAddress();
      }
    }
  }

  lemma JoinedPair(a: string, b: string)
    ensures Join([a, b], '/') == a + "/" + b
  {
    assert [a, b][1..] == [b] && Join([b], '/') == b;
  }

  lemma EmptyIsNoAddress()
    ensures ParseAddress("").None?
  {
    SplitEmpty('.');
    assert FindDouble("") == None && PartsOf("") == [];
  }
}
