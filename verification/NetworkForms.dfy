/**
 The other written forms of an IPv6 address (section 2.2 of RFC 4291): a run of zero groups as "::", and the last two
 groups as a dotted IPv4 address. Each parses to the address it abbreviates.
 */
module NetworkForms {
  import opened Wrappers
  import opened Text
  import opened Arithmetic
  import opened NetworkPolicy

  // ----- "::" -----

  lemma {:induction false} FirstDouble(h: string, t: string)
    requires FindDouble(h) == None && (h == "" || h[|h| - 1] != ':')
    ensures FindDouble(h + "::" + t) == Some(|h|)
  {
    var s := h + "::" + t;
    if h == "" {
      assert s[0] == ':' && s[1] == ':';
    } else {
      var rest := h[1..];
      assert s[1..] == rest + "::" + t;
      assert FindDouble(rest) == None;
      FirstDouble(rest, t);
      if |h| == 1 {
        assert s[0] == h[0];
      } else {
        assert s[0] == h[0] && s[1] == h[1];
      }
    }
  }

  /** Groups that join and split cleanly. */
  predicate PlainGroups(parts: seq<string>) {
    forall i :: 0 <= i < |parts| ==>
      IsGroup(parts[i]) && parts[i] != "" && ':' !in parts[i] && '%' !in parts[i] && '/' !in parts[i] && '.' !in parts[i]
  }

  lemma {:induction false} JoinLast(parts: seq<string>)
    requires PlainGroups(parts) && parts != []
    ensures Join(parts, ':') != "" && Join(parts, ':')[|Join(parts, ':')| - 1] != ':'
  {
    hide IsGroup;
    if |parts| == 1 {
      assert parts[0][|parts[0]| - 1] in parts[0];
    } else {
      JoinLast(parts[1..]);
    }
  }

  /** A joined list of groups, possibly none: its parts, and no character of another syntax. */
  lemma JoinedGroups(parts: seq<string>)
    requires PlainGroups(parts)
    ensures var s := Join(parts, ':');
            && PartsOf(s) == parts && FindDouble(s) == None && (s == "" || s[|s| - 1] != ':') && '%' !in s && '.' !in s && '/' !in s
  {
    hide IsGroup, Split, FindDouble, Join;
    JoinChars(parts, ':', '%');
    JoinChars(parts, ':', '.');
    JoinChars(parts, ':', '/');
    if parts == [] {
      NothingJoined();
    } else {
      SplitJoin(parts, ':');
      NoDouble(parts);
      JoinLast(parts);
    }
  }

  lemma NothingJoined()
    ensures Join([], ':') == "" && FindDouble("") == None
  {
  }

  /** The eight groups of a text with "::". */
  lemma GroupsAround(head: seq<string>, tail: seq<string>)
    requires PlainGroups(head) && PlainGroups(tail) && |head| + |tail| <= 7
    ensures var s := Join(head, ':') + "::" + Join(tail, ':');
            && IsColonText(s) && Groups(s) == head + seq(8 - |head| - |tail|, _ => "0") + tail
            && '%' !in s && '.' !in s && '/' !in s
  {
    hide IsGroup, FindDouble, PartsOf, Join;
    JoinedGroups(head);
    JoinedGroups(tail);
    var h, t := Join(head, ':'), Join(tail, ':');
    FirstDouble(h, t);
    var s := h + "::" + t;
    assert s[..|h|] == h && s[|h| + 2..] == t;
    NoCharAround(h, t, '%');
    NoCharAround(h, t, '.');
    NoCharAround(h, t, '/');
  }

  lemma NoCharAround(h: string, t: string, c: char)
    requires c != ':' && c !in h && c !in t
    ensures c !in h + "::" + t
  {
  }

  lemma ZeroNumeral()
    ensures ValueOf("0", 16) == 0 && IsGroup("0")
  {
    assert "0"[..0] == "";
    assert DigitValue('0') == 0;
  }

  lemma NotDotted(s: string)
    requires '.' !in s
    ensures !IsDotted(s)
  {
    SplitPlain(s, '.');
  }

  /** The address text with groups i to j written as "::". */
  function Compressed(v: nat, i: nat, j: nat): string
    requires i <= j <= 8
  {
    var parts := Numerals(GroupsOf(v), 16);
    Join(parts[..i], ':') + "::" + Join(parts[j..], ':')
  }

  predicate ZeroRun(v: nat, i: nat, j: nat)
    requires i <= j <= 8
  {
    forall k :: i <= k < j ==> GroupsOf(v)[k] == 0
  }

  lemma CompressedGroups(v: nat, i: nat, j: nat)
    requires v < Pow2(128) && i < j <= 8 && ZeroRun(v, i, j)
    ensures var s := Compressed(v, i, j);
            && IsColonText(s) && Compose(NumeralValues(Groups(s), 16), 16) == v && '%' !in s && '.' !in s && '/' !in s
  {
    hide Numeral, NumeralValue, Shr, Low, Compose, Join, Split, FindDouble, Fields, IsGroup, Pow2, ValueOf, IsColonText, Groups;
    GroupParts(v);
    var parts := Numerals(GroupsOf(v), 16);
    var head, tail := parts[..i], parts[j..];
    assert PlainGroups(head) && PlainGroups(tail);
    GroupsAround(head, tail);
    var groups := Groups(Compressed(v, i, j));
    ZeroNumeral();
    forall k | 0 <= k < 8 ensures NumeralValues(groups, 16)[k] == GroupsOf(v)[k] {
      if i <= k < j {
        assert groups[k] == "0";
      } else {
        assert groups[k] == parts[k];
      }
    }
    assert NumeralValues(groups, 16) == GroupsOf(v);
    GroupsCompose(v);
  }

  /** Whatever run of zero groups is written as "::", the text parses to the same address. */
  lemma CompressedParses(v: nat, i: nat, j: nat)
    requires v < Pow2(128) && i < j <= 8 && ZeroRun(v, i, j)
    ensures ParseAddress(Compressed(v, i, j)) == Some(Address(V6, v))
  {
    hide Compressed, ZeroRun, IsColonText, Groups, Compose, NumeralValues, IsDotted, Pow2;
    CompressedGroups(v, i, j);
    NotDotted(Compressed(v, i, j));
  }

  // ----- a dotted tail -----

  lemma {:induction false} LastColonAt(h: string, t: string)
    requires ':' !in t
    ensures LastColon(h + ":" + t) == Some(|h|)
  {
    var s := h + ":" + t;
    if t == "" {
      assert s[|s| - 1] == ':';
    } else {
      var init := t[..|t| - 1];
      assert s[..|s| - 1] == h + ":" + init;
      assert s[|s| - 1] == t[|t| - 1] && t[|t| - 1] in t;
      assert forall c :: c in init ==> c in t;
      LastColonAt(h, init);
    }
  }

  /** The two groups a dotted tail stands for are the last two groups of the whole address. */
  lemma TailGroups(v: nat)
    ensures Shr(Low(v, 32), 16) == Low(Shr(v, 16), 16) && Low(Low(v, 32), 16) == Low(Shr(v, 0), 16)
  {
    hide Pow2, Low, Shr;
    var high, w := Shr(v, 32), Low(v, 32);
    var a, b := Shr(w, 16), Low(w, 16);
    ShrNone(v);
    ShrHigh(high, w, 32, 16);
    ShiftUnique(Shl(high, 16) + a, high, a, 16);
    ShiftTwice(high);
    AddShifted(Shl(high, 16), a, 16);
    ShiftUnique(v, Shl(high, 16) + a, b, 16);
  }

  lemma ShiftTwice(h: nat)
    ensures Shl(Shl(h, 16), 16) == Shl(h, 32)
  {
    hide Pow2;
    Pow2Sum(16, 16);
    var p := Pow2(16);
    assert h * (p * p) == (h * p) * p;
  }

  lemma AddShifted(x: nat, y: nat, k: nat)
    ensures (x + y) * Pow2(k) == Shl(x, k) + Shl(y, k)
  {
    hide Pow2;
  }

  lemma {:induction false} JoinTwoMore(parts: seq<string>, a: string, b: string)
    requires parts != []
    ensures Join(parts + [a] + [b], ':') == Join(parts, ':') + ":" + a + ":" + b
  {
    var all := parts + [a] + [b];
    if |parts| == 1 {
      assert all == [parts[0], a, b];
      assert [a, b][1..] == [b] && Join([b], ':') == b;
      assert Join([a, b], ':') == a + [':'] + b;
      assert all[1..] == [a, b];
      assert Join(all, ':') == parts[0] + [':'] + Join([a, b], ':');
      assert parts[0] + [':'] + (a + [':'] + b) == parts[0] + ":" + a + ":" + b;
    } else {
      JoinTwoMore(parts[1..], a, b);
      assert all[1..] == parts[1..] + [a] + [b];
      var rest := Join(parts[1..], ':');
      assert parts[0] + [':'] + (rest + ":" + a + ":" + b) == parts[0] + [':'] + rest + ":" + a + ":" + b;
    }
  }

  lemma MixedNotDotted(h: string, t: string)
    ensures !IsDotted(h + ":" + t)
  {
    var s := h + ":" + t;
    assert s[|h|] == ':';
    NotOctet(s);
  }

  /** A text with a colon is no dotted address. */
  lemma NotOctet(s: string)
    requires ':' in s
    ensures !IsDotted(s)
  {
    hide IsOctet;
    PartWithColon(s);
    var k :| 0 <= k < |Split(s, '.')| && ':' in Split(s, '.')[k];
    ColonNoOctet(Split(s, '.')[k]);
  }

  lemma ColonNoOctet(p: string)
    requires ':' in p
    ensures !IsOctet(p)
  {
    var i :| 0 <= i < |p| && p[i] == ':';
    assert DigitValue(p[i]) == 16;
  }

  lemma {:induction false} PartWithColon(s: string)
    requires ':' in s
    ensures exists k :: 0 <= k < |Split(s, '.')| && ':' in Split(s, '.')[k]
  {
    var rest := Split(s[1..], '.');
    var all := Split(s, '.');
    if s[0] == ':' {
      assert all[0] == [s[0]] + rest[0];
    } else {
      assert s == [s[0]] + s[1..];
      PartWithColon(s[1..]);
      var k :| 0 <= k < |rest| && ':' in rest[k];
      if s[0] == '.' {
        assert all[k + 1] == rest[k];
      } else if k == 0 {
        assert all[0] == [s[0]] + rest[0];
      } else {
        assert all[k] == rest[1..][k - 1] == rest[k];
      }
    }
  }

  /** The last 32 bits written as a dotted address parse to the same address. */
  lemma MixedParses(v: nat)
    requires v < Pow2(128)
    ensures var parts := Numerals(GroupsOf(v), 16);
            ParseAddress(Join(parts[..6], ':') + ":" + FormatAddress(Address(V4, Low(v, 32)))) == Some(Address(V6, v))
  {
    hide Numeral, Shr, Low, Compose, Join, Split, FindDouble, Fields, IsGroup, Pow2, IsColonText, Groups, IsDotted, FormatAddress, DottedValue, LastColon;
    GroupParts(v);
    var parts := Numerals(GroupsOf(v), 16);
    var h, t, w := Join(parts[..6], ':'), FormatAddress(Address(V4, Low(v, 32))), Low(v, 32);
    var s := h + ":" + t;
    assert PlainGroups(parts[..6]);
    JoinedGroups(parts[..6]);
    OctetsText(w);
    LastColonAt(h, t);
    MixedNotDotted(h, t);
    assert s[|h| + 1..] == t && s[..|h|] == h;
    DotInside(t);
    var rewritten := h + ":" + Numeral(Shr(w, 16), 16) + ":" + Numeral(Low(w, 16), 16);
    assert WithoutDottedTail(s) == Some(rewritten);
    LastTwo(v);
    JoinTwoMore(parts[..6], parts[6], parts[7]);
    assert parts == parts[..6] + [parts[6]] + [parts[7]];
    GroupsText(v);
    FormatSix(v);
  }

  lemma DotInside(t: string)
    requires IsDotted(t)
    ensures '.' in t
  {
    if '.' !in t {
      SplitPlain(t, '.');
    }
  }

  lemma LastTwo(v: nat)
    ensures var parts := Numerals(GroupsOf(v), 16);
            parts[6] == Numeral(Shr(Low(v, 32), 16), 16) && parts[7] == Numeral(Low(Low(v, 32), 16), 16)
  {
    hide Numeral, Shr, Low;
    TailGroups(v);
  }

  lemma FormatSix(v: nat)
    ensures FormatAddress(Address(V6, v)) == Join(Numerals(GroupsOf(v), 16), ':')
  {
  }

  // ----- both -----

  /** "::" and a dotted tail together, as in "::ffff:1.2.3.4". */
  function CompressedMixed(v: nat, i: nat, j: nat): string
    requires i <= j <= 6
  {
    var parts := Numerals(GroupsOf(v), 16);
    Join(parts[..i], ':') + "::" + (if j == 6 then "" else Join(parts[j..6], ':') + ":") + FormatAddress(Address(V4, Low(v, 32)))
  }

  /** Everything before the dotted tail's colon. */
  function BeforeTail(v: nat, i: nat, j: nat): string
    requires i <= j <= 6
  {
    var parts := Numerals(GroupsOf(v), 16);
    Join(parts[..i], ':') + if j == 6 then ":" else "::" + Join(parts[j..6], ':')
  }

  lemma TailSplits(v: nat, i: nat, j: nat)
    requires i <= j <= 6
    ensures CompressedMixed(v, i, j) == BeforeTail(v, i, j) + ":" + FormatAddress(Address(V4, Low(v, 32)))
  {
    hide Numeral, Join, FormatAddress, Low, Fields;
  }

  /** With the tail written as its two groups, the text is the compressed one. */
  lemma TailRewritten(v: nat, i: nat, j: nat)
    requires i <= j <= 6
    ensures var w := Low(v, 32);
            BeforeTail(v, i, j) + ":" + Numeral(Shr(w, 16), 16) + ":" + Numeral(Low(w, 16), 16) == Compressed(v, i, j)
  {
    hide Numeral, Join, Low, Shr, Fields;
    var parts, w := Numerals(GroupsOf(v), 16), Low(v, 32);
    var a, b := Numeral(Shr(w, 16), 16), Numeral(Low(w, 16), 16);
    LastTwo(v);
    if j == 6 {
      assert parts[6..] == [a, b];
      JoinPair(a, b);
    } else {
      assert parts[j..] == parts[j..6] + [a] + [b];
      JoinTwoMore(parts[j..6], a, b);
    }
  }

  lemma JoinPair(a: string, b: string)
    ensures Join([a, b], ':') == a + ":" + b
  {
    assert [a, b][1..] == [b] && Join([b], ':') == b;
  }

  lemma NoPercent(v: nat, i: nat, j: nat)
    requires v < Pow2(128) && i <= j <= 6
    ensures '%' !in BeforeTail(v, i, j)
  {
    hide Numeral, Low, Shr, Fields, IsGroup, Join, Pow2;
    GroupParts(v);
    var parts := Numerals(GroupsOf(v), 16);
    assert PlainGroups(parts[..i]) && PlainGroups(parts[j..6]);
    JoinedGroups(parts[..i]);
    JoinedGroups(parts[j..6]);
  }

  /** The usual form of a mapped address, and any other mix of the two abbreviations, parses to the same address. */
  lemma CompressedMixedParses(v: nat, i: nat, j: nat)
    requires v < Pow2(128) && i < j <= 6 && ZeroRun(v, i, j)
    ensures ParseAddress(CompressedMixed(v, i, j)) == Some(Address(V6, v))
  {
    hide Compressed, CompressedMixed, BeforeTail, ZeroRun, IsColonText, Groups, Compose, NumeralValues, IsDotted, Pow2, FormatAddress;
    hide Numeral, Low, Shr, DottedValue, LastColon;
    var s, h, t, w := CompressedMixed(v, i, j), BeforeTail(v, i, j), FormatAddress(Address(V4, Low(v, 32))), Low(v, 32);
    TailSplits(v, i, j);
    OctetsText(w);
    LastColonAt(h, t);
    MixedNotDotted(h, t);
    assert s[|h| + 1..] == t && s[..|h|] == h;
    DotInside(t);
    NoPercent(v, i, j);
    TailRewritten(v, i, j);
    CompressedGroups(v, i, j);
    assert WithoutDottedTail(s) == Some(Compressed(v, i, j));
  }
}
