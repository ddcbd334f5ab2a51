/**
 Addresses and networks as text: parser, printer, normaliser and the two-family matcher of a credential's network
 policy (address text after sections 2.2 and 2.5.5.2 of RFC 4291, prefixes after section 3.1 of RFC 4632).
 */
module NetworkPolicy {
  import opened Wrappers
  import opened Text
  import opened Arithmetic

  datatype Family = V4 | V6

  datatype Address = Address(family: Family, value: nat)

  datatype Network = Network(family: Family, value: nat, prefix: nat)

  function Bits(f: Family): nat {
    if f == V4 then 32 else 128
  }

  predicate IsAddress(a: Address) {
    a.value < Pow2(Bits(a.family))
  }

  /** Most significant part first: `(value << k) | part` along the list. */
  function Compose(parts: seq<nat>, k: nat): nat {
    if parts == [] then 0 else Shl(Compose(parts[..|parts| - 1], k), k) + parts[|parts| - 1]
  }

  function ValueOf(s: string, base: nat): nat
    requires IsBase(base)
  {
    if IsNumeral(s, base) then NumeralValue(s, base) else 0
  }

  function NumeralValues(parts: seq<string>, base: nat): seq<nat>
    requires IsBase(base)
  {
    seq(|parts|, i requires 0 <= i < |parts| => ValueOf(parts[i], base))
  }

  // ----- which texts are addresses -----

  /** One decimal of a dotted address: up to three digits, no leading zero, at most 255. */
  predicate IsOctet(s: string) {
    IsNumeral(s, 10) && |s| <= 3 && (|s| > 1 ==> s[0] != '0') && NumeralValue(s, 10) <= 255
  }

  predicate IsDotted(s: string) {
    var parts := Split(s, '.');
    |parts| == 4 && forall i :: 0 <= i < 4 ==> IsOctet(parts[i])
  }

  predicate IsGroup(s: string) {
    IsNumeral(s, 16) && |s| <= 4
  }

  predicate AreGroups(parts: seq<string>) {
    forall i :: 0 <= i < |parts| ==> IsGroup(parts[i])
  }

  /** Where the first "::" starts. */
  function FindDouble(s: string): (r: Option<nat>)
    ensures r.Some? ==> r.value + 2 <= |s|
  {
    if |s| < 2 then None
    else if s[0] == ':' && s[1] == ':' then Some(0)
    else match FindDouble(s[1..]) case Some(i) => Some(i + 1) case None => None
  }

  function PartsOf(s: string): seq<string> {
    if s == "" then [] else Split(s, ':')
  }

  /** The written groups before and after the "::", if there is one. */
  predicate IsColonText(s: string) {
    match FindDouble(s)
    case None => var parts := PartsOf(s); |parts| == 8 && AreGroups(parts)
    case Some(i) =>
      var head, tail := PartsOf(s[..i]), PartsOf(s[i + 2..]);
      AreGroups(head) && AreGroups(tail) && |head| + |tail| <= 7
  }

  function LastColon(s: string): (r: Option<nat>)
    ensures r.Some? ==> r.value < |s| && s[r.value] == ':'
  {
    if s == "" then None
    else if s[|s| - 1] == ':' then Some(|s| - 1)
    else LastColon(s[..|s| - 1])
  }

  // ----- parsing -----

  function DottedValue(s: string): nat
    requires IsDotted(s)
  {
    Compose(NumeralValues(Split(s, '.'), 10), 8)
  }

  /** A dotted tail becomes two hexadecimal groups. */
  function WithoutDottedTail(s: string): Option<string> {
    if '.' !in s then Some(s)
    else
      match LastColon(s)
      case None => None
      case Some(i) =>
        var tail := s[i + 1..];
        if !IsDotted(tail) then None
        else
          var v := DottedValue(tail);
          Some(s[..i] + ":" + Numeral(Shr(v, 16), 16) + ":" + Numeral(Low(v, 16), 16))
  }

  /** All eight groups, the gap filled with zeros. */
  function Groups(s: string): (parts: seq<string>)
    requires IsColonText(s)
    ensures |parts| == 8 && AreGroups(parts)
  {
    match FindDouble(s)
    case None => PartsOf(s)
    case Some(i) =>
      var head, tail := PartsOf(s[..i]), PartsOf(s[i + 2..]);
      var zeros := seq(8 - |head| - |tail|, _ => "0");
      head + zeros + tail
  }

  function ParseAddress(s: string): Option<Address> {
    if '%' in s then None
    else if IsDotted(s) then Some(Address(V4, DottedValue(s)))
    else
      match WithoutDottedTail(s)
      case None => None
      case Some(t) => if IsColonText(t) then Some(Address(V6, Compose(NumeralValues(Groups(t), 16), 16))) else None
  }

  const MAPPED: nat := 65535

  /** An IPv4-mapped IPv6 address is the IPv4 address it carries. */
  function MappedIpv4(a: Address): Address {
    if a.family == V6 && Shr(a.value, 32) == MAPPED then Address(V4, Low(a.value, 32)) else a
  }

  // ----- printing -----

  const OCTET_SHIFTS: seq<nat> := [24, 16, 8, 0]

  const GROUP_SHIFTS: seq<nat> := [112, 96, 80, 64, 48, 32, 16, 0]

  /** The k-bit fields of a number at the given shifts. */
  function Fields(v: nat, shifts: seq<nat>, k: nat): (parts: seq<nat>)
    ensures |parts| == |shifts|
  {
    seq(|shifts|, i requires 0 <= i < |shifts| => Low(Shr(v, shifts[i]), k))
  }

  function OctetsOf(v: nat): seq<nat> {
    Fields(v, OCTET_SHIFTS, 8)
  }

  function GroupsOf(v: nat): seq<nat> {
    Fields(v, GROUP_SHIFTS, 16)
  }

  function Numerals(values: seq<nat>, base: nat): (parts: seq<string>)
    requires IsBase(base)
    ensures |parts| == |values|
  {
    seq(|values|, i requires 0 <= i < |values| => Numeral(values[i], base))
  }

  function FormatParts(a: Address): seq<string> {
    if a.family == V4 then Numerals(OctetsOf(a.value), 10) else Numerals(GroupsOf(a.value), 16)
  }

  function FormatAddress(a: Address): string {
    Join(FormatParts(a), if a.family == V4 then '.' else ':')
  }

  function NormalizeClientIp(s: string): Option<string> {
    match ParseAddress(s)
    case None => None
    case Some(a) => Some(FormatAddress(MappedIpv4(a)))
  }

  // ----- networks -----

  /** A prefix length: a decimal without a leading zero, of at most three digits. */
  predicate IsPrefixText(s: string) {
    IsNumeral(s, 10) && |s| <= 3 && (|s| > 1 ==> s[0] != '0')
  }

  /** The address and prefix length as written, before any reading of mapped addresses. */
  function RawCidr(s: string): (r: Option<Network>)
    ensures r.Some? ==> r.value.prefix <= Bits(r.value.family)
  {
    var parts := Split(s, '/');
    if |parts| != 2 || parts[0] == "" || !IsPrefixText(parts[1]) then None
    else
      match ParseAddress(parts[0])
      case None => None
      case Some(a) =>
        var prefix := NumeralValue(parts[1], 10);
        if prefix > Bits(a.family) then None else Some(Network(a.family, a.value, prefix))
  }

  function Masked(n: Network): Network
    requires n.prefix <= Bits(n.family)
  {
    var shift := Bits(n.family) - n.prefix;
    n.(value := Shl(Shr(n.value, shift), shift))
  }

  /** Mapped networks of /96 or longer are IPv4 networks; broader IPv6 networks keep their meaning. */
  function Unmapped(n: Network): (u: Network)
    requires n.prefix <= Bits(n.family)
    ensures u.prefix <= Bits(u.family)
  {
    var m := MappedIpv4(Address(n.family, n.value));
    if n.family == V6 && m.family == V4 && n.prefix >= 96 then Network(V4, m.value, n.prefix - 96) else n
  }

  function ParseCidr(s: string): (r: Option<Network>)
    ensures r.Some? ==> r.value.prefix <= Bits(r.value.family)
  {
    match RawCidr(s)
    case None => None
    case Some(n) => Some(Masked(Unmapped(n)))
  }

  function FormatCidr(n: Network): string {
    FormatAddress(Address(n.family, n.value)) + "/" + Numeral(n.prefix, 10)
  }

  datatype PolicyError = InvalidCidr

  /** Insertion-ordered set of the normalised texts; one bad text refuses the list. */
  function NormalizeCidrs(cidrs: seq<string>): Result<seq<string>, PolicyError> {
    if cidrs == [] then Ok([])
    else
      match NormalizeCidrs(cidrs[..|cidrs| - 1])
      case Err(e) => Err(e)
      case Ok(out) =>
        match ParseCidr(Trim(cidrs[|cidrs| - 1]))
        case None => Err(InvalidCidr)
        case Some(n) => Ok(if FormatCidr(n) in out then out else out + [FormatCidr(n)])
  }

  // ----- matching -----

  /** The matcher on parsed values: a normalised client against a parsed network. */
  predicate InNetwork(client: Address, n: Network)
    requires n.prefix <= Bits(n.family)
  {
    var comparable := if n.family == V6 && client.family == V4 then Address(V6, Shl(MAPPED, 32) + client.value) else client;
    comparable.family == n.family
    && var shift := Bits(n.family) - n.prefix;
       Shr(comparable.value, shift) == Shr(n.value, shift)
  }

  predicate MatchesCidr(client: Address, cidr: string) {
    ParseCidr(cidr).Some? && InNetwork(client, ParseCidr(cidr).value)
  }

  predicate IsIpAllowed(clientIp: Option<string>, cidrs: seq<string>, enabled: bool) {
    if !enabled then true
    else if clientIp.None? || ParseAddress(clientIp.value).None? then false
    else exists i :: 0 <= i < |cidrs| && MatchesCidr(MappedIpv4(ParseAddress(clientIp.value).value), cidrs[i])
  }

  // ----- printing then parsing -----

  lemma PowerValues()
    ensures Pow2(8) == 256 && Pow2(16) == 65536 && Power(10, 3) == 1000 && Power(16, 4) == 65536
  {
    assert Pow2(4) == 16;
    assert Pow2(8) == 256 by { Pow2Sum(4, 4); }
    Pow2Sum(8, 8);
    assert Power(10, 1) == 10 && Power(10, 2) == 100;
    assert Power(16, 1) == 16 && Power(16, 2) == 256 && Power(16, 3) == 4096;
  }

  /** One more group of k bits continues the number. */
  lemma ComposeNext(v: nat, parts: seq<nat>, s: nat, k: nat)
    requires Compose(parts, k) == Shr(v, s + k)
    ensures Compose(parts + [Low(Shr(v, s), k)], k) == Shr(v, s)
  {
    var more := parts + [Low(Shr(v, s), k)];
    assert more[..|parts|] == parts;
    ShrShr(v, s, k);
  }

  lemma ShrAll(v: nat, k: nat)
    requires v < Pow2(k)
    ensures Shr(v, k) == 0
  {
    ShiftUnique(v, 0, v, k);
  }

  lemma ShrNone(v: nat)
    ensures Shr(v, 0) == v
  {
    assert Pow2(0) == 1;
    ShiftUnique(v, v, 0, 0);
  }

  /** Consecutive fields of k bits put together again are the number above the last shift. */
  lemma {:induction false} FieldsCompose(v: nat, shifts: seq<nat>, k: nat)
    requires shifts != [] && v < Pow2(shifts[0] + k)
    requires forall i :: 0 <= i < |shifts| - 1 ==> shifts[i] == shifts[i + 1] + k
    ensures Compose(Fields(v, shifts, k), k) == Shr(v, shifts[|shifts| - 1])
  {
    hide Shr, Low, Pow2;
    var init, last := shifts[..|shifts| - 1], shifts[|shifts| - 1];
    assert Fields(v, shifts, k) == Fields(v, init, k) + [Low(Shr(v, last), k)];
    if init == [] {
      assert Fields(v, init, k) == [];
      ShrAll(v, last + k);
    } else {
      FieldsCompose(v, init, k);
    }
    ComposeNext(v, Fields(v, init, k), last, k);
  }

  lemma OctetsCompose(v: nat)
    requires v < Pow2(32)
    ensures Compose(OctetsOf(v), 8) == v
  {
    hide Shr, Low, Compose, Pow2, Fields;
    FieldsCompose(v, OCTET_SHIFTS, 8);
    ShrNone(v);
  }

  lemma GroupsCompose(v: nat)
    requires v < Pow2(128)
    ensures Compose(GroupsOf(v), 16) == v
  {
    hide Shr, Low, Compose, Pow2, Fields;
    FieldsCompose(v, GROUP_SHIFTS, 16);
    ShrNone(v);
  }

  /** Numerals are non-empty, short enough, read back, and hold no separator. */
  lemma NumeralText(n: nat, base: nat, k: nat)
    requires IsBase(base) && 0 < k && n < Power(base, k)
    ensures var s := Numeral(n, base);
            && IsNumeral(s, base) && |s| <= k && ValueOf(s, base) == n && (|s| > 1 ==> s[0] != '0')
            && '.' !in s && ':' !in s && '%' !in s && '/' !in s
  {
    NumeralRoundTrip(n, base);
    NumeralLength(n, base, k);
    var s := Numeral(n, base);
    forall c | c in s ensures c != '.' && c != ':' && c != '%' && c != '/' {
      var i :| 0 <= i < |s| && s[i] == c;
      assert DigitValue(s[i]) < base;
    }
    if n < base {
      assert |s| == 1;
    }
  }

  lemma OctetsText(v: nat)
    requires v < Pow2(32)
    ensures var s := FormatAddress(Address(V4, v)); IsDotted(s) && '%' !in s && '/' !in s && ':' !in s && s != "" && DottedValue(s) == v
  {
    hide Numeral, NumeralValue, Shr, Low, Compose, Join, Split;
    PowerValues();
    var parts := FormatParts(Address(V4, v));
    forall i | 0 <= i < 4
      ensures IsOctet(parts[i]) && '.' !in parts[i] && '%' !in parts[i] && '/' !in parts[i] && ':' !in parts[i]
      ensures ValueOf(parts[i], 10) == OctetsOf(v)[i]
    {
      NumeralText(OctetsOf(v)[i], 10, 3);
    }
    SplitJoin(parts, '.');
    JoinChars(parts, '.', '%');
    JoinChars(parts, '.', '/');
    JoinChars(parts, '.', ':');
    var s := FormatAddress(Address(V4, v));
    assert s != "" by { SplitEmpty('.'); }
    assert NumeralValues(Split(s, '.'), 10) == OctetsOf(v);
    OctetsCompose(v);
  }

  lemma SplitEmpty(sep: char)
    ensures |Split("", sep)| == 1
  {
  }

  /** Joined non-empty groups hold no "::". */
  lemma {:induction false} NoDouble(parts: seq<string>)
    requires |parts| >= 1 && forall i :: 0 <= i < |parts| ==> parts[i] != "" && ':' !in parts[i]
    ensures FindDouble(Join(parts, ':')) == None
  {
    NoDoubleAfter(parts[0], parts[1..]);
  }

  /** The same with the first group partly read. */
  lemma {:induction false} NoDoubleAfter(first: string, rest: seq<string>)
    requires ':' !in first && (rest == [] || first != "")
    requires forall i :: 0 <= i < |rest| ==> rest[i] != "" && ':' !in rest[i]
    ensures FindDouble(Join([first] + rest, ':')) == None
    decreases |rest|, |first|
  {
    var parts := [first] + rest;
    var s := Join(parts, ':');
    if rest == [] {
      assert s == first;
      NoColonNoDouble(first);
    } else {
      assert parts[1..] == rest;
      var tail := Join(rest, ':');
      assert s == first + [':'] + tail;
      assert rest == [rest[0]] + rest[1..];
      assert tail != "" && tail[0] != ':' by {
        assert tail[0] == rest[0][0] && rest[0][0] in rest[0];
      }
      if |first| == 1 {
        assert first[0] in first;
        assert s[1..] == [':'] + tail;
        NoDoubleAfter(rest[0], rest[1..]);
        assert ([':'] + tail)[1..] == tail;
        assert FindDouble([':'] + tail) == None;
      } else {
        assert first[0] in first;
        assert forall c :: c in first[1..] ==> c in first;
        NoDoubleAfter(first[1..], rest);
        assert ([first[1..]] + rest)[1..] == rest;
        assert s[1..] == first[1..] + [':'] + tail;
      }
    }
  }

  lemma {:induction false} NoColonNoDouble(s: string)
    requires ':' !in s
    ensures FindDouble(s) == None
  {
    if |s| >= 2 {
      assert s[0] in s;
      assert forall c :: c in s[1..] ==> c in s;
      NoColonNoDouble(s[1..]);
    }
  }

  /** What the eight printed groups are, one by one. */
  lemma GroupParts(v: nat)
    requires v < Pow2(128)
    ensures var parts := Numerals(GroupsOf(v), 16);
            forall i :: 0 <= i < 8 ==>
              IsGroup(parts[i]) && parts[i] != "" && ':' !in parts[i] && '%' !in parts[i] && '/' !in parts[i]
              && '.' !in parts[i] && ValueOf(parts[i], 16) == GroupsOf(v)[i]
  {
    hide Numeral, NumeralValue, Shr, Low;
    PowerValues();
    var parts := Numerals(GroupsOf(v), 16);
    forall i | 0 <= i < 8
      ensures IsGroup(parts[i]) && parts[i] != "" && ':' !in parts[i] && '%' !in parts[i] && '/' !in parts[i] && '.' !in parts[i]
      ensures ValueOf(parts[i], 16) == GroupsOf(v)[i]
    {
      NumeralText(GroupsOf(v)[i], 16, 4);
    }
  }

  lemma GroupsText(v: nat)
    requires v < Pow2(128)
    ensures var s := FormatAddress(Address(V6, v));
            && '%' !in s && '/' !in s && '.' !in s && s != "" && !IsDotted(s)
            && IsColonText(s) && Compose(NumeralValues(Groups(s), 16), 16) == v
  {
    hide Numeral, NumeralValue, Shr, Low, Compose, Join, Split, FindDouble, Fields, Numerals, IsGroup, Pow2, ValueOf;
    GroupParts(v);
    var parts := FormatParts(Address(V6, v));
    SplitJoin(parts, ':');
    JoinChars(parts, ':', '%');
    JoinChars(parts, ':', '/');
    JoinChars(parts, ':', '.');
    NoDouble(parts);
    var s := FormatAddress(Address(V6, v));
    assert s != "" by { SplitEmpty(':'); }
    SplitPlain(s, '.');
    assert NumeralValues(Groups(s), 16) == GroupsOf(v);
    GroupsCompose(v);
  }

  /** Parsing a printed address gives it back. */
  lemma ParseFormatted(a: Address)
    requires IsAddress(a)
    ensures ParseAddress(FormatAddress(a)) == Some(a)
  {
    hide FormatAddress, IsDotted, IsColonText, Groups, Compose, NumeralValues, Pow2;
    if a.family == V4 {
      OctetsText(a.value);
    } else {
      GroupsText(a.value);
    }
  }
}
