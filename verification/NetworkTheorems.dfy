/**
 What the network policy decides: one 128-bit prefix comparison for both families, and a normalisation that changes no
 decision and settles after one pass.
 */
module NetworkTheorems {
  import opened Wrappers
  import opened Text
  import opened Arithmetic
  import opened NetworkPolicy

  // ----- parsed values are in range -----

  lemma {:induction false} NumeralBound(s: string, base: nat)
    requires IsBase(base)
    requires forall i :: 0 <= i < |s| ==> DigitValue(s[i]) < base
    ensures NumeralValue(s, base) < Power(base, |s|)
  {
    if s != "" {
      var init := s[..|s| - 1];
      NumeralBound(init, base);
      MulStep(NumeralValue(init, base), Power(base, |init|), base);
    }
  }

  lemma GroupBound(s: string)
    requires IsGroup(s)
    ensures ValueOf(s, 16) < Pow2(16)
  {
    hide Pow2, NumeralValue;
    PowerValues();
    NumeralBound(s, 16);
    assert Power(16, 1) == 16 && Power(16, 2) == 256 && Power(16, 3) == 4096;
  }

  lemma {:induction false} ComposeBound(parts: seq<nat>, k: nat, n: nat)
    requires n == k * |parts|
    requires forall i :: 0 <= i < |parts| ==> parts[i] < Pow2(k)
    ensures Compose(parts, k) < Pow2(n)
    decreases |parts|
  {
    if parts != [] {
      var init := parts[..|parts| - 1];
      assert n - k == k * |init| by { assert k * (|init| + 1) == k * |init| + k; }
      MulNonNegative(k, |init|);
      ComposeBound(init, k, n - k);
      MulStep(Compose(init, k), Pow2(n - k), Pow2(k));
      Pow2Sum(n - k, k);
    }
  }

  lemma ParsedIsAddress(s: string)
    ensures ParseAddress(s).Some? ==> IsAddress(ParseAddress(s).value)
  {
    hide Compose, IsColonText, Pow2, Groups, WithoutDottedTail;
    PowerValues();
    if ParseAddress(s).Some? && IsDotted(s) {
      ComposeBound(NumeralValues(Split(s, '.'), 10), 8, 32);
    } else if ParseAddress(s).Some? {
      var t := WithoutDottedTail(s).value;
      var parts := Groups(t);
      forall i | 0 <= i < 8 ensures NumeralValues(parts, 16)[i] < Pow2(16) {
        GroupBound(parts[i]);
      }
      ComposeBound(NumeralValues(parts, 16), 16, 128);
    }
  }

  // ----- one prefix space -----

  /** Any address as a 128-bit number: IPv4 becomes IPv4-mapped IPv6. */
  function Embed(a: Address): nat {
    if a.family == V4 then Shl(0xFFFF, 32) + a.value else a.value
  }

  function EmbedPrefix(n: Network): nat {
    if n.family == V4 then n.prefix + 96 else n.prefix
  }

  /** Plain prefix comparison: the first p of 128 bits agree. */
  predicate SharePrefix(a: nat, b: nat, p: nat)
    requires p <= 128
  {
    Shr(a, 128 - p) == Shr(b, 128 - p)
  }

  /** The specification: the network as written, embedded, against the embedded client. */
  predicate InCidr(client: Address, cidr: string) {
    match RawCidr(cidr)
    case None => false
    case Some(n) => SharePrefix(Embed(client), Embed(Address(n.family, n.value)), EmbedPrefix(n))
  }

  lemma MappedKeepsEmbedding(a: Address)
    ensures Embed(MappedIpv4(a)) == Embed(a)
  {
  }

  lemma UnmappedKeepsEmbedding(n: Network)
    requires n.prefix <= Bits(n.family)
    ensures var u := Unmapped(n);
            Embed(Address(u.family, u.value)) == Embed(Address(n.family, n.value)) && EmbedPrefix(u) == EmbedPrefix(n)
  {
    MappedKeepsEmbedding(Address(n.family, n.value));
  }

  lemma MappedStays(value: nat)
    requires value < Pow2(32)
    ensures Shr(Shl(MAPPED, 32) + value, 32) == MAPPED && Low(Shl(MAPPED, 32) + value, 32) == value
  {
    hide Pow2;
    ShiftUnique(Shl(MAPPED, 32) + value, MAPPED, value, 32);
  }

  /** Below the mapped prefix the 32-bit and the 128-bit comparison say the same. */
  lemma ShortPrefix(a: nat, b: nat, p: nat)
    requires a < Pow2(32) && b < Pow2(32) && p <= 32
    ensures SharePrefix(Shl(MAPPED, 32) + a, Shl(MAPPED, 32) + b, p + 96) <==> Shr(a, 32 - p) == Shr(b, 32 - p)
  {
    hide Shr, Shl, Pow2;
    ShrHigh(MAPPED, a, 32, 32 - p);
    ShrHigh(MAPPED, b, 32, 32 - p);
  }

  /** An IPv6 address that is not mapped is in no IPv4 network. */
  lemma OutsideMapped(a: nat, b: nat, p: nat)
    requires Shr(a, 32) != MAPPED && b < Pow2(32) && p <= 32
    ensures !SharePrefix(a, Shl(MAPPED, 32) + b, p + 96)
  {
    hide Shr, Shl, Pow2;
    MappedStays(b);
    ShrShr(a, 32 - p, p);
    ShrShr(Shl(MAPPED, 32) + b, 32 - p, p);
  }

  /** The matcher on a normalised client and an unmapped network, before masking. */
  lemma InNetworkShares(c: Address, u: Network)
    requires IsAddress(c) && MappedIpv4(c) == c
    requires u.prefix <= Bits(u.family) && IsAddress(Address(u.family, u.value))
    ensures InNetwork(c, Masked(u)) <==> SharePrefix(Embed(c), Embed(Address(u.family, u.value)), EmbedPrefix(u))
  {
    hide Shr, Shl, Pow2, Low;
    var shift := Bits(u.family) - u.prefix;
    ShrShl(u.value, shift);
    if u.family == V4 {
      if c.family == V4 {
        ShortPrefix(c.value, u.value, u.prefix);
      } else {
        OutsideMapped(c.value, u.value, u.prefix);
      }
    } else if c.family == V4 {
      assert SharePrefix(Embed(c), u.value, u.prefix) <==> Shr(Embed(c), shift) == Shr(u.value, shift);
    }
  }

  lemma MappedIsAddress(a: Address)
    requires IsAddress(a)
    ensures IsAddress(MappedIpv4(a)) && MappedIpv4(MappedIpv4(a)) == MappedIpv4(a)
  {
    hide Pow2;
  }

  lemma RawIsAddress(cidr: string)
    ensures RawCidr(cidr).Some? ==> IsAddress(Address(RawCidr(cidr).value.family, RawCidr(cidr).value.value))
  {
    hide Pow2, ParseAddress;
    ParsedIsAddress(Split(cidr, '/')[0]);
  }

  /** The two-family matcher is one prefix comparison on 128 bits. */
  lemma OnePrefixSpace(client: Address, cidr: string)
    requires IsAddress(client)
    ensures MatchesCidr(MappedIpv4(client), cidr) <==> InCidr(client, cidr)
  {
    hide Shr, Shl, Pow2, Low, RawCidr, Masked, InNetwork, SharePrefix, MappedIpv4, Unmapped, Embed, IsAddress;
    if RawCidr(cidr).Some? {
      var n := RawCidr(cidr).value;
      var u := Unmapped(n);
      RawIsAddress(cidr);
      MappedIsAddress(client);
      MappedKeepsEmbedding(client);
      UnmappedKeepsEmbedding(n);
      UnmappedIsAddress(n);
      assert EmbedPrefix(u) <= 128;
      InNetworkShares(MappedIpv4(client), u);
    }
  }

  lemma UnmappedIsAddress(n: Network)
    requires n.prefix <= Bits(n.family) && IsAddress(Address(n.family, n.value))
    ensures IsAddress(Address(Unmapped(n).family, Unmapped(n).value))
  {
    hide Pow2;
    MappedIsAddress(Address(n.family, n.value));
  }

  /** A request passes exactly when the restriction is off or its address shares the prefix of a listed network. */
  lemma AllowedIsPrefixMembership(clientIp: Option<string>, cidrs: seq<string>, enabled: bool)
    ensures IsIpAllowed(clientIp, cidrs, enabled) <==>
            (!enabled
             || (clientIp.Some? && ParseAddress(clientIp.value).Some?
                 && exists i :: 0 <= i < |cidrs| && InCidr(ParseAddress(clientIp.value).value, cidrs[i])))
  {
    hide ParseAddress, MatchesCidr, InCidr, MappedIpv4;
    if clientIp.Some? && ParseAddress(clientIp.value).Some? {
      var a := ParseAddress(clientIp.value).value;
      ParsedIsAddress(clientIp.value);
      forall i | 0 <= i < |cidrs| ensures MatchesCidr(MappedIpv4(a), cidrs[i]) <==> InCidr(a, cidrs[i]) {
        OnePrefixSpace(a, cidrs[i]);
      }
    }
  }

  // ----- stable text -----

  /** Masked, unmapped and in range: what the parser produces. */
  predicate Canonical(n: Network) {
    n.prefix <= Bits(n.family) && IsAddress(Address(n.family, n.value)) && Masked(n) == n && Unmapped(n) == n
  }

  lemma MaskedIsCanonical(u: Network)
    requires u.prefix <= Bits(u.family) && IsAddress(Address(u.family, u.value))
    requires Unmapped(u) == u
    ensures Canonical(Masked(u))
  {
    hide Shr, Shl, Pow2, Low;
    var shift := Bits(u.family) - u.prefix;
    ShrShl(u.value, shift);
    ShlLess(u.value, shift);
    var v := Masked(u).value;
    if u.family == V6 && u.prefix >= 96 {
      ShrShr(v, shift, 32 - shift);
      ShrShr(u.value, shift, 32 - shift);
      assert Shr(v, 32) == Shr(u.value, 32);
    }
  }

  lemma ParsedIsCanonical(cidr: string)
    ensures ParseCidr(cidr).Some? ==> Canonical(ParseCidr(cidr).value)
  {
    hide RawCidr, IsAddress, Canonical, Masked;
    RawIsAddress(cidr);
    if RawCidr(cidr).Some? {
      var n := RawCidr(cidr).value;
      UnmappedIsAddress(n);
      assert Unmapped(Unmapped(n)) == Unmapped(n);
      MaskedIsCanonical(Unmapped(n));
    }
  }

  lemma {:induction false} JoinStart(parts: seq<string>, sep: char)
    requires parts != [] && parts[0] != ""
    ensures Join(parts, sep) != "" && Join(parts, sep)[0] == parts[0][0]
  {
  }

  lemma NumeralNotSpace(n: nat, base: nat)
    requires IsBase(base)
    ensures var s := Numeral(n, base); s != "" && !IsSpace(s[0]) && !IsSpace(s[|s| - 1])
  {
    NumeralRoundTrip(n, base);
    var s := Numeral(n, base);
    assert DigitValue(s[0]) < base && DigitValue(s[|s| - 1]) < base;
  }

  lemma AddressStart(a: Address)
    ensures FormatAddress(a) != "" && !IsSpace(FormatAddress(a)[0])
  {
    hide Numeral, Join, Shr, Low, Fields, IsSpace;
    var parts := FormatParts(a);
    var first := if a.family == V4 then OctetsOf(a.value)[0] else GroupsOf(a.value)[0];
    NumeralNotSpace(first, if a.family == V4 then 10 else 16);
    assert parts[0] == Numeral(first, if a.family == V4 then 10 else 16);
    JoinStart(parts, if a.family == V4 then '.' else ':');
  }

  lemma TrimPlain(s: string)
    requires s != "" && !IsSpace(s[0]) && !IsSpace(s[|s| - 1])
    ensures Trim(s) == s
  {
  }

  lemma FormattedIsTrimmed(n: Network)
    ensures Trim(FormatCidr(n)) == FormatCidr(n)
  {
    hide Numeral, FormatAddress, IsSpace, Trim;
    var a, p := FormatAddress(Address(n.family, n.value)), Numeral(n.prefix, 10);
    AddressStart(Address(n.family, n.value));
    NumeralNotSpace(n.prefix, 10);
    TrimPlain(a + "/" + p);
  }

  lemma NoSlash(a: Address)
    requires IsAddress(a)
    ensures '/' !in FormatAddress(a)
  {
    hide Pow2, FormatAddress, IsDotted, IsColonText, Groups, Compose, NumeralValues, DottedValue;
    if a.family == V4 {
      OctetsText(a.value);
    } else {
      GroupsText(a.value);
    }
  }

  /** Reading a printed network gives it back. */
  lemma ParseFormattedCidr(n: Network)
    requires Canonical(n)
    ensures ParseCidr(FormatCidr(n)) == Some(n)
  {
    hide Numeral, NumeralValue, FormatAddress, ParseAddress, Split, Masked, Unmapped, IsAddress, Pow2;
    var a, p := FormatAddress(Address(n.family, n.value)), Numeral(n.prefix, 10);
    var s := a + "/" + p;
    NoSlash(Address(n.family, n.value));
    AddressStart(Address(n.family, n.value));
    PowerValues();
    NumeralText(n.prefix, 10, 3);
    SplitFirst(a, p, '/');
    SplitPlain(p, '/');
    assert Split(s, '/') == [a, p];
    ParseFormatted(Address(n.family, n.value));
    assert RawCidr(s) == Some(n);
  }

  // ----- the normalised list -----

  function Trimmed(cidrs: seq<string>): (r: seq<string>)
    ensures |r| == |cidrs|
  {
    seq(|cidrs|, i requires 0 <= i < |cidrs| => Trim(cidrs[i]))
  }

  /** Distinct texts, each the print of the network it parses to. */
  predicate IsNormalized(cidrs: seq<string>) {
    && (forall i :: 0 <= i < |cidrs| ==>
          ParseCidr(cidrs[i]).Some? && FormatCidr(ParseCidr(cidrs[i]).value) == cidrs[i] && Trim(cidrs[i]) == cidrs[i])
    && (forall i, j :: 0 <= i < j < |cidrs| ==> cidrs[i] != cidrs[j])
  }

  predicate Lists(cidrs: seq<string>, n: Network) {
    exists i :: 0 <= i < |cidrs| && ParseCidr(cidrs[i]) == Some(n)
  }

  lemma ListsMore(cidrs: seq<string>, last: string, n: Network)
    ensures Lists(cidrs + [last], n) <==> Lists(cidrs, n) || ParseCidr(last) == Some(n)
  {
    var more := cidrs + [last];
    assert more[|cidrs|] == last;
    if Lists(cidrs, n) {
      var i :| 0 <= i < |cidrs| && ParseCidr(cidrs[i]) == Some(n);
      assert more[i] == cidrs[i];
    }
    if Lists(more, n) {
      var i :| 0 <= i < |more| && ParseCidr(more[i]) == Some(n);
      assert i < |cidrs| ==> more[i] == cidrs[i];
    }
  }

  /** What one pass gives: refusal exactly for a bad text, else a normalised list of the same networks. */
  lemma {:induction false} NormalizeSound(cidrs: seq<string>)
    ensures NormalizeCidrs(cidrs).Ok? <==> forall i :: 0 <= i < |cidrs| ==> ParseCidr(Trim(cidrs[i])).Some?
    ensures NormalizeCidrs(cidrs).Ok? ==>
              IsNormalized(NormalizeCidrs(cidrs).value)
              && forall n :: Lists(NormalizeCidrs(cidrs).value, n) <==> Lists(Trimmed(cidrs), n)
  {
    hide ParseCidr, FormatCidr, Trim, Lists, Canonical;
    if cidrs == [] {
      assert Trimmed(cidrs) == [];
    } else {
      var init, last := cidrs[..|cidrs| - 1], Trim(cidrs[|cidrs| - 1]);
      NormalizeSound(init);
      if NormalizeCidrs(init).Ok? && ParseCidr(last).Some? {
        var out, n := NormalizeCidrs(init).value, ParseCidr(last).value;
        ParsedIsCanonical(last);
        ParseFormattedCidr(n);
        FormattedIsTrimmed(n);
        assert Trimmed(cidrs) == Trimmed(init) + [last];
        forall k ensures Lists(NormalizeCidrs(cidrs).value, k) <==> Lists(Trimmed(cidrs), k) {
          ListsMore(Trimmed(init), last, k);
          ListsMore(out, FormatCidr(n), k);
          if FormatCidr(n) in out {
            ListedText(out, FormatCidr(n), n);
          }
        }
      }
    }
  }

  lemma ListedText(cidrs: seq<string>, text: string, n: Network)
    ensures text in cidrs && ParseCidr(text) == Some(n) ==> Lists(cidrs, n)
  {
  }

  /** A normalised list is left as it is. */
  lemma {:induction false} NormalizedStays(cidrs: seq<string>)
    requires IsNormalized(cidrs)
    ensures NormalizeCidrs(cidrs) == Ok(cidrs)
  {
    hide ParseCidr, FormatCidr, Trim;
    if cidrs != [] {
      var init, last := cidrs[..|cidrs| - 1], cidrs[|cidrs| - 1];
      NormalizedStays(init);
      assert last !in init;
      assert cidrs == init + [last];
    }
  }

  lemma NormalizeTwice(cidrs: seq<string>)
    requires NormalizeCidrs(cidrs).Ok?
    ensures NormalizeCidrs(NormalizeCidrs(cidrs).value) == NormalizeCidrs(cidrs)
  {
    NormalizeSound(cidrs);
    NormalizedStays(NormalizeCidrs(cidrs).value);
  }

  lemma SameNetworksSameMatches(client: Address, a: seq<string>, b: seq<string>)
    requires forall n :: Lists(a, n) ==> Lists(b, n)
    requires exists i :: 0 <= i < |a| && MatchesCidr(client, a[i])
    ensures exists i :: 0 <= i < |b| && MatchesCidr(client, b[i])
  {
    hide ParseCidr, InNetwork;
    var i :| 0 <= i < |a| && MatchesCidr(client, a[i]);
    var n := ParseCidr(a[i]).value;
    assert Lists(a, n);
    var j :| 0 <= j < |b| && ParseCidr(b[j]) == Some(n);
    assert MatchesCidr(client, b[j]);
  }

  /** Normalising a policy changes no decision. */
  lemma NormalizeKeepsDecisions(clientIp: Option<string>, cidrs: seq<string>, enabled: bool)
    ensures NormalizeCidrs(cidrs).Ok? ==>
              (IsIpAllowed(clientIp, NormalizeCidrs(cidrs).value, enabled) <==> IsIpAllowed(clientIp, Trimmed(cidrs), enabled))
  {
    hide ParseAddress, MatchesCidr, Lists, NormalizeCidrs, Trimmed;
    NormalizeSound(cidrs);
    if NormalizeCidrs(cidrs).Ok? && enabled && clientIp.Some? && ParseAddress(clientIp.value).Some? {
      var out, raw := NormalizeCidrs(cidrs).value, Trimmed(cidrs);
      var client := MappedIpv4(ParseAddress(clientIp.value).value);
      if IsIpAllowed(clientIp, out, enabled) {
        SameNetworksSameMatches(client, out, raw);
      }
      if IsIpAllowed(clientIp, raw, enabled) {
        SameNetworksSameMatches(client, raw, out);
      }
    }
  }

  /** A normalised client address is stable and is decided like the address as sent. */
  lemma ClientIpStable(ip: string, cidrs: seq<string>, enabled: bool)
    ensures var n := NormalizeClientIp(ip);
            n.Some? ==>
              NormalizeClientIp(n.value) == n && (IsIpAllowed(n, cidrs, enabled) <==> IsIpAllowed(Some(ip), cidrs, enabled))
  {
    hide ParseAddress, FormatAddress, MatchesCidr, MappedIpv4, IsAddress;
    ParsedIsAddress(ip);
    if ParseAddress(ip).Some? {
      var a := ParseAddress(ip).value;
      MappedIsAddress(a);
      ParseFormatted(MappedIpv4(a));
    }
  }
}
