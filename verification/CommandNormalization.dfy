/** The normal form of a machine command, which its fingerprint covers, and the ETag text of a version. */
module CommandNormalization {
  import opened Wrappers
  import opened Text
  import opened Sorting
  import opened TransactionJson
  import opened Idempotency

  /** A command as received; a type or date that is neither known nor valid is None. */
  datatype RawCommand = RawCommand(
    externalId: Option<string>, kind: Option<Kind>, amount: int, currency: string, date: Option<Instant>,
    description: string, notes: Option<string>, tags: seq<string>, categoryId: Option<string>, paymentSourceId: string)

  datatype FieldError = ExternalIdInvalid | AmountInvalid | TypeInvalid | DateInvalid | FieldsInvalid | NotesInvalid | TagsInvalid
                      | CurrencyUnsupported

  const CURRENCIES: seq<string> := ["PLN", "EUR", "USD", "GBP", "CHF", "CZK", "SEK", "NOK", "DKK", "HUF", "RON"]

  // ----- texts -----

  function ByteLength(s: string): nat {
    if s == "" then 0
    else
      var c := s[0] as int;
      (if c < 0x80 then 1 else if c < 0x800 then 2 else if c < 0x10000 then 3 else 4) + ByteLength(s[1..])
  }

  function NormalizeExternalId(s: string): Result<string, FieldError> {
    var t := Trim(s);
    if t == "" || ByteLength(t) > 200 then Err(ExternalIdInvalid) else Ok(t)
  }

  function UpperChar(c: char): char {
    if 'a' <= c <= 'z' then ((c as int) - ('a' as int) + ('A' as int)) as char else c
  }

  function Upper(s: string): (r: string)
    ensures |r| == |s|
  {
    seq(|s|, i requires 0 <= i < |s| => UpperChar(s[i]))
  }

  function NormalizeCurrency(s: string): Result<string, FieldError> {
    if Upper(Trim(s)) in CURRENCIES then Ok(Upper(Trim(s))) else Err(CurrencyUnsupported)
  }

  // ----- tags -----

  predicate HasKey(tags: seq<string>, key: string) {
    exists i :: 0 <= i < |tags| && Lower(tags[i]) == key
  }

  /** The first spelling of each tag, trimmed, letter case aside. */
  function FirstSpellings(tags: seq<string>): seq<string> {
    if tags == [] then []
    else
      var kept, t := FirstSpellings(tags[..|tags| - 1]), Trim(tags[|tags| - 1]);
      if t != "" && !HasKey(kept, Lower(t)) then kept + [t] else kept
  }

  predicate KeyLe(a: string, b: string) {
    StringLe(Lower(a), Lower(b))
  }

  function NormalizeTags(tags: seq<string>): seq<string> {
    Sort(FirstSpellings(tags), KeyLe)
  }

  function LowerAll(tags: seq<string>): (r: seq<string>)
    ensures |r| == |tags|
  {
    seq(|tags|, i requires 0 <= i < |tags| => Lower(tags[i]))
  }

  /** The loop with its map from keys to spellings, and the sort by key. */
  method CollectTags(tags: seq<string>) returns (out: seq<string>)
    ensures out == NormalizeTags(tags)
  {
    hide Lower, Trim;
    var spellings: map<string, string> := map[];
    var order: seq<string> := [];
    var i := 0;
    while i < |tags|
      invariant 0 <= i <= |tags|
      invariant order == FirstSpellings(tags[..i])
      invariant forall key :: key in spellings <==> HasKey(order, key)
    {
      assert tags[..i + 1][..i] == tags[..i];
      var trimmed := Trim(tags[i]);
      if trimmed != "" && Lower(trimmed) !in spellings {
        KeysMore(order, trimmed);
        spellings := spellings[Lower(trimmed) := trimmed];
        order := order + [trimmed];
      }
      i := i + 1;
    }
    assert tags[..i] == tags;
    out := Sort(order, KeyLe);
  }

  lemma KeysMore(tags: seq<string>, t: string)
    ensures forall key :: HasKey(tags + [t], key) <==> HasKey(tags, key) || key == Lower(t)
  {
    hide Lower;
    forall key ensures HasKey(tags + [t], key) <==> HasKey(tags, key) || key == Lower(t) {
      if HasKey(tags, key) {
        var i :| 0 <= i < |tags| && Lower(tags[i]) == key;
        assert Lower((tags + [t])[i]) == key;
      }
      assert Lower((tags + [t])[|tags|]) == Lower(t);
    }
  }

  /** Trimmed, non-empty, one spelling per key. */
  predicate CleanTags(tags: seq<string>) {
    && (forall i :: 0 <= i < |tags| ==> tags[i] != "" && Trim(tags[i]) == tags[i])
    && (forall i, j :: 0 <= i < j < |tags| ==> Lower(tags[i]) != Lower(tags[j]))
  }

  lemma {:induction false} FirstSpellingsClean(tags: seq<string>)
    ensures CleanTags(FirstSpellings(tags))
    ensures forall key :: HasKey(FirstSpellings(tags), key) <==> exists i :: 0 <= i < |tags| && Trim(tags[i]) != "" && Lower(Trim(tags[i])) == key
  {
    hide Lower, Trim;
    if tags != [] {
      var init, last := tags[..|tags| - 1], tags[|tags| - 1];
      FirstSpellingsClean(init);
      assert tags == init + [last];
      TrimTwice(last);
      KeysMore(FirstSpellings(init), Trim(last));
    }
  }

  lemma {:induction false} CleanStays(tags: seq<string>)
    requires CleanTags(tags)
    ensures FirstSpellings(tags) == tags
  {
    hide Lower, Trim;
    if tags != [] {
      var init, last := tags[..|tags| - 1], tags[|tags| - 1];
      assert forall i :: 0 <= i < |init| ==> init[i] == tags[i];
      CleanStays(init);
      assert tags == init + [last];
    }
  }

  lemma KeyLeOrders()
    ensures TotalPreorder(KeyLe)
  {
    hide Lower, StringLe;
    forall a, b ensures KeyLe(a, b) || KeyLe(b, a) { StringLeTotal(Lower(a), Lower(b)); }
    forall a, b, c | KeyLe(a, b) && KeyLe(b, c) ensures KeyLe(a, c) { StringLeTransitive(Lower(a), Lower(b), Lower(c)); }
  }

  lemma CleanDistinct(tags: seq<string>)
    requires CleanTags(tags)
    ensures Distinct(tags)
  {
    hide Lower, Trim;
    forall i, j | 0 <= i < j < |tags| ensures tags[i] != tags[j] {
      assert Lower(tags[i]) != Lower(tags[j]);
    }
  }

  lemma SortClean(tags: seq<string>)
    requires CleanTags(tags)
    ensures CleanTags(Sort(tags, KeyLe)) && Sorted(Sort(tags, KeyLe), KeyLe)
    ensures forall key :: HasKey(Sort(tags, KeyLe), key) <==> HasKey(tags, key)
  {
    hide Lower, Trim, KeyLe;
    KeyLeOrders();
    CleanDistinct(tags);
    SortSound(tags, KeyLe);
    SortDistinct(tags, KeyLe);
    var s := Sort(tags, KeyLe);
    MultisetMembers(s, tags);
    forall i | 0 <= i < |s| ensures s[i] != "" && Trim(s[i]) == s[i] {
      assert s[i] in tags;
    }
    forall i, j | 0 <= i < j < |s| ensures Lower(s[i]) != Lower(s[j]) {
      assert s[i] in tags && s[j] in tags && s[i] != s[j];
    }
    forall key ensures HasKey(s, key) <==> HasKey(tags, key) {
      if HasKey(s, key) { var i :| 0 <= i < |s| && Lower(s[i]) == key; assert s[i] in tags; }
      if HasKey(tags, key) { var i :| 0 <= i < |tags| && Lower(tags[i]) == key; assert tags[i] in s; }
    }
  }

  /** Normalised tags are left alone. */
  lemma TagsTwice(tags: seq<string>)
    ensures NormalizeTags(NormalizeTags(tags)) == NormalizeTags(tags)
  {
    hide Lower, Trim, FirstSpellings, KeyLe;
    FirstSpellingsClean(tags);
    SortClean(FirstSpellings(tags));
    CleanStays(NormalizeTags(tags));
    SortStays(NormalizeTags(tags), KeyLe);
  }

  predicate SameKeys(a: seq<string>, b: seq<string>) {
    (forall i :: 0 <= i < |a| && Trim(a[i]) != "" ==> exists j :: 0 <= j < |b| && Trim(b[j]) != "" && Lower(Trim(b[j])) == Lower(Trim(a[i])))
    && (forall j :: 0 <= j < |b| && Trim(b[j]) != "" ==> exists i :: 0 <= i < |a| && Trim(a[i]) != "" && Lower(Trim(a[i])) == Lower(Trim(b[j])))
  }

  lemma LoweredList(tags: seq<string>)
    ensures var l := LowerAll(NormalizeTags(tags)); Distinct(l) && Sorted(l, StringLe) && forall key :: key in l <==> HasKey(FirstSpellings(tags), key)
  {
    hide Lower, Trim, FirstSpellings, StringLe;
    FirstSpellingsClean(tags);
    SortClean(FirstSpellings(tags));
    var n, l := NormalizeTags(tags), LowerAll(NormalizeTags(tags));
    assert forall i, j :: 0 <= i < j < |n| ==> KeyLe(n[i], n[j]);
    forall key ensures key in l <==> HasKey(n, key) {
      if HasKey(n, key) { var i :| 0 <= i < |n| && Lower(n[i]) == key; assert l[i] == key; }
    }
  }

  /** Two requests carry one tag intent exactly when their tags are the same set, whatever the order, spelling or repetition. */
  lemma TagIntentExactly(a: seq<string>, b: seq<string>)
    ensures LowerAll(NormalizeTags(a)) == LowerAll(NormalizeTags(b)) <==> SameKeys(a, b)
  {
    hide Lower, Trim, FirstSpellings, NormalizeTags, StringLe, LowerAll;
    LoweredList(a);
    LoweredList(b);
    FirstSpellingsClean(a);
    FirstSpellingsClean(b);
    var l, m := LowerAll(NormalizeTags(a)), LowerAll(NormalizeTags(b));
    if l == m {
      forall key ensures HasKey(FirstSpellings(a), key) <==> HasKey(FirstSpellings(b), key) {
        assert key in l <==> key in m;
      }
      KeysFromSets(a, b);
    }
    if SameKeys(a, b) {
      forall x, y | StringLe(x, y) && StringLe(y, x) ensures x == y { StringLeTotal(x, y); }
      SortedUnique(l, m, StringLe, |l|);
      SortedUnique(m, l, StringLe, |m|);
      assert l[..|l|] == l && m[..|m|] == m;
    }
  }

  lemma KeysFromSets(a: seq<string>, b: seq<string>)
    requires forall key :: HasKey(FirstSpellings(a), key) <==> HasKey(FirstSpellings(b), key)
    ensures SameKeys(a, b)
  {
    hide Lower, Trim, FirstSpellings;
    FirstSpellingsClean(a);
    FirstSpellingsClean(b);
    forall i | 0 <= i < |a| && Trim(a[i]) != "" ensures exists j :: 0 <= j < |b| && Trim(b[j]) != "" && Lower(Trim(b[j])) == Lower(Trim(a[i])) {
      assert HasKey(FirstSpellings(b), Lower(Trim(a[i])));
    }
    forall j | 0 <= j < |b| && Trim(b[j]) != "" ensures exists i :: 0 <= i < |a| && Trim(a[i]) != "" && Lower(Trim(a[i])) == Lower(Trim(b[j])) {
      assert HasKey(FirstSpellings(a), Lower(Trim(b[j])));
    }
  }

  // ----- the command -----

  predicate IsMidnight(i: Instant) {
    i.hour == 0 && i.minute == 0 && i.second == 0 && i.milli == 0
  }

  const MAX_INT: int := 2147483647

  /** The checks in the order the service makes them; currency is read last. */
  function NormalizeCommand(c: RawCommand): Result<Command, FieldError> {
    var externalId := if c.externalId.None? then Ok(None)
                      else match NormalizeExternalId(c.externalId.value) case Ok(e) => Ok(Some(e)) case Err(e) => Err(e);
    var categoryId := if c.categoryId.None? then None else Some(Trim(c.categoryId.value));
    var source, description := Trim(c.paymentSourceId), Trim(c.description);
    if externalId.Err? then Err(externalId.error)
    else if c.amount <= 0 || c.amount > MAX_INT then Err(AmountInvalid)
    else if c.kind.None? then Err(TypeInvalid)
    else if c.date.None? || !IsMidnight(c.date.value) then Err(DateInvalid)
    else if categoryId == Some("") || source == "" || description == "" || |description| > 200 then Err(FieldsInvalid)
    else if c.notes.Some? && |c.notes.value| > 2000 then Err(NotesInvalid)
    else if |c.tags| > 10 || exists i :: 0 <= i < |c.tags| && |c.tags[i]| > 100 then Err(TagsInvalid)
    else
      match NormalizeCurrency(c.currency)
      case Err(e) => Err(e)
      case Ok(currency) =>
        Ok(Command(externalId.value, c.kind.value, c.amount, currency, c.date.value, description, NonEmpty(c.notes),
                   NormalizeTags(c.tags), categoryId, source))
  }

  function Raw(c: Command): RawCommand {
    RawCommand(c.externalId, Some(c.kind), c.amount, c.currency, Some(c.date), c.description, c.notes, c.tags, c.categoryId, c.paymentSourceId)
  }

  lemma {:induction false} TrimShorter(s: string)
    ensures |Trim(s)| <= |s|
  {
    TrimStartShorter(s);
    TrimEndEnds(TrimStart(s));
  }

  lemma {:induction false} TrimStartShorter(s: string)
    ensures |TrimStart(s)| <= |s|
  {
    if s != "" && IsSpace(s[0]) {
      TrimStartShorter(s[1..]);
    }
  }

  lemma CurrencyTwice(s: string)
    ensures Upper(Trim(Upper(Trim(s)))) == Upper(Trim(s))
  {
    var t := Trim(s);
    TrimStartEnds(s);
    TrimEndEnds(TrimStart(s));
    var u := Upper(t);
    assert u != "" ==> !IsSpace(u[0]) && !IsSpace(u[|u| - 1]);
    assert Trim(u) == u;
    assert Upper(u) == u;
  }

  lemma {:induction false} FirstSpellingsShort(tags: seq<string>, n: nat)
    requires forall i :: 0 <= i < |tags| ==> |tags[i]| <= n
    ensures |FirstSpellings(tags)| <= |tags|
    ensures forall i :: 0 <= i < |FirstSpellings(tags)| ==> |FirstSpellings(tags)[i]| <= n
  {
    hide Lower, Trim;
    if tags != [] {
      FirstSpellingsShort(tags[..|tags| - 1], n);
      TrimShorter(tags[|tags| - 1]);
    }
  }

  lemma NormalTagsShort(tags: seq<string>, n: nat)
    requires forall i :: 0 <= i < |tags| ==> |tags[i]| <= n
    ensures |NormalizeTags(tags)| <= |tags|
    ensures forall i :: 0 <= i < |NormalizeTags(tags)| ==> |NormalizeTags(tags)[i]| <= n
  {
    hide KeyLe, FirstSpellings;
    FirstSpellingsShort(tags, n);
    KeyLeOrders();
    SortSound(FirstSpellings(tags), KeyLe);
    MultisetMembers(NormalizeTags(tags), FirstSpellings(tags));
    var out, kept := NormalizeTags(tags), FirstSpellings(tags);
    forall i | 0 <= i < |out| ensures |out[i]| <= n {
      assert out[i] in kept;
    }
  }

  /** Bytes of the UTF-8 form: one to four a character, one for each of ASCII. */
  lemma {:induction false} ByteLengthBounds(s: string)
    ensures |s| <= ByteLength(s) <= 4 * |s|
    ensures (forall i :: 0 <= i < |s| ==> s[i] < 128 as char) ==> ByteLength(s) == |s|
  {
    if s != "" {
      ByteLengthBounds(s[1..]);
    }
  }

  /** Which commands are accepted, which refusal the others meet, and the normal form field by field. */
  lemma CommandDecided(c: RawCommand)
    ensures var result := NormalizeCommand(c);
            if c.externalId.Some? && (Trim(c.externalId.value) == "" || ByteLength(Trim(c.externalId.value)) > 200) then
              result == Err(ExternalIdInvalid)
            else if c.amount < 1 || c.amount > 2_147_483_647 then result == Err(AmountInvalid)
            else if c.kind.None? then result == Err(TypeInvalid)
            else if c.date.None? || [c.date.value.hour, c.date.value.minute, c.date.value.second, c.date.value.milli] != [0, 0, 0, 0] then
              result == Err(DateInvalid)
            else if (c.categoryId.Some? && Trim(c.categoryId.value) == "") || Trim(c.paymentSourceId) == ""
                    || !(1 <= |Trim(c.description)| <= 200) then result == Err(FieldsInvalid)
            else if c.notes.Some? && |c.notes.value| > 2000 then result == Err(NotesInvalid)
            else if |c.tags| > 10 || exists i :: 0 <= i < |c.tags| && |c.tags[i]| > 100 then result == Err(TagsInvalid)
            else if Upper(Trim(c.currency)) !in CURRENCIES then result == Err(CurrencyUnsupported)
            else
              && result.Ok?
              && var n := result.value;
                 && n.externalId == TrimmedOption(c.externalId) && Some(n.kind) == c.kind && n.amount == c.amount
                 && n.currency == Upper(Trim(c.currency)) && Some(n.date) == c.date && n.description == Trim(c.description)
                 && n.notes == NonEmpty(c.notes) && n.tags == NormalizeTags(c.tags)
                 && n.categoryId == TrimmedOption(c.categoryId) && n.paymentSourceId == Trim(c.paymentSourceId)
  {
    hide Trim, Upper, ByteLength, NormalizeTags, NonEmpty, CURRENCIES;
  }

  /** A normalised command is accepted again and left alone, so a retry of what was stored has the fingerprint of the first call. */
  lemma CommandTwice(c: RawCommand)
    requires NormalizeCommand(c).Ok?
    ensures NormalizeCommand(Raw(NormalizeCommand(c).value)) == NormalizeCommand(c)
  {
    hide Trim, Upper, ByteLength, NormalizeTags, IsMidnight;
    if c.externalId.Some? { TrimTwice(c.externalId.value); }
    if c.categoryId.Some? { TrimTwice(c.categoryId.value); }
    if c.notes.Some? {
      TrimTwice(c.notes.value);
      TrimShorter(c.notes.value);
    }
    TrimTwice(c.paymentSourceId);
    TrimTwice(c.description);
    CurrencyTwice(c.currency);
    NormalTagsShort(c.tags, 100);
    TagsTwice(c.tags);
  }

  // ----- the fingerprint -----

  function TrimmedOption(o: Option<string>): Option<string> {
    if o.Some? then Some(Trim(o.value)) else None
  }

  /** What two commands as received must share to be the same request: every field in normal form, tags as a set of keys. */
  predicate SameIntent(a: RawCommand, b: RawCommand) {
    && TrimmedOption(a.externalId) == TrimmedOption(b.externalId)
    && a.kind == b.kind && a.amount == b.amount && a.date == b.date
    && Upper(Trim(a.currency)) == Upper(Trim(b.currency))
    && Trim(a.description) == Trim(b.description) && NonEmpty(a.notes) == NonEmpty(b.notes)
    && TrimmedOption(a.categoryId) == TrimmedOption(b.categoryId) && Trim(a.paymentSourceId) == Trim(b.paymentSourceId)
    && SameKeys(a.tags, b.tags)
  }

  lemma IntentTags(c: Command)
    ensures StableIntent(c) == c.(tags := LowerAll(c.tags))
  {
    hide Lower;
  }

  /** The covered values of two accepted commands agree exactly when the commands are the same request. */
  lemma IntentExactly(a: RawCommand, b: RawCommand)
    requires NormalizeCommand(a).Ok? && NormalizeCommand(b).Ok?
    ensures StableIntent(NormalizeCommand(a).value) == StableIntent(NormalizeCommand(b).value) <==> SameIntent(a, b)
  {
    hide Trim, Upper, ByteLength, NormalizeTags, IsMidnight, SameKeys, StableIntent, LowerAll;
    var c, d := NormalizeCommand(a).value, NormalizeCommand(b).value;
    IntentTags(c);
    IntentTags(d);
    TagIntentExactly(a.tags, b.tags);
  }

  /** From the received commands to the claims: same key, same claim exactly for the same request; for updates at the same version too. */
  lemma ClaimExactly(p: Principal, key: Option<string>, a: RawCommand, b: RawCommand, e: string, f: string, v: int, w: int)
    requires NormalizeCommand(a).Ok? && NormalizeCommand(b).Ok?
    ensures var c, d := NormalizeCommand(a).value, NormalizeCommand(b).value;
            && (ClaimOf(Create(p, key, c)) == ClaimOf(Create(p, key, d)) <==> SameIntent(a, b))
            && (ClaimOf(Update(p, key, e, v, c)) == ClaimOf(Update(p, key, f, w, d)) <==> SameIntent(a, b) && e == f && v == w)
  {
    hide Trim, Upper, ByteLength, NormalizeTags, IsMidnight, SameKeys, StableIntent, SameIntent;
    IntentExactly(a, b);
    SameTarget(a, b);
  }

  /** Deletes share a claim exactly for one target at one version, and requests of different kinds never do. */
  lemma OtherClaimsDiffer(p: Principal, key: Option<string>, c: Command, e: string, f: string, v: int, w: int)
    ensures ClaimOf(Delete(p, key, e, v)) == ClaimOf(Delete(p, key, f, w)) <==> e == f && v == w
    ensures ClaimOf(Create(p, key, c)) != ClaimOf(Update(p, key, e, v, c)) && ClaimOf(Create(p, key, c)) != ClaimOf(Delete(p, key, e, v))
    ensures ClaimOf(Update(p, key, e, v, c)) != ClaimOf(Delete(p, key, f, w))
  {
    hide StableIntent;
  }

  lemma SameTarget(a: RawCommand, b: RawCommand)
    requires NormalizeCommand(a).Ok? && NormalizeCommand(b).Ok?
    ensures SameIntent(a, b) ==> NormalizeCommand(a).value.externalId == NormalizeCommand(b).value.externalId
  {
    hide Trim, Upper, ByteLength, NormalizeTags, IsMidnight, SameKeys;
  }

  // ----- the idempotency key -----

  /** 16 to 128 visible ASCII characters, trimmed. */
  function NormalizeKey(s: string): Option<string> {
    var t := Trim(s);
    if 16 <= |t| <= 128 && forall i :: 0 <= i < |t| ==> '!' <= t[i] <= '~' then Some(t) else None
  }

  // ----- ETags -----

  /** Reads only `"tx-v<version>"` without leading zeros, below the limit of the version column. */
  function ParseEtag(s: string): Option<nat> {
    if |s| < 7 || s[..5] != "\"tx-v" || s[|s| - 1] != '"' then None
    else
      var digits := s[5..|s| - 1];
      if !IsNumeral(digits, 10) || digits[0] == '0' then None
      else if NumeralValue(digits, 10) >= MAX_INT then None
      else Some(NumeralValue(digits, 10))
  }

  /** The ETag sent with a version is the If-Match that names it. */
  lemma EtagRoundTrip(version: nat)
    requires 1 <= version < MAX_INT
    ensures ParseEtag(Etag(version)) == Some(version)
  {
    hide Numeral, NumeralValue;
    NumeralRoundTrip(version, 10);
    var d := Numeral(version, 10);
    var s := Etag(version);
    assert s == "\"tx-v" + d + "\"";
    assert s[..5] == "\"tx-v" && s[5..|s| - 1] == d;
  }

  /** No other text is read: what parses is exactly a text the service emits. */
  lemma EtagExactly(s: string)
    ensures ParseEtag(s).Some? ==> ParseEtag(s).value >= 1 && Etag(ParseEtag(s).value) == s
  {
    hide Numeral, NumeralValue;
    if ParseEtag(s).Some? {
      var digits := s[5..|s| - 1];
      NumeralIsOnly(digits);
      assert s == "\"tx-v" + digits + "\"";
    }
  }
}
