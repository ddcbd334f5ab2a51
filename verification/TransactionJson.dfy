/**
 A transaction row with its tags, and the JSON body in which a completed machine request keeps it
 for later replays.
 */
module TransactionJson {
  import opened Wrappers
  import opened Text

  /** A UTC instant by its calendar fields, to the millisecond, with a four-digit year. */
  datatype InstantFields = Instant(year: nat, month: nat, day: nat, hour: nat, minute: nat, second: nat, milli: nat)

  predicate IsInstant(i: InstantFields) {
    && i.year < 10000 && 1 <= i.month <= 12 && 1 <= i.day <= 31
    && i.hour < 24 && i.minute < 60 && i.second < 60 && i.milli < 1000
  }

  type Instant = i: InstantFields | IsInstant(i) witness Instant(1970, 1, 1, 0, 0, 0, 0)

  /** A decimal by its canonical text; printing it and reading it back are exact. */
  datatype Decimal = Decimal(text: string)

  datatype Kind = Expense | Income

  /** The columns a create or an update writes, quote included. */
  datatype Details = Details(
    categoryId: Option<string>, paymentSourceId: string, kind: Kind, amount: int, currency: string,
    baseAmount: int, fxRate: Decimal, fxRateDate: Instant, fxSource: string,
    date: Instant, description: string, notes: Option<string>)

  datatype Tag = Tag(id: string, workspaceId: string, transactionId: string, name: string,
                     createdAt: Instant, updatedAt: Instant)

  datatype Transaction = Transaction(
    id: string, workspaceId: string, integrationId: Option<string>, externalId: Option<string>,
    details: Details, version: int, createdAt: Instant, updatedAt: Instant,
    deletedAt: Option<Instant>, tags: seq<Tag>)

  /** The property names of a stored body. */
  datatype Field =
    | IdField | WorkspaceIdField | TransactionIdField | NameField | CreatedAtField | UpdatedAtField | CategoryIdField | PaymentSourceIdField
    | TypeField | AmountField | CurrencyField | BaseAmountField | FxRateField | FxRateDateField | FxSourceField | DateField
    | DescriptionField | NotesField | IntegrationIdField | ExternalIdField | VersionField | DeletedAtField | TagsField

  datatype Json =
    | JNull
    | JNumber(n: int)
    | JString(s: string)
    | JArray(items: seq<Json>)
    | JObject(fields: map<Field, Json>)

  datatype BodyError = ResponseUnavailable

  // ----- instants as ISO text -----

  function PrintTime(i: Instant): (s: string)
    ensures |s| == 12
  {
    Padded(i.hour, 2) + ":" + Padded(i.minute, 2) + ":" + Padded(i.second, 2) + "." + Padded(i.milli, 3)
  }

  function ToIso(i: Instant): (s: string)
    ensures |s| == 24
  {
    PrintDate(i.year, i.month, i.day) + "T" + PrintTime(i) + "Z"
  }

  function ReadTime(s: string): Option<(nat, nat, nat, nat)>
  {
    if |s| != 12 || s[2] != ':' || s[5] != ':' || s[8] != '.' then None
    else
      match (DecimalAt(s, 0, 2), DecimalAt(s, 3, 5), DecimalAt(s, 6, 8), DecimalAt(s, 9, 12))
      case (Some(h), Some(mi), Some(se), Some(ms)) => Some((h, mi, se, ms))
      case _ => None
  }

  function FromIso(s: string): Option<Instant>
  {
    if |s| != 24 || s[10] != 'T' || s[23] != 'Z' then None
    else
      match (ReadDate(s[..10]), ReadTime(s[11..23]))
      case (Some(d), Some(t)) =>
        var i := Instant(d.0, d.1, d.2, t.0, t.1, t.2, t.3);
        if IsInstant(i) then Some(i) else None
      case _ => None
  }

  lemma TimeRoundTrip(i: Instant)
    ensures ReadTime(PrintTime(i)) == Some((i.hour, i.minute, i.second, i.milli))
  {
    hide Padded, DecimalAt, Pow10;
    var a, b, c, d := Padded(i.hour, 2), Padded(i.minute, 2), Padded(i.second, 2), Padded(i.milli, 3);
    var s := a + ":" + b + ":" + c + "." + d;
    assert s == PrintTime(i);
    PowersOfTen();
    assert s[0..2] == a && s[3..5] == b && s[6..8] == c && s[9..12] == d;
    PaddedAt(s, 0, 2, i.hour);
    PaddedAt(s, 3, 5, i.minute);
    PaddedAt(s, 6, 8, i.second);
    PaddedAt(s, 9, 12, i.milli);
  }

  lemma IsoRoundTrip(i: Instant)
    ensures FromIso(ToIso(i)) == Some(i)
  {
    var d, t := PrintDate(i.year, i.month, i.day), PrintTime(i);
    var s := d + "T" + t + "Z";
    assert s[..10] == d && s[11..23] == t;
    DateRoundTrip(i.year, i.month, i.day);
    TimeRoundTrip(i);
  }

  // ----- the stored body -----

  function KindText(k: Kind): string {
    match k case Expense => "expense" case Income => "income"
  }

  function OptionalText(o: Option<string>): Json {
    match o case None => JNull case Some(s) => JString(s)
  }

  function TagField(t: Tag, f: Field): Json {
    match f
    case IdField => JString(t.id)
    case WorkspaceIdField => JString(t.workspaceId)
    case TransactionIdField => JString(t.transactionId)
    case NameField => JString(t.name)
    case CreatedAtField => JString(ToIso(t.createdAt))
    case UpdatedAtField => JString(ToIso(t.updatedAt))
    case _ => JNull
  }

  function SerializeTag(t: Tag): Json {
    JObject(map f: Field | f.IdField? || f.WorkspaceIdField? || f.TransactionIdField? || f.NameField?
                           || f.CreatedAtField? || f.UpdatedAtField? :: TagField(t, f))
  }

  function SerializeTags(tags: seq<Tag>): (items: seq<Json>)
    ensures |items| == |tags|
    ensures forall i :: 0 <= i < |tags| ==> items[i] == SerializeTag(tags[i])
  {
    seq(|tags|, i requires 0 <= i < |tags| => SerializeTag(tags[i]))
  }

  function BodyField(t: Transaction, f: Field): Json {
    match f
    case IdField => JString(t.id)
    case WorkspaceIdField => JString(t.workspaceId)
    case IntegrationIdField => OptionalText(t.integrationId)
    case ExternalIdField => OptionalText(t.externalId)
    case CategoryIdField => OptionalText(t.details.categoryId)
    case PaymentSourceIdField => JString(t.details.paymentSourceId)
    case TypeField => JString(KindText(t.details.kind))
    case AmountField => JNumber(t.details.amount)
    case CurrencyField => JString(t.details.currency)
    case BaseAmountField => JNumber(t.details.baseAmount)
    case FxRateField => JString(t.details.fxRate.text)
    case FxRateDateField => JString(ToIso(t.details.fxRateDate))
    case FxSourceField => JString(t.details.fxSource)
    case DateField => JString(ToIso(t.details.date))
    case DescriptionField => JString(t.details.description)
    case NotesField => OptionalText(t.details.notes)
    case VersionField => JNumber(t.version)
    case CreatedAtField => JString(ToIso(t.createdAt))
    case UpdatedAtField => JString(ToIso(t.updatedAt))
    case DeletedAtField => (match t.deletedAt case None => JNull case Some(d) => JString(ToIso(d)))
    case TagsField => JArray(SerializeTags(t.tags))
    case _ => JNull
  }

  function SerializeTransaction(t: Transaction): Json {
    JObject(map f: Field | !f.TransactionIdField? && !f.NameField? :: BodyField(t, f))
  }

  // Columns read back from a body. A body this service did not write may lack them; the reading is
  // then arbitrary, here the empty text, zero or the epoch.

  function TextOf(o: map<Field, Json>, key: Field): string {
    if key in o && o[key].JString? then o[key].s else ""
  }

  function OptionalOf(o: map<Field, Json>, key: Field): Option<string> {
    if key in o && o[key].JString? then Some(o[key].s) else None
  }

  function NumberOf(o: map<Field, Json>, key: Field): int {
    if key in o && o[key].JNumber? then o[key].n else 0
  }

  function InstantOf(o: map<Field, Json>, key: Field): Instant {
    match FromIso(TextOf(o, key))
    case Some(i) => i
    case None => Instant(1970, 1, 1, 0, 0, 0, 0)
  }

  function DeserializeDetails(o: map<Field, Json>): Details {
    Details(OptionalOf(o, CategoryIdField), TextOf(o, PaymentSourceIdField),
            if TextOf(o, TypeField) == "income" then Income else Expense,
            NumberOf(o, AmountField), TextOf(o, CurrencyField), NumberOf(o, BaseAmountField),
            Decimal(TextOf(o, FxRateField)), InstantOf(o, FxRateDateField), TextOf(o, FxSourceField),
            InstantOf(o, DateField), TextOf(o, DescriptionField), OptionalOf(o, NotesField))
  }

  /** Bodies written before tags had rows of their own list plain names. */
  function DeserializeTag(tag: Json, index: nat, o: map<Field, Json>): Tag {
    match tag
    case JString(name) =>
      Tag("replay-" + Numeral(index, 10), TextOf(o, WorkspaceIdField), TextOf(o, IdField), name,
          InstantOf(o, CreatedAtField), InstantOf(o, UpdatedAtField))
    case JObject(t) =>
      Tag(TextOf(t, IdField), TextOf(t, WorkspaceIdField), TextOf(t, TransactionIdField), TextOf(t, NameField),
          InstantOf(t, CreatedAtField), InstantOf(t, UpdatedAtField))
    case _ => Tag("", "", "", "", InstantOf(o, CreatedAtField), InstantOf(o, UpdatedAtField))
  }

  function DeserializeTransaction(body: Json): Result<Transaction, BodyError> {
    if !body.JObject? then Err(ResponseUnavailable)
    else
      var o := body.fields;
      if IdField !in o || !o[IdField].JString? || TagsField !in o || !o[TagsField].JArray? then Err(ResponseUnavailable)
      else
        var tags := o[TagsField].items;
        Ok(Transaction(
             TextOf(o, IdField), TextOf(o, WorkspaceIdField), OptionalOf(o, IntegrationIdField), OptionalOf(o, ExternalIdField),
             DeserializeDetails(o), NumberOf(o, VersionField), InstantOf(o, CreatedAtField), InstantOf(o, UpdatedAtField),
             if OptionalOf(o, DeletedAtField).Some? then Some(InstantOf(o, DeletedAtField)) else None,
             seq(|tags|, i requires 0 <= i < |tags| => DeserializeTag(tags[i], i, o))))
  }

  lemma InstantReadBack(o: map<Field, Json>, key: Field, i: Instant)
    requires key in o && o[key] == JString(ToIso(i))
    ensures InstantOf(o, key) == i
  {
    hide FromIso, ToIso;
    IsoRoundTrip(i);
  }

  ghost predicate HoldsBody(o: map<Field, Json>, t: Transaction) {
    forall f: Field {:trigger f in o} {:trigger o[f]} ::
      !f.TransactionIdField? && !f.NameField? ==> f in o && o[f] == BodyField(t, f)
  }

  lemma BodyAt(t: Transaction) returns (o: map<Field, Json>)
    ensures SerializeTransaction(t) == JObject(o)
    ensures HoldsBody(o, t)
  {
    hide BodyField;
    o := SerializeTransaction(t).fields;
  }

  lemma KindReadBack(k: Kind)
    ensures KindText(k) == "income" <==> k == Income
  {
    assert |"income"| != |"expense"|;
  }

  lemma DatesReadBack(t: Transaction, o: map<Field, Json>)
    requires HoldsBody(o, t)
    ensures InstantOf(o, FxRateDateField) == t.details.fxRateDate && InstantOf(o, DateField) == t.details.date
    ensures InstantOf(o, CreatedAtField) == t.createdAt && InstantOf(o, UpdatedAtField) == t.updatedAt
    ensures t.deletedAt.Some? ==> InstantOf(o, DeletedAtField) == t.deletedAt.value
    ensures OptionalOf(o, DeletedAtField).Some? <==> t.deletedAt.Some?
  {
    hide InstantOf, FromIso, ToIso, SerializeTags;
    InstantReadBack(o, FxRateDateField, t.details.fxRateDate);
    InstantReadBack(o, DateField, t.details.date);
    InstantReadBack(o, CreatedAtField, t.createdAt);
    InstantReadBack(o, UpdatedAtField, t.updatedAt);
    if t.deletedAt.Some? {
      InstantReadBack(o, DeletedAtField, t.deletedAt.value);
    }
  }

  lemma DetailTexts(t: Transaction, o: map<Field, Json>)
    requires HoldsBody(o, t)
    ensures TextOf(o, PaymentSourceIdField) == t.details.paymentSourceId && TextOf(o, CurrencyField) == t.details.currency
    ensures TextOf(o, FxRateField) == t.details.fxRate.text && TextOf(o, FxSourceField) == t.details.fxSource
    ensures TextOf(o, DescriptionField) == t.details.description && TextOf(o, TypeField) == KindText(t.details.kind)
  {
    hide SerializeTags, KindText, ToIso;
  }

  lemma DetailOthers(t: Transaction, o: map<Field, Json>)
    requires HoldsBody(o, t)
    ensures OptionalOf(o, CategoryIdField) == t.details.categoryId && OptionalOf(o, NotesField) == t.details.notes
    ensures NumberOf(o, AmountField) == t.details.amount && NumberOf(o, BaseAmountField) == t.details.baseAmount
  {
    hide SerializeTags, KindText, ToIso;
  }

  lemma DetailsReadBack(t: Transaction, o: map<Field, Json>)
    requires HoldsBody(o, t)
    ensures DeserializeDetails(o) == t.details
  {
    hide InstantOf, TextOf, OptionalOf, NumberOf, HoldsBody, KindText;
    DatesReadBack(t, o);
    DetailTexts(t, o);
    DetailOthers(t, o);
    KindReadBack(t.details.kind);
  }

  lemma TagReadBack(t: Tag, index: nat, o: map<Field, Json>)
    ensures DeserializeTag(SerializeTag(t), index, o) == t
  {
    hide InstantOf, FromIso, ToIso;
    var f := SerializeTag(t).fields;
    InstantReadBack(f, CreatedAtField, t.createdAt);
    InstantReadBack(f, UpdatedAtField, t.updatedAt);
  }

  /** What a completed request stored is read back whole: every column, every date and every tag. */
  lemma StoredBodyRoundTrip(t: Transaction)
    ensures DeserializeTransaction(SerializeTransaction(t)) == Ok(t)
  {
    hide InstantOf, SerializeTag, DeserializeTag, DeserializeDetails, SerializeTransaction, ToIso;
    var o := BodyAt(t);
    DatesReadBack(t, o);
    DetailsReadBack(t, o);
    var items := o[TagsField].items;
    var tags := seq(|items|, i requires 0 <= i < |items| => DeserializeTag(items[i], i, o));
    forall i | 0 <= i < |t.tags| ensures tags[i] == t.tags[i] {
      TagReadBack(t.tags[i], i, o);
    }
    assert tags == t.tags;
  }
}
