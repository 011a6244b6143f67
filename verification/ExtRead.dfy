/**
 * A reader of extended JSON, and the round trip of `write_extjson` in
 * crates/red-core/src/doc.rs through it.
 */
module ExtRead {
  import opened Bytes
  import opened Wrappers
  import opened JsonText
  import opened ExtJson
  import IsoDate
  import Base64

  /** Pairs of hex digits as bytes. */
  function UnHex(s: string): Option<seq<Byte>> {
    if s == "" then Some([])
    else if |s| == 1 then None
    else
      match (HexValue(s[0]), HexValue(s[1]), UnHex(s[2..]))
      case (Some(h), Some(l), Some(rest)) => Some([(16 * h + l) as Byte] + rest)
      case _ => None
  }

  function ReadInt(s: string): Option<int> {
    match ReadNumber(s)
    case Some(p) => if p.rest == "" && p.value.JInt? then Some(p.value.n) else None
    case None => None
  }

  function ReadDate(j: Json): Option<DocValue> {
    match j
    case JStr(s) =>
      (match IsoDate.ReadIso(s)
       case Some(ms) => Some(DateTime(ms))
       case None => None)
    case JObj(ms) =>
      if |ms| == 1 && ms[0].name == "$numberLong" && ms[0].value.JStr? then
        match ReadInt(ms[0].value.s)
        case Some(n) => Some(DateTime(n))
        case None => None
      else None
    case _ => None
  }

  function ReadStamp(t: Json, i: Json): Option<DocValue> {
    if t.JInt? && i.JInt? && 0 <= t.n < POW32 && 0 <= i.n < POW32 then Some(Timestamp(t.n * POW32 + i.n)) else None
  }

  function ReadBinary(data: Json, subtype: Json): Option<DocValue> {
    if !data.JStr? || !subtype.JStr? then None
    else
      match (Base64.Decode(data.s), UnHex(subtype.s))
      case (Some(bytes), Some(t)) => if |t| == 1 then Some(Binary(t[0], bytes)) else None
      case _ => None
  }

  function ReadDouble(s: string): Option<DocValue> {
    if s == "NaN" then Some(Double(DNaN))
    else if s == "Infinity" then Some(Double(DInfinite(false)))
    else if s == "-Infinity" then Some(Double(DInfinite(true)))
    else None
  }

  /** A two-member object with these names, in this order. */
  predicate Holds(j: Json, first: string, second: string) {
    j.JObj? && |j.fields| == 2 && j.fields[0].name == first && j.fields[1].name == second
  }

  /** The value a `$`-named single-member object stands for. */
  function FromTag(name: string, j: Json): Option<DocValue> {
    if name == "$date" then ReadDate(j)
    else if name == "$oid" && j.JStr? then
      match UnHex(j.s)
      case Some(id) => if |id| == 12 then Some(ObjectId(id)) else None
      case None => None
    else if name == "$numberDouble" && j.JStr? then ReadDouble(j.s)
    else if name == "$numberDecimal" && j.JStr? then Some(Decimal128(j.s))
    else if name == "$timestamp" && Holds(j, "t", "i") then ReadStamp(j.fields[0].value, j.fields[1].value)
    else if name == "$binary" && Holds(j, "base64", "subType") then ReadBinary(j.fields[0].value, j.fields[1].value)
    else if name == "$regularExpression" && Holds(j, "pattern", "options") && j.fields[0].value.JStr? && j.fields[1].value.JStr? then
      Some(Regex(j.fields[0].value.s, j.fields[1].value.s))
    else None
  }

  /** Integers come back 64-bit: their text does not say which width was written, or whether it was a double. */
  function FromJson(j: Json): DocValue
    decreases j, 1
  {
    match j
    case JNull => Null
    case JBool(b) => Bool(b)
    case JInt(n) => Int64(n)
    case JReal(x) => Double(DFinite(x))
    case JStr(s) => Str(s)
    case JArr(items) => Array(ItemsFrom(items))
    case JObj(members) =>
      if |members| == 1 && FromTag(members[0].name, members[0].value).Some? then FromTag(members[0].name, members[0].value).value
      else Document(FieldsFrom(members))
  }

  function ItemsFrom(items: seq<Json>): seq<DocValue>
    decreases items, 0
  {
    if items == [] then [] else [FromJson(items[0])] + ItemsFrom(items[1..])
  }

  function FieldsFrom(members: seq<Member>): seq<Field>
    decreases members, 0
  {
    if members == [] then [] else [Field(members[0].name, FromJson(members[0].value))] + FieldsFrom(members[1..])
  }

  /** The reader of extended-JSON text. */
  function ReadExtJson(text: string): Option<DocValue> {
    match Read(text)
    case Some(j) => Some(FromJson(j))
    case None => None
  }

  /** A value with its 32-bit integers and its integral doubles as 64-bit integers. */
  function Widened(v: DocValue): DocValue
    decreases v, 1
  {
    match v
    case Int32(n) => Int64(n)
    case Double(DFinite(x)) => if IsFractional(x) then v else Int64(IntegerOf(x))
    case Array(items) => Array(WidenedItems(items))
    case Document(fields) => Document(WidenedFields(fields))
    case _ => v
  }

  function WidenedItems(items: seq<DocValue>): seq<DocValue>
    decreases items, 0
  {
    if items == [] then [] else [Widened(items[0])] + WidenedItems(items[1..])
  }

  function WidenedFields(fields: seq<Field>): seq<Field>
    decreases fields, 0
  {
    if fields == [] then [] else [Field(fields[0].name, Widened(fields[0].value))] + WidenedFields(fields[1..])
  }

  // ----- scalars -----

  lemma HexByte(b: Byte)
    ensures |Hex2(b)| == 2 && HexValue(Hex2(b)[0]) == Some(b as int / 16) && HexValue(Hex2(b)[1]) == Some(b as int % 16)
  {
    HexRoundTrip(b as int / 16);
    HexRoundTrip(b as int % 16);
  }

  lemma {:induction false} HexReads(bytes: seq<Byte>)
    ensures UnHex(HexAll(bytes)) == Some(bytes)
    decreases |bytes|
  {
    hide Hex2, HexValue;
    if bytes != [] {
      var b := bytes[0];
      HexByte(b);
      HexReads(bytes[1..]);
      assert HexAll(bytes)[2..] == HexAll(bytes[1..]);
      assert bytes == [b] + bytes[1..];
    }
  }

  lemma IntReads(n: int)
    ensures ReadInt(Decimal(n)) == Some(n)
  {
    hide ReadNumber, Decimal;
    NumberRoundTrip(n, "");
    assert Decimal(n) + "" == Decimal(n);
  }

  lemma DateReads(ms: int)
    ensures FromJson(ToJson(DateTime(ms))) == DateTime(ms)
  {
    hide IsoDate.Iso8601, IsoDate.ReadIso, ReadInt, Decimal;
    if IsoDate.Iso8601(ms).Some? {
      IsoDate.IsoRoundTrip(ms);
    } else {
      IntReads(ms);
    }
  }

  lemma BinaryReads(subtype: Byte, bytes: seq<Byte>)
    ensures FromJson(ToJson(Binary(subtype, bytes))) == Binary(subtype, bytes)
  {
    hide Base64.Encode, Base64.Decode, UnHex, Hex2, HexAll;
    Base64.RoundTrip(bytes);
    HexReads([subtype]);
    HexOne(subtype);
  }

  lemma HexOne(b: Byte)
    ensures HexAll([b]) == Hex2(b)
  {
    assert [b][1..] == [];
    assert HexAll([]) == "";
  }

  lemma StampReads(ts: nat)
    requires ts < POW32 * POW32
    ensures FromJson(ToJson(Timestamp(ts))) == Timestamp(ts)
  {
    assert ts == (ts / POW32) * POW32 + ts % POW32;
    assert 0 <= ts / POW32 < POW32;
  }

  lemma ScalarReads(v: DocValue)
    requires Readable(v) && !v.Array? && !v.Document?
    ensures FromJson(ToJson(v)) == Widened(v)
  {
    hide UnHex, HexAll;
    match v
    case ObjectId(id) => HexReads(id);
    case DateTime(ms) => DateReads(ms);
    case Timestamp(ts) => StampReads(ts);
    case Binary(subtype, bytes) => BinaryReads(subtype, bytes);
    case _ =>
  }

  // ----- trees -----

  /** A tag's name starts with `$`, and a tag never stands for a document. */
  lemma TagFacts(name: string, j: Json)
    requires FromTag(name, j).Some?
    ensures name != "" && name[0] == '$' && !FromTag(name, j).value.Document?
  {
    hide UnHex, IsoDate.ReadIso, ReadInt, Base64.Decode;
  }

  /** A sub-document of one field whose text reads as a tag. */
  predicate Forges(v: DocValue)
    decreases v, 1
  {
    match v
    case Array(items) => ItemsForge(items)
    case Document(fields) => (|fields| == 1 && FromTag(fields[0].name, ToJson(fields[0].value)).Some?) || FieldsForge(fields)
    case _ => false
  }

  predicate ItemsForge(items: seq<DocValue>)
    decreases items, 0
  {
    items != [] && (Forges(items[0]) || ItemsForge(items[1..]))
  }

  predicate FieldsForge(fields: seq<Field>)
    decreases fields, 0
  {
    fields != [] && (Forges(fields[0].value) || FieldsForge(fields[1..]))
  }

  lemma {:induction false} JsonReads(v: DocValue)
    requires Readable(v)
    ensures FromJson(ToJson(v)) == Widened(v) <==> !Forges(v)
    decreases v, 1
  {
    hide FromTag;
    match v
    case Array(items) => ItemsRead(items);
    case Document(fields) =>
      FieldsRead(fields);
      var members := FieldsToJson(fields);
      if |members| == 1 {
        assert members[0] == Member(fields[0].name, ToJson(fields[0].value));
        if FromTag(members[0].name, members[0].value).Some? {
          TagFacts(members[0].name, members[0].value);
        }
      }
    case _ => ScalarReads(v);
  }

  lemma {:induction false} ItemsRead(items: seq<DocValue>)
    requires forall i :: 0 <= i < |items| ==> Readable(items[i])
    ensures ItemsFrom(ItemsToJson(items)) == WidenedItems(items) <==> !ItemsForge(items)
    decreases items, 0
  {
    hide FromJson, ToJson, Widened, Readable, Forges;
    if items != [] {
      JsonReads(items[0]);
      ItemsRead(items[1..]);
      var js := ItemsToJson(items);
      assert js[0] == ToJson(items[0]) && js[1..] == ItemsToJson(items[1..]);
      var x, y := ItemsFrom(js), WidenedItems(items);
      assert x[0] == FromJson(js[0]) && x[1..] == ItemsFrom(js[1..]);
      assert y[0] == Widened(items[0]) && y[1..] == WidenedItems(items[1..]);
    }
  }

  lemma {:induction false} FieldsRead(fields: seq<Field>)
    requires forall i :: 0 <= i < |fields| ==> Readable(fields[i].value)
    ensures FieldsFrom(FieldsToJson(fields)) == WidenedFields(fields) <==> !FieldsForge(fields)
    decreases fields, 0
  {
    hide FromJson, ToJson, Widened, Readable, Forges;
    if fields != [] {
      JsonReads(fields[0].value);
      FieldsRead(fields[1..]);
      var ms := FieldsToJson(fields);
      assert ms[0] == Member(fields[0].name, ToJson(fields[0].value)) && ms[1..] == FieldsToJson(fields[1..]);
      var x, y := FieldsFrom(ms), WidenedFields(fields);
      assert x[0] == Field(ms[0].name, FromJson(ms[0].value)) && x[1..] == FieldsFrom(ms[1..]);
      assert y[0] == Field(fields[0].name, Widened(fields[0].value)) && y[1..] == WidenedFields(fields[1..]);
    }
  }

  /** A value tree is recovered from its text, the width of integers aside, exactly when none of its documents forges a tag. */
  lemma ExtJsonExactly(v: DocValue)
    requires Readable(v)
    ensures ReadExtJson(ExtText(v)) == Some(Widened(v)) <==> !Forges(v)
  {
    hide ExtText, Print, Read, FromJson, ToJson, Readable, Forges;
    WrittenAsJson(v);
    RoundTrip(ToJson(v));
    JsonReads(v);
  }

  /** No field name anywhere starts with `$`. */
  predicate NoDollar(v: DocValue)
    decreases v, 1
  {
    match v
    case Array(items) => forall i :: 0 <= i < |items| ==> NoDollar(items[i])
    case Document(fields) =>
      forall i :: 0 <= i < |fields| ==> NoDollar(fields[i].value) && (fields[i].name != "" ==> fields[i].name[0] != '$')
    case _ => true
  }

  lemma {:induction false} NoDollarNoForgery(v: DocValue)
    requires NoDollar(v)
    ensures !Forges(v)
    decreases v, 1
  {
    hide FromTag;
    match v
    case Array(items) => NoItemForges(items);
    case Document(fields) =>
      NoFieldForges(fields);
      if |fields| == 1 && FromTag(fields[0].name, ToJson(fields[0].value)).Some? {
        TagFacts(fields[0].name, ToJson(fields[0].value));
        assert false;
      }
    case _ =>
  }

  lemma {:induction false} NoItemForges(items: seq<DocValue>)
    requires forall i :: 0 <= i < |items| ==> NoDollar(items[i])
    ensures !ItemsForge(items)
    decreases items, 0
  {
    hide NoDollar, Forges;
    if items != [] {
      NoDollarNoForgery(items[0]);
      NoItemForges(items[1..]);
    }
  }

  lemma {:induction false} NoFieldForges(fields: seq<Field>)
    requires forall i :: 0 <= i < |fields| ==> NoDollar(fields[i].value)
    ensures !FieldsForge(fields)
    decreases fields, 0
  {
    hide NoDollar, Forges;
    if fields != [] {
      NoDollarNoForgery(fields[0].value);
      NoFieldForges(fields[1..]);
    }
  }

  /** Every tree without `$` names is recovered from the text written for it. */
  lemma ExtJsonRoundTrip(v: DocValue)
    requires Readable(v) && NoDollar(v)
    ensures ReadExtJson(ExtText(v)) == Some(Widened(v))
  {
    hide ExtText, ReadExtJson, Widened, Readable, Forges, NoDollar;
    NoDollarNoForgery(v);
    ExtJsonExactly(v);
  }

  /** The text tells apart any two trees without forged tags that differ in more than integer width. */
  lemma ExtJsonInjective(v: DocValue, w: DocValue)
    requires Readable(v) && Readable(w) && !Forges(v) && !Forges(w)
    ensures ExtText(v) == ExtText(w) ==> Widened(v) == Widened(w)
  {
    hide ExtText, Widened, ReadExtJson, Readable, Forges;
    ExtJsonExactly(v);
    ExtJsonExactly(w);
  }

  /** A `$` field name forges a tag: a document and an ObjectId share one text. */
  lemma DollarFieldsCollide(id: Oid)
    ensures ExtText(Document([Field("$oid", Str(HexAll(id)))])) == ExtText(ObjectId(id))
  {
    hide HexAll, Print, ToJson, ExtText;
    var f := Field("$oid", Str(HexAll(id)));
    FieldsWritten([f]);
    ScalarText(ObjectId(id));
    CollideAsJson(f, id);
  }

  lemma CollideAsJson(f: Field, id: Oid)
    requires f == Field("$oid", Str(HexAll(id)))
    ensures ToJson(ObjectId(id)) == JObj(FieldsToJson([f]))
    ensures ExtText(Document([f])) == "{" + ExtFields([f]) + "}"
    ensures Print(JObj(FieldsToJson([f]))) == "{" + Members(FieldsToJson([f])) + "}"
  {
    hide HexAll, ExtFields, Members;
    assert [f][1..] == [];
  }
}
