/**
 * Extended JSON of crates/red-core/src/doc.rs: the writer `write_extjson`, and a
 * reader that recovers the value tree from its text.
 */
module ExtJson {
  import opened Bytes
  import opened Wrappers
  import opened JsonText
  import IsoDate
  import Base64

  /** A double as the writer sees it: finite ones through the decimal text that `Display` gives them. */
  datatype Double = DNaN | DInfinite(negative: bool) | DFinite(x: Finite)

  /** The twelve bytes of an ObjectId. */
  type Oid = b: seq<Byte> | |b| == 12 witness [0, 0, 0, 0, 0, 0, 0, 0, 0, 0, 0, 0]

  datatype DocValue =
    | Null
    | Bool(b: bool)
    | Int32(n: int)
    | Int64(n: int)
    | Double(x: Double)
    | Decimal128(text: string)
    | Str(s: string)
    | ObjectId(id: Oid)
    | DateTime(ms: int)
    | Timestamp(ts: nat)
    | Binary(subtype: Byte, bytes: seq<Byte>)
    | Regex(pattern: string, options: string)
    | Array(items: seq<DocValue>)
    | Document(fields: seq<Field>)

  datatype Field = Field(name: string, value: DocValue)

  function Hex2(b: Byte): string {
    [HexChar(b as int / 16), HexChar(b as int % 16)]
  }

  function HexAll(bytes: seq<Byte>): string {
    if bytes == [] then "" else Hex2(bytes[0]) + HexAll(bytes[1..])
  }

  const POW32: nat := 0x1_0000_0000

  /** `{"$tag":…}` around a text. */
  function Tagged(tag: string, inner: string): string {
    ['{', '\"'] + tag + ['\"', ':'] + inner + ['}']
  }

  function InQuotes(s: string): string {
    ['\"'] + s + ['\"']
  }

  /** The text `write_extjson` appends for a value. */
  function ExtText(v: DocValue): string
    decreases v, 1
  {
    match v
    case Null => "null"
    case Bool(b) => if b then "true" else "false"
    case Int32(n) => Decimal(n)
    case Int64(n) => Decimal(n)
    case Double(DFinite(x)) => FixedText(x)
    case Double(DNaN) => Tagged("$numberDouble", InQuotes("NaN"))
    case Double(DInfinite(negative)) => Tagged("$numberDouble", InQuotes(if negative then "-Infinity" else "Infinity"))
    case Decimal128(text) => Tagged("$numberDecimal", InQuotes(text))
    case Str(s) => Quoted(s)
    case ObjectId(id) => Tagged("$oid", InQuotes(HexAll(id)))
    case DateTime(ms) =>
      (match IsoDate.Iso8601(ms)
       case Some(iso) => Tagged("$date", InQuotes(iso))
       case None => Tagged("$date", Tagged("$numberLong", InQuotes(Decimal(ms)))))
    case Timestamp(ts) =>
      Tagged("$timestamp", ['{', '\"', 't', '\"', ':'] + Decimal(ts / POW32) + [',', '\"', 'i', '\"', ':'] + Decimal(ts % POW32) + ['}'])
    case Binary(subtype, bytes) =>
      Tagged("$binary", ['{', '\"'] + "base64" + ['\"', ':', '\"'] + Base64.Encode(bytes) + ['\"', ',', '\"'] + "subType" + ['\"', ':', '\"'] + Hex2(subtype) + ['\"', '}'])
    case Regex(pattern, options) =>
      Tagged("$regularExpression", ['{', '\"'] + "pattern" + ['\"', ':'] + Quoted(pattern) + [',', '\"'] + "options" + ['\"', ':'] + Quoted(options) + ['}'])
    case Array(items) => "[" + ExtItems(items) + "]"
    case Document(fields) => "{" + ExtFields(fields) + "}"
  }

  function ExtItems(items: seq<DocValue>): string
    decreases items, 0
  {
    if items == [] then ""
    else if |items| == 1 then ExtText(items[0])
    else ExtText(items[0]) + "," + ExtItems(items[1..])
  }

  function ExtField(f: Field): string
    decreases f, 0
  {
    Quoted(f.name) + ":" + ExtText(f.value)
  }

  function ExtFields(fields: seq<Field>): string
    decreases fields, 0
  {
    if fields == [] then ""
    else if |fields| == 1 then ExtField(fields[0])
    else ExtField(fields[0]) + "," + ExtFields(fields[1..])
  }

  // ----- the writer -----

  lemma {:induction false} ItemsSnoc(items: seq<DocValue>, v: DocValue)
    ensures ExtItems(items + [v]) == if items == [] then ExtText(v) else ExtItems(items) + "," + ExtText(v)
    decreases |items|
  {
    hide ExtText;
    var all := items + [v];
    if items != [] {
      assert all[1..] == items[1..] + [v];
      ItemsSnoc(items[1..], v);
      assert |items| == 1 ==> items[1..] == [];
    }
  }

  lemma {:induction false} FieldsSnoc(fields: seq<Field>, f: Field)
    ensures ExtFields(fields + [f]) == if fields == [] then ExtField(f) else ExtFields(fields) + "," + ExtField(f)
    decreases |fields|
  {
    hide ExtField;
    var all := fields + [f];
    if fields != [] {
      assert all[1..] == fields[1..] + [f];
      FieldsSnoc(fields[1..], f);
      assert |fields| == 1 ==> fields[1..] == [];
    }
  }

  lemma {:induction false} HexSnoc(bytes: seq<Byte>, b: Byte)
    ensures HexAll(bytes + [b]) == HexAll(bytes) + Hex2(b)
    decreases |bytes|
  {
    hide Hex2;
    var all := bytes + [b];
    if bytes == [] {
      assert all[1..] == [];
    } else {
      assert all[1..] == bytes[1..] + [b];
      HexSnoc(bytes[1..], b);
    }
  }

  method WriteHex(out: string, bytes: seq<Byte>) returns (r: string)
    ensures r == out + HexAll(bytes)
  {
    r := out;
    for i := 0 to |bytes|
      invariant r == out + HexAll(bytes[..i])
    {
      HexSnoc(bytes[..i], bytes[i]);
      assert bytes[..i + 1] == bytes[..i] + [bytes[i]];
      r := r + Hex2(bytes[i]);
    }
    assert bytes[..|bytes|] == bytes;
  }

  lemma ItemsStep(out: string, items: seq<DocValue>, i: nat)
    requires i < |items|
    ensures out + ExtItems(items[..i + 1]) == (if i > 0 then out + ExtItems(items[..i]) + "," else out + ExtItems(items[..i])) + ExtText(items[i])
  {
    hide ExtText, ExtItems;
    NoItems();
    ItemsSnoc(items[..i], items[i]);
    assert items[..i + 1] == items[..i] + [items[i]];
    var x, y := ExtItems(items[..i]), ExtText(items[i]);
    assert out + (x + "," + y) == out + x + "," + y;
    assert i == 0 ==> out + "" == out;
  }

  method WriteItems(out: string, items: seq<DocValue>) returns (r: string)
    ensures r == out + ExtItems(items)
    decreases items, 0
  {
    hide ExtText, ExtItems;
    r := out;
    NoItems();
    for i := 0 to |items|
      invariant r == out + ExtItems(items[..i])
    {
      ItemsStep(out, items, i);
      if i > 0 {
        r := r + ",";
      }
      r := WriteExtJson(r, items[i]);
    }
    assert items[..|items|] == items;
  }

  lemma NoItems()
    ensures ExtItems([]) == "" && ExtFields([]) == ""
  {
  }

  lemma FieldText(f: Field)
    ensures ExtField(f) == Quoted(f.name) + ":" + ExtText(f.value)
  {
    hide ExtText, Quoted;
  }

  lemma FieldsStep(out: string, fields: seq<Field>, i: nat)
    requires i < |fields|
    ensures out + ExtFields(fields[..i + 1]) ==
            (if i > 0 then out + ExtFields(fields[..i]) + "," else out + ExtFields(fields[..i]))
              + Quoted(fields[i].name) + ":" + ExtText(fields[i].value)
  {
    hide ExtText, ExtFields, ExtField, Quoted;
    NoItems();
    FieldsSnoc(fields[..i], fields[i]);
    FieldText(fields[i]);
    assert fields[..i + 1] == fields[..i] + [fields[i]];
    FieldAssembly(out, ExtFields(fields[..i]), Quoted(fields[i].name), ExtText(fields[i].value));
  }

  lemma FieldAssembly(out: string, x: string, q: string, t: string)
    ensures out + (x + "," + (q + ":" + t)) == out + x + "," + q + ":" + t
    ensures out + (q + ":" + t) == out + "" + q + ":" + t
  {
  }

  method WriteFields(out: string, fields: seq<Field>) returns (r: string)
    ensures r == out + ExtFields(fields)
    decreases fields, 0
  {
    hide ExtText, ExtField, ExtFields, Quoted;
    r := out;
    NoItems();
    for i := 0 to |fields|
      invariant r == out + ExtFields(fields[..i])
    {
      FieldsStep(out, fields, i);
      if i > 0 {
        r := r + ",";
      }
      r := WriteJsonString(r, fields[i].name);
      r := r + ":";
      r := WriteExtJson(r, fields[i].value);
    }
    assert fields[..|fields|] == fields;
  }

  /** `write_extjson`. */
  method WriteExtJson(out: string, v: DocValue) returns (r: string)
    ensures r == out + ExtText(v)
    decreases v, 1
  {
    hide ExtItems, ExtFields, HexAll;
    match v {
      case Str(s) =>
        r := WriteJsonString(out, s);
      case ObjectId(id) =>
        r := WriteHex(out + ['{', '\"'] + "$oid" + ['\"', ':'] + ['\"'], id);
        r := r + ['\"'] + ['}'];
      case Binary(subtype, bytes) =>
        var encoded := Base64.EncodeInto("", bytes);
        assert encoded == Base64.Encode(bytes);
        r := out + Tagged("$binary", ['{', '\"'] + "base64" + ['\"', ':', '\"'] + encoded + ['\"', ',', '\"'] + "subType" + ['\"', ':', '\"'] + Hex2(subtype) + ['\"', '}']);
      case Regex(pattern, options) =>
        var p := WriteJsonString("", pattern);
        var o := WriteJsonString("", options);
        assert p == Quoted(pattern) && o == Quoted(options);
        r := out + Tagged("$regularExpression", ['{', '\"'] + "pattern" + ['\"', ':'] + p + [',', '\"'] + "options" + ['\"', ':'] + o + ['}']);
      case Array(items) =>
        r := WriteItems(out + "[", items);
        r := r + "]";
      case Document(fields) =>
        r := WriteFields(out + "{", fields);
        r := r + "}";
      case _ =>
        r := out + ExtText(v);
    }
  }

  // ----- the same text, as JSON -----

  function Tag(name: string, j: Json): Json {
    JObj([Member(name, j)])
  }

  /** The JSON value whose compact text the writer writes. */
  function ToJson(v: DocValue): Json
    decreases v, 1
  {
    match v
    case Null => JNull
    case Bool(b) => JBool(b)
    case Int32(n) => JInt(n)
    case Int64(n) => JInt(n)
    case Double(DFinite(x)) => if IsFractional(x) then JReal(x) else JInt(IntegerOf(x))
    case Double(DNaN) => Tag("$numberDouble", JStr("NaN"))
    case Double(DInfinite(negative)) => Tag("$numberDouble", JStr(if negative then "-Infinity" else "Infinity"))
    case Decimal128(text) => Tag("$numberDecimal", JStr(text))
    case Str(s) => JStr(s)
    case ObjectId(id) => Tag("$oid", JStr(HexAll(id)))
    case DateTime(ms) =>
      (match IsoDate.Iso8601(ms)
       case Some(iso) => Tag("$date", JStr(iso))
       case None => Tag("$date", Tag("$numberLong", JStr(Decimal(ms)))))
    case Timestamp(ts) => Tag("$timestamp", JObj([Member("t", JInt(ts / POW32)), Member("i", JInt(ts % POW32))]))
    case Binary(subtype, bytes) =>
      Tag("$binary", JObj([Member("base64", JStr(Base64.Encode(bytes))), Member("subType", JStr(Hex2(subtype)))]))
    case Regex(pattern, options) =>
      Tag("$regularExpression", JObj([Member("pattern", JStr(pattern)), Member("options", JStr(options))]))
    case Array(items) => JArr(ItemsToJson(items))
    case Document(fields) => JObj(FieldsToJson(fields))
  }

  function ItemsToJson(items: seq<DocValue>): (r: seq<Json>)
    ensures |r| == |items|
    decreases items, 0
  {
    if items == [] then [] else [ToJson(items[0])] + ItemsToJson(items[1..])
  }

  function FieldsToJson(fields: seq<Field>): (r: seq<Member>)
    ensures |r| == |fields|
    decreases fields, 0
  {
    if fields == [] then [] else [Member(fields[0].name, ToJson(fields[0].value))] + FieldsToJson(fields[1..])
  }

  /** Text that a JSON string holds without escapes. */
  predicate PlainChar(c: char) {
    c != '\"' && c != '\\' && c as int >= 0x20
  }

  predicate PlainText(s: string) {
    forall k :: 0 <= k < |s| ==> PlainChar(s[k])
  }

  lemma {:induction false} PlainQuoted(s: string)
    requires PlainText(s)
    ensures EscapeAll(s) == s && Quoted(s) == InQuotes(s)
    decreases |s|
  {
    if s != "" {
      PlainQuoted(s[1..]);
      assert EscapeChar(s[0]) == [s[0]];
    }
  }

  /** What is written as JSON: decimals of plain text, 64-bit timestamps. */
  predicate Readable(v: DocValue) {
    match v
    case Decimal128(text) => PlainText(text)
    case Timestamp(ts) => ts < POW32 * POW32
    case Array(items) => forall i :: 0 <= i < |items| ==> Readable(items[i])
    case Document(fields) => forall i :: 0 <= i < |fields| ==> Readable(fields[i].value)
    case _ => true
  }

  lemma {:induction false} HexPlain(bytes: seq<Byte>)
    ensures PlainText(HexAll(bytes))
    decreases |bytes|
  {
    if bytes != [] {
      HexPlain(bytes[1..]);
    }
  }

  /** Hex is lower-case, two digits a byte. */
  lemma {:induction false} HexLower(bytes: seq<Byte>)
    ensures |HexAll(bytes)| == 2 * |bytes|
    ensures forall k :: 0 <= k < |HexAll(bytes)| ==> '0' <= HexAll(bytes)[k] <= '9' || 'a' <= HexAll(bytes)[k] <= 'f'
    decreases |bytes|
  {
    if bytes != [] {
      HexLower(bytes[1..]);
    }
  }

  lemma DecimalPlain(n: int)
    ensures PlainText(Decimal(n))
  {
    hide Digits;
    DigitsAreDigits(if n < 0 then -n else n);
  }

  lemma Base64Plain(bytes: seq<Byte>)
    ensures PlainText(Base64.Encode(bytes))
  {
    hide Base64.Encode;
    Base64.Alphabetic(bytes);
    var s := Base64.Encode(bytes);
    forall k | 0 <= k < |s| ensures PlainChar(s[k]) {
      assert s[k] == '=' || Base64.Index(s[k]).Some?;
    }
  }

  lemma {:induction false} PadPlain(n: nat, w: nat)
    ensures PlainText(IsoDate.Pad(n, w))
    decreases w
  {
    if w > 0 {
      PadPlain(n / 10, w - 1);
    }
  }

  lemma IsoPlain(ms: int)
    requires IsoDate.Iso8601(ms).Some?
    ensures PlainText(IsoDate.Iso8601(ms).value)
  {
    hide IsoDate.Pad;
    var d := IsoDate.CivilDate.CivilFromDays(ms / IsoDate.DAY_MS);
    var rem := ms % IsoDate.DAY_MS;
    IsoDate.CivilDate.CivilIsTheDate(ms / IsoDate.DAY_MS);
    PadPlain(d.year, 4);
    PadPlain(d.month, 2);
    PadPlain(d.day, 2);
    PadPlain(rem / 1000 / 3600, 2);
    PadPlain(rem / 1000 % 3600 / 60, 2);
    PadPlain(rem / 1000 % 60, 2);
    PadPlain(rem % 1000, 3);
  }

  lemma TaggedText(name: string, j: Json)
    requires PlainText(name)
    ensures Print(Tag(name, j)) == Tagged(name, Print(j))
  {
    PlainQuoted(name);
    hide Quoted;
    assert [Member(name, j)][0] == Member(name, j);
    assert MemberText(Member(name, j)) == InQuotes(name) + ":" + Print(j);
  }

  lemma MembersTwo(f: Member, g: Member)
    ensures Print(JObj([f, g])) == "{" + (MemberText(f) + "," + MemberText(g)) + "}"
  {
    hide MemberText;
    assert [f, g][1..] == [g];
    assert Members([g]) == MemberText(g);
  }

  lemma PairAssembly(m: string, a: string, n: string, c: string)
    ensures "{" + (InQuotes(m) + ":" + a + "," + (InQuotes(n) + ":" + c)) + "}" ==
            ['{', '\"'] + m + ['\"', ':'] + a + [',', '\"'] + n + ['\"', ':'] + c + ['}']
  {
  }

  lemma PairText(m: string, j: Json, n: string, k: Json)
    requires PlainText(m) && PlainText(n)
    ensures Print(JObj([Member(m, j), Member(n, k)])) ==
            ['{', '\"'] + m + ['\"', ':'] + Print(j) + [',', '\"'] + n + ['\"', ':'] + Print(k) + ['}']
  {
    hide Print, Quoted, InQuotes;
    PlainQuoted(m);
    PlainQuoted(n);
    MembersTwo(Member(m, j), Member(n, k));
    PairAssembly(m, Print(j), n, Print(k));
  }

  lemma TagNames()
    ensures PlainText("$numberDouble") && PlainText("$numberDecimal") && PlainText("$numberLong") && PlainText("$oid")
    ensures PlainText("$date") && PlainText("$timestamp") && PlainText("$binary") && PlainText("$regularExpression")
  {
  }

  lemma PartNames()
    ensures PlainText("t") && PlainText("i") && PlainText("base64") && PlainText("subType") && PlainText("pattern") && PlainText("options")
    ensures PlainText("NaN") && PlainText("Infinity") && PlainText("-Infinity")
  {
  }

  lemma QuotedString(s: string)
    requires PlainText(s)
    ensures Print(JStr(s)) == InQuotes(s)
  {
    PlainQuoted(s);
  }

  lemma BinaryText(subtype: Byte, bytes: seq<Byte>)
    ensures Print(ToJson(Binary(subtype, bytes))) == ExtText(Binary(subtype, bytes))
  {
    hide Print, Base64.Encode, Hex2, InQuotes, Tagged, PlainText;
    var x, y := Base64.Encode(bytes), Hex2(subtype);
    TagNames();
    PartNames();
    Base64Plain(bytes);
    Hex2Plain(subtype);
    QuotedString(x);
    QuotedString(y);
    PairText("base64", JStr(x), "subType", JStr(y));
    TaggedText("$binary", JObj([Member("base64", JStr(x)), Member("subType", JStr(y))]));
    BinaryAssembly(x, y);
  }

  lemma BinaryAssembly(x: string, y: string)
    ensures ['{', '\"'] + "base64" + ['\"', ':'] + InQuotes(x) + [',', '\"'] + "subType" + ['\"', ':'] + InQuotes(y) + ['}'] ==
            ['{', '\"'] + "base64" + ['\"', ':', '\"'] + x + ['\"', ',', '\"'] + "subType" + ['\"', ':', '\"'] + y + ['\"', '}']
  {
    var a, b: string := "base64", "subType";
    BinaryAssemblyOf(a, b, x, y);
  }

  lemma BinaryAssemblyOf(a: string, b: string, x: string, y: string)
    ensures ['{', '\"'] + a + ['\"', ':'] + InQuotes(x) + [',', '\"'] + b + ['\"', ':'] + InQuotes(y) + ['}'] ==
            ['{', '\"'] + a + ['\"', ':', '\"'] + x + ['\"', ',', '\"'] + b + ['\"', ':', '\"'] + y + ['\"', '}']
  {
  }

  lemma Hex2Plain(b: Byte)
    ensures PlainText(Hex2(b))
  {
  }

  lemma FiniteText(x: Finite)
    ensures Print(ToJson(Double(DFinite(x)))) == FixedText(x)
  {
    hide Digits;
    if !IsFractional(x) && x.negative {
      assert "-" + Digits(x.whole) + "" == "-" + Digits(x.whole);
    }
  }

  lemma ScalarText(v: DocValue)
    requires Readable(v) && !v.Array? && !v.Document? && !v.Binary?
    ensures Print(ToJson(v)) == ExtText(v)
  {
    hide HexAll, InQuotes, Tagged, PlainText, Decimal, IsoDate.Iso8601;
    TagNames();
    PartNames();
    match v
    case Double(DNaN) =>
      QuotedString("NaN");
      TaggedText("$numberDouble", JStr("NaN"));
    case Double(DInfinite(negative)) =>
      var t := if negative then "-Infinity" else "Infinity";
      QuotedString(t);
      TaggedText("$numberDouble", JStr(t));
    case Double(DFinite(x)) => FiniteText(x);
    case Decimal128(text) =>
      QuotedString(text);
      TaggedText("$numberDecimal", JStr(text));
    case ObjectId(id) =>
      HexPlain(id);
      QuotedString(HexAll(id));
      TaggedText("$oid", JStr(HexAll(id)));
    case DateTime(ms) =>
      if IsoDate.Iso8601(ms).Some? {
        var iso := IsoDate.Iso8601(ms).value;
        IsoPlain(ms);
        QuotedString(iso);
        TaggedText("$date", JStr(iso));
      } else {
        DecimalPlain(ms);
        QuotedString(Decimal(ms));
        TaggedText("$numberLong", JStr(Decimal(ms)));
        TaggedText("$date", Tag("$numberLong", JStr(Decimal(ms))));
      }
    case Timestamp(ts) =>
      PairText("t", JInt(ts / POW32), "i", JInt(ts % POW32));
      TaggedText("$timestamp", JObj([Member("t", JInt(ts / POW32)), Member("i", JInt(ts % POW32))]));
      StampAssembly(Decimal(ts / POW32), Decimal(ts % POW32));
    case Regex(pattern, options) =>
      PairText("pattern", JStr(pattern), "options", JStr(options));
      TaggedText("$regularExpression", JObj([Member("pattern", JStr(pattern)), Member("options", JStr(options))]));
    case _ =>
  }

  lemma StampAssembly(x: string, y: string)
    ensures ['{', '\"'] + "t" + ['\"', ':'] + x + [',', '\"'] + "i" + ['\"', ':'] + y + ['}'] ==
            ['{', '\"', 't', '\"', ':'] + x + [',', '\"', 'i', '\"', ':'] + y + ['}']
  {
  }

  /** The writer writes JSON: the compact text of a JSON value. */
  lemma {:induction false} WrittenAsJson(v: DocValue)
    requires Readable(v)
    ensures Print(ToJson(v)) == ExtText(v)
    decreases v, 1
  {
    match v
    case Array(items) => ItemsWritten(items);
    case Document(fields) => FieldsWritten(fields);
    case Binary(subtype, bytes) => BinaryText(subtype, bytes);
    case _ => ScalarText(v);
  }

  lemma {:induction false} ItemsWritten(items: seq<DocValue>)
    requires forall i :: 0 <= i < |items| ==> Readable(items[i])
    ensures Items(ItemsToJson(items)) == ExtItems(items)
    decreases items, 0
  {
    hide Print, ExtText, Readable, ToJson;
    if items != [] {
      WrittenAsJson(items[0]);
      ItemsWritten(items[1..]);
      var js := ItemsToJson(items);
      assert js[0] == ToJson(items[0]) && js[1..] == ItemsToJson(items[1..]);
    }
  }

  lemma {:induction false} FieldsWritten(fields: seq<Field>)
    requires forall i :: 0 <= i < |fields| ==> Readable(fields[i].value)
    ensures Members(FieldsToJson(fields)) == ExtFields(fields)
    decreases fields, 0
  {
    hide Print, ExtText, Readable, ToJson, Quoted;
    if fields != [] {
      WrittenAsJson(fields[0].value);
      FieldsWritten(fields[1..]);
      var ms := FieldsToJson(fields);
      assert ms[0] == Member(fields[0].name, ToJson(fields[0].value)) && ms[1..] == FieldsToJson(fields[1..]);
      assert MemberText(ms[0]) == ExtField(fields[0]);
    }
  }
}
