/** Reading the JSON exports of crates/red-driver/src/docexport.rs back, both formats. */
module ExportRead {
  import opened Wrappers
  import opened JsonText
  import opened ExtJson
  import opened ExtRead
  import opened Search
  import opened DocExport

  /** A document as one value, its `_id` first. */
  function AsValue(d: Doc): DocValue {
    Document([Field("_id", d.id)] + d.fields)
  }

  lemma WholeIs(d: Doc)
    ensures WholeDoc(d) == AsValue(d)
  {
  }

  /** The documents of an export as values. */
  function Wholes(docs: seq<Doc>): seq<DocValue> {
    if docs == [] then [] else Wholes(docs[..|docs| - 1]) + [AsValue(docs[|docs| - 1])]
  }

  predicate AllReadable(docs: seq<Doc>) {
    forall i :: 0 <= i < |docs| ==> Readable(AsValue(docs[i]))
  }

  lemma {:induction false} WholesReadable(docs: seq<Doc>)
    requires AllReadable(docs)
    ensures |Wholes(docs)| == |docs| && forall i :: 0 <= i < |docs| ==> Readable(Wholes(docs)[i])
    decreases |docs|
  {
    hide Readable, AsValue;
    if docs != [] {
      WholesReadable(docs[..|docs| - 1]);
    }
  }

  lemma {:induction false} ItemsToJsonSnoc(items: seq<DocValue>, v: DocValue)
    ensures ItemsToJson(items + [v]) == ItemsToJson(items) + [ToJson(v)]
    decreases |items|
  {
    hide ToJson;
    var all := items + [v];
    if items == [] {
      assert all[1..] == [];
    } else {
      assert all[1..] == items[1..] + [v];
      ItemsToJsonSnoc(items[1..], v);
    }
  }

  lemma {:induction false} ItemsFromSnoc(items: seq<Json>, j: Json)
    ensures ItemsFrom(items + [j]) == ItemsFrom(items) + [FromJson(j)]
    decreases |items|
  {
    hide FromJson;
    var all := items + [j];
    if items == [] {
      assert all[1..] == [];
    } else {
      assert all[1..] == items[1..] + [j];
      ItemsFromSnoc(items[1..], j);
    }
  }

  // ----- one document a line -----

  predicate OneLine(s: string) {
    forall k :: 0 <= k < |s| ==> s[k] != '\n'
  }

  lemma {:induction false} EscapedOneLine(s: string)
    ensures OneLine(EscapeAll(s))
    decreases |s|
  {
    if s != "" {
      EscapedOneLine(s[1..]);
      EscapeOneLine(s[0]);
    }
  }

  lemma EscapeOneLine(c: char)
    ensures OneLine(EscapeChar(c))
  {
  }

  lemma NumberOneLine(n: int)
    ensures OneLine(Decimal(n))
  {
    hide Digits;
    DigitsAreDigits(if n < 0 then -n else n);
  }

  lemma RealOneLine(x: Fractional)
    ensures OneLine(FixedText(x))
  {
    hide Digits;
    DigitsAreDigits(x.whole);
  }

  lemma {:induction false} PrintOneLine(j: Json)
    ensures OneLine(Print(j))
    decreases j, 1
  {
    hide EscapeAll, Items, Members, Decimal;
    match j
    case JInt(n) => NumberOneLine(n);
    case JReal(x) => RealOneLine(x);
    case JStr(s) => EscapedOneLine(s);
    case JArr(items) => ItemsOneLine(items);
    case JObj(fields) => MembersOneLine(fields);
    case _ =>
  }

  lemma {:induction false} ItemsOneLine(items: seq<Json>)
    ensures OneLine(Items(items))
    decreases items, 0
  {
    hide Print;
    if items != [] {
      PrintOneLine(items[0]);
      ItemsOneLine(items[1..]);
    }
  }

  lemma {:induction false} MembersOneLine(fields: seq<Member>)
    ensures OneLine(Members(fields))
    decreases fields, 0
  {
    hide Print, EscapeAll;
    if fields != [] {
      EscapedOneLine(fields[0].name);
      PrintOneLine(fields[0].value);
      MembersOneLine(fields[1..]);
      assert OneLine(MemberText(fields[0]));
    }
  }

  /** One value per line. */
  function ReadLines(text: string): Option<seq<DocValue>> {
    if text == "" then Some([])
    else
      var i := First(text, '\n');
      if i == |text| then None
      else
        match (ReadExtJson(text[..i]), ReadLines(text[i + 1..]))
        case (Some(v), Some(rest)) => Some([v] + rest)
        case _ => None
  }

  /** A value as the reader gets it back. */
  function Reread(v: DocValue): DocValue {
    FromJson(ToJson(v))
  }

  lemma TextReads(v: DocValue)
    requires Readable(v)
    ensures ReadExtJson(ExtText(v)) == Some(Reread(v)) && OneLine(ExtText(v))
  {
    hide ExtText, Print, Read, FromJson, ToJson, Readable;
    WrittenAsJson(v);
    RoundTrip(ToJson(v));
    PrintOneLine(ToJson(v));
  }

  lemma LineReads(v: DocValue, rest: string)
    requires Readable(v)
    ensures ReadLines(ExtText(v) + "\n" + rest) ==
            match ReadLines(rest)
            case Some(more) => Some([Reread(v)] + more)
            case None => None
  {
    hide ExtText, ReadExtJson, Readable, Reread, First;
    var line := ExtText(v);
    var text := line + "\n" + rest;
    TextReads(v);
    FirstAt(line, '\n', rest);
    assert text == line + ['\n'] + rest;
    assert text[..|line|] == line && text[|line| + 1..] == rest;
  }

  /** The lines of an export read back as its documents, reread one by one; whatever follows is read next. */
  lemma {:induction false} LinesRead(docs: seq<Doc>, rest: string)
    requires AllReadable(docs) && ReadLines(rest).Some?
    ensures ReadLines(LinesBody(docs) + rest) == Some(ItemsFrom(ItemsToJson(Wholes(docs))) + ReadLines(rest).value)
    decreases |docs|
  {
    hide ReadLines, Readable, WholeDoc, AsValue, ExtText, FromJson, ToJson, ItemsFrom, ItemsToJson;
    if docs == [] {
      NothingRead();
      assert LinesBody(docs) + rest == rest;
      assert [] + ReadLines(rest).value == ReadLines(rest).value;
    } else {
      var front, d := docs[..|docs| - 1], docs[|docs| - 1];
      var v := AsValue(d);
      WholeIs(d);
      var more := ExtText(v) + "\n" + rest;
      assert LinesBody(docs) + rest == LinesBody(front) + more;
      LineReads(v, rest);
      LinesRead(front, more);
      ItemsToJsonSnoc(Wholes(front), v);
      ItemsFromSnoc(ItemsToJson(Wholes(front)), ToJson(v));
      var x := ItemsFrom(ItemsToJson(Wholes(front)));
      assert x + ([Reread(v)] + ReadLines(rest).value) == (x + [Reread(v)]) + ReadLines(rest).value;
    }
  }

  lemma NothingRead()
    ensures ItemsToJson([]) == [] && ItemsFrom([]) == []
  {
  }

  /** An NDJSON export reads back to its documents, in order, exactly when none of them forges a tag. */
  lemma NdjsonReadsBack(docs: seq<Doc>)
    requires AllReadable(docs)
    ensures ReadLines(Finished(Ndjson, docs)) == Some(WidenedItems(Wholes(docs))) <==> !ItemsForge(Wholes(docs))
  {
    hide ReadLines, ItemsFrom, ItemsToJson, WidenedItems, ItemsForge, Wholes, LinesBody, Readable, AsValue;
    assert ReadLines("") == Some([]) by { NoLines(); }
    LinesRead(docs, "");
    assert LinesBody(docs) + "" == LinesBody(docs);
    var x := ItemsFrom(ItemsToJson(Wholes(docs)));
    assert x + [] == x;
    WholesReadable(docs);
    ItemsRead(Wholes(docs));
  }

  lemma NoLines()
    ensures ReadLines("") == Some([])
  {
  }

  // ----- one array of documents -----

  /** White space that JSON ignores between tokens (section 2 of RFC 8259). */
  predicate IsLayout(c: char) {
    c == ' ' || c == '\n' || c == '\r' || c == '\t'
  }

  /** The text without layout, outside string literals. */
  function Squeezed(s: string): string
    decreases |s|
  {
    if s == "" then ""
    else if s[0] == '\"' then ['\"'] + InLiteral(s[1..])
    else if IsLayout(s[0]) then Squeezed(s[1..])
    else [s[0]] + Squeezed(s[1..])
  }

  /** The same from inside a string literal. */
  function InLiteral(s: string): string
    decreases |s|
  {
    if s == "" then ""
    else if s[0] == '\"' then ['\"'] + Squeezed(s[1..])
    else if s[0] == '\\' && |s| > 1 then s[..2] + InLiteral(s[2..])
    else [s[0]] + InLiteral(s[1..])
  }

  /** Text that squeezing leaves alone, whatever follows. */
  ghost predicate Solid(t: string) {
    forall rest: string :: Squeezed(t + rest) == t + Squeezed(rest)
  }

  lemma SolidConcat(x: string, y: string)
    requires Solid(x) && Solid(y)
    ensures Solid(x + y)
  {
    hide Squeezed;
    forall rest: string ensures Squeezed(x + y + rest) == x + y + Squeezed(rest) {
      assert x + y + rest == x + (y + rest);
      assert x + (y + Squeezed(rest)) == x + y + Squeezed(rest);
    }
  }

  lemma SolidChar(c: char)
    requires !IsLayout(c) && c != '\"'
    ensures Solid([c])
  {
    forall rest: string ensures Squeezed([c] + rest) == [c] + Squeezed(rest) {
      assert ([c] + rest)[1..] == rest;
    }
  }

  lemma {:induction false} SolidPlain(s: string)
    requires forall k :: 0 <= k < |s| ==> !IsLayout(s[k]) && s[k] != '\"'
    ensures Solid(s)
    decreases |s|
  {
    hide Solid, IsLayout;
    if s == "" {
      SolidNone();
    } else {
      SolidChar(s[0]);
      SolidPlain(s[1..]);
      SolidConcat([s[0]], s[1..]);
      assert s == [s[0]] + s[1..];
    }
  }

  lemma SolidNone()
    ensures Solid("")
  {
    forall rest: string ensures Squeezed("" + rest) == "" + Squeezed(rest) {
      assert "" + rest == rest;
      assert "" + Squeezed(rest) == Squeezed(rest);
    }
  }

  lemma LiteralChar(c: char, rest: string)
    ensures InLiteral(EscapeChar(c) + rest) == EscapeChar(c) + InLiteral(rest)
  {
    var e := EscapeChar(c);
    var t := e + rest;
    if |e| == 1 {
      assert t[1..] == rest;
    } else if |e| == 2 {
      assert t[..2] == e && t[2..] == rest;
    } else {
      var h := e[2..];
      assert t[..2] == e[..2] && t[2..] == h + rest;
      PlainInLiteral(h, rest);
      assert e == e[..2] + h;
      assert e[..2] + (h + InLiteral(rest)) == e + InLiteral(rest);
    }
  }

  lemma {:induction false} PlainInLiteral(h: string, rest: string)
    requires forall k :: 0 <= k < |h| ==> h[k] != '\"' && h[k] != '\\'
    ensures InLiteral(h + rest) == h + InLiteral(rest)
    decreases |h|
  {
    if h == "" {
      assert h + rest == rest;
      assert "" + InLiteral(rest) == InLiteral(rest);
    } else {
      assert (h + rest)[1..] == h[1..] + rest;
      PlainInLiteral(h[1..], rest);
      assert [h[0]] + (h[1..] + InLiteral(rest)) == h + InLiteral(rest);
    }
  }

  lemma {:induction false} LiteralBody(s: string, rest: string)
    ensures InLiteral(EscapeAll(s) + rest) == EscapeAll(s) + InLiteral(rest)
    decreases |s|
  {
    hide InLiteral, EscapeChar;
    if s == "" {
      assert EscapeAll(s) + rest == rest;
      assert "" + InLiteral(rest) == InLiteral(rest);
    } else {
      var e, t := EscapeChar(s[0]), EscapeAll(s[1..]);
      assert EscapeAll(s) + rest == e + (t + rest);
      LiteralChar(s[0], t + rest);
      LiteralBody(s[1..], rest);
      assert e + (t + InLiteral(rest)) == EscapeAll(s) + InLiteral(rest);
    }
  }

  lemma SolidQuoted(s: string)
    ensures Solid(Quoted(s))
  {
    hide EscapeAll;
    forall rest: string ensures Squeezed(Quoted(s) + rest) == Quoted(s) + Squeezed(rest) {
      var body := EscapeAll(s);
      var tail := ['\"'] + rest;
      assert Quoted(s) + rest == ['\"'] + (body + tail);
      assert (['\"'] + (body + tail))[1..] == body + tail;
      LiteralBody(s, tail);
      assert tail[1..] == rest;
      assert InLiteral(tail) == ['\"'] + Squeezed(rest);
      assert ['\"'] + (body + (['\"'] + Squeezed(rest))) == Quoted(s) + Squeezed(rest);
    }
  }

  lemma SolidNumber(n: int)
    ensures Solid(Decimal(n))
  {
    hide Solid, Digits;
    DigitsAreDigits(if n < 0 then -n else n);
    SolidPlain(Decimal(n));
  }

  lemma SolidReal(x: Fractional)
    ensures Solid(FixedText(x))
  {
    hide Solid, Digits;
    DigitsAreDigits(x.whole);
    SolidPlain(FixedText(x));
  }

  lemma SolidWords()
    ensures Solid("null") && Solid("true") && Solid("false") && Solid("[") && Solid("]") && Solid("{") && Solid("}") && Solid(",") && Solid(":")
  {
    hide Solid;
    SolidPlain("null");
    SolidPlain("true");
    SolidPlain("false");
    SolidPlain("[");
    SolidPlain("]");
    SolidPlain("{");
    SolidPlain("}");
    SolidPlain(",");
    SolidPlain(":");
  }

  /** Compact JSON text has no layout to lose. */
  lemma {:induction false} SolidPrint(j: Json)
    ensures Solid(Print(j))
    decreases j, 1
  {
    hide Solid, Quoted, Decimal, Items, Members;
    SolidWords();
    match j
    case JInt(n) => SolidNumber(n);
    case JReal(x) => SolidReal(x);
    case JStr(s) => SolidQuoted(s);
    case JArr(items) =>
      SolidItems(items);
      SolidConcat("[", Items(items));
      SolidConcat("[" + Items(items), "]");
    case JObj(fields) =>
      SolidMembers(fields);
      SolidConcat("{", Members(fields));
      SolidConcat("{" + Members(fields), "}");
    case _ =>
  }

  lemma {:induction false} SolidItems(items: seq<Json>)
    ensures Solid(Items(items))
    decreases items, 0
  {
    hide Solid, Print;
    SolidNone();
    SolidWords();
    if items != [] {
      SolidPrint(items[0]);
      SolidItems(items[1..]);
      SolidConcat(Print(items[0]), ",");
      SolidConcat(Print(items[0]) + ",", Items(items[1..]));
    }
  }

  lemma {:induction false} SolidMembers(fields: seq<Member>)
    ensures Solid(Members(fields))
    decreases fields, 0
  {
    hide Solid, Print, Quoted;
    SolidNone();
    SolidWords();
    if fields != [] {
      var f := fields[0];
      SolidQuoted(f.name);
      SolidPrint(f.value);
      SolidMembers(fields[1..]);
      SolidConcat(Quoted(f.name), ":");
      SolidConcat(Quoted(f.name) + ":", Print(f.value));
      assert Solid(MemberText(f));
      SolidConcat(MemberText(f), ",");
      SolidConcat(MemberText(f) + ",", Members(fields[1..]));
    }
  }

  /** The values of a JSON array text. */
  function ReadArray(text: string): Option<seq<DocValue>> {
    match Read(Squeezed(text))
    case Some(JArr(items)) => Some(ItemsFrom(items))
    case _ => None
  }

  lemma {:induction false} ItemsSnocJson(items: seq<Json>, j: Json)
    ensures Items(items + [j]) == if items == [] then Print(j) else Items(items) + "," + Print(j)
    decreases |items|
  {
    hide Print;
    var all := items + [j];
    if items != [] {
      assert all[1..] == items[1..] + [j];
      ItemsSnocJson(items[1..], j);
      assert |items| == 1 ==> items[1..] == [];
    }
  }

  lemma LayoutDrops(rest: string)
    ensures Squeezed("\n  " + rest) == Squeezed(rest) && Squeezed(",\n  " + rest) == "," + Squeezed(rest)
  {
    var a, b := " " + rest, "  " + rest;
    assert a[1..] == rest && b[1..] == a;
    var c, d := "\n  " + rest, ",\n  " + rest;
    assert c[1..] == b && d[1..] == c;
    assert Squeezed(a) == Squeezed(rest);
    assert Squeezed(b) == Squeezed(a);
  }

  /** Squeezed, the documents of an array export stand as in compact JSON. */
  lemma {:induction false} ArraySqueezes(docs: seq<Doc>, rest: string)
    requires AllReadable(docs)
    ensures Squeezed(ArrayBody(docs) + rest) == Items(ItemsToJson(Wholes(docs))) + Squeezed(rest)
    decreases |docs|
  {
    hide Squeezed, Readable, WholeDoc, AsValue, ExtText, ToJson, ItemsToJson, Items, Print;
    NothingWritten();
    if docs == [] {
      assert ArrayBody(docs) + rest == rest;
      assert "" + Squeezed(rest) == Squeezed(rest);
    } else {
      var front, d := docs[..|docs| - 1], docs[|docs| - 1];
      var v := AsValue(d);
      WholeIs(d);
      var j, js := ToJson(v), ItemsToJson(Wholes(front));
      WrittenAsJson(v);
      var sep := if |docs| == 1 then "\n  " else ",\n  ";
      var tail := Print(j) + rest;
      assert ArrayBody(docs) + rest == ArrayBody(front) + (sep + tail);
      ArraySqueezes(front, sep + tail);
      LayoutDrops(tail);
      SolidPrint(j);
      assert Squeezed(tail) == Print(j) + Squeezed(rest);
      ItemsToJsonSnoc(Wholes(front), v);
      WholesCount(front);
      ItemsSnocJson(js, j);
      ArrayAssembly(Items(js), Print(j), Squeezed(rest));
    }
  }

  lemma NothingWritten()
    ensures ItemsToJson([]) == [] && Items([]) == ""
  {
  }

  lemma {:induction false} WholesCount(docs: seq<Doc>)
    ensures |Wholes(docs)| == |docs| && |ItemsToJson(Wholes(docs))| == |docs|
    decreases |docs|
  {
    if docs != [] {
      WholesCount(docs[..|docs| - 1]);
    }
  }

  lemma ArrayAssembly(x: string, y: string, z: string)
    ensures "" + (y + z) == y + z && x + ("," + (y + z)) == (x + "," + y) + z
  {
  }

  /** The whole array text, squeezed, is compact JSON. */
  lemma ArrayIsJson(docs: seq<Doc>)
    requires AllReadable(docs)
    ensures Squeezed(Finished(JsonArray, docs)) == Print(JArr(ItemsToJson(Wholes(docs))))
  {
    hide Squeezed, Readable, ItemsToJson, Items, Wholes, ArrayBody;
    var tail := if docs == [] then "]\n" else "\n]\n";
    SolidWords();
    assert Finished(JsonArray, docs) == "[" + (ArrayBody(docs) + tail);
    assert Squeezed("[" + (ArrayBody(docs) + tail)) == "[" + Squeezed(ArrayBody(docs) + tail);
    ArraySqueezes(docs, tail);
    TailSqueezes();
    var items := Items(ItemsToJson(Wholes(docs)));
    assert "[" + (items + "]") == "[" + items + "]";
  }

  lemma TailSqueezes()
    ensures Squeezed("]\n") == "]" && Squeezed("\n]\n") == "]"
  {
    assert "]\n"[1..] == "\n" && "\n"[1..] == "" && "\n]\n"[1..] == "]\n";
    assert Squeezed("\n") == "";
  }

  /** A JSON array export reads back to its documents, in order, exactly when none of them forges a tag. */
  lemma ArrayReadsBack(docs: seq<Doc>)
    requires AllReadable(docs)
    ensures ReadArray(Finished(JsonArray, docs)) == Some(WidenedItems(Wholes(docs))) <==> !ItemsForge(Wholes(docs))
  {
    hide Squeezed, Readable, ItemsToJson, Print, Read, ItemsFrom, WidenedItems, ItemsForge, Wholes, Finished, AsValue;
    ArrayIsJson(docs);
    RoundTrip(JArr(ItemsToJson(Wholes(docs))));
    WholesReadable(docs);
    ItemsRead(Wholes(docs));
  }
}
