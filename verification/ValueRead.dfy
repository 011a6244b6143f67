/**
 * A reader of INSERT statements, written apart from the writer of crates/red-core/src/valuefmt.rs:
 * the table, the names in their order and the row come back out of the clipboard text.
 */
module ValueRead {
  import opened Bytes
  import opened Wrappers
  import opened Values
  import opened ValueFmt
  import opened SqlLexer
  import opened SqlText
  import opened SqlClipboard

  // ----- the reader -----

  /** A literal as an engine takes it: `NULL`, a bare number, or a string. */
  datatype Cell = Absent | Bare(number: Text) | Quoted(s: Text)

  datatype Parsed<T> = Parsed(value: T, rest: Text)

  /** `t` without the leading `lead`. */
  function After(t: Text, lead: Text): (r: Option<Text>)
    ensures r.Some? ==> |r.value| == |t| - |lead|
  {
    if StartsWithAt(t, 0, lead) then Some(t[|lead|..]) else None
  }

  function Push(c: Byte, r: Option<Parsed<Text>>): Option<Parsed<Text>> {
    match r case None => None case Some(p) => Some(Parsed([c] + p.value, p.rest))
  }

  /** The rest of a quoted text: a doubled quote is one, and so is what a backslash escapes. */
  function ReadQuoted(t: Text, q: Byte, escapes: bool): (r: Option<Parsed<Text>>)
    ensures r.Some? ==> |r.value.rest| < |t|
  {
    if t == [] then None
    else if t[0] == q then
      if |t| > 1 && t[1] == q then Push(q, ReadQuoted(t[2..], q, escapes)) else Some(Parsed([], t[1..]))
    else if escapes && t[0] == BACKSLASH then
      if |t| > 1 then Push(t[1], ReadQuoted(t[2..], q, escapes)) else None
    else Push(t[0], ReadQuoted(t[1..], q, escapes))
  }

  /** How many bytes a bare number takes. */
  function NumberLength(t: Text): (n: nat)
    ensures n <= |t|
  {
    if t != [] && (IsDigit(t[0]) || t[0] == 45 || t[0] == 46) then 1 + NumberLength(t[1..]) else 0
  }

  function ReadCell(t: Text, escapes: bool): (r: Option<Parsed<Cell>>)
    ensures r.Some? ==> |r.value.rest| < |t|
  {
    if t != [] && t[0] == 39 then
      match ReadQuoted(t[1..], 39, escapes)
      case None => None
      case Some(p) => Some(Parsed(Quoted(p.value), p.rest))
    else
      match After(t, Ascii("NULL"))
      case Some(rest) => Some(Parsed(Absent, rest))
      case None =>
        var n := NumberLength(t);
        if n == 0 then None else Some(Parsed(Bare(t[..n]), t[n..]))
  }

  function ReadName(t: Text): (r: Option<Parsed<Text>>)
    ensures r.Some? ==> |r.value.rest| < |t|
  {
    if t != [] && t[0] == 34 then ReadQuoted(t[1..], 34, false) else None
  }

  /** Names or cells, `, ` between them, up to the closing parenthesis. */
  function ReadNames(t: Text): (r: Option<Parsed<seq<Text>>>)
    decreases |t|
  {
    match ReadName(t)
    case None => None
    case Some(p) =>
      if p.rest != [] && p.rest[0] == 41 then Some(Parsed([p.value], p.rest[1..]))
      else match After(p.rest, [44, 32])
           case None => None
           case Some(rest) =>
             match ReadNames(rest) case None => None case Some(more) => Some(Parsed([p.value] + more.value, more.rest))
  }

  function ReadCells(t: Text, escapes: bool): (r: Option<Parsed<seq<Cell>>>)
    decreases |t|
  {
    match ReadCell(t, escapes)
    case None => None
    case Some(p) =>
      if p.rest != [] && p.rest[0] == 41 then Some(Parsed([p.value], p.rest[1..]))
      else match After(p.rest, [44, 32])
           case None => None
           case Some(rest) =>
             match ReadCells(rest, escapes) case None => None case Some(more) => Some(Parsed([p.value] + more.value, more.rest))
  }

  datatype Statement = Statement(table: Text, names: seq<Text>, cells: seq<Cell>)

  /** The names in parentheses, possibly none, after the opening one. */
  function ReadNameList(t: Text): Option<Parsed<seq<Text>>> {
    if t != [] && t[0] == 41 then Some(Parsed([], t[1..])) else ReadNames(t)
  }

  function ReadCellList(t: Text, escapes: bool): Option<Parsed<seq<Cell>>> {
    if t != [] && t[0] == 41 then Some(Parsed([], t[1..])) else ReadCells(t, escapes)
  }

  /** ` VALUES (1, 'x')`, and nothing behind it. */
  function ReadValues(t: Text, escapes: bool): Option<seq<Cell>> {
    match After(t, Ascii(" VALUES ("))
    case None => None
    case Some(t) =>
      match ReadCellList(t, escapes)
      case None => None
      case Some(p) => if p.rest == [] then Some(p.value) else None
  }

  /** ` ("a", "b")`. */
  function ReadColumns(t: Text): Option<Parsed<seq<Text>>> {
    match After(t, Ascii(" (")) case None => None case Some(t) => ReadNameList(t)
  }

  /** `INSERT INTO "t" ("a", "b") VALUES (1, 'x')`. */
  function ReadInsert(t: Text, escapes: bool): Option<Statement> {
    match After(t, Ascii("INSERT INTO "))
    case None => None
    case Some(t) =>
      match ReadName(t)
      case None => None
      case Some(table) =>
        match ReadColumns(table.rest)
        case None => None
        case Some(names) =>
          match ReadValues(names.rest, escapes)
          case None => None
          case Some(cells) => Some(Statement(table.value, names.value, cells))
  }

  // ----- what a cell should read as -----

  /** The number that decimal digits spell. */
  function NatValue(t: Text): int {
    if t == [] then 0 else 10 * NatValue(t[..|t| - 1]) + (t[|t| - 1] as int - 48)
  }

  function IntValue(t: Text): int {
    if t != [] && t[0] == 45 then -NatValue(t[1..]) else NatValue(t)
  }

  predicate AllDigits(t: Text) {
    t != [] && forall k :: 0 <= k < |t| ==> IsDigit(t[k])
  }

  /** A `-` if negative, then digits; no other text. */
  predicate IsInteger(t: Text) {
    AllDigits(t) || (t != [] && t[0] == 45 && AllDigits(t[1..]))
  }

  /** The text that a reader gets which takes a backslash for itself: each of them twice. */
  function Twice(s: Text): Text {
    if s == [] then [] else (if s[0] == 92 then [92, 92] else [s[0]]) + Twice(s[1..])
  }

  /** The text a string cell reads back as. */
  function TextBack(s: Text, escapes: bool): Text {
    if escapes then s else Twice(s)
  }

  /** `<N bytes>`, with the number of bytes. */
  ghost predicate MarksBytes(t: Text, len: nat) {
    exists digits :: t == [60] + digits + Ascii(" bytes>") && AllDigits(digits) && NatValue(digits) == len
  }

  ghost predicate ReadsAs(v: Value, c: Cell, escapes: bool) {
    match v
    case Null => c.Absent?
    case Integer(n) => c.Bare? && IsInteger(c.number) && IntValue(c.number) == n
    case Real(NaN) => c == Quoted(Ascii("NaN"))
    case Real(Infinite(negative)) => c == Quoted(if negative then Ascii("-Infinity") else Ascii("Infinity"))
    case Real(Finite(_, display)) => c == Bare(display)
    case Str(s) => c == Quoted(TextBack(s, escapes))
    case Blob(bytes) => c.Quoted? && MarksBytes(c.s, |bytes|)
    case Capped(cell) =>
      c.Quoted? && if cell.isBlob then MarksBytes(c.s, cell.len) else c.s == TextBack(cell.head, escapes) + [0xE2, 0x80, 0xA6]
  }

  // ----- quoted texts -----

  /** What may follow a cell or a name. */
  predicate Follows(r: Text) {
    r != [] && (r[0] == 44 || r[0] == 41 || r[0] == 32)
  }

  lemma ReadByte(c: Byte, t: Text, q: Byte, escapes: bool)
    requires c != q && (escapes ==> c != BACKSLASH)
    ensures ReadQuoted([c] + t, q, escapes) == Push(c, ReadQuoted(t, q, escapes))
  {
    assert ([c] + t)[1..] == t;
  }

  lemma ReadPair(c: Byte, t: Text, q: Byte, escapes: bool)
    requires c == q || (escapes && c == BACKSLASH)
    ensures ReadQuoted([c, c] + t, q, escapes) == Push(c, ReadQuoted(t, q, escapes))
  {
    assert ([c, c] + t)[2..] == t;
  }

  lemma ReadClose(r: Text, q: Byte, escapes: bool)
    requires r != [] && r[0] != q
    ensures ReadQuoted([q] + r, q, escapes) == Some(Parsed([], r))
  {
    assert ([q] + r)[1..] == r;
  }

  /** A string literal reads back, whichever way the reader takes backslashes. */
  lemma {:induction false} LiteralReads(s: Text, r: Text, escapes: bool)
    requires Follows(r)
    ensures ReadQuoted(Escaped(s) + ([SQUOTE] + r), SQUOTE, escapes) == Some(Parsed(TextBack(s, escapes), r))
    decreases |s|
  {
    hide ReadQuoted, Escaped;
    if s == [] {
      EscapedNone();
      assert Escaped(s) + ([SQUOTE] + r) == [SQUOTE] + r;
      ReadClose(r, SQUOTE, escapes);
    } else {
      var c, t := s[0], Escaped(s[1..]) + ([SQUOTE] + r);
      EscapedCons(s);
      Assoc(EscapedByte(c), Escaped(s[1..]), [SQUOTE] + r);
      LiteralReads(s[1..], r, escapes);
      assert s == [c] + s[1..];
      if c == SQUOTE || (c == BACKSLASH && escapes) {
        ReadPair(c, t, SQUOTE, escapes);
      } else if c == BACKSLASH {
        assert [c, c] + t == [c] + ([c] + t);
        ReadByte(c, t, SQUOTE, escapes);
        ReadByte(c, [c] + t, SQUOTE, escapes);
        assert [c] + ([c] + Twice(s[1..])) == [c, c] + Twice(s[1..]);
      } else {
        ReadByte(c, t, SQUOTE, escapes);
      }
    }
  }

  lemma EscapedNone()
    ensures Escaped([]) == []
  {
  }

  lemma DoubledStep(s: Text, c: Byte)
    ensures s == [] ==> Doubled(s, c) == []
    ensures s != [] ==> Doubled(s, c) == (if s[0] == c then [c, c] else [s[0]]) + Doubled(s[1..], c)
  {
  }

  /** A quoted name reads back, backslashes and all. */
  lemma {:induction false} NameReads(s: Text, r: Text)
    requires Follows(r)
    ensures ReadQuoted(Doubled(s, DQUOTE) + ([DQUOTE] + r), DQUOTE, false) == Some(Parsed(s, r))
    decreases |s|
  {
    hide ReadQuoted, Doubled;
    DoubledStep(s, DQUOTE);
    if s == [] {
      assert Doubled(s, DQUOTE) + ([DQUOTE] + r) == [DQUOTE] + r;
      ReadClose(r, DQUOTE, false);
    } else {
      var c, t := s[0], Doubled(s[1..], DQUOTE) + ([DQUOTE] + r);
      NameReads(s[1..], r);
      assert s == [c] + s[1..];
      if c == DQUOTE {
        Assoc([c, c], Doubled(s[1..], DQUOTE), [DQUOTE] + r);
        ReadPair(c, t, DQUOTE, false);
      } else {
        Assoc([c], Doubled(s[1..], DQUOTE), [DQUOTE] + r);
        ReadByte(c, t, DQUOTE, false);
      }
    }
  }

  lemma IdentReads(name: Text, r: Text)
    requires Follows(r)
    ensures ReadName(SqlIdent(name) + r) == Some(Parsed(name, r))
  {
    hide ReadQuoted, Doubled;
    var t := SqlIdent(name) + r;
    assert t == [DQUOTE] + (Doubled(name, DQUOTE) + ([DQUOTE] + r));
    assert t[1..] == Doubled(name, DQUOTE) + ([DQUOTE] + r);
    NameReads(name, r);
  }

  lemma StringReads(s: Text, r: Text, escapes: bool)
    requires Follows(r)
    ensures ReadCell(SqlString(s) + r, escapes) == Some(Parsed(Quoted(TextBack(s, escapes)), r))
  {
    hide ReadQuoted, Doubled, TextBack;
    var t := SqlString(s) + r;
    assert t == [SQUOTE] + (Escaped(s) + ([SQUOTE] + r));
    assert t[1..] == Escaped(s) + ([SQUOTE] + r);
    LiteralReads(s, r, escapes);
  }

  lemma {:induction false} TwiceIsPlain(s: Text)
    ensures Twice(s) == s <==> BACKSLASH !in s
    ensures |Twice(s)| >= |s|
  {
    if s != [] {
      TwiceIsPlain(s[1..]);
      assert s == [s[0]] + s[1..];
      if s[0] == 92 {
        assert |Twice(s)| == 2 + |Twice(s[1..])|;
      } else {
        assert Twice(s)[1..] == Twice(s[1..]);
      }
    }
  }

  // ----- numbers -----

  lemma {:induction false} NumberSpan(t: Text, r: Text)
    requires (forall k :: 0 <= k < |t| ==> IsDigit(t[k]) || t[k] == 45 || t[k] == 46) && Follows(r)
    ensures NumberLength(t + r) == |t|
    decreases |t|
  {
    if t != [] {
      assert (t + r)[1..] == t[1..] + r;
      NumberSpan(t[1..], r);
    } else {
      assert t + r == r;
    }
  }

  lemma BareReads(t: Text, r: Text, escapes: bool)
    requires t != [] && (forall k :: 0 <= k < |t| ==> IsDigit(t[k]) || t[k] == 45 || t[k] == 46) && Follows(r)
    ensures ReadCell(t + r, escapes) == Some(Parsed(Bare(t), r))
  {
    hide NumberLength;
    NumberSpan(t, r);
    var b := t + r;
    assert b[0] == t[0];
    if StartsWithAt(b, 0, Ascii("NULL")) {
      StartsWithByte(b, 0, Ascii("NULL"), 0);
      assert false;
    }
    assert b[..|t|] == t && b[|t|..] == r;
  }

  lemma {:induction false} DigitsValue(n: nat)
    ensures AllDigits(DecimalBytes(n)) && NatValue(DecimalBytes(n)) == n
  {
    var t := DecimalBytes(n);
    if n >= 10 {
      DigitsValue(n / 10);
      assert t[..|t| - 1] == DecimalBytes(n / 10);
    } else {
      assert t[..0] == [];
    }
  }

  lemma IntegerReads(n: int)
    ensures IsInteger(Decimal(n)) && IntValue(Decimal(n)) == n
    ensures forall k :: 0 <= k < |Decimal(n)| ==> IsDigit(Decimal(n)[k]) || Decimal(n)[k] == 45 || Decimal(n)[k] == 46
  {
    hide DecimalBytes, NatValue;
    DigitsValue(if n < 0 then -n else n);
    if n < 0 {
      assert Decimal(n)[1..] == DecimalBytes(-n);
    }
  }

  lemma MarkerReads(len: nat, escapes: bool)
    ensures MarksBytes(TextBack(ByteMarker(len), escapes), len)
  {
    hide DecimalBytes, NatValue, Twice;
    DigitsValue(len);
    var t := ByteMarker(len);
    assert Ascii("<") == [60];
    assert t == [60] + DecimalBytes(len) + Ascii(" bytes>");
    assert BACKSLASH !in t by {
      assert BACKSLASH !in DecimalBytes(len) && BACKSLASH !in Ascii(" bytes>");
    }
    TwiceIsPlain(t);
  }

  lemma {:induction false} TwiceConcat(x: Text, y: Text)
    ensures Twice(x + y) == Twice(x) + Twice(y)
  {
    if x == [] {
      assert x + y == y;
    } else {
      assert (x + y)[1..] == x[1..] + y;
      TwiceConcat(x[1..], y);
    }
  }

  lemma EllipsisReads(head: Text, escapes: bool)
    ensures TextBack(head + [0xE2, 0x80, 0xA6], escapes) == TextBack(head, escapes) + [0xE2, 0x80, 0xA6]
  {
    hide Twice;
    TwiceConcat(head, [0xE2, 0x80, 0xA6]);
    TwiceIsPlain([0xE2, 0x80, 0xA6]);
  }

  // ----- cells -----

  lemma NullReads(r: Text, escapes: bool)
    ensures ReadCell(Ascii("NULL") + r, escapes) == Some(Parsed(Absent, r))
  {
    var t := Ascii("NULL") + r;
    assert t[0] == Ascii("NULL")[0];
    assert t[..4] == Ascii("NULL") && t[4..] == r;
  }

  /** A spelled-out NaN or infinity: no byte of it is escaped. */
  lemma SpellingReads(s: Text, r: Text, escapes: bool)
    requires Follows(r) && BACKSLASH !in s && SQUOTE !in s
    ensures ReadCell([SQUOTE] + s + [SQUOTE] + r, escapes) == Some(Parsed(Quoted(s), r))
  {
    hide ReadCell, SqlString, Twice;
    PlainString(s);
    StringReads(s, r, escapes);
    TwiceIsPlain(s);
  }

  lemma SpellingsPlain()
    ensures BACKSLASH !in Ascii("NaN") && SQUOTE !in Ascii("NaN")
    ensures BACKSLASH !in Ascii("Infinity") && SQUOTE !in Ascii("Infinity")
    ensures BACKSLASH !in Ascii("-Infinity") && SQUOTE !in Ascii("-Infinity")
  {
  }

  lemma NumberBytes(t: Text)
    requires IsNumber(t)
    ensures forall k :: 0 <= k < |t| ==> IsDigit(t[k]) || t[k] == 45 || t[k] == 46
  {
  }

  /** Every value reads back as what it is. */
  lemma ValueReads(v: Value, r: Text, escapes: bool)
    requires CellOk(v) && Follows(r)
    ensures exists c :: ReadsAs(v, c, escapes) && ReadCell(SqlValue(v) + r, escapes) == Some(Parsed(c, r))
  {
    hide ReadCell, Ascii, SqlString, ByteMarker, Decimal, TextBack, MarksBytes, IsInteger, IntValue;
    match v
    case Null =>
      NullReads(r, escapes);
      assert ReadsAs(v, Absent, escapes);
    case Integer(n) =>
      IntegerReads(n);
      NotEmpty(n);
      BareReads(Decimal(n), r, escapes);
      assert ReadsAs(v, Bare(Decimal(n)), escapes);
    case Real(NaN) =>
      SpellingsPlain();
      SpellingReads(Ascii("NaN"), r, escapes);
      assert ReadsAs(v, Quoted(Ascii("NaN")), escapes);
    case Real(Infinite(negative)) =>
      var s := if negative then Ascii("-Infinity") else Ascii("Infinity");
      SpellingsPlain();
      SpellingReads(s, r, escapes);
      assert ReadsAs(v, Quoted(s), escapes);
    case Real(Finite(_, display)) =>
      NumberBytes(display);
      BareReads(display, r, escapes);
      assert ReadsAs(v, Bare(display), escapes);
    case Str(s) =>
      StringReads(s, r, escapes);
      assert ReadsAs(v, Quoted(TextBack(s, escapes)), escapes);
    case Blob(bytes) =>
      StringReads(ByteMarker(|bytes|), r, escapes);
      MarkerReads(|bytes|, escapes);
      assert ReadsAs(v, Quoted(TextBack(ByteMarker(|bytes|), escapes)), escapes);
    case Capped(cell) =>
      StringReads(CappedText(cell), r, escapes);
      MarkerReads(cell.len, escapes);
      EllipsisReads(cell.head, escapes);
      assert ReadsAs(v, Quoted(TextBack(CappedText(cell), escapes)), escapes);
  }

  lemma NotEmpty(n: int)
    ensures Decimal(n) != []
  {
  }

  // ----- lists -----

  lemma AfterLead(lead: Text, r: Text)
    ensures After(lead + r, lead) == Some(r)
  {
    assert (lead + r)[..|lead|] == lead && (lead + r)[|lead|..] == r;
  }

  lemma JoinStep(parts: seq<Text>, r: Text)
    requires parts != []
    ensures |parts| == 1 ==> JoinComma(parts) + r == parts[0] + r
    ensures |parts| > 1 ==> JoinComma(parts) + r == parts[0] + ([44, 32] + (JoinComma(parts[1..]) + r))
  {
    hide JoinComma;
    JoinParts(parts);
    if |parts| > 1 {
      Nest(parts[0], [44, 32], JoinComma(parts[1..]), r);
    }
  }

  lemma Nest(p: Text, x: Text, y: Text, r: Text)
    ensures (p + x + y) + r == p + (x + (y + r))
  {
  }

  lemma JoinParts(parts: seq<Text>)
    requires parts != []
    ensures JoinComma(parts) == if |parts| == 1 then parts[0] else parts[0] + ([COMMA] + [SPACE]) + JoinComma(parts[1..])
  {
  }

  lemma {:induction false} NamesRead(names: seq<Text>, r: Text)
    requires names != []
    ensures ReadNames(JoinComma(Idents(names)) + ([RPAREN] + r)) == Some(Parsed(names, r))
    decreases |names|
  {
    hide JoinComma, SqlIdent, ReadName, After;
    var parts, close := Idents(names), [RPAREN] + r;
    JoinStep(parts, close);
    if |names| == 1 {
      IdentReads(names[0], close);
      assert close[1..] == r && names == [names[0]];
    } else {
      assert parts[1..] == Idents(names[1..]);
      var more := JoinComma(parts[1..]) + close;
      IdentReads(names[0], [44, 32] + more);
      AfterLead([44, 32], more);
      NamesRead(names[1..], r);
      assert names == [names[0]] + names[1..];
    }
  }

  ghost predicate AllRead(cells: seq<Value>, read: seq<Cell>, escapes: bool) {
    |read| == |cells| && forall k :: 0 <= k < |cells| ==> ReadsAs(cells[k], read[k], escapes)
  }

  lemma {:induction false} CellsRead(cells: seq<Value>, r: Text, escapes: bool)
    requires cells != [] && forall k :: 0 <= k < |cells| ==> CellOk(cells[k])
    ensures exists read :: AllRead(cells, read, escapes) && ReadCells(JoinComma(SqlValues(cells)) + ([RPAREN] + r), escapes) == Some(Parsed(read, r))
    decreases |cells|
  {
    hide JoinComma, SqlValue, ReadCell, After, CellOk, ReadsAs;
    var parts, close := SqlValues(cells), [RPAREN] + r;
    JoinStep(parts, close);
    if |cells| == 1 {
      ValueReads(cells[0], close, escapes);
      var c :| ReadsAs(cells[0], c, escapes) && ReadCell(SqlValue(cells[0]) + close, escapes) == Some(Parsed(c, close));
      assert close[1..] == r;
      assert AllRead(cells, [c], escapes);
    } else {
      assert parts[1..] == SqlValues(cells[1..]);
      var more := JoinComma(parts[1..]) + close;
      ValueReads(cells[0], [44, 32] + more, escapes);
      var c :| ReadsAs(cells[0], c, escapes) && ReadCell(SqlValue(cells[0]) + ([44, 32] + more), escapes) == Some(Parsed(c, [44, 32] + more));
      AfterLead([44, 32], more);
      CellsRead(cells[1..], r, escapes);
      var read :| AllRead(cells[1..], read, escapes) && ReadCells(more, escapes) == Some(Parsed(read, r));
      AllReadCons(cells, c, read, escapes);
    }
  }

  lemma AllReadCons(cells: seq<Value>, c: Cell, read: seq<Cell>, escapes: bool)
    requires cells != [] && ReadsAs(cells[0], c, escapes) && AllRead(cells[1..], read, escapes)
    ensures AllRead(cells, [c] + read, escapes)
  {
    hide ReadsAs;
    forall k | 0 <= k < |cells| ensures ReadsAs(cells[k], ([c] + read)[k], escapes) {
      if k > 0 {
        assert cells[1..][k - 1] == cells[k];
      }
    }
  }

  // ----- whole statements -----

  lemma NameListReads(names: seq<Text>, r: Text)
    ensures ReadNameList(JoinComma(Idents(names)) + ([RPAREN] + r)) == Some(Parsed(names, r))
  {
    hide ReadNames;
    var t := JoinComma(Idents(names)) + ([RPAREN] + r);
    if names == [] {
      assert t == [RPAREN] + r && t[1..] == r;
    } else {
      JoinParts(Idents(names));
      assert t[0] == DQUOTE;
      NamesRead(names, r);
    }
  }

  lemma {:induction false} NotClosing(cells: seq<Value>, r: Text)
    requires cells != [] && CellOk(cells[0])
    ensures JoinComma(SqlValues(cells)) + r != [] && (JoinComma(SqlValues(cells)) + r)[0] != RPAREN
  {
    hide SqlValue, JoinComma;
    JoinParts(SqlValues(cells));
    ValueLeads(cells[0]);
  }

  lemma {:induction false} ValueLeads(v: Value)
    requires CellOk(v)
    ensures SqlValue(v) != [] && SqlValue(v)[0] != RPAREN
  {
    hide Doubled;
  }

  lemma CellListReads(cells: seq<Value>, r: Text, escapes: bool)
    requires forall k :: 0 <= k < |cells| ==> CellOk(cells[k])
    ensures exists read :: AllRead(cells, read, escapes) && ReadCellList(JoinComma(SqlValues(cells)) + ([RPAREN] + r), escapes) == Some(Parsed(read, r))
  {
    hide ReadCells, ReadsAs, CellOk;
    var t := JoinComma(SqlValues(cells)) + ([RPAREN] + r);
    if cells == [] {
      assert t == [RPAREN] + r && t[1..] == r;
      assert AllRead(cells, [], escapes);
    } else {
      NotClosing(cells, [RPAREN] + r);
      CellsRead(cells, r, escapes);
    }
  }

  lemma InsertParts(table: Text, names: seq<Text>, cells: seq<Value>)
    ensures Insert(table, names, cells) ==
            Ascii("INSERT INTO ") + (SqlIdent(table) + (Ascii(" (") + (JoinComma(Idents(names)) + ([RPAREN] + (Ascii(" VALUES (") +
            (JoinComma(SqlValues(cells)) + ([RPAREN] + [])))))))
  {
    hide SqlIdent, JoinComma;
    assert Ascii(") VALUES (") == [RPAREN] + Ascii(" VALUES (");
    assert Ascii(")") == [RPAREN];
    hide Ascii;
    Right(Ascii("INSERT INTO "), SqlIdent(table), Ascii(" ("), JoinComma(Idents(names)), [RPAREN], Ascii(" VALUES ("),
          JoinComma(SqlValues(cells)), [RPAREN]);
  }

  lemma Right(a: Text, b: Text, c: Text, d: Text, e: Text, f: Text, g: Text, h: Text)
    ensures a + b + c + d + (e + f) + g + h == a + (b + (c + (d + (e + (f + (g + (h + [])))))))
  {
  }

  lemma SpaceFollows(r: Text)
    ensures Follows(Ascii(" (") + r)
  {
  }

  /**
   * From an INSERT, a reader gets its table, its names in their order and, cell by cell, its
   * row: whether or not it takes backslashes for escapes.
   */
  lemma InsertReadsBack(table: Text, names: seq<Text>, cells: seq<Value>, escapes: bool)
    requires forall k :: 0 <= k < |cells| ==> CellOk(cells[k])
    ensures exists read ::
              AllRead(cells, read, escapes) && ReadInsert(Insert(table, names, cells), escapes) == Some(Statement(table, names, read))
  {
    hide Insert, JoinComma, SqlIdent, ReadName, After, Ascii, ReadNameList, ReadCellList, CellOk, AllRead, Follows;
    InsertParts(table, names, cells);
    CellListReads(cells, [], escapes);
    var values := JoinComma(SqlValues(cells)) + ([RPAREN] + []);
    var read :| AllRead(cells, read, escapes) && ReadCellList(values, escapes) == Some(Parsed(read, []));
    AfterLead(Ascii(" VALUES ("), values);
    var tail := Ascii(" VALUES (") + values;
    NameListReads(names, tail);
    var columns := JoinComma(Idents(names)) + ([RPAREN] + tail);
    AfterLead(Ascii(" ("), columns);
    SpaceFollows(columns);
    IdentReads(table, Ascii(" (") + columns);
    AfterLead(Ascii("INSERT INTO "), SqlIdent(table) + (Ascii(" (") + columns));
  }

  /** Where a backslash stands for itself, a text reads back exactly when it holds none. */
  lemma TextReadsBackExactly(s: Text, escapes: bool)
    ensures ReadsAs(Str(s), Quoted(s), escapes) <==> escapes || BACKSLASH !in s
  {
    hide Twice;
    TwiceIsPlain(s);
  }

  /** The clipboard text for N rows gives N statements, and each gives its own row back. */
  lemma ClipboardReadsBack(d: Dialect, table: Text, names: seq<Text>, rows: seq<seq<Value>>, k: nat, escapes: bool)
    requires NamesSafe(table, names, d) && k < |rows| && forall i :: 0 <= i < |rows| ==> RowOk(rows[i])
    ensures |Statements(Script(table, names, rows), d)| == |rows|
    ensures exists read ::
              && AllRead(rows[k], read, escapes)
              && ReadInsert(Statements(Script(table, names, rows), d)[k], escapes) == Some(Statement(table, names, read))
  {
    hide Statements, Script, ReadInsert, Insert, AllRead;
    ClipboardSplitsIntoItsRows(d, table, names, rows);
    InsertReadsBack(table, names, rows[k], escapes);
  }
}
