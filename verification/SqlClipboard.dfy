/**
 * SQL clipboard text splits back into its statements: N rows of any values are
 * exactly N statements, each the row's own `INSERT`.
 */
module SqlClipboard {
  import opened Bytes
  import opened Wrappers
  import opened Utf8
  import opened Values
  import opened ValueFmt
  import opened SqlLexer
  import opened SqlSplit
  import opened SqlText
  import opened SqlLocal
  import opened SqlCalm
  import opened SqlBlocks

  // ----- string literals -----

  /** The inside of a string literal. */
  function Escaped(s: Text): Text {
    Doubled(Doubled(s, BACKSLASH), SQUOTE)
  }

  function EscapedByte(c: Byte): Text {
    if c == BACKSLASH || c == SQUOTE then [c, c] else [c]
  }

  lemma {:induction false} DoubledConcat(x: Text, y: Text, c: Byte)
    ensures Doubled(x + y, c) == Doubled(x, c) + Doubled(y, c)
  {
    if x == [] {
      assert x + y == y;
    } else {
      assert (x + y)[1..] == x[1..] + y;
      DoubledConcat(x[1..], y, c);
    }
  }

  lemma EscapedCons(s: Text)
    requires s != []
    ensures Escaped(s) == EscapedByte(s[0]) + Escaped(s[1..])
  {
    var head := if s[0] == BACKSLASH then [BACKSLASH, BACKSLASH] else [s[0]];
    DoubledConcat(head, Doubled(s[1..], BACKSLASH), SQUOTE);
    assert head[1..] == if s[0] == BACKSLASH then [BACKSLASH] else [];
    assert Doubled(head, SQUOTE) == EscapedByte(s[0]);
  }

  /** One byte of the value, read back under either escape rule. */
  lemma EscapedStep(b: Text, p: nat, c: Byte, escapes: bool)
    requires StartsWithAt(b, p, EscapedByte(c)) && p + |EscapedByte(c)| < |b|
    ensures QuotedFrom(b, p, SQUOTE, escapes) == QuotedFrom(b, p + |EscapedByte(c)|, SQUOTE, escapes)
  {
    StartsWithByte(b, p, EscapedByte(c), 0);
    if |EscapedByte(c)| == 2 {
      StartsWithByte(b, p, EscapedByte(c), 1);
    }
  }

  lemma QuoteCloses(b: Text, p: nat, q: Byte, escapes: bool)
    requires p + 1 < |b| && b[p] == q && b[p + 1] != q
    ensures QuotedFrom(b, p, q, escapes) == p + 1
  {
  }

  /** No literal ends early, whether or not the reader honours backslashes. */
  lemma {:induction false} LiteralScan(b: Text, p: nat, s: Text, escapes: bool)
    requires StartsWithAt(b, p, Escaped(s) + [SQUOTE])
    requires p + |Escaped(s)| + 1 < |b| && b[p + |Escaped(s)| + 1] != SQUOTE
    ensures QuotedFrom(b, p, SQUOTE, escapes) == p + |Escaped(s)| + 1
    decreases |s|
  {
    hide StartsWithAt, QuotedFrom, EscapedByte;
    StartsWithSplit(b, p, Escaped(s), [SQUOTE]);
    if s == [] {
      StartsWithByte(b, p, [SQUOTE], 0);
      QuoteCloses(b, p, SQUOTE, escapes);
    } else {
      hide Escaped;
      var head, rest := EscapedByte(s[0]), Escaped(s[1..]);
      EscapedCons(s);
      StartsWithSplit(b, p, head, rest);
      StartsWithSplit(b, p + |head|, rest, [SQUOTE]);
      EscapedStep(b, p, s[0], escapes);
      LiteralScan(b, p + |head|, s[1..], escapes);
    }
  }

  // ----- identifiers -----

  /** Every backslash of `name` is followed by a byte other than `"`, pairing from the left. */
  predicate BackslashSafe(name: Text) {
    if name == [] then true
    else if name[0] != BACKSLASH then BackslashSafe(name[1..])
    else |name| > 1 && name[1] != DQUOTE && BackslashSafe(name[2..])
  }

  /** The reader of dialect `d` finds the end of this identifier where it is. */
  predicate IdentSafe(name: Text, d: Dialect) {
    d.BackslashInStrings() ==> BackslashSafe(name)
  }

  lemma {:induction false} PlainNamesAreSafe(name: Text, d: Dialect)
    requires d.BackslashInStrings() ==> BACKSLASH !in name
    ensures IdentSafe(name, d)
  {
    if d.BackslashInStrings() {
      NoBackslash(name);
    }
  }

  lemma {:induction false} NoBackslash(name: Text)
    requires BACKSLASH !in name
    ensures BackslashSafe(name)
  {
    if name != [] {
      NoBackslash(name[1..]);
    }
  }

  /** What stands at `p`: the rest of an identifier, its closing quote, and a byte that is no quote. */
  ghost predicate IdentRest(b: Text, p: nat, name: Text) {
    && StartsWithAt(b, p, Doubled(name, DQUOTE) + [DQUOTE])
    && p + |Doubled(name, DQUOTE)| + 1 < |b|
    && b[p + |Doubled(name, DQUOTE)| + 1] != DQUOTE
  }

  function IdentEnd(p: nat, name: Text): nat {
    p + |Doubled(name, DQUOTE)| + 1
  }

  /** The bytes of the first character of a name, and the rest behind them. */
  lemma IdentStep(b: Text, p: nat, name: Text)
    requires IdentRest(b, p, name) && name != []
    ensures b[p] == name[0]
    ensures name[0] == DQUOTE ==> b[p + 1] == DQUOTE && IdentRest(b, p + 2, name[1..]) && IdentEnd(p, name) == IdentEnd(p + 2, name[1..])
    ensures name[0] != DQUOTE ==> IdentRest(b, p + 1, name[1..]) && IdentEnd(p, name) == IdentEnd(p + 1, name[1..])
  {
    var head := if name[0] == DQUOTE then [DQUOTE, DQUOTE] else [name[0]];
    var rest := Doubled(name[1..], DQUOTE);
    Assoc(head, rest, [DQUOTE]);
    StartsWithSplit(b, p, head, rest + [DQUOTE]);
    StartsWithByte(b, p, head, 0);
    if name[0] == DQUOTE {
      StartsWithByte(b, p, head, 1);
    }
  }

  lemma IdentNil(b: Text, p: nat)
    requires IdentRest(b, p, [])
    ensures IdentEnd(p, []) == p + 1 < |b| && b[p] == DQUOTE && b[p + 1] != DQUOTE
  {
    StartsWithByte(b, p, [DQUOTE], 0);
  }

  lemma Grows(b: Text, j: nat, q: Byte, escapes: bool)
    requires j < |b|
    ensures QuotedFrom(b, j, q, escapes) > j
  {
  }

  /** Once a quote is out of phase the reader never ends where the identifier ends. */
  lemma {:induction false} OutOfPhase(b: Text, p: nat, name: Text, escapes: bool)
    requires p < |b| && b[p] == DQUOTE && IdentRest(b, p + 1, name)
    ensures QuotedFrom(b, p, DQUOTE, escapes) != IdentEnd(p + 1, name)
    decreases |name|
  {
    hide IdentRest, IdentEnd;
    if name == [] {
      IdentNil(b, p + 1);
      Grows(b, p + 2, DQUOTE, escapes);
    } else {
      IdentStep(b, p + 1, name);
      if name[0] == DQUOTE {
        OutOfPhase(b, p + 2, name[1..], escapes);
      } else {
        IdentEndPast(p + 1, name);
      }
    }
  }

  lemma IdentEndPast(p: nat, name: Text)
    ensures IdentEnd(p, name) > p
  {
  }

  /** Without backslash escapes every identifier ends where it is written to end. */
  lemma {:induction false} IdentScanPlain(b: Text, p: nat, name: Text)
    requires IdentRest(b, p, name)
    ensures QuotedFrom(b, p, DQUOTE, false) == IdentEnd(p, name)
    decreases |name|
  {
    hide IdentRest, IdentEnd;
    if name == [] {
      IdentNil(b, p);
    } else {
      IdentStep(b, p, name);
      IdentScanPlain(b, if name[0] == DQUOTE then p + 2 else p + 1, name[1..]);
    }
  }

  /** With them, exactly the backslash-safe ones do. */
  lemma {:induction false} IdentScanEscaped(b: Text, p: nat, name: Text)
    requires IdentRest(b, p, name)
    ensures QuotedFrom(b, p, DQUOTE, true) == IdentEnd(p, name) <==> BackslashSafe(name)
    decreases |name|
  {
    hide IdentRest, IdentEnd;
    if name == [] {
      IdentNil(b, p);
      return;
    }
    IdentStep(b, p, name);
    if name[0] != BACKSLASH {
      IdentScanEscaped(b, if name[0] == DQUOTE then p + 2 else p + 1, name[1..]);
    } else if |name| == 1 {
      assert name[1..] == [];
      IdentNil(b, p + 1);
      Grows(b, p + 2, DQUOTE, true);
    } else {
      IdentStep(b, p + 1, name[1..]);
      assert name[1..][1..] == name[2..];
      if name[1] == DQUOTE {
        OutOfPhase(b, p + 2, name[2..], true);
      } else {
        IdentScanEscaped(b, p + 2, name[2..]);
      }
    }
  }

  /**
   * An identifier written by `sql_ident` is read back whole if and only if the
   * dialect reads no backslash escapes or the name is backslash-safe.
   */
  lemma IdentReadsBackIff(b: Text, o: nat, name: Text, d: Dialect)
    requires StartsWithAt(b, o, SqlIdent(name)) && o + |SqlIdent(name)| < |b| && b[o + |SqlIdent(name)|] != DQUOTE
    ensures b[o] == DQUOTE
    ensures QuotedEnd(b, o, d) == o + |SqlIdent(name)| <==> IdentSafe(name, d)
  {
    hide QuotedFrom, BackslashSafe;
    Assoc([DQUOTE], Doubled(name, DQUOTE), [DQUOTE]);
    StartsWithSplit(b, o, [DQUOTE], Doubled(name, DQUOTE) + [DQUOTE]);
    StartsWithByte(b, o, [DQUOTE], 0);
    if d.BackslashInStrings() {
      IdentScanEscaped(b, o + 1, name);
    } else {
      IdentScanPlain(b, o + 1, name);
    }
  }

  // ----- tokens of an INSERT -----

  /** `t` stands at `o` as one item of an INSERT: after a space or `(`, before a space, `,` or `)`. */
  ghost predicate Slot(b: Text, o: nat, t: Text) {
    && StartsWithAt(b, o, t) && 0 < o && (b[o - 1] == SPACE || b[o - 1] == LPAREN)
    && o + |t| < |b| && (b[o + |t|] == SPACE || b[o + |t|] == COMMA || b[o + |t|] == RPAREN)
  }

  /** In every such place the splitter glides over `t`. */
  ghost predicate Token(t: Text, d: Dialect) {
    forall b: Text, o: nat :: Slot(b, o, t) ==> CalmFrom(b, o, o + |t|, d, false)
  }

  lemma QuotedCalm(b: Text, o: nat, d: Dialect)
    requires o < |b| && IsQuote(b[o])
    ensures CalmFrom(b, o, QuotedEnd(b, o, d), d, false)
  {
    assert LexemeEnd(b, o, d) == QuotedEnd(b, o, d);
  }

  lemma IdentToken(name: Text, d: Dialect)
    requires IdentSafe(name, d)
    ensures Token(SqlIdent(name), d)
  {
    forall b: Text, o: nat | Slot(b, o, SqlIdent(name)) ensures CalmFrom(b, o, o + |SqlIdent(name)|, d, false) {
      hide CalmFrom, QuotedEnd, IdentSafe;
      IdentReadsBackIff(b, o, name, d);
      QuotedCalm(b, o, d);
    }
  }

  lemma LiteralEnd(b: Text, o: nat, s: Text, d: Dialect)
    requires Slot(b, o, SqlString(s))
    ensures b[o] == SQUOTE && QuotedEnd(b, o, d) == o + |SqlString(s)|
  {
    hide QuotedFrom, Escaped;
    assert SqlString(s) == [SQUOTE] + Escaped(s) + [SQUOTE] by {
      LiteralShape(s);
    }
    Assoc([SQUOTE], Escaped(s), [SQUOTE]);
    StartsWithSplit(b, o, [SQUOTE], Escaped(s) + [SQUOTE]);
    StartsWithByte(b, o, [SQUOTE], 0);
    LiteralScan(b, o + 1, s, QuoteEscapes(b, o, SQUOTE, d));
  }

  lemma LiteralShape(s: Text)
    ensures SqlString(s) == [SQUOTE] + Escaped(s) + [SQUOTE]
  {
  }

  lemma LiteralToken(s: Text, d: Dialect)
    ensures Token(SqlString(s), d)
  {
    forall b: Text, o: nat | Slot(b, o, SqlString(s)) ensures CalmFrom(b, o, o + |SqlString(s)|, d, false) {
      hide CalmFrom, QuotedEnd, SqlString;
      LiteralEnd(b, o, s, d);
      QuotedCalm(b, o, d);
    }
  }

  // ----- numbers and NULL -----

  predicate IsNumberByte(c: Byte) {
    IsDigit(c) || c == 46
  }

  /** The text of a finite number: an optional `-`, then digits and dots. */
  ghost predicate IsNumber(t: Text) {
    forall k :: 0 <= k < |t| ==> IsNumberByte(t[k]) || (k == 0 && |t| > 1 && t[0] == DASH)
  }

  lemma DigitWord(w: Text)
    requires w != [] && IsDigit(w[0])
    ensures !IsBlockWord(w) && !Spells(w, "end")
  {
    assert Lower(w[0]) == w[0];
  }

  lemma {:induction false} NumberCalm(b: Text, i: nat, hi: nat, d: Dialect)
    requires i <= hi < |b| && !IsWordByte(b[hi]) && forall k :: i <= k < hi ==> IsNumberByte(b[k])
    ensures CalmFrom(b, i, hi, d, false)
    decreases hi - i
  {
    hide IsBlockWord, Spells;
    if i < hi {
      if b[i] == 46 {
        assert LexemeEnd(b, i, d) == i + 1;
        NumberCalm(b, i + 1, hi, d);
      } else {
        var e := WordEnd(b, i);
        WordRun(b, i);
        assert LexemeEnd(b, i, d) == e;
        DigitWord(b[i..e]);
        NumberCalm(b, e, hi, d);
      }
    }
  }

  lemma NumberToken(t: Text, d: Dialect)
    requires IsNumber(t)
    ensures Token(t, d)
  {
    forall b: Text, o: nat | Slot(b, o, t) ensures CalmFrom(b, o, o + |t|, d, false) {
      hide CalmFrom, Spells, IsBlockWord;
      var hi := o + |t|;
      forall k | o <= k < hi ensures IsNumberByte(b[k]) || (k == o && |t| > 1 && b[k] == DASH) {
        StartsWithByte(b, o, t, k - o);
      }
      if |t| > 1 && t[0] == DASH {
        StartsWithByte(b, o, t, 0);
        DashCalm(b, o, d);
        NumberCalm(b, o + 1, hi, d);
        CalmConcat(b, o, o + 1, hi, d, false);
      } else {
        NumberCalm(b, o, hi, d);
      }
    }
  }

  lemma DashCalm(b: Text, o: nat, d: Dialect)
    requires o + 1 < |b| && b[o] == DASH && b[o + 1] != DASH
    ensures CalmFrom(b, o, o + 1, d, false)
  {
    assert LexemeEnd(b, o, d) == o + 1;
  }

  lemma NullToken(d: Dialect)
    ensures Token(Ascii("NULL"), d)
  {
    var t := Ascii("NULL");
    assert IsWord(t) && Lower(t[0]) == 110;
    forall b: Text, o: nat | Slot(b, o, t) ensures CalmFrom(b, o, o + |t|, d, false) {
      CalmWordPlaced(b, o, t, d, false);
    }
  }

  /** Cells as the drivers make them: a finite double displays as a number. */
  ghost predicate CellOk(v: Value) {
    v.Real? && v.x.Finite? ==> v.x.display != [] && IsNumber(v.x.display)
  }

  lemma {:induction false} NothingDoubled(s: Text, c: Byte)
    requires c !in s
    ensures Doubled(s, c) == s
  {
    if s != [] {
      NothingDoubled(s[1..], c);
    }
  }

  lemma PlainString(s: Text)
    requires BACKSLASH !in s && SQUOTE !in s
    ensures SqlString(s) == [SQUOTE] + s + [SQUOTE]
  {
    NothingDoubled(s, BACKSLASH);
    NothingDoubled(s, SQUOTE);
  }

  lemma PlainTexts()
    ensures BACKSLASH !in Ascii("NaN") && SQUOTE !in Ascii("NaN")
    ensures BACKSLASH !in Ascii("Infinity") && SQUOTE !in Ascii("Infinity")
    ensures BACKSLASH !in Ascii("-Infinity") && SQUOTE !in Ascii("-Infinity")
  {
  }

  lemma NonFiniteToken(s: Text, d: Dialect)
    requires BACKSLASH !in s && SQUOTE !in s
    ensures Token([SQUOTE] + s + [SQUOTE], d)
  {
    hide Token;
    PlainString(s);
    LiteralToken(s, d);
  }

  /** Whatever a cell holds, its literal is one token of the INSERT. */
  lemma ValueToken(v: Value, d: Dialect)
    requires CellOk(v)
    ensures Token(SqlValue(v), d)
  {
    hide Token, Ascii, SqlString, ByteMarker, CappedText;
    match v
    case Null => NullToken(d);
    case Integer(n) => NumberToken(Decimal(n), d);
    case Real(NaN) =>
      PlainTexts();
      NonFiniteToken(Ascii("NaN"), d);
    case Real(Infinite(negative)) =>
      PlainTexts();
      NonFiniteToken(if negative then Ascii("-Infinity") else Ascii("Infinity"), d);
    case Real(Finite(_, display)) => NumberToken(display, d);
    case Str(s) => LiteralToken(s, d);
    case Blob(bytes) => LiteralToken(ByteMarker(|bytes|), d);
    case Capped(cell) => LiteralToken(CappedText(cell), d);
  }

  // ----- lists -----

  /** A comma-joined list of tokens up to its `)`. */
  lemma {:induction false} ListCalm(b: Text, o: nat, parts: seq<Text>, d: Dialect)
    requires forall k :: 0 <= k < |parts| ==> Token(parts[k], d)
    requires StartsWithAt(b, o, JoinComma(parts)) && 0 < o && (b[o - 1] == SPACE || b[o - 1] == LPAREN)
    requires o + |JoinComma(parts)| < |b| && b[o + |JoinComma(parts)|] == RPAREN
    ensures CalmFrom(b, o, o + |JoinComma(parts)|, d, false)
    decreases |parts|
  {
    hide CalmFrom, StartsWithAt;
    if parts == [] {
      CalmNone(b, o, d);
    } else if |parts| == 1 {
      assert Slot(b, o, parts[0]);
    } else {
      var head, rest := parts[0], JoinComma(parts[1..]);
      var sep := [COMMA] + [SPACE];
      var q := o + |head|;
      StartsWithSplit(b, o, head + sep, rest);
      StartsWithSplit(b, o, head, sep);
      StartsWithByte(b, q, sep, 0);
      StartsWithByte(b, q, sep, 1);
      assert Slot(b, o, head);
      CalmByte(b, q, d, false);
      CalmByte(b, q + 1, d, false);
      ListCalm(b, q + 2, parts[1..], d);
      CalmConcat(b, o, q, q + 1, d, false);
      CalmConcat(b, o, q + 1, q + 2, d, false);
      CalmConcat(b, o, q + 2, o + |JoinComma(parts)|, d, false);
    }
  }

  lemma CalmNone(b: Text, o: nat, d: Dialect)
    requires o <= |b|
    ensures CalmFrom(b, o, o, d, false)
  {
  }

  // ----- one INSERT -----

  lemma InsertWords()
    ensures Ascii("INSERT INTO ") == Ascii("INSERT") + ([SPACE] + Ascii("INTO") + [SPACE])
    ensures Ascii(" (") == [SPACE] + [LPAREN] && Ascii(")") == [RPAREN]
    ensures Ascii(") VALUES (") == [RPAREN] + ([SPACE] + Ascii("VALUES") + [SPACE]) + [LPAREN]
  {
  }

  lemma InsertWordsCalm()
    ensures IsWord(Ascii("INSERT")) && IsWord(Ascii("INTO")) && IsWord(Ascii("VALUES"))
    ensures !IsBlockWord(Ascii("INTO")) && !Spells(Ascii("INTO"), "end")
    ensures !IsBlockWord(Ascii("VALUES")) && !Spells(Ascii("VALUES"), "end")
    ensures !IsDdlVerb(Ascii("INSERT")) && !Spells(Ascii("INSERT"), "delimiter")
  {
    assert Lower(Ascii("INTO")[0]) == 105 && Lower(Ascii("VALUES")[0]) == 118 && Lower(Ascii("INSERT")[0]) == 105;
    assert Lower(Ascii("INTO")[1]) == 110;
  }

  /** Everything after the word INSERT. */
  function InsertTail(table: Text, idents: Text, values: Text): Text {
    ([SPACE] + Ascii("INTO") + [SPACE]) + (table + ([SPACE] + [LPAREN]) + (idents + [RPAREN])
      + (([SPACE] + Ascii("VALUES") + [SPACE]) + [LPAREN] + (values + [RPAREN])))
  }

  lemma InsertShape(table: Text, names: seq<Text>, cells: seq<Value>)
    ensures Insert(table, names, cells) ==
            Ascii("INSERT") + InsertTail(SqlIdent(table), JoinComma(Idents(names)), JoinComma(SqlValues(cells)))
  {
    hide Ascii, SqlIdent, JoinComma;
    InsertWords();
    var t, i, v := SqlIdent(table), JoinComma(Idents(names)), JoinComma(SqlValues(cells));
    var lhs := Ascii("INSERT") + ([SPACE] + Ascii("INTO") + [SPACE]) + t + ([SPACE] + [LPAREN]) + i
               + ([RPAREN] + ([SPACE] + Ascii("VALUES") + [SPACE]) + [LPAREN]) + v + [RPAREN];
    assert lhs == Ascii("INSERT") + InsertTail(t, i, v);
  }

  /** `(list)` and the byte before it. */
  lemma ParenListCalm(b: Text, o: nat, parts: seq<Text>, d: Dialect)
    requires forall k :: 0 <= k < |parts| ==> Token(parts[k], d)
    requires o > 0 && b != [] && o <= |b| && b[o - 1] == LPAREN && StartsWithAt(b, o, JoinComma(parts) + [RPAREN])
    ensures o + |JoinComma(parts)| + 1 <= |b| && CalmFrom(b, o, o + |JoinComma(parts)| + 1, d, false)
  {
    hide CalmFrom, StartsWithAt, JoinComma, Token;
    var q := o + |JoinComma(parts)|;
    StartsWithSplit(b, o, JoinComma(parts), [RPAREN]);
    StartsWithByte(b, q, [RPAREN], 0);
    ListCalm(b, o, parts, d);
    CalmByte(b, q, d, false);
    CalmConcat(b, o, q, q + 1, d, false);
  }

  lemma InsertTailCalm(b: Text, o: nat, table: Text, idents: seq<Text>, values: seq<Text>, d: Dialect)
    requires StartsWithAt(b, o, InsertTail(table, JoinComma(idents), JoinComma(values))) && Token(table, d)
    requires forall k :: 0 <= k < |idents| ==> Token(idents[k], d)
    requires forall k :: 0 <= k < |values| ==> Token(values[k], d)
    ensures CalmFrom(b, o, o + |InsertTail(table, JoinComma(idents), JoinComma(values))|, d, false)
  {
    hide CalmFrom, StartsWithAt, JoinComma, Ascii, IsWord, IsBlockWord, Spells;
    InsertWordsCalm();
    var into, vals := [SPACE] + Ascii("INTO") + [SPACE], [SPACE] + Ascii("VALUES") + [SPACE];
    var i, v := JoinComma(idents) + [RPAREN], JoinComma(values) + [RPAREN];
    var open := [SPACE] + [LPAREN];
    var p1 := o + |into|;
    var p2 := p1 + |table|;
    var p3 := p2 + 2 + |i|;
    var p4 := p3 + |vals| + 1;
    SplitTail(b, o, into, table, open, i, vals, v);
    SpacedWordCalm(b, o, Ascii("INTO"), d, false);
    StartsWithByte(b, o, into, |into| - 1);
    StartsWithByte(b, p2, open, 0);
    StartsWithByte(b, p2, open, 1);
    assert Slot(b, p1, table);
    CalmByte(b, p2, d, false);
    CalmByte(b, p2 + 1, d, false);
    ParenListCalm(b, p2 + 2, idents, d);
    SpacedWordCalm(b, p3, Ascii("VALUES"), d, false);
    StartsWithByte(b, p4 - 1, [LPAREN], 0);
    CalmByte(b, p4 - 1, d, false);
    ParenListCalm(b, p4, values, d);
    CalmConcat(b, o, p1, p2, d, false);
    CalmConcat(b, o, p2, p2 + 1, d, false);
    CalmConcat(b, o, p2 + 1, p2 + 2, d, false);
    CalmConcat(b, o, p2 + 2, p3, d, false);
    CalmConcat(b, o, p3, p4 - 1, d, false);
    CalmConcat(b, o, p4 - 1, p4, d, false);
    CalmConcat(b, o, p4, p4 + |v|, d, false);
  }

  lemma SplitTail(b: Text, o: nat, into: Text, table: Text, open: Text, i: Text, vals: Text, v: Text)
    requires StartsWithAt(b, o, into + (table + open + i + (vals + [LPAREN] + v)))
    ensures StartsWithAt(b, o, into) && StartsWithAt(b, o + |into|, table)
    ensures StartsWithAt(b, o + |into| + |table|, open) && StartsWithAt(b, o + |into| + |table| + |open|, i)
    ensures var p := o + |into| + |table| + |open| + |i|;
            StartsWithAt(b, p, vals) && StartsWithAt(b, p + |vals|, [LPAREN]) && StartsWithAt(b, p + |vals| + 1, v)
  {
    hide StartsWithAt;
    var p := o + |into|;
    var q := p + |table| + |open| + |i|;
    StartsWithSplit(b, o, into, table + open + i + (vals + [LPAREN] + v));
    StartsWithSplit(b, p, table + open + i, vals + [LPAREN] + v);
    StartsWithSplit(b, p, table + open, i);
    StartsWithSplit(b, p, table, open);
    StartsWithSplit(b, q, vals + [LPAREN], v);
    StartsWithSplit(b, q, vals, [LPAREN]);
  }

  // ----- whole scripts -----

  /** Past its leading word a statement is scanned with nothing open. */
  function Plain(i: nat): State {
    State(i, 0, 0, false, false, [SEMI])
  }

  lemma NewlineStep(b: Text, d: Dialect)
    requires b != [] && b[0] == NEWLINE
    ensures Ranges(b, d) == RangesFrom(b, d, Init.(i := 1))
  {
    hide RangesFrom;
    Unroll(b, d, Init);
    NoSeparatorAt(b, 0);
    assert LexemeEnd(b, 0, d) == 1;
  }

  lemma HeadStep(b: Text, d: Dialect, p: nat, w: Text)
    requires StartsWithAt(b, p, w) && IsWord(w) && !IsDdlVerb(w) && !Spells(w, "delimiter")
    requires p + |w| < |b| && b[p + |w|] == SPACE
    ensures RangesFrom(b, d, Init.(i := p)) == RangesFrom(b, d, Plain(p + |w|))
  {
    hide RangesFrom, IsDdlVerb, Spells, IsWord, WordEnd, NamesRoutine, OpensBlock, RestOfLine;
    var s := Init.(i := p);
    WordPlaced(b, p, w);
    Unroll(b, d, s);
    NoSeparatorAt(b, p);
    assert SpaceEnd(b, p) == p;
    assert !RoutineDdlAt(b, p);
    assert Lex(b, d, s) == Plain(p + |w|);
  }

  ghost predicate NamesSafe(table: Text, names: seq<Text>, d: Dialect) {
    IdentSafe(table, d) && forall k :: 0 <= k < |names| ==> IdentSafe(names[k], d)
  }

  ghost predicate RowOk(cells: seq<Value>) {
    forall k :: 0 <= k < |cells| ==> CellOk(cells[k])
  }

  lemma RowTokens(table: Text, names: seq<Text>, cells: seq<Value>, d: Dialect)
    requires NamesSafe(table, names, d) && RowOk(cells)
    ensures Token(SqlIdent(table), d)
    ensures forall k :: 0 <= k < |names| ==> Token(Idents(names)[k], d)
    ensures forall k :: 0 <= k < |cells| ==> Token(SqlValues(cells)[k], d)
  {
    hide Token, SqlIdent, SqlValue, CellOk, IdentSafe;
    IdentToken(table, d);
    forall k | 0 <= k < |names| ensures Token(Idents(names)[k], d) {
      IdentToken(names[k], d);
    }
    forall k | 0 <= k < |cells| ensures Token(SqlValues(cells)[k], d) {
      ValueToken(cells[k], d);
    }
  }

  lemma InsertTailRow(b: Text, o: nat, table: Text, names: seq<Text>, cells: seq<Value>, d: Dialect)
    requires NamesSafe(table, names, d) && RowOk(cells)
    requires StartsWithAt(b, o, InsertTail(SqlIdent(table), JoinComma(Idents(names)), JoinComma(SqlValues(cells))))
    ensures CalmFrom(b, o, o + |InsertTail(SqlIdent(table), JoinComma(Idents(names)), JoinComma(SqlValues(cells)))|, d, false)
  {
    hide Token, SqlIdent, JoinComma, NamesSafe, RowOk, CalmFrom, InsertTail, StartsWithAt;
    RowTokens(table, names, cells, d);
    InsertTailCalm(b, o, SqlIdent(table), Idents(names), SqlValues(cells), d);
  }

  /** An INSERT at `p` is scanned to its end without a break. */
  lemma InsertRuns(b: Text, d: Dialect, p: nat, table: Text, names: seq<Text>, cells: seq<Value>)
    requires NamesSafe(table, names, d) && RowOk(cells) && StartsWithAt(b, p, Insert(table, names, cells))
    ensures RangesFrom(b, d, Init.(i := p)) == RangesFrom(b, d, Plain(p + |Insert(table, names, cells)|))
  {
    hide Token, SqlIdent, JoinComma, NamesSafe, RowOk, CalmFrom, InsertTail, StartsWithAt, Insert, RangesFrom, Ascii, IsWord, IsDdlVerb, Spells;
    var w := Ascii("INSERT");
    var tail := InsertTail(SqlIdent(table), JoinComma(Idents(names)), JoinComma(SqlValues(cells)));
    InsertShape(table, names, cells);
    InsertWordsCalm();
    StartsWithSplit(b, p, w, tail);
    TailLeads(SqlIdent(table), JoinComma(Idents(names)), JoinComma(SqlValues(cells)));
    StartsWithByte(b, p + |w|, tail, 0);
    HeadStep(b, d, p, w);
    InsertTailRow(b, p + |w|, table, names, cells, d);
    Glide(b, d, Plain(p + |w|), p + |w| + |tail|, false);
  }

  lemma TailLeads(table: Text, idents: Text, values: Text)
    ensures InsertTail(table, idents, values) != [] && InsertTail(table, idents, values)[0] == SPACE
  {
  }

  /** The statement, the separator, and the rest, which splits as it would alone. */
  lemma FirstInsert(d: Dialect, pre: Text, table: Text, names: seq<Text>, cells: seq<Value>, rest: Text)
    requires NamesSafe(table, names, d) && RowOk(cells) && (pre == [] || pre == [NEWLINE])
    ensures var t := pre + Insert(table, names, cells);
            Ranges(t + [SEMI] + rest, d) == [Range(0, |t|)] + ShiftRanges(Ranges(rest, d), |t| + 1)
  {
    hide NamesSafe, RowOk, Insert, RangesFrom;
    var ins := Insert(table, names, cells);
    var t := pre + ins;
    var b := t + [SEMI] + rest;
    var p := |pre|;
    assert b[|t|] == SEMI && b[|t| + 1..] == rest;
    assert StartsWithAt(b, p, ins) by {
      assert b[p..p + |ins|] == ins;
    }
    if pre == [NEWLINE] {
      assert b[0] == NEWLINE;
      NewlineStep(b, d);
    }
    assert Ranges(b, d) == RangesFrom(b, d, Init.(i := p));
    InsertRuns(b, d, p, table, names, cells);
    FirstStatement(b, d, Plain(|t|));
  }

  lemma {:induction false} TrimmedShift(b: Text, r: seq<Range>, o: nat)
    requires o <= |b| && InBounds(b[o..], r)
    ensures InBounds(b, ShiftRanges(r, o))
    ensures Trimmed(b, ShiftRanges(r, o)) == Trimmed(b[o..], r)
    decreases |r|
  {
    hide Trim;
    if r != [] {
      assert ShiftRanges(r, o)[1..] == ShiftRanges(r[1..], o);
      TrimmedShift(b, r[1..], o);
      SliceShift(b, o, r[0].lo, r[0].hi);
    }
  }

  /** An INSERT starts with `I` and ends with `)`, so trimming takes only what is around it. */
  lemma InsertTrims(pre: Text, table: Text, names: seq<Text>, cells: seq<Value>)
    requires pre == [] || pre == [NEWLINE]
    ensures Trim(pre + Insert(table, names, cells)) == Insert(table, names, cells) != []
  {
    var ins := Insert(table, names, cells);
    assert ins[0] == 73 && ins[|ins| - 1] == RPAREN by {
      InsertEnds(table, names, cells);
    }
    TrimInsert(pre, ins);
  }

  lemma InsertEnds(table: Text, names: seq<Text>, cells: seq<Value>)
    ensures var ins := Insert(table, names, cells); ins != [] && ins[0] == 73 && ins[|ins| - 1] == RPAREN
  {
    hide SqlIdent, JoinComma;
    var head, last := Ascii("INSERT INTO "), Ascii(")");
    assert head[0] == 73 && last[0] == RPAREN;
  }

  lemma TrimInsert(pre: Text, ins: Text)
    requires (pre == [] || pre == [NEWLINE]) && ins != [] && ins[0] == 73 && ins[|ins| - 1] == RPAREN
    ensures Trim(pre + ins) == ins
  {
    assert TrimStart(ins) == ins;
    if pre == [NEWLINE] {
      assert SpaceLen(pre + ins, 0) == 1;
      assert (pre + ins)[1..] == ins;
    } else {
      assert pre + ins == ins;
    }
    assert LastSpaceLen(ins) == 0;
  }

  lemma FirstInsertStatement(d: Dialect, pre: Text, table: Text, names: seq<Text>, cells: seq<Value>, rest: Text)
    requires NamesSafe(table, names, d) && RowOk(cells) && (pre == [] || pre == [NEWLINE])
    ensures Statements(pre + Insert(table, names, cells) + [SEMI] + rest, d) ==
            [Insert(table, names, cells)] + Statements(rest, d)
  {
    hide NamesSafe, RowOk, Insert, Ranges, Trim;
    var t := pre + Insert(table, names, cells);
    var b := t + [SEMI] + rest;
    var r := ShiftRanges(Ranges(rest, d), |t| + 1);
    FirstInsert(d, pre, table, names, cells, rest);
    RangesInBounds(b, d);
    RangesInBounds(rest, d);
    assert b[|t| + 1..] == rest && b[0..|t|] == t;
    TrimmedShift(b, Ranges(rest, d), |t| + 1);
    InsertTrims(pre, table, names, cells);
    assert Ranges(b, d)[1..] == r;
  }

  /** The script of `rows` behind `pre`, read from the front. */
  function ScriptFrom(pre: Text, table: Text, names: seq<Text>, rows: seq<seq<Value>>): Text
    decreases |rows|
  {
    if rows == [] then pre
    else pre + Insert(table, names, rows[0]) + [SEMI] + ScriptFrom([NEWLINE], table, names, rows[1..])
  }

  function Inserts(table: Text, names: seq<Text>, rows: seq<seq<Value>>): seq<Text> {
    seq(|rows|, k requires 0 <= k < |rows| => Insert(table, names, rows[k]))
  }

  lemma {:induction false} ScriptFromSnoc(pre: Text, table: Text, names: seq<Text>, rows: seq<seq<Value>>, row: seq<Value>)
    requires rows != [] || pre == []
    ensures ScriptFrom(pre, table, names, rows + [row]) ==
            ScriptFrom(pre, table, names, rows) + (Insert(table, names, row) + [SEMI] + [NEWLINE])
    decreases |rows|
  {
    hide Insert;
    var all := rows + [row];
    if rows == [] {
      assert all[1..] == [];
    } else {
      assert all[1..] == rows[1..] + [row];
      var head := pre + Insert(table, names, rows[0]) + [SEMI];
      if rows[1..] == [] {
        assert all[1..] == [row];
        assert [row][1..] == [];
        SnocNewline(table, names, row);
      } else {
        ScriptFromSnoc([NEWLINE], table, names, rows[1..], row);
      }
      Assoc(head, ScriptFrom([NEWLINE], table, names, rows[1..]), Insert(table, names, row) + [SEMI] + [NEWLINE]);
    }
  }

  lemma SnocNewline(table: Text, names: seq<Text>, row: seq<Value>)
    ensures ScriptFrom([NEWLINE], table, names, [row]) == [NEWLINE] + (Insert(table, names, row) + [SEMI] + [NEWLINE])
  {
    hide Insert;
    assert [row][1..] == [];
    Assoc([NEWLINE], Insert(table, names, row) + [SEMI], [NEWLINE]);
    Assoc([NEWLINE], Insert(table, names, row), [SEMI]);
  }

  lemma {:induction false} ScriptIsScriptFrom(table: Text, names: seq<Text>, rows: seq<seq<Value>>)
    ensures Script(table, names, rows) == ScriptFrom([], table, names, rows)
    decreases |rows|
  {
    hide Insert;
    if rows != [] {
      var n := |rows| - 1;
      ScriptIsScriptFrom(table, names, rows[..n]);
      ScriptFromSnoc([], table, names, rows[..n], rows[n]);
      assert rows == rows[..n] + [rows[n]];
    }
  }

  lemma TrimBlank()
    ensures Trim([]) == [] && Trim([NEWLINE]) == []
  {
    var t: Text := [NEWLINE];
    assert TrimStart([]) == [] && TrimEnd([]) == [];
    assert SpaceLen(t, 0) == 1 && t[1..] == [];
    assert TrimStart(t) == TrimStart(t[1..]);
  }

  lemma BlankScript(d: Dialect, pre: Text)
    requires pre == [] || pre == [NEWLINE]
    ensures Statements(pre, d) == []
  {
    hide Trim;
    RangesInBounds(pre, d);
    TrimBlank();
    if pre == [NEWLINE] {
      NewlineStep(pre, d);
    }
    var r := Ranges(pre, d);
    assert r == [Range(0, |pre|)] && r[1..] == [];
    var t := Trim(pre[r[0].lo..r[0].hi]);
    assert pre[0..|pre|] == pre;
    assert t == Trim(pre) == [];
    TrimmedFrom(pre, r, 0);
    TrimmedNone(pre);
    assert r[0..] == r;
  }

  lemma {:induction false} ScriptFromSplits(d: Dialect, pre: Text, table: Text, names: seq<Text>, rows: seq<seq<Value>>)
    requires NamesSafe(table, names, d) && (pre == [] || pre == [NEWLINE])
    requires forall k :: 0 <= k < |rows| ==> RowOk(rows[k])
    ensures Statements(ScriptFrom(pre, table, names, rows), d) == Inserts(table, names, rows)
    decreases |rows|
  {
    hide Insert, NamesSafe, RowOk, Statements;
    if rows == [] {
      BlankScript(d, pre);
    } else {
      FirstInsertStatement(d, pre, table, names, rows[0], ScriptFrom([NEWLINE], table, names, rows[1..]));
      ScriptFromSplits(d, [NEWLINE], table, names, rows[1..]);
      assert Inserts(table, names, rows) == [Insert(table, names, rows[0])] + Inserts(table, names, rows[1..]);
    }
  }

  /**
   * SQL clipboard text for N rows of any values splits into exactly N statements,
   * each equal to its own INSERT.
   */
  lemma ClipboardSplitsIntoItsRows(d: Dialect, table: Text, names: seq<Text>, rows: seq<seq<Value>>)
    requires NamesSafe(table, names, d)
    requires forall k :: 0 <= k < |rows| ==> RowOk(rows[k])
    ensures Statements(Script(table, names, rows), d) == Inserts(table, names, rows)
  {
    ScriptIsScriptFrom(table, names, rows);
    ScriptFromSplits(d, [], table, names, rows);
  }
}
