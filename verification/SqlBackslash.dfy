/**
 * A table name that the clipboard quotes and a dialect with backslash escapes misreads: the
 * statement's own `;` ends up inside a quoted name.
 */
module SqlBackslash {
  import opened Bytes
  import opened Wrappers
  import opened Utf8
  import opened Values
  import opened ValueFmt
  import opened SqlLexer
  import opened SqlSplit
  import opened SqlText
  import opened SqlLocal
  import opened SqlCalm
  import opened SqlBlocks
  import opened SqlClipboard

  /** A table called `\` and a column called `c`. */
  const TABLE: Text := [BACKSLASH]
  const NAMES: seq<Text> := [[99]]

  /** `INSERT INTO "\" ("c"`. */
  const HEAD: Text := Ascii("INSERT") + ([SPACE] + Ascii("INTO") + [SPACE]) + [DQUOTE, BACKSLASH, DQUOTE, SPACE, LPAREN, DQUOTE, 99, DQUOTE]

  /** What follows the column name, up to the end of the script. */
  function Tail(cells: seq<Value>): Text {
    Ascii(") VALUES (") + JoinComma(SqlValues(cells)) + Ascii(")") + [SEMI] + [NEWLINE]
  }

  /** A quoted span that no quote closes runs to the end. */
  lemma {:induction false} NeverCloses(b: Text, j: nat, escapes: bool)
    requires j <= |b| && forall k :: j <= k < |b| ==> b[k] != DQUOTE
    ensures QuotedFrom(b, j, DQUOTE, escapes) == |b|
    decreases |b| - j
  {
    if j < |b| {
      NeverCloses(b, j + QuotedWidth(b, j, DQUOTE, escapes), escapes);
    }
  }

  lemma Idents1()
    ensures SqlIdent(TABLE) == [DQUOTE, BACKSLASH, DQUOTE] && JoinComma(Idents(NAMES)) == [DQUOTE, 99, DQUOTE]
  {
    assert TABLE[1..] == [] && NAMES[0][1..] == [];
    assert Doubled([], DQUOTE) == [];
    assert Doubled(TABLE, DQUOTE) == [BACKSLASH] && Doubled(NAMES[0], DQUOTE) == [99];
    assert NAMES[1..] == [] && NAMES[..0] == [];
  }

  lemma ScriptIs(cells: seq<Value>)
    ensures Script(TABLE, NAMES, [cells]) == HEAD + Tail(cells)
    ensures HEAD + Tail(cells) == Insert(TABLE, NAMES, cells) + [SEMI] + [NEWLINE]
  {
    hide SqlIdent, JoinComma, Ascii;
    Idents1();
    InsertWords();
    var v := JoinComma(SqlValues(cells));
    assert [cells][..0] == [] && Script(TABLE, NAMES, []) == [];
    var ins := Insert(TABLE, NAMES, cells);
    Pieces(Ascii("INSERT"), [SPACE] + Ascii("INTO") + [SPACE], Ascii(") VALUES ("), v, Ascii(")"));
    assert [] + (ins + [SEMI] + [NEWLINE]) == ins + [SEMI] + [NEWLINE];
  }

  lemma Pieces(w: Text, into: Text, values: Text, v: Text, close: Text)
    ensures (w + into) + [DQUOTE, BACKSLASH, DQUOTE] + ([SPACE] + [LPAREN]) + [DQUOTE, 99, DQUOTE] + values + v + close + [SEMI] + [NEWLINE] ==
            (w + into + [DQUOTE, BACKSLASH, DQUOTE, SPACE, LPAREN, DQUOTE, 99, DQUOTE]) + (values + v + close + [SEMI] + [NEWLINE])
  {
  }

  lemma HeadBytes(b: Text, tail: Text)
    requires b == HEAD + tail
    ensures |b| >= 20 && StartsWithAt(b, 0, Ascii("INSERT")) && b[6] == SPACE && StartsWithAt(b, 6, [SPACE] + Ascii("INTO") + [SPACE])
    ensures b[12] == DQUOTE && b[13] == BACKSLASH && b[14] == DQUOTE && b[15] == SPACE && b[16] == LPAREN
    ensures b[17] == DQUOTE && b[18] == 99 && b[19] == DQUOTE && b[20..] == tail
  {
    hide Ascii;
    var w, into := Ascii("INSERT"), [SPACE] + Ascii("INTO") + [SPACE];
    assert |w| == 6 && |into| == 6;
    assert b[0..6] == w && b[6..12] == into;
    assert b[6] == into[0];
    assert HEAD[12..] == [DQUOTE, BACKSLASH, DQUOTE, SPACE, LPAREN, DQUOTE, 99, DQUOTE];
    assert b[12] == HEAD[12..][0] && b[13] == HEAD[12..][1] && b[14] == HEAD[12..][2] && b[15] == HEAD[12..][3];
    assert b[16] == HEAD[12..][4] && b[17] == HEAD[12..][5] && b[18] == HEAD[12..][6] && b[19] == HEAD[12..][7];
  }

  /** The escaped quote does not close the table name; the column's first quote does. */
  lemma FirstSpan(b: Text, d: Dialect, tail: Text)
    requires b == HEAD + tail && d.BackslashInStrings()
    ensures |b| >= 20 && QuotedEnd(b, 12, d) == 18
  {
    hide QuotedFrom;
    HeadBytes(b, tail);
    QuotedStep(b, 17, true);
    QuotedStep(b, 16, true);
    QuotedStep(b, 15, true);
    QuotedStep(b, 13, true);
  }

  lemma {:induction false} QuotedStep(b: Text, j: nat, escapes: bool)
    requires j < |b|
    ensures ClosesQuote(b, j, DQUOTE) ==> QuotedFrom(b, j, DQUOTE, escapes) == j + 1
    ensures !ClosesQuote(b, j, DQUOTE) ==>
              QuotedFrom(b, j, DQUOTE, escapes) == QuotedFrom(b, j + QuotedWidth(b, j, DQUOTE, escapes), DQUOTE, escapes)
  {
  }

  lemma TailBytes(cells: seq<Value>)
    requires DQUOTE !in JoinComma(SqlValues(cells))
    ensures DQUOTE !in Tail(cells) && Tail(cells) != []
  {
    hide JoinComma;
    var a, z := Ascii(") VALUES ("), Ascii(")");
    assert DQUOTE !in a && DQUOTE !in z;
  }

  /** The splitter never sees the `;`. */
  lemma WholeRange(d: Dialect, b: Text, tail: Text)
    requires d.BackslashInStrings() && b == HEAD + tail && DQUOTE !in tail && tail != []
    ensures Ranges(b, d) == [Range(0, |b|)]
  {
    hide Ascii, RangesFrom, CalmFrom, QuotedEnd, IsWord, IsBlockWord, Spells, IsDdlVerb, StartsWithAt;
    HeadBytes(b, tail);
    InsertWordsCalm();
    HeadStep(b, d, 0, Ascii("INSERT"));
    SpacedWordCalm(b, 6, Ascii("INTO"), d, false);
    FirstSpan(b, d, tail);
    QuotedCalm(b, 12, d);
    OneLetter(b, d);
    LastSpan(b, d, tail);
    QuotedCalm(b, 19, d);
    CalmConcat(b, 6, 12, 18, d, false);
    CalmConcat(b, 6, 18, 19, d, false);
    CalmConcat(b, 6, 19, |b|, d, false);
    Glide(b, d, Plain(6), |b|, false);
    AtEnd(b, d);
  }

  lemma OneLetter(b: Text, d: Dialect)
    requires |b| >= 20 && b[18] == 99 && b[19] == DQUOTE
    ensures CalmFrom(b, 18, 19, d, false)
  {
    hide CalmFrom;
    assert b[18..19] == [99];
    CalmWordPlaced(b, 18, [99], d, false);
  }

  lemma LastSpan(b: Text, d: Dialect, tail: Text)
    requires |b| >= 20 && b[19] == DQUOTE && b[20..] == tail && DQUOTE !in tail
    ensures QuotedEnd(b, 19, d) == |b|
  {
    hide QuotedFrom;
    forall k | 20 <= k < |b| ensures b[k] != DQUOTE {
      assert b[k] == tail[k - 20];
    }
    NeverCloses(b, 20, QuoteEscapes(b, 19, DQUOTE, d));
  }

  lemma {:induction false} AtEnd(b: Text, d: Dialect)
    ensures RangesFrom(b, d, Plain(|b|)) == [Range(0, |b|)]
  {
    var s := Plain(|b|);
    assert s.i == |b| && s.start == 0;
  }

  lemma TrimScript(ins: Text)
    requires ins != [] && ins[0] == 73 && ins[|ins| - 1] == RPAREN
    ensures Trim(ins + [SEMI] + [NEWLINE]) == ins + [SEMI]
  {
    var b := ins + [SEMI] + [NEWLINE];
    assert TrimStart(b) == b;
    assert LastSpaceLen(b) == 1 && b[..|b| - 1] == ins + [SEMI];
    assert LastSpaceLen(ins + [SEMI]) == 0;
    assert TrimEnd(ins + [SEMI]) == ins + [SEMI];
    assert TrimEnd(b) == TrimEnd(b[..|b| - 1]);
  }

  /**
   * Under a dialect with backslash escapes, one row copied from a table called `\` comes back as
   * one statement that has swallowed its own `;`.
   */
  lemma BackslashTableBreaks(d: Dialect, cells: seq<Value>)
    requires d.BackslashInStrings() && DQUOTE !in JoinComma(SqlValues(cells))
    ensures !IdentSafe(TABLE, d)
    ensures Statements(Script(TABLE, NAMES, [cells]), d) == [Insert(TABLE, NAMES, cells) + [SEMI]]
    ensures Statements(Script(TABLE, NAMES, [cells]), d) != Inserts(TABLE, NAMES, [cells])
  {
    hide Ranges, Insert, Script, JoinComma, Trim, Tail;
    var ins := Insert(TABLE, NAMES, cells);
    var b := Script(TABLE, NAMES, [cells]);
    ScriptIs(cells);
    TailBytes(cells);
    WholeRange(d, b, Tail(cells));
    InsertEnds(TABLE, NAMES, cells);
    TrimScript(ins);
    assert b[0..|b|] == b;
    assert [Range(0, |b|)][1..] == [];
    assert Trimmed(b, []) == [];
    assert [cells][1..] == [];
    assert Inserts(TABLE, NAMES, []) == [];
    assert Inserts(TABLE, NAMES, [cells]) == [ins];
    assert |ins + [SEMI]| != |ins|;
    assert [ins + [SEMI]][0] != [ins][0];
  }
}
