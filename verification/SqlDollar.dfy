/**
 * Dollar quotes inside a condition: the splitter skips them, its look-ahead for `THEN`
 * reads them as plain text, and a parenthesis inside one cuts the routine.
 */
module SqlDollar {
  import opened Bytes
  import opened Wrappers
  import opened SqlLexer
  import opened SqlSplit
  import opened SqlLocal
  import opened SqlCalm
  import opened SqlBlocks

  /** `($$($$ = x)`: balanced, since its second `(` is quoted. */
  const COND: Text := [LPAREN, DOLLAR, DOLLAR, LPAREN, DOLLAR, DOLLAR, SPACE, 61, SPACE, 120, RPAREN]

  /** An open parenthesis that nothing closes hides every later `THEN`. */
  lemma {:induction false} NeverClosed(b: Text, i: nat, depth: nat, d: Dialect)
    requires i <= |b| && depth > 0 && forall k :: i <= k < |b| ==> b[k] != RPAREN
    ensures !ThenFollows(b, i, depth, d)
    decreases |b| - i
  {
    hide ThenLexemeEnd, Spells;
    if i < |b| {
      if b[i] == LPAREN {
        NeverClosed(b, i + 1, depth + 1, d);
      } else {
        NeverClosed(b, ThenLexemeEnd(b, i, d), depth, d);
      }
    }
  }

  /** One plain byte of the search, inside parentheses. */
  lemma {:induction false} PlainByte(b: Text, i: nat, depth: nat, d: Dialect)
    requires i < |b| && depth > 0 && (b[i] == DOLLAR || b[i] == SPACE || b[i] == 61)
    ensures ThenFollows(b, i, depth, d) == ThenFollows(b, i + 1, depth, d)
  {
    hide Spells;
  }

  lemma {:induction false} Parenthesis(b: Text, i: nat, depth: nat, d: Dialect)
    requires i < |b|
    ensures b[i] == LPAREN ==> ThenFollows(b, i, depth, d) == ThenFollows(b, i + 1, depth + 1, d)
    ensures b[i] == RPAREN && depth > 0 ==> ThenFollows(b, i, depth, d) == ThenFollows(b, i + 1, depth - 1, d)
  {
    hide Spells, ThenLexemeEnd;
  }

  lemma {:induction false} PlainWord(b: Text, i: nat, depth: nat, d: Dialect)
    requires i + 1 < |b| && depth > 0 && b[i] == 120 && !IsWordByte(b[i + 1])
    ensures ThenFollows(b, i, depth, d) == ThenFollows(b, i + 1, depth, d)
  {
    hide Spells;
    assert WordEnd(b, i + 1) == i + 1;
  }

  lemma CondBytes(b: Text, at: nat)
    requires StartsWithAt(b, at, COND)
    ensures at + 11 <= |b| && b[at] == LPAREN && b[at + 1] == DOLLAR && b[at + 2] == DOLLAR && b[at + 3] == LPAREN
    ensures b[at + 4] == DOLLAR && b[at + 5] == DOLLAR && b[at + 6] == SPACE && b[at + 7] == 61
    ensures b[at + 8] == SPACE && b[at + 9] == 120 && b[at + 10] == RPAREN
  {
    assert COND == b[at..at + 11];
    assert COND[0] == b[at] && COND[1] == b[at + 1] && COND[2] == b[at + 2] && COND[3] == b[at + 3] && COND[4] == b[at + 4];
    assert COND[5] == b[at + 5] && COND[6] == b[at + 6] && COND[7] == b[at + 7] && COND[8] == b[at + 8];
    assert COND[9] == b[at + 9] && COND[10] == b[at + 10];
  }

  /** The look-ahead leaves the condition with one parenthesis open. */
  lemma LooksOpen(b: Text, at: nat, d: Dialect)
    requires StartsWithAt(b, at, COND)
    requires forall k :: at + |COND| <= k < |b| ==> b[k] != RPAREN
    ensures !ThenFollows(b, at, 0, d)
  {
    hide ThenFollows, StartsWithAt;
    CondBytes(b, at);
    Parenthesis(b, at, 0, d);
    PlainByte(b, at + 1, 1, d);
    PlainByte(b, at + 2, 1, d);
    Parenthesis(b, at + 3, 1, d);
    PlainByte(b, at + 4, 2, d);
    PlainByte(b, at + 5, 2, d);
    PlainByte(b, at + 6, 2, d);
    PlainByte(b, at + 7, 2, d);
    PlainByte(b, at + 8, 2, d);
    PlainWord(b, at + 9, 2, d);
    Parenthesis(b, at + 10, 2, d);
    NeverClosed(b, at + 11, 1, d);
  }

  lemma IfNotTaken(b: Text, o: nat, d: Dialect)
    requires StartsWithAt(b, o, Opener(If, COND)) && forall k :: o + |Opener(If, COND)| <= k < |b| ==> b[k] != RPAREN
    ensures o + 2 <= |b| && !OpensBlock(b, Kind.If.Keyword(), o + 2, d)
  {
    hide ThenFollows, StartsWithAt, Spells, IfExistsHeader, IsBlockWord, SpaceEnd;
    SplitOpener(b, o, If, COND);
    KeywordSpells(If);
    var from := o + 2;
    StartsWithSplit(b, from + 1, COND, THEN_TAIL);
    StartsWithByte(b, from + 1, COND, 0);
    assert b[from + 1] == LPAREN;
    OneSpace(b, from);
    forall k | from + 1 + |COND| <= k < |b| ensures b[k] != RPAREN {
      if k < from + 1 + |COND| + |THEN_TAIL| {
        StartsWithByte(b, from + 1 + |COND|, THEN_TAIL, k - (from + 1 + |COND|));
      }
    }
    LooksOpen(b, from + 1, d);
  }

  lemma OneSpace(b: Text, from: nat)
    requires from + 1 < |b| && b[from] == SPACE && b[from + 1] == LPAREN
    ensures SpaceEnd(b, from) == from + 1
  {
    assert SpaceEnd(b, from + 1) == from + 1;
  }

  /** A routine whose body starts with an `IF` on this condition. */
  function Guarded(inner: Body, after: Body): Body {
    More(Block(If, COND, inner), after)
  }

  /** Whatever else the routine holds, it is cut, unless a later `)` happens to close the count. */
  lemma DollarConditionCuts(d: Dialect, verb: Text, kindWord: Text, header: Text, inner: Body, after: Body, rest: Text)
    requires RoutineCalm(verb, kindWord, header, Guarded(inner, after), d)
    requires var b := Routine(verb, kindWord, header, Guarded(inner, after)) + [SEMI] + rest;
             forall k :: BodyStart(verb, kindWord, header) + |Opener(If, COND)| <= k < |b| ==> b[k] != RPAREN
    ensures var r := Routine(verb, kindWord, header, Guarded(inner, after));
            Ranges(r + [SEMI] + rest, d)[0].hi < |r|
  {
    hide RoutineCalm, Ranges, RangesFrom, StartsWithAt, Opener, Closer, PrintBody, OpensBlock;
    var body := Guarded(inner, after);
    var r := Routine(verb, kindWord, header, body);
    var b := r + [SEMI] + rest;
    RoutineStarts(r, rest);
    SplitRoutine(b, 0, verb, kindWord, header, body);
    var o := |verb| + |kindWord| + |header| + 3;
    StartsWithSplit(b, o, Opener(Begin, []), PrintBody(body) + Closer(Begin));
    StartsWithSplit(b, o + |Opener(Begin, [])|, PrintBody(body), Closer(Begin));
    var p := BodyStart(verb, kindWord, header);
    GuardedStarts(b, p, inner, after);
    IfNotTaken(b, p, d);
    Missed(b, p, inner, after, d);
    RangesAhead(b, d);
    RoutineRuns(First, b, d, 0, verb, kindWord, header, body);
  }

  lemma GuardedStarts(b: Text, p: nat, inner: Body, after: Body)
    requires StartsWithAt(b, p, PrintBody(Guarded(inner, after)))
    ensures StartsWithAt(b, p, Opener(If, COND))
  {
    hide StartsWithAt, Opener, Closer;
    var item := Block(If, COND, inner);
    StartsWithSplit(b, p, PrintItem(item), PrintBody(after));
    BlockPrint(If, COND, inner);
    StartsWithSplit(b, p, Opener(If, COND) + (PrintBody(inner) + Closer(If)), [SEMI] + [SPACE]);
    StartsWithSplit(b, p, Opener(If, COND), PrintBody(inner) + Closer(If));
  }

  lemma Missed(b: Text, p: nat, inner: Body, after: Body, d: Dialect)
    requires p + 2 <= |b| && !OpensBlock(b, Kind.If.Keyword(), p + 2, d)
    ensures MissedBody(b, p, Guarded(inner, after), d) > 0
  {
    hide OpensBlock, Opener, PrintItem;
    assert |Kind.If.Keyword()| == 2;
    assert MissedItem(b, p, Block(If, COND, inner), d) == MissedBlock(b, p, If, COND, inner, d) > 0;
  }

  // ----- the shortest such script -----

  const HEADER: Text := [112, LPAREN, RPAREN]

  function Select(n: Byte): Text {
    Ascii("SELECT") + [SPACE] + [n]
  }

  lemma SelectIsWord()
    ensures IsWord(Ascii("SELECT")) && !IsBlockWord(Ascii("SELECT")) && !Spells(Ascii("SELECT"), "end")
  {
    assert Lower(Ascii("SELECT")[0]) == 115;
  }

  lemma OneByteWord(c: Byte)
    requires IsWordByte(c)
    ensures IsWord([c]) && !IsBlockWord([c]) && !Spells([c], "end")
  {
  }

  lemma SelectCalm(n: Byte, d: Dialect)
    requires IsDigit(n)
    ensures Calm(Select(n), SEMI, d, true)
  {
    hide CalmFrom, IsBlockWord, Spells, IsWord, Ascii, StartsWithAt;
    var w := Ascii("SELECT");
    var b := Select(n) + [SEMI];
    assert b == w + ([SPACE] + [n] + [SEMI]);
    assert StartsWithAt(b, 0, w) by { SliceStart(w, [SPACE] + [n] + [SEMI]); }
    SelectIsWord();
    OneByteWord(n);
    CalmWordPlaced(b, 0, w, d, true);
    CalmByte(b, 6, d, true);
    assert b[7..8] == [n];
    assert StartsWithAt(b, 7, [n]) by { SlicePlaced(b, 7, n); }
    CalmWordPlaced(b, 7, [n], d, true);
    CalmConcat(b, 0, 6, 7, d, true);
    CalmConcat(b, 0, 7, 8, d, true);
  }

  lemma SliceStart(w: Text, r: Text)
    ensures StartsWithAt(w + r, 0, w)
  {
  }

  lemma SlicePlaced(b: Text, i: nat, c: Byte)
    requires i < |b| && b[i] == c
    ensures StartsWithAt(b, i, [c])
  {
  }

  lemma HeaderCalm(d: Dialect)
    ensures Calm(HEADER, SPACE, d, false)
  {
    hide CalmFrom, IsBlockWord, Spells, IsWord, StartsWithAt;
    var b := HEADER + [SPACE];
    OneByteWord(112);
    SlicePlaced(b, 0, 112);
    CalmWordPlaced(b, 0, [112], d, false);
    CalmByte(b, 1, d, false);
    CalmByte(b, 2, d, false);
    CalmConcat(b, 0, 1, 2, d, false);
    CalmConcat(b, 0, 2, 3, d, false);
  }

  /** The splitter skips the quoted parenthesis. */
  lemma QuoteSkipped(d: Dialect)
    requires d.DollarQuotes()
    ensures LexemeEnd(COND + [SPACE], 1, d) == 6
  {
    var b := COND + [SPACE];
    var tag := [DOLLAR, DOLLAR];
    assert WordEnd(b, 2) == 2;
    assert DollarTag(b, 1) == tag;
    assert b[3..5][0] == LPAREN;
    assert b[4..6] == tag;
    assert TagCloseEnd(b, 4, tag) == 6;
    assert TagCloseEnd(b, 3, tag) == 6;
  }

  lemma CondIsCalm(d: Dialect)
    requires d.DollarQuotes()
    ensures Calm(COND, SPACE, d, true)
  {
    hide CalmFrom, IsBlockWord, Spells, IsWord, StartsWithAt, LexemeEnd;
    var b := COND + [SPACE];
    CalmByte(b, 0, d, true);
    QuoteSkipped(d);
    CalmLexeme(b, 1, 6, d);
    CalmByte(b, 6, d, true);
    EqualsSign(b, d);
    CalmLexeme(b, 7, 8, d);
    CalmByte(b, 8, d, true);
    OneByteWord(120);
    SlicePlaced(b, 9, 120);
    CalmWordPlaced(b, 9, [120], d, true);
    CalmByte(b, 10, d, true);
    CalmConcat(b, 0, 1, 6, d, true);
    CalmConcat(b, 0, 6, 7, d, true);
    CalmConcat(b, 0, 7, 8, d, true);
    CalmConcat(b, 0, 8, 9, d, true);
    CalmConcat(b, 0, 9, 10, d, true);
    CalmConcat(b, 0, 10, 11, d, true);
  }

  lemma CalmLexeme(b: Text, i: nat, e: nat, d: Dialect)
    requires i < e <= |b| && LexemeEnd(b, i, d) == e && !IsWordByte(b[i]) && b[i] != SEMI
    ensures CalmFrom(b, i, e, d, true)
  {
    hide LexemeEnd;
  }

  lemma EqualsSign(b: Text, d: Dialect)
    requires b == COND + [SPACE]
    ensures LexemeEnd(b, 7, d) == 8
  {
  }

  /** What follows the condition in the script: no parenthesis. */
  lemma TailBytes(verb: Text, kindWord: Text, rest: Text)
    requires RPAREN !in rest
    ensures var body := Guarded(More(Leaf(Select(49)), Done), More(Leaf(Select(50)), Done));
            var b := Routine(verb, kindWord, HEADER, body) + [SEMI] + rest;
            forall k :: BodyStart(verb, kindWord, HEADER) + |Opener(If, COND)| <= k < |b| ==> b[k] != RPAREN
  {
    hide Ascii, Opener, StartsWithAt;
    var inner, after := More(Leaf(Select(49)), Done), More(Leaf(Select(50)), Done);
    var one, two := Select(49) + [SEMI] + [SPACE], Select(50) + [SEMI] + [SPACE];
    LeafBody(Select(49));
    LeafBody(Select(50));
    var open, close := Opener(If, COND), Closer(If);
    var tail := one + close + [SEMI] + [SPACE] + two + Closer(Begin) + [SEMI] + rest;
    var head := verb + ([SPACE] + kindWord + [SPACE]) + (HEADER + [SPACE]) + Opener(Begin, []) + open;
    ScriptShape(verb, kindWord, inner, after, rest);
    CloserBytes(If);
    CloserBytes(Begin);
    SelectBytes(49);
    SelectBytes(50);
    assert RPAREN !in tail;
    var b := Routine(verb, kindWord, HEADER, Guarded(inner, after)) + [SEMI] + rest;
    assert b == head + tail;
    forall k | |head| <= k < |b| ensures b[k] != RPAREN {
      assert b[k] == tail[k - |head|];
    }
  }

  lemma LeafBody(t: Text)
    ensures PrintBody(More(Leaf(t), Done)) == t + [SEMI] + [SPACE]
  {
    assert PrintBody(Done) == [];
  }

  lemma CloserBytes(kind: Kind)
    ensures RPAREN !in Closer(kind)
  {
  }

  lemma SelectBytes(n: Byte)
    requires IsDigit(n)
    ensures RPAREN !in Select(n)
  {
  }

  lemma ScriptShape(verb: Text, kindWord: Text, inner: Body, after: Body, rest: Text)
    ensures Routine(verb, kindWord, HEADER, Guarded(inner, after)) + [SEMI] + rest ==
            (verb + ([SPACE] + kindWord + [SPACE]) + (HEADER + [SPACE]) + Opener(Begin, []) + Opener(If, COND))
              + (PrintBody(inner) + Closer(If) + [SEMI] + [SPACE] + PrintBody(after) + Closer(Begin) + [SEMI] + rest)
  {
    hide Opener, Closer;
    var item := Block(If, COND, inner);
    assert PrintBody(Guarded(inner, after)) == PrintItem(item) + PrintBody(after);
    ShapeAssembly(verb, [SPACE] + kindWord + [SPACE], HEADER + [SPACE], Opener(Begin, []), Opener(If, COND),
                  PrintBody(inner), Closer(If), PrintBody(after), Closer(Begin), rest);
  }

  lemma ShapeAssembly(v: Text, k: Text, h: Text, o: Text, c: Text, i: Text, e: Text, a: Text, f: Text, r: Text)
    ensures v + k + h + (o + (c + i + e + [SEMI] + [SPACE] + a + f)) + [SEMI] + r ==
            (v + k + h + o + c) + (i + e + [SEMI] + [SPACE] + a + f + [SEMI] + r)
  {
  }

  /**
   * `CREATE PROCEDURE p() BEGIN IF ($$($$ = x) THEN SELECT 1; END IF; SELECT 2; END; SELECT 3`
   * is cut inside the routine wherever the dialect has dollar quotes.
   */
  lemma DollarConditionExample(d: Dialect)
    requires d.DollarQuotes()
    ensures var body := Guarded(More(Leaf(Select(49)), Done), More(Leaf(Select(50)), Done));
            var r := Routine(Ascii("CREATE"), Ascii("PROCEDURE"), HEADER, body);
            && RoutineCalm(Ascii("CREATE"), Ascii("PROCEDURE"), HEADER, body, d)
            && Ranges(r + [SEMI] + ([SPACE] + Select(51)), d)[0].hi < |r|
  {
    hide Calm, IsWord, Ranges, Routine, IsDdlVerb, IsRoutineKind, Ascii;
    var inner, after := More(Leaf(Select(49)), Done), More(Leaf(Select(50)), Done);
    var rest := [SPACE] + Select(51);
    SelectCalm(49, d);
    SelectCalm(50, d);
    SelectBytes(51);
    CondIsCalm(d);
    HeaderCalm(d);
    ExampleWords();
    assert BodyCalm(Done, d);
    assert BodyCalm(inner, d) && BodyCalm(after, d);
    assert ItemCalm(Block(If, COND, inner), d);
    assert BodyCalm(Guarded(inner, after), d);
    TailBytes(Ascii("CREATE"), Ascii("PROCEDURE"), rest);
    DollarConditionCuts(d, Ascii("CREATE"), Ascii("PROCEDURE"), HEADER, inner, after, rest);
  }

  lemma ExampleWords()
    ensures IsWord(Ascii("CREATE")) && IsDdlVerb(Ascii("CREATE"))
    ensures IsWord(Ascii("PROCEDURE")) && IsRoutineKind(Ascii("PROCEDURE"))
  {
    assert Spells(Ascii("CREATE"), "create") && Spells(Ascii("PROCEDURE"), "procedure");
  }
}
