/**
 * Calm text: text whose lexemes are neither block keywords nor `END`, so that
 * the splitter glides over it without a break and without a change of depth.
 */
module SqlCalm {
  import opened Bytes
  import opened Wrappers
  import opened SqlLexer
  import opened SqlSplit
  import opened SqlLocal

  /** No `END` and no block keyword; the functions `IF(…)` and `REPEAT(…)` are neither. */
  predicate CalmWord(w: Text, call: bool) {
    !Spells(w, "end") && (IsBlockWord(w) ==> call && (Spells(w, "if") || Spells(w, "repeat")))
  }

  /** A `(` stands at `i`. */
  predicate CallAt(b: Text, i: nat) {
    i < |b| && b[i] == LPAREN
  }

  /** The lexeme at `i` is a calm word, or no `;` unless `semis`. */
  predicate CalmAt(b: Text, i: nat, d: Dialect, semis: bool)
    requires i < |b|
  {
    && (semis || b[i] != SEMI)
    && (IsWordByte(b[i]) ==> CalmWord(b[i..WordEnd(b, i)], CallAt(b, WordEnd(b, i))))
  }

  /** The lexemes of `b` from `i` on are calm and one of them ends at `hi`. */
  predicate CalmFrom(b: Text, i: nat, hi: nat, d: Dialect, semis: bool)
    requires i <= |b| && hi <= |b|
    decreases |b| - i
  {
    || i == hi
    || (&& i < hi && CalmAt(b, i, d, semis) && LexemeEnd(b, i, d) <= hi
        && CalmFrom(b, LexemeEnd(b, i, d), hi, d, semis))
  }

  /** `t`, followed by the separator `sep`, is calm up to the separator. */
  predicate Calm(t: Text, sep: Byte, d: Dialect, semis: bool) {
    CalmFrom(t + [sep], 0, |t|, d, semis)
  }

  lemma {:induction false} CalmConcat(b: Text, i: nat, m: nat, hi: nat, d: Dialect, semis: bool)
    requires i <= |b| && m <= hi <= |b| && CalmFrom(b, i, m, d, semis) && CalmFrom(b, m, hi, d, semis)
    ensures CalmFrom(b, i, hi, d, semis)
    decreases |b| - i
  {
    if i != m {
      CalmConcat(b, LexemeEnd(b, i, d), m, hi, d, semis);
    }
  }

  lemma CalmAtShift(b: Text, o: nat, i: nat, d: Dialect, semis: bool)
    requires CleanAt(b, o) && o + i < |b|
    ensures CalmAt(b, o + i, d, semis) == CalmAt(b[o..], i, d, semis)
  {
    hide CalmWord;
    ByteShift(b, o, i);
    WordEndShift(b, o, i);
    if WordEnd(b[o..], i) < |b[o..]| {
      ByteShift(b, o, WordEnd(b[o..], i));
    }
    SliceShift(b, o, i, WordEnd(b[o..], i));
  }

  lemma {:induction false} CalmShift(b: Text, o: nat, i: nat, hi: nat, d: Dialect, semis: bool)
    requires CleanAt(b, o) && o + i <= |b| && o + hi <= |b| && CalmFrom(b[o..], i, hi, d, semis)
    ensures CalmFrom(b, o + i, o + hi, d, semis)
    decreases |b| - i
  {
    hide CalmAt, LexemeEnd;
    if i != hi {
      CalmAtShift(b, o, i, d, semis);
      LexemeEndShift(b, o, i, d);
      CalmShift(b, o, LexemeEnd(b[o..], i, d), hi, d, semis);
    }
  }

  lemma CalmAtExtend(x: Text, r: Text, i: nat, d: Dialect, semis: bool)
    requires i < |x| && !IsWordByte(x[|x| - 1])
    ensures CalmAt(x + r, i, d, semis) == CalmAt(x, i, d, semis)
  {
    hide CalmWord;
    WordEndBefore(x, i);
    WordEndExtend(x, r, i);
    assert (x + r)[i..WordEnd(x, i)] == x[i..WordEnd(x, i)];
  }

  lemma {:induction false} CalmExtend(x: Text, r: Text, i: nat, hi: nat, d: Dialect, semis: bool)
    requires i <= hi < |x| && !IsWordByte(x[|x| - 1]) && x[|x| - 1] != DASH && CalmFrom(x, i, hi, d, semis)
    ensures CalmFrom(x + r, i, hi, d, semis)
    decreases |x| - i
  {
    hide CalmAt, LexemeEnd;
    if i != hi {
      CalmAtExtend(x, r, i, d, semis);
      LexemeEndExtend(x, r, i, d);
      CalmExtend(x, r, LexemeEnd(x, i, d), hi, d, semis);
    }
  }

  /** Calm text stays calm inside a script. */
  lemma CalmPlaced(b: Text, o: nat, t: Text, sep: Byte, d: Dialect, semis: bool)
    requires CleanAt(b, o) && StartsWithAt(b, o, t) && o + |t| < |b| && b[o + |t|] == sep
    requires (sep == SEMI || sep == SPACE) && Calm(t, sep, d, semis)
    ensures CalmFrom(b, o, o + |t|, d, semis)
  {
    hide CalmFrom;
    var x := t + [sep];
    var r := b[o + |x|..];
    assert b[o..] == x + r by {
      assert b[o..] == b[o..o + |t|] + [b[o + |t|]] + b[o + |t| + 1..];
    }
    CalmExtend(x, r, 0, |t|, d, semis);
    CalmShift(b, o, 0, |t|, d, semis);
  }

  lemma CalmByte(b: Text, i: nat, d: Dialect, semis: bool)
    requires i < |b| && (b[i] == SPACE || b[i] == LPAREN || b[i] == RPAREN || b[i] == 44 || (b[i] == SEMI && semis))
    ensures CalmFrom(b, i, i + 1, d, semis)
  {
    assert LexemeEnd(b, i, d) == i + 1;
  }

  // ----- words -----

  ghost predicate IsWord(w: Text) {
    w != [] && forall k :: 0 <= k < |w| ==> IsWordByte(w[k])
  }

  lemma {:induction false} WordEndOf(w: Text, r: Text, i: nat)
    requires i <= |w| && IsWord(w) && (r != [] ==> !IsWordByte(r[0]))
    ensures WordEnd(w + r, i) == |w|
    decreases |w| - i
  {
    if i < |w| {
      WordEndOf(w, r, i + 1);
    }
  }

  /** A word in a script, read by the splitter. */
  lemma WordPlaced(b: Text, o: nat, w: Text)
    requires StartsWithAt(b, o, w) && IsWord(w) && (o + |w| < |b| ==> !IsWordByte(b[o + |w|]))
    ensures IsWordByte(b[o]) && WordEnd(b, o) == o + |w| && b[o..o + |w|] == w
  {
    var r := b[o + |w|..];
    StartsWithTail(b, o, w);
    WordEndTail(b, o);
    WordEndOf(w, r, 0);
    StartsWithByte(b, o, w, 0);
  }

  lemma CalmWordPlaced(b: Text, o: nat, w: Text, d: Dialect, semis: bool)
    requires StartsWithAt(b, o, w) && IsWord(w) && (o + |w| < |b| ==> !IsWordByte(b[o + |w|]))
    requires !IsBlockWord(w) && !Spells(w, "end")
    ensures CalmFrom(b, o, o + |w|, d, semis)
  {
    hide IsBlockWord, Spells;
    WordPlaced(b, o, w);
    assert LexemeEnd(b, o, d) == o + |w|;
  }

  // ----- gliding -----

  lemma CalmLex(b: Text, d: Dialect, s: State, semis: bool)
    requires s.i < |b| && s.delim != [] && !s.atHead && CalmAt(b, s.i, d, semis)
    ensures Lex(b, d, s) == s.(i := LexemeEnd(b, s.i, d))
  {
    hide IsBlockKind, Spells, RoutineDdlAt, RestOfLine, NextWord;
    if IsWordByte(b[s.i]) {
      assert LexemeEnd(b, s.i, d) == WordEnd(b, s.i);
    }
  }

  /** No separator of `s` ends a statement in `b[s.i..hi]`. */
  ghost predicate Unbroken(b: Text, s: State, hi: nat, semis: bool) {
    || s.depth > 0
    || (s.delim == [SEMI] && !semis)
    || (forall k :: s.i <= k < hi ==> !StartsWithAt(b, k, s.delim))
  }

  /** Inside an open block, or where no separator occurs, the splitter passes calm text. */
  lemma {:induction false} Glide(b: Text, d: Dialect, s: State, hi: nat, semis: bool)
    requires s.i <= hi <= |b| && s.delim != [] && !s.atHead && Unbroken(b, s, hi, semis)
    requires CalmFrom(b, s.i, hi, d, semis)
    ensures RangesFrom(b, d, s) == RangesFrom(b, d, s.(i := hi))
    decreases |b| - s.i
  {
    hide Lex, LexemeEnd, IsBlockWord, Spells;
    if s.i < hi {
      CalmLex(b, d, s, semis);
      Unroll(b, d, s);
      if s.depth == 0 && s.delim == [SEMI] && !semis && Breaks(b, s) {
        StartsWithByte(b, s.i, [SEMI], 0);
        assert false;
      }
      Glide(b, d, s.(i := LexemeEnd(b, s.i, d)), hi, semis);
    }
  }

  /** The first statement ends at `k`; the rest splits as it would on its own. */
  lemma FirstStatement(b: Text, d: Dialect, s: State)
    requires s.i < |b| && b[s.i] == SEMI && s.start == 0 && s.depth == 0 && s.delim == [SEMI]
    ensures RangesFrom(b, d, s) == [Range(0, s.i)] + ShiftRanges(Ranges(b[s.i + 1..], d), s.i + 1)
  {
    hide Lex, RangesFrom;
    Unroll(b, d, s);
    assert b[s.i..s.i + 1] == [SEMI];
    assert AfterBreak(s) == ShiftState(Init, s.i + 1);
    RangesShift(b, s.i + 1, d, Init);
  }
}
