/**
 * The two scanners of crates/red-core/src/sql.rs agree: the statement boundaries
 * of `statement_ranges` are the `;` bytes that `strip_noise` leaves visible.
 */
module SqlAgree {
  import opened Bytes
  import opened Wrappers
  import opened SqlLexer
  import opened SqlSplit
  import opened SqlStrip
  import opened SqlText

  /** The offsets of `;` in `t`, from `i` on. */
  function Semis(t: Text, i: nat): (r: seq<nat>)
    requires i <= |t|
    decreases |t| - i
  {
    if i == |t| then []
    else if t[i] == SEMI then [i] + Semis(t, i + 1)
    else Semis(t, i + 1)
  }

  /** The ends of all ranges that stop before the end of input. */
  function Ends(r: seq<Range>): (e: seq<nat>)
    ensures |e| == if r == [] then 0 else |r| - 1
  {
    if |r| <= 1 then [] else [r[0].hi] + Ends(r[1..])
  }

  /** The stripped copy `r` of `b` continues at `i` as the stripper would restart there. */
  ghost predicate InStep(b: Text, d: Dialect, r: Text, i: nat) {
    i <= |b| == |r| && r[i..] == StripFrom(b, i, |b|, d)
  }

  lemma InStepAt(b: Text, d: Dialect, r: Text, i: nat, piece: Text, j: nat)
    requires InStep(b, d, r, i) && i <= j <= |b| && |piece| == j - i
    requires StripFrom(b, i, |b|, d) == piece + StripFrom(b, j, |b|, d)
    ensures InStep(b, d, r, j) && r[i..j] == piece
  {
    assert r[j..] == r[i..][j - i..];
    assert r[i..j] == r[i..][..j - i];
  }

  lemma InStepNext(b: Text, d: Dialect, r: Text, i: nat)
    requires InStep(b, d, r, i) && i < |b|
    ensures InStep(b, d, r, Next(b, i, |b|, d))
    ensures r[i..Next(b, i, |b|, d)] == Piece(b, i, |b|, d)
  {
    InStepAt(b, d, r, i, Piece(b, i, |b|, d), Next(b, i, |b|, d));
  }

  /** The word that `WordStep` reads, with the `END` kind word it may swallow, is plain text without `;`. */
  lemma WordStepPlain(b: Text, d: Dialect, s: State)
    requires s.i < |b| && IsWordByte(b[s.i]) && s.delim != [] && !AtDirective(b, s)
    ensures forall k :: s.i <= k < WordStep(b, d, s).i ==> IsPlain(b[k]) && b[k] != SEMI
  {
    var end := WordEnd(b, s.i);
    WordRun(b, s.i);
    SpaceRun(b, end);
    WordRun(b, SpaceEnd(b, end));
  }

  /** Outside words, both scanners read the same lexeme. */
  lemma SameLexeme(b: Text, d: Dialect, s: State)
    requires s.i < |b| && s.delim != [] && !IsWordByte(b[s.i])
    ensures Lex(b, d, s).i == Next(b, s.i, |b|, d)
  {
    if d.ExecutableCommentAt(b, s.i) {
      assert b[s.i..s.i + 3] == [SLASH, STAR, BANG];
      assert b[s.i] == b[s.i..s.i + 3][0] && b[s.i + 1] == b[s.i..s.i + 3][1];
    }
  }

  /** Only a copied byte or an executable comment can show a `;`. */
  lemma PieceSemi(b: Text, d: Dialect, i: nat)
    requires i < |b| && !d.ExecutableCommentAt(b, i)
    ensures SEMI in Piece(b, i, |b|, d) <==> b[i] == SEMI
  {
  }

  /** A `;` the scanner passes without breaking, though the stripper shows it. */
  ghost predicate Hides(b: Text, d: Dialect, s: State)
    requires s.i < |b|
  {
    || b[s.i] == SEMI
    || (d.ExecutableCommentAt(b, s.i) && SEMI in Piece(b, s.i, |b|, d))
  }

  lemma WordAgrees(b: Text, d: Dialect, r: Text, s: State)
    requires s.i < |b| && s.delim != [] && IsWordByte(b[s.i]) && !AtDirective(b, s) && InStep(b, d, r, s.i)
    ensures InStep(b, d, r, WordStep(b, d, s).i) && SEMI !in r[s.i..WordStep(b, d, s).i]
  {
    var j := WordStep(b, d, s).i;
    WordStepPlain(b, d, s);
    StripCopies(b, s.i, j, |b|, d);
    InStepAt(b, d, r, s.i, b[s.i..j], j);
  }

  lemma LexemeAgrees(b: Text, d: Dialect, r: Text, s: State)
    requires s.i < |b| && s.delim != [] && !IsWordByte(b[s.i]) && InStep(b, d, r, s.i)
    ensures InStep(b, d, r, Lex(b, d, s).i)
    ensures r[s.i..Lex(b, d, s).i] == Piece(b, s.i, |b|, d)
    ensures SEMI in Piece(b, s.i, |b|, d) <==> Hides(b, d, s)
  {
    SameLexeme(b, d, s);
    InStepNext(b, d, r, s.i);
    if d.ExecutableCommentAt(b, s.i) {
      assert b[s.i] == b[s.i..s.i + 3][0];
    } else {
      PieceSemi(b, d, s.i);
    }
  }

  lemma WordHidesNothing(b: Text, d: Dialect, s: State)
    requires s.i < |b| && IsWordByte(b[s.i])
    ensures !Hides(b, d, s)
  {
  }

  /** One step of the splitter, seen in the stripped copy. */
  lemma StepAgrees(b: Text, d: Dialect, r: Text, s: State)
    requires s.i < |b| && s.delim != [] && !AtDirective(b, s) && InStep(b, d, r, s.i)
    ensures InStep(b, d, r, Lex(b, d, s).i)
    ensures SEMI in r[s.i..Lex(b, d, s).i] <==> Hides(b, d, s)
  {
    if IsWordByte(b[s.i]) {
      WordAgrees(b, d, r, s);
      LexOfWord(b, d, s);
      WordHidesNothing(b, d, s);
    } else {
      LexemeAgrees(b, d, r, s);
    }
  }

  lemma {:induction false} SemisSkip(t: Text, i: nat, j: nat)
    requires i <= j <= |t| && SEMI !in t[i..j]
    ensures Semis(t, i) == Semis(t, j)
    decreases j - i
  {
    if i < j {
      assert t[i] == t[i..j][0];
      assert t[i + 1..j] == t[i..j][1..];
      SemisSkip(t, i + 1, j);
    }
  }

  lemma {:induction false} SemisGrow(t: Text, i: nat, j: nat)
    requires i <= j <= |t|
    ensures |Semis(t, i)| >= |Semis(t, j)|
    ensures SEMI in t[i..j] ==> |Semis(t, i)| > |Semis(t, j)|
    decreases j - i
  {
    if i < j {
      assert t[i..j] == [t[i]] + t[i + 1..j];
      SemisGrow(t, i + 1, j);
    }
  }

  /** The run from `s` hides no `;`. */
  ghost predicate QuietFrom(b: Text, d: Dialect, s: State)
    requires s.i <= |b| && s.delim != []
    decreases |b| - s.i
  {
    s.i == |b| ||
    if Breaks(b, s) then QuietFrom(b, d, AfterBreak(s))
    else !Hides(b, d, s) && QuietFrom(b, d, Lex(b, d, s))
  }

  lemma BreakInStep(b: Text, d: Dialect, r: Text, s: State)
    requires s.i < |b| && s.delim == [SEMI] && Breaks(b, s) && InStep(b, d, r, s.i)
    ensures r[s.i] == SEMI && InStep(b, d, r, s.i + 1)
  {
    assert b[s.i] == b[s.i..s.i + 1][0];
    StripCopies(b, s.i, s.i + 1, |b|, d);
    InStepAt(b, d, r, s.i, b[s.i..s.i + 1], s.i + 1);
    assert r[s.i] == r[s.i..s.i + 1][0];
  }

  lemma EndsCons(x: Range, r: seq<Range>)
    requires r != []
    ensures Ends([x] + r) == [x.hi] + Ends(r)
  {
    assert ([x] + r)[1..] == r;
  }

  /**
   * From any state in step: every boundary is a visible `;`, there are never
   * more boundaries than visible `;`, and the two lists coincide exactly on
   * runs that hide none.
   */
  lemma {:induction false} SemisHead(t: Text, i: nat)
    requires i < |t| && t[i] == SEMI
    ensures Semis(t, i) == [i] + Semis(t, i + 1)
  {
  }

  lemma {:induction false} AgreeAtEnd(b: Text, d: Dialect, r: Text, s: State)
    requires s.i <= |b| && s.delim != [] && |r| == |b|
    ensures s.i == |b| ==> Ends(RangesFrom(b, d, s)) == [] && Semis(r, s.i) == []
  {
  }

  lemma {:induction false} AgreeFrom(b: Text, d: Dialect, r: Text, s: State)
    requires s.i <= |b| && s.delim == [SEMI] && NoDirectiveFrom(b, d, s) && InStep(b, d, r, s.i)
    ensures forall e <- Ends(RangesFrom(b, d, s)) :: e < |b| && r[e] == SEMI
    ensures |Ends(RangesFrom(b, d, s))| <= |Semis(r, s.i)|
    ensures QuietFrom(b, d, s) ==> Ends(RangesFrom(b, d, s)) == Semis(r, s.i)
    ensures !QuietFrom(b, d, s) ==> |Ends(RangesFrom(b, d, s))| < |Semis(r, s.i)|
    decreases |b| - s.i
  {
    hide Lex, RangesFrom, Semis, Ends, Hides;
    AgreeAtEnd(b, d, r, s);
    if s.i < |b| {
      Unroll(b, d, s);
      if Breaks(b, s) {
        BreakInStep(b, d, r, s);
        AgreeFrom(b, d, r, AfterBreak(s));
        EndsCons(Range(s.start, s.i), RangesFrom(b, d, AfterBreak(s)));
        SemisHead(r, s.i);
      } else {
        LexKeeps(b, d, s);
        StepAgrees(b, d, r, s);
        var t := Lex(b, d, s);
        AgreeFrom(b, d, r, t);
        SemisGrow(r, s.i, t.i);
        if !Hides(b, d, s) {
          SemisSkip(r, s.i, t.i);
        }
      }
    }
  }

  lemma StartInStep(b: Text, d: Dialect)
    ensures InStep(b, d, Strip(b, d), 0)
  {
  }

  /**
   * With no directive, each boundary is a visible `;`; and the boundaries are all
   * of them if and only if the run passes no `;` inside an open block and none
   * made visible by an executable comment.
   */
  lemma SplitterAgreesWithStripper(b: Text, d: Dialect)
    requires NoDirective(b, d)
    ensures forall e <- Ends(Ranges(b, d)) :: e < |b| && Strip(b, d)[e] == SEMI
    ensures Ends(Ranges(b, d)) == Semis(Strip(b, d), 0) <==> QuietFrom(b, d, Init)
  {
    StartInStep(b, d);
    AgreeFrom(b, d, Strip(b, d), Init);
  }

  // ----- scripts with no routine and no executable comment -----

  /** The scan from `s` meets no routine DDL at the head of a statement. */
  ghost predicate NoRoutineFrom(b: Text, d: Dialect, s: State)
    requires s.i <= |b| && s.delim != []
    decreases |b| - s.i
  {
    s.i == |b| ||
    if Breaks(b, s) then NoRoutineFrom(b, d, AfterBreak(s))
    else !(s.atHead && IsWordByte(b[s.i]) && RoutineDdlAt(b, s.i)) && NoRoutineFrom(b, d, Lex(b, d, s))
  }

  ghost predicate NoExecutableComment(b: Text, d: Dialect) {
    forall i: nat | i < |b| :: !d.ExecutableCommentAt(b, i)
  }

  lemma LexStaysFlat(b: Text, d: Dialect, s: State)
    requires s.i < |b| && s.delim != [] && s.depth == 0 && !s.compound
    requires !(s.atHead && IsWordByte(b[s.i]) && RoutineDdlAt(b, s.i))
    ensures Lex(b, d, s).depth == 0 && !Lex(b, d, s).compound
  {
  }

  lemma {:induction false} FlatIsQuiet(b: Text, d: Dialect, s: State)
    requires s.i <= |b| && s.delim == [SEMI] && s.depth == 0 && !s.compound
    requires NoDirectiveFrom(b, d, s) && NoRoutineFrom(b, d, s) && NoExecutableComment(b, d)
    ensures QuietFrom(b, d, s)
    decreases |b| - s.i
  {
    if s.i < |b| {
      if Breaks(b, s) {
        FlatIsQuiet(b, d, AfterBreak(s));
      } else {
        LexKeeps(b, d, s);
        LexStaysFlat(b, d, s);
        FlatIsQuiet(b, d, Lex(b, d, s));
      }
    }
  }

  /**
   * For any script and dialect with no directive, no routine DDL and no
   * executable comment, the splitter breaks at exactly the offsets of `;` in
   * the stripped copy.
   */
  lemma PlainScriptsAgree(b: Text, d: Dialect)
    requires NoDirective(b, d) && NoRoutineFrom(b, d, Init) && NoExecutableComment(b, d)
    ensures Ends(Ranges(b, d)) == Semis(Strip(b, d), 0)
  {
    FlatIsQuiet(b, d, Init);
    SplitterAgreesWithStripper(b, d);
  }
}
