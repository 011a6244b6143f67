/**
 * Locality of the SQL lexer. A lexeme depends only on the text from its first
 * byte on (the `Tail` lemmas), and not on what follows a text in which it ends
 * (the `Extend` lemmas).
 */
module SqlLocal {
  import opened Bytes
  import opened Wrappers
  import opened SqlLexer
  import opened SqlSplit

  lemma DropDrop(b: Text, i: nat, w: nat)
    requires i + w <= |b|
    ensures b[i..][w..] == b[i + w..]
  {
  }

  // ----- runs -----

  lemma {:induction false} WordEndTail(b: Text, i: nat)
    requires i <= |b|
    ensures WordEnd(b, i) == i + WordEnd(b[i..], 0)
    decreases |b| - i
  {
    if i < |b| && IsWordByte(b[i]) {
      WordEndTail(b, i + 1);
      WordEndTail(b[i..], 1);
      DropDrop(b, i, 1);
    }
  }

  lemma {:induction false} SpaceEndTail(b: Text, i: nat)
    requires i <= |b|
    ensures SpaceEnd(b, i) == i + SpaceEnd(b[i..], 0)
    decreases |b| - i
  {
    if i < |b| && IsSpace(b[i]) {
      SpaceEndTail(b, i + 1);
      SpaceEndTail(b[i..], 1);
      DropDrop(b, i, 1);
    }
  }

  lemma {:induction false} LineEndTail(b: Text, i: nat)
    requires i <= |b|
    ensures LineEnd(b, i) == i + LineEnd(b[i..], 0)
    decreases |b| - i
  {
    if i < |b| && b[i] != NEWLINE {
      LineEndTail(b, i + 1);
      LineEndTail(b[i..], 1);
      DropDrop(b, i, 1);
    }
  }

  lemma QuotedStepTail(b: Text, j: nat, q: Byte, escapes: bool)
    requires j < |b|
    ensures ClosesQuote(b[j..], 0, q) == ClosesQuote(b, j, q)
    ensures !ClosesQuote(b, j, q) ==> QuotedWidth(b[j..], 0, q, escapes) == QuotedWidth(b, j, q, escapes)
  {
  }

  lemma {:induction false} QuotedFromTail(b: Text, j: nat, q: Byte, escapes: bool)
    requires j <= |b|
    ensures QuotedFrom(b, j, q, escapes) == j + QuotedFrom(b[j..], 0, q, escapes)
    decreases |b| - j
  {
    if j < |b| {
      QuotedStepTail(b, j, q, escapes);
      if !ClosesQuote(b, j, q) {
        var w := QuotedWidth(b, j, q, escapes);
        QuotedFromTail(b, j + w, q, escapes);
        QuotedFromTail(b[j..], w, q, escapes);
        DropDrop(b, j, w);
      }
    }
  }

  lemma {:induction false} BlockFromTail(b: Text, j: nat, depth: nat, nests: bool)
    requires j <= |b| && depth > 0
    ensures BlockFrom(b, j, depth, nests) == j + BlockFrom(b[j..], 0, depth, nests)
    decreases |b| - j
  {
    if j + 1 < |b| {
      var t := b[j..];
      var mark := MarkAt(b, j, nests);
      assert MarkAt(t, 0, nests) == mark;
      if !(mark.Closes? && depth == 1) {
        var w := if mark.Neither? then 1 else 2;
        var next := if mark.Closes? then depth - 1 else if mark.Opens? then depth + 1 else depth;
        BlockFromTail(b, j + w, next, nests);
        BlockFromTail(t, w, next, nests);
        DropDrop(b, j, w);
      }
    }
  }

  lemma {:induction false} TagCloseTail(b: Text, k: nat, tag: Text)
    requires k <= |b| && tag != []
    ensures TagCloseEnd(b, k, tag) == k + TagCloseEnd(b[k..], 0, tag)
    decreases |b| - k
  {
    if k + |tag| <= |b| {
      var t := b[k..];
      assert t[0..|tag|] == b[k..k + |tag|];
      if !StartsWithAt(b, k, tag) {
        TagCloseTail(b, k + 1, tag);
        TagCloseTail(t, 1, tag);
        DropDrop(b, k, 1);
      }
    }
  }

  lemma {:induction false} WordEndExtend(x: Text, r: Text, i: nat)
    requires i <= |x| && WordEnd(x, i) < |x|
    ensures WordEnd(x + r, i) == WordEnd(x, i)
    decreases |x| - i
  {
    if IsWordByte(x[i]) {
      WordEndExtend(x, r, i + 1);
    }
  }

  lemma {:induction false} SpaceEndExtend(x: Text, r: Text, i: nat)
    requires i <= |x| && SpaceEnd(x, i) < |x|
    ensures SpaceEnd(x + r, i) == SpaceEnd(x, i)
    decreases |x| - i
  {
    if IsSpace(x[i]) {
      SpaceEndExtend(x, r, i + 1);
    }
  }

  lemma {:induction false} LineEndExtend(x: Text, r: Text, i: nat)
    requires i <= |x| && LineEnd(x, i) < |x|
    ensures LineEnd(x + r, i) == LineEnd(x, i)
    decreases |x| - i
  {
    if x[i] != NEWLINE {
      LineEndExtend(x, r, i + 1);
    }
  }

  lemma {:induction false} QuotedFromExtend(x: Text, r: Text, j: nat, q: Byte, escapes: bool)
    requires j <= |x| && QuotedFrom(x, j, q, escapes) < |x|
    ensures QuotedFrom(x + r, j, q, escapes) == QuotedFrom(x, j, q, escapes)
    decreases |x| - j
  {
    assert ClosesQuote(x + r, j, q) == ClosesQuote(x, j, q);
    if !ClosesQuote(x, j, q) {
      assert QuotedWidth(x + r, j, q, escapes) == QuotedWidth(x, j, q, escapes);
      QuotedFromExtend(x, r, j + QuotedWidth(x, j, q, escapes), q, escapes);
    }
  }

  lemma {:induction false} BlockFromExtend(x: Text, r: Text, j: nat, depth: nat, nests: bool)
    requires j <= |x| && depth > 0 && BlockFrom(x, j, depth, nests) < |x|
    ensures BlockFrom(x + r, j, depth, nests) == BlockFrom(x, j, depth, nests)
    decreases |x| - j
  {
    var mark := MarkAt(x, j, nests);
    assert MarkAt(x + r, j, nests) == mark;
    if !(mark.Closes? && depth == 1) {
      var w := if mark.Neither? then 1 else 2;
      var next := if mark.Closes? then depth - 1 else if mark.Opens? then depth + 1 else depth;
      BlockFromExtend(x, r, j + w, next, nests);
    }
  }

  lemma {:induction false} TagCloseExtend(x: Text, r: Text, k: nat, tag: Text)
    requires k <= |x| && tag != [] && TagCloseEnd(x, k, tag) < |x|
    ensures TagCloseEnd(x + r, k, tag) == TagCloseEnd(x, k, tag)
    decreases |x| - k
  {
    assert (x + r)[k..k + |tag|] == x[k..k + |tag|];
    if !StartsWithAt(x, k, tag) {
      TagCloseExtend(x, r, k + 1, tag);
    }
  }

  // ----- the tail of a script -----

  /** No word runs into offset `o`, so no `E'` prefix can straddle it. */
  ghost predicate CleanAt(b: Text, o: nat) {
    o <= |b| && (o > 0 ==> !IsWordByte(b[o - 1]))
  }

  lemma ByteShift(b: Text, o: nat, i: nat)
    requires o + i < |b|
    ensures b[o..][i] == b[o + i]
  {
  }

  lemma WordEndShift(b: Text, o: nat, i: nat)
    requires o + i <= |b|
    ensures WordEnd(b, o + i) == o + WordEnd(b[o..], i)
  {
    WordEndTail(b, o + i);
    WordEndTail(b[o..], i);
    DropDrop(b, o, i);
  }

  lemma SpaceEndShift(b: Text, o: nat, i: nat)
    requires o + i <= |b|
    ensures SpaceEnd(b, o + i) == o + SpaceEnd(b[o..], i)
  {
    SpaceEndTail(b, o + i);
    SpaceEndTail(b[o..], i);
    DropDrop(b, o, i);
  }

  lemma LineEndShift(b: Text, o: nat, i: nat)
    requires o + i <= |b|
    ensures LineEnd(b, o + i) == o + LineEnd(b[o..], i)
  {
    LineEndTail(b, o + i);
    LineEndTail(b[o..], i);
    DropDrop(b, o, i);
  }

  lemma SliceShift(b: Text, o: nat, i: nat, j: nat)
    requires i <= j && o + j <= |b|
    ensures b[o..][i..j] == b[o + i..o + j]
  {
    SliceOfSlice(b, o, |b|, i, j);
  }

  lemma QuoteEscapesShift(b: Text, o: nat, i: nat, d: Dialect)
    requires CleanAt(b, o) && o + i < |b|
    ensures QuoteEscapes(b, o + i, b[o + i], d) == QuoteEscapes(b[o..], i, b[o + i], d)
  {
    if i >= 1 {
      ByteShift(b, o, i - 1);
    }
    if i >= 2 {
      ByteShift(b, o, i - 2);
    }
  }

  lemma QuotedEndShift(b: Text, o: nat, i: nat, d: Dialect)
    requires CleanAt(b, o) && o + i < |b|
    ensures QuotedEnd(b, o + i, d) == o + QuotedEnd(b[o..], i, d)
  {
    var q, escapes := b[o + i], QuoteEscapes(b, o + i, b[o + i], d);
    ByteShift(b, o, i);
    QuoteEscapesShift(b, o, i, d);
    QuotedFromTail(b, o + i + 1, q, escapes);
    QuotedFromTail(b[o..], i + 1, q, escapes);
    DropDrop(b, o, i + 1);
  }

  lemma OpenersShift(b: Text, o: nat, i: nat, d: Dialect)
    requires o + i < |b|
    ensures d.DashCommentAt(b, o + i) == d.DashCommentAt(b[o..], i)
    ensures BlockCommentAt(b, o + i) == BlockCommentAt(b[o..], i)
  {
    ByteShift(b, o, i);
    if o + i + 1 < |b| {
      ByteShift(b, o, i + 1);
    }
    if o + i + 2 < |b| {
      ByteShift(b, o, i + 2);
    }
  }

  lemma BlockEndShift(b: Text, o: nat, i: nat, d: Dialect)
    requires o + i < |b| && BlockCommentAt(b, o + i) && BlockCommentAt(b[o..], i)
    ensures BlockEnd(b, o + i, d) == o + BlockEnd(b[o..], i, d)
  {
    BlockFromTail(b, o + i + 2, 1, d.NestedBlockComments());
    BlockFromTail(b[o..], i + 2, 1, d.NestedBlockComments());
    DropDrop(b, o, i + 2);
  }

  function ShiftEnd(r: Option<nat>, o: nat): Option<nat> {
    match r case Some(e) => Some(o + e) case None => None
  }

  lemma TagCloseShift(b: Text, o: nat, k: nat, tag: Text)
    requires o + k <= |b| && tag != []
    ensures TagCloseEnd(b, o + k, tag) == o + TagCloseEnd(b[o..], k, tag)
  {
    TagCloseTail(b, o + k, tag);
    TagCloseTail(b[o..], k, tag);
    DropDrop(b, o, k);
  }

  lemma DollarTagShift(b: Text, o: nat, i: nat)
    requires o + i < |b|
    ensures DollarTag(b, o + i) == DollarTag(b[o..], i)
  {
    hide WordEnd;
    WordEndShift(b, o, i + 1);
    var j := WordEnd(b[o..], i + 1);
    if o + j < |b| {
      ByteShift(b, o, j);
      SliceShift(b, o, i, j + 1);
    }
  }

  lemma DollarEndShift(b: Text, o: nat, i: nat)
    requires o + i < |b|
    ensures DollarEnd(b, o + i) == ShiftEnd(DollarEnd(b[o..], i), o)
  {
    hide DollarTag, TagCloseEnd;
    var tag := DollarTag(b[o..], i);
    DollarTagShift(b, o, i);
    if tag != [] {
      TagCloseShift(b, o, i + |tag|, tag);
    }
  }

  lemma ThenLexemeShift(b: Text, o: nat, i: nat, d: Dialect)
    requires CleanAt(b, o) && o + i < |b|
    ensures ThenLexemeEnd(b, o + i, d) == o + ThenLexemeEnd(b[o..], i, d)
  {
    ByteShift(b, o, i);
    OpenersShift(b, o, i, d);
    if IsQuote(b[o + i]) {
      QuotedEndShift(b, o, i, d);
    } else if d.DashCommentAt(b, o + i) {
      LineEndShift(b, o, i + 2);
    } else if b[o + i] == HASH && d.HashComments() {
      LineEndShift(b, o, i + 1);
    } else if BlockCommentAt(b, o + i) {
      BlockEndShift(b, o, i, d);
    } else if IsWordByte(b[o + i]) {
      WordEndShift(b, o, i);
    }
  }

  function ShiftWord(r: Option<WordAt>, o: nat): Option<WordAt> {
    match r case Some(w) => Some(WordAt(w.text, o + w.end)) case None => None
  }

  lemma NextWordShift(b: Text, o: nat, i: nat)
    requires o + i <= |b|
    ensures NextWord(b, o + i) == ShiftWord(NextWord(b[o..], i), o)
  {
    SpaceEndShift(b, o, i);
    var k := SpaceEnd(b[o..], i);
    if k < |b[o..]| {
      ByteShift(b, o, k);
      WordEndShift(b, o, k);
      SliceShift(b, o, k, WordEnd(b[o..], k));
    }
  }

  lemma {:induction false} HeaderWordShift(b: Text, o: nat, i: nat)
    requires o + i <= |b|
    ensures HeaderWord(b, o + i) == ShiftWord(HeaderWord(b[o..], i), o)
    decreases |b| - i
  {
    if o + i < |b| {
      ByteShift(b, o, i);
      if IsWordByte(b[o + i]) {
        WordEndShift(b, o, i);
        SliceShift(b, o, i, WordEnd(b[o..], i));
      } else if b[o + i] != LPAREN {
        HeaderWordShift(b, o, i + 1);
      }
    }
  }

  lemma {:induction false} NamesRoutineShift(b: Text, o: nat, at: nat, words: nat)
    requires o + at <= |b|
    ensures NamesRoutine(b, o + at, words) == NamesRoutine(b[o..], at, words)
    decreases words
  {
    if words > 0 {
      HeaderWordShift(b, o, at);
      var w := HeaderWord(b[o..], at);
      if w.Some? {
        NamesRoutineShift(b, o, w.value.end, words - 1);
      }
    }
  }

  lemma RoutineDdlShift(b: Text, o: nat, i: nat)
    requires o + i <= |b|
    ensures RoutineDdlAt(b, o + i) == RoutineDdlAt(b[o..], i)
  {
    NextWordShift(b, o, i);
    var verb := NextWord(b[o..], i);
    if verb.Some? {
      NamesRoutineShift(b, o, verb.value.end, HEADER_WORDS);
    }
  }

  lemma RestOfLineShift(b: Text, o: nat, i: nat)
    requires o + i <= |b|
    ensures RestOfLine(b, o + i) == Directive(RestOfLine(b[o..], i).token, o + RestOfLine(b[o..], i).lineEnd)
  {
    LineEndShift(b, o, i);
    SliceShift(b, o, i, LineEnd(b[o..], i));
  }

  lemma {:induction false} ThenFollowsShift(b: Text, o: nat, i: nat, depth: nat, d: Dialect)
    requires CleanAt(b, o) && o + i <= |b|
    ensures ThenFollows(b, o + i, depth, d) == ThenFollows(b[o..], i, depth, d)
    decreases |b| - i
  {
    hide ThenLexemeEnd, Spells;
    if o + i < |b| {
      var y := b[o..];
      ByteShift(b, o, i);
      if y[i] == LPAREN {
        ThenFollowsShift(b, o, i + 1, depth + 1, d);
      } else if y[i] == RPAREN {
        ThenFollowsShift(b, o, i + 1, if depth == 0 then 0 else depth - 1, d);
      } else if !(y[i] == SEMI && depth == 0) {
        var e := ThenLexemeEnd(y, i, d);
        ThenLexemeShift(b, o, i, d);
        SliceShift(b, o, i, e);
        ThenFollowsShift(b, o, e, depth, d);
      }
    }
  }

  lemma IfExistsShift(b: Text, o: nat, i: nat)
    requires o + i <= |b|
    ensures IfExistsHeader(b, o + i) == IfExistsHeader(b[o..], i)
  {
    NextWordShift(b, o, i);
    var first := NextWord(b[o..], i);
    if first.Some? {
      NextWordShift(b, o, first.value.end);
    }
  }

  lemma OpensBlockShift(b: Text, word: Text, o: nat, i: nat, d: Dialect)
    requires CleanAt(b, o) && o + i <= |b|
    ensures OpensBlock(b, word, o + i, d) == OpensBlock(b[o..], word, i, d)
  {
    var y := b[o..];
    SpaceEndShift(b, o, i);
    var at := SpaceEnd(y, i);
    if i < |y| {
      ByteShift(b, o, i);
    }
    if at < |y| {
      ByteShift(b, o, at);
    }
    ThenFollowsShift(b, o, at, 0, d);
    ThenFollowsShift(b, o, i, 0, d);
    IfExistsShift(b, o, i);
  }

  function ShiftState(s: State, o: nat): State {
    s.(i := o + s.i, start := o + s.start)
  }

  function ShiftRanges(r: seq<Range>, o: nat): (t: seq<Range>)
    ensures |t| == |r|
  {
    seq(|r|, k requires 0 <= k < |r| => Range(o + r[k].lo, o + r[k].hi))
  }

  function ShiftFacts(f: WordFacts, o: nat): WordFacts {
    f.(end := o + f.end, line := Directive(f.line.token, o + f.line.lineEnd), next := ShiftWord(f.next, o))
  }

  lemma FactsShift(b: Text, o: nat, i: nat, d: Dialect)
    requires CleanAt(b, o) && o + i < |b| && IsWordByte(b[o + i]) && IsWordByte(b[o..][i])
    ensures FactsAt(b, o + i, d) == ShiftFacts(FactsAt(b[o..], i, d), o)
  {
    hide WordEnd, RestOfLine, RoutineDdlAt, NextWord, OpensBlock;
    var end := WordEnd(b[o..], i);
    var text := b[o..][i..end];
    assert WordEnd(b, o + i) == o + end && b[o + i..o + end] == text by {
      WordEndShift(b, o, i);
      SliceShift(b, o, i, end);
    }
    assert RestOfLine(b, o + end) == Directive(RestOfLine(b[o..], end).token, o + RestOfLine(b[o..], end).lineEnd) by {
      RestOfLineShift(b, o, end);
    }
    assert RoutineDdlAt(b, o + i) == RoutineDdlAt(b[o..], i) by {
      RoutineDdlShift(b, o, i);
    }
    assert NextWord(b, o + end) == ShiftWord(NextWord(b[o..], end), o) by {
      NextWordShift(b, o, end);
    }
    assert OpensBlock(b, text, o + end, d) == OpensBlock(b[o..], text, end, d) by {
      OpensBlockShift(b, text, o, end, d);
    }
  }

  lemma ApplyShift(s: State, f: WordFacts, o: nat)
    ensures ApplyWord(ShiftState(s, o), ShiftFacts(f, o)) == ShiftState(ApplyWord(s, f), o)
  {
  }

  lemma LexemeEndShift(b: Text, o: nat, i: nat, d: Dialect)
    requires CleanAt(b, o) && o + i < |b|
    ensures LexemeEnd(b, o + i, d) == o + LexemeEnd(b[o..], i, d)
  {
    ByteShift(b, o, i);
    DollarEndShift(b, o, i);
    ThenLexemeShift(b, o, i, d);
  }

  lemma WordStepShift(b: Text, o: nat, d: Dialect, s: State)
    requires CleanAt(b, o) && o + s.i < |b| && s.delim != [] && IsWordByte(b[o + s.i]) && IsWordByte(b[o..][s.i])
    ensures WordStep(b, d, ShiftState(s, o)) == ShiftState(WordStep(b[o..], d, s), o)
  {
    hide FactsAt, ApplyWord, ShiftFacts;
    FactsShift(b, o, s.i, d);
    ApplyShift(s, FactsAt(b[o..], s.i, d), o);
  }

  lemma LexShift(b: Text, o: nat, d: Dialect, s: State)
    requires CleanAt(b, o) && o + s.i < |b| && s.delim != []
    ensures Lex(b, d, ShiftState(s, o)) == ShiftState(Lex(b[o..], d, s), o)
  {
    hide WordStep, LexemeEnd;
    ByteShift(b, o, s.i);
    if IsWordByte(b[o + s.i]) {
      WordStepShift(b, o, d, s);
    } else {
      OpenersShift(b, o, s.i, d);
      LexemeEndShift(b, o, s.i, d);
    }
  }

  lemma BreaksShift(b: Text, o: nat, s: State)
    requires o + s.i <= |b|
    ensures Breaks(b, ShiftState(s, o)) == Breaks(b[o..], s)
  {
    if o + s.i + |s.delim| <= |b| {
      SliceShift(b, o, s.i, s.i + |s.delim|);
    }
  }

  lemma ShiftCons(x: Range, r: seq<Range>, o: nat)
    ensures ShiftRanges([x] + r, o) == [Range(o + x.lo, o + x.hi)] + ShiftRanges(r, o)
  {
  }

  /** The splitter reads the tail of a script as it reads that tail alone. */
  lemma {:induction false} RangesShift(b: Text, o: nat, d: Dialect, s: State)
    requires CleanAt(b, o) && o + s.i <= |b| && s.delim != []
    ensures RangesFrom(b, d, ShiftState(s, o)) == ShiftRanges(RangesFrom(b[o..], d, s), o)
    decreases |b| - s.i
  {
    hide Lex;
    if o + s.i < |b| {
      BreaksShift(b, o, s);
      Unroll(b, d, ShiftState(s, o));
      Unroll(b[o..], d, s);
      if Breaks(b[o..], s) {
        RangesShift(b, o, d, AfterBreak(s));
        ShiftCons(Range(s.start, s.i), RangesFrom(b[o..], d, AfterBreak(s)), o);
        assert ShiftState(AfterBreak(s), o) == AfterBreak(ShiftState(s, o));
      } else {
        LexShift(b, o, d, s);
        RangesShift(b, o, d, Lex(b[o..], d, s));
      }
    }
  }

  // ----- what follows a text -----

  lemma QuotedEndExtend(x: Text, r: Text, i: nat, d: Dialect)
    requires i < |x| && QuotedEnd(x, i, d) < |x|
    ensures QuotedEnd(x + r, i, d) == QuotedEnd(x, i, d)
  {
    assert QuoteEscapes(x + r, i, x[i], d) == QuoteEscapes(x, i, x[i], d);
    QuotedFromExtend(x, r, i + 1, x[i], QuoteEscapes(x, i, x[i], d));
  }

  lemma OpenersExtend(x: Text, r: Text, i: nat, d: Dialect)
    requires i + 1 < |x| && x[|x| - 1] != DASH
    ensures d.DashCommentAt(x + r, i) == d.DashCommentAt(x, i)
    ensures BlockCommentAt(x + r, i) == BlockCommentAt(x, i)
  {
  }

  lemma ThenLexemeExtend(x: Text, r: Text, i: nat, d: Dialect)
    requires i < |x| && x[|x| - 1] != DASH && ThenLexemeEnd(x, i, d) < |x|
    ensures ThenLexemeEnd(x + r, i, d) == ThenLexemeEnd(x, i, d)
  {
    assert (x + r)[i] == x[i];
    OpenersExtend(x, r, i, d);
    if IsQuote(x[i]) {
      QuotedEndExtend(x, r, i, d);
    } else if d.DashCommentAt(x, i) {
      LineEndExtend(x, r, i + 2);
    } else if x[i] == HASH && d.HashComments() {
      LineEndExtend(x, r, i + 1);
    } else if BlockCommentAt(x, i) {
      BlockFromExtend(x, r, i + 2, 1, d.NestedBlockComments());
    } else if IsWordByte(x[i]) {
      WordEndExtend(x, r, i);
    }
  }

  /** A text that ends in a separator byte cannot end inside a word or a tag. */
  lemma {:induction false} WordEndBefore(x: Text, i: nat)
    requires i < |x| && !IsWordByte(x[|x| - 1])
    ensures WordEnd(x, i) < |x|
    decreases |x| - i
  {
    if IsWordByte(x[i]) {
      WordEndBefore(x, i + 1);
    }
  }

  lemma DollarTagExtend(x: Text, r: Text, i: nat)
    requires i + 1 < |x| && !IsWordByte(x[|x| - 1])
    ensures DollarTag(x + r, i) == DollarTag(x, i)
  {
    WordEndBefore(x, i + 1);
    WordEndExtend(x, r, i + 1);
    var j := WordEnd(x, i + 1);
    assert (x + r)[i..j + 1] == x[i..j + 1];
  }

  lemma DollarEndExtend(x: Text, r: Text, i: nat)
    requires i + 1 < |x| && !IsWordByte(x[|x| - 1])
    requires DollarEnd(x, i).Some? ==> DollarEnd(x, i).value < |x|
    ensures DollarEnd(x + r, i) == DollarEnd(x, i)
  {
    var tag := DollarTag(x, i);
    DollarTagExtend(x, r, i);
    if tag != [] {
      TagCloseExtend(x, r, i + |tag|, tag);
    }
  }

  lemma LexemeEndExtend(x: Text, r: Text, i: nat, d: Dialect)
    requires i < |x| && !IsWordByte(x[|x| - 1]) && x[|x| - 1] != DASH && LexemeEnd(x, i, d) < |x|
    ensures LexemeEnd(x + r, i, d) == LexemeEnd(x, i, d)
  {
    assert (x + r)[i] == x[i];
    if x[i] == DOLLAR && d.DollarQuotes() {
      DollarEndExtend(x, r, i);
    } else {
      ThenLexemeExtend(x, r, i, d);
    }
  }

  /** A `THEN` found in a text is still found when more follows. */
  lemma {:induction false} ThenFollowsExtend(x: Text, r: Text, i: nat, depth: nat, d: Dialect)
    requires i <= |x| && x != [] && x[|x| - 1] == SPACE && ThenFollows(x, i, depth, d)
    ensures ThenFollows(x + r, i, depth, d)
    decreases |x| - i
  {
    assert (x + r)[i] == x[i];
    if x[i] == LPAREN {
      ThenFollowsExtend(x, r, i + 1, depth + 1, d);
    } else if x[i] == RPAREN {
      ThenFollowsExtend(x, r, i + 1, if depth == 0 then 0 else depth - 1, d);
    } else {
      var e := ThenLexemeEnd(x, i, d);
      if IsWordByte(x[i]) {
        WordEndBefore(x, i);
      }
      ThenLexemeExtend(x, r, i, d);
      assert (x + r)[i..e] == x[i..e];
      if !(IsWordByte(x[i]) && depth == 0 && Spells(x[i..e], "then")) {
        ThenFollowsExtend(x, r, e, depth, d);
      }
    }
  }

  /** Spaces do not matter to the search for `THEN`. */
  lemma {:induction false} ThenFollowsSpace(b: Text, i: nat, depth: nat, d: Dialect)
    requires i <= |b|
    ensures ThenFollows(b, i, depth, d) == ThenFollows(b, SpaceEnd(b, i), depth, d)
    decreases |b| - i
  {
    if i < |b| && IsSpace(b[i]) {
      assert ThenLexemeEnd(b, i, d) == i + 1;
      ThenFollowsSpace(b, i + 1, depth, d);
    }
  }
}
