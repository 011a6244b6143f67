/**
 * Character boundaries in the two SQL scanners: on valid UTF-8 the ranges of
 * `statement_ranges` cut between characters, and `strip_noise` yields valid UTF-8.
 */
module SqlText {
  import opened Bytes
  import opened Wrappers
  import opened SqlLexer
  import opened SqlSplit
  import opened SqlStrip
  import opened Utf8

  // ----- lexemes end on boundaries -----

  lemma QuotedEndBoundary(b: Text, i: nat, d: Dialect)
    requires Valid(b) && i < |b| && IsQuote(b[i])
    ensures Boundary(b, QuotedEnd(b, i, d))
  {
    var e := QuotedEnd(b, i, d);
    if e < |b| {
      QuotedFromCloses(b, i + 1, b[i], QuoteEscapes(b, i, b[i], d));
      AfterAscii(b, e - 1);
    }
  }

  lemma BlockEndBoundary(b: Text, i: nat, d: Dialect)
    requires Valid(b) && BlockCommentAt(b, i)
    ensures Boundary(b, BlockEnd(b, i, d))
  {
    var e := BlockEnd(b, i, d);
    if e < |b| {
      BlockFromCloses(b, i + 2, 1, d.NestedBlockComments());
      AfterAscii(b, e - 1);
    }
  }

  lemma DollarTagEnds(b: Text, i: nat)
    requires i < |b| && DollarEnd(b, i).Some?
    ensures var tag := DollarTag(b, i);
            tag != [] && tag[|tag| - 1] == DOLLAR && DollarEnd(b, i).value == TagCloseEnd(b, i + |tag|, tag)
  {
  }

  lemma DollarEndBoundary(b: Text, i: nat)
    requires Valid(b) && i < |b| && DollarEnd(b, i).Some?
    ensures Boundary(b, DollarEnd(b, i).value)
  {
    hide Valid, DollarEnd, DollarTag, TagCloseEnd, StartsWithAt;
    var e := DollarEnd(b, i).value;
    if e < |b| {
      var tag := DollarTag(b, i);
      DollarTagEnds(b, i);
      TagCloses(b, i + |tag|, tag);
      StartsWithByte(b, e - |tag|, tag, |tag| - 1);
      AfterAscii(b, e - 1);
    }
  }

  // ----- strip_noise -----

  lemma NoiseEndBoundary(b: Text, i: nat, end: nat, d: Dialect)
    requires Valid(b) && i < end <= |b| && Boundary(b, end) && NoiseEnd(b, i, end, d).Some?
    ensures Boundary(b, NoiseEnd(b, i, end, d).value)
  {
    if IsQuote(b[i]) {
      QuotedEndBoundary(b, i, d);
    } else if d.DashCommentAt(b, i) {
      LineRun(b, i + 2);
    } else if b[i] == HASH && d.HashComments() {
      LineRun(b, i + 1);
    } else if BlockCommentAt(b, i) && i + 1 < end {
      BlockEndBoundary(b, i, d);
    } else {
      DollarEndBoundary(b, i);
    }
  }

  lemma ExecSpanBoundaries(b: Text, i: nat, end: nat, d: Dialect)
    requires Valid(b) && i < end <= |b| && Boundary(b, end) && d.ExecutableCommentAt(b, i)
    ensures var x := ExecSpanAt(b, i, end, d);
            Boundary(b, x.body) && Boundary(b, x.bodyEnd) && Boundary(b, x.close)
  {
    assert b[i..i + 3] == [SLASH, STAR, BANG];
    assert b[i + 2] == b[i..i + 3][2];
    BlockEndBoundary(b, i, d);
    DigitRun(b, i + 3);
    AfterAscii(b, DigitEnd(b, i + 3) - 1);
  }

  lemma BlankValid(b: Text, from: nat, to: nat)
    requires from <= to <= |b|
    ensures Valid(Blank(b, from, to))
  {
    AsciiFrom(Blank(b, from, to), 0);
  }

  lemma {:induction false} PieceValid(b: Text, i: nat, end: nat, d: Dialect)
    requires Valid(b) && i < end <= |b| && Boundary(b, i) && Boundary(b, end) && b[i] < 0x80
    ensures Boundary(b, Next(b, i, end, d)) && Valid(Piece(b, i, end, d))
    decreases end - i, 0
  {
    if d.ExecutableCommentAt(b, i) {
      var x := ExecSpanAt(b, i, end, d);
      ExecSpanBoundaries(b, i, end, d);
      BlankValid(b, i, x.body);
      StripFromValid(b, x.body, x.bodyEnd, d);
      BlankValid(b, x.bodyEnd, x.close);
      ConcatValid(Blank(b, i, x.body), StripFrom(b, x.body, x.bodyEnd, d));
      ConcatValid(Blank(b, i, x.body) + StripFrom(b, x.body, x.bodyEnd, d), Blank(b, x.bodyEnd, x.close));
    } else if NoiseEnd(b, i, end, d).Some? {
      NoiseEndBoundary(b, i, end, d);
      BlankValid(b, i, NoiseEnd(b, i, end, d).value);
    } else {
      AfterAscii(b, i);
      AsciiFrom([b[i]], 0);
    }
  }

  lemma {:induction false} StripFromValid(b: Text, i: nat, end: nat, d: Dialect)
    requires Valid(b) && i <= end <= |b| && Boundary(b, i) && Boundary(b, end)
    ensures Valid(StripFrom(b, i, end, d))
    decreases end - i, 1
  {
    if i < end {
      if b[i] < 0x80 {
        var j := Next(b, i, end, d);
        PieceValid(b, i, end, d);
        StripFromValid(b, j, end, d);
        ConcatValid(Piece(b, i, end, d), StripFrom(b, j, end, d));
      } else {
        ValidAtBoundary(b, 0, i);
        var j := i + CharLen(b, i);
        assert j <= end;
        assert Boundary(b, j);
        StripCopies(b, i, j, end, d);
        SliceValid(b, i, j);
        StripFromValid(b, j, end, d);
        ConcatValid(b[i..j], StripFrom(b, j, end, d));
      }
    }
  }

  /** On valid UTF-8 `strip_noise` never falls back to the unstripped script. */
  lemma StripStaysValid(b: Text, d: Dialect)
    requires Valid(b)
    ensures Valid(Strip(b, d))
  {
    assert Boundary(b, 0) by {
      if |b| > 0 {
        assert CharLen(b, 0) > 0;
      }
    }
    StripFromValid(b, 0, |b|, d);
  }

  // ----- statement_ranges -----

  /** What every iteration of the scanner keeps. */
  ghost predicate StateOk(b: Text, s: State) {
    s.start <= s.i <= |b| && Boundary(b, s.start) && s.delim != [] && Valid(s.delim)
  }

  lemma LineEndOk(b: Text, from: nat)
    requires Valid(b) && from <= |b|
    ensures Boundary(b, LineEnd(b, from)) && Boundary(b, RestOfLine(b, from).lineEnd)
  {
    var end := LineEnd(b, from);
    LineRun(b, from);
    if end < |b| {
      AfterAscii(b, end);
    }
  }

  /** The directive's token is whole characters of the script. */
  lemma TokenOk(b: Text, from: nat)
    requires Valid(b) && 0 < from <= |b| && b[from - 1] < 0x80
    ensures Valid(RestOfLine(b, from).token)
  {
    var end := LineEnd(b, from);
    var line := b[from..end];
    var lead := SpaceEnd(line, 0);
    var stop := NonSpaceEnd(line, lead);
    assert b[from + lead - 1] < 0x80 by {
      SpaceRun(line, 0);
      assert lead > 0 ==> IsSpace(line[lead - 1]);
    }
    assert Boundary(b, from + stop) by {
      LineEndOk(b, from);
      NonSpaceRun(line, lead);
      assert stop < |line| ==> IsSpace(line[stop]);
    }
    AfterAscii(b, from + lead - 1);
    SliceValid(b, from + lead, from + stop);
    SliceOfSlice(b, from, end, lead, stop);
  }

  lemma LexOk(b: Text, d: Dialect, s: State)
    requires Valid(b) && StateOk(b, s) && s.i < |b|
    ensures StateOk(b, Lex(b, d, s))
    ensures s.start <= Lex(b, d, s).start
  {
    if AtDirective(b, s) {
      LexOfWord(b, d, s);
      WordRun(b, s.i);
      LineEndOk(b, WordEnd(b, s.i));
      TokenOk(b, WordEnd(b, s.i));
    } else {
      LexKeeps(b, d, s);
    }
  }

  lemma BreakOk(b: Text, s: State)
    requires Valid(b) && StateOk(b, s) && s.i < |b| && Breaks(b, s)
    ensures Boundary(b, s.i) && StateOk(b, AfterBreak(s))
  {
    assert b[s.i..s.i + |s.delim|] == s.delim;
    assert b[s.i] == b[s.i..s.i + |s.delim|][0];
    assert CharLen(s.delim, 0) > 0;
    ValidAtBoundary(b, 0, s.i);
    MatchEnd(b, s.i, s.delim, 0);
  }

  /** Ordered, disjoint, in-bounds ranges at or after `lo`, cut at character boundaries. */
  ghost predicate WellFormed(b: Text, lo: nat, r: seq<Range>) {
    && (forall k :: 0 <= k < |r| ==> lo <= r[k].lo <= r[k].hi <= |b| && Boundary(b, r[k].lo) && Boundary(b, r[k].hi))
    && (forall k, l :: 0 <= k < l < |r| ==> r[k].hi < r[l].lo)
  }

  lemma {:induction false} RangesFromWellFormed(b: Text, d: Dialect, s: State)
    requires Valid(b) && StateOk(b, s)
    ensures WellFormed(b, s.start, RangesFrom(b, d, s))
    decreases |b| - s.i
  {
    hide Lex, Valid;
    if s.i < |b| {
      Unroll(b, d, s);
      if Breaks(b, s) {
        BreakOk(b, s);
        RangesFromWellFormed(b, d, AfterBreak(s));
      } else {
        LexOk(b, d, s);
        RangesFromWellFormed(b, d, Lex(b, d, s));
      }
    }
  }

  /**
   * Every script, `DELIMITER` directives of any width included: the ranges are
   * ordered, disjoint and in bounds, and each cuts out valid UTF-8.
   */
  lemma RangesWellFormed(b: Text, d: Dialect)
    requires Valid(b)
    ensures WellFormed(b, 0, Ranges(b, d))
    ensures forall k :: 0 <= k < |Ranges(b, d)| ==> Valid(b[Ranges(b, d)[k].lo..Ranges(b, d)[k].hi])
  {
    var r := Ranges(b, d);
    assert Boundary(b, 0) by {
      if |b| > 0 {
        assert CharLen(b, 0) > 0;
      }
    }
    AsciiFrom([SEMI], 0);
    RangesFromWellFormed(b, d, Init);
    forall k | 0 <= k < |r| ensures Valid(b[r[k].lo..r[k].hi]) {
      SliceValid(b, r[k].lo, r[k].hi);
    }
  }

  // ----- joining -----

  /** The scan from `s` meets no `DELIMITER` directive. */
  ghost predicate NoDirectiveFrom(b: Text, d: Dialect, s: State)
    requires s.i <= |b| && s.delim != []
    decreases |b| - s.i
  {
    s.i == |b| ||
    if Breaks(b, s) then NoDirectiveFrom(b, d, AfterBreak(s))
    else !AtDirective(b, s) && NoDirectiveFrom(b, d, Lex(b, d, s))
  }

  ghost predicate NoDirective(b: Text, d: Dialect) {
    NoDirectiveFrom(b, d, Init)
  }

  /** The ranges' texts joined with `;`. */
  function Joined(b: Text, r: seq<Range>): Text
    requires forall k :: 0 <= k < |r| ==> r[k].lo <= r[k].hi <= |b|
  {
    if r == [] then []
    else if |r| == 1 then b[r[0].lo..r[0].hi]
    else b[r[0].lo..r[0].hi] + [SEMI] + Joined(b, r[1..])
  }

  predicate InBounds(b: Text, r: seq<Range>) {
    forall k :: 0 <= k < |r| ==> r[k].lo <= r[k].hi <= |b|
  }

  lemma {:induction false} RangesFromInBounds(b: Text, d: Dialect, s: State)
    requires s.start <= s.i <= |b| && s.delim != []
    ensures InBounds(b, RangesFrom(b, d, s))
    decreases |b| - s.i
  {
    hide Lex;
    if s.i < |b| {
      Unroll(b, d, s);
      if Breaks(b, s) {
        RangesFromInBounds(b, d, AfterBreak(s));
      } else {
        LexStart(b, d, s);
        RangesFromInBounds(b, d, Lex(b, d, s));
      }
    }
  }

  lemma LexStart(b: Text, d: Dialect, s: State)
    requires s.start <= s.i < |b| && s.delim != []
    ensures Lex(b, d, s).start <= Lex(b, d, s).i
  {
    hide RestOfLine, OpensBlock, RoutineDdlAt, NextWord;
  }

  lemma RangesInBounds(b: Text, d: Dialect)
    ensures InBounds(b, Ranges(b, d))
  {
    RangesFromInBounds(b, d, Init);
  }

  lemma JoinedCons(b: Text, x: Range, r: seq<Range>)
    requires r != [] && InBounds(b, r) && x.lo <= x.hi < |b| && b[x.hi] == SEMI && Joined(b, r) == b[x.hi + 1..]
    ensures InBounds(b, [x] + r)
    ensures Joined(b, [x] + r) == b[x.lo..]
  {
    var all := [x] + r;
    assert all[1..] == r;
    assert b[x.lo..] == b[x.lo..x.hi] + [SEMI] + b[x.hi + 1..];
  }

  lemma {:induction false} JoinedFrom(b: Text, d: Dialect, s: State)
    requires s.start <= s.i <= |b| && s.delim == [SEMI] && NoDirectiveFrom(b, d, s)
    ensures InBounds(b, RangesFrom(b, d, s))
    ensures Joined(b, RangesFrom(b, d, s)) == b[s.start..]
    decreases |b| - s.i
  {
    hide Lex;
    if s.i < |b| {
      Unroll(b, d, s);
      if Breaks(b, s) {
        var t := AfterBreak(s);
        StartsWithByte(b, s.i, [SEMI], 0);
        JoinedFrom(b, d, t);
        JoinedCons(b, Range(s.start, s.i), RangesFrom(b, d, t));
      } else {
        LexKeeps(b, d, s);
        JoinedFrom(b, d, Lex(b, d, s));
      }
    }
  }

  /** With no directive, joining the ranges with `;` gives the script back. */
  lemma JoinReproducesScript(b: Text, d: Dialect)
    requires NoDirective(b, d)
    ensures InBounds(b, Ranges(b, d))
    ensures Joined(b, Ranges(b, d)) == b
  {
    JoinedFrom(b, d, Init);
  }

  // ----- split_statements -----

  /** The ranges' texts, trimmed, without the blank ones. */
  function Trimmed(b: Text, r: seq<Range>): seq<Text>
    requires InBounds(b, r)
  {
    if r == [] then []
    else
      var t := Trim(b[r[0].lo..r[0].hi]);
      (if t == [] then [] else [t]) + Trimmed(b, r[1..])
  }

  function Statements(b: Text, d: Dialect): seq<Text> {
    RangesInBounds(b, d);
    Trimmed(b, Ranges(b, d))
  }

  lemma TrimmedFrom(b: Text, r: seq<Range>, k: nat)
    requires InBounds(b, r) && k < |r|
    ensures Trimmed(b, r[k..]) ==
            (var t := Trim(b[r[k].lo..r[k].hi]); if t == [] then [] else [t]) + Trimmed(b, r[k + 1..])
  {
    hide Trim;
    assert r[k..][1..] == r[k + 1..];
  }

  method SplitStatements(b: Text, d: Dialect) returns (out: seq<Text>)
    ensures out == Statements(b, d)
  {
    hide Trim, Ranges, Trimmed;
    var r := StatementRanges(b, d);
    RangesInBounds(b, d);
    out := [];
    assert r[0..] == r;
    for k := 0 to |r|
      invariant out + Trimmed(b, r[k..]) == Statements(b, d)
    {
      TrimmedFrom(b, r, k);
      var t := Trim(b[r[k].lo..r[k].hi]);
      if t != [] {
        out := out + [t];
      }
    }
    TrimmedNone(b);
  }

  lemma TrimmedNone(b: Text)
    ensures Trimmed(b, []) == []
  {
  }
}
