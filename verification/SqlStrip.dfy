/**
 * `strip_noise` of crates/red-core/src/sql.rs: a copy of a script in which every
 * literal, quoted identifier and comment is blanked.
 */
module SqlStrip {
  import opened Bytes
  import opened Wrappers
  import opened SqlLexer
  import Utf8

  /** A blanked byte: a space, except that newlines survive. */
  function BlankByte(c: Byte): Byte {
    if c == NEWLINE then NEWLINE else SPACE
  }

  function Blank(b: Text, from: nat, to: nat): (r: Text)
    requires from <= to <= |b|
    ensures |r| == to - from
    ensures forall k :: 0 <= k < |r| ==> r[k] == BlankByte(b[from + k])
  {
    seq<Byte>(to - from, k requires 0 <= k < to - from => BlankByte(b[from + k]))
  }

  function Min(x: nat, y: nat): nat {
    if x <= y then x else y
  }

  function Max(x: nat, y: nat): nat {
    if x >= y then x else y
  }

  /** Where an executable comment's body lies: `open..body` and `bodyEnd..close` are markers. */
  datatype ExecSpan = ExecSpan(body: nat, bodyEnd: nat, close: nat)

  function ExecSpanAt(b: Text, i: nat, end: nat, d: Dialect): (x: ExecSpan)
    requires i < end <= |b| && d.ExecutableCommentAt(b, i)
    ensures i < x.body <= x.bodyEnd <= x.close <= end
  {
    var close := Min(BlockEnd(b, i, d), end);
    var body := Min(DigitEnd(b, i + 3), close);
    var closed := close >= 2 && b[close - 2] == STAR && b[close - 1] == SLASH;
    ExecSpan(body, Max(if closed then close - 2 else close, body), close)
  }

  /** The end of the blanked lexeme at `i` inside a span ending at `end`, if there is one. */
  function NoiseEnd(b: Text, i: nat, end: nat, d: Dialect): (r: Option<nat>)
    requires i < end <= |b|
    ensures r.Some? ==> i < r.value <= end
  {
    if IsQuote(b[i]) then Some(Min(QuotedEnd(b, i, d), end))
    else if d.DashCommentAt(b, i) then Some(Min(LineEnd(b, i + 2), end))
    else if b[i] == HASH && d.HashComments() then Some(Min(LineEnd(b, i + 1), end))
    else if BlockCommentAt(b, i) && i + 1 < end then Some(Min(BlockEnd(b, i, d), end))
    else if b[i] == DOLLAR && d.DollarQuotes() then
      match DollarEnd(b, i)
      case Some(stop) => Some(Min(stop, end))
      case None => None
    else None
  }

  /** Where the stripper resumes after the lexeme at `i`. */
  function Next(b: Text, i: nat, end: nat, d: Dialect): (j: nat)
    requires i < end <= |b|
    ensures i < j <= end
  {
    if d.ExecutableCommentAt(b, i) then ExecSpanAt(b, i, end, d).close
    else match NoiseEnd(b, i, end, d) case Some(e) => e case None => i + 1
  }

  /** What the stripper writes for the lexeme at `i`. */
  function Piece(b: Text, i: nat, end: nat, d: Dialect): (r: Text)
    requires i < end <= |b|
    ensures |r| == Next(b, i, end, d) - i
    decreases end - i, 0
  {
    if d.ExecutableCommentAt(b, i) then
      var x := ExecSpanAt(b, i, end, d);
      Blank(b, i, x.body) + StripFrom(b, x.body, x.bodyEnd, d) + Blank(b, x.bodyEnd, x.close)
    else
      match NoiseEnd(b, i, end, d)
      case Some(e) => Blank(b, i, e)
      case None => [b[i]]
  }

  /** The stripped copy of `b[i..end]`: one output byte per input byte. */
  function StripFrom(b: Text, i: nat, end: nat, d: Dialect): (r: Text)
    requires i <= end <= |b|
    ensures |r| == end - i
    decreases end - i, 1
  {
    if i == end then [] else Piece(b, i, end, d) + StripFrom(b, Next(b, i, end, d), end, d)
  }

  function Strip(b: Text, d: Dialect): (r: Text)
    ensures |r| == |b|
  {
    StripFrom(b, 0, |b|, d)
  }

  method FindNoiseEnd(b: Text, i: nat, end: nat, d: Dialect) returns (r: Option<nat>)
    requires i < end <= |b|
    ensures r == NoiseEnd(b, i, end, d)
  {
    if IsQuote(b[i]) {
      var e := SkipQuoted(b, i, b[i], QuoteEscapes(b, i, b[i], d));
      r := Some(Min(e, end));
    } else if d.DashCommentAt(b, i) {
      var e := LineCommentEnd(b, i + 2);
      r := Some(Min(e, end));
    } else if b[i] == HASH && d.HashComments() {
      var e := LineCommentEnd(b, i + 1);
      r := Some(Min(e, end));
    } else if BlockCommentAt(b, i) && i + 1 < end {
      var e := SkipBlockComment(b, i, d);
      r := Some(Min(e, end));
    } else if b[i] == DOLLAR && d.DollarQuotes() {
      var e := DollarQuoteEnd(b, i);
      r := if e.Some? then Some(Min(e.value, end)) else None;
    } else {
      r := None;
    }
  }

  method FindExecSpan(b: Text, i: nat, end: nat, d: Dialect) returns (x: ExecSpan)
    requires i < end <= |b| && d.ExecutableCommentAt(b, i)
    ensures x == ExecSpanAt(b, i, end, d)
  {
    var stop := SkipBlockComment(b, i, d);
    var close := Min(stop, end);
    var digits := ExecCommentBody(b, i);
    var body := Min(digits, close);
    var closed := close >= 2 && b[close - 2] == STAR && b[close - 1] == SLASH;
    x := ExecSpan(body, Max(if closed then close - 2 else close, body), close);
  }

  /** The match arms of `strip_into`: what they append, and where they resume. */
  method StripLexeme(b: Text, i: nat, end: nat, d: Dialect) returns (piece: Text, j: nat)
    requires i < end <= |b|
    ensures piece == Piece(b, i, end, d) && j == Next(b, i, end, d)
    decreases end - i, 0
  {
    if d.ExecutableCommentAt(b, i) {
      var x := FindExecSpan(b, i, end, d);
      var body := StripInto([], b, x.body, x.bodyEnd, d);
      assert body == StripFrom(b, x.body, x.bodyEnd, d);
      piece, j := Blank(b, i, x.body) + body + Blank(b, x.bodyEnd, x.close), x.close;
    } else {
      var e := FindNoiseEnd(b, i, end, d);
      if e.Some? {
        piece, j := Blank(b, i, e.value), e.value;
      } else {
        piece, j := [b[i]], i + 1;
      }
    }
  }

  /** `strip_into`: append the stripped copy of `b[lo..end]` to `out`. */
  method StripInto(out: Text, b: Text, lo: nat, end: nat, d: Dialect) returns (r: Text)
    requires lo <= end <= |b|
    ensures r == out + StripFrom(b, lo, end, d)
    decreases end - lo, 1
  {
    r := out;
    var i := lo;
    ghost var all := out + StripFrom(b, lo, end, d);
    while i < end
      invariant lo <= i <= end
      invariant all == r + StripFrom(b, i, end, d)
    {
      var piece, j := StripLexeme(b, i, end, d);
      Assoc(r, piece, StripFrom(b, j, end, d));
      r, i := r + piece, j;
    }
  }

  /** `strip_noise`: the stripped copy, or the script itself should that not be valid UTF-8. */
  method StripNoise(b: Text, d: Dialect) returns (r: Text)
    ensures r == if Utf8.Valid(Strip(b, d)) then Strip(b, d) else b
  {
    var out := StripInto([], b, 0, |b|, d);
    assert out == Strip(b, d);
    r := if Utf8.Valid(out) then out else b;
  }

  /** A byte that opens no literal or comment in any dialect. */
  predicate IsPlain(c: Byte) {
    !IsQuote(c) && c != DASH && c != HASH && c != SLASH && c != DOLLAR
  }

  lemma PlainStep(b: Text, i: nat, end: nat, d: Dialect)
    requires i < end <= |b| && IsPlain(b[i])
    ensures Piece(b, i, end, d) == [b[i]] && Next(b, i, end, d) == i + 1
  {
  }

  lemma StripUnroll(b: Text, i: nat, end: nat, d: Dialect)
    requires i < end <= |b|
    ensures StripFrom(b, i, end, d) == Piece(b, i, end, d) + StripFrom(b, Next(b, i, end, d), end, d)
  {
  }

  /** Plain bytes are copied. */
  lemma {:induction false} StripCopies(b: Text, i: nat, j: nat, end: nat, d: Dialect)
    requires i <= j <= end <= |b| && forall k :: i <= k < j ==> IsPlain(b[k])
    ensures StripFrom(b, i, end, d) == b[i..j] + StripFrom(b, j, end, d)
    decreases j - i
  {
    if i < j {
      var rest := StripFrom(b, j, end, d);
      calc {
        StripFrom(b, i, end, d);
        { StripUnroll(b, i, end, d); PlainStep(b, i, end, d); }
        [b[i]] + StripFrom(b, i + 1, end, d);
        { StripCopies(b, i + 1, j, end, d); }
        [b[i]] + (b[i + 1..j] + rest);
        { Assoc([b[i]], b[i + 1..j], rest); }
        ([b[i]] + b[i + 1..j]) + rest;
        { assert b[i..j] == [b[i]] + b[i + 1..j]; }
        b[i..j] + rest;
      }
    }
  }

  // ----- offsets -----

  /** `r` is `b[i..]` byte for byte, some bytes blanked. */
  ghost predicate Blanks(b: Text, i: nat, r: Text)
    requires i + |r| <= |b|
  {
    forall k :: 0 <= k < |r| ==> r[k] == b[i + k] || r[k] == BlankByte(b[i + k])
  }

  lemma BlanksConcat(b: Text, i: nat, x: Text, y: Text)
    requires i + |x| + |y| <= |b| && Blanks(b, i, x) && Blanks(b, i + |x|, y)
    ensures Blanks(b, i, x + y)
  {
    forall k | 0 <= k < |x + y| ensures (x + y)[k] == b[i + k] || (x + y)[k] == BlankByte(b[i + k]) {
      if k >= |x| {
        assert (x + y)[k] == y[k - |x|];
        assert b[i + k] == b[i + |x| + (k - |x|)];
      }
    }
  }

  lemma {:induction false} PieceBlanks(b: Text, i: nat, end: nat, d: Dialect)
    requires i < end <= |b|
    ensures Blanks(b, i, Piece(b, i, end, d))
    decreases end - i, 0
  {
    if d.ExecutableCommentAt(b, i) {
      var x := ExecSpanAt(b, i, end, d);
      StripFromBlanks(b, x.body, x.bodyEnd, d);
      var left, mid, right := Blank(b, i, x.body), StripFrom(b, x.body, x.bodyEnd, d), Blank(b, x.bodyEnd, x.close);
      BlanksConcat(b, i, left, mid);
      BlanksConcat(b, i, left + mid, right);
    }
  }

  lemma {:induction false} StripFromBlanks(b: Text, i: nat, end: nat, d: Dialect)
    requires i <= end <= |b|
    ensures Blanks(b, i, StripFrom(b, i, end, d))
    decreases end - i, 1
  {
    if i < end {
      PieceBlanks(b, i, end, d);
      StripFromBlanks(b, Next(b, i, end, d), end, d);
      BlanksConcat(b, i, Piece(b, i, end, d), StripFrom(b, Next(b, i, end, d), end, d));
    }
  }

  /**
   * Offsets survive stripping: the copy has the script's length, newlines stay
   * where they were and none appear, and every other byte is itself or a space.
   */
  lemma StripPreservesOffsets(b: Text, d: Dialect)
    ensures |Strip(b, d)| == |b|
    ensures forall k :: 0 <= k < |b| ==> (Strip(b, d)[k] == NEWLINE <==> b[k] == NEWLINE)
    ensures forall k :: 0 <= k < |b| ==> Strip(b, d)[k] == b[k] || Strip(b, d)[k] == SPACE
  {
    StripFromBlanks(b, 0, |b|, d);
    forall k | 0 <= k < |b|
      ensures Strip(b, d)[k] == b[k] || (Strip(b, d)[k] == SPACE && b[k] != NEWLINE)
    {
      assert b[0 + k] == b[k];
    }
  }
}
