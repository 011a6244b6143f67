/**
 * What `strip_noise` of crates/red-core/src/sql.rs does to every single byte: hidden bytes
 * come out blank, all others as they are.
 */
module SqlHidden {
  import opened Bytes
  import opened Wrappers
  import opened SqlLexer
  import opened SqlStrip

  /**
   * Byte `k` lies in a quoted span, a comment or a dollar-quoted body, or in the markers of an
   * executable comment; the body of an executable comment is read like any other text.
   */
  predicate Hidden(b: Text, i: nat, end: nat, d: Dialect, k: nat)
    requires i <= k < end <= |b|
    decreases end - i
  {
    if d.ExecutableCommentAt(b, i) then
      var x := ExecSpanAt(b, i, end, d);
      if k >= x.close then Hidden(b, x.close, end, d, k)
      else k < x.body || k >= x.bodyEnd || Hidden(b, x.body, x.bodyEnd, d, k)
    else
      match NoiseEnd(b, i, end, d)
      case Some(e) => k < e || Hidden(b, e, end, d, k)
      case None => k > i && Hidden(b, i + 1, end, d, k)
  }

  /** A byte out of sight: a newline stays, anything else is a space. */
  function Blanked(c: Byte): Byte {
    if c == 10 then 10 else 32
  }

  lemma PieceAt(b: Text, i: nat, end: nat, d: Dialect, k: nat)
    requires i < end <= |b| && i <= k < Next(b, i, end, d) && !d.ExecutableCommentAt(b, i)
    ensures Piece(b, i, end, d)[k - i] == if NoiseEnd(b, i, end, d).Some? then Blanked(b[k]) else b[k]
  {
    hide NoiseEnd;
    if NoiseEnd(b, i, end, d).Some? {
      assert b[i + (k - i)] == b[k];
    }
  }

  lemma ExecAt(b: Text, i: nat, end: nat, d: Dialect, k: nat)
    requires i < end <= |b| && d.ExecutableCommentAt(b, i) && i <= k < ExecSpanAt(b, i, end, d).close
    ensures var x := ExecSpanAt(b, i, end, d);
            Piece(b, i, end, d)[k - i] ==
            if k < x.body || k >= x.bodyEnd then Blanked(b[k]) else StripFrom(b, x.body, x.bodyEnd, d)[k - x.body]
  {
    hide ExecSpanAt, StripFrom;
    var x := ExecSpanAt(b, i, end, d);
    var left, mid, right := Blank(b, i, x.body), StripFrom(b, x.body, x.bodyEnd, d), Blank(b, x.bodyEnd, x.close);
    assert |left| == x.body - i && |mid| == x.bodyEnd - x.body;
    if k < x.body {
      assert (left + mid + right)[k - i] == left[k - i] && b[i + (k - i)] == b[k];
    } else if k < x.bodyEnd {
      assert (left + mid + right)[k - i] == mid[k - x.body];
    } else {
      assert (left + mid + right)[k - i] == right[k - x.bodyEnd] && b[x.bodyEnd + (k - x.bodyEnd)] == b[k];
    }
  }

  lemma {:induction false} StripAt(b: Text, i: nat, end: nat, d: Dialect, k: nat)
    requires i <= k < end <= |b|
    ensures StripFrom(b, i, end, d)[k - i] == if Hidden(b, i, end, d, k) then Blanked(b[k]) else b[k]
    decreases end - i
  {
    hide StripFrom, Piece, NoiseEnd, ExecSpanAt;
    StripUnroll(b, i, end, d);
    var j := Next(b, i, end, d);
    if k < j {
      if d.ExecutableCommentAt(b, i) {
        ExecAt(b, i, end, d, k);
        var x := ExecSpanAt(b, i, end, d);
        if x.body <= k < x.bodyEnd {
          StripAt(b, x.body, x.bodyEnd, d, k);
        }
      } else {
        PieceAt(b, i, end, d, k);
      }
    } else {
      StripAt(b, j, end, d, k);
    }
  }

  /** Byte by byte, for every script and dialect: hidden bytes are blank, the others unchanged. */
  lemma StripsExactlyTheHidden(b: Text, d: Dialect, k: nat)
    requires k < |b|
    ensures Strip(b, d)[k] == if Hidden(b, 0, |b|, d, k) then Blanked(b[k]) else b[k]
  {
    hide StripFrom, Hidden;
    StripAt(b, 0, |b|, d, k);
  }
}
