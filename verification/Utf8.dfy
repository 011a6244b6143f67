/** UTF-8 validity (section 3 of RFC 3629) and character boundaries. */
module Utf8 {
  import opened Bytes

  /** A continuation byte. */
  predicate IsCont(c: Byte) {
    0x80 <= c < 0xC0
  }

  predicate ContAt(b: Text, i: nat) {
    i < |b| && IsCont(b[i])
  }

  /** The length of the well-formed character at `i`, or 0 when there is none. */
  function CharLen(b: Text, i: nat): (n: nat)
    requires i < |b|
    ensures n <= 4 && i + n <= |b|
    ensures n > 0 ==> !IsCont(b[i]) && forall k :: i < k < i + n ==> IsCont(b[k])
    ensures b[i] < 0x80 <==> n == 1
  {
    var c := b[i];
    if c < 0x80 then 1
    else if 0xC2 <= c < 0xE0 then
      if ContAt(b, i + 1) then 2 else 0
    else if 0xE0 <= c < 0xF0 then
      if && ContAt(b, i + 1) && ContAt(b, i + 2)
         && (c == 0xE0 ==> b[i + 1] >= 0xA0) && (c == 0xED ==> b[i + 1] < 0xA0)
      then 3 else 0
    else if 0xF0 <= c < 0xF5 then
      if && ContAt(b, i + 1) && ContAt(b, i + 2) && ContAt(b, i + 3)
         && (c == 0xF0 ==> b[i + 1] >= 0x90) && (c == 0xF4 ==> b[i + 1] < 0x90)
      then 4 else 0
    else 0
  }

  predicate ValidFrom(b: Text, i: nat)
    requires i <= |b|
    decreases |b| - i
  {
    i == |b| || (CharLen(b, i) > 0 && ValidFrom(b, i + CharLen(b, i)))
  }

  predicate Valid(b: Text) {
    ValidFrom(b, 0)
  }

  /** Rust's `str::is_char_boundary`, for an in-bounds index. */
  predicate Boundary(b: Text, i: nat) {
    i == |b| || (i < |b| && !IsCont(b[i]))
  }

  /** Decoding can start at any boundary of a valid text. */
  lemma {:induction false} ValidAtBoundary(b: Text, j: nat, i: nat)
    requires j <= i <= |b| && ValidFrom(b, j) && Boundary(b, i)
    ensures ValidFrom(b, i)
    decreases i - j
  {
    if j < i {
      ValidAtBoundary(b, j + CharLen(b, j), i);
    }
  }

  /** The position after an ASCII byte is a boundary. */
  lemma AfterAscii(b: Text, i: nat)
    requires Valid(b) && i < |b| && b[i] < 0x80
    ensures Boundary(b, i + 1)
  {
    ValidAtBoundary(b, 0, i);
  }

  /** Cutting a valid text at boundaries leaves valid text. */
  lemma {:induction false} SliceFrom(b: Text, lo: nat, hi: nat, k: nat)
    requires lo + k <= hi <= |b| && ValidFrom(b, lo + k) && Boundary(b, hi)
    ensures ValidFrom(b[lo..hi], k)
    decreases hi - k
  {
    var t := b[lo..hi];
    if lo + k < hi {
      var n := CharLen(b, lo + k);
      assert CharLen(t, k) == n;
      SliceFrom(b, lo, hi, k + n);
    }
  }

  lemma SliceValid(b: Text, lo: nat, hi: nat)
    requires Valid(b) && lo <= hi <= |b| && Boundary(b, lo) && Boundary(b, hi)
    ensures Valid(b[lo..hi])
  {
    ValidAtBoundary(b, 0, lo);
    SliceFrom(b, lo, hi, 0);
  }

  /** A valid prefix followed by valid text is valid text. */
  lemma {:induction false} ConcatFrom(x: Text, y: Text, k: nat)
    requires k <= |x| && ValidFrom(x, k) && Valid(y)
    ensures ValidFrom(x + y, k)
    decreases |x| - k
  {
    if k == |x| {
      ShiftFrom(x, y, 0);
    } else {
      assert CharLen(x + y, k) == CharLen(x, k);
      ConcatFrom(x, y, k + CharLen(x, k));
    }
  }

  lemma {:induction false} ShiftFrom(x: Text, y: Text, k: nat)
    requires k <= |y| && ValidFrom(y, k)
    ensures ValidFrom(x + y, |x| + k)
    decreases |y| - k
  {
    if k < |y| {
      assert CharLen(x + y, |x| + k) == CharLen(y, k);
      ShiftFrom(x, y, k + CharLen(y, k));
    }
  }

  lemma ConcatValid(x: Text, y: Text)
    requires Valid(x) && Valid(y)
    ensures Valid(x + y)
  {
    ConcatFrom(x, y, 0);
  }

  lemma {:induction false} AsciiFrom(x: Text, k: nat)
    requires k <= |x| && forall j :: 0 <= j < |x| ==> x[j] < 0x80
    ensures ValidFrom(x, k)
    decreases |x| - k
  {
    if k < |x| {
      AsciiFrom(x, k + 1);
    }
  }

  /** A boundary of `b` where a whole valid text matches ends on a boundary of `b`. */
  lemma {:induction false} MatchEnd(b: Text, i: nat, t: Text, k: nat)
    requires k <= |t| && ValidFrom(t, k) && StartsWithAt(b, i, t) && ValidFrom(b, i + k)
    ensures Boundary(b, i + |t|)
    decreases |t| - k
  {
    if k < |t| {
      assert b[i..i + |t|] == t;
      assert CharLen(b, i + k) == CharLen(t, k);
      MatchEnd(b, i, t, k + CharLen(t, k));
    }
  }

  // ----- trimming -----

  /** The byte length of the White_Space character at `i`, or 0. */
  function SpaceLen(b: Text, i: nat): (n: nat)
    requires i < |b|
    ensures i + n <= |b|
  {
    if 9 <= b[i] <= 13 || b[i] == 32 then 1
    else if i + 1 < |b| && b[i] == 0xC2 && (b[i + 1] == 0x85 || b[i + 1] == 0xA0) then 2
    else if i + 2 < |b| && (|| (b[i] == 0xE1 && b[i + 1] == 0x9A && b[i + 2] == 0x80)
                            || (b[i] == 0xE2 && b[i + 1] == 0x80 && (0x80 <= b[i + 2] <= 0x8A || b[i + 2] == 0xA8 || b[i + 2] == 0xA9 || b[i + 2] == 0xAF))
                            || (b[i] == 0xE2 && b[i + 1] == 0x81 && b[i + 2] == 0x9F)
                            || (b[i] == 0xE3 && b[i + 1] == 0x80 && b[i + 2] == 0x80)) then 3
    else 0
  }

  /** The byte length of the White_Space character that ends `b`, or 0. */
  function LastSpaceLen(b: Text): (n: nat)
    ensures n <= |b|
  {
    if |b| >= 1 && SpaceLen(b, |b| - 1) == 1 then 1
    else if |b| >= 2 && SpaceLen(b, |b| - 2) == 2 then 2
    else if |b| >= 3 && SpaceLen(b, |b| - 3) == 3 then 3
    else 0
  }

  function TrimStart(b: Text): Text {
    if b != [] && SpaceLen(b, 0) > 0 then TrimStart(b[SpaceLen(b, 0)..]) else b
  }

  function TrimEnd(b: Text): Text {
    if LastSpaceLen(b) > 0 then TrimEnd(b[..|b| - LastSpaceLen(b)]) else b
  }

  /** Rust's `str::trim` on UTF-8 text. */
  function Trim(b: Text): Text {
    TrimEnd(TrimStart(b))
  }
}
