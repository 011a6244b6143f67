/** Byte strings and the ASCII character classes that the scanners share. */
module Bytes {

  newtype Byte = b: int | 0 <= b < 256

  type Text = seq<Byte>

  const TAB: Byte := 9
  const NEWLINE: Byte := 10
  const FORM_FEED: Byte := 12
  const RETURN: Byte := 13
  const SPACE: Byte := 32
  const BANG: Byte := 33
  const DQUOTE: Byte := 34
  const HASH: Byte := 35
  const DOLLAR: Byte := 36
  const SQUOTE: Byte := 39
  const LPAREN: Byte := 40
  const RPAREN: Byte := 41
  const STAR: Byte := 42
  const DASH: Byte := 45
  const SLASH: Byte := 47
  const SEMI: Byte := 59
  const BACKSLASH: Byte := 92
  const UNDERSCORE: Byte := 95
  const BACKTICK: Byte := 96

  /** Rust's `u8::is_ascii_whitespace`: no vertical tab. */
  predicate IsSpace(c: Byte) {
    c == SPACE || c == TAB || c == NEWLINE || c == FORM_FEED || c == RETURN
  }

  predicate IsDigit(c: Byte) {
    48 <= c <= 57
  }

  predicate IsAlpha(c: Byte) {
    65 <= c <= 90 || 97 <= c <= 122
  }

  /** Bytes of an unquoted identifier or keyword. */
  predicate IsWordByte(c: Byte) {
    c == UNDERSCORE || IsDigit(c) || IsAlpha(c)
  }

  function Lower(c: Byte): Byte {
    if 65 <= c <= 90 then c + 32 else c
  }

  /** `eq_ignore_ascii_case` against a lower-case ASCII keyword. */
  predicate Spells(w: Text, keyword: string) {
    |w| == |keyword| && forall k :: 0 <= k < |w| ==> Lower(w[k]) as int == keyword[k] as int
  }

  /** `b[i..].starts_with(t)`. */
  predicate StartsWithAt(b: Text, i: nat, t: Text) {
    i + |t| <= |b| && b[i..i + |t|] == t
  }

  /** The bytes of an ASCII string. */
  function Ascii(s: string): (t: Text)
    requires forall k :: 0 <= k < |s| ==> s[k] as int < 128
    ensures |t| == |s|
    ensures forall k :: 0 <= k < |s| ==> t[k] as int == s[k] as int
  {
    seq(|s|, k requires 0 <= k < |s| => s[k] as Byte)
  }

  /** The decimal digits of `n`, no leading zeros. */
  function DecimalBytes(n: nat): (t: Text)
    ensures t != [] && forall k :: 0 <= k < |t| ==> IsDigit(t[k])
  {
    if n < 10 then [(48 + n) as Byte] else DecimalBytes(n / 10) + [(48 + n % 10) as Byte]
  }

  lemma Assoc(x: Text, y: Text, z: Text)
    ensures (x + y) + z == x + (y + z)
  {
  }

  /** A concatenation stands at `p` when its parts stand one after the other. */
  lemma StartsWithSplit(b: Text, p: nat, x: Text, y: Text)
    ensures StartsWithAt(b, p, x + y) <==> StartsWithAt(b, p, x) && StartsWithAt(b, p + |x|, y)
  {
    if p + |x| + |y| <= |b| {
      assert b[p..p + |x + y|] == b[p..p + |x|] + b[p + |x|..p + |x| + |y|];
      assert (x + y)[..|x|] == x && (x + y)[|x|..] == y;
    }
  }

  /** The tail of `b` from a piece on. */
  lemma StartsWithTail(b: Text, p: nat, t: Text)
    requires StartsWithAt(b, p, t)
    ensures b[p..] == t + b[p + |t|..]
  {
    assert b[p..] == b[p..p + |t|] + b[p + |t|..];
  }

  lemma StartsWithByte(b: Text, i: nat, t: Text, k: nat)
    requires StartsWithAt(b, i, t) && k < |t|
    ensures i + |t| <= |b| && b[i + k] == t[k]
  {
    assert b[i..i + |t|][k] == b[i + k];
  }

  lemma SliceOfSlice(b: Text, lo: nat, hi: nat, from: nat, to: nat)
    requires lo <= hi <= |b| && from <= to <= hi - lo
    ensures b[lo..hi][from..to] == b[lo + from..lo + to]
  {
    var x, y := b[lo..hi][from..to], b[lo + from..lo + to];
    forall k | 0 <= k < to - from ensures x[k] == y[k] {
      assert x[k] == b[lo..hi][from + k];
    }
  }
}
