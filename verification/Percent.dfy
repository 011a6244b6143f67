/**
 * Percent-encoding of connection strings (section 2.1 of RFC 3986): `encode` and
 * `decode` of crates/red-core/src/lib.rs.
 */
module Percent {
  import opened Bytes
  import opened Wrappers
  import Utf8
  import opened Utf8Lossy

  const PERCENT: Byte := 37

  /** The bytes `encode` escapes: URL syntax, space and everything outside ASCII. */
  predicate Reserved(c: Byte) {
    c == 64 || c == 58 || c == 47 || c == 63 || c == 35 || c == 91 || c == 93 || c == PERCENT || c == 32 || c >= 128
  }

  function HexDigit(n: int): Byte
    requires 0 <= n < 16
  {
    if n < 10 then (48 + n) as Byte else (55 + n) as Byte
  }

  function HexValue(c: Byte): Option<int> {
    if 48 <= c <= 57 then Some(c as int - 48)
    else if 65 <= c <= 70 then Some(c as int - 55)
    else if 97 <= c <= 102 then Some(c as int - 87)
    else None
  }

  /** One byte, escaped when reserved. */
  function Piece(c: Byte): Text {
    if Reserved(c) then [PERCENT, HexDigit(c as int / 16), HexDigit(c as int % 16)] else [c]
  }

  function Encoded(s: Text): Text {
    if s == [] then [] else Piece(s[0]) + Encoded(s[1..])
  }

  lemma {:induction false} EncodedConcat(x: Text, y: Text)
    ensures Encoded(x + y) == Encoded(x) + Encoded(y)
    decreases |x|
  {
    hide Piece;
    if x == [] {
      assert x + y == y;
    } else {
      assert (x + y)[1..] == x[1..] + y;
      EncodedConcat(x[1..], y);
    }
  }

  lemma EncodedOne(c: Byte)
    ensures Encoded([c]) == Piece(c)
  {
    hide Piece;
    assert [c][1..] == [];
    assert Encoded([]) == [];
  }

  /** `encode`. */
  method Encode(s: Text) returns (out: Text)
    ensures out == Encoded(s)
  {
    hide Encoded, Piece;
    out := [];
    assert s[..0] == [];
    EncodedNone();
    for i := 0 to |s|
      invariant out == Encoded(s[..i])
    {
      EncodedConcat(s[..i], [s[i]]);
      EncodedOne(s[i]);
      assert s[..i + 1] == s[..i] + [s[i]];
      out := out + Piece(s[i]);
    }
    assert s[..|s|] == s;
  }

  lemma EncodedNone()
    ensures Encoded([]) == []
  {
  }

  /** A well-formed escape at the start of `b`. */
  predicate EscapeAhead(b: Text) {
    |b| >= 3 && b[0] == PERCENT && HexValue(b[1]).Some? && HexValue(b[2]).Some?
  }

  function EscapeByte(b: Text): Byte
    requires EscapeAhead(b)
  {
    (16 * HexValue(b[1]).value + HexValue(b[2]).value) as Byte
  }

  /** The bytes behind the escapes; anything malformed stands for itself. */
  function Unescaped(b: Text): Text {
    if b == [] then []
    else if EscapeAhead(b) then [EscapeByte(b)] + Unescaped(b[3..])
    else [b[0]] + Unescaped(b[1..])
  }

  function Decoded(s: Text): Text {
    Lossy(Unescaped(s))
  }

  /** `decode`. */
  method Decode(s: Text) returns (out: Text)
    ensures out == Decoded(s)
  {
    hide LossyFrom, Unescaped, EscapeAhead, EscapeByte;
    out := [];
    var i := 0;
    assert s[0..] == s;
    while i < |s|
      invariant i <= |s|
      invariant out + Unescaped(s[i..]) == Unescaped(s)
    {
      var t := s[i..];
      UnescapedStep(out, s, i);
      if EscapeAhead(t) {
        out := out + [EscapeByte(t)];
        i := i + 3;
      } else {
        out := out + [s[i]];
        i := i + 1;
      }
    }
    assert s[i..] == [] && out + [] == out;
    UnescapedNone();
    out := Lossy(out);
  }

  lemma UnescapedNone()
    ensures Unescaped([]) == []
  {
  }

  lemma UnescapedStep(out: Text, s: Text, i: nat)
    requires i < |s|
    ensures EscapeAhead(s[i..]) ==> i + 3 <= |s| && out + Unescaped(s[i..]) == out + [EscapeByte(s[i..])] + Unescaped(s[i + 3..])
    ensures !EscapeAhead(s[i..]) ==> out + Unescaped(s[i..]) == out + [s[i]] + Unescaped(s[i + 1..])
  {
    hide EscapeByte, HexValue;
    var t := s[i..];
    if EscapeAhead(t) {
      assert t[3..] == s[i + 3..];
    } else {
      assert t[1..] == s[i + 1..];
    }
  }

  // ----- round trip -----

  lemma PieceReads(c: Byte, t: Text)
    ensures Unescaped(Piece(c) + t) == [c] + Unescaped(t)
  {
    var s := Piece(c) + t;
    if Reserved(c) {
      assert s == [PERCENT, HexDigit(c as int / 16), HexDigit(c as int % 16)] + t;
      assert s[3..] == t;
    } else {
      assert s[1..] == t;
    }
  }

  lemma {:induction false} UnescapedEncoded(s: Text)
    ensures Unescaped(Encoded(s)) == s
    decreases |s|
  {
    hide Piece;
    if s != [] {
      PieceReads(s[0], Encoded(s[1..]));
      UnescapedEncoded(s[1..]);
      assert s == [s[0]] + s[1..];
    }
  }

  /** Decoding inverts encoding on all text. */
  lemma DecodeInvertsEncode(s: Text)
    ensures Decoded(Encoded(s)) == s <==> Utf8.Valid(s)
  {
    hide Unescaped, Encoded, Lossy;
    UnescapedEncoded(s);
    LossyExact(s);
  }

  /** Encoded text holds no URL delimiter and no byte outside ASCII. */
  predicate Clean(b: Text) {
    forall k :: 0 <= k < |b| ==> b[k] == PERCENT || !Reserved(b[k])
  }

  lemma {:induction false} EncodedClean(s: Text)
    ensures Clean(Encoded(s))
    decreases |s|
  {
    if s != [] {
      EncodedClean(s[1..]);
      var p := Piece(s[0]);
      forall k | 0 <= k < |p| ensures p[k] == PERCENT || !Reserved(p[k]) {
      }
    }
  }
}
