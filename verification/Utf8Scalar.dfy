/**
 * UTF-8 by its code points (section 3 of RFC 3629): valid text is the encoding of scalar values,
 * and trimming it drops white space at both ends.
 */
module Utf8Scalar {
  import opened Bytes
  import opened Utf8

  // ----- scalar values -----

  predicate IsScalar(c: int) {
    0 <= c < 0xD800 || 0xE000 <= c < 0x110000
  }

  function Encode(c: int): (t: Text)
    requires IsScalar(c)
    ensures 1 <= |t| <= 4
  {
    if c < 0x80 then [c as Byte]
    else if c < 0x800 then [(0xC0 + c / 64) as Byte, (0x80 + c % 64) as Byte]
    else if c < 0x10000 then [(0xE0 + c / 4096) as Byte, (0x80 + c / 64 % 64) as Byte, (0x80 + c % 64) as Byte]
    else [(0xF0 + c / 262144) as Byte, (0x80 + c / 4096 % 64) as Byte, (0x80 + c / 64 % 64) as Byte, (0x80 + c % 64) as Byte]
  }

  predicate AllScalars(cs: seq<int>) {
    forall k :: 0 <= k < |cs| ==> IsScalar(cs[k])
  }

  function EncodeAll(cs: seq<int>): Text
    requires AllScalars(cs)
  {
    if cs == [] then [] else Encode(cs[0]) + EncodeAll(cs[1..])
  }

  /** A scalar's bytes are one character. */
  lemma EncodedLength(c: int, rest: Text)
    requires IsScalar(c)
    ensures CharLen(Encode(c) + rest, 0) == |Encode(c)|
  {
    var t := Encode(c);
    var b := t + rest;
    assert forall k :: 0 <= k < |t| ==> b[k] == t[k];
    if 0x800 <= c < 0x10000 {
      ThreeBytes(c);
    } else if 0x10000 <= c {
      FourBytes(c);
    }
  }

  lemma ThreeBytes(c: int)
    requires 0x800 <= c < 0x10000 && IsScalar(c)
    ensures 0 <= c / 4096 < 16 && 0 <= c / 64 % 64 < 64
    ensures c / 4096 == 0 ==> c / 64 % 64 >= 32
    ensures c / 4096 == 13 ==> c / 64 % 64 < 32
  {
    var m := c / 64;
    assert c / 4096 == m / 64;
    assert m == 64 * (m / 64) + m % 64;
  }

  lemma FourBytes(c: int)
    requires 0x10000 <= c < 0x110000
    ensures 0 <= c / 262144 <= 4 && 0 <= c / 4096 % 64 < 64
    ensures c / 262144 == 0 ==> c / 4096 % 64 >= 16
    ensures c / 262144 == 4 ==> c / 4096 % 64 < 16
  {
    var m := c / 4096;
    assert c / 262144 == m / 64;
    assert m == 64 * (m / 64) + m % 64;
  }

  /** The value of the character at `i`. */
  function Decode(b: Text, i: nat): int
    requires i < |b| && CharLen(b, i) > 0
  {
    var n := CharLen(b, i);
    if n == 1 then b[i] as int
    else if n == 2 then 64 * (b[i] as int - 0xC0) + (b[i + 1] as int - 0x80)
    else if n == 3 then 4096 * (b[i] as int - 0xE0) + 64 * (b[i + 1] as int - 0x80) + (b[i + 2] as int - 0x80)
    else 262144 * (b[i] as int - 0xF0) + 4096 * (b[i + 1] as int - 0x80) + 64 * (b[i + 2] as int - 0x80) + (b[i + 3] as int - 0x80)
  }

  lemma Digits64(x: int, y: int)
    requires 0 <= y < 64
    ensures (64 * x + y) / 64 == x && (64 * x + y) % 64 == y
  {
  }

  /** A character is the encoding of its value. */
  lemma CharIsScalar(b: Text, i: nat)
    requires i < |b| && CharLen(b, i) > 0
    ensures IsScalar(Decode(b, i)) && b[i..i + CharLen(b, i)] == Encode(Decode(b, i))
  {
    var n, c := CharLen(b, i), Decode(b, i);
    if n == 2 {
      TwoDecode(b, i);
    } else if n == 3 {
      ThreeDecode(b, i);
    } else if n == 4 {
      FourDecode(b, i);
    }
  }

  lemma TwoDecode(b: Text, i: nat)
    requires i < |b| && CharLen(b, i) == 2
    ensures IsScalar(Decode(b, i)) && b[i..i + 2] == Encode(Decode(b, i))
  {
    var x, y := b[i] as int - 0xC0, b[i + 1] as int - 0x80;
    Digits64(x, y);
  }

  lemma ThreeDecode(b: Text, i: nat)
    requires i < |b| && CharLen(b, i) == 3
    ensures IsScalar(Decode(b, i)) && b[i..i + 3] == Encode(Decode(b, i))
  {
    var x, y, z := b[i] as int - 0xE0, b[i + 1] as int - 0x80, b[i + 2] as int - 0x80;
    var c := Decode(b, i);
    Digits64(64 * x + y, z);
    Digits64(x, y);
    assert c == 64 * (64 * x + y) + z;
    assert c / 4096 == c / 64 / 64;
  }

  lemma FourDecode(b: Text, i: nat)
    requires i < |b| && CharLen(b, i) == 4
    ensures IsScalar(Decode(b, i)) && b[i..i + 4] == Encode(Decode(b, i))
  {
    var x, y, z, w := b[i] as int - 0xF0, b[i + 1] as int - 0x80, b[i + 2] as int - 0x80, b[i + 3] as int - 0x80;
    var c := Decode(b, i);
    var m := 64 * (64 * x + y) + z;
    assert c == 64 * m + w;
    Digits64(m, w);
    Digits64(64 * x + y, z);
    Digits64(x, y);
    assert c / 4096 == c / 64 / 64 && c / 262144 == c / 64 / 64 / 64;
  }

  // ----- valid text -----

  lemma CharTail(b: Text, i: nat)
    requires i < |b|
    ensures CharLen(b[i..], 0) == CharLen(b, i)
  {
  }

  lemma {:induction false} ValidTail(b: Text, i: nat)
    requires i <= |b|
    ensures ValidFrom(b, i) <==> Valid(b[i..])
    decreases |b| - i
  {
    hide CharLen;
    if i < |b| {
      CharTail(b, i);
      var n := CharLen(b, i);
      if n > 0 {
        ValidTail(b, i + n);
        ValidTail(b[i..], n);
        assert b[i..][n..] == b[i + n..];
      }
    }
  }

  lemma {:induction false} EncodedIsValid(cs: seq<int>)
    requires AllScalars(cs)
    ensures Valid(EncodeAll(cs))
    decreases |cs|
  {
    hide CharLen, Encode;
    if cs != [] {
      var b, t, rest := EncodeAll(cs), Encode(cs[0]), EncodeAll(cs[1..]);
      EncodedLength(cs[0], rest);
      EncodedIsValid(cs[1..]);
      assert b[|t|..] == rest;
      ValidTail(b, |t|);
    }
  }

  lemma {:induction false} ValidIsEncoded(b: Text)
    requires Valid(b)
    ensures exists cs :: AllScalars(cs) && b == EncodeAll(cs)
    decreases |b|
  {
    hide CharLen, Encode, Decode;
    if b == [] {
      assert AllScalars([]) && EncodeAll([]) == [];
    } else {
      var n, c := CharLen(b, 0), Decode(b, 0);
      CharIsScalar(b, 0);
      ValidTail(b, n);
      ValidIsEncoded(b[n..]);
      var cs :| AllScalars(cs) && b[n..] == EncodeAll(cs);
      var all := [c] + cs;
      assert all[1..] == cs && AllScalars(all);
      assert b == b[0..n] + b[n..];
      assert EncodeAll(all) == b;
    }
  }

  /** Valid text is exactly the encodings of sequences of scalar values. */
  lemma ValidExactly(b: Text)
    ensures Valid(b) <==> exists cs :: AllScalars(cs) && b == EncodeAll(cs)
  {
    hide Valid, EncodeAll, IsScalar;
    if Valid(b) {
      ValidIsEncoded(b);
    }
    if cs :| AllScalars(cs) && b == EncodeAll(cs) {
      EncodedIsValid(cs);
    }
  }

  // ----- trimming -----

  /** The code points with the White_Space property. */
  predicate IsWhite(c: int) {
    || 9 <= c <= 13 || c == 0x20 || c == 0x85 || c == 0xA0 || c == 0x1680 || 0x2000 <= c <= 0x200A
    || c == 0x2028 || c == 0x2029 || c == 0x202F || c == 0x205F || c == 0x3000
  }

  /** How long the encoding of white space is. */
  function WhiteLength(c: int): nat
    requires IsScalar(c)
  {
    if IsWhite(c) then |Encode(c)| else 0
  }

  lemma SpaceAhead(c: int, rest: Text)
    requires IsScalar(c)
    ensures SpaceLen(Encode(c) + rest, 0) == WhiteLength(c)
  {
    var t := Encode(c);
    var b := t + rest;
    assert forall k :: 0 <= k < |t| ==> b[k] == t[k];
    SpaceBytes(b, 0, c);
  }

  /** The bytes at `i` are those of `c`. */
  lemma SpaceBytes(b: Text, i: nat, c: int)
    requires IsScalar(c) && i + |Encode(c)| <= |b| && forall k :: 0 <= k < |Encode(c)| ==> b[i + k] == Encode(c)[k]
    ensures SpaceLen(b, i) == WhiteLength(c)
  {
    var t := Encode(c);
    assert b[i + 0] == t[0];
    if |t| == 2 {
      assert b[i + 1] == t[1];
      assert c == 64 * (c / 64) + c % 64;
    } else if |t| == 3 {
      assert b[i + 1] == t[1] && b[i + 2] == t[2];
      ThreeWhite(c);
    } else if |t| == 4 {
      FourBytes(c);
    }
  }

  lemma ThreeWhite(c: int)
    requires 0x800 <= c < 0x10000
    ensures IsWhite(c) <==>
            var x, y, z := c / 4096, c / 64 % 64, c % 64;
            || (x == 1 && y == 0x1A && z == 0)
            || (x == 2 && y == 0 && (z <= 10 || z == 0x28 || z == 0x29 || z == 0x2F))
            || (x == 2 && y == 1 && z == 0x1F)
            || (x == 3 && y == 0 && z == 0)
  {
    var m := c / 64;
    assert c == 64 * m + c % 64 && m == 64 * (m / 64) + m % 64 && c / 4096 == m / 64;
  }

  lemma LeadByte(c: int)
    requires IsScalar(c)
    ensures var t := Encode(c);
            && (|t| == 1 <==> t[|t| - 1] < 0x80)
            && (|t| > 1 ==> t[0] >= 0xC2 && forall k :: 1 <= k < |t| ==> IsCont(t[k]))
  {
    if c >= 0x10000 {
      FourBytes(c);
    }
  }

  /** White space at the end of a text is that of its last character. */
  lemma SpaceBehind(x: Text, c: int)
    requires IsScalar(c)
    ensures LastSpaceLen(x + Encode(c)) == WhiteLength(c)
  {
    hide Encode;
    var t := Encode(c);
    var b := x + t;
    var n := |b|;
    assert forall k :: 0 <= k < |t| ==> b[|x| + k] == t[k];
    LeadByte(c);
    SpaceBytes(b, |x|, c);
    assert b[n - 1] == t[|t| - 1];
    if |t| > 1 {
      assert b[n - 2] == t[|t| - 2];
    }
    if |t| > 2 {
      assert b[n - 3] == t[|t| - 3];
    }
  }

  function DropLead(cs: seq<int>): (r: seq<int>)
    ensures AllScalars(cs) ==> AllScalars(r)
  {
    if cs != [] && IsWhite(cs[0]) then DropLead(cs[1..]) else cs
  }

  function DropTail(cs: seq<int>): (r: seq<int>)
    ensures AllScalars(cs) ==> AllScalars(r)
  {
    if cs != [] && IsWhite(cs[|cs| - 1]) then DropTail(cs[..|cs| - 1]) else cs
  }

  lemma {:induction false} StartTrims(cs: seq<int>)
    requires AllScalars(cs)
    ensures TrimStart(EncodeAll(cs)) == EncodeAll(DropLead(cs))
    decreases |cs|
  {
    hide Encode, IsWhite, SpaceLen;
    if cs != [] {
      var b, rest := EncodeAll(cs), EncodeAll(cs[1..]);
      SpaceAhead(cs[0], rest);
      if IsWhite(cs[0]) {
        assert b[|Encode(cs[0])|..] == rest;
        StartTrims(cs[1..]);
      }
    }
  }

  lemma {:induction false} EncodeMore(cs: seq<int>, c: int)
    requires AllScalars(cs) && IsScalar(c)
    ensures AllScalars(cs + [c]) && EncodeAll(cs + [c]) == EncodeAll(cs) + Encode(c)
    decreases |cs|
  {
    hide Encode, IsScalar;
    var all := cs + [c];
    if cs == [] {
      assert all[1..] == [];
      assert EncodeAll([]) == [];
    } else {
      assert all[1..] == cs[1..] + [c];
      EncodeMore(cs[1..], c);
    }
  }

  lemma {:induction false} EndTrims(cs: seq<int>)
    requires AllScalars(cs)
    ensures TrimEnd(EncodeAll(cs)) == EncodeAll(DropTail(cs))
    decreases |cs|
  {
    hide Encode, IsWhite, LastSpaceLen, EncodeAll;
    if cs == [] {
      NothingEncoded();
    } else {
      var front, c := cs[..|cs| - 1], cs[|cs| - 1];
      assert cs == front + [c];
      EncodeMore(front, c);
      SpaceBehind(EncodeAll(front), c);
      if IsWhite(c) {
        assert EncodeAll(cs)[..|EncodeAll(cs)| - |Encode(c)|] == EncodeAll(front);
        EndTrims(front);
      }
    }
  }

  lemma NothingEncoded()
    ensures EncodeAll([]) == [] && LastSpaceLen([]) == 0
  {
  }

  /** Trimming drops the white space at both ends, and nothing else. */
  lemma TrimExactly(cs: seq<int>)
    requires AllScalars(cs)
    ensures Trim(EncodeAll(cs)) == EncodeAll(DropTail(DropLead(cs)))
  {
    hide TrimStart, TrimEnd, EncodeAll, DropLead, DropTail;
    StartTrims(cs);
    EndTrims(DropLead(cs));
  }
}
