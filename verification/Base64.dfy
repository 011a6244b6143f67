/** `base64_encode` of crates/red-core/src/doc.rs, with the reader of section 4 of RFC 4648. */
module Base64 {
  import opened Bytes
  import opened Wrappers

  /** The standard alphabet. */
  function Letter(k: int): char
    requires 0 <= k < 64
  {
    if k < 26 then (65 + k) as char
    else if k < 52 then (71 + k) as char
    else if k < 62 then (k - 4) as char
    else if k == 62 then '+'
    else '/'
  }

  function Index(c: char): Option<int> {
    if 'A' <= c <= 'Z' then Some(c as int - 65)
    else if 'a' <= c <= 'z' then Some(c as int - 71)
    else if '0' <= c <= '9' then Some(c as int + 4)
    else if c == '+' then Some(62)
    else if c == '/' then Some(63)
    else None
  }

  lemma LetterIndex(k: int)
    requires 0 <= k < 64
    ensures Index(Letter(k)) == Some(k) && Letter(k) != '='
  {
  }

  function At(chunk: seq<Byte>, i: nat): int {
    if i < |chunk| then chunk[i] as int else 0
  }

  /** One chunk of up to three bytes as four characters. */
  function EncodeChunk(chunk: seq<Byte>): (s: string)
    requires 1 <= |chunk| <= 3
    ensures |s| == 4
  {
    var n := Pack(At(chunk, 0), At(chunk, 1), At(chunk, 2));
    [Letter(n / 262144 % 64), Letter(n / 4096 % 64),
     if |chunk| > 1 then Letter(n / 64 % 64) else '=',
     if |chunk| > 2 then Letter(n % 64) else '=']
  }

  function ChunkLen(bytes: seq<Byte>): nat {
    if |bytes| < 3 then |bytes| else 3
  }

  function Encode(bytes: seq<Byte>): string {
    if bytes == [] then ""
    else EncodeChunk(bytes[..ChunkLen(bytes)]) + Encode(bytes[ChunkLen(bytes)..])
  }

  lemma {:induction false} EncodeSnoc(x: seq<Byte>, y: seq<Byte>)
    requires |x| % 3 == 0
    ensures Encode(x + y) == Encode(x) + Encode(y)
    decreases |x|
  {
    var all := x + y;
    if x == [] {
      assert all == y;
    } else {
      assert all[..3] == x[..3] && all[3..] == x[3..] + y;
      EncodeSnoc(x[3..], y);
    }
  }

  lemma EncodeOne(chunk: seq<Byte>)
    requires 1 <= |chunk| <= 3
    ensures Encode(chunk) == EncodeChunk(chunk)
  {
    hide EncodeChunk;
    assert chunk[..|chunk|] == chunk && chunk[|chunk|..] == [];
  }

  /** The chunk loop. */
  method EncodeInto(out: string, bytes: seq<Byte>) returns (r: string)
    ensures r == out + Encode(bytes)
  {
    hide EncodeChunk, Encode;
    r := out;
    var i := 0;
    EncodeNone();
    while i < |bytes|
      invariant i <= |bytes| && (i < |bytes| ==> i % 3 == 0)
      invariant r == out + Encode(bytes[..i])
    {
      var j := if i + 3 <= |bytes| then i + 3 else |bytes|;
      var chunk := bytes[i..j];
      EncodeSnoc(bytes[..i], chunk);
      EncodeOne(chunk);
      assert bytes[..j] == bytes[..i] + chunk;
      r, i := r + EncodeChunk(chunk), j;
    }
    assert bytes[..|bytes|] == bytes;
  }

  lemma EncodeNone()
    ensures Encode([]) == ""
  {
  }

  // ----- reading -----

  /** Three bytes back from four sextets. */
  function Unpack(a: int, b: int, c: int, d: int): (int, int, int) {
    var n := a * 262144 + b * 4096 + c * 64 + d;
    (n / 65536 % 256, n / 256 % 256, n % 256)
  }

  function DecodeChunk(s: string): (r: Option<seq<Byte>>)
    requires |s| == 4
  {
    var a, b, c, d := Index(s[0]), Index(s[1]), Index(s[2]), Index(s[3]);
    if a.None? || b.None? then None
    else if s[2] == '=' && s[3] == '=' then
      Some([Unpack(a.value, b.value, 0, 0).0 as Byte])
    else if c.None? then None
    else if s[3] == '=' then
      var u := Unpack(a.value, b.value, c.value, 0);
      Some([u.0 as Byte, u.1 as Byte])
    else if d.None? then None
    else
      var u := Unpack(a.value, b.value, c.value, d.value);
      Some([u.0 as Byte, u.1 as Byte, u.2 as Byte])
  }

  function Decode(s: string): Option<seq<Byte>> {
    if s == "" then Some([])
    else if |s| < 4 then None
    else
      match (DecodeChunk(s[..4]), Decode(s[4..]))
      case (Some(x), Some(y)) => Some(x + y)
      case _ => None
  }

  function Pack(x: int, y: int, z: int): int {
    x * 65536 + y * 256 + z
  }

  /** The four sextets of three bytes. */
  lemma Sextets(x: int, y: int, z: int)
    requires 0 <= x < 256 && 0 <= y < 256 && 0 <= z < 256
    ensures var n := Pack(x, y, z);
            && n / 262144 % 64 == x / 4 && n / 4096 % 64 == 16 * (x % 4) + y / 16
            && n / 64 % 64 == 4 * (y % 16) + z / 64 && n % 64 == z % 64
  {
    var n := Pack(x, y, z);
    var a, b, c, e, f, g := x / 4, x % 4, y / 16, y % 16, z / 64, z % 64;
    assert n == 262144 * a + 65536 * b + 4096 * c + 256 * e + 64 * f + g;
    assert n / 262144 == a;
    assert n / 4096 == 64 * a + 16 * b + c;
    assert n / 64 == 4096 * a + 1024 * b + 64 * c + 4 * e + f;
  }

  lemma ByteSplit(x: int, y: int, z: int)
    requires 0 <= x < 256 && 0 <= y < 256 && 0 <= z < 256
    ensures var n := Pack(x, y, z); n / 65536 % 256 == x && n / 256 % 256 == y && n % 256 == z
  {
    var n := Pack(x, y, z);
    assert n / 65536 == x && n / 256 == 256 * x + y;
  }

  lemma SextetsPack(x: int, y: int, z: int)
    ensures (x / 4) * 262144 + (16 * (x % 4) + y / 16) * 4096 + (4 * (y % 16) + z / 64) * 64 + z % 64 == Pack(x, y, z)
  {
    assert x == 4 * (x / 4) + x % 4 && y == 16 * (y / 16) + y % 16 && z == 64 * (z / 64) + z % 64;
  }

  lemma UnpackSextets(x: int, y: int, z: int)
    requires 0 <= x < 256 && 0 <= y < 256 && 0 <= z < 256
    ensures Unpack(x / 4, 16 * (x % 4) + y / 16, 4 * (y % 16) + z / 64, z % 64) == (x, y, z)
  {
    hide Pack;
    SextetsPack(x, y, z);
    ByteSplit(x, y, z);
  }

  lemma ChunkRoundTrip(chunk: seq<Byte>)
    requires 1 <= |chunk| <= 3
    ensures DecodeChunk(EncodeChunk(chunk)) == Some(chunk)
  {
    hide Index, Letter, Unpack;
    var x, y, z := At(chunk, 0), At(chunk, 1), At(chunk, 2);
    var p, q, r, t := x / 4, 16 * (x % 4) + y / 16, 4 * (y % 16) + z / 64, z % 64;
    Sextets(x, y, z);
    UnpackSextets(x, y, z);
    LetterIndex(p);
    LetterIndex(q);
    LetterIndex(r);
    LetterIndex(t);
    var s := EncodeChunk(chunk);
    assert s[0] == Letter(p) && s[1] == Letter(q);
    if |chunk| == 1 {
      assert r == 0 && t == 0;
      assert chunk == [chunk[0]];
    } else if |chunk| == 2 {
      assert s[2] == Letter(r) && t == 0;
      assert chunk == [chunk[0], chunk[1]];
    } else {
      assert s[2] == Letter(r) && s[3] == Letter(t);
      assert chunk == [chunk[0], chunk[1], chunk[2]];
    }
  }

  /** Every byte string is recovered from its base64 text. */
  lemma {:induction false} RoundTrip(bytes: seq<Byte>)
    ensures Decode(Encode(bytes)) == Some(bytes)
    decreases |bytes|
  {
    hide EncodeChunk, DecodeChunk;
    if bytes != [] {
      var n := ChunkLen(bytes);
      var head, rest := EncodeChunk(bytes[..n]), Encode(bytes[n..]);
      assert (head + rest)[..4] == head && (head + rest)[4..] == rest;
      ChunkRoundTrip(bytes[..n]);
      RoundTrip(bytes[n..]);
      assert bytes == bytes[..n] + bytes[n..];
    }
  }

  /** The text holds letters of the alphabet and padding only, so no JSON escape is needed. */
  lemma {:induction false} Alphabetic(bytes: seq<Byte>)
    ensures forall k :: 0 <= k < |Encode(bytes)| ==> Encode(bytes)[k] == '=' || Index(Encode(bytes)[k]).Some?
    decreases |bytes|
  {
    hide Index, Letter;
    if bytes != [] {
      var chunk := bytes[..ChunkLen(bytes)];
      var n := At(chunk, 0) * 65536 + At(chunk, 1) * 256 + At(chunk, 2);
      LetterIndex(n / 262144 % 64);
      LetterIndex(n / 4096 % 64);
      LetterIndex(n / 64 % 64);
      LetterIndex(n % 64);
      Alphabetic(bytes[ChunkLen(bytes)..]);
    }
  }
}
