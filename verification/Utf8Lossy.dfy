/** `String::from_utf8_lossy`: ill-formed pieces become U+FFFD, valid text is left alone. */
module Utf8Lossy {
  import opened Bytes
  import Utf8

  const REPLACEMENT: Text := [0xEF, 0xBF, 0xBD]

  /** The length of the ill-formed piece at `i`: a maximal start of some character. */
  function BadLen(b: Text, i: nat): (n: nat)
    requires i < |b|
    ensures 1 <= n && i + n <= |b|
  {
    var c := b[i];
    var second :=
      && Utf8.ContAt(b, i + 1)
      && (c == 0xE0 ==> b[i + 1] >= 0xA0) && (c == 0xED ==> b[i + 1] < 0xA0)
      && (c == 0xF0 ==> b[i + 1] >= 0x90) && (c == 0xF4 ==> b[i + 1] < 0x90);
    if 0xE0 <= c < 0xF0 && second then 2
    else if 0xF0 <= c < 0xF5 && second then (if Utf8.ContAt(b, i + 2) then 3 else 2)
    else 1
  }

  function LossyFrom(b: Text, i: nat): Text
    requires i <= |b|
    decreases |b| - i
  {
    if i == |b| then []
    else
      var n := Utf8.CharLen(b, i);
      if n > 0 then b[i..i + n] + LossyFrom(b, i + n) else REPLACEMENT + LossyFrom(b, i + BadLen(b, i))
  }

  function Lossy(b: Text): Text {
    LossyFrom(b, 0)
  }

  lemma LossyStep(b: Text, i: nat)
    requires i <= |b|
    ensures i == |b| ==> LossyFrom(b, i) == []
    ensures i < |b| && Utf8.CharLen(b, i) > 0 ==>
              LossyFrom(b, i) == b[i..i + Utf8.CharLen(b, i)] + LossyFrom(b, i + Utf8.CharLen(b, i))
  {
    hide Utf8.CharLen, BadLen;
  }

  lemma {:induction false} LossyValidFrom(b: Text, i: nat)
    requires i <= |b| && Utf8.ValidFrom(b, i)
    ensures LossyFrom(b, i) == b[i..]
    decreases |b| - i
  {
    hide Utf8.CharLen, LossyFrom;
    LossyStep(b, i);
    if i < |b| {
      var n := Utf8.CharLen(b, i);
      LossyValidFrom(b, i + n);
      assert b[i..] == b[i..i + n] + b[i + n..];
    }
  }

  lemma {:induction false} LossyIsValid(b: Text, i: nat)
    requires i <= |b|
    ensures Utf8.Valid(LossyFrom(b, i))
    decreases |b| - i
  {
    hide Utf8.Valid;
    if i == |b| {
      assert Utf8.Valid([]) by { NoneValid(); }
    } else {
      var n := Utf8.CharLen(b, i);
      if n > 0 {
        LossyIsValid(b, i + n);
        OneChar(b, i);
        Utf8.ConcatValid(b[i..i + n], LossyFrom(b, i + n));
      } else {
        LossyIsValid(b, i + BadLen(b, i));
        ReplacementValid();
        Utf8.ConcatValid(REPLACEMENT, LossyFrom(b, i + BadLen(b, i)));
      }
    }
  }

  lemma NoneValid()
    ensures Utf8.Valid([])
  {
  }

  lemma OneChar(b: Text, i: nat)
    requires i < |b| && Utf8.CharLen(b, i) > 0
    ensures Utf8.Valid(b[i..i + Utf8.CharLen(b, i)])
  {
    var n := Utf8.CharLen(b, i);
    var t := b[i..i + n];
    assert Utf8.CharLen(t, 0) == n;
  }

  lemma ReplacementValid()
    ensures Utf8.Valid(REPLACEMENT)
  {
    assert Utf8.CharLen(REPLACEMENT, 0) == 3;
  }

  /** The lossy conversion leaves exactly the valid texts alone. */
  lemma LossyExact(b: Text)
    ensures Utf8.Valid(Lossy(b))
    ensures Lossy(b) == b <==> Utf8.Valid(b)
  {
    hide LossyFrom;
    LossyIsValid(b, 0);
    if Utf8.Valid(b) {
      LossyValidFrom(b, 0);
      assert b[0..] == b;
    }
  }
}
