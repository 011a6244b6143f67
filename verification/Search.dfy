/** The first place of a value in a sequence. */
module Search {

  /** The first place of `x`, or the end. */
  function First<T(==)>(s: seq<T>, x: T): (i: nat)
    ensures i <= |s|
    ensures i < |s| ==> s[i] == x
  {
    if s == [] || s[0] == x then 0 else 1 + First(s[1..], x)
  }

  ghost predicate Free<T>(s: seq<T>, x: T) {
    forall k :: 0 <= k < |s| ==> s[k] != x
  }

  /** The separator after a part that does not hold it. */
  lemma {:induction false} FirstAt<T>(x: seq<T>, c: T, y: seq<T>)
    requires Free(x, c)
    ensures First(x + [c] + y, c) == |x| && First(x, c) == |x|
    decreases |x|
  {
    var b := x + [c] + y;
    if x != [] {
      assert b[1..] == x[1..] + [c] + y;
      FirstAt(x[1..], c, y);
    }
  }
}
