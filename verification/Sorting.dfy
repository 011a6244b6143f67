/** A stable sort by a comparison, and what it promises: Rust's `sort_by`. */
module Sorting {

  /** Any two values compare, and comparisons chain. */
  ghost predicate TotalPreorder<T(!new)>(le: (T, T) -> bool) {
    && (forall a, b :: le(a, b) || le(b, a))
    && (forall a, b, c :: le(a, b) && le(b, c) ==> le(a, c))
  }

  /** `x` after everything it does not strictly precede. */
  function Insert<T>(x: T, s: seq<T>, le: (T, T) -> bool): (r: seq<T>)
    ensures |r| == |s| + 1
  {
    if s == [] || !le(s[0], x) then [x] + s else [s[0]] + Insert(x, s[1..], le)
  }

  function Sorted<T>(s: seq<T>, le: (T, T) -> bool): (r: seq<T>)
    ensures |r| == |s|
  {
    if s == [] then [] else Insert(s[|s| - 1], Sorted(s[..|s| - 1], le), le)
  }

  method SortBy<T>(s: seq<T>, le: (T, T) -> bool) returns (r: seq<T>)
    ensures r == Sorted(s, le)
  {
    hide Insert;
    r := [];
    for i := 0 to |s|
      invariant r == Sorted(s[..i], le)
    {
      assert s[..i + 1][..i] == s[..i];
      r := Insert(s[i], r, le);
    }
    assert s[..|s|] == s;
  }

  ghost predicate Ordered<T>(s: seq<T>, le: (T, T) -> bool) {
    forall i, j :: 0 <= i < j < |s| ==> le(s[i], s[j])
  }

  lemma OrderedCons<T>(x: T, s: seq<T>, le: (T, T) -> bool)
    requires Ordered(s, le) && forall j :: 0 <= j < |s| ==> le(x, s[j])
    ensures Ordered([x] + s, le)
  {
  }

  lemma {:induction false} InsertPermutes<T>(x: T, s: seq<T>, le: (T, T) -> bool)
    ensures multiset(Insert(x, s, le)) == multiset(s) + multiset{x}
    decreases |s|
  {
    if s != [] && le(s[0], x) {
      InsertPermutes(x, s[1..], le);
      assert s == [s[0]] + s[1..];
    }
  }

  lemma {:induction false} InsertMember<T>(x: T, s: seq<T>, le: (T, T) -> bool, j: nat)
    requires j < |Insert(x, s, le)|
    ensures Insert(x, s, le)[j] == x || Insert(x, s, le)[j] in s
    decreases |s|
  {
    if s != [] && le(s[0], x) && j > 0 {
      InsertMember(x, s[1..], le, j - 1);
    }
  }

  lemma {:induction false} InsertOrdered<T(!new)>(x: T, s: seq<T>, le: (T, T) -> bool)
    requires TotalPreorder(le) && Ordered(s, le)
    ensures Ordered(Insert(x, s, le), le)
    decreases |s|
  {
    if s == [] || !le(s[0], x) {
      forall j | 0 <= j < |s| ensures le(x, s[j]) {
        if j > 0 {
          assert le(s[0], s[j]);
        }
      }
      OrderedCons(x, s, le);
    } else {
      var rest := s[1..];
      var more := Insert(x, rest, le);
      InsertOrdered(x, rest, le);
      forall j | 0 <= j < |more| ensures le(s[0], more[j]) {
        InsertMember(x, rest, le, j);
        if more[j] != x {
          var i :| 0 <= i < |rest| && rest[i] == more[j];
          assert rest[i] == s[i + 1];
        }
      }
      OrderedCons(s[0], more, le);
    }
  }

  /** The sorted sequence is in order, and a permutation. */
  lemma {:induction false} SortedFacts<T(!new)>(s: seq<T>, le: (T, T) -> bool)
    requires TotalPreorder(le)
    ensures Ordered(Sorted(s, le), le) && multiset(Sorted(s, le)) == multiset(s)
    decreases |s|
  {
    hide Insert, TotalPreorder;
    if s != [] {
      SortedFacts(s[..|s| - 1], le);
      InsertOrdered(s[|s| - 1], Sorted(s[..|s| - 1], le), le);
      InsertPermutes(s[|s| - 1], Sorted(s[..|s| - 1], le), le);
      assert s == s[..|s| - 1] + [s[|s| - 1]];
    }
  }
}
