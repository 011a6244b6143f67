/**
 * Keyset windows: the contract of a driver's ordered seek, and the walk that re-seeks
 * strictly past the last key (crates/red-driver/src/conformance.rs,
 * crates/red-driver/src/docexport.rs).
 */
module Seek {
  import opened Wrappers

  /** `lt` orders the keys of the table's rows strictly and tells any two rows apart. */
  ghost predicate Total<R, K>(table: set<R>, key: R -> K, lt: (K, K) -> bool) {
    && (forall r <- table :: !lt(key(r), key(r)))
    && (forall r <- table, s <- table, t <- table :: lt(key(r), key(s)) && lt(key(s), key(t)) ==> lt(key(r), key(t)))
    && (forall r <- table, s <- table :: r == s || lt(key(r), key(s)) || lt(key(s), key(r)))
  }

  predicate Past<K>(lt: (K, K) -> bool, bound: Option<K>, k: K) {
    bound.None? || lt(bound.value, k)
  }

  ghost predicate Ascending<R, K>(rows: seq<R>, key: R -> K, lt: (K, K) -> bool) {
    forall i, j :: 0 <= i < j < |rows| ==> lt(key(rows[i]), key(rows[j]))
  }

  /** What an ordered seek returns: the first `n` rows strictly past the bound, in key order. */
  ghost predicate IsPage<R, K>(table: set<R>, key: R -> K, lt: (K, K) -> bool, bound: Option<K>, n: nat, page: seq<R>) {
    && |page| <= n
    && Ascending(page, key, lt)
    && (forall i :: 0 <= i < |page| ==> page[i] in table && Past(lt, bound, key(page[i])))
    && (forall r <- table :: Past(lt, bound, key(r)) && r !in page ==> |page| == n && forall i :: 0 <= i < |page| ==> lt(key(page[i]), key(r)))
  }

  /** Every row of the table exactly once, in key order. */
  ghost predicate Listing<R, K>(table: set<R>, key: R -> K, lt: (K, K) -> bool, rows: seq<R>) {
    Ascending(rows, key, lt) && (forall r <- rows :: r in table) && (forall r <- table :: r in rows)
  }

  /** Where a walk stands: it holds every row up to its bound. */
  ghost predicate Reached<R, K>(table: set<R>, key: R -> K, lt: (K, K) -> bool, rows: seq<R>, bound: Option<K>) {
    && Ascending(rows, key, lt)
    && (forall r <- rows :: r in table)
    && bound == (if rows == [] then None else Some(key(rows[|rows| - 1])))
    && (forall r <- table :: r in rows || Past(lt, bound, key(r)))
  }

  /** Rows already held come before rows past the bound. */
  lemma HeldBefore<R, K>(table: set<R>, key: R -> K, lt: (K, K) -> bool, rows: seq<R>, bound: Option<K>, i: nat, r: R)
    requires Total(table, key, lt) && Reached(table, key, lt, rows, bound)
    requires i < |rows| && r in table && Past(lt, bound, key(r))
    ensures lt(key(rows[i]), key(r))
  {
    var last := rows[|rows| - 1];
    assert rows[i] in rows && last in rows;
    assert i < |rows| - 1 ==> lt(key(rows[i]), key(last));
  }

  lemma AscendingConcat<R, K>(x: seq<R>, y: seq<R>, key: R -> K, lt: (K, K) -> bool)
    requires Ascending(x, key, lt) && Ascending(y, key, lt)
    requires forall i, j :: 0 <= i < |x| && 0 <= j < |y| ==> lt(key(x[i]), key(y[j]))
    ensures Ascending(x + y, key, lt)
  {
    var z := x + y;
    forall i, j | 0 <= i < j < |z| ensures lt(key(z[i]), key(z[j])) {
      if j < |x| {
        assert z[i] == x[i] && z[j] == x[j];
      } else if i < |x| {
        assert z[i] == x[i] && z[j] == y[j - |x|];
      } else {
        assert z[i] == y[i - |x|] && z[j] == y[j - |x|];
      }
    }
  }

  lemma StepOrder<R, K>(table: set<R>, key: R -> K, lt: (K, K) -> bool, rows: seq<R>, bound: Option<K>, n: nat, page: seq<R>)
    requires Total(table, key, lt) && Reached(table, key, lt, rows, bound)
    requires IsPage(table, key, lt, bound, n, page)
    ensures Ascending(rows + page, key, lt)
  {
    forall i, j | 0 <= i < |rows| && 0 <= j < |page| ensures lt(key(rows[i]), key(page[j])) {
      assert page[j] in table;
      HeldBefore(table, key, lt, rows, bound, i, page[j]);
    }
    AscendingConcat(rows, page, key, lt);
  }

  /** A non-empty page moves the walk on. */
  lemma StepReached<R, K>(table: set<R>, key: R -> K, lt: (K, K) -> bool, rows: seq<R>, bound: Option<K>, n: nat, page: seq<R>)
    requires Total(table, key, lt) && Reached(table, key, lt, rows, bound)
    requires IsPage(table, key, lt, bound, n, page) && page != []
    ensures Reached(table, key, lt, rows + page, Some(key(page[|page| - 1])))
  {
    hide Total, Ascending;
    StepOrder(table, key, lt, rows, bound, n, page);
    var all, last := rows + page, page[|page| - 1];
    assert all[|all| - 1] == last;
    forall r | r in table ensures r in all || lt(key(last), key(r)) {
      if r !in all {
        assert r !in rows && r !in page;
        assert Past(lt, bound, key(r));
      }
    }
  }

  /** An empty page ends it: nothing is left. */
  lemma EmptyReached<R, K>(table: set<R>, key: R -> K, lt: (K, K) -> bool, rows: seq<R>, bound: Option<K>, n: nat, page: seq<R>)
    requires Reached(table, key, lt, rows, bound) && IsPage(table, key, lt, bound, n, page) && page == [] && n > 0
    ensures Listing(table, key, lt, rows)
  {
    hide Ascending;
    forall r | r in table ensures r in rows {
      assert Past(lt, bound, key(r)) ==> r in page;
    }
  }

  /** An ascending list has no row twice. */
  lemma {:induction false} AscendingSize<R, K>(table: set<R>, key: R -> K, lt: (K, K) -> bool, rows: seq<R>)
    requires (forall r <- table :: !lt(key(r), key(r))) && Ascending(rows, key, lt) && forall r <- rows :: r in table
    ensures |rows| <= |table|
    decreases |rows|
  {
    if rows != [] {
      var front, last := rows[..|rows| - 1], rows[|rows| - 1];
      forall r | r in front ensures r in table - {last} {
        var i :| 0 <= i < |front| && front[i] == r;
        assert r in rows && lt(key(rows[i]), key(last));
      }
      AscendingSize(table - {last}, key, lt, front);
      assert last in rows && last in table;
      assert table == (table - {last}) + {last};
    }
  }

  /** The walk: fetch, take the last key as the next bound, stop at an empty page. */
  method Walk<R, K(!new)>(ghost table: set<R>, key: R -> K, ghost lt: (K, K) -> bool, fetch: Option<K> -> seq<R>, ghost n: nat)
    returns (all: seq<R>)
    requires n > 0 && Total(table, key, lt)
    requires forall b :: IsPage(table, key, lt, b, n, fetch(b))
    ensures Listing(table, key, lt, all)
  {
    hide Listing, Reached, Ascending;
    all := [];
    var bound: Option<K> := None;
    assert Reached(table, key, lt, all, bound) by { NothingReached(table, key, lt); }
    while true
      invariant Reached(table, key, lt, all, bound)
      decreases |table| - |all|
    {
      var page := fetch(bound);
      assert IsPage(table, key, lt, bound, n, page);
      if page == [] {
        EmptyReached(table, key, lt, all, bound, n, page);
        break;
      }
      StepReached(table, key, lt, all, bound, n, page);
      bound := Some(key(page[|page| - 1]));
      all := all + page;
      ReachedSize(table, key, lt, all, bound);
    }
  }

  lemma NothingReached<R, K>(table: set<R>, key: R -> K, lt: (K, K) -> bool)
    ensures Reached(table, key, lt, [], None)
  {
  }

  lemma ReachedSize<R, K>(table: set<R>, key: R -> K, lt: (K, K) -> bool, rows: seq<R>, bound: Option<K>)
    requires Total(table, key, lt) && Reached(table, key, lt, rows, bound)
    ensures |rows| <= |table|
  {
    AscendingSize(table, key, lt, rows);
  }

  // ----- the listing does not depend on how it was fetched -----

  lemma Tail<R, K>(table: set<R>, key: R -> K, lt: (K, K) -> bool, x: seq<R>)
    requires Total(table, key, lt) && Listing(table, key, lt, x) && x != []
    ensures Listing(table - {x[0]}, key, lt, x[1..])
    ensures forall r <- table :: r == x[0] || lt(key(x[0]), key(r))
  {
    forall r ensures r in x[1..] <==> r in table - {x[0]} {
      if r in x[1..] {
        var i :| 0 <= i < |x[1..]| && x[1..][i] == r;
        assert r == x[i + 1] && r in x;
        assert x[0] in x && lt(key(x[0]), key(x[i + 1]));
      }
      if r in table - {x[0]} {
        var i :| 0 <= i < |x| && x[i] == r;
        assert x[1..][i - 1] == r;
      }
    }
    forall r | r in table ensures r == x[0] || lt(key(x[0]), key(r)) {
      var i :| 0 <= i < |x| && x[i] == r;
    }
  }

  lemma FewerTotal<R, K>(table: set<R>, fewer: set<R>, key: R -> K, lt: (K, K) -> bool)
    requires Total(table, key, lt) && fewer <= table
    ensures Total(fewer, key, lt)
  {
  }

  /** A table has one listing: page sizes and window boundaries leave no trace. */
  lemma {:induction false} ListingUnique<R, K>(table: set<R>, key: R -> K, lt: (K, K) -> bool, x: seq<R>, y: seq<R>)
    requires Total(table, key, lt) && Listing(table, key, lt, x) && Listing(table, key, lt, y)
    ensures x == y
    decreases |x|
  {
    hide Total, Listing;
    SameEmptiness(table, key, lt, x, y);
    if x != [] {
      Tail(table, key, lt, x);
      Tail(table, key, lt, y);
      SameHead(table, key, lt, x, y);
      FewerTotal(table, table - {x[0]}, key, lt);
      ListingUnique(table - {x[0]}, key, lt, x[1..], y[1..]);
      assert x == [x[0]] + x[1..] && y == [y[0]] + y[1..];
    }
  }

  lemma SameEmptiness<R, K>(table: set<R>, key: R -> K, lt: (K, K) -> bool, x: seq<R>, y: seq<R>)
    requires Listing(table, key, lt, x) && Listing(table, key, lt, y)
    ensures x == [] <==> y == []
  {
    assert x != [] ==> x[0] in x;
    assert y != [] ==> y[0] in y;
  }

  lemma SameHead<R, K>(table: set<R>, key: R -> K, lt: (K, K) -> bool, x: seq<R>, y: seq<R>)
    requires Total(table, key, lt) && Listing(table, key, lt, x) && Listing(table, key, lt, y) && x != [] && y != []
    requires forall r <- table :: r == x[0] || lt(key(x[0]), key(r))
    requires forall r <- table :: r == y[0] || lt(key(y[0]), key(r))
    ensures x[0] == y[0]
  {
    var a, b := x[0], y[0];
    assert a in x && b in y;
    assert a in table && b in table;
    assert !(lt(key(a), key(b)) && lt(key(b), key(a)));
  }

  function Reversed<R>(rows: seq<R>): (r: seq<R>)
    ensures |r| == |rows|
    ensures forall i :: 0 <= i < |rows| ==> r[i] == rows[|rows| - 1 - i]
  {
    seq(|rows|, i requires 0 <= i < |rows| => rows[|rows| - 1 - i])
  }

  /** The listing the other way round is the listing of the other direction. */
  lemma ListingReversed<R, K>(table: set<R>, key: R -> K, lt: (K, K) -> bool, gt: (K, K) -> bool, x: seq<R>)
    requires Listing(table, key, lt, x) && forall r <- table, s <- table :: gt(key(r), key(s)) == lt(key(s), key(r))
    ensures Listing(table, key, gt, Reversed(x))
  {
    var y := Reversed(x);
    forall i, j | 0 <= i < j < |y| ensures gt(key(y[i]), key(y[j])) {
      var p, q := |x| - 1 - i, |x| - 1 - j;
      assert y[i] == x[p] && y[j] == x[q];
      assert x[p] in x && x[q] in x;
      assert lt(key(x[q]), key(x[p]));
    }
    forall r ensures r in y <==> r in table {
      if r in x {
        var i :| 0 <= i < |x| && x[i] == r;
        assert y[|x| - 1 - i] == r;
      }
      if r in y {
        var i :| 0 <= i < |y| && y[i] == r;
        assert x[|x| - 1 - i] == r;
      }
    }
  }

  // ----- a driver that keeps the contract -----

  /** The rows of an ordered list that pass the bound. */
  function Passing<R, K>(ordered: seq<R>, key: R -> K, lt: (K, K) -> bool, bound: Option<K>): seq<R> {
    if ordered == [] then []
    else (if Past(lt, bound, key(ordered[0])) then [ordered[0]] else []) + Passing(ordered[1..], key, lt, bound)
  }

  function Window<R, K>(ordered: seq<R>, key: R -> K, lt: (K, K) -> bool, bound: Option<K>, n: nat): seq<R> {
    var rows := Passing(ordered, key, lt, bound);
    if |rows| <= n then rows else rows[..n]
  }

  lemma {:induction false} PassingFacts<R, K>(ordered: seq<R>, key: R -> K, lt: (K, K) -> bool, bound: Option<K>)
    requires Ascending(ordered, key, lt)
    ensures forall r <- Passing(ordered, key, lt, bound) :: r in ordered && Past(lt, bound, key(r))
    ensures forall r <- ordered :: Past(lt, bound, key(r)) ==> r in Passing(ordered, key, lt, bound)
    ensures Ascending(Passing(ordered, key, lt, bound), key, lt)
    decreases |ordered|
  {
    if ordered != [] {
      var rest := ordered[1..];
      forall i, j | 0 <= i < j < |rest| ensures lt(key(rest[i]), key(rest[j])) {
        assert rest[i] == ordered[i + 1] && rest[j] == ordered[j + 1];
      }
      PassingFacts(rest, key, lt, bound);
      PassingStep(ordered, key, lt, bound);
    }
  }

  lemma PassingStep<R, K>(ordered: seq<R>, key: R -> K, lt: (K, K) -> bool, bound: Option<K>)
    requires ordered != [] && Ascending(ordered, key, lt)
    requires forall r <- Passing(ordered[1..], key, lt, bound) :: r in ordered[1..] && Past(lt, bound, key(r))
    requires forall r <- ordered[1..] :: Past(lt, bound, key(r)) ==> r in Passing(ordered[1..], key, lt, bound)
    requires Ascending(Passing(ordered[1..], key, lt, bound), key, lt)
    ensures forall r <- Passing(ordered, key, lt, bound) :: r in ordered && Past(lt, bound, key(r))
    ensures forall r <- ordered :: Past(lt, bound, key(r)) ==> r in Passing(ordered, key, lt, bound)
    ensures Ascending(Passing(ordered, key, lt, bound), key, lt)
  {
    var head, rest := ordered[0], ordered[1..];
    var tail := Passing(rest, key, lt, bound);
    assert ordered == [head] + rest;
    if Past(lt, bound, key(head)) {
      forall j | 0 <= j < |tail| ensures lt(key(head), key(tail[j])) {
        assert tail[j] in tail;
        var i :| 0 <= i < |rest| && rest[i] == tail[j];
        assert rest[i] == ordered[i + 1];
      }
      AscendingConcat([head], tail, key, lt);
      assert Passing(ordered, key, lt, bound) == [head] + tail;
    } else {
      assert Passing(ordered, key, lt, bound) == tail;
    }
  }

  /** Windows cut from the listing keep the contract, so the walk's theorem is not empty. */
  lemma WindowIsPage<R, K>(table: set<R>, key: R -> K, lt: (K, K) -> bool, ordered: seq<R>, bound: Option<K>, n: nat)
    requires Listing(table, key, lt, ordered)
    ensures IsPage(table, key, lt, bound, n, Window(ordered, key, lt, bound, n))
  {
    hide Passing;
    PassingFacts(ordered, key, lt, bound);
    var rows := Passing(ordered, key, lt, bound);
    var page := Window(ordered, key, lt, bound, n);
    forall i | 0 <= i < |page| ensures rows[i] in page {
      assert page[i] == rows[i];
    }
    forall i | 0 <= i < |page| ensures page[i] in table && Past(lt, bound, key(page[i])) {
      assert page[i] == rows[i] && rows[i] in rows;
    }
    forall r | r in table && Past(lt, bound, key(r)) && r !in page
      ensures |page| == n && forall i :: 0 <= i < |page| ==> lt(key(page[i]), key(r))
    {
      assert r in rows;
      var j :| 0 <= j < |rows| && rows[j] == r;
    }
  }
}
