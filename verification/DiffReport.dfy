/**
 * What a diff reports, beside crates/red-core/src/diff.rs: which cells it flags, what its rows
 * carry, and what its four totals count.
 */
module DiffReport {
  import opened Bytes
  import opened Wrappers
  import opened Values
  import opened ValueFmt
  import opened TableDiff
  import ValueRead

  // ----- integers as doubles -----

  ghost predicate PowerOfTwo(g: nat) {
    g == 1 || (g > 1 && g % 2 == 0 && PowerOfTwo(g / 2))
  }

  function Abs(n: int): nat {
    if n < 0 then -n else n
  }

  /** `m * g` is a double with 53 bits of precision, and no other is nearer to `n`; a tie goes to an even `m`. */
  ghost predicate Nearest(n: int, m: int, g: nat) {
    && PowerOfTwo(g) && Abs(m) <= 0x20_0000_0000_0000 && (g > 1 ==> Abs(m) >= 0x10_0000_0000_0000)
    && 2 * Abs(n - m * g) <= g && (2 * Abs(n - m * g) == g ==> m % 2 == 0)
  }

  lemma {:induction false} GapFits(n: nat, gap: nat)
    requires gap > 0 && PowerOfTwo(gap)
    ensures PowerOfTwo(FloatGap(n, gap)) && n < FloatGap(n, gap) * 0x20_0000_0000_0000
    ensures FloatGap(n, gap) == gap || n >= FloatGap(n, gap) * 0x10_0000_0000_0000
    decreases if n >= gap * 0x20_0000_0000_0000 then n - gap * 0x20_0000_0000_0000 + 1 else 0
  {
    if n >= gap * 0x20_0000_0000_0000 {
      assert 2 * gap / 2 == gap;
      GapFits(n, 2 * gap);
    }
  }

  lemma QuotientBound(n: nat, g: nat, bound: nat)
    requires g > 0
    ensures n < g * bound ==> n / g < bound
    ensures n >= g * bound ==> n / g >= bound
  {
    var q := n / g;
    assert n == q * g + n % g;
    assert q >= bound ==> q * g >= bound * g;
    assert q < bound ==> (q + 1) * g <= bound * g;
  }

  lemma RoundsToNearest(n: nat, g: nat)
    requires g > 0 && PowerOfTwo(g) && n < g * 0x20_0000_0000_0000 && (g > 1 ==> n >= g * 0x10_0000_0000_0000)
    ensures exists m: int :: Nearest(n, m, g) && RoundToGap(n, g) == m * g && m >= 0
  {
    hide PowerOfTwo;
    var q, rem := n / g, n % g;
    QuotientBound(n, g, 0x20_0000_0000_0000);
    QuotientBound(n, g, 0x10_0000_0000_0000);
    assert n == q * g + rem;
    var m := if 2 * rem < g || (2 * rem == g && q % 2 == 0) then q else q + 1;
    assert (q + 1) * g == q * g + g;
    assert Abs(n - m * g) == if m == q then rem else g - rem;
    assert Nearest(n, m, g);
  }

  lemma NearestNegated(a: int, m: int, g: nat)
    requires Nearest(a, m, g)
    ensures Nearest(-a, -m, g) && (-m) * g == -(m * g)
  {
    hide PowerOfTwo;
    assert (-m) * g == -(m * g);
  }

  /** `i64 as f64` gives the nearest double, ties to even. */
  lemma AsFloatNearest(n: int)
    ensures AsFloat(n).Finite? && exists m: int, g: nat :: Nearest(n, m, g) && AsFloat(n).value == (m * g) as real
  {
    hide Decimal, RoundToGap, FloatGap, Nearest, PowerOfTwo;
    var a := Abs(n);
    var g: nat := FloatGap(a, 1);
    GapFits(a, 1);
    RoundsToNearest(a, g);
    var m: int :| Nearest(a, m, g) && RoundToGap(a, g) == m * g && m >= 0;
    if n < 0 {
      NearestNegated(a, m, g);
    }
    assert Nearest(n, if n < 0 then -m else m, g);
  }

  /** Any integer beside any double: the double nearest to the integer decides. */
  lemma MixedKeysExactly(n: int, y: Float)
    ensures exists m: int, g: nat ::
              && Nearest(n, m, g)
              && (KeyCmp(Integer(n), Real(y)).Less? <==> FloatBefore(Finite((m * g) as real, []), y))
              && (KeyCmp(Integer(n), Real(y)).Greater? <==> FloatBefore(y, Finite((m * g) as real, [])))
              && (KeyCmp(Real(y), Integer(n)).Less? <==> KeyCmp(Integer(n), Real(y)).Greater?)
              && (KeyCmp(Real(y), Integer(n)).Greater? <==> KeyCmp(Integer(n), Real(y)).Less?)
  {
    hide AsFloat, Nearest;
    AsFloatNearest(n);
    var m: int, g: nat :| Nearest(n, m, g) && AsFloat(n).value == (m * g) as real;
  }

  // ----- changed cells -----

  /** The same cell: finite doubles by value, NaN like any other. */
  predicate SameCell(l: Value, r: Value) {
    || l == r
    || (l.Real? && r.Real? && l.x.Finite? && r.x.Finite? && l.x.value == r.x.value)
  }

  /** A pair counts as changed exactly when one of the cells both rows have differs. */
  lemma ChangedExactly(left: Row, right: Row)
    ensures Differs(left, right) <==> exists i :: 0 <= i < |left| && i < |right| && !SameCell(left[i], right[i])
  {
    var m := Mask(left, right);
    if Differs(left, right) {
      var i :| 0 <= i < |m| && m[i];
      assert !SameCell(left[i], right[i]);
    }
    if i :| 0 <= i < |left| && i < |right| && !SameCell(left[i], right[i]) {
      assert m[i];
    }
  }

  // ----- labels -----

  /** The label of a row is its key in plain text; a row without one has none. */
  ghost predicate NamesKey(key: Text, row: Row, k: nat) {
    if k >= |row| then key == []
    else
      match row[k]
      case Null => key == Ascii("NULL")
      case Integer(n) => ValueRead.IsInteger(key) && ValueRead.IntValue(key) == n
      case Real(NaN) => key == Ascii("NaN")
      case Real(Infinite(negative)) => key == if negative then Ascii("-inf") else Ascii("inf")
      case Real(Finite(_, display)) => key == display
      case Str(s) => key == s
      case Blob(bytes) => ValueRead.MarksBytes(key, |bytes|)
      case Capped(_) => key == Ascii("<capped>")
  }

  lemma LabelNames(row: Row, k: nat)
    ensures NamesKey(KeyLabel(row, k), row, k)
  {
    hide Decimal, ByteMarker, ValueRead.IsInteger, ValueRead.IntValue, ValueRead.MarksBytes;
    if k < |row| {
      match row[k]
      case Integer(n) => ValueRead.IntegerReads(n);
      case Blob(bytes) => ValueRead.MarkerReads(|bytes|, true);
      case _ =>
    }
  }

  // ----- rows -----

  /** What a reported row carries. */
  ghost predicate RowTells(d: DiffRow, left: seq<Row>, right: seq<Row>, k: nat) {
    match d.kind
    case Removed => d.left in left && d.right == [] && d.changed == [] && NamesKey(d.key, d.left, k)
    case Added => d.right in right && d.left == [] && d.changed == [] && NamesKey(d.key, d.right, k)
    case Changed =>
      && d.left in left && d.right in right && NamesKey(d.key, d.left, k) && CompareKeys(d.left, d.right, k).Equal?
      && |d.changed| == Min(|d.left|, |d.right|) && true in d.changed
      && forall i :: 0 <= i < |d.changed| ==> (d.changed[i] <==> !SameCell(d.left[i], d.right[i]))
  }

  ghost predicate EventTells(e: Event, left: seq<Row>, right: seq<Row>, k: nat) {
    match e
    case OnlyLeft(row) => row in left
    case OnlyRight(row) => row in right
    case Pair(l, r) => l in left && r in right && CompareKeys(l, r, k).Equal?
  }

  lemma HeadTells(e: Event, left: seq<Row>, right: seq<Row>, k: nat)
    requires match e
             case OnlyLeft(row) => left != [] && row == left[0]
             case OnlyRight(row) => right != [] && row == right[0]
             case Pair(l, r) => left != [] && right != [] && l == left[0] && r == right[0] && CompareKeys(l, r, k).Equal?
    ensures EventTells(e, left, right, k)
  {
    hide CompareKeys;
  }

  lemma EventGrows(e: Event, left: seq<Row>, right: seq<Row>, left': seq<Row>, right': seq<Row>, k: nat)
    requires EventTells(e, left, right, k) && (forall x :: x in left ==> x in left') && (forall x :: x in right ==> x in right')
    ensures EventTells(e, left', right', k)
  {
  }

  lemma {:induction false} WalkTells(left: seq<Row>, right: seq<Row>, k: nat, e: Event)
    requires e in Walk(left, right, k)
    ensures EventTells(e, left, right, k)
    decreases |left| + |right|
  {
    hide EventTells, CompareKeys;
    var a, b := if left == [] then [] else left[1..], if right == [] then [] else right[1..];
    assert (forall x :: x in a ==> x in left) && (forall x :: x in b ==> x in right);
    if left == [] && right == [] {
    } else if right == [] || (left != [] && CompareKeys(left[0], right[0], k).Less?) {
      if e == OnlyLeft(left[0]) {
        HeadTells(e, left, right, k);
      } else {
        WalkTells(a, right, k, e);
        EventGrows(e, a, right, left, right, k);
      }
    } else if left == [] || CompareKeys(left[0], right[0], k).Greater? {
      if e == OnlyRight(right[0]) {
        HeadTells(e, left, right, k);
      } else {
        WalkTells(left, b, k, e);
        EventGrows(e, left, b, left, right, k);
      }
    } else {
      if e == Pair(left[0], right[0]) {
        HeadTells(e, left, right, k);
      } else {
        WalkTells(a, b, k, e);
        EventGrows(e, a, b, left, right, k);
      }
    }
  }

  lemma {:induction false} DiffRowsFrom(events: seq<Event>, k: nat, d: DiffRow)
    requires d in DiffRows(events, k)
    ensures exists e :: e in events && IsDiff(e) && d == RowOf(e, k)
    decreases |events|
  {
    hide IsDiff, RowOf;
    var n := |events| - 1;
    if d in DiffRows(events[..n], k) {
      DiffRowsFrom(events[..n], k, d);
      var e :| e in events[..n] && IsDiff(e) && d == RowOf(e, k);
      assert e in events;
    } else {
      assert IsDiff(events[n]) && d == RowOf(events[n], k);
    }
  }

  /** Every reported row holds rows of the two sides, its key, and a flag for each changed cell. */
  lemma RowsTell(left: seq<Row>, right: seq<Row>, k: nat, d: DiffRow)
    requires d in DiffRows(Walk(left, right, k), k)
    ensures RowTells(d, left, right, k)
  {
    hide Walk, DiffRows, KeyLabel, CompareKeys, NamesKey;
    DiffRowsFrom(Walk(left, right, k), k, d);
    var e :| e in Walk(left, right, k) && IsDiff(e) && d == RowOf(e, k);
    WalkTells(left, right, k, e);
    LabelNames(if e.OnlyRight? then e.row else if e.OnlyLeft? then e.row else e.left, k);
  }

  // ----- totals -----

  /** The keys of both tables whose rows differ. */
  function ChangedKeys(l: map<Value, Row>, r: map<Value, Row>): set<Value> {
    set v | v in l && v in r && l[v] != r[v]
  }

  function SameKeys(l: map<Value, Row>, r: map<Value, Row>): set<Value> {
    set v | v in l && v in r && l[v] == r[v]
  }

  /** The totals count keys: on the left only, on the right only, changed, unchanged. */
  ghost predicate Counts(s: Summary, l: map<Value, Row>, r: map<Value, Row>) {
    && s.removed == |l.Keys - r.Keys| && s.added == |r.Keys - l.Keys|
    && s.changed == |ChangedKeys(l, r)| && s.same == |SameKeys(l, r)|
  }

  lemma OneMore(a: set<Value>, v: Value)
    requires v !in a
    ensures |a + {v}| == |a| + 1
  {
  }

  lemma KeysLeft(l: map<Value, Row>, r: map<Value, Row>, v: Value, row: Row)
    requires v !in l && v !in r
    ensures l[v := row].Keys - r.Keys == (l.Keys - r.Keys) + {v}
    ensures r.Keys - l[v := row].Keys == r.Keys - l.Keys
  {
  }

  lemma KeysPair(l: map<Value, Row>, r: map<Value, Row>, v: Value, x: Row, y: Row)
    requires v !in l && v !in r
    ensures l[v := x].Keys - r[v := y].Keys == l.Keys - r.Keys
  {
  }

  lemma BothLeft(l: map<Value, Row>, r: map<Value, Row>, v: Value, row: Row)
    requires v !in l && v !in r
    ensures ChangedKeys(l[v := row], r) == ChangedKeys(l, r) && SameKeys(l[v := row], r) == SameKeys(l, r)
  {
  }

  lemma BothRight(l: map<Value, Row>, r: map<Value, Row>, v: Value, row: Row)
    requires v !in l && v !in r
    ensures ChangedKeys(l, r[v := row]) == ChangedKeys(l, r) && SameKeys(l, r[v := row]) == SameKeys(l, r)
  {
  }

  lemma BothChanged(l: map<Value, Row>, r: map<Value, Row>, v: Value, x: Row, y: Row)
    requires v !in l && v !in r
    ensures ChangedKeys(l[v := x], r[v := y]) == if x == y then ChangedKeys(l, r) else ChangedKeys(l, r) + {v}
  {
  }

  lemma BothSame(l: map<Value, Row>, r: map<Value, Row>, v: Value, x: Row, y: Row)
    requires v !in l && v !in r
    ensures SameKeys(l[v := x], r[v := y]) == if x == y then SameKeys(l, r) + {v} else SameKeys(l, r)
  {
  }

  lemma NewToBoth(l: map<Value, Row>, r: map<Value, Row>, v: Value)
    requires v !in l
    ensures v !in ChangedKeys(l, r) && v !in SameKeys(l, r) && v !in l.Keys - r.Keys
  {
  }

  lemma CountsLeft(s: Summary, l: map<Value, Row>, r: map<Value, Row>, v: Value, row: Row)
    requires Counts(s, l, r) && v !in l && v !in r
    ensures Counts(s.(removed := s.removed + 1), l[v := row], r)
  {
    hide ChangedKeys, SameKeys;
    KeysLeft(l, r, v, row);
    BothLeft(l, r, v, row);
    NewToBoth(l, r, v);
    OneMore(l.Keys - r.Keys, v);
  }

  lemma CountsRight(s: Summary, l: map<Value, Row>, r: map<Value, Row>, v: Value, row: Row)
    requires Counts(s, l, r) && v !in l && v !in r
    ensures Counts(s.(added := s.added + 1), l, r[v := row])
  {
    hide ChangedKeys, SameKeys;
    KeysLeft(r, l, v, row);
    BothRight(l, r, v, row);
    NewToBoth(r, l, v);
    OneMore(r.Keys - l.Keys, v);
  }

  lemma CountsPair(s: Summary, l: map<Value, Row>, r: map<Value, Row>, v: Value, x: Row, y: Row)
    requires Counts(s, l, r) && v !in l && v !in r
    ensures Counts(if x == y then s.(same := s.same + 1) else s.(changed := s.changed + 1), l[v := x], r[v := y])
  {
    hide ChangedKeys, SameKeys;
    KeysPair(l, r, v, x, y);
    KeysPair(r, l, v, y, x);
    BothChanged(l, r, v, x, y);
    BothSame(l, r, v, x, y);
    NewToBoth(l, r, v);
    OneMore(ChangedKeys(l, r), v);
    OneMore(SameKeys(l, r), v);
  }

  lemma DiffersNorm(l: Row, r: Row)
    requires |l| == |r|
    ensures Differs(l, r) <==> NormRow(l) != NormRow(r)
  {
    if !Differs(l, r) {
      SameRow(l, r);
    } else {
      ChangedExactly(l, r);
      var i :| 0 <= i < |l| && i < |r| && !SameCell(l[i], r[i]);
      assert NormRow(l)[i] != NormRow(r)[i];
    }
  }

  lemma TableStep(reals: bool, rows: seq<Row>, k: nat)
    requires Ascending(reals, rows, k) && rows != []
    ensures Ascending(reals, rows[1..], k)
    ensures Table(rows, k) == Table(rows[1..], k)[KeyOf(rows[0][k]) := NormRow(rows[0])]
    ensures KeyOf(rows[0][k]) !in Table(rows[1..], k)
  {
    hide KeyCmp, KeyOf, NormRow;
    HeadNotInTail(reals, rows, k);
  }

  lemma LeftCounts(reals: bool, left: seq<Row>, r: map<Value, Row>, k: nat, events: seq<Event>)
    requires Ascending(reals, left, k) && left != [] && KeyOf(left[0][k]) !in r
    requires Ascending(reals, left[1..], k) && Counts(Totals(events), Table(left[1..], k), r)
    ensures Counts(Totals([OnlyLeft(left[0])] + events), Table(left, k), r)
  {
    hide KeyCmp, Table, Counts, KeyOf, NormRow, Totals;
    TableStep(reals, left, k);
    TotalsCons(OnlyLeft(left[0]), events);
    CountsLeft(Totals(events), Table(left[1..], k), r, KeyOf(left[0][k]), NormRow(left[0]));
  }

  lemma RightCounts(reals: bool, l: map<Value, Row>, right: seq<Row>, k: nat, events: seq<Event>)
    requires Ascending(reals, right, k) && right != [] && KeyOf(right[0][k]) !in l
    requires Ascending(reals, right[1..], k) && Counts(Totals(events), l, Table(right[1..], k))
    ensures Counts(Totals([OnlyRight(right[0])] + events), l, Table(right, k))
  {
    hide KeyCmp, Table, Counts, KeyOf, NormRow, Totals;
    TableStep(reals, right, k);
    TotalsCons(OnlyRight(right[0]), events);
    CountsRight(Totals(events), l, Table(right[1..], k), KeyOf(right[0][k]), NormRow(right[0]));
  }

  lemma PairCounts(reals: bool, left: seq<Row>, right: seq<Row>, k: nat, events: seq<Event>)
    requires Ascending(reals, left, k) && left != [] && Ascending(reals, left[1..], k)
    requires Ascending(reals, right, k) && right != [] && Ascending(reals, right[1..], k)
    requires KeyOf(left[0][k]) == KeyOf(right[0][k]) && |left[0]| == |right[0]|
    requires Counts(Totals(events), Table(left[1..], k), Table(right[1..], k))
    ensures Counts(Totals([Pair(left[0], right[0])] + events), Table(left, k), Table(right, k))
  {
    hide KeyCmp, Table, Counts, KeyOf, NormRow, Totals, Differs;
    TableStep(reals, left, k);
    TableStep(reals, right, k);
    DiffersNorm(left[0], right[0]);
    TotalsCons(Pair(left[0], right[0]), events);
    CountsPair(Totals(events), Table(left[1..], k), Table(right[1..], k), KeyOf(left[0][k]), NormRow(left[0]), NormRow(right[0]));
  }

  lemma AscendingTail(reals: bool, rows: seq<Row>, k: nat)
    requires Ascending(reals, rows, k) && rows != []
    ensures Ascending(reals, rows[1..], k)
  {
    hide KeyCmp;
  }

  lemma NothingCounts(k: nat)
    ensures Counts(Totals(Walk([], [], k)), Table([], k), Table([], k))
  {
    assert ChangedKeys(map[], map[]) == {} && SameKeys(map[], map[]) == {};
  }

  lemma {:induction false} WalkCounts(reals: bool, left: seq<Row>, right: seq<Row>, k: nat, w: nat)
    requires Ascending(reals, left, k) && Ascending(reals, right, k) && Widths(left, w) && Widths(right, w)
    ensures Counts(Totals(Walk(left, right, k)), Table(left, k), Table(right, k))
    decreases |left| + |right|
  {
    hide KeyCmp, Table, Widths, Counts, KeyOf, Totals;
    if left == [] && right == [] {
      NothingCounts(k);
    } else if right == [] || (left != [] && CompareKeys(left[0], right[0], k).Less?) {
      AscendingTail(reals, left, k);
      WidthsTail(left, w);
      WalkCounts(reals, left[1..], right, k, w);
      NotInTable(reals, right, k, left[0][k]);
      LeftCounts(reals, left, Table(right, k), k, Walk(left[1..], right, k));
    } else if left == [] || CompareKeys(left[0], right[0], k).Greater? {
      AscendingTail(reals, right, k);
      WidthsTail(right, w);
      WalkCounts(reals, left, right[1..], k, w);
      if left != [] {
        KeyOrder(reals, right[0][k], left[0][k], right[0][k]);
      }
      NotInTable(reals, left, k, right[0][k]);
      RightCounts(reals, Table(left, k), right, k, Walk(left, right[1..], k));
    } else {
      AscendingTail(reals, left, k);
      AscendingTail(reals, right, k);
      WidthsTail(left, w);
      WidthsTail(right, w);
      KeyOrder(reals, left[0][k], right[0][k], right[0][k]);
      WalkCounts(reals, left[1..], right[1..], k, w);
      PairCounts(reals, left, right, k, Walk(left[1..], right[1..], k));
    }
  }

  /** With unique keys and equal widths, the totals are those of the two tables as maps. */
  lemma TotalsExactly(reals: bool, left: seq<Row>, right: seq<Row>, k: nat, w: nat)
    requires SortedUnique(reals, left, k) && SortedUnique(reals, right, k) && Widths(left, w) && Widths(right, w)
    ensures Counts(Totals(Walk(left, right, k)), Table(left, k), Table(right, k))
  {
    hide Walk, Totals, Table, Counts, Widths, KeyBefore, KeyCmp;
    SortedAscends(reals, left, k);
    SortedAscends(reals, right, k);
    WalkCounts(reals, left, right, k, w);
  }
}
