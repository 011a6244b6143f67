/**
 * The streaming table diff of crates/red-core/src/diff.rs: one walk over two
 * key-ordered row streams.
 */
module TableDiff {
  import opened Bytes
  import opened Wrappers
  import opened Values
  import opened ValueFmt

  type Row = seq<Value>

  datatype Ordering = Less | Equal | Greater

  datatype Kind = Added | Removed | Changed

  datatype DiffRow = DiffRow(kind: Kind, key: Text, left: Row, right: Row, changed: seq<bool>)

  datatype Summary = Summary(added: nat, removed: nat, changed: nat, same: nat)

  datatype Advance = Left | Right | Both | Finished

  // ----- keys -----

  function CompareInt(x: int, y: int): Ordering {
    if x < y then Less else if x == y then Equal else Greater
  }

  /** Byte order, as `str::cmp`. */
  function CompareText(x: Text, y: Text): Ordering {
    if x == [] then (if y == [] then Equal else Less)
    else if y == [] then Greater
    else if x[0] != y[0] then (if x[0] < y[0] then Less else Greater)
    else CompareText(x[1..], y[1..])
  }

  /** `i64 as f64`: the nearest multiple of `gap`, ties to the even one. */
  function RoundToGap(n: nat, gap: nat): int
    requires gap > 0
  {
    var q, rem := n / gap, n % gap;
    if 2 * rem < gap || (2 * rem == gap && q % 2 == 0) then q * gap else (q + 1) * gap
  }

  function FloatGap(n: nat, gap: nat): (g: nat)
    requires gap > 0
    ensures g > 0
    decreases if n >= gap * 0x20_0000_0000_0000 then n - gap * 0x20_0000_0000_0000 + 1 else 0
  {
    if n >= gap * 0x20_0000_0000_0000 then FloatGap(n, 2 * gap) else gap
  }

  function AsFloat(n: int): Float {
    var m := if n < 0 then -n else n;
    var r := RoundToGap(m, FloatGap(m, 1));
    Finite((if n < 0 then -r else r) as real, Decimal(n))
  }

  /** A double as a point of an ordered line: NaN after everything, infinities at the ends. */
  function FloatRank(x: Float): int {
    match x
    case Infinite(negative) => if negative then 0 else 2
    case Finite(_, _) => 1
    case NaN => 3
  }

  function CompareFloat(x: Float, y: Float): Ordering {
    if x.Finite? && y.Finite? then
      if x.value < y.value then Less else if x.value == y.value then Equal else Greater
    else CompareInt(FloatRank(x), FloatRank(y))
  }

  function KeyRank(v: Value): nat {
    match v
    case Null => 0
    case Integer(_) => 1
    case Real(_) => 1
    case Str(_) => 2
    case Blob(_) => 3
    case Capped(_) => 4
  }

  function KeyCmp(a: Value, b: Value): Ordering {
    match (a, b)
    case (Integer(x), Integer(y)) => CompareInt(x, y)
    case (Real(x), Real(y)) => CompareFloat(x, y)
    case (Integer(x), Real(y)) => CompareFloat(AsFloat(x), y)
    case (Real(x), Integer(y)) => CompareFloat(x, AsFloat(y))
    case (Str(x), Str(y)) => CompareText(x, y)
    case (Null, Null) => Equal
    case _ => CompareInt(KeyRank(a), KeyRank(b))
  }

  function CompareKeys(left: Row, right: Row, k: nat): Ordering {
    if k < |left| then
      if k < |right| then KeyCmp(left[k], right[k]) else Greater
    else if k < |right| then Less else Equal
  }

  /** `f64 ==` on the cells, NaN equal to NaN. */
  predicate CellEq(l: Value, r: Value) {
    match (l, r)
    case (Real(Finite(x, _)), Real(Finite(y, _))) => x == y
    case _ => l == r
  }

  function RenderKey(v: Value): Text {
    match v
    case Null => Ascii("NULL")
    case Integer(n) => Decimal(n)
    case Real(NaN) => Ascii("NaN")
    case Real(Infinite(negative)) => if negative then Ascii("-inf") else Ascii("inf")
    case Real(Finite(_, display)) => display
    case Str(s) => s
    case Blob(bytes) => ByteMarker(|bytes|)
    case Capped(_) => Ascii("<capped>")
  }

  function KeyLabel(row: Row, k: nat): Text {
    if k < |row| then RenderKey(row[k]) else []
  }

  // ----- what a walk finds -----

  /** One step's finding: a row on one side only, or a pair of rows with equal keys. */
  datatype Event = OnlyLeft(row: Row) | OnlyRight(row: Row) | Pair(left: Row, right: Row)

  function Min(x: nat, y: nat): nat {
    if x <= y then x else y
  }

  /** The changed mask of a pair: one flag per compared cell. */
  function Mask(left: Row, right: Row): (m: seq<bool>)
    ensures |m| == Min(|left|, |right|)
    ensures forall i :: 0 <= i < |m| ==> m[i] == !CellEq(left[i], right[i])
  {
    seq(Min(|left|, |right|), i requires 0 <= i < Min(|left|, |right|) => !CellEq(left[i], right[i]))
  }

  predicate Differs(left: Row, right: Row) {
    true in Mask(left, right)
  }

  predicate IsDiff(e: Event) {
    e.Pair? ==> Differs(e.left, e.right)
  }

  function RowOf(e: Event, k: nat): DiffRow {
    match e
    case OnlyLeft(row) => DiffRow(Removed, KeyLabel(row, k), row, [], [])
    case OnlyRight(row) => DiffRow(Added, KeyLabel(row, k), [], row, [])
    case Pair(left, right) => DiffRow(Changed, KeyLabel(left, k), left, right, Mask(left, right))
  }

  function AddTo(s: Summary, e: Event): Summary {
    match e
    case OnlyLeft(_) => s.(removed := s.removed + 1)
    case OnlyRight(_) => s.(added := s.added + 1)
    case Pair(left, right) => if Differs(left, right) then s.(changed := s.changed + 1) else s.(same := s.same + 1)
  }

  /** The merge walk: what it finds between `left` and `right`, in order. */
  function Walk(left: seq<Row>, right: seq<Row>, k: nat): (r: seq<Event>)
    decreases |left| + |right|
  {
    if left == [] && right == [] then []
    else if right == [] then [OnlyLeft(left[0])] + Walk(left[1..], right, k)
    else if left == [] then [OnlyRight(right[0])] + Walk(left, right[1..], k)
    else
      match CompareKeys(left[0], right[0], k)
      case Less => [OnlyLeft(left[0])] + Walk(left[1..], right, k)
      case Greater => [OnlyRight(right[0])] + Walk(left, right[1..], k)
      case Equal => [Pair(left[0], right[0])] + Walk(left[1..], right[1..], k)
  }

  /** All the differences of a walk, none dropped. */
  function DiffRows(events: seq<Event>, k: nat): seq<DiffRow> {
    if events == [] then []
    else
      var last := events[|events| - 1];
      DiffRows(events[..|events| - 1], k) + (if IsDiff(last) then [RowOf(last, k)] else [])
  }

  function Totals(events: seq<Event>): Summary {
    if events == [] then Summary(0, 0, 0, 0) else AddTo(Totals(events[..|events| - 1]), events[|events| - 1])
  }

  // ----- the accumulator -----

  class DiffAccumulator {
    const keyIndex: nat
    const cap: nat
    var summary: Summary
    var rows: seq<DiffRow>
    var truncated: bool

    constructor (keyIndex: nat, cap: nat)
      ensures this.keyIndex == keyIndex && this.cap == cap
      ensures Holds([])
    {
      this.keyIndex := keyIndex;
      this.cap := cap;
      summary := Summary(0, 0, 0, 0);
      rows := [];
      truncated := false;
    }

    /**
     * The accumulator has seen exactly `events`: it counts all of them, stores the
     * first `cap` differences, and knows whether it dropped one.
     */
    ghost predicate Holds(events: seq<Event>)
      reads this
    {
      && summary == Totals(events)
      && rows == DiffRows(events, keyIndex)[..Min(cap, |DiffRows(events, keyIndex)|)]
      && (truncated <==> |DiffRows(events, keyIndex)| > cap)
    }

    /** `store` together with the count of its caller: one more event. */
    method Record(e: Event, ghost seen: seq<Event>)
      requires Holds(seen)
      modifies this
      ensures Holds(seen + [e])
    {
      ghost var all := seen + [e];
      assert all[..|seen|] == seen && all[|seen|] == e;
      summary := AddTo(summary, e);
      if IsDiff(e) {
        if |rows| < cap {
          rows := rows + [RowOf(e, keyIndex)];
        } else {
          truncated := true;
        }
      }
    }

    /** Classify the two heads, and say which side to advance. */
    method Step(left: Option<Row>, right: Option<Row>, ghost seen: seq<Event>) returns (advance: Advance, ghost now: seq<Event>)
      requires Holds(seen)
      modifies this
      ensures Holds(now)
      ensures advance == StepAdvance(left, right, keyIndex)
      ensures now == seen + StepEvents(left, right, keyIndex)
    {
      now := seen;
      if left.None? && right.None? {
        return Finished, now;
      }
      if right.None? || (left.Some? && CompareKeys(left.value, right.value, keyIndex) == Less) {
        Record(OnlyLeft(left.value), seen);
        return Left, seen + [OnlyLeft(left.value)];
      }
      if left.None? || CompareKeys(left.value, right.value, keyIndex) == Greater {
        Record(OnlyRight(right.value), seen);
        return Right, seen + [OnlyRight(right.value)];
      }
      Record(Pair(left.value, right.value), seen);
      return Both, seen + [Pair(left.value, right.value)];
    }
  }

  function StepAdvance(left: Option<Row>, right: Option<Row>, k: nat): Advance {
    match (left, right)
    case (None, None) => Finished
    case (Some(_), None) => Left
    case (None, Some(_)) => Right
    case (Some(l), Some(r)) =>
      match CompareKeys(l, r, k) case Less => Left case Greater => Right case Equal => Both
  }

  function StepEvents(left: Option<Row>, right: Option<Row>, k: nat): seq<Event> {
    match (left, right)
    case (None, None) => []
    case (Some(l), None) => [OnlyLeft(l)]
    case (None, Some(r)) => [OnlyRight(r)]
    case (Some(l), Some(r)) =>
      match CompareKeys(l, r, k) case Less => [OnlyLeft(l)] case Greater => [OnlyRight(r)] case Equal => [Pair(l, r)]
  }

  function HeadAt(rows: seq<Row>, i: nat): Option<Row> {
    if i < |rows| then Some(rows[i]) else None
  }

  lemma WalkStep(left: seq<Row>, right: seq<Row>, i: nat, j: nat, k: nat)
    requires i <= |left| && j <= |right|
    ensures var l, r := HeadAt(left, i), HeadAt(right, j);
            var a := StepAdvance(l, r, k);
            && (a.Left? || a.Both? ==> i < |left|) && (a.Right? || a.Both? ==> j < |right|)
            && (a.Finished? <==> i == |left| && j == |right|)
            && Walk(left[i..], right[j..], k) ==
               StepEvents(l, r, k) + (if a.Finished? then []
                                      else Walk(left[if a.Right? then i else i + 1..], right[if a.Left? then j else j + 1..], k))
  {
    if i < |left| {
      assert left[i..][0] == left[i] && left[i..][1..] == left[i + 1..];
    }
    if j < |right| {
      assert right[j..][0] == right[j] && right[j..][1..] == right[j + 1..];
    }
  }

  method DiffSorted(left: seq<Row>, right: seq<Row>, keyIndex: nat, cap: nat) returns (acc: DiffAccumulator)
    ensures fresh(acc) && acc.keyIndex == keyIndex && acc.cap == cap
    ensures acc.Holds(Walk(left, right, keyIndex))
  {
    hide Walk, StepEvents, CompareKeys, Totals, DiffRows, StepAdvance, DiffAccumulator.Holds;
    acc := new DiffAccumulator(keyIndex, cap);
    var i, j := 0, 0;
    ghost var seen: seq<Event> := [];
    ghost var all := Walk(left, right, keyIndex);
    assert left[0..] == left && right[0..] == right;
    while true
      invariant i <= |left| && j <= |right|
      invariant fresh(acc) && acc.keyIndex == keyIndex && acc.cap == cap && acc.Holds(seen)
      invariant all == seen + Walk(left[i..], right[j..], keyIndex)
      decreases |left| - i + |right| - j
    {
      var l, r := HeadAt(left, i), HeadAt(right, j);
      WalkStep(left, right, i, j, keyIndex);
      var advance;
      advance, seen := acc.Step(l, r, seen);
      match advance {
        case Finished =>
          assert seen == all;
          break;
        case Left => i := i + 1;
        case Right => j := j + 1;
        case Both => i, j := i + 1, j + 1;
      }
    }
  }

  // ----- conservation -----

  function Lefts(events: seq<Event>): seq<Row> {
    if events == [] then []
    else (match events[0] case OnlyLeft(row) => [row] case Pair(l, _) => [l] case OnlyRight(_) => []) + Lefts(events[1..])
  }

  function Rights(events: seq<Event>): seq<Row> {
    if events == [] then []
    else (match events[0] case OnlyRight(row) => [row] case Pair(_, r) => [r] case OnlyLeft(_) => []) + Rights(events[1..])
  }

  /** On any input, sorted or not, the walk reports every row of each side once, in order. */
  lemma {:induction false} WalkConserves(left: seq<Row>, right: seq<Row>, k: nat)
    ensures Lefts(Walk(left, right, k)) == left
    ensures Rights(Walk(left, right, k)) == right
    decreases |left| + |right|
  {
    hide CompareKeys;
    if left == [] && right == [] {
    } else if right == [] || (left != [] && CompareKeys(left[0], right[0], k).Less?) {
      WalkConserves(left[1..], right, k);
      assert Walk(left, right, k)[1..] == Walk(left[1..], right, k);
    } else if left == [] || CompareKeys(left[0], right[0], k).Greater? {
      WalkConserves(left, right[1..], k);
      assert Walk(left, right, k)[1..] == Walk(left, right[1..], k);
    } else {
      WalkConserves(left[1..], right[1..], k);
      assert Walk(left, right, k)[1..] == Walk(left[1..], right[1..], k);
    }
  }

  lemma {:induction false} TotalsCons(e: Event, events: seq<Event>)
    ensures Totals([e] + events) == (var s := Totals(events); var one := AddTo(Summary(0, 0, 0, 0), e);
            Summary(s.added + one.added, s.removed + one.removed, s.changed + one.changed, s.same + one.same))
    decreases |events|
  {
    hide Differs;
    var all := [e] + events;
    if events == [] {
      assert all[..0] == [] && all[0] == e;
    } else {
      var n := |events| - 1;
      TotalsCons(e, events[..n]);
      assert all[..|all| - 1] == [e] + events[..n];
      assert all[|all| - 1] == events[n];
    }
  }

  lemma {:induction false} TotalsCount(events: seq<Event>)
    ensures var s := Totals(events);
            && s.removed + s.changed + s.same == |Lefts(events)|
            && s.added + s.changed + s.same == |Rights(events)|
  {
    hide Differs;
    if events != [] {
      TotalsCount(events[1..]);
      TotalsCons(events[0], events[1..]);
      assert events == [events[0]] + events[1..];
    }
  }

  /** The totals account for every row of both sides, whatever the rows hold. */
  lemma TotalsCoverBothSides(left: seq<Row>, right: seq<Row>, k: nat)
    ensures var s := Totals(Walk(left, right, k));
            s.removed + s.changed + s.same == |left| && s.added + s.changed + s.same == |right|
  {
    hide Walk, Totals;
    WalkConserves(left, right, k);
    TotalsCount(Walk(left, right, k));
  }

  // ----- the key order -----

  lemma {:induction false} CompareTextLaws(x: Text, y: Text, z: Text)
    ensures CompareText(x, y).Equal? <==> x == y
    ensures CompareText(x, y).Less? <==> CompareText(y, x).Greater?
    ensures CompareText(x, y).Less? && CompareText(y, z).Less? ==> CompareText(x, z).Less?
    decreases |x|
  {
    if x != [] && y != [] {
      if x[0] == y[0] {
        CompareTextLaws(x[1..], y[1..], if z == [] then [] else z[1..]);
        assert x == [x[0]] + x[1..] && y == [y[0]] + y[1..];
      }
    }
  }

  // ----- the order itself -----

  /** `x` is a proper prefix of `y`, or smaller at the first byte in which they differ. */
  ghost predicate TextBefore(x: Text, y: Text) {
    exists n :: 0 <= n <= |x| && DifferAt(x, y, n)
  }

  /** Equal up to `n`, where `x` has ended or has the smaller byte. */
  predicate DifferAt(x: Text, y: Text, n: nat)
    requires n <= |x|
  {
    n < |y| && x[..n] == y[..n] && (n < |x| ==> x[n] < y[n])
  }

  /** By value, between the infinities; NaN comes after all. */
  predicate FloatBefore(x: Float, y: Float) {
    match (x, y)
    case (NaN, _) => false
    case (_, NaN) => true
    case (Infinite(s), Infinite(t)) => s && !t
    case (Infinite(s), Finite(_, _)) => s
    case (Finite(_, _), Infinite(t)) => !t
    case (Finite(u, _), Finite(v, _)) => u < v
  }

  /** NULL, then numbers by value, then text, then blobs, then capped cells. */
  ghost predicate KeyBefore(a: Value, b: Value) {
    match (a, b)
    case (_, Null) => false
    case (Null, _) => true
    case (Integer(m), Integer(n)) => m < n
    case (Integer(m), Real(y)) => FloatBefore(Finite(m as real, []), y)
    case (Real(x), Integer(n)) => FloatBefore(x, Finite(n as real, []))
    case (Real(x), Real(y)) => FloatBefore(x, y)
    case (Str(x), Str(y)) => TextBefore(x, y)
    case (Str(_), _) => b.Blob? || b.Capped?
    case (Blob(_), _) => b.Capped?
    case (Capped(_), _) => false
    case (_, _) => true
  }

  lemma {:induction false} TextOrderExactly(x: Text, y: Text)
    ensures CompareText(x, y).Less? <==> TextBefore(x, y)
    ensures CompareText(x, y).Equal? <==> x == y
    ensures CompareText(x, y).Greater? <==> TextBefore(y, x)
    decreases |x|
  {
    if x == [] || y == [] || x[0] != y[0] {
      assert TextBefore(x, y) ==> !TextBefore(y, x);
      if x == [] && y != [] {
        assert DifferAt(x, y, 0);
      } else if y == [] && x != [] {
        assert DifferAt(y, x, 0);
      } else if x != [] && y != [] {
        assert if x[0] < y[0] then DifferAt(x, y, 0) else DifferAt(y, x, 0);
      }
    } else {
      TextOrderExactly(x[1..], y[1..]);
      TextBeforeTail(x, y);
      TextBeforeTail(y, x);
      assert x == [x[0]] + x[1..] && y == [y[0]] + y[1..];
    }
  }

  lemma TextBeforeTail(x: Text, y: Text)
    requires x != [] && y != [] && x[0] == y[0]
    ensures TextBefore(x, y) <==> TextBefore(x[1..], y[1..])
  {
    if TextBefore(x, y) {
      var n :| 0 <= n <= |x| && DifferAt(x, y, n);
      assert n > 0;
      assert x[1..][..n - 1] == x[..n][1..] && y[1..][..n - 1] == y[..n][1..];
      assert DifferAt(x[1..], y[1..], n - 1);
    }
    if TextBefore(x[1..], y[1..]) {
      var n :| 0 <= n <= |x[1..]| && DifferAt(x[1..], y[1..], n);
      assert x[..n + 1] == [x[0]] + x[1..][..n] && y[..n + 1] == [y[0]] + y[1..][..n];
      assert DifferAt(x, y, n + 1);
    }
  }

  // ----- integers beside doubles -----

  /** The integers up to here, and no further, are all doubles. */
  const EXACT: nat := 0x20_0000_0000_0000

  /** Any key but an integer beyond the bound. */
  predicate Within(v: Value, bound: nat) {
    v.Integer? ==> -(bound as int) <= v.n <= bound
  }

  predicate AtMost(a: Value, b: Value) {
    !KeyCmp(a, b).Greater?
  }

  lemma AsFloatExact(n: int)
    requires -(EXACT as int) <= n <= EXACT
    ensures AsFloat(n).Finite? && AsFloat(n).value == n as real
  {
    hide Decimal;
    var m := if n < 0 then -n else n;
    if m == EXACT {
      assert FloatGap(m, 1) == FloatGap(m, 2) == 2;
    } else {
      assert FloatGap(m, 1) == 1;
    }
  }

  /** A number as a double. */
  function ToFloat(v: Value): Float
    requires v.Integer? || v.Real?
  {
    if v.Integer? then AsFloat(v.n) else v.x
  }

  /** Within the bound, all numbers compare as doubles. */
  lemma NumbersCompare(a: Value, b: Value)
    requires (a.Integer? || a.Real?) && (b.Integer? || b.Real?) && Within(a, EXACT) && Within(b, EXACT)
    ensures KeyCmp(a, b) == CompareFloat(ToFloat(a), ToFloat(b))
  {
    hide AsFloat;
    if a.Integer? {
      AsFloatExact(a.n);
    }
    if b.Integer? {
      AsFloatExact(b.n);
    }
  }

  predicate IsNumeric(v: Value) {
    v.Integer? || v.Real?
  }

  lemma FloatsTransitive(x: Float, y: Float, z: Float)
    ensures !CompareFloat(x, y).Greater? && !CompareFloat(y, z).Greater? ==> !CompareFloat(x, z).Greater?
    ensures CompareFloat(x, y).Less? <==> CompareFloat(y, x).Greater?
  {
  }

  /** Over every kind of key, with integers within the bound, `key_cmp` is a total preorder. */
  lemma KeysTransitive(a: Value, b: Value, c: Value)
    requires Within(a, EXACT) && Within(b, EXACT) && Within(c, EXACT)
    ensures AtMost(a, b) && AtMost(b, c) ==> AtMost(a, c)
    ensures KeyCmp(a, b).Less? <==> KeyCmp(b, a).Greater?
  {
    hide AsFloat, CompareFloat, CompareText;
    if IsNumeric(a) && IsNumeric(b) {
      NumbersCompare(a, b);
      NumbersCompare(b, a);
      FloatsTransitive(ToFloat(a), ToFloat(b), if IsNumeric(c) then ToFloat(c) else ToFloat(a));
      if IsNumeric(c) {
        NumbersCompare(b, c);
        NumbersCompare(a, c);
      }
    }
    if a.Str? && b.Str? {
      CompareTextLaws(a.s, b.s, if c.Str? then c.s else []);
      if c.Str? {
        CompareTextLaws(b.s, c.s, []);
      }
    }
  }

  /**
   * What `key_cmp` decides, for every two keys but a double beside an integer beyond the bound:
   * which of them comes first in the order of the drivers.
   */
  lemma KeyCmpExactly(a: Value, b: Value)
    requires (a.Real? ==> Within(b, EXACT)) && (b.Real? ==> Within(a, EXACT))
    ensures KeyCmp(a, b).Less? <==> KeyBefore(a, b)
    ensures KeyCmp(a, b).Greater? <==> KeyBefore(b, a)
  {
    hide AsFloat, CompareText, TextBefore;
    if a.Integer? && Within(a, EXACT) {
      AsFloatExact(a.n);
    }
    if b.Integer? && Within(b, EXACT) {
      AsFloatExact(b.n);
    }
    if a.Str? && b.Str? {
      TextOrderExactly(a.s, b.s);
    }
  }

  /** The next integer ties with a double that ties with a smaller integer. */
  lemma MixedNumbersBreakTransitivity()
    ensures var a, b, c := Integer(EXACT + 1), Real(Finite(EXACT as real, [])), Integer(EXACT);
            AtMost(a, b) && AtMost(b, c) && !AtMost(a, c)
  {
    hide Decimal;
    assert FloatGap(EXACT, 1) == FloatGap(EXACT, 2) == 2;
    assert FloatGap(EXACT + 1, 1) == FloatGap(EXACT + 1, 2) == 2;
  }

  /** `key_cmp` is transitive on all keys whose integers stay within a bound exactly when the bound is at most 2^53. */
  lemma TransitiveExactly(bound: nat)
    ensures (forall a, b, c :: Within(a, bound) && Within(b, bound) && Within(c, bound) && AtMost(a, b) && AtMost(b, c) ==> AtMost(a, c))
            <==> bound <= EXACT
  {
    hide AtMost;
    if bound <= EXACT {
      forall a, b, c | Within(a, bound) && Within(b, bound) && Within(c, bound) && AtMost(a, b) && AtMost(b, c) ensures AtMost(a, c) {
        KeysTransitive(a, b, c);
      }
    } else {
      MixedNumbersBreakTransitivity();
      assert Within(Integer(EXACT + 1), bound) && Within(Integer(EXACT), bound);
    }
  }

  // ----- which keys tie -----

  /** A key up to ties: every finite number as the real it is. */
  function KeyOf(v: Value): Value {
    match v
    case Integer(n) => Real(Finite(n as real, []))
    case Real(Finite(x, _)) => Real(Finite(x, []))
    case _ => v
  }

  /** Blobs and capped cells, which are compared by their kind alone. */
  predicate Unread(v: Value) {
    v.Blob? || v.Capped?
  }

  /** Within the bound, keys tie exactly when they are the same key, both blobs, or both capped. */
  lemma KeysTieExactly(a: Value, b: Value)
    requires Within(a, EXACT) && Within(b, EXACT)
    ensures KeyCmp(a, b).Equal? <==> KeyOf(a) == KeyOf(b) || (a.Blob? && b.Blob?) || (a.Capped? && b.Capped?)
  {
    hide AsFloat, CompareText;
    if IsNumeric(a) && IsNumeric(b) {
      NumbersCompare(a, b);
      if a.Integer? {
        AsFloatExact(a.n);
      }
      if b.Integer? {
        AsFloatExact(b.n);
      }
    }
    if a.Str? && b.Str? {
      CompareTextLaws(a.s, b.s, []);
    }
  }

  /** Two rows with different blob keys are paired: one changed row instead of one removed and one added. */
  lemma BlobKeysPair(l: Row, r: Row, k: nat)
    requires k < |l| && k < |r| && l[k].Blob? && r[k].Blob? && l[k] != r[k]
    ensures Walk([l], [r], k) == [Pair(l, r)] && Differs(l, r)
  {
    assert [l][1..] == [] && [r][1..] == [];
    assert Walk([], [], k) == [];
    assert Mask(l, r)[k];
  }

  // ----- the classes on which it is one -----

  /** Null, text, and either any integers or doubles beside integers within the bound. */
  predicate Orderable(reals: bool, v: Value) {
    v.Null? || v.Str? || (v.Integer? && (reals ==> Within(v, EXACT))) || (v.Real? && reals)
  }

  /** On each class `key_cmp` is a total order whose only ties are equal keys. */
  lemma KeyOrder(reals: bool, a: Value, b: Value, c: Value)
    requires Orderable(reals, a) && Orderable(reals, b) && Orderable(reals, c)
    ensures KeyCmp(a, b).Equal? <==> KeyOf(a) == KeyOf(b)
    ensures KeyCmp(a, b).Less? <==> KeyCmp(b, a).Greater?
    ensures KeyCmp(a, b).Less? && !KeyCmp(b, c).Greater? ==> KeyCmp(a, c).Less?
  {
    if reals {
      RealKeyOrder(a, b, c);
    } else {
      hide CompareText;
      if a.Str? && b.Str? {
        CompareTextLaws(a.s, b.s, if c.Str? then c.s else []);
        if c.Str? {
          CompareTextLaws(b.s, c.s, []);
        }
      }
    }
  }

  lemma RealKeyOrder(a: Value, b: Value, c: Value)
    requires Orderable(true, a) && Orderable(true, b) && Orderable(true, c)
    ensures KeyCmp(a, b).Equal? <==> KeyOf(a) == KeyOf(b)
    ensures KeyCmp(a, b).Less? <==> KeyCmp(b, a).Greater?
    ensures KeyCmp(a, b).Less? && !KeyCmp(b, c).Greater? ==> KeyCmp(a, c).Less?
  {
    hide KeyCmp, KeyOf;
    KeysTieExactly(a, b);
    KeysTransitive(a, b, c);
    KeysTransitive(b, c, a);
    KeysTransitive(c, a, b);
    KeysTransitive(a, c, b);
    KeysTieExactly(a, c);
    KeysTieExactly(b, c);
  }

  // ----- when it is a total order -----

  /** A class of keys: integers up to a bound, doubles or not, blobs and capped cells or not. */
  datatype Class = Class(bound: nat, reals: bool, unread: bool)

  predicate InClass(v: Value, c: Class) {
    Within(v, c.bound) && (v.Real? ==> c.reals) && (Unread(v) ==> c.unread)
  }

  ghost predicate ChainsOn(c: Class) {
    forall x, y, z :: InClass(x, c) && InClass(y, c) && InClass(z, c) && AtMost(x, y) && AtMost(y, z) ==> AtMost(x, z)
  }

  ghost predicate TiesAreEqualOn(c: Class) {
    forall x, y :: InClass(x, c) && InClass(y, c) && KeyCmp(x, y).Equal? ==> KeyOf(x) == KeyOf(y)
  }

  lemma SafeClass(c: Class)
    requires (c.reals ==> c.bound <= EXACT) && !c.unread
    ensures ChainsOn(c) && TiesAreEqualOn(c)
  {
    hide KeyCmp, KeyOf;
    forall v | InClass(v, c) ensures Orderable(c.reals, v) {
    }
    forall x, y, z | InClass(x, c) && InClass(y, c) && InClass(z, c) && AtMost(x, y) && AtMost(y, z) ensures AtMost(x, z) {
      KeyOrder(c.reals, x, y, z);
      KeyOrder(c.reals, z, x, y);
      KeyOrder(c.reals, x, z, y);
      KeyOrder(c.reals, y, z, x);
    }
    forall x, y | InClass(x, c) && InClass(y, c) && KeyCmp(x, y).Equal? ensures KeyOf(x) == KeyOf(y) {
      KeyOrder(c.reals, x, y, x);
    }
  }

  /**
   * On a class of keys `key_cmp` is a total order - comparisons chain, and only equal keys
   * tie - exactly when it holds no blobs and no capped cells and, if it holds doubles, no
   * integers beyond 2^53.
   */
  lemma TotalOrderExactly(c: Class)
    ensures ChainsOn(c) && TiesAreEqualOn(c) <==> (c.reals ==> c.bound <= EXACT) && !c.unread
  {
    if c.reals && c.bound > EXACT {
      MixedNumbersBreakTransitivity();
      assert InClass(Integer(EXACT + 1), c) && InClass(Integer(EXACT), c) && InClass(Real(Finite(EXACT as real, [])), c);
    } else if c.unread {
      assert KeyCmp(Blob([0]), Blob([1])).Equal?;
      assert InClass(Blob([0]), c) && InClass(Blob([1]), c);
    } else {
      SafeClass(c);
    }
  }

  // ----- sorted sides -----

  /** Every row has a key of the class, and no key comes before an earlier one. */
  ghost predicate Sorted(reals: bool, rows: seq<Row>, k: nat) {
    && (forall i :: 0 <= i < |rows| ==> k < |rows[i]| && Orderable(reals, rows[i][k]))
    && (forall i, j :: 0 <= i < j < |rows| ==> !KeyBefore(rows[j][k], rows[i][k]))
  }

  /** The same, as the walk compares the keys. */
  ghost predicate InOrder(reals: bool, rows: seq<Row>, k: nat) {
    && (forall i :: 0 <= i < |rows| ==> k < |rows[i]| && Orderable(reals, rows[i][k]))
    && (forall i, j :: 0 <= i < j < |rows| ==> !KeyCmp(rows[i][k], rows[j][k]).Greater?)
  }

  lemma SortedInOrder(reals: bool, rows: seq<Row>, k: nat)
    requires Sorted(reals, rows, k)
    ensures InOrder(reals, rows, k)
  {
    hide KeyCmp, KeyBefore;
    forall i, j | 0 <= i < j < |rows| ensures !KeyCmp(rows[i][k], rows[j][k]).Greater? {
      KeyCmpExactly(rows[i][k], rows[j][k]);
    }
  }

  function CountKey(rows: seq<Row>, k: nat, v: Value): nat {
    if rows == [] then 0
    else (if k < |rows[0]| && KeyOf(rows[0][k]) == KeyOf(v) then 1 else 0) + CountKey(rows[1..], k, v)
  }

  function CountPairs(events: seq<Event>, k: nat, v: Value): nat {
    if events == [] then 0
    else (if events[0].Pair? && k < |events[0].left| && KeyOf(events[0].left[k]) == KeyOf(v) then 1 else 0) + CountPairs(events[1..], k, v)
  }

  function CountOnly(events: seq<Event>, onLeft: bool, k: nat, v: Value): nat {
    if events == [] then 0
    else
      var e := events[0];
      (if (if onLeft then e.OnlyLeft? else e.OnlyRight?) && k < |e.row| && KeyOf(e.row[k]) == KeyOf(v) then 1 else 0)
        + CountOnly(events[1..], onLeft, k, v)
  }

  lemma InOrderTail(reals: bool, rows: seq<Row>, k: nat)
    requires InOrder(reals, rows, k) && rows != []
    ensures InOrder(reals, rows[1..], k)
  {
  }

  /** A key before the head of a sorted side does not occur on it. */
  lemma {:induction false} AbsentBefore(reals: bool, rows: seq<Row>, k: nat, v: Value)
    requires InOrder(reals, rows, k) && Orderable(reals, v) && (rows != [] ==> KeyCmp(v, rows[0][k]).Less?)
    ensures CountKey(rows, k, v) == 0
    decreases |rows|
  {
    hide KeyCmp;
    if rows != [] {
      KeyOrder(reals, v, rows[0][k], v);
      InOrderTail(reals, rows, k);
      if |rows| > 1 {
        KeyOrder(reals, v, rows[0][k], rows[1][k]);
      }
      AbsentBefore(reals, rows[1..], k, v);
    }
  }

  lemma {:induction false} CountSame(rows: seq<Row>, k: nat, u: Value, v: Value)
    requires KeyOf(u) == KeyOf(v)
    ensures CountKey(rows, k, u) == CountKey(rows, k, v)
    decreases |rows|
  {
    hide KeyOf;
    if rows != [] {
      CountSame(rows[1..], k, u, v);
    }
  }

  /** Of the rows with key `v`, `events` pairs as many as it can and reports the others. */
  ghost predicate Tally(events: seq<Event>, left: seq<Row>, right: seq<Row>, k: nat, v: Value) {
    var pairs := CountPairs(events, k, v);
    && pairs == Min(CountKey(left, k, v), CountKey(right, k, v))
    && CountOnly(events, true, k, v) == CountKey(left, k, v) - pairs
    && CountOnly(events, false, k, v) == CountKey(right, k, v) - pairs
  }

  lemma TallyLeft(row: Row, events: seq<Event>, left: seq<Row>, right: seq<Row>, k: nat, v: Value)
    requires Tally(events, left, right, k, v) && (k < |row| && KeyOf(row[k]) == KeyOf(v) ==> CountKey(right, k, v) == 0)
    ensures Tally([OnlyLeft(row)] + events, [row] + left, right, k, v)
  {
    assert ([OnlyLeft(row)] + events)[1..] == events && ([row] + left)[1..] == left;
  }

  lemma TallyRight(row: Row, events: seq<Event>, left: seq<Row>, right: seq<Row>, k: nat, v: Value)
    requires Tally(events, left, right, k, v) && (k < |row| && KeyOf(row[k]) == KeyOf(v) ==> CountKey(left, k, v) == 0)
    ensures Tally([OnlyRight(row)] + events, left, [row] + right, k, v)
  {
    assert ([OnlyRight(row)] + events)[1..] == events && ([row] + right)[1..] == right;
  }

  lemma TallyPair(l: Row, r: Row, events: seq<Event>, left: seq<Row>, right: seq<Row>, k: nat, v: Value)
    requires Tally(events, left, right, k, v) && k < |l| && k < |r| && KeyOf(l[k]) == KeyOf(r[k])
    ensures Tally([Pair(l, r)] + events, [l] + left, [r] + right, k, v)
  {
    assert ([Pair(l, r)] + events)[1..] == events && ([l] + left)[1..] == left && ([r] + right)[1..] == right;
  }

  lemma {:induction false} WalkTallies(reals: bool, left: seq<Row>, right: seq<Row>, k: nat, v: Value)
    requires InOrder(reals, left, k) && InOrder(reals, right, k) && Orderable(reals, v)
    ensures Tally(Walk(left, right, k), left, right, k, v)
    decreases |left| + |right|
  {
    if left == [] && right == [] {
      return;
    }
    hide KeyCmp, Tally, CountKey, KeyOf;
    assert left != [] ==> left == [left[0]] + left[1..];
    assert right != [] ==> right == [right[0]] + right[1..];
    if right == [] || (left != [] && CompareKeys(left[0], right[0], k).Less?) {
      InOrderTail(reals, left, k);
      WalkTallies(reals, left[1..], right, k, v);
      AbsentBefore(reals, right, k, left[0][k]);
      if KeyOf(left[0][k]) == KeyOf(v) {
        CountSame(right, k, left[0][k], v);
      }
      TallyLeft(left[0], Walk(left[1..], right, k), left[1..], right, k, v);
    } else if left == [] || CompareKeys(left[0], right[0], k).Greater? {
      InOrderTail(reals, right, k);
      WalkTallies(reals, left, right[1..], k, v);
      if left != [] {
        KeyOrder(reals, right[0][k], left[0][k], v);
      }
      AbsentBefore(reals, left, k, right[0][k]);
      if KeyOf(right[0][k]) == KeyOf(v) {
        CountSame(left, k, right[0][k], v);
      }
      TallyRight(right[0], Walk(left, right[1..], k), left, right[1..], k, v);
    } else {
      InOrderTail(reals, left, k);
      InOrderTail(reals, right, k);
      WalkTallies(reals, left[1..], right[1..], k, v);
      KeyOrder(reals, left[0][k], right[0][k], v);
      TallyPair(left[0], right[0], Walk(left[1..], right[1..], k), left[1..], right[1..], k, v);
    }
  }

  /**
   * Sorted sides, duplicates allowed: for each key the walk pairs min(left, right)
   * rows and reports the rest of the longer run as removed or added.
   */
  lemma PairsPerKey(reals: bool, left: seq<Row>, right: seq<Row>, k: nat, v: Value)
    requires Sorted(reals, left, k) && Sorted(reals, right, k) && Orderable(reals, v)
    ensures Tally(Walk(left, right, k), left, right, k, v)
  {
    hide Sorted, InOrder, Walk, Tally;
    SortedInOrder(reals, left, k);
    SortedInOrder(reals, right, k);
    WalkTallies(reals, left, right, k, v);
  }

  // ----- applying a diff -----

  /** A cell as `cell_eq` sees it: finite doubles by value alone. */
  function Norm(v: Value): Value {
    if v.Real? && v.x.Finite? then Real(Finite(v.x.value, [])) else v
  }

  function NormRow(row: Row): (r: Row)
    ensures |r| == |row|
  {
    seq(|row|, i requires 0 <= i < |row| => Norm(row[i]))
  }

  /** A table with unique keys, as a map from key class to row. */
  function Table(rows: seq<Row>, k: nat): map<Value, Row>
    requires forall i :: 0 <= i < |rows| ==> k < |rows[i]|
  {
    if rows == [] then map[] else Table(rows[1..], k)[KeyOf(rows[0][k]) := NormRow(rows[0])]
  }

  /** Carry out one diff row: drop the removed key, write the added or changed row. */
  function ApplyRow(m: map<Value, Row>, d: DiffRow, k: nat): map<Value, Row> {
    if d.kind.Removed? then (if k < |d.left| then m - {KeyOf(d.left[k])} else m)
    else if k < |d.right| then m[KeyOf(d.right[k]) := NormRow(d.right)]
    else m
  }

  function Apply(m: map<Value, Row>, rows: seq<DiffRow>, k: nat): map<Value, Row>
    decreases |rows|
  {
    if rows == [] then m else Apply(ApplyRow(m, rows[0], k), rows[1..], k)
  }

  /** Every row has a key of the class, and each comes before all later ones. */
  ghost predicate SortedUnique(reals: bool, rows: seq<Row>, k: nat) {
    && (forall i :: 0 <= i < |rows| ==> k < |rows[i]| && Orderable(reals, rows[i][k]))
    && (forall i, j :: 0 <= i < j < |rows| ==> KeyBefore(rows[i][k], rows[j][k]))
  }

  /** The same, as the walk compares the keys. */
  ghost predicate Ascending(reals: bool, rows: seq<Row>, k: nat) {
    && (forall i :: 0 <= i < |rows| ==> k < |rows[i]| && Orderable(reals, rows[i][k]))
    && (forall i, j :: 0 <= i < j < |rows| ==> KeyCmp(rows[i][k], rows[j][k]).Less?)
  }

  lemma SortedAscends(reals: bool, rows: seq<Row>, k: nat)
    requires SortedUnique(reals, rows, k)
    ensures Ascending(reals, rows, k)
  {
    hide KeyCmp, KeyBefore;
    forall i, j | 0 <= i < j < |rows| ensures KeyCmp(rows[i][k], rows[j][k]).Less? {
      KeyCmpExactly(rows[i][k], rows[j][k]);
    }
  }

  ghost predicate Widths(rows: seq<Row>, w: nat) {
    forall i :: 0 <= i < |rows| ==> |rows[i]| == w
  }

  lemma {:induction false} DiffRowsCons(e: Event, events: seq<Event>, k: nat)
    ensures DiffRows([e] + events, k) == (if IsDiff(e) then [RowOf(e, k)] else []) + DiffRows(events, k)
    decreases |events|
  {
    hide IsDiff, RowOf;
    var all := [e] + events;
    if events == [] {
      assert all[..0] == [];
    } else {
      var n := |events| - 1;
      DiffRowsCons(e, events[..n], k);
      assert all[..|all| - 1] == [e] + events[..n];
    }
  }

  lemma ApplyCons(m: map<Value, Row>, d: DiffRow, rows: seq<DiffRow>, k: nat)
    ensures Apply(m, [d] + rows, k) == Apply(ApplyRow(m, d, k), rows, k)
  {
    assert ([d] + rows)[1..] == rows;
  }

  /** `v` comes before every key of `rows`, so it is no key of theirs. */
  lemma {:induction false} NotInTable(reals: bool, rows: seq<Row>, k: nat, v: Value)
    requires Ascending(reals, rows, k) && Orderable(reals, v) && (rows != [] ==> KeyCmp(v, rows[0][k]).Less?)
    ensures KeyOf(v) !in Table(rows, k)
    decreases |rows|
  {
    hide KeyCmp;
    if rows != [] {
      KeyOrder(reals, v, rows[0][k], v);
      if |rows| > 1 {
        KeyOrder(reals, v, rows[0][k], rows[1][k]);
      }
      NotInTable(reals, rows[1..], k, v);
    }
  }

  lemma HeadNotInTail(reals: bool, rows: seq<Row>, k: nat)
    requires Ascending(reals, rows, k) && rows != []
    ensures Ascending(reals, rows[1..], k) && KeyOf(rows[0][k]) !in Table(rows[1..], k)
  {
    NotInTable(reals, rows[1..], k, rows[0][k]);
  }

  lemma SameRow(l: Row, r: Row)
    requires |l| == |r| && !Differs(l, r)
    ensures NormRow(l) == NormRow(r)
  {
    forall i | 0 <= i < |l| ensures Norm(l[i]) == Norm(r[i]) {
      assert Mask(l, r)[i] == !CellEq(l[i], r[i]);
    }
  }

  lemma ApplyLeft(reals: bool, m: map<Value, Row>, left: seq<Row>, events: seq<Event>, k: nat)
    requires Ascending(reals, left, k) && left != [] && KeyOf(left[0][k]) !in m
    ensures Ascending(reals, left[1..], k)
    ensures Apply(m + Table(left, k), DiffRows([OnlyLeft(left[0])] + events, k), k) ==
            Apply(m + Table(left[1..], k), DiffRows(events, k), k)
  {
    hide KeyCmp, Apply, DiffRows;
    HeadNotInTail(reals, left, k);
    DiffRowsCons(OnlyLeft(left[0]), events, k);
    var d := RowOf(OnlyLeft(left[0]), k);
    ApplyCons(m + Table(left, k), d, DiffRows(events, k), k);
    assert ApplyRow(m + Table(left, k), d, k) == m + Table(left[1..], k);
  }

  lemma ApplyRight(reals: bool, m: map<Value, Row>, left: seq<Row>, row: Row, events: seq<Event>, k: nat)
    requires Ascending(reals, left, k) && k < |row| && KeyOf(row[k]) !in Table(left, k)
    ensures Apply(m + Table(left, k), DiffRows([OnlyRight(row)] + events, k), k) ==
            Apply(m[KeyOf(row[k]) := NormRow(row)] + Table(left, k), DiffRows(events, k), k)
  {
    hide KeyCmp, Apply, DiffRows;
    DiffRowsCons(OnlyRight(row), events, k);
    var d := RowOf(OnlyRight(row), k);
    ApplyCons(m + Table(left, k), d, DiffRows(events, k), k);
    assert ApplyRow(m + Table(left, k), d, k) == m[KeyOf(row[k]) := NormRow(row)] + Table(left, k);
  }

  lemma ApplyPair(reals: bool, m: map<Value, Row>, left: seq<Row>, row: Row, events: seq<Event>, k: nat)
    requires Ascending(reals, left, k) && left != [] && KeyOf(left[0][k]) !in m && k < |row| && KeyOf(row[k]) == KeyOf(left[0][k]) && |row| == |left[0]|
    ensures Ascending(reals, left[1..], k)
    ensures Apply(m + Table(left, k), DiffRows([Pair(left[0], row)] + events, k), k) ==
            Apply(m[KeyOf(row[k]) := NormRow(row)] + Table(left[1..], k), DiffRows(events, k), k)
  {
    hide KeyCmp, Apply, DiffRows, Differs, KeyOf, NormRow;
    HeadNotInTail(reals, left, k);
    var e := Pair(left[0], row);
    var before, after := m + Table(left, k), m[KeyOf(row[k]) := NormRow(row)] + Table(left[1..], k);
    DiffRowsCons(e, events, k);
    if Differs(left[0], row) {
      ApplyCons(before, RowOf(e, k), DiffRows(events, k), k);
      assert ApplyRow(before, RowOf(e, k), k) == after;
    } else {
      SameRow(left[0], row);
      assert before == after;
      assert [] + DiffRows(events, k) == DiffRows(events, k);
    }
  }

  /** Moving the head of the right side into `m`. */
  lemma TakeRight(reals: bool, m: map<Value, Row>, right: seq<Row>, k: nat)
    requires Ascending(reals, right, k) && right != [] && m.Keys !! Table(right, k).Keys
    ensures var n := m[KeyOf(right[0][k]) := NormRow(right[0])];
            && Ascending(reals, right[1..], k) && n.Keys !! Table(right[1..], k).Keys
            && n + Table(right[1..], k) == m + Table(right, k)
  {
    HeadNotInTail(reals, right, k);
  }

  lemma DropLeft(reals: bool, m: map<Value, Row>, left: seq<Row>, k: nat)
    requires Ascending(reals, left, k) && left != [] && m.Keys !! Table(left, k).Keys
    ensures Ascending(reals, left[1..], k) && KeyOf(left[0][k]) !in m && KeyOf(left[0][k]) !in Table(left[1..], k)
    ensures m.Keys !! Table(left[1..], k).Keys
  {
    HeadNotInTail(reals, left, k);
  }

  lemma WidthsTail(rows: seq<Row>, w: nat)
    requires Widths(rows, w) && rows != []
    ensures Widths(rows[1..], w) && |rows[0]| == w
  {
  }

  /** With the rows already walked in `m`, the rest of the diff finishes the job. */
  lemma {:induction false} ApplyWalk(reals: bool, m: map<Value, Row>, left: seq<Row>, right: seq<Row>, k: nat, w: nat)
    requires Ascending(reals, left, k) && Ascending(reals, right, k) && Widths(left, w) && Widths(right, w)
    requires m.Keys !! Table(left, k).Keys && m.Keys !! Table(right, k).Keys
    ensures Apply(m + Table(left, k), DiffRows(Walk(left, right, k), k), k) == m + Table(right, k)
    decreases |left| + |right|
  {
    if left == [] && right == [] {
      return;
    }
    hide KeyCmp, Apply, DiffRows, Table, Widths;
    if right == [] || (left != [] && CompareKeys(left[0], right[0], k).Less?) {
      DropLeft(reals, m, left, k);
      WidthsTail(left, w);
      ApplyLeft(reals, m, left, Walk(left[1..], right, k), k);
      ApplyWalk(reals, m, left[1..], right, k, w);
    } else if left == [] || CompareKeys(left[0], right[0], k).Greater? {
      var r := right[0];
      if left != [] {
        KeyOrder(reals, r[k], left[0][k], r[k]);
      }
      NotInTable(reals, left, k, r[k]);
      TakeRight(reals, m, right, k);
      WidthsTail(right, w);
      ApplyRight(reals, m, left, r, Walk(left, right[1..], k), k);
      ApplyWalk(reals, m[KeyOf(r[k]) := NormRow(r)], left, right[1..], k, w);
    } else {
      var r := right[0];
      KeyOrder(reals, left[0][k], r[k], r[k]);
      DropLeft(reals, m, left, k);
      TakeRight(reals, m, right, k);
      WidthsTail(left, w);
      WidthsTail(right, w);
      ApplyPair(reals, m, left, r, Walk(left[1..], right[1..], k), k);
      ApplyWalk(reals, m[KeyOf(r[k]) := NormRow(r)], left[1..], right[1..], k, w);
    }
  }

  /**
   * With unique keys and equal widths, the untruncated diff is complete: applied
   * to the left table it gives the right one.
   */
  lemma DiffTurnsLeftIntoRight(reals: bool, left: seq<Row>, right: seq<Row>, k: nat, w: nat)
    requires SortedUnique(reals, left, k) && SortedUnique(reals, right, k) && Widths(left, w) && Widths(right, w)
    ensures Apply(Table(left, k), DiffRows(Walk(left, right, k), k), k) == Table(right, k)
  {
    hide KeyCmp, Apply, DiffRows, Walk, Table, KeyBefore;
    SortedAscends(reals, left, k);
    SortedAscends(reals, right, k);
    ApplyWalk(reals, map[], left, right, k, w);
    assert map[] + Table(left, k) == Table(left, k);
    assert map[] + Table(right, k) == Table(right, k);
  }

  /** The stored rows of an accumulator that dropped nothing turn the left table into the right one. */
  lemma UntruncatedRowsApply(reals: bool, acc: DiffAccumulator, left: seq<Row>, right: seq<Row>, w: nat)
    requires acc.Holds(Walk(left, right, acc.keyIndex)) && !acc.truncated
    requires SortedUnique(reals, left, acc.keyIndex) && SortedUnique(reals, right, acc.keyIndex) && Widths(left, w) && Widths(right, w)
    ensures Apply(Table(left, acc.keyIndex), acc.rows, acc.keyIndex) == Table(right, acc.keyIndex)
  {
    hide KeyCmp, Apply, DiffRows, Walk, Table, Totals, KeyBefore;
    var all := DiffRows(Walk(left, right, acc.keyIndex), acc.keyIndex);
    assert all[..|all|] == all;
    DiffTurnsLeftIntoRight(reals, left, right, acc.keyIndex, w);
  }
}
