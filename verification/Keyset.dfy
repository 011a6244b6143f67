/**
 * Seek keys of crates/red-core/src/lib.rs (`KeySpec::from_detail`, `KeySpec::sorted`,
 * `resolve_key_column`, `SortDirection`) and the paging they make exact.
 */
module Keyset {
  import opened Wrappers
  import opened Seek

  datatype ColumnMeta = ColumnMeta(name: string, typeName: Option<string>, notNull: bool, primaryKey: bool)

  datatype IndexMeta = IndexMeta(unique: bool, columns: seq<string>)

  datatype TableDetail = TableDetail(columns: seq<ColumnMeta>, indexes: seq<IndexMeta>)

  datatype KeyKind = IntKey | OtherKey

  datatype SortDirection = Asc | Desc

  datatype KeySpec = KeySpec(
    column: string, kind: KeyKind, columnType: Option<string>, tiebreak: Option<string>, tiebreakType: Option<string>, direction: SortDirection)

  // ----- choosing the key -----

  function LowerChar(c: char): char {
    if 'A' <= c <= 'Z' then (c as int + 32) as char else c
  }

  /** The lower-cased type name up to its first `(` or space. */
  function BaseToken(t: string): string {
    if t == "" || t[0] == '(' || t[0] == ' ' then "" else [LowerChar(t[0])] + BaseToken(t[1..])
  }

  predicate IsIntType(t: string) {
    BaseToken(t) in {
      "int", "integer", "int2", "int4", "int8", "tinyint", "smallint", "mediumint", "bigint",
      "serial", "smallserial", "bigserial"
    }
  }

  function KindOf(c: ColumnMeta): KeyKind {
    if c.typeName.Some? && IsIntType(c.typeName.value) then IntKey else OtherKey
  }

  function PrimaryKeys(columns: seq<ColumnMeta>): (r: seq<ColumnMeta>)
    ensures forall c <- r :: c in columns && c.primaryKey
  {
    if columns == [] then []
    else (if columns[0].primaryKey then [columns[0]] else []) + PrimaryKeys(columns[1..])
  }

  /** The first column of that name, not nullable when that is asked for. */
  function FindColumn(columns: seq<ColumnMeta>, name: string, notNull: bool): (r: Option<ColumnMeta>)
    ensures r.Some? ==> r.value in columns && r.value.name == name && (notNull ==> r.value.notNull)
  {
    if columns == [] then None
    else if columns[0].name == name && (notNull ==> columns[0].notNull) then Some(columns[0])
    else FindColumn(columns[1..], name, notNull)
  }

  function UniqueColumn(columns: seq<ColumnMeta>, indexes: seq<IndexMeta>): (r: Option<ColumnMeta>)
    ensures r.Some? ==> r.value in columns && r.value.notNull
  {
    if indexes == [] then None
    else
      var i := indexes[0];
      if i.unique && |i.columns| == 1 && FindColumn(columns, i.columns[0], true).Some? then FindColumn(columns, i.columns[0], true)
      else UniqueColumn(columns, indexes[1..])
  }

  /** `resolve_key_column`. */
  function ResolveKeyColumn(d: TableDetail): (r: Option<ColumnMeta>)
    ensures r.Some? ==> r.value in d.columns && (r.value.primaryKey || r.value.notNull)
  {
    var pks := PrimaryKeys(d.columns);
    if |pks| == 1 then Some(pks[0]) else if pks == [] then UniqueColumn(d.columns, d.indexes) else None
  }

  /** `KeySpec::from_detail`. */
  function FromDetail(d: TableDetail): Option<KeySpec> {
    match ResolveKeyColumn(d)
    case None => None
    case Some(c) =>
      if c.notNull || KindOf(c) == IntKey then Some(KeySpec(c.name, KindOf(c), c.typeName, None, None, Asc)) else None
  }

  /** `KeySpec::sorted`. */
  function SortedKey(d: TableDetail, sortCol: string, direction: SortDirection): Option<KeySpec> {
    match ResolveKeyColumn(d)
    case None => None
    case Some(pk) =>
      match FindColumn(d.columns, sortCol, false)
      case None => None
      case Some(lead) =>
        if lead.name == pk.name then Some(KeySpec(pk.name, KindOf(pk), pk.typeName, None, None, direction))
        else if lead.notNull then Some(KeySpec(lead.name, KindOf(lead), lead.typeName, Some(pk.name), pk.typeName, direction))
        else None
  }

  // ----- rows and their key order -----

  datatype Cell<K> = Null | Val(value: K)

  type Row<K> = map<string, Cell<K>>

  function At<K>(r: Row<K>, column: string): Cell<K> {
    if column in r then r[column] else Null
  }

  /** The key tuple of a row. */
  function TupleOf<K>(key: KeySpec, r: Row<K>): seq<Cell<K>> {
    [At(r, key.column)] + if key.tiebreak.Some? then [At(r, key.tiebreak.value)] else []
  }

  /** SQL's row-value `<`: false or unknown as soon as a NULL decides it. */
  predicate RowLess<K(==)>(lt: (K, K) -> bool, a: seq<Cell<K>>, b: seq<Cell<K>>) {
    && a != [] && b != [] && a[0].Val? && b[0].Val?
    && (lt(a[0].value, b[0].value) || (a[0] == b[0] && RowLess(lt, a[1..], b[1..])))
  }

  function KeyFn<K>(key: KeySpec): Row<K> -> seq<Cell<K>> {
    (r: Row<K>) => TupleOf(key, r)
  }

  /** The comparison of a seek: one direction for the whole tuple. */
  function SeekOrder<K(==)>(lt: (K, K) -> bool, direction: SortDirection): (seq<Cell<K>>, seq<Cell<K>>) -> bool {
    if direction == Asc then ((a, b) => RowLess(lt, a, b)) else ((a, b) => RowLess(lt, b, a))
  }

  /** The engine's order of non-null values. */
  ghost predicate StrictTotal<K(!new)>(lt: (K, K) -> bool) {
    && (forall a :: !lt(a, a))
    && (forall a, b, c :: lt(a, b) && lt(b, c) ==> lt(a, c))
    && (forall a, b :: a == b || lt(a, b) || lt(b, a))
  }

  function LowerAll(t: string): string {
    if t == "" then "" else [LowerChar(t[0])] + LowerAll(t[1..])
  }

  /**
   * The only shape SQLite's rowid alias has: a primary key declared exactly `INTEGER`. Not
   * every column of that shape is one, so whether it is stays a fact about the table.
   */
  predicate AliasShape(d: TableDetail) {
    var pk := ResolveKeyColumn(d);
    pk.Some? && pk.value.primaryKey && pk.value.typeName.Some? && LowerAll(pk.value.typeName.value) == "integer"
  }

  /**
   * What the detail does not say of the key column: whether it is the rowid alias, and whether
   * the engine keeps its values distinct. A partial or expression index and a ClickHouse
   * primary key look like any other and do not.
   */
  datatype Facts = Facts(rowid: bool, distinct: bool)

  /**
   * A table that is what its introspected detail and these facts say. A rowid alias holds no
   * NULL, whatever the detail calls it; any other column that is not called `NOT NULL` may.
   */
  ghost predicate Conforms<K(!new)>(table: set<Row<K>>, d: TableDetail, facts: Facts) {
    && (forall c <- d.columns, r <- table :: c.notNull ==> At(r, c.name).Val?)
    && (forall pk :: ResolveKeyColumn(d) == Some(pk) ==>
          && (facts.rowid ==> forall r <- table :: At(r, pk.name).Val?)
          && (facts.distinct ==> forall r <- table, s <- table :: At(r, pk.name).Val? && At(r, pk.name) == At(s, pk.name) ==> r == s))
  }

  /** Every cell of the key is there, and the key tells rows apart. */
  ghost predicate Keyed<K(!new)>(table: set<Row<K>>, key: KeySpec) {
    && (forall r <- table :: At(r, key.column).Val?)
    && (forall t, r <- table :: key.tiebreak == Some(t) ==> At(r, t).Val?)
    && (forall r <- table, s <- table :: TupleOf(key, r) == TupleOf(key, s) ==> r == s)
  }

  // ----- tuples are totally ordered -----

  ghost predicate Full<K>(a: seq<Cell<K>>) {
    forall i :: 0 <= i < |a| ==> a[i].Val?
  }

  lemma {:induction false} RowLessIrreflexive<K(!new)>(lt: (K, K) -> bool, a: seq<Cell<K>>)
    requires StrictTotal(lt)
    ensures !RowLess(lt, a, a)
    decreases |a|
  {
    if a != [] {
      RowLessIrreflexive(lt, a[1..]);
    }
  }

  lemma {:induction false} RowLessTrans<K(!new)>(lt: (K, K) -> bool, a: seq<Cell<K>>, b: seq<Cell<K>>, c: seq<Cell<K>>)
    requires StrictTotal(lt) && RowLess(lt, a, b) && RowLess(lt, b, c)
    ensures RowLess(lt, a, c)
    decreases |a|
  {
    if a[0] == b[0] && b[0] == c[0] {
      RowLessTrans(lt, a[1..], b[1..], c[1..]);
    }
  }

  lemma {:induction false} RowLessTotal<K(!new)>(lt: (K, K) -> bool, a: seq<Cell<K>>, b: seq<Cell<K>>)
    requires StrictTotal(lt) && |a| == |b| && Full(a) && Full(b)
    ensures a == b || RowLess(lt, a, b) || RowLess(lt, b, a)
    decreases |a|
  {
    if a != [] && a[0] == b[0] {
      RowLessTotal(lt, a[1..], b[1..]);
      assert a == [a[0]] + a[1..] && b == [b[0]] + b[1..];
    }
  }

  lemma KeyedTotal<K(!new)>(lt: (K, K) -> bool, table: set<Row<K>>, key: KeySpec)
    requires StrictTotal(lt) && Keyed(table, key)
    ensures Total(table, KeyFn(key), SeekOrder(lt, key.direction))
  {
    hide StrictTotal, RowLess;
    var kf: Row<K> -> seq<Cell<K>> := KeyFn(key);
    var order := SeekOrder(lt, key.direction);
    forall r | r in table ensures !order(kf(r), kf(r)) {
      RowLessIrreflexive(lt, TupleOf(key, r));
    }
    forall r, s, t | r in table && s in table && t in table && order(kf(r), kf(s)) && order(kf(s), kf(t))
      ensures order(kf(r), kf(t))
    {
      if key.direction == Asc {
        RowLessTrans(lt, TupleOf(key, r), TupleOf(key, s), TupleOf(key, t));
      } else {
        RowLessTrans(lt, TupleOf(key, t), TupleOf(key, s), TupleOf(key, r));
      }
    }
    forall r, s | r in table && s in table ensures r == s || order(kf(r), kf(s)) || order(kf(s), kf(r)) {
      FullTuple(table, key, r);
      FullTuple(table, key, s);
      RowLessTotal(lt, TupleOf(key, r), TupleOf(key, s));
    }
  }

  lemma FullTuple<K(!new)>(table: set<Row<K>>, key: KeySpec, r: Row<K>)
    requires Keyed(table, key) && r in table
    ensures Full(TupleOf(key, r)) && |TupleOf(key, r)| == if key.tiebreak.Some? then 2 else 1
  {
  }

  // ----- the keys RED chooses -----

  /** The key column may hold NULLs: not called `NOT NULL`, and not the rowid alias that SQLite only reports so. */
  predicate MayBeNull(d: TableDetail, facts: Facts) {
    var pk := ResolveKeyColumn(d);
    pk.Some? && !pk.value.notNull && !facts.rowid
  }

  /** A key that the code builds from the detail: the key column alone, or behind another column as tiebreaker. */
  ghost predicate Chosen(d: TableDetail, key: KeySpec) {
    FromDetail(d) == Some(key) || exists c, dir :: SortedKey(d, c, dir) == Some(key)
  }

  /** The lead is a column that is not nullable, or the key column; the key column comes last. */
  ghost predicate KeyShape(d: TableDetail, key: KeySpec) {
    var pk := ResolveKeyColumn(d);
    && pk.Some?
    && if key.tiebreak.None? then key.column == pk.value.name
       else key.tiebreak == Some(pk.value.name) && key.column != pk.value.name
            && exists c <- d.columns :: c.name == key.column && c.notNull
  }

  lemma ChosenShape(d: TableDetail, key: KeySpec)
    requires Chosen(d, key)
    ensures KeyShape(d, key)
  {
    hide ResolveKeyColumn, KindOf, FindColumn;
  }

  /** What the code picks is a key of every conforming table whose key column is distinct and cannot be NULL. */
  lemma ChosenKeyed<K(!new)>(d: TableDetail, facts: Facts, key: KeySpec, table: set<Row<K>>)
    requires KeyShape(d, key) && Conforms(table, d, facts) && !MayBeNull(d, facts) && facts.distinct
    ensures Keyed(table, key)
  {
    hide ResolveKeyColumn;
    var pk := ResolveKeyColumn(d).value;
    assert ResolveKeyColumn(d) == Some(pk);
    ResolvedIsColumn(d);
    forall r | r in table ensures At(r, pk.name).Val? {
    }
    forall r, s | r in table && s in table && TupleOf(key, r) == TupleOf(key, s) ensures r == s {
      var last := |TupleOf(key, r)| - 1;
      assert TupleOf(key, r)[last] == At(r, pk.name) && TupleOf(key, s)[last] == At(s, pk.name);
    }
  }

  lemma ResolvedIsColumn(d: TableDetail)
    ensures ResolveKeyColumn(d).Some? ==> ResolveKeyColumn(d).value in d.columns
  {
  }

  /** A row with the same value everywhere, but for its key column. */
  function SampleRow<K>(d: TableDetail, pk: string, cell: Cell<K>, other: K): Row<K> {
    map i | 0 <= i < |d.columns| :: d.columns[i].name := if d.columns[i].name == pk then cell else Val(other)
  }

  lemma SampleAt<K>(d: TableDetail, pk: string, cell: Cell<K>, other: K, c: ColumnMeta)
    requires c in d.columns
    ensures At(SampleRow(d, pk, cell, other), c.name) == if c.name == pk then cell else Val(other)
  {
  }

  ghost predicate OneColumnPerName(d: TableDetail) {
    forall b <- d.columns, c <- d.columns :: b.name == c.name ==> b == c
  }

  /** Two rows, one with a NULL key: both allowed by the detail. */
  lemma SampleConforms<K(!new)>(d: TableDetail, facts: Facts, k: K)
    requires MayBeNull(d, facts) && OneColumnPerName(d)
    ensures var pk := ResolveKeyColumn(d).value;
            Conforms({SampleRow(d, pk.name, Null, k), SampleRow(d, pk.name, Val(k), k)}, d, facts)
  {
    hide ResolveKeyColumn, SampleRow, At;
    var pk := ResolveKeyColumn(d).value;
    ResolvedIsColumn(d);
    var r, s := SampleRow(d, pk.name, Null, k), SampleRow(d, pk.name, Val(k), k);
    forall c | c in d.columns && c.notNull ensures At(r, c.name).Val? && At(s, c.name).Val? {
      SampleAt(d, pk.name, Null, k, c);
      SampleAt(d, pk.name, Val(k), k, c);
    }
    SampleAt(d, pk.name, Null, k, pk);
    SampleAt(d, pk.name, Val(k), k, pk);
  }

  lemma SampleNotKeyed<K(!new)>(d: TableDetail, key: KeySpec, k: K)
    requires KeyShape(d, key)
    ensures var pk := ResolveKeyColumn(d).value.name;
            var r, s := SampleRow(d, pk, Null, k), SampleRow(d, pk, Val(k), k);
            r != s && !Keyed({r, s}, key)
  {
    hide ResolveKeyColumn, SampleRow;
    var pk := ResolveKeyColumn(d).value;
    ResolvedIsColumn(d);
    var r, s := SampleRow(d, pk.name, Null, k), SampleRow(d, pk.name, Val(k), k);
    SampleAt(d, pk.name, Null, k, pk);
    SampleAt(d, pk.name, Val(k), k, pk);
    assert r in {r, s};
  }

  /** Tuples alike up to a NULL are not ordered. */
  lemma NullTail<K(!new)>(lt: (K, K) -> bool, a: seq<Cell<K>>, b: seq<Cell<K>>)
    requires StrictTotal(lt) && |a| == |b| && 1 <= |a| <= 2 && a[|a| - 1] == Null && (|a| == 2 ==> a[0] == b[0])
    ensures !RowLess(lt, a, b) && !RowLess(lt, b, a)
  {
    if |a| == 2 {
      assert a[1..] == [a[1]] && b[1..] == [b[1]];
      assert !RowLess(lt, a[1..], b[1..]) && !RowLess(lt, b[1..], a[1..]);
    }
  }

  lemma SampleUnordered<K(!new)>(d: TableDetail, key: KeySpec, lt: (K, K) -> bool, k: K)
    requires KeyShape(d, key) && StrictTotal(lt)
    ensures var pk := ResolveKeyColumn(d).value.name;
            var r, s := SampleRow(d, pk, Null, k), SampleRow(d, pk, Val(k), k);
            var kf, order := KeyFn(key), SeekOrder(lt, key.direction);
            && !order(kf(r), kf(r)) && !order(kf(r), kf(s)) && !order(kf(s), kf(r)) && !order(kf(s), kf(s))
  {
    hide ResolveKeyColumn, SampleRow, StrictTotal, RowLess;
    var pk := ResolveKeyColumn(d).value;
    ResolvedIsColumn(d);
    var r, s := SampleRow(d, pk.name, Null, k), SampleRow(d, pk.name, Val(k), k);
    SampleAt(d, pk.name, Null, k, pk);
    SampleAt(d, pk.name, Val(k), k, pk);
    if key.tiebreak.Some? {
      var lead :| lead in d.columns && lead.name == key.column && lead.notNull;
      SampleAt(d, pk.name, Null, k, lead);
      SampleAt(d, pk.name, Val(k), k, lead);
    }
    var a, b := TupleOf(key, r), TupleOf(key, s);
    assert a[|a| - 1] == Null && b[|b| - 1] == Val(k);
    RowLessIrreflexive(lt, a);
    RowLessIrreflexive(lt, b);
    NullTail(lt, a, b);
  }

  lemma NonePass<R, Q>(x: R, y: R, key: R -> Q, lt: (Q, Q) -> bool, n: nat)
    requires !lt(key(x), key(x)) && !lt(key(x), key(y))
    ensures Window([x, y], key, lt, Some(key(x)), n) == []
  {
    assert [x, y][1..] == [y] && [y][1..] == [];
    assert Passing([], key, lt, Some(key(x))) == [];
    assert Passing([y], key, lt, Some(key(x))) == [];
  }

  /** Whichever of the two rows the engine lists first, the window past it is empty: the other is lost, at any page size. */
  lemma NullKeyLosesRow<K(!new)>(d: TableDetail, key: KeySpec, lt: (K, K) -> bool, k: K, n: nat)
    requires Chosen(d, key) && StrictTotal(lt)
    ensures ResolveKeyColumn(d).Some?
    ensures var pk := ResolveKeyColumn(d).value.name;
            var r, s := SampleRow(d, pk, Null, k), SampleRow(d, pk, Val(k), k);
            var kf, order := KeyFn(key), SeekOrder(lt, key.direction);
            Window([r, s], kf, order, Some(kf(r)), n) == [] && Window([s, r], kf, order, Some(kf(s)), n) == []
  {
    hide ResolveKeyColumn, SampleRow, StrictTotal, Window, Chosen;
    ChosenShape(d, key);
    var pk := ResolveKeyColumn(d).value.name;
    var r, s := SampleRow(d, pk, Null, k), SampleRow(d, pk, Val(k), k);
    SampleUnordered(d, key, lt, k);
    NonePass(r, s, KeyFn(key), SeekOrder(lt, key.direction), n);
    NonePass(s, r, KeyFn(key), SeekOrder(lt, key.direction), n);
  }

  // ----- keys that are not distinct -----

  /** A name no column has. */
  function FreshName(columns: seq<ColumnMeta>): string {
    if columns == [] then "x" else columns[0].name + FreshName(columns[1..])
  }

  lemma {:induction false} FreshIsLonger(columns: seq<ColumnMeta>, c: ColumnMeta)
    ensures |FreshName(columns)| > 0
    ensures c in columns ==> |c.name| < |FreshName(columns)|
    decreases |columns|
  {
    if columns != [] {
      FreshIsLonger(columns[1..], c);
    }
  }

  /** A row with one value in every column, told apart by something outside the detail. */
  function Twin<K>(d: TableDetail, mark: Cell<K>, k: K): Row<K> {
    SampleRow(d, "", Val(k), k)[FreshName(d.columns) := mark]
  }

  lemma TwinAt<K>(d: TableDetail, mark: Cell<K>, k: K, c: ColumnMeta)
    requires c in d.columns
    ensures At(Twin(d, mark, k), c.name) == Val(k)
  {
    hide SampleRow;
    FreshIsLonger(d.columns, c);
    SampleAt(d, "", Val(k), k, c);
  }

  lemma TwinsDiffer<K>(d: TableDetail, k: K)
    ensures Twin(d, Null, k) != Twin(d, Val(k), k)
  {
    hide SampleRow;
    assert Twin(d, Null, k)[FreshName(d.columns)] == Null;
    assert Twin(d, Val(k), k)[FreshName(d.columns)] == Val(k);
  }

  lemma TwinsConform<K(!new)>(d: TableDetail, facts: Facts, k: K)
    requires !facts.distinct
    ensures Conforms({Twin(d, Null, k), Twin(d, Val(k), k)}, d, facts)
  {
    hide ResolveKeyColumn, Twin, At;
    ResolvedIsColumn(d);
    forall c | c in d.columns ensures At(Twin(d, Null, k), c.name).Val? && At(Twin(d, Val(k), k), c.name).Val? {
      TwinAt(d, Null, k, c);
      TwinAt(d, Val(k), k, c);
    }
  }

  lemma TwinsTie<K(!new)>(d: TableDetail, key: KeySpec, k: K)
    requires KeyShape(d, key)
    ensures TupleOf(key, Twin(d, Null, k)) == TupleOf(key, Twin(d, Val(k), k))
  {
    hide ResolveKeyColumn, Twin, At;
    ResolvedIsColumn(d);
    var pk := ResolveKeyColumn(d).value;
    TwinAt(d, Null, k, pk);
    TwinAt(d, Val(k), k, pk);
    if key.tiebreak.Some? {
      var lead :| lead in d.columns && lead.name == key.column && lead.notNull;
      TwinAt(d, Null, k, lead);
      TwinAt(d, Val(k), k, lead);
    }
  }

  lemma TwinsNotKeyed<K(!new)>(d: TableDetail, key: KeySpec, k: K)
    requires KeyShape(d, key)
    ensures !Keyed({Twin(d, Null, k), Twin(d, Val(k), k)}, key)
  {
    hide Twin, KeyShape, TupleOf;
    TwinsTie(d, key, k);
    TwinsDiffer(d, k);
    var r, s := Twin(d, Null, k), Twin(d, Val(k), k);
    assert r in {r, s} && s in {r, s};
  }

  /** Where the engine does not keep the key distinct, the window past one of two tied rows misses the other. */
  lemma TiedKeyLosesRow<K(!new)>(d: TableDetail, key: KeySpec, lt: (K, K) -> bool, k: K, n: nat)
    requires Chosen(d, key) && StrictTotal(lt)
    ensures var r, s := Twin(d, Null, k), Twin(d, Val(k), k);
            var kf, order := KeyFn(key), SeekOrder(lt, key.direction);
            r != s && Window([r, s], kf, order, Some(kf(r)), n) == [] && Window([s, r], kf, order, Some(kf(s)), n) == []
  {
    hide ResolveKeyColumn, Twin, StrictTotal, Window, Chosen, RowLess, TupleOf;
    ChosenShape(d, key);
    TwinsTie(d, key, k);
    TwinsDiffer(d, k);
    var r, s := Twin(d, Null, k), Twin(d, Val(k), k);
    RowLessIrreflexive(lt, TupleOf(key, r));
    NonePass(r, s, KeyFn(key), SeekOrder(lt, key.direction), n);
    NonePass(s, r, KeyFn(key), SeekOrder(lt, key.direction), n);
  }

  /** A key that the code picks is a key of every conforming table exactly when the engine keeps it distinct and it cannot be NULL. */
  lemma ChosenExactly<K(!new)>(d: TableDetail, facts: Facts, key: KeySpec, k: K)
    requires Chosen(d, key) && OneColumnPerName(d) && (facts.rowid ==> AliasShape(d))
    ensures (forall table: set<Row<K>> :: Conforms(table, d, facts) ==> Keyed(table, key)) <==> facts.distinct && !MayBeNull(d, facts)
  {
    hide Conforms, Keyed, SampleRow, ResolveKeyColumn, Chosen, Twin;
    ChosenShape(d, key);
    if MayBeNull(d, facts) {
      SampleConforms(d, facts, k);
      SampleNotKeyed(d, key, k);
    } else if !facts.distinct {
      TwinsConform(d, facts, k);
      TwinsNotKeyed(d, key, k);
    } else {
      forall table: set<Row<K>> | Conforms(table, d, facts) ensures Keyed(table, key) {
        ChosenKeyed(d, facts, key, table);
      }
    }
  }

  /** So for `from_detail`. */
  lemma FromDetailExactly<K(!new)>(d: TableDetail, facts: Facts, k: K)
    requires FromDetail(d).Some? && OneColumnPerName(d) && (facts.rowid ==> AliasShape(d))
    ensures (forall table: set<Row<K>> :: Conforms(table, d, facts) ==> Keyed(table, FromDetail(d).value)) <==> facts.distinct && !MayBeNull(d, facts)
  {
    hide Conforms, Keyed, MayBeNull, FromDetail;
    ChosenExactly(d, facts, FromDetail(d).value, k);
  }

  /** And for `sorted`, whatever the column and direction. */
  lemma SortedExactly<K(!new)>(d: TableDetail, facts: Facts, sortCol: string, direction: SortDirection, k: K)
    requires SortedKey(d, sortCol, direction).Some? && OneColumnPerName(d) && (facts.rowid ==> AliasShape(d))
    ensures (forall table: set<Row<K>> :: Conforms(table, d, facts) ==> Keyed(table, SortedKey(d, sortCol, direction).value))
            <==> facts.distinct && !MayBeNull(d, facts)
  {
    hide Conforms, Keyed, MayBeNull, SortedKey;
    ChosenExactly(d, facts, SortedKey(d, sortCol, direction).value, k);
  }

  /** `from_detail` refuses a key that may be NULL exactly when its type is no integer; `sorted` never does. */
  lemma NullableKeysAccepted(d: TableDetail, facts: Facts, direction: SortDirection)
    requires MayBeNull(d, facts)
    ensures FromDetail(d).Some? <==> KindOf(ResolveKeyColumn(d).value) == IntKey
    ensures SortedKey(d, ResolveKeyColumn(d).value.name, direction).Some?
  {
    FindFinds(d.columns, ResolveKeyColumn(d).value);
  }

  lemma {:induction false} FindFinds(columns: seq<ColumnMeta>, c: ColumnMeta)
    requires c in columns
    ensures FindColumn(columns, c.name, false).Some?
    decreases |columns|
  {
    if columns[0].name != c.name {
      FindFinds(columns[1..], c);
    }
  }

  /** `id BIGINT PRIMARY KEY`, as SQLite reports it. */
  const BIGINT_TABLE := TableDetail([ColumnMeta("id", Some("BIGINT"), false, true)], [])

  /** Both functions accept this key, no alias makes it safe, and rows are lost. */
  lemma BigintKeyLosesRow<K(!new)>(facts: Facts, direction: SortDirection, lt: (K, K) -> bool, k: K, n: nat)
    requires StrictTotal(lt) && (facts.rowid ==> AliasShape(BIGINT_TABLE))
    ensures FromDetail(BIGINT_TABLE).Some? && SortedKey(BIGINT_TABLE, "id", direction).Some? && MayBeNull(BIGINT_TABLE, facts)
    ensures var r, s := SampleRow(BIGINT_TABLE, "id", Null, k), SampleRow(BIGINT_TABLE, "id", Val(k), k);
            var key := FromDetail(BIGINT_TABLE).value;
            && Conforms({r, s}, BIGINT_TABLE, facts)
            && Window([r, s], KeyFn(key), SeekOrder(lt, key.direction), Some(KeyFn(key)(r)), n) == []
  {
    hide StrictTotal, Conforms, SampleRow, Window, SeekOrder;
    BigintResolves();
    var d := BIGINT_TABLE;
    assert !facts.rowid;
    assert d.columns[0] in d.columns;
    SampleConforms(d, facts, k);
    NullKeyLosesRow(d, FromDetail(d).value, lt, k, n);
    NullableKeysAccepted(d, facts, direction);
  }

  lemma BigintResolves()
    ensures ResolveKeyColumn(BIGINT_TABLE) == Some(BIGINT_TABLE.columns[0])
    ensures KindOf(BIGINT_TABLE.columns[0]) == IntKey && !AliasShape(BIGINT_TABLE)
  {
    var c := BIGINT_TABLE.columns[0];
    assert PrimaryKeys([]) == [];
    assert [c][1..] == [];
    assert PrimaryKeys([c]) == [c];
    BigintToken();
  }

  lemma BigintToken()
    ensures BaseToken("BIGINT") == "bigint" && LowerAll("BIGINT") != "integer"
  {
    assert "BIGINT"[1..] == "IGINT" && "IGINT"[1..] == "GINT" && "GINT"[1..] == "INT" && "INT"[1..] == "NT" && "NT"[1..] == "T" && "T"[1..] == "";
    assert BaseToken("T") == "t" && BaseToken("NT") == "nt" && BaseToken("INT") == "int";
    assert BaseToken("GINT") == "gint" && BaseToken("IGINT") == "igint";
    assert LowerAll("BIGINT")[0] == 'b';
  }

  // ----- paging through a table -----

  /** Windows strictly past the last key tuple, of any size and in either direction, list the table exactly. */
  method BrowseAll<K(!new, ==)>(
    ghost lt: (K, K) -> bool, ghost table: set<Row<K>>, key: KeySpec, fetch: Option<seq<Cell<K>>> -> seq<Row<K>>, ghost pageSize: nat)
    returns (all: seq<Row<K>>)
    requires StrictTotal(lt) && Keyed(table, key) && pageSize > 0
    requires forall b :: IsPage(table, KeyFn(key), SeekOrder(lt, key.direction), b, pageSize, fetch(b))
    ensures Listing(table, KeyFn(key), SeekOrder(lt, key.direction), all)
  {
    hide StrictTotal, Keyed, Total, Listing, IsPage;
    KeyedTotal(lt, table, key);
    all := Walk(table, KeyFn(key), SeekOrder(lt, key.direction), fetch, pageSize);
  }

  /** Sorting the other way lists the same rows in the opposite order. */
  lemma DirectionsMirror<K(!new)>(lt: (K, K) -> bool, table: set<Row<K>>, key: KeySpec, up: seq<Row<K>>, down: seq<Row<K>>)
    requires StrictTotal(lt) && Keyed(table, key)
    requires Listing(table, KeyFn(key), SeekOrder(lt, Asc), up) && Listing(table, KeyFn(key), SeekOrder(lt, Desc), down)
    ensures down == Reversed(up)
  {
    hide StrictTotal, Keyed, Total, Listing;
    var kf: Row<K> -> seq<Cell<K>> := KeyFn(key);
    ListingReversed(table, kf, SeekOrder(lt, Asc), SeekOrder(lt, Desc), up);
    var desc := key.(direction := Desc);
    SameKey(table, key, Desc);
    KeyedTotal(lt, table, desc);
    SameKeyFn(table, key, desc);
    TotalSame(table, KeyFn(desc), kf, SeekOrder(lt, Desc));
    ListingUnique(table, kf, SeekOrder(lt, Desc), Reversed(up), down);
  }

  lemma SameKey<K(!new)>(table: set<Row<K>>, key: KeySpec, direction: SortDirection)
    requires Keyed(table, key)
    ensures Keyed(table, key.(direction := direction))
  {
    var other := key.(direction := direction);
    forall r | r in table ensures TupleOf(other, r) == TupleOf(key, r) {
    }
  }

  lemma SameKeyFn<K(!new)>(table: set<Row<K>>, key: KeySpec, other: KeySpec)
    requires other == key.(direction := other.direction)
    ensures forall r: Row<K> :: KeyFn(other)(r) == KeyFn(key)(r)
  {
  }

  lemma TotalSame<R(!new), K>(table: set<R>, f: R -> K, g: R -> K, lt: (K, K) -> bool)
    requires Total(table, f, lt) && forall r :: f(r) == g(r)
    ensures Total(table, g, lt)
  {
  }

  /** Without a tiebreaker, two rows that share the sort value cost one of them at a page boundary. */
  lemma TiesNeedTiebreak<K(!new)>(lt: (K, K) -> bool, key: KeySpec, r: Row<K>, s: Row<K>)
    requires StrictTotal(lt) && key.tiebreak.None? && At(r, key.column) == At(s, key.column)
    ensures var kf, order := KeyFn(key), SeekOrder(lt, key.direction);
            Window([r, s], kf, order, None, 1) == [r] && Window([r, s], kf, order, Some(kf(r)), 1) == []
  {
    var kf: Row<K> -> seq<Cell<K>> := KeyFn(key);
    var order := SeekOrder(lt, key.direction);
    assert kf(r) == kf(s);
    RowLessIrreflexive(lt, kf(r));
    assert !order(kf(r), kf(s));
    assert [r, s][1..] == [s] && [s][1..] == [];
    assert Passing([s], kf, order, Some(kf(r))) == [];
    assert Passing([s], kf, order, None) == [s];
    assert Passing([r, s], kf, order, None) == [r, s];
  }
}
