/**
 * Which key `KeySpec` of crates/red-core/src/lib.rs picks from a table's detail, and in which
 * order it lists the rows.
 */
module KeysetChoice {
  import opened Wrappers
  import opened Seek
  import opened Keyset

  // ----- integer types -----

  const INT_NAMES: seq<string> := [
    "int", "integer", "int2", "int4", "int8", "tinyint", "smallint", "mediumint", "bigint", "serial", "smallserial", "bigserial"]

  /** `t` starts with the name `w`, in any case, and then ends or goes on with `(` or a space. */
  predicate Names(t: string, w: string) {
    && |w| <= |t| && (|w| < |t| ==> t[|w|] == '(' || t[|w|] == ' ')
    && forall k :: 0 <= k < |w| ==> SameLetter(t[k], w[k])
  }

  /** The same letter, the second one in lower case. */
  predicate SameLetter(c: char, l: char) {
    if 'A' <= c <= 'Z' then c as int + 32 == l as int else c == l
  }

  predicate Solid(w: string) {
    forall k :: 0 <= k < |w| ==> w[k] != '(' && w[k] != ' '
  }

  lemma {:induction false} TokenExactly(t: string, w: string)
    requires Solid(w)
    ensures BaseToken(t) == w <==> Names(t, w)
    decreases |t|
  {
    if t != "" && t[0] != '(' && t[0] != ' ' {
      var b := BaseToken(t);
      assert b == [LowerChar(t[0])] + BaseToken(t[1..]);
      if w != "" {
        TokenExactly(t[1..], w[1..]);
        assert w == [w[0]] + w[1..];
        if Names(t, w) {
          forall k | 0 <= k < |w[1..]| ensures SameLetter(t[1..][k], w[1..][k]) {
            assert SameLetter(t[k + 1], w[k + 1]);
          }
        }
        if Names(t[1..], w[1..]) && SameLetter(t[0], w[0]) {
          forall k | 0 <= k < |w| ensures SameLetter(t[k], w[k]) {
            assert k > 0 ==> SameLetter(t[1..][k - 1], w[1..][k - 1]);
          }
        }
        assert b == w <==> LowerChar(t[0]) == w[0] && b[1..] == w[1..];
      }
    }
  }

  lemma IntNamesSolid()
    ensures forall k :: 0 <= k < |INT_NAMES| ==> Solid(INT_NAMES[k])
  {
    forall k | 0 <= k < |INT_NAMES| ensures Solid(INT_NAMES[k]) {
    }
  }

  lemma IntListed(w: string)
    ensures w in INT_NAMES <==> w in {
              "int", "integer", "int2", "int4", "int8", "tinyint", "smallint", "mediumint", "bigint",
              "serial", "smallserial", "bigserial"}
  {
  }

  /** The declared type is one of the integer names, a length or further words aside. */
  ghost predicate IntegerNamed(c: ColumnMeta) {
    c.typeName.Some? && exists k :: 0 <= k < |INT_NAMES| && Names(c.typeName.value, INT_NAMES[k])
  }

  lemma KindExactly(c: ColumnMeta)
    ensures KindOf(c) == (if IntegerNamed(c) then IntKey else OtherKey)
  {
    hide BaseToken, Names, Solid;
    IntNamesSolid();
    if c.typeName.Some? {
      var t := c.typeName.value;
      IntListed(BaseToken(t));
      forall k | 0 <= k < |INT_NAMES| ensures BaseToken(t) == INT_NAMES[k] <==> Names(t, INT_NAMES[k]) {
        TokenExactly(t, INT_NAMES[k]);
      }
    }
  }

  // ----- the key column -----

  /** Column `k` is the only one of the primary key. */
  predicate OnlyPrimary(d: TableDetail, k: nat) {
    k < |d.columns| && d.columns[k].primaryKey && forall j :: 0 <= j < |d.columns| && j != k ==> !d.columns[j].primaryKey
  }

  predicate NoPrimary(d: TableDetail) {
    forall j :: 0 <= j < |d.columns| ==> !d.columns[j].primaryKey
  }

  /** Column `k` is the first of its name that is not nullable. */
  predicate FirstRequired(d: TableDetail, name: string, k: nat) {
    && k < |d.columns| && d.columns[k].name == name && d.columns[k].notNull
    && forall j :: 0 <= j < k ==> !(d.columns[j].name == name && d.columns[j].notNull)
  }

  predicate Serves(d: TableDetail, i: IndexMeta) {
    i.unique && |i.columns| == 1 && exists k :: 0 <= k < |d.columns| && d.columns[k].name == i.columns[0] && d.columns[k].notNull
  }

  /** Index `i` is the first unique one on a single column that is not nullable, column `k`. */
  predicate FirstServing(d: TableDetail, i: nat, k: nat) {
    && i < |d.indexes| && Serves(d, d.indexes[i]) && (forall j :: 0 <= j < i ==> !Serves(d, d.indexes[j]))
    && |d.indexes[i].columns| == 1 && FirstRequired(d, d.indexes[i].columns[0], k)
  }

  lemma {:induction false} NoPrimaryKeys(columns: seq<ColumnMeta>)
    requires forall j :: 0 <= j < |columns| ==> !columns[j].primaryKey
    ensures PrimaryKeys(columns) == []
    decreases |columns|
  {
    if columns != [] {
      NoPrimaryKeys(columns[1..]);
    }
  }

  lemma {:induction false} OnePrimaryKey(columns: seq<ColumnMeta>, k: nat)
    requires k < |columns| && columns[k].primaryKey && forall j :: 0 <= j < |columns| && j != k ==> !columns[j].primaryKey
    ensures PrimaryKeys(columns) == [columns[k]]
    decreases |columns|
  {
    if k == 0 {
      NoPrimaryKeys(columns[1..]);
    } else {
      OnePrimaryKey(columns[1..], k - 1);
    }
  }

  lemma {:induction false} PrimaryKeysCount(columns: seq<ColumnMeta>, i: nat, j: nat)
    requires i < j < |columns| && columns[i].primaryKey && columns[j].primaryKey
    ensures |PrimaryKeys(columns)| >= 2
    decreases |columns|
  {
    if i > 0 {
      PrimaryKeysCount(columns[1..], i - 1, j - 1);
    } else {
      SomePrimaryKey(columns[1..], j - 1);
    }
  }

  lemma {:induction false} SomePrimaryKey(columns: seq<ColumnMeta>, j: nat)
    requires j < |columns| && columns[j].primaryKey
    ensures PrimaryKeys(columns) != []
    decreases |columns|
  {
    if j > 0 {
      SomePrimaryKey(columns[1..], j - 1);
    }
  }

  lemma {:induction false} FindsFirst(columns: seq<ColumnMeta>, name: string, notNull: bool, k: nat)
    requires k < |columns| && columns[k].name == name && (notNull ==> columns[k].notNull)
    requires forall j :: 0 <= j < k ==> !(columns[j].name == name && (notNull ==> columns[j].notNull))
    ensures FindColumn(columns, name, notNull) == Some(columns[k])
    decreases |columns|
  {
    if k > 0 {
      assert !(columns[0].name == name && (notNull ==> columns[0].notNull));
      FindsFirst(columns[1..], name, notNull, k - 1);
    }
  }

  lemma {:induction false} FindsNone(columns: seq<ColumnMeta>, name: string, notNull: bool)
    requires forall j :: 0 <= j < |columns| ==> !(columns[j].name == name && (notNull ==> columns[j].notNull))
    ensures FindColumn(columns, name, notNull) == None
    decreases |columns|
  {
    if columns != [] {
      FindsNone(columns[1..], name, notNull);
    }
  }

  lemma ServesIs(d: TableDetail, i: IndexMeta)
    ensures Serves(d, i) <==> i.unique && |i.columns| == 1 && FindColumn(d.columns, i.columns[0], true).Some?
  {
    hide FindColumn;
    if i.unique && |i.columns| == 1 {
      if !Serves(d, i) {
        FindsNone(d.columns, i.columns[0], true);
      } else if FindColumn(d.columns, i.columns[0], true).None? {
        SomeRequired(d, i.columns[0]);
        assert false;
      }
    }
  }

  lemma SomeRequired(d: TableDetail, name: string)
    requires exists k :: 0 <= k < |d.columns| && d.columns[k].name == name && d.columns[k].notNull
    ensures FindColumn(d.columns, name, true).Some?
  {
    var k :| 0 <= k < |d.columns| && d.columns[k].name == name && d.columns[k].notNull;
    FoundSome(d.columns, name, k);
  }

  lemma {:induction false} FoundSome(columns: seq<ColumnMeta>, name: string, k: nat)
    requires k < |columns| && columns[k].name == name && columns[k].notNull
    ensures FindColumn(columns, name, true).Some?
    decreases |columns|
  {
    if k > 0 {
      FoundSome(columns[1..], name, k - 1);
    }
  }

  lemma {:induction false} UniqueIs(d: TableDetail, indexes: seq<IndexMeta>, i: nat)
    requires i <= |indexes| && (forall j :: 0 <= j < i ==> !Serves(d, indexes[j])) && (i < |indexes| ==> Serves(d, indexes[i]))
    ensures UniqueColumn(d.columns, indexes) == if i < |indexes| then FindColumn(d.columns, indexes[i].columns[0], true) else None
    decreases |indexes|
  {
    hide FindColumn, Serves;
    if indexes != [] {
      ServesIs(d, indexes[0]);
      if i > 0 {
        UniqueIs(d, indexes[1..], i - 1);
      }
    }
  }

  /**
   * The key column is the single primary-key column; without any, the column of the first unique
   * single-column index that is not nullable; and with several primary-key columns there is none.
   */
  lemma KeyColumnExactly(d: TableDetail, k: nat, i: nat)
    ensures OnlyPrimary(d, k) ==> ResolveKeyColumn(d) == Some(d.columns[k])
    ensures NoPrimary(d) && FirstServing(d, i, k) ==> ResolveKeyColumn(d) == Some(d.columns[k])
    ensures NoPrimary(d) && (forall j :: 0 <= j < |d.indexes| ==> !Serves(d, d.indexes[j])) ==> ResolveKeyColumn(d) == None
    ensures i < k < |d.columns| && d.columns[i].primaryKey && d.columns[k].primaryKey ==> ResolveKeyColumn(d) == None
  {
    hide PrimaryKeys, UniqueColumn, FindColumn, Serves;
    if OnlyPrimary(d, k) {
      OnePrimaryKey(d.columns, k);
    }
    if NoPrimary(d) {
      NoPrimaryKeys(d.columns);
      if FirstServing(d, i, k) {
        UniqueIs(d, d.indexes, i);
        FindsFirst(d.columns, d.indexes[i].columns[0], true, k);
      }
      if forall j :: 0 <= j < |d.indexes| ==> !Serves(d, d.indexes[j]) {
        UniqueIs(d, d.indexes, |d.indexes|);
      }
    }
    if i < k < |d.columns| && d.columns[i].primaryKey && d.columns[k].primaryKey {
      PrimaryKeysCount(d.columns, i, k);
    }
  }

  // ----- the keys -----

  /** `from_detail`: the key column alone, ascending, unless it is nullable and no integer. */
  lemma FromDetailIs(d: TableDetail, c: ColumnMeta)
    requires ResolveKeyColumn(d) == Some(c)
    ensures FromDetail(d) ==
            if c.notNull || IntegerNamed(c)
            then Some(KeySpec(c.name, if IntegerNamed(c) then IntKey else OtherKey, c.typeName, None, None, Asc))
            else None
  {
    hide KindOf, IntegerNamed, ResolveKeyColumn;
    KindExactly(c);
  }

  /**
   * `sorted`: the first column of the asked name, then the key column as tiebreaker; the key
   * column alone when that was asked for; nothing for a nullable column or an unknown name.
   */
  lemma SortedKeyIs(d: TableDetail, pk: ColumnMeta, sortCol: string, direction: SortDirection, k: nat)
    requires ResolveKeyColumn(d) == Some(pk)
    requires k < |d.columns| ==> d.columns[k].name == sortCol && forall j :: 0 <= j < k ==> d.columns[j].name != sortCol
    requires k >= |d.columns| ==> forall j :: 0 <= j < |d.columns| ==> d.columns[j].name != sortCol
    ensures SortedKey(d, sortCol, direction) ==
            if k >= |d.columns| then None
            else if sortCol == pk.name then Some(KeySpec(pk.name, if IntegerNamed(pk) then IntKey else OtherKey, pk.typeName, None, None, direction))
            else if d.columns[k].notNull
            then Some(KeySpec(
                        sortCol, if IntegerNamed(d.columns[k]) then IntKey else OtherKey, d.columns[k].typeName,
                        Some(pk.name), pk.typeName, direction))
            else None
  {
    hide KindOf, IntegerNamed, ResolveKeyColumn, FindColumn;
    KindExactly(pk);
    if k < |d.columns| {
      FindsFirst(d.columns, sortCol, false, k);
      KindExactly(d.columns[k]);
    } else {
      FindsNone(d.columns, sortCol, false);
    }
  }

  // ----- the order of a listing -----

  /** Row `r` comes before `s` by the sort column, or by the tiebreaker among equals. */
  ghost predicate Before<K(!new)>(lt: (K, K) -> bool, key: KeySpec, r: Row<K>, s: Row<K>) {
    && key.column in r && key.column in s && r[key.column].Val? && s[key.column].Val?
    && var x, y := r[key.column].value, s[key.column].value;
       || lt(x, y)
       || (&& x == y && key.tiebreak.Some?
           && key.tiebreak.value in r && key.tiebreak.value in s && r[key.tiebreak.value].Val? && s[key.tiebreak.value].Val?
           && lt(r[key.tiebreak.value].value, s[key.tiebreak.value].value))
  }

  lemma BeforeIs<K(!new)>(lt: (K, K) -> bool, key: KeySpec, r: Row<K>, s: Row<K>)
    ensures RowLess(lt, TupleOf(key, r), TupleOf(key, s)) <==> Before(lt, key, r, s)
  {
    var a, b := TupleOf(key, r), TupleOf(key, s);
    var x, y := At(r, key.column), At(s, key.column);
    if key.tiebreak.Some? {
      var u, v := At(r, key.tiebreak.value), At(s, key.tiebreak.value);
      assert a[1..] == [u] && b[1..] == [v];
      OneLess(lt, u, v);
    } else {
      assert a[1..] == [] && b[1..] == [];
    }
    assert RowLess(lt, a, b) <==> x.Val? && y.Val? && (lt(x.value, y.value) || (x == y && RowLess(lt, a[1..], b[1..])));
  }

  lemma OneLess<K(!new)>(lt: (K, K) -> bool, u: Cell<K>, v: Cell<K>)
    ensures RowLess(lt, [u], [v]) <==> u.Val? && v.Val? && lt(u.value, v.value)
  {
    assert [u][1..] == [] && [v][1..] == [];
  }

  /** Listed rows stand in the order of the sort column and its tiebreaker, or in the opposite one. */
  lemma ListingInOrder<K(!new)>(lt: (K, K) -> bool, table: set<Row<K>>, key: KeySpec, rows: seq<Row<K>>, i: nat, j: nat)
    requires Listing(table, KeyFn(key), SeekOrder(lt, key.direction), rows) && i < j < |rows|
    ensures if key.direction == Asc then Before(lt, key, rows[i], rows[j]) else Before(lt, key, rows[j], rows[i])
  {
    hide RowLess, TupleOf, Before;
    var kf: Row<K> -> seq<Cell<K>> := KeyFn(key);
    assert SeekOrder(lt, key.direction)(kf(rows[i]), kf(rows[j]));
    BeforeIs(lt, key, rows[i], rows[j]);
    BeforeIs(lt, key, rows[j], rows[i]);
  }
}
