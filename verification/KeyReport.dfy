/**
 * What the list of key templates in crates/red-core/src/kv.rs tells: label, counts, types and
 * expiries of each template, and the order of the list.
 */
module KeyReport {
  import opened Wrappers
  import opened Strings
  import opened KeyTemplates
  import opened KeySummary
  import Sorting

  // ----- labels -----

  function Shown(t: Token): string {
    match t case Any => "*" case Lit(text) => text
  }

  /** The tokens with colons between them. */
  function Colons(p: Pattern): string
    requires p != []
  {
    if |p| == 1 then Shown(p[0]) else Shown(p[0]) + ":" + Colons(p[1..])
  }

  lemma {:induction false} ColonsMore(p: Pattern, t: Token)
    requires p != []
    ensures Colons(p + [t]) == Colons(p) + ":" + Shown(t)
    decreases |p|
  {
    hide Shown;
    var all := p + [t];
    if |p| == 1 {
      assert all[1..] == [t] && all[0] == p[0];
    } else {
      assert all[1..] == p[1..] + [t];
      ColonsMore(p[1..], t);
      assert Shown(p[0]) + ":" + (Colons(p[1..]) + ":" + Shown(t)) == Colons(p) + ":" + Shown(t);
    }
  }

  lemma {:induction false} ColonsJoin(p: Pattern)
    requires p != []
    ensures JoinWith(Texts(p), ':') == Colons(p)
    decreases |p|
  {
    hide Colons;
    if |p| == 1 {
      ColonsOne(p);
    } else {
      var front, t := p[..|p| - 1], p[|p| - 1];
      ColonsJoin(front);
      assert p == front + [t];
      assert Texts(p)[..|p| - 1] == Texts(front);
      ColonsMore(front, t);
    }
  }

  lemma ColonsOne(p: Pattern)
    requires |p| == 1
    ensures Colons(p) == Shown(p[0]) == Texts(p)[0]
  {
  }

  /** A label is the pattern's segments with `*` for variables; the empty key has a name of its own. */
  lemma LabelExactly(p: Pattern)
    requires p != []
    ensures Label(p) == if p == [Lit("")] then "(no prefix)" else Colons(p)
  {
    hide Texts, JoinWith;
    ColonsJoin(p);
    if |p| > 1 {
      assert Colons(p) != "";
    } else {
      assert p == [p[0]];
    }
  }

  // ----- counting -----

  function OfKind(name: string): Row -> bool {
    (row: Row) => row.meta.kind == name
  }

  function Expires(n: nat): Row -> bool {
    (row: Row) => row.meta.ttl == Some(n)
  }

  function Expiring(): Row -> bool {
    (row: Row) => row.meta.ttl.Some?
  }

  /** The places at which a row passes. */
  ghost function Places(rows: seq<Row>, w: Row -> bool): set<int> {
    set i | 0 <= i < |rows| && w(rows[i])
  }

  lemma PlacesSnoc(rows: seq<Row>, row: Row, w: Row -> bool)
    ensures |Places(rows + [row], w)| == |Places(rows, w)| + if w(row) then 1 else 0
  {
    var n: int := |rows|;
    PlacesGrow(rows, row, w);
    hide Places;
    if w(row) {
      assert |Places(rows, w) + {n}| == |Places(rows, w)| + 1;
    }
  }

  lemma PlacesGrow(rows: seq<Row>, row: Row, w: Row -> bool)
    ensures |rows| !in Places(rows, w)
    ensures Places(rows + [row], w) == if w(row) then Places(rows, w) + {|rows|} else Places(rows, w)
  {
    var all := rows + [row];
    assert forall i :: 0 <= i < |rows| ==> all[i] == rows[i];
  }

  lemma {:induction false} KindPlaces(rows: seq<Row>, name: string)
    ensures multiset(Kinds(rows))[name] == |Places(rows, OfKind(name))|
    decreases |rows|
  {
    var w := OfKind(name);
    hide Places;
    if rows == [] {
      NoPlaces(w);
    } else {
      var front, row := rows[..|rows| - 1], rows[|rows| - 1];
      KindPlaces(front, name);
      assert Kinds(rows) == Kinds(front) + [row.meta.kind];
      assert rows == front + [row];
      PlacesSnoc(front, row, w);
    }
  }

  lemma NoPlaces(w: Row -> bool)
    ensures |Places([], w)| == 0
  {
    assert Places([], w) == {};
  }

  lemma {:induction false} TtlPlaces(rows: seq<Row>, n: nat)
    ensures multiset(TtlsOf(rows))[n] == |Places(rows, Expires(n))|
    decreases |rows|
  {
    var w := Expires(n);
    hide Places;
    if rows == [] {
      NoPlaces(w);
    } else {
      var front, row := rows[..|rows| - 1], rows[|rows| - 1];
      TtlPlaces(front, n);
      assert rows == front + [row];
      PlacesSnoc(front, row, w);
    }
  }

  lemma {:induction false} ExpiringPlaces(rows: seq<Row>)
    ensures |TtlsOf(rows)| == |Places(rows, Expiring())|
    decreases |rows|
  {
    var w := Expiring();
    hide Places;
    if rows == [] {
      NoPlaces(w);
    } else {
      var front, row := rows[..|rows| - 1], rows[|rows| - 1];
      ExpiringPlaces(front);
      assert rows == front + [row];
      PlacesSnoc(front, row, w);
    }
  }

  // ----- types -----

  lemma {:induction false} CountedIsListed(types: seq<TypeCount>, c: TypeCount)
    requires LabelsAscend(types)
    ensures c in types ==> CountOf(types, c.name) == c.count
    ensures CountOf(types, c.name) == c.count && c.count > 0 ==> c in types
    decreases |types|
  {
    hide Less;
    if types != [] {
      var rest := types[1..];
      assert types == [types[0]] + rest;
      CountedIsListed(rest, c);
      if c in rest {
        var k :| 0 <= k < |rest| && rest[k] == c;
        assert Less(types[0].name, types[k + 1].name);
        LessSelf(c.name);
      }
    }
  }

  predicate Positive(types: seq<TypeCount>) {
    forall k :: 0 <= k < |types| ==> types[k].count > 0
  }

  lemma {:induction false} AddTypePositive(types: seq<TypeCount>, name: string)
    requires Positive(types)
    ensures Positive(AddType(types, name))
    decreases |types|
  {
    hide Less;
    if types != [] && types[0].name != name && !Less(name, types[0].name) {
      AddTypePositive(types[1..], name);
    }
  }

  lemma {:induction false} TypesPositive(rows: seq<Row>)
    ensures Positive(TypesOf(rows))
    decreases |rows|
  {
    hide AddType, Positive;
    if rows == [] {
      assert Positive([]) by { NonePositive(); }
    } else {
      TypesPositive(rows[..|rows| - 1]);
      AddTypePositive(TypesOf(rows[..|rows| - 1]), rows[|rows| - 1].meta.kind);
    }
  }

  lemma NonePositive()
    ensures Positive([])
  {
  }

  /** A summary lists the types of its keys with how many keys have each: frequent ones first, then by name. */
  lemma TypesExactly(t: Template, c: TypeCount, i: nat, j: nat)
    ensures c in Summary(t).types <==> c.count > 0 && |Places(t.rows, OfKind(c.name))| == c.count
    ensures i < j < |Summary(t).types| ==>
              var x, y := Summary(t).types[i], Summary(t).types[j];
              x.count > y.count || (x.count == y.count && !Precedes(y.name, x.name))
  {
    hide TypesOf, TtlsOf, Label, BytesOf, CountOf, Kinds, LabelsAscend, Places, Precedes, Less, Positive;
    var types := Summary(t).types;
    SummaryRanks(t, c.name);
    TypesCounted(t.rows, c.name);
    TypesPositive(t.rows);
    KindPlaces(t.rows, c.name);
    CountedIsListed(TypesOf(t.rows), c);
    assert c in types <==> c in multiset(types);
    assert c in TypesOf(t.rows) <==> c in multiset(TypesOf(t.rows));
    if c in TypesOf(t.rows) {
      ListedPositive(TypesOf(t.rows), c);
    }
    if i < j < |types| {
      assert TypeOrder()(types[i], types[j]);
      LessExactly(types[j].name, types[i].name);
    }
  }

  lemma ListedPositive(types: seq<TypeCount>, c: TypeCount)
    requires Positive(types) && c in types
    ensures c.count > 0
  {
  }

  // ----- the rest of a summary -----

  /** How many keys and how many expiring ones, their bytes up to 64 bits, and the middle expiry. */
  lemma SummaryExactly(t: Template)
    ensures var s := Summary(t);
            && s.pattern == Label(t.pattern) && s.count == |t.rows|
            && s.withTtl == |Places(t.rows, Expiring())|
            && (var total := Sum(t.rows, ByteWeight()); s.bytes == if total < 0x1_0000_0000_0000_0000 then total else 0xFFFF_FFFF_FFFF_FFFF)
            && (s.medianTtl.None? <==> s.withTtl == 0)
            && (s.medianTtl.Some? ==>
                  exists sorted: seq<nat> ::
                    && |sorted| == s.withTtl && s.medianTtl.value == sorted[|sorted| / 2]
                    && (forall i, j :: 0 <= i < j < |sorted| ==> sorted[i] <= sorted[j])
                    && (forall n :: multiset(sorted)[n] == |Places(t.rows, Expires(n))|))
  {
    hide TypesOf, TtlsOf, Label, BytesOf, Places, Sum;
    ExpiringPlaces(t.rows);
    BytesSaturate(t.rows);
    forall n ensures multiset(TtlsOf(t.rows))[n] == |Places(t.rows, Expires(n))| {
      TtlPlaces(t.rows, n);
    }
    var ttls := TtlsOf(t.rows);
    var sorted := Sorting.Sorted(ttls, NatOrder());
    Sorting.SortedFacts(ttls, NatOrder());
    assert forall i, j :: 0 <= i < j < |sorted| ==> NatOrder()(sorted[i], sorted[j]);
  }

  // ----- the list -----

  /** The list is the largest templates first, by label among equals, and no longer than asked. */
  lemma ListExactly(keys: seq<KeyMeta>, max: nat, i: nat, j: nat)
    ensures var r := Top(Ranked(keys), max);
            && |r| == (if |Templates(keys)| <= max then |Templates(keys)| else max)
            && r == Ranked(keys)[..|r|]
    ensures i < j < |Ranked(keys)| ==>
              var x, y := Ranked(keys)[i], Ranked(keys)[j];
              x.count > y.count || (x.count == y.count && !Precedes(y.pattern, x.pattern))
  {
    hide Templates, Summaries, Precedes, Less;
    RankedFacts(keys);
    if i < j < |Ranked(keys)| {
      assert Ranks(Ranked(keys)[i], Ranked(keys)[j]);
      LessExactly(Ranked(keys)[j].pattern, Ranked(keys)[i].pattern);
    }
    assert Ranked(keys)[..|Ranked(keys)|] == Ranked(keys);
  }
}
