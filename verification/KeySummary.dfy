/**
 * What crates/red-core/src/kv.rs shows of the key templates: `summarize_template` and the
 * ranked list of `infer_key_templates`.
 */
module KeySummary {
  import opened Wrappers
  import opened Strings
  import opened KeyTemplates
  import Sorting

  // ----- summaries -----

  datatype TypeCount = TypeCount(name: string, count: nat)

  datatype KeyTemplate = KeyTemplate(
    pattern: string, count: nat, bytes: nat, types: seq<TypeCount>, withTtl: nat, medianTtl: Option<nat>)

  const U64_MAX: nat := 0xFFFF_FFFF_FFFF_FFFF

  function SaturatingAdd(a: nat, b: nat): nat {
    if a + b > U64_MAX then U64_MAX else a + b
  }

  function BytesOf(rows: seq<Row>): nat {
    if rows == [] then 0 else SaturatingAdd(BytesOf(rows[..|rows| - 1]), rows[|rows| - 1].meta.bytes)
  }

  function TtlsOf(rows: seq<Row>): seq<nat> {
    if rows == [] then []
    else
      var ttl := rows[|rows| - 1].meta.ttl;
      TtlsOf(rows[..|rows| - 1]) + if ttl.Some? then [ttl.value] else []
  }

  /** One more of a type, in counts kept by label. */
  function AddType(types: seq<TypeCount>, name: string): seq<TypeCount> {
    if types == [] then [TypeCount(name, 1)]
    else if types[0].name == name then [TypeCount(name, types[0].count + 1)] + types[1..]
    else if Less(name, types[0].name) then [TypeCount(name, 1)] + types
    else [types[0]] + AddType(types[1..], name)
  }

  function TypesOf(rows: seq<Row>): seq<TypeCount> {
    if rows == [] then [] else AddType(TypesOf(rows[..|rows| - 1]), rows[|rows| - 1].meta.kind)
  }

  /** Most common first, then by label. */
  predicate TypeRanks(a: TypeCount, b: TypeCount) {
    a.count > b.count || (a.count == b.count && !Less(b.name, a.name))
  }

  function TypeOrder(): (TypeCount, TypeCount) -> bool {
    (a, b) => TypeRanks(a, b)
  }

  function NatOrder(): (nat, nat) -> bool {
    (a, b) => a <= b
  }

  function Summary(t: Template): KeyTemplate {
    var ttls := Sorting.Sorted(TtlsOf(t.rows), NatOrder());
    KeyTemplate(
      Label(t.pattern), |t.rows|, BytesOf(t.rows), Sorting.Sorted(TypesOf(t.rows), TypeOrder()), |ttls|,
      if ttls == [] then None else Some(ttls[|ttls| / 2]))
  }

  /** `summarize_template`. */
  method SummarizeTemplate(t: Template) returns (r: KeyTemplate)
    ensures r == Summary(t)
  {
    hide AddType, SaturatingAdd, Label;
    var rows := t.rows;
    var bytes := 0;
    var types: seq<TypeCount> := [];
    var ttls: seq<nat> := [];
    for i := 0 to |rows|
      invariant bytes == BytesOf(rows[..i]) && types == TypesOf(rows[..i]) && ttls == TtlsOf(rows[..i])
    {
      assert rows[..i + 1][..i] == rows[..i];
      var meta := rows[i].meta;
      bytes := SaturatingAdd(bytes, meta.bytes);
      types := AddType(types, meta.kind);
      if meta.ttl.Some? {
        ttls := ttls + [meta.ttl.value];
      }
    }
    assert rows[..|rows|] == rows;
    var ranked := Sorting.SortBy(types, TypeOrder());
    var sorted := Sorting.SortBy(ttls, NatOrder());
    r := KeyTemplate(Label(t.pattern), |rows|, bytes, ranked, |sorted|, if sorted == [] then None else Some(sorted[|sorted| / 2]));
  }

  function CountOf(types: seq<TypeCount>, name: string): nat {
    if types == [] then 0 else if types[0].name == name then types[0].count else CountOf(types[1..], name)
  }

  function Kinds(rows: seq<Row>): (r: seq<string>)
    ensures |r| == |rows|
  {
    seq(|rows|, i requires 0 <= i < |rows| => rows[i].meta.kind)
  }

  ghost predicate LabelsAscend(types: seq<TypeCount>) {
    forall i, j :: 0 <= i < j < |types| ==> Less(types[i].name, types[j].name)
  }

  lemma {:induction false} AbsentType(types: seq<TypeCount>, name: string)
    requires forall k :: 0 <= k < |types| ==> Less(name, types[k].name)
    ensures CountOf(types, name) == 0
    decreases |types|
  {
    hide Less;
    if types != [] {
      LessSelf(name);
      AbsentType(types[1..], name);
    }
  }

  lemma {:induction false} AddTypeStep(types: seq<TypeCount>, name: string)
    ensures var r := AddType(types, name);
            if types == [] then r == [TypeCount(name, 1)]
            else if types[0].name == name then r == [TypeCount(name, types[0].count + 1)] + types[1..]
            else if Less(name, types[0].name) then r == [TypeCount(name, 1)] + types
            else r == [types[0]] + AddType(types[1..], name)
  {
    hide Less;
  }

  lemma {:induction false} AddTypeLabels(types: seq<TypeCount>, name: string, low: string)
    requires Less(low, name) && forall k :: 0 <= k < |types| ==> Less(low, types[k].name)
    ensures forall k :: 0 <= k < |AddType(types, name)| ==> Less(low, AddType(types, name)[k].name)
    decreases |types|
  {
    hide Less, AddType;
    AddTypeStep(types, name);
    if types != [] {
      AddTypeLabels(types[1..], name, low);
    }
  }

  lemma AscendCons(t: TypeCount, types: seq<TypeCount>)
    requires LabelsAscend(types) && forall k :: 0 <= k < |types| ==> Less(t.name, types[k].name)
    ensures LabelsAscend([t] + types)
  {
    hide Less;
  }

  lemma {:induction false} AddTypeAscends(types: seq<TypeCount>, name: string)
    requires LabelsAscend(types)
    ensures LabelsAscend(AddType(types, name))
    decreases |types|
  {
    hide Less, AddType;
    AddTypeStep(types, name);
    if types != [] {
      var head, rest := types[0], types[1..];
      LessTotal(head.name, name);
      if head.name == name {
        AscendCons(TypeCount(name, head.count + 1), rest);
      } else if Less(name, head.name) {
        forall k | 0 <= k < |types| ensures Less(name, types[k].name) {
          if k > 0 {
            LessTrans(name, head.name, types[k].name);
          }
        }
        AscendCons(TypeCount(name, 1), types);
      } else {
        AddTypeAscends(rest, name);
        AddTypeLabels(rest, name, head.name);
        AscendCons(head, AddType(rest, name));
      }
    }
  }

  lemma {:induction false} AddTypeCounts(types: seq<TypeCount>, name: string, l: string)
    requires LabelsAscend(types)
    ensures CountOf(AddType(types, name), l) == CountOf(types, l) + if l == name then 1 else 0
    decreases |types|
  {
    hide Less, AddType;
    AddTypeStep(types, name);
    var r := AddType(types, name);
    if types == [] {
      assert r[1..] == [];
      assert CountOf([], l) == 0;
    } else if types[0].name == name {
      assert r[1..] == types[1..];
    } else if Less(name, types[0].name) {
      assert r[1..] == types;
      forall k | 0 <= k < |types| ensures Less(name, types[k].name) {
        if k > 0 {
          LessTrans(name, types[0].name, types[k].name);
        }
      }
      AbsentType(types, name);
    } else {
      assert r[1..] == AddType(types[1..], name);
      AddTypeCounts(types[1..], name, l);
    }
  }

  /** A template's types are counted exactly, one entry per type. */
  lemma {:induction false} TypesCounted(rows: seq<Row>, name: string)
    ensures LabelsAscend(TypesOf(rows)) && CountOf(TypesOf(rows), name) == multiset(Kinds(rows))[name]
    decreases |rows|
  {
    hide AddType, CountOf, LabelsAscend;
    if rows == [] {
      NoTypes(name);
    } else {
      var front, kind := rows[..|rows| - 1], rows[|rows| - 1].meta.kind;
      TypesCounted(front, name);
      AddTypeAscends(TypesOf(front), kind);
      AddTypeCounts(TypesOf(front), kind, name);
      assert Kinds(rows) == Kinds(front) + [kind];
    }
  }

  lemma NoTypes(name: string)
    ensures LabelsAscend([]) && CountOf([], name) == 0
  {
  }

  lemma TypeOrderTotal()
    ensures Sorting.TotalPreorder(TypeOrder())
  {
    hide Less;
    forall a: TypeCount, b: TypeCount ensures TypeRanks(a, b) || TypeRanks(b, a) {
      LessTotal(a.name, b.name);
    }
    forall a: TypeCount, b: TypeCount, c: TypeCount | TypeRanks(a, b) && TypeRanks(b, c) ensures TypeRanks(a, c) {
      if a.count == c.count {
        NotLessTrans(a.name, b.name, c.name);
      }
    }
  }

  /** The types of a summary are the counted ones, most common first; its median stands in the middle of the expiries. */
  lemma SummaryRanks(t: Template, name: string)
    ensures multiset(Summary(t).types) == multiset(TypesOf(t.rows)) && Sorting.Ordered(Summary(t).types, TypeOrder())
    ensures CountOf(TypesOf(t.rows), name) == multiset(Kinds(t.rows))[name]
    ensures Summary(t).withTtl == |TtlsOf(t.rows)|
    ensures Summary(t).medianTtl.Some? <==> TtlsOf(t.rows) != []
    ensures Summary(t).medianTtl.Some? ==>
              exists s: seq<nat> :: multiset(s) == multiset(TtlsOf(t.rows)) && Sorting.Ordered(s, NatOrder())
                && |s| > 0 && Summary(t).medianTtl.value == s[|s| / 2]
  {
    hide TypesOf, TtlsOf, Label, BytesOf, CountOf, Kinds, LabelsAscend;
    TypesCounted(t.rows, name);
    TypeOrderTotal();
    Sorting.SortedFacts(TypesOf(t.rows), TypeOrder());
    Sorting.SortedFacts(TtlsOf(t.rows), NatOrder());
  }

  // ----- totals over all templates -----

  function Sum(rows: seq<Row>, w: Row -> nat): nat {
    if rows == [] then 0 else w(rows[0]) + Sum(rows[1..], w)
  }

  lemma {:induction false} SumConcat(x: seq<Row>, y: seq<Row>, w: Row -> nat)
    ensures Sum(x + y, w) == Sum(x, w) + Sum(y, w)
    decreases |x|
  {
    if x == [] {
      assert x + y == y;
    } else {
      assert (x + y)[1..] == x[1..] + y;
      SumConcat(x[1..], y, w);
    }
  }

  lemma Without(y: seq<Row>, i: nat)
    requires i < |y|
    ensures multiset(y[..i] + y[i + 1..]) == multiset(y) - multiset{y[i]}
  {
    assert y == y[..i] + [y[i]] + y[i + 1..];
  }

  lemma {:induction false} SumWithout(y: seq<Row>, i: nat, w: Row -> nat)
    requires i < |y|
    ensures Sum(y, w) == w(y[i]) + Sum(y[..i] + y[i + 1..], w)
  {
    hide Sum;
    var l, r := y[..i], y[i + 1..];
    assert y == l + [y[i]] + r;
    SumConcat(l, r, w);
    SumConcat(l + [y[i]], r, w);
    SumSnoc(l, y[i], w);
  }

  lemma FindRow(y: seq<Row>, row: Row) returns (i: nat)
    requires row in multiset(y)
    ensures i < |y| && y[i] == row
  {
    i :| 0 <= i < |y| && y[i] == row;
  }

  lemma WithoutHead(x: seq<Row>)
    requires x != []
    ensures multiset(x[1..]) == multiset(x) - multiset{x[0]}
  {
    assert x == [x[0]] + x[1..];
  }

  lemma SameWithout(x: seq<Row>, y: seq<Row>, i: nat)
    requires multiset(x) == multiset(y) && x != [] && i < |y| && y[i] == x[0]
    ensures multiset(x[1..]) == multiset(y[..i] + y[i + 1..])
  {
    calc {
      multiset(x[1..]);
      { WithoutHead(x); }
      multiset(x) - multiset{x[0]};
      multiset(y) - multiset{y[i]};
      { Without(y, i); }
      multiset(y[..i] + y[i + 1..]);
    }
  }

  lemma RestAlike(x: seq<Row>, y: seq<Row>) returns (i: nat)
    requires multiset(x) == multiset(y) && x != []
    ensures i < |y| && y[i] == x[0] && multiset(x[1..]) == multiset(y[..i] + y[i + 1..])
  {
    assert x[0] in multiset(x);
    i := FindRow(y, x[0]);
    SameWithout(x, y, i);
  }

  lemma NoRows(y: seq<Row>)
    requires multiset(y) == multiset([])
    ensures y == []
  {
    assert |multiset(y)| == |y|;
  }

  /** A sum does not depend on the order. */
  lemma {:induction false} SumPermutes(x: seq<Row>, y: seq<Row>, w: Row -> nat)
    requires multiset(x) == multiset(y)
    ensures Sum(x, w) == Sum(y, w)
    decreases |x|
  {
    hide Sum;
    if x == [] {
      NoRows(y);
    } else {
      var i := RestAlike(x, y);
      var rest := y[..i] + y[i + 1..];
      SumWithout(x, 0, w);
      SumWithout(y, i, w);
      assert x[..0] + x[1..] == x[1..];
      SumPermutes(x[1..], rest, w);
    }
  }

  function AllRows(ts: seq<Template>): seq<Row> {
    if ts == [] then [] else ts[0].rows + AllRows(ts[1..])
  }

  lemma {:induction false} AllRowsCovered(ts: seq<Template>)
    ensures multiset(AllRows(ts)) == Covered(ts)
    decreases |ts|
  {
    if ts != [] {
      AllRowsCovered(ts[1..]);
    }
  }

  function SumOver(ts: seq<Template>, w: Row -> nat): nat {
    if ts == [] then 0 else Sum(ts[0].rows, w) + SumOver(ts[1..], w)
  }

  lemma {:induction false} SumOverRows(ts: seq<Template>, w: Row -> nat)
    ensures SumOver(ts, w) == Sum(AllRows(ts), w)
    decreases |ts|
  {
    if ts != [] {
      SumOverRows(ts[1..], w);
      SumConcat(ts[0].rows, AllRows(ts[1..]), w);
    }
  }

  /** Whatever is added up over the keys adds up over the templates. */
  lemma TotalsAddUp(keys: seq<KeyMeta>, w: Row -> nat)
    ensures SumOver(Templates(keys), w) == Sum(RowsOf(keys), w)
  {
    hide Templates, Covered, AllHold, Sum, SumOver;
    var ts := Templates(keys);
    TemplatesPartition(keys);
    AllRowsCovered(ts);
    SumOverRows(ts, w);
    SumPermutes(AllRows(ts), RowsOf(keys), w);
  }

  function ByteWeight(): Row -> nat {
    (row: Row) => row.meta.bytes
  }

  lemma {:induction false} SumSnoc(rows: seq<Row>, row: Row, w: Row -> nat)
    ensures Sum(rows + [row], w) == Sum(rows, w) + w(row)
  {
    SumConcat(rows, [row], w);
    assert [row][1..] == [];
  }

  /** Bytes saturate at the largest 64-bit number and otherwise add up. */
  lemma {:induction false} BytesSaturate(rows: seq<Row>)
    ensures BytesOf(rows) == if Sum(rows, ByteWeight()) > U64_MAX then U64_MAX else Sum(rows, ByteWeight())
    decreases |rows|
  {
    if rows != [] {
      var front, row := rows[..|rows| - 1], rows[|rows| - 1];
      BytesSaturate(front);
      SumSnoc(front, row, ByteWeight());
      assert rows == front + [row];
    }
  }

  function TtlWeight(): Row -> nat {
    (row: Row) => if row.meta.ttl.Some? then 1 else 0
  }

  lemma {:induction false} TtlsCounted(rows: seq<Row>)
    ensures |TtlsOf(rows)| == Sum(rows, TtlWeight())
    decreases |rows|
  {
    if rows != [] {
      var front, row := rows[..|rows| - 1], rows[|rows| - 1];
      TtlsCounted(front);
      SumSnoc(front, row, TtlWeight());
      assert rows == front + [row];
    }
  }

  /** Bytes and expiring keys over the summaries. */
  function TotalBytes(ts: seq<Template>): nat {
    if ts == [] then 0 else Summary(ts[0]).bytes + TotalBytes(ts[1..])
  }

  function TotalTtls(ts: seq<Template>): nat {
    if ts == [] then 0 else Summary(ts[0]).withTtl + TotalTtls(ts[1..])
  }

  lemma {:induction false} TotalsOver(ts: seq<Template>)
    ensures TotalTtls(ts) == SumOver(ts, TtlWeight())
    ensures SumOver(ts, ByteWeight()) <= U64_MAX ==> TotalBytes(ts) == SumOver(ts, ByteWeight())
    decreases |ts|
  {
    hide BytesOf, TtlsOf, TypesOf, Sum, Label;
    if ts != [] {
      TotalsOver(ts[1..]);
      BytesSaturate(ts[0].rows);
      TtlsCounted(ts[0].rows);
    }
  }

  /** Expiring keys add up over the templates, and so do bytes as long as 64 bits hold them. */
  lemma SummariesAddUp(keys: seq<KeyMeta>)
    ensures TotalTtls(Templates(keys)) == Sum(RowsOf(keys), TtlWeight())
    ensures Sum(RowsOf(keys), ByteWeight()) <= U64_MAX ==> TotalBytes(Templates(keys)) == Sum(RowsOf(keys), ByteWeight())
  {
    hide Templates, TotalBytes, TotalTtls, Sum, SumOver;
    TotalsAddUp(keys, TtlWeight());
    TotalsAddUp(keys, ByteWeight());
    TotalsOver(Templates(keys));
  }

  // ----- the list that is shown -----

  /** Larger templates first, then by pattern. */
  predicate Ranks(a: KeyTemplate, b: KeyTemplate) {
    a.count > b.count || (a.count == b.count && !Less(b.pattern, a.pattern))
  }

  function RankOrder(): (KeyTemplate, KeyTemplate) -> bool {
    (a, b) => Ranks(a, b)
  }

  function Summaries(ts: seq<Template>): (r: seq<KeyTemplate>)
    ensures |r| == |ts|
  {
    seq(|ts|, i requires 0 <= i < |ts| => Summary(ts[i]))
  }

  /** The summaries in the order they are shown. */
  function Ranked(keys: seq<KeyMeta>): (r: seq<KeyTemplate>)
    ensures |r| == |Templates(keys)|
  {
    Sorting.Sorted(Summaries(Templates(keys)), RankOrder())
  }

  lemma RankOrderTotal()
    ensures Sorting.TotalPreorder(RankOrder())
  {
    hide Less;
    forall a: KeyTemplate, b: KeyTemplate ensures Ranks(a, b) || Ranks(b, a) {
      LessTotal(a.pattern, b.pattern);
    }
    forall a: KeyTemplate, b: KeyTemplate, c: KeyTemplate | Ranks(a, b) && Ranks(b, c) ensures Ranks(a, c) {
      if a.count == c.count {
        NotLessTrans(a.pattern, b.pattern, c.pattern);
      }
    }
  }

  /** Ranking reorders the templates, largest first, and nothing else. */
  lemma RankedFacts(keys: seq<KeyMeta>)
    ensures multiset(Ranked(keys)) == multiset(Summaries(Templates(keys)))
    ensures forall i, j :: 0 <= i < j < |Ranked(keys)| ==> Ranks(Ranked(keys)[i], Ranked(keys)[j])
  {
    hide Templates, Summaries, Ranks;
    RankOrderTotal();
    Sorting.SortedFacts(Summaries(Templates(keys)), RankOrder());
  }

  function Top(ts: seq<KeyTemplate>, max: nat): seq<KeyTemplate> {
    if |ts| <= max then ts else ts[..max]
  }

  /** `infer_key_templates`. */
  method InferKeyTemplates(keys: seq<KeyMeta>, max: nat) returns (r: seq<KeyTemplate>)
    ensures r == Top(Ranked(keys), max)
  {
    hide Walk, Summary;
    var ts := WalkTemplates(RowsOf(keys), 0, [], []);
    assert ts == Templates(keys);
    var out: seq<KeyTemplate> := [];
    for i := 0 to |ts|
      invariant out == Summaries(ts)[..i]
    {
      var t := SummarizeTemplate(ts[i]);
      assert Summaries(ts)[..i + 1] == Summaries(ts)[..i] + [t];
      out := out + [t];
    }
    assert out == Summaries(ts);
    r := Sorting.SortBy(out, RankOrder());
    r := Top(r, max);
  }

  /** What is cut off is never larger than what is shown. */
  lemma ShownAreLargest(keys: seq<KeyMeta>, max: nat, i: nat, j: nat)
    requires i < max <= j < |Ranked(keys)|
    ensures Top(Ranked(keys), max)[i].count >= Ranked(keys)[j].count
  {
    hide Ranked;
    RankedFacts(keys);
    assert Ranks(Ranked(keys)[i], Ranked(keys)[j]);
  }

  function Sizes(ts: seq<Template>): nat {
    if ts == [] then 0 else |ts[0].rows| + Sizes(ts[1..])
  }

  lemma {:induction false} SizesCover(ts: seq<Template>)
    ensures Sizes(ts) == |Covered(ts)|
    decreases |ts|
  {
    if ts != [] {
      SizesCover(ts[1..]);
    }
  }

  /** The counts add up to the number of sampled keys. */
  lemma CountsAddUp(keys: seq<KeyMeta>)
    ensures Sizes(Templates(keys)) == |keys|
  {
    hide Templates, Covered, AllHold;
    TemplatesPartition(keys);
    SizesCover(Templates(keys));
  }
}
