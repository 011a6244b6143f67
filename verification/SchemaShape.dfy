/**
 * The rows of an inferred schema in crates/red-core/src/doc.rs: each path's types ranked
 * by frequency, and how often the path was present.
 */
module SchemaShape {
  import opened Wrappers
  import opened ExtJson
  import opened Strings
  import opened DocSchema
  import Sorting

  /** The `$type` alias. */
  function AliasOf(t: DocType): string {
    match t
    case TNull => "null"
    case TBool => "bool"
    case TInt => "int"
    case TLong => "long"
    case TDouble => "double"
    case TDecimal => "decimal"
    case TStr => "string"
    case TObjectId => "objectId"
    case TDate => "date"
    case TTimestamp => "timestamp"
    case TBinary => "binData"
    case TRegex => "regex"
    case TArray => "array"
    case TObject => "object"
  }

  const ALL_TYPES: seq<DocType> := [
    TNull, TBool, TInt, TLong, TDouble, TDecimal, TStr, TObjectId, TDate, TTimestamp, TBinary, TRegex, TArray, TObject]

  datatype TypeCount = TypeCount(kind: DocType, count: nat)

  /** The counts of a map, in the order of its keys. */
  function Listed(types: map<DocType, nat>, all: seq<DocType>): seq<TypeCount> {
    if all == [] then []
    else (if all[0] in types then [TypeCount(all[0], types[all[0]])] else []) + Listed(types, all[1..])
  }

  /** Most frequent first, ties by alias. */
  predicate TypeRanks(a: TypeCount, b: TypeCount) {
    a.count > b.count || (a.count == b.count && !Less(AliasOf(b.kind), AliasOf(a.kind)))
  }

  function TypeOrder(): (TypeCount, TypeCount) -> bool {
    (a, b) => TypeRanks(a, b)
  }

  datatype FieldShape = FieldShape(path: string, types: seq<TypeCount>, presentRatio: real)

  function Shape(f: FieldStat, sampled: nat): FieldShape {
    var denom := if sampled == 0 then 1 else sampled;
    FieldShape(f.path, Sorting.Sorted(Listed(f.types, ALL_TYPES), TypeOrder()), f.present as real / denom as real)
  }

  function Shapes(schema: Schema, sampled: nat): (r: seq<FieldShape>)
    ensures |r| == |schema|
  {
    seq(|schema|, i requires 0 <= i < |schema| => Shape(schema[i], sampled))
  }

  /** `DocSchema::from_documents`, its rows included. */
  method InferSchema(docs: seq<Doc>) returns (r: seq<FieldShape>)
    ensures r == Shapes(SchemaOf(docs), |docs|)
  {
    hide SchemaOf, Shape;
    var schema := FromDocuments(docs);
    r := [];
    for i := 0 to |schema|
      invariant r == Shapes(schema, |docs|)[..i]
    {
      assert Shapes(schema, |docs|)[..i + 1] == Shapes(schema, |docs|)[..i] + [Shape(schema[i], |docs|)];
      r := r + [Shape(schema[i], |docs|)];
    }
    assert r == Shapes(schema, |docs|);
  }

  // ----- types -----

  lemma {:induction false} ListedMember(types: map<DocType, nat>, all: seq<DocType>, c: TypeCount)
    ensures c in Listed(types, all) <==> c.kind in all && c.kind in types && types[c.kind] == c.count
    decreases |all|
  {
    if all != [] {
      ListedMember(types, all[1..], c);
    }
  }

  lemma AllTypes(t: DocType)
    ensures t in ALL_TYPES
  {
    match t
    case TNull => assert ALL_TYPES[0] == t;
    case TBool => assert ALL_TYPES[1] == t;
    case TInt => assert ALL_TYPES[2] == t;
    case TLong => assert ALL_TYPES[3] == t;
    case TDouble => assert ALL_TYPES[4] == t;
    case TDecimal => assert ALL_TYPES[5] == t;
    case TStr => assert ALL_TYPES[6] == t;
    case TObjectId => assert ALL_TYPES[7] == t;
    case TDate => assert ALL_TYPES[8] == t;
    case TTimestamp => assert ALL_TYPES[9] == t;
    case TBinary => assert ALL_TYPES[10] == t;
    case TRegex => assert ALL_TYPES[11] == t;
    case TArray => assert ALL_TYPES[12] == t;
    case TObject => assert ALL_TYPES[13] == t;
  }

  lemma TypeOrderTotal()
    ensures Sorting.TotalPreorder(TypeOrder())
  {
    hide Less, AliasOf;
    forall a: TypeCount, b: TypeCount ensures TypeRanks(a, b) || TypeRanks(b, a) {
      LessTotal(AliasOf(a.kind), AliasOf(b.kind));
    }
    forall a: TypeCount, b: TypeCount, c: TypeCount | TypeRanks(a, b) && TypeRanks(b, c) ensures TypeRanks(a, c) {
      if a.count == c.count {
        NotLessTrans(AliasOf(a.kind), AliasOf(b.kind), AliasOf(c.kind));
      }
    }
  }

  /** A path's types are ranked, and are exactly the types seen there with the number of times each was seen. */
  lemma TypesRanked(docs: seq<Doc>, k: nat, c: TypeCount)
    requires k < |SchemaOf(docs)|
    ensures var row := Shapes(SchemaOf(docs), |docs|)[k];
            && Sorting.Ordered(row.types, TypeOrder())
            && (c in row.types <==> c.count > 0 && multiset(SampleVisits(docs))[Visit(row.path, c.kind)] == c.count)
  {
    hide RecordAll, SampleVisits, Listed, Count, DocSchema.Sorted;
    var schema := SchemaOf(docs);
    var f := schema[k];
    TypeOrderTotal();
    Sorting.SortedFacts(Listed(f.types, ALL_TYPES), TypeOrder());
    var row := Shapes(schema, |docs|)[k];
    assert c in row.types <==> c in multiset(row.types);
    assert c in Listed(f.types, ALL_TYPES) <==> c in multiset(Listed(f.types, ALL_TYPES));
    ListedMember(f.types, ALL_TYPES, c);
    AllTypes(c.kind);
    SchemaCounts(docs, f.path, c.kind);
    CountAt(schema, k, c.kind);
    RecordAllPositive([], SampleVisits(docs));
  }

  /** The ranked row shows a scalar exactly when the rollup does, so the columns may be drawn from either. */
  lemma ScalarShape(f: FieldStat, sampled: nat)
    ensures (exists i :: 0 <= i < |Shape(f, sampled).types| && Shape(f, sampled).types[i].kind != TObject) <==> Scalar(f)
  {
    hide Listed;
    TypeOrderTotal();
    var list, types := Listed(f.types, ALL_TYPES), Shape(f, sampled).types;
    Sorting.SortedFacts(list, TypeOrder());
    if Scalar(f) {
      var t :| t in f.types && t != TObject;
      var c := TypeCount(t, f.types[t]);
      AllTypes(t);
      ListedMember(f.types, ALL_TYPES, c);
      assert c in multiset(list) && c in multiset(types);
      var i :| 0 <= i < |types| && types[i] == c;
    }
    if i :| 0 <= i < |types| && types[i].kind != TObject {
      assert types[i] in multiset(types) && types[i] in multiset(list);
      ListedMember(f.types, ALL_TYPES, types[i]);
    }
  }

  // ----- presence -----

  function VisitsAt(vs: seq<Visit>, p: string): nat {
    if vs == [] then 0 else (if vs[0].path == p then 1 else 0) + VisitsAt(vs[1..], p)
  }

  lemma {:induction false} VisitsConcat(x: seq<Visit>, y: seq<Visit>, p: string)
    ensures VisitsAt(x + y, p) == VisitsAt(x, p) + VisitsAt(y, p)
    decreases |x|
  {
    if x == [] {
      assert x + y == y;
    } else {
      assert (x + y)[1..] == x[1..] + y;
      VisitsConcat(x[1..], y, p);
    }
  }

  function Present(acc: Schema, p: string): nat {
    if acc == [] then 0 else if acc[0].path == p then acc[0].present else Present(acc[1..], p)
  }

  lemma {:induction false} AbsentPresent(acc: Schema, p: string)
    requires AllAfter(p, acc)
    ensures Present(acc, p) == 0
    decreases |acc|
  {
    hide Less;
    if acc != [] {
      LessSelf(p);
      AbsentPresent(acc[1..], p);
    }
  }

  lemma {:induction false} RecordPresent(acc: Schema, v: Visit, p: string)
    requires DocSchema.Sorted(acc)
    ensures Present(Record(acc, v), p) == Present(acc, p) + if v.path == p then 1 else 0
    decreases |acc|
  {
    hide Less, Tally;
    var r := Record(acc, v);
    if acc == [] {
      assert r[1..] == [];
      assert Present([], p) == 0;
    } else if acc[0].path == v.path {
      assert r[1..] == acc[1..];
    } else if Less(v.path, acc[0].path) {
      assert r[1..] == acc;
      AfterTrans(v.path, acc[0].path, acc[1..]);
      AbsentPresent(acc, v.path);
    } else {
      assert r[1..] == Record(acc[1..], v);
      RecordPresent(acc[1..], v, p);
    }
  }

  lemma {:induction false} RecordAllPresent(acc: Schema, vs: seq<Visit>, p: string)
    requires DocSchema.Sorted(acc)
    ensures Present(RecordAll(acc, vs), p) == Present(acc, p) + VisitsAt(vs, p)
    decreases |vs|
  {
    hide Record, Present, DocSchema.Sorted;
    if vs != [] {
      RecordSorted(acc, vs[0]);
      RecordPresent(acc, vs[0], p);
      RecordAllPresent(Record(acc, vs[0]), vs[1..], p);
    }
  }

  /** How many documents show the path. */
  function DocsShowing(docs: seq<Doc>, p: string): nat {
    if docs == [] then 0 else (if VisitsAt(DocVisits(docs[0]), p) > 0 then 1 else 0) + DocsShowing(docs[1..], p)
  }

  /** No document shows the path twice. */
  predicate ShownOnce(docs: seq<Doc>, p: string) {
    forall i :: 0 <= i < |docs| ==> VisitsAt(DocVisits(docs[i]), p) <= 1
  }

  lemma {:induction false} ShowingBounds(docs: seq<Doc>, p: string)
    ensures DocsShowing(docs, p) <= VisitsAt(SampleVisits(docs), p) && DocsShowing(docs, p) <= |docs|
    ensures VisitsAt(SampleVisits(docs), p) == DocsShowing(docs, p) <==> ShownOnce(docs, p)
    decreases |docs|
  {
    hide VisitsAt, DocVisits;
    if docs == [] {
      NothingSeen(p);
    } else {
      ShowingBounds(docs[1..], p);
      VisitsConcat(DocVisits(docs[0]), SampleVisits(docs[1..]), p);
      if ShownOnce(docs[1..], p) && VisitsAt(DocVisits(docs[0]), p) <= 1 {
        forall i | 0 <= i < |docs| ensures VisitsAt(DocVisits(docs[i]), p) <= 1 {
          assert i > 0 ==> docs[1..][i - 1] == docs[i];
        }
      }
      if ShownOnce(docs, p) {
        forall i | 0 <= i < |docs[1..]| ensures VisitsAt(DocVisits(docs[1..][i]), p) <= 1 {
          assert docs[1..][i] == docs[i + 1];
        }
      }
    }
  }

  lemma NothingSeen(p: string)
    ensures VisitsAt([], p) == 0
  {
  }

  lemma {:induction false} PresentAt(schema: Schema, k: nat)
    requires DocSchema.Sorted(schema) && k < |schema|
    ensures Present(schema, schema[k].path) == schema[k].present
    decreases k
  {
    hide Less;
    if k > 0 {
      assert schema[1..][k - 1] == schema[k];
      LessSelf(schema[k].path);
      PresentAt(schema[1..], k - 1);
    }
  }

  /** The ratio is the fraction of the documents that show the path, exactly when none shows it twice. */
  lemma RatioExactly(docs: seq<Doc>, k: nat)
    requires k < |SchemaOf(docs)| && docs != []
    ensures var row := Shapes(SchemaOf(docs), |docs|)[k];
            row.presentRatio == DocsShowing(docs, row.path) as real / |docs| as real <==> ShownOnce(docs, row.path)
    ensures DocsShowing(docs, SchemaOf(docs)[k].path) <= |docs|
  {
    hide RecordAll, SampleVisits, DocsShowing, ShownOnce, Listed;
    var schema := SchemaOf(docs);
    var p := schema[k].path;
    RecordAllPresent([], SampleVisits(docs), p);
    SchemaCounts(docs, p, TNull);
    PresentAt(schema, k);
    ShowingBounds(docs, p);
    SameRatio(schema[k].present, DocsShowing(docs, p), |docs|);
  }

  lemma SameRatio(a: nat, b: nat, n: nat)
    requires n > 0
    ensures a as real / n as real == b as real / n as real <==> a == b
  {
    if a as real / n as real == b as real / n as real {
      assert a as real / n as real * n as real == a as real;
      assert b as real / n as real * n as real == b as real;
    }
  }

  /** `{"a.b": v, a: {b: v}}`: one path by two ways. */
  function TwoWays(v: DocValue): Doc {
    Doc(Null, [Field("a.b", v), Field("a", Document([Field("b", v)]))])
  }

  lemma TwoWaysVisits(v: DocValue)
    requires IsLeaf(v)
    ensures SampleVisits([TwoWays(v)]) ==
            [Visit(ID, TNull), Visit("a.b", TypeOf(v)), Visit("a", TObject), Visit("a.b", TypeOf(v))]
  {
    hide TypeOf;
    var inner, b := Field("b", v), Field("a.b", v);
    var a := Field("a", Document([inner]));
    var d := TwoWays(v);
    assert Child("a", "b") == "a.b";
    assert [inner][1..] == [] && ChildVisits("a", []) == [] && ChildVisits("a.b", []) == [];
    assert Visits("a.b", v) == [Visit("a.b", TypeOf(v))];
    assert ChildVisits("a", [inner]) == [Visit("a.b", TypeOf(v))];
    assert TypeOf(a.value) == TObject && TypeOf(Null) == TNull by { KnownTypes([inner]); }
    assert Visits("a", a.value) == [Visit("a", TObject), Visit("a.b", TypeOf(v))];
    assert Visits(ID, Null) == [Visit(ID, TNull)];
    assert [b, a][1..] == [a] && [a][1..] == [] && TopVisits([]) == [];
    assert TopVisits([a]) == Visits("a", a.value);
    assert [d][1..] == [] && SampleVisits([]) == [];
  }

  lemma KnownTypes(fields: seq<Field>)
    ensures TypeOf(Document(fields)) == TObject && TypeOf(Null) == TNull
  {
  }

  /** One document that shows a path by two ways counts as two: a ratio of 2. */
  lemma RatioAboveOne(v: DocValue) returns (k: nat)
    requires IsLeaf(v)
    ensures k < |SchemaOf([TwoWays(v)])|
    ensures var row := Shapes(SchemaOf([TwoWays(v)]), 1)[k]; row.path == "a.b" && row.presentRatio == 2.0
  {
    hide TypeOf, RecordAll, Count, DocSchema.Sorted, SampleVisits, TwoWays, Present, Listed;
    var docs := [TwoWays(v)];
    var vs, schema := SampleVisits(docs), SchemaOf(docs);
    TwoWaysVisits(v);
    assert vs[1] == Visit("a.b", TypeOf(v));
    assert Visit("a.b", TypeOf(v)) in vs;
    SchemaCounts(docs, "a.b", TypeOf(v));
    k := CountSome(schema, "a.b", TypeOf(v));
    RecordAllPresent([], vs, "a.b") by { NoneSorted(); }
    PresentAt(schema, k);
    FourVisits(vs, "a.b");
    assert Present([], "a.b") == 0 by { NonePresent("a.b"); }
  }

  lemma NoneSorted()
    ensures DocSchema.Sorted([])
  {
  }

  lemma NonePresent(p: string)
    ensures Present([], p) == 0
  {
  }

  lemma FourVisits(vs: seq<Visit>, p: string)
    requires |vs| == 4 && vs[0].path != p && vs[1].path == p && vs[2].path != p && vs[3].path == p
    ensures VisitsAt(vs, p) == 2
  {
    assert vs == [vs[0], vs[1], vs[2], vs[3]];
    assert vs[1..] == [vs[1], vs[2], vs[3]] && vs[1..][1..] == [vs[2], vs[3]] && vs[1..][1..][1..] == [vs[3]];
    assert [vs[3]][1..] == [];
    assert VisitsAt([], p) == 0 && VisitsAt([vs[3]], p) == 1;
    assert VisitsAt([vs[2], vs[3]], p) == 1;
  }
}
