/**
 * Inferred schemas and tabular columns of crates/red-core/src/doc.rs: the rollup of a
 * sample (`from_documents`, `collect_fields`), the column list drawn from it
 * (`tabular_columns`) and the loss signal (`has_unmapped_fields`, `leaf_paths`).
 */
module DocSchema {
  import opened Wrappers
  import opened ExtJson
  import opened Strings

  datatype DocType =
    | TNull | TBool | TInt | TLong | TDouble | TDecimal | TStr | TObjectId
    | TDate | TTimestamp | TBinary | TRegex | TArray | TObject

  function TypeOf(v: DocValue): DocType {
    match v
    case Null => TNull
    case Bool(_) => TBool
    case Int32(_) => TInt
    case Int64(_) => TLong
    case Double(_) => TDouble
    case Decimal128(_) => TDecimal
    case Str(_) => TStr
    case ObjectId(_) => TObjectId
    case DateTime(_) => TDate
    case Timestamp(_) => TTimestamp
    case Binary(_, _) => TBinary
    case Regex(_, _) => TRegex
    case Array(_) => TArray
    case Document(_) => TObject
  }

  /** A document, its `_id` split out. */
  datatype Doc = Doc(id: DocValue, fields: seq<Field>)

  const ID: string := "_id"

  /** The dotted path of a field of the value at `path`. */
  function Child(path: string, name: string): string {
    path + "." + name
  }

  // ----- what a document shows -----

  /** A type seen at a path. */
  datatype Visit = Visit(path: string, kind: DocType)

  function Visits(path: string, v: DocValue): seq<Visit>
    decreases v, 1
  {
    [Visit(path, TypeOf(v))] + if v.Document? then ChildVisits(path, v.fields) else []
  }

  function ChildVisits(path: string, fields: seq<Field>): seq<Visit>
    decreases fields, 0
  {
    if fields == [] then [] else Visits(Child(path, fields[0].name), fields[0].value) + ChildVisits(path, fields[1..])
  }

  function TopVisits(fields: seq<Field>): seq<Visit> {
    if fields == [] then [] else Visits(fields[0].name, fields[0].value) + TopVisits(fields[1..])
  }

  function DocVisits(d: Doc): seq<Visit> {
    Visits(ID, d.id) + TopVisits(d.fields)
  }

  /** Everything a sample shows, document by document. */
  function SampleVisits(docs: seq<Doc>): seq<Visit> {
    if docs == [] then [] else DocVisits(docs[0]) + SampleVisits(docs[1..])
  }

  /** A value that the column list has to carry. */
  datatype Leaf = Leaf(path: string, value: DocValue)

  predicate IsLeaf(v: DocValue) {
    v.Document? ==> v.fields == []
  }

  function Leaves(path: string, v: DocValue): seq<Leaf>
    decreases v, 1
  {
    if IsLeaf(v) then [Leaf(path, v)] else ChildLeaves(path, v.fields)
  }

  function ChildLeaves(path: string, fields: seq<Field>): seq<Leaf>
    decreases fields, 0
  {
    if fields == [] then [] else Leaves(Child(path, fields[0].name), fields[0].value) + ChildLeaves(path, fields[1..])
  }

  function TopLeaves(fields: seq<Field>): seq<Leaf> {
    if fields == [] then [] else Leaves(fields[0].name, fields[0].value) + TopLeaves(fields[1..])
  }

  function DocLeaves(d: Doc): seq<Leaf> {
    Leaves(ID, d.id) + TopLeaves(d.fields)
  }

  // ----- the rollup -----

  datatype FieldStat = FieldStat(path: string, present: nat, types: map<DocType, nat>)

  type Schema = seq<FieldStat>

  function Tally(types: map<DocType, nat>, t: DocType): nat {
    if t in types then types[t] else 0
  }

  function Bump(f: FieldStat, t: DocType): FieldStat {
    FieldStat(f.path, f.present + 1, f.types[t := Tally(f.types, t) + 1])
  }

  /** One observation entered into a rollup kept in path order. */
  function Record(acc: Schema, v: Visit): Schema {
    if acc == [] then [Bump(FieldStat(v.path, 0, map[]), v.kind)]
    else if acc[0].path == v.path then [Bump(acc[0], v.kind)] + acc[1..]
    else if Less(v.path, acc[0].path) then [Bump(FieldStat(v.path, 0, map[]), v.kind)] + acc
    else [acc[0]] + Record(acc[1..], v)
  }

  function RecordAll(acc: Schema, vs: seq<Visit>): Schema
    decreases |vs|
  {
    if vs == [] then acc else RecordAll(Record(acc, vs[0]), vs[1..])
  }

  lemma {:induction false} RecordAllConcat(acc: Schema, x: seq<Visit>, y: seq<Visit>)
    ensures RecordAll(acc, x + y) == RecordAll(RecordAll(acc, x), y)
    decreases |x|
  {
    hide Record;
    if x == [] {
      assert x + y == y;
    } else {
      assert (x + y)[1..] == x[1..] + y;
      RecordAllConcat(Record(acc, x[0]), x[1..], y);
    }
  }

  function SchemaOf(docs: seq<Doc>): Schema {
    RecordAll([], SampleVisits(docs))
  }

  /** `collect_fields`, recording into `acc`. */
  method CollectFields(acc: Schema, path: string, v: DocValue) returns (r: Schema)
    ensures r == RecordAll(acc, Visits(path, v))
    decreases v
  {
    hide Record, TypeOf, RecordAll;
    var here := Visit(path, TypeOf(v));
    r := Record(acc, here);
    RecordNone(r);
    RecordOne(acc, here);
    if v.Document? {
      RecordAllConcat(acc, [here], ChildVisits(path, v.fields));
      for i := 0 to |v.fields|
        invariant RecordAll(r, ChildVisits(path, v.fields[i..])) == RecordAll(acc, Visits(path, v))
      {
        var f := v.fields[i];
        assert v.fields[i..][0] == f && v.fields[i..][1..] == v.fields[i + 1..];
        RecordAllConcat(r, Visits(Child(path, f.name), f.value), ChildVisits(path, v.fields[i + 1..]));
        r := CollectFields(r, Child(path, f.name), f.value);
      }
      RecordNone(r);
    } else {
      assert [here] + [] == [here];
    }
  }

  lemma RecordNone(acc: Schema)
    ensures RecordAll(acc, []) == acc
  {
  }

  lemma RecordOne(acc: Schema, v: Visit)
    ensures RecordAll(acc, [v]) == Record(acc, v)
  {
    hide Record;
    assert [v][1..] == [];
    RecordNone(Record(acc, v));
  }

  method CollectDoc(acc: Schema, d: Doc) returns (r: Schema)
    ensures r == RecordAll(acc, DocVisits(d))
  {
    hide Record, Visits, RecordAll;
    r := CollectFields(acc, ID, d.id);
    RecordAllConcat(acc, Visits(ID, d.id), TopVisits(d.fields));
    for i := 0 to |d.fields|
      invariant RecordAll(r, TopVisits(d.fields[i..])) == RecordAll(acc, DocVisits(d))
    {
      var f := d.fields[i];
      assert d.fields[i..][0] == f && d.fields[i..][1..] == d.fields[i + 1..];
      RecordAllConcat(r, Visits(f.name, f.value), TopVisits(d.fields[i + 1..]));
      r := CollectFields(r, f.name, f.value);
    }
    RecordNone(r);
  }

  /** `DocSchema::from_documents`. */
  method FromDocuments(docs: seq<Doc>) returns (r: Schema)
    ensures r == SchemaOf(docs)
  {
    hide RecordAll, DocVisits;
    r := [];
    for i := 0 to |docs|
      invariant RecordAll(r, SampleVisits(docs[i..])) == SchemaOf(docs)
    {
      assert docs[i..][0] == docs[i] && docs[i..][1..] == docs[i + 1..];
      RecordAllConcat(r, DocVisits(docs[i]), SampleVisits(docs[i + 1..]));
      r := CollectDoc(r, docs[i]);
    }
    RecordNone(r);
  }

  // ----- the rollup counts what was seen -----

  /** Strictly ascending paths: each path has one entry. */
  predicate Sorted(acc: Schema) {
    acc == [] || (AllAfter(acc[0].path, acc[1..]) && Sorted(acc[1..]))
  }

  predicate AllAfter(p: string, acc: Schema) {
    forall k :: 0 <= k < |acc| ==> Less(p, acc[k].path)
  }

  lemma {:induction false} RecordAfter(p: string, acc: Schema, v: Visit)
    requires AllAfter(p, acc) && Less(p, v.path)
    ensures AllAfter(p, Record(acc, v))
    decreases |acc|
  {
    hide Less, Bump;
    BumpPath(FieldStat(v.path, 0, map[]), v.kind);
    if acc != [] {
      BumpPath(acc[0], v.kind);
      RecordAfter(p, acc[1..], v);
    }
  }

  lemma BumpPath(f: FieldStat, t: DocType)
    ensures Bump(f, t).path == f.path
  {
  }

  lemma AfterTrans(p: string, q: string, acc: Schema)
    requires Less(p, q) && AllAfter(q, acc)
    ensures AllAfter(p, acc)
  {
    hide Less;
    forall k | 0 <= k < |acc| ensures Less(p, acc[k].path) {
      LessTrans(p, q, acc[k].path);
    }
  }

  lemma {:induction false} RecordSorted(acc: Schema, v: Visit)
    requires Sorted(acc)
    ensures Sorted(Record(acc, v))
    decreases |acc|
  {
    hide Less, Bump;
    BumpPath(FieldStat(v.path, 0, map[]), v.kind);
    var r := Record(acc, v);
    if acc != [] {
      BumpPath(acc[0], v.kind);
      LessTotal(acc[0].path, v.path);
      if acc[0].path == v.path {
        assert r[1..] == acc[1..];
      } else if Less(v.path, acc[0].path) {
        AfterTrans(v.path, acc[0].path, acc[1..]);
        assert r[1..] == acc;
      } else {
        RecordSorted(acc[1..], v);
        RecordAfter(acc[0].path, acc[1..], v);
        assert r[1..] == Record(acc[1..], v);
      }
    }
  }

  /** How often the rollup says `t` was seen at `p`. */
  function Count(acc: Schema, p: string, t: DocType): nat {
    if acc == [] then 0 else if acc[0].path == p then Tally(acc[0].types, t) else Count(acc[1..], p, t)
  }

  lemma {:induction false} AbsentCount(acc: Schema, p: string, t: DocType)
    requires AllAfter(p, acc)
    ensures Count(acc, p, t) == 0
    decreases |acc|
  {
    hide Less;
    if acc != [] {
      LessTotal(p, p);
      AbsentCount(acc[1..], p, t);
    }
  }

  lemma BumpTally(f: FieldStat, k: DocType, t: DocType)
    ensures Bump(f, k).path == f.path
    ensures Tally(Bump(f, k).types, t) == Tally(f.types, t) + if k == t then 1 else 0
    ensures Tally(map[], t) == 0
  {
  }

  lemma {:induction false} RecordCount(acc: Schema, v: Visit, p: string, t: DocType)
    requires Sorted(acc)
    ensures Count(Record(acc, v), p, t) == Count(acc, p, t) + (if v == Visit(p, t) then 1 else 0)
    decreases |acc|
  {
    hide Less, Bump, Tally;
    var r := Record(acc, v);
    BumpTally(FieldStat(v.path, 0, map[]), v.kind, t);
    if acc == [] {
      assert r[1..] == [];
      assert Count([], p, t) == 0;
    } else if acc[0].path == v.path {
      BumpTally(acc[0], v.kind, t);
      assert r[1..] == acc[1..];
    } else if Less(v.path, acc[0].path) {
      assert r[1..] == acc;
      AfterTrans(v.path, acc[0].path, acc[1..]);
      AbsentCount(acc, v.path, t);
    } else {
      assert r[1..] == Record(acc[1..], v);
      RecordCount(acc[1..], v, p, t);
    }
  }

  lemma {:induction false} RecordAllCount(acc: Schema, vs: seq<Visit>, p: string, t: DocType)
    requires Sorted(acc)
    ensures Sorted(RecordAll(acc, vs))
    ensures Count(RecordAll(acc, vs), p, t) == Count(acc, p, t) + multiset(vs)[Visit(p, t)]
    decreases |vs|
  {
    hide Record, Count, Sorted;
    if vs != [] {
      RecordSorted(acc, vs[0]);
      RecordCount(acc, vs[0], p, t);
      RecordAllCount(Record(acc, vs[0]), vs[1..], p, t);
      assert vs == [vs[0]] + vs[1..];
    }
  }

  /** The schema has one entry per path, and its type counts are the numbers of observations. */
  lemma SchemaCounts(docs: seq<Doc>, p: string, t: DocType)
    ensures Sorted(SchemaOf(docs))
    ensures Count(SchemaOf(docs), p, t) == multiset(SampleVisits(docs))[Visit(p, t)]
  {
    hide RecordAll, SampleVisits;
    RecordAllCount([], SampleVisits(docs), p, t);
  }

  // ----- columns -----

  /** A path that ever held something other than a sub-document. */
  predicate Scalar(f: FieldStat) {
    exists t <- f.types :: t != TObject
  }

  predicate HasId(schema: Schema) {
    exists k :: 0 <= k < |schema| && schema[k].path == ID
  }

  /** The scalar paths other than `_id`, in schema order. */
  function ScalarPaths(schema: Schema): seq<string> {
    if schema == [] then []
    else
      var f := schema[|schema| - 1];
      ScalarPaths(schema[..|schema| - 1]) + if f.path != ID && Scalar(f) then [f.path] else []
  }

  function Take(s: seq<string>, n: int): seq<string> {
    if n <= 0 then [] else if n >= |s| then s else s[..n]
  }

  /** The columns: `_id` first, whatever the cap; then scalar paths up to the cap. */
  function Columns(schema: Schema, max: nat): seq<string> {
    if HasId(schema) then [ID] + Take(ScalarPaths(schema), max - 1) else Take(ScalarPaths(schema), max)
  }

  /** `tabular_columns`. */
  method TabularColumns(schema: Schema, max: nat) returns (columns: seq<string>)
    ensures columns == Columns(schema, max)
  {
    hide Scalar, Take, ScalarPaths;
    columns := [];
    var id := exists k :: 0 <= k < |schema| && schema[k].path == ID;
    if id {
      columns := [ID];
    }
    ghost var head := columns;
    ghost var room := max - |head|;
    assert schema[..0] == [];
    NoPaths(room);
    assert schema[..|schema|] == schema;
    for i := 0 to |schema|
      invariant columns == head + Take(ScalarPaths(schema[..i]), room)
    {
      if |columns| >= max {
        RoomFilled(schema, i, room);
        break;
      }
      var f := schema[i];
      PathsStep(schema, i, room);
      if f.path != ID && Scalar(f) {
        columns := columns + [f.path];
      }
    }
  }

  lemma NoPaths(n: int)
    ensures Take(ScalarPaths([]), n) == []
  {
  }

  lemma RoomFilled(schema: Schema, i: nat, n: int)
    requires i <= |schema| && |Take(ScalarPaths(schema[..i]), n)| >= n
    ensures Take(ScalarPaths(schema[..i]), n) == Take(ScalarPaths(schema), n)
  {
    hide ScalarPaths;
    assert schema[..|schema|] == schema;
    ScalarPathsGrow(schema, i, |schema|);
  }

  lemma PathsStep(schema: Schema, i: nat, n: int)
    requires i < |schema| && |Take(ScalarPaths(schema[..i]), n)| < n
    ensures Take(ScalarPaths(schema[..i + 1]), n) ==
            Take(ScalarPaths(schema[..i]), n) + if schema[i].path != ID && Scalar(schema[i]) then [schema[i].path] else []
  {
    hide Scalar;
    assert schema[..i + 1][..i] == schema[..i];
  }

  lemma {:induction false} ScalarPathsGrow(schema: Schema, i: nat, j: nat)
    requires i <= j <= |schema|
    ensures |ScalarPaths(schema[..i])| <= |ScalarPaths(schema[..j])|
    ensures ScalarPaths(schema[..j])[..|ScalarPaths(schema[..i])|] == ScalarPaths(schema[..i])
    decreases j
  {
    hide Scalar;
    if i < j {
      ScalarPathsGrow(schema, i, j - 1);
      assert schema[..j][..j - 1] == schema[..j - 1];
    }
  }

  /** Whether some leaf has no column. */
  predicate Unmapped(leaves: seq<Leaf>, columns: seq<string>) {
    exists k :: 0 <= k < |leaves| && leaves[k].path !in columns
  }

  lemma UnmappedConcat(x: seq<Leaf>, y: seq<Leaf>, columns: seq<string>)
    ensures Unmapped(x + y, columns) <==> Unmapped(x, columns) || Unmapped(y, columns)
  {
    var z := x + y;
    if Unmapped(x, columns) {
      var k :| 0 <= k < |x| && x[k].path !in columns;
      assert z[k] == x[k];
    }
    if Unmapped(y, columns) {
      var k :| 0 <= k < |y| && y[k].path !in columns;
      assert z[|x| + k] == y[k];
    }
  }

  /** `leaf_paths` with the check of `has_unmapped_fields` as its callback. */
  method CheckLeaves(path: string, v: DocValue, columns: seq<string>, unmapped: bool) returns (r: bool)
    ensures r == (unmapped || Unmapped(Leaves(path, v), columns))
    decreases v
  {
    hide Unmapped;
    r := unmapped;
    if IsLeaf(v) {
      r := r || path !in columns;
      UnmappedOne(path, v, columns);
    } else {
      for i := 0 to |v.fields|
        invariant (r || Unmapped(ChildLeaves(path, v.fields[i..]), columns)) == (unmapped || Unmapped(Leaves(path, v), columns))
      {
        var f := v.fields[i];
        assert v.fields[i..][0] == f && v.fields[i..][1..] == v.fields[i + 1..];
        UnmappedConcat(Leaves(Child(path, f.name), f.value), ChildLeaves(path, v.fields[i + 1..]), columns);
        r := CheckLeaves(Child(path, f.name), f.value, columns, r);
      }
      UnmappedNone(columns);
    }
  }

  lemma UnmappedOne(path: string, v: DocValue, columns: seq<string>)
    ensures Unmapped([Leaf(path, v)], columns) <==> path !in columns
  {
    if path !in columns {
      assert [Leaf(path, v)][0].path !in columns;
    }
  }

  lemma UnmappedNone(columns: seq<string>)
    ensures !Unmapped([], columns)
  {
  }

  /** `has_unmapped_fields`. */
  method HasUnmappedFields(d: Doc, columns: seq<string>) returns (r: bool)
    ensures r == Unmapped(DocLeaves(d), columns)
  {
    hide Unmapped, Leaves;
    r := CheckLeaves(ID, d.id, columns, false);
    UnmappedConcat(Leaves(ID, d.id), TopLeaves(d.fields), columns);
    for i := 0 to |d.fields|
      invariant (r || Unmapped(TopLeaves(d.fields[i..]), columns)) == Unmapped(DocLeaves(d), columns)
    {
      var f := d.fields[i];
      assert d.fields[i..][0] == f && d.fields[i..][1..] == d.fields[i + 1..];
      UnmappedConcat(Leaves(f.name, f.value), TopLeaves(d.fields[i + 1..]), columns);
      r := CheckLeaves(f.name, f.value, columns, r);
    }
    UnmappedNone(columns);
  }

  // ----- which leaves of a sampled document have a column -----

  lemma {:induction false} CountAt(schema: Schema, k: nat, t: DocType)
    requires Sorted(schema) && k < |schema|
    ensures Count(schema, schema[k].path, t) == Tally(schema[k].types, t)
    decreases k
  {
    hide Less;
    if k > 0 {
      var p := schema[k].path;
      assert schema[1..][k - 1] == schema[k];
      LessSelf(p);
      CountAt(schema[1..], k - 1, t);
    }
  }

  lemma {:induction false} CountSome(schema: Schema, p: string, t: DocType) returns (k: nat)
    requires Count(schema, p, t) > 0
    ensures k < |schema| && schema[k].path == p && t in schema[k].types
    decreases |schema|
  {
    if schema[0].path == p {
      k := 0;
    } else {
      var j := CountSome(schema[1..], p, t);
      k := j + 1;
    }
  }

  /** No zero counts are kept. */
  predicate Positive(schema: Schema) {
    forall k :: 0 <= k < |schema| ==> forall t <- schema[k].types :: schema[k].types[t] > 0
  }

  lemma {:induction false} RecordPositive(acc: Schema, v: Visit)
    requires Positive(acc)
    ensures Positive(Record(acc, v))
    decreases |acc|
  {
    hide Less;
    if acc != [] && acc[0].path != v.path && !Less(v.path, acc[0].path) {
      RecordPositive(acc[1..], v);
    }
  }

  lemma {:induction false} RecordAllPositive(acc: Schema, vs: seq<Visit>)
    requires Positive(acc)
    ensures Positive(RecordAll(acc, vs))
    decreases |vs|
  {
    hide Record, Positive;
    if vs != [] {
      RecordPositive(acc, vs[0]);
      RecordAllPositive(Record(acc, vs[0]), vs[1..]);
    }
  }

  ghost predicate ScalarAt(schema: Schema, p: string) {
    exists k :: 0 <= k < |schema| && schema[k].path == p && Scalar(schema[k])
  }

  lemma ScalarAtSnoc(front: Schema, f: FieldStat, p: string)
    ensures ScalarAt(front + [f], p) <==> ScalarAt(front, p) || (f.path == p && Scalar(f))
  {
    hide Scalar;
    var schema := front + [f];
    if ScalarAt(front, p) {
      var k :| 0 <= k < |front| && front[k].path == p && Scalar(front[k]);
      assert schema[k] == front[k];
    }
    if f.path == p && Scalar(f) {
      assert schema[|front|] == f;
    }
  }

  lemma {:induction false} ScalarMember(schema: Schema, p: string)
    ensures p in ScalarPaths(schema) <==> p != ID && ScalarAt(schema, p)
    decreases |schema|
  {
    hide Scalar;
    if schema != [] {
      var front, f := schema[..|schema| - 1], schema[|schema| - 1];
      hide ScalarAt;
      ScalarMember(front, p);
      assert schema == front + [f];
      ScalarAtSnoc(front, f, p);
    }
  }

  /** Seen in the sample as something other than a sub-document. */
  predicate SeenScalar(docs: seq<Doc>, p: string) {
    exists t :: t != TObject && Visit(p, t) in SampleVisits(docs)
  }

  /** A path other than `_id` is a scalar path of the schema exactly when the sample shows it as one. */
  lemma ScalarPathsExact(docs: seq<Doc>, p: string)
    ensures p in ScalarPaths(SchemaOf(docs)) <==> p != ID && SeenScalar(docs, p)
  {
    hide RecordAll, SampleVisits, ScalarPaths, Count, Sorted;
    var schema, vs := SchemaOf(docs), SampleVisits(docs);
    ScalarMember(schema, p);
    RecordAllPositive([], vs);
    if p in ScalarPaths(schema) {
      var k :| 0 <= k < |schema| && schema[k].path == p && Scalar(schema[k]);
      var t :| t in schema[k].types && t != TObject;
      SchemaCounts(docs, p, t);
      CountAt(schema, k, t);
      assert Visit(p, t) in vs;
    }
    if p != ID && SeenScalar(docs, p) {
      var t :| t != TObject && Visit(p, t) in vs;
      SchemaCounts(docs, p, t);
      var k := CountSome(schema, p, t);
      assert ScalarAt(schema, p);
    }
  }

  lemma {:induction false} LeafVisited(path: string, v: DocValue, l: Leaf)
    requires l in Leaves(path, v)
    ensures Visit(l.path, TypeOf(l.value)) in Visits(path, v) && IsLeaf(l.value)
    decreases v, 1
  {
    hide TypeOf;
    if !IsLeaf(v) {
      ChildLeafVisited(path, v.fields, l);
    }
  }

  lemma {:induction false} ChildLeafVisited(path: string, fields: seq<Field>, l: Leaf)
    requires l in ChildLeaves(path, fields)
    ensures Visit(l.path, TypeOf(l.value)) in ChildVisits(path, fields) && IsLeaf(l.value)
    decreases fields, 0
  {
    hide TypeOf, Leaves, Visits;
    if l in Leaves(Child(path, fields[0].name), fields[0].value) {
      LeafVisited(Child(path, fields[0].name), fields[0].value, l);
    } else {
      ChildLeafVisited(path, fields[1..], l);
    }
  }

  lemma {:induction false} TopLeafVisited(fields: seq<Field>, l: Leaf)
    requires l in TopLeaves(fields)
    ensures Visit(l.path, TypeOf(l.value)) in TopVisits(fields) && IsLeaf(l.value)
    decreases |fields|
  {
    hide TypeOf, Leaves, Visits;
    if l in Leaves(fields[0].name, fields[0].value) {
      LeafVisited(fields[0].name, fields[0].value, l);
    } else {
      TopLeafVisited(fields[1..], l);
    }
  }

  lemma {:induction false} SampleVisited(docs: seq<Doc>, i: nat, v: Visit)
    requires i < |docs| && v in DocVisits(docs[i])
    ensures v in SampleVisits(docs)
    decreases i
  {
    hide DocVisits;
    if i > 0 {
      assert docs[1..][i - 1] == docs[i];
      SampleVisited(docs[1..], i - 1, v);
    }
  }

  /** Every leaf of a sampled document is in the sample's observations, under its own type. */
  lemma LeafInSample(docs: seq<Doc>, i: nat, l: Leaf)
    requires i < |docs| && l in DocLeaves(docs[i])
    ensures Visit(l.path, TypeOf(l.value)) in SampleVisits(docs) && IsLeaf(l.value)
  {
    hide TypeOf, Leaves, Visits, SampleVisits, TopLeaves, TopVisits;
    var d := docs[i];
    if l in Leaves(ID, d.id) {
      LeafVisited(ID, d.id, l);
    } else {
      TopLeafVisited(d.fields, l);
    }
    SampleVisited(docs, i, Visit(l.path, TypeOf(l.value)));
  }

  /** A non-empty sample's schema has an `_id` entry. */
  lemma SampleHasId(docs: seq<Doc>)
    requires docs != []
    ensures HasId(SchemaOf(docs))
  {
    hide RecordAll, TypeOf, Count, Sorted;
    var d := docs[0];
    var v := Visit(ID, TypeOf(d.id));
    assert v in Visits(ID, d.id) && v in DocVisits(d);
    SampleVisited(docs, 0, v);
    SchemaCounts(docs, ID, v.kind);
    var k := CountSome(SchemaOf(docs), ID, v.kind);
  }

  lemma {:induction false} ScalarPathsShort(schema: Schema)
    ensures |ScalarPaths(schema)| <= |schema|
    ensures HasId(schema) ==> |ScalarPaths(schema)| < |schema|
    decreases |schema|
  {
    hide Scalar;
    if schema != [] {
      var front := schema[..|schema| - 1];
      ScalarPathsShort(front);
      if HasId(schema) && schema[|schema| - 1].path != ID {
        var k :| 0 <= k < |schema| && schema[k].path == ID;
        assert front[k].path == ID;
      }
    }
  }

  /** A leaf that columns drawn from the sample cannot address. */
  predicate Stranded(docs: seq<Doc>, l: Leaf) {
    l.path != ID && !SeenScalar(docs, l.path)
  }

  /**
   * With room for every path, a sampled document loses something exactly when one of its
   * leaves is at a path that the whole sample shows only as a sub-document; such a leaf is
   * an empty sub-document.
   */
  lemma UnmappedExactly(docs: seq<Doc>, i: nat, max: nat)
    requires i < |docs| && |SchemaOf(docs)| <= max
    ensures Unmapped(DocLeaves(docs[i]), Columns(SchemaOf(docs), max)) <==>
            exists k :: 0 <= k < |DocLeaves(docs[i])| && Stranded(docs, DocLeaves(docs[i])[k])
    ensures forall k :: 0 <= k < |DocLeaves(docs[i])| && Stranded(docs, DocLeaves(docs[i])[k]) ==> DocLeaves(docs[i])[k].value == Document([])
  {
    hide SchemaOf, SampleVisits, DocLeaves, ScalarPaths, SeenScalar, TypeOf;
    var schema, leaves := SchemaOf(docs), DocLeaves(docs[i]);
    SampleHasId(docs);
    ScalarPathsShort(schema);
    assert Take(ScalarPaths(schema), max - 1) == ScalarPaths(schema);
    forall k | 0 <= k < |leaves|
      ensures leaves[k].path !in Columns(schema, max) <==> Stranded(docs, leaves[k])
      ensures Stranded(docs, leaves[k]) ==> leaves[k].value == Document([])
    {
      ScalarPathsExact(docs, leaves[k].path);
      LeafInSample(docs, i, leaves[k]);
      LeafShape(docs, leaves[k]);
    }
    hide Columns, Stranded;
  }

  lemma LeafShape(docs: seq<Doc>, l: Leaf)
    requires Visit(l.path, TypeOf(l.value)) in SampleVisits(docs) && IsLeaf(l.value)
    ensures !SeenScalar(docs, l.path) ==> l.value == Document([])
  {
    hide SampleVisits;
  }

  /** Columns drawn from a sample cover every sampled document without empty sub-documents. */
  lemma SampleCovered(docs: seq<Doc>, i: nat, max: nat)
    requires i < |docs| && |SchemaOf(docs)| <= max
    requires forall k :: 0 <= k < |DocLeaves(docs[i])| ==> DocLeaves(docs[i])[k].value != Document([])
    ensures !Unmapped(DocLeaves(docs[i]), Columns(SchemaOf(docs), max))
  {
    hide SchemaOf, DocLeaves, Columns, Stranded, Unmapped;
    UnmappedExactly(docs, i, max);
  }

  /** An empty sub-document is lost even from its own sample. */
  lemma EmptySubdocumentLost(name: string, max: nat)
    requires name != ID && |SchemaOf([Doc(Null, [Field(name, Document([]))])])| <= max
    ensures var d := Doc(Null, [Field(name, Document([]))]); Unmapped(DocLeaves(d), Columns(SchemaOf([d]), max))
  {
    hide SchemaOf, Columns;
    var f := Field(name, Document([]));
    var d := Doc(Null, [f]);
    assert [f][1..] == [];
    assert Leaves(ID, Null) == [Leaf(ID, Null)] && Leaves(name, f.value) == [Leaf(name, f.value)];
    assert DocLeaves(d)[1] == Leaf(name, f.value);
    assert [d][1..] == [];
    assert ChildVisits(name, []) == [];
    assert Visits(ID, Null) == [Visit(ID, TNull)] && Visits(name, f.value) == [Visit(name, TObject)];
    assert TopVisits([]) == [] && TopVisits([f]) == [Visit(name, TObject)];
    assert SampleVisits([]) == [] && DocVisits(d) == [Visit(ID, TNull), Visit(name, TObject)];
    assert SampleVisits([d]) == [Visit(ID, TNull), Visit(name, TObject)];
    assert Stranded([d], DocLeaves(d)[1]);
    UnmappedExactly([d], 0, max);
  }
}
