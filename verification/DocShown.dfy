/**
 * What an inferred schema says about the documents of its sample, beside
 * crates/red-core/src/doc.rs: which paths it lists and in what order, under which types, and
 * which of them become columns.
 */
module DocShown {
  import opened Wrappers
  import opened ExtJson
  import opened Strings
  import opened DocSchema
  import opened SchemaShape
  import Sorting

  // ----- what a document holds -----

  /** Following `names` down from `v` may lead to `w`. */
  ghost predicate LeadsTo(v: DocValue, names: seq<string>, w: DocValue)
    decreases |names|
  {
    if names == [] then v == w
    else v.Document? && exists k :: 0 <= k < |v.fields| && v.fields[k].name == names[0] && LeadsTo(v.fields[k].value, names[1..], w)
  }

  /** Some field of this name leads to `w`. */
  ghost predicate FieldHolds(fields: seq<Field>, names: seq<string>, w: DocValue)
    requires names != []
  {
    exists k :: 0 <= k < |fields| && fields[k].name == names[0] && LeadsTo(fields[k].value, names[1..], w)
  }

  ghost predicate DocHolds(d: Doc, names: seq<string>, w: DocValue) {
    names != [] && ((names[0] == "_id" && LeadsTo(d.id, names[1..], w)) || FieldHolds(d.fields, names, w))
  }

  /** The names of a path behind its first, each with a dot before it. */
  function Tail(names: seq<string>): string {
    if names == [] then "" else "." + names[0] + Tail(names[1..])
  }

  function Dotted(names: seq<string>): string
    requires names != []
  {
    names[0] + Tail(names[1..])
  }

  /** The `$type` alias of a value. */
  function TypeName(v: DocValue): string {
    match v
    case Null => "null"
    case Bool(_) => "bool"
    case Int32(_) => "int"
    case Int64(_) => "long"
    case Double(_) => "double"
    case Decimal128(_) => "decimal"
    case Str(_) => "string"
    case ObjectId(_) => "objectId"
    case DateTime(_) => "date"
    case Timestamp(_) => "timestamp"
    case Binary(_, _) => "binData"
    case Regex(_, _) => "regex"
    case Array(_) => "array"
    case Document(_) => "object"
  }

  lemma AliasIs(v: DocValue)
    ensures AliasOf(TypeOf(v)) == TypeName(v)
  {
  }

  /** Length and first letter tell the aliases apart. */
  lemma AliasKey(t: DocType)
    ensures AliasOf(t) != ""
    ensures match t
            case TNull => |AliasOf(t)| == 4 && AliasOf(t)[0] == 'n'
            case TBool => |AliasOf(t)| == 4 && AliasOf(t)[0] == 'b'
            case TInt => |AliasOf(t)| == 3
            case TLong => |AliasOf(t)| == 4 && AliasOf(t)[0] == 'l'
            case TDouble => |AliasOf(t)| == 6 && AliasOf(t)[0] == 'd'
            case TDecimal => |AliasOf(t)| == 7 && AliasOf(t)[0] == 'd'
            case TStr => |AliasOf(t)| == 6 && AliasOf(t)[0] == 's'
            case TObjectId => |AliasOf(t)| == 8
            case TDate => |AliasOf(t)| == 4 && AliasOf(t)[0] == 'd'
            case TTimestamp => |AliasOf(t)| == 9
            case TBinary => |AliasOf(t)| == 7 && AliasOf(t)[0] == 'b'
            case TRegex => |AliasOf(t)| == 5 && AliasOf(t)[0] == 'r'
            case TArray => |AliasOf(t)| == 5 && AliasOf(t)[0] == 'a'
            case TObject => |AliasOf(t)| == 6 && AliasOf(t)[0] == 'o'
  {
  }

  lemma AliasesDiffer(s: DocType, t: DocType)
    requires AliasOf(s) == AliasOf(t)
    ensures s == t
  {
    hide AliasOf;
    AliasKey(s);
    AliasKey(t);
  }

  lemma TypeIs(v: DocValue, t: DocType)
    ensures TypeOf(v) == t <==> TypeName(v) == AliasOf(t)
  {
    hide TypeOf, AliasOf, TypeName;
    AliasIs(v);
    if TypeName(v) == AliasOf(t) {
      AliasesDiffer(TypeOf(v), t);
    }
  }

  // ----- visits -----

  /** Some value below `v`, at `path` and onwards, is seen at `p` as a `t`. */
  ghost predicate Seen(path: string, v: DocValue, p: string, t: DocType) {
    exists names, w :: LeadsTo(v, names, w) && p == path + Tail(names) && TypeOf(w) == t
  }

  ghost predicate SeenIn(path: string, fields: seq<Field>, p: string, t: DocType) {
    exists k :: 0 <= k < |fields| && Seen(Child(path, fields[k].name), fields[k].value, p, t)
  }

  lemma SeenStep(path: string, v: DocValue, p: string, t: DocType)
    ensures Seen(path, v, p, t) <==> (p == path && TypeOf(v) == t) || (v.Document? && SeenIn(path, v.fields, p, t))
  {
    hide TypeOf, Child;
    if Seen(path, v, p, t) {
      SeenBelow(path, v, p, t);
    }
    if p == path && TypeOf(v) == t {
      assert LeadsTo(v, [], v) && path + Tail([]) == path;
    }
    if v.Document? && SeenIn(path, v.fields, p, t) {
      SeenAbove(path, v, p, t);
    }
  }

  lemma SeenBelow(path: string, v: DocValue, p: string, t: DocType)
    requires Seen(path, v, p, t)
    ensures (p == path && TypeOf(v) == t) || (v.Document? && SeenIn(path, v.fields, p, t))
  {
    hide TypeOf;
    var names, w :| LeadsTo(v, names, w) && p == path + Tail(names) && TypeOf(w) == t;
    if names == [] {
      assert path + "" == path;
    } else {
      var k :| 0 <= k < |v.fields| && v.fields[k].name == names[0] && LeadsTo(v.fields[k].value, names[1..], w);
      assert p == Child(path, names[0]) + Tail(names[1..]);
      assert Seen(Child(path, v.fields[k].name), v.fields[k].value, p, t);
    }
  }

  lemma SeenAbove(path: string, v: DocValue, p: string, t: DocType)
    requires v.Document? && SeenIn(path, v.fields, p, t)
    ensures Seen(path, v, p, t)
  {
    hide TypeOf;
    var k :| 0 <= k < |v.fields| && Seen(Child(path, v.fields[k].name), v.fields[k].value, p, t);
    var f := v.fields[k];
    var names, w :| LeadsTo(f.value, names, w) && p == Child(path, f.name) + Tail(names) && TypeOf(w) == t;
    var all := [f.name] + names;
    assert all[1..] == names;
    assert LeadsTo(v, all, w);
    assert path + Tail(all) == Child(path, f.name) + Tail(names);
  }

  lemma SeenInStep(path: string, fields: seq<Field>, p: string, t: DocType)
    requires fields != []
    ensures SeenIn(path, fields, p, t) <==> Seen(Child(path, fields[0].name), fields[0].value, p, t) || SeenIn(path, fields[1..], p, t)
  {
    hide Seen;
    if SeenIn(path, fields[1..], p, t) {
      var k :| 0 <= k < |fields[1..]| && Seen(Child(path, fields[1..][k].name), fields[1..][k].value, p, t);
      assert fields[1..][k] == fields[k + 1];
    }
    if SeenIn(path, fields, p, t) {
      var k :| 0 <= k < |fields| && Seen(Child(path, fields[k].name), fields[k].value, p, t);
      if k > 0 {
        assert fields[1..][k - 1] == fields[k];
      }
    }
  }

  lemma {:induction false} VisitsSeen(path: string, v: DocValue, p: string, t: DocType)
    ensures Visit(p, t) in Visits(path, v) <==> Seen(path, v, p, t)
    decreases v, 1
  {
    hide TypeOf, Seen, SeenIn, ChildVisits;
    SeenStep(path, v, p, t);
    if v.Document? {
      ChildVisitsSeen(path, v.fields, p, t);
    }
  }

  lemma {:induction false} ChildVisitsSeen(path: string, fields: seq<Field>, p: string, t: DocType)
    ensures Visit(p, t) in ChildVisits(path, fields) <==> SeenIn(path, fields, p, t)
    decreases fields, 0
  {
    hide TypeOf, Seen, Visits;
    if fields != [] {
      hide SeenIn;
      SeenInStep(path, fields, p, t);
      VisitsSeen(Child(path, fields[0].name), fields[0].value, p, t);
      ChildVisitsSeen(path, fields[1..], p, t);
    }
  }

  /** A document's own fields, `_id` aside. */
  ghost predicate SeenOnTop(fields: seq<Field>, p: string, t: DocType) {
    exists k :: 0 <= k < |fields| && Seen(fields[k].name, fields[k].value, p, t)
  }

  lemma SeenOnTopStep(fields: seq<Field>, p: string, t: DocType)
    requires fields != []
    ensures SeenOnTop(fields, p, t) <==> Seen(fields[0].name, fields[0].value, p, t) || SeenOnTop(fields[1..], p, t)
  {
    hide Seen;
    if SeenOnTop(fields[1..], p, t) {
      var k :| 0 <= k < |fields[1..]| && Seen(fields[1..][k].name, fields[1..][k].value, p, t);
      assert fields[1..][k] == fields[k + 1];
    }
    if SeenOnTop(fields, p, t) {
      var k :| 0 <= k < |fields| && Seen(fields[k].name, fields[k].value, p, t);
      if k > 0 {
        assert fields[1..][k - 1] == fields[k];
      }
    }
  }

  lemma {:induction false} TopVisitsSeen(fields: seq<Field>, p: string, t: DocType)
    ensures Visit(p, t) in TopVisits(fields) <==> SeenOnTop(fields, p, t)
    decreases |fields|
  {
    hide TypeOf, Seen, Visits;
    if fields != [] {
      hide SeenOnTop;
      SeenOnTopStep(fields, p, t);
      VisitsSeen(fields[0].name, fields[0].value, p, t);
      TopVisitsSeen(fields[1..], p, t);
    }
  }

  /** The document shows some value at `p` under the alias of `t`. */
  ghost predicate Shows(d: Doc, p: string, t: DocType) {
    exists names, w :: DocHolds(d, names, w) && p == Dotted(names) && TypeName(w) == AliasOf(t)
  }

  lemma ShowsOnTop(d: Doc, p: string, t: DocType)
    ensures Shows(d, p, t) <==> Seen("_id", d.id, p, t) || SeenOnTop(d.fields, p, t)
  {
    hide TypeOf, TypeName, AliasOf;
    if Shows(d, p, t) {
      var names, w :| DocHolds(d, names, w) && p == Dotted(names) && TypeName(w) == AliasOf(t);
      TypeIs(w, t);
      if names[0] == "_id" && LeadsTo(d.id, names[1..], w) {
        assert Seen("_id", d.id, p, t);
      } else {
        var k :| 0 <= k < |d.fields| && d.fields[k].name == names[0] && LeadsTo(d.fields[k].value, names[1..], w);
        assert Seen(d.fields[k].name, d.fields[k].value, p, t);
      }
    }
    if Seen("_id", d.id, p, t) {
      ShowsAt(d, "_id", d.id, p, t);
    }
    if SeenOnTop(d.fields, p, t) {
      var k :| 0 <= k < |d.fields| && Seen(d.fields[k].name, d.fields[k].value, p, t);
      ShowsAt(d, d.fields[k].name, d.fields[k].value, p, t);
    }
  }

  lemma ShowsAt(d: Doc, name: string, v: DocValue, p: string, t: DocType)
    requires Seen(name, v, p, t) && ((name == "_id" && v == d.id) || Field(name, v) in d.fields)
    ensures Shows(d, p, t)
  {
    hide TypeOf, TypeName, AliasOf;
    var names, w :| LeadsTo(v, names, w) && p == name + Tail(names) && TypeOf(w) == t;
    var all := [name] + names;
    assert all[1..] == names && all[0] == name;
    if !(name == "_id" && v == d.id) {
      var k :| 0 <= k < |d.fields| && d.fields[k] == Field(name, v);
      assert d.fields[k].name == all[0] && LeadsTo(d.fields[k].value, all[1..], w);
    }
    assert DocHolds(d, all, w);
    TypeIs(w, t);
  }

  /** A document is observed at a path under a type exactly when it holds such a value there. */
  lemma ObservedExactly(d: Doc, p: string, t: DocType)
    ensures Visit(p, t) in DocVisits(d) <==> Shows(d, p, t)
  {
    hide TypeOf, Visits, TopVisits, Shows, Seen, SeenOnTop;
    ShowsOnTop(d, p, t);
    VisitsSeen("_id", d.id, p, t);
    TopVisitsSeen(d.fields, p, t);
  }

  // ----- leaves -----

  /** Anything but a sub-document with fields. */
  predicate EndsHere(w: DocValue) {
    !(w.Document? && w.fields != [])
  }

  ghost predicate Kept(path: string, v: DocValue, l: Leaf) {
    EndsHere(l.value) && exists names :: LeadsTo(v, names, l.value) && l.path == path + Tail(names)
  }

  ghost predicate KeptIn(path: string, fields: seq<Field>, l: Leaf) {
    exists k :: 0 <= k < |fields| && Kept(Child(path, fields[k].name), fields[k].value, l)
  }

  lemma KeptDown(path: string, v: DocValue, l: Leaf)
    requires Kept(path, v, l)
    ensures if EndsHere(v) then l == Leaf(path, v) else KeptIn(path, v.fields, l)
  {
    var names :| LeadsTo(v, names, l.value) && l.path == path + Tail(names);
    if names == [] {
      assert path + "" == path;
    } else {
      var k :| 0 <= k < |v.fields| && v.fields[k].name == names[0] && LeadsTo(v.fields[k].value, names[1..], l.value);
      assert l.path == Child(path, names[0]) + Tail(names[1..]);
      assert Kept(Child(path, v.fields[k].name), v.fields[k].value, l);
    }
  }

  lemma KeptHere(path: string, v: DocValue)
    requires EndsHere(v)
    ensures Kept(path, v, Leaf(path, v))
  {
    assert LeadsTo(v, [], v) && path + Tail([]) == path;
  }

  lemma KeptUp(path: string, v: DocValue, l: Leaf)
    requires v.Document? && KeptIn(path, v.fields, l)
    ensures Kept(path, v, l)
  {
    var k :| 0 <= k < |v.fields| && Kept(Child(path, v.fields[k].name), v.fields[k].value, l);
    var f := v.fields[k];
    var names :| LeadsTo(f.value, names, l.value) && l.path == Child(path, f.name) + Tail(names);
    var all := [f.name] + names;
    assert all[1..] == names;
    assert LeadsTo(v, all, l.value);
    assert path + Tail(all) == Child(path, f.name) + Tail(names);
  }

  lemma {:induction false} LeavesKept(path: string, v: DocValue, l: Leaf)
    ensures l in Leaves(path, v) <==> Kept(path, v, l)
    decreases v, 1
  {
    hide Kept, KeptIn, ChildLeaves;
    if Kept(path, v, l) {
      KeptDown(path, v, l);
    }
    if EndsHere(v) {
      KeptHere(path, v);
    } else {
      ChildLeavesKept(path, v.fields, l);
      if KeptIn(path, v.fields, l) {
        KeptUp(path, v, l);
      }
    }
  }

  lemma {:induction false} ChildLeavesKept(path: string, fields: seq<Field>, l: Leaf)
    ensures l in ChildLeaves(path, fields) <==> KeptIn(path, fields, l)
    decreases fields, 0
  {
    hide Kept, Leaves;
    if fields != [] {
      LeavesKept(Child(path, fields[0].name), fields[0].value, l);
      ChildLeavesKept(path, fields[1..], l);
      KeptInStep(path, fields, l);
    }
  }

  lemma KeptInStep(path: string, fields: seq<Field>, l: Leaf)
    requires fields != []
    ensures KeptIn(path, fields, l) <==> Kept(Child(path, fields[0].name), fields[0].value, l) || KeptIn(path, fields[1..], l)
  {
    hide Kept;
    if KeptIn(path, fields[1..], l) {
      var k :| 0 <= k < |fields[1..]| && Kept(Child(path, fields[1..][k].name), fields[1..][k].value, l);
      assert fields[1..][k] == fields[k + 1];
    }
    if KeptIn(path, fields, l) {
      var k :| 0 <= k < |fields| && Kept(Child(path, fields[k].name), fields[k].value, l);
      if k > 0 {
        assert fields[1..][k - 1] == fields[k];
      }
    }
  }

  lemma {:induction false} TopLeavesKept(fields: seq<Field>, l: Leaf)
    ensures l in TopLeaves(fields) <==> exists k :: 0 <= k < |fields| && Kept(fields[k].name, fields[k].value, l)
    decreases |fields|
  {
    hide Kept, Leaves;
    if fields != [] {
      LeavesKept(fields[0].name, fields[0].value, l);
      TopLeavesKept(fields[1..], l);
      if k :| 0 <= k < |fields| && Kept(fields[k].name, fields[k].value, l) {
        if k > 0 {
          assert fields[1..][k - 1] == fields[k];
        }
      }
      if k :| 0 <= k < |fields[1..]| && Kept(fields[1..][k].name, fields[1..][k].value, l) {
        assert fields[1..][k] == fields[k + 1];
      }
    }
  }

  lemma KeptByDoc(d: Doc, name: string, v: DocValue, l: Leaf)
    requires Kept(name, v, l) && ((name == "_id" && v == d.id) || Field(name, v) in d.fields)
    ensures exists names :: DocHolds(d, names, l.value) && l.path == Dotted(names)
  {
    var names :| LeadsTo(v, names, l.value) && l.path == name + Tail(names);
    var all := [name] + names;
    assert all[1..] == names && all[0] == name;
    if !(name == "_id" && v == d.id) {
      var k :| 0 <= k < |d.fields| && d.fields[k] == Field(name, v);
      assert d.fields[k].name == all[0] && LeadsTo(d.fields[k].value, all[1..], l.value);
    }
    assert DocHolds(d, all, l.value);
  }

  /** The leaves of a document are the values it holds that are no sub-documents, and the empty ones. */
  lemma LeavesExactly(d: Doc, l: Leaf)
    ensures l in DocLeaves(d) <==> EndsHere(l.value) && exists names :: DocHolds(d, names, l.value) && l.path == Dotted(names)
  {
    hide Leaves, TopLeaves;
    LeavesKept("_id", d.id, l);
    TopLeavesKept(d.fields, l);
    if Kept("_id", d.id, l) {
      KeptByDoc(d, "_id", d.id, l);
    }
    if k :| 0 <= k < |d.fields| && Kept(d.fields[k].name, d.fields[k].value, l) {
      KeptByDoc(d, d.fields[k].name, d.fields[k].value, l);
    }
    if EndsHere(l.value) {
      if names :| DocHolds(d, names, l.value) && l.path == Dotted(names) {
        HeldIsKept(d, names, l);
      }
    }
  }

  lemma HeldIsKept(d: Doc, names: seq<string>, l: Leaf)
    requires EndsHere(l.value) && DocHolds(d, names, l.value) && l.path == Dotted(names)
    ensures Kept("_id", d.id, l) || exists k :: 0 <= k < |d.fields| && Kept(d.fields[k].name, d.fields[k].value, l)
  {
    if names[0] == "_id" && LeadsTo(d.id, names[1..], l.value) {
      assert Kept("_id", d.id, l);
    } else {
      var k :| 0 <= k < |d.fields| && d.fields[k].name == names[0] && LeadsTo(d.fields[k].value, names[1..], l.value);
      assert Kept(d.fields[k].name, d.fields[k].value, l);
    }
  }

  /** How many values a document holds, sub-documents included. */
  function Size(v: DocValue): nat
    decreases v, 1
  {
    1 + if v.Document? then Sizes(v.fields) else 0
  }

  function Sizes(fields: seq<Field>): nat
    decreases fields, 0
  {
    if fields == [] then 0 else Size(fields[0].value) + Sizes(fields[1..])
  }

  lemma {:induction false} VisitsSize(path: string, v: DocValue)
    ensures |Visits(path, v)| == Size(v)
    decreases v, 1
  {
    hide TypeOf;
    if v.Document? {
      ChildVisitsSize(path, v.fields);
    }
  }

  lemma {:induction false} ChildVisitsSize(path: string, fields: seq<Field>)
    ensures |ChildVisits(path, fields)| == Sizes(fields)
    decreases fields, 0
  {
    hide Visits, Size;
    if fields != [] {
      VisitsSize(Child(path, fields[0].name), fields[0].value);
      ChildVisitsSize(path, fields[1..]);
    }
  }

  lemma {:induction false} TopVisitsSize(fields: seq<Field>)
    ensures |TopVisits(fields)| == Sizes(fields)
    decreases |fields|
  {
    hide Visits, Size;
    if fields != [] {
      VisitsSize(fields[0].name, fields[0].value);
      TopVisitsSize(fields[1..]);
    }
  }

  /** Every value is observed once. */
  lemma ObservedOnce(d: Doc)
    ensures |DocVisits(d)| == Size(d.id) + Sizes(d.fields)
  {
    hide Visits, TopVisits, Size, Sizes;
    VisitsSize(ID, d.id);
    TopVisitsSize(d.fields);
  }

  // ----- the rows -----

  lemma {:induction false} SampleShows(docs: seq<Doc>, v: Visit)
    ensures v in SampleVisits(docs) <==> exists i :: 0 <= i < |docs| && v in DocVisits(docs[i])
    decreases |docs|
  {
    hide DocVisits;
    if docs != [] {
      SampleShows(docs[1..], v);
      if i :| 0 <= i < |docs| && v in DocVisits(docs[i]) {
        if i > 0 {
          assert docs[1..][i - 1] == docs[i];
        }
      }
      if i :| 0 <= i < |docs[1..]| && v in DocVisits(docs[1..][i]) {
        assert docs[1..][i] == docs[i + 1];
      }
    }
  }

  lemma {:induction false} PathsAscend(schema: Schema, i: nat, j: nat)
    requires DocSchema.Sorted(schema) && i < j < |schema|
    ensures Precedes(schema[i].path, schema[j].path)
    decreases i
  {
    hide Less, Precedes;
    if i == 0 {
      assert schema[1..][j - 1] == schema[j];
      LessExactly(schema[0].path, schema[j].path);
    } else {
      assert schema[1..][i - 1] == schema[i] && schema[1..][j - 1] == schema[j];
      PathsAscend(schema[1..], i - 1, j - 1);
    }
  }

  /** The rows are in path order, and there is one for a path exactly when some document of the sample has it. */
  lemma RowsExactly(docs: seq<Doc>, p: string)
    ensures forall i, j :: 0 <= i < j < |SchemaOf(docs)| ==> Precedes(SchemaOf(docs)[i].path, SchemaOf(docs)[j].path)
    ensures (exists k :: 0 <= k < |SchemaOf(docs)| && SchemaOf(docs)[k].path == p) <==>
            exists i, t :: 0 <= i < |docs| && Shows(docs[i], p, t)
  {
    hide RecordAll, SampleVisits, Count, DocSchema.Sorted, Shows, DocVisits, Precedes;
    var schema := SchemaOf(docs);
    SchemaCounts(docs, p, TNull);
    forall i, j | 0 <= i < j < |schema| ensures Precedes(schema[i].path, schema[j].path) {
      PathsAscend(schema, i, j);
    }
    if k :| 0 <= k < |schema| && schema[k].path == p {
      RecordAllPositive([], SampleVisits(docs));
      RowIsShown(docs, k);
    }
    if i, t :| 0 <= i < |docs| && Shows(docs[i], p, t) {
      ObservedExactly(docs[i], p, t);
      SampleShows(docs, Visit(p, t));
      SchemaCounts(docs, p, t);
      var k := CountSome(schema, p, t);
    }
  }

  lemma RowIsShown(docs: seq<Doc>, k: nat)
    requires k < |SchemaOf(docs)| && Positive(SchemaOf(docs))
    ensures exists i, t :: 0 <= i < |docs| && Shows(docs[i], SchemaOf(docs)[k].path, t)
  {
    hide RecordAll, SampleVisits, Count, DocSchema.Sorted, Shows, DocVisits;
    var f := SchemaOf(docs)[k];
    RowTyped(docs, k);
    var t :| t in f.types;
    SchemaCounts(docs, f.path, t);
    CountAt(SchemaOf(docs), k, t);
    var v := Visit(f.path, t);
    assert v in SampleVisits(docs);
    SampleShows(docs, v);
    var i :| 0 <= i < |docs| && v in DocVisits(docs[i]);
    ObservedExactly(docs[i], f.path, t);
  }

  /** A row of the rollup has some type. */
  predicate Typed(schema: Schema) {
    forall k :: 0 <= k < |schema| ==> schema[k].types != map[]
  }

  lemma {:induction false} RecordTyped(acc: Schema, v: Visit)
    requires Typed(acc)
    ensures Typed(Record(acc, v))
    decreases |acc|
  {
    hide Less;
    if acc != [] && acc[0].path != v.path && !Less(v.path, acc[0].path) {
      RecordTyped(acc[1..], v);
    }
  }

  lemma {:induction false} RecordAllTyped(acc: Schema, vs: seq<Visit>)
    requires Typed(acc)
    ensures Typed(RecordAll(acc, vs))
    decreases |vs|
  {
    hide Record, Typed;
    if vs != [] {
      RecordTyped(acc, vs[0]);
      RecordAllTyped(Record(acc, vs[0]), vs[1..]);
    }
  }

  lemma RowTyped(docs: seq<Doc>, k: nat)
    requires k < |SchemaOf(docs)|
    ensures exists t :: t in SchemaOf(docs)[k].types
  {
    hide RecordAll, SampleVisits;
    RecordAllTyped([], SampleVisits(docs));
    var types := SchemaOf(docs)[k].types;
    assert (forall t :: t !in types) ==> types == map[];
  }

  /** A row's types: most frequent first, and by alias among equals. */
  lemma TypesInOrder(docs: seq<Doc>, k: nat, i: nat, j: nat)
    requires k < |SchemaOf(docs)| && i < j < |Shapes(SchemaOf(docs), |docs|)[k].types|
    ensures var types := Shapes(SchemaOf(docs), |docs|)[k].types;
            || types[i].count > types[j].count
            || (types[i].count == types[j].count && !Precedes(AliasOf(types[j].kind), AliasOf(types[i].kind)))
  {
    hide RecordAll, SampleVisits, Listed, AliasOf, Precedes, Less;
    var types := Shapes(SchemaOf(docs), |docs|)[k].types;
    TypeOrderTotal();
    Sorting.SortedFacts(Listed(SchemaOf(docs)[k].types, ALL_TYPES), TypeOrder());
    assert TypeOrder()(types[i], types[j]);
    LessExactly(AliasOf(types[j].kind), AliasOf(types[i].kind));
  }

  // ----- columns -----

  lemma {:induction false} ScalarPathsAscend(schema: Schema, i: nat, j: nat)
    requires (forall a, b :: 0 <= a < b < |schema| ==> Precedes(schema[a].path, schema[b].path)) && i < j < |ScalarPaths(schema)|
    ensures Precedes(ScalarPaths(schema)[i], ScalarPaths(schema)[j])
    decreases |schema|
  {
    hide Precedes, Scalar;
    var n := |schema| - 1;
    var front := schema[..n];
    if j < |ScalarPaths(front)| {
      ScalarPathsAscend(front, i, j);
    } else {
      ScalarPathsOf(front, i);
      var a :| 0 <= a < |front| && front[a].path == ScalarPaths(front)[i];
      assert Precedes(schema[a].path, schema[n].path);
    }
  }

  lemma {:induction false} ScalarPathsOf(schema: Schema, i: nat)
    requires i < |ScalarPaths(schema)|
    ensures exists a :: 0 <= a < |schema| && schema[a].path == ScalarPaths(schema)[i]
    decreases |schema|
  {
    hide Scalar;
    var front := schema[..|schema| - 1];
    if i < |ScalarPaths(front)| {
      ScalarPathsOf(front, i);
      var a :| 0 <= a < |front| && front[a].path == ScalarPaths(front)[i];
      assert schema[a].path == ScalarPaths(schema)[i];
    } else {
      assert schema[|schema| - 1].path == ScalarPaths(schema)[i];
    }
  }

  /**
   * The columns of a sample: `_id`, then in order the paths it shows as something other than a
   * sub-document; those left out for lack of room come after all that are in.
   */
  lemma ColumnsExactly(docs: seq<Doc>, max: nat, p: string)
    requires docs != []
    ensures var c := Columns(SchemaOf(docs), max);
            && c != [] && c[0] == "_id"
            && (forall i, j :: 1 <= i < j < |c| ==> Precedes(c[i], c[j]))
            && (p in c[1..] ==> p != "_id" && exists i, t :: 0 <= i < |docs| && t != TObject && Shows(docs[i], p, t))
            && (p !in c[1..] && p != "_id" && (exists i, t :: 0 <= i < |docs| && t != TObject && Shows(docs[i], p, t)) ==>
                |c| >= max && forall i :: 1 <= i < |c| ==> Precedes(c[i], p))
  {
    hide SchemaOf, ScalarPaths, Shows, Precedes, SeenScalar;
    var paths := ScalarPaths(SchemaOf(docs));
    var c := Columns(SchemaOf(docs), max);
    SampleHasId(docs);
    var taken := Take(paths, max - 1);
    assert c[1..] == taken;
    forall i, j | 0 <= i < j < |paths| ensures Precedes(paths[i], paths[j]) {
      RowsExactly(docs, p);
      ScalarPathsAscend(SchemaOf(docs), i, j);
    }
    forall i, j | 1 <= i < j < |c| ensures Precedes(c[i], c[j]) {
      assert c[i] == taken[i - 1] == paths[i - 1] && c[j] == taken[j - 1] == paths[j - 1];
    }
    ScalarPathsExact(docs, p);
    ScalarShown(docs, p);
    if p in taken {
      assert p in paths;
    }
    if p !in taken && p in paths {
      var k :| 0 <= k < |paths| && paths[k] == p;
      assert forall i :: 0 <= i < |taken| ==> taken[i] == paths[i] && taken[i] in taken;
      forall i | 1 <= i < |c| ensures Precedes(c[i], p) {
        assert c[i] == taken[i - 1] == paths[i - 1];
      }
    }
  }

  lemma ScalarShown(docs: seq<Doc>, p: string)
    ensures SeenScalar(docs, p) <==> exists i, t :: 0 <= i < |docs| && t != TObject && Shows(docs[i], p, t)
  {
    hide SampleVisits, Shows, DocVisits;
    if SeenScalar(docs, p) {
      var t :| t != TObject && Visit(p, t) in SampleVisits(docs);
      SampleShows(docs, Visit(p, t));
      var i :| 0 <= i < |docs| && Visit(p, t) in DocVisits(docs[i]);
      ObservedExactly(docs[i], p, t);
    }
    if i, t :| 0 <= i < |docs| && t != TObject && Shows(docs[i], p, t) {
      ObservedExactly(docs[i], p, t);
      SampleShows(docs, Visit(p, t));
    }
  }
}
