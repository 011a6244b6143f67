/**
 * Path lookup of crates/red-core/src/doc.rs (`value_at`), and exactly which leaves of a
 * document it finds through their dotted paths.
 */
module DocPaths {
  import opened Wrappers
  import opened ExtJson
  import opened Strings
  import opened DocSchema

  /** `path.split('.')`. */
  function Segments(path: string): (r: seq<string>)
    ensures r != []
  {
    SplitOn(path, '.')
  }

  /** The first field of that name. */
  function Find(fields: seq<Field>, name: string): Option<DocValue> {
    if fields == [] then None else if fields[0].name == name then Some(fields[0].value) else Find(fields[1..], name)
  }

  function Head(d: Doc, name: string): Option<DocValue> {
    if name == ID then Some(d.id) else Find(d.fields, name)
  }

  function Descend(v: Option<DocValue>, name: string): Option<DocValue> {
    if v.Some? && v.value.Document? then Find(v.value.fields, name) else None
  }

  function Walk(d: Doc, segments: seq<string>): Option<DocValue>
    requires segments != []
  {
    if |segments| == 1 then Head(d, segments[0])
    else Descend(Walk(d, segments[..|segments| - 1]), segments[|segments| - 1])
  }

  /** `value_at`. */
  method ValueAt(d: Doc, path: string) returns (r: Option<DocValue>)
    ensures r == Walk(d, Segments(path))
  {
    hide Segments, Find;
    var segments := Segments(path);
    var current := Head(d, segments[0]);
    assert segments[..1] == [segments[0]];
    for i := 1 to |segments|
      invariant current == Walk(d, segments[..i])
    {
      assert segments[..i + 1][..i] == segments[..i];
      current := Descend(current, segments[i]);
    }
    assert segments[..|segments|] == segments;
    return current;
  }

  // ----- leaves by the names on the way to them -----

  datatype Route = Route(names: seq<string>, value: DocValue)

  function Routes(names: seq<string>, v: DocValue): seq<Route>
    decreases v, 1
  {
    if IsLeaf(v) then [Route(names, v)] else ChildRoutes(names, v.fields)
  }

  function ChildRoutes(names: seq<string>, fields: seq<Field>): seq<Route>
    decreases fields, 0
  {
    if fields == [] then [] else Routes(names + [fields[0].name], fields[0].value) + ChildRoutes(names, fields[1..])
  }

  function TopRoutes(fields: seq<Field>): seq<Route> {
    if fields == [] then [] else Routes([fields[0].name], fields[0].value) + TopRoutes(fields[1..])
  }

  function DocRoutes(d: Doc): seq<Route> {
    Routes([ID], d.id) + TopRoutes(d.fields)
  }

  function PathOf(names: seq<string>): string {
    if names == [] then "" else JoinWith(names, '.')
  }

  function LeafOf(r: Route): Leaf {
    Leaf(PathOf(r.names), r.value)
  }

  function LeavesOf(routes: seq<Route>): (r: seq<Leaf>)
    ensures |r| == |routes|
  {
    seq(|routes|, i requires 0 <= i < |routes| => LeafOf(routes[i]))
  }

  lemma LeavesOfConcat(x: seq<Route>, y: seq<Route>)
    ensures LeavesOf(x + y) == LeavesOf(x) + LeavesOf(y)
  {
    hide LeafOf;
  }

  lemma ChildPath(names: seq<string>, name: string)
    requires names != []
    ensures PathOf(names + [name]) == Child(PathOf(names), name)
  {
    hide JoinWith;
    JoinSnoc(names, name, '.');
  }

  /** The leaves of a value, in order, are its routes with their names joined. */
  lemma {:induction false} LeavesAreRoutes(names: seq<string>, v: DocValue)
    requires names != []
    ensures Leaves(PathOf(names), v) == LeavesOf(Routes(names, v))
    decreases v, 1
  {
    hide PathOf;
    if !IsLeaf(v) {
      ChildLeavesAreRoutes(names, v.fields);
    }
  }

  lemma {:induction false} ChildLeavesAreRoutes(names: seq<string>, fields: seq<Field>)
    requires names != []
    ensures ChildLeaves(PathOf(names), fields) == LeavesOf(ChildRoutes(names, fields))
    decreases fields, 0
  {
    hide PathOf, Leaves, Routes, Child;
    if fields != [] {
      var f := fields[0];
      ChildPath(names, f.name);
      LeavesAreRoutes(names + [f.name], f.value);
      ChildLeavesAreRoutes(names, fields[1..]);
      LeavesOfConcat(Routes(names + [f.name], f.value), ChildRoutes(names, fields[1..]));
    }
  }

  lemma OneName(name: string)
    ensures PathOf([name]) == name
  {
    JoinOne(name, '.');
  }

  lemma {:induction false} TopLeavesAreRoutes(fields: seq<Field>)
    ensures TopLeaves(fields) == LeavesOf(TopRoutes(fields))
    decreases |fields|
  {
    hide PathOf, Leaves, Routes;
    if fields != [] {
      var f := fields[0];
      OneName(f.name);
      LeavesAreRoutes([f.name], f.value);
      TopLeavesAreRoutes(fields[1..]);
      LeavesOfConcat(Routes([f.name], f.value), TopRoutes(fields[1..]));
    }
  }

  lemma DocLeavesAreRoutes(d: Doc)
    ensures DocLeaves(d) == LeavesOf(DocRoutes(d))
  {
    hide PathOf, Leaves, Routes, TopLeaves, TopRoutes;
    OneName(ID);
    LeavesAreRoutes([ID], d.id);
    TopLeavesAreRoutes(d.fields);
    LeavesOfConcat(Routes([ID], d.id), TopRoutes(d.fields));
  }

  // ----- looking a route up by its names -----

  predicate DistinctNames(fields: seq<Field>) {
    forall j, k :: 0 <= j < k < |fields| ==> fields[j].name != fields[k].name
  }

  /** No two fields of one document are named alike, all the way down. */
  predicate Unique(v: DocValue) {
    v.Document? ==> DistinctNames(v.fields) && forall k :: 0 <= k < |v.fields| ==> Unique(v.fields[k].value)
  }

  /** And no second `_id` at the top. */
  predicate UniqueDoc(d: Doc) {
    && DistinctNames(d.fields) && Unique(d.id)
    && forall k :: 0 <= k < |d.fields| ==> Unique(d.fields[k].value) && d.fields[k].name != ID
  }

  lemma {:induction false} FindUnique(fields: seq<Field>, k: nat)
    requires DistinctNames(fields) && k < |fields|
    ensures Find(fields, fields[k].name) == Some(fields[k].value)
    decreases k
  {
    if k > 0 {
      assert fields[1..][k - 1] == fields[k];
      FindUnique(fields[1..], k - 1);
    }
  }

  lemma WalkSnoc(d: Doc, names: seq<string>, name: string)
    requires names != []
    ensures Walk(d, names + [name]) == Descend(Walk(d, names), name)
  {
    hide Find;
    assert (names + [name])[..|names|] == names;
  }

  lemma {:induction false} RouteFound(d: Doc, names: seq<string>, v: DocValue, r: Route)
    requires names != [] && Unique(v) && Walk(d, names) == Some(v) && r in Routes(names, v)
    ensures r.names != [] && Walk(d, r.names) == Some(r.value)
    decreases v, 1, 0
  {
    hide Walk, DistinctNames;
    if !IsLeaf(v) {
      ChildRouteFound(d, names, v.fields, 0, r);
    }
  }

  lemma {:induction false} ChildRouteFound(d: Doc, names: seq<string>, fields: seq<Field>, k: nat, r: Route)
    requires names != [] && DistinctNames(fields) && (forall j :: 0 <= j < |fields| ==> Unique(fields[j].value))
    requires Walk(d, names) == Some(Document(fields)) && k <= |fields| && r in ChildRoutes(names, fields[k..])
    ensures r.names != [] && Walk(d, r.names) == Some(r.value)
    decreases fields, 0, |fields| - k
  {
    hide Walk, DistinctNames, Unique, Routes, Find;
    assert k < |fields| && fields[k..][0] == fields[k] && fields[k..][1..] == fields[k + 1..];
    var f := fields[k];
    if r in Routes(names + [f.name], f.value) {
      FindUnique(fields, k);
      WalkSnoc(d, names, f.name);
      RouteFound(d, names + [f.name], f.value, r);
    } else {
      ChildRouteFound(d, names, fields, k + 1, r);
    }
  }

  lemma {:induction false} TopRouteFound(d: Doc, k: nat, r: Route)
    requires UniqueDoc(d) && k <= |d.fields| && r in TopRoutes(d.fields[k..])
    ensures r.names != [] && Walk(d, r.names) == Some(r.value)
    decreases |d.fields| - k
  {
    hide DistinctNames, Unique, Routes, Find;
    assert k < |d.fields| && d.fields[k..][0] == d.fields[k] && d.fields[k..][1..] == d.fields[k + 1..];
    var f := d.fields[k];
    if r in Routes([f.name], f.value) {
      FindUnique(d.fields, k);
      RouteFound(d, [f.name], f.value, r);
    } else {
      TopRouteFound(d, k + 1, r);
    }
  }

  /** Every leaf is what walking its own names finds. */
  lemma DocRouteFound(d: Doc, r: Route)
    requires UniqueDoc(d) && r in DocRoutes(d)
    ensures r.names != [] && Walk(d, r.names) == Some(r.value)
  {
    hide DistinctNames, Unique, Routes;
    if r in Routes([ID], d.id) {
      RouteFound(d, [ID], d.id, r);
    } else {
      assert d.fields[0..] == d.fields;
      TopRouteFound(d, 0, r);
    }
  }

  // ----- what a walk finds is a route -----

  lemma {:induction false} FindChild(names: seq<string>, fields: seq<Field>, name: string, r: Route)
    requires Find(fields, name).Some? && r in Routes(names + [name], Find(fields, name).value)
    ensures r in ChildRoutes(names, fields)
    decreases |fields|
  {
    hide Routes;
    if fields[0].name != name {
      FindChild(names, fields[1..], name, r);
    }
  }

  lemma {:induction false} FindTop(fields: seq<Field>, name: string, r: Route)
    requires Find(fields, name).Some? && r in Routes([name], Find(fields, name).value)
    ensures r in TopRoutes(fields)
    decreases |fields|
  {
    hide Routes;
    if fields[0].name != name {
      FindTop(fields[1..], name, r);
    }
  }

  lemma FoundParent(fields: seq<Field>, name: string)
    requires Find(fields, name).Some?
    ensures fields != [] && !IsLeaf(Document(fields))
  {
  }

  /** Everything below a value that a walk reaches is among the document's routes. */
  lemma {:induction false} WalkedRoutes(d: Doc, names: seq<string>, r: Route)
    requires names != [] && Walk(d, names).Some? && r in Routes(names, Walk(d, names).value)
    ensures r in DocRoutes(d)
    decreases |names|
  {
    hide Find;
    if |names| == 1 {
      assert names == [names[0]];
      if names[0] != ID {
        FindTop(d.fields, names[0], r);
      }
    } else {
      var front, name := names[..|names| - 1], names[|names| - 1];
      assert names == front + [name];
      var parent := Walk(d, front).value;
      FoundParent(parent.fields, name);
      FindChild(front, parent.fields, name, r);
      WalkedRoutes(d, front, r);
    }
  }

  // ----- dots -----

  predicate DotFreeNames(names: seq<string>) {
    forall k :: 0 <= k < |names| ==> SepFree(names[k], '.')
  }

  lemma DotFreeSplits(names: seq<string>)
    requires names != []
    ensures Segments(PathOf(names)) == names <==> DotFreeNames(names)
  {
    hide SplitOn, JoinWith, SepFree;
    if DotFreeNames(names) {
      SplitJoined(names, '.');
    } else {
      SplitPieces(PathOf(names), '.');
    }
  }

  predicate DistinctPaths(leaves: seq<Leaf>) {
    forall i, j :: 0 <= i < j < |leaves| ==> leaves[i].path != leaves[j].path
  }

  lemma {:induction false} RoutesEndInLeaves(names: seq<string>, v: DocValue, r: Route)
    requires r in Routes(names, v)
    ensures IsLeaf(r.value)
    decreases v, 1
  {
    if !IsLeaf(v) {
      ChildRoutesEndInLeaves(names, v.fields, r);
    }
  }

  lemma {:induction false} ChildRoutesEndInLeaves(names: seq<string>, fields: seq<Field>, r: Route)
    requires r in ChildRoutes(names, fields)
    ensures IsLeaf(r.value)
    decreases fields, 0
  {
    hide Routes;
    if r in Routes(names + [fields[0].name], fields[0].value) {
      RoutesEndInLeaves(names + [fields[0].name], fields[0].value, r);
    } else {
      ChildRoutesEndInLeaves(names, fields[1..], r);
    }
  }

  lemma {:induction false} TopRoutesEndInLeaves(fields: seq<Field>, r: Route)
    requires r in TopRoutes(fields)
    ensures IsLeaf(r.value)
    decreases |fields|
  {
    hide Routes;
    if r in Routes([fields[0].name], fields[0].value) {
      RoutesEndInLeaves([fields[0].name], fields[0].value, r);
    } else {
      TopRoutesEndInLeaves(fields[1..], r);
    }
  }

  lemma DocRoutesEndInLeaves(d: Doc, r: Route)
    requires r in DocRoutes(d)
    ensures IsLeaf(r.value)
  {
    hide Routes, TopRoutes;
    if r in Routes([ID], d.id) {
      RoutesEndInLeaves([ID], d.id, r);
    } else {
      TopRoutesEndInLeaves(d.fields, r);
    }
  }

  /** A walk that ends in a leaf ends at a route of these very names. */
  lemma WalkedLeaf(d: Doc, names: seq<string>) returns (j: nat)
    requires names != [] && Walk(d, names).Some? && IsLeaf(Walk(d, names).value)
    ensures j < |DocRoutes(d)| && DocRoutes(d)[j] == Route(names, Walk(d, names).value)
  {
    hide DocRoutes, Walk;
    var r := Route(names, Walk(d, names).value);
    assert Routes(names, r.value) == [r];
    WalkedRoutes(d, names, r);
    j :| 0 <= j < |DocRoutes(d)| && DocRoutes(d)[j] == r;
  }

  /**
   * With unique names and distinct leaf paths, a leaf is found through its dotted path
   * exactly when no name on the way to it holds a dot.
   */
  lemma LeafFoundExactly(d: Doc, k: nat)
    requires UniqueDoc(d) && DistinctPaths(DocLeaves(d)) && k < |DocLeaves(d)|
    ensures |DocRoutes(d)| == |DocLeaves(d)|
    ensures var l := DocLeaves(d)[k];
            Walk(d, Segments(l.path)) == Some(l.value) <==> DotFreeNames(DocRoutes(d)[k].names)
  {
    hide DocRoutes, DocLeaves, Walk, UniqueDoc, Segments, DotFreeNames, PathOf;
    DocLeavesAreRoutes(d);
    var r := DocRoutes(d)[k];
    assert r in DocRoutes(d);
    DocRouteFound(d, r);
    DotFreeSplits(r.names);
    assert DocLeaves(d)[k] == LeafOf(r);
    var segments := Segments(PathOf(r.names));
    if Walk(d, segments) == Some(r.value) && segments != r.names {
      DocRoutesEndInLeaves(d, r);
      var j := WalkedLeaf(d, segments);
      JoinedSegments(r.names);
      SamePath(d, j, k);
    }
  }

  lemma JoinedSegments(names: seq<string>)
    requires names != []
    ensures PathOf(Segments(PathOf(names))) == PathOf(names)
  {
    hide SplitOn, JoinWith;
    JoinSplit(PathOf(names), '.');
  }

  lemma SamePath(d: Doc, j: nat, k: nat)
    requires DistinctPaths(DocLeaves(d)) && j < |DocRoutes(d)| && k < |DocRoutes(d)|
    requires PathOf(DocRoutes(d)[j].names) == PathOf(DocRoutes(d)[k].names)
    ensures j == k
  {
    hide DocRoutes, DocLeaves, PathOf;
    DocLeavesAreRoutes(d);
    assert DocLeaves(d)[j] == LeafOf(DocRoutes(d)[j]) && DocLeaves(d)[k] == LeafOf(DocRoutes(d)[k]);
  }

  /** No name on the way to any leaf holds a dot. */
  predicate DotFreeDoc(d: Doc) {
    forall k :: 0 <= k < |DocRoutes(d)| ==> DotFreeNames(DocRoutes(d)[k].names)
  }

  /** Every leaf is what looking up its path finds. */
  lemma LeafLookup(d: Doc, l: Leaf)
    requires UniqueDoc(d) && DotFreeDoc(d) && l in DocLeaves(d)
    ensures Walk(d, Segments(l.path)) == Some(l.value)
  {
    hide DocRoutes, DocLeaves, Walk, UniqueDoc, Segments, DotFreeNames, PathOf;
    DocLeavesAreRoutes(d);
    var k :| 0 <= k < |DocLeaves(d)| && DocLeaves(d)[k] == l;
    var r := DocRoutes(d)[k];
    assert r in DocRoutes(d) && l == LeafOf(r);
    DocRouteFound(d, r);
    DotFreeSplits(r.names);
  }

  /** When nothing is reported unmapped, some column reads back each leaf. */
  lemma MappedMeansReadable(d: Doc, columns: seq<string>, l: Leaf)
    requires UniqueDoc(d) && DotFreeDoc(d) && !Unmapped(DocLeaves(d), columns) && l in DocLeaves(d)
    ensures exists c :: 0 <= c < |columns| && Walk(d, Segments(columns[c])) == Some(l.value)
  {
    hide UniqueDoc, DotFreeDoc, DocLeaves, Walk, Segments;
    LeafLookup(d, l);
    var k :| 0 <= k < |DocLeaves(d)| && DocLeaves(d)[k] == l;
    assert l.path in columns;
    var c :| 0 <= c < |columns| && columns[c] == l.path;
  }

  /** A dotted name is covered by its column and yet not found through it. */
  lemma DottedNameNotFound(v: DocValue)
    requires IsLeaf(v)
    ensures var d := Doc(Null, [Field("a.b", v)]);
            !Unmapped(DocLeaves(d), [ID, "a.b"]) && Walk(d, Segments("a.b")) == None
  {
    hide SplitOn;
    var f := Field("a.b", v);
    var d := Doc(Null, [f]);
    assert [f][1..] == [];
    assert Leaves(ID, Null) == [Leaf(ID, Null)];
    assert TopLeaves([]) == [] && TopLeaves([f]) == [Leaf("a.b", v)];
    assert DocLeaves(d) == [Leaf(ID, Null), Leaf("a.b", v)];
    SplitOne("a", '.');
    SplitSnoc("a", "b", '.');
    assert "a" + ['.'] + "b" == "a.b";
    assert Segments("a.b") == ["a", "b"];
    assert ["a", "b"][..1] == ["a"];
    assert Find(d.fields, "a") == None;
    assert Walk(d, ["a"]) == None;
  }
}
