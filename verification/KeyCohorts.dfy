/**
 * Exactly which templates crates/red-core/src/kv.rs infers: at each position, the sampled keys
 * that fit the pattern so far decide whether it is a variable.
 */
module KeyCohorts {
  import opened Wrappers
  import opened Strings
  import opened KeyTemplates

  // ----- what decides a position -----

  /** The key fits the pattern so far. */
  predicate Fits(p: Pattern, segments: seq<string>) {
    |p| <= |segments| && forall k :: 0 <= k < |p| ==> p[k].Any? || p[k].text == segments[k]
  }

  /** The sampled keys that fit the pattern so far, in their order. */
  function Cohort(all: seq<Row>, p: Pattern): seq<Row> {
    if all == [] then []
    else
      var row := all[|all| - 1];
      Cohort(all[..|all| - 1], p) + if Fits(p, row.segments) then [row] else []
  }

  /** The keys a template holds: those that fit and end there, or, past the last position, go on. */
  function Holding(all: seq<Row>, p: Pattern): seq<Row> {
    if all == [] then []
    else
      var row := all[|all| - 1];
      Holding(all[..|all| - 1], p) + if Fits(p, row.segments) && (|row.segments| == |p| || |p| == 9) then [row] else []
  }

  /** The different segments at position `d`. */
  function Values(rows: seq<Row>, d: nat): set<string>
    requires Deep(rows, d)
  {
    set i | 0 <= i < |rows| :: rows[i].segments[d]
  }

  /** More than twelve different segments, or at least two that are two thirds of the keys. */
  predicate Varies(rows: seq<Row>, d: nat)
    requires Deep(rows, d)
  {
    var n := |Values(rows, d)|;
    n > 12 || (n >= 2 && 3 * n >= 2 * |rows|)
  }

  lemma {:induction false} CohortDeep(all: seq<Row>, p: Pattern)
    ensures forall i :: 0 <= i < |Cohort(all, p)| ==> Fits(p, Cohort(all, p)[i].segments)
    decreases |all|
  {
    hide Fits;
    if all != [] {
      CohortDeep(all[..|all| - 1], p);
    }
  }

  lemma GoingOnDeep(all: seq<Row>, p: Pattern)
    ensures Deep(Cohort(all, p + [Any]), |p|)
  {
    hide Cohort;
    CohortDeep(all, p + [Any]);
  }

  /** Position `d` of the pattern is what the keys that reach it make it. */
  ghost predicate DecidedAt(all: seq<Row>, p: Pattern, d: nat)
    requires d < |p|
  {
    var reach := Cohort(all, p[..d] + [Any]);
    GoingOnDeep(all, p[..d]);
    if d >= 8 then p[d].Any? else p[d].Any? <==> Varies(reach, d)
  }

  ghost predicate Decided(all: seq<Row>, p: Pattern) {
    forall d :: 0 <= d < |p| ==> DecidedAt(all, p, d)
  }

  lemma DecidedMore(all: seq<Row>, p: Pattern, t: Token)
    requires Decided(all, p) && DecidedAt(all, p + [t], |p|)
    ensures Decided(all, p + [t])
  {
    hide Varies, Cohort;
    forall d | 0 <= d < |p + [t]| ensures DecidedAt(all, p + [t], d) {
      if d < |p| {
        assert DecidedAt(all, p, d);
        assert (p + [t])[..d] == p[..d];
      }
    }
  }

  // ----- cohorts -----

  lemma FitsAny(p: Pattern, segments: seq<string>)
    ensures Fits(p + [Any], segments) <==> Fits(p, segments) && |segments| > |p|
  {
    if Fits(p + [Any], segments) {
      forall k | 0 <= k < |p| ensures p[k].Any? || p[k].text == segments[k] {
        assert (p + [Any])[k] == p[k];
      }
    }
  }

  lemma FitsLit(p: Pattern, s: string, segments: seq<string>)
    ensures Fits(p + [Lit(s)], segments) <==> Fits(p, segments) && |segments| > |p| && segments[|p|] == s
  {
    var q := p + [Lit(s)];
    if Fits(q, segments) {
      forall k | 0 <= k < |p| ensures p[k].Any? || p[k].text == segments[k] {
        assert q[k] == p[k];
      }
      assert q[|p|] == Lit(s);
    }
  }

  /** What goes on past a pattern, and what ends there. */
  lemma {:induction false} EndingCohort(all: seq<Row>, p: Pattern)
    ensures Ending(Cohort(all, p), |p|, false) == Cohort(all, p + [Any])
    ensures |p| <= 8 ==> Ending(Cohort(all, p), |p|, true) == Holding(all, p)
    decreases |all|
  {
    hide Fits, Ending;
    EndingStep([], |p|, true);
    EndingStep([], |p|, false);
    if all != [] {
      var front, row := all[..|all| - 1], all[|all| - 1];
      EndingCohort(front, p);
      FitsAny(p, row.segments);
      if Fits(p, row.segments) {
        FitsLength(p, row.segments);
        EndingMore(Cohort(front, p), row, |p|, true);
        EndingMore(Cohort(front, p), row, |p|, false);
      } else {
        assert Cohort(all, p) == Cohort(front, p) && Holding(all, p) == Holding(front, p);
        assert Cohort(all, p + [Any]) == Cohort(front, p + [Any]);
      }
    }
  }

  lemma FitsLength(p: Pattern, segments: seq<string>)
    requires Fits(p, segments)
    ensures |segments| >= |p|
  {
  }

  lemma EndingMore(rows: seq<Row>, row: Row, depth: nat, ends: bool)
    ensures Ending(rows + [row], depth, ends) == Ending(rows, depth, ends) + if (|row.segments| <= depth) == ends then [row] else []
  {
    hide Ending;
    EndingStep(rows + [row], depth, ends);
    assert (rows + [row])[..|rows|] == rows;
  }

  // ----- groups -----

  /** The rows of the group with this segment. */
  function RowsAt(groups: seq<Group>, s: string): seq<Row> {
    if groups == [] then [] else if groups[0].segment == s then groups[0].rows else RowsAt(groups[1..], s)
  }

  lemma {:induction false} AbsentRows(groups: seq<Group>, s: string)
    requires forall k :: 0 <= k < |groups| ==> groups[k].segment != s
    ensures RowsAt(groups, s) == []
    decreases |groups|
  {
    if groups != [] {
      AbsentRows(groups[1..], s);
    }
  }

  lemma AfterHead(groups: seq<Group>, s: string)
    requires Ordered(groups) && groups != [] && Less(s, groups[0].segment)
    ensures forall k :: 0 <= k < |groups| ==> groups[k].segment != s
  {
    hide Less;
    forall k | 0 <= k < |groups| ensures groups[k].segment != s {
      LessTotal(s, groups[0].segment);
      if k > 0 {
        assert Less(groups[0].segment, groups[k].segment);
        LessTrans(s, groups[0].segment, groups[k].segment);
      }
      LessSelf(s);
    }
  }

  lemma {:induction false} AddRowRows(groups: seq<Group>, segment: string, row: Row, s: string)
    requires Ordered(groups)
    ensures RowsAt(AddRow(groups, segment, row), s) == RowsAt(groups, s) + if s == segment then [row] else []
    decreases |groups|
  {
    hide Less, AddRow, Ordered;
    var r := AddRow(groups, segment, row);
    AddRowStep(groups, segment, row);
    if groups == [] {
      assert r[1..] == [];
      assert RowsAt([], s) == [];
    } else if groups[0].segment == segment {
      assert r[1..] == groups[1..];
    } else if Less(segment, groups[0].segment) {
      assert r[1..] == groups;
      if s == segment {
        AfterHead(groups, s);
        AbsentRows(groups, s);
      }
    } else {
      assert r[1..] == AddRow(groups[1..], segment, row);
      OrderedTail(groups);
      AddRowRows(groups[1..], segment, row, s);
    }
  }

  /** The rows with this segment at `d`. */
  function WithSegment(rows: seq<Row>, d: nat, s: string): seq<Row>
    requires Deep(rows, d)
  {
    if rows == [] then []
    else WithSegment(rows[..|rows| - 1], d, s) + if rows[|rows| - 1].segments[d] == s then [rows[|rows| - 1]] else []
  }

  lemma {:induction false} GroupedRows(rows: seq<Row>, d: nat, s: string)
    requires Deep(rows, d)
    ensures RowsAt(Grouped(rows, d), s) == WithSegment(rows, d, s)
    decreases |rows|
  {
    hide AddRow, RowsAt, Ordered, GroupOk;
    if rows == [] {
      AbsentRows([], s);
    } else {
      var front, row := rows[..|rows| - 1], rows[|rows| - 1];
      GroupedRows(front, d, s);
      GroupedOk(front, d);
      AddRowRows(Grouped(front, d), row.segments[d], row, s);
    }
  }

  lemma {:induction false} RowsOfGroup(groups: seq<Group>, k: nat)
    requires Ordered(groups) && k < |groups|
    ensures RowsAt(groups, groups[k].segment) == groups[k].rows
    decreases k
  {
    hide Less;
    if k > 0 {
      assert Less(groups[0].segment, groups[k].segment);
      LessSelf(groups[k].segment);
      OrderedTail(groups);
      RowsOfGroup(groups[1..], k - 1);
    }
  }

  lemma {:induction false} SegmentCohort(all: seq<Row>, p: Pattern, s: string)
    requires Deep(Cohort(all, p + [Any]), |p|)
    ensures WithSegment(Cohort(all, p + [Any]), |p|, s) == Cohort(all, p + [Lit(s)])
    decreases |all|
  {
    hide Fits;
    if all != [] {
      var front, row := all[..|all| - 1], all[|all| - 1];
      GoingOnDeep(front, p);
      SegmentCohort(front, p, s);
      FitsAny(p, row.segments);
      FitsLit(p, s, row.segments);
      if Fits(p + [Any], row.segments) {
        var reach := Cohort(front, p + [Any]);
        assert (reach + [row])[..|reach|] == reach;
      } else {
        assert Cohort(all, p + [Any]) == Cohort(front, p + [Any]);
        assert Cohort(all, p + [Lit(s)]) == Cohort(front, p + [Lit(s)]);
      }
    }
  }

  /** A group holds the keys that fit with its segment. */
  lemma GroupIsCohort(all: seq<Row>, p: Pattern, k: nat)
    requires Deep(Cohort(all, p + [Any]), |p|) && k < |Grouped(Cohort(all, p + [Any]), |p|)|
    ensures var g := Grouped(Cohort(all, p + [Any]), |p|)[k]; g.rows == Cohort(all, p + [Lit(g.segment)])
  {
    hide Grouped, Cohort, RowsAt, WithSegment, Ordered, GroupOk;
    var reach := Cohort(all, p + [Any]);
    var groups := Grouped(reach, |p|);
    GroupedOk(reach, |p|);
    RowsOfGroup(groups, k);
    GroupedRows(reach, |p|, groups[k].segment);
    SegmentCohort(all, p, groups[k].segment);
  }

  // ----- counting segments -----

  ghost predicate HasGroup(groups: seq<Group>, s: string) {
    exists k :: 0 <= k < |groups| && groups[k].segment == s
  }

  lemma HasGroupCons(g: Group, rest: seq<Group>, s: string)
    ensures HasGroup([g] + rest, s) <==> g.segment == s || HasGroup(rest, s)
  {
    var all := [g] + rest;
    if g.segment == s {
      assert all[0].segment == s;
    }
    if HasGroup(rest, s) {
      var k :| 0 <= k < |rest| && rest[k].segment == s;
      assert all[k + 1].segment == s;
    }
  }

  lemma NoGroupHere(s: string)
    ensures !HasGroup([], s)
  {
  }

  lemma {:induction false} AddRowGroups(groups: seq<Group>, segment: string, row: Row, s: string)
    requires Ordered(groups)
    ensures HasGroup(AddRow(groups, segment, row), s) <==> s == segment || HasGroup(groups, s)
    ensures |AddRow(groups, segment, row)| == |groups| + if HasGroup(groups, segment) then 0 else 1
    decreases |groups|
  {
    hide Less, AddRow, HasGroup, Ordered;
    AddRowStep(groups, segment, row);
    NoGroupHere(s);
    NoGroupHere(segment);
    if groups == [] {
      assert [Group(segment, [row])] + [] == [Group(segment, [row])];
      HasGroupCons(Group(segment, [row]), [], s);
    } else {
      var g, rest := groups[0], groups[1..];
      assert groups == [g] + rest;
      HasGroupCons(g, rest, s);
      HasGroupCons(g, rest, segment);
      if g.segment == segment {
        HasGroupCons(Group(segment, g.rows + [row]), rest, s);
      } else if Less(segment, g.segment) {
        HasGroupCons(Group(segment, [row]), groups, s);
        AfterHead(groups, segment);
        NotThere(groups, segment);
      } else {
        OrderedTail(groups);
        AddRowGroups(rest, segment, row, s);
        HasGroupCons(g, AddRow(rest, segment, row), s);
      }
    }
  }

  lemma NotThere(groups: seq<Group>, s: string)
    requires forall k :: 0 <= k < |groups| ==> groups[k].segment != s
    ensures !HasGroup(groups, s)
  {
  }

  lemma ValuesSnoc(rows: seq<Row>, d: nat)
    requires rows != [] && Deep(rows, d)
    ensures Deep(rows[..|rows| - 1], d)
    ensures Values(rows, d) == Values(rows[..|rows| - 1], d) + {rows[|rows| - 1].segments[d]}
  {
    var front, row := rows[..|rows| - 1], rows[|rows| - 1];
    assert forall i :: 0 <= i < |front| ==> front[i] == rows[i];
    forall s | s in Values(rows, d) ensures s in Values(front, d) + {row.segments[d]} {
      var i :| 0 <= i < |rows| && rows[i].segments[d] == s;
      assert i < |front| ==> front[i].segments[d] == s;
    }
    forall s | s in Values(front, d) + {row.segments[d]} ensures s in Values(rows, d) {
      if s in Values(front, d) {
        var i :| 0 <= i < |front| && front[i].segments[d] == s;
        assert rows[i].segments[d] == s;
      }
    }
  }

  /** There are as many groups as different segments. */
  lemma {:induction false} GroupsCount(rows: seq<Row>, d: nat, s: string)
    requires Deep(rows, d)
    ensures |Grouped(rows, d)| == |Values(rows, d)|
    ensures HasGroup(Grouped(rows, d), s) <==> s in Values(rows, d)
    decreases |rows|
  {
    hide AddRow, HasGroup, Ordered, GroupOk;
    if rows == [] {
      NoGroupHere(s);
      assert Values(rows, d) == {};
    } else {
      var front, row := rows[..|rows| - 1], rows[|rows| - 1];
      ValuesSnoc(rows, d);
      GroupsCount(front, d, s);
      GroupsCount(front, d, row.segments[d]);
      GroupedOk(front, d);
      AddRowGroups(Grouped(front, d), row.segments[d], row, s);
      hide Values;
      OneMore(Values(front, d), row.segments[d]);
    }
  }

  lemma OneMore(a: set<string>, s: string)
    ensures |a + {s}| == |a| + if s in a then 0 else 1
  {
    if s in a {
      assert a + {s} == a;
    }
  }

  lemma VariesExactly(rows: seq<Row>, d: nat)
    requires Deep(rows, d)
    ensures IsVariablePosition(|Grouped(rows, d)|, |rows|) <==> Varies(rows, d)
  {
    hide Grouped, Values;
    GroupsCount(rows, d, "");
  }

  // ----- the walk -----

  /** A template is the one its position decisions give, and holds exactly the keys that fit it. */
  ghost predicate Settled(all: seq<Row>, t: Template) {
    Decided(all, t.pattern) && t.rows == Holding(all, t.pattern) && |t.pattern| <= 9
  }

  lemma {:induction false} WalkSettled(all: seq<Row>, prefix: Pattern, k: nat)
    requires |prefix| <= 8 && Decided(all, prefix) && k < |Walk(Cohort(all, prefix), |prefix|, prefix)|
    ensures Settled(all, Walk(Cohort(all, prefix), |prefix|, prefix)[k])
    decreases 8 - |prefix|, 1, 0
  {
    hide Walk, WalkDeeper, Ending, Cohort, Decided, Holding;
    var rows, depth := Cohort(all, prefix), |prefix|;
    WalkStep(rows, depth, prefix);
    EndingCohort(all, prefix);
    var terminal := Ending(rows, depth, true);
    var head := if terminal == [] then [] else [Template(prefix, terminal)];
    if k >= |head| {
      DeeperSettled(all, prefix, k - |head|);
    }
  }

  lemma {:induction false} DeeperSettled(all: seq<Row>, prefix: Pattern, k: nat)
    requires |prefix| <= 8 && Decided(all, prefix) && Deep(Cohort(all, prefix + [Any]), |prefix|)
    requires k < |WalkDeeper(Cohort(all, prefix + [Any]), |prefix|, prefix)|
    ensures Settled(all, WalkDeeper(Cohort(all, prefix + [Any]), |prefix|, prefix)[k])
    decreases 8 - |prefix|, 0, 0
  {
    hide Walk, WalkGroups, Grouped, Cohort, Decided, Holding, IsVariablePosition, Varies;
    var deeper, depth := Cohort(all, prefix + [Any]), |prefix|;
    VariesExactly(deeper, depth);
    assert (prefix + [Any])[..depth] == prefix;
    if depth == 8 {
      DecidedMore(all, prefix, Any);
      AbsorbsAll(all, prefix + [Any]);
    } else if IsVariablePosition(|Grouped(deeper, depth)|, |deeper|) {
      DecidedMore(all, prefix, Any);
      WalkSettled(all, prefix + [Any], k);
    } else {
      forall j | 0 <= j < |Grouped(deeper, depth)|
        ensures Grouped(deeper, depth)[j].rows == Cohort(all, prefix + [Lit(Grouped(deeper, depth)[j].segment)])
      {
        GroupIsCohort(all, prefix, j);
      }
      GroupsSettled(all, prefix, Grouped(deeper, depth), k);
    }
  }

  lemma {:induction false} AbsorbsAll(all: seq<Row>, p: Pattern)
    requires |p| == 9
    ensures Cohort(all, p) == Holding(all, p)
    decreases |all|
  {
    hide Fits;
    if all != [] {
      AbsorbsAll(all[..|all| - 1], p);
    }
  }

  lemma {:induction false} GroupsSettled(all: seq<Row>, prefix: Pattern, groups: seq<Group>, k: nat)
    requires |prefix| < 8 && Decided(all, prefix) && Deep(Cohort(all, prefix + [Any]), |prefix|) && !Varies(Cohort(all, prefix + [Any]), |prefix|)
    requires forall j :: 0 <= j < |groups| ==> groups[j].rows == Cohort(all, prefix + [Lit(groups[j].segment)])
    requires k < |WalkGroups(groups, |prefix|, prefix)|
    ensures Settled(all, WalkGroups(groups, |prefix|, prefix)[k])
    decreases 8 - |prefix| - 1, 2, |groups|
  {
    hide Walk, Cohort, Decided, Holding, Varies, Settled;
    var g := groups[0];
    var more := prefix + [Lit(g.segment)];
    var x := Walk(g.rows, |prefix| + 1, more);
    if k < |x| {
      assert more[..|prefix|] == prefix && more[|prefix|] == Lit(g.segment);
      DecidedMore(all, prefix, Lit(g.segment));
      WalkSettled(all, more, k);
    } else {
      GroupsSettled(all, prefix, groups[1..], k - |x|);
    }
  }

  lemma {:induction false} EveryoneFits(all: seq<Row>)
    ensures Cohort(all, []) == all
    decreases |all|
  {
    if all != [] {
      EveryoneFits(all[..|all| - 1]);
      assert all == all[..|all| - 1] + [all[|all| - 1]];
    }
  }

  /**
   * Every inferred template: up to the eighth position a segment is a `*` exactly when the keys
   * that reach it vary there, the ninth position is a `*` that takes the rest, and the template
   * holds exactly the sampled keys that fit it to their end.
   */
  lemma TemplatesExactly(keys: seq<KeyMeta>, k: nat)
    requires k < |Templates(keys)|
    ensures Settled(RowsOf(keys), Templates(keys)[k])
  {
    hide Walk, Decided, Settled, Cohort, RowsOf;
    var all := RowsOf(keys);
    EveryoneFits(all);
    assert Decided(all, []) by { NothingDecided(all); }
    WalkSettled(all, [], k);
  }

  lemma NothingDecided(all: seq<Row>)
    ensures Decided(all, [])
  {
  }
}
