/**
 * Key templates of crates/red-core/src/kv.rs: the recursion `walk_templates`, and the
 * partition of the sampled keys it amounts to.
 */
module KeyTemplates {
  import opened Wrappers
  import opened Strings

  /** A sampled key: its type label, size and remaining expiry. */
  datatype KeyMeta = KeyMeta(key: string, kind: string, bytes: nat, ttl: Option<nat>)

  /** A key split on `:`. */
  datatype Row = Row(segments: seq<string>, meta: KeyMeta)

  /** A segment of a pattern. */
  datatype Token = Lit(text: string) | Any

  type Pattern = seq<Token>

  datatype Template = Template(pattern: Pattern, rows: seq<Row>)

  const MAX_FANOUT: nat := 12
  const MAX_DEPTH: nat := 8

  predicate IsVariablePosition(distinct: nat, total: nat) {
    distinct > MAX_FANOUT || (distinct >= 2 && distinct * 3 >= total * 2)
  }

  // ----- grouping -----

  /** The rows that end at `depth`, or those that go on. */
  function Ending(rows: seq<Row>, depth: nat, ends: bool): (r: seq<Row>) {
    if rows == [] then []
    else
      var row := rows[|rows| - 1];
      Ending(rows[..|rows| - 1], depth, ends) + if (|row.segments| <= depth) == ends then [row] else []
  }

  /** An entry of the map from segment to rows, kept in key order. */
  datatype Group = Group(segment: string, rows: seq<Row>)

  function AddRow(groups: seq<Group>, segment: string, row: Row): seq<Group> {
    if groups == [] then [Group(segment, [row])]
    else if groups[0].segment == segment then [Group(segment, groups[0].rows + [row])] + groups[1..]
    else if Less(segment, groups[0].segment) then [Group(segment, [row])] + groups
    else [groups[0]] + AddRow(groups[1..], segment, row)
  }

  predicate Deep(rows: seq<Row>, depth: nat) {
    forall i :: 0 <= i < |rows| ==> |rows[i].segments| > depth
  }

  /** The rows by their segment at `depth`. */
  function Grouped(rows: seq<Row>, depth: nat): seq<Group>
    requires Deep(rows, depth)
  {
    if rows == [] then []
    else AddRow(Grouped(rows[..|rows| - 1], depth), rows[|rows| - 1].segments[depth], rows[|rows| - 1])
  }

  lemma {:induction false} EndingDeep(rows: seq<Row>, depth: nat)
    ensures Deep(Ending(rows, depth, false), depth)
    ensures forall i :: 0 <= i < |Ending(rows, depth, true)| ==> |Ending(rows, depth, true)[i].segments| <= depth
    decreases |rows|
  {
    if rows != [] {
      EndingDeep(rows[..|rows| - 1], depth);
    }
  }

  // ----- the walk -----

  function Walk(rows: seq<Row>, depth: nat, prefix: Pattern): seq<Template>
    requires depth <= MAX_DEPTH
    decreases MAX_DEPTH - depth, 1, 0
  {
    var terminal, deeper := Ending(rows, depth, true), Ending(rows, depth, false);
    EndingDeep(rows, depth);
    (if terminal == [] then [] else [Template(prefix, terminal)]) + WalkDeeper(deeper, depth, prefix)
  }

  /** The templates of the rows that go on past `depth`. */
  function WalkDeeper(deeper: seq<Row>, depth: nat, prefix: Pattern): seq<Template>
    requires depth <= MAX_DEPTH && Deep(deeper, depth)
    decreases MAX_DEPTH - depth, 0, 0
  {
    if deeper == [] then []
    else if depth == MAX_DEPTH then [Template(prefix + [Any], deeper)]
    else if IsVariablePosition(|Grouped(deeper, depth)|, |deeper|) then Walk(deeper, depth + 1, prefix + [Any])
    else WalkGroups(Grouped(deeper, depth), depth, prefix)
  }

  function WalkGroups(groups: seq<Group>, depth: nat, prefix: Pattern): seq<Template>
    requires depth < MAX_DEPTH
    decreases MAX_DEPTH - depth - 1, 2, |groups|
  {
    if groups == [] then []
    else Walk(groups[0].rows, depth + 1, prefix + [Lit(groups[0].segment)]) + WalkGroups(groups[1..], depth, prefix)
  }

  method Partition(rows: seq<Row>, depth: nat) returns (terminal: seq<Row>, deeper: seq<Row>)
    ensures terminal == Ending(rows, depth, true) && deeper == Ending(rows, depth, false)
  {
    terminal, deeper := [], [];
    for i := 0 to |rows|
      invariant terminal == Ending(rows[..i], depth, true) && deeper == Ending(rows[..i], depth, false)
    {
      assert rows[..i + 1][..i] == rows[..i];
      if |rows[i].segments| <= depth {
        terminal := terminal + [rows[i]];
      } else {
        deeper := deeper + [rows[i]];
      }
    }
    assert rows[..|rows|] == rows;
  }

  method GroupRows(rows: seq<Row>, depth: nat) returns (groups: seq<Group>)
    requires Deep(rows, depth)
    ensures groups == Grouped(rows, depth)
  {
    groups := [];
    for i := 0 to |rows|
      invariant groups == Grouped(rows[..i], depth)
    {
      assert rows[..i + 1][..i] == rows[..i];
      groups := AddRow(groups, rows[i].segments[depth], rows[i]);
    }
    assert rows[..|rows|] == rows;
  }

  /** `walk_templates`, appending to `out`. */
  method WalkTemplates(rows: seq<Row>, depth: nat, prefix: Pattern, out: seq<Template>) returns (r: seq<Template>)
    requires depth <= MAX_DEPTH
    ensures r == out + Walk(rows, depth, prefix)
    decreases MAX_DEPTH - depth
  {
    hide Ending, Grouped, Walk, IsVariablePosition;
    var terminal, deeper := Partition(rows, depth);
    EndingDeep(rows, depth);
    WalkStep(rows, depth, prefix);
    r := out;
    if terminal != [] {
      r := r + [Template(prefix, terminal)];
    }
    ghost var start := r;
    if deeper == [] {
      return;
    }
    if depth >= MAX_DEPTH {
      r := r + [Template(prefix + [Any], deeper)];
      return;
    }
    var groups := GroupRows(deeper, depth);
    if IsVariablePosition(|groups|, |deeper|) {
      r := WalkTemplates(deeper, depth + 1, prefix + [Any], r);
    } else {
      for i := 0 to |groups|
        invariant r + WalkGroups(groups[i..], depth, prefix) == start + WalkGroups(groups, depth, prefix)
      {
        var g := groups[i];
        assert groups[i..][0] == g && groups[i..][1..] == groups[i + 1..];
        AppendAssoc(r, Walk(g.rows, depth + 1, prefix + [Lit(g.segment)]), WalkGroups(groups[i + 1..], depth, prefix));
        r := WalkTemplates(g.rows, depth + 1, prefix + [Lit(g.segment)], r);
      }
      assert r + [] == r;
    }
  }

  lemma {:induction false} WalkStep(rows: seq<Row>, depth: nat, prefix: Pattern)
    requires depth <= MAX_DEPTH
    ensures Deep(Ending(rows, depth, false), depth)
    ensures Walk(rows, depth, prefix) ==
            (if Ending(rows, depth, true) == [] then [] else [Template(prefix, Ending(rows, depth, true))])
              + WalkDeeper(Ending(rows, depth, false), depth, prefix)
  {
    hide Ending, WalkDeeper;
    EndingDeep(rows, depth);
  }

  lemma AppendAssoc(x: seq<Template>, y: seq<Template>, z: seq<Template>)
    ensures x + (y + z) == (x + y) + z
  {
  }

  // ----- no key is lost or counted twice -----

  /** The rows under a list of templates, with multiplicity. */
  ghost function Covered(ts: seq<Template>): multiset<Row> {
    if ts == [] then multiset{} else multiset(ts[0].rows) + Covered(ts[1..])
  }

  lemma {:induction false} CoveredConcat(x: seq<Template>, y: seq<Template>)
    ensures Covered(x + y) == Covered(x) + Covered(y)
    decreases |x|
  {
    if x == [] {
      assert x + y == y;
    } else {
      assert (x + y)[1..] == x[1..] + y;
      CoveredConcat(x[1..], y);
    }
  }

  lemma {:induction false} CoveredOne(t: Template)
    ensures Covered([t]) == multiset(t.rows) && Covered([]) == multiset{}
  {
    assert [t][1..] == [];
  }

  ghost function InGroups(groups: seq<Group>): multiset<Row> {
    if groups == [] then multiset{} else multiset(groups[0].rows) + InGroups(groups[1..])
  }

  lemma {:induction false} EndingSplit(rows: seq<Row>, depth: nat)
    ensures multiset(Ending(rows, depth, true)) + multiset(Ending(rows, depth, false)) == multiset(rows)
    decreases |rows|
  {
    hide Ending;
    EndingStep(rows, depth, true);
    EndingStep(rows, depth, false);
    if rows != [] {
      EndingSplit(rows[..|rows| - 1], depth);
      assert rows == rows[..|rows| - 1] + [rows[|rows| - 1]];
    }
  }

  lemma {:induction false} EndingStep(rows: seq<Row>, depth: nat, ends: bool)
    ensures rows == [] ==> Ending(rows, depth, ends) == []
    ensures rows != [] ==>
              Ending(rows, depth, ends) ==
              Ending(rows[..|rows| - 1], depth, ends) + if (|rows[|rows| - 1].segments| <= depth) == ends then [rows[|rows| - 1]] else []
  {
  }

  lemma {:induction false} AddRowAdds(groups: seq<Group>, segment: string, row: Row)
    ensures InGroups(AddRow(groups, segment, row)) == InGroups(groups) + multiset{row}
    decreases |groups|
  {
    hide Less;
    var r := AddRow(groups, segment, row);
    if groups == [] {
      assert r[1..] == [];
      assert InGroups([]) == multiset{};
    } else if groups[0].segment == segment || Less(segment, groups[0].segment) {
      assert r[1..] == groups[1..] || r[1..] == groups;
    } else {
      assert r[1..] == AddRow(groups[1..], segment, row);
      AddRowAdds(groups[1..], segment, row);
    }
  }

  lemma {:induction false} GroupedHolds(rows: seq<Row>, depth: nat)
    requires Deep(rows, depth)
    ensures InGroups(Grouped(rows, depth)) == multiset(rows)
    decreases |rows|
  {
    hide AddRow, InGroups;
    if rows == [] {
      NoGroups();
    } else {
      var front, row := rows[..|rows| - 1], rows[|rows| - 1];
      GroupedHolds(front, depth);
      AddRowAdds(Grouped(front, depth), row.segments[depth], row);
      assert rows == front + [row];
    }
  }

  lemma NoGroups()
    ensures InGroups([]) == multiset{}
  {
  }

  /** The templates of a walk hold its rows, each exactly as often. */
  lemma {:induction false} WalkCovers(rows: seq<Row>, depth: nat, prefix: Pattern)
    requires depth <= MAX_DEPTH
    ensures Covered(Walk(rows, depth, prefix)) == multiset(rows)
    decreases MAX_DEPTH - depth, 1, 0
  {
    hide Walk, WalkDeeper, Ending, Covered;
    var terminal, deeper := Ending(rows, depth, true), Ending(rows, depth, false);
    EndingSplit(rows, depth);
    WalkStep(rows, depth, prefix);
    DeeperCovers(deeper, depth, prefix);
    var head := if terminal == [] then [] else [Template(prefix, terminal)];
    CoveredOne(Template(prefix, terminal));
    CoveredConcat(head, WalkDeeper(deeper, depth, prefix));
  }

  lemma {:induction false} DeeperCovers(deeper: seq<Row>, depth: nat, prefix: Pattern)
    requires depth <= MAX_DEPTH && Deep(deeper, depth)
    ensures Covered(WalkDeeper(deeper, depth, prefix)) == multiset(deeper)
    decreases MAX_DEPTH - depth, 0, 0
  {
    hide Walk, WalkGroups, Grouped, Covered, IsVariablePosition;
    CoveredOne(Template(prefix + [Any], deeper));
    if deeper != [] && depth < MAX_DEPTH {
      if IsVariablePosition(|Grouped(deeper, depth)|, |deeper|) {
        WalkCovers(deeper, depth + 1, prefix + [Any]);
      } else {
        GroupedHolds(deeper, depth);
        GroupsCover(Grouped(deeper, depth), depth, prefix);
      }
    }
  }

  lemma {:induction false} GroupsCover(groups: seq<Group>, depth: nat, prefix: Pattern)
    requires depth < MAX_DEPTH
    ensures Covered(WalkGroups(groups, depth, prefix)) == InGroups(groups)
    decreases MAX_DEPTH - depth - 1, 2, |groups|
  {
    hide Walk, Covered;
    CoveredOne(Template([], []));
    if groups != [] {
      var g := groups[0];
      WalkCovers(g.rows, depth + 1, prefix + [Lit(g.segment)]);
      GroupsCover(groups[1..], depth, prefix);
      CoveredConcat(Walk(g.rows, depth + 1, prefix + [Lit(g.segment)]), WalkGroups(groups[1..], depth, prefix));
    }
  }

  // ----- groups -----

  predicate GroupOk(g: Group, depth: nat) {
    forall i :: 0 <= i < |g.rows| ==> |g.rows[i].segments| > depth && g.rows[i].segments[depth] == g.segment
  }

  predicate Ordered(groups: seq<Group>) {
    forall i, j :: 0 <= i < j < |groups| ==> Less(groups[i].segment, groups[j].segment)
  }

  lemma {:induction false} AddRowOk(groups: seq<Group>, depth: nat, row: Row)
    requires |row.segments| > depth && forall k :: 0 <= k < |groups| ==> GroupOk(groups[k], depth)
    ensures var r := AddRow(groups, row.segments[depth], row); forall k :: 0 <= k < |r| ==> GroupOk(r[k], depth)
    decreases |groups|
  {
    hide Less, AddRow;
    var segment := row.segments[depth];
    AddRowStep(groups, segment, row);
    if groups != [] {
      AddRowOk(groups[1..], depth, row);
      assert GroupOk(groups[0], depth);
      var grown := Group(segment, groups[0].rows + [row]);
      assert groups[0].segment == segment ==> GroupOk(grown, depth);
      hide GroupOk;
      forall k | 0 <= k < |groups[1..]| ensures GroupOk(groups[1..][k], depth) {
        assert groups[1..][k] == groups[k + 1];
      }
      SingleOk(depth, row);
    }
  }

  lemma SingleOk(depth: nat, row: Row)
    requires |row.segments| > depth
    ensures GroupOk(Group(row.segments[depth], [row]), depth)
  {
  }

  /** The segments of the new groups are the old ones and the added one. */
  lemma {:induction false} AddRowSegments(groups: seq<Group>, segment: string, row: Row, k: nat)
    requires k < |AddRow(groups, segment, row)|
    ensures var s := AddRow(groups, segment, row)[k].segment;
            s == segment || exists j :: 0 <= j < |groups| && groups[j].segment == s
    decreases |groups|
  {
    hide Less;
    var r := AddRow(groups, segment, row);
    if groups != [] {
      if groups[0].segment == segment {
        assert k > 0 ==> r[k] == groups[k];
      } else if Less(segment, groups[0].segment) {
        assert k > 0 ==> r[k] == groups[k - 1];
      } else if k > 0 {
        assert r[k] == AddRow(groups[1..], segment, row)[k - 1];
        AddRowSegments(groups[1..], segment, row, k - 1);
        if j :| 0 <= j < |groups[1..]| && groups[1..][j].segment == r[k].segment {
          assert groups[j + 1].segment == r[k].segment;
        }
      } else {
        assert groups[0].segment == r[0].segment;
      }
    }
  }

  lemma OrderedCons(g: Group, rest: seq<Group>)
    requires Ordered(rest) && forall k :: 0 <= k < |rest| ==> Less(g.segment, rest[k].segment)
    ensures Ordered([g] + rest)
  {
    hide Less;
  }

  lemma {:induction false} AddRowOrdered(groups: seq<Group>, segment: string, row: Row)
    requires Ordered(groups)
    ensures Ordered(AddRow(groups, segment, row))
    decreases |groups|
  {
    hide Less, AddRow;
    AddRowStep(groups, segment, row);
    if groups != [] {
      var g, rest := groups[0], groups[1..];
      LessTotal(g.segment, segment);
      if g.segment == segment {
        OrderedCons(Group(segment, g.rows + [row]), rest);
      } else if Less(segment, g.segment) {
        forall k | 0 <= k < |groups| ensures Less(segment, groups[k].segment) {
          if k > 0 {
            LessTrans(segment, g.segment, groups[k].segment);
          }
        }
        OrderedCons(Group(segment, [row]), groups);
      } else {
        AddRowOrdered(rest, segment, row);
        forall k | 0 <= k < |AddRow(rest, segment, row)| ensures Less(g.segment, AddRow(rest, segment, row)[k].segment) {
          AddRowSegments(rest, segment, row, k);
        }
        OrderedCons(g, AddRow(rest, segment, row));
      }
    }
  }

  lemma {:induction false} AddRowStep(groups: seq<Group>, segment: string, row: Row)
    ensures var r := AddRow(groups, segment, row);
            if groups == [] then r == [Group(segment, [row])]
            else if groups[0].segment == segment then r == [Group(segment, groups[0].rows + [row])] + groups[1..]
            else if Less(segment, groups[0].segment) then r == [Group(segment, [row])] + groups
            else r == [groups[0]] + AddRow(groups[1..], segment, row)
  {
    hide Less;
  }

  lemma {:induction false} GroupedOk(rows: seq<Row>, depth: nat)
    requires Deep(rows, depth)
    ensures Ordered(Grouped(rows, depth))
    ensures forall k :: 0 <= k < |Grouped(rows, depth)| ==> GroupOk(Grouped(rows, depth)[k], depth)
    decreases |rows|
  {
    hide AddRow, Ordered, GroupOk;
    if rows == [] {
      assert Ordered([]) by { NoneOrdered(); }
    } else {
      var front, row := rows[..|rows| - 1], rows[|rows| - 1];
      GroupedOk(front, depth);
      AddRowOk(Grouped(front, depth), depth, row);
      AddRowOrdered(Grouped(front, depth), row.segments[depth], row);
    }
  }

  lemma NoneOrdered()
    ensures Ordered([])
  {
  }

  // ----- every key matches its template -----

  predicate TokenMatches(t: Token, segment: string) {
    t == Any || t == Lit(segment)
  }

  /** Token by token; the longest patterns end in a `*` that takes the rest of the key. */
  predicate Matches(pattern: Pattern, segments: seq<string>) {
    && (if |pattern| > MAX_DEPTH then |segments| >= |pattern| else |segments| == |pattern|)
    && forall i :: 0 <= i < |pattern| ==> TokenMatches(pattern[i], segments[i])
  }

  /** The key starts as the prefix says. */
  predicate Begins(prefix: Pattern, segments: seq<string>) {
    |segments| >= |prefix| && forall i :: 0 <= i < |prefix| ==> TokenMatches(prefix[i], segments[i])
  }

  predicate AllBegin(prefix: Pattern, rows: seq<Row>) {
    forall i :: 0 <= i < |rows| ==> Begins(prefix, rows[i].segments)
  }

  predicate HoldsMatching(t: Template) {
    t.rows != [] && forall i :: 0 <= i < |t.rows| ==> Matches(t.pattern, t.rows[i].segments)
  }

  predicate AllHold(ts: seq<Template>) {
    forall k :: 0 <= k < |ts| ==> HoldsMatching(ts[k])
  }

  lemma AllHoldConcat(x: seq<Template>, y: seq<Template>)
    requires AllHold(x) && AllHold(y)
    ensures AllHold(x + y)
  {
    hide HoldsMatching;
  }

  lemma {:induction false} EndingBegins(rows: seq<Row>, depth: nat, ends: bool, prefix: Pattern)
    requires AllBegin(prefix, rows)
    ensures AllBegin(prefix, Ending(rows, depth, ends))
    decreases |rows|
  {
    hide Begins;
    if rows != [] {
      EndingBegins(rows[..|rows| - 1], depth, ends, prefix);
    }
  }

  lemma BeginsOn(prefix: Pattern, segments: seq<string>, t: Token)
    requires Begins(prefix, segments) && |segments| > |prefix| && TokenMatches(t, segments[|prefix|])
    ensures Begins(prefix + [t], segments)
  {
    hide TokenMatches;
  }

  lemma TerminalHolds(rows: seq<Row>, depth: nat, prefix: Pattern)
    requires depth <= MAX_DEPTH && |prefix| == depth && AllBegin(prefix, rows) && Ending(rows, depth, true) != []
    ensures HoldsMatching(Template(prefix, Ending(rows, depth, true)))
  {
    hide Ending, TokenMatches;
    EndingBegins(rows, depth, true, prefix);
    EndingDeep(rows, depth);
    var terminal := Ending(rows, depth, true);
    forall i | 0 <= i < |terminal| ensures Matches(prefix, terminal[i].segments) {
      assert Begins(prefix, terminal[i].segments);
    }
  }

  lemma {:induction false} WalkHolds(rows: seq<Row>, depth: nat, prefix: Pattern)
    requires depth <= MAX_DEPTH && |prefix| == depth && AllBegin(prefix, rows)
    ensures AllHold(Walk(rows, depth, prefix))
    decreases MAX_DEPTH - depth, 1, 0
  {
    hide Walk, WalkDeeper, Ending, HoldsMatching, AllBegin;
    var terminal, deeper := Ending(rows, depth, true), Ending(rows, depth, false);
    WalkStep(rows, depth, prefix);
    EndingBegins(rows, depth, false, prefix);
    DeeperHolds(deeper, depth, prefix);
    if terminal != [] {
      TerminalHolds(rows, depth, prefix);
    }
    var head := if terminal == [] then [] else [Template(prefix, terminal)];
    AllHoldConcat(head, WalkDeeper(deeper, depth, prefix));
  }

  lemma {:induction false} AllBeginAny(rows: seq<Row>, prefix: Pattern)
    requires AllBegin(prefix, rows) && Deep(rows, |prefix|)
    ensures AllBegin(prefix + [Any], rows)
  {
    hide Begins;
    forall i | 0 <= i < |rows| ensures Begins(prefix + [Any], rows[i].segments) {
      BeginsOn(prefix, rows[i].segments, Any);
    }
  }

  lemma {:induction false} DeeperHolds(deeper: seq<Row>, depth: nat, prefix: Pattern)
    requires depth <= MAX_DEPTH && Deep(deeper, depth) && |prefix| == depth && AllBegin(prefix, deeper)
    ensures AllHold(WalkDeeper(deeper, depth, prefix))
    decreases MAX_DEPTH - depth, 0, 0
  {
    hide Walk, WalkGroups, Grouped, IsVariablePosition, AllBegin;
    AllBeginAny(deeper, prefix);
    if deeper == [] {
    } else if depth == MAX_DEPTH {
      AbsorbHolds(deeper, prefix + [Any]);
    } else if IsVariablePosition(|Grouped(deeper, depth)|, |deeper|) {
      WalkHolds(deeper, depth + 1, prefix + [Any]);
    } else {
      GroupedOk(deeper, depth);
      GroupedHolds(deeper, depth);
      GroupsBegin(deeper, depth, prefix);
      GroupsHold(Grouped(deeper, depth), depth, prefix);
    }
  }

  lemma AbsorbHolds(rows: seq<Row>, pattern: Pattern)
    requires rows != [] && |pattern| > MAX_DEPTH && AllBegin(pattern, rows)
    ensures HoldsMatching(Template(pattern, rows))
  {
    hide TokenMatches;
    forall i | 0 <= i < |rows| ensures Matches(pattern, rows[i].segments) {
      assert Begins(pattern, rows[i].segments);
    }
  }

  /** Rows of a group are rows of the whole. */
  lemma {:induction false} GroupRowsAmong(groups: seq<Group>, k: nat, row: Row)
    requires k < |groups| && row in groups[k].rows
    ensures row in InGroups(groups)
    decreases k
  {
    if k > 0 {
      assert groups[1..][k - 1] == groups[k];
      GroupRowsAmong(groups[1..], k - 1, row);
    }
  }

  lemma GroupsBegin(deeper: seq<Row>, depth: nat, prefix: Pattern)
    requires Deep(deeper, depth) && AllBegin(prefix, deeper)
    ensures forall k :: 0 <= k < |Grouped(deeper, depth)| ==> AllBegin(prefix, Grouped(deeper, depth)[k].rows)
  {
    hide Grouped, Begins, InGroups;
    GroupedHolds(deeper, depth);
    var groups := Grouped(deeper, depth);
    forall k, i | 0 <= k < |groups| && 0 <= i < |groups[k].rows| ensures Begins(prefix, groups[k].rows[i].segments) {
      var row := groups[k].rows[i];
      GroupRowsAmong(groups, k, row);
      assert row in multiset(deeper);
      var j :| 0 <= j < |deeper| && deeper[j] == row;
    }
  }

  lemma GroupBegins(g: Group, depth: nat, prefix: Pattern)
    requires |prefix| == depth && GroupOk(g, depth) && AllBegin(prefix, g.rows)
    ensures AllBegin(prefix + [Lit(g.segment)], g.rows)
  {
    hide Begins;
    forall i | 0 <= i < |g.rows| ensures Begins(prefix + [Lit(g.segment)], g.rows[i].segments) {
      BeginsOn(prefix, g.rows[i].segments, Lit(g.segment));
    }
  }

  lemma {:induction false} GroupsHold(groups: seq<Group>, depth: nat, prefix: Pattern)
    requires depth < MAX_DEPTH && |prefix| == depth
    requires forall k :: 0 <= k < |groups| ==> GroupOk(groups[k], depth) && AllBegin(prefix, groups[k].rows)
    ensures AllHold(WalkGroups(groups, depth, prefix))
    decreases MAX_DEPTH - depth - 1, 2, |groups|
  {
    hide Walk, AllBegin, GroupOk, HoldsMatching;
    if groups != [] {
      var g := groups[0];
      GroupBegins(g, depth, prefix);
      WalkHolds(g.rows, depth + 1, prefix + [Lit(g.segment)]);
      GroupsHold(groups[1..], depth, prefix);
      AllHoldConcat(Walk(g.rows, depth + 1, prefix + [Lit(g.segment)]), WalkGroups(groups[1..], depth, prefix));
    }
  }

  // ----- no two templates overlap -----

  /** Patterns of different length, or with different literals at one place. */
  ghost predicate Apart(p: Pattern, q: Pattern) {
    |p| != |q| || exists k :: 0 <= k < |p| && p[k].Lit? && q[k].Lit? && p[k] != q[k]
  }

  ghost predicate AllApart(ts: seq<Template>) {
    forall i, j :: 0 <= i < j < |ts| ==> Apart(ts[i].pattern, ts[j].pattern)
  }

  lemma AllApartConcat(x: seq<Template>, y: seq<Template>)
    requires AllApart(x) && AllApart(y)
    requires forall i, j :: 0 <= i < |x| && 0 <= j < |y| ==> Apart(x[i].pattern, y[j].pattern)
    ensures AllApart(x + y)
  {
    hide Apart;
    var z := x + y;
    forall i, j | 0 <= i < j < |z| ensures Apart(z[i].pattern, z[j].pattern) {
      if j < |x| {
        assert z[i] == x[i] && z[j] == x[j];
      } else if i < |x| {
        assert z[i] == x[i] && z[j] == y[j - |x|];
      } else {
        assert z[i] == y[i - |x|] && z[j] == y[j - |x|];
      }
    }
  }

  predicate Extends(ts: seq<Template>, prefix: Pattern) {
    forall k :: 0 <= k < |ts| ==> |ts[k].pattern| >= |prefix| && ts[k].pattern[..|prefix|] == prefix
  }

  lemma ExtendsLess(ts: seq<Template>, prefix: Pattern, t: Token)
    requires Extends(ts, prefix + [t])
    ensures Extends(ts, prefix)
    ensures forall k :: 0 <= k < |ts| ==> |ts[k].pattern| > |prefix| && ts[k].pattern[|prefix|] == t
  {
    forall k | 0 <= k < |ts|
      ensures |ts[k].pattern| > |prefix| && ts[k].pattern[..|prefix|] == prefix && ts[k].pattern[|prefix|] == t
    {
      var p := ts[k].pattern;
      assert p[..|prefix| + 1] == prefix + [t];
      assert p[..|prefix| + 1][..|prefix|] == p[..|prefix|];
      assert p[..|prefix| + 1][|prefix|] == p[|prefix|];
    }
  }

  lemma ExtendsConcat(x: seq<Template>, y: seq<Template>, prefix: Pattern)
    requires Extends(x, prefix) && Extends(y, prefix)
    ensures Extends(x + y, prefix)
  {
  }

  predicate Longer(ts: seq<Template>, n: nat) {
    forall k :: 0 <= k < |ts| ==> |ts[k].pattern| > n
  }

  lemma {:induction false} WalkApart(rows: seq<Row>, depth: nat, prefix: Pattern)
    requires depth <= MAX_DEPTH && |prefix| == depth
    ensures Extends(Walk(rows, depth, prefix), prefix) && AllApart(Walk(rows, depth, prefix))
    decreases MAX_DEPTH - depth, 1, 0
  {
    hide Walk, WalkDeeper, Ending, AllApart, Extends;
    var terminal, deeper := Ending(rows, depth, true), Ending(rows, depth, false);
    WalkStep(rows, depth, prefix);
    DeeperApart(deeper, depth, prefix);
    HeadApart(Template(prefix, terminal), WalkDeeper(deeper, depth, prefix), prefix);
    if terminal == [] {
      assert [] + WalkDeeper(deeper, depth, prefix) == WalkDeeper(deeper, depth, prefix);
    }
  }

  lemma HeadApart(t: Template, rest: seq<Template>, prefix: Pattern)
    requires t.pattern == prefix && AllApart(rest) && Extends(rest, prefix) && Longer(rest, |prefix|)
    ensures AllApart([t] + rest) && Extends([t] + rest, prefix)
  {
    forall j | 0 <= j < |rest| ensures Apart(t.pattern, rest[j].pattern) {
    }
    hide Apart;
    AllApartConcat([t], rest);
    assert prefix[..|prefix|] == prefix;
    ExtendsConcat([t], rest, prefix);
  }

  lemma {:induction false} DeeperApart(deeper: seq<Row>, depth: nat, prefix: Pattern)
    requires depth <= MAX_DEPTH && Deep(deeper, depth) && |prefix| == depth
    ensures Extends(WalkDeeper(deeper, depth, prefix), prefix) && AllApart(WalkDeeper(deeper, depth, prefix))
    ensures Longer(WalkDeeper(deeper, depth, prefix), depth)
    decreases MAX_DEPTH - depth, 0, 0
  {
    hide Walk, WalkGroups, Grouped, IsVariablePosition, Apart;
    if deeper == [] {
    } else if depth == MAX_DEPTH {
      assert (prefix + [Any])[..depth] == prefix;
    } else if IsVariablePosition(|Grouped(deeper, depth)|, |deeper|) {
      WalkApart(deeper, depth + 1, prefix + [Any]);
      ExtendsLess(Walk(deeper, depth + 1, prefix + [Any]), prefix, Any);
    } else {
      GroupedOk(deeper, depth);
      GroupsApart(Grouped(deeper, depth), depth, prefix);
    }
  }

  /** Each template of the groups carries the segment of some group. */
  predicate Branches(ts: seq<Template>, depth: nat, groups: seq<Group>) {
    forall k :: 0 <= k < |ts| ==>
      |ts[k].pattern| > depth && ts[k].pattern[depth].Lit? && exists g :: 0 <= g < |groups| && groups[g].segment == ts[k].pattern[depth].text
  }

  lemma {:induction false} GroupsApart(groups: seq<Group>, depth: nat, prefix: Pattern)
    requires depth < MAX_DEPTH && |prefix| == depth && Ordered(groups)
    ensures var ts := WalkGroups(groups, depth, prefix);
            Extends(ts, prefix) && AllApart(ts) && Longer(ts, depth) && Branches(ts, depth, groups)
    decreases MAX_DEPTH - depth - 1, 2, |groups|
  {
    hide Walk, AllApart, Extends, Branches, Ordered;
    if groups == [] {
      NoBranches(depth, prefix);
    } else {
      var g, rest := groups[0], groups[1..];
      OrderedTail(groups);
      var x := Walk(g.rows, depth + 1, prefix + [Lit(g.segment)]);
      var y := WalkGroups(rest, depth, prefix);
      WalkApart(g.rows, depth + 1, prefix + [Lit(g.segment)]);
      ExtendsLess(x, prefix, Lit(g.segment));
      GroupsApart(rest, depth, prefix);
      ExtendsConcat(x, y, prefix);
      BranchApart(x, y, depth, groups);
    }
  }

  lemma NoBranches(depth: nat, prefix: Pattern)
    ensures Extends([], prefix) && AllApart([]) && Branches([], depth, [])
  {
  }

  lemma OrderedTail(groups: seq<Group>)
    requires groups != [] && Ordered(groups)
    ensures Ordered(groups[1..])
    ensures forall k :: 0 <= k < |groups[1..]| ==> groups[1..][k].segment != groups[0].segment
  {
    forall k | 0 <= k < |groups[1..]| ensures groups[1..][k].segment != groups[0].segment {
      assert Less(groups[0].segment, groups[k + 1].segment);
      LessSelf(groups[0].segment);
    }
  }

  lemma BranchApart(x: seq<Template>, y: seq<Template>, depth: nat, groups: seq<Group>)
    requires groups != [] && AllApart(x) && AllApart(y) && Branches(y, depth, groups[1..])
    requires forall k :: 0 <= k < |x| ==> |x[k].pattern| > depth && x[k].pattern[depth] == Lit(groups[0].segment)
    requires forall k :: 0 <= k < |groups[1..]| ==> groups[1..][k].segment != groups[0].segment
    ensures AllApart(x + y) && Branches(x + y, depth, groups)
  {
    forall i, j | 0 <= i < |x| && 0 <= j < |y| ensures Apart(x[i].pattern, y[j].pattern) {
      var g :| 0 <= g < |groups[1..]| && groups[1..][g].segment == y[j].pattern[depth].text;
      assert x[i].pattern[depth] != y[j].pattern[depth];
    }
    hide Apart;
    AllApartConcat(x, y);
    var ts := x + y;
    forall k | 0 <= k < |ts|
      ensures |ts[k].pattern| > depth && ts[k].pattern[depth].Lit?
      ensures exists g :: 0 <= g < |groups| && groups[g].segment == ts[k].pattern[depth].text
    {
      if k < |x| {
        assert ts[k] == x[k] && groups[0].segment == ts[k].pattern[depth].text;
      } else {
        assert ts[k] == y[k - |x|];
        var g :| 0 <= g < |groups[1..]| && groups[1..][g].segment == ts[k].pattern[depth].text;
        assert groups[g + 1].segment == ts[k].pattern[depth].text;
      }
    }
  }

  /** Patterns apart share no key at all, sampled or not. */
  lemma ApartExcludes(p: Pattern, q: Pattern, segments: seq<string>)
    requires Apart(p, q) && |p| <= MAX_DEPTH + 1 && |q| <= MAX_DEPTH + 1
    ensures !(Matches(p, segments) && Matches(q, segments))
  {
    if |p| == |q| {
      var k :| 0 <= k < |p| && p[k].Lit? && q[k].Lit? && p[k] != q[k];
      assert k < |segments| ==> !(TokenMatches(p[k], segments[k]) && TokenMatches(q[k], segments[k]));
    }
  }

  // ----- the inferred templates -----

  function RowsOf(keys: seq<KeyMeta>): (r: seq<Row>)
    ensures |r| == |keys|
  {
    seq(|keys|, i requires 0 <= i < |keys| => Row(SplitOn(keys[i].key, ':'), keys[i]))
  }

  function Templates(keys: seq<KeyMeta>): seq<Template> {
    Walk(RowsOf(keys), 0, [])
  }

  lemma {:induction false} WalkShort(rows: seq<Row>, depth: nat, prefix: Pattern, k: nat)
    requires depth <= MAX_DEPTH && |prefix| == depth && k < |Walk(rows, depth, prefix)|
    ensures |Walk(rows, depth, prefix)[k].pattern| <= MAX_DEPTH + 1
    decreases MAX_DEPTH - depth, 1, 0
  {
    hide Walk, WalkDeeper, Ending;
    WalkStep(rows, depth, prefix);
    var deeper := Ending(rows, depth, false);
    var head := if Ending(rows, depth, true) == [] then [] else [Template(prefix, Ending(rows, depth, true))];
    if k >= |head| {
      DeeperShort(deeper, depth, prefix, k - |head|);
    }
  }

  lemma {:induction false} DeeperShort(deeper: seq<Row>, depth: nat, prefix: Pattern, k: nat)
    requires depth <= MAX_DEPTH && Deep(deeper, depth) && |prefix| == depth && k < |WalkDeeper(deeper, depth, prefix)|
    ensures |WalkDeeper(deeper, depth, prefix)[k].pattern| <= MAX_DEPTH + 1
    decreases MAX_DEPTH - depth, 0, 0
  {
    hide Walk, WalkGroups, Grouped, IsVariablePosition;
    if depth < MAX_DEPTH {
      if IsVariablePosition(|Grouped(deeper, depth)|, |deeper|) {
        WalkShort(deeper, depth + 1, prefix + [Any], k);
      } else {
        GroupsShort(Grouped(deeper, depth), depth, prefix, k);
      }
    }
  }

  lemma {:induction false} GroupsShort(groups: seq<Group>, depth: nat, prefix: Pattern, k: nat)
    requires depth < MAX_DEPTH && |prefix| == depth && k < |WalkGroups(groups, depth, prefix)|
    ensures |WalkGroups(groups, depth, prefix)[k].pattern| <= MAX_DEPTH + 1
    decreases MAX_DEPTH - depth - 1, 2, |groups|
  {
    hide Walk;
    var x := Walk(groups[0].rows, depth + 1, prefix + [Lit(groups[0].segment)]);
    if k < |x| {
      WalkShort(groups[0].rows, depth + 1, prefix + [Lit(groups[0].segment)], k);
    } else {
      GroupsShort(groups[1..], depth, prefix, k - |x|);
    }
  }

  /** Every sampled key is held by the templates, as often as it was sampled; each template matches what it holds. */
  lemma TemplatesPartition(keys: seq<KeyMeta>)
    ensures Covered(Templates(keys)) == multiset(RowsOf(keys))
    ensures AllHold(Templates(keys))
  {
    hide Walk, Covered, AllHold, RowsOf;
    WalkCovers(RowsOf(keys), 0, []);
    WalkHolds(RowsOf(keys), 0, []);
  }

  /** No key whatever matches two templates, and no two templates have one pattern. */
  lemma TemplatesDisjoint(keys: seq<KeyMeta>, i: nat, j: nat, segments: seq<string>)
    requires i < j < |Templates(keys)|
    ensures !(Matches(Templates(keys)[i].pattern, segments) && Matches(Templates(keys)[j].pattern, segments))
    ensures Texts(Templates(keys)[i].pattern) != Texts(Templates(keys)[j].pattern)
  {
    hide Walk, Matches, Texts, RowsOf;
    var rows := RowsOf(keys);
    WalkApart(rows, 0, []);
    WalkShort(rows, 0, [], i);
    WalkShort(rows, 0, [], j);
    ApartExcludes(Templates(keys)[i].pattern, Templates(keys)[j].pattern, segments);
    ApartTexts(Templates(keys)[i].pattern, Templates(keys)[j].pattern);
  }

  lemma {:induction false} CoveredBy(ts: seq<Template>, row: Row) returns (k: nat)
    requires row in Covered(ts)
    ensures k < |ts| && row in ts[k].rows
    decreases |ts|
  {
    if row in ts[0].rows {
      k := 0;
    } else {
      var j := CoveredBy(ts[1..], row);
      k := j + 1;
    }
  }

  /** Every sampled key falls under exactly one template: it matches that one and no other. */
  lemma ExactlyOneTemplate(keys: seq<KeyMeta>, i: nat)
    requires i < |keys|
    ensures exists k :: 0 <= k < |Templates(keys)| && Matches(Templates(keys)[k].pattern, SplitOn(keys[i].key, ':'))
    ensures forall j, k :: 0 <= j < |Templates(keys)| && 0 <= k < |Templates(keys)|
              && Matches(Templates(keys)[j].pattern, SplitOn(keys[i].key, ':')) && Matches(Templates(keys)[k].pattern, SplitOn(keys[i].key, ':'))
              ==> j == k
  {
    hide Templates, Matches, Covered, SplitOn;
    var ts, row := Templates(keys), RowsOf(keys)[i];
    TemplatesPartition(keys);
    assert row in multiset(RowsOf(keys));
    var k := CoveredBy(ts, row);
    assert HoldsMatching(ts[k]);
    forall j, k | 0 <= j < k < |ts| ensures !(Matches(ts[j].pattern, row.segments) && Matches(ts[k].pattern, row.segments)) {
      TemplatesDisjoint(keys, j, k, row.segments);
    }
  }

  // ----- names -----

  const NO_PREFIX_LABEL: string := "(no prefix)"

  function Texts(p: Pattern): (r: seq<string>)
    ensures |r| == |p|
  {
    seq(|p|, i requires 0 <= i < |p| => if p[i] == Any then "*" else p[i].text)
  }

  /** The pattern as it is shown. */
  function Label(p: Pattern): string {
    var text := if p == [] then "" else JoinWith(Texts(p), ':');
    if text == "" then NO_PREFIX_LABEL else text
  }

  lemma ApartTexts(p: Pattern, q: Pattern)
    requires Apart(p, q)
    ensures Texts(p) != Texts(q)
  {
    if |p| == |q| {
      var k :| 0 <= k < |p| && p[k].Lit? && q[k].Lit? && p[k] != q[k];
      assert Texts(p)[k] == p[k].text && Texts(q)[k] == q[k].text;
    }
  }

  predicate ColonFree(p: Pattern) {
    forall k :: 0 <= k < |p| ==> SepFree(Texts(p)[k], ':')
  }

  /** Labels agree on equal patterns, and on the empty key beside the key that spells the label of no prefix. */
  lemma LabelsTellApart(p: Pattern, q: Pattern)
    requires p != [] && q != [] && ColonFree(p) && ColonFree(q)
    ensures Label(p) == Label(q) <==>
            || Texts(p) == Texts(q)
            || (Texts(p) == [""] && Texts(q) == [NO_PREFIX_LABEL])
            || (Texts(p) == [NO_PREFIX_LABEL] && Texts(q) == [""])
  {
    hide Texts, SplitOn, JoinWith;
    var x, y := Texts(p), Texts(q);
    SplitJoined(x, ':');
    SplitJoined(y, ':');
    SplitEmpty(':');
    SplitOne(NO_PREFIX_LABEL, ':');
    JoinOne("", ':');
    JoinOne(NO_PREFIX_LABEL, ':');
  }

  /** A literal of a template is a segment of a sampled key, so no label hides a separator. */
  lemma TemplateColonFree(keys: seq<KeyMeta>, k: nat)
    requires k < |Templates(keys)|
    ensures ColonFree(Templates(keys)[k].pattern) && Templates(keys)[k].pattern != []
  {
    hide Templates, Covered, SplitOn, SepFree, Texts;
    var t := Templates(keys)[k];
    TemplatesPartition(keys);
    assert HoldsMatching(t);
    var row := t.rows[0];
    RowCovered(Templates(keys), k, row);
    assert row in multiset(RowsOf(keys));
    var i :| 0 <= i < |keys| && RowsOf(keys)[i] == row;
    SplitPieces(keys[i].key, ':');
    StarFree();
    assert Matches(t.pattern, row.segments);
    forall j | 0 <= j < |t.pattern| ensures SepFree(Texts(t.pattern)[j], ':') {
      assert TokenMatches(t.pattern[j], row.segments[j]);
      TextAt(t.pattern, j);
    }
  }

  lemma StarFree()
    ensures SepFree("*", ':')
  {
  }

  lemma TextAt(p: Pattern, j: nat)
    requires j < |p|
    ensures Texts(p)[j] == if p[j] == Any then "*" else p[j].text
  {
  }

  lemma {:induction false} RowCovered(ts: seq<Template>, k: nat, row: Row)
    requires k < |ts| && row in ts[k].rows
    ensures row in Covered(ts)
    decreases k
  {
    if k > 0 {
      assert ts[1..][k - 1] == ts[k];
      RowCovered(ts[1..], k - 1, row);
    }
  }

  // ----- when two templates share a label -----

  /** The first segment is read as a variable. */
  predicate FirstVaries(keys: seq<KeyMeta>) {
    var rows := RowsOf(keys);
    assert Deep(rows, 0);
    IsVariablePosition(|Grouped(rows, 0)|, |rows|)
  }

  lemma {:induction false} NoneEnds(rows: seq<Row>)
    requires Deep(rows, 0)
    ensures Ending(rows, 0, true) == [] && Ending(rows, 0, false) == rows
    decreases |rows|
  {
    if rows != [] {
      NoneEnds(rows[..|rows| - 1]);
      assert rows == rows[..|rows| - 1] + [rows[|rows| - 1]];
    }
  }

  /** All patterns start with a `*`, or all start with a literal. */
  lemma HeadToken(keys: seq<KeyMeta>, k: nat)
    requires k < |Templates(keys)|
    ensures var p := Templates(keys)[k].pattern; p != [] && (if FirstVaries(keys) then p[0] == Any else p[0].Lit?)
  {
    hide Walk, WalkGroups, Grouped, Ending, IsVariablePosition, SplitOn;
    var rows := RowsOf(keys);
    assert Deep(rows, 0);
    NoneEnds(rows);
    WalkStep(rows, 0, []);
    assert [] + WalkDeeper(rows, 0, []) == WalkDeeper(rows, 0, []);
    if IsVariablePosition(|Grouped(rows, 0)|, |rows|) {
      WalkApart(rows, 1, [] + [Any]);
      ExtendsLess(Walk(rows, 1, [] + [Any]), [], Any);
    } else {
      GroupedOk(rows, 0);
      GroupsApart(Grouped(rows, 0), 0, []);
    }
  }

  predicate HasKey(keys: seq<KeyMeta>, key: string) {
    exists i :: 0 <= i < |keys| && keys[i].key == key
  }

  /** A one-literal pattern comes from the key that spells it. */
  lemma LiteralIsKey(keys: seq<KeyMeta>, k: nat, text: string)
    requires k < |Templates(keys)| && Templates(keys)[k].pattern == [Lit(text)]
    ensures HasKey(keys, text)
  {
    hide Templates, Covered, SplitOn, JoinWith;
    var t := Templates(keys)[k];
    TemplatesPartition(keys);
    assert HoldsMatching(t);
    var row := t.rows[0];
    assert Matches(t.pattern, row.segments);
    assert TokenMatches(t.pattern[0], row.segments[0]);
    assert row.segments == [text];
    RowCovered(Templates(keys), k, row);
    assert row in multiset(RowsOf(keys));
    var i :| 0 <= i < |keys| && RowsOf(keys)[i] == row;
    JoinSplit(keys[i].key, ':');
    JoinOne(text, ':');
  }

  /** A flat key keeps a template of its own unless its segment varies. */
  lemma KeyIsLiteral(keys: seq<KeyMeta>, text: string) returns (k: nat)
    requires HasKey(keys, text) && SepFree(text, ':') && !FirstVaries(keys)
    ensures k < |Templates(keys)| && Templates(keys)[k].pattern == [Lit(text)]
  {
    hide Templates, SplitOn, FirstVaries;
    var i :| 0 <= i < |keys| && keys[i].key == text;
    SplitOne(text, ':');
    ExactlyOneTemplate(keys, i);
    k :| 0 <= k < |Templates(keys)| && Matches(Templates(keys)[k].pattern, SplitOn(keys[i].key, ':'));
    HeadToken(keys, k);
    var p := Templates(keys)[k].pattern;
    assert TokenMatches(p[0], [text][0]);
  }

  lemma TextOne(p: Pattern, text: string)
    requires text != "*"
    ensures Texts(p) == [text] <==> p == [Lit(text)]
  {
    if Texts(p) == [text] {
      TextAt(p, 0);
    }
    if p == [Lit(text)] {
      TextAt(p, 0);
    }
  }

  ghost predicate SharedLabel(keys: seq<KeyMeta>) {
    exists i, j :: 0 <= i < j < |Templates(keys)| && Label(Templates(keys)[i].pattern) == Label(Templates(keys)[j].pattern)
  }

  lemma SharedLabelKeys(keys: seq<KeyMeta>, i: nat, j: nat)
    requires i < j < |Templates(keys)| && Label(Templates(keys)[i].pattern) == Label(Templates(keys)[j].pattern)
    ensures HasKey(keys, "") && HasKey(keys, NO_PREFIX_LABEL) && !FirstVaries(keys)
  {
    hide Templates, Label, Texts, FirstVaries, Matches, HasKey, ColonFree;
    var p, q := Templates(keys)[i].pattern, Templates(keys)[j].pattern;
    TemplateColonFree(keys, i);
    TemplateColonFree(keys, j);
    LabelsTellApart(p, q);
    TemplatesDisjoint(keys, i, j, []);
    TextOne(p, "");
    TextOne(q, "");
    TextOne(p, NO_PREFIX_LABEL);
    TextOne(q, NO_PREFIX_LABEL);
    HeadToken(keys, i);
    if p == [Lit("")] {
      LiteralIsKey(keys, i, "");
      LiteralIsKey(keys, j, NO_PREFIX_LABEL);
    } else {
      LiteralIsKey(keys, j, "");
      LiteralIsKey(keys, i, NO_PREFIX_LABEL);
    }
  }

  /** Two templates share a label exactly when the sample holds both keys and its first segment is not a variable. */
  lemma LabelsCollideExactly(keys: seq<KeyMeta>)
    ensures SharedLabel(keys) <==> HasKey(keys, "") && HasKey(keys, NO_PREFIX_LABEL) && !FirstVaries(keys)
  {
    hide Templates, Label, FirstVaries, HasKey, Texts;
    if SharedLabel(keys) {
      var i, j :| 0 <= i < j < |Templates(keys)| && Label(Templates(keys)[i].pattern) == Label(Templates(keys)[j].pattern);
      SharedLabelKeys(keys, i, j);
    }
    if HasKey(keys, "") && HasKey(keys, NO_PREFIX_LABEL) && !FirstVaries(keys) {
      PlainLabel();
      var i := KeyIsLiteral(keys, "");
      var j := KeyIsLiteral(keys, NO_PREFIX_LABEL);
      assert Templates(keys)[i].pattern != Templates(keys)[j].pattern;
      if j < i {
        assert Label(Templates(keys)[j].pattern) == Label(Templates(keys)[i].pattern);
      }
    }
  }

  lemma PlainLabel()
    ensures SepFree("", ':') && SepFree(NO_PREFIX_LABEL, ':')
    ensures Label([Lit("")]) == Label([Lit(NO_PREFIX_LABEL)])
  {
    TextOne([Lit("")], "");
    TextOne([Lit(NO_PREFIX_LABEL)], NO_PREFIX_LABEL);
    JoinOne("", ':');
    JoinOne(NO_PREFIX_LABEL, ':');
  }

  // ----- flat keys -----

  /** No key has a delimiter. */
  predicate Flat(keys: seq<KeyMeta>) {
    forall i :: 0 <= i < |keys| ==> SepFree(keys[i].key, ':')
  }

  lemma {:induction false} AllEnd(rows: seq<Row>)
    requires forall i :: 0 <= i < |rows| ==> |rows[i].segments| == 1
    ensures Ending(rows, 1, true) == rows && Ending(rows, 1, false) == []
    decreases |rows|
  {
    if rows != [] {
      AllEnd(rows[..|rows| - 1]);
      assert rows == rows[..|rows| - 1] + [rows[|rows| - 1]];
    }
  }

  lemma FlatRows(keys: seq<KeyMeta>)
    requires Flat(keys)
    ensures forall i :: 0 <= i < |keys| ==> RowsOf(keys)[i].segments == [keys[i].key]
  {
    hide SplitOn, SepFree;
    forall i | 0 <= i < |keys| ensures RowsOf(keys)[i].segments == [keys[i].key] {
      SplitOne(keys[i].key, ':');
    }
  }

  /** Flat keys roll into a single `*` exactly when their one position is a variable. */
  lemma FlatKeysRollUp(keys: seq<KeyMeta>)
    requires keys != [] && Flat(keys)
    ensures Templates(keys) == [Template([Any], RowsOf(keys))] <==> FirstVaries(keys)
  {
    hide Walk, Grouped, Ending, IsVariablePosition, WalkGroups, RowsOf, Flat;
    var rows := RowsOf(keys);
    FlatRows(keys);
    if Templates(keys) == [Template([Any], rows)] {
      HeadToken(keys, 0);
    }
    if FirstVaries(keys) {
      assert Deep(rows, 0);
      NoneEnds(rows);
      WalkStep(rows, 0, []);
      AllEnd(rows);
      WalkStep(rows, 1, [] + [Any]);
      assert [] + [Any] == [Any];
      assert WalkDeeper([], 1, [Any]) == [];
      assert [Template([Any], rows)] + [] == [Template([Any], rows)];
      assert [] + WalkDeeper(rows, 0, []) == WalkDeeper(rows, 0, []);
    }
  }

  lemma {:induction false} AddRowNew(groups: seq<Group>, segment: string, row: Row)
    requires forall k :: 0 <= k < |groups| ==> groups[k].segment != segment
    ensures |AddRow(groups, segment, row)| == |groups| + 1
    decreases |groups|
  {
    hide Less, AddRow;
    AddRowStep(groups, segment, row);
    if groups != [] && !Less(segment, groups[0].segment) {
      AddRowNew(groups[1..], segment, row);
    }
  }

  /** Every group carries the segment of some row. */
  lemma {:induction false} GroupSegments(rows: seq<Row>, depth: nat, k: nat) returns (i: nat)
    requires Deep(rows, depth) && k < |Grouped(rows, depth)|
    ensures i < |rows| && rows[i].segments[depth] == Grouped(rows, depth)[k].segment
    decreases |rows|
  {
    hide AddRow;
    var front, row := rows[..|rows| - 1], rows[|rows| - 1];
    AddRowSegments(Grouped(front, depth), row.segments[depth], row, k);
    if Grouped(rows, depth)[k].segment == row.segments[depth] {
      i := |rows| - 1;
    } else {
      var j :| 0 <= j < |Grouped(front, depth)| && Grouped(front, depth)[j].segment == Grouped(rows, depth)[k].segment;
      i := GroupSegments(front, depth, j);
      assert front[i] == rows[i];
    }
  }

  /** Different segments make as many groups as rows. */
  lemma {:induction false} GroupedApart(rows: seq<Row>, depth: nat)
    requires Deep(rows, depth)
    requires forall i, j :: 0 <= i < j < |rows| ==> rows[i].segments[depth] != rows[j].segments[depth]
    ensures |Grouped(rows, depth)| == |rows|
    decreases |rows|
  {
    hide AddRow;
    if rows != [] {
      var front, row := rows[..|rows| - 1], rows[|rows| - 1];
      GroupedApart(front, depth);
      forall k | 0 <= k < |Grouped(front, depth)| ensures Grouped(front, depth)[k].segment != row.segments[depth] {
        var i := GroupSegments(front, depth, k);
        assert front[i] == rows[i];
      }
      AddRowNew(Grouped(front, depth), row.segments[depth], row);
    }
  }

  /** A sample of different flat keys rolls into one `*` exactly when it has more than one key. */
  lemma FlatKeyspaceRollsUp(keys: seq<KeyMeta>)
    requires keys != [] && Flat(keys) && forall i, j :: 0 <= i < j < |keys| ==> keys[i].key != keys[j].key
    ensures Templates(keys) == [Template([Any], RowsOf(keys))] <==> |keys| >= 2
  {
    hide Templates, Grouped, RowsOf, Flat;
    var rows := RowsOf(keys);
    FlatRows(keys);
    FlatKeysRollUp(keys);
    assert Deep(rows, 0);
    forall i, j | 0 <= i < j < |rows| ensures rows[i].segments[0] != rows[j].segments[0] {
      assert rows[i].segments[0] == keys[i].key && rows[j].segments[0] == keys[j].key;
    }
    GroupedApart(rows, 0);
  }

  // ----- a sample whose labels meet -----

  function Sample(kind: string, bytes: nat): seq<KeyMeta> {
    [KeyMeta("", kind, bytes, None), KeyMeta(NO_PREFIX_LABEL, kind, bytes, None),
     KeyMeta(NO_PREFIX_LABEL + [':'] + "1", kind, bytes, None), KeyMeta(NO_PREFIX_LABEL + [':'] + "2", kind, bytes, None)]
  }

  /** The rows of the sample fall into two groups. */
  lemma SampleGroups(kind: string, bytes: nat)
    ensures !FirstVaries(Sample(kind, bytes))
  {
    hide SplitOn;
    var keys := Sample(kind, bytes);
    var rows := RowsOf(keys);
    SplitEmpty(':');
    SplitOne(NO_PREFIX_LABEL, ':');
    SplitSnoc(NO_PREFIX_LABEL, "1", ':');
    SplitSnoc(NO_PREFIX_LABEL, "2", ':');
    assert rows[0].segments[0] == "" && rows[1].segments[0] == NO_PREFIX_LABEL;
    assert rows[2].segments[0] == NO_PREFIX_LABEL && rows[3].segments[0] == NO_PREFIX_LABEL;
    assert Deep(rows, 0);
    GroupSizes(rows);
  }

  /** Four rows, the last three alike in their first segment. */
  lemma GroupSizes(rows: seq<Row>)
    requires |rows| == 4 && Deep(rows, 0)
    requires rows[0].segments[0] != rows[1].segments[0] == rows[2].segments[0] == rows[3].segments[0]
    ensures |Grouped(rows, 0)| == 2
  {
    hide Less, AddRow;
    var s, t := rows[0].segments[0], rows[1].segments[0];
    assert rows[..4] == rows && rows[..4][..3] == rows[..3] && rows[..3][..2] == rows[..2] && rows[..2][..1] == rows[..1] && rows[..1][..0] == [];
    assert Grouped([], 0) == [];
    AddRowStep([], s, rows[0]);
    var one := Grouped(rows[..1], 0);
    assert one == [Group(s, [rows[0]])];
    AddSecond(one, t, rows[1]);
    var two := Grouped(rows[..2], 0);
    AddAgain(two, t, rows[2]);
    var three := Grouped(rows[..3], 0);
    AddAgain(three, t, rows[3]);
  }

  ghost predicate Pair(groups: seq<Group>, t: string) {
    |groups| == 2 && (groups[0].segment == t || (groups[1].segment == t && !Less(t, groups[0].segment)))
  }

  lemma AddSecond(groups: seq<Group>, t: string, row: Row)
    requires |groups| == 1 && groups[0].segment != t
    ensures Pair(AddRow(groups, t, row), t)
  {
    hide Less, AddRow;
    AddRowStep(groups, t, row);
    assert groups[1..] == [];
    AddRowStep([], t, row);
  }

  lemma AddAgain(groups: seq<Group>, t: string, row: Row)
    requires Pair(groups, t)
    ensures Pair(AddRow(groups, t, row), t)
  {
    hide Less, AddRow;
    AddRowStep(groups, t, row);
    AddRowStep(groups[1..], t, row);
  }

  /** In this sample the two labels meet. */
  lemma LabelCollisionExample(kind: string, bytes: nat)
    ensures SharedLabel(Sample(kind, bytes))
  {
    hide FirstVaries, SharedLabel;
    var keys := Sample(kind, bytes);
    assert keys[0].key == "" && keys[1].key == NO_PREFIX_LABEL;
    SampleGroups(kind, bytes);
    LabelsCollideExactly(keys);
  }
}
