/**
 * Aggregation pipelines of crates/red-core/src/doc.rs: `split_pipeline_stages`,
 * `join_pipeline_stages`, and when one undoes the other.
 */
module Pipeline {
  import opened Wrappers

  // ----- `str::trim` on characters -----

  /** `char::is_whitespace`. */
  predicate IsWhite(c: char) {
    var n := c as int;
    || 9 <= n <= 13 || n == 0x20 || n == 0x85 || n == 0xA0 || n == 0x1680 || 0x2000 <= n <= 0x200A
    || n == 0x2028 || n == 0x2029 || n == 0x202F || n == 0x205F || n == 0x3000
  }

  function TrimStart(s: string): string {
    if s != "" && IsWhite(s[0]) then TrimStart(s[1..]) else s
  }

  function TrimEnd(s: string): string {
    if s != "" && IsWhite(s[|s| - 1]) then TrimEnd(s[..|s| - 1]) else s
  }

  function Trim(s: string): string {
    TrimEnd(TrimStart(s))
  }

  /** No white space at either end. */
  predicate Trimmed(s: string) {
    s != "" ==> !IsWhite(s[0]) && !IsWhite(s[|s| - 1])
  }

  // ----- the scanner -----

  datatype Scan = Scan(depth: int, inStr: bool, escaped: bool)

  const OUTSIDE := Scan(0, false, false)

  function Step(q: Scan, c: char): Scan {
    if q.inStr then
      if q.escaped then q.(escaped := false)
      else if c == '\\' then q.(escaped := true)
      else if c == '\"' then q.(inStr := false)
      else q
    else if c == '\"' then q.(inStr := true)
    else if c == '{' || c == '[' || c == '(' then q.(depth := q.depth + 1)
    else if c == '}' || c == ']' || c == ')' then q.(depth := q.depth - 1)
    else q
  }

  /** A comma that separates two stages. */
  predicate Cuts(q: Scan, c: char) {
    !q.inStr && q.depth == 0 && c == ','
  }

  /** The scanner's state after reading `s`. */
  function After(s: string): (q: Scan)
    ensures !q.inStr ==> !q.escaped
  {
    if s == "" then OUTSIDE else Step(After(s[..|s| - 1]), s[|s| - 1])
  }

  /** The pieces of `s` between its separating commas. */
  function Pieces(s: string): (r: seq<string>)
    ensures r != []
  {
    if s == "" then [""]
    else
      var t, c := s[..|s| - 1], s[|s| - 1];
      var ps := Pieces(t);
      if Cuts(After(t), c) then ps + [""]
      else ps[..|ps| - 1] + [ps[|ps| - 1] + [c]]
  }

  /** The pieces that are not blank, trimmed. */
  function Kept(pieces: seq<string>): seq<string> {
    if pieces == [] then []
    else
      var p := Trim(pieces[|pieces| - 1]);
      Kept(pieces[..|pieces| - 1]) + (if p == "" then [] else [p])
  }

  function Split(text: string): Option<seq<string>> {
    var t := Trim(text);
    if |t| < 2 || t[0] != '[' || t[|t| - 1] != ']' then None
    else
      SplitInner(t[1..|t| - 1])
  }

  /** The split of what stands between the brackets. */
  function SplitInner(inner: string): Option<seq<string>> {
    if After(inner).depth != 0 || After(inner).inStr then None else Some(Kept(Pieces(inner)))
  }

  method SplitPieces(inner: string) returns (r: Option<seq<string>>)
    ensures r == SplitInner(inner)
  {
    hide Trim, Step, Pieces, After, Kept, Last, Front;
    var stages: seq<string> := [];
    var q := OUTSIDE;
    var start := 0;
    assert inner[..0] == "";
    PiecesNone();
    for i := 0 to |inner|
      invariant start <= i
      invariant q == After(inner[..i])
      invariant Last(Pieces(inner[..i])) == inner[start..i]
      invariant stages == Kept(Front(Pieces(inner[..i])))
    {
      var c := inner[i];
      assert inner[..i + 1][..i] == inner[..i];
      assert inner[start..i + 1] == inner[start..i] + [c];
      PiecesStep(inner[..i + 1]);
      if Cuts(q, c) {
        var stage := Trim(inner[start..i]);
        KeptStep(Pieces(inner[..i]));
        stages := stages + (if stage != "" then [stage] else []);
        start := i + 1;
      }
      q := Step(q, c);
    }
    assert inner[..|inner|] == inner;
    if q.depth != 0 || q.inStr {
      return None;
    }
    assert inner[start..] == inner[start..|inner|];
    var tail := Trim(inner[start..]);
    KeptStep(Pieces(inner));
    return Some(stages + (if tail != "" then [tail] else []));
  }

  /** `split_pipeline_stages`. */
  method SplitPipelineStages(text: string) returns (r: Option<seq<string>>)
    ensures r == Split(text)
  {
    hide Trim, SplitInner;
    var t := Trim(text);
    if |t| < 2 || t[0] != '[' || t[|t| - 1] != ']' {
      return None;
    }
    r := SplitPieces(t[1..|t| - 1]);
  }

  lemma PiecesNone()
    ensures After("") == OUTSIDE && Pieces("") == [""] && Last([""]) == "" && Kept(Front([""])) == []
  {
  }

  lemma KeptStep(ps: seq<string>)
    requires ps != []
    ensures Kept(ps) == Kept(Front(ps)) + (if Trim(Last(ps)) != "" then [Trim(Last(ps))] else [])
  {
    hide Trim;
  }

  function Last(ps: seq<string>): string
    requires ps != []
  {
    ps[|ps| - 1]
  }

  function Front(ps: seq<string>): seq<string>
    requires ps != []
  {
    ps[..|ps| - 1]
  }

  lemma PiecesStep(s: string)
    requires s != ""
    ensures var t, c := s[..|s| - 1], s[|s| - 1];
            && After(s) == Step(After(t), c)
            && if Cuts(After(t), c) then Front(Pieces(s)) == Pieces(t) && Last(Pieces(s)) == ""
               else Front(Pieces(s)) == Front(Pieces(t)) && Last(Pieces(s)) == Last(Pieces(t)) + [c]
  {
    hide Step, Cuts;
  }

  // ----- trimming -----

  lemma {:induction false} TrimEndTrims(s: string)
    ensures TrimEnd(s) != "" ==> !IsWhite(Last2(TrimEnd(s))) && s != "" && TrimEnd(s)[0] == s[0]
    decreases |s|
  {
    if s != "" && IsWhite(s[|s| - 1]) {
      TrimEndTrims(s[..|s| - 1]);
    }
  }

  function Last2(s: string): char
    requires s != ""
  {
    s[|s| - 1]
  }

  lemma {:induction false} TrimStartTrims(s: string)
    ensures TrimStart(s) != "" ==> !IsWhite(TrimStart(s)[0])
    decreases |s|
  {
    if s != "" && IsWhite(s[0]) {
      TrimStartTrims(s[1..]);
    }
  }

  lemma TrimTrims(s: string)
    ensures Trimmed(Trim(s))
  {
    hide TrimStart, TrimEnd, IsWhite;
    TrimStartTrims(s);
    TrimEndTrims(TrimStart(s));
  }

  predicate AllWhite(s: string) {
    forall k :: 0 <= k < |s| ==> IsWhite(s[k])
  }

  lemma {:induction false} TrimStartWhite(w: string, s: string)
    requires AllWhite(w) && (s != "" ==> !IsWhite(s[0]))
    ensures TrimStart(w + s) == s
    decreases |w|
  {
    hide IsWhite;
    if w == "" {
      assert w + s == s;
    } else {
      assert (w + s)[1..] == w[1..] + s;
      TrimStartWhite(w[1..], s);
    }
  }

  lemma {:induction false} TrimEndWhite(s: string, w: string)
    requires AllWhite(w) && (s != "" ==> !IsWhite(s[|s| - 1]))
    ensures TrimEnd(s + w) == s
    decreases |w|
  {
    hide IsWhite;
    if w == "" {
      assert s + w == s;
    } else {
      assert (s + w)[..|s + w| - 1] == s + w[..|w| - 1];
      TrimEndWhite(s, w[..|w| - 1]);
    }
  }

  /** White space around a trimmed text is what trimming takes away. */
  lemma TrimPadded(w: string, s: string, x: string)
    requires AllWhite(w) && AllWhite(x) && Trimmed(s) && s != ""
    ensures Trim(w + s + x) == s
  {
    hide TrimStart, TrimEnd, IsWhite;
    assert w + s + x == w + (s + x);
    TrimStartWhite(w, s + x);
    TrimEndWhite(s, x);
  }

  // ----- pieces -----

  /** Pieces joined with commas. */
  function Glue(pieces: seq<string>): string
    requires pieces != []
  {
    if |pieces| == 1 then pieces[0] else Glue(pieces[..|pieces| - 1]) + "," + pieces[|pieces| - 1]
  }

  lemma GlueSnoc(ps: seq<string>, p: string)
    requires ps != []
    ensures Glue(ps + [p]) == Glue(ps) + "," + p
  {
    assert (ps + [p])[..|ps|] == ps;
  }

  lemma GrowLast(ps: seq<string>, c: char)
    requires ps != []
    ensures Glue(Front(ps) + [Last(ps) + [c]]) == Glue(ps) + [c]
  {
    if |ps| == 1 {
      assert Front(ps) == [];
    } else {
      GlueSnoc(Front(ps), Last(ps) + [c]);
      assert Glue(Front(ps)) + "," + (Last(ps) + [c]) == Glue(ps) + [c];
    }
  }

  /** Splitting loses nothing: the pieces and their commas are the whole text. */
  lemma {:induction false} PiecesGlue(s: string)
    ensures Glue(Pieces(s)) == s
    decreases |s|
  {
    hide Glue, Step, Cuts;
    GlueOne("");
    if s != "" {
      var t, c := s[..|s| - 1], s[|s| - 1];
      PiecesGlue(t);
      assert s == t + [c];
      if Cuts(After(t), c) {
        CutIsComma(After(t), c);
        GlueSnoc(Pieces(t), "");
        assert Glue(Pieces(t)) + "," + "" == s;
      } else {
        GrowLast(Pieces(t), c);
      }
    }
  }

  lemma CutIsComma(q: Scan, c: char)
    requires Cuts(q, c)
    ensures c == ',' && Step(q, c) == q
  {
  }

  lemma GlueOne(p: string)
    ensures Glue([p]) == p
  {
  }

  /** A piece: scanned alone it has no separating comma and ends outside everything. */
  predicate Closed(p: string) {
    Pieces(p) == [p] && After(p) == OUTSIDE
  }

  /** Exactly the stage texts the editor can hold. */
  predicate StageOk(s: string) {
    s != "" && Trimmed(s) && Closed(s)
  }

  lemma OnePiece(s: string)
    requires |Pieces(s)| == 1
    ensures Pieces(s) == [s]
  {
    hide Pieces;
    PiecesGlue(s);
  }

  /** After a closed text, scanning starts afresh. */
  lemma {:induction false} AfterClosed(a: string, b: string)
    requires After(a) == OUTSIDE
    ensures After(a + b) == After(b)
    ensures Pieces(a + b) == Front(Pieces(a)) + [Last(Pieces(a)) + Pieces(b)[0]] + Pieces(b)[1..]
    decreases |b|
  {
    hide Step, Cuts, Pieces, After, Last, Front;
    var pa := Pieces(a);
    FrontLast(pa);
    if b == "" {
      assert a + b == a;
      PiecesNone();
      assert Last(pa) + "" == Last(pa);
    } else {
      var t, c := b[..|b| - 1], b[|b| - 1];
      AfterClosed(a, t);
      assert (a + b)[..|a + b| - 1] == a + t;
      PiecesStep(a + b);
      PiecesStep(b);
      FrontLast(Pieces(a + b));
      FrontLast(Pieces(b));
      if Cuts(After(t), c) {
        assert Pieces(a + b) == Pieces(a + t) + [""];
        assert Pieces(b)[1..] == Pieces(t)[1..] + [""];
      } else {
        SpliceLast(pa, Pieces(t), c);
      }
    }
  }

  lemma FrontLast(ps: seq<string>)
    requires ps != []
    ensures ps == Front(ps) + [Last(ps)]
  {
  }

  /** A character added to the last piece, before or after splicing. */
  lemma SpliceLast(pa: seq<string>, pt: seq<string>, c: char)
    requires pa != [] && pt != []
    ensures var grown := Front(pt) + [Last(pt) + [c]];
            var joined := Front(pa) + [Last(pa) + pt[0]] + pt[1..];
            Front(joined) + [Last(joined) + [c]] == Front(pa) + [Last(pa) + grown[0]] + grown[1..]
  {
    var grown := Front(pt) + [Last(pt) + [c]];
    var joined := Front(pa) + [Last(pa) + pt[0]] + pt[1..];
    if |pt| == 1 {
      assert joined == Front(pa) + [Last(pa) + pt[0]];
      assert Last(pa) + (pt[0] + [c]) == (Last(pa) + pt[0]) + [c];
      assert grown[1..] == [];
    } else {
      assert grown[1..] == pt[1..|pt| - 1] + [Last(pt) + [c]];
      assert Front(joined) == Front(pa) + [Last(pa) + pt[0]] + pt[1..|pt| - 1];
    }
  }

  /** All pieces but the last are closed, and the last ends where the text ends. */
  lemma {:induction false} PiecesClosed(s: string)
    ensures forall k :: 0 <= k < |Pieces(s)| - 1 ==> Closed(Pieces(s)[k])
    ensures Pieces(Last(Pieces(s))) == [Last(Pieces(s))] && After(Last(Pieces(s))) == After(s)
    decreases |s|
  {
    hide Step, Cuts;
    if s != "" {
      var t, c := s[..|s| - 1], s[|s| - 1];
      var ps := Pieces(t);
      PiecesClosed(t);
      if Cuts(After(t), c) {
        CutIsComma(After(t), c);
        assert After(s) == OUTSIDE by { CutOutside(After(t), c); }
        assert Closed(Last(ps));
        assert Pieces("") == [""] && After("") == OUTSIDE;
      } else {
        var p := Last(ps) + [c];
        assert p[..|p| - 1] == Last(ps);
      }
    }
  }

  lemma CutOutside(q: Scan, c: char)
    requires Cuts(q, c) && (!q.inStr ==> !q.escaped)
    ensures q == OUTSIDE
  {
  }

  // ----- what a split yields -----

  lemma WhiteNeutral(q: Scan, c: char)
    requires IsWhite(c)
    ensures !Cuts(q, c)
    ensures !q.inStr ==> Step(q, c) == q
    ensures q.inStr ==> Step(q, c).inStr
  {
  }

  lemma {:induction false} TrimEndClosed(p: string)
    requires Closed(p)
    ensures Closed(TrimEnd(p))
    decreases |p|
  {
    hide Step, Cuts, IsWhite;
    if p != "" && IsWhite(p[|p| - 1]) {
      var t, c := p[..|p| - 1], p[|p| - 1];
      WhiteNeutral(After(t), c);
      assert After(t) == OUTSIDE;
      OnePiece(t);
      TrimEndClosed(t);
    }
  }

  lemma WhiteClosed(c: char)
    requires IsWhite(c)
    ensures Closed([c])
  {
    hide Step, Cuts, IsWhite;
    var s := [c];
    assert s[..0] == "";
    WhiteNeutral(OUTSIDE, c);
    assert After("") == OUTSIDE && Pieces("") == [""];
    PiecesStep(s);
    OnePiece(s);
  }

  lemma {:induction false} TrimStartClosed(p: string)
    requires Closed(p)
    ensures Closed(TrimStart(p))
    decreases |p|
  {
    hide IsWhite, Pieces, After;
    if p != "" && IsWhite(p[0]) {
      WhiteClosed(p[0]);
      assert p == [p[0]] + p[1..];
      AfterClosed([p[0]], p[1..]);
      assert |Pieces(p[1..])| == 1;
      OnePiece(p[1..]);
      TrimStartClosed(p[1..]);
    }
  }

  lemma TrimmedPieceOk(p: string)
    requires Closed(p) && Trim(p) != ""
    ensures StageOk(Trim(p))
  {
    hide Closed, TrimStart, TrimEnd, Trimmed;
    TrimTrims(p);
    TrimStartClosed(p);
    TrimEndClosed(TrimStart(p));
  }

  predicate AllOk(stages: seq<string>) {
    forall k :: 0 <= k < |stages| ==> StageOk(stages[k])
  }

  lemma {:induction false} KeptOk(ps: seq<string>)
    requires forall k :: 0 <= k < |ps| ==> Closed(ps[k])
    ensures AllOk(Kept(ps))
    decreases |ps|
  {
    hide Closed, StageOk, Trim;
    if ps != [] {
      KeptOk(ps[..|ps| - 1]);
      if Trim(Last(ps)) != "" {
        TrimmedPieceOk(Last(ps));
      }
    }
  }

  /** Every stage a successful split hands back is well formed. */
  lemma SplitYieldsStages(text: string)
    requires Split(text).Some?
    ensures AllOk(Split(text).value)
  {
    hide Trim, Pieces, After;
    var t := Trim(text);
    var inner := t[1..|t| - 1];
    PiecesClosed(inner);
    assert After(inner) == OUTSIDE;
    var ps := Pieces(inner);
    forall k | 0 <= k < |ps| ensures Closed(ps[k]) {
      if k == |ps| - 1 {
        assert ps[k] == Last(ps);
      }
    }
    KeptOk(ps);
  }

  // ----- joining -----

  /** The stage lines of the joined text. */
  function Body(stages: seq<string>): string
    requires stages != []
  {
    var line := "  " + Trim(stages[|stages| - 1]);
    if |stages| == 1 then line else Body(stages[..|stages| - 1]) + ",\n" + line
  }

  /** `join_pipeline_stages`. */
  function Join(stages: seq<string>): string {
    if stages == [] then "[]" else "[\n" + Body(stages) + "\n]"
  }

  function Padded(stages: seq<string>): (r: seq<string>)
    ensures |r| == |stages|
  {
    if stages == [] then [] else Padded(stages[..|stages| - 1]) + ["\n  " + stages[|stages| - 1]]
  }

  lemma TrimOk(s: string)
    requires Trimmed(s) && s != ""
    ensures Trim(s) == s
  {
    hide Trim;
    TrimPadded("", s, "");
    assert "" + s + "" == s;
  }

  lemma {:induction false} BodyGlue(stages: seq<string>)
    requires stages != [] && AllOk(stages)
    ensures "\n" + Body(stages) == Glue(Padded(stages))
    decreases |stages|
  {
    hide Trim, Closed, Trimmed;
    var front, s := Front(stages), Last(stages);
    TrimOk(s);
    if |stages| == 1 {
      assert front == [];
      GlueOne("\n  " + s);
      assert "\n" + ("  " + s) == "\n  " + s;
    } else {
      BodyGlue(front);
      GlueSnoc(Padded(front), "\n  " + s);
      LineAssembly(Body(front), s);
    }
  }

  lemma LineAssembly(x: string, s: string)
    ensures "\n" + (x + ",\n" + ("  " + s)) == "\n" + x + "," + ("\n  " + s)
  {
  }

  lemma PadClosed(s: string)
    requires Closed(s)
    ensures Closed("\n  " + s)
  {
    hide After, Pieces;
    var pad: string := "\n  ";
    PadIsClosed();
    AfterClosed(pad, s);
    assert Pieces(pad + s) == [pad + s];
  }

  lemma PadIsClosed()
    ensures Closed("\n  ")
  {
    hide Pieces, After;
    WhiteClosed('\n');
    WhiteClosed(' ');
    AfterClosed("\n", " ");
    assert "\n" + " " == "\n ";
    OnePiece("\n ");
    AfterClosed("\n ", " ");
    assert "\n " + " " == "\n  ";
    OnePiece("\n  ");
  }

  /** Closed pieces glued together are cut apart again at the same places. */
  lemma {:induction false} GluedPieces(ps: seq<string>)
    requires ps != [] && forall k :: 0 <= k < |ps| ==> Closed(ps[k])
    ensures Pieces(Glue(ps)) == ps && After(Glue(ps)) == OUTSIDE
    decreases |ps|
  {
    hide After, Pieces, Step;
    if |ps| > 1 {
      var g := Glue(Front(ps));
      GluedPieces(Front(ps));
      var gc := g + ",";
      assert gc[..|gc| - 1] == g;
      PiecesStep(gc);
      CutIsComma(OUTSIDE, ',');
      assert Pieces(gc) == Front(Pieces(gc)) + [Last(Pieces(gc))];
      AfterClosed(gc, Last(ps));
      assert Closed(Last(ps));
      assert "" + Last(ps) == Last(ps);
      assert Pieces(gc + Last(ps)) == Front(ps) + [Last(ps)];
      assert ps == Front(ps) + [Last(ps)];
    } else {
      assert Closed(ps[0]) && ps == [ps[0]];
    }
  }

  lemma {:induction false} PaddedClosed(stages: seq<string>)
    requires AllOk(stages)
    ensures forall k :: 0 <= k < |stages| ==> Closed(Padded(stages)[k])
    decreases |stages|
  {
    hide Closed, Trimmed;
    if stages != [] {
      PaddedClosed(Front(stages));
      PadClosed(Last(stages));
    }
  }

  lemma {:induction false} PaddedKept(stages: seq<string>)
    requires AllOk(stages)
    ensures Kept(Padded(stages)) == stages
    decreases |stages|
  {
    hide Closed, Trim, Trimmed;
    if stages != [] {
      PaddedKept(Front(stages));
      var s := Last(stages);
      TrimPadded("\n  ", s, "");
      assert "\n  " + s + "" == "\n  " + s;
      assert Front(Padded(stages)) == Padded(Front(stages));
    }
  }

  /** The last piece carries the newline before the closing bracket. */
  lemma LastLine(ps: seq<string>, s: string)
    requires ps != []
    requires Pieces(Glue(ps)) == ps && After(Glue(ps)) == OUTSIDE
    requires Last(ps) == "\n  " + s && Trimmed(s) && s != ""
    ensures After(Glue(ps) + "\n") == OUTSIDE && Kept(Pieces(Glue(ps) + "\n")) == Kept(ps)
  {
    hide After, Pieces, Trim, Trimmed, Glue;
    var g := Glue(ps);
    WhiteClosed('\n');
    AfterClosed(g, "\n");
    var qs := Pieces(g + "\n");
    assert qs == Front(ps) + [Last(ps) + "\n"];
    TrimPadded("\n  ", s, "\n");
    TrimPadded("\n  ", s, "");
    assert "\n  " + s + "" == "\n  " + s;
    assert Front(qs) == Front(ps);
  }

  /** A text in brackets is its own trimming. */
  lemma SplitBracketed(inner: string)
    requires After(inner) == OUTSIDE
    ensures Split("[" + inner + "]") == Some(Kept(Pieces(inner)))
  {
    hide Trim, Pieces, After;
    var t := "[" + inner + "]";
    assert t[0] == '[' && t[|t| - 1] == ']';
    TrimOk(t);
    assert t[1..|t| - 1] == inner;
  }

  lemma JoinThenSplit(stages: seq<string>)
    requires AllOk(stages)
    ensures Split(Join(stages)) == Some(stages)
  {
    hide Pieces, After, Split, Kept, Glue, Body, Trimmed, Closed, Padded, Last;
    if stages == [] {
      SplitNone();
    } else {
      var ps := Padded(stages);
      PaddedClosed(stages);
      GluedPieces(ps);
      BodyGlue(stages);
      PaddedLast(stages);
      LastLine(ps, Last(stages));
      var inner := "\n" + Body(stages) + "\n";
      assert inner == Glue(ps) + "\n";
      SplitBracketed(inner);
      JoinAssembly(Body(stages));
      PaddedKept(stages);
    }
  }

  lemma PaddedLast(stages: seq<string>)
    requires stages != []
    ensures Last(Padded(stages)) == "\n  " + Last(stages)
    ensures StageOk(Last(stages)) ==> Trimmed(Last(stages)) && Last(stages) != ""
    ensures AllOk(stages) ==> StageOk(Last(stages))
  {
  }

  lemma JoinAssembly(x: string)
    ensures "[\n" + x + "\n]" == "[" + ("\n" + x + "\n") + "]"
  {
  }

  lemma SplitNone()
    ensures Split("[]") == Some([])
  {
    hide Split;
    SplitBracketed("");
    assert "[" + "" + "]" == "[]";
    assert Pieces("") == [""];
    assert Trim("") == "";
    assert Kept([""]) == [];
  }

  /** Joining and splitting again gives the same stages exactly when each is well formed. */
  lemma SplitUndoesJoin(stages: seq<string>)
    ensures Split(Join(stages)) == Some(stages) <==> AllOk(stages)
  {
    hide Split, Join, StageOk;
    if Split(Join(stages)) == Some(stages) {
      SplitYieldsStages(Join(stages));
    } else if AllOk(stages) {
      JoinThenSplit(stages);
    }
  }

  /** Any pipeline that splits survives the trip through the stage list. */
  lemma SplitJoinSplit(text: string)
    requires Split(text).Some?
    ensures Split(Join(Split(text).value)) == Split(text)
  {
    hide Split, Join, StageOk;
    SplitYieldsStages(text);
    JoinThenSplit(Split(text).value);
  }
}
