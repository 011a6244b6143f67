/**
 * Pipelines written out as text, and what `split_pipeline_stages` of crates/red-core/src/doc.rs
 * makes of them: a grammar of groups and strings that does not refer to the scanner.
 */
module PipelineText {
  import opened Wrappers
  import opened Pipeline

  // ----- texts -----

  /** The inside of a string: an ordinary character, or a backslash and any character. */
  datatype Letter = Plain(c: char) | Escape(c: char)

  datatype Bracket = Brace | Square | Paren

  datatype Piece =
    | Char(c: char)
    | Literal(letters: seq<Letter>)
    | Group(kind: Bracket, parts: seq<Piece>)

  function Opening(k: Bracket): char {
    match k case Brace => '{' case Square => '[' case Paren => '('
  }

  function Closing(k: Bracket): char {
    match k case Brace => '}' case Square => ']' case Paren => ')'
  }

  function Letters(ls: seq<Letter>): string {
    if ls == [] then "" else (match ls[0] case Plain(c) => [c] case Escape(c) => ['\\', c]) + Letters(ls[1..])
  }

  function Text(p: Piece): string
    decreases p, 0
  {
    match p
    case Char(c) => [c]
    case Literal(letters) => ['\"'] + Letters(letters) + ['\"']
    case Group(k, parts) => [Opening(k)] + Texts(parts) + [Closing(k)]
  }

  function Texts(ps: seq<Piece>): string
    decreases ps, 1
  {
    if ps == [] then "" else Text(ps[0]) + Texts(ps[1..])
  }

  predicate LetterOk(l: Letter) {
    l.Plain? ==> l.c != '\"' && l.c != '\\'
  }

  /** A character of its own: no bracket, no quote. */
  predicate Loose(c: char) {
    c != '{' && c != '}' && c != '[' && c != ']' && c != '(' && c != ')' && c != '\"'
  }

  predicate PieceOk(p: Piece) {
    match p
    case Char(c) => Loose(c)
    case Literal(letters) => forall k :: 0 <= k < |letters| ==> LetterOk(letters[k])
    case Group(_, parts) => forall k :: 0 <= k < |parts| ==> PieceOk(parts[k])
  }

  /** A stage: any pieces, but no comma outside its groups and strings. */
  predicate IsStage(ps: seq<Piece>) {
    forall k :: 0 <= k < |ps| ==> PieceOk(ps[k]) && ps[k] != Char(',')
  }

  // ----- reading on -----

  /** Nothing separates what has been read so far; `q` is where the reader stands. */
  ghost predicate Reading(s: string, q: Scan) {
    Pieces(s) == [s] && After(s) == q
  }

  lemma ReadChar(s: string, q: Scan, c: char)
    requires Reading(s, q) && !Cuts(q, c)
    ensures Reading(s + [c], Step(q, c))
  {
    hide Step, Cuts;
    var t := s + [c];
    assert t[..|s|] == s && t[|s|] == c;
    PiecesStep(t);
    assert Pieces(t) == [t];
  }

  lemma Assoc(x: string, y: string, z: string)
    ensures (x + y) + z == x + (y + z)
  {
  }

  lemma {:induction false} ReadLetters(s: string, d: int, ls: seq<Letter>)
    requires Reading(s, Scan(d, true, false)) && forall k :: 0 <= k < |ls| ==> LetterOk(ls[k])
    ensures Reading(s + Letters(ls), Scan(d, true, false))
    decreases |ls|
  {
    hide Reading;
    if ls == [] {
      assert s + "" == s;
    } else {
      var l := ls[0];
      assert LetterOk(l);
      if l.Plain? {
        ReadChar(s, Scan(d, true, false), l.c);
        ReadLetters(s + [l.c], d, ls[1..]);
        Assoc(s, [l.c], Letters(ls[1..]));
      } else {
        ReadChar(s, Scan(d, true, false), '\\');
        ReadChar(s + ['\\'], Scan(d, true, true), l.c);
        assert s + ['\\'] + [l.c] == s + ['\\', l.c];
        ReadLetters(s + ['\\', l.c], d, ls[1..]);
        Assoc(s, ['\\', l.c], Letters(ls[1..]));
      }
    }
  }

  lemma {:induction false} ReadPiece(s: string, d: nat, p: Piece)
    requires Reading(s, Scan(d, false, false)) && PieceOk(p) && (d == 0 ==> p != Char(','))
    ensures Reading(s + Text(p), Scan(d, false, false))
    decreases p, 0
  {
    hide Reading;
    var q := Scan(d, false, false);
    match p
    case Char(c) => ReadChar(s, q, c);
    case Literal(letters) =>
      var x := s + ['\"'];
      ReadChar(s, q, '\"');
      ReadLetters(x, d, letters);
      ReadChar(x + Letters(letters), Scan(d, true, false), '\"');
      assert x + Letters(letters) + ['\"'] == s + Text(p);
    case Group(k, parts) =>
      var x := s + [Opening(k)];
      ReadChar(s, q, Opening(k));
      ReadPieces(x, d + 1, parts);
      ReadChar(x + Texts(parts), Scan(d + 1, false, false), Closing(k));
      assert x + Texts(parts) + [Closing(k)] == s + Text(p);
  }

  lemma {:induction false} ReadPieces(s: string, d: nat, ps: seq<Piece>)
    requires Reading(s, Scan(d, false, false)) && forall k :: 0 <= k < |ps| ==> PieceOk(ps[k]) && (d == 0 ==> ps[k] != Char(','))
    ensures Reading(s + Texts(ps), Scan(d, false, false))
    decreases ps, 1
  {
    hide Reading, PieceOk, Text;
    if ps == [] {
      assert s + "" == s;
    } else {
      ReadPiece(s, d, ps[0]);
      ReadPieces(s + Text(ps[0]), d, ps[1..]);
      Assoc(s, Text(ps[0]), Texts(ps[1..]));
    }
  }

  lemma Start()
    ensures Reading("", OUTSIDE)
  {
  }

  // ----- pipelines -----

  /** A stage and the white space around it; a blank one has no pieces. */
  datatype Slot = Slot(lead: string, stage: seq<Piece>, tail: string)

  /** The characters with Unicode's White_Space property. */
  const WHITE: seq<int> := [
    0x09, 0x0A, 0x0B, 0x0C, 0x0D, 0x20, 0x85, 0xA0, 0x1680, 0x2000, 0x2001, 0x2002, 0x2003, 0x2004, 0x2005, 0x2006, 0x2007,
    0x2008, 0x2009, 0x200A, 0x2028, 0x2029, 0x202F, 0x205F, 0x3000]

  predicate Blank(c: char) {
    c as int in WHITE
  }

  lemma BlankIs(c: char)
    ensures Blank(c) <==> IsWhite(c)
  {
    var n := c as int;
    assert 9 <= n <= 13 ==> n == WHITE[n - 9];
    assert n == 0x20 ==> n == WHITE[5];
    assert n == 0x85 ==> n == WHITE[6];
    assert n == 0xA0 ==> n == WHITE[7];
    assert n == 0x1680 ==> n == WHITE[8];
    assert 0x2000 <= n <= 0x200A ==> n == WHITE[9 + (n - 0x2000)];
    assert n == 0x2028 ==> n == WHITE[20];
    assert n == 0x2029 ==> n == WHITE[21];
    assert n == 0x202F ==> n == WHITE[22];
    assert n == 0x205F ==> n == WHITE[23];
    assert n == 0x3000 ==> n == WHITE[24];
  }

  predicate AllBlank(w: string) {
    forall k :: 0 <= k < |w| ==> Blank(w[k])
  }

  /** No blank at either end. */
  predicate Snug(s: string) {
    s != "" ==> !Blank(s[0]) && !Blank(s[|s| - 1])
  }

  lemma AllBlankIs(w: string)
    ensures AllBlank(w) <==> AllWhite(w)
  {
    hide Blank, IsWhite;
    forall k | 0 <= k < |w| ensures Blank(w[k]) <==> IsWhite(w[k]) {
      BlankIs(w[k]);
    }
  }

  lemma SnugIs(s: string)
    ensures Snug(s) <==> Trimmed(s)
  {
    hide Blank, IsWhite;
    if s != "" {
      BlankIs(s[0]);
      BlankIs(s[|s| - 1]);
    }
  }

  predicate AllWhite(w: string) {
    forall k :: 0 <= k < |w| ==> IsWhite(w[k])
  }

  predicate SlotOk(s: Slot) {
    AllBlank(s.lead) && AllBlank(s.tail) && IsStage(s.stage) && Snug(Texts(s.stage))
  }

  function SlotText(s: Slot): string {
    s.lead + Texts(s.stage) + s.tail
  }

  function SlotTexts(slots: seq<Slot>): (r: seq<string>)
    ensures |r| == |slots|
  {
    seq(|slots|, i requires 0 <= i < |slots| => SlotText(slots[i]))
  }

  /** The slots with a comma between each two. */
  function Commas(slots: seq<Slot>): string {
    if slots == [] then ""
    else if |slots| == 1 then SlotText(slots[0])
    else Commas(slots[..|slots| - 1]) + "," + SlotText(slots[|slots| - 1])
  }

  /** The stages that are there. */
  function Stages(slots: seq<Slot>): seq<string> {
    if slots == [] then []
    else
      var t := Texts(slots[|slots| - 1].stage);
      Stages(slots[..|slots| - 1]) + if t == "" then [] else [t]
  }

  lemma {:induction false} WhiteReads(s: string, w: string)
    requires Reading(s, OUTSIDE) && AllWhite(w)
    ensures Reading(s + w, OUTSIDE)
    decreases |w|
  {
    hide Reading, IsWhite;
    if w == "" {
      assert s + w == s;
    } else {
      WhiteNeutral(OUTSIDE, w[0]);
      ReadChar(s, OUTSIDE, w[0]);
      WhiteReads(s + [w[0]], w[1..]);
      assert s + [w[0]] + w[1..] == s + w;
    }
  }

  lemma SlotReads(s: Slot)
    requires SlotOk(s)
    ensures Closed(SlotText(s))
  {
    hide Texts, PieceOk, IsWhite, AllWhite, AllBlank, Snug, Reading;
    AllBlankIs(s.lead);
    AllBlankIs(s.tail);
    Start();
    WhiteReads("", s.lead);
    assert "" + s.lead == s.lead;
    ReadPieces(s.lead, 0, s.stage);
    WhiteReads(s.lead + Texts(s.stage), s.tail);
    assert Closed(SlotText(s)) by { ReadingCloses(SlotText(s)); }
  }

  lemma ReadingCloses(s: string)
    requires Reading(s, OUTSIDE)
    ensures Closed(s)
  {
  }

  lemma {:induction false} StartWhite(w: string, t: string)
    requires AllWhite(w) && (t != "" ==> !IsWhite(t[0]))
    ensures TrimStart(w + t) == t
    decreases |w|
  {
    hide IsWhite;
    if w == "" {
      assert w + t == t;
    } else {
      assert (w + t)[1..] == w[1..] + t;
      StartWhite(w[1..], t);
    }
  }

  lemma {:induction false} EndWhite(t: string, w: string)
    requires AllWhite(w) && (t != "" ==> !IsWhite(t[|t| - 1]))
    ensures TrimEnd(t + w) == t
    decreases |w|
  {
    hide IsWhite;
    if w == "" {
      assert t + w == t;
    } else {
      assert (t + w)[..|t + w| - 1] == t + w[..|w| - 1];
      EndWhite(t, w[..|w| - 1]);
    }
  }

  lemma SlotTrims(s: Slot)
    requires SlotOk(s)
    ensures Trim(SlotText(s)) == Texts(s.stage)
  {
    hide Texts, IsStage, IsWhite, Blank, TrimStart, TrimEnd;
    var t := Texts(s.stage);
    AllBlankIs(s.lead);
    AllBlankIs(s.tail);
    SnugIs(t);
    if t == "" {
      assert SlotText(s) == (s.lead + s.tail) + "";
      StartWhite(s.lead + s.tail, "");
      EndWhite("", "");
      assert "" + "" == "";
    } else {
      assert SlotText(s) == s.lead + (t + s.tail);
      StartWhite(s.lead, t + s.tail);
      EndWhite(t, s.tail);
    }
  }

  lemma {:induction false} CommasGlue(slots: seq<Slot>)
    requires slots != []
    ensures Commas(slots) == Glue(SlotTexts(slots))
    decreases |slots|
  {
    hide SlotText;
    if |slots| > 1 {
      CommasGlue(slots[..|slots| - 1]);
      assert SlotTexts(slots)[..|slots| - 1] == SlotTexts(slots[..|slots| - 1]);
    }
  }

  lemma {:induction false} KeptStages(slots: seq<Slot>)
    requires forall k :: 0 <= k < |slots| ==> SlotOk(slots[k])
    ensures Kept(SlotTexts(slots)) == Stages(slots)
    decreases |slots|
  {
    hide SlotText, SlotOk, Trim, Texts;
    if slots != [] {
      var front := slots[..|slots| - 1];
      KeptStages(front);
      assert SlotTexts(slots)[..|slots| - 1] == SlotTexts(front);
      SlotTrims(slots[|slots| - 1]);
    }
  }

  /**
   * A bracketed list of stages splits into exactly those stages: commas inside groups and
   * strings separate nothing, white space around a stage is dropped, blank stages are skipped.
   */
  lemma PipelineSplits(lead: string, slots: seq<Slot>, tail: string)
    requires slots != [] && (forall k :: 0 <= k < |slots| ==> SlotOk(slots[k])) && AllBlank(lead) && AllBlank(tail)
    ensures Split(lead + ("[" + Commas(slots) + "]") + tail) == Some(Stages(slots))
  {
    hide Commas, SlotOk, Kept, Pieces, After, Trim, Glue, IsWhite, SlotText, Closed;
    forall k | 0 <= k < |slots| ensures Closed(SlotTexts(slots)[k]) {
      SlotReads(slots[k]);
    }
    GluedPieces(SlotTexts(slots));
    CommasGlue(slots);
    KeptStages(slots);
    AllBlankIs(lead);
    AllBlankIs(tail);
    SplitPadded(lead, Commas(slots), tail);
  }

  lemma SplitPadded(lead: string, inner: string, tail: string)
    requires AllWhite(lead) && AllWhite(tail)
    ensures Split(lead + ("[" + inner + "]") + tail) == SplitInner(inner)
  {
    hide IsWhite, TrimStart, TrimEnd, SplitInner;
    var t := "[" + inner + "]";
    var text := lead + t + tail;
    assert !IsWhite('[') && !IsWhite(']') by { BracketsSolid(); }
    assert text == lead + (t + tail);
    assert (t + tail)[0] == '[' && t[|t| - 1] == ']';
    StartWhite(lead, t + tail);
    EndWhite(t, tail);
    assert t[1..|t| - 1] == inner;
  }

  lemma BracketsSolid()
    ensures !IsWhite('[') && !IsWhite(']')
  {
  }

  /** A pipeline whose group or string is still open is refused. */
  lemma UnfinishedRefused(x: seq<Piece>, k: Bracket, y: seq<Piece>, letters: seq<Letter>)
    requires IsStage(x) && (forall i :: 0 <= i < |y| ==> PieceOk(y[i])) && forall i :: 0 <= i < |letters| ==> LetterOk(letters[i])
    ensures Split("[" + (Texts(x) + [Opening(k)] + Texts(y)) + "]") == None
    ensures Split("[" + (Texts(x) + ['\"'] + Letters(letters)) + "]") == None
  {
    hide Texts, PieceOk, Reading, Letters;
    Start();
    ReadPieces("", 0, x);
    assert "" + Texts(x) == Texts(x);
    ReadChar(Texts(x), OUTSIDE, Opening(k));
    ReadPieces(Texts(x) + [Opening(k)], 1, y);
    ReadChar(Texts(x), OUTSIDE, '\"');
    ReadLetters(Texts(x) + ['\"'], 0, letters);
    StillOpen(Texts(x) + [Opening(k)] + Texts(y), Scan(1, false, false));
    StillOpen(Texts(x) + ['\"'] + Letters(letters), Scan(0, true, false));
  }

  lemma StillOpen(inner: string, q: Scan)
    requires Reading(inner, q) && (q.depth != 0 || q.inStr)
    ensures Split("[" + inner + "]") == None
  {
    hide Trim, Pieces, After;
    SplitPadded("", inner, "");
    assert "" + ("[" + inner + "]") + "" == "[" + inner + "]";
  }
}
