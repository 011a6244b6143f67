/**
 * Stored routines under the splitter: a routine whose body is any well-nested
 * tree of BEGIN / IF / CASE / LOOP / WHILE / REPEAT blocks is one statement, for
 * every dialect, however many `;` its body holds.
 */
module SqlBlocks {
  import opened Bytes
  import opened Wrappers
  import opened SqlLexer
  import opened SqlSplit
  import opened SqlLocal
  import opened SqlCalm

  datatype Kind = Begin | If | Case | Loop | While | Repeat {

    function Keyword(): (w: Text) {
      match this
      case Begin => Ascii("BEGIN")
      case If => Ascii("IF")
      case Case => Ascii("CASE")
      case Loop => Ascii("LOOP")
      case While => Ascii("WHILE")
      case Repeat => Ascii("REPEAT")
    }
  }

  /** The inside of a block: clauses, plain statements and nested blocks. */
  datatype Item =
    | Clause(text: Text)                           // `ELSE`, `WHEN 1 THEN`, `UNTIL done`, a label
    | Leaf(text: Text)                             // a statement, without its `;`
    | Block(kind: Kind, cond: Text, body: Body)

  datatype Body = Done | More(item: Item, rest: Body)

  const THEN_TAIL: Text := [SPACE] + Ascii("THEN") + [SPACE]
  const DO_TAIL: Text := [SPACE] + Ascii("DO") + [SPACE]

  /** What stands between a block's keyword with its space, and the block's body. */
  function Lead(kind: Kind, cond: Text): Text {
    match kind
    case If => cond + THEN_TAIL
    case While => cond + DO_TAIL
    case Case => cond + [SPACE]
    case _ => []
  }

  function Opener(kind: Kind, cond: Text): Text {
    kind.Keyword() + [SPACE] + Lead(kind, cond)
  }

  function Closer(kind: Kind): Text {
    if kind.Begin? then Ascii("END") else Ascii("END") + [SPACE] + kind.Keyword()
  }

  function PrintItem(item: Item): Text {
    match item
    case Clause(text) => text + [SPACE]
    case Leaf(text) => text + [SEMI] + [SPACE]
    case Block(kind, cond, body) => Opener(kind, cond) + PrintBody(body) + Closer(kind) + [SEMI] + [SPACE]
  }

  function PrintBody(body: Body): Text {
    match body
    case Done => []
    case More(item, rest) => PrintItem(item) + PrintBody(rest)
  }

  /** The first byte of `t` that is not a space is not `(`. */
  predicate NoParenLead(t: Text) {
    SpaceEnd(t, 0) < |t| && t[SpaceEnd(t, 0)] != LPAREN
  }

  /**
   * Read as plain text, where a `$` opens no quote, the lexemes of `b` from `i` to `hi`
   * balance their parentheses and hold no `;` outside them.
   */
  predicate BalancedFrom(b: Text, i: nat, hi: nat, depth: nat, d: Dialect)
    requires i <= |b| && hi <= |b|
    decreases |b| - i
  {
    if i >= hi then i == hi && depth == 0
    else if b[i] == LPAREN then BalancedFrom(b, i + 1, hi, depth + 1, d)
    else if b[i] == RPAREN then depth > 0 && BalancedFrom(b, i + 1, hi, depth - 1, d)
    else (b[i] == SEMI ==> depth > 0) && BalancedFrom(b, ThenLexemeEnd(b, i, d), hi, depth, d)
  }

  /** Parentheses outside quotes and comments balance, with no `;` outside them. */
  predicate Balanced(cond: Text, d: Dialect) {
    BalancedFrom(cond + [SPACE], 0, |cond|, 0, d)
  }

  /** A condition of `IF`: bare, or balanced when it leads with `(` or `[NOT] EXISTS`. */
  predicate IfCondOk(cond: Text, d: Dialect) {
    var x := cond + THEN_TAIL;
    (NoParenLead(x) && !IfExistsHeader(x, 0)) || Balanced(cond, d)
  }

  /** No stray block keyword in a condition. */
  predicate CondCalm(kind: Kind, cond: Text, d: Dialect) {
    kind.If? || kind.While? || kind.Case? ==> Calm(cond, SPACE, d, true)
  }

  predicate ItemCalm(item: Item, d: Dialect) {
    match item
    case Clause(text) => Calm(text, SPACE, d, true)
    case Leaf(text) => Calm(text, SEMI, d, true)
    case Block(kind, cond, body) => CondCalm(kind, cond, d) && BodyCalm(body, d)
  }

  /** No stray block keyword anywhere in the tree. */
  predicate BodyCalm(body: Body, d: Dialect) {
    match body
    case Done => true
    case More(item, rest) => ItemCalm(item, d) && BodyCalm(rest, d)
  }

  /** Every `IF` condition is bare or balanced; no REPEAT body starts with `(`. */
  predicate ItemOk(item: Item, d: Dialect) {
    match item
    case Block(kind, cond, body) =>
      && (kind.If? ==> IfCondOk(cond, d))
      && (kind.Repeat? ==> NoParenLead(PrintBody(body) + Closer(kind)))
      && BodyOk(body, d)
    case _ => true
  }

  predicate BodyOk(body: Body, d: Dialect) {
    match body
    case Done => true
    case More(item, rest) => ItemOk(item, d) && BodyOk(rest, d)
  }

  // ----- keywords -----

  lemma KeywordIsWord(kind: Kind)
    ensures IsWord(kind.Keyword()) && IsWord(Ascii("END"))
  {
  }

  lemma KeywordSpells(kind: Kind)
    ensures IsBlockWord(kind.Keyword()) && !Spells(kind.Keyword(), "end")
    ensures Spells(kind.Keyword(), "if") <==> kind.If?
    ensures Spells(kind.Keyword(), "repeat") <==> kind.Repeat?
    ensures IsBlockKind(kind.Keyword()) <==> !kind.Begin?
    ensures Spells(Ascii("END"), "end")
  {
    if kind.Begin? {
      assert Lower(kind.Keyword()[0]) as int != "while"[0] as int;
    }
  }

  // ----- the scanner inside a routine body -----

  /** Where the routine's statement starts, and the separator that is to end it. */
  datatype Site = Site(start: nat, delim: Text)

  /** A routine that starts the script. */
  const First: Site := Site(0, [SEMI])

  /** Scanning a routine, `depth` blocks open. */
  function Inside(c: Site, i: nat, depth: nat): State {
    State(i, c.start, depth, true, false, c.delim)
  }

  lemma NoSeparatorAt(b: Text, o: nat)
    requires o < |b| && b[o] != SEMI
    ensures !StartsWithAt(b, o, [SEMI])
  {
    if StartsWithAt(b, o, [SEMI]) {
      StartsWithByte(b, o, [SEMI], 0);
      assert false;
    }
  }

  /** A block keyword opens a block, or passes as a plain word. */
  lemma KeywordStep(c: Site, b: Text, d: Dialect, o: nat, depth: nat, w: Text)
    requires StartsWithAt(b, o, w) && o + |w| < |b| && !IsWordByte(b[o + |w|]) && IsWord(w) && !Spells(w, "end")
    requires c.delim != [] && (depth > 0 || !StartsWithAt(b, o, c.delim))
    ensures RangesFrom(b, d, Inside(c, o, depth)) ==
            RangesFrom(b, d, Inside(c, o + |w|, if OpensBlock(b, w, o + |w|, d) then depth + 1 else depth))
  {
    hide OpensBlock, Spells, IsBlockKind, RoutineDdlAt, RestOfLine, NextWord, RangesFrom, WordEnd, IsWord;
    var s := Inside(c, o, depth);
    WordPlaced(b, o, w);
    Unroll(b, d, s);
  }

  /** A byte that ends a word and keeps any later word apart: `;`, say. */
  predicate EndsWord(c: Byte) {
    !IsWordByte(c) && !IsSpace(c)
  }

  /** A space and a word. */
  lemma SpacedWord(b: Text, at: nat, w: Text)
    requires at < |b| && b[at] == SPACE && StartsWithAt(b, at + 1, w) && IsWord(w)
    requires at + 1 + |w| < |b| && !IsWordByte(b[at + 1 + |w|])
    ensures NextWord(b, at) == Some(WordAt(w, at + 1 + |w|))
  {
    WordPlaced(b, at + 1, w);
    assert SpaceEnd(b, at + 1) == at + 1;
  }

  lemma EndWord(c: Site, b: Text, d: Dialect, o: nat, depth: nat, w: Text)
    requires StartsWithAt(b, o, w) && IsWord(w) && Spells(w, "end") && o + |w| < |b| && !IsWordByte(b[o + |w|]) && c.delim != []
    ensures var next := NextWord(b, o + |w|);
            var j := if next.Some? && IsBlockKind(next.value.text) then next.value.end else o + |w|;
            RangesFrom(b, d, Inside(c, o, depth + 1)) == RangesFrom(b, d, Inside(c, j, depth))
  {
    hide OpensBlock, Spells, IsBlockKind, RoutineDdlAt, RestOfLine, NextWord, RangesFrom, WordEnd, IsWord;
    WordPlaced(b, o, w);
    Unroll(b, d, Inside(c, o, depth + 1));
  }

  lemma CloseBegin(c: Site, b: Text, d: Dialect, o: nat, depth: nat, w: Text)
    requires StartsWithAt(b, o, w) && IsWord(w) && Spells(w, "end") && o + |w| < |b| && EndsWord(b[o + |w|]) && c.delim != []
    ensures RangesFrom(b, d, Inside(c, o, depth + 1)) == RangesFrom(b, d, Inside(c, o + |w|, depth))
  {
    hide Spells, IsBlockKind, RangesFrom, IsWord, StartsWithAt;
    EndWord(c, b, d, o, depth, w);
  }

  lemma CloseKind(c: Site, b: Text, d: Dialect, o: nat, depth: nat, w: Text, kindWord: Text)
    requires StartsWithAt(b, o, w) && IsWord(w) && Spells(w, "end") && o + |w| < |b| && b[o + |w|] == SPACE
    requires StartsWithAt(b, o + |w| + 1, kindWord) && IsWord(kindWord) && IsBlockKind(kindWord)
    requires o + |w| + 1 + |kindWord| < |b| && EndsWord(b[o + |w| + 1 + |kindWord|]) && c.delim != []
    ensures RangesFrom(b, d, Inside(c, o, depth + 1)) == RangesFrom(b, d, Inside(c, o + |w| + 1 + |kindWord|, depth))
  {
    hide Spells, IsBlockKind, NextWord, RangesFrom, IsWord, StartsWithAt;
    EndWord(c, b, d, o, depth, w);
    SpacedWord(b, o + |w|, kindWord);
  }

  /** One `END` closes one block, its kind word included. */
  lemma CloseWord(c: Site, b: Text, d: Dialect, o: nat, depth: nat, kind: Kind)
    requires StartsWithAt(b, o, Closer(kind)) && o + |Closer(kind)| < |b| && EndsWord(b[o + |Closer(kind)|]) && c.delim != []
    ensures RangesFrom(b, d, Inside(c, o, depth + 1)) == RangesFrom(b, d, Inside(c, o + |Closer(kind)|, depth))
  {
    hide Ascii, Spells, IsBlockKind, RangesFrom, IsWord, StartsWithAt;
    hide kind.Keyword;
    var w := Ascii("END");
    KeywordIsWord(kind);
    KeywordSpells(kind);
    if kind.Begin? {
      CloseBegin(c, b, d, o, depth, w);
    } else {
      StartsWithSplit(b, o, w + [SPACE], kind.Keyword());
      StartsWithSplit(b, o, w, [SPACE]);
      StartsWithByte(b, o + |w|, [SPACE], 0);
      CloseKind(c, b, d, o, depth, w, kind.Keyword());
    }
  }

  // ----- openers -----

  lemma OpensUnambiguous(b: Text, kind: Kind, from: nat, d: Dialect)
    requires from <= |b| && !kind.If? && !kind.Repeat?
    ensures OpensBlock(b, kind.Keyword(), from, d)
  {
    hide Spells, ThenFollows, IfExistsHeader, IsBlockWord;
    KeywordSpells(kind);
  }

  lemma SpaceEndPlaced(b: Text, p: nat, x: Text)
    requires StartsWithAt(b, p, x) && SpaceEnd(x, 0) < |x|
    ensures SpaceEnd(b, p) == p + SpaceEnd(x, 0)
  {
    hide SpaceEnd;
    StartsWithTail(b, p, x);
    SpaceEndTail(b, p);
    SpaceEndExtend(x, b[p + |x|..], 0);
  }

  lemma SpaceStep(b: Text, i: nat)
    requires i < |b| && IsSpace(b[i])
    ensures SpaceEnd(b, i) == SpaceEnd(b, i + 1)
  {
  }

  /** The first non-space byte after the space at `from`. */
  lemma LeadByte(b: Text, from: nat, x: Text)
    requires from < |b| && b[from] == SPACE && StartsWithAt(b, from + 1, x) && SpaceEnd(x, 0) < |x|
    ensures SpaceEnd(b, from) == from + 1 + SpaceEnd(x, 0) < |b|
    ensures b[SpaceEnd(b, from)] == x[SpaceEnd(x, 0)]
  {
    hide SpaceEnd, StartsWithAt;
    SpaceStep(b, from);
    SpaceEndPlaced(b, from + 1, x);
    StartsWithByte(b, from + 1, x, SpaceEnd(x, 0));
  }

  lemma OpensRepeat(b: Text, from: nat, x: Text, d: Dialect)
    requires from < |b| && b[from] == SPACE && StartsWithAt(b, from + 1, x) && NoParenLead(x)
    ensures OpensBlock(b, Kind.Repeat.Keyword(), from, d)
  {
    hide Spells, ThenFollows, IfExistsHeader, IsBlockWord, SpaceEnd, StartsWithAt;
    KeywordSpells(Repeat);
    LeadByte(b, from, x);
  }

  /** An `EXISTS` header is recognised from the condition and its `THEN` alone. */
  lemma ExistsHeaderLocal(cond: Text, r: Text)
    ensures IfExistsHeader(cond + THEN_TAIL + r, 0) == IfExistsHeader(cond + THEN_TAIL, 0)
  {
    hide Spells, WordEnd, SpaceEnd;
    var x := cond + THEN_TAIL;
    ThenTailSpace(cond, 0);
    SpaceEndExtend(x, r, 0);
    var at := SpaceEnd(x, 0);
    if IsWordByte(x[at]) {
      WordEndBefore(x, at);
      WordEndExtend(x, r, at);
      var e := WordEnd(x, at);
      assert (x + r)[at..e] == x[at..e];
      assert NextWord(x + r, 0) == NextWord(x, 0) == Some(WordAt(x[at..e], e));
      if Spells(x[at..e], "not") {
        ThenTailNot(cond, at);
        ThenTailSpace(cond, e);
        SpaceEndExtend(x, r, e);
        var at' := SpaceEnd(x, e);
        if IsWordByte(x[at']) {
          WordEndBefore(x, at');
          WordEndExtend(x, r, at');
          assert (x + r)[at'..WordEnd(x, at')] == x[at'..WordEnd(x, at')];
        }
      }
    }
  }

  /** From anywhere up to the end of the condition, the next non-space byte is in sight. */
  lemma {:induction false} ThenTailSpace(cond: Text, i: nat)
    requires i <= |cond| + 1
    ensures SpaceEnd(cond + THEN_TAIL, i) <= |cond| + 1
    decreases |cond| + 1 - i
  {
    var x := cond + THEN_TAIL;
    if i <= |cond| {
      if IsSpace(x[i]) {
        ThenTailSpace(cond, i + 1);
      }
    } else {
      assert x[i] == THEN_TAIL[1];
    }
  }

  /** A first word `NOT` lies inside the condition. */
  lemma ThenTailNot(cond: Text, at: nat)
    requires at <= |cond| + 1 && IsWordByte((cond + THEN_TAIL)[at])
    requires Spells((cond + THEN_TAIL)[at..WordEnd(cond + THEN_TAIL, at)], "not")
    ensures WordEnd(cond + THEN_TAIL, at) <= |cond|
  {
    var x := cond + THEN_TAIL;
    var e := WordEnd(x, at);
    WordRun(x, at);
    assert x[|cond|] == SPACE;
    assert x[at] == x[at..e][0];
  }

  lemma ThenTailWord(cond: Text, d: Dialect)
    ensures ThenFollows(cond + THEN_TAIL, |cond|, 0, d)
  {
    hide ThenFollows, Spells;
    var x, w := cond + THEN_TAIL, Ascii("THEN");
    assert x[|cond|] == SPACE && x[|cond| + 5] == SPACE && x[|cond| + 1..|cond| + 5] == w;
    TailWords();
    WordPlaced(x, |cond| + 1, w);
    assert Spells(w, "then") by { ThenSpells(); }
    ThenStep(x, |cond|, d);
    ThenStep(x, |cond| + 1, d);
  }

  lemma ThenSpells()
    ensures Spells(Ascii("THEN"), "then")
  {
  }

  /** The search for `THEN`, one lexeme on. */
  lemma {:induction false} ThenStep(x: Text, i: nat, d: Dialect)
    requires i < |x| && (x[i] == SPACE || IsWordByte(x[i]))
    ensures x[i] == SPACE ==> ThenFollows(x, i, 0, d) == ThenFollows(x, i + 1, 0, d)
    ensures IsWordByte(x[i]) && Spells(x[i..WordEnd(x, i)], "then") ==> ThenFollows(x, i, 0, d)
  {
    hide Spells;
  }

  /** From inside a balanced condition the search reaches the condition's own `THEN`. */
  lemma {:induction false} BalancedReachesThen(cond: Text, i: nat, depth: nat, d: Dialect)
    requires i <= |cond| && BalancedFrom(cond + [SPACE], i, |cond|, depth, d)
    ensures ThenFollows(cond + THEN_TAIL, i, depth, d)
    decreases |cond| - i
  {
    hide ThenLexemeEnd, Spells, Ascii;
    var y, x := cond + [SPACE], cond + THEN_TAIL;
    var r := Ascii("THEN") + [SPACE];
    assert x == y + r;
    if i == |cond| {
      ThenTailWord(cond, d);
    } else {
      assert x[i] == y[i];
      if y[i] == LPAREN {
        BalancedReachesThen(cond, i + 1, depth + 1, d);
      } else if y[i] == RPAREN {
        BalancedReachesThen(cond, i + 1, depth - 1, d);
      } else {
        var e := ThenLexemeEnd(y, i, d);
        ThenLexemeExtend(y, r, i, d);
        BalancedReachesThen(cond, e, depth, d);
      }
    }
  }

  lemma IfThenInContext(b: Text, from: nat, x: Text, d: Dialect)
    requires from < |b| && b[from] == SPACE && StartsWithAt(b, from + 1, x)
    requires x != [] && x[|x| - 1] == SPACE && ThenFollows(x, 0, 0, d)
    ensures ThenFollows(b, from, 0, d) && ThenFollows(b, SpaceEnd(b, from), 0, d)
  {
    hide ThenFollows;
    StartsWithTail(b, from + 1, x);
    ThenFollowsExtend(x, b[from + 1 + |x|..], 0, 0, d);
    ThenFollowsShift(b, from + 1, 0, 0, d);
    ThenFollowsSpace(b, from, 0, d);
    ThenFollowsSpace(b, from + 1, 0, d);
  }

  lemma HeaderPastSpace(b: Text, from: nat)
    requires from < |b| && b[from] == SPACE
    ensures IfExistsHeader(b, from) == IfExistsHeader(b, from + 1)
  {
    hide Spells, WordEnd;
    SpaceStep(b, from);
    assert NextWord(b, from) == NextWord(b, from + 1);
  }

  lemma ExistsHeaderInContext(b: Text, from: nat, cond: Text)
    requires from < |b| && b[from] == SPACE && StartsWithAt(b, from + 1, cond + THEN_TAIL)
    ensures IfExistsHeader(b, from) == IfExistsHeader(cond + THEN_TAIL, 0)
  {
    hide IfExistsHeader, StartsWithAt;
    HeaderPastSpace(b, from);
    StartsWithTail(b, from + 1, cond + THEN_TAIL);
    IfExistsShift(b, from + 1, 0);
    ExistsHeaderLocal(cond, b[from + 1 + |cond + THEN_TAIL|..]);
  }

  lemma OpensIf(b: Text, from: nat, cond: Text, d: Dialect)
    requires from < |b| && b[from] == SPACE && StartsWithAt(b, from + 1, cond + THEN_TAIL) && IfCondOk(cond, d)
    ensures OpensBlock(b, Kind.If.Keyword(), from, d)
  {
    hide Spells, ThenFollows, IfExistsHeader, IsBlockWord, SpaceEnd, StartsWithAt, BalancedFrom;
    var x := cond + THEN_TAIL;
    KeywordSpells(If);
    ThenTailSpace(cond, 0);
    LeadByte(b, from, x);
    if Balanced(cond, d) {
      assert x[|x| - 1] == SPACE;
      BalancedReachesThen(cond, 0, 0, d);
      IfThenInContext(b, from, x, d);
    } else {
      ExistsHeaderInContext(b, from, cond);
    }
  }

  /** A block keyword opens its block wherever its condition allows. */
  lemma Opens(b: Text, d: Dialect, from: nat, kind: Kind, cond: Text, inner: Text)
    requires from < |b| && b[from] == SPACE && StartsWithAt(b, from + 1, Lead(kind, cond))
    requires StartsWithAt(b, from + 1 + |Lead(kind, cond)|, inner)
    requires (kind.If? ==> IfCondOk(cond, d)) && (kind.Repeat? ==> NoParenLead(inner))
    ensures OpensBlock(b, kind.Keyword(), from, d)
  {
    hide Calm, IfCondOk, NoParenLead, OpensBlock, StartsWithAt;
    hide kind.Keyword;
    match kind
    case If => OpensIf(b, from, cond, d);
    case Repeat => OpensRepeat(b, from, inner, d);
    case _ => OpensUnambiguous(b, kind, from, d);
  }

  // ----- leads -----

  /** A space, the word `w` and a space. */
  lemma SpacedWordCalm(b: Text, q: nat, w: Text, d: Dialect, semis: bool)
    requires StartsWithAt(b, q, [SPACE] + w + [SPACE]) && IsWord(w) && !IsBlockWord(w) && !Spells(w, "end")
    ensures q + |w| + 2 <= |b| && CalmFrom(b, q, q + |w| + 2, d, semis)
  {
    hide CalmFrom, IsBlockWord, Spells, IsWord, StartsWithAt;
    StartsWithSplit(b, q, [SPACE] + w, [SPACE]);
    StartsWithSplit(b, q, [SPACE], w);
    var z := q + 1 + |w|;
    StartsWithByte(b, q, [SPACE], 0);
    StartsWithByte(b, z, [SPACE], 0);
    CalmByte(b, q, d, semis);
    CalmWordPlaced(b, q + 1, w, d, semis);
    CalmByte(b, z, d, semis);
    CalmConcat(b, q, q + 1, z, d, semis);
    CalmConcat(b, q, z, z + 1, d, semis);
  }

  lemma CondWordCalm(b: Text, p: nat, cond: Text, w: Text, d: Dialect)
    requires CleanAt(b, p) && StartsWithAt(b, p, cond + ([SPACE] + w + [SPACE])) && Calm(cond, SPACE, d, true)
    requires IsWord(w) && !IsBlockWord(w) && !Spells(w, "end")
    ensures p + |cond| + |w| + 2 <= |b| && CalmFrom(b, p, p + |cond| + |w| + 2, d, true)
  {
    hide Calm, CalmFrom, IsBlockWord, Spells, IsWord, StartsWithAt;
    var q, tail := p + |cond|, [SPACE] + w + [SPACE];
    StartsWithSplit(b, p, cond, tail);
    StartsWithByte(b, q, tail, 0);
    SpacedWordCalm(b, q, w, d, true);
    CalmPlaced(b, p, cond, SPACE, d, true);
    CalmConcat(b, p, q, q + |w| + 2, d, true);
  }

  lemma TailWords()
    ensures IsWord(Ascii("THEN")) && !IsBlockWord(Ascii("THEN")) && !Spells(Ascii("THEN"), "end")
    ensures IsWord(Ascii("DO")) && !IsBlockWord(Ascii("DO")) && !Spells(Ascii("DO"), "end")
  {
    assert Lower(Ascii("THEN")[0]) == 116 && Lower(Ascii("DO")[0]) == 100;
  }

  lemma CalmNothing(b: Text, p: nat, d: Dialect)
    requires p <= |b|
    ensures CalmFrom(b, p, p, d, true)
  {
  }

  lemma LeadCalm(b: Text, p: nat, kind: Kind, cond: Text, d: Dialect)
    requires CleanAt(b, p) && StartsWithAt(b, p, Lead(kind, cond)) && CondCalm(kind, cond, d)
    ensures p + |Lead(kind, cond)| <= |b| && CalmFrom(b, p, p + |Lead(kind, cond)|, d, true)
  {
    hide Calm, CalmFrom, IsWord, IsBlockWord, Spells, Ascii;
    TailWords();
    match kind
    case If => CondWordCalm(b, p, cond, Ascii("THEN"), d);
    case While => CondWordCalm(b, p, cond, Ascii("DO"), d);
    case Case =>
      var q := p + |cond|;
      StartsWithSplit(b, p, cond, [SPACE]);
      StartsWithByte(b, q, [SPACE], 0);
      CalmPlaced(b, p, cond, SPACE, d, true);
      CalmByte(b, q, d, true);
      CalmConcat(b, p, q, q + 1, d, true);
    case _ => CalmNothing(b, p, d);
  }

  // ----- bodies -----

  lemma SplitOpener(b: Text, o: nat, kind: Kind, cond: Text)
    requires StartsWithAt(b, o, Opener(kind, cond))
    ensures var from := o + |kind.Keyword()|;
            && StartsWithAt(b, o, kind.Keyword()) && from < |b| && b[from] == SPACE
            && StartsWithAt(b, from + 1, Lead(kind, cond))
  {
    hide StartsWithAt, Lead;
    hide kind.Keyword;
    var w := kind.Keyword();
    StartsWithSplit(b, o, w + [SPACE], Lead(kind, cond));
    StartsWithSplit(b, o, w, [SPACE]);
    StartsWithByte(b, o + |w|, [SPACE], 0);
  }

  function Taken(opens: bool): nat {
    if opens then 1 else 0
  }

  /** The scanner passes an opener to the start of the body, one block deeper if it takes it. */
  lemma PassOpener(c: Site, b: Text, d: Dialect, o: nat, depth: nat, kind: Kind, cond: Text)
    requires StartsWithAt(b, o, Opener(kind, cond)) && CondCalm(kind, cond, d) && o + |kind.Keyword()| <= |b|
    requires depth > 0 || OpensBlock(b, kind.Keyword(), o + |kind.Keyword()|, d)
    requires c.delim != [] && (depth > 0 || !StartsWithAt(b, o, c.delim))
    ensures RangesFrom(b, d, Inside(c, o, depth)) ==
            RangesFrom(b, d, Inside(c, o + |Opener(kind, cond)|, depth + Taken(OpensBlock(b, kind.Keyword(), o + |kind.Keyword()|, d))))
  {
    hide StartsWithAt, Lead, RangesFrom, CondCalm, OpensBlock, IsWord, Spells, CalmFrom;
    hide kind.Keyword;
    var w := kind.Keyword();
    var from := o + |w|;
    SplitOpener(b, o, kind, cond);
    KeywordIsWord(kind);
    KeywordSpells(kind);
    KeywordStep(c, b, d, o, depth, w);
    CalmByte(b, from, d, true);
    LeadCalm(b, from + 1, kind, cond, d);
    CalmConcat(b, from, from + 1, from + 1 + |Lead(kind, cond)|, d, true);
    Glide(b, d, Inside(c, from, depth + Taken(OpensBlock(b, w, from, d))), from + 1 + |Lead(kind, cond)|, true);
  }

  /** A `;` and a space inside an open block end no statement. */
  lemma SemiGlide(c: Site, b: Text, d: Dialect, o: nat, depth: nat)
    requires StartsWithAt(b, o, [SEMI] + [SPACE]) && depth > 0 && c.delim != []
    ensures RangesFrom(b, d, Inside(c, o, depth)) == RangesFrom(b, d, Inside(c, o + 2, depth))
  {
    hide RangesFrom, CalmFrom;
    StartsWithByte(b, o, [SEMI] + [SPACE], 0);
    StartsWithByte(b, o, [SEMI] + [SPACE], 1);
    CalmByte(b, o, d, true);
    CalmByte(b, o + 1, d, true);
    CalmConcat(b, o, o + 1, o + 2, d, true);
    Glide(b, d, Inside(c, o, depth), o + 2, true);
  }

  /** A clause or a plain statement, up to its separator. */
  lemma TextGlide(c: Site, b: Text, d: Dialect, o: nat, depth: nat, text: Text, sep: Byte)
    requires CleanAt(b, o) && StartsWithAt(b, o, text) && o + |text| < |b| && b[o + |text|] == sep
    requires (sep == SEMI || sep == SPACE) && Calm(text, sep, d, true) && depth > 0 && c.delim != []
    ensures RangesFrom(b, d, Inside(c, o, depth)) == RangesFrom(b, d, Inside(c, o + |text|, depth))
  {
    hide RangesFrom, CalmFrom, Calm;
    CalmPlaced(b, o, text, sep, d, true);
    Glide(b, d, Inside(c, o, depth), o + |text|, true);
  }

  lemma ClauseRuns(c: Site, b: Text, d: Dialect, o: nat, depth: nat, text: Text)
    requires depth > 0 && c.delim != [] && CleanAt(b, o) && StartsWithAt(b, o, text + [SPACE]) && Calm(text, SPACE, d, true)
    ensures RangesFrom(b, d, Inside(c, o, depth)) == RangesFrom(b, d, Inside(c, o + |text| + 1, depth))
  {
    hide RangesFrom, CalmFrom, Calm, StartsWithAt;
    var q := o + |text|;
    StartsWithSplit(b, o, text, [SPACE]);
    StartsWithByte(b, q, [SPACE], 0);
    TextGlide(c, b, d, o, depth, text, SPACE);
    CalmByte(b, q, d, true);
    Glide(b, d, Inside(c, q, depth), q + 1, true);
  }

  lemma LeafRuns(c: Site, b: Text, d: Dialect, o: nat, depth: nat, text: Text)
    requires depth > 0 && c.delim != [] && CleanAt(b, o) && StartsWithAt(b, o, text + ([SEMI] + [SPACE])) && Calm(text, SEMI, d, true)
    ensures RangesFrom(b, d, Inside(c, o, depth)) == RangesFrom(b, d, Inside(c, o + |text| + 2, depth))
  {
    hide RangesFrom, CalmFrom, Calm, StartsWithAt;
    var q := o + |text|;
    StartsWithSplit(b, o, text, [SEMI] + [SPACE]);
    StartsWithByte(b, q, [SEMI] + [SPACE], 0);
    TextGlide(c, b, d, o, depth, text, SEMI);
    SemiGlide(c, b, d, q, depth);
  }

  /** What follows a printed item is clean: the item ends in a space. */
  lemma CleanAfter(b: Text, o: nat, item: Item)
    requires StartsWithAt(b, o, PrintItem(item))
    ensures CleanAt(b, o + |PrintItem(item)|)
  {
    var t := PrintItem(item);
    assert t != [] && t[|t| - 1] == SPACE;
    StartsWithByte(b, o, t, |t| - 1);
  }

  /** How many blocks of an item printed at `o` the scanner fails to open. */
  function MissedItem(b: Text, o: nat, item: Item, d: Dialect): nat
    decreases item, 1
  {
    match item
    case Block(kind, cond, body) => MissedBlock(b, o, kind, cond, body, d)
    case _ => 0
  }

  function MissedBlock(b: Text, o: nat, kind: Kind, cond: Text, body: Body, d: Dialect): nat
    decreases body, 1
  {
    var from := o + |kind.Keyword()|;
    Taken(from <= |b| && !OpensBlock(b, kind.Keyword(), from, d)) + MissedBody(b, o + |Opener(kind, cond)|, body, d)
  }

  function MissedBody(b: Text, o: nat, body: Body, d: Dialect): nat
    decreases body, 0
  {
    match body
    case Done => 0
    case More(item, rest) => MissedItem(b, o, item, d) + MissedBody(b, o + |PrintItem(item)|, rest, d)
  }

  /** The statement that starts the script ends before `hi`. */
  predicate CutBefore(b: Text, d: Dialect, s: State, hi: nat)
    requires s.i <= |b| && s.delim != []
  {
    RangesFrom(b, d, s)[0].hi < hi
  }

  lemma SemiCuts(c: Site, b: Text, d: Dialect, o: nat)
    requires o < |b| && b[o] == SEMI && c.delim == [SEMI]
    ensures RangesFrom(b, d, Inside(c, o, 0))[0] == Range(c.start, o)
  {
    hide Lex, RangesFrom;
    assert b[o..o + 1] == [SEMI];
    Unroll(b, d, Inside(c, o, 0));
  }

  /**
   * The scanner leaves a block at the depth at which it entered it, less one for every
   * block it failed to open; with too few open, it has cut the statement on the way.
   */
  lemma {:induction false} BlockRuns(c: Site, b: Text, d: Dialect, o: nat, depth: nat, kind: Kind, cond: Text, body: Body)
    requires CleanAt(b, o) && BodyCalm(body, d) && CondCalm(kind, cond, d) && (depth > 0 || kind.Begin?)
    requires var t := Opener(kind, cond) + (PrintBody(body) + Closer(kind));
             StartsWithAt(b, o, t) && o + |t| < |b| && EndsWord(b[o + |t|])
    requires c.delim != [] && (depth > 0 || !StartsWithAt(b, o, c.delim))
    requires c.delim == [SEMI] || MissedBlock(b, o, kind, cond, body, d) == 0
    ensures var hi := o + |Opener(kind, cond) + (PrintBody(body) + Closer(kind))|;
            var missed := MissedBlock(b, o, kind, cond, body, d);
            if missed <= depth then RangesFrom(b, d, Inside(c, o, depth)) == RangesFrom(b, d, Inside(c, hi, depth - missed))
            else CutBefore(b, d, Inside(c, o, depth), hi)
    decreases body, 1
  {
    hide StartsWithAt, RangesFrom, CondCalm, Opener, Closer, PrintBody, BodyCalm, OpensBlock, MissedBody;
    hide kind.Keyword;
    var open, text, close := Opener(kind, cond), PrintBody(body), Closer(kind);
    StartsWithSplit(b, o, open, text + close);
    StartsWithSplit(b, o + |open|, text, close);
    var from := o + |kind.Keyword()|;
    SplitOpener(b, o, kind, cond);
    if kind.Begin? {
      OpensUnambiguous(b, kind, from, d);
    }
    PassOpener(c, b, d, o, depth, kind, cond);
    CleanAfterOpener(b, o, kind, cond);
    var inner := depth + Taken(OpensBlock(b, kind.Keyword(), from, d));
    BodyRuns(c, b, d, o + |open|, inner, body);
    var missed := MissedBody(b, o + |open|, body, d);
    if missed < inner {
      CloseWord(c, b, d, o + |open| + |text|, inner - missed - 1, kind);
    }
  }

  lemma CleanAfterOpener(b: Text, o: nat, kind: Kind, cond: Text)
    requires StartsWithAt(b, o, Opener(kind, cond))
    ensures CleanAt(b, o + |Opener(kind, cond)|)
  {
    hide StartsWithAt;
    var t := Opener(kind, cond);
    OpenerEnds(kind, cond);
    StartsWithByte(b, o, t, |t| - 1);
  }

  lemma OpenerEnds(kind: Kind, cond: Text)
    ensures Opener(kind, cond) != [] && Opener(kind, cond)[|Opener(kind, cond)| - 1] == SPACE
  {
    hide Ascii;
    hide kind.Keyword;
    assert THEN_TAIL[|THEN_TAIL| - 1] == SPACE && DO_TAIL[|DO_TAIL| - 1] == SPACE;
  }

  lemma {:induction false} ItemRuns(c: Site, b: Text, d: Dialect, o: nat, depth: nat, item: Item)
    requires depth > 0 && CleanAt(b, o) && StartsWithAt(b, o, PrintItem(item)) && ItemCalm(item, d) && c.delim != []
    requires c.delim == [SEMI] || MissedItem(b, o, item, d) == 0
    ensures var hi := o + |PrintItem(item)|;
            var missed := MissedItem(b, o, item, d);
            if missed < depth then RangesFrom(b, d, Inside(c, o, depth)) == RangesFrom(b, d, Inside(c, hi, depth - missed))
            else CutBefore(b, d, Inside(c, o, depth), hi)
    decreases item, 2
  {
    hide StartsWithAt, RangesFrom, CondCalm, Opener, Closer, PrintBody, Calm, BodyCalm, MissedBlock;
    match item
    case Clause(text) => ClauseRuns(c, b, d, o, depth, text);
    case Leaf(text) =>
      Assoc(text, [SEMI], [SPACE]);
      LeafRuns(c, b, d, o, depth, text);
    case Block(kind, cond, body) =>
      var t := Opener(kind, cond) + (PrintBody(body) + Closer(kind));
      BlockPrint(kind, cond, body);
      StartsWithSplit(b, o, t, [SEMI] + [SPACE]);
      StartsWithByte(b, o + |t|, [SEMI] + [SPACE], 0);
      BlockRuns(c, b, d, o, depth, kind, cond, body);
      var missed := MissedBlock(b, o, kind, cond, body, d);
      if missed < depth {
        SemiGlide(c, b, d, o + |t|, depth - missed);
      } else if missed == depth {
        SemiCuts(c, b, d, o + |t|);
      }
  }

  lemma BlockPrint(kind: Kind, cond: Text, body: Body)
    ensures PrintItem(Block(kind, cond, body)) ==
            (Opener(kind, cond) + (PrintBody(body) + Closer(kind))) + ([SEMI] + [SPACE])
  {
    hide Opener, Closer, PrintBody;
    Assoc(Opener(kind, cond), PrintBody(body), Closer(kind));
    Assoc(Opener(kind, cond) + (PrintBody(body) + Closer(kind)), [SEMI], [SPACE]);
  }

  lemma {:induction false} BodyRuns(c: Site, b: Text, d: Dialect, o: nat, depth: nat, body: Body)
    requires depth > 0 && CleanAt(b, o) && StartsWithAt(b, o, PrintBody(body)) && BodyCalm(body, d) && c.delim != []
    requires c.delim == [SEMI] || MissedBody(b, o, body, d) == 0
    ensures var hi := o + |PrintBody(body)|;
            var missed := MissedBody(b, o, body, d);
            if missed < depth then RangesFrom(b, d, Inside(c, o, depth)) == RangesFrom(b, d, Inside(c, hi, depth - missed))
            else CutBefore(b, d, Inside(c, o, depth), hi)
    decreases body, 0
  {
    hide StartsWithAt, RangesFrom, ItemCalm, PrintItem, MissedItem;
    match body
    case Done =>
    case More(item, rest) =>
      StartsWithSplit(b, o, PrintItem(item), PrintBody(rest));
      ItemRuns(c, b, d, o, depth, item);
      CleanAfter(b, o, item);
      var missed := MissedItem(b, o, item, d);
      if missed < depth {
        BodyRuns(c, b, d, o + |PrintItem(item)|, depth - missed, rest);
      }
  }

  // ----- bare and balanced conditions open their blocks -----

  lemma {:induction false} BlockTaken(b: Text, d: Dialect, o: nat, kind: Kind, cond: Text, body: Body)
    requires BodyOk(body, d) && (kind.If? ==> IfCondOk(cond, d)) && (kind.Repeat? ==> NoParenLead(PrintBody(body) + Closer(kind)))
    requires StartsWithAt(b, o, Opener(kind, cond) + (PrintBody(body) + Closer(kind)))
    ensures MissedBlock(b, o, kind, cond, body, d) == 0
    decreases body, 1
  {
    hide StartsWithAt, IfCondOk, NoParenLead, Opener, Closer, PrintBody, BodyOk, OpensBlock, MissedBody, Lead;
    hide kind.Keyword;
    var open, text, close := Opener(kind, cond), PrintBody(body), Closer(kind);
    StartsWithSplit(b, o, open, text + close);
    StartsWithSplit(b, o + |open|, text, close);
    SplitOpener(b, o, kind, cond);
    OpenerSize(kind, cond);
    Opens(b, d, o + |kind.Keyword()|, kind, cond, text + close);
    BodyTaken(b, d, o + |open|, body);
  }

  lemma OpenerSize(kind: Kind, cond: Text)
    ensures |Opener(kind, cond)| == |kind.Keyword()| + 1 + |Lead(kind, cond)|
  {
  }

  lemma {:induction false} ItemTaken(b: Text, d: Dialect, o: nat, item: Item)
    requires ItemOk(item, d) && StartsWithAt(b, o, PrintItem(item))
    ensures MissedItem(b, o, item, d) == 0
    decreases item, 2
  {
    hide StartsWithAt, IfCondOk, NoParenLead, Opener, Closer, PrintBody, BodyOk, MissedBlock;
    match item
    case Block(kind, cond, body) =>
      BlockPrint(kind, cond, body);
      StartsWithSplit(b, o, Opener(kind, cond) + (PrintBody(body) + Closer(kind)), [SEMI] + [SPACE]);
      BlockTaken(b, d, o, kind, cond, body);
    case _ =>
  }

  lemma {:induction false} BodyTaken(b: Text, d: Dialect, o: nat, body: Body)
    requires BodyOk(body, d) && StartsWithAt(b, o, PrintBody(body))
    ensures MissedBody(b, o, body, d) == 0
    decreases body, 0
  {
    hide StartsWithAt, ItemOk, PrintItem, MissedItem;
    match body
    case Done =>
    case More(item, rest) =>
      StartsWithSplit(b, o, PrintItem(item), PrintBody(rest));
      ItemTaken(b, d, o, item);
      BodyTaken(b, d, o + |PrintItem(item)|, rest);
  }

  // ----- whole routines -----

  /** `CREATE PROCEDURE p(…) BEGIN … END`, for any DDL verb and routine kind. */
  function Routine(verb: Text, kindWord: Text, header: Text, body: Body): Text {
    verb + ([SPACE] + kindWord + [SPACE]) + (header + [SPACE]) + (Opener(Begin, []) + (PrintBody(body) + Closer(Begin)))
  }

  lemma VerbIsPlain(verb: Text)
    requires IsDdlVerb(verb)
    ensures !IsBlockWord(verb) && !Spells(verb, "end") && !Spells(verb, "delimiter")
  {
    assert Lower(verb[0]) == 99 || Lower(verb[0]) == 97 || Lower(verb[0]) == 100;
  }

  lemma KindIsPlain(kindWord: Text)
    requires IsRoutineKind(kindWord)
    ensures !IsBlockWord(kindWord) && !Spells(kindWord, "end")
  {
    assert Lower(kindWord[0]) == 116 || Lower(kindWord[0]) == 112 || Lower(kindWord[0]) == 102 || Lower(kindWord[0]) == 101;
  }

  /** The header words name a routine, so the statement is scanned as a compound one. */
  lemma ArmsCompound(b: Text, p: nat, verb: Text, kindWord: Text)
    requires IsWord(verb) && IsDdlVerb(verb) && IsWord(kindWord) && IsRoutineKind(kindWord)
    requires StartsWithAt(b, p, verb) && p + |verb| < |b| && b[p + |verb|] == SPACE
    requires StartsWithAt(b, p + |verb| + 1, kindWord) && p + |verb| + 1 + |kindWord| < |b|
    requires !IsWordByte(b[p + |verb| + 1 + |kindWord|])
    ensures RoutineDdlAt(b, p)
  {
    hide IsDdlVerb, IsRoutineKind, IsStructuralKind, IsWord, StartsWithAt;
    WordPlaced(b, p, verb);
    WordPlaced(b, p + |verb| + 1, kindWord);
    assert SpaceEnd(b, p) == p;
    assert HeaderWord(b, p + |verb|) == HeaderWord(b, p + |verb| + 1);
  }

  /** The scanner at the head of a statement. */
  function Ahead(c: Site, i: nat): State {
    State(i, c.start, 0, false, true, c.delim)
  }

  /** The verb at the head of a statement starts a compound one. */
  lemma VerbStep(c: Site, b: Text, d: Dialect, p: nat, verb: Text)
    requires IsWord(verb) && IsDdlVerb(verb) && p <= |b| && RoutineDdlAt(b, p) && c.delim != [] && !StartsWithAt(b, p, c.delim)
    requires StartsWithAt(b, p, verb) && p + |verb| < |b| && b[p + |verb|] == SPACE
    ensures RangesFrom(b, d, Ahead(c, p)) == RangesFrom(b, d, Inside(c, p + |verb|, 0))
  {
    hide IsDdlVerb, RoutineDdlAt, RestOfLine, NextWord, RangesFrom, IsWord, Spells, IsBlockKind, WordEnd;
    WordPlaced(b, p, verb);
    VerbIsPlain(verb);
    Unroll(b, d, Ahead(c, p));
    assert Lex(b, d, Ahead(c, p)) == Inside(c, p + |verb|, 0);
  }

  /** The separator `c.delim` is not met in `b[lo..hi]`: it is `;`, or stands nowhere there. */
  ghost predicate Clear(c: Site, b: Text, lo: nat, hi: nat) {
    c.delim == [SEMI] || (c.delim != [] && forall k :: lo <= k < hi ==> !StartsWithAt(b, k, c.delim))
  }

  /** The header up to the body: no separator, nothing opened. */
  lemma HeaderGlide(c: Site, b: Text, d: Dialect, o: nat, kindWord: Text, header: Text)
    requires StartsWithAt(b, o, [SPACE] + kindWord + [SPACE]) && IsWord(kindWord) && IsRoutineKind(kindWord)
    requires StartsWithAt(b, o + |kindWord| + 2, header + [SPACE]) && Calm(header, SPACE, d, false)
    requires Clear(c, b, o, o + |kindWord| + 2 + |header| + 1)
    ensures RangesFrom(b, d, Inside(c, o, 0)) == RangesFrom(b, d, Inside(c, o + |kindWord| + 2 + |header| + 1, 0))
  {
    hide RangesFrom, CalmFrom, Calm, StartsWithAt, IsWord, IsBlockWord, Spells;
    var p := o + |kindWord| + 2;
    var q := p + |header|;
    KindIsPlain(kindWord);
    SpacedWordCalm(b, o, kindWord, d, false);
    StartsWithByte(b, o, [SPACE] + kindWord + [SPACE], |kindWord| + 1);
    StartsWithSplit(b, p, header, [SPACE]);
    StartsWithByte(b, q, [SPACE], 0);
    CalmPlaced(b, p, header, SPACE, d, false);
    CalmByte(b, q, d, false);
    CalmConcat(b, o, p, q, d, false);
    CalmConcat(b, o, q, q + 1, d, false);
    Glide(b, d, Inside(c, o, 0), q + 1, false);
  }

  /** A routine declaration whose texts hold no stray block keyword. */
  ghost predicate RoutineCalm(verb: Text, kindWord: Text, header: Text, body: Body, d: Dialect) {
    && IsWord(verb) && IsDdlVerb(verb) && IsWord(kindWord) && IsRoutineKind(kindWord)
    && Calm(header, SPACE, d, false) && BodyCalm(body, d)
  }

  /** Where the body of a routine starts. */
  function BodyStart(verb: Text, kindWord: Text, header: Text): nat {
    |verb| + |kindWord| + |header| + 3 + |Opener(Begin, [])|
  }

  lemma SplitRoutine(b: Text, at: nat, verb: Text, kindWord: Text, header: Text, body: Body)
    requires StartsWithAt(b, at, Routine(verb, kindWord, header, body))
    ensures var p := at + |verb| + |kindWord| + 2;
            && StartsWithAt(b, at, verb)
            && StartsWithAt(b, at + |verb|, [SPACE] + kindWord + [SPACE])
            && StartsWithAt(b, p, header + [SPACE])
            && StartsWithAt(b, p + |header| + 1, Opener(Begin, []) + (PrintBody(body) + Closer(Begin)))
  {
    hide StartsWithAt, Opener, PrintBody, Closer;
    var block := Opener(Begin, []) + (PrintBody(body) + Closer(Begin));
    var kindPart := [SPACE] + kindWord + [SPACE];
    StartsWithSplit(b, at, verb + kindPart + (header + [SPACE]), block);
    StartsWithSplit(b, at, verb + kindPart, header + [SPACE]);
    StartsWithSplit(b, at, verb, kindPart);
  }

  /** No `;` where a word starts. */
  lemma WordClear(c: Site, b: Text, o: nat, hi: nat, w: Text)
    requires Clear(c, b, o, hi) && o < hi && StartsWithAt(b, o, w) && IsWord(w)
    ensures c.delim != [] && !StartsWithAt(b, o, c.delim)
  {
    StartsWithByte(b, o, w, 0);
    if c.delim == [SEMI] {
      NoSeparatorAt(b, o);
    }
  }

  /** The scanner reaches the routine's end with every block closed, or cuts the routine. */
  lemma RoutineRuns(c: Site, b: Text, d: Dialect, at: nat, verb: Text, kindWord: Text, header: Text, body: Body)
    requires RoutineCalm(verb, kindWord, header, body, d) && CleanAt(b, at)
    requires Clear(c, b, at, at + |verb| + |kindWord| + |header| + 4)
    requires c.delim == [SEMI] || MissedBody(b, at + BodyStart(verb, kindWord, header), body, d) == 0
    requires var t := Routine(verb, kindWord, header, body);
             StartsWithAt(b, at, t) && at + |t| < |b| && EndsWord(b[at + |t|])
    ensures var hi := at + |Routine(verb, kindWord, header, body)|;
            if MissedBody(b, at + BodyStart(verb, kindWord, header), body, d) == 0
            then RangesFrom(b, d, Ahead(c, at)) == RangesFrom(b, d, Inside(c, hi, 0))
            else RangesFrom(b, d, Ahead(c, at))[0].hi < hi
  {
    hide StartsWithAt, Opener, PrintBody, Closer, RangesFrom, Calm, IsWord, IsDdlVerb, IsRoutineKind, BodyCalm, OpensBlock, MissedBody, MissedBlock, Clear;
    var o := at + |verb| + |kindWord| + |header| + 3;
    SplitRoutine(b, at, verb, kindWord, header, body);
    HeaderRuns(c, b, d, at, verb, kindWord, header);
    ClearPart(c, b, at, o + 1, o, o + 1);
    BeginClear(c, b, o, body);
    BeginTaken(b, d, o, body);
    StartsWithByte(b, at + |verb| + |kindWord| + 2, header + [SPACE], |header|);
    BlockRuns(c, b, d, o, 0, Begin, [], body);
  }

  /** From the verb to the `BEGIN` of the body. */
  lemma HeaderRuns(c: Site, b: Text, d: Dialect, at: nat, verb: Text, kindWord: Text, header: Text)
    requires IsWord(verb) && IsDdlVerb(verb) && IsWord(kindWord) && IsRoutineKind(kindWord) && Calm(header, SPACE, d, false)
    requires Clear(c, b, at, at + |verb| + |kindWord| + |header| + 4) && StartsWithAt(b, at, verb)
    requires StartsWithAt(b, at + |verb|, [SPACE] + kindWord + [SPACE])
    requires StartsWithAt(b, at + |verb| + |kindWord| + 2, header + [SPACE])
    ensures c.delim != []
    ensures RangesFrom(b, d, Ahead(c, at)) == RangesFrom(b, d, Inside(c, at + |verb| + |kindWord| + |header| + 3, 0))
  {
    hide StartsWithAt, RangesFrom, Calm, IsWord, IsDdlVerb, IsRoutineKind, Clear;
    var o := at + |verb| + |kindWord| + |header| + 3;
    var kindPart := [SPACE] + kindWord + [SPACE];
    StartsWithByte(b, at + |verb|, kindPart, 0);
    StartsWithByte(b, at + |verb|, kindPart, |kindWord| + 1);
    StartsWithSplit(b, at + |verb|, [SPACE] + kindWord, [SPACE]);
    StartsWithSplit(b, at + |verb|, [SPACE], kindWord);
    ArmsCompound(b, at, verb, kindWord);
    WordClear(c, b, at, o + 1, verb);
    VerbStep(c, b, d, at, verb);
    ClearPart(c, b, at, o + 1, at + |verb|, o);
    HeaderGlide(c, b, d, at + |verb|, kindWord, header);
  }

  lemma ClearPart(c: Site, b: Text, lo: nat, hi: nat, lo': nat, hi': nat)
    requires Clear(c, b, lo, hi) && lo <= lo' && hi' <= hi
    ensures Clear(c, b, lo', hi')
  {
  }

  lemma BeginClear(c: Site, b: Text, o: nat, body: Body)
    requires Clear(c, b, o, o + 1) && StartsWithAt(b, o, Opener(Begin, []) + (PrintBody(body) + Closer(Begin)))
    ensures c.delim != [] && !StartsWithAt(b, o, c.delim)
  {
    hide StartsWithAt, PrintBody, Closer, Clear;
    hide Kind.Keyword;
    StartsWithSplit(b, o, Opener(Begin, []), PrintBody(body) + Closer(Begin));
    SplitOpener(b, o, Begin, []);
    KeywordIsWord(Begin);
    WordClear(c, b, o, o + 1, Kind.Begin.Keyword());
  }

  lemma BeginTaken(b: Text, d: Dialect, o: nat, body: Body)
    ensures MissedBlock(b, o, Begin, [], body, d) == MissedBody(b, o + |Opener(Begin, [])|, body, d)
  {
    hide OpensBlock, MissedBody, Opener, Ascii;
    if o + |Kind.Begin.Keyword()| <= |b| {
      OpensUnambiguous(b, Begin, o + |Kind.Begin.Keyword()|, d);
    }
  }

  lemma RangesAhead(b: Text, d: Dialect)
    ensures Ranges(b, d) == RangesFrom(b, d, Ahead(First, 0))
  {
    hide RangesFrom;
  }

  /**
   * A routine is one statement, and the text after its `;` splits exactly as it would on
   * its own, if and only if the scanner opens every one of its blocks.
   */
  lemma RoutineExactly(d: Dialect, verb: Text, kindWord: Text, header: Text, body: Body, rest: Text)
    requires RoutineCalm(verb, kindWord, header, body, d)
    ensures var r := Routine(verb, kindWord, header, body);
            var b := r + [SEMI] + rest;
            Ranges(b, d) == [Range(0, |r|)] + ShiftRanges(Ranges(rest, d), |r| + 1) <==>
            MissedBody(b, BodyStart(verb, kindWord, header), body, d) == 0
  {
    hide Routine, RangesFrom, Ranges, RoutineCalm, MissedBody, BodyStart;
    var r := Routine(verb, kindWord, header, body);
    var b := r + [SEMI] + rest;
    assert StartsWithAt(b, 0, r) && b[|r|] == SEMI && b[|r| + 1..] == rest;
    RangesAhead(b, d);
    RoutineRuns(First, b, d, 0, verb, kindWord, header, body);
    FirstStatement(b, d, Inside(First, |r|, 0));
  }

  /** A routine with any well-nested body whose conditions are bare or balanced is one statement. */
  lemma RoutineIsOneStatement(d: Dialect, verb: Text, kindWord: Text, header: Text, body: Body, rest: Text)
    requires RoutineCalm(verb, kindWord, header, body, d) && BodyOk(body, d)
    ensures var r := Routine(verb, kindWord, header, body);
            Ranges(r + [SEMI] + rest, d) == [Range(0, |r|)] + ShiftRanges(Ranges(rest, d), |r| + 1)
  {
    hide Ranges, RoutineCalm, MissedBody, BodyOk, Opener, Closer, PrintBody, StartsWithAt;
    var r := Routine(verb, kindWord, header, body);
    var b := r + [SEMI] + rest;
    RoutineStarts(r, rest);
    SplitRoutine(b, 0, verb, kindWord, header, body);
    var o := |verb| + |kindWord| + |header| + 3;
    StartsWithSplit(b, o, Opener(Begin, []), PrintBody(body) + Closer(Begin));
    StartsWithSplit(b, o + |Opener(Begin, [])|, PrintBody(body), Closer(Begin));
    BodyTaken(b, d, o + |Opener(Begin, [])|, body);
    RoutineExactly(d, verb, kindWord, header, body, rest);
  }

  lemma RoutineStarts(r: Text, rest: Text)
    ensures StartsWithAt(r + [SEMI] + rest, 0, r)
  {
  }
}
