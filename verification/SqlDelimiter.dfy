/**
 * Whole scripts under the splitter of crates/red-core/src/sql.rs: statements written token by
 * token, stored routines, and `DELIMITER` lines that change what separates them.
 */
module SqlDelimiter {
  import opened Bytes
  import opened Wrappers
  import opened SqlLexer
  import opened SqlSplit
  import opened SqlStrip
  import opened SqlLocal
  import opened SqlCalm
  import opened SqlBlocks
  import opened SqlTokens

  // ----- scripts -----

  datatype Entry =
    | Plain(ts: seq<Token>)                                             // a statement
    | Stored(verb: Text, kindWord: Text, header: Text, body: Body)      // a stored routine
    | Switch(word: Text, lead: Text, token: Text, tail: Text)           // `DELIMITER //`

  /** The separator after an entry: a `DELIMITER` line with no token changes nothing. */
  function Separator(e: Entry, delim: Text): Text {
    if e.Switch? && e.token != [] then e.token else delim
  }

  /** A statement without its separator. */
  function StatementText(e: Entry): Text
    requires !e.Switch?
  {
    match e
    case Plain(ts) => Print(ts)
    case Stored(verb, kindWord, header, body) => Routine(verb, kindWord, header, body)
  }

  function EntryText(e: Entry, delim: Text): Text {
    if e.Switch? then e.word + (e.lead + e.token + e.tail + [NEWLINE])
    else StatementText(e) + (delim + [SPACE])
  }

  /** A script whose first separator is `delim`; its last statement, `last`, has none. */
  function Script(es: seq<Entry>, last: seq<Token>, delim: Text): Text {
    if es == [] then Print(last) else EntryText(es[0], delim) + Script(es[1..], last, Separator(es[0], delim))
  }

  /**
   * What the script is to split into: every statement up to its own separator, `DELIMITER` lines
   * left out, and whatever follows the last separator. The text since `start` is still pending
   * at `at`.
   */
  function Expected(es: seq<Entry>, last: seq<Token>, delim: Text, start: nat, at: nat): seq<Range> {
    if es == [] then [Range(start, at + |Print(last)|)]
    else if es[0].Switch? then
      var next := at + |EntryText(es[0], delim)|;
      Expected(es[1..], last, Separator(es[0], delim), next, next)
    else
      var hi := at + |StatementText(es[0])|;
      [Range(start, hi)] + Expected(es[1..], last, delim, hi + |delim|, hi + |delim| + 1)
  }

  // ----- what an entry may hold -----

  /** Tokens that leave the scanner at the head of a statement. */
  predicate Quiet(t: Token) {
    t.DashLine? || t.HashLine? || t.Flat? || t.Nest? || t.Exec? || (t.Symbol? && IsSpace(t.c))
  }

  /** At the head of a statement: no directive, no DDL. */
  predicate HeadOk(t: Token) {
    t.Word? ==> !Spells(t.w, "delimiter") && !Spells(t.w, "create") && !Spells(t.w, "alter") && !Spells(t.w, "drop")
  }

  predicate Structures(w: Text) {
    || Spells(w, "table") || Spells(w, "view") || Spells(w, "index") || Spells(w, "database")
    || Spells(w, "schema") || Spells(w, "sequence") || Spells(w, "user") || Spells(w, "role")
  }

  /** DDL on a structure: `CREATE TABLE` and the like. */
  predicate StructureHead(ts: seq<Token>) {
    |ts| >= 2 && ts[0].Word? && ts[1].Word? && !Spells(ts[0].w, "delimiter") && Structures(ts[1].w)
  }

  /** The first token that is not whitespace or a comment leads no directive and no routine. */
  predicate HeadsOk(ts: seq<Token>) {
    ts == [] || if Quiet(ts[0]) then HeadsOk(ts[1..]) else HeadOk(ts[0]) || StructureHead(ts)
  }

  /** At how many of its first bytes a token may start a lexeme. */
  function Lexemes(t: Token): nat {
    if t.DoubleDash? then 3 else if t.Prefixed? then |t.w| + 1 else 1
  }

  /**
   * With `next` behind it, no lexeme of `ts` starts with the separator; inside literals and
   * comments it may stand.
   */
  ghost predicate Apart(ts: seq<Token>, next: Text, delim: Text) {
    ts == [] ||
    (&& (forall k :: 0 <= k < Lexemes(ts[0]) ==> !StartsWithAt(Print(ts) + next, k, delim))
     && Apart(ts[1..], next, delim))
  }

  /** A statement of tokens, with `next` behind it. */
  ghost predicate TokensOk(ts: seq<Token>, next: Text, delim: Text, d: Dialect) {
    (forall k :: 0 <= k < |ts| ==> TokenOk(ts[k], d)) && HeadsOk(ts) && Apart(ts, next, delim)
  }

  /** A separator: not empty, no whitespace. */
  predicate Separates(delim: Text) {
    delim != [] && forall k :: 0 <= k < |delim| ==> !IsSpace(delim[k])
  }

  ghost predicate EntryOk(e: Entry, delim: Text, d: Dialect) {
    match e
    case Plain(ts) => TokensOk(ts, delim, delim, d)
    case Stored(verb, kindWord, header, body) =>
      && RoutineCalm(verb, kindWord, header, body, d) && BodyOk(body, d) && delim != [] && !IsWordByte(delim[0])
      && (delim == [SEMI] || forall k :: 0 <= k < |verb| + |kindWord| + |header| + 4 ==> !StartsWithAt(StatementText(e) + delim, k, delim))
    case Switch(word, lead, token, tail) =>
      && IsWord(word) && Spells(word, "delimiter") && !StartsWithAt(EntryText(e, delim), 0, delim)
      && (forall k :: 0 <= k < |lead| ==> IsSpace(lead[k])) && NEWLINE !in lead && NEWLINE !in tail
      && (token == [] || (Separates(token) && (lead == [] ==> !IsWordByte(token[0]))))
      && (if token == [] then tail == [] else tail == [] || IsSpace(tail[0]))
  }

  ghost predicate ScriptOk(es: seq<Entry>, last: seq<Token>, delim: Text, d: Dialect) {
    && Separates(delim)
    && (if es == [] then TokensOk(last, [], delim, d)
        else EntryOk(es[0], delim, d) && ScriptOk(es[1..], last, Separator(es[0], delim), d))
  }

  // ----- single steps of the scanner -----

  /** Outside any routine body. */
  function Mid(c: Site, i: nat, head: bool): State {
    State(i, c.start, 0, false, head, c.delim)
  }

  lemma StepByte(c: Site, b: Text, d: Dialect, p: nat, head: bool)
    requires p < |b| && !IsWordByte(b[p]) && c.delim != [] && !StartsWithAt(b, p, c.delim)
    ensures RangesFrom(b, d, Mid(c, p, head)) ==
            RangesFrom(b, d, Mid(c, LexemeEnd(b, p, d), head && (CommentAt(b, p, d) || IsSpace(b[p]))))
  {
    hide RangesFrom, LexemeEnd, StartsWithAt;
    Unroll(b, d, Mid(c, p, head));
  }

  lemma StepWord(c: Site, b: Text, d: Dialect, p: nat, head: bool, w: Text)
    requires StartsWithAt(b, p, w) && IsWord(w) && p + |w| < |b| && !IsWordByte(b[p + |w|])
    requires head ==> !Spells(w, "delimiter") && !RoutineDdlAt(b, p)
    requires c.delim != [] && !StartsWithAt(b, p, c.delim)
    ensures RangesFrom(b, d, Mid(c, p, head)) == RangesFrom(b, d, Mid(c, p + |w|, false))
  {
    hide RangesFrom, Spells, IsWord, WordEnd, RoutineDdlAt, OpensBlock, RestOfLine;
    WordPlaced(b, p, w);
    Unroll(b, d, Mid(c, p, head));
    assert Lex(b, d, Mid(c, p, head)) == Mid(c, p + |w|, false);
  }

  /** A statement that does not lead with CREATE, ALTER or DROP is no routine. */
  lemma OtherVerb(b: Text, p: nat, w: Text)
    requires StartsWithAt(b, p, w) && IsWord(w) && p + |w| < |b| && !IsWordByte(b[p + |w|]) && HeadOk(Word(w))
    ensures !RoutineDdlAt(b, p)
  {
    hide Spells, IsWord, NamesRoutine, NextWord, StartsWithAt;
    VerbIs(b, p, w);
  }

  lemma SecondWord(b: Text, q: nat, x: Text)
    requires q < |b| && b[q] == SPACE && StartsWithAt(b, q + 1, x) && IsWord(x) && q + 1 + |x| < |b| && !IsWordByte(b[q + 1 + |x|])
    ensures HeaderWord(b, q) == Some(WordAt(x, q + 1 + |x|))
  {
    hide IsWord, WordEnd;
    WordPlaced(b, q + 1, x);
  }

  lemma VerbIs(b: Text, p: nat, w: Text)
    requires StartsWithAt(b, p, w) && IsWord(w) && p + |w| < |b| && !IsWordByte(b[p + |w|])
    ensures NextWord(b, p) == Some(WordAt(w, p + |w|))
  {
    hide IsWord, WordEnd;
    WordPlaced(b, p, w);
    assert SpaceEnd(b, p) == p;
  }

  /** Nor is one whose second word names a structure. */
  lemma StructureVerb(b: Text, p: nat, w: Text, x: Text)
    requires StartsWithAt(b, p, w) && IsWord(w) && p + |w| < |b| && b[p + |w|] == SPACE
    requires StartsWithAt(b, p + |w| + 1, x) && IsWord(x) && p + |w| + 1 + |x| < |b| && !IsWordByte(b[p + |w| + 1 + |x|]) && Structures(x)
    ensures !RoutineDdlAt(b, p)
  {
    hide Spells, IsWord, IsRoutineKind, IsStructuralKind, NamesRoutine, Structures, NextWord, HeaderWord, StartsWithAt;
    StructuralOnly(x);
    VerbIs(b, p, w);
    SecondWord(b, p + |w|, x);
    StructureStops(b, p + |w|, x);
  }

  lemma {:induction false} StructureStops(b: Text, at: nat, x: Text)
    requires at <= |b| && HeaderWord(b, at).Some? && HeaderWord(b, at).value.text == x && IsStructuralKind(x) && !IsRoutineKind(x)
    ensures !NamesRoutine(b, at, HEADER_WORDS)
  {
    hide IsStructuralKind, IsRoutineKind, HeaderWord;
  }

  lemma StructuralOnly(x: Text)
    requires Structures(x)
    ensures IsStructuralKind(x) && !IsRoutineKind(x)
  {
    hide Lower;
    var c := Lower(x[0]) as int;
    assert c == 't' as int || c == 'v' as int || c == 'i' as int || c == 'd' as int || c == 's' as int || c == 'u' as int || c == 'r' as int;
  }

  /** What the stripper blanks as one lexeme the splitter passes as one. */
  lemma LexemeIsNoise(b: Text, p: nat, d: Dialect)
    requires p < |b| && !IsWordByte(b[p])
    ensures LexemeEnd(b, p, d) == match NoiseEnd(b, p, |b|, d) case Some(e) => e case None => p + 1
  {
  }

  lemma NotSeparator(b: Text, p: nat, delim: Text)
    requires Separates(delim) && p < |b| && IsSpace(b[p])
    ensures !StartsWithAt(b, p, delim)
  {
    if StartsWithAt(b, p, delim) {
      StartsWithByte(b, p, delim, 0);
      assert false;
    }
  }

  /** A space or newline ends nothing and changes nothing. */
  lemma StepSpace(c: Site, b: Text, d: Dialect, p: nat, head: bool)
    requires p < |b| && IsSpace(b[p]) && Separates(c.delim)
    ensures RangesFrom(b, d, Mid(c, p, head)) == RangesFrom(b, d, Mid(c, p + 1, head))
  {
    hide RangesFrom, StartsWithAt;
    NotSeparator(b, p, c.delim);
    StepByte(c, b, d, p, head);
    assert LexemeEnd(b, p, d) == p + 1;
  }

  // ----- one token -----

  /** The separator does not start where the token's lexemes do. */
  ghost predicate Misses(b: Text, p: nat, t: Token, delim: Text) {
    forall j :: p <= j < p + Lexemes(t) ==> !StartsWithAt(b, j, delim)
  }

  lemma MissesAt(b: Text, p: nat, t: Token, delim: Text, k: nat)
    requires Misses(b, p, t, delim) && k < Lexemes(t)
    ensures !StartsWithAt(b, p + k, delim)
  {
  }

  lemma NoiseComment(b: Text, p: nat, t: Token, d: Dialect)
    requires IsNoise(t) && TokenOk(t, d) && Placed(b, p, t)
    ensures (CommentAt(b, p, d) || IsSpace(b[p])) == Quiet(t)
  {
    hide StartsWithAt, FreeOf, DollarEnd, LineEnd, TokenOk, Written, Placed, QuotedEnd, BlockEnd;
    if t.Quote? {
      PlacedQuote(b, p, t, d);
    } else if t.DashLine? || t.HashLine? {
      PlacedLine(b, p, t, d);
    } else if t.Flat? || t.Nest? {
      PlacedBlock(b, p, t, d);
    } else {
      PlacedDollar(b, p, t, d);
    }
  }

  lemma NoiseGlides(c: Site, b: Text, d: Dialect, p: nat, t: Token, head: bool)
    requires IsNoise(t) && TokenOk(t, d) && Placed(b, p, t) && Separates(c.delim) && Misses(b, p, t, c.delim)
    ensures RangesFrom(b, d, Mid(c, p, head)) == RangesFrom(b, d, Mid(c, p + |Written(t)|, head && Quiet(t)))
  {
    hide RangesFrom, StartsWithAt, TokenOk, Written, NoiseEnd, LexemeEnd, CommentAt, Placed;
    PlacedSize(b, p, t);
    MissesAt(b, p, t, c.delim, 0);
    NoiseToken(b, p, t, d, |b|);
    NoiseComment(b, p, t, d);
    LexemeIsNoise(b, p, d);
    StepByte(c, b, d, p, head);
    if t.DashLine? || t.HashLine? {
      PlacedLine(b, p, t, d);
      StepSpace(c, b, d, p + LexemeSize(t), head && Quiet(t));
    }
  }

  lemma SymbolGlides(c: Site, b: Text, d: Dialect, p: nat, t: Token, head: bool)
    requires t.Symbol? && TokenOk(t, d) && Placed(b, p, t) && Separates(c.delim) && Misses(b, p, t, c.delim)
    ensures RangesFrom(b, d, Mid(c, p, head)) == RangesFrom(b, d, Mid(c, p + |Written(t)|, head && Quiet(t)))
  {
    hide RangesFrom, StartsWithAt, NoiseEnd, LexemeEnd;
    PlacedSize(b, p, t);
    MissesAt(b, p, t, c.delim, 0);
    SymbolIsPlain(b, p, t.c, d, |b|);
    LexemeIsNoise(b, p, d);
    StepByte(c, b, d, p, head);
    NoComment(b, p, d);
  }

  lemma NoComment(b: Text, p: nat, d: Dialect)
    requires p < |b| && NoiseEnd(b, p, |b|, d) == None
    ensures !CommentAt(b, p, d)
  {
  }

  lemma DashesGlide(c: Site, b: Text, d: Dialect, p: nat, t: Token, head: bool)
    requires t.DoubleDash? && TokenOk(t, d) && Placed(b, p, t) && Separates(c.delim) && Misses(b, p, t, c.delim)
    ensures RangesFrom(b, d, Mid(c, p, head)) == RangesFrom(b, d, Mid(c, p + |Written(t)|, head && Quiet(t)))
  {
    hide RangesFrom, StartsWithAt, NoiseEnd, LexemeEnd;
    PlacedSize(b, p, t);
    DashesArePlain(b, p, t.c, d, |b|);
    MissesAt(b, p, t, c.delim, 0);
    MissesAt(b, p, t, c.delim, 1);
    MissesAt(b, p, t, c.delim, 2);
    LexemeIsNoise(b, p, d);
    LexemeIsNoise(b, p + 1, d);
    StepByte(c, b, d, p, head);
    NoComment(b, p, d);
    StepByte(c, b, d, p + 1, false);
    StepByte(c, b, d, p + 2, false);
    PlainLexeme(b, p + 2, d);
  }

  lemma PlainLexeme(b: Text, p: nat, d: Dialect)
    requires p < |b| && IsPlain(b[p]) && !IsWordByte(b[p])
    ensures LexemeEnd(b, p, d) == p + 1
  {
  }

  lemma PrefixedGlides(c: Site, b: Text, d: Dialect, p: nat, t: Token, head: bool)
    requires t.Prefixed? && TokenOk(t, d) && Placed(b, p, t) && Separates(c.delim) && Misses(b, p, t, c.delim)
    ensures RangesFrom(b, d, Mid(c, p, head)) == RangesFrom(b, d, Mid(c, p + |Written(t)|, head && Quiet(t)))
  {
    hide RangesFrom, StartsWithAt, TokenOk, Written, NoiseEnd, LexemeEnd, Placed, QuotedEnd, Spells, RoutineDdlAt, IsWord;
    var o := p + |t.w|;
    PrefixedEnds(b, p, t, d);
    MissesAt(b, p, t, c.delim, 0);
    MissesAt(b, p, t, c.delim, |t.w|);
    OtherVerb(b, p, t.w);
    StepWord(c, b, d, p, head, t.w);
    StepByte(c, b, d, o, false);
    PlacedSize(b, p, t);
    QuoteIsNoise(b, o, |b|, d);
    LexemeIsNoise(b, o, d);
  }

  lemma ExecGlides(c: Site, b: Text, d: Dialect, p: nat, t: Token, head: bool)
    requires t.Exec? && TokenOk(t, d) && Placed(b, p, t) && Separates(c.delim) && Misses(b, p, t, c.delim)
    ensures RangesFrom(b, d, Mid(c, p, head)) == RangesFrom(b, d, Mid(c, p + |Written(t)|, head && Quiet(t)))
  {
    hide RangesFrom, StartsWithAt, TokenOk, Written, LexemeEnd, Placed, BlockEnd, ExecSpanAt;
    PlacedSize(b, p, t);
    ExecPlaced(b, p, t, d, |b|);
    MissesAt(b, p, t, c.delim, 0);
    StepByte(c, b, d, p, head);
    BlockLexeme(b, p, d);
  }

  lemma BlockLexeme(b: Text, p: nat, d: Dialect)
    requires BlockCommentAt(b, p)
    ensures LexemeEnd(b, p, d) == BlockEnd(b, p, d)
  {
  }

  lemma TokenGlides(c: Site, b: Text, d: Dialect, p: nat, t: Token, head: bool)
    requires TokenOk(t, d) && Placed(b, p, t) && Separates(c.delim) && Misses(b, p, t, c.delim)
    requires head && t.Word? ==> p <= |b| && !Spells(t.w, "delimiter") && !RoutineDdlAt(b, p)
    ensures p + |Written(t)| < |b|
    ensures RangesFrom(b, d, Mid(c, p, head)) == RangesFrom(b, d, Mid(c, p + |Written(t)|, head && Quiet(t)))
  {
    hide RangesFrom, StartsWithAt, Spells, RoutineDdlAt;
    PlacedSize(b, p, t);
    match t
    case Word(w) =>
      MissesAt(b, p, t, c.delim, 0);
      StepWord(c, b, d, p, head, w);
    case Symbol(_) => SymbolGlides(c, b, d, p, t, head);
    case DoubleDash(_) => DashesGlide(c, b, d, p, t, head);
    case Prefixed(_, _, _) => PrefixedGlides(c, b, d, p, t, head);
    case Exec(_, _) => ExecGlides(c, b, d, p, t, head);
    case _ => NoiseGlides(c, b, d, p, t, head);
  }

  // ----- one statement -----

  /** Whether a statement of these tokens still awaits its first word. */
  predicate AllQuiet(ts: seq<Token>) {
    forall k :: 0 <= k < |ts| ==> Quiet(ts[k])
  }

  lemma ApartStep(b: Text, p: nat, ts: seq<Token>, next: Text, delim: Text)
    requires ts != [] && Apart(ts, next, delim) && StartsWithAt(b, p, Print(ts) + next)
    requires next == delim || p + |Print(ts) + next| == |b|
    ensures Misses(b, p, ts[0], delim) && Apart(ts[1..], next, delim)
  {
    hide StartsWithAt, Print;
    LexemesInside(ts);
    forall j | p <= j < p + Lexemes(ts[0]) ensures !StartsWithAt(b, j, delim) {
      assert !StartsWithAt(Print(ts) + next, j - p, delim);
      if j - p + |delim| <= |Print(ts) + next| {
        StandsInside(b, p, Print(ts) + next, j - p, delim);
      } else if StartsWithAt(b, j, delim) {
        BoundsAt(b, j, delim);
        assert false;
      }
    }
  }

  lemma LexemesInside(ts: seq<Token>)
    requires ts != []
    ensures Lexemes(ts[0]) <= |Print(ts)|
  {
    PrintStep(ts);
  }

  lemma {:induction false} TokensGlide(c: Site, b: Text, d: Dialect, p: nat, ts: seq<Token>, next: Text, head: bool)
    requires (forall k :: 0 <= k < |ts| ==> TokenOk(ts[k], d)) && Apart(ts, next, c.delim) && (head ==> HeadsOk(ts))
    requires Separates(c.delim) && StartsWithAt(b, p, Print(ts) + next) && CleanAt(b, p)
    requires next == c.delim || p + |Print(ts) + next| == |b|
    ensures p + |Print(ts)| + |next| <= |b|
    ensures RangesFrom(b, d, Mid(c, p, head)) == RangesFrom(b, d, Mid(c, p + |Print(ts)|, head && AllQuiet(ts)))
    decreases ts
  {
    hide RangesFrom, StartsWithAt, TokenOk, Written, Print, Quiet, HeadOk, StructureHead, Separates, Apart, Misses, RoutineDdlAt, Spells;
    PrintStep(ts);
    BoundsAt(b, p, Print(ts) + next);
    if ts != [] {
      var t, rest := ts[0], Print(ts[1..]);
      var q := p + |Written(t)|;
      ApartStep(b, p, ts, next, c.delim);
      Regroup(Written(t), [SPACE], rest, next);
      StartsWithSplit(b, p, Written(t), [SPACE] + (rest + next));
      StartsWithSplit(b, q, [SPACE], rest + next);
      if head && t.Word? {
        HeadRead(b, p, ts, next, d);
      }
      TokenGlides(c, b, d, p, t, head);
      StartsWithByte(b, q, [SPACE], 0);
      StepSpace(c, b, d, q, head && Quiet(t));
      TokensGlide(c, b, d, q + 1, ts[1..], next, head && Quiet(t));
      QuietStep(ts);
    }
  }

  /** The first word of a statement is no directive and declares no routine. */
  lemma HeadRead(b: Text, p: nat, ts: seq<Token>, next: Text, d: Dialect)
    requires ts != [] && ts[0].Word? && HeadsOk(ts) && (forall k :: 0 <= k < |ts| ==> TokenOk(ts[k], d))
    requires StartsWithAt(b, p, Print(ts) + next)
    ensures p <= |b| && !Spells(ts[0].w, "delimiter") && !RoutineDdlAt(b, p)
  {
    hide StartsWithAt, RoutineDdlAt, Spells, Structures, Print, IsWord;
    var w := ts[0].w;
    StartsWithSplit(b, p, Print(ts), next);
    PrintStep(ts);
    StartsWithSplit(b, p, w + [SPACE], Print(ts[1..]));
    StartsWithSplit(b, p, w, [SPACE]);
    StartsWithByte(b, p + |w|, [SPACE], 0);
    if HeadOk(ts[0]) {
      OtherVerb(b, p, w);
    } else {
      var x := ts[1].w;
      PrintStep(ts[1..]);
      StartsWithSplit(b, p + |w| + 1, x + [SPACE], Print(ts[1..][1..]));
      StartsWithSplit(b, p + |w| + 1, x, [SPACE]);
      StartsWithByte(b, p + |w| + 1 + |x|, [SPACE], 0);
      StructureVerb(b, p, w, x);
    }
  }

  lemma QuietStep(ts: seq<Token>)
    requires ts != []
    ensures AllQuiet(ts) == (Quiet(ts[0]) && AllQuiet(ts[1..]))
  {
    hide Quiet;
    if Quiet(ts[0]) && AllQuiet(ts[1..]) {
      forall k | 0 <= k < |ts| ensures Quiet(ts[k]) {
        assert k > 0 ==> ts[k] == ts[1..][k - 1];
      }
    }
    if AllQuiet(ts) {
      forall k | 0 <= k < |ts[1..]| ensures Quiet(ts[1..][k]) {
        assert ts[1..][k] == ts[k + 1];
      }
    }
  }

  /** A separator ends the statement, whatever came before it. */
  lemma Cuts(c: Site, b: Text, d: Dialect, s: State)
    requires s.start == c.start && s.delim == c.delim && s.depth == 0 && Separates(c.delim)
    requires StartsWithAt(b, s.i, c.delim + [SPACE])
    ensures s.i + |c.delim| + 1 <= |b|
    ensures var e := s.i + |c.delim|;
            RangesFrom(b, d, s) == [Range(c.start, s.i)] + RangesFrom(b, d, Ahead(Site(e, c.delim), e + 1))
  {
    hide RangesFrom, StartsWithAt;
    var e := s.i + |c.delim|;
    StartsWithSplit(b, s.i, c.delim, [SPACE]);
    StartsWithByte(b, e, [SPACE], 0);
    Unroll(b, d, s);
    assert AfterBreak(s) == Mid(Site(e, c.delim), e, true);
    StepSpace(Site(e, c.delim), b, d, e, true);
  }

  lemma PlainRuns(c: Site, b: Text, d: Dialect, p: nat, ts: seq<Token>)
    requires EntryOk(Plain(ts), c.delim, d) && Separates(c.delim) && CleanAt(b, p)
    requires StartsWithAt(b, p, Print(ts) + (c.delim + [SPACE]))
    ensures var hi := p + |Print(ts)|; var e := hi + |c.delim|;
            && e + 1 <= |b|
            && RangesFrom(b, d, Ahead(c, p)) == [Range(c.start, hi)] + RangesFrom(b, d, Ahead(Site(e, c.delim), e + 1))
  {
    hide RangesFrom, StartsWithAt, TokenOk, Print, Apart, Separates;
    Assoc(Print(ts), c.delim, [SPACE]);
    StartsWithSplit(b, p, Print(ts) + c.delim, [SPACE]);
    StartsWithSplit(b, p, Print(ts), c.delim + [SPACE]);
    TokensGlide(c, b, d, p, ts, c.delim, true);
    Cuts(c, b, d, Mid(c, p + |Print(ts)|, AllQuiet(ts)));
  }

  lemma StoredClear(c: Site, b: Text, d: Dialect, p: nat, e: Entry)
    requires e.Stored? && EntryOk(e, c.delim, d) && Separates(c.delim) && StartsWithAt(b, p, StatementText(e) + c.delim)
    ensures Clear(c, b, p, p + |e.verb| + |e.kindWord| + |e.header| + 4)
  {
    hide StartsWithAt, RoutineCalm, BodyOk;
    var n := |e.verb| + |e.kindWord| + |e.header| + 4;
    if c.delim != [SEMI] {
      forall k | p <= k < p + n ensures !StartsWithAt(b, k, c.delim) {
        assert !StartsWithAt(StatementText(e) + c.delim, k - p, c.delim);
        HeaderSize(e);
        StandsInside(b, p, StatementText(e) + c.delim, k - p, c.delim);
      }
    }
  }

  lemma HeaderSize(e: Entry)
    requires e.Stored?
    ensures |e.verb| + |e.kindWord| + |e.header| + 4 <= |StatementText(e)|
  {
    hide PrintBody, Closer;
  }

  lemma StoredTaken(b: Text, d: Dialect, p: nat, e: Entry)
    requires e.Stored? && BodyOk(e.body, d) && StartsWithAt(b, p, StatementText(e))
    ensures MissedBody(b, p + BodyStart(e.verb, e.kindWord, e.header), e.body, d) == 0
  {
    hide StartsWithAt, BodyOk, Opener, Closer, PrintBody, MissedBody;
    SplitRoutine(b, p, e.verb, e.kindWord, e.header, e.body);
    var o := p + |e.verb| + |e.kindWord| + |e.header| + 3;
    StartsWithSplit(b, o, Opener(Begin, []), PrintBody(e.body) + Closer(Begin));
    StartsWithSplit(b, o + |Opener(Begin, [])|, PrintBody(e.body), Closer(Begin));
    BodyTaken(b, d, o + |Opener(Begin, [])|, e.body);
  }

  lemma StoredRuns(c: Site, b: Text, d: Dialect, p: nat, e: Entry)
    requires e.Stored? && EntryOk(e, c.delim, d) && Separates(c.delim) && CleanAt(b, p)
    requires StartsWithAt(b, p, StatementText(e) + (c.delim + [SPACE]))
    ensures var hi := p + |StatementText(e)|; var x := hi + |c.delim|;
            && x + 1 <= |b|
            && RangesFrom(b, d, Ahead(c, p)) == [Range(c.start, hi)] + RangesFrom(b, d, Ahead(Site(x, c.delim), x + 1))
  {
    hide RangesFrom, StartsWithAt, RoutineCalm, BodyOk, Routine, BodyStart, MissedBody, Clear;
    var t := StatementText(e);
    var hi := p + |t|;
    Assoc(t, c.delim, [SPACE]);
    StartsWithSplit(b, p, t + c.delim, [SPACE]);
    StartsWithSplit(b, p, t, c.delim + [SPACE]);
    StartsWithSplit(b, hi, c.delim, [SPACE]);
    StartsWithByte(b, hi, c.delim, 0);
    StoredClear(c, b, d, p, e);
    StoredTaken(b, d, p, e);
    RoutineRuns(c, b, d, p, e.verb, e.kindWord, e.header, e.body);
    Cuts(c, b, d, Inside(c, hi, 0));
  }

  // ----- directives -----

  lemma {:induction false} SpaceSpan(t: Text, i: nat, n: nat)
    requires i <= n <= |t| && (forall k :: i <= k < n ==> IsSpace(t[k])) && (n < |t| ==> !IsSpace(t[n]))
    ensures SpaceEnd(t, i) == n
    decreases n - i
  {
    if i < n {
      SpaceSpan(t, i + 1, n);
    }
  }

  lemma {:induction false} NonSpaceSpan(t: Text, i: nat, n: nat)
    requires i <= n <= |t| && (forall k :: i <= k < n ==> !IsSpace(t[k])) && (n < |t| ==> IsSpace(t[n]))
    ensures NonSpaceEnd(t, i) == n
    decreases n - i
  {
    if i < n {
      NonSpaceSpan(t, i + 1, n);
    }
  }

  /** What a `DELIMITER` line says. */
  lemma LineReads(b: Text, from: nat, lead: Text, token: Text, tail: Text)
    requires StartsWithAt(b, from, lead + token + tail + [NEWLINE])
    requires (forall k :: 0 <= k < |lead| ==> IsSpace(lead[k])) && NEWLINE !in lead + token + tail
    requires (forall k :: 0 <= k < |token| ==> !IsSpace(token[k]))
    requires if token == [] then tail == [] else tail == [] || IsSpace(tail[0])
    ensures RestOfLine(b, from) == Directive(token, from + |lead + token + tail| + 1)
  {
    hide StartsWithAt, LineEnd, SpaceEnd, NonSpaceEnd;
    var line := lead + token + tail;
    LineSpan(b, from, line);
    StartsWithSplit(b, from, line, [NEWLINE]);
    StartsWithSlice(b, from, line);
    BoundsAt(b, from + |line|, [NEWLINE]);
    var n := |lead| + |token|;
    assert forall k :: |lead| <= k < n ==> line[k] == token[k - |lead|];
    assert n < |line| ==> line[n] == tail[0];
    SpaceSpan(line, 0, |lead|);
    NonSpaceSpan(line, |lead|, n);
    assert line[|lead|..n] == token;
  }

  lemma NoNewline(e: Entry, delim: Text, d: Dialect)
    requires e.Switch? && EntryOk(e, delim, d)
    ensures NEWLINE !in e.lead + e.token + e.tail
  {
    var line := e.lead + e.token + e.tail;
    forall k | 0 <= k < |line| ensures line[k] != NEWLINE {
      if |e.lead| <= k < |e.lead| + |e.token| {
        assert line[k] == e.token[k - |e.lead|];
      }
    }
  }

  lemma SwitchWordEnds(b: Text, p: nat, e: Entry, delim: Text, d: Dialect)
    requires e.Switch? && EntryOk(e, delim, d) && StartsWithAt(b, p, EntryText(e, delim))
    ensures StartsWithAt(b, p, e.word) && StartsWithAt(b, p + |e.word|, e.lead + e.token + e.tail + [NEWLINE])
    ensures p + |e.word| < |b| && !IsWordByte(b[p + |e.word|])
  {
    hide StartsWithAt, Spells, IsWord;
    var rest := e.lead + e.token + e.tail + [NEWLINE];
    StartsWithSplit(b, p, e.word, rest);
    StartsWithByte(b, p + |e.word|, rest, 0);
    if e.lead != [] {
      assert rest[0] == e.lead[0];
    } else if e.token != [] {
      assert rest[0] == e.token[0];
    }
  }

  /** A separator that starts at the directive ends within its line. */
  lemma DirectiveClear(b: Text, p: nat, e: Entry, delim: Text, d: Dialect)
    requires e.Switch? && EntryOk(e, delim, d) && Separates(delim) && StartsWithAt(b, p, EntryText(e, delim))
    ensures !StartsWithAt(b, p, delim)
  {
    hide StartsWithAt, Spells, IsWord;
    var t := EntryText(e, delim);
    if StartsWithAt(b, p, delim) {
      if |delim| <= |t| {
        StandsInside(b, p, t, 0, delim);
      } else {
        StartsWithByte(b, p, t, |t| - 1);
        StartsWithByte(b, p, delim, |t| - 1);
      }
      assert false;
    }
  }

  lemma DirectiveStep(c: Site, b: Text, d: Dialect, p: nat, w: Text, token: Text, next: nat)
    requires StartsWithAt(b, p, w) && IsWord(w) && Spells(w, "delimiter") && p + |w| < |b| && !IsWordByte(b[p + |w|])
    requires c.delim != [] && !StartsWithAt(b, p, c.delim) && RestOfLine(b, p + |w|) == Directive(token, next)
    ensures RangesFrom(b, d, Ahead(c, p)) == RangesFrom(b, d, Ahead(Site(next, if token != [] then token else c.delim), next))
  {
    hide RangesFrom, Spells, IsWord, WordEnd, RoutineDdlAt, OpensBlock, RestOfLine, NextWord;
    WordPlaced(b, p, w);
    Unroll(b, d, Ahead(c, p));
    assert Lex(b, d, Ahead(c, p)) == Ahead(Site(next, if token != [] then token else c.delim), next);
  }

  /** A directive ends nothing, yields nothing, and sets the separator. */
  lemma SwitchRuns(c: Site, b: Text, d: Dialect, p: nat, e: Entry)
    requires e.Switch? && EntryOk(e, c.delim, d) && Separates(c.delim) && StartsWithAt(b, p, EntryText(e, c.delim))
    ensures var x := p + |EntryText(e, c.delim)|;
            && x <= |b|
            && RangesFrom(b, d, Ahead(c, p)) == RangesFrom(b, d, Ahead(Site(x, Separator(e, c.delim)), x))
  {
    hide RangesFrom, Spells, IsWord, RestOfLine, StartsWithAt;
    BoundsAt(b, p, EntryText(e, c.delim));
    SwitchWordEnds(b, p, e, c.delim, d);
    NoNewline(e, c.delim, d);
    DirectiveClear(b, p, e, c.delim, d);
    LineReads(b, p + |e.word|, e.lead, e.token, e.tail);
    DirectiveStep(c, b, d, p, e.word, e.token, p + |EntryText(e, c.delim)|);
  }

  // ----- whole scripts -----

  lemma ScriptStep(es: seq<Entry>, last: seq<Token>, delim: Text)
    ensures es == [] ==> Script(es, last, delim) == Print(last)
    ensures es != [] ==> Script(es, last, delim) == EntryText(es[0], delim) + Script(es[1..], last, Separator(es[0], delim))
  {
    hide EntryText, Print;
  }

  /** Every entry ends in a space or a newline. */
  lemma EntryEnds(b: Text, p: nat, e: Entry, delim: Text)
    requires StartsWithAt(b, p, EntryText(e, delim))
    ensures CleanAt(b, p + |EntryText(e, delim)|)
  {
    hide StartsWithAt, Print, Routine;
    var t := EntryText(e, delim);
    assert t != [] && !IsWordByte(t[|t| - 1]);
    StartsWithByte(b, p, t, |t| - 1);
  }

  lemma {:induction false} ScriptRuns(b: Text, d: Dialect, es: seq<Entry>, last: seq<Token>, delim: Text, start: nat, at: nat)
    requires ScriptOk(es, last, delim, d) && StartsWithAt(b, at, Script(es, last, delim)) && CleanAt(b, at)
    requires at + |Script(es, last, delim)| == |b|
    ensures RangesFrom(b, d, Ahead(Site(start, delim), at)) == Expected(es, last, delim, start, at)
    decreases es
  {
    hide RangesFrom, StartsWithAt, EntryOk, EntryText, Script, Separates, CleanAt, TokensOk, Print;
    ScriptStep(es, last, delim);
    var c := Site(start, delim);
    if es == [] {
      LastRuns(c, b, d, at, last);
    } else {
      var e := es[0];
      StartsWithSplit(b, at, EntryText(e, delim), Script(es[1..], last, Separator(e, delim)));
      EntryRuns(c, b, d, at, e);
      EntryEnds(b, at, e, delim);
      var x := at + |EntryText(e, delim)|;
      EntrySize(e, delim);
      ScriptRuns(b, d, es[1..], last, Separator(e, delim), if e.Switch? then x else x - 1, x);
    }
  }

  /** The statement at the end of the script. */
  lemma LastRuns(c: Site, b: Text, d: Dialect, at: nat, last: seq<Token>)
    requires TokensOk(last, [], c.delim, d) && Separates(c.delim) && CleanAt(b, at)
    requires StartsWithAt(b, at, Print(last)) && at + |Print(last)| == |b|
    ensures RangesFrom(b, d, Ahead(c, at)) == [Range(c.start, |b|)]
  {
    hide RangesFrom, StartsWithAt, TokenOk, Print, Apart;
    assert Print(last) + [] == Print(last);
    TokensGlide(c, b, d, at, last, [], true);
    AtEnd(b, d, Mid(c, |b|, AllQuiet(last)));
  }

  lemma AtEnd(b: Text, d: Dialect, s: State)
    requires s.i == |b| && s.delim != []
    ensures RangesFrom(b, d, s) == [Range(s.start, |b|)]
  {
  }

  lemma EntrySize(e: Entry, delim: Text)
    ensures !e.Switch? ==> |EntryText(e, delim)| == |StatementText(e)| + |delim| + 1
  {
    hide StatementText;
  }

  lemma EntryRuns(c: Site, b: Text, d: Dialect, p: nat, e: Entry)
    requires EntryOk(e, c.delim, d) && Separates(c.delim) && CleanAt(b, p) && StartsWithAt(b, p, EntryText(e, c.delim))
    ensures var x := p + |EntryText(e, c.delim)|;
            && x <= |b|
            && RangesFrom(b, d, Ahead(c, p)) ==
               if e.Switch? then RangesFrom(b, d, Ahead(Site(x, Separator(e, c.delim)), x))
               else [Range(c.start, p + |StatementText(e)|)] + RangesFrom(b, d, Ahead(Site(x - 1, c.delim), x))
  {
    hide RangesFrom, StartsWithAt, EntryOk, Separates, CleanAt, Print, Routine;
    match e
    case Plain(ts) => PlainRuns(c, b, d, p, ts);
    case Stored(_, _, _, _) => StoredRuns(c, b, d, p, e);
    case Switch(_, _, _, _) => SwitchRuns(c, b, d, p, e);
  }

  /**
   * A script of statements and routines, each followed by the separator in force, splits exactly
   * into them: after a `DELIMITER` line only its token ends a statement, a line without one
   * changes nothing, and a separator inside a literal, a comment or a body is not one.
   */
  lemma ScriptSplitsIntoItsStatements(es: seq<Entry>, last: seq<Token>, d: Dialect)
    requires ScriptOk(es, last, [SEMI], d)
    ensures Ranges(Script(es, last, [SEMI]), d) == Expected(es, last, [SEMI], 0, 0)
  {
    hide RangesFrom, ScriptOk, Script, Expected, Ranges;
    var b := Script(es, last, [SEMI]);
    assert StartsWithAt(b, 0, b);
    RangesAhead(b, d);
    ScriptRuns(b, d, es, last, [SEMI], 0, 0);
  }

  /** A literal or comment that is never closed takes the rest of the script, separators and all. */
  lemma UnclosedIsOneStatement(last: seq<Token>, u: Text, d: Dialect)
    requires TokensOk(last, u, [SEMI], d) && OpensForGood(u, d)
    ensures Ranges(Print(last) + u, d) == [Range(0, |Print(last) + u|)]
  {
    hide RangesFrom, Ranges, TokenOk, Print, Apart, NoiseEnd, LexemeEnd, CommentAt, OpensForGood, StartsWithAt;
    var b, p := Print(last) + u, |Print(last)|;
    assert StartsWithAt(b, 0, b) by { Itself(b); }
    RangesAhead(b, d);
    TokensGlide(First, b, d, 0, last, u, true);
    PrintEnds(last);
    UnclosedNoise(b, p, u, d);
    UnclosedByte(b, p, u, d);
    LexemeIsNoise(b, p, d);
    StepByte(First, b, d, p, AllQuiet(last));
    AtEnd(b, d, Mid(First, |b|, AllQuiet(last) && (CommentAt(b, p, d) || IsSpace(b[p]))));
  }

  lemma Itself(b: Text)
    ensures StartsWithAt(b, 0, b)
  {
  }

  lemma UnclosedByte(b: Text, p: nat, u: Text, d: Dialect)
    requires OpensForGood(u, d) && Ends(b, p, u)
    ensures p < |b| && !IsWordByte(b[p]) && !StartsWithAt(b, p, [SEMI])
  {
    assert b[p + 0] == u[0];
    NoSeparatorAt(b, p);
  }
}
