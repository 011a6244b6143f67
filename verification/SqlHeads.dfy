/**
 * What the keyword rules of crates/red-core/src/sql.rs decide, read off the tokens of a script:
 * which statements are routine declarations, and which `IF` and `REPEAT` open a block.
 */
module SqlHeads {
  import opened Bytes
  import opened Wrappers
  import opened SqlLexer
  import opened SqlSplit
  import opened SqlStrip
  import opened SqlLocal
  import opened SqlCalm
  import opened SqlBlocks
  import opened SqlTokens
  import opened SqlDelimiter

  // ----- routine declarations -----

  /** A word, and what stands between it and the next: no word byte and no `(`. */
  datatype Headed = Headed(word: Text, gap: Text)

  function HeaderText(hs: seq<Headed>): Text {
    if hs == [] then [] else hs[0].word + hs[0].gap + HeaderText(hs[1..])
  }

  ghost predicate HeadedOk(h: Headed) {
    IsWord(h.word) && h.gap != [] && forall k :: 0 <= k < |h.gap| ==> !IsWordByte(h.gap[k]) && h.gap[k] != LPAREN
  }

  predicate Routines(w: Text) {
    Spells(w, "trigger") || Spells(w, "procedure") || Spells(w, "function") || Spells(w, "event")
  }

  /** One of the first `n` words names a routine, and none before it a structure. */
  ghost predicate Declares(hs: seq<Headed>, n: nat) {
    exists k :: 0 <= k < |hs| && k < n && Routines(hs[k].word) && forall j :: 0 <= j < k ==> !Structures(hs[j].word)
  }

  lemma {:induction false} GapPassed(b: Text, p: nat, gap: Text)
    requires StartsWithAt(b, p, gap) && forall k :: 0 <= k < |gap| ==> !IsWordByte(gap[k]) && gap[k] != LPAREN
    ensures p + |gap| <= |b| && HeaderWord(b, p) == HeaderWord(b, p + |gap|)
    decreases |gap|
  {
    hide StartsWithAt;
    if gap == [] {
      BoundsAt(b, p, gap);
    } else {
      assert gap == [gap[0]] + gap[1..];
      StartsWithSplit(b, p, [gap[0]], gap[1..]);
      StartsWithByte(b, p, gap, 0);
      GapPassed(b, p + 1, gap[1..]);
    }
  }

  lemma WordRead(b: Text, p: nat, w: Text)
    requires StartsWithAt(b, p, w) && IsWord(w) && p + |w| < |b| && !IsWordByte(b[p + |w|])
    ensures HeaderWord(b, p) == Some(WordAt(w, p + |w|))
  {
    WordPlaced(b, p, w);
  }

  /** The text of a header, taken apart. */
  lemma HeaderParts(b: Text, p: nat, hs: seq<Headed>)
    requires hs != [] && HeadedOk(hs[0]) && StartsWithAt(b, p, HeaderText(hs))
    ensures var q := p + |hs[0].word|;
            && StartsWithAt(b, p, hs[0].word) && q < |b| && !IsWordByte(b[q]) && StartsWithAt(b, q, hs[0].gap)
            && StartsWithAt(b, q + |hs[0].gap|, HeaderText(hs[1..])) && |HeaderText(hs)| == |hs[0].word| + |hs[0].gap| + |HeaderText(hs[1..])|
  {
    hide StartsWithAt, IsWord;
    var w, gap := hs[0].word, hs[0].gap;
    StartsWithSplit(b, p, w + gap, HeaderText(hs[1..]));
    StartsWithSplit(b, p, w, gap);
    StartsWithByte(b, p + |w|, gap, 0);
  }

  /** The header goes on for at least `n` words, or ends at a parenthesis or with the text. */
  predicate Settled(b: Text, end: nat, words: nat, n: nat) {
    words >= n || end == |b| || (end < |b| && b[end] == LPAREN)
  }

  lemma DeclaresStep(hs: seq<Headed>, n: nat)
    requires hs != [] && n > 0
    ensures Declares(hs, n) == (Routines(hs[0].word) || (!Structures(hs[0].word) && Declares(hs[1..], n - 1)))
  {
    hide Routines, Structures;
    if Routines(hs[0].word) {
      assert Declares(hs, n);
    }
    if Declares(hs, n) && !Routines(hs[0].word) {
      var k :| 0 <= k < |hs| && k < n && Routines(hs[k].word) && forall j :: 0 <= j < k ==> !Structures(hs[j].word);
      assert hs[1..][k - 1] == hs[k];
      forall j | 0 <= j < k - 1 ensures !Structures(hs[1..][j].word) {
        assert hs[1..][j] == hs[j + 1];
      }
    }
    if !Structures(hs[0].word) && Declares(hs[1..], n - 1) {
      var k :| 0 <= k < |hs[1..]| && k < n - 1 && Routines(hs[1..][k].word) && forall j :: 0 <= j < k ==> !Structures(hs[1..][j].word);
      assert hs[1..][k] == hs[k + 1];
      forall j | 0 <= j < k + 1 ensures !Structures(hs[j].word) {
        assert j > 0 ==> hs[1..][j - 1] == hs[j];
      }
      assert Routines(hs[k + 1].word);
    }
  }

  lemma SameKinds(w: Text)
    ensures IsRoutineKind(w) == Routines(w) && IsStructuralKind(w) == Structures(w)
  {
    hide Spells;
  }

  lemma {:induction false} HeaderDecides(b: Text, p: nat, hs: seq<Headed>, n: nat)
    requires (forall k :: 0 <= k < |hs| ==> HeadedOk(hs[k])) && p + |HeaderText(hs)| <= |b| && StartsWithAt(b, p, HeaderText(hs))
    requires Settled(b, p + |HeaderText(hs)|, |hs|, n)
    ensures NamesRoutine(b, p, n) == Declares(hs, n)
    decreases |hs|
  {
    hide StartsWithAt, HeaderWord, HeadedOk, Declares, IsRoutineKind, IsStructuralKind, Routines, Structures, HeaderText;
    if hs == [] || n == 0 {
      NothingDeclared(b, p, hs, n);
    } else {
      var w := hs[0].word;
      var q := p + |w|;
      HeaderParts(b, p, hs);
      WordGiven(hs[0]);
      WordRead(b, p, w);
      SameKinds(w);
      DeclaresStep(hs, n);
      if n > 1 {
        GapPassed(b, q, hs[0].gap);
        SkipGap(b, q, q + |hs[0].gap|, n - 1);
      }
      HeaderDecides(b, q + |hs[0].gap|, hs[1..], n - 1);
    }
  }

  lemma WordGiven(h: Headed)
    requires HeadedOk(h)
    ensures IsWord(h.word) && forall k :: 0 <= k < |h.gap| ==> !IsWordByte(h.gap[k]) && h.gap[k] != LPAREN
  {
  }

  lemma NothingDeclared(b: Text, p: nat, hs: seq<Headed>, n: nat)
    requires (hs == [] || n == 0) && p + |HeaderText(hs)| <= |b| && Settled(b, p + |HeaderText(hs)|, |hs|, n)
    ensures !NamesRoutine(b, p, n) && !Declares(hs, n)
  {
  }

  lemma {:induction false} SkipGap(b: Text, p: nat, q: nat, n: nat)
    requires p <= |b| && q <= |b| && HeaderWord(b, p) == HeaderWord(b, q)
    ensures NamesRoutine(b, p, n) == NamesRoutine(b, q, n)
  {
    hide HeaderWord;
  }

  /**
   * A statement is a routine declaration if and only if it leads with CREATE, ALTER or DROP and
   * one of the eight words that follow is TRIGGER, PROCEDURE, FUNCTION or EVENT, with no TABLE,
   * VIEW, INDEX, DATABASE, SCHEMA, SEQUENCE, USER or ROLE before it.
   */
  lemma RoutineHeadExactly(b: Text, p: nat, hs: seq<Headed>)
    requires hs != [] && (forall k :: 0 <= k < |hs| ==> HeadedOk(hs[k]))
    requires p + |HeaderText(hs)| <= |b| && StartsWithAt(b, p, HeaderText(hs)) && Settled(b, p + |HeaderText(hs)|, |hs|, 9)
    ensures RoutineDdlAt(b, p) <==>
            (Spells(hs[0].word, "create") || Spells(hs[0].word, "alter") || Spells(hs[0].word, "drop")) && Declares(hs[1..], 8)
  {
    hide StartsWithAt, HeaderWord, HeadedOk, Declares, HeaderText, Spells, NamesRoutine, WordEnd, SpaceEnd;
    var w := hs[0].word;
    var q := p + |w|;
    HeaderParts(b, p, hs);
    WordGiven(hs[0]);
    VerbIs(b, p, w);
    GapPassed(b, q, hs[0].gap);
    SkipGap(b, q, q + |hs[0].gap|, 8);
    HeaderDecides(b, q + |hs[0].gap|, hs[1..], 8);
  }

  // ----- IF and REPEAT -----

  /** What a search for `THEN` over some tokens comes to, with `depth` parentheses open. */
  datatype Search = Found | Stopped | Open(depth: nat)

  /** The symbol a token stands for; 0 for any other token. */
  function Mark(t: Token): Byte {
    match t
    case Symbol(c) => c
    case DoubleDash(c) => c
    case _ => 0
  }

  function Seek(ts: seq<Token>, depth: nat): Search {
    if ts == [] then Open(depth)
    else if Mark(ts[0]) == LPAREN then Seek(ts[1..], depth + 1)
    else if Mark(ts[0]) == RPAREN then Seek(ts[1..], if depth == 0 then 0 else depth - 1)
    else if Mark(ts[0]) == SEMI && depth == 0 then Stopped
    else if ts[0].Word? && depth == 0 && Spells(ts[0].w, "then") then Found
    else Seek(ts[1..], depth)
  }

  lemma {:induction false} ThenByte(b: Text, i: nat, depth: nat, d: Dialect)
    requires i < |b| && !IsWordByte(b[i]) && ThenLexemeEnd(b, i, d) == i + 1
    ensures b[i] == LPAREN ==> ThenFollows(b, i, depth, d) == ThenFollows(b, i + 1, depth + 1, d)
    ensures b[i] == RPAREN ==> ThenFollows(b, i, depth, d) == ThenFollows(b, i + 1, if depth == 0 then 0 else depth - 1, d)
    ensures b[i] == SEMI && depth == 0 ==> !ThenFollows(b, i, depth, d)
    ensures b[i] != LPAREN && b[i] != RPAREN && !(b[i] == SEMI && depth == 0) ==>
            ThenFollows(b, i, depth, d) == ThenFollows(b, i + 1, depth, d)
  {
    hide ThenLexemeEnd, Spells;
  }

  lemma {:induction false} ThenSkip(b: Text, i: nat, depth: nat, d: Dialect)
    requires i < |b| && !IsWordByte(b[i]) && b[i] != LPAREN && b[i] != RPAREN && b[i] != SEMI
    ensures ThenFollows(b, i, depth, d) == ThenFollows(b, ThenLexemeEnd(b, i, d), depth, d)
  {
    hide ThenLexemeEnd, Spells;
  }

  lemma {:induction false} ThenWord(b: Text, i: nat, depth: nat, d: Dialect, w: Text)
    requires StartsWithAt(b, i, w) && IsWord(w) && i + |w| < |b| && !IsWordByte(b[i + |w|])
    ensures ThenFollows(b, i, depth, d) == ((depth == 0 && Spells(w, "then")) || ThenFollows(b, i + |w|, depth, d))
  {
    hide Spells, StartsWithAt, IsWord;
    WordPlaced(b, i, w);
    assert ThenLexemeEnd(b, i, d) == WordEnd(b, i);
  }

  lemma ThenIsNoise(b: Text, p: nat, d: Dialect)
    requires p < |b| && !IsWordByte(b[p]) && b[p] != DOLLAR
    ensures ThenLexemeEnd(b, p, d) == match NoiseEnd(b, p, |b|, d) case Some(e) => e case None => p + 1
  {
  }

  lemma NoiseOpens(b: Text, p: nat, t: Token, d: Dialect)
    requires IsNoise(t) && !t.Dollar? && TokenOk(t, d) && Placed(b, p, t)
    ensures b[p] == SQUOTE || b[p] == DQUOTE || b[p] == BACKTICK || b[p] == DASH || b[p] == HASH || b[p] == SLASH
  {
    hide StartsWithAt, FreeOf, LineEnd, TokenOk, Written, Placed, QuotedEnd, BlockEnd;
    if t.Quote? {
      PlacedQuote(b, p, t, d);
    } else if t.DashLine? || t.HashLine? {
      PlacedLine(b, p, t, d);
    } else {
      PlacedBlock(b, p, t, d);
    }
  }

  /** A literal or a comment decides nothing. */
  lemma NoiseSought(b: Text, p: nat, t: Token, depth: nat, d: Dialect)
    requires IsNoise(t) && !t.Dollar? && TokenOk(t, d) && Placed(b, p, t)
    ensures p + |Written(t)| <= |b| && ThenFollows(b, p, depth, d) == ThenFollows(b, p + |Written(t)|, depth, d)
  {
    hide ThenFollows, ThenLexemeEnd, TokenOk, Written, NoiseEnd, Placed;
    PlacedSize(b, p, t);
    NoiseToken(b, p, t, d, |b|);
    NoiseOpens(b, p, t, d);
    ThenIsNoise(b, p, d);
    ThenSkip(b, p, depth, d);
    if t.DashLine? || t.HashLine? {
      PlacedLine(b, p, t, d);
      PlainThen(b, p + LexemeSize(t), d);
      ThenByte(b, p + LexemeSize(t), depth, d);
    }
  }

  lemma PlainThen(b: Text, p: nat, d: Dialect)
    requires p < |b| && IsPlain(b[p]) && !IsWordByte(b[p])
    ensures ThenLexemeEnd(b, p, d) == p + 1
  {
  }

  /** One symbol, as the search reads it. */
  function Step(c: Byte, depth: nat): Search {
    if c == LPAREN then Open(depth + 1)
    else if c == RPAREN then Open(if depth == 0 then 0 else depth - 1)
    else if c == SEMI && depth == 0 then Stopped
    else Open(depth)
  }

  /** The search at `p` comes to `r`, or goes on at `q`. */
  ghost predicate ComesTo(b: Text, d: Dialect, p: nat, depth: nat, r: Search, q: nat)
    requires p <= |b| && q <= |b|
  {
    ThenFollows(b, p, depth, d) == match r case Found => true case Stopped => false case Open(k) => ThenFollows(b, q, k, d)
  }

  lemma SymbolSought(b: Text, p: nat, t: Token, depth: nat, d: Dialect)
    requires t.Symbol? && TokenOk(t, d) && Placed(b, p, t)
    ensures p + 1 <= |b| && ComesTo(b, d, p, depth, Step(t.c, depth), p + 1)
  {
    hide ThenFollows, ThenLexemeEnd, NoiseEnd, StartsWithAt;
    PlacedSize(b, p, t);
    SymbolIsPlain(b, p, t.c, d, |b|);
    if t.c == DOLLAR {
      DollarByte(b, p, d);
    } else {
      ThenIsNoise(b, p, d);
    }
    ThenByte(b, p, depth, d);
  }

  lemma DollarByte(b: Text, p: nat, d: Dialect)
    requires p < |b| && b[p] == DOLLAR
    ensures ThenLexemeEnd(b, p, d) == p + 1
  {
  }

  lemma DashesSought(b: Text, p: nat, t: Token, depth: nat, d: Dialect)
    requires t.DoubleDash? && TokenOk(t, d) && Placed(b, p, t)
    ensures p + 3 <= |b| && ComesTo(b, d, p, depth, Step(t.c, depth), p + 3)
  {
    hide ThenFollows, ThenLexemeEnd, NoiseEnd, StartsWithAt;
    PlacedSize(b, p, t);
    DashesArePlain(b, p, t.c, d, |b|);
    ThenIsNoise(b, p, d);
    ThenIsNoise(b, p + 1, d);
    PlainThen(b, p + 2, d);
    ThenByte(b, p, depth, d);
    ThenByte(b, p + 1, depth, d);
    ThenByte(b, p + 2, depth, d);
  }

  lemma PrefixedSought(b: Text, p: nat, t: Token, depth: nat, d: Dialect)
    requires t.Prefixed? && TokenOk(t, d) && Placed(b, p, t)
    ensures p + |Written(t)| <= |b| && ThenFollows(b, p, depth, d) == ThenFollows(b, p + |Written(t)|, depth, d)
  {
    hide ThenFollows, StartsWithAt, TokenOk, Written, NoiseEnd, ThenLexemeEnd, Placed, QuotedEnd, Spells, IsWord;
    var o := p + |t.w|;
    PrefixedEnds(b, p, t, d);
    ThenWord(b, p, depth, d, t.w);
    PlacedSize(b, p, t);
    QuoteIsNoise(b, o, |b|, d);
    ThenIsNoise(b, o, d);
    ThenSkip(b, o, depth, d);
  }

  lemma ExecSought(b: Text, p: nat, t: Token, depth: nat, d: Dialect)
    requires t.Exec? && TokenOk(t, d) && Placed(b, p, t)
    ensures p + |Written(t)| <= |b| && ThenFollows(b, p, depth, d) == ThenFollows(b, p + |Written(t)|, depth, d)
  {
    hide ThenFollows, StartsWithAt, TokenOk, Written, ThenLexemeEnd, Placed, BlockEnd, ExecSpanAt;
    PlacedSize(b, p, t);
    ExecPlaced(b, p, t, d, |b|);
    BlockThen(b, p, d);
    ThenSkip(b, p, depth, d);
  }

  lemma BlockThen(b: Text, p: nat, d: Dialect)
    requires BlockCommentAt(b, p)
    ensures ThenLexemeEnd(b, p, d) == BlockEnd(b, p, d)
  {
  }

  /** One token, as the search reads it. */
  function TokenStep(t: Token, depth: nat): Search {
    if t.Word? && depth == 0 && Spells(t.w, "then") then Found else Step(Mark(t), depth)
  }

  lemma TokenSought(b: Text, p: nat, t: Token, depth: nat, d: Dialect)
    requires TokenOk(t, d) && Placed(b, p, t) && !t.Dollar?
    ensures p + |Written(t)| <= |b| && ComesTo(b, d, p, depth, TokenStep(t, depth), p + |Written(t)|)
  {
    hide ThenFollows, StartsWithAt, Spells;
    PlacedSize(b, p, t);
    match t
    case Word(w) => ThenWord(b, p, depth, d, w);
    case Symbol(_) => SymbolSought(b, p, t, depth, d);
    case DoubleDash(_) => DashesSought(b, p, t, depth, d);
    case Prefixed(_, _, _) => PrefixedSought(b, p, t, depth, d);
    case Exec(_, _) => ExecSought(b, p, t, depth, d);
    case _ => NoiseSought(b, p, t, depth, d);
  }

  lemma SeekStep(ts: seq<Token>, depth: nat)
    requires ts != []
    ensures Seek(ts, depth) == match TokenStep(ts[0], depth) case Open(k) => Seek(ts[1..], k) case r => r
  {
    hide Spells;
  }

  /** The search for `THEN` over printed tokens; a `$` quote aside, which the search does not know. */
  lemma {:induction false} TokensSought(b: Text, p: nat, ts: seq<Token>, depth: nat, d: Dialect)
    requires (forall k :: 0 <= k < |ts| ==> TokenOk(ts[k], d) && !ts[k].Dollar?) && StartsWithAt(b, p, Print(ts)) && CleanAt(b, p)
    ensures p + |Print(ts)| <= |b| && ComesTo(b, d, p, depth, Seek(ts, depth), p + |Print(ts)|)
    decreases ts
  {
    hide ThenFollows, StartsWithAt, TokenOk, Written, Print, Seek, TokenStep;
    PrintStep(ts);
    BoundsAt(b, p, Print(ts));
    if ts == [] {
      assert Seek(ts, depth) == Open(depth) by { SeekNone(depth); }
    } else {
      var t, rest := ts[0], Print(ts[1..]);
      var q := p + |Written(t)|;
      StartsWithSplit(b, p, Written(t) + [SPACE], rest);
      StartsWithSplit(b, p, Written(t), [SPACE]);
      StartsWithByte(b, q, [SPACE], 0);
      TokenSought(b, p, t, depth, d);
      SeekStep(ts, depth);
      if TokenStep(t, depth).Open? {
        var k := TokenStep(t, depth).depth;
        PlainThen(b, q, d);
        ThenByte(b, q, k, d);
        TokensSought(b, q + 1, ts[1..], k, d);
      }
    }
  }

  lemma SeekNone(depth: nat)
    ensures Seek([], depth) == Open(depth)
  {
  }

  /** `EXISTS` or `NOT EXISTS` comes first. */
  predicate LeadsWithExists(ts: seq<Token>) {
    && ts != [] && ts[0].Word?
    && (|| Spells(ts[0].w, "exists")
        || (Spells(ts[0].w, "not") && |ts| > 1 && ts[1].Word? && Spells(ts[1].w, "exists")))
  }

  predicate LeadsWithParen(ts: seq<Token>) {
    ts != [] && ts[0] == Symbol(LPAREN)
  }

  /** The first two tokens are no mere whitespace. */
  predicate SolidLead(ts: seq<Token>) {
    forall k :: 0 <= k < |ts| && k < 2 && ts[k].Symbol? ==> !IsSpace(ts[k].c)
  }

  /** The first byte of a token, and whether a word stands there. */
  lemma TokenLead(b: Text, p: nat, t: Token, d: Dialect)
    requires TokenOk(t, d) && Placed(b, p, t) && (t.Symbol? ==> !IsSpace(t.c))
    ensures p < |b| && !IsSpace(b[p]) && (IsWordByte(b[p]) <==> t.Word? || t.Prefixed?)
    ensures b[p] == LPAREN <==> t == Symbol(LPAREN)
  {
    hide StartsWithAt, NoiseEnd, FreeOf, PartOk, AtomsOk, Print, PartsText, AtomsText;
    PlacedSize(b, p, t);
    StartsWithByte(b, p, Written(t), 0);
  }

  lemma NextIsWord(b: Text, q: nat, t: Token, d: Dialect)
    requires q < |b| && b[q] == SPACE && TokenOk(t, d) && Placed(b, q + 1, t) && (t.Symbol? ==> !IsSpace(t.c))
    ensures SpaceEnd(b, q) == q + 1
    ensures t.Word? ==> NextWord(b, q) == Some(WordAt(t.w, q + 1 + |t.w|))
    ensures t.Prefixed? ==> IsPrefix(t.w) && NextWord(b, q) == Some(WordAt(t.w, q + 1 + |t.w|))
    ensures !t.Word? && !t.Prefixed? ==> NextWord(b, q) == None
  {
    hide StartsWithAt, TokenOk, Written, WordEnd, Placed;
    TokenLead(b, q + 1, t, d);
    assert SpaceEnd(b, q) == q + 1;
    if t.Word? {
      PlacedWord(b, q + 1, t, d);
      SpacedWord(b, q, t.w);
    } else if t.Prefixed? {
      PrefixedEnds(b, q + 1, t, d);
      SpacedWord(b, q, t.w);
    }
  }

  lemma PlacedWord(b: Text, p: nat, t: Token, d: Dialect)
    requires t.Word? && TokenOk(t, d) && Placed(b, p, t)
    ensures StartsWithAt(b, p, t.w) && IsWord(t.w) && p + |t.w| < |b| && !IsWordByte(b[p + |t.w|]) && |Written(t)| == |t.w|
  {
    PlacedSize(b, p, t);
  }

  /** The tokens printed behind a word and its space, up to a `;`. */
  ghost predicate Behind(b: Text, from: nat, ts: seq<Token>, d: Dialect) {
    && (forall k :: 0 <= k < |ts| ==> TokenOk(ts[k], d) && !ts[k].Dollar?)
    && from < |b| && b[from] == SPACE && StartsWithAt(b, from + 1, Print(ts) + [SEMI]) && SolidLead(ts)
  }

  lemma FirstPlaced(b: Text, p: nat, ts: seq<Token>)
    requires ts != [] && StartsWithAt(b, p, Print(ts) + [SEMI]) && CleanAt(b, p)
    ensures Placed(b, p, ts[0])
    ensures StartsWithAt(b, p + |Written(ts[0])| + 1, Print(ts[1..]) + [SEMI]) && CleanAt(b, p + |Written(ts[0])| + 1)
    ensures p + |Written(ts[0])| < |b| && b[p + |Written(ts[0])|] == SPACE
  {
    hide StartsWithAt, Written, Print;
    PrintStep(ts);
    var t, rest := ts[0], Print(ts[1..]);
    Regroup(Written(t), [SPACE], rest, [SEMI]);
    StartsWithSplit(b, p, Written(t), [SPACE] + (rest + [SEMI]));
    StartsWithSplit(b, p + |Written(t)|, [SPACE], rest + [SEMI]);
    StartsWithByte(b, p + |Written(t)|, [SPACE], 0);
  }

  lemma SemiNext(b: Text, q: nat)
    requires q + 1 < |b| && b[q] == SPACE && b[q + 1] == SEMI
    ensures NextWord(b, q) == None && SpaceEnd(b, q) == q + 1
  {
  }

  lemma SemiAt(b: Text, q: nat)
    requires StartsWithAt(b, q, Print([]) + [SEMI])
    ensures q < |b| && b[q] == SEMI
  {
    StartsWithByte(b, q, [SEMI], 0);
  }

  lemma ExistsRead(b: Text, from: nat, ts: seq<Token>, d: Dialect)
    requires Behind(b, from, ts, d)
    ensures IfExistsHeader(b, from) == LeadsWithExists(ts)
    ensures SpaceEnd(b, from) == from + 1 < |b| && (b[from + 1] == LPAREN <==> LeadsWithParen(ts))
  {
    hide StartsWithAt, TokenOk, Written, Print, Placed, NextWord, Spells, CleanAt;
    assert CleanAt(b, from + 1) by { SpaceBefore(b, from); }
    if ts == [] {
      SemiAt(b, from + 1);
      SemiNext(b, from);
    } else {
      FirstPlaced(b, from + 1, ts);
      TokenLead(b, from + 1, ts[0], d);
      NextIsWord(b, from, ts[0], d);
      if ts[0].Word? && Spells(ts[0].w, "not") {
        SecondRead(b, from, ts, d);
      }
    }
  }

  lemma SpaceBefore(b: Text, from: nat)
    requires from < |b| && b[from] == SPACE
    ensures CleanAt(b, from + 1)
  {
  }

  lemma SecondRead(b: Text, from: nat, ts: seq<Token>, d: Dialect)
    requires Behind(b, from, ts, d) && ts != [] && ts[0].Word?
    ensures var e := from + 1 + |ts[0].w|;
            && e <= |b|
            && (if |ts| > 1 && ts[1].Word? then NextWord(b, e).Some? && NextWord(b, e).value.text == ts[1].w
                else NextWord(b, e).Some? ==> IsPrefix(NextWord(b, e).value.text))
  {
    hide StartsWithAt, TokenOk, Print, Placed, NextWord, Spells, CleanAt;
    assert CleanAt(b, from + 1) by { SpaceBefore(b, from); }
    FirstPlaced(b, from + 1, ts);
    var e := from + 1 + |ts[0].w|;
    if |ts| == 1 {
      assert ts[1..] == [];
      SemiAt(b, e + 1);
      SemiNext(b, e);
    } else {
      FirstPlaced(b, e + 1, ts[1..]);
      assert ts[1..][0] == ts[1];
      NextIsWord(b, e, ts[1], d);
    }
  }

  lemma FoundBehind(b: Text, from: nat, ts: seq<Token>, d: Dialect)
    requires Behind(b, from, ts, d) && (Seek(ts, 0).Open? ==> Seek(ts, 0).depth == 0)
    ensures from + 1 <= |b| && ThenFollows(b, from, 0, d) == ThenFollows(b, from + 1, 0, d) == Seek(ts, 0).Found?
  {
    hide StartsWithAt, TokenOk, Print, Seek, ThenFollows, ThenLexemeEnd;
    PlainThen(b, from, d);
    ThenByte(b, from, 0, d);
    StartsWithSplit(b, from + 1, Print(ts), [SEMI]);
    TokensSought(b, from + 1, ts, 0, d);
    var q := from + 1 + |Print(ts)|;
    StartsWithByte(b, q, [SEMI], 0);
    PlainThen(b, q, d);
    ThenByte(b, q, 0, d);
  }

  lemma IfIsKeyword(w: Text)
    requires Spells(w, "if")
    ensures IsBlockWord(w) && !Spells(w, "repeat")
  {
  }

  lemma RepeatIsKeyword(w: Text)
    requires Spells(w, "repeat")
    ensures IsBlockWord(w) && !Spells(w, "if")
  {
  }

  /**
   * `IF`, a space and the rest of a statement opens a block, unless it leads with `(` or with
   * [NOT] EXISTS and no THEN stands outside all parentheses before the statement's `;`.
   */
  lemma IfOpensExactly(b: Text, w: Text, from: nat, ts: seq<Token>, d: Dialect)
    requires Spells(w, "if") && Behind(b, from, ts, d) && (Seek(ts, 0).Open? ==> Seek(ts, 0).depth == 0)
    ensures OpensBlock(b, w, from, d) <==> (LeadsWithParen(ts) || LeadsWithExists(ts) ==> Seek(ts, 0).Found?)
  {
    hide StartsWithAt, TokenOk, Print, Seek, ThenFollows, Spells, IfExistsHeader, LeadsWithExists, LeadsWithParen, IsBlockWord, SpaceEnd;
    IfIsKeyword(w);
    ExistsRead(b, from, ts, d);
    FoundBehind(b, from, ts, d);
  }

  /** `REPEAT` and a space opens a block unless `(` follows. */
  lemma RepeatOpensExactly(b: Text, w: Text, from: nat, ts: seq<Token>, d: Dialect)
    requires Spells(w, "repeat") && Behind(b, from, ts, d)
    ensures OpensBlock(b, w, from, d) <==> !LeadsWithParen(ts)
  {
    hide StartsWithAt, TokenOk, Print, ThenFollows, Spells, IfExistsHeader, LeadsWithExists, LeadsWithParen, IsBlockWord, SpaceEnd;
    RepeatIsKeyword(w);
    ExistsRead(b, from, ts, d);
  }

  /** Called hard against its parenthesis, neither opens anything; BEGIN, CASE, LOOP and WHILE always do. */
  lemma OtherOpeners(b: Text, w: Text, from: nat, d: Dialect)
    requires from <= |b|
    ensures from < |b| && b[from] == LPAREN && (Spells(w, "if") || Spells(w, "repeat")) ==> !OpensBlock(b, w, from, d)
    ensures Spells(w, "begin") || Spells(w, "case") || Spells(w, "loop") || Spells(w, "while") ==> OpensBlock(b, w, from, d)
    ensures OpensBlock(b, w, from, d) ==>
            || Spells(w, "if") || Spells(w, "repeat") || Spells(w, "begin")
            || Spells(w, "case") || Spells(w, "loop") || Spells(w, "while")
  {
    assert !(Spells(w, "begin") && Spells(w, "if")) && !(Spells(w, "case") && Spells(w, "if"));
    hide ThenFollows, IfExistsHeader, SpaceEnd;
  }
}
