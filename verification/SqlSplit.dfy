/**
 * Statement boundaries of crates/red-core/src/sql.rs: `statement_ranges` and the
 * keyword rules that decide when a routine body is still open.
 */
module SqlSplit {
  import opened Bytes
  import opened Wrappers
  import opened SqlLexer

  // ----- keyword rules -----

  predicate IsBlockKind(word: Text) {
    || Spells(word, "if") || Spells(word, "case") || Spells(word, "loop")
    || Spells(word, "while") || Spells(word, "repeat")
  }

  predicate IsBlockWord(word: Text) {
    IsBlockKind(word) || Spells(word, "begin")
  }

  /** The end of the lexeme at `i` as the search for `THEN` sees it: `$` is an ordinary byte. */
  function ThenLexemeEnd(b: Text, i: nat, d: Dialect): (e: nat)
    requires i < |b|
    ensures i < e <= |b|
  {
    if IsQuote(b[i]) then QuotedEnd(b, i, d)
    else if d.DashCommentAt(b, i) then LineEnd(b, i + 2)
    else if b[i] == HASH && d.HashComments() then LineEnd(b, i + 1)
    else if BlockCommentAt(b, i) then BlockEnd(b, i, d)
    else if IsWordByte(b[i]) then WordEnd(b, i)
    else i + 1
  }

  /** Whether a top-level `THEN` comes before the statement's own `;`. */
  predicate ThenFollows(b: Text, i: nat, depth: nat, d: Dialect)
    requires i <= |b|
    decreases |b| - i
  {
    if i == |b| then false
    else if b[i] == LPAREN then ThenFollows(b, i + 1, depth + 1, d)
    else if b[i] == RPAREN then ThenFollows(b, i + 1, if depth == 0 then 0 else depth - 1, d)
    else if b[i] == SEMI && depth == 0 then false
    else
      var e := ThenLexemeEnd(b, i, d);
      (IsWordByte(b[i]) && depth == 0 && Spells(b[i..e], "then")) || ThenFollows(b, e, depth, d)
  }

  method SkipThenLexeme(b: Text, i: nat, d: Dialect) returns (e: nat)
    requires i < |b|
    ensures e == ThenLexemeEnd(b, i, d)
  {
    if IsQuote(b[i]) {
      e := SkipQuoted(b, i, b[i], QuoteEscapes(b, i, b[i], d));
    } else if d.DashCommentAt(b, i) {
      e := LineCommentEnd(b, i + 2);
    } else if b[i] == HASH && d.HashComments() {
      e := LineCommentEnd(b, i + 1);
    } else if BlockCommentAt(b, i) {
      e := SkipBlockComment(b, i, d);
    } else if IsWordByte(b[i]) {
      e := FindWordEnd(b, i);
    } else {
      e := i + 1;
    }
  }

  method FindThen(b: Text, from: nat, d: Dialect) returns (found: bool)
    requires from <= |b|
    ensures found == ThenFollows(b, from, 0, d)
  {
    var depth: nat := 0;
    var i := from;
    while i < |b|
      invariant from <= i <= |b|
      invariant ThenFollows(b, i, depth, d) == ThenFollows(b, from, 0, d)
    {
      if b[i] == LPAREN {
        depth := depth + 1;
        i := i + 1;
      } else if b[i] == RPAREN {
        depth := if depth == 0 then 0 else depth - 1;
        i := i + 1;
      } else if b[i] == SEMI && depth == 0 {
        return false;
      } else {
        var e := SkipThenLexeme(b, i, d);
        if IsWordByte(b[i]) && depth == 0 && Spells(b[i..e], "then") {
          return true;
        }
        i := e;
      }
    }
    return false;
  }

  /** Whether the `IF` ending at `from` leads an `[NOT] EXISTS`. */
  predicate IfExistsHeader(b: Text, from: nat)
    requires from <= |b|
  {
    match NextWord(b, from)
    case None => false
    case Some(first) =>
      || Spells(first.text, "exists")
      || (&& Spells(first.text, "not")
          && match NextWord(b, first.end)
             case None => false
             case Some(second) => Spells(second.text, "exists"))
  }

  /** Whether `word`, which ends at `from`, opens a block that an `END` closes. */
  predicate OpensBlock(b: Text, word: Text, from: nat, d: Dialect)
    requires from <= |b|
  {
    IsBlockWord(word) &&
    var at := SpaceEnd(b, from);
    var callable := Spells(word, "if") || Spells(word, "repeat");
    if callable && from < |b| && b[from] == LPAREN then false
    else if callable && at < |b| && b[at] == LPAREN then Spells(word, "if") && ThenFollows(b, at, 0, d)
    else Spells(word, "if") && IfExistsHeader(b, from) ==> ThenFollows(b, from, 0, d)
  }

  method CheckOpensBlock(b: Text, word: Text, from: nat, d: Dialect) returns (opens: bool)
    requires from <= |b|
    ensures opens == OpensBlock(b, word, from, d)
  {
    if !IsBlockWord(word) {
      return false;
    }
    if Spells(word, "if") || Spells(word, "repeat") {
      if from < |b| && b[from] == LPAREN {
        return false;
      }
      var at := SkipSpace(b, from);
      if at < |b| && b[at] == LPAREN {
        if !Spells(word, "if") {
          return false;
        }
        opens := FindThen(b, at, d);
        return;
      }
    }
    if Spells(word, "if") && IfExistsHeader(b, from) {
      opens := FindThen(b, from, d);
      return;
    }
    return true;
  }

  const HEADER_WORDS: nat := 8

  predicate IsRoutineKind(w: Text) {
    Spells(w, "trigger") || Spells(w, "procedure") || Spells(w, "function") || Spells(w, "event")
  }

  predicate IsStructuralKind(w: Text) {
    || Spells(w, "table") || Spells(w, "view") || Spells(w, "index") || Spells(w, "database")
    || Spells(w, "schema") || Spells(w, "sequence") || Spells(w, "user") || Spells(w, "role")
  }

  predicate IsDdlVerb(w: Text) {
    Spells(w, "create") || Spells(w, "alter") || Spells(w, "drop")
  }

  /** Whether a routine kind comes before any structural kind in the next `words` header words. */
  predicate NamesRoutine(b: Text, at: nat, words: nat)
    requires at <= |b|
    decreases words
  {
    words > 0 &&
    match HeaderWord(b, at)
    case None => false
    case Some(w) =>
      IsRoutineKind(w.text) || (!IsStructuralKind(w.text) && NamesRoutine(b, w.end, words - 1))
  }

  predicate RoutineDdlAt(b: Text, from: nat)
    requires from <= |b|
  {
    match NextWord(b, from)
    case None => false
    case Some(verb) => IsDdlVerb(verb.text) && NamesRoutine(b, verb.end, HEADER_WORDS)
  }

  method CheckRoutineDdl(b: Text, from: nat) returns (routine: bool)
    requires from <= |b|
    ensures routine == RoutineDdlAt(b, from)
  {
    var verb := FindNextWord(b, from);
    if verb.None? || !IsDdlVerb(verb.value.text) {
      return false;
    }
    var at: nat := verb.value.end;
    for k := 0 to HEADER_WORDS
      invariant at <= |b|
      invariant NamesRoutine(b, at, HEADER_WORDS - k) == RoutineDdlAt(b, from)
    {
      var w := FindHeaderWord(b, at);
      if w.None? {
        return false;
      }
      if IsRoutineKind(w.value.text) {
        return true;
      }
      if IsStructuralKind(w.value.text) {
        return false;
      }
      at := w.value.end;
    }
    return false;
  }

  // ----- the statement scanner -----

  /** A half-open byte range. */
  datatype Range = Range(lo: nat, hi: nat)

  /** The loop variables of `statement_ranges`. */
  datatype State = State(i: nat, start: nat, depth: nat, compound: bool, atHead: bool, delim: Text)

  const Init: State := State(0, 0, 0, false, true, [SEMI])

  /** The scanner stands on a separator that ends a statement. */
  predicate Breaks(b: Text, s: State) {
    s.depth == 0 && StartsWithAt(b, s.i, s.delim)
  }

  /** The scanner stands on a `DELIMITER` directive. */
  predicate AtDirective(b: Text, s: State)
    requires s.i < |b|
  {
    s.atHead && IsWordByte(b[s.i]) && Spells(b[s.i..WordEnd(b, s.i)], "delimiter")
  }

  /** What the scanner may look up about the word at `i`. */
  datatype WordFacts = WordFacts(text: Text, end: nat, line: Directive, routine: bool, next: Option<WordAt>, opens: bool)

  function FactsAt(b: Text, i: nat, d: Dialect): (f: WordFacts)
    requires i < |b| && IsWordByte(b[i])
    ensures i < f.end <= |b| && f.end <= f.line.lineEnd <= |b|
    ensures f.next.Some? ==> f.end < f.next.value.end <= |b|
  {
    var end := WordEnd(b, i);
    var text := b[i..end];
    WordFacts(text, end, RestOfLine(b, end), RoutineDdlAt(b, i), NextWord(b, end), OpensBlock(b, text, end, d))
  }

  /** The effect of a word with the facts `f`. */
  function ApplyWord(s: State, f: WordFacts): (t: State) {
    if s.atHead && Spells(f.text, "delimiter") then
      s.(delim := if f.line.token != [] then f.line.token else s.delim, i := f.line.lineEnd, start := f.line.lineEnd)
    else
      var u := s.(i := f.end, atHead := false, compound := if s.atHead then f.routine else s.compound);
      if !u.compound then u
      else if Spells(f.text, "end") then
        u.(depth := if u.depth == 0 then 0 else u.depth - 1,
           i := if f.next.Some? && IsBlockKind(f.next.value.text) then f.next.value.end else f.end)
      else if f.opens then u.(depth := u.depth + 1)
      else u
  }

  /** The effect of the word at `s.i`. */
  function WordStep(b: Text, d: Dialect, s: State): (t: State)
    requires s.i < |b| && IsWordByte(b[s.i]) && s.delim != []
    ensures s.i < t.i <= |b| && t.delim != []
  {
    ApplyWord(s, FactsAt(b, s.i, d))
  }

  /** The state just past the separator at `s.i`. */
  function AfterBreak(s: State): (t: State) {
    State(s.i + |s.delim|, s.i + |s.delim|, s.depth, false, true, s.delim)
  }

  predicate CommentAt(b: Text, i: nat, d: Dialect)
    requires i < |b|
  {
    d.DashCommentAt(b, i) || (b[i] == HASH && d.HashComments()) || BlockCommentAt(b, i)
  }

  /** The end of the lexeme at `i`. */
  function LexemeEnd(b: Text, i: nat, d: Dialect): (e: nat)
    requires i < |b|
    ensures i < e <= |b|
  {
    if b[i] == DOLLAR && d.DollarQuotes() then
      match DollarEnd(b, i) case Some(e) => e case None => i + 1
    else ThenLexemeEnd(b, i, d)
  }

  /** The state after the lexeme at `s.i`, which is not a separator. */
  function Lex(b: Text, d: Dialect, s: State): (t: State)
    requires s.i < |b| && s.delim != []
    ensures s.i < t.i <= |b| && t.delim != []
  {
    if IsWordByte(b[s.i]) then WordStep(b, d, s)
    else s.(i := LexemeEnd(b, s.i, d), atHead := s.atHead && (CommentAt(b, s.i, d) || IsSpace(b[s.i])))
  }

  /** The ranges the loop still has to produce from state `s`. */
  function RangesFrom(b: Text, d: Dialect, s: State): (r: seq<Range>)
    requires s.i <= |b| && s.delim != []
    ensures r != []
    decreases |b| - s.i
  {
    if s.i == |b| then [Range(s.start, |b|)]
    else if Breaks(b, s) then [Range(s.start, s.i)] + RangesFrom(b, d, AfterBreak(s))
    else RangesFrom(b, d, Lex(b, d, s))
  }

  /** The statement ranges of a whole script. */
  function Ranges(b: Text, d: Dialect): (r: seq<Range>) {
    RangesFrom(b, d, Init)
  }

  /** The word branch of the loop. */
  method ScanWord(b: Text, d: Dialect, s: State) returns (t: State)
    requires s.i < |b| && IsWordByte(b[s.i]) && s.delim != []
    ensures t == WordStep(b, d, s)
  {
    t := s;
    var end := FindWordEnd(b, t.i);
    var word := b[t.i..end];
    if t.atHead {
      if Spells(word, "delimiter") {
        var line := ReadRestOfLine(b, end);
        if line.token != [] {
          t := t.(delim := line.token);
        }
        t := t.(i := line.lineEnd, start := line.lineEnd);
        return;
      }
      var routine := CheckRoutineDdl(b, t.i);
      t := t.(compound := routine, atHead := false);
    }
    t := t.(i := end);
    if !t.compound {
      return;
    }
    if Spells(word, "end") {
      t := t.(depth := if t.depth == 0 then 0 else t.depth - 1);
      var next := FindNextWord(b, end);
      if next.Some? && IsBlockKind(next.value.text) {
        t := t.(i := next.value.end);
      }
    } else {
      var opens := CheckOpensBlock(b, word, end, d);
      if opens {
        t := t.(depth := t.depth + 1);
      }
    }
  }

  method SkipLexeme(b: Text, i: nat, d: Dialect) returns (e: nat)
    requires i < |b| && !IsWordByte(b[i])
    ensures e == LexemeEnd(b, i, d)
  {
    if IsQuote(b[i]) {
      e := SkipQuoted(b, i, b[i], QuoteEscapes(b, i, b[i], d));
    } else if d.DashCommentAt(b, i) {
      e := LineCommentEnd(b, i + 2);
    } else if b[i] == HASH && d.HashComments() {
      e := LineCommentEnd(b, i + 1);
    } else if BlockCommentAt(b, i) {
      e := SkipBlockComment(b, i, d);
    } else if b[i] == DOLLAR && d.DollarQuotes() {
      var close := DollarQuoteEnd(b, i);
      e := if close.Some? then close.value else i + 1;
    } else {
      e := i + 1;
    }
  }

  /** The arms of the loop body that are not separators. */
  method ScanLexeme(b: Text, d: Dialect, s: State) returns (t: State)
    requires s.i < |b| && s.delim != []
    ensures t == Lex(b, d, s)
  {
    if IsWordByte(b[s.i]) {
      t := ScanWord(b, d, s);
    } else {
      var e := SkipLexeme(b, s.i, d);
      t := s.(i := e);
      if !CommentAt(b, s.i, d) && !IsSpace(b[s.i]) {
        t := t.(atHead := false);
      }
    }
  }

  /** Only a directive moves `start` or the separator inside a statement. */
  lemma LexKeeps(b: Text, d: Dialect, s: State)
    requires s.i < |b| && s.delim != [] && !AtDirective(b, s)
    ensures Lex(b, d, s).start == s.start && Lex(b, d, s).delim == s.delim
  {
  }

  lemma LexOfWord(b: Text, d: Dialect, s: State)
    requires s.i < |b| && s.delim != [] && IsWordByte(b[s.i])
    ensures Lex(b, d, s) == WordStep(b, d, s)
  {
  }

  /** What one iteration of the scanning loop contributes. */
  lemma Unroll(b: Text, d: Dialect, s: State)
    requires s.i < |b| && s.delim != []
    ensures Breaks(b, s) ==> RangesFrom(b, d, s) == [Range(s.start, s.i)] + RangesFrom(b, d, AfterBreak(s))
    ensures !Breaks(b, s) ==> RangesFrom(b, d, s) == RangesFrom(b, d, Lex(b, d, s))
  {
  }

  lemma PushRange(out: seq<Range>, x: Range, rest: seq<Range>)
    ensures (out + [x]) + rest == out + ([x] + rest)
  {
  }

  method StatementRanges(b: Text, d: Dialect) returns (out: seq<Range>)
    ensures out == Ranges(b, d)
  {
    out := [];
    var s := Init;
    ghost var all := Ranges(b, d);
    assert all == out + RangesFrom(b, d, s);
    while s.i < |b|
      invariant s.i <= |b| && s.delim != []
      invariant all == out + RangesFrom(b, d, s)
      decreases |b| - s.i
    {
      Unroll(b, d, s);
      if Breaks(b, s) {
        PushRange(out, Range(s.start, s.i), RangesFrom(b, d, AfterBreak(s)));
        out := out + [Range(s.start, s.i)];
        s := AfterBreak(s);
      } else {
        s := ScanLexeme(b, d, s);
      }
    }
    out := out + [Range(s.start, |b|)];
  }
}
