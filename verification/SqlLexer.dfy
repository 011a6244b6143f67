/**
 * The lexical primitives of crates/red-core/src/sql.rs: dialect rules, and where
 * a quoted literal, a comment, a dollar-quoted body or a word ends.
 *
 * Each index loop of the source is a method with a `while` loop, proved equal to
 * the function that specifies it. The theorems are about those functions.
 */
module SqlLexer {
  import opened Bytes
  import opened Wrappers

  datatype Dialect = Generic | MySql | Postgres | Sqlite | ClickHouse {

    predicate HashComments() {
      MySql?
    }

    predicate BackslashInStrings() {
      Generic? || MySql? || ClickHouse?
    }

    predicate DollarQuotes() {
      Generic? || Postgres? || ClickHouse?
    }

    predicate NestedBlockComments() {
      Postgres?
    }

    /** MySQL wants whitespace or the end of input after the two dashes. */
    predicate DashCommentAt(b: Text, i: nat) {
      && i + 1 < |b| && b[i] == DASH && b[i + 1] == DASH
      && (MySql? ==> i + 2 >= |b| || IsSpace(b[i + 2]))
    }

    /** The opener of a MySQL executable comment. */
    predicate ExecutableCommentAt(b: Text, i: nat) {
      MySql? && StartsWithAt(b, i, [SLASH, STAR, BANG])
    }
  }

  predicate IsQuote(c: Byte) {
    c == SQUOTE || c == DQUOTE || c == BACKTICK
  }

  predicate BlockCommentAt(b: Text, i: nat) {
    i + 1 < |b| && b[i] == SLASH && b[i + 1] == STAR
  }

  // ----- runs of one character class -----

  /** The index just past the word at `i`. */
  function WordEnd(b: Text, i: nat): (j: nat)
    requires i <= |b|
    ensures i <= j <= |b|
    decreases |b| - i
  {
    if i < |b| && IsWordByte(b[i]) then WordEnd(b, i + 1) else i
  }

  lemma {:induction false} WordRun(b: Text, i: nat)
    requires i <= |b|
    ensures forall k :: i <= k < WordEnd(b, i) ==> IsWordByte(b[k])
    ensures WordEnd(b, i) < |b| ==> !IsWordByte(b[WordEnd(b, i)])
    decreases |b| - i
  {
    if i < |b| && IsWordByte(b[i]) {
      WordRun(b, i + 1);
    }
  }

  method FindWordEnd(b: Text, i: nat) returns (j: nat)
    requires i <= |b|
    ensures j == WordEnd(b, i)
  {
    j := i;
    while j < |b| && IsWordByte(b[j])
      invariant i <= j <= |b|
      invariant WordEnd(b, j) == WordEnd(b, i)
    {
      j := j + 1;
    }
  }

  /** The first non-space index at or after `i`. */
  function SpaceEnd(b: Text, i: nat): (j: nat)
    requires i <= |b|
    ensures i <= j <= |b|
    decreases |b| - i
  {
    if i < |b| && IsSpace(b[i]) then SpaceEnd(b, i + 1) else i
  }

  lemma {:induction false} SpaceRun(b: Text, i: nat)
    requires i <= |b|
    ensures forall k :: i <= k < SpaceEnd(b, i) ==> IsSpace(b[k])
    ensures SpaceEnd(b, i) < |b| ==> !IsSpace(b[SpaceEnd(b, i)])
    decreases |b| - i
  {
    if i < |b| && IsSpace(b[i]) {
      SpaceRun(b, i + 1);
    }
  }

  method SkipSpace(b: Text, i: nat) returns (j: nat)
    requires i <= |b|
    ensures j == SpaceEnd(b, i)
  {
    j := i;
    while j < |b| && IsSpace(b[j])
      invariant i <= j <= |b|
      invariant SpaceEnd(b, j) == SpaceEnd(b, i)
    {
      j := j + 1;
    }
  }

  /** The first space at or after `i`. */
  function NonSpaceEnd(b: Text, i: nat): (j: nat)
    requires i <= |b|
    ensures i <= j <= |b|
    decreases |b| - i
  {
    if i < |b| && !IsSpace(b[i]) then NonSpaceEnd(b, i + 1) else i
  }

  lemma {:induction false} NonSpaceRun(b: Text, i: nat)
    requires i <= |b|
    ensures forall k :: i <= k < NonSpaceEnd(b, i) ==> !IsSpace(b[k])
    ensures NonSpaceEnd(b, i) < |b| ==> IsSpace(b[NonSpaceEnd(b, i)])
    decreases |b| - i
  {
    if i < |b| && !IsSpace(b[i]) {
      NonSpaceRun(b, i + 1);
    }
  }

  method SkipNonSpace(b: Text, i: nat) returns (j: nat)
    requires i <= |b|
    ensures j == NonSpaceEnd(b, i)
  {
    j := i;
    while j < |b| && !IsSpace(b[j])
      invariant i <= j <= |b|
      invariant NonSpaceEnd(b, j) == NonSpaceEnd(b, i)
    {
      j := j + 1;
    }
  }

  /** The index just past the version digits of an executable comment. */
  function DigitEnd(b: Text, i: nat): (j: nat)
    requires i <= |b|
    ensures i <= j <= |b|
    decreases |b| - i
  {
    if i < |b| && IsDigit(b[i]) then DigitEnd(b, i + 1) else i
  }

  lemma {:induction false} DigitRun(b: Text, i: nat)
    requires i <= |b|
    ensures forall k :: i <= k < DigitEnd(b, i) ==> IsDigit(b[k])
    ensures DigitEnd(b, i) < |b| ==> !IsDigit(b[DigitEnd(b, i)])
    decreases |b| - i
  {
    if i < |b| && IsDigit(b[i]) {
      DigitRun(b, i + 1);
    }
  }

  method ExecCommentBody(b: Text, i: nat) returns (j: nat)
    requires i + 3 <= |b|
    ensures j == DigitEnd(b, i + 3)
  {
    j := i + 3;
    while j < |b| && IsDigit(b[j])
      invariant i + 3 <= j <= |b|
      invariant DigitEnd(b, j) == DigitEnd(b, i + 3)
    {
      j := j + 1;
    }
  }

  /** The newline that ends the line at `i`, or the end of input. */
  function LineEnd(b: Text, i: nat): (j: nat)
    requires i <= |b|
    ensures i <= j <= |b|
    decreases |b| - i
  {
    if i < |b| && b[i] != NEWLINE then LineEnd(b, i + 1) else i
  }

  lemma {:induction false} LineRun(b: Text, i: nat)
    requires i <= |b|
    ensures forall k :: i <= k < LineEnd(b, i) ==> b[k] != NEWLINE
    ensures LineEnd(b, i) < |b| ==> b[LineEnd(b, i)] == NEWLINE
    decreases |b| - i
  {
    if i < |b| && b[i] != NEWLINE {
      LineRun(b, i + 1);
    }
  }

  method LineCommentEnd(b: Text, from: nat) returns (j: nat)
    requires from <= |b|
    ensures j == LineEnd(b, from)
  {
    j := from;
    while j < |b| && b[j] != NEWLINE
      invariant from <= j <= |b|
      invariant LineEnd(b, j) == LineEnd(b, from)
    {
      j := j + 1;
    }
  }

  // ----- quoted literals -----

  /** Whether a backslash escapes inside the quote `q` opened at `i`. */
  predicate QuoteEscapes(b: Text, i: nat, q: Byte, d: Dialect)
    requires i < |b|
  {
    q != BACKTICK &&
    (|| d.BackslashInStrings()
     || (&& d.Postgres?
         && q == SQUOTE
         && i >= 1
         && (b[i - 1] == 101 || b[i - 1] == 69)
         && (i < 2 || !IsWordByte(b[i - 2]))))
  }

  /** The quote at `j` ends the literal: it is not doubled. */
  predicate ClosesQuote(b: Text, j: nat, q: Byte)
    requires j < |b|
  {
    b[j] == q && !(j + 1 < |b| && b[j + 1] == q)
  }

  /** How many bytes the inside of a literal takes at `j`: two for an escaped character. */
  function QuotedWidth(b: Text, j: nat, q: Byte, escapes: bool): (w: nat)
    requires j < |b| && !ClosesQuote(b, j, q)
    ensures 1 <= w <= 2 && j + w <= |b|
  {
    if b[j] == q || (b[j] == BACKSLASH && escapes && j + 1 < |b|) then 2 else 1
  }

  /** The index just past the closing quote, when position `j` is inside a literal. */
  function QuotedFrom(b: Text, j: nat, q: Byte, escapes: bool): (e: nat)
    requires j <= |b|
    ensures j <= e <= |b|
    decreases |b| - j
  {
    if j == |b| then |b|
    else if ClosesQuote(b, j, q) then j + 1
    else QuotedFrom(b, j + QuotedWidth(b, j, q, escapes), q, escapes)
  }

  /** A literal that ends before the end of input ends with its quote. */
  lemma {:induction false} QuotedFromCloses(b: Text, j: nat, q: Byte, escapes: bool)
    requires j <= |b| && QuotedFrom(b, j, q, escapes) < |b|
    ensures j < QuotedFrom(b, j, q, escapes) && b[QuotedFrom(b, j, q, escapes) - 1] == q
    decreases |b| - j
  {
    if !ClosesQuote(b, j, q) {
      QuotedFromCloses(b, j + QuotedWidth(b, j, q, escapes), q, escapes);
    }
  }

  /** The end of the quoted literal or identifier opened at `i`. */
  function QuotedEnd(b: Text, i: nat, d: Dialect): (e: nat)
    requires i < |b|
    ensures i < e <= |b|
  {
    QuotedFrom(b, i + 1, b[i], QuoteEscapes(b, i, b[i], d))
  }

  method SkipQuoted(b: Text, i: nat, q: Byte, escapes: bool) returns (e: nat)
    requires i < |b|
    ensures e == QuotedFrom(b, i + 1, q, escapes)
  {
    var j := i + 1;
    while j < |b|
      invariant i < j <= |b|
      invariant QuotedFrom(b, j, q, escapes) == QuotedFrom(b, i + 1, q, escapes)
    {
      if b[j] == q {
        if j + 1 < |b| && b[j + 1] == q {
          j := j + 2;
          continue;
        }
        return j + 1;
      }
      if b[j] == BACKSLASH && escapes && j + 1 < |b| {
        j := j + 2;
        continue;
      }
      j := j + 1;
    }
    return |b|;
  }

  // ----- block comments -----

  /** What the inside of a block comment holds at `j`. */
  datatype CommentMark = Opens | Closes | Neither

  function MarkAt(b: Text, j: nat, nests: bool): CommentMark
    requires j + 1 < |b|
  {
    if b[j] == STAR && b[j + 1] == SLASH then Closes
    else if nests && b[j] == SLASH && b[j + 1] == STAR then Opens
    else Neither
  }

  /** The end of the block comment, when position `j` is inside `depth` open comments. */
  function BlockFrom(b: Text, j: nat, depth: nat, nests: bool): (e: nat)
    requires j <= |b| && depth > 0
    ensures j <= e <= |b|
    decreases |b| - j
  {
    if j + 1 >= |b| then |b|
    else
      var mark := MarkAt(b, j, nests);
      if mark.Closes? && depth == 1 then j + 2
      else
        BlockFrom(b, if mark.Neither? then j + 1 else j + 2,
                  if mark.Closes? then depth - 1 else if mark.Opens? then depth + 1 else depth, nests)
  }

  /** A comment that ends before the end of input ends with a slash. */
  lemma {:induction false} BlockFromCloses(b: Text, j: nat, depth: nat, nests: bool)
    requires j <= |b| && depth > 0 && BlockFrom(b, j, depth, nests) < |b|
    ensures j < BlockFrom(b, j, depth, nests) && b[BlockFrom(b, j, depth, nests) - 1] == SLASH
    decreases |b| - j
  {
    var mark := MarkAt(b, j, nests);
    if !(mark.Closes? && depth == 1) {
      BlockFromCloses(b, if mark.Neither? then j + 1 else j + 2,
                      if mark.Closes? then depth - 1 else if mark.Opens? then depth + 1 else depth, nests);
    }
  }

  /** The end of the block comment opened at `i`. */
  function BlockEnd(b: Text, i: nat, d: Dialect): (e: nat)
    requires BlockCommentAt(b, i)
    ensures i + 2 <= e <= |b|
  {
    BlockFrom(b, i + 2, 1, d.NestedBlockComments())
  }

  method SkipBlockComment(b: Text, i: nat, d: Dialect) returns (e: nat)
    requires BlockCommentAt(b, i)
    ensures e == BlockEnd(b, i, d)
  {
    var nests := d.NestedBlockComments();
    var depth := 1;
    var j := i + 2;
    while j + 1 < |b|
      invariant i + 2 <= j <= |b| && depth >= 1
      invariant BlockFrom(b, j, depth, nests) == BlockEnd(b, i, d)
    {
      if b[j] == STAR && b[j + 1] == SLASH {
        depth := depth - 1;
        if depth == 0 {
          return j + 2;
        }
        j := j + 2;
        continue;
      }
      if nests && b[j] == SLASH && b[j + 1] == STAR {
        depth := depth + 1;
        j := j + 2;
        continue;
      }
      j := j + 1;
    }
    return |b|;
  }

  // ----- dollar quotes -----

  /** The end of the first occurrence of `tag` at or after `k`, or the end of input. */
  function TagCloseEnd(b: Text, k: nat, tag: Text): (e: nat)
    requires k <= |b| && tag != []
    ensures k <= e <= |b|
    decreases |b| - k
  {
    if k + |tag| > |b| then |b|
    else if StartsWithAt(b, k, tag) then k + |tag|
    else TagCloseEnd(b, k + 1, tag)
  }

  /** A dollar-quoted body that ends before the end of input ends with its tag. */
  lemma {:induction false} TagCloses(b: Text, k: nat, tag: Text)
    requires k <= |b| && tag != [] && TagCloseEnd(b, k, tag) < |b|
    ensures k + |tag| <= TagCloseEnd(b, k, tag) && StartsWithAt(b, TagCloseEnd(b, k, tag) - |tag|, tag)
    decreases |b| - k
  {
    if !StartsWithAt(b, k, tag) {
      TagCloses(b, k + 1, tag);
    }
  }

  /** The opening tag (`$$` or `$body$`) at `i`, empty when the `$` there opens none. */
  function DollarTag(b: Text, i: nat): (tag: Text)
    requires i < |b|
    ensures i + |tag| <= |b|
  {
    var j := WordEnd(b, i + 1);
    if j >= |b| || b[j] != DOLLAR then [] else b[i..j + 1]
  }

  /** The end of the dollar-quoted body opened at `i`, if the `$` there opens one. */
  function DollarEnd(b: Text, i: nat): (r: Option<nat>)
    requires i < |b|
    ensures r.Some? ==> i < r.value <= |b|
  {
    var tag := DollarTag(b, i);
    if tag == [] then None else Some(TagCloseEnd(b, i + |tag|, tag))
  }

  method FindTagClose(b: Text, from: nat, tag: Text) returns (e: nat)
    requires from <= |b| && tag != []
    ensures e == TagCloseEnd(b, from, tag)
  {
    var k := from;
    while k + |tag| <= |b|
      invariant from <= k <= |b|
      invariant TagCloseEnd(b, k, tag) == TagCloseEnd(b, from, tag)
    {
      if StartsWithAt(b, k, tag) {
        return k + |tag|;
      }
      k := k + 1;
    }
    return |b|;
  }

  method DollarQuoteEnd(b: Text, i: nat) returns (r: Option<nat>)
    requires i < |b|
    ensures r == DollarEnd(b, i)
  {
    var j := FindWordEnd(b, i + 1);
    if j >= |b| || b[j] != DOLLAR {
      return None;
    }
    assert DollarTag(b, i) == b[i..j + 1];
    var e := FindTagClose(b, j + 1, b[i..j + 1]);
    return Some(e);
  }

  // ----- words -----

  datatype WordAt = WordAt(text: Text, end: nat)

  /** The next word at or after `from`, looking past whitespace only. */
  function NextWord(b: Text, from: nat): (r: Option<WordAt>)
    requires from <= |b|
    ensures r.Some? ==> from < r.value.end <= |b|
  {
    var i := SpaceEnd(b, from);
    if i >= |b| || !IsWordByte(b[i]) then None
    else Some(WordAt(b[i..WordEnd(b, i)], WordEnd(b, i)))
  }

  method FindNextWord(b: Text, from: nat) returns (r: Option<WordAt>)
    requires from <= |b|
    ensures r == NextWord(b, from)
  {
    var i := SkipSpace(b, from);
    if i >= |b| || !IsWordByte(b[i]) {
      return None;
    }
    var end := FindWordEnd(b, i);
    return Some(WordAt(b[i..end], end));
  }

  /** Like `NextWord`, but reads across any punctuation except `(`. */
  function HeaderWord(b: Text, from: nat): (r: Option<WordAt>)
    requires from <= |b|
    ensures r.Some? ==> from < r.value.end <= |b|
    decreases |b| - from
  {
    if from == |b| then None
    else if IsWordByte(b[from]) then Some(WordAt(b[from..WordEnd(b, from)], WordEnd(b, from)))
    else if b[from] == LPAREN then None
    else HeaderWord(b, from + 1)
  }

  method FindHeaderWord(b: Text, from: nat) returns (r: Option<WordAt>)
    requires from <= |b|
    ensures r == HeaderWord(b, from)
  {
    var i := from;
    while i < |b| && !IsWordByte(b[i])
      invariant from <= i <= |b|
      invariant HeaderWord(b, i) == HeaderWord(b, from)
    {
      if b[i] == LPAREN {
        return None;
      }
      i := i + 1;
    }
    if i >= |b| {
      return None;
    }
    var end := FindWordEnd(b, i);
    return Some(WordAt(b[i..end], end));
  }

  datatype Directive = Directive(token: Text, lineEnd: nat)

  /** The first token of the rest of the line, and the index past its newline. */
  function RestOfLine(b: Text, from: nat): (r: Directive)
    requires from <= |b|
    ensures from <= r.lineEnd <= |b|
  {
    var end := LineEnd(b, from);
    var line := b[from..end];
    var lead := SpaceEnd(line, 0);
    Directive(line[lead..NonSpaceEnd(line, lead)], if end + 1 <= |b| then end + 1 else |b|)
  }

  method ReadRestOfLine(b: Text, from: nat) returns (r: Directive)
    requires from <= |b|
    ensures r == RestOfLine(b, from)
  {
    var end := LineCommentEnd(b, from);
    var line := b[from..end];
    var lead := SkipSpace(line, 0);
    var stop := SkipNonSpace(line, lead);
    return Directive(line[lead..stop], if end + 1 <= |b| then end + 1 else |b|);
  }
}
