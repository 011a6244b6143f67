/**
 * Scripts written token by token, and what the two scanners of crates/red-core/src/sql.rs make
 * of them: a grammar of literals and comments per dialect that does not refer to either scanner.
 */
module SqlTokens {
  import opened Bytes
  import opened Wrappers
  import opened SqlLexer
  import opened SqlSplit
  import opened SqlStrip
  import opened SqlLocal
  import opened SqlCalm
  import opened SqlHidden

  // ----- tokens -----

  /** What a quoted literal or name is made of. */
  datatype Atom = Char(c: Byte) | Twice | Escaped(c: Byte)

  /** What a nested comment is made of. */
  datatype Part = Ch(c: Byte) | Inner(parts: seq<Part>)

  datatype Token =
    | Word(w: Text)
    | Symbol(c: Byte)
    | DoubleDash(c: Byte) // MySQL: `--` with no space after it is two minus signs
    | Quote(q: Byte, atoms: seq<Atom>)
    | Prefixed(w: Text, q: Byte, atoms: seq<Atom>) // `N'…'`; Postgres: `E'…'`
    | DashLine(text: Text)
    | HashLine(text: Text)
    | Flat(body: Text) // `/*…*/` that does not nest
    | Nest(parts: seq<Part>) // Postgres: `/*…*/` that does
    | Dollar(name: Text, body: Text)
    | Exec(version: Text, inner: seq<Token>) // MySQL: a comment whose inside is live

  function AtomText(a: Atom, q: Byte): Text {
    match a
    case Char(c) => [c]
    case Twice => [q, q]
    case Escaped(c) => [BACKSLASH, c]
  }

  function AtomsText(atoms: seq<Atom>, q: Byte): Text {
    if atoms == [] then [] else AtomText(atoms[0], q) + AtomsText(atoms[1..], q)
  }

  function PartText(p: Part): Text
    decreases p, 0
  {
    match p
    case Ch(c) => [c]
    case Inner(parts) => [SLASH, STAR] + PartsText(parts) + [STAR, SLASH]
  }

  function PartsText(parts: seq<Part>): Text
    decreases parts, 1
  {
    if parts == [] then [] else PartText(parts[0]) + PartsText(parts[1..])
  }

  function Tag(name: Text): Text {
    [DOLLAR] + name + [DOLLAR]
  }

  /** The inside of an executable comment. */
  function ExecText(version: Text, inner: seq<Token>): Text
    decreases inner, 2
  {
    ([BANG] + version) + ([SPACE] + Print(inner))
  }

  function Written(t: Token): Text
    decreases t, 0
  {
    match t
    case Word(w) => w
    case Symbol(c) => [c]
    case DoubleDash(c) => [DASH, DASH, c]
    case Quote(q, atoms) => [q] + (AtomsText(atoms, q) + [q])
    case Prefixed(w, q, atoms) => w + ([q] + (AtomsText(atoms, q) + [q]))
    case DashLine(text) => [DASH, DASH] + (text + [NEWLINE])
    case HashLine(text) => [HASH] + (text + [NEWLINE])
    case Flat(body) => [SLASH, STAR] + (body + [STAR, SLASH])
    case Nest(parts) => [SLASH, STAR] + (PartsText(parts) + [STAR, SLASH])
    case Dollar(name, body) => Tag(name) + (body + Tag(name))
    case Exec(version, inner) => [SLASH, STAR] + (ExecText(version, inner) + [STAR, SLASH])
  }

  /** A script: its tokens, each with a space behind it. */
  function Print(ts: seq<Token>): Text
    decreases ts, 1
  {
    if ts == [] then [] else Written(ts[0]) + [SPACE] + Print(ts[1..])
  }

  // ----- which tokens a dialect has -----

  predicate AtomOk(a: Atom, q: Byte, escapes: bool) {
    match a
    case Char(c) => c != q && (c == BACKSLASH ==> !escapes)
    case Twice => true
    case Escaped(_) => escapes
  }

  predicate AtomsOk(atoms: seq<Atom>, q: Byte, escapes: bool) {
    forall k :: 0 <= k < |atoms| ==> AtomOk(atoms[k], q, escapes)
  }

  /** No slash and no star but those of the comments within. */
  predicate PartOk(p: Part) {
    match p
    case Ch(c) => c != STAR && c != SLASH
    case Inner(parts) => forall k :: 0 <= k < |parts| ==> PartOk(parts[k])
  }

  /** `x`, with `t` behind it, holds no earlier `t`. */
  ghost predicate FreeOf(x: Text, t: Text) {
    forall k :: 0 <= k < |x| ==> !StartsWithAt(x + t, k, t)
  }

  /** Dialects whose string literals read `\` as an escape. */
  predicate Escaping(d: Dialect) {
    d == Generic || d == MySql || d == ClickHouse
  }

  /** Whether `\` escapes in a literal behind the word `w`: in Postgres, behind a lone E. */
  predicate Prefixing(w: Text, q: Byte, d: Dialect) {
    q != BACKTICK && (Escaping(d) || (d == Postgres && q == SQUOTE && (w == [69] || w == [101])))
  }

  /** A word that may stand right before a literal: no keyword that the scanner looks for. */
  ghost predicate IsPrefix(w: Text) {
    && IsWord(w) && !Spells(w, "delimiter") && !Spells(w, "create") && !Spells(w, "alter") && !Spells(w, "drop")
    && !Spells(w, "then") && !Spells(w, "not") && !Spells(w, "exists")
  }

  ghost predicate TokenOk(t: Token, d: Dialect) {
    match t
    case Word(w) => IsWord(w)
    case Symbol(c) => !IsWordByte(c) && c != SQUOTE && c != DQUOTE && c != BACKTICK && (c == HASH ==> d != MySql)
    case DoubleDash(c) => d == MySql && IsPlain(c) && !IsSpace(c) && !IsWordByte(c)
    case Quote(q, atoms) => (q == SQUOTE || q == DQUOTE || q == BACKTICK) && AtomsOk(atoms, q, q != BACKTICK && Escaping(d))
    case Prefixed(w, q, atoms) => IsPrefix(w) && (q == SQUOTE || q == DQUOTE || q == BACKTICK) && AtomsOk(atoms, q, Prefixing(w, q, d))
    case DashLine(text) => NEWLINE !in text && (d == MySql && text != [] ==> IsSpace(text[0]))
    case HashLine(text) => d == MySql && NEWLINE !in text
    case Flat(body) => d != Postgres && FreeOf(body, [STAR, SLASH]) && (d == MySql && body != [] ==> body[0] != BANG)
    case Nest(parts) => d == Postgres && forall k :: 0 <= k < |parts| ==> PartOk(parts[k])
    case Dollar(name, body) =>
      && (d == Generic || d == Postgres || d == ClickHouse)
      && (forall k :: 0 <= k < |name| ==> IsWordByte(name[k])) && FreeOf(body, Tag(name))
    case Exec(version, inner) =>
      && d == MySql && (forall k :: 0 <= k < |version| ==> IsDigit(version[k]))
      && FreeOf(ExecText(version, inner), [STAR, SLASH]) && forall k :: 0 <= k < |inner| ==> TokenOk(inner[k], d)
  }

  // ----- what stripping leaves -----

  function BlankText(t: Text): (r: Text)
    ensures |r| == |t|
    ensures forall k :: 0 <= k < |t| ==> r[k] == Blanked(t[k])
  {
    seq(|t|, k requires 0 <= k < |t| => Blanked(t[k]))
  }

  /**
   * Code stays; literals, names and comments go blank, but not a literal's prefix nor what an
   * executable comment holds.
   */
  function Seen(t: Token): Text
    decreases t, 0
  {
    match t
    case Word(w) => w
    case Symbol(c) => [c]
    case DoubleDash(c) => [DASH, DASH, c]
    case Prefixed(w, _, _) => w + BlankText(Written(t)[|w|..])
    case Exec(version, inner) => BlankText([SLASH, STAR] + ([BANG] + version)) + ([SPACE] + SeenAll(inner)) + [SPACE, SPACE]
    case _ => BlankText(Written(t))
  }

  function SeenAll(ts: seq<Token>): Text
    decreases ts, 1
  {
    if ts == [] then [] else Seen(ts[0]) + [SPACE] + SeenAll(ts[1..])
  }

  // ----- where literals and comments end -----

  /** A quoted span ends at its closing quote. */
  lemma {:induction false} QuoteSpan(b: Text, j: nat, atoms: seq<Atom>, q: Byte, escapes: bool)
    requires AtomsOk(atoms, q, escapes) && StartsWithAt(b, j, AtomsText(atoms, q) + [q]) && q != BACKSLASH
    requires var e := j + |AtomsText(atoms, q)| + 1; e < |b| && b[e] != q
    ensures QuotedFrom(b, j, q, escapes) == j + |AtomsText(atoms, q)| + 1
    decreases |atoms|
  {
    hide QuotedFrom, AtomsOk, StartsWithAt;
    AtomsStep(atoms, q);
    if atoms == [] {
      StartsWithByte(b, j, AtomsText(atoms, q) + [q], 0);
      QuoteEnds(b, j, q, escapes);
    } else {
      var a, rest := AtomText(atoms[0], q), AtomsText(atoms[1..], q) + [q];
      assert AtomsText(atoms, q) + [q] == a + rest;
      StartsWithSplit(b, j, a, rest);
      AtomsTail(atoms, q, escapes);
      AtomStep(b, j, atoms[0], q, escapes, rest);
      QuoteSpan(b, j + |a|, atoms[1..], q, escapes);
    }
  }

  lemma AtomsStep(atoms: seq<Atom>, q: Byte)
    ensures atoms == [] ==> AtomsText(atoms, q) == []
    ensures atoms != [] ==> AtomsText(atoms, q) == AtomText(atoms[0], q) + AtomsText(atoms[1..], q)
  {
    hide AtomText;
  }

  lemma AtomsTail(atoms: seq<Atom>, q: Byte, escapes: bool)
    requires AtomsOk(atoms, q, escapes) && atoms != []
    ensures AtomOk(atoms[0], q, escapes) && AtomsOk(atoms[1..], q, escapes)
  {
    hide AtomOk;
  }

  lemma {:induction false} QuoteEnds(b: Text, j: nat, q: Byte, escapes: bool)
    requires j + 1 < |b| && b[j] == q && b[j + 1] != q
    ensures QuotedFrom(b, j, q, escapes) == j + 1
  {
  }

  lemma {:induction false} AtomStep(b: Text, j: nat, a: Atom, q: Byte, escapes: bool, rest: Text)
    requires AtomOk(a, q, escapes) && StartsWithAt(b, j, AtomText(a, q)) && StartsWithAt(b, j + |AtomText(a, q)|, rest) && rest != [] && q != BACKSLASH
    ensures QuotedFrom(b, j, q, escapes) == QuotedFrom(b, j + |AtomText(a, q)|, q, escapes)
  {
    hide StartsWithAt;
    var t := AtomText(a, q);
    StartsWithByte(b, j, t, 0);
    StartsWithByte(b, j, t, |t| - 1);
    StartsWithByte(b, j + |t|, rest, 0);
  }

  lemma {:induction false} LineSpan(b: Text, i: nat, text: Text)
    requires StartsWithAt(b, i, text + [NEWLINE]) && NEWLINE !in text
    ensures LineEnd(b, i) == i + |text|
    decreases |text|
  {
    hide StartsWithAt;
    StartsWithByte(b, i, text + [NEWLINE], 0);
    if text != [] {
      assert text + [NEWLINE] == [text[0]] + (text[1..] + [NEWLINE]);
      StartsWithSplit(b, i, [text[0]], text[1..] + [NEWLINE]);
      LineSpan(b, i + 1, text[1..]);
    }
  }

  lemma StartsWithTailOf(x: Text, k: nat, t: Text)
    requires x != []
    ensures StartsWithAt(x, k + 1, t) == StartsWithAt(x[1..], k, t)
  {
    if k + 1 + |t| <= |x| {
      SliceOfSlice(x, 1, |x|, k, k + |t|);
    }
  }

  lemma FreeTail(x: Text, t: Text)
    requires FreeOf(x, t) && x != []
    ensures FreeOf(x[1..], t)
  {
    hide StartsWithAt;
    assert (x + t)[1..] == x[1..] + t;
    forall k | 0 <= k < |x[1..]| ensures !StartsWithAt(x[1..] + t, k, t) {
      assert !StartsWithAt(x + t, k + 1, t);
      StartsWithTailOf(x + t, k, t);
    }
  }

  /** What stands inside a piece of `b` stands in the piece. */
  lemma StandsInside(b: Text, p: nat, y: Text, k: nat, t: Text)
    requires StartsWithAt(b, p, y) && k + |t| <= |y|
    ensures StartsWithAt(b, p + k, t) == StartsWithAt(y, k, t)
  {
    SliceOfSlice(b, p, p + |y|, k, k + |t|);
  }

  /** Text free of `t` stays so inside a script. */
  lemma FreePlaced(b: Text, p: nat, x: Text, t: Text, k: nat)
    requires StartsWithAt(b, p, x + t) && FreeOf(x, t) && k < |x|
    ensures !StartsWithAt(b, p + k, t)
  {
    hide StartsWithAt;
    assert !StartsWithAt(x + t, k, t);
    StandsInside(b, p, x + t, k, t);
  }

  lemma NoMark(b: Text, j: nat)
    requires j + 1 < |b| && !StartsWithAt(b, j, [STAR, SLASH])
    ensures b[j] != STAR || b[j + 1] != SLASH
  {
    assert b[j..j + 2] == [b[j], b[j + 1]];
  }

  /** A flat comment ends at the first star and slash. */
  lemma {:induction false} FlatSpan(b: Text, j: nat, body: Text)
    requires StartsWithAt(b, j, body + [STAR, SLASH]) && FreeOf(body, [STAR, SLASH])
    ensures BlockFrom(b, j, 1, false) == j + |body| + 2
    decreases |body|
  {
    hide FreeOf, StartsWithAt;
    StartsWithSplit(b, j, body, [STAR, SLASH]);
    var e := j + |body|;
    StartsWithByte(b, e, [STAR, SLASH], 0);
    StartsWithByte(b, e, [STAR, SLASH], 1);
    if body != [] {
      FreePlaced(b, j, body, [STAR, SLASH], 0);
      NoMark(b, j);
      assert body + [STAR, SLASH] == [body[0]] + (body[1..] + [STAR, SLASH]);
      StartsWithSplit(b, j, [body[0]], body[1..] + [STAR, SLASH]);
      FreeTail(body, [STAR, SLASH]);
      FlatSpan(b, j + 1, body[1..]);
    }
  }

  lemma PartsStep(parts: seq<Part>)
    ensures parts == [] ==> PartsText(parts) == []
    ensures parts != [] ==> PartsText(parts) == PartText(parts[0]) + PartsText(parts[1..])
  {
    hide PartText;
  }

  /** Within a nested comment every inner comment is passed whole. */
  lemma {:induction false} PartsSpan(b: Text, j: nat, parts: seq<Part>, depth: nat, rest: Text)
    requires depth > 0 && StartsWithAt(b, j, PartsText(parts) + rest) && |rest| >= 2 && rest[0] != SLASH
    requires forall k :: 0 <= k < |parts| ==> PartOk(parts[k])
    ensures j + |PartsText(parts)| <= |b|
    ensures BlockFrom(b, j, depth, true) == BlockFrom(b, j + |PartsText(parts)|, depth, true)
    decreases parts, 1
  {
    hide StartsWithAt, BlockFrom, PartText, PartsText;
    PartsStep(parts);
    StartsWithSplit(b, j, PartsText(parts), rest);
    BoundsAt(b, j, PartsText(parts));
    if parts != [] {
      var p, more := PartText(parts[0]), PartsText(parts[1..]) + rest;
      assert PartsText(parts) + rest == p + more;
      StartsWithSplit(b, j, p, more);
      PartSpan(b, j, parts[0], depth, more);
      PartsSpan(b, j + |p|, parts[1..], depth, rest);
    }
  }

  lemma BoundsAt(b: Text, j: nat, t: Text)
    requires StartsWithAt(b, j, t)
    ensures j + |t| <= |b|
  {
  }

  lemma PartShape(p: Part)
    ensures p.Ch? ==> PartText(p) == [p.c]
    ensures p.Inner? ==> PartText(p) == [SLASH, STAR] + (PartsText(p.parts) + [STAR, SLASH])
  {
    hide PartsText;
    if p.Inner? {
      Assoc([SLASH, STAR], PartsText(p.parts), [STAR, SLASH]);
    }
  }

  lemma {:induction false} PartSpan(b: Text, j: nat, p: Part, depth: nat, more: Text)
    requires depth > 0 && StartsWithAt(b, j, PartText(p)) && StartsWithAt(b, j + |PartText(p)|, more) && |more| >= 2 && PartOk(p)
    ensures j + |PartText(p)| <= |b|
    ensures BlockFrom(b, j, depth, true) == BlockFrom(b, j + |PartText(p)|, depth, true)
    decreases p, 0
  {
    hide StartsWithAt, BlockFrom, PartText, PartsText;
    PartShape(p);
    BoundsAt(b, j + |PartText(p)|, more);
    match p
    case Ch(c) =>
      StartsWithByte(b, j, [c], 0);
      PlainInside(b, j, depth);
    case Inner(parts) =>
      var tail := PartsText(parts) + [STAR, SLASH];
      StartsWithSplit(b, j, [SLASH, STAR], tail);
      StartsWithByte(b, j, [SLASH, STAR], 0);
      StartsWithByte(b, j, [SLASH, STAR], 1);
      OpensInside(b, j, depth);
      PartsSpan(b, j + 2, parts, depth + 1, [STAR, SLASH]);
      StartsWithSplit(b, j + 2, PartsText(parts), [STAR, SLASH]);
      var e := j + 2 + |PartsText(parts)|;
      StartsWithByte(b, e, [STAR, SLASH], 0);
      StartsWithByte(b, e, [STAR, SLASH], 1);
      ClosesInside(b, e, depth);
  }

  lemma {:induction false} PlainInside(b: Text, j: nat, depth: nat)
    requires depth > 0 && j + 1 < |b| && b[j] != STAR && b[j] != SLASH
    ensures BlockFrom(b, j, depth, true) == BlockFrom(b, j + 1, depth, true)
  {
  }

  lemma {:induction false} OpensInside(b: Text, j: nat, depth: nat)
    requires depth > 0 && j + 1 < |b| && b[j] == SLASH && b[j + 1] == STAR
    ensures BlockFrom(b, j, depth, true) == BlockFrom(b, j + 2, depth + 1, true)
  {
  }

  lemma {:induction false} ClosesInside(b: Text, j: nat, depth: nat)
    requires depth > 0 && j + 1 < |b| && b[j] == STAR && b[j + 1] == SLASH
    ensures BlockFrom(b, j, depth + 1, true) == BlockFrom(b, j + 2, depth, true)
    ensures BlockFrom(b, j, 1, true) == j + 2
  {
  }

  lemma {:induction false} TagSpan(b: Text, k: nat, body: Text, tag: Text)
    requires tag != [] && StartsWithAt(b, k, body + tag) && FreeOf(body, tag)
    ensures TagCloseEnd(b, k, tag) == k + |body| + |tag|
    decreases |body|
  {
    hide FreeOf, StartsWithAt;
    StartsWithSplit(b, k, body, tag);
    BoundsAt(b, k + |body|, tag);
    if body != [] {
      FreePlaced(b, k, body, tag, 0);
      assert body + tag == [body[0]] + (body[1..] + tag);
      StartsWithSplit(b, k, [body[0]], body[1..] + tag);
      FreeTail(body, tag);
      TagSpan(b, k + 1, body[1..], tag);
    }
  }

  lemma TagRead(b: Text, p: nat, name: Text)
    requires StartsWithAt(b, p, Tag(name)) && forall k :: 0 <= k < |name| ==> IsWordByte(name[k])
    ensures p < |b| && DollarTag(b, p) == Tag(name)
  {
    StartsWithByte(b, p, Tag(name), 0);
    assert Tag(name) == [DOLLAR] + (name + [DOLLAR]);
    StartsWithSplit(b, p, [DOLLAR], name + [DOLLAR]);
    NameEnds(b, p + 1, name);
  }

  /** A dollar-quoted body ends after the next equal tag. */
  lemma DollarSpan(b: Text, p: nat, name: Text, body: Text)
    requires StartsWithAt(b, p, Tag(name) + (body + Tag(name))) && FreeOf(body, Tag(name))
    requires forall k :: 0 <= k < |name| ==> IsWordByte(name[k])
    ensures DollarEnd(b, p) == Some(p + |Tag(name)| + |body| + |Tag(name)|)
  {
    hide FreeOf, TagCloseEnd, StartsWithAt, DollarTag;
    var tag := Tag(name);
    StartsWithSplit(b, p, tag, body + tag);
    TagSpan(b, p + |tag|, body, tag);
    TagRead(b, p, name);
  }

  lemma {:induction false} NameEnds(b: Text, i: nat, name: Text)
    requires StartsWithAt(b, i, name + [DOLLAR]) && forall k :: 0 <= k < |name| ==> IsWordByte(name[k])
    ensures WordEnd(b, i) == i + |name| < |b| && b[i + |name|] == DOLLAR
    decreases |name|
  {
    StartsWithByte(b, i, name + [DOLLAR], 0);
    if name != [] {
      assert name + [DOLLAR] == [name[0]] + (name[1..] + [DOLLAR]);
      StartsWithSplit(b, i, [name[0]], name[1..] + [DOLLAR]);
      NameEnds(b, i + 1, name[1..]);
    }
  }

  // ----- what the lexer makes of one token -----

  /** Tokens that are one blanked lexeme; a line comment leaves its newline behind. */
  predicate IsNoise(t: Token) {
    t.Quote? || t.DashLine? || t.HashLine? || t.Flat? || t.Nest? || t.Dollar?
  }

  function LexemeSize(t: Token): nat {
    if t.DashLine? || t.HashLine? then |Written(t)| - 1 else |Written(t)|
  }

  /** Token `t` stands at `p`, a space behind it and no word right before it. */
  ghost predicate Placed(b: Text, p: nat, t: Token) {
    StartsWithAt(b, p, Written(t)) && StartsWithAt(b, p + |Written(t)|, [SPACE]) && (p > 0 ==> !IsWordByte(b[p - 1]))
  }

  lemma PlacedQuote(b: Text, p: nat, t: Token, d: Dialect)
    requires t.Quote? && TokenOk(t, d) && Placed(b, p, t)
    ensures IsQuote(b[p]) && QuotedEnd(b, p, d) == p + |Written(t)|
  {
    hide StartsWithAt, AtomsOk, QuotedFrom, AtomsText;
    var body := AtomsText(t.atoms, t.q) + [t.q];
    StartsWithSplit(b, p, [t.q], body);
    StartsWithByte(b, p, [t.q], 0);
    StartsWithByte(b, p + |Written(t)|, [SPACE], 0);
    BoundsAt(b, p + |Written(t)|, [SPACE]);
    QuoteSpan(b, p + 1, t.atoms, t.q, QuoteEscapes(b, p, t.q, d));
  }

  lemma PlacedLine(b: Text, p: nat, t: Token, d: Dialect)
    requires (t.DashLine? || t.HashLine?) && TokenOk(t, d) && Placed(b, p, t)
    ensures !IsQuote(b[p])
    ensures t.DashLine? ==> d.DashCommentAt(b, p) && LineEnd(b, p + 2) == p + LexemeSize(t)
    ensures t.HashLine? ==> b[p] == HASH && d.HashComments() && LineEnd(b, p + 1) == p + LexemeSize(t)
    ensures b[p + LexemeSize(t)] == NEWLINE
  {
    hide StartsWithAt, LineEnd;
    var m := if t.DashLine? then [DASH, DASH] else [HASH];
    var line := t.text + [NEWLINE];
    StartsWithSplit(b, p, m, line);
    StartsWithByte(b, p, m, 0);
    StartsWithByte(b, p, m, |m| - 1);
    StartsWithByte(b, p + |m|, line, 0);
    StartsWithByte(b, p + |m|, line, |t.text|);
    LineSpan(b, p + |m|, t.text);
  }

  lemma PlacedBlock(b: Text, p: nat, t: Token, d: Dialect)
    requires (t.Flat? || t.Nest?) && TokenOk(t, d) && Placed(b, p, t)
    ensures BlockCommentAt(b, p) && BlockEnd(b, p, d) == p + |Written(t)|
    ensures !d.ExecutableCommentAt(b, p)
  {
    hide StartsWithAt, BlockFrom, PartsText, FreeOf, PartOk;
    var body := if t.Flat? then t.body else PartsText(t.parts);
    StartsWithSplit(b, p, [SLASH, STAR], body + [STAR, SLASH]);
    StartsWithByte(b, p, [SLASH, STAR], 0);
    StartsWithByte(b, p, [SLASH, STAR], 1);
    if t.Flat? {
      FlatSpan(b, p + 2, body);
      StartsWithByte(b, p + 2, body + [STAR, SLASH], 0);
      NoExec(b, p, d);
    } else {
      PartsSpan(b, p + 2, t.parts, 1, [STAR, SLASH]);
      StartsWithSplit(b, p + 2, body, [STAR, SLASH]);
      var e := p + 2 + |body|;
      StartsWithByte(b, e, [STAR, SLASH], 0);
      StartsWithByte(b, e, [STAR, SLASH], 1);
      ClosesInside(b, e, 1);
    }
  }

  lemma NoExec(b: Text, p: nat, d: Dialect)
    requires d.MySql? ==> p + 2 < |b| && b[p + 2] != BANG
    ensures !d.ExecutableCommentAt(b, p)
  {
    if d.MySql? && StartsWithAt(b, p, [SLASH, STAR, BANG]) {
      StartsWithByte(b, p, [SLASH, STAR, BANG], 2);
      assert false;
    }
  }

  lemma PlacedDollar(b: Text, p: nat, t: Token, d: Dialect)
    requires t.Dollar? && TokenOk(t, d) && Placed(b, p, t)
    ensures b[p] == DOLLAR && d.DollarQuotes() && DollarEnd(b, p) == Some(p + |Written(t)|)
  {
    hide StartsWithAt, FreeOf, DollarEnd;
    DollarSpan(b, p, t.name, t.body);
    StartsWithByte(b, p, Written(t), 0);
  }

  lemma NoExecAt(b: Text, p: nat, d: Dialect)
    requires p < |b| && b[p] != SLASH
    ensures !d.ExecutableCommentAt(b, p)
  {
    if StartsWithAt(b, p, [SLASH, STAR, BANG]) {
      StartsWithByte(b, p, [SLASH, STAR, BANG], 0);
      assert false;
    }
  }

  lemma PlacedSize(b: Text, p: nat, t: Token)
    requires Placed(b, p, t)
    ensures p + |Written(t)| < |b| && b[p + |Written(t)|] == SPACE
  {
    StartsWithByte(b, p + |Written(t)|, [SPACE], 0);
  }

  /** A literal or comment is one lexeme for the stripper. */
  lemma NoiseToken(b: Text, p: nat, t: Token, d: Dialect, end: nat)
    requires IsNoise(t) && TokenOk(t, d) && Placed(b, p, t) && p + |Written(t)| < end <= |b|
    ensures !d.ExecutableCommentAt(b, p) && NoiseEnd(b, p, end, d) == Some(p + LexemeSize(t))
    ensures !IsWordByte(b[p])
  {
    hide StartsWithAt, FreeOf, DollarEnd, LineEnd, TokenOk, Written, Placed, QuotedEnd, BlockEnd;
    hide d.ExecutableCommentAt;
    if t.Quote? {
      PlacedQuote(b, p, t, d);
      NoExecAt(b, p, d);
    } else if t.DashLine? || t.HashLine? {
      PlacedLine(b, p, t, d);
      NoExecAt(b, p, d);
    } else if t.Flat? || t.Nest? {
      PlacedBlock(b, p, t, d);
    } else {
      PlacedDollar(b, p, t, d);
      NoExecAt(b, p, d);
    }
  }

  // ----- stripping -----

  lemma NoiseStrips(b: Text, p: nat, e: nat, d: Dialect, end: nat)
    requires p < end <= |b| && !d.ExecutableCommentAt(b, p) && NoiseEnd(b, p, end, d) == Some(e)
    ensures StripFrom(b, p, end, d) == BlankText(b[p..e]) + StripFrom(b, e, end, d)
  {
    hide StripFrom, NoiseEnd;
    StripUnroll(b, p, end, d);
    var x, y := Piece(b, p, end, d), BlankText(b[p..e]);
    forall k | 0 <= k < e - p ensures x[k] == y[k] {
      PieceAt(b, p, end, d, p + k);
      assert b[p..e][k] == b[p + k];
    }
    assert x == y;
  }

  lemma PlainStrips(b: Text, p: nat, d: Dialect, end: nat)
    requires p < end <= |b| && !d.ExecutableCommentAt(b, p) && NoiseEnd(b, p, end, d) == None
    ensures StripFrom(b, p, end, d) == [b[p]] + StripFrom(b, p + 1, end, d)
  {
    hide StripFrom, NoiseEnd;
    StripUnroll(b, p, end, d);
  }

  /** A byte that opens nothing is copied. */
  lemma ByteStrips(b: Text, p: nat, d: Dialect, end: nat)
    requires p < end <= |b| && IsPlain(b[p])
    ensures StripFrom(b, p, end, d) == [b[p]] + StripFrom(b, p + 1, end, d)
  {
    hide StripFrom, Piece;
    StripUnroll(b, p, end, d);
    PlainStep(b, p, end, d);
  }

  lemma WordStrips(b: Text, p: nat, w: Text, d: Dialect, end: nat)
    requires StartsWithAt(b, p, w) && IsWord(w) && p + |w| <= end <= |b|
    ensures StripFrom(b, p, end, d) == w + StripFrom(b, p + |w|, end, d)
  {
    hide StripFrom;
    forall k | p <= k < p + |w| ensures IsPlain(b[k]) {
      assert b[p..p + |w|][k - p] == b[k];
      assert IsWordByte(w[k - p]);
    }
    StripCopies(b, p, p + |w|, end, d);
  }

  /** A single symbol before a space opens nothing. */
  lemma SymbolIsPlain(b: Text, p: nat, c: Byte, d: Dialect, end: nat)
    requires TokenOk(Symbol(c), d) && Placed(b, p, Symbol(c)) && p + 1 < end <= |b|
    ensures b[p] == c && !IsWordByte(c) && !d.ExecutableCommentAt(b, p) && NoiseEnd(b, p, end, d) == None
  {
    StartsWithByte(b, p, [c], 0);
    StartsWithByte(b, p + 1, [SPACE], 0);
    if d.ExecutableCommentAt(b, p) {
      StartsWithByte(b, p, [SLASH, STAR, BANG], 1);
      assert false;
    }
  }

  /** Two minus signs that MySQL reads as operators. */
  lemma DashesArePlain(b: Text, p: nat, c: Byte, d: Dialect, end: nat)
    requires TokenOk(DoubleDash(c), d) && Placed(b, p, DoubleDash(c)) && p + 3 < end <= |b|
    ensures b[p] == DASH && b[p + 1] == DASH && b[p + 2] == c && IsPlain(c)
    ensures !d.ExecutableCommentAt(b, p) && NoiseEnd(b, p, end, d) == None
    ensures !d.ExecutableCommentAt(b, p + 1) && NoiseEnd(b, p + 1, end, d) == None
  {
    StartsWithByte(b, p, [DASH, DASH, c], 0);
    StartsWithByte(b, p, [DASH, DASH, c], 1);
    StartsWithByte(b, p, [DASH, DASH, c], 2);
    NoExecAt(b, p, d);
    NoExecAt(b, p + 1, d);
  }

  lemma NoiseTokenStrips(b: Text, p: nat, t: Token, d: Dialect, end: nat)
    requires IsNoise(t) && TokenOk(t, d) && Placed(b, p, t) && p + |Written(t)| < end <= |b|
    ensures StripFrom(b, p, end, d) == BlankText(Written(t)) + StripFrom(b, p + |Written(t)|, end, d)
  {
    hide StripFrom, NoiseEnd, TokenOk, Written;
    var n, e := p + LexemeSize(t), p + |Written(t)|;
    NoiseToken(b, p, t, d, end);
    NoiseStrips(b, p, n, d, end);
    assert b[p..e] == Written(t);
    if n < e {
      PlacedLine(b, p, t, d);
      ByteStrips(b, n, d, end);
      assert b[p..e] == b[p..n] + [b[n]];
      assert BlankText(b[p..e]) == BlankText(b[p..n]) + [NEWLINE];
      Assoc(BlankText(b[p..n]), [NEWLINE], StripFrom(b, e, end, d));
    }
  }

  /** A prefixed literal: the prefix is seen, the literal is not. */
  lemma PrefixedStrips(b: Text, p: nat, t: Token, d: Dialect, end: nat)
    requires t.Prefixed? && TokenOk(t, d) && Placed(b, p, t) && p + |Written(t)| < end <= |b|
    ensures StripFrom(b, p, end, d) == Seen(t) + StripFrom(b, p + |Written(t)|, end, d)
  {
    hide StripFrom, NoiseEnd, Written, TokenOk, Placed, BlankText, QuotedEnd, IsWord, StartsWithAt;
    var o, e := p + |t.w|, p + |Written(t)|;
    PrefixedEnds(b, p, t, d);
    WordStrips(b, p, t.w, d, end);
    NoExecAt(b, o, d);
    QuoteIsNoise(b, o, end, d);
    NoiseStrips(b, o, e, d, end);
    PrefixedSlice(b, p, t);
    Assoc(t.w, BlankText(b[o..e]), StripFrom(b, e, end, d));
  }

  lemma PrefixedSlice(b: Text, p: nat, t: Token)
    requires t.Prefixed? && Placed(b, p, t)
    ensures p + |Written(t)| <= |b| && |Written(t)| >= |t.w| && b[p + |t.w|..p + |Written(t)|] == Written(t)[|t.w|..]
  {
    hide AtomsText;
    var n := |Written(t)|;
    assert b[p..p + n] == Written(t);
    SliceOfSlice(b, p, p + n, |t.w|, n);
  }

  lemma QuoteIsNoise(b: Text, p: nat, end: nat, d: Dialect)
    requires p < end <= |b| && IsQuote(b[p]) && QuotedEnd(b, p, d) < end
    ensures NoiseEnd(b, p, end, d) == Some(QuotedEnd(b, p, d))
  {
  }

  lemma PrefixedEnds(b: Text, p: nat, t: Token, d: Dialect)
    requires t.Prefixed? && TokenOk(t, d) && Placed(b, p, t)
    ensures StartsWithAt(b, p, t.w) && IsPrefix(t.w) && p + |t.w| < |b| && IsQuote(b[p + |t.w|])
    ensures QuotedEnd(b, p + |t.w|, d) == p + |Written(t)|
  {
    hide StartsWithAt, AtomsText, AtomsOk, QuotedFrom, Spells;
    var o, q := p + |t.w|, t.q;
    var body := AtomsText(t.atoms, q) + [q];
    StartsWithSplit(b, p, t.w, [q] + body);
    StartsWithSplit(b, o, [q], body);
    StartsWithByte(b, o, [q], 0);
    PrefixBytes(b, p, t.w);
    PlacedSize(b, p, t);
    QuoteSpan(b, o + 1, t.atoms, q, Prefixing(t.w, q, d));
  }

  /** The last two bytes before the literal. */
  lemma PrefixBytes(b: Text, p: nat, w: Text)
    requires StartsWithAt(b, p, w) && IsWord(w)
    ensures b[p + |w| - 1] == w[|w| - 1] && (|w| > 1 ==> IsWordByte(b[p + |w| - 2])) && (|w| == 1 ==> w == [w[0]])
  {
    hide StartsWithAt;
    StartsWithByte(b, p, w, |w| - 1);
    if |w| > 1 {
      StartsWithByte(b, p, w, |w| - 2);
    }
  }

  /** Where the inside of an executable comment lies. */
  lemma ExecPlaced(b: Text, p: nat, t: Token, d: Dialect, end: nat)
    requires t.Exec? && TokenOk(t, d) && Placed(b, p, t) && p + |Written(t)| < end <= |b|
    ensures d.ExecutableCommentAt(b, p) && BlockCommentAt(b, p) && BlockEnd(b, p, d) == p + |Written(t)|
    ensures var body := p + 3 + |t.version|;
            ExecSpanAt(b, p, end, d) == ExecSpan(body, p + |Written(t)| - 2, p + |Written(t)|)
  {
    hide StartsWithAt, BlockFrom, Print, FreeOf, DigitEnd;
    var inside := ExecText(t.version, t.inner);
    StartsWithSplit(b, p, [SLASH, STAR], inside + [STAR, SLASH]);
    StartsWithByte(b, p, [SLASH, STAR], 0);
    StartsWithByte(b, p, [SLASH, STAR], 1);
    FlatSpan(b, p + 2, inside);
    StartsWithSplit(b, p + 2, inside, [STAR, SLASH]);
    StartsWithByte(b, p + 2 + |inside|, [STAR, SLASH], 0);
    StartsWithByte(b, p + 2 + |inside|, [STAR, SLASH], 1);
    StartsWithSplit(b, p + 2, [BANG] + t.version, [SPACE] + Print(t.inner));
    StartsWithSplit(b, p + 2, [BANG], t.version);
    StartsWithByte(b, p + 2, [BANG], 0);
    StartsWithByte(b, p + 3 + |t.version|, [SPACE] + Print(t.inner), 0);
    DigitsEnd(b, p + 3, t.version);
    ThreeBytes(b, p);
  }

  lemma ThreeBytes(b: Text, p: nat)
    requires p + 2 < |b| && b[p] == SLASH && b[p + 1] == STAR && b[p + 2] == BANG
    ensures StartsWithAt(b, p, [SLASH, STAR, BANG])
  {
    assert b[p..p + 3] == [SLASH, STAR, BANG];
  }

  lemma {:induction false} DigitsEnd(b: Text, i: nat, v: Text)
    requires StartsWithAt(b, i, v) && i + |v| < |b| && !IsDigit(b[i + |v|]) && forall k :: 0 <= k < |v| ==> IsDigit(v[k])
    ensures DigitEnd(b, i) == i + |v|
    decreases |v|
  {
    hide StartsWithAt;
    if v != [] {
      assert v == [v[0]] + v[1..];
      StartsWithByte(b, i, v, 0);
      StartsWithSplit(b, i, [v[0]], v[1..]);
      DigitsEnd(b, i + 1, v[1..]);
    }
  }

  /** What the stripper makes of the token at `p`. */
  lemma {:induction false} TokenStrips(b: Text, p: nat, t: Token, d: Dialect, end: nat)
    requires TokenOk(t, d) && Placed(b, p, t) && p + |Written(t)| < end <= |b|
    ensures StripFrom(b, p, end, d) == Seen(t) + StripFrom(b, p + |Written(t)|, end, d)
    decreases t, 0
  {
    hide StripFrom, NoiseEnd, Print, SeenAll, StartsWithAt;
    match t
    case Word(w) => WordStrips(b, p, w, d, end);
    case Symbol(c) =>
      SymbolIsPlain(b, p, c, d, end);
      PlainStrips(b, p, d, end);
    case DoubleDash(c) =>
      DashesArePlain(b, p, c, d, end);
      PlainStrips(b, p, d, end);
      PlainStrips(b, p + 1, d, end);
      ByteStrips(b, p + 2, d, end);
      Assoc([DASH], [DASH], [c] + StripFrom(b, p + 3, end, d));
      Assoc([DASH, DASH], [c], StripFrom(b, p + 3, end, d));
    case Prefixed(_, _, _) => PrefixedStrips(b, p, t, d, end);
    case Exec(version, inner) => ExecStrips(b, p, t, d, end);
    case _ => NoiseTokenStrips(b, p, t, d, end);
  }

  lemma {:induction false} ExecStrips(b: Text, p: nat, t: Token, d: Dialect, end: nat)
    requires t.Exec? && TokenOk(t, d) && Placed(b, p, t) && p + |Written(t)| < end <= |b|
    ensures StripFrom(b, p, end, d) == Seen(t) + StripFrom(b, p + |Written(t)|, end, d)
    decreases t.inner, 3
  {
    hide StripFrom, Print, SeenAll, StartsWithAt, FreeOf, ExecSpanAt, BlockEnd, BlankText, TokenOk, Written, Placed;
    ExecPlaced(b, p, t, d, end);
    ExecPiece(b, p, d, end);
    var x := ExecSpanAt(b, p, end, d);
    ExecParts(b, p, t);
    StartsWithSlice(b, p, [SLASH, STAR] + ([BANG] + t.version));
    StartsWithSlice(b, x.bodyEnd, [STAR, SLASH]);
    ExecInside(b, t, d, x.body, x.bodyEnd);
    assert BlankText([STAR, SLASH]) == [SPACE, SPACE];
  }

  /** The inside of an executable comment is stripped as live text. */
  lemma {:induction false} ExecInside(b: Text, t: Token, d: Dialect, body: nat, end: nat)
    requires t.Exec? && TokenOk(t, d) && StartsWithAt(b, body, [SPACE]) && StartsWithAt(b, body + 1, Print(t.inner))
    requires end == body + 1 + |Print(t.inner)| <= |b|
    ensures StripFrom(b, body, end, d) == [SPACE] + SeenAll(t.inner)
    decreases t.inner, 2
  {
    hide StripFrom, Print, SeenAll, StartsWithAt, FreeOf;
    StartsWithByte(b, body, [SPACE], 0);
    ByteStrips(b, body, d, end);
    ListStrips(b, body + 1, t.inner, d, end);
    assert StripFrom(b, end, end, d) == [];
  }

  lemma StartsWithSlice(b: Text, p: nat, t: Text)
    requires StartsWithAt(b, p, t)
    ensures p + |t| <= |b| && b[p..p + |t|] == t
  {
  }

  lemma ExecParts(b: Text, p: nat, t: Token)
    requires t.Exec? && Placed(b, p, t)
    ensures var body := p + 3 + |t.version|;
            && StartsWithAt(b, p, [SLASH, STAR] + ([BANG] + t.version))
            && StartsWithAt(b, body, [SPACE]) && StartsWithAt(b, body + 1, Print(t.inner))
            && StartsWithAt(b, p + |Written(t)| - 2, [STAR, SLASH]) && |Written(t)| == 6 + |t.version| + |Print(t.inner)|
  {
    hide StartsWithAt, Print;
    var mark, rest := [BANG] + t.version, [SPACE] + Print(t.inner);
    StartsWithSplit(b, p, [SLASH, STAR], ExecText(t.version, t.inner) + [STAR, SLASH]);
    StartsWithSplit(b, p + 2, mark + rest, [STAR, SLASH]);
    StartsWithSplit(b, p + 2, mark, rest);
    StartsWithSplit(b, p + 2 + |mark|, [SPACE], Print(t.inner));
    StartsWithSplit(b, p, [SLASH, STAR], mark);
  }

  /** An executable comment: the markers go blank, the inside is stripped as live text. */
  lemma ExecPiece(b: Text, p: nat, d: Dialect, end: nat)
    requires p < end <= |b| && d.ExecutableCommentAt(b, p)
    ensures var x := ExecSpanAt(b, p, end, d);
            StripFrom(b, p, end, d) ==
            BlankText(b[p..x.body]) + StripFrom(b, x.body, x.bodyEnd, d) + BlankText(b[x.bodyEnd..x.close]) + StripFrom(b, x.close, end, d)
  {
    hide StripFrom, ExecSpanAt, Piece, Next, Blank, BlankText;
    StripUnroll(b, p, end, d);
    var x := ExecSpanAt(b, p, end, d);
    BlankSlice(b, p, x.body);
    BlankSlice(b, x.bodyEnd, x.close);
    ExecWhole(b, p, end, d);
  }

  lemma ExecWhole(b: Text, p: nat, end: nat, d: Dialect)
    requires p < end <= |b| && d.ExecutableCommentAt(b, p)
    ensures var x := ExecSpanAt(b, p, end, d);
            && Piece(b, p, end, d) == Blank(b, p, x.body) + StripFrom(b, x.body, x.bodyEnd, d) + Blank(b, x.bodyEnd, x.close)
            && Next(b, p, end, d) == x.close
  {
    hide StripFrom, ExecSpanAt, Blank;
  }

  lemma BlankSlice(b: Text, i: nat, j: nat)
    requires i <= j <= |b|
    ensures Blank(b, i, j) == BlankText(b[i..j])
  {
    forall k | 0 <= k < j - i ensures Blank(b, i, j)[k] == BlankText(b[i..j])[k] {
      assert b[i..j][k] == b[i + k];
    }
  }

  lemma Regroup(x: Text, y: Text, z: Text, r: Text)
    ensures x + (y + (z + r)) == (x + y + z) + r
  {
  }

  lemma PrintStep(ts: seq<Token>)
    ensures ts == [] ==> Print(ts) == [] && SeenAll(ts) == []
    ensures ts != [] ==> Print(ts) == Written(ts[0]) + [SPACE] + Print(ts[1..])
    ensures ts != [] ==> SeenAll(ts) == Seen(ts[0]) + [SPACE] + SeenAll(ts[1..])
  {
    hide Written, Seen;
  }

  lemma {:induction false} ListStrips(b: Text, p: nat, ts: seq<Token>, d: Dialect, end: nat)
    requires (forall k :: 0 <= k < |ts| ==> TokenOk(ts[k], d)) && StartsWithAt(b, p, Print(ts))
    requires p + |Print(ts)| <= end <= |b| && (p > 0 ==> !IsWordByte(b[p - 1]))
    ensures StripFrom(b, p, end, d) == SeenAll(ts) + StripFrom(b, p + |Print(ts)|, end, d)
    decreases ts, 1
  {
    hide StripFrom, Written, Seen, StartsWithAt, TokenOk, Print, SeenAll;
    PrintStep(ts);
    if ts != [] {
      var t, rest := ts[0], Print(ts[1..]);
      var q := p + |Written(t)|;
      StartsWithSplit(b, p, Written(t) + [SPACE], rest);
      StartsWithSplit(b, p, Written(t), [SPACE]);
      StartsWithByte(b, q, [SPACE], 0);
      TokenStrips(b, p, t, d, end);
      ByteStrips(b, q, d, end);
      ListStrips(b, q + 1, ts[1..], d, end);
      Regroup(Seen(t), [SPACE], SeenAll(ts[1..]), StripFrom(b, p + |Print(ts)|, end, d));
    }
  }

  /** Literals, names and comments of every dialect strip to blanks, and all code stays. */
  lemma StripsTokens(ts: seq<Token>, d: Dialect)
    requires forall k :: 0 <= k < |ts| ==> TokenOk(ts[k], d)
    ensures Strip(Print(ts), d) == SeenAll(ts)
  {
    hide StripFrom, Print, SeenAll, TokenOk;
    var b := Print(ts);
    ListStrips(b, 0, ts, d, |b|);
    assert StripFrom(b, |b|, |b|, d) == [];
  }

  // ----- what is never closed -----

  /** A literal or comment that `u` opens and does not close. */
  ghost predicate OpensForGood(u: Text, d: Dialect) {
    || (|u| > 0 && (u[0] == SQUOTE || u[0] == DQUOTE || u[0] == BACKTICK) && u[0] !in u[1..])
    || (|u| > 1 && u[0] == DASH && u[1] == DASH && NEWLINE !in u && (d == MySql && |u| > 2 ==> IsSpace(u[2])))
    || (|u| > 0 && u[0] == HASH && d == MySql && NEWLINE !in u)
    || (|u| > 1 && u[0] == SLASH && u[1] == STAR && (d == MySql && |u| > 2 ==> u[2] != BANG)
        && forall k :: 2 <= k < |u| - 1 ==> !(u[k] == STAR && u[k + 1] == SLASH))
  }

  /** `u` is all that follows in `b` from `p` on. */
  ghost predicate Ends(b: Text, p: nat, u: Text) {
    |b| == p + |u| && forall k :: 0 <= k < |u| ==> b[p + k] == u[k]
  }

  lemma {:induction false} NoQuoteLeft(b: Text, j: nat, q: Byte, escapes: bool)
    requires j <= |b| && forall k :: j <= k < |b| ==> b[k] != q
    ensures QuotedFrom(b, j, q, escapes) == |b|
    decreases |b| - j
  {
    if j < |b| {
      NoQuoteLeft(b, j + QuotedWidth(b, j, q, escapes), q, escapes);
    }
  }

  lemma {:induction false} NoNewlineLeft(b: Text, j: nat)
    requires j <= |b| && forall k :: j <= k < |b| ==> b[k] != NEWLINE
    ensures LineEnd(b, j) == |b|
    decreases |b| - j
  {
    if j < |b| {
      NoNewlineLeft(b, j + 1);
    }
  }

  lemma {:induction false} NoCloseLeft(b: Text, j: nat, depth: nat, nests: bool)
    requires j <= |b| && depth > 0 && forall k :: j <= k < |b| - 1 ==> !(b[k] == STAR && b[k + 1] == SLASH)
    ensures BlockFrom(b, j, depth, nests) == |b|
    decreases |b| - j
  {
    if j + 1 < |b| {
      var mark := MarkAt(b, j, nests);
      NoCloseLeft(b, if mark.Neither? then j + 1 else j + 2, if mark.Opens? then depth + 1 else depth, nests);
    }
  }

  lemma UnclosedNoise(b: Text, p: nat, u: Text, d: Dialect)
    requires OpensForGood(u, d) && Ends(b, p, u) && (p > 0 ==> !IsWordByte(b[p - 1]))
    ensures p < |b| && !d.ExecutableCommentAt(b, p) && NoiseEnd(b, p, |b|, d) == Some(|b|)
  {
    hide QuotedFrom, LineEnd, BlockFrom, DollarEnd;
    assert b[p] == u[0];
    if u[0] == SQUOTE || u[0] == DQUOTE || u[0] == BACKTICK {
      forall k | p + 1 <= k < |b| ensures b[k] != u[0] {
        assert b[p + (k - p)] == u[k - p] && u[k - p] == u[1..][k - p - 1];
      }
      NoQuoteLeft(b, p + 1, u[0], QuoteEscapes(b, p, u[0], d));
      NoExecAt(b, p, d);
    } else if u[0] == DASH || u[0] == HASH {
      forall k | p <= k < |b| ensures b[k] != NEWLINE {
        assert b[p + (k - p)] == u[k - p] && u[k - p] in u;
      }
      NoExecAt(b, p, d);
      if u[0] == DASH {
        assert b[p + 1] == u[1] && (|u| > 2 ==> b[p + 2] == u[2]);
        NoNewlineLeft(b, p + 2);
      } else {
        NoNewlineLeft(b, p + 1);
      }
    } else {
      assert b[p + 1] == u[1] && (|u| > 2 ==> b[p + 2] == u[2]);
      forall k | p + 2 <= k < |b| - 1 ensures !(b[k] == STAR && b[k + 1] == SLASH) {
        assert b[p + (k - p)] == u[k - p] && b[p + (k - p + 1)] == u[k - p + 1];
      }
      NoCloseLeft(b, p + 2, 1, d.NestedBlockComments());
      NoBang(b, p, d);
    }
  }

  lemma NoBang(b: Text, p: nat, d: Dialect)
    requires p + 2 < |b| && d == MySql ==> b[p + 2] != BANG
    ensures !d.ExecutableCommentAt(b, p)
  {
    if d.ExecutableCommentAt(b, p) {
      StartsWithByte(b, p, [SLASH, STAR, BANG], 2);
      assert false;
    }
  }

  /** A literal or comment that is never closed hides the rest of the script. */
  lemma UnclosedIsHidden(ts: seq<Token>, u: Text, d: Dialect)
    requires (forall k :: 0 <= k < |ts| ==> TokenOk(ts[k], d)) && OpensForGood(u, d)
    ensures Strip(Print(ts) + u, d) == SeenAll(ts) + BlankText(u)
  {
    hide StripFrom, Print, SeenAll, TokenOk, NoiseEnd, OpensForGood;
    var b, p := Print(ts) + u, |Print(ts)|;
    assert b[..p] == Print(ts) && b[p..] == u;
    ListStrips(b, 0, ts, d, |b|);
    PrintEnds(ts);
    UnclosedNoise(b, p, u, d);
    NoiseStrips(b, p, |b|, d, |b|);
    assert b[p..|b|] == u;
    assert StripFrom(b, |b|, |b|, d) == [];
  }

  lemma {:induction false} PrintEnds(ts: seq<Token>)
    ensures Print(ts) != [] ==> Print(ts)[|Print(ts)| - 1] == SPACE
    decreases |ts|
  {
    hide Written, Seen;
    PrintStep(ts);
    if ts != [] {
      PrintEnds(ts[1..]);
    }
  }
}
