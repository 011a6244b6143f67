/**
 * Event streams as a server writes them, and what the reader of crates/red-ai/src/anthropic.rs
 * takes from them: the payloads of the `data:` lines, in order.
 */
module SseFrames {
  import opened Bytes
  import opened Wrappers
  import opened JsonText
  import opened Turn
  import opened Utf8Lossy
  import opened Search
  import opened Sse
  import Utf8

  // ----- streams -----

  /** A line without its newline: `data:` with its payload, or anything else. */
  datatype Line =
    | Data(lead: Bytes.Text, payload: Bytes.Text, tail: Bytes.Text)
    | Blank(spaces: Bytes.Text) // `data:` with nothing behind it
    | Note(text: Bytes.Text) // `event: …`, a comment, an empty line

  function LineText(l: Line): Bytes.Text {
    match l
    case Data(lead, payload, tail) => Ascii("data:") + (lead + payload + tail)
    case Blank(spaces) => Ascii("data:") + spaces
    case Note(text) => text
  }

  function Wire(ls: seq<Line>): Bytes.Text {
    if ls == [] then [] else LineText(ls[0]) + [10] + Wire(ls[1..])
  }

  /** Spaces, tabs and carriage returns: no newline. */
  predicate Blanks(t: Bytes.Text) {
    forall k :: 0 <= k < |t| ==> t[k] == 32 || t[k] == 9 || t[k] == 13
  }

  /** Text that begins and ends with a visible ASCII character, on one line. */
  predicate Solid(t: Bytes.Text) {
    t != [] && 32 < t[0] < 127 && 32 < t[|t| - 1] < 127 && 10 !in t && Utf8.Valid(t)
  }

  predicate LineOk(l: Line) {
    match l
    case Data(lead, payload, tail) => Blanks(lead) && Solid(payload) && Blanks(tail)
    case Blank(spaces) => Blanks(spaces)
    case Note(text) => 10 !in text && Utf8.Valid(text) && !StartsWithAt(text, 0, Ascii("data:"))
  }

  /** What the stream carries. */
  function Payloads(parse: Bytes.Text -> Option<Json>, ls: seq<Line>): seq<Json> {
    if ls == [] then []
    else
      (if ls[0].Data? && parse(ls[0].payload).Some? then [parse(ls[0].payload).value] else []) + Payloads(parse, ls[1..])
  }

  // ----- trimming -----

  lemma {:induction false} EndTrimmed(x: Bytes.Text, w: Bytes.Text, c: Byte)
    requires x == [] || x[|x| - 1] != c
    ensures exists n :: 0 <= n <= |w| && TrimEndByte(x + w, c) == x + w[..n]
    decreases |w|
  {
    var b := x + w;
    if w == [] {
      assert b == x && x + w[..0] == x;
    } else if b[|b| - 1] == c {
      assert b[..|b| - 1] == x + w[..|w| - 1];
      EndTrimmed(x, w[..|w| - 1], c);
      var n :| 0 <= n <= |w| - 1 && TrimEndByte(x + w[..|w| - 1], c) == x + w[..|w| - 1][..n];
      assert w[..|w| - 1][..n] == w[..n];
    } else {
      assert TrimEndByte(b, c) == b && b == x + w[..|w|];
    }
  }

  lemma {:induction false} StartSpaces(w: Bytes.Text, x: Bytes.Text)
    requires Blanks(w) && (x == [] || 32 < x[0] < 127)
    ensures Utf8.TrimStart(w + x) == x
    decreases |w|
  {
    if w == [] {
      assert w + x == x;
    } else {
      assert (w + x)[1..] == w[1..] + x;
      StartSpaces(w[1..], x);
    }
  }

  lemma SolidEnd(x: Bytes.Text)
    requires x == [] || 32 < x[|x| - 1] < 127
    ensures Utf8.LastSpaceLen(x) == 0
  {
  }

  lemma {:induction false} EndSpaces(x: Bytes.Text, w: Bytes.Text)
    requires Blanks(w) && (x == [] || 32 < x[|x| - 1] < 127)
    ensures Utf8.TrimEnd(x + w) == x
    decreases |w|
  {
    hide Utf8.LastSpaceLen;
    if w == [] {
      assert x + w == x;
      SolidEnd(x);
    } else {
      var b := x + w;
      assert b[|b| - 1] == w[|w| - 1];
      OneSpace(b);
      assert b[..|b| - 1] == x + w[..|w| - 1];
      EndSpaces(x, w[..|w| - 1]);
    }
  }

  lemma OneSpace(b: Bytes.Text)
    requires b != [] && (b[|b| - 1] == 32 || b[|b| - 1] == 9 || b[|b| - 1] == 13)
    ensures Utf8.LastSpaceLen(b) == 1
  {
  }

  lemma Trimmed(lead: Bytes.Text, payload: Bytes.Text, tail: Bytes.Text)
    requires Blanks(lead) && Blanks(tail) && (payload == [] || (32 < payload[0] < 127 && 32 < payload[|payload| - 1] < 127))
    ensures payload != [] ==> Utf8.Trim(lead + payload + tail) == payload
    ensures payload == [] ==> Utf8.Trim(lead) == []
  {
    hide Utf8.TrimStart, Utf8.TrimEnd;
    if payload == [] {
      assert lead + [] == lead && [] + payload == [];
      StartSpaces(lead, []);
      EndSpaces([], []);
      assert Utf8.TrimEnd([]) == [];
    } else {
      assert lead + payload + tail == lead + (payload + tail);
      StartSpaces(lead, payload + tail);
      EndSpaces(payload, tail);
    }
  }

  // ----- lines -----

  lemma BlanksValid(t: Bytes.Text)
    requires Blanks(t)
    ensures Utf8.Valid(t)
  {
    Utf8.AsciiFrom(t, 0);
  }

  lemma DataWord()
    ensures Ascii("data:") == DATA && Utf8.Valid(Ascii("data:")) && 10 !in Ascii("data:")
  {
    DataBytes();
    DataValid();
  }

  lemma DataBytes()
    ensures Ascii("data:") == DATA && 10 !in DATA
  {
  }

  lemma DataValid()
    ensures Utf8.Valid(DATA)
  {
    Utf8.AsciiFrom(DATA, 0);
  }

  lemma LineIsText(l: Line)
    requires LineOk(l)
    ensures 10 !in LineText(l) && Utf8.Valid(LineText(l) + [10])
  {
    hide Utf8.Valid, Ascii;
    DataWord();
    match l {
      case Data(lead, payload, tail) =>
        BlanksValid(lead);
        BlanksValid(tail);
        Utf8.ConcatValid(lead, payload);
        Utf8.ConcatValid(lead + payload, tail);
        Utf8.ConcatValid(Ascii("data:"), lead + payload + tail);
      case Blank(spaces) =>
        BlanksValid(spaces);
        Utf8.ConcatValid(Ascii("data:"), spaces);
      case Note(_) =>
    }
    NewlineValid();
    Utf8.ConcatValid(LineText(l), [10]);
  }

  lemma NewlineValid()
    ensures Utf8.Valid([10])
  {
    Utf8.AsciiFrom([10], 0);
  }

  /** The line as it is matched, less some of the carriage returns at its end. */
  lemma LineTrimmed(x: Bytes.Text, w: Bytes.Text)
    requires 10 !in x + w && (x == [] || x[|x| - 1] != 13)
    ensures exists n :: 0 <= n <= |w| && TrimEndByte(TrimEndByte(x + w + [10], 10), 13) == x + w[..n]
  {
    hide TrimEndByte;
    var y := x + w;
    assert y != [] ==> y[|y| - 1] in y;
    EndTrimmed(y, [10], 10);
    OneTrimmed(y);
    EndTrimmed(x, w, 13);
  }

  lemma OneTrimmed(y: Bytes.Text)
    requires 10 !in y
    ensures TrimEndByte(y + [10], 10) == y
  {
    var b := y + [10];
    assert b[..|b| - 1] == y;
    assert y != [] ==> y[|y| - 1] in y;
    assert TrimEndByte(b, 10) == TrimEndByte(y, 10);
  }

  lemma DataEvent(parse: Bytes.Text -> Option<Json>, l: Line)
    requires LineOk(l) && l.Data?
    ensures EventOf(parse, LineText(l) + [10]) == parse(l.payload)
  {
    hide Utf8.Trim, TrimEndByte, Lossy, Utf8.Valid, Ascii;
    LineIsText(l);
    LossyExact(LineText(l) + [10]);
    DataWord();
    var x := Ascii("data:") + (l.lead + l.payload);
    assert LineText(l) == x + l.tail;
    assert x[|x| - 1] == l.payload[|l.payload| - 1];
    LineTrimmed(x, l.tail);
    var n :| 0 <= n <= |l.tail| && TrimEndByte(TrimEndByte(x + l.tail + [10], 10), 13) == x + l.tail[..n];
    var rest := x + l.tail[..n];
    assert rest[..5] == DATA && rest[5..] == l.lead + l.payload + l.tail[..n];
    Trimmed(l.lead, l.payload, l.tail[..n]);
  }

  lemma BlankEvent(parse: Bytes.Text -> Option<Json>, l: Line)
    requires LineOk(l) && l.Blank?
    ensures EventOf(parse, LineText(l) + [10]) == None
  {
    hide Utf8.Trim, TrimEndByte, Lossy, Utf8.Valid, Ascii;
    LineIsText(l);
    LossyExact(LineText(l) + [10]);
    DataWord();
    var x := Ascii("data:");
    LineTrimmed(x, l.spaces);
    var n :| 0 <= n <= |l.spaces| && TrimEndByte(TrimEndByte(x + l.spaces + [10], 10), 13) == x + l.spaces[..n];
    var rest := x + l.spaces[..n];
    assert rest[..5] == DATA && rest[5..] == l.spaces[..n];
    Trimmed(l.spaces[..n], [], []);
  }

  lemma {:induction false} PrefixStays(t: Bytes.Text, c: Byte)
    ensures |TrimEndByte(t, c)| <= |t| && TrimEndByte(t, c) == t[..|TrimEndByte(t, c)|]
    decreases |t|
  {
    if t != [] && t[|t| - 1] == c {
      PrefixStays(t[..|t| - 1], c);
      var n := |TrimEndByte(t, c)|;
      assert t[..|t| - 1][..n] == t[..n];
    } else {
      assert t[..|t|] == t;
    }
  }

  lemma PrefixStarts(r: Bytes.Text, t: Bytes.Text, w: Bytes.Text)
    requires |r| <= |t| && r == t[..|r|] && StartsWithAt(r, 0, w)
    ensures StartsWithAt(t, 0, w)
  {
    assert r[..|w|] == t[..|w|];
  }

  lemma NoteEvent(parse: Bytes.Text -> Option<Json>, l: Line)
    requires LineOk(l) && l.Note?
    ensures EventOf(parse, LineText(l) + [10]) == None
  {
    hide Utf8.Trim, TrimEndByte, Lossy, Utf8.Valid, Ascii;
    LineIsText(l);
    LossyExact(LineText(l) + [10]);
    DataWord();
    OneTrimmed(l.text);
    PrefixStays(l.text, 13);
    var r := TrimEndByte(l.text, 13);
    if StartsWithAt(r, 0, DATA) {
      PrefixStarts(r, l.text, DATA);
      assert false;
    }
  }

  lemma LineEvent(parse: Bytes.Text -> Option<Json>, l: Line)
    requires LineOk(l)
    ensures Carried(parse, LineText(l) + [10]) == if l.Data? && parse(l.payload).Some? then [parse(l.payload).value] else []
  {
    hide EventOf, LineOk, LineText;
    match l
    case Data(_, _, _) => DataEvent(parse, l);
    case Blank(_) => BlankEvent(parse, l);
    case Note(_) => NoteEvent(parse, l);
  }

  lemma WireLines(ls: seq<Line>)
    requires ls != [] && LineOk(ls[0])
    ensures Lines(Wire(ls)) == [LineText(ls[0]) + [10]] + Lines(Wire(ls[1..]))
  {
    hide Lines, LineText, LineOk;
    var x, y := LineText(ls[0]), Wire(ls[1..]);
    LineIsText(ls[0]);
    var b := Wire(ls);
    FirstAt(x, NEWLINE, y);
    assert b == x + [NEWLINE] + y;
    LinesStep(b);
    assert b[..|x| + 1] == x + [10] && b[|x| + 1..] == y;
  }

  /** From a stream of lines the reader takes exactly the payloads that parse, in order. */
  lemma {:induction false} StreamCarries(parse: Bytes.Text -> Option<Json>, ls: seq<Line>)
    requires forall k :: 0 <= k < |ls| ==> LineOk(ls[k])
    ensures Events(parse, Lines(Wire(ls))) == Payloads(parse, ls)
    decreases |ls|
  {
    hide Lines, LineText, LineOk, Carried, Events;
    if ls == [] {
      NoLines();
      EventsStep(parse, []);
    } else {
      WireLines(ls);
      LineEvent(parse, ls[0]);
      StreamCarries(parse, ls[1..]);
      EventsStep(parse, Lines(Wire(ls)));
    }
  }
}
