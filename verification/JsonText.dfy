/**
 * Compact JSON text and its reader (RFC 8259), restricted to integer numbers: the
 * carrier of the extended-JSON writer.
 */
module JsonText {
  import opened Wrappers

  datatype Json =
    | JNull
    | JBool(b: bool)
    | JInt(n: int)
    | JReal(x: Fractional)
    | JStr(s: string)
    | JArr(items: seq<Json>)
    | JObj(fields: seq<Member>)

  datatype Member = Member(name: string, value: Json)

  // ----- numbers -----

  /** A finite double as its decimal text: sign, whole part and the digits behind the point. */
  datatype Fixed = Fixed(negative: bool, whole: nat, fraction: string)

  /** The text of some double: its fraction is digits, or nothing. */
  type Finite = x: Fixed | AllDigits(x.fraction) witness Fixed(false, 0, "")

  /** A number that is no integer: it has a fraction, or is minus zero. */
  type Fractional = x: Fixed | AllDigits(x.fraction) && IsFractional(x) witness Fixed(true, 0, "")

  predicate AllDigits(s: string) {
    forall k :: 0 <= k < |s| ==> IsDigit(s[k])
  }

  predicate IsFractional(x: Fixed) {
    x.fraction == "" ==> x.negative && x.whole == 0
  }

  /** The integer a number without fraction is. */
  function IntegerOf(x: Fixed): int {
    var n: int := x.whole;
    if x.negative then -n else n
  }

  function FixedText(x: Fixed): string {
    (if x.negative then "-" else "") + Digits(x.whole) + (if x.fraction == "" then "" else "." + x.fraction)
  }

  function DigitChar(n: int): char
    requires 0 <= n < 10
  {
    (48 + n) as char
  }

  predicate IsDigit(c: char) {
    '0' <= c <= '9'
  }

  /** Decimal digits of `n`, no leading zeros. */
  function Digits(n: nat): string {
    if n < 10 then [DigitChar(n)] else Digits(n / 10) + [DigitChar(n % 10)]
  }

  function Decimal(n: int): string {
    if n < 0 then "-" + Digits(-n) else Digits(n)
  }

  /** The value of the digits of `s`, read into `acc`. */
  function DigitsValue(s: string, acc: int): (n: int)
    requires forall k :: 0 <= k < |s| ==> IsDigit(s[k])
    ensures acc >= 0 ==> n >= 0
  {
    if s == "" then acc
    else
      assert IsDigit(s[0]);
      DigitsValue(s[1..], 10 * acc + (s[0] as int - 48))
  }

  /** How many digits `s` starts with. */
  function DigitRun(s: string): (n: nat)
    ensures n <= |s|
    ensures forall k :: 0 <= k < n ==> IsDigit(s[k])
  {
    if s != "" && IsDigit(s[0]) then 1 + DigitRun(s[1..]) else 0
  }

  lemma {:induction false} DigitsAreDigits(n: nat)
    ensures Digits(n) != "" && forall k :: 0 <= k < |Digits(n)| ==> IsDigit(Digits(n)[k])
  {
    if n >= 10 {
      DigitsAreDigits(n / 10);
    }
  }

  lemma {:induction false} DigitsValueSnoc(s: string, c: char, acc: int)
    requires IsDigit(c) && forall k :: 0 <= k < |s| ==> IsDigit(s[k])
    ensures DigitsValue(s + [c], acc) == 10 * DigitsValue(s, acc) + (c as int - 48)
    decreases |s|
  {
    var t := s + [c];
    if s == "" {
      assert t[1..] == "";
    } else {
      assert t[1..] == s[1..] + [c];
      DigitsValueSnoc(s[1..], c, 10 * acc + (s[0] as int - 48));
    }
  }

  lemma {:induction false} DigitsRead(n: nat)
    ensures forall k :: 0 <= k < |Digits(n)| ==> IsDigit(Digits(n)[k])
    ensures DigitsValue(Digits(n), 0) == n
  {
    DigitsAreDigits(n);
    if n >= 10 {
      DigitsRead(n / 10);
      DigitsValueSnoc(Digits(n / 10), DigitChar(n % 10), 0);
    }
  }

  lemma {:induction false} DigitRunOf(s: string, rest: string)
    requires (forall k :: 0 <= k < |s| ==> IsDigit(s[k])) && (rest != "" ==> !IsDigit(rest[0]))
    ensures DigitRun(s + rest) == |s|
    decreases |s|
  {
    var t := s + rest;
    if s == "" {
      assert t == rest;
    } else {
      assert t[1..] == s[1..] + rest;
      DigitRunOf(s[1..], rest);
    }
  }

  // ----- strings -----

  function HexChar(n: int): char
    requires 0 <= n < 16
  {
    if n < 10 then (48 + n) as char else (87 + n) as char
  }

  function HexValue(c: char): (r: Option<int>)
    ensures r.Some? ==> 0 <= r.value < 16
  {
    if '0' <= c <= '9' then Some(c as int - 48)
    else if 'a' <= c <= 'f' then Some(c as int - 87)
    else if 'A' <= c <= 'F' then Some(c as int - 55)
    else None
  }

  lemma HexRoundTrip(n: int)
    requires 0 <= n < 16
    ensures HexValue(HexChar(n)) == Some(n)
  {
  }

  /** One character inside a string literal, as `write_json_string` escapes it. */
  function EscapeChar(c: char): string {
    if c == '\"' then ['\\', '\"']
    else if c == '\\' then ['\\', '\\']
    else if c == '\n' then ['\\', 'n']
    else if c == '\r' then ['\\', 'r']
    else if c == '\t' then ['\\', 't']
    else if c as int == 8 then ['\\', 'b']
    else if c as int == 12 then ['\\', 'f']
    else if c as int < 0x20 then ['\\', 'u', '0', '0', HexChar(c as int / 16), HexChar(c as int % 16)]
    else [c]
  }

  /** Only quotes, backslashes and control characters are escaped, in the shortest form JSON has for each. */
  lemma EscapesShortest(c: char)
    ensures |EscapeChar(c)| ==
            if c in ['\"', '\\', '\n', '\r', '\t', 8 as char, 12 as char] then 2 else if c as int < 0x20 then 6 else 1
  {
  }

  function EscapeAll(s: string): string {
    if s == "" then "" else EscapeChar(s[0]) + EscapeAll(s[1..])
  }

  /** A string literal with its quotes. */
  function Quoted(s: string): string {
    ['\"'] + EscapeAll(s) + ['\"']
  }

  lemma {:induction false} EscapeSnoc(s: string, c: char)
    ensures EscapeAll(s + [c]) == EscapeAll(s) + EscapeChar(c)
    decreases |s|
  {
    hide EscapeChar;
    var t := s + [c];
    if s == "" {
      assert t[1..] == "";
    } else {
      assert t[1..] == s[1..] + [c];
      EscapeSnoc(s[1..], c);
    }
  }

  method WriteJsonString(out: string, s: string) returns (r: string)
    ensures r == out + Quoted(s)
  {
    hide EscapeChar, EscapeAll;
    r := out + ['\"'];
    EscapeNone();
    for i := 0 to |s|
      invariant r == out + ['\"'] + EscapeAll(s[..i])
    {
      EscapeSnoc(s[..i], s[i]);
      assert s[..i + 1] == s[..i] + [s[i]];
      r := r + EscapeChar(s[i]);
    }
    assert s[..|s|] == s;
    r := r + ['\"'];
  }

  lemma EscapeNone()
    ensures EscapeAll("") == ""
  {
  }

  /** A code unit written as four hex digits. */
  function HexUnit(s: string): (r: Option<int>)
    ensures r.Some? ==> 0 <= r.value < 0x10000 && |s| >= 4
  {
    if |s| < 4 then None
    else
      var a, b, c, d := HexValue(s[0]), HexValue(s[1]), HexValue(s[2]), HexValue(s[3]);
      if a.Some? && b.Some? && c.Some? && d.Some? then Some(4096 * a.value + 256 * b.value + 16 * c.value + d.value) else None
  }

  datatype Parsed<T> = Parsed(value: T, rest: string)

  /** One escape sequence after its backslash (section 7 of RFC 8259). */
  function ReadEscape(s: string): (r: Option<Parsed<char>>)
    ensures r.Some? ==> |r.value.rest| < |s|
  {
    if s == "" then None
    else
      var c := s[0];
      if c == '\"' || c == '\\' || c == '/' then Some(Parsed(c, s[1..]))
      else if c == 'b' then Some(Parsed(8 as char, s[1..]))
      else if c == 'f' then Some(Parsed(12 as char, s[1..]))
      else if c == 'n' then Some(Parsed('\n', s[1..]))
      else if c == 'r' then Some(Parsed('\r', s[1..]))
      else if c == 't' then Some(Parsed('\t', s[1..]))
      else if c == 'u' then
        match HexUnit(s[1..])
        case None => None
        case Some(u) =>
          if u < 0xD800 || u >= 0xE000 then Some(Parsed(u as char, s[5..]))
          else if u < 0xDC00 && |s| >= 11 && s[5] == '\\' && s[6] == 'u' then
            (match HexUnit(s[7..])
             case Some(v) =>
               if 0xDC00 <= v < 0xE000 then Some(Parsed((0x10000 + (u - 0xD800) * 0x400 + (v - 0xDC00)) as char, s[11..])) else None
             case None => None)
          else None
      else None
  }

  /** The rest of a string literal after its opening quote. */
  function ReadString(s: string): (r: Option<Parsed<string>>)
    ensures r.Some? ==> |r.value.rest| < |s|
    decreases |s|
  {
    if s == "" then None
    else if s[0] == '\"' then Some(Parsed("", s[1..]))
    else if s[0] == '\\' then
      match ReadEscape(s[1..])
      case None => None
      case Some(e) =>
        (match ReadString(e.rest)
         case Some(p) => Some(Parsed([e.value] + p.value, p.rest))
         case None => None)
    else if s[0] as int < 0x20 then None
    else
      match ReadString(s[1..])
      case Some(p) => Some(Parsed([s[0]] + p.value, p.rest))
      case None => None
  }

  lemma EscapeRead(c: char, rest: string)
    requires |EscapeChar(c)| > 1
    ensures EscapeChar(c)[0] == '\\'
    ensures ReadEscape(EscapeChar(c)[1..] + rest) == Some(Parsed(c, rest))
  {
    var e := EscapeChar(c);
    var t := e[1..] + rest;
    if |e| == 2 {
      assert t == [e[1]] + rest;
      assert t[1..] == rest;
    } else {
      HexRoundTrip(c as int / 16);
      HexRoundTrip(c as int % 16);
      var h := ['0', '0', HexChar(c as int / 16), HexChar(c as int % 16)];
      assert t == ['u'] + h + rest;
      assert t[1..] == h + rest && t[5..] == rest;
      assert HexUnit(t[1..]) == Some(c as int);
    }
  }

  lemma ReadStringStep(c: char, t: string)
    ensures ReadString(EscapeChar(c) + t) ==
            match ReadString(t)
            case Some(p) => Some(Parsed([c] + p.value, p.rest))
            case None => None
  {
    hide ReadEscape;
    var e := EscapeChar(c);
    var s := e + t;
    if |e| == 1 {
      assert s[1..] == t;
    } else {
      EscapeRead(c, t);
      assert s[0] == '\\' && s[1..] == e[1..] + t;
    }
  }

  /** Every string is read back from its literal. */
  lemma {:induction false} StringRoundTrip(s: string, rest: string)
    ensures ReadString(EscapeAll(s) + ['\"'] + rest) == Some(Parsed(s, rest))
    decreases |s|
  {
    hide EscapeChar;
    var t := EscapeAll(s) + ['\"'] + rest;
    if s == "" {
      assert t == ['\"'] + rest;
      assert t[1..] == rest;
    } else {
      var u := EscapeAll(s[1..]) + ['\"'] + rest;
      assert t == EscapeChar(s[0]) + u;
      StringRoundTrip(s[1..], rest);
      ReadStringStep(s[0], u);
      assert s == [s[0]] + s[1..];
    }
  }

  // ----- values -----

  function Print(j: Json): string
    decreases j, 1
  {
    match j
    case JNull => "null"
    case JBool(b) => if b then "true" else "false"
    case JInt(n) => Decimal(n)
    case JReal(x) => FixedText(x)
    case JStr(s) => Quoted(s)
    case JArr(items) => "[" + Items(items) + "]"
    case JObj(fields) => "{" + Members(fields) + "}"
  }

  /** Array items joined with commas. */
  function Items(items: seq<Json>): string
    decreases items, 0
  {
    if items == [] then ""
    else if |items| == 1 then Print(items[0])
    else Print(items[0]) + "," + Items(items[1..])
  }

  function MemberText(f: Member): string
    decreases f, 0
  {
    Quoted(f.name) + ":" + Print(f.value)
  }

  function Members(fields: seq<Member>): string
    decreases fields, 0
  {
    if fields == [] then ""
    else if |fields| == 1 then MemberText(fields[0])
    else MemberText(fields[0]) + "," + Members(fields[1..])
  }

  /** Digits, and a point and digits if they follow. */
  function ReadUnsigned(negative: bool, t: string): (r: Option<Parsed<Json>>)
    ensures r.Some? ==> |r.value.rest| < |t|
  {
    var n := DigitRun(t);
    if n == 0 then None
    else
      var v, rest := DigitsValue(t[..n], 0), t[n..];
      var m := if Leads(rest, '.') then DigitRun(rest[1..]) else 0;
      if m > 0 then Some(Parsed(JReal(Fixed(negative, v, rest[1..][..m])), rest[1..][m..]))
      else if negative && v == 0 then Some(Parsed(JReal(Fixed(true, 0, "")), rest))
      else Some(Parsed(JInt(if negative then -v else v), rest))
  }

  function ReadNumber(s: string): (r: Option<Parsed<Json>>)
    ensures r.Some? ==> |r.value.rest| < |s|
  {
    if Leads(s, '-') then ReadUnsigned(true, s[1..]) else ReadUnsigned(false, s)
  }

  /** The word `w` at the start of `s`, standing for `j`. */
  function ReadWord(s: string, w: string, j: Json): (r: Option<Parsed<Json>>)
    requires w != ""
    ensures r.Some? ==> |r.value.rest| < |s|
  {
    if |w| <= |s| && s[..|w|] == w then Some(Parsed(j, s[|w|..])) else None
  }

  predicate Leads(s: string, c: char) {
    s != "" && s[0] == c
  }

  function ReadValue(s: string): (r: Option<Parsed<Json>>)
    ensures r.Some? ==> |r.value.rest| < |s|
    decreases |s|, 0
  {
    if Leads(s, 'n') then ReadWord(s, "null", JNull)
    else if Leads(s, 't') then ReadWord(s, "true", JBool(true))
    else if Leads(s, 'f') then ReadWord(s, "false", JBool(false))
    else if Leads(s, '\"') then
      match ReadString(s[1..])
      case Some(p) => Some(Parsed(JStr(p.value), p.rest))
      case None => None
    else if Leads(s, '[') then
      if Leads(s[1..], ']') then Some(Parsed(JArr([]), s[2..]))
      else
        match ReadItems(s[1..])
        case Some(p) => Some(Parsed(JArr(p.value), p.rest))
        case None => None
    else if Leads(s, '{') then
      if Leads(s[1..], '}') then Some(Parsed(JObj([]), s[2..]))
      else
        match ReadMembers(s[1..])
        case Some(p) => Some(Parsed(JObj(p.value), p.rest))
        case None => None
    else ReadNumber(s)
  }

  /** Items up to and including the closing bracket. */
  function ReadItems(s: string): (r: Option<Parsed<seq<Json>>>)
    ensures r.Some? ==> |r.value.rest| < |s|
    decreases |s|, 1
  {
    match ReadValue(s)
    case None => None
    case Some(v) =>
      if Leads(v.rest, ']') then Some(Parsed([v.value], v.rest[1..]))
      else if Leads(v.rest, ',') then
        match ReadItems(v.rest[1..])
        case Some(p) => Some(Parsed([v.value] + p.value, p.rest))
        case None => None
      else None
  }

  function ReadMember(s: string): (r: Option<Parsed<Member>>)
    ensures r.Some? ==> |r.value.rest| < |s|
    decreases |s|, 1
  {
    if !Leads(s, '\"') then None
    else
      match ReadString(s[1..])
      case None => None
      case Some(name) =>
        if !Leads(name.rest, ':') then None
        else
          match ReadValue(name.rest[1..])
          case Some(v) => Some(Parsed(Member(name.value, v.value), v.rest))
          case None => None
  }

  function ReadMembers(s: string): (r: Option<Parsed<seq<Member>>>)
    ensures r.Some? ==> |r.value.rest| < |s|
    decreases |s|, 2
  {
    match ReadMember(s)
    case None => None
    case Some(f) =>
      if Leads(f.rest, '}') then Some(Parsed([f.value], f.rest[1..]))
      else if Leads(f.rest, ',') then
        match ReadMembers(f.rest[1..])
        case Some(p) => Some(Parsed([f.value] + p.value, p.rest))
        case None => None
      else None
  }

  /** A whole JSON text. */
  function Read(s: string): Option<Json> {
    match ReadValue(s)
    case Some(p) => if p.rest == "" then Some(p.value) else None
    case None => None
  }

  // ----- round trip -----

  /** What may follow a value: anything that does not continue a number. */
  predicate Ends(rest: string) {
    rest != "" ==> !IsDigit(rest[0]) && rest[0] != '.'
  }

  lemma DigitsSplit(n: nat, tail: string)
    requires tail == "" || !IsDigit(tail[0])
    ensures var t := Digits(n) + tail;
            var k := DigitRun(t);
            k == |Digits(n)| > 0 && t[..k] == Digits(n) && t[k..] == tail && DigitsValue(t[..k], 0) == n
  {
    hide Digits, DigitRun, DigitsValue;
    DigitsAreDigits(n);
    DigitsRead(n);
    DigitRunOf(Digits(n), tail);
    assert (Digits(n) + tail)[..|Digits(n)|] == Digits(n) && (Digits(n) + tail)[|Digits(n)|..] == tail;
  }

  lemma SignRead(negative: bool, n: nat, tail: string)
    ensures var s := (if negative then "-" else "") + Digits(n) + tail;
            ReadNumber(s) == ReadUnsigned(negative, Digits(n) + tail) && s != "" && (IsDigit(s[0]) || s[0] == '-')
  {
    hide Digits, ReadUnsigned;
    DigitsAreDigits(n);
    var t := Digits(n) + tail;
    if negative {
      assert "-" + Digits(n) + tail == ['-'] + t;
      assert (['-'] + t)[1..] == t;
    } else {
      assert "" + Digits(n) + tail == t && t[0] == Digits(n)[0];
    }
  }

  lemma WholeRead(negative: bool, n: nat, rest: string)
    requires Ends(rest)
    ensures ReadUnsigned(negative, Digits(n) + rest) ==
            Some(Parsed(if negative && n == 0 then JReal(Fixed(true, 0, "")) else JInt(IntegerOf(Fixed(negative, n, ""))), rest))
  {
    hide Digits, DigitRun, DigitsValue;
    DigitsSplit(n, rest);
  }

  lemma FractionRead(x: Fractional, rest: string)
    requires Ends(rest) && x.fraction != ""
    ensures ReadUnsigned(x.negative, Digits(x.whole) + ("." + x.fraction + rest)) == Some(Parsed(JReal(x), rest))
  {
    hide Digits, DigitRun, DigitsValue;
    var tail := "." + x.fraction + rest;
    DigitsSplit(x.whole, tail);
    DigitRunOf(x.fraction, rest);
    assert tail[1..] == x.fraction + rest;
    assert (x.fraction + rest)[..|x.fraction|] == x.fraction && (x.fraction + rest)[|x.fraction|..] == rest;
  }

  lemma NumberRoundTrip(n: int, rest: string)
    requires Ends(rest)
    ensures ReadNumber(Decimal(n) + rest) == Some(Parsed(JInt(n), rest))
    ensures IsDigit(Decimal(n)[0]) || Decimal(n)[0] == '-'
  {
    hide Digits, ReadNumber, ReadUnsigned;
    var m := if n < 0 then -n else n;
    SignRead(n < 0, m, rest);
    SignRead(n < 0, m, "");
    WholeRead(n < 0, m, rest);
    assert "" + Digits(m) == Digits(m);
    assert Decimal(n) + "" == Decimal(n);
  }

  /** A number with a fraction, or minus zero. */
  lemma RealRoundTrip(x: Fractional, rest: string)
    requires Ends(rest)
    ensures ReadNumber(FixedText(x) + rest) == Some(Parsed(JReal(x), rest))
    ensures FixedText(x) != "" && (IsDigit(FixedText(x)[0]) || FixedText(x)[0] == '-')
  {
    hide Digits, ReadNumber, ReadUnsigned;
    if x.fraction == "" {
      SignRead(x.negative, x.whole, rest);
      SignRead(x.negative, x.whole, "");
      WholeRead(x.negative, x.whole, rest);
      assert "-" + Digits(x.whole) + "" + rest == "-" + Digits(x.whole) + rest;
    } else {
      var tail := "." + x.fraction;
      SignRead(x.negative, x.whole, tail + rest);
      SignRead(x.negative, x.whole, tail);
      FractionRead(x, rest);
      var head := (if x.negative then "-" else "") + Digits(x.whole);
      assert (head + tail) + rest == head + (tail + rest);
    }
  }

  lemma WordRoundTrip(w: string, j: Json, rest: string)
    requires w != ""
    ensures ReadWord(w + rest, w, j) == Some(Parsed(j, rest))
  {
    assert (w + rest)[..|w|] == w && (w + rest)[|w|..] == rest;
  }

  lemma QuotedRoundTrip(s: string, rest: string)
    ensures Leads(Quoted(s) + rest, '\"') && ReadString((Quoted(s) + rest)[1..]) == Some(Parsed(s, rest))
  {
    hide EscapeAll, ReadString;
    StringRoundTrip(s, rest);
    assert (Quoted(s) + rest)[1..] == EscapeAll(s) + ['\"'] + rest;
  }

  /** No value's text is empty or starts with a closing bracket. */
  lemma TextLeads(j: Json)
    ensures Print(j) != "" && Print(j)[0] != ']' && Print(j)[0] != '}'
  {
    hide Quoted, Items, Members, Decimal;
    if j.JInt? {
      NumberRoundTrip(j.n, "");
    }
    if j.JReal? {
      RealRoundTrip(j.x, "");
    }
    if j.JStr? {
      QuotedRoundTrip(j.s, "");
      assert Quoted(j.s) + "" == Quoted(j.s);
    }
  }

  /** Every JSON value is read back from its text, whatever follows. */
  lemma {:induction false} ValueRoundTrip(j: Json, rest: string)
    requires Ends(rest)
    ensures ReadValue(Print(j) + rest) == Some(Parsed(j, rest))
    decreases j, 1
  {
    hide ReadNumber, ReadString, ReadWord, ReadItems, ReadMembers, Decimal, Quoted, Items, Members;
    var s := Print(j) + rest;
    match j
    case JNull => WordRoundTrip("null", j, rest);
    case JBool(b) => WordRoundTrip(if b then "true" else "false", j, rest);
    case JInt(n) => NumberRoundTrip(n, rest);
    case JReal(x) => RealRoundTrip(x, rest);
    case JStr(t) => QuotedRoundTrip(t, rest);
    case JArr(items) => ArrayRoundTrip(items, rest);
    case JObj(fields) => ObjectRoundTrip(fields, rest);
  }

  lemma {:induction false} ArrayRoundTrip(items: seq<Json>, rest: string)
    ensures ReadValue(Print(JArr(items)) + rest) == Some(Parsed(JArr(items), rest))
    decreases items, 1
  {
    hide ReadNumber, ReadString, ReadWord, ReadItems, ReadMembers, Items;
    var s := Print(JArr(items)) + rest;
    ItemsNone();
    assert s == "[" + (Items(items) + "]" + rest);
    assert s[1..] == Items(items) + "]" + rest;
    if items == [] {
      assert s[1..] == "]" + rest && s[2..] == rest;
    } else {
      ItemsLead(items);
      ItemsRoundTrip(items, rest);
    }
  }

  lemma {:induction false} ObjectRoundTrip(fields: seq<Member>, rest: string)
    ensures ReadValue(Print(JObj(fields)) + rest) == Some(Parsed(JObj(fields), rest))
    decreases fields, 1
  {
    hide ReadNumber, ReadString, ReadWord, ReadItems, ReadMembers, Members;
    var s := Print(JObj(fields)) + rest;
    ItemsNone();
    assert s == "{" + (Members(fields) + "}" + rest);
    assert s[1..] == Members(fields) + "}" + rest;
    if fields == [] {
      assert s[1..] == "}" + rest && s[2..] == rest;
    } else {
      MembersLead(fields);
      MembersRoundTrip(fields, rest);
    }
  }

  lemma ItemsNone()
    ensures Items([]) == "" && Members([]) == ""
  {
  }

  lemma ItemsLead(items: seq<Json>)
    requires items != []
    ensures Items(items) != "" && Items(items)[0] != ']'
  {
    hide Print;
    TextLeads(items[0]);
  }

  lemma MembersLead(fields: seq<Member>)
    requires fields != []
    ensures Members(fields) != "" && Members(fields)[0] != '}'
  {
    hide Print;
    QuotedRoundTrip(fields[0].name, "");
  }

  lemma {:induction false} ItemsRoundTrip(items: seq<Json>, rest: string)
    requires items != []
    ensures ReadItems(Items(items) + "]" + rest) == Some(Parsed(items, rest))
    decreases items, 0
  {
    hide ReadValue, Print;
    var s := Items(items) + "]" + rest;
    if |items| == 1 {
      var tail := "]" + rest;
      assert s == Print(items[0]) + tail;
      ValueRoundTrip(items[0], tail);
      assert tail[1..] == rest && items == [items[0]];
    } else {
      var more := Items(items[1..]) + "]" + rest;
      var tail := "," + more;
      assert s == Print(items[0]) + tail;
      ValueRoundTrip(items[0], tail);
      assert tail[1..] == more;
      ItemsRoundTrip(items[1..], rest);
      assert items == [items[0]] + items[1..];
    }
  }

  lemma MemberRoundTrip(f: Member, rest: string)
    requires Ends(rest)
    ensures ReadMember(MemberText(f) + rest) == Some(Parsed(f, rest))
    decreases f, 2
  {
    hide ReadValue, ReadString, Print, Quoted;
    var s := MemberText(f) + rest;
    var tail := ":" + (Print(f.value) + rest);
    assert s == Quoted(f.name) + tail;
    QuotedRoundTrip(f.name, tail);
    assert tail[1..] == Print(f.value) + rest;
    ValueRoundTrip(f.value, rest);
  }

  lemma {:induction false} MembersRoundTrip(fields: seq<Member>, rest: string)
    requires fields != []
    ensures ReadMembers(Members(fields) + "}" + rest) == Some(Parsed(fields, rest))
    decreases fields, 0
  {
    hide ReadMember, MemberText;
    var s := Members(fields) + "}" + rest;
    if |fields| == 1 {
      var tail := "}" + rest;
      assert s == MemberText(fields[0]) + tail;
      MemberRoundTrip(fields[0], tail);
      assert tail[1..] == rest && fields == [fields[0]];
    } else {
      var more := Members(fields[1..]) + "}" + rest;
      var tail := "," + more;
      assert s == MemberText(fields[0]) + tail;
      MemberRoundTrip(fields[0], tail);
      assert tail[1..] == more;
      MembersRoundTrip(fields[1..], rest);
      assert fields == [fields[0]] + fields[1..];
    }
  }

  lemma RoundTrip(j: Json)
    ensures Read(Print(j)) == Some(j)
  {
    hide Print, ReadValue;
    ValueRoundTrip(j, "");
    assert Print(j) + "" == Print(j);
  }
}
