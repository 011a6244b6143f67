/** The SQL text formatters and the clipboard writer of crates/red-core/src/valuefmt.rs. */
module ValueFmt {
  import opened Bytes
  import opened Wrappers
  import opened Values

  /** `s.replace(c, "cc")` for an ASCII byte `c`. */
  function Doubled(s: Text, c: Byte): Text {
    if s == [] then [] else (if s[0] == c then [c, c] else [s[0]]) + Doubled(s[1..], c)
  }

  /** A double-quoted identifier. */
  function SqlIdent(name: Text): Text {
    [DQUOTE] + Doubled(name, DQUOTE) + [DQUOTE]
  }

  /** A single-quoted literal, backslashes and quotes doubled. */
  function SqlString(s: Text): Text {
    [SQUOTE] + Doubled(Doubled(s, BACKSLASH), SQUOTE) + [SQUOTE]
  }

  /** Rust's `i64::to_string`. */
  function Decimal(n: int): Text {
    if n < 0 then [DASH] + DecimalBytes(-n) else DecimalBytes(n)
  }

  /** `<N bytes>`. */
  function ByteMarker(len: nat): Text {
    Ascii("<") + DecimalBytes(len) + Ascii(" bytes>")
  }

  /** The `Display` form of a capped cell: its head and an ellipsis, or a byte marker. */
  function CappedText(cell: CappedCell): Text {
    if cell.isBlob then ByteMarker(cell.len) else cell.head + [0xE2, 0x80, 0xA6]
  }

  function SqlValue(v: Value): Text {
    match v
    case Null => Ascii("NULL")
    case Integer(n) => Decimal(n)
    case Real(NaN) => [SQUOTE] + Ascii("NaN") + [SQUOTE]
    case Real(Infinite(negative)) => [SQUOTE] + (if negative then Ascii("-Infinity") else Ascii("Infinity")) + [SQUOTE]
    case Real(Finite(_, display)) => display
    case Str(s) => SqlString(s)
    case Blob(bytes) => SqlString(ByteMarker(|bytes|))
    case Capped(cell) => SqlString(CappedText(cell))
  }

  // ----- INSERT text -----

  const COMMA: Byte := 44

  /** `parts` joined with `, `. */
  function JoinComma(parts: seq<Text>): Text {
    if parts == [] then []
    else if |parts| == 1 then parts[0]
    else parts[0] + ([COMMA] + [SPACE]) + JoinComma(parts[1..])
  }

  function Idents(names: seq<Text>): (r: seq<Text>)
    ensures |r| == |names|
  {
    seq(|names|, k requires 0 <= k < |names| => SqlIdent(names[k]))
  }

  function SqlValues(cells: seq<Value>): (r: seq<Text>)
    ensures |r| == |cells|
  {
    seq(|cells|, k requires 0 <= k < |cells| => SqlValue(cells[k]))
  }

  /** One row's `INSERT`, without its `;`. */
  function Insert(table: Text, names: seq<Text>, cells: seq<Value>): Text {
    Ascii("INSERT INTO ") + SqlIdent(table) + Ascii(" (") + JoinComma(Idents(names)) + Ascii(") VALUES (")
      + JoinComma(SqlValues(cells)) + Ascii(")")
  }

  /** The clipboard text of `rows`: each `INSERT` closed by `;` and a newline. */
  function Script(table: Text, names: seq<Text>, rows: seq<seq<Value>>): Text {
    if rows == [] then []
    else Script(table, names, rows[..|rows| - 1]) + (Insert(table, names, rows[|rows| - 1]) + [SEMI] + [NEWLINE])
  }

  /** `ClipboardWriter` in its SQL format. */
  class ClipboardWriter {
    const names: seq<Text>
    const table: Text
    var out: Text
    var written: nat

    constructor (names: seq<Text>, table: Option<Text>)
      ensures this.names == names
      ensures this.table == if table.Some? then table.value else Ascii("exported_table")
      ensures out == [] && written == 0
    {
      this.names := names;
      this.table := if table.Some? then table.value else Ascii("exported_table");
      out := [];
      written := 0;
    }

    method WriteRow(cells: seq<Value>)
      modifies this
      ensures out == old(out) + (Insert(table, names, cells) + [SEMI] + [NEWLINE])
      ensures written == old(written) + 1
    {
      hide Ascii, SqlIdent, JoinComma;
      var idents := PushJoined([], Idents(names));
      var values := PushJoined([], SqlValues(cells));
      assert idents == JoinComma(Idents(names)) && values == JoinComma(SqlValues(cells));
      var row := Ascii("INSERT INTO ") + SqlIdent(table) + Ascii(" (") + idents + Ascii(") VALUES (") + values + Ascii(")");
      out := out + (row + [SEMI] + [NEWLINE]);
      written := written + 1;
    }

    method Finish() returns (text: Text)
      ensures text == out
    {
      text := out;
    }
  }

  lemma {:induction false} JoinCommaSnoc(parts: seq<Text>, p: Text)
    ensures JoinComma(parts + [p]) == if parts == [] then p else JoinComma(parts) + ([COMMA] + [SPACE]) + p
  {
    var all := parts + [p];
    if |parts| >= 1 {
      assert all[1..] == parts[1..] + [p];
      JoinCommaSnoc(parts[1..], p);
    }
  }

  /** Push each part, `, ` before all but the first. */
  method PushJoined(start: Text, parts: seq<Text>) returns (out: Text)
    ensures out == start + JoinComma(parts)
  {
    out := start;
    for i := 0 to |parts|
      invariant out == start + JoinComma(parts[..i])
    {
      JoinCommaSnoc(parts[..i], parts[i]);
      assert parts[..i + 1] == parts[..i] + [parts[i]];
      if i > 0 {
        out := out + ([COMMA] + [SPACE]);
      }
      out := out + parts[i];
    }
    assert parts[..|parts|] == parts;
  }

  /** A copy of `rows` through the writer. */
  method CopyRows(names: seq<Text>, table: Option<Text>, rows: seq<seq<Value>>) returns (text: Text)
    ensures text == Script(if table.Some? then table.value else Ascii("exported_table"), names, rows)
  {
    var w := new ClipboardWriter(names, table);
    for i := 0 to |rows|
      invariant w.out == Script(w.table, names, rows[..i]) && w.names == names
      invariant w.table == if table.Some? then table.value else Ascii("exported_table")
    {
      assert rows[..i + 1][..i] == rows[..i];
      w.WriteRow(rows[i]);
    }
    assert rows[..|rows|] == rows;
    text := w.Finish();
  }
}
