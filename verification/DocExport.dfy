/**
 * Streamed export of crates/red-driver/src/docexport.rs: the window loop of
 * `run_doc_export`, and the `Sink` it writes to with the row accounting of
 * crates/red-driver/src/format.rs and crates/red-driver/src/xlsx.rs.
 */
module DocExport {
  import opened Wrappers
  import opened Bytes
  import opened JsonText
  import opened ExtJson
  import IsoDate
  import DS = DocSchema
  import DP = DocPaths
  import opened Seek

  type Doc = DS.Doc

  const EXPORT_WINDOW: nat := 500
  const MAX_COLUMNS: nat := 512
  const XLSX_MAX_ROWS: nat := 1_048_576
  const XLSX_MAX_COLS: nat := 16_384

  datatype Format = JsonArray | Ndjson | Csv | Xlsx

  predicate IsTabular(f: Format) {
    f == Csv || f == Xlsx
  }

  // ----- cells -----

  datatype Cell = NullCell | IntCell(n: int) | RealCell(x: Double) | TextCell(s: string) | BlobCell(len: nat)

  /** `to_cell` with no cap on its text. */
  function ToCell(v: DocValue): Cell {
    match v
    case Null => NullCell
    case Bool(b) => TextCell(if b then "true" else "false")
    case Int32(n) => IntCell(n)
    case Int64(n) => IntCell(n)
    case Double(x) => RealCell(x)
    case Decimal128(s) => TextCell(s)
    case Str(s) => TextCell(s)
    case ObjectId(id) => TextCell(HexAll(id))
    case DateTime(ms) => TextCell(if IsoDate.Iso8601(ms).Some? then IsoDate.Iso8601(ms).value else ExtText(v))
    case Timestamp(_) => TextCell(ExtText(v))
    case Binary(_, bytes) => BlobCell(|bytes|)
    case Regex(pattern, options) => TextCell("/" + pattern + "/" + options)
    case Array(_) => TextCell(ExtText(v))
    case Document(_) => TextCell(ExtText(v))
  }

  function CellAt(d: Doc, path: string): Cell {
    var v := DP.Walk(d, DP.Segments(path));
    if v.Some? then ToCell(v.value) else NullCell
  }

  type Cells = seq<Cell>

  /** A document's row under a column list. */
  function CellsOf(d: Doc, columns: seq<string>): (r: Cells)
    ensures |r| == |columns|
  {
    seq(|columns|, i requires 0 <= i < |columns| => CellAt(d, columns[i]))
  }

  method CollectCells(d: Doc, columns: seq<string>) returns (r: Cells)
    ensures r == CellsOf(d, columns)
  {
    hide ToCell, DP.Walk;
    r := [];
    for i := 0 to |columns|
      invariant r == CellsOf(d, columns)[..i]
    {
      var v := DP.ValueAt(d, columns[i]);
      assert CellsOf(d, columns)[..i + 1] == CellsOf(d, columns)[..i] + [CellAt(d, columns[i])];
      r := r + [if v.Some? then ToCell(v.value) else NullCell];
    }
    assert r == CellsOf(d, columns);
  }

  // ----- what an export holds -----

  /** `to_doc_value`: the whole document, `_id` first. */
  function WholeDoc(d: Doc): DocValue {
    Document([Field(DS.ID, d.id)] + d.fields)
  }

  function DocText(d: Doc): string {
    ExtText(WholeDoc(d))
  }

  function ArrayBody(docs: seq<Doc>): string {
    if docs == [] then ""
    else ArrayBody(docs[..|docs| - 1]) + (if |docs| == 1 then "\n  " else ",\n  ") + DocText(docs[|docs| - 1])
  }

  function LinesBody(docs: seq<Doc>): string {
    if docs == [] then "" else LinesBody(docs[..|docs| - 1]) + DocText(docs[|docs| - 1]) + "\n"
  }

  /** The text written so far. */
  function Written(f: Format, docs: seq<Doc>): string {
    match f
    case JsonArray => "[" + ArrayBody(docs)
    case Ndjson => LinesBody(docs)
    case _ => ""
  }

  /** The whole text of a finished export. */
  function Finished(f: Format, docs: seq<Doc>): string {
    if f == JsonArray then Written(f, docs) + (if docs == [] then "]\n" else "\n]\n") else Written(f, docs)
  }

  /** The rows a sheet still takes: its header is one of Excel's rows. */
  const SHEET_ROWS: nat := XLSX_MAX_ROWS - 1

  function Fitting(f: Format, n: nat): nat {
    if f == Xlsx && n > SHEET_ROWS then SHEET_ROWS else n
  }

  /** The rows of the file. */
  function Rows(f: Format, docs: seq<Doc>, columns: seq<string>): seq<Cells> {
    if !IsTabular(f) || docs == [] then []
    else
      var front := docs[..|docs| - 1];
      Rows(f, front, columns) + if Fitting(f, |docs|) > |front| then [CellsOf(docs[|docs| - 1], columns)] else []
  }

  predicate SheetFull(f: Format, n: nat) {
    f == Xlsx && n >= SHEET_ROWS
  }

  /** The rows reported: the row that fills a sheet is no longer counted. */
  function Reported(f: Format, n: nat): nat {
    if SheetFull(f, n) then SHEET_ROWS - 1 else n
  }

  /** How many documents the columns cannot carry whole. */
  function Unmapped(f: Format, docs: seq<Doc>, columns: seq<string>): nat {
    if !IsTabular(f) || docs == [] then 0
    else
      Unmapped(f, docs[..|docs| - 1], columns)
        + if DS.Unmapped(DS.DocLeaves(docs[|docs| - 1]), columns) then 1 else 0
  }

  /** What writing one document appends. */
  function WriteText(f: Format, written: nat, d: Doc): string {
    match f
    case JsonArray => (if written == 0 then "\n  " else ",\n  ") + DocText(d)
    case Ndjson => DocText(d) + "\n"
    case _ => ""
  }

  lemma WrittenSnoc(f: Format, docs: seq<Doc>, d: Doc)
    ensures Written(f, docs + [d]) == Written(f, docs) + WriteText(f, |docs|, d)
  {
    hide DocText;
    assert (docs + [d])[..|docs|] == docs;
  }

  lemma TabularSnoc(f: Format, docs: seq<Doc>, d: Doc, columns: seq<string>)
    requires IsTabular(f)
    ensures Rows(f, docs + [d], columns) == Rows(f, docs, columns) + if SheetFull(f, |docs|) then [] else [CellsOf(d, columns)]
    ensures Unmapped(f, docs + [d], columns) ==
            Unmapped(f, docs, columns) + if DS.Unmapped(DS.DocLeaves(d), columns) then 1 else 0
  {
    hide CellsOf, DS.Unmapped;
    assert (docs + [d])[..|docs|] == docs;
  }

  lemma NotTabular(f: Format, docs: seq<Doc>, columns: seq<string>)
    requires !IsTabular(f)
    ensures Rows(f, docs, columns) == [] && Unmapped(f, docs, columns) == 0
  {
  }

  // ----- the sink -----

  datatype Shortfall = RowLimit | UnmappedFields(n: nat)

  /** Why a file of these documents holds less than was asked; a row limit keeps the slot. */
  function ShortfallOf(f: Format, docs: seq<Doc>, columns: seq<string>): Option<Shortfall> {
    if SheetFull(f, |docs|) then Some(RowLimit)
    else if Unmapped(f, docs, columns) > 0 then Some(UnmappedFields(Unmapped(f, docs, columns)))
    else None
  }

  class Sink {
    const format: Format
    const columns: seq<string>
    var out: string
    var rows: seq<Cells>
    var full: bool
    var written: nat
    var unmapped: nat

    /** The sink holds exactly these documents. */
    ghost predicate Holds(docs: seq<Doc>)
      reads this
    {
      && out == Written(format, docs) && written == Reported(format, |docs|) && full == SheetFull(format, |docs|)
      && rows == Rows(format, docs, columns) && unmapped == Unmapped(format, docs, columns)
    }

    constructor (format: Format, columns: seq<string>)
      ensures this.format == format && this.columns == columns && Holds([])
    {
      this.format := format;
      this.columns := columns;
      out := if format == JsonArray then "[" else "";
      rows := [];
      full := false;
      written := 0;
      unmapped := 0;
    }

    /** A row given to the table writer; a full sheet takes none, and the filling row is not counted. */
    method WriteRow(cells: Cells)
      modifies this`rows, this`full, this`written
      ensures rows == old(rows) + if old(full) then [] else [cells]
      ensures full == (old(full) || (format == Xlsx && |rows| >= SHEET_ROWS))
      ensures written == old(written) + if full then 0 else 1
    {
      if !full {
        rows := rows + [cells];
        full := format == Xlsx && |rows| >= SHEET_ROWS;
      }
      if !full {
        written := written + 1;
      }
    }

    method Write(d: Doc, ghost docs: seq<Doc>)
      requires Holds(docs)
      modifies this
      ensures Holds(docs + [d])
    {
      hide Written, Rows, Unmapped, DocText, DS.Unmapped, CellsOf;
      WrittenSnoc(format, docs, d);
      if IsTabular(format) {
        TabularSnoc(format, docs, d, columns);
        RowCount(format, docs, columns);
        var cells := CollectCells(d, columns);
        var loses := DS.HasUnmappedFields(d, columns);
        if loses {
          unmapped := unmapped + 1;
        }
        WriteRow(cells);
        assert out + "" == out;
      } else {
        NotTabular(format, docs, columns);
        NotTabular(format, docs + [d], columns);
        out := out + WriteText(format, written, d);
        written := written + 1;
      }
    }

    /** `finish`: the text, and the shortfall to report. */
    method Finish(ghost docs: seq<Doc>) returns (text: string, shortfall: Option<Shortfall>)
      requires Holds(docs)
      ensures text == Finished(format, docs) && shortfall == ShortfallOf(format, docs, columns)
    {
      hide Written, Rows, Unmapped;
      text := out;
      shortfall := None;
      match format {
        case JsonArray =>
          text := text + (if written == 0 then "]\n" else "\n]\n");
          NotTabular(format, docs, columns);
        case Ndjson => NotTabular(format, docs, columns);
        case _ =>
          if full {
            shortfall := Some(RowLimit);
          } else if unmapped > 0 {
            shortfall := Some(UnmappedFields(unmapped));
          }
      }
    }
  }

  lemma {:induction false} RowCount(f: Format, docs: seq<Doc>, columns: seq<string>)
    ensures |Rows(f, docs, columns)| == if IsTabular(f) then Fitting(f, |docs|) else 0
    decreases |docs|
  {
    hide CellsOf;
    if docs != [] {
      RowCount(f, docs[..|docs| - 1], columns);
    }
  }

  // ----- the loop -----

  datatype Outcome =
    | Interrupted
    | TooWide
    | ReadFailed(error: string)
    | Complete(text: string, rows: seq<Cells>, written: nat, shortfall: Option<Shortfall>)

  function IdOf(d: Doc): DocValue {
    d.id
  }

  /** The export of these documents, and no others. */
  predicate Exported(r: Outcome, f: Format, columns: seq<string>, docs: seq<Doc>) {
    && r.Complete? && r.text == Finished(f, docs) && r.written == Reported(f, |docs|)
    && r.rows == Rows(f, docs, columns) && r.shortfall == ShortfallOf(f, docs, columns)
  }

  /** The columns asked for, or those drawn from the sample when a table names none. */
  function ChosenColumns(f: Format, requested: seq<string>, sample: seq<Doc>): seq<string> {
    if IsTabular(f) && requested == [] then DS.Columns(DS.SchemaOf(sample), MAX_COLUMNS) else requested
  }

  method ChooseColumns(f: Format, requested: seq<string>, sample: seq<Doc>) returns (columns: seq<string>)
    ensures columns == ChosenColumns(f, requested, sample)
  {
    hide DS.SchemaOf, DS.Columns;
    columns := requested;
    if IsTabular(f) && requested == [] {
      var schema := DS.FromDocuments(sample);
      columns := DS.TabularColumns(schema, MAX_COLUMNS);
    }
  }

  /**
   * `run_doc_export`. `sample` is what the driver's schema inference saw, `cancel(k)` what
   * the k-th load of the cancel flag sees, `fetch` the driver's seek past an `_id`.
   */
  method RunDocExport(
    f: Format, requested: seq<string>, sample: seq<Doc>, ghost matching: set<Doc>, ghost lt: (DocValue, DocValue) -> bool,
    fetch: Option<DocValue> -> Result<seq<Doc>, string>, cancel: nat -> bool)
    returns (r: Outcome, ghost docs: seq<Doc>)
    requires Total(matching, IdOf, lt)
    requires forall b :: fetch(b).Success? ==> IsPage(matching, IdOf, lt, b, EXPORT_WINDOW, fetch(b).value)
    ensures r.Complete? ==> Listing(matching, IdOf, lt, docs) && Exported(r, f, ChosenColumns(f, requested, sample), docs)
    ensures r.Interrupted? ==> exists k :: cancel(k)
    ensures r.ReadFailed? ==> exists b :: fetch(b) == Failure(r.error)
    ensures r.TooWide? <==> f == Xlsx && |ChosenColumns(f, requested, sample)| > 16_384
  {
    hide Total, IsPage, Listing, Reached, Sink.Holds, Exported, ChosenColumns;
    var columns := ChooseColumns(f, requested, sample);
    docs := [];
    if f == Xlsx && |columns| > XLSX_MAX_COLS {
      return TooWide, docs;
    }
    var sink := new Sink(f, columns);
    var after: Option<DocValue> := None;
    var loads := 0;
    NothingReached(matching, IdOf, lt);
    while true
      invariant fresh(sink) && sink.format == f && sink.columns == columns
      invariant sink.Holds(docs) && Reached(matching, IdOf, lt, docs, after)
      modifies sink
      decreases |matching| - |docs|
    {
      if cancel(loads) {
        return Interrupted, docs;
      }
      loads := loads + 1;
      var window := fetch(after);
      if window.Failure? {
        return ReadFailed(window.error), docs;
      }
      var page := window.value;
      assert IsPage(matching, IdOf, lt, after, EXPORT_WINDOW, page);
      if page == [] {
        EmptyReached(matching, IdOf, lt, docs, after, EXPORT_WINDOW, page);
        break;
      }
      ghost var before := docs;
      assert docs + page[..0] == docs;
      for i := 0 to |page|
        invariant sink.Holds(before + page[..i]) && docs == before + page[..i]
        modifies sink
      {
        if cancel(loads) {
          return Interrupted, docs;
        }
        loads := loads + 1;
        sink.Write(page[i], docs);
        assert page[..i + 1] == page[..i] + [page[i]];
        assert docs + [page[i]] == before + page[..i + 1];
        docs := docs + [page[i]];
      }
      assert docs == before + page;
      StepReached(matching, IdOf, lt, before, after, EXPORT_WINDOW, page);
      after := Some(page[|page| - 1].id);
      ReachedSize(matching, IdOf, lt, docs, after);
    }
    var text, shortfall := sink.Finish(docs);
    r := Complete(text, sink.rows, sink.written, shortfall);
    FinishedExport(sink, docs, r);
  }

  lemma FinishedExport(sink: Sink, docs: seq<Doc>, r: Outcome)
    requires sink.Holds(docs)
    requires r == Complete(Finished(sink.format, docs), sink.rows, sink.written, ShortfallOf(sink.format, docs, sink.columns))
    ensures Exported(r, sink.format, sink.columns, docs)
  {
  }

  // ----- what the outcome says of the file -----

  /** A file holds all rows but those past the last of a sheet, and a missing row is always reported. */
  lemma MissingRowsReported(r: Outcome, f: Format, columns: seq<string>, docs: seq<Doc>)
    requires Exported(r, f, columns, docs) && IsTabular(f)
    ensures |r.rows| == if f == Xlsx && |docs| > 1_048_575 then 1_048_575 else |docs|
    ensures |r.rows| < |docs| ==> r.shortfall == Some(RowLimit)
  {
    hide Finished, Rows;
    RowCount(f, docs, columns);
  }

  /** The reported count is what a table holds, exactly while its sheet is not full. */
  lemma CountExactly(r: Outcome, f: Format, columns: seq<string>, docs: seq<Doc>)
    requires Exported(r, f, columns, docs) && IsTabular(f)
    ensures r.written == |r.rows| <==> !(f == Xlsx && |docs| >= 1_048_575)
  {
    hide Finished, Rows;
    RowCount(f, docs, columns);
  }

  /** A row limit is reported exactly when rows are missing, but for the export that fills its sheet exactly. */
  lemma RowLimitExactly(r: Outcome, f: Format, columns: seq<string>, docs: seq<Doc>)
    requires Exported(r, f, columns, docs) && IsTabular(f)
    ensures (r.shortfall == Some(RowLimit) <==> |r.rows| < |docs|) <==> !(f == Xlsx && |docs| == 1_048_575)
  {
    hide Finished, Rows, Unmapped;
    RowCount(f, docs, columns);
  }
}
