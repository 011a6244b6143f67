# RED verification model

A Dafny model of the hard logic of RED, a native database explorer, with proofs about it.
`dafny verify dfyconfig.toml` checks the whole project.

Code that works step by step is modelled by methods with loops and by classes with mutable
fields; each is proved equal to a specification function, and the theorems are about those
functions. Protocols are state machines over every interleaving of their steps. Text is
bytes in the SQL, DSN and streaming parts and Unicode characters elsewhere; lengths and
counters are unbounded integers.

## What is proved

- **SQL scripts** (`SqlLexer`, `SqlSplit`, `SqlStrip`, `SqlText`, `SqlAgree`, `SqlLocal`,
  `SqlCalm`, `SqlBlocks`, `SqlDollar`, `SqlHidden`, `SqlTokens`, `SqlDelimiter`, `SqlHeads`). A grammar
  of tokens per dialect, which refers to neither scanner, says what both make of a script.
  Stripping leaves code as it is and blanks literals, quoted names and comments byte for byte,
  unclosed ones included. Scripts of statements, stored routines and `DELIMITER` lines split
  exactly at the separator in force. Without a directive every boundary the splitter finds
  is a `;` the stripper leaves visible, and the two agree on all of them if and only if no `;`
  is passed inside an open routine block or shown by an executable comment. Ranges are ordered,
  disjoint and on character boundaries, and joining them gives the script back. A well-nested
  routine is one statement exactly when the scanner opens its blocks. Which statements are
  routines, and which `IF` and `REPEAT` open a block, is read off the tokens.
- **SQL clipboard** (`ValueFmt`, `SqlClipboard`, `SqlBackslash`, `ValueRead`). Copied rows split back into
  exactly their own INSERTs, and a reader gets the table, the names in order and every cell out
  of each; a quoted identifier is read back whole exactly when its backslashes are harmless to
  the dialect.
- **Extended JSON** (`JsonText`, `Base64`, `CivilDate`, `IsoDate`, `ExtJson`, `ExtRead`). The
  writer's text is JSON, and a reader recovers the value tree exactly when it forges no tag.
- **Pipelines** (`Pipeline`, `PipelineText`). A printed list of stages, with any groups and strings
  in them, splits into exactly those stages; splitting undoes joining exactly on well-formed
  stage lists, which are the only ones a split yields.
- **Inferred schemas** (`Strings`, `Sorting`, `DocSchema`, `SchemaShape`, `DocPaths`, `DocShown`). The rows
  are exactly the paths that documents hold, in order, with the types seen there and their
  counts; the columns are `_id` and the scalar paths in order; they miss exactly the leaves that
  the sample shows only as sub-documents; a path finds its leaf exactly when its names hold no dot.
- **Connection strings** (`Utf8`, `Utf8Lossy`, `Utf8Scalar`, `Search`, `Percent`, `Dsn`, `DsnParts`,
  `DsnRoundTrip`, `DsnPasted`). Composing and parsing gives every field back if and only if three
  conditions on the host, the database name and the sentinel group hold; the composed text has
  the stated layout, and a pasted one of any spelling parses to its parts.
- **Table diff** (`TableDiff`, `DiffReport`). The key order is the one drivers deliver; the merge walk
  conserves rows and pairs per key; its rows turn the left table into the right one, and its
  totals count the keys removed, added, changed and unchanged.
- **Keyset paging and export** (`Seek`, `Keyset`, `KeysetChoice`, `DocExport`, `ExportRead`,
  `ExportCells`). Which key is chosen, and that walking windows past the last key lists a table
  exactly once in the order of its sort column, whatever the page size and direction. Both JSON
  exports read back to the matching documents; each cell of a table tells its value.
- **Protocols** (`CancelToken`, `TurnLoop`). No lost wakeup, with the statements of the
  protocol that this needs; one answer per request and bounded cancellations in every run.
- **Streaming** (`Turn`, `TurnWhole`, `Sse`, `SseFrames`). Results do not depend on how the network
  cuts the stream. For any sequence of frames: what every block ends up as, what the message
  holds, what was shown, and which frame each number comes from.
- **Key templates** (`KeyTemplates`, `KeySummary`, `KeyCohorts`, `KeyReport`). Which segment of which
  template is a variable is decided exactly by the keys that reach it; the templates partition
  the sampled keys, and no key at all matches two of them.

## Where code and promise differ

- A parenthesised IF condition must open its block. The splitter skips dollar quotes, but its
  look-ahead for `THEN` reads a `$` as an ordinary character, so a `(` inside a dollar quote
  can cut the routine (`SqlDollar.DollarConditionExample`). A routine is one statement if and
  only if the scanner opens each of its blocks (`SqlBlocks.RoutineExactly`); it does for every
  condition whose parentheses balance when read that way (`SqlBlocks.BalancedReachesThen`).
- Nullable keys are promised to page by offset, but for the rowid alias that SQLite reports as
  nullable. `from_detail` lets every nullable integer key pass, `BIGINT` among them
  (`Keyset.BigintKeyLosesRow`), and `sorted` every nullable key, as lead or as tiebreaker
  (`Keyset.NullableKeysAccepted`). What either hands out is a key of every conforming table if
  and only if the engine keeps the column distinct and it is declared NOT NULL or is the alias
  (`Keyset.FromDetailExactly`, `Keyset.SortedExactly`); otherwise rows are lost
  (`Keyset.NullKeyLosesRow`, `Keyset.TiedKeyLosesRow`).
- A control character `\t \n \v \f \r` at the end of a database name is lost when no query
  follows it, and a TLS marker inside a sentinel group's name switches TLS on
  (`DsnRoundTrip.TabLost`, `DsnRoundTrip.MarkerSwitchesTls`). When all fields return is
  `DsnRoundTrip.DsnRoundTrips`.
- Extended JSON is promised to read back. Up to integral numbers, whose text does not tell a
  32-bit or 64-bit integer from a double, it does if and only if no sub-document is a single
  field that reads as a tag (`ExtRead.ExtJsonExactly`); a document can spell an ObjectId
  (`ExtRead.DollarFieldsCollide`).
- `key_cmp` is called a total order. On a class of keys it is one if and only if the class holds
  no blobs and no capped cells, which all tie (`TableDiff.BlobKeysPair`), and no integers beyond
  2^53 beside doubles (`TableDiff.MixedNumbersBreakTransitivity`, `TableDiff.TotalOrderExactly`).
- An empty sub-document is reported as lost even by the columns of its own sample
  (`DocSchema.EmptySubdocumentLost`); which leaves are lost is `DocSchema.UnmappedExactly`.
- A dotted field name is covered by its column and not found through it
  (`DocPaths.DottedNameNotFound`); which leaves are found is `DocPaths.LeafFoundExactly`.
- `present_ratio` is called the fraction of documents that hold the field. It is if and only if
  no document shows the path twice (`SchemaShape.RatioExactly`, `SchemaShape.RatioAboveOne`).
- The reported row count of an XLSX export is promised to be what the file holds. It is if and
  only if the sheet is not full: the row that fills it is written and not counted
  (`DocExport.CountExactly`), and an export that fills it exactly reports a row limit although
  nothing is missing (`DocExport.RowLimitExactly`).
- `civil_from_days` is called valid across the whole `i64` day range. It overflows exactly for
  the last 719468 days (`CivilDate.CivilOverflowsExactly`), which no millisecond instant reaches.
- Flat keys are said to roll into a single `*`. They do if and only if their one position is a
  variable (`KeyTemplates.FlatKeysRollUp`): for different keys, if and only if there are at least
  two of them (`KeyTemplates.FlatKeyspaceRollsUp`).
- Two key templates share a label if and only if the sample holds the empty key and the key
  `(no prefix)` and its first segment is no variable (`KeyTemplates.LabelsCollideExactly`).
- The comment in `cancel` gives the single notification a part in the guarantee; the guarantee
  rests on the re-check and the broadcast alone (`CancelToken.NoLostWakeup`).

## Model

| member | source | states |
|---|---|---|
| SqlLexer.SkipQuoted | crates/red-core/src/sql.rs:588-607 | the loop finds the end of a quoted span, with doubled quotes and the dialect's backslash rule |
| SqlLexer.SkipBlockComment | crates/red-core/src/sql.rs:625-650 | the loop finds the end of a block comment, nested where the dialect nests |
| SqlLexer.DollarQuoteEnd | crates/red-core/src/sql.rs:653-677 | a `$tag$` opener is a quote exactly when its tag is well formed, and ends after the next equal tag |
| SqlLexer.ExecCommentBody | crates/red-core/src/sql.rs:156-162 | the loop skips the version digits of an executable comment |
| SqlSplit.CheckOpensBlock | crates/red-core/src/sql.rs:308-339 | the look-ahead decides which words open a block |
| SqlSplit.FindThen | crates/red-core/src/sql.rs:357-388 | the scan finds a `THEN` before the statement's own `;`, outside quotes, comments and parentheses |
| SqlSplit.CheckRoutineDdl | crates/red-core/src/sql.rs:407-446 | the look-ahead recognises routine DDL and no table named after one |
| SqlHeads.RoutineHeadExactly | crates/red-core/src/sql.rs:407-448 | a statement declares a routine if and only if it leads with CREATE, ALTER or DROP and one of the next eight words is a routine kind with no structural kind before it |
| SqlHeads.IfOpensExactly | crates/red-core/src/sql.rs:308-388 | `IF` opens a block unless it leads with `(` or [NOT] EXISTS and no THEN outside parentheses precedes the `;`, read off the tokens |
| SqlHeads.RepeatOpensExactly | crates/red-core/src/sql.rs:308-340 | `REPEAT` opens a block unless a `(` follows |
| SqlHeads.OtherOpeners | crates/red-core/src/sql.rs:308-340 | `IF(` and `REPEAT(` open nothing, BEGIN, CASE, LOOP and WHILE always do, and no other word does |
| SqlSplit.ScanWord | crates/red-core/src/sql.rs:249-285 | one word moves depth, compound and statement start as the look-aheads say |
| SqlSplit.StatementRanges | crates/red-core/src/sql.rs:191-295 | the loop over position, start, depth, compound and delimiter computes the specified ranges |
| SqlDelimiter.ScriptSplitsIntoItsStatements | crates/red-core/src/sql.rs:191-295 | a script of statements, routines and `DELIMITER` lines splits exactly at the separator in force: after a directive only its token ends a statement, one without a token changes nothing, and a separator inside a literal, comment or body is none |
| SqlDelimiter.UnclosedIsOneStatement | crates/red-core/src/sql.rs:191-245 | a literal or comment that is never closed takes the rest of the script, separators and all |
| SqlText.SplitStatements | crates/red-core/src/sql.rs:172-178 | the statements are the trimmed non-empty ranges, in order |
| SqlText.RangesWellFormed | crates/red-core/src/sql.rs:191-295 | on valid UTF-8 the ranges are ordered, disjoint, in bounds and on character boundaries, with any delimiter |
| SqlText.JoinReproducesScript | crates/red-core/src/sql.rs:180-295 | with no directive, joining the ranges with `;` gives the script back |
| SqlStrip.StripNoise | crates/red-core/src/sql.rs:726-738 | the recursive writer computes the specified stripped text |
| SqlStrip.StripPreservesOffsets | crates/red-core/src/sql.rs:726-808 | same length, newlines kept, every other byte unchanged or a space, through executable comments |
| SqlText.StripStaysValid | crates/red-core/src/sql.rs:726-738 | stripped valid UTF-8 is valid, so the fallback is never taken |
| SqlHidden.StripsExactlyTheHidden | crates/red-core/src/sql.rs:740-808 | byte by byte: what lies in a literal, a comment or a marker of an executable comment is a space or its own newline, every other byte is itself |
| SqlTokens.StripsTokens | crates/red-core/src/sql.rs:726-808 | over printed tokens of every dialect: quoted text with or without a prefix, line, block, nested and dollar-quoted text go blank, code stays, and an executable comment shows its inside |
| SqlTokens.UnclosedIsHidden | crates/red-core/src/sql.rs:740-808 | a literal or comment that is never closed blanks the rest of the script |
| SqlAgree.SplitterAgreesWithStripper | crates/red-core/src/sql.rs:191-295 | every boundary is a visible `;`; the boundaries are all visible `;` if and only if the run hides none |
| SqlAgree.PlainScriptsAgree | crates/red-core/src/sql.rs:726-798 | for any script and dialect with no directive, no routine DDL and no executable comment, boundaries are exactly the visible `;` |
| SqlLocal.RangesShift | crates/red-core/src/sql.rs:191-295 | what follows a boundary splits as it would on its own |
| SqlBlocks.RoutineIsOneStatement | crates/red-core/src/sql.rs:191-401 | a routine with any well-nested BEGIN/IF/CASE/LOOP/WHILE/REPEAT body is one statement, and the text after its `;` splits as on its own, when IF conditions are bare or balance their parentheses and no REPEAT body starts with `(` |
| SqlBlocks.RoutineExactly | crates/red-core/src/sql.rs:191-401 | for every such tree, whatever its conditions: it is one statement if and only if the scanner opens each of its blocks |
| SqlBlocks.BalancedReachesThen | crates/red-core/src/sql.rs:357-388 | from a condition whose parentheses outside quotes and comments balance, with no `;` outside them, the look-ahead reaches the condition's own `THEN` |
| SqlDollar.DollarConditionCuts | crates/red-core/src/sql.rs:357-388 | a dollar-quoted `(` in a condition, with no `)` after the condition, cuts any routine inside its body |
| SqlDollar.DollarConditionExample | crates/red-core/src/sql.rs:357-388 | the short script `CREATE PROCEDURE p() BEGIN IF ($$($$ = x) THEN …` is cut under every dialect with dollar quotes |
| ValueFmt.ClipboardWriter.WriteRow | crates/red-core/src/valuefmt.rs:300-317 | appends the row's INSERT and nothing else |
| ValueFmt.CopyRows | crates/red-core/src/valuefmt.rs:236-344 | begin, rows and finish write the specified script |
| ValueRead.InsertReadsBack | crates/red-core/src/valuefmt.rs:82-123 | a reader gets table, names in order and every cell back from an INSERT: NULL, signed integers, number texts, texts, byte markers, NaN and infinities, under either backslash rule |
| ValueRead.TextReadsBackExactly | crates/red-core/src/valuefmt.rs:86-97 | where a backslash is literal a text comes back if and only if it holds none |
| ValueRead.ClipboardReadsBack | crates/red-core/src/valuefmt.rs:267-317 | each statement of the clipboard text gives its own row back |
| SqlClipboard.LiteralScan | crates/red-core/src/valuefmt.rs:95-97 | no string literal ends early under either escape rule |
| SqlClipboard.IdentReadsBackIff | crates/red-core/src/valuefmt.rs:82-84 | a quoted name is read back whole if and only if its backslashes are harmless to the dialect |
| SqlClipboard.PlainNamesAreSafe | crates/red-core/src/valuefmt.rs:82-84 | all names under Postgres and SQLite, and names without a backslash elsewhere, are safe |
| SqlClipboard.ClipboardSplitsIntoItsRows | crates/red-core/src/valuefmt.rs:300-317 | the text of N rows of any values splits into exactly N statements, each its own INSERT |
| SqlBackslash.BackslashTableBreaks | crates/red-core/src/valuefmt.rs:82-84 | a row of a table called `\` comes back, under a dialect with backslash escapes, as one statement that has swallowed its `;` |
| JsonText.WriteJsonString | crates/red-core/src/doc.rs:1405-1423 | writes the escaped literal |
| JsonText.EscapesShortest | crates/red-core/src/doc.rs:1405-1425 | only quotes, backslashes and control characters are escaped, in the shortest form JSON has |
| JsonText.StringRoundTrip | crates/red-core/src/doc.rs:1405-1423 | a reader of RFC 8259 section 7 strings recovers every string, whatever follows |
| JsonText.RoundTrip | crates/red-core/src/doc.rs:102-188 | every JSON value is read back from its compact text |
| Base64.EncodeInto | crates/red-core/src/doc.rs:1427-1447 | the chunk loop writes the specified encoding |
| Base64.RoundTrip | crates/red-core/src/doc.rs:1427-1447 | decoding recovers every byte sequence |
| CivilDate.CivilIsTheDate | crates/red-core/src/doc.rs:1478-1489 | the result is a valid Gregorian date whose day count is the input |
| CivilDate.CivilInvertsDayCount | crates/red-core/src/doc.rs:1478-1489 | every valid date comes back from its day count |
| CivilDate.CivilAscends | crates/red-core/src/doc.rs:1478-1489 | later days are later dates |
| CivilDate.CivilNeverOverflows | crates/red-core/src/doc.rs:1478-1489 | no intermediate leaves i64 for any i64 millisecond instant |
| CivilDate.CivilOverflowsExactly | crates/red-core/src/doc.rs:1475-1489 | over all i64 day counts, no intermediate overflows if and only if the day is at most the largest i64 less 719468 |
| IsoDate.IsoRoundTrip | crates/red-core/src/doc.rs:1454-1473 | the text determines the instant to the millisecond |
| IsoDate.IsoRange | crates/red-core/src/doc.rs:1454-1473 | exactly the instants of years 0 to 9999 have a text |
| ExtJson.WriteExtJson | crates/red-core/src/doc.rs:102-188 | the recursive writer appends the specified text |
| ExtJson.HexLower | crates/red-core/src/doc.rs:132-138 | ids are two lower-case hex digits a byte |
| ExtJson.WrittenAsJson | crates/red-core/src/doc.rs:102-188 | that text is the compact text of a JSON value |
| ExtRead.ExtJsonRoundTrip | crates/red-core/src/doc.rs:90-188 | a reader recovers every tree without `$` names, 32-bit integers widened |
| ExtRead.ExtJsonExactly | crates/red-core/src/doc.rs:90-188 | a reader recovers a tree if and only if none of its sub-documents is a single field that reads as a tag |
| ExtRead.ExtJsonInjective | crates/red-core/src/doc.rs:102-188 | equal texts of trees without forged tags come from equal trees, integer width aside |
| ExtRead.DollarFieldsCollide | crates/red-core/src/doc.rs:174-186 | a document with a `$oid` field writes the text of an ObjectId |
| Pipeline.SplitPipelineStages | crates/red-core/src/doc.rs:1127-1168 | the loop over depth, string and escape state computes the specified split |
| PipelineText.PipelineSplits | crates/red-core/src/doc.rs:1127-1170 | a bracketed list of stages with any groups and strings splits into exactly those stages, trimmed, blank ones dropped |
| PipelineText.UnfinishedRefused | crates/red-core/src/doc.rs:1157-1162 | a pipeline with an open group or string is refused |
| Pipeline.PiecesGlue | crates/red-core/src/doc.rs:1119-1126 | pieces and separating commas are the whole text, byte for byte |
| Pipeline.SplitYieldsStages | crates/red-core/src/doc.rs:1127-1168 | every stage of a successful split is non-blank, trimmed, balanced and without a top-level comma |
| Pipeline.SplitUndoesJoin | crates/red-core/src/doc.rs:1172-1184 | splitting undoes joining if and only if every stage is so |
| Pipeline.SplitJoinSplit | crates/red-core/src/doc.rs:1127-1184 | any text that splits survives the trip through the stage list |
| DocSchema.FromDocuments | crates/red-core/src/doc.rs:799-815 | the fill of the sorted map computes the specified rollup |
| DocSchema.SchemaCounts | crates/red-core/src/doc.rs:799-844 | one entry per path, and each type count is the number of observations |
| SchemaShape.InferSchema | crates/red-core/src/doc.rs:799-831 | the rows of the schema: paths in order, types ranked, presence as a ratio |
| SchemaShape.TypesRanked | crates/red-core/src/doc.rs:817-824 | a row lists exactly the types seen at its path with their counts, most frequent first, ties by alias |
| DocShown.TypesInOrder | crates/red-core/src/doc.rs:817-824 | a row's types stand by falling count, then by alias |
| DocShown.ObservedExactly | crates/red-core/src/doc.rs:837-844 | a document is observed at a path under a type exactly when it holds such a value there |
| DocShown.ObservedOnce | crates/red-core/src/doc.rs:837-844 | every value is observed once |
| DocShown.RowsExactly | crates/red-core/src/doc.rs:799-831 | the rows are in path order, one for each path that some document of the sample holds |
| SchemaShape.ScalarShape | crates/red-core/src/doc.rs:600-601 | a row shows a non-document type exactly when the rollup does |
| SchemaShape.RatioExactly | crates/red-core/src/doc.rs:777-829 | the ratio is the fraction of documents that show the path if and only if no document shows it twice |
| SchemaShape.RatioAboveOne | crates/red-core/src/doc.rs:777-829 | the one document `{"a.b": v, a: {b: v}}` gives the path `a.b` a ratio of 2 |
| DocSchema.TabularColumns | crates/red-core/src/doc.rs:598-614 | `_id` first whatever the cap, then scalar paths in order up to the cap |
| DocShown.ColumnsExactly | crates/red-core/src/doc.rs:598-614 | `_id`, then in order the paths shown as something other than a sub-document; what is left out for lack of room comes after all that is in |
| DocShown.LeavesExactly | crates/red-core/src/doc.rs:635-644 | the leaves are the values that are no sub-documents, and the empty ones |
| DocSchema.HasUnmappedFields | crates/red-core/src/doc.rs:620-644 | true exactly when some leaf path has no column |
| DocSchema.ScalarPathsExact | crates/red-core/src/doc.rs:598-614 | a path is scalar exactly when the sample shows it as something other than a sub-document |
| DocSchema.UnmappedExactly | crates/red-core/src/doc.rs:598-644 | with room for every path, a sampled document loses something if and only if a leaf is at a path seen only as sub-document, and that leaf is an empty one |
| DocSchema.SampleCovered | crates/red-core/src/doc.rs:598-644 | sampled documents without empty sub-documents lose nothing |
| DocSchema.EmptySubdocumentLost | crates/red-core/src/doc.rs:620-644 | an empty sub-document is lost even from its own sample |
| DocPaths.ValueAt | crates/red-core/src/doc.rs:273-291 | the loop over segments finds the specified value |
| DocPaths.LeafLookup | crates/red-core/src/doc.rs:273-291 | looking up a leaf's path finds the leaf, given addressable names |
| DocPaths.MappedMeansReadable | crates/red-core/src/doc.rs:273-291 | when nothing is unmapped, some column reads back each leaf |
| DocPaths.DottedNameNotFound | crates/red-core/src/doc.rs:273-291 | a dotted field name is covered by its column and not found through it |
| DocPaths.LeafFoundExactly | crates/red-core/src/doc.rs:273-291 | with unique names and distinct leaf paths, a leaf is found through its path if and only if no name on the way holds a dot |
| Utf8Lossy.LossyExact | crates/red-core/src/lib.rs:1606-1629 | the lossy conversion yields valid text and leaves exactly the valid texts alone |
| Utf8Scalar.ValidExactly | crates/red-core/src/sql.rs:726-736 | valid text is exactly the encodings of scalar values |
| Utf8Scalar.TrimExactly | crates/red-core/src/sql.rs:172-180 | trimming drops the white space at both ends and nothing else |
| Percent.Encode | crates/red-core/src/lib.rs:1583-1603 | the byte loop escapes exactly the reserved and non-ASCII bytes |
| Percent.Decode | crates/red-core/src/lib.rs:1606-1629 | the loop replaces well-formed escapes and keeps malformed ones |
| Percent.DecodeInvertsEncode | crates/red-core/src/lib.rs:1583-1629 | decoding inverts encoding on all text |
| Percent.EncodedClean | crates/red-core/src/lib.rs:1583-1603 | encoded text holds no URL delimiter, space or non-ASCII byte |
| Dsn.Compose | crates/red-core/src/lib.rs:1354-1405 | the buffer built step by step is the specified DSN |
| DsnParts.MasterAsks | crates/red-core/src/lib.rs:424-440 | a sentinel query asks for TLS exactly when the raw group name holds a marker: encoding neither adds nor hides one |
| DsnParts.HostReads | crates/red-core/src/lib.rs:1491-1507 | host and port come back exactly when no bracket confuses them |
| DsnRoundTrip.ParsedHostUncut | crates/red-core/src/lib.rs:1450-1517 | no parse of any text yields a host with a URL delimiter |
| DsnRoundTrip.ParsedIs | crates/red-core/src/lib.rs:1450-1517 | what parsing makes of a composed DSN, field by field |
| DsnRoundTrip.DsnRoundTrips | crates/red-core/src/lib.rs:1354-1517 | for every network engine all fields return if and only if host, database end and sentinel group meet their conditions |
| DsnPasted.EscapesExactly | crates/red-core/src/lib.rs:1583-1603 | the delimiters, the space and bytes outside ASCII are escaped with upper-case digits, no other byte is |
| DsnPasted.ComposedExactly | crates/red-core/src/lib.rs:1354-1405 | the composed text part by part: scheme, login, host, port, database and flag of each engine |
| DsnPasted.AsksExactly | crates/red-core/src/lib.rs:424-440 | which flags ask for TLS, anywhere in the query and in any case |
| DsnPasted.PastedReads | crates/red-core/src/lib.rs:1450-1517 | any engine's spelling of the scheme with escaped parts parses to exactly those parts, with the well-known port where none is given |
| DsnPasted.FileReads | crates/red-core/src/lib.rs:1450-1517 | a file text parses to a path from the root, however many slashes lead it |
| DsnRoundTrip.TabLost | crates/red-core/src/lib.rs:1450-1453 | `postgres://a/a` with a tab at its end comes back without the tab |
| DsnRoundTrip.MarkerSwitchesTls | crates/red-core/src/lib.rs:424-440 | a cleartext `redis://a/?master=tls=true` comes back with TLS on |
| TableDiff.DiffAccumulator.Step | crates/red-core/src/diff.rs:108-134 | records the event the two heads imply and says which side advances |
| TableDiff.DiffAccumulator.Record | crates/red-core/src/diff.rs:139-192 | totals every event, stores the first `cap` differences, marks truncation |
| TableDiff.DiffSorted | crates/red-core/src/diff.rs:271-293 | the two-index loop holds exactly the events of the merge walk |
| TableDiff.TextOrderExactly | crates/red-core/src/diff.rs:215 | text keys compare by proper prefix or the first differing byte |
| TableDiff.KeyCmpExactly | crates/red-core/src/diff.rs:209-253 | NULL, then numbers by value with NaN last, then text, blobs and capped cells, for all keys but a double beside an integer beyond 2^53 |
| DiffReport.MixedKeysExactly | crates/red-core/src/diff.rs:213-233 | an integer beside a double compares as the double nearest to it, ties to even |
| DiffReport.ChangedExactly | crates/red-core/src/diff.rs:172-192 | a pair counts as changed if and only if a cell that both rows have differs |
| DiffReport.RowsTell | crates/red-core/src/diff.rs:148-192 | every reported row holds rows of the two sides, the text of its key and a flag per changed cell |
| DiffReport.TotalsExactly | crates/red-core/src/diff.rs:108-192 | on tables with unique keys the totals are the numbers of keys removed, added, changed and unchanged |
| TableDiff.WalkConserves | crates/red-core/src/diff.rs:108-134 | on any input each row of each side is reported once, in order |
| TableDiff.TotalsCoverBothSides | crates/red-core/src/diff.rs:148-192 | removed, changed and unchanged add up to the left length; added, changed and unchanged to the right |
| TableDiff.KeyOrder | crates/red-core/src/diff.rs:197-219 | total order, ties only between equal keys, on Null, Text and either all integers or doubles beside integers within 2^53 |
| TableDiff.MixedNumbersBreakTransitivity | crates/red-core/src/diff.rs:206-219 | 2^53 + 1 ties with a double that ties with 2^53, and does not come before it |
| TableDiff.KeysTransitive | crates/red-core/src/diff.rs:206-219 | over keys of every kind, with integers within 2^53, the comparison is a total preorder |
| TableDiff.TransitiveExactly | crates/red-core/src/diff.rs:206-219 | the comparison is transitive on all keys whose integers stay within a bound if and only if the bound is at most 2^53 |
| TableDiff.KeysTieExactly | crates/red-core/src/diff.rs:209-253 | within 2^53 two keys tie if and only if they are the same key, both blobs, or both capped cells |
| TableDiff.TotalOrderExactly | crates/red-core/src/diff.rs:206-219 | on a class of keys the comparison is a total order if and only if the class holds no blobs and no capped cells and, if it holds doubles, no integers beyond 2^53 |
| TableDiff.BlobKeysPair | crates/red-core/src/diff.rs:108-219 | two rows with different blob keys are reported as one changed row |
| TableDiff.PairsPerKey | crates/red-core/src/diff.rs:108-219 | on every such class, per key, min(left, right) rows are paired and the rest is removed or added |
| TableDiff.DiffTurnsLeftIntoRight | crates/red-core/src/diff.rs:108-219 | on every such class, with unique keys and equal widths, the differences applied to left give right |
| TableDiff.UntruncatedRowsApply | crates/red-core/src/diff.rs:139-219 | the stored rows of an untruncated accumulator, applied to left, give right |
| Seek.Walk | crates/red-driver/src/conformance.rs:850-882 | for any driver that keeps the seek contract the walk ends with every row once, in key order |
| Seek.ListingUnique | crates/red-driver/src/conformance.rs:884-907 | a table has one such listing, so page sizes leave no trace |
| Seek.WindowIsPage | crates/red-driver/src/conformance.rs:855-866 | windows cut from an ordered listing keep the contract |
| Keyset.FromDetailExactly | crates/red-core/src/lib.rs:2686-2700 | a key from `from_detail` is a unique non-null key of every table that conforms to its detail, if and only if the engine keeps the key column distinct and it is declared NOT NULL or is the rowid alias |
| Keyset.SortedExactly | crates/red-core/src/lib.rs:2702-2743 | the same iff for a key from `sorted`, whatever the column and direction |
| Keyset.NullKeyLosesRow | crates/red-core/src/lib.rs:2691-2743 | for every key either function hands out: past a row with a NULL key column, or from the other row past it, every window is empty and a row is lost |
| Keyset.TiedKeyLosesRow | crates/red-core/src/lib.rs:2749-2765 | where the engine does not keep the key distinct, the window past one of two tied rows misses the other |
| Keyset.NullableKeysAccepted | crates/red-core/src/lib.rs:2691-2743 | of the keys that may be NULL `from_detail` refuses exactly the non-integers, and `sorted` refuses none |
| Keyset.BigintKeyLosesRow | crates/red-core/src/lib.rs:2693-2700 | `id BIGINT PRIMARY KEY` is accepted by both functions and loses a row |
| Keyset.BrowseAll | crates/red-core/src/lib.rs:2565-2600 | paging by a key lists the table exactly, in either direction |
| KeysetChoice.KeyColumnExactly | crates/red-core/src/lib.rs:2749-2765 | the single primary-key column, or without one the column of the first unique single-column index that is not nullable, or none |
| KeysetChoice.KindExactly | crates/red-core/src/lib.rs:2768-2797 | a key is an integer key exactly when its declared type leads with one of the integer names |
| KeysetChoice.FromDetailIs | crates/red-core/src/lib.rs:2691-2706 | the key column alone, ascending, unless it is nullable and no integer |
| KeysetChoice.SortedKeyIs | crates/red-core/src/lib.rs:2709-2742 | the asked column with the key column as tiebreaker, or the key column alone, or nothing |
| KeysetChoice.ListingInOrder | crates/red-core/src/lib.rs:2565-2600 | listed rows stand in the order of the sort column and its tiebreaker, or in the opposite one |
| Keyset.DirectionsMirror | crates/red-core/src/lib.rs:2629-2656 | the two directions list the rows in opposite orders |
| Keyset.TiesNeedTiebreak | crates/red-core/src/lib.rs:2590-2596 | without the tiebreaker a tie at a page boundary loses a row |
| DocExport.Sink.Write | crates/red-driver/src/docexport.rs:171-205 | adds one document's text, or its rendered cells, and keeps the counters |
| DocExport.Sink.WriteRow | crates/red-driver/src/format.rs:148-208 | a full sheet takes no row, and the row that fills it is not counted |
| DocExport.CollectCells | crates/red-driver/src/docexport.rs:191-197 | each column gives the cell of the value at its path, or null |
| ExportCells.CellTells | crates/red-core/src/doc.rs:196-235 | each cell tells its value: read back for ids, dates, arrays and documents, spelled for the others |
| ExportCells.RowHoldsLeaf | crates/red-driver/src/docexport.rs:171-205 | the k-th row is that of the k-th document, and under a leaf's path it tells the leaf |
| ExportCells.RowNullElsewhere | crates/red-driver/src/docexport.rs:191-197 | a column whose path the document does not hold is empty |
| ExportCells.LossesReported | crates/red-driver/src/docexport.rs:214-239 | short of a row limit the report is the number of documents that lose a leaf |
| ExportCells.SampledColumns | crates/red-driver/src/docexport.rs:71-76 | a table that names no columns takes `_id` and the sample's scalar paths in order, up to 512 |
| DocExport.Sink.Finish | crates/red-driver/src/docexport.rs:214-239 | closes the text and names the shortfall, a row limit before unmapped fields |
| DocExport.RunDocExport | crates/red-driver/src/docexport.rs:61-122 | a complete export holds every matching document once in `_id` order, under the columns asked for or sampled; it ends otherwise only on a cancel, a read error or too many columns |
| DocExport.MissingRowsReported | crates/red-driver/src/xlsx.rs:29-32 | a row missing from the file is always reported |
| DocExport.CountExactly | crates/red-driver/src/format.rs:197-208 | the reported count is what the table holds if and only if its sheet is not full |
| DocExport.RowLimitExactly | crates/red-driver/src/format.rs:214-234 | a row limit is reported exactly when rows are missing, but for the export that fills its sheet exactly |
| ExportRead.NdjsonReadsBack | crates/red-driver/src/docexport.rs:180-183 | reading the lines of an NDJSON export gives each document back, in order, if and only if none forges a tag |
| ExportRead.ArrayReadsBack | crates/red-driver/src/docexport.rs:173-179 | reading the JSON array gives each document back, in order, if and only if none forges a tag |
| CancelToken.StepKeeps | crates/red-ai/src/lib.rs:96-123 | every step of tasks and cancellers keeps the invariant, drops included |
| CancelToken.NoLostWakeup | crates/red-ai/src/lib.rs:96-123 | no reachable state has a finished cancel and a parked task, if and only if the re-check and the broadcast are both there |
| CancelToken.ReturnsOnlyWhenCancelled | crates/red-ai/src/lib.rs:108-123 | `cancelled` returns only after some `cancel` raised the flag |
| CancelToken.CancelReleasesTasks | crates/red-ai/src/lib.rs:108-123 | after a finished cancel each task can always run and is out within three of its steps |
| TurnLoop.StepKeeps | crates/red-acp/src/conversation.rs:367-454 | every step of loop, client, agent and handler keeps the invariant |
| TurnLoop.AnsweredExactlyOnce | crates/red-acp/src/conversation.rs:367-454 | in every run each Prompt and SetConfig taken is answered exactly once, only the one in hand still owed |
| TurnLoop.OneTurnAtATime | crates/red-acp/src/conversation.rs:404-442 | at most one prompt is sent and not ended, the one awaited |
| TurnLoop.SinkOfItsOwnTurn | crates/red-acp/src/conversation.rs:401-444 | a sink is installed only in its own turn, and content reaches it only before its answer |
| TurnLoop.NotificationsBounded | crates/red-acp/src/conversation.rs:411-442 | a turn sends one notification per Cancel and at most one more |
| TurnLoop.RepliesExactly | crates/red-acp/src/conversation.rs:367-454 | in every run a request taken during a turn is turned away at once, any other is answered as the agent answered it, and a turn carries the usage last metered since its own reset, read after its end |
| TurnLoop.NoSpin | crates/red-acp/src/conversation.rs:411-442 | once the channel is closed the loop takes boundedly many steps |
| TurnLoop.OnlyTheAgentBlocks | crates/red-acp/src/conversation.rs:367-454 | with the channel closed only an outstanding response holds the loop up |
| Sse.StreamTurn | crates/red-ai/src/anthropic.rs:203-245 | buffer, lines and events come to a result that depends on the joined bytes alone, or on the first failure |
| Sse.LinesPartition | crates/red-ai/src/anthropic.rs:224-226 | lines and partial line are the bytes received, one newline per line |
| Sse.LinesIntact | crates/red-ai/src/anthropic.rs:203-228 | no line of valid UTF-8 cuts a character, so none is replaced |
| Sse.ChunkingIrrelevant | crates/red-ai/src/anthropic.rs:208-245 | any two cuttings of one stream give the same accumulator and the same left-over bytes |
| SseFrames.StreamCarries | crates/red-ai/src/anthropic.rs:224-244 | from any stream of lines exactly the payloads of `data:` lines that parse are taken, in order, whatever the padding and line ends |
| Turn.TurnAccumulator.HandleEvent | crates/red-ai/src/anthropic.rs:295-438 | each event changes the accumulator as specified |
| Turn.TurnAccumulator.Finish | crates/red-ai/src/anthropic.rs:440-502 | errors first, then content block by block |
| Turn.FittingIsLongest | crates/red-ai/src/anthropic.rs:523-533 | an error text is cut at the last character boundary within 400 bytes |
| Turn.FinishesExactly | crates/red-ai/src/anthropic.rs:295-502 | a turn finishes if and only if it was stopped, had no error frame and no refusal, and all tool input can be read; never more than 1024 blocks |
| Turn.ToolArgumentsWhole | crates/red-ai/src/anthropic.rs:399-405 | a tool block's arguments are the fragments sent for its index, in order, however blocks interleave |
| TurnWhole.BlockWhole | crates/red-ai/src/anthropic.rs:303-408 | every block ends up as its opening text and its own pieces in order: texts, thoughts and signatures, summaries, tool arguments |
| TurnWhole.GapIsText | crates/red-ai/src/anthropic.rs:359-364 | a place that no frame opens is a text once a later one is opened |
| TurnWhole.BlockCount | crates/red-ai/src/anthropic.rs:350-364 | there are as many blocks as the highest opened index below 1024 asks for |
| TurnWhole.PromptUsage | crates/red-ai/src/anthropic.rs:297-302 | the prompt counts are those of the last frame that carries them, or 0 |
| TurnWhole.AnswerUsage | crates/red-ai/src/anthropic.rs:409-419 | so is the answer count |
| TurnWhole.StopFromLast | crates/red-ai/src/anthropic.rs:409-416 | the stop reason is that of the last frame that carries one, as the stated table maps it |
| TurnWhole.ErrorFromLast | crates/red-ai/src/anthropic.rs:424-436 | the error is kind and message of the last error frame, cut at the last character within 400 bytes |
| TurnWhole.MessageExactly | crates/red-ai/src/anthropic.rs:460-502 | one content per block in index order, empty texts dropped, with stop reason and counts |
| TurnWhole.ShownIsStored | crates/red-ai/src/anthropic.rs:373-397 | when blocks come one after the other, what was shown is exactly the stored text and thoughts |
| TurnWhole.ToolsAnnounced | crates/red-ai/src/anthropic.rs:326-348 | every tool call is announced once, in order |
| KeyTemplates.WalkTemplates | crates/red-core/src/kv.rs:1259-1298 | the recursion appends the specified templates |
| KeyCohorts.TemplatesExactly | crates/red-core/src/kv.rs:1259-1305 | up to the eighth position a segment is `*` exactly when the keys that reach it vary there, the ninth takes the rest, and a template holds exactly the keys that fit it |
| KeySummary.InferKeyTemplates | crates/red-core/src/kv.rs:1228-1249 | the result is the ranked summaries, cut at the bound |
| KeyTemplates.TemplatesPartition | crates/red-core/src/kv.rs:1259-1298 | every sampled key is held exactly as often as sampled, and each template matches what it holds |
| KeyTemplates.TemplatesDisjoint | crates/red-core/src/kv.rs:1259-1298 | no key at all matches two templates, and no two patterns are equal as segment lists |
| KeyTemplates.ExactlyOneTemplate | crates/red-core/src/kv.rs:1228-1298 | each sampled key matches exactly one template |
| KeyTemplates.FlatKeysRollUp | crates/red-core/src/kv.rs:1215-1228 | delimiter-less keys roll into a single `*` if and only if their one position is a variable |
| KeyTemplates.FlatKeyspaceRollsUp | crates/red-core/src/kv.rs:1215-1228 | different delimiter-less keys roll into a single `*` if and only if there are at least two |
| KeySummary.CountsAddUp | crates/red-core/src/kv.rs:1307-1336 | the counts add up to the number of keys |
| KeySummary.SummarizeTemplate | crates/red-core/src/kv.rs:1307-1336 | the loop computes bytes, types, expiries and their median as specified |
| KeySummary.SummaryRanks | crates/red-core/src/kv.rs:1317-1336 | types are counted exactly and ranked by frequency; the median stands in the middle of the sorted expiries |
| KeyReport.LabelExactly | crates/red-core/src/kv.rs:1307-1329 | a label is the segments with `*` for variables; the empty key is `(no prefix)` |
| KeyReport.TypesExactly | crates/red-core/src/kv.rs:1307-1323 | a summary lists exactly the types of its keys with their counts, by falling count, then by name |
| KeyReport.SummaryExactly | crates/red-core/src/kv.rs:1307-1336 | keys, expiring keys, bytes up to 64 bits, and the middle of the sorted expiries |
| KeyReport.ListExactly | crates/red-core/src/kv.rs:1240-1249 | largest templates first, by label among equals, cut at the bound |
| KeySummary.SummariesAddUp | crates/red-core/src/kv.rs:1307-1336 | expiring keys add up over the templates, and bytes as long as 64 bits hold them |
| KeySummary.RankedFacts | crates/red-core/src/kv.rs:1240-1249 | ranking reorders the templates, largest first, and nothing else |
| KeySummary.ShownAreLargest | crates/red-core/src/kv.rs:1240-1249 | what is cut off is never larger than what is shown |
| KeyTemplates.LabelsTellApart | crates/red-core/src/kv.rs:1324-1329 | two patterns have one label if and only if they are equal or are the empty key and the key `(no prefix)` |
| KeyTemplates.LabelsCollideExactly | crates/red-core/src/kv.rs:1228-1336 | two templates of a sample share a label if and only if it holds both keys and its first segment is no variable |
| KeyTemplates.LabelCollisionExample | crates/red-core/src/kv.rs:1324-1329 | a sample of four keys where they do |

## Left out

- Clipboard formats other than SQL, and the CSV, JSON, HTML and Markdown cell formatters: single-pass escaping without a reader in RED.
- The submodules of `sql.rs` for risk, preflight, shape and target are not part of this model.
- SqlBlocks.RoutineIsOneStatement: conditions and clauses are texts that hold no stray block keyword, because a keyword there opens a block in the code as well.
- SqlDelimiter.ScriptSplitsIntoItsStatements: tokens are printed with a space behind each, and a routine is `verb kind header BEGIN … END` before a separator that starts with no word character; other layouts are covered by SqlHidden.StripsExactlyTheHidden and SqlAgree.SplitterAgreesWithStripper.
- SqlHeads.IfOpensExactly: dollar quotes are left out, because the look-ahead does not know them (SqlDollar.DollarConditionCuts).
- SqlClipboard.ClipboardSplitsIntoItsRows: a finite double is any number text, because float printing is not modelled.
- ExtRead.ExtJsonExactly: a finite double is the decimal text that is printed for it, because float printing is not modelled; a Decimal128 is text without quotes, backslashes and control characters, because the writer does not escape it.
- Pipeline.SplitPipelineStages: the depth is unbounded; the 32-bit counter of the code overflows only beyond two billion brackets.
- SchemaShape.InferSchema: the ratio is a real number, without the rounding of a 32-bit float.
- TableDiff.PairsPerKey: blob and capped keys, and integers beyond 2^53 beside doubles, are left out, because the comparison is no order there (TableDiff.TotalOrderExactly).
- Keyset.FromDetailExactly: whether the key column is the rowid alias, and whether the engine keeps it distinct, are facts about the table that its detail does not carry; they enter as parameters.
- Seek.Walk: the driver is any function that keeps the seek contract; a table that changes during the walk is not modelled.
- DocExport.RunDocExport: I/O errors of the file and the progress channel are left out, and so are the bytes of CSV and XLSX files; a tabular row is the list of its cells.
- CancelToken.NoLostWakeup: tokio's `Notify` enters by its documented contract.
- TurnLoop.AnsweredExactlyOnce: contents of prompts and the option lists of config replies are left out; so is the take-once readiness signal, which one branch settles.
- TurnWhole.BlockWhole: frames carry the fields they are for; of missing fields only the counts and the index are covered.
- Sse.StreamTurn: JSON parsing is a function parameter; the HTTP request, its headers and status codes are left out.
- Keyspace analysis, schema diff, type mapping, DDL, transfer, health and server metrics: per-case mapping and string assembly.
- File, keychain, process and network I/O, the agent SDK and the user interface.
