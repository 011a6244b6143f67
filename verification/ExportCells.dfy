/**
 * What the tables of an export hold, beside crates/red-core/src/doc.rs and
 * crates/red-driver/src/docexport.rs: each cell says its value, each row its document, and the
 * reported losses are the documents that lose something.
 */
module ExportCells {
  import opened Wrappers
  import opened JsonText
  import opened ExtJson
  import opened ExtRead
  import opened Strings
  import IsoDate
  import DS = DocSchema
  import DP = DocPaths
  import opened DocShown
  import opened DocExport

  // ----- cells -----

  /** A cell from which the value can be told. */
  predicate Tells(v: DocValue, c: Cell) {
    match v
    case Null => c == NullCell
    case Bool(b) => c == TextCell(if b then "true" else "false")
    case Int32(n) => c == IntCell(n)
    case Int64(n) => c == IntCell(n)
    case Double(x) => c == RealCell(x)
    case Decimal128(s) => c == TextCell(s)
    case Str(s) => c == TextCell(s)
    case ObjectId(id) => c.TextCell? && UnHex(c.s) == Some(id)
    case DateTime(ms) =>
      c.TextCell? &&
      if -62_167_219_200_000 <= ms < 253_402_300_800_000 then IsoDate.ReadIso(c.s) == Some(ms) else ReadExtJson(c.s) == Some(v)
    case Timestamp(ts) => c.TextCell? && (ts < POW32 * POW32 ==> ReadExtJson(c.s) == Some(v))
    case Binary(_, bytes) => c == BlobCell(|bytes|)
    case Regex(pattern, options) => c == TextCell("/" + pattern + "/" + options)
    case _ => c.TextCell? && (Readable(v) ==> (ReadExtJson(c.s) == Some(Widened(v)) <==> !Forges(v)))
  }

  lemma CellTells(v: DocValue)
    ensures Tells(v, ToCell(v))
  {
    hide ExtText, ReadExtJson, UnHex, HexAll, IsoDate.Iso8601, IsoDate.ReadIso, Forges;
    match v
    case ObjectId(id) => HexReads(id);
    case DateTime(ms) =>
      IsoDate.IsoRange(ms);
      if IsoDate.Iso8601(ms).Some? {
        IsoDate.IsoRoundTrip(ms);
      } else {
        ScalarTells(v);
      }
    case Timestamp(ts) =>
      if ts < POW32 * POW32 {
        ScalarTells(v);
      }
    case Array(_) =>
      if Readable(v) {
        ExtJsonExactly(v);
      }
    case Document(_) =>
      if Readable(v) {
        ExtJsonExactly(v);
      }
    case _ =>
  }

  lemma ScalarTells(v: DocValue)
    requires (v.DateTime? || v.Timestamp?) && Readable(v)
    ensures ReadExtJson(ExtText(v)) == Some(v)
  {
    hide ExtText, ReadExtJson;
    ExtJsonExactly(v);
  }

  // ----- rows -----

  lemma {:induction false} RowIs(f: Format, docs: seq<Doc>, columns: seq<string>, k: nat)
    requires IsTabular(f) && k < |Rows(f, docs, columns)|
    ensures k < |docs| && Rows(f, docs, columns)[k] == CellsOf(docs[k], columns)
    decreases |docs|
  {
    hide CellsOf;
    var front := docs[..|docs| - 1];
    RowCount(f, front, columns);
    if k < |Rows(f, front, columns)| {
      RowIs(f, front, columns, k);
    }
  }

  /** The k-th row is that of the k-th document: under a leaf's path stands the leaf. */
  lemma RowHoldsLeaf(f: Format, docs: seq<Doc>, columns: seq<string>, k: nat, i: nat, l: DS.Leaf)
    requires IsTabular(f) && k < |Rows(f, docs, columns)| && i < |columns| && columns[i] == l.path
    requires k < |docs| ==> DP.UniqueDoc(docs[k]) && DP.DotFreeDoc(docs[k]) && l in DS.DocLeaves(docs[k])
    ensures |Rows(f, docs, columns)[k]| == |columns| && Tells(l.value, Rows(f, docs, columns)[k][i])
  {
    hide Rows, Tells, ToCell, DP.Walk, DP.UniqueDoc, DP.DotFreeDoc, DS.DocLeaves, DP.Segments;
    RowIs(f, docs, columns, k);
    DP.LeafLookup(docs[k], l);
    CellTells(l.value);
  }

  lemma {:induction false} FindHeld(fields: seq<Field>, name: string)
    requires DP.Find(fields, name).Some?
    ensures exists k :: 0 <= k < |fields| && fields[k] == Field(name, DP.Find(fields, name).value)
    decreases |fields|
  {
    if fields[0].name == name {
      assert fields[0] == Field(name, DP.Find(fields, name).value);
    } else {
      FindHeld(fields[1..], name);
      var k :| 0 <= k < |fields[1..]| && fields[1..][k] == Field(name, DP.Find(fields, name).value);
      assert fields[k + 1] == fields[1..][k];
    }
  }

  /** One more name below a held document. */
  lemma {:induction false} HoldsMore(v: DocValue, names: seq<string>, w: DocValue, k: nat)
    requires LeadsTo(v, names, w) && w.Document? && k < |w.fields|
    ensures LeadsTo(v, names + [w.fields[k].name], w.fields[k].value)
    decreases |names|
  {
    var more := names + [w.fields[k].name];
    if names == [] {
      assert more[1..] == [];
      assert LeadsTo(w.fields[k].value, more[1..], w.fields[k].value);
    } else {
      var j :| 0 <= j < |v.fields| && v.fields[j].name == names[0] && LeadsTo(v.fields[j].value, names[1..], w);
      HoldsMore(v.fields[j].value, names[1..], w, k);
      assert more[1..] == names[1..] + [w.fields[k].name] && more[0] == names[0];
    }
  }

  lemma DocHoldsMore(d: Doc, names: seq<string>, w: DocValue, k: nat)
    requires DocHolds(d, names, w) && w.Document? && k < |w.fields|
    ensures DocHolds(d, names + [w.fields[k].name], w.fields[k].value)
  {
    hide LeadsTo;
    var more := names + [w.fields[k].name];
    assert more[1..] == names[1..] + [w.fields[k].name] && more[0] == names[0];
    if names[0] == "_id" && LeadsTo(d.id, names[1..], w) {
      HoldsMore(d.id, names[1..], w, k);
    } else {
      var j :| 0 <= j < |d.fields| && d.fields[j].name == names[0] && LeadsTo(d.fields[j].value, names[1..], w);
      HoldsMore(d.fields[j].value, names[1..], w, k);
      assert d.fields[j].name == more[0] && LeadsTo(d.fields[j].value, more[1..], w.fields[k].value);
    }
  }

  /** What a walk finds the document holds. */
  lemma {:induction false} WalkHeld(d: Doc, names: seq<string>)
    requires names != [] && DP.Walk(d, names).Some?
    ensures DocHolds(d, names, DP.Walk(d, names).value)
    decreases |names|
  {
    hide DocHolds;
    var v := DP.Walk(d, names).value;
    if |names| == 1 {
      HeadHeld(d, names);
    } else {
      var front, last := names[..|names| - 1], names[|names| - 1];
      WalkHeld(d, front);
      var w := DP.Walk(d, front).value;
      FindHeld(w.fields, last);
      var k :| 0 <= k < |w.fields| && w.fields[k] == Field(last, v);
      DocHoldsMore(d, front, w, k);
      assert names == front + [last];
    }
  }

  lemma HeadHeld(d: Doc, names: seq<string>)
    requires |names| == 1 && DP.Head(d, names[0]).Some?
    ensures DocHolds(d, names, DP.Head(d, names[0]).value)
  {
    var v := DP.Head(d, names[0]).value;
    assert names[1..] == [];
    if names[0] != "_id" {
      FindHeld(d.fields, names[0]);
      var k :| 0 <= k < |d.fields| && d.fields[k] == Field(names[0], v);
      assert d.fields[k].name == names[0] && LeadsTo(d.fields[k].value, names[1..], v);
    }
  }

  lemma {:induction false} DottedJoins(names: seq<string>)
    requires names != []
    ensures Dotted(names) == JoinWith(names, '.')
    decreases |names|
  {
    hide Tail;
    if |names| == 1 {
      assert names[1..] == [];
      TailNone();
      assert names[0] + "" == names[0];
    } else {
      var front, last := names[..|names| - 1], names[|names| - 1];
      DottedJoins(front);
      assert names == front + [last];
      assert names[1..] == front[1..] + [last];
      TailMore(front[1..], last);
      assert names[0] + (Tail(front[1..]) + ("." + last)) == (names[0] + Tail(front[1..])) + "." + last;
    }
  }

  lemma TailNone()
    ensures Tail([]) == ""
  {
  }

  lemma {:induction false} TailMore(names: seq<string>, last: string)
    ensures Tail(names + [last]) == Tail(names) + ("." + last)
    decreases |names|
  {
    var all := names + [last];
    if names == [] {
      assert all[1..] == [];
      assert "." + last + Tail(all[1..]) == "." + last;
      assert Tail(names) + ("." + last) == "." + last;
    } else {
      assert all[1..] == names[1..] + [last];
      TailMore(names[1..], last);
      assert "." + names[0] + (Tail(names[1..]) + ("." + last)) == Tail(names) + ("." + last);
    }
  }

  /** A column whose path the document does not have is empty. */
  lemma RowNullElsewhere(f: Format, docs: seq<Doc>, columns: seq<string>, k: nat, i: nat)
    requires IsTabular(f) && k < |Rows(f, docs, columns)| && i < |columns|
    requires k < |docs| ==> forall names, w :: DocHolds(docs[k], names, w) ==> Dotted(names) != columns[i]
    ensures |Rows(f, docs, columns)[k]| == |columns| && Rows(f, docs, columns)[k][i] == NullCell
  {
    hide Rows, ToCell, DP.Walk, DocHolds, JoinWith, SplitOn;
    RowIs(f, docs, columns, k);
    var names := DP.Segments(columns[i]);
    if DP.Walk(docs[k], names).Some? {
      WalkHeld(docs[k], names);
      DottedJoins(names);
      JoinSplit(columns[i], '.');
      assert false;
    }
  }

  // ----- losses -----

  /** A document with a leaf that no column names. */
  ghost predicate Loses(d: Doc, columns: seq<string>) {
    exists l :: l in DS.DocLeaves(d) && l.path !in columns
  }

  lemma LosesIs(d: Doc, columns: seq<string>)
    ensures DS.Unmapped(DS.DocLeaves(d), columns) <==> Loses(d, columns)
  {
    hide DS.DocLeaves;
    var leaves := DS.DocLeaves(d);
    if DS.Unmapped(leaves, columns) {
      var k :| 0 <= k < |leaves| && leaves[k].path !in columns;
      assert leaves[k] in leaves;
    }
  }

  ghost function Losers(docs: seq<Doc>, columns: seq<string>): set<int> {
    set k | 0 <= k < |docs| && Loses(docs[k], columns)
  }

  lemma {:induction false} LossesCounted(f: Format, docs: seq<Doc>, columns: seq<string>)
    requires IsTabular(f)
    ensures Unmapped(f, docs, columns) == |Losers(docs, columns)|
    decreases |docs|
  {
    hide Loses, DS.Unmapped;
    if docs == [] {
      assert Losers(docs, columns) == {};
    } else {
      var n := |docs| - 1;
      var front := docs[..n];
      LossesCounted(f, front, columns);
      LosesIs(docs[n], columns);
      forall k | 0 <= k < n ensures Loses(front[k], columns) == Loses(docs[k], columns) {
        assert front[k] == docs[k];
      }
      if Loses(docs[n], columns) {
        assert Losers(docs, columns) == Losers(front, columns) + {n};
        assert n !in Losers(front, columns);
      } else {
        assert Losers(docs, columns) == Losers(front, columns);
      }
    }
  }

  /** Short of a row limit, a table reports how many of its documents lose something, and nothing when none does. */
  lemma LossesReported(r: Outcome, f: Format, columns: seq<string>, docs: seq<Doc>)
    requires Exported(r, f, columns, docs) && IsTabular(f) && r.shortfall != Some(RowLimit)
    ensures var n := |Losers(docs, columns)|; r.shortfall == if n > 0 then Some(UnmappedFields(n)) else None
  {
    hide Finished, Rows, Unmapped;
    LossesCounted(f, docs, columns);
  }

  // ----- columns -----

  /** A table that names no columns takes `_id` and the sample's scalar paths in order, up to 512; one that does keeps them. */
  lemma SampledColumns(f: Format, requested: seq<string>, sample: seq<Doc>, p: string)
    requires IsTabular(f) && sample != []
    ensures requested != [] ==> ChosenColumns(f, requested, sample) == requested
    ensures requested == [] ==>
              var c := ChosenColumns(f, requested, sample);
              && c != [] && c[0] == "_id" && (forall i, j :: 1 <= i < j < |c| ==> Precedes(c[i], c[j]))
              && (p in c[1..] ==> p != "_id" && exists i, t :: 0 <= i < |sample| && t != DS.TObject && Shows(sample[i], p, t))
              && (p !in c && (exists i, t :: 0 <= i < |sample| && t != DS.TObject && Shows(sample[i], p, t)) ==> |c| >= 512)
  {
    hide DS.SchemaOf, DS.Columns, Shows, Precedes;
    ColumnsExactly(sample, 512, p);
  }
}
