/** The colour pass over the written worksheet (dev_qa_compare.py:72-91) and
    the script's whole run from the directory model to the coloured sheet.
    The sheet is an array of rows, index 0 holding the header (Excel row 1)
    and index i the data row Excel numbers i + 1. */
module Report {
  import opened Wrappers
  import opened LexOrder
  import opened Extract
  import opened Discovery
  import opened Compare

  /** A cell's background: none, or one of the three solid fills of lines
      73-75. */
  datatype Fill = NoFill | Green | Yellow | Red

  datatype Cell = Cell(value: Node, fill: Fill)

  /** Columns A to E: Service Name, Filename, Dev Image Tag, QA Image Tag,
      compare. */
  datatype SheetRow = SheetRow(a: Cell, b: Cell, c: Cell, d: Cell, e: Cell)

  /** The colour the fill code gives each verdict (lines 84-91). */
  function ColourOf(v: Verdict): (f: Fill)
    ensures f != NoFill
    ensures v == Match <==> f == Green
    ensures v == DevGreater <==> f == Yellow
    ensures v == DevLess <==> f == Red
  {
    match v
    case Match => Green
    case DevGreater => Yellow
    case DevLess => Red
  }

  function Plain(v: Node): Cell
  {
    Cell(v, NoFill)
  }

  /** Row 1 of the sheet: the DataFrame's column names (line 67, `index=False`). */
  function Header(): SheetRow
  {
    SheetRow(Plain(Str("Service Name")), Plain(Str("Filename")), Plain(Str("Dev Image Tag")),
             Plain(Str("QA Image Tag")), Plain(Str("compare")))
  }

  /** A data row as `to_excel` writes it, before any fill. */
  function DataRow(r: Row, v: Verdict): SheetRow
  {
    SheetRow(Plain(Str(r.service)), Plain(Str(r.filename)), Plain(r.devTag), Plain(r.qaTag),
             Plain(Str(Label(v))))
  }

  /** The sheet written at line 67: the header, then one row per table row
      with its verdict. */
  function Layout(rows: seq<Row>, verdicts: seq<Verdict>): (sheet: seq<SheetRow>)
    requires |rows| == |verdicts|
    ensures |sheet| == |rows| + 1
  {
    [Header()] + seq(|rows|, i requires 0 <= i < |rows| => DataRow(rows[i], verdicts[i]))
  }

  /** What lines 79-91 do to one data row: compare the values of C and D with
      Python's `==` and `>`, then fill B and E with the colour found. None
      when `>` raises. */
  function Painted(row: SheetRow): Option<SheetRow>
  {
    match CompareTags(row.c.value, row.d.value)
    case None => None
    case Some(v) =>
      var f := ColourOf(v);
      Some(row.(b := row.b.(fill := f), e := row.e.(fill := f)))
  }

  /** A painted row differs from the original only in the fills of B and E,
      which are the same colour: green iff the tags are equal, and for string
      tags yellow iff dev > qa and red iff dev < qa. */
  lemma PaintedOnlyFillsBAndE(row: SheetRow)
    ensures Painted(row).Some? <==> CompareTags(row.c.value, row.d.value).Some?
    ensures Painted(row).Some? ==>
      var p := Painted(row).value;
      && p.a == row.a && p.c == row.c && p.d == row.d
      && p.b.value == row.b.value && p.e.value == row.e.value
      && p.b.fill == p.e.fill
      && (p.b.fill == Green <==> row.c.value == row.d.value)
    ensures row.c.value.Str? && row.d.value.Str? ==>
      var p := Painted(row).value;
      && (p.b.fill == Yellow <==> Less(row.d.value.text, row.c.value.text))
      && (p.b.fill == Red <==> Less(row.c.value.text, row.d.value.text))
  {
  }

  /** The colours always agree with the `compare` column: on the sheet
      written from a table and its verdicts, every data row can be painted,
      and B and E get the colour of the verdict written in E. */
  lemma {:induction false} FillAgreesWithCompare(rows: seq<Row>, verdicts: seq<Verdict>)
    requires CompareColumn(rows) == Some(verdicts)
    ensures forall i :: 1 <= i <= |rows| ==> Painted(Layout(rows, verdicts)[i]).Some?
    ensures forall i :: 1 <= i <= |rows| ==>
      && Painted(Layout(rows, verdicts)[i]).value.b.fill == ColourOf(verdicts[i - 1])
      && Painted(Layout(rows, verdicts)[i]).value.e.fill == ColourOf(verdicts[i - 1])
      && Painted(Layout(rows, verdicts)[i]).value.e.value == Str(Label(verdicts[i - 1]))
  {
    var sheet := Layout(rows, verdicts);
    forall i | 1 <= i <= |rows|
      ensures Painted(sheet[i]).Some? && Painted(sheet[i]).value.b.fill == ColourOf(verdicts[i - 1])
      ensures Painted(sheet[i]).value.e.fill == ColourOf(verdicts[i - 1])
      ensures Painted(sheet[i]).value.e.value == Str(Label(verdicts[i - 1]))
    {
      assert sheet[i] == DataRow(rows[i - 1], verdicts[i - 1]);
    }
  }

  /** The console legend of lines 101-103, as printed. */
  function PrintedLegend(f: Fill): Option<Verdict>
  {
    match f
    case Red => Some(DevGreater)
    case Yellow => Some(DevLess)
    case Green => Some(Match)
    case NoFill => None
  }

  /** The printed legend swaps the meanings of red and yellow relative to the
      colours the fill code applies. */
  lemma LegendSwapsRedAndYellow()
    ensures PrintedLegend(ColourOf(DevGreater)) == Some(DevLess)
    ensures PrintedLegend(ColourOf(DevLess)) == Some(DevGreater)
    ensures PrintedLegend(ColourOf(Match)) == Some(Match)
  {
  }

  /** The loop of lines 78-91 over the data rows. When `>` raises on a row
      the run stops there: earlier rows are painted, the rest untouched. */
  method ApplyFills(sheet: array<SheetRow>) returns (ok: bool)
    modifies sheet
    ensures sheet.Length > 0 ==> sheet[0] == old(sheet[0])
    ensures ok <==> forall i :: 1 <= i < sheet.Length ==> Painted(old(sheet[i])).Some?
    ensures ok ==> forall i :: 1 <= i < sheet.Length ==> Painted(old(sheet[i])) == Some(sheet[i])
    ensures !ok ==> exists k :: (
      && 1 <= k < sheet.Length
      && Painted(old(sheet[k])).None?
      && (forall i :: 1 <= i < k ==> Painted(old(sheet[i])) == Some(sheet[i]))
      && (forall i :: k <= i < sheet.Length ==> sheet[i] == old(sheet[i])))
  {
    var row := 1;
    while row < sheet.Length
      invariant 1 <= row <= sheet.Length || sheet.Length == 0
      invariant sheet.Length > 0 ==> sheet[0] == old(sheet[0])
      invariant forall i :: 1 <= i < row && i < sheet.Length ==> Painted(old(sheet[i])) == Some(sheet[i])
      invariant forall i :: row <= i < sheet.Length ==> sheet[i] == old(sheet[i])
    {
      var r := sheet[row];
      var devTag := r.c.value;
      var qaTag := r.d.value;
      var fill;
      if devTag == qaTag {
        fill := Green;
      } else {
        var greater := PyGreater(devTag, qaTag);
        if greater.None? {
          return false;
        } else if greater.value {
          fill := Yellow;
        } else {
          fill := Red;
        }
      }
      sheet[row] := r.(e := r.e.(fill := fill), b := r.b.(fill := fill));
      row := row + 1;
    }
    return true;
  }

  /** The sheet after the colour pass that `Run` states row by row. */
  ghost predicate ReportsTable(table: seq<Row>, verdicts: seq<Verdict>, sheet: seq<SheetRow>)
  {
    && |verdicts| == |table|
    && |sheet| == |table| + 1
    && sheet[0] == Header()
    && forall i :: 0 <= i < |table| ==>
      && sheet[i + 1].a == Plain(Str(table[i].service))
      && sheet[i + 1].b == Cell(Str(table[i].filename), ColourOf(verdicts[i]))
      && sheet[i + 1].c == Plain(table[i].devTag)
      && sheet[i + 1].d == Plain(table[i].qaTag)
      && sheet[i + 1].e == Cell(Str(Label(verdicts[i])), ColourOf(verdicts[i]))
  }

  /** Painting every data row of the written sheet gives the report. */
  lemma {:induction false} PaintedLayoutReports(table: seq<Row>, verdicts: seq<Verdict>, written: seq<SheetRow>, sheet: seq<SheetRow>)
    requires CompareColumn(table) == Some(verdicts) && written == Layout(table, verdicts)
    requires |sheet| == |written| && sheet[0] == written[0]
    requires forall i :: 1 <= i < |sheet| ==> Painted(written[i]) == Some(sheet[i])
    ensures ReportsTable(table, verdicts, sheet)
  {
    forall i | 0 <= i < |table|
      ensures sheet[i + 1].a == Plain(Str(table[i].service))
      ensures sheet[i + 1].b == Cell(Str(table[i].filename), ColourOf(verdicts[i]))
      ensures sheet[i + 1].c == Plain(table[i].devTag) && sheet[i + 1].d == Plain(table[i].qaTag)
      ensures sheet[i + 1].e == Cell(Str(Label(verdicts[i])), ColourOf(verdicts[i]))
    {
      assert written[i + 1] == DataRow(table[i], verdicts[i]);
      assert Painted(written[i + 1]) == Some(sheet[i + 1]);
    }
  }

  /** Lines 55-93: add the `compare` column, write the sheet and colour it.
      None when the lambda or the colour pass raises. */
  method Render(table: seq<Row>) returns (report: Option<seq<SheetRow>>)
    ensures report.Some? <==> CompareColumn(table).Some?
    ensures report.Some? ==> ReportsTable(table, CompareColumn(table).value, report.value)
  {
    var verdicts := CompareColumn(table);
    if verdicts.None? {
      return None;
    }
    var written := Layout(table, verdicts.value);
    var sheet := new SheetRow[|written|](i requires 0 <= i < |written| => written[i]);
    assert sheet[..] == written;
    FillAgreesWithCompare(table, verdicts.value);
    var ok := ApplyFills(sheet);
    assert ok;
    var final := sheet[..];
    assert forall i :: 1 <= i < |final| ==> Painted(written[i]) == Some(final[i]);
    PaintedLayoutReports(table, verdicts.value, written, final);
    report := Some(final);
  }

  /** The whole script with the file system given as a value: discover the
      rows, then render them. None when the script would stop with an
      exception (missing root directory, or `>` raising on a row). */
  method Run(fs: Fs) returns (table: seq<Row>, report: Option<seq<SheetRow>>)
    ensures ServiceNames(fs).None? ==> report.None? && table == []
    ensures ServiceNames(fs).Some? ==> |table| == TotalMatches(fs, ServiceNames(fs).value)
    ensures ServiceNames(fs).Some? ==> forall r :: r in table ==>
      r.service in ServiceNames(fs).value && r.filename in Matching(fs, r.service) && r == RowFor(fs, r.service, r.filename)
    ensures ServiceNames(fs).Some? ==> forall s, f :: s in ServiceNames(fs).value && f in Matching(fs, s) ==>
      RowFor(fs, s, f) in table
    ensures ServiceNames(fs).Some? && Distinct(fs.listings[BaseDev]) ==> DistinctRows(table)
    ensures report.Some? <==> ServiceNames(fs).Some? && CompareColumn(table).Some?
    ensures report.Some? ==> ReportsTable(table, CompareColumn(table).value, report.value)
  {
    var names := ServiceNames(fs);
    if names.None? {
      return [], None;
    }
    ghost var blocks;
    table, blocks := CollectRows(fs, names.value);
    report := Render(table);
  }
}
