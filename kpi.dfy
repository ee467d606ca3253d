/** Extraction of the (project, yield rate, retest rate) records from the combined
    worksheet (main_build.py, lines 297-307), by a fixed layout: a label row with
    "Yield Rate" in column 2 and "Retest Rate(Max.)" in column 3, the project title in
    column 1 three rows above it, and the two values in the row below it. */
module Kpi {
  import opened Wrappers
  import opened Workbook

  const YieldLabel := "Yield Rate"
  const RetestLabel := "Retest Rate(Max.)"

  /** The sub-table schema: columns of the project title and of the two rates, and the
      row offsets of the title and of the values from the label row. */
  const ProjectColumn := 1
  const YieldColumn := 2
  const RetestColumn := 3
  const ProjectOffset := 3
  const ValueOffset := 1

  /** One project's figures. The project is the title cell's value, which may be empty. */
  datatype Record = Record(project: Option<string>, yieldRate: string, retestRate: string)

  /** openpyxl refuses a cell address above row 1 (`ValueError`), which aborts the scan. */
  datatype ExtractError = RowBeforeFirst(row: int)

  /** The value of the cell at (r, c); a cell that does not exist reads as empty. */
  function ValueAt(ws: Sheet, r: int, c: int): Option<string> {
    if (r, c) in ws.cells then ws.cells[(r, c)].value else None
  }

  /** Row `r` carries the two labels. */
  predicate Labelled(ws: Sheet, r: int) {
    ValueAt(ws, r, YieldColumn) == Some(YieldLabel) && ValueAt(ws, r, RetestColumn) == Some(RetestLabel)
  }

  /** Row `r` carries the two labels and the row below it both values. */
  predicate Qualifies(ws: Sheet, r: int) {
    Labelled(ws, r) && ValueAt(ws, r + ValueOffset, YieldColumn).Some? &&
    ValueAt(ws, r + ValueOffset, RetestColumn).Some?
  }

  /** The record read around a qualifying label row. */
  function RecordAt(ws: Sheet, r: int): Record
    requires Qualifies(ws, r)
  {
    Record(ValueAt(ws, r - ProjectOffset, ProjectColumn),
           ValueAt(ws, r + ValueOffset, YieldColumn).value,
           ValueAt(ws, r + ValueOffset, RetestColumn).value)
  }

  /** The outcome of scanning rows 1 .. n-1 top to bottom: a labelled row whose title
      row would be above row 1 aborts; otherwise each qualifying row adds its record. */
  function ScanRows(ws: Sheet, n: int): Result<seq<Record>, ExtractError>
    decreases n
  {
    if n <= 1 then Success([])
    else match ScanRows(ws, n - 1)
      case Failure(e) => Failure(e)
      case Success(recs) =>
        var r := n - 1;
        if !Labelled(ws, r) then Success(recs)
        else if r - ProjectOffset < 1 then Failure(RowBeforeFirst(r - ProjectOffset))
        else if Qualifies(ws, r) then Success(recs + [RecordAt(ws, r)])
        else Success(recs)
  }

  /** The extraction scans rows 1 .. max_row-1: the last row is never tested. */
  function Extract(ws: Sheet): Result<seq<Record>, ExtractError> {
    ScanRows(ws, ws.maxRow)
  }

  /** The scan loop of the source, appending to `data`. */
  method ExtractRecords(ws: Sheet) returns (res: Result<seq<Record>, ExtractError>)
    ensures res == Extract(ws)
  {
    var data: seq<Record> := [];
    var row := 1;
    while row < ws.maxRow
      invariant 1 <= row <= if ws.maxRow >= 1 then ws.maxRow else 1
      invariant ScanRows(ws, row) == Success(data)
    {
      var b := ValueAt(ws, row, YieldColumn);
      var c := ValueAt(ws, row, RetestColumn);
      if b == Some(YieldLabel) && c == Some(RetestLabel) {
        if row - ProjectOffset < 1 {
          assert ScanRows(ws, row + 1) == Failure(RowBeforeFirst(row - ProjectOffset));
          ScanFailureKept(ws, row + 1, ws.maxRow);
          return Failure(RowBeforeFirst(row - ProjectOffset));
        }
        var project := ValueAt(ws, row - ProjectOffset, ProjectColumn);
        var yr := ValueAt(ws, row + ValueOffset, YieldColumn);
        var rr := ValueAt(ws, row + ValueOffset, RetestColumn);
        if yr.Some? && rr.Some? {
          data := data + [Record(project, yr.value, rr.value)];
        }
      }
      row := row + 1;
    }
    res := Success(data);
  }

  /** Once the scan has failed, scanning further rows keeps the same error. */
  lemma {:induction false} ScanFailureKept(ws: Sheet, a: int, b: int)
    requires a <= b && ScanRows(ws, a).Failure?
    ensures ScanRows(ws, b) == ScanRows(ws, a)
    decreases b - a
  {
    if a < b {
      ScanFailureKept(ws, a, b - 1);
    }
  }

  /** The qualifying rows among 1 .. n-1, in increasing order. */
  function QualifyingRows(ws: Sheet, n: int): seq<int>
    decreases n
  {
    if n <= 1 then []
    else QualifyingRows(ws, n - 1) + (if Qualifies(ws, n - 1) then [n - 1] else [])
  }

  /** The qualifying rows are strictly increasing, and a row is among them exactly when it
      lies in 1 .. n-1 and qualifies. */
  lemma {:induction false} QualifyingRowsSpec(ws: Sheet, n: int)
    ensures var q := QualifyingRows(ws, n);
      (forall a, b :: 0 <= a < b < |q| ==> q[a] < q[b]) &&
      (forall r :: r in q <==> 1 <= r < n && Qualifies(ws, r))
    decreases n
  {
    if n > 1 {
      QualifyingRowsSpec(ws, n - 1);
      var p := QualifyingRows(ws, n - 1);
      assert forall a :: 0 <= a < |p| ==> p[a] in p && p[a] < n - 1;
    }
  }

  /** The scan fails exactly when some labelled row among 1 .. n-1 is one of rows 1 to 3. */
  lemma {:induction false} ScanFails(ws: Sheet, n: int)
    ensures ScanRows(ws, n).Failure? <==> exists r :: 1 <= r < n && r <= ProjectOffset && Labelled(ws, r)
    decreases n
  {
    if n > 1 {
      ScanFails(ws, n - 1);
    }
  }

  /** When the scan succeeds it yields one record per qualifying row, in row order, each
      read at the fixed offsets from its label row. */
  lemma {:induction false} ScanRecords(ws: Sheet, n: int)
    requires ScanRows(ws, n).Success?
    ensures var recs := ScanRows(ws, n).value;
      var q := QualifyingRows(ws, n);
      |recs| == |q| && forall k :: 0 <= k < |q| ==> Qualifies(ws, q[k]) && recs[k] == RecordAt(ws, q[k])
    decreases n
  {
    if n > 1 {
      ScanRecords(ws, n - 1);
      QualifyingRowsSpec(ws, n);
    }
  }

  /** The whole extraction: either the error of a labelled row among rows 1 to 3, or the
      records of exactly the qualifying rows 1 .. max_row-1, in increasing row order. */
  lemma Extraction(ws: Sheet)
    ensures Extract(ws).Failure? <==> exists r :: 1 <= r < ws.maxRow && r <= ProjectOffset && Labelled(ws, r)
    ensures Extract(ws).Success? ==>
      var recs := Extract(ws).value;
      var q := QualifyingRows(ws, ws.maxRow);
      |recs| == |q| && forall k :: 0 <= k < |q| ==> Qualifies(ws, q[k]) && recs[k] == RecordAt(ws, q[k])
  {
    ScanFails(ws, ws.maxRow);
    if Extract(ws).Success? {
      ScanRecords(ws, ws.maxRow);
    }
  }

  function Text(s: string): Cell {
    Cell(Some(s), false, DefaultStyle)
  }

  /** One project sub-table: title "LineA" in row 1, labels in row 4, values "92%" and
      "1%" in row 5, the last row. Exactly one record is extracted. */
  lemma SingleProjectExample()
    ensures var ws := Sheet(map[(1, 1) := Text("LineA"), (4, 2) := Text(YieldLabel),
                                (4, 3) := Text(RetestLabel), (5, 2) := Text("92%"), (5, 3) := Text("1%")], [], 5);
      Extract(ws) == Success([Record(Some("LineA"), "92%", "1%")])
  {
    var ws := Sheet(map[(1, 1) := Text("LineA"), (4, 2) := Text(YieldLabel),
                        (4, 3) := Text(RetestLabel), (5, 2) := Text("92%"), (5, 3) := Text("1%")], [], 5);
    assert !Labelled(ws, 1) && !Labelled(ws, 2) && !Labelled(ws, 3);
    assert ScanRows(ws, 2) == Success([]);
    assert ScanRows(ws, 3) == Success([]);
    assert ScanRows(ws, 4) == Success([]);
    assert Qualifies(ws, 4);
    assert RecordAt(ws, 4) == Record(Some("LineA"), "92%", "1%");
    assert Labelled(ws, 4) && !(4 - ProjectOffset < 1);
    assert [] + [RecordAt(ws, 4)] == [RecordAt(ws, 4)];
    assert ScanRows(ws, 5) == Success([RecordAt(ws, 4)]);
  }
}
