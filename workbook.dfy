/** The merge of several exported worksheets into one combined worksheet
    (main_build.py, lines 256-289). A row cursor walks the source sheets in order;
    each sheet's header merged ranges and cells are copied at the cursor's offset,
    and one blank separator row follows every sheet. */
module Workbook {
  import opened Wrappers

  /** The style attributes the merge copies (font, border, fill, number format,
      protection, alignment), kept opaque: the merge only moves them. */
  datatype Style = Style(font: int, border: int, fill: int, numberFormat: string, protection: int, alignment: int)

  /** The style of a cell that was never styled. */
  const DefaultStyle := Style(0, 0, 0, "General", 0, 0)

  /** A cell: its value (`None` is an empty cell), openpyxl's `has_style` flag and its style. */
  datatype Cell = Cell(value: Option<string>, hasStyle: bool, style: Style)

  /** A row as `iter_rows` yields it: one cell per column of the sheet, so at least one. */
  type Row = r: seq<Cell> | |r| > 0 witness [Cell(None, false, Style(0, 0, 0, "General", 0, 0))]

  /** A merged range: rows `minRow..maxRow` and columns `minCol..maxCol`, 1-based, inclusive. */
  datatype CellRange = CellRange(minRow: int, maxRow: int, minCol: int, maxCol: int)

  /** An exported worksheet: its rows, top to bottom, and its merged ranges. A sheet that
      holds no cell has no rows: `iter_rows` yields nothing for it. */
  datatype SourceSheet = SourceSheet(rows: seq<Row>, merged: seq<CellRange>)

  /** A worksheet addressed by (row, column): the cells that exist, the merged ranges,
      and the `max_row` that openpyxl reports for it once saved and loaded again. */
  datatype Sheet = Sheet(cells: map<(int, int), Cell>, merged: seq<CellRange>, maxRow: int)

  /** The workbook writer saves a cell that has a value or a style and drops the others,
      so only saved cells count towards the reloaded `max_row`. */
  predicate Saved(c: Cell) {
    c.value.Some? || c.hasStyle
  }

  /** A merged range of a source sheet belongs to the page header when it starts in row 4 or above. */
  predicate IsHeaderRange(r: CellRange) {
    r.minRow <= 4
  }

  /** The copy of a source cell: the value always, the style only when `has_style` is set
      (an unstyled cell keeps the fresh cell's default style). */
  function CopyCell(c: Cell): (d: Cell)
    ensures d.value == c.value && d.hasStyle == c.hasStyle
    ensures d.style == if c.hasStyle then c.style else DefaultStyle
  {
    if c.hasStyle then c else Cell(c.value, false, DefaultStyle)
  }

  /** A range moved down so that source row 1 lands on row `cursor`. */
  function Shift(r: CellRange, cursor: int): (s: CellRange)
    ensures s.maxRow - s.minRow == r.maxRow - r.minRow
    ensures s.minCol == r.minCol && s.maxCol == r.maxCol
    ensures s.minRow - r.minRow == cursor - 1
  {
    CellRange(cursor + r.minRow - 1, cursor + r.maxRow - 1, r.minCol, r.maxCol)
  }

  /** The header ranges of one sheet, shifted by the cursor, in their original order. */
  function HeaderRanges(rs: seq<CellRange>, cursor: int): seq<CellRange>
    decreases |rs|
  {
    if rs == [] then []
    else HeaderRanges(rs[..|rs| - 1], cursor) +
         (if IsHeaderRange(rs[|rs| - 1]) then [Shift(rs[|rs| - 1], cursor)] else [])
  }

  /** The cursor before sheet `k` is processed: one row per earlier source row plus one
      separator per earlier sheet, starting at 1. */
  function Cursor(sources: seq<SourceSheet>, k: nat): int
    requires k <= |sources|
  {
    if k == 0 then 1 else Cursor(sources, k - 1) + |sources[k - 1].rows| + 1
  }

  /** The number of rows of all the sheets together. */
  function TotalRows(sources: seq<SourceSheet>): nat {
    if sources == [] then 0 else TotalRows(sources[..|sources| - 1]) + |sources[|sources| - 1].rows|
  }

  /** `cells` after the first `n` cells of `row` are written to row `r`, column by column. */
  function PlaceRow(cells: map<(int, int), Cell>, row: seq<Cell>, r: int, n: nat): map<(int, int), Cell>
    requires n <= |row|
  {
    if n == 0 then cells else PlaceRow(cells, row, r, n - 1)[(r, n) := CopyCell(row[n - 1])]
  }

  /** `cells` after the first `n` rows of a sheet are written from row `base` on. */
  function PlaceRows(cells: map<(int, int), Cell>, rows: seq<Row>, base: int, n: nat): map<(int, int), Cell>
    requires n <= |rows|
  {
    if n == 0 then cells
    else PlaceRow(PlaceRows(cells, rows, base, n - 1), rows[n - 1], base + n - 1, |rows[n - 1]|)
  }

  /** The combined cells after the first `k` sheets. */
  function MergedCells(sources: seq<SourceSheet>, k: nat): map<(int, int), Cell>
    requires k <= |sources|
  {
    if k == 0 then map[]
    else PlaceRows(MergedCells(sources, k - 1), sources[k - 1].rows, Cursor(sources, k - 1), |sources[k - 1].rows|)
  }

  /** The combined merged ranges after the first `k` sheets. */
  function MergedRanges(sources: seq<SourceSheet>, k: nat): seq<CellRange>
    requires k <= |sources|
  {
    if k == 0 then []
    else MergedRanges(sources, k - 1) + HeaderRanges(sources[k - 1].merged, Cursor(sources, k - 1))
  }

  function MaxOf(a: int, b: int): int {
    if a >= b then a else b
  }

  /** Some cell among the first `n` of `row` is saved. */
  predicate RowSaved(row: seq<Cell>, n: nat)
    requires n <= |row|
  {
    exists j :: 0 <= j < n && Saved(row[j])
  }

  /** The larger of `m` and the last rows of the ranges `rs`. */
  function RangesLastRow(rs: seq<CellRange>, m: int): int
    decreases |rs|
  {
    if rs == [] then m else MaxOf(RangesLastRow(rs[..|rs| - 1], m), rs[|rs| - 1].maxRow)
  }

  /** The larger of `m` and the rows, among the first `n` rows written from row `base`
      on, that hold a saved cell. */
  function RowsLastRow(rows: seq<Row>, base: int, n: nat, m: int): int
    requires n <= |rows|
  {
    if n == 0 then m
    else if RowSaved(rows[n - 1], |rows[n - 1]|) then MaxOf(RowsLastRow(rows, base, n - 1, m), base + n - 1)
    else RowsLastRow(rows, base, n - 1, m)
  }

  /** The reloaded `max_row` after the first `k` sheets: the last row holding a saved
      cell or a merged range, or 1 when there is none. */
  function LastRow(sources: seq<SourceSheet>, k: nat): int
    requires k <= |sources|
  {
    if k == 0 then 1
    else
      var ws := sources[k - 1];
      var c := Cursor(sources, k - 1);
      RowsLastRow(ws.rows, c, |ws.rows|, RangesLastRow(HeaderRanges(ws.merged, c), LastRow(sources, k - 1)))
  }

  /** The combined worksheet, with the `max_row` its saved file reports. */
  function Merge(sources: seq<SourceSheet>): Sheet {
    Sheet(MergedCells(sources, |sources|), MergedRanges(sources, |sources|), LastRow(sources, |sources|))
  }

  /** The merge loop: a row cursor from 1, the header ranges of each sheet re-created at
      the cursor, each cell copied to the cursor's row and its own column, the cursor
      advanced per row and once more per sheet. `lastRow` follows, as the ranges and
      cells are written, what the saved file will report as `max_row`. */
  method MergeSheets(sources: seq<SourceSheet>) returns (combined: Sheet, cursor: int)
    ensures combined == Merge(sources)
    ensures cursor == 1 + TotalRows(sources) + |sources|
  {
    var cells: map<(int, int), Cell> := map[];
    var merged: seq<CellRange> := [];
    var lastRow := 1;
    cursor := 1;
    var k := 0;
    while k < |sources|
      invariant 0 <= k <= |sources|
      invariant cursor == Cursor(sources, k)
      invariant cells == MergedCells(sources, k)
      invariant merged == MergedRanges(sources, k)
      invariant lastRow == LastRow(sources, k)
    {
      var ws := sources[k];
      merged, lastRow := CopyHeaderRanges(ws.merged, cursor, merged, lastRow);
      cells, lastRow, cursor := CopyRows(ws.rows, cursor, cells, lastRow);
      cursor := cursor + 1;
      k := k + 1;
    }
    CursorTotal(sources, |sources|);
    assert sources[..|sources|] == sources;
    combined := Sheet(cells, merged, lastRow);
  }

  /** The `merge_cells` loop of one sheet: each range starting in rows 1 to 4, moved down
      to the cursor, is added to `merged`. */
  method CopyHeaderRanges(rs: seq<CellRange>, cursor: int, merged: seq<CellRange>, lastRow: int)
    returns (merged': seq<CellRange>, lastRow': int)
    ensures merged' == merged + HeaderRanges(rs, cursor)
    ensures lastRow' == RangesLastRow(HeaderRanges(rs, cursor), lastRow)
  {
    merged', lastRow' := merged, lastRow;
    var m := 0;
    while m < |rs|
      invariant 0 <= m <= |rs|
      invariant merged' == merged + HeaderRanges(rs[..m], cursor)
      invariant lastRow' == RangesLastRow(HeaderRanges(rs[..m], cursor), lastRow)
    {
      var r := rs[m];
      HeaderStep(rs, m, cursor);
      if r.minRow <= 4 {
        var s := CellRange(cursor + r.minRow - 1, cursor + r.maxRow - 1, r.minCol, r.maxCol);
        RangeAdded(HeaderRanges(rs[..m], cursor), s, lastRow);
        merged' := merged' + [s];
        if s.maxRow > lastRow' {
          lastRow' := s.maxRow;
        }
      }
      m := m + 1;
    }
    assert rs[..m] == rs;
  }

  /** The cell loop of one sheet: each row goes to the cursor's row, and the cursor
      moves down one row per row. */
  method CopyRows(rows: seq<Row>, cursor: int, cells: map<(int, int), Cell>, lastRow: int)
    returns (cells': map<(int, int), Cell>, lastRow': int, cursor': int)
    ensures cells' == PlaceRows(cells, rows, cursor, |rows|)
    ensures lastRow' == RowsLastRow(rows, cursor, |rows|, lastRow)
    ensures cursor' == cursor + |rows|
  {
    cells', lastRow', cursor' := cells, lastRow, cursor;
    var i := 0;
    while i < |rows|
      invariant 0 <= i <= |rows| && cursor' == cursor + i
      invariant cells' == PlaceRows(cells, rows, cursor, i)
      invariant lastRow' == RowsLastRow(rows, cursor, i, lastRow)
    {
      cells', lastRow' := CopyRow(rows[i], cursor', cells', lastRow');
      cursor' := cursor' + 1;
      i := i + 1;
    }
  }

  /** The cells of one row, column by column, from column 1. */
  method CopyRow(row: Row, r: int, cells: map<(int, int), Cell>, lastRow: int)
    returns (cells': map<(int, int), Cell>, lastRow': int)
    ensures cells' == PlaceRow(cells, row, r, |row|)
    ensures lastRow' == if RowSaved(row, |row|) then MaxOf(lastRow, r) else lastRow
  {
    cells', lastRow' := cells, lastRow;
    var j := 0;
    while j < |row|
      invariant 0 <= j <= |row|
      invariant cells' == PlaceRow(cells, row, r, j)
      invariant lastRow' == if RowSaved(row, j) then MaxOf(lastRow, r) else lastRow
    {
      var copy := CopyCell(row[j]);
      cells' := cells'[(r, j + 1) := copy];
      if Saved(copy) && r > lastRow' {
        lastRow' := r;
      }
      j := j + 1;
    }
  }

  /** One more range of the sheet: the shifted header ranges grow by its shift exactly
      when it is a header range. */
  lemma HeaderStep(rs: seq<CellRange>, m: nat, cursor: int)
    requires m < |rs|
    ensures IsHeaderRange(rs[m]) ==> HeaderRanges(rs[..m + 1], cursor) == HeaderRanges(rs[..m], cursor) + [Shift(rs[m], cursor)]
    ensures !IsHeaderRange(rs[m]) ==> HeaderRanges(rs[..m + 1], cursor) == HeaderRanges(rs[..m], cursor)
  {
    assert rs[..m + 1][..m] == rs[..m];
    if !IsHeaderRange(rs[m]) {
      assert HeaderRanges(rs[..m], cursor) + [] == HeaderRanges(rs[..m], cursor);
    }
  }

  lemma RangeAdded(rs: seq<CellRange>, s: CellRange, m: int)
    ensures RangesLastRow(rs + [s], m) == MaxOf(RangesLastRow(rs, m), s.maxRow)
  {
    assert (rs + [s])[..|rs|] == rs;
  }

  /** Row accounting: the cursor before sheet `k` is 1 plus the rows of the earlier sheets
      plus one separator per earlier sheet. */
  lemma {:induction false} CursorTotal(sources: seq<SourceSheet>, k: nat)
    requires k <= |sources|
    ensures Cursor(sources, k) == 1 + TotalRows(sources[..k]) + k
  {
    if k > 0 {
      CursorTotal(sources, k - 1);
      assert sources[..k][..k - 1] == sources[..k - 1];
    }
  }

  /** Later sheets start further down. */
  lemma {:induction false} CursorMonotone(sources: seq<SourceSheet>, a: nat, b: nat)
    requires a <= b <= |sources|
    ensures Cursor(sources, a) <= Cursor(sources, b)
    decreases b - a
  {
    if a < b {
      CursorMonotone(sources, a + 1, b);
    }
  }

  lemma {:induction false} PlaceRowLookup(cells: map<(int, int), Cell>, row: seq<Cell>, r: int, n: nat, key: (int, int))
    requires n <= |row|
    ensures var placed := key.0 == r && 1 <= key.1 <= n;
      (key in PlaceRow(cells, row, r, n) <==> key in cells || placed) &&
      (placed ==> PlaceRow(cells, row, r, n)[key] == CopyCell(row[key.1 - 1])) &&
      (!placed && key in cells ==> PlaceRow(cells, row, r, n)[key] == cells[key])
  {
    if n > 0 {
      PlaceRowLookup(cells, row, r, n - 1, key);
    }
  }

  lemma {:induction false} PlaceRowsLookup(cells: map<(int, int), Cell>, rows: seq<Row>, base: int, n: nat, key: (int, int))
    requires n <= |rows|
    ensures var placed := base <= key.0 < base + n && 1 <= key.1 <= |rows[key.0 - base]|;
      (key in PlaceRows(cells, rows, base, n) <==> key in cells || placed) &&
      (placed ==> PlaceRows(cells, rows, base, n)[key] == CopyCell(rows[key.0 - base][key.1 - 1])) &&
      (!placed && key in cells ==> PlaceRows(cells, rows, base, n)[key] == cells[key])
  {
    if n > 0 {
      PlaceRowsLookup(cells, rows, base, n - 1, key);
      PlaceRowLookup(PlaceRows(cells, rows, base, n - 1), rows[n - 1], base + n - 1, |rows[n - 1]|, key);
    }
  }

  /** `key` is a position of sheet `k`'s block: one of its rows, shifted by its cursor,
      and one of that row's columns. */
  predicate InBlock(sources: seq<SourceSheet>, k: nat, key: (int, int))
    requires k < |sources|
  {
    Cursor(sources, k) <= key.0 < Cursor(sources, k) + |sources[k].rows| &&
    1 <= key.1 <= |sources[k].rows[key.0 - Cursor(sources, k)]|
  }

  /** Every cell written by the first `n` sheets lies in the block of one of them: at a
      row of that sheet, shifted by its cursor, and at one of that row's columns. */
  lemma {:induction false} CellOrigin(sources: seq<SourceSheet>, n: nat, key: (int, int))
    requires n <= |sources|
    requires key in MergedCells(sources, n)
    ensures exists k :: 0 <= k < n && InBlock(sources, k, key)
  {
    var k := n - 1;
    PlaceRowsLookup(MergedCells(sources, k), sources[k].rows, Cursor(sources, k), |sources[k].rows|, key);
    if key in MergedCells(sources, k) {
      CellOrigin(sources, k, key);
    } else {
      assert InBlock(sources, k, key);
    }
  }

  /** A cell written by the first `k` sheets keeps its value while the later sheets are merged. */
  lemma {:induction false} CellKept(sources: seq<SourceSheet>, k: nat, n: nat, key: (int, int))
    requires k <= n <= |sources|
    requires key in MergedCells(sources, k)
    ensures key in MergedCells(sources, n) && MergedCells(sources, n)[key] == MergedCells(sources, k)[key]
    decreases n - k
  {
    if k < n {
      CellOrigin(sources, k, key);
      var m :| 0 <= m < k && InBlock(sources, m, key);
      CursorMonotone(sources, m + 1, k);
      PlaceRowsLookup(MergedCells(sources, k), sources[k].rows, Cursor(sources, k), |sources[k].rows|, key);
      CellKept(sources, k + 1, n, key);
    }
  }

  /** Cell placement: cell (i, j) of sheet k (1-based) lands at (c_k + i - 1, j) of the
      combined sheet, where c_k is the cursor before sheet k, as a copy of the source cell. */
  lemma Placement(sources: seq<SourceSheet>, k: nat, i: int, j: int)
    requires k < |sources|
    requires 1 <= i <= |sources[k].rows| && 1 <= j <= |sources[k].rows[i - 1]|
    ensures var key := (Cursor(sources, k) + i - 1, j);
      key in Merge(sources).cells && Merge(sources).cells[key] == CopyCell(sources[k].rows[i - 1][j - 1])
  {
    var key := (Cursor(sources, k) + i - 1, j);
    PlaceRowsLookup(MergedCells(sources, k), sources[k].rows, Cursor(sources, k), |sources[k].rows|, key);
    CellKept(sources, k + 1, |sources|, key);
  }

  /** No cell is written on a separator row: the row just after each sheet's block is empty. */
  lemma SeparatorEmpty(sources: seq<SourceSheet>, k: nat, col: int)
    requires k < |sources|
    ensures (Cursor(sources, k + 1) - 1, col) !in Merge(sources).cells
  {
    var key := (Cursor(sources, k + 1) - 1, col);
    if key in Merge(sources).cells {
      CellOrigin(sources, |sources|, key);
      var m :| 0 <= m < |sources| && InBlock(sources, m, key);
      if m <= k {
        CursorMonotone(sources, m + 1, k + 1);
      } else {
        CursorMonotone(sources, k + 1, m);
      }
      assert false;
    }
  }

  /** A source merged range is re-created exactly when it is a header range: the shifted
      ranges of one sheet are the shifts of its ranges starting in rows 1 to 4. */
  lemma {:induction false} HeaderRangesMembers(rs: seq<CellRange>, cursor: int, x: CellRange)
    ensures x in HeaderRanges(rs, cursor) <==>
      exists m :: 0 <= m < |rs| && IsHeaderRange(rs[m]) && x == Shift(rs[m], cursor)
    decreases |rs|
  {
    if rs != [] {
      var init := rs[..|rs| - 1];
      HeaderRangesMembers(init, cursor, x);
      if x in HeaderRanges(init, cursor) {
        var m :| 0 <= m < |init| && IsHeaderRange(init[m]) && x == Shift(init[m], cursor);
        assert rs[m] == init[m];
      }
      if exists m :: 0 <= m < |rs| && IsHeaderRange(rs[m]) && x == Shift(rs[m], cursor) {
        var m :| 0 <= m < |rs| && IsHeaderRange(rs[m]) && x == Shift(rs[m], cursor);
        if m < |init| {
          assert init[m] == rs[m];
        }
      }
    }
  }

  /** Every merged range of the combined sheet is a header range of some sheet shifted by
      that sheet's cursor, and every such shifted range is there. */
  lemma {:induction false} RangeOrigin(sources: seq<SourceSheet>, n: nat, x: CellRange)
    requires n <= |sources|
    ensures x in MergedRanges(sources, n) <==>
      exists k, m :: 0 <= k < n && 0 <= m < |sources[k].merged| && IsHeaderRange(sources[k].merged[m]) &&
        x == Shift(sources[k].merged[m], Cursor(sources, k))
  {
    if n > 0 {
      RangeOrigin(sources, n - 1, x);
      HeaderRangesMembers(sources[n - 1].merged, Cursor(sources, n - 1), x);
    }
  }

  /** A header range that lies inside its sheet stays inside that sheet's block of the
      combined sheet: it neither reaches the separator row nor another sheet's rows. */
  lemma ShiftedRangeInBlock(sources: seq<SourceSheet>, k: nat, r: CellRange)
    requires k < |sources|
    requires 1 <= r.minRow <= r.maxRow <= |sources[k].rows|
    ensures var s := Shift(r, Cursor(sources, k));
      Cursor(sources, k) <= s.minRow <= s.maxRow < Cursor(sources, k + 1) - 1
  {
  }

  /** The last row of the ranges is the larger of `m` and the last row of one of them,
      and no range ends below it. */
  lemma {:induction false} RangesLastRowSpec(rs: seq<CellRange>, m: int)
    ensures var l := RangesLastRow(rs, m);
      m <= l && (forall r :: r in rs ==> r.maxRow <= l) &&
      (l == m || exists r :: r in rs && r.maxRow == l)
    decreases |rs|
  {
    if rs != [] {
      var init := rs[..|rs| - 1];
      RangesLastRowSpec(init, m);
      assert forall r :: r in rs ==> r in init || r == rs[|rs| - 1];
      var l := RangesLastRow(init, m);
      if l != m {
        var r :| r in init && r.maxRow == l;
        assert r in rs;
      }
    }
  }

  /** The last saved row is the larger of `m` and the row of one saved cell, and no
      saved cell lies below it. */
  lemma {:induction false} RowsLastRowSpec(rows: seq<Row>, base: int, n: nat, m: int)
    requires n <= |rows|
    ensures var l := RowsLastRow(rows, base, n, m);
      m <= l &&
      (forall i, j :: 0 <= i < n && 0 <= j < |rows[i]| && Saved(rows[i][j]) ==> base + i <= l) &&
      (l == m || exists i, j :: 0 <= i < n && 0 <= j < |rows[i]| && Saved(rows[i][j]) && base + i == l)
  {
    if n > 0 {
      RowsLastRowSpec(rows, base, n - 1, m);
    }
  }

  /** The reloaded `max_row` of the combined sheet is what openpyxl computes for it:
      the largest row that holds a saved cell or a merged range, or 1 when none does. */
  lemma LastRowSpec(sources: seq<SourceSheet>, k: nat)
    requires k <= |sources|
    ensures var l := LastRow(sources, k);
      var cells := MergedCells(sources, k);
      var ranges := MergedRanges(sources, k);
      1 <= l &&
      (forall key :: key in cells && Saved(cells[key]) ==> key.0 <= l) &&
      (forall r :: r in ranges ==> r.maxRow <= l) &&
      (l == 1 || (exists key :: key in cells && Saved(cells[key]) && key.0 == l) || (exists r :: r in ranges && r.maxRow == l))
  {
    LastRowCells(sources, k);
    LastRowRanges(sources, k);
    LastRowAttained(sources, k);
  }

  /** One sheet more: the last row can only grow, and it grows to a header range of
      that sheet or to one of its rows holding a saved cell. */
  lemma LastRowStep(sources: seq<SourceSheet>, k: nat)
    requires 0 < k <= |sources|
    ensures var ws := sources[k - 1];
      var c := Cursor(sources, k - 1);
      var hs := HeaderRanges(ws.merged, c);
      var mid := RangesLastRow(hs, LastRow(sources, k - 1));
      var l := LastRow(sources, k);
      LastRow(sources, k - 1) <= mid <= l &&
      (forall r :: r in hs ==> r.maxRow <= l) &&
      (forall i, j :: 0 <= i < |ws.rows| && 0 <= j < |ws.rows[i]| && Saved(ws.rows[i][j]) ==> c + i <= l) &&
      (mid == LastRow(sources, k - 1) || exists r :: r in hs && r.maxRow == mid) &&
      (l == mid || exists i, j :: 0 <= i < |ws.rows| && 0 <= j < |ws.rows[i]| && Saved(ws.rows[i][j]) && c + i == l)
  {
    var ws := sources[k - 1];
    var c := Cursor(sources, k - 1);
    var hs := HeaderRanges(ws.merged, c);
    RangesLastRowSpec(hs, LastRow(sources, k - 1));
    RowsLastRowSpec(ws.rows, c, |ws.rows|, RangesLastRow(hs, LastRow(sources, k - 1)));
  }

  lemma {:induction false} LastRowCells(sources: seq<SourceSheet>, k: nat)
    requires k <= |sources|
    ensures 1 <= LastRow(sources, k)
    ensures forall key :: key in MergedCells(sources, k) && Saved(MergedCells(sources, k)[key]) ==> key.0 <= LastRow(sources, k)
  {
    if k > 0 {
      LastRowCells(sources, k - 1);
      LastRowStep(sources, k);
      var ws := sources[k - 1];
      forall key | key in MergedCells(sources, k) && Saved(MergedCells(sources, k)[key])
        ensures key.0 <= LastRow(sources, k)
      {
        PlaceRowsLookup(MergedCells(sources, k - 1), ws.rows, Cursor(sources, k - 1), |ws.rows|, key);
      }
    }
  }

  lemma {:induction false} LastRowRanges(sources: seq<SourceSheet>, k: nat)
    requires k <= |sources|
    ensures forall r :: r in MergedRanges(sources, k) ==> r.maxRow <= LastRow(sources, k)
  {
    if k > 0 {
      LastRowRanges(sources, k - 1);
      LastRowStep(sources, k);
    }
  }

  lemma {:induction false} LastRowAttained(sources: seq<SourceSheet>, k: nat)
    requires k <= |sources|
    ensures var l := LastRow(sources, k);
      l == 1 || (exists key :: key in MergedCells(sources, k) && Saved(MergedCells(sources, k)[key]) && key.0 == l) ||
      (exists r :: r in MergedRanges(sources, k) && r.maxRow == l)
  {
    if k > 0 {
      var prev := LastRow(sources, k - 1);
      var mid := RangesLastRow(HeaderRanges(sources[k - 1].merged, Cursor(sources, k - 1)), prev);
      if LastRow(sources, k) != mid {
        RowAttained(sources, k);
      } else if mid != prev {
        RangeAttained(sources, k);
      } else {
        LastRowAttained(sources, k - 1);
        if prev != 1 {
          WitnessKept(sources, k, prev);
        }
      }
    }
  }

  /** When sheet k - 1's rows raise the last row, a saved cell of that sheet lies on it. */
  lemma RowAttained(sources: seq<SourceSheet>, k: nat)
    requires 0 < k <= |sources|
    requires LastRow(sources, k) != RangesLastRow(HeaderRanges(sources[k - 1].merged, Cursor(sources, k - 1)), LastRow(sources, k - 1))
    ensures exists key :: key in MergedCells(sources, k) && Saved(MergedCells(sources, k)[key]) && key.0 == LastRow(sources, k)
  {
    LastRowStep(sources, k);
    var ws := sources[k - 1];
    var c := Cursor(sources, k - 1);
    var i, j :| 0 <= i < |ws.rows| && 0 <= j < |ws.rows[i]| && Saved(ws.rows[i][j]) && c + i == LastRow(sources, k);
    PlaceRowsLookup(MergedCells(sources, k - 1), ws.rows, c, |ws.rows|, (c + i, j + 1));
  }

  /** When sheet k - 1's header ranges raise the last row and its rows do not, one of
      those ranges ends on it. */
  lemma RangeAttained(sources: seq<SourceSheet>, k: nat)
    requires 0 < k <= |sources|
    requires var mid := RangesLastRow(HeaderRanges(sources[k - 1].merged, Cursor(sources, k - 1)), LastRow(sources, k - 1));
      LastRow(sources, k) == mid && mid != LastRow(sources, k - 1)
    ensures exists r :: r in MergedRanges(sources, k) && r.maxRow == LastRow(sources, k)
  {
    LastRowStep(sources, k);
    var hs := HeaderRanges(sources[k - 1].merged, Cursor(sources, k - 1));
    var r :| r in hs && r.maxRow == LastRow(sources, k);
    assert MergedRanges(sources, k) == MergedRanges(sources, k - 1) + hs;
    assert r in MergedRanges(sources, k);
  }

  /** A saved cell or a range of the first k - 1 sheets ending at row `v` is still there
      after sheet k - 1. */
  lemma WitnessKept(sources: seq<SourceSheet>, k: nat, v: int)
    requires 0 < k <= |sources|
    requires (exists key :: key in MergedCells(sources, k - 1) && Saved(MergedCells(sources, k - 1)[key]) && key.0 == v) ||
      (exists r :: r in MergedRanges(sources, k - 1) && r.maxRow == v)
    ensures (exists key :: key in MergedCells(sources, k) && Saved(MergedCells(sources, k)[key]) && key.0 == v) ||
      (exists r :: r in MergedRanges(sources, k) && r.maxRow == v)
  {
    var before := MergedCells(sources, k - 1);
    if exists key :: key in before && Saved(before[key]) && key.0 == v {
      var key :| key in before && Saved(before[key]) && key.0 == v;
      CellKept(sources, k - 1, k, key);
    } else {
      var r :| r in MergedRanges(sources, k - 1) && r.maxRow == v;
      assert r in MergedRanges(sources, k);
    }
  }

  /** Every merged range of a loaded sheet lies within its rows: openpyxl creates a cell
      for each position of a merged range, and `iter_rows` reaches the last of them. */
  predicate RangesInside(ws: SourceSheet) {
    forall m :: 0 <= m < |ws.merged| ==> ws.merged[m].maxRow <= |ws.rows|
  }

  /** When every sheet's ranges lie within its rows, nothing of the first `k` sheets
      reaches the separator row after sheet k - 1. */
  lemma {:induction false} LastRowBound(sources: seq<SourceSheet>, k: nat)
    requires k <= |sources|
    requires forall m :: 0 <= m < k ==> RangesInside(sources[m])
    ensures LastRow(sources, k) <= MaxOf(1, Cursor(sources, k) - 2)
  {
    if k > 0 {
      LastRowBound(sources, k - 1);
      var ws := sources[k - 1];
      var c := Cursor(sources, k - 1);
      var hs := HeaderRanges(ws.merged, c);
      var prev := LastRow(sources, k - 1);
      var bound := MaxOf(1, Cursor(sources, k) - 2);
      RangesLastRowSpec(hs, prev);
      forall r | r in hs ensures r.maxRow <= bound {
        HeaderRangesMembers(ws.merged, c, r);
      }
      var mid := RangesLastRow(hs, prev);
      assert mid <= bound;
      RowsLastRowSpec(ws.rows, c, |ws.rows|, mid);
    }
  }

  /** The combined sheet's `max_row` is the total number of source rows plus one separator
      between consecutive sheets, when the last sheet's last row holds a saved cell and
      every sheet's ranges lie within its rows. An empty last sheet, or a last row of
      empty unstyled cells, gives a smaller `max_row`. */
  lemma MaxRowTotal(sources: seq<SourceSheet>)
    requires |sources| > 0
    requires forall m :: 0 <= m < |sources| ==> RangesInside(sources[m])
    requires var last := sources[|sources| - 1].rows; |last| > 0 && RowSaved(last[|last| - 1], |last[|last| - 1]|)
    ensures Merge(sources).maxRow == TotalRows(sources) + |sources| - 1
  {
    var n := |sources|;
    LastRowBound(sources, n);
    CursorTotal(sources, n);
    assert sources[..n] == sources;
    var ws := sources[n - 1];
    var c := Cursor(sources, n - 1);
    var mid := RangesLastRow(HeaderRanges(ws.merged, c), LastRow(sources, n - 1));
    var row := ws.rows[|ws.rows| - 1];
    var j :| 0 <= j < |row| && Saved(row[j]);
    RowsLastRowSpec(ws.rows, c, |ws.rows|, mid);
  }

  /** An exported sheet that holds no cell adds only its separator row: the next sheet
      starts one row further down and no cell is written for it. */
  lemma EmptySheet(sources: seq<SourceSheet>, k: nat)
    requires k < |sources| && sources[k].rows == []
    ensures Cursor(sources, k + 1) == Cursor(sources, k) + 1
    ensures MergedCells(sources, k + 1) == MergedCells(sources, k)
  {
  }
}
