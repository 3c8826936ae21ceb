/** Row-major payload layout: where every row token and every cell goes
    (src/write/direct/layout.rs). */
module Layout {
  import opened Basics
  import opened Errors
  import opened Measure

  const TDS_ROW_TOKEN: byte := 0xD1

  /** Absolute byte position of one encoded cell. */
  datatype CellPosition = CellPosition(rowIndex: nat, columnIndex: nat, offset: nat, len: nat) {
    function End(): nat { offset + len }
  }

  datatype RowLayout = RowLayout(
    rowTokenOffsets: seq<nat>,
    rowLengths: seq<nat>,
    cellPositions: seq<CellPosition>,
    payloadLen: nat)

  // ------------------------------------------------------ specification

  /** The rows `startRow .. startRow + rowCount` of a length matrix. */
  function Window(cellLengths: seq<nat>, columnCount: nat, startRow: nat, rowCount: nat): (w: seq<nat>)
    requires (startRow + rowCount) * columnCount <= |cellLengths|
    ensures |w| == rowCount * columnCount
  {
    assert (startRow + rowCount) * columnCount == startRow * columnCount + rowCount * columnCount;
    cellLengths[startRow * columnCount..startRow * columnCount + rowCount * columnCount]
  }

  /** Where row `row` starts. */
  function RowStart(rowCount: nat, columnCount: nat, lens: seq<nat>, row: nat): nat
    requires |lens| == rowCount * columnCount && row <= rowCount
  {
    Sum(RowLengths(rowCount, columnCount, lens)[0..row])
  }

  /** Where cell (row, column) goes: after the row token and the cells before it. */
  function CellAt(rowCount: nat, columnCount: nat, lens: seq<nat>, row: nat, column: nat): CellPosition
    requires |lens| == rowCount * columnCount && row < rowCount && column < columnCount
  {
    RowsInMatrix(row, rowCount, columnCount);
    var cells := RowCells(lens, columnCount, row);
    CellPosition(row, column, RowStart(rowCount, columnCount, lens, row) + 1 + Sum(cells[0..column]), cells[column])
  }

  function RowPositions(rowCount: nat, columnCount: nat, lens: seq<nat>, row: nat): (r: seq<CellPosition>)
    requires |lens| == rowCount * columnCount && row < rowCount
    ensures |r| == columnCount
  {
    seq(columnCount, column requires 0 <= column < columnCount => CellAt(rowCount, columnCount, lens, row, column))
  }

  function AllRowPositions(rowCount: nat, columnCount: nat, lens: seq<nat>): (r: seq<seq<CellPosition>>)
    requires |lens| == rowCount * columnCount
    ensures |r| == rowCount
  {
    seq(rowCount, row requires 0 <= row < rowCount => RowPositions(rowCount, columnCount, lens, row))
  }

  /** The layout of `rowCount` rows whose cells have the lengths `lens`. */
  function LayoutOf(rowCount: nat, columnCount: nat, lens: seq<nat>): RowLayout
    requires |lens| == rowCount * columnCount
  {
    RowLayout(
      seq(rowCount, row requires 0 <= row < rowCount => RowStart(rowCount, columnCount, lens, row)),
      RowLengths(rowCount, columnCount, lens),
      Flatten(AllRowPositions(rowCount, columnCount, lens)),
      Sum(RowLengths(rowCount, columnCount, lens)))
  }

  // ---------------------------------------------------- uniform matrices

  ghost predicate Uniform<T>(rows: seq<seq<T>>, columnCount: nat) {
    forall row :: 0 <= row < |rows| ==> |rows[row]| == columnCount
  }

  lemma {:induction false} UniformOffset<T>(rows: seq<seq<T>>, columnCount: nat, row: nat)
    requires Uniform(rows, columnCount) && row <= |rows|
    ensures Sum(Lengths(rows)[0..row]) == row * columnCount
  {
    hide Sum;
    if row == 0 {
      SumNone(Lengths(rows), 0);
    } else {
      UniformOffset(rows, columnCount, row - 1);
      SumStep(Lengths(rows), 0, row - 1);
      assert row * columnCount == (row - 1) * columnCount + columnCount;
    }
  }

  /** Row-major addressing finds the cell in the flattened rows. */
  lemma UniformCell<T>(rows: seq<seq<T>>, columnCount: nat, row: nat, column: nat)
    requires Uniform(rows, columnCount) && row < |rows| && column < columnCount
    ensures |Flatten(rows)| == |rows| * columnCount
    ensures CellIndex(row, column, columnCount) < |Flatten(rows)|
    ensures Flatten(rows)[CellIndex(row, column, columnCount)] == rows[row][column]
  {
    UniformLength(rows, columnCount);
    UniformOffset(rows, columnCount, row);
    FlattenSegment(rows, row);
    assert Lengths(rows)[..row] == Lengths(rows)[0..row];
    CellIndexBound(row, column, |rows|, columnCount);
    var flat := Flatten(rows);
    assert flat[row * columnCount..row * columnCount + columnCount][column] == flat[row * columnCount + column];
  }

  lemma MatrixCell<T>(flat: seq<T>, rows: seq<seq<T>>, columnCount: nat, i: nat)
    requires Uniform(rows, columnCount) && |flat| == |rows| * columnCount && i < |flat|
    requires forall r, c {:trigger CellIndex(r, c, columnCount)} :: 0 <= r < |rows| && 0 <= c < columnCount ==>
      CellIndex(r, c, columnCount) < |flat| && flat[CellIndex(r, c, columnCount)] == rows[r][c]
    ensures |Flatten(rows)| == |flat| && flat[i] == Flatten(rows)[i]
  {
    hide Sum, Flatten, CellIndex;
    DivisionIndex(i, |rows|, columnCount);
    UniformCell(rows, columnCount, i / columnCount, i % columnCount);
  }

  /** A flat matrix that holds every cell at its row-major index is the flattened rows. */
  lemma MatrixDetermined<T>(flat: seq<T>, rows: seq<seq<T>>, columnCount: nat)
    requires Uniform(rows, columnCount) && |flat| == |rows| * columnCount
    requires forall r, c {:trigger CellIndex(r, c, columnCount)} :: 0 <= r < |rows| && 0 <= c < columnCount ==>
      CellIndex(r, c, columnCount) < |flat| && flat[CellIndex(r, c, columnCount)] == rows[r][c]
    ensures flat == Flatten(rows)
  {
    hide Sum, Flatten, CellIndex;
    UniformLength(rows, columnCount);
    var whole := Flatten(rows);
    forall i | 0 <= i < |flat| ensures flat[i] == whole[i] {
      MatrixCell(flat, rows, columnCount, i);
    }
  }

  lemma UniformLength<T>(rows: seq<seq<T>>, columnCount: nat)
    requires Uniform(rows, columnCount)
    ensures |Flatten(rows)| == |rows| * columnCount
  {
    hide Sum, Flatten;
    UniformOffset(rows, columnCount, |rows|);
    FlattenLength(rows);
    assert Lengths(rows)[0..|rows|] == Lengths(rows);
  }

  lemma PositionsUniform(rowCount: nat, columnCount: nat, lens: seq<nat>)
    requires |lens| == rowCount * columnCount
    ensures Uniform(AllRowPositions(rowCount, columnCount, lens), columnCount)
  {
  }

  /** `cell_position`: indexing the flat positions finds the cell. */
  lemma PositionOfCell(rowCount: nat, columnCount: nat, lens: seq<nat>, row: nat, column: nat)
    requires |lens| == rowCount * columnCount && row < rowCount && column < columnCount
    ensures CellIndex(row, column, columnCount) < |LayoutOf(rowCount, columnCount, lens).cellPositions|
    ensures LayoutOf(rowCount, columnCount, lens).cellPositions[CellIndex(row, column, columnCount)]
            == CellAt(rowCount, columnCount, lens, row, column)
  {
    hide Sum, Flatten, RowLengths;
    PositionsUniform(rowCount, columnCount, lens);
    UniformCell(AllRowPositions(rowCount, columnCount, lens), columnCount, row, column);
  }

  // ------------------------------------------------------------ geometry

  lemma RowStartStep(rowCount: nat, columnCount: nat, lens: seq<nat>, row: nat)
    requires |lens| == rowCount * columnCount && row < rowCount
    ensures (row + 1) * columnCount <= |lens|
    ensures RowStart(rowCount, columnCount, lens, row + 1)
            == RowStart(rowCount, columnCount, lens, row) + 1 + Sum(RowCells(lens, columnCount, row))
  {
    hide Sum;
    RowLengthsAt(rowCount, columnCount, lens, row);
    SumStep(RowLengths(rowCount, columnCount, lens), 0, row);
  }

  lemma RowStartMonotone(rowCount: nat, columnCount: nat, lens: seq<nat>, row: nat, row': nat)
    requires |lens| == rowCount * columnCount && row <= row' <= rowCount
    ensures RowStart(rowCount, columnCount, lens, row) <= RowStart(rowCount, columnCount, lens, row')
    ensures RowStart(rowCount, columnCount, lens, row') <= Sum(RowLengths(rowCount, columnCount, lens))
  {
    hide Sum;
    var lengths := RowLengths(rowCount, columnCount, lens);
    SumWindow(lengths, 0, 0, row, row');
    SumWindow(lengths, 0, 0, row', rowCount);
    assert lengths[0..rowCount] == lengths;
  }

  /** A cell lies behind its row token and before the next row. */
  lemma CellInRow(rowCount: nat, columnCount: nat, lens: seq<nat>, row: nat, column: nat)
    requires |lens| == rowCount * columnCount && row < rowCount && column < columnCount
    ensures RowStart(rowCount, columnCount, lens, row) < CellAt(rowCount, columnCount, lens, row, column).offset
    ensures CellAt(rowCount, columnCount, lens, row, column).End() <= RowStart(rowCount, columnCount, lens, row + 1)
    ensures RowStart(rowCount, columnCount, lens, row + 1) <= Sum(RowLengths(rowCount, columnCount, lens))
  {
    hide Sum;
    RowStartStep(rowCount, columnCount, lens, row);
    RowStartMonotone(rowCount, columnCount, lens, row + 1, row + 1);
    var cells := RowCells(lens, columnCount, row);
    SumStep(cells, 0, column);
    SumWindow(cells, 0, 0, column + 1, columnCount);
    assert cells[0..columnCount] == cells;
  }

  /** Different cells never share a byte. */
  lemma CellsDisjoint(rowCount: nat, columnCount: nat, lens: seq<nat>, row: nat, column: nat, row': nat, column': nat)
    requires |lens| == rowCount * columnCount
    requires row < rowCount && column < columnCount && row' < rowCount && column' < columnCount
    requires row != row' || column != column'
    ensures CellAt(rowCount, columnCount, lens, row, column).End() <= CellAt(rowCount, columnCount, lens, row', column').offset
         || CellAt(rowCount, columnCount, lens, row', column').End() <= CellAt(rowCount, columnCount, lens, row, column).offset
  {
    hide Sum, RowStart;
    if row < row' {
      CellInRow(rowCount, columnCount, lens, row, column);
      CellInRow(rowCount, columnCount, lens, row', column');
      RowStartMonotone(rowCount, columnCount, lens, row + 1, row');
    } else if row' < row {
      CellInRow(rowCount, columnCount, lens, row, column);
      CellInRow(rowCount, columnCount, lens, row', column');
      RowStartMonotone(rowCount, columnCount, lens, row' + 1, row);
    } else {
      RowsInMatrix(row, rowCount, columnCount);
      var cells := RowCells(lens, columnCount, row);
      var first, second := if column < column' then column else column', if column < column' then column' else column;
      SumStep(cells, 0, first);
      SumWindow(cells, 0, 0, first + 1, second);
    }
  }

  /** No cell covers a row token. */
  lemma CellsMissTokens(rowCount: nat, columnCount: nat, lens: seq<nat>, row: nat, column: nat, token: nat)
    requires |lens| == rowCount * columnCount
    requires row < rowCount && column < columnCount && token < rowCount
    ensures RowStart(rowCount, columnCount, lens, token) < CellAt(rowCount, columnCount, lens, row, column).offset
         || CellAt(rowCount, columnCount, lens, row, column).End() <= RowStart(rowCount, columnCount, lens, token)
  {
    hide Sum, RowStart;
    CellInRow(rowCount, columnCount, lens, row, column);
    if token <= row {
      RowStartMonotone(rowCount, columnCount, lens, token, row);
    } else {
      RowStartMonotone(rowCount, columnCount, lens, row + 1, token);
    }
  }

  // ---------------------------------------------------------- validation

  /** `validate_rows`: tokens start at zero, rows are contiguous and cover the payload. */
  predicate RowsValid(offsets: seq<nat>, lengths: seq<nat>, payloadLen: nat) {
    && |offsets| == |lengths|
    && (|offsets| == 0 ==> payloadLen == 0)
    && (|offsets| > 0 ==> offsets[0] == 0)
    && (forall i :: 0 <= i < |offsets| ==>
         offsets[i] + lengths[i] <= Min(payloadLen, USIZE_MAX)
         && offsets[i] + lengths[i] == NextOffset(offsets, i, payloadLen))
  }

  /** Where the row after row `i` starts. */
  function NextOffset(offsets: seq<nat>, i: nat, payloadLen: nat): nat
    requires i < |offsets|
  {
    if i + 1 < |offsets| then offsets[i + 1] else payloadLen
  }

  /** `validate_cells`. */
  predicate CellsValid(cells: seq<CellPosition>, rowCount: nat, payloadLen: nat) {
    forall i :: 0 <= i < |cells| ==> cells[i].rowIndex < rowCount && cells[i].End() <= Min(payloadLen, USIZE_MAX)
  }

  /** `RowLayout::new`. */
  function NewLayout(offsets: seq<nat>, lengths: seq<nat>, cells: seq<CellPosition>, payloadLen: nat): Result<RowLayout, Error> {
    if RowsValid(offsets, lengths, payloadLen) && CellsValid(cells, |offsets|, payloadLen)
    then Ok(RowLayout(offsets, lengths, cells, payloadLen))
    else Err(InvalidPayload())
  }

  lemma LayoutRowsValid(rowCount: nat, columnCount: nat, lens: seq<nat>)
    requires |lens| == rowCount * columnCount
    requires Sum(RowLengths(rowCount, columnCount, lens)) <= USIZE_MAX
    ensures RowsValid(LayoutOf(rowCount, columnCount, lens).rowTokenOffsets,
                      RowLengths(rowCount, columnCount, lens), Sum(RowLengths(rowCount, columnCount, lens)))
  {
    hide Flatten, RowLengths, Sum, AllRowPositions;
    var lengths := RowLengths(rowCount, columnCount, lens);
    var offsets := LayoutOf(rowCount, columnCount, lens).rowTokenOffsets;
    assert lengths[0..rowCount] == lengths;
    SumNone(lengths, 0);
    forall i | 0 <= i < rowCount
      ensures offsets[i] + lengths[i] == NextOffset(offsets, i, Sum(lengths))
      ensures offsets[i] + lengths[i] <= Sum(lengths)
    {
      SumStep(lengths, 0, i);
      SumWindow(lengths, 0, 0, i + 1, rowCount);
    }
  }

  lemma LayoutCellsValid(rowCount: nat, columnCount: nat, lens: seq<nat>)
    requires |lens| == rowCount * columnCount
    requires Sum(RowLengths(rowCount, columnCount, lens)) <= USIZE_MAX
    ensures CellsValid(LayoutOf(rowCount, columnCount, lens).cellPositions, rowCount, Sum(RowLengths(rowCount, columnCount, lens)))
  {
    hide Flatten, RowLengths, Sum, RowStart;
    var cells := LayoutOf(rowCount, columnCount, lens).cellPositions;
    PositionsUniform(rowCount, columnCount, lens);
    UniformLength(AllRowPositions(rowCount, columnCount, lens), columnCount);
    forall i | 0 <= i < |cells|
      ensures cells[i].rowIndex < rowCount && cells[i].End() <= Sum(RowLengths(rowCount, columnCount, lens))
    {
      var row, column := i / columnCount, i % columnCount;
      DivisionIndex(i, rowCount, columnCount);
      PositionOfCell(rowCount, columnCount, lens, row, column);
      CellInRow(rowCount, columnCount, lens, row, column);
    }
  }

  lemma DivisionIndex(i: nat, rowCount: nat, columnCount: nat)
    requires i < rowCount * columnCount
    ensures columnCount > 0 && i / columnCount < rowCount && i % columnCount < columnCount
    ensures CellIndex(i / columnCount, i % columnCount, columnCount) == i
  {
    var q := i / columnCount;
    assert q * columnCount <= i < rowCount * columnCount;
  }

  /** A layout built from measured lengths always passes its own validation. */
  lemma BuiltLayoutIsAccepted(rowCount: nat, columnCount: nat, lens: seq<nat>)
    requires |lens| == rowCount * columnCount
    requires Sum(RowLengths(rowCount, columnCount, lens)) <= USIZE_MAX
    ensures
      var layout := LayoutOf(rowCount, columnCount, lens);
      NewLayout(layout.rowTokenOffsets, layout.rowLengths, layout.cellPositions, layout.payloadLen) == Ok(layout)
  {
    hide RowsValid, CellsValid, Sum, Flatten, RowLengths, RowStart, AllRowPositions;
    LayoutRowsValid(rowCount, columnCount, lens);
    LayoutCellsValid(rowCount, columnCount, lens);
  }

  // -------------------------------------------------------- construction

  /** The inner loop of `build_fixed_width_row_range_layout`: one row's cells,
      laid out from `start`. */
  method LayoutRow(row: nat, columnCount: nat, cellLengths: seq<nat>, base: nat, start: nat)
    returns (r: Option<(seq<CellPosition>, nat)>)
    requires base + columnCount <= |cellLengths| && start <= USIZE_MAX
    ensures r.Some? <==> start + Sum(cellLengths[base..base + columnCount]) <= USIZE_MAX
    ensures r.Some? ==>
      && r.value.1 == start + Sum(cellLengths[base..base + columnCount])
      && |r.value.0| == columnCount
      && forall c :: 0 <= c < columnCount ==>
           r.value.0[c] == CellPosition(row, c, start + Sum(cellLengths[base..base + columnCount][0..c]), cellLengths[base + c])
  {
    hide Sum;
    ghost var cells := cellLengths[base..base + columnCount];
    assert cells[0..columnCount] == cells;
    SumNone(cells, 0);
    var positions: seq<CellPosition> := [];
    var offset := start;
    for c := 0 to columnCount
      invariant offset == start + Sum(cells[0..c]) <= USIZE_MAX
      invariant |positions| == c
      invariant forall i :: 0 <= i < c ==>
        positions[i] == CellPosition(row, i, start + Sum(cells[0..i]), cellLengths[base + i])
    {
      SumStep(cells, 0, c);
      SumWindow(cells, 0, 0, c + 1, columnCount);
      positions := positions + [CellPosition(row, c, offset, cellLengths[base + c])];
      var next := CheckedAdd(offset, cellLengths[base + c]);
      if next.None? {
        return None;
      }
      offset := next.value;
    }
    return Some((positions, offset));
  }

  lemma WindowRow(cellLengths: seq<nat>, columnCount: nat, startRow: nat, rowCount: nat, row: nat)
    requires (startRow + rowCount) * columnCount <= |cellLengths| && row < rowCount
    ensures (row + 1) * columnCount <= rowCount * columnCount
    ensures (startRow + row + 1) * columnCount <= |cellLengths|
    ensures RowCells(Window(cellLengths, columnCount, startRow, rowCount), columnCount, row)
            == RowCells(cellLengths, columnCount, startRow + row)
  {
    RowsInMatrix(row, rowCount, columnCount);
    RowsInMatrix(startRow + row, startRow + rowCount, columnCount);
    var a, b := startRow * columnCount, row * columnCount;
    assert (startRow + row) * columnCount == a + b;
    assert (startRow + row + 1) * columnCount == a + b + columnCount;
    assert (row + 1) * columnCount == b + columnCount;
    WindowOfWindow(cellLengths, a, rowCount * columnCount, b, columnCount);
  }

  lemma WindowOfWindow(s: seq<nat>, a: nat, n: nat, b: nat, k: nat)
    requires a + n <= |s| && b + k <= n
    ensures s[a..a + n][b..b + k] == s[a + b..a + b + k]
  {
    hide Sum;
    var inner, direct := s[a..a + n][b..b + k], s[a + b..a + b + k];
    forall i | 0 <= i < k ensures inner[i] == direct[i] {
      assert s[a..a + n][b + i] == s[a + b + i];
    }
  }

  lemma RowPositionsPushed(rowCount: nat, columnCount: nat, lens: seq<nat>, row: nat, pushed: seq<CellPosition>)
    requires |lens| == rowCount * columnCount && row < rowCount
    requires (row + 1) * columnCount <= |lens| && |pushed| == columnCount
    requires forall c :: 0 <= c < columnCount ==>
      pushed[c] == CellPosition(row, c, RowStart(rowCount, columnCount, lens, row) + 1
                                        + Sum(RowCells(lens, columnCount, row)[0..c]), RowCells(lens, columnCount, row)[c])
    ensures pushed == RowPositions(rowCount, columnCount, lens, row)
  {
    hide Sum, RowStart;
  }

  /** The outer loop's body: row token, then the row's cells. */
  method LayoutNextRow(startRow: nat, row: nat, ghost rowCount: nat, columnCount: nat, cellLengths: seq<nat>, offset: nat)
    returns (r: Option<(seq<CellPosition>, nat)>)
    requires (startRow + rowCount) * columnCount <= |cellLengths| && row < rowCount
    requires offset == RowStart(rowCount, columnCount, Window(cellLengths, columnCount, startRow, rowCount), row) <= USIZE_MAX
    ensures
      var lens := Window(cellLengths, columnCount, startRow, rowCount);
      r == if RowStart(rowCount, columnCount, lens, row + 1) <= USIZE_MAX
           then Some((RowPositions(rowCount, columnCount, lens, row), RowStart(rowCount, columnCount, lens, row + 1)))
           else None
  {
    hide Sum, RowStart, RowPositions;
    ghost var lens := Window(cellLengths, columnCount, startRow, rowCount);
    WindowRow(cellLengths, columnCount, startRow, rowCount, row);
    RowStartStep(rowCount, columnCount, lens, row);
    var afterToken := CheckedAdd(offset, 1);
    if afterToken.None? {
      return None;
    }
    r := LayoutRow(row, columnCount, cellLengths, (startRow + row) * columnCount, afterToken.value);
    if r.Some? {
      RowPositionsPushed(rowCount, columnCount, lens, row, r.value.0);
    }
  }

  /** `build_fixed_width_row_range_layout`: the layout of the requested rows, or an
      error exactly when the range end or the payload length leaves `usize`.
      `RowLayout::new` never rejects what the loop has built. */
  method BuildRowRangeLayout(startRow: nat, rowCount: nat, columnCount: nat, cellLengths: seq<nat>)
    returns (r: Result<RowLayout, Error>)
    requires (startRow + rowCount) * columnCount <= |cellLengths|
    ensures r ==
      var lens := Window(cellLengths, columnCount, startRow, rowCount);
      if startRow + rowCount <= USIZE_MAX && Sum(RowLengths(rowCount, columnCount, lens)) <= USIZE_MAX
      then Ok(LayoutOf(rowCount, columnCount, lens)) else Err(InvalidPayload())
  {
    hide Sum, Flatten, RowLengths, RowStart, Window, RowPositions, NewLayout, RowCells;
    var end := CheckedAdd(startRow, rowCount);
    if end.None? {
      return Err(InvalidPayload());
    }
    ghost var lens := Window(cellLengths, columnCount, startRow, rowCount);
    ghost var layout := LayoutOf(rowCount, columnCount, lens);
    ghost var rows := AllRowPositions(rowCount, columnCount, lens);
    StartOfRowZero(rowCount, columnCount, lens);
    StartOfEnd(rowCount, columnCount, lens);
    FlattenNone(rows);
    var rowTokenOffsets: seq<nat> := [];
    var rowLengths: seq<nat> := [];
    var cellPositions: seq<CellPosition> := [];
    var offset := 0;
    for row := 0 to rowCount
      invariant offset == RowStart(rowCount, columnCount, lens, row) <= USIZE_MAX
      invariant rowTokenOffsets == layout.rowTokenOffsets[..row]
      invariant rowLengths == layout.rowLengths[..row]
      invariant cellPositions == Flatten(rows[..row])
    {
      var rowOffset := offset;
      var laidOut := LayoutNextRow(startRow, row, rowCount, columnCount, cellLengths, offset);
      RowStartMonotone(rowCount, columnCount, lens, row + 1, row + 1);
      RowSpan(rowCount, columnCount, lens, row);
      FlattenStep(rows, row);
      if laidOut.None? {
        return Err(InvalidPayload());
      }
      rowTokenOffsets := rowTokenOffsets + [rowOffset];
      cellPositions := cellPositions + laidOut.value.0;
      offset := laidOut.value.1;
      rowLengths := rowLengths + [offset - rowOffset];
    }
    assert rows[..rowCount] == rows;
    assert layout.rowTokenOffsets[..rowCount] == layout.rowTokenOffsets;
    assert layout.rowLengths[..rowCount] == layout.rowLengths;
    BuiltLayoutIsAccepted(rowCount, columnCount, lens);
    r := NewLayout(rowTokenOffsets, rowLengths, cellPositions, offset);
  }

  lemma RowSpan(rowCount: nat, columnCount: nat, lens: seq<nat>, row: nat)
    requires |lens| == rowCount * columnCount && row < rowCount
    ensures RowStart(rowCount, columnCount, lens, row + 1) - RowStart(rowCount, columnCount, lens, row)
            == RowLengths(rowCount, columnCount, lens)[row]
  {
    hide Sum;
    SumStep(RowLengths(rowCount, columnCount, lens), 0, row);
  }

  lemma StartOfRowZero(rowCount: nat, columnCount: nat, lens: seq<nat>)
    requires |lens| == rowCount * columnCount
    ensures RowStart(rowCount, columnCount, lens, 0) == 0
  {
    SumNone(RowLengths(rowCount, columnCount, lens), 0);
  }

  lemma StartOfEnd(rowCount: nat, columnCount: nat, lens: seq<nat>)
    requires |lens| == rowCount * columnCount
    ensures RowStart(rowCount, columnCount, lens, rowCount) == Sum(RowLengths(rowCount, columnCount, lens))
  {
    hide Sum;
    var lengths := RowLengths(rowCount, columnCount, lens);
    assert lengths[0..rowCount] == lengths;
  }

  lemma FlattenNone<T>(ss: seq<seq<T>>)
    ensures Flatten(ss[..0]) == []
  {
  }

  // ------------------------------------------------ ranges of a batch

  /** A window's row lengths are the batch's row lengths of those rows. */
  lemma WindowRowLengths(cellLengths: seq<nat>, rows: nat, columnCount: nat, startRow: nat, rowCount: nat)
    requires |cellLengths| == rows * columnCount && startRow + rowCount <= rows
    ensures (startRow + rowCount) * columnCount <= |cellLengths|
    ensures RowLengths(rowCount, columnCount, Window(cellLengths, columnCount, startRow, rowCount))
            == RowLengths(rows, columnCount, cellLengths)[startRow..startRow + rowCount]
  {
    hide Sum;
    assert (startRow + rowCount) * columnCount <= rows * columnCount;
    var lens := Window(cellLengths, columnCount, startRow, rowCount);
    forall row | 0 <= row < rowCount
      ensures RowLengths(rowCount, columnCount, lens)[row] == RowLengths(rows, columnCount, cellLengths)[startRow + row]
    {
      WindowRow(cellLengths, columnCount, startRow, rowCount, row);
      RowLengthsAt(rowCount, columnCount, lens, row);
      RowLengthsAt(rows, columnCount, cellLengths, startRow + row);
    }
  }

  /** Row-token offsets of a range restart at zero and are the batch's offsets
      shifted down by the bytes before the range. */
  lemma RangeOffsetsShift(m: MeasuredDirectBatch, startRow: nat, rowCount: nat, row: nat)
    requires m.Valid() && startRow + rowCount <= m.rowCount && row <= rowCount
    ensures (startRow + rowCount) * m.columnCount <= |m.cellLengths|
    ensures RowStart(rowCount, m.columnCount, Window(m.cellLengths, m.columnCount, startRow, rowCount), 0) == 0
    ensures RowStart(rowCount, m.columnCount, Window(m.cellLengths, m.columnCount, startRow, rowCount), row)
            == RowStart(m.rowCount, m.columnCount, m.cellLengths, startRow + row)
               - RowStart(m.rowCount, m.columnCount, m.cellLengths, startRow)
  {
    hide Sum;
    WindowRowLengths(m.cellLengths, m.rowCount, m.columnCount, startRow, rowCount);
    StartOfRowZero(rowCount, m.columnCount, Window(m.cellLengths, m.columnCount, startRow, rowCount));
    var all := m.rowLengths;
    assert all[startRow..startRow + rowCount][0..row] == all[startRow..startRow + row];
    SumSplit(all, 0, startRow, startRow + row);
  }

  /** `MeasuredDirectBatch::range_layout`: fails exactly outside the batch. */
  method RangeLayout(m: MeasuredDirectBatch, startRow: nat, rowCount: nat) returns (r: Result<RowLayout, Error>)
    requires m.Valid()
    ensures r.Ok? <==> startRow + rowCount <= m.rowCount
    ensures r.Ok? ==>
      && (startRow + rowCount) * m.columnCount <= |m.cellLengths|
      && r.value == LayoutOf(rowCount, m.columnCount, Window(m.cellLengths, m.columnCount, startRow, rowCount))
      && r.value.payloadLen == Sum(m.rowLengths[startRow..startRow + rowCount])
  {
    hide Sum, RowStart, AllRowPositions, Flatten;
    RowCountFits(m);
    var checked := m.CheckRange(startRow, rowCount);
    if checked.Err? {
      return Err(checked.error);
    }
    WindowRowLengths(m.cellLengths, m.rowCount, m.columnCount, startRow, rowCount);
    SumWindow(m.rowLengths, 0, startRow, startRow + rowCount, m.rowCount);
    assert m.rowLengths[0..m.rowCount] == m.rowLengths;
    r := BuildRowRangeLayout(startRow, rowCount, m.columnCount, m.cellLengths);
  }
}
