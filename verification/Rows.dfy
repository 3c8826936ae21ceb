/** Encoding measured row ranges: payload-returning routes and the append route
    (payload.rs and the rows modules of src/write/direct). */
module Rows {
  import opened Basics
  import opened Errors
  import opened Measure
  import opened Layout
  import opened Payload

  // ------------------------------------------------------ encoded payload

  datatype EncodedRowsPayload = EncodedRowsPayload(bytes: seq<byte>, rowTokenOffsets: seq<nat>)

  /** What `validate_row_token_offsets` accepts. */
  ghost predicate OffsetsValid(bytes: seq<byte>, offsets: seq<nat>) {
    && (forall i :: 0 <= i < |offsets| ==> offsets[i] < |bytes| && bytes[offsets[i]] == 0xD1)
    && (forall i, j :: 0 <= i < j < |offsets| ==> offsets[i] < offsets[j])
    && (|offsets| == 0 ==> |bytes| == 0)
  }

  /** `EncodedRowsPayload::new`. */
  method NewPayload(bytes: seq<byte>, offsets: seq<nat>) returns (r: Result<EncodedRowsPayload, Error>)
    ensures r == if OffsetsValid(bytes, offsets) then Ok(EncodedRowsPayload(bytes, offsets)) else Err(InvalidPayload())
  {
    var previous: Option<nat> := None;
    for i := 0 to |offsets|
      invariant previous == if i == 0 then None else Some(offsets[i - 1])
      invariant forall j :: 0 <= j < i ==> offsets[j] < |bytes| && bytes[offsets[j]] == TDS_ROW_TOKEN
      invariant forall j, k :: 0 <= j < k < i ==> offsets[j] < offsets[k]
    {
      var offset := offsets[i];
      if offset >= |bytes| {
        return Err(InvalidPayload());
      }
      if previous.Some? && offset <= previous.value {
        assert !(offsets[i - 1] < offsets[i]);
        return Err(InvalidPayload());
      }
      if bytes[offset] != TDS_ROW_TOKEN {
        return Err(InvalidPayload());
      }
      previous := Some(offset);
    }
    if |offsets| == 0 && |bytes| != 0 {
      return Err(InvalidPayload());
    }
    return Ok(EncodedRowsPayload(bytes, offsets));
  }

  /** The row-token offsets of a built layout always pass. */
  lemma LayoutOffsetsValid(bytes: seq<byte>, rowCount: nat, columnCount: nat, lens: seq<nat>)
    requires |lens| == rowCount * columnCount && |bytes| == Sum(RowLengths(rowCount, columnCount, lens))
    requires TokensHold(bytes, rowCount, columnCount, lens)
    ensures OffsetsValid(bytes, LayoutOf(rowCount, columnCount, lens).rowTokenOffsets)
  {
    hide Sum, RowLengths, RowStart, AllRowPositions, Flatten;
    var offsets := LayoutOf(rowCount, columnCount, lens).rowTokenOffsets;
    StartOfRowZero(rowCount, columnCount, lens);
    StartOfEnd(rowCount, columnCount, lens);
    forall i, j | 0 <= i < j < |offsets| ensures offsets[i] < offsets[j] {
      RowStartStep(rowCount, columnCount, lens, i);
      RowStartMonotone(rowCount, columnCount, lens, i + 1, j);
    }
  }

  // ------------------------------------------------------- sliced batches

  /** `batch.slice(start, count)` seen through the bound columns. */
  function SliceColumns(columns: seq<Column>, rowCount: nat, startRow: nat, count: nat): (r: seq<Column>)
    requires Shaped(columns, rowCount) && startRow + count <= rowCount
    ensures |r| == |columns| && Shaped(r, count)
  {
    seq(|columns|, c requires 0 <= c < |columns| => columns[c][startRow..startRow + count])
  }

  lemma SliceReady(columns: seq<Column>, rowCount: nat, startRow: nat, count: nat)
    requires Ready(columns, rowCount) && startRow + count <= rowCount
    ensures Ready(SliceColumns(columns, rowCount, startRow, count), count)
    ensures PayloadOf(SliceColumns(columns, rowCount, startRow, count), count, 0, count)
            == PayloadOf(columns, rowCount, startRow, count)
  {
    hide Flatten;
    var sliced := SliceColumns(columns, rowCount, startRow, count);
    forall c, r | 0 <= c < |sliced| && 0 <= r < count ensures CellReady(sliced[c][r]) {
      assert sliced[c][r] == columns[c][startRow + r];
    }
    forall k | 0 <= k < count ensures RowBytes(sliced, count, k) == RowBytes(columns, rowCount, startRow + k) {
      assert EncodedCells(sliced, count, k) == EncodedCells(columns, rowCount, startRow + k);
    }
    assert RowsBytes(sliced, count, 0, count) == RowsBytes(columns, rowCount, startRow, count);
  }

  lemma LengthMatrixCell(columns: seq<Column>, rowCount: nat, row: nat, c: nat)
    requires Ready(columns, rowCount) && row < rowCount && c < |columns|
    ensures CellIndex(row, c, |columns|) < |LengthMatrix(columns, rowCount)|
    ensures CellReady(columns[c][row])
    ensures LengthMatrix(columns, rowCount)[CellIndex(row, c, |columns|)] == |columns[c][row].encoded.value|
  {
    hide Flatten, CellIndex;
    CellIndexBound(row, c, rowCount, |columns|);
    UniformCell(MeasuredRows(columns, rowCount), |columns|, row, c);
  }

  /** The batch's length matrix, windowed, reserves for the slice exactly what its
      cells encode to. */
  lemma SliceFillable(columns: seq<Column>, rowCount: nat, startRow: nat, count: nat)
    requires Ready(columns, rowCount) && startRow + count <= rowCount
    ensures (startRow + count) * |columns| <= |LengthMatrix(columns, rowCount)|
    ensures AllFillable(SliceColumns(columns, rowCount, startRow, count), count,
                        Window(LengthMatrix(columns, rowCount), |columns|, startRow, count))
  {
    hide Sum, Flatten, RowStart, LengthMatrix, Window, RowCells;
    var lens := LengthMatrix(columns, rowCount);
    assert (startRow + count) * |columns| <= rowCount * |columns|;
    var window := Window(lens, |columns|, startRow, count);
    var sliced := SliceColumns(columns, rowCount, startRow, count);
    forall k, c | 0 <= k < count && 0 <= c < |columns|
      ensures Fillable(sliced[c][k], CellAt(count, |columns|, window, k, c))
    {
      SliceCellFillable(columns, rowCount, startRow, count, k, c);
    }
  }

  lemma SliceCellFillable(columns: seq<Column>, rowCount: nat, startRow: nat, count: nat, k: nat, c: nat)
    requires Ready(columns, rowCount) && startRow + count <= rowCount && k < count && c < |columns|
    ensures (startRow + count) * |columns| <= |LengthMatrix(columns, rowCount)|
    ensures Fillable(columns[c][startRow + k],
                     CellAt(count, |columns|, Window(LengthMatrix(columns, rowCount), |columns|, startRow, count), k, c))
  {
    hide Sum, Flatten, RowStart, LengthMatrix, Window;
    var lens := LengthMatrix(columns, rowCount);
    assert (startRow + count) * |columns| <= rowCount * |columns|;
    WindowRow(lens, |columns|, startRow, count, k);
    RowCellAt(lens, rowCount, |columns|, startRow + k, c);
    LengthMatrixCell(columns, rowCount, startRow + k, c);
  }

  // ------------------------------------------------- fixed-width fast path

  /** Where the fast path's cursor of a row stands before column `c`. */
  ghost function Cursor(rowCount: nat, columnCount: nat, lens: seq<nat>, row: nat, c: nat): nat
    requires |lens| == rowCount * columnCount && row < rowCount && c <= columnCount
  {
    RowsInMatrix(row, rowCount, columnCount);
    RowStart(rowCount, columnCount, lens, row) + 1 + Sum(RowCells(lens, columnCount, row)[0..c])
  }

  lemma CursorSteps(rowCount: nat, columnCount: nat, lens: seq<nat>, row: nat, c: nat)
    requires |lens| == rowCount * columnCount && row < rowCount && c < columnCount
    ensures Cursor(rowCount, columnCount, lens, row, c) == CellAt(rowCount, columnCount, lens, row, c).offset
    ensures Cursor(rowCount, columnCount, lens, row, c + 1) == CellAt(rowCount, columnCount, lens, row, c).End()
  {
    hide Sum, RowStart;
    RowsInMatrix(row, rowCount, columnCount);
    SumStep(RowCells(lens, columnCount, row), 0, c);
  }

  lemma CursorStarts(rowCount: nat, columnCount: nat, lens: seq<nat>, row: nat)
    requires |lens| == rowCount * columnCount && row < rowCount
    ensures Cursor(rowCount, columnCount, lens, row, 0) == RowStart(rowCount, columnCount, lens, row) + 1
  {
    hide RowStart;
    RowsInMatrix(row, rowCount, columnCount);
    SumNone(RowCells(lens, columnCount, row), 0);
  }

  ghost predicate CursorsAt(cursors: seq<nat>, rowCount: nat, columnCount: nat, lens: seq<nat>, c: nat)
    requires |lens| == rowCount * columnCount && c <= columnCount
  {
    |cursors| == rowCount && forall k :: 0 <= k < rowCount ==> cursors[k] == Cursor(rowCount, columnCount, lens, k, c)
  }

  /** `validate_row_layout_cells`: the positions are the row-major matrix. */
  predicate RowMajorPositions(layout: RowLayout, columnCount: nat) {
    && |layout.cellPositions| == |layout.rowTokenOffsets| * columnCount
    && (columnCount > 0 ==> forall i :: 0 <= i < |layout.cellPositions| ==>
         layout.cellPositions[i].rowIndex == i / columnCount && layout.cellPositions[i].columnIndex == i % columnCount)
  }

  lemma BuiltPositionsAreRowMajor(rowCount: nat, columnCount: nat, lens: seq<nat>)
    requires |lens| == rowCount * columnCount
    ensures RowMajorPositions(LayoutOf(rowCount, columnCount, lens), columnCount)
  {
    hide Sum, Flatten, RowStart, RowLengths, CellIndex;
    var layout := LayoutOf(rowCount, columnCount, lens);
    PositionsUniform(rowCount, columnCount, lens);
    UniformLength(AllRowPositions(rowCount, columnCount, lens), columnCount);
    forall i | 0 <= i < |layout.cellPositions|
      ensures columnCount > 0 && layout.cellPositions[i].rowIndex == i / columnCount
              && layout.cellPositions[i].columnIndex == i % columnCount
    {
      DivisionIndex(i, rowCount, columnCount);
      PositionOfCell(rowCount, columnCount, lens, i / columnCount, i % columnCount);
    }
  }

  datatype FixedWidthRowsLayout = FixedWidthRowsLayout(rowTokenOffsets: seq<nat>, currentOffsets: seq<nat>, payloadLen: nat)

  /** The fast path's layout of rows with the cell lengths `lens`. */
  ghost predicate FixedWidthLayoutOf(layout: FixedWidthRowsLayout, rowCount: nat, columnCount: nat, lens: seq<nat>)
    requires |lens| == rowCount * columnCount
  {
    && layout.rowTokenOffsets == LayoutOf(rowCount, columnCount, lens).rowTokenOffsets
    && layout.payloadLen == Sum(RowLengths(rowCount, columnCount, lens))
    && CursorsAt(layout.currentOffsets, rowCount, columnCount, lens, 0)
  }

  /** `FixedWidthRowsLayout::from_row_layout`: one running offset per row. */
  method FromRowLayout(layout: RowLayout, rowCount: nat, columnCount: nat, ghost lens: seq<nat>)
    returns (r: Result<FixedWidthRowsLayout, Error>)
    requires |lens| == rowCount * columnCount && layout == LayoutOf(rowCount, columnCount, lens)
    requires layout.payloadLen <= USIZE_MAX
    ensures r.Ok? && FixedWidthLayoutOf(r.value, rowCount, columnCount, lens)
  {
    hide Sum, RowStart, RowLengths, AllRowPositions, Flatten;
    BuiltPositionsAreRowMajor(rowCount, columnCount, lens);
    if !RowMajorPositions(layout, columnCount) {
      assert false;
      return Err(InvalidPayload());
    }
    var cursors: seq<nat> := [];
    for row := 0 to rowCount
      invariant |cursors| == row
      invariant forall k :: 0 <= k < row ==> cursors[k] == Cursor(rowCount, columnCount, lens, k, 0)
    {
      CursorStarts(rowCount, columnCount, lens, row);
      RowStartStep(rowCount, columnCount, lens, row);
      RowStartMonotone(rowCount, columnCount, lens, row + 1, row + 1);
      if columnCount == 0 {
        cursors := cursors + [layout.rowTokenOffsets[row] + 1];
      } else {
        PositionOfCell(rowCount, columnCount, lens, row, 0);
        CursorSteps(rowCount, columnCount, lens, row, 0);
        cursors := cursors + [layout.cellPositions[row * columnCount].offset];
      }
    }
    return Ok(FixedWidthRowsLayout(layout.rowTokenOffsets, cursors, layout.payloadLen));
  }

  /** One column of `measure_fixed_width_rows`: add its cell lengths to the row lengths. */
  method AddColumnLengths(column: Column, rowLengths: array<nat>) returns (r: Result<(), Error>)
    requires rowLengths.Length == |column|
    modifies rowLengths
    ensures r.Ok? <==> forall k :: 0 <= k < |column| ==>
      column[k].measured.Ok? && old(rowLengths[k]) + column[k].measured.value <= USIZE_MAX
    ensures r.Ok? ==> forall k :: 0 <= k < |column| ==> rowLengths[k] == old(rowLengths[k]) + column[k].measured.value
  {
    for row := 0 to |column|
      invariant forall k :: row <= k < |column| ==> rowLengths[k] == old(rowLengths[k])
      invariant forall k :: 0 <= k < row ==>
        && column[k].measured.Ok?
        && old(rowLengths[k]) + column[k].measured.value <= USIZE_MAX
        && rowLengths[k] == old(rowLengths[k]) + column[k].measured.value
    {
      if column[row].measured.Err? {
        return Err(column[row].measured.error);
      }
      var next := CheckedAdd(rowLengths[row], column[row].measured.value);
      if next.None? {
        return Err(InvalidPayload());
      }
      rowLengths[row] := next.value;
    }
    return Ok(());
  }

  /** Token byte plus the first `c` cells of a row. */
  ghost function PartialRow(columns: seq<Column>, rowCount: nat, row: nat, c: nat): nat
    requires Shaped(columns, rowCount) && AllMeasured(columns, rowCount) && row < rowCount && c <= |columns|
  {
    RowsInMatrix(row, rowCount, |columns|);
    1 + Sum(RowCells(LengthMatrix(columns, rowCount), |columns|, row)[0..c])
  }

  lemma PartialRowStarts(columns: seq<Column>, rowCount: nat, row: nat)
    requires Shaped(columns, rowCount) && AllMeasured(columns, rowCount) && row < rowCount
    ensures PartialRow(columns, rowCount, row, 0) == 1
    ensures PartialRow(columns, rowCount, row, |columns|) == RowLengths(rowCount, |columns|, LengthMatrix(columns, rowCount))[row]
  {
    hide Sum, LengthMatrix;
    RowsInMatrix(row, rowCount, |columns|);
    var cells := RowCells(LengthMatrix(columns, rowCount), |columns|, row);
    SumNone(cells, 0);
    assert cells[0..|columns|] == cells;
    RowLengthsAt(rowCount, |columns|, LengthMatrix(columns, rowCount), row);
  }

  lemma PartialRowSteps(columns: seq<Column>, rowCount: nat, row: nat, c: nat)
    requires Shaped(columns, rowCount) && AllMeasured(columns, rowCount) && row < rowCount && c < |columns|
    ensures PartialRow(columns, rowCount, row, c + 1) == PartialRow(columns, rowCount, row, c) + columns[c][row].measured.value
    ensures PartialRow(columns, rowCount, row, c + 1) <= Sum(RowLengths(rowCount, |columns|, LengthMatrix(columns, rowCount)))
  {
    hide Sum, LengthMatrix, RowLengths;
    var lens := LengthMatrix(columns, rowCount);
    RowsInMatrix(row, rowCount, |columns|);
    var cells := RowCells(lens, |columns|, row);
    MeasuredCell(columns, rowCount, row, c);
    SumStep(cells, 0, c);
    SumWindow(cells, 0, 0, c + 1, |columns|);
    PartialRowStarts(columns, rowCount, row);
    var lengths := RowLengths(rowCount, |columns|, lens);
    SumOne(lengths, row);
    SumWindow(lengths, 0, row, row + 1, rowCount);
    assert lengths[0..rowCount] == lengths;
  }

  lemma MeasuredCell(columns: seq<Column>, rowCount: nat, row: nat, c: nat)
    requires Shaped(columns, rowCount) && AllMeasured(columns, rowCount) && row < rowCount && c < |columns|
    ensures CellIndex(row, c, |columns|) < |LengthMatrix(columns, rowCount)|
    ensures LengthMatrix(columns, rowCount)[CellIndex(row, c, |columns|)] == columns[c][row].measured.value
  {
    hide Flatten;
    UniformCell(MeasuredRows(columns, rowCount), |columns|, row, c);
  }

  /** `measure_fixed_width_rows`: row lengths accumulated column by column give the
      layout the row-by-row construction gives. */
  method MeasureFixedWidthRows(columns: seq<Column>, rowCount: nat) returns (r: Result<FixedWidthRowsLayout, Error>)
    requires Shaped(columns, rowCount)
    ensures r.Ok? <==>
      && AllMeasured(columns, rowCount)
      && Sum(RowLengths(rowCount, |columns|, LengthMatrix(columns, rowCount))) <= USIZE_MAX
    ensures r.Ok? ==> FixedWidthLayoutOf(r.value, rowCount, |columns|, LengthMatrix(columns, rowCount))
  {
    hide Sum, RowLengths, LengthMatrix, PartialRow, FixedWidthLayoutOf;
    var rowLengths := new nat[rowCount](_ => 1);
    if AllMeasured(columns, rowCount) {
      forall k | 0 <= k < rowCount ensures PartialRow(columns, rowCount, k, 0) == 1 { PartialRowStarts(columns, rowCount, k); }
    }
    for c := 0 to |columns|
      invariant forall c', k :: 0 <= c' < c && 0 <= k < rowCount ==> columns[c'][k].measured.Ok?
      invariant AllMeasured(columns, rowCount) ==>
        forall k :: 0 <= k < rowCount ==> rowLengths[k] == PartialRow(columns, rowCount, k, c)
    {
      if AllMeasured(columns, rowCount) {
        forall k | 0 <= k < rowCount
          ensures PartialRow(columns, rowCount, k, c + 1) == PartialRow(columns, rowCount, k, c) + columns[c][k].measured.value
          ensures PartialRow(columns, rowCount, k, c + 1) <= Sum(RowLengths(rowCount, |columns|, LengthMatrix(columns, rowCount)))
        {
          PartialRowSteps(columns, rowCount, k, c);
        }
      }
      var done := AddColumnLengths(columns[c], rowLengths);
      if done.Err? {
        return Err(done.error);
      }
    }
    assert AllMeasured(columns, rowCount);
    ghost var lens := LengthMatrix(columns, rowCount);
    forall k | 0 <= k < rowCount ensures rowLengths[k] == RowLengths(rowCount, |columns|, lens)[k] {
      PartialRowStarts(columns, rowCount, k);
    }
    assert rowLengths[..] == RowLengths(rowCount, |columns|, lens);
    r := StackRows(rowLengths[..], |columns|, lens);
  }

  /** The tail of `measure_fixed_width_rows`: stack the rows, token first. */
  method StackRows(rowLengths: seq<nat>, ghost columnCount: nat, ghost lens: seq<nat>) returns (r: Result<FixedWidthRowsLayout, Error>)
    requires |lens| == |rowLengths| * columnCount && rowLengths == RowLengths(|rowLengths|, columnCount, lens)
    ensures r.Ok? <==> Sum(rowLengths) <= USIZE_MAX
    ensures r.Ok? ==> FixedWidthLayoutOf(r.value, |rowLengths|, columnCount, lens)
  {
    hide Sum, RowLengths, Cursor, AllRowPositions, Flatten;
    ghost var rowCount := |rowLengths|;
    assert rowLengths[0..rowCount] == rowLengths;
    SumNone(rowLengths, 0);
    var offsets: seq<nat> := [];
    var cursors: seq<nat> := [];
    var payloadLen := 0;
    for row := 0 to |rowLengths|
      invariant payloadLen == RowStart(rowCount, columnCount, lens, row) <= USIZE_MAX
      invariant |offsets| == row && |cursors| == row
      invariant forall k {:trigger RowStart(rowCount, columnCount, lens, k)} :: 0 <= k < row ==>
        offsets[k] == RowStart(rowCount, columnCount, lens, k)
      invariant forall k :: 0 <= k < row ==> cursors[k] == Cursor(rowCount, columnCount, lens, k, 0)
    {
      SumStep(rowLengths, 0, row);
      SumWindow(rowLengths, 0, 0, row + 1, rowCount);
      CursorStarts(rowCount, columnCount, lens, row);
      RowStartStep(rowCount, columnCount, lens, row);
      var afterToken := CheckedAdd(payloadLen, 1);
      if afterToken.None? {
        return Err(InvalidPayload());
      }
      offsets := offsets + [payloadLen];
      cursors := cursors + [afterToken.value];
      var next := CheckedAdd(payloadLen, rowLengths[row]);
      if next.None? {
        return Err(InvalidPayload());
      }
      payloadLen := next.value;
    }
    return Ok(FixedWidthRowsLayout(offsets, cursors, payloadLen));
  }

  /** One fixed-width column: write at each row's cursor, advance the cursor. */
  method FillFixedWidthColumn(columns: seq<Column>, c: nat, rowCount: nat, cursors: array<nat>, bytes: array<byte>, ghost lens: seq<nat>)
    returns (r: Result<(), Error>)
    requires Shaped(columns, rowCount) && c < |columns| && |lens| == rowCount * |columns|
    requires forall k {:trigger CellAt(rowCount, |columns|, lens, k, c)} :: 0 <= k < rowCount && columns[c][k].encoded.Ok? ==>
      Fillable(columns[c][k], CellAt(rowCount, |columns|, lens, k, c))
    requires Filled(bytes[..], columns, rowCount, lens, c)
    requires CursorsAt(cursors[..], rowCount, |columns|, lens, c)
    modifies bytes, cursors
    ensures r.Ok? <==> forall k :: 0 <= k < rowCount ==> columns[c][k].encoded.Ok?
    ensures r.Ok? ==> Filled(bytes[..], columns, rowCount, lens, c + 1)
    ensures r.Ok? ==> CursorsAt(cursors[..], rowCount, |columns|, lens, c + 1)
  {
    hide Sum, RowLengths, RowStart, CellAt, SliceAt, TokensHold, Cursor;
    var columnCount := |columns|;
    for row := 0 to rowCount
      invariant Filled(bytes[..], columns, rowCount, lens, c)
      invariant forall k {:trigger CellAt(rowCount, columnCount, lens, k, c)} :: 0 <= k < row ==>
        CellHolds(bytes[..], columns[c][k], CellAt(rowCount, columnCount, lens, k, c))
      invariant forall k :: 0 <= k < row ==> cursors[k] == Cursor(rowCount, columnCount, lens, k, c + 1)
      invariant forall k :: row <= k < rowCount ==> cursors[k] == Cursor(rowCount, columnCount, lens, k, c)
      invariant forall k :: 0 <= k < row ==> columns[c][k].encoded.Ok?
    {
      CursorSteps(rowCount, columnCount, lens, row, c);
      if columns[c][row].encoded.Err? {
        return Err(columns[c][row].encoded.error);
      }
      var data := columns[c][row].encoded.value;
      assert Fillable(columns[c][row], CellAt(rowCount, columnCount, lens, row, c));
      WriteKeepsOthers(bytes[..], rowCount, columnCount, lens, row, c, data);
      WriteAt(bytes, cursors[row], data);
      cursors[row] := cursors[row] + |data|;
    }
    return Ok(());
  }

  lemma AllFillableColumns(columns: seq<Column>, rowCount: nat, lens: seq<nat>)
    requires Ready(columns, rowCount) && |lens| == rowCount * |columns| && AllFillable(columns, rowCount, lens)
    ensures forall c, k {:trigger CellAt(rowCount, |columns|, lens, k, c)} :: 0 <= c < |columns| && 0 <= k < rowCount ==>
      columns[c][k].encoded.Ok? && Fillable(columns[c][k], CellAt(rowCount, |columns|, lens, k, c))
    ensures forall c, k :: 0 <= c < |columns| && 0 <= k < rowCount ==> columns[c][k].encoded.Ok?
  {
    hide CellAt;
    forall c, k | 0 <= c < |columns| && 0 <= k < rowCount ensures columns[c][k].encoded.Ok? {
      assert CellReady(columns[c][k]);
    }
  }

  /** `encode_fixed_width_rows`: the fast path produces the same row-major bytes. */
  method EncodeFixedWidthRows(columns: seq<Column>, rowCount: nat, layout: FixedWidthRowsLayout, ghost lens: seq<nat>)
    returns (r: Result<EncodedRowsPayload, Error>)
    requires Ready(columns, rowCount) && |lens| == rowCount * |columns| && AllFillable(columns, rowCount, lens)
    requires FixedWidthLayoutOf(layout, rowCount, |columns|, lens)
    ensures r == Ok(EncodedRowsPayload(PayloadOf(columns, rowCount, 0, rowCount), layout.rowTokenOffsets))
  {
    hide Sum, RowLengths, RowStart, CellAt, SliceAt, Flatten, AllRowPositions, Fillable, CellHolds, Cursor, PayloadOf, OffsetsValid;
    AllFillableColumns(columns, rowCount, lens);
    var cursors := new nat[rowCount](k requires 0 <= k < rowCount && rowCount == |layout.currentOffsets| => layout.currentOffsets[k]);
    var bytes := AllocateRowsPayload(rowCount, |columns|, lens, layout.rowTokenOffsets, layout.payloadLen);
    assert cursors[..] == layout.currentOffsets;
    for c := 0 to |columns|
      invariant Filled(bytes[..], columns, rowCount, lens, c)
      invariant CursorsAt(cursors[..], rowCount, |columns|, lens, c)
    {
      var done := FillFixedWidthColumn(columns, c, rowCount, cursors, bytes, lens);
    }
    FilledIsPayload(bytes[..], columns, rowCount, lens);
    LayoutOffsetsValid(bytes[..], rowCount, |columns|, lens);
    r := NewPayload(bytes[..], layout.rowTokenOffsets);
  }

  /** The general route: allocate with tokens, then fill by cell position. */
  method EncodeRowsWithLayout(columns: seq<Column>, rowCount: nat, layout: RowLayout, ghost lens: seq<nat>)
    returns (r: Result<EncodedRowsPayload, Error>)
    requires Ready(columns, rowCount) && |lens| == rowCount * |columns| && AllFillable(columns, rowCount, lens)
    requires layout == LayoutOf(rowCount, |columns|, lens)
    ensures r == Ok(EncodedRowsPayload(PayloadOf(columns, rowCount, 0, rowCount), layout.rowTokenOffsets))
  {
    hide Sum, RowLengths, RowStart, CellAt, SliceAt, Flatten, AllRowPositions, Fillable, CellHolds, PayloadOf, OffsetsValid;
    var bytes := AllocateRowsPayload(rowCount, |columns|, lens, layout.rowTokenOffsets, layout.payloadLen);
    var done := FillColumns(columns, rowCount, layout, bytes, lens);
    FilledIsPayload(bytes[..], columns, rowCount, lens);
    LayoutOffsetsValid(bytes[..], rowCount, |columns|, lens);
    r := NewPayload(bytes[..], layout.rowTokenOffsets);
  }

  // ------------------------------------------------------ measured ranges

  /** The measured batch belongs to these columns. */
  ghost predicate MeasuredFor(m: MeasuredDirectBatch, columns: seq<Column>, rowCount: nat) {
    && m.Valid() && Ready(columns, rowCount)
    && m.rowCount == rowCount && m.columnCount == |columns|
    && m.cellLengths == LengthMatrix(columns, rowCount)
  }

  /** Row-token offsets of a range, counted from the start of the range. */
  ghost function RangeOffsets(m: MeasuredDirectBatch, startRow: nat, count: nat): (r: seq<nat>)
    requires m.Valid() && startRow + count <= m.rowCount
    ensures |r| == count
  {
    seq<nat>(count, k requires 0 <= k < count => Sum(m.rowLengths[startRow..startRow + k]))
  }

  /** The range's layout offsets are its partial byte counts. */
  lemma RangeLayoutOffsets(m: MeasuredDirectBatch, startRow: nat, count: nat)
    requires m.Valid() && startRow + count <= m.rowCount
    ensures (startRow + count) * m.columnCount <= |m.cellLengths|
    ensures LayoutOf(count, m.columnCount, Window(m.cellLengths, m.columnCount, startRow, count)).rowTokenOffsets
            == RangeOffsets(m, startRow, count)
  {
    hide Sum, Flatten, AllRowPositions, RowLengths, Window;
    WindowRowLengths(m.cellLengths, m.rowCount, m.columnCount, startRow, count);
    var window := Window(m.cellLengths, m.columnCount, startRow, count);
    forall k | 0 <= k < count
      ensures RowStart(count, m.columnCount, window, k) == RangeOffsets(m, startRow, count)[k]
    {
      assert m.rowLengths[startRow..startRow + count][0..k] == m.rowLengths[startRow..startRow + k];
    }
  }

  /** `encode_measured_batch_range`: for the batch that was measured it succeeds
      exactly inside the batch, by either route, with the range's row-major bytes;
      a batch of another shape is refused. */
  method EncodeMeasuredRange(columns: seq<Column>, rowCount: nat, fixedWidth: bool,
                             m: MeasuredDirectBatch, startRow: nat, count: nat)
    returns (r: Result<EncodedRowsPayload, Error>)
    requires m.Valid() && Shaped(columns, rowCount)
    requires m.rowCount == rowCount && m.columnCount == |columns| ==> MeasuredFor(m, columns, rowCount)
    ensures r.Ok? <==> startRow + count <= m.rowCount && (count == 0 || (m.rowCount == rowCount && m.columnCount == |columns|))
    ensures r.Ok? && m.rowCount == rowCount && m.columnCount == |columns| ==>
      r.value == EncodedRowsPayload(PayloadOf(columns, rowCount, startRow, count), RangeOffsets(m, startRow, count))
  {
    hide Sum, Flatten, RowLengths, RowStart, LayoutOf, Window, AllFillable, LengthMatrix, RowsBytes;
    RowCountFits(m);
    var checked := m.CheckRange(startRow, count);
    if checked.Err? {
      return Err(checked.error);
    }
    if count == 0 {
      if m.rowCount == rowCount && m.columnCount == |columns| {
        EmptyPayload(columns, rowCount, startRow);
      }
      r := NewPayload([], []);
      return;
    }
    if m.rowCount != rowCount || m.columnCount != |columns| {
      return Err(InvalidPayload());
    }
    var sliced := SliceColumns(columns, rowCount, startRow, count);
    SliceReady(columns, rowCount, startRow, count);
    SliceFillable(columns, rowCount, startRow, count);
    RangeLayoutOffsets(m, startRow, count);
    ghost var window := Window(m.cellLengths, m.columnCount, startRow, count);
    var layout := RangeLayout(m, startRow, count);
    SumWindow(m.rowLengths, 0, startRow, startRow + count, m.rowCount);
    assert m.rowLengths[0..m.rowCount] == m.rowLengths;
    if fixedWidth {
      var fast := FromRowLayout(layout.value, count, |columns|, window);
      r := EncodeFixedWidthRows(sliced, count, fast.value, window);
    } else {
      r := EncodeRowsWithLayout(sliced, count, layout.value, window);
    }
  }

  lemma EmptyPayload(columns: seq<Column>, rowCount: nat, startRow: nat)
    requires Ready(columns, rowCount) && startRow <= rowCount
    ensures PayloadOf(columns, rowCount, startRow, 0) == []
  {
    assert RowsBytes(columns, rowCount, startRow, 0) == [];
  }

  // -------------------------------------------------------- whole batches

  /** Measuring vouches for encoding: a measured cell encodes to that many bytes. */
  ghost predicate Sound(columns: seq<Column>, rowCount: nat) {
    && Shaped(columns, rowCount)
    && forall c, k :: 0 <= c < |columns| && 0 <= k < rowCount && columns[c][k].measured.Ok? ==> CellReady(columns[c][k])
  }

  /** The batch measures and its payload fits a `usize`. */
  ghost predicate Encodable(columns: seq<Column>, rowCount: nat)
    requires Shaped(columns, rowCount)
  {
    && AllMeasured(columns, rowCount)
    && Sum(RowLengths(rowCount, |columns|, LengthMatrix(columns, rowCount))) <= USIZE_MAX
  }

  lemma WholeFillable(columns: seq<Column>, rowCount: nat)
    requires Ready(columns, rowCount)
    ensures AllFillable(columns, rowCount, LengthMatrix(columns, rowCount))
  {
    hide Sum, Flatten, RowStart, LengthMatrix, CellAt;
    forall k, c | 0 <= k < rowCount && 0 <= c < |columns|
      ensures Fillable(columns[c][k], CellAt(rowCount, |columns|, LengthMatrix(columns, rowCount), k, c))
    {
      RowCellAt(LengthMatrix(columns, rowCount), rowCount, |columns|, k, c);
      LengthMatrixCell(columns, rowCount, k, c);
    }
  }

  /** `BoundDirectBatch::measure_layout`. */
  method MeasureLayout(columns: seq<Column>, rowCount: nat) returns (r: Result<RowLayout, Error>)
    requires Shaped(columns, rowCount)
    ensures r.Ok? ==> Encodable(columns, rowCount) && r.value == LayoutOf(rowCount, |columns|, LengthMatrix(columns, rowCount))
    ensures r.Err? ==> !Encodable(columns, rowCount) || rowCount > USIZE_MAX
  {
    hide Sum, RowLengths, LengthMatrix, LayoutOf, Window;
    var cellLengths := MeasureCellLengths(columns, rowCount);
    if cellLengths.Err? {
      return Err(cellLengths.error);
    }
    WholeWindow(cellLengths.value, rowCount, |columns|);
    r := BuildRowRangeLayout(0, rowCount, |columns|, cellLengths.value);
  }

  lemma WholeWindow(lens: seq<nat>, rowCount: nat, columnCount: nat)
    requires |lens| == rowCount * columnCount
    ensures (0 + rowCount) * columnCount <= |lens| && Window(lens, columnCount, 0, rowCount) == lens
  {
  }

  /** `encode_checked_batch`: the whole batch by the fast path with its own
      measuring pass, or by the general route. */
  method EncodeBatch(columns: seq<Column>, rowCount: nat, fixedWidth: bool) returns (r: Result<EncodedRowsPayload, Error>)
    requires Sound(columns, rowCount) && rowCount <= USIZE_MAX
    ensures r.Ok? <==> Encodable(columns, rowCount)
    ensures r.Ok? ==> Ready(columns, rowCount) && r.value == EncodedRowsPayload(
      PayloadOf(columns, rowCount, 0, rowCount),
      LayoutOf(rowCount, |columns|, LengthMatrix(columns, rowCount)).rowTokenOffsets)
  {
    hide Sum, RowLengths, LengthMatrix, LayoutOf, PayloadOf, AllFillable;
    if fixedWidth {
      var fast := MeasureFixedWidthRows(columns, rowCount);
      if fast.Err? {
        return Err(fast.error);
      }
      WholeFillable(columns, rowCount);
      r := EncodeFixedWidthRows(columns, rowCount, fast.value, LengthMatrix(columns, rowCount));
    } else {
      var layout := MeasureLayout(columns, rowCount);
      if layout.Err? {
        return Err(layout.error);
      }
      WholeFillable(columns, rowCount);
      LayoutFields(rowCount, |columns|, LengthMatrix(columns, rowCount));
      r := EncodeRowsWithLayout(columns, rowCount, layout.value, LengthMatrix(columns, rowCount));
    }
  }

  lemma LayoutFields(rowCount: nat, columnCount: nat, lens: seq<nat>)
    requires |lens| == rowCount * columnCount
    ensures LayoutOf(rowCount, columnCount, lens).payloadLen == Sum(RowLengths(rowCount, columnCount, lens))
  {
  }

  // ---------------------------------------------------------- append route

  /** The raw rows buffer of the bulk-load request, as far as rows append to it. */
  class RawRowsBuffer {
    var bytes: seq<byte>

    constructor ()
      ensures bytes == []
    {
      bytes := [];
    }

    method PutU8(value: byte)
      modifies this
      ensures bytes == old(bytes) + [value]
    {
      bytes := bytes + [value];
    }

    method ExtendFromSlice(slice: seq<byte>)
      modifies this
      ensures bytes == old(bytes) + slice
    {
      bytes := bytes + slice;
    }
  }

  /** `append_cell`: append one cell whose encoded length must be the measured one. */
  method AppendCell(cell: CellOutcome, measuredLen: nat, buf: RawRowsBuffer) returns (r: Result<(), Error>)
    modifies buf
    ensures r.Ok? <==> cell.encoded.Ok? && |cell.encoded.value| == measuredLen
    ensures buf.bytes == old(buf.bytes) + if r.Ok? then cell.encoded.value else []
  {
    if cell.encoded.Err? {
      return Err(cell.encoded.error);
    }
    if |cell.encoded.value| != measuredLen {
      return Err(InvalidPayload());
    }
    buf.ExtendFromSlice(cell.encoded.value);
    return Ok(());
  }

  /** The bytes the append loop has written after `row` rows and `c` cells. */
  lemma AppendedPrefix(m: MeasuredDirectBatch, columns: seq<Column>, rowCount: nat, startRow: nat, count: nat, row: nat, c: nat)
    requires MeasuredFor(m, columns, rowCount) && startRow + count <= rowCount && row < count && c < |columns|
    ensures columns[c][startRow + row].encoded.Ok?
    ensures m.CellLen(startRow + row, c) == Ok(|columns[c][startRow + row].encoded.value|)
    ensures EncodedCells(columns, rowCount, startRow + row)[..c + 1]
            == EncodedCells(columns, rowCount, startRow + row)[..c] + [columns[c][startRow + row].encoded.value]
    ensures Flatten(EncodedCells(columns, rowCount, startRow + row)[..c + 1])
            == Flatten(EncodedCells(columns, rowCount, startRow + row)[..c]) + columns[c][startRow + row].encoded.value
  {
    hide Flatten, LengthMatrix;
    CellLenExact(m, startRow + row, c);
    LengthMatrixCell(columns, rowCount, startRow + row, c);
    FlattenStep(EncodedCells(columns, rowCount, startRow + row), c);
  }

  lemma AppendedRow(m: MeasuredDirectBatch, columns: seq<Column>, rowCount: nat, startRow: nat, row: nat)
    requires MeasuredFor(m, columns, rowCount) && startRow + row < rowCount
    ensures PayloadOf(columns, rowCount, startRow, row + 1)
            == PayloadOf(columns, rowCount, startRow, row) + RowBytes(columns, rowCount, startRow + row)
    ensures |RowBytes(columns, rowCount, startRow + row)| == m.rowLengths[startRow + row]
    ensures Sum(m.rowLengths[startRow..startRow + row + 1]) == Sum(m.rowLengths[startRow..startRow + row]) + m.rowLengths[startRow + row]
    ensures Sum(m.rowLengths[startRow..startRow + row + 1]) <= USIZE_MAX
  {
    hide Flatten, LengthMatrix, Sum, RowBytes;
    PayloadConcat(columns, rowCount, startRow, row, 1);
    SingleRow(columns, rowCount, startRow + row);
    WholeFillable(columns, rowCount);
    RowBytesLength(columns, rowCount, m.cellLengths, startRow + row);
    RowLengthsAt(rowCount, |columns|, m.cellLengths, startRow + row);
    SumStep(m.rowLengths, startRow, startRow + row);
    SumWindow(m.rowLengths, 0, startRow, startRow + row + 1, rowCount);
    assert m.rowLengths[0..rowCount] == m.rowLengths;
  }

  lemma SingleRow(columns: seq<Column>, rowCount: nat, row: nat)
    requires Ready(columns, rowCount) && row < rowCount
    ensures PayloadOf(columns, rowCount, row, 1) == RowBytes(columns, rowCount, row)
  {
    hide RowBytes;
    var rows := RowsBytes(columns, rowCount, row, 1);
    assert rows == [RowBytes(columns, rowCount, row)];
    assert Flatten(rows) == rows[0] + Flatten(rows[1..]);
  }

  /** One row of the append loop. */
  method AppendRow(columns: seq<Column>, rowCount: nat, m: MeasuredDirectBatch, row: nat, written: nat, buf: RawRowsBuffer)
    returns (r: Result<nat, Error>)
    requires MeasuredFor(m, columns, rowCount) && row < rowCount
    requires written + m.rowLengths[row] <= USIZE_MAX
    modifies buf
    ensures r == Ok(written + m.rowLengths[row])
    ensures buf.bytes == old(buf.bytes) + RowBytes(columns, rowCount, row)
  {
    hide Flatten, LengthMatrix, Sum, RowLengths, CellReady;
    AppendedRow(m, columns, rowCount, row, 0);
    ghost var cells := EncodedCells(columns, rowCount, row);
    assert |RowBytes(columns, rowCount, row)| == 1 + |Flatten(cells)|;
    FlattenNone(cells);
    buf.PutU8(TDS_ROW_TOKEN);
    var afterToken := CheckedAdd(written, 1);
    if afterToken.None? {
      assert false;
      return Err(InvalidPayload());
    }
    var total := afterToken.value;
    for c := 0 to |columns|
      invariant total == written + 1 + |Flatten(cells[..c])|
      invariant buf.bytes == old(buf.bytes) + [TDS_ROW_TOKEN] + Flatten(cells[..c])
    {
      AppendedPrefix(m, columns, rowCount, row, 1, 0, c);
      FlattenPrefix(cells, c + 1);
      var measuredLen := m.CellLen(row, c);
      if measuredLen.Err? {
        assert false;
        return Err(InvalidPayload());
      }
      var done := AppendCell(columns[c][row], measuredLen.value, buf);
      assert buf.bytes == old(buf.bytes) + [TDS_ROW_TOKEN] + (Flatten(cells[..c]) + columns[c][row].encoded.value);
      var next := CheckedAdd(total, measuredLen.value);
      if next.None? {
        assert false;
        return Err(InvalidPayload());
      }
      total := next.value;
    }
    assert cells[..|columns|] == cells;
    return Ok(total);
  }

  lemma FlattenPrefix<T>(ss: seq<seq<T>>, i: nat)
    requires i <= |ss|
    ensures |Flatten(ss[..i])| <= |Flatten(ss)|
  {
    assert ss == ss[..i] + ss[i..];
    FlattenConcat(ss[..i], ss[i..]);
  }

  /** `encode_measured_batch_range_into`: for the measured batch the append route
      fails exactly outside the batch, before touching the buffer; inside it
      appends the range's row-major bytes and reports the same offsets as the
      payload routes. No partly appended range can occur. */
  method EncodeMeasuredRangeInto(columns: seq<Column>, rowCount: nat, m: MeasuredDirectBatch, startRow: nat, count: nat, buf: RawRowsBuffer)
    returns (r: Result<seq<nat>, Error>)
    requires m.Valid() && Shaped(columns, rowCount)
    requires m.rowCount == rowCount && m.columnCount == |columns| ==> MeasuredFor(m, columns, rowCount)
    modifies buf
    ensures r.Ok? <==> startRow + count <= m.rowCount && m.rowCount == rowCount && m.columnCount == |columns|
    ensures r.Ok? ==> buf.bytes == old(buf.bytes) + PayloadOf(columns, rowCount, startRow, count)
    ensures r.Ok? ==> r.value == RangeOffsets(m, startRow, count)
    ensures r.Err? ==> buf.bytes == old(buf.bytes)
  {
    hide Sum, LengthMatrix, RowLengths, RowBytes, PayloadOf;
    RowCountFits(m);
    var checked := m.CheckRange(startRow, count);
    if checked.Err? {
      return Err(checked.error);
    }
    if m.rowCount != rowCount || m.columnCount != |columns| {
      return Err(InvalidPayload());
    }
    EmptyPayload(columns, rowCount, startRow);
    SumNone(m.rowLengths, startRow);
    var offsets: seq<nat> := [];
    var written := 0;
    for row := 0 to count
      invariant written == Sum(m.rowLengths[startRow..startRow + row])
      invariant offsets == RangeOffsets(m, startRow, count)[..row]
      invariant buf.bytes == old(buf.bytes) + PayloadOf(columns, rowCount, startRow, row)
    {
      AppendedRow(m, columns, rowCount, startRow, row);
      offsets := offsets + [written];
      var next := AppendRow(columns, rowCount, m, startRow + row, written, buf);
      assert buf.bytes == old(buf.bytes)
        + (PayloadOf(columns, rowCount, startRow, row) + RowBytes(columns, rowCount, startRow + row));
      written := next.value;
    }
    assert RangeOffsets(m, startRow, count)[..count] == RangeOffsets(m, startRow, count);
    return Ok(offsets);
  }

  // ----------------------------------------------- ranges add up to the batch

  /** The payloads of the ranges, in order. */
  ghost function RangePayloads(columns: seq<Column>, rowCount: nat, ranges: seq<RowRange>): (r: seq<seq<byte>>)
    requires Ready(columns, rowCount) && forall j :: 0 <= j < |ranges| ==> ranges[j].End() <= rowCount
    ensures |r| == |ranges|
  {
    seq(|ranges|, j requires 0 <= j < |ranges| =>
      var range := ranges[j];
      assert range.End() <= rowCount;
      PayloadOf(columns, rowCount, range.start, range.len))
  }

  /** Any partition of the rows: the first `i` range payloads are the payload of
      the rows before boundary `i`. */
  lemma {:induction false} RangePayloadsPrefix(columns: seq<Column>, rowCount: nat, ranges: seq<RowRange>, i: nat)
    requires Ready(columns, rowCount) && Partition(ranges, rowCount) && i <= |ranges|
    ensures forall j :: 0 <= j < |ranges| ==> ranges[j].End() <= rowCount
    ensures Boundary(ranges, i) <= rowCount
    ensures Flatten(RangePayloads(columns, rowCount, ranges)[..i]) == PayloadOf(columns, rowCount, 0, Boundary(ranges, i))
  {
    hide PayloadOf, Flatten;
    forall j | 0 <= j < |ranges| ensures ranges[j].End() <= rowCount { PartitionEnds(ranges, rowCount, j); }
    var payloads := RangePayloads(columns, rowCount, ranges);
    if i == 0 {
      FlattenNone(payloads);
      EmptyPayload(columns, rowCount, 0);
    } else {
      RangePayloadsPrefix(columns, rowCount, ranges, i - 1);
      var range := ranges[i - 1];
      assert Boundary(ranges, i - 1) == range.start && Boundary(ranges, i) == range.End();
      FlattenStep(payloads, i - 1);
      PayloadConcat(columns, rowCount, 0, range.start, range.len);
    }
  }

  /** Encoding the ranges one by one and concatenating gives the whole payload. */
  lemma RangesConcatenate(columns: seq<Column>, rowCount: nat, ranges: seq<RowRange>)
    requires Ready(columns, rowCount) && Partition(ranges, rowCount)
    ensures forall j :: 0 <= j < |ranges| ==> ranges[j].End() <= rowCount
    ensures Flatten(RangePayloads(columns, rowCount, ranges)) == PayloadOf(columns, rowCount, 0, rowCount)
  {
    hide PayloadOf, Flatten;
    RangePayloadsPrefix(columns, rowCount, ranges, |ranges|);
    assert RangePayloads(columns, rowCount, ranges)[..|ranges|] == RangePayloads(columns, rowCount, ranges);
  }
}
