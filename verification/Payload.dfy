/** The row payload engine: measuring column by column, filling a pre-allocated
    buffer column by column (general and fixed-width route) or appending row by
    row, all against one row-major specification
    (binding.rs, payload.rs and the rows modules of src/write/direct). */
module Payload {
  import opened Basics
  import opened Errors
  import opened Measure
  import opened Layout

  /** What a column's encoder says about one cell: the length the measuring pass
      reports and the bytes the encoding pass produces. */
  datatype CellOutcome = CellOutcome(measured: Result<nat, Error>, encoded: Result<seq<byte>, Error>)

  type Column = seq<CellOutcome>

  ghost predicate Shaped(columns: seq<Column>, rowCount: nat) {
    forall c :: 0 <= c < |columns| ==> |columns[c]| == rowCount
  }

  /** The two passes agree: the encoder delivers exactly the measured bytes. */
  ghost predicate CellReady(cell: CellOutcome) {
    cell.measured.Ok? && cell.encoded.Ok? && |cell.encoded.value| == cell.measured.value
  }

  ghost predicate Ready(columns: seq<Column>, rowCount: nat) {
    && Shaped(columns, rowCount)
    && forall c, r :: 0 <= c < |columns| && 0 <= r < rowCount ==> CellReady(columns[c][r])
  }

  ghost predicate AllMeasured(columns: seq<Column>, rowCount: nat)
    requires Shaped(columns, rowCount)
  {
    forall c, r :: 0 <= c < |columns| && 0 <= r < rowCount ==> columns[c][r].measured.Ok?
  }

  // ------------------------------------------------------ specification

  /** One row's cells in column order. */
  function RowOf(columns: seq<Column>, rowCount: nat, row: nat): (r: seq<CellOutcome>)
    requires Shaped(columns, rowCount) && row < rowCount
    ensures |r| == |columns|
  {
    seq(|columns|, c requires 0 <= c < |columns| => columns[c][row])
  }

  ghost function MeasuredRows(columns: seq<Column>, rowCount: nat): (r: seq<seq<nat>>)
    requires Shaped(columns, rowCount) && AllMeasured(columns, rowCount)
    ensures |r| == rowCount && Uniform(r, |columns|)
    ensures forall k, c :: 0 <= k < rowCount && 0 <= c < |columns| ==> r[k][c] == columns[c][k].measured.value
  {
    seq(rowCount, k requires 0 <= k < rowCount =>
      seq(|columns|, c requires 0 <= c < |columns| => columns[c][k].measured.value))
  }

  /** The row-major matrix of measured cell lengths. */
  ghost function LengthMatrix(columns: seq<Column>, rowCount: nat): (r: seq<nat>)
    requires Shaped(columns, rowCount) && AllMeasured(columns, rowCount)
    ensures |r| == rowCount * |columns|
  {
    UniformLength(MeasuredRows(columns, rowCount), |columns|);
    Flatten(MeasuredRows(columns, rowCount))
  }

  /** One row's encoded cells in column order. */
  ghost function EncodedCells(columns: seq<Column>, rowCount: nat, row: nat): (r: seq<seq<byte>>)
    requires Ready(columns, rowCount) && row < rowCount
    ensures |r| == |columns|
  {
    seq(|columns|, c requires 0 <= c < |columns| =>
      assert CellReady(columns[c][row]);
      columns[c][row].encoded.value)
  }

  /** A row on the wire: the row token, then its cells in column order. */
  ghost function RowBytes(columns: seq<Column>, rowCount: nat, row: nat): seq<byte>
    requires Ready(columns, rowCount) && row < rowCount
  {
    [0xD1] + Flatten(EncodedCells(columns, rowCount, row))
  }

  ghost function RowsBytes(columns: seq<Column>, rowCount: nat, startRow: nat, count: nat): (r: seq<seq<byte>>)
    requires Ready(columns, rowCount) && startRow + count <= rowCount
    ensures |r| == count
  {
    seq(count, k requires 0 <= k < count => RowBytes(columns, rowCount, startRow + k))
  }

  /** Row-major concatenation of the rows `startRow .. startRow + count`. */
  ghost function PayloadOf(columns: seq<Column>, rowCount: nat, startRow: nat, count: nat): seq<byte>
    requires Ready(columns, rowCount) && startRow + count <= rowCount
  {
    Flatten(RowsBytes(columns, rowCount, startRow, count))
  }

  /** Neighbouring row ranges concatenate. */
  lemma PayloadConcat(columns: seq<Column>, rowCount: nat, startRow: nat, count: nat, more: nat)
    requires Ready(columns, rowCount) && startRow + count + more <= rowCount
    ensures PayloadOf(columns, rowCount, startRow, count + more)
            == PayloadOf(columns, rowCount, startRow, count) + PayloadOf(columns, rowCount, startRow + count, more)
  {
    hide Flatten, RowBytes;
    var head, tail := RowsBytes(columns, rowCount, startRow, count), RowsBytes(columns, rowCount, startRow + count, more);
    assert RowsBytes(columns, rowCount, startRow, count + more) == head + tail;
    FlattenConcat(head, tail);
  }

  // ----------------------------------------------------------- measuring

  /** One column writes its lengths into its stride of the row-major matrix and
      touches no other column's cells. */
  method MeasureColumn(column: Column, c: nat, columnCount: nat, cellLengths: array<nat>) returns (r: Result<(), Error>)
    requires c < columnCount && cellLengths.Length == |column| * columnCount
    modifies cellLengths
    ensures r.Ok? ==> forall k :: 0 <= k < |column| ==> column[k].measured.Ok?
    ensures r.Ok? ==> forall k {:trigger CellIndex(k, c, columnCount)} :: 0 <= k < |column| ==>
      CellIndex(k, c, columnCount) < cellLengths.Length && cellLengths[CellIndex(k, c, columnCount)] == column[k].measured.value
    ensures r.Err? ==> exists k :: 0 <= k < |column| && FirstFailure(column, k) && r.error == column[k].measured.error
    ensures forall k, c' {:trigger CellIndex(k, c', columnCount)} ::
      0 <= k < |column| && 0 <= c' < columnCount && c' != c ==>
        CellIndex(k, c', columnCount) < cellLengths.Length
        && cellLengths[CellIndex(k, c', columnCount)] == old(cellLengths[CellIndex(k, c', columnCount)])
  {
    forall k, c' {:trigger CellIndex(k, c', columnCount)} | 0 <= k < |column| && 0 <= c' < columnCount
      ensures CellIndex(k, c', columnCount) < cellLengths.Length
    {
      CellIndexBound(k, c', |column|, columnCount);
    }
    for row := 0 to |column|
      invariant forall k :: 0 <= k < row ==> column[k].measured.Ok?
      invariant forall k {:trigger CellIndex(k, c, columnCount)} :: 0 <= k < row ==>
        cellLengths[CellIndex(k, c, columnCount)] == column[k].measured.value
      invariant forall k, c' {:trigger CellIndex(k, c', columnCount)} ::
        0 <= k < |column| && 0 <= c' < columnCount && c' != c ==>
          cellLengths[CellIndex(k, c', columnCount)] == old(cellLengths[CellIndex(k, c', columnCount)])
    {
      if column[row].measured.Err? {
        return Err(column[row].measured.error);
      }
      forall k, c' {:trigger CellIndex(k, c', columnCount)} |
        0 <= k < |column| && 0 <= c' < columnCount && (k != row || c' != c)
        ensures CellIndex(k, c', columnCount) != CellIndex(row, c, columnCount)
      {
        CellIndexInjective(k, c', row, c, columnCount);
      }
      cellLengths[CellIndex(row, c, columnCount)] := column[row].measured.value;
    }
    return Ok(());
  }

  ghost predicate FirstFailure(column: Column, k: nat)
    requires k < |column|
  {
    column[k].measured.Err? && forall j :: 0 <= j < k ==> column[j].measured.Ok?
  }

  ghost predicate FirstFailureInColumnOrder(columns: seq<Column>, rowCount: nat, c: int, k: int)
    requires Shaped(columns, rowCount)
  {
    && 0 <= c < |columns| && 0 <= k < rowCount
    && FirstFailure(columns[c], k)
    && forall c', k' :: 0 <= c' < c && 0 <= k' < rowCount ==> columns[c'][k'].measured.Ok?
  }

  /** `BoundDirectBatch::measure_cell_lengths`: the column-by-column writes build
      the row-major matrix; a failure is the first one in column-major order. */
  method MeasureCellLengths(columns: seq<Column>, rowCount: nat) returns (r: Result<seq<nat>, Error>)
    requires Shaped(columns, rowCount)
    ensures r.Ok? <==> AllMeasured(columns, rowCount)
    ensures r.Ok? ==> r.value == LengthMatrix(columns, rowCount)
    ensures r.Err? ==> exists c, k :: FirstFailureInColumnOrder(columns, rowCount, c, k) && r.error == columns[c][k].measured.error
  {
    var columnCount := |columns|;
    var cellLengths := new nat[rowCount * columnCount](_ => 0);
    for c := 0 to columnCount
      invariant forall c', k :: 0 <= c' < c && 0 <= k < rowCount ==> columns[c'][k].measured.Ok?
      invariant forall c', k {:trigger CellIndex(k, c', columnCount)} :: 0 <= c' < c && 0 <= k < rowCount ==>
        CellIndex(k, c', columnCount) < cellLengths.Length
        && cellLengths[CellIndex(k, c', columnCount)] == columns[c'][k].measured.value
    {
      var done := MeasureColumn(columns[c], c, columnCount, cellLengths);
      if done.Err? {
        ghost var k :| 0 <= k < rowCount && FirstFailure(columns[c], k) && done.error == columns[c][k].measured.error;
        assert FirstFailureInColumnOrder(columns, rowCount, c, k);
        return Err(done.error);
      }
    }
    assert AllMeasured(columns, rowCount);
    MatrixDetermined(cellLengths[..], MeasuredRows(columns, rowCount), columnCount);
    return Ok(cellLengths[..]);
  }

  // ------------------------------------------------------------- buffers

  /** `before` with `data` written at `at`. */
  ghost function Splice(before: seq<byte>, at: nat, data: seq<byte>): (r: seq<byte>)
    requires at + |data| <= |before|
    ensures |r| == |before|
  {
    before[..at] + data + before[at + |data|..]
  }

  lemma SpliceWithin(before: seq<byte>, at: nat, data: seq<byte>)
    requires at + |data| <= |before|
    ensures Splice(before, at, data)[at..at + |data|] == data
  {
  }

  lemma SpliceOutside(before: seq<byte>, at: nat, data: seq<byte>, lo: nat, hi: nat)
    requires at + |data| <= |before| && lo <= hi <= |before|
    requires hi <= at || at + |data| <= lo
    ensures Splice(before, at, data)[lo..hi] == before[lo..hi]
  {
    var after := Splice(before, at, data);
    forall i | lo <= i < hi ensures after[i] == before[i] {
    }
  }

  method WriteAt(bytes: array<byte>, at: nat, data: seq<byte>)
    requires at + |data| <= bytes.Length
    modifies bytes
    ensures bytes[..] == Splice(old(bytes[..]), at, data)
  {
    forall i | 0 <= i < |data| {
      bytes[at + i] := data[i];
    }
  }

  /** The bytes a position covers; empty when it leaves the buffer. */
  ghost function SliceAt(bytes: seq<byte>, position: CellPosition): seq<byte> {
    if position.End() <= |bytes| then bytes[position.offset..position.End()] else []
  }

  /** Every row token is in place. */
  ghost predicate TokensHold(bytes: seq<byte>, rowCount: nat, columnCount: nat, lens: seq<nat>)
    requires |lens| == rowCount * columnCount
  {
    forall k {:trigger RowStart(rowCount, columnCount, lens, k)} :: 0 <= k < rowCount ==>
      RowStart(rowCount, columnCount, lens, k) < |bytes| && bytes[RowStart(rowCount, columnCount, lens, k)] == 0xD1
  }

  /** What one write into cell (row, column) leaves alone: all other cells and the tokens. */
  ghost predicate OthersKept(before: seq<byte>, after: seq<byte>, rowCount: nat, columnCount: nat, lens: seq<nat>, row: nat, column: nat)
    requires |lens| == rowCount * columnCount
  {
    && |after| == |before|
    && (TokensHold(before, rowCount, columnCount, lens) ==> TokensHold(after, rowCount, columnCount, lens))
    && forall k, c {:trigger CellAt(rowCount, columnCount, lens, k, c)} ::
         0 <= k < rowCount && 0 <= c < columnCount && (k != row || c != column) ==>
           SliceAt(after, CellAt(rowCount, columnCount, lens, k, c)) == SliceAt(before, CellAt(rowCount, columnCount, lens, k, c))
  }

  lemma WriteKeepsOthers(before: seq<byte>, rowCount: nat, columnCount: nat, lens: seq<nat>, row: nat, column: nat, data: seq<byte>)
    requires |lens| == rowCount * columnCount && row < rowCount && column < columnCount
    requires |before| == Sum(RowLengths(rowCount, columnCount, lens))
    requires |data| == CellAt(rowCount, columnCount, lens, row, column).len
    ensures CellAt(rowCount, columnCount, lens, row, column).End() <= |before|
    ensures
      var position := CellAt(rowCount, columnCount, lens, row, column);
      var after := Splice(before, position.offset, data);
      OthersKept(before, after, rowCount, columnCount, lens, row, column) && SliceAt(after, position) == data
  {
    hide Sum, RowLengths, RowStart, CellAt, Splice;
    var position := CellAt(rowCount, columnCount, lens, row, column);
    CellInRow(rowCount, columnCount, lens, row, column);
    var after := Splice(before, position.offset, data);
    SpliceWithin(before, position.offset, data);
    forall k, c | 0 <= k < rowCount && 0 <= c < columnCount && (k != row || c != column)
      ensures SliceAt(after, CellAt(rowCount, columnCount, lens, k, c)) == SliceAt(before, CellAt(rowCount, columnCount, lens, k, c))
    {
      var other := CellAt(rowCount, columnCount, lens, k, c);
      CellInRow(rowCount, columnCount, lens, k, c);
      CellsDisjoint(rowCount, columnCount, lens, row, column, k, c);
      SpliceOutside(before, position.offset, data, other.offset, other.End());
    }
    if TokensHold(before, rowCount, columnCount, lens) {
      forall k | 0 <= k < rowCount
        ensures RowStart(rowCount, columnCount, lens, k) < |after|
        ensures after[RowStart(rowCount, columnCount, lens, k)] == TDS_ROW_TOKEN
      {
        var token := RowStart(rowCount, columnCount, lens, k);
        CellsMissTokens(rowCount, columnCount, lens, row, column, k);
        SpliceOutside(before, position.offset, data, token, token + 1);
        assert after[token..token + 1][0] == before[token..token + 1][0];
      }
    }
  }

  /** `allocate_rows_payload_with_tokens`. */
  method AllocateRowsPayload(rowCount: nat, columnCount: nat, ghost lens: seq<nat>, rowTokenOffsets: seq<nat>, payloadLen: nat)
    returns (bytes: array<byte>)
    requires |lens| == rowCount * columnCount
    requires rowTokenOffsets == LayoutOf(rowCount, columnCount, lens).rowTokenOffsets
    requires payloadLen == Sum(RowLengths(rowCount, columnCount, lens))
    ensures fresh(bytes) && bytes.Length == payloadLen
    ensures TokensHold(bytes[..], rowCount, columnCount, lens)
  {
    hide Sum, RowLengths, RowStart, AllRowPositions, Flatten;
    bytes := new byte[payloadLen](_ => 0);
    forall k | 0 <= k < rowCount
      ensures RowStart(rowCount, columnCount, lens, k) < payloadLen
    {
      RowStartStep(rowCount, columnCount, lens, k);
      RowStartMonotone(rowCount, columnCount, lens, k + 1, k + 1);
    }
    for row := 0 to |rowTokenOffsets|
      invariant forall k {:trigger RowStart(rowCount, columnCount, lens, k)} :: 0 <= k < row ==>
        bytes[RowStart(rowCount, columnCount, lens, k)] == TDS_ROW_TOKEN
    {
      assert rowTokenOffsets[row] == RowStart(rowCount, columnCount, lens, row);
      bytes[rowTokenOffsets[row]] := TDS_ROW_TOKEN;
    }
  }

  // ------------------------------------------------------------ filling

  /** Tokens and the first `upTo` columns are in place. */
  ghost predicate Filled(bytes: seq<byte>, columns: seq<Column>, rowCount: nat, lens: seq<nat>, upTo: nat)
    requires Shaped(columns, rowCount) && |lens| == rowCount * |columns| && upTo <= |columns|
  {
    && |bytes| == Sum(RowLengths(rowCount, |columns|, lens))
    && TokensHold(bytes, rowCount, |columns|, lens)
    && forall k, c {:trigger CellAt(rowCount, |columns|, lens, k, c)} :: 0 <= k < rowCount && 0 <= c < upTo ==>
         CellHolds(bytes, columns[c][k], CellAt(rowCount, |columns|, lens, k, c))
  }

  ghost predicate CellHolds(bytes: seq<byte>, cell: CellOutcome, position: CellPosition) {
    cell.encoded.Ok? && SliceAt(bytes, position) == cell.encoded.value && |cell.encoded.value| == position.len
  }

  /** A cell can be filled where the layout put it. */
  ghost predicate Fillable(cell: CellOutcome, position: CellPosition) {
    cell.encoded.Ok? && |cell.encoded.value| == position.len
  }

  /** One cell's fill step: look up the position, check the length, write. */
  method FillCell(cell: CellOutcome, row: nat, c: nat, columnCount: nat, layout: RowLayout, bytes: array<byte>,
                  ghost rowCount: nat, ghost lens: seq<nat>)
    returns (r: Result<(), Error>)
    requires c < columnCount && row < rowCount && |lens| == rowCount * columnCount
    requires layout == LayoutOf(rowCount, columnCount, lens) && bytes.Length == layout.payloadLen
    modifies bytes
    ensures r.Ok? <==> Fillable(cell, CellAt(rowCount, columnCount, lens, row, c))
    ensures OthersKept(old(bytes[..]), bytes[..], rowCount, columnCount, lens, row, c)
    ensures r.Ok? ==> CellHolds(bytes[..], cell, CellAt(rowCount, columnCount, lens, row, c))
  {
    hide Sum, RowLengths, RowStart, CellAt, Splice, AllRowPositions, Flatten;
    PositionOfCell(rowCount, columnCount, lens, row, c);
    var position := layout.cellPositions[CellIndex(row, c, columnCount)];
    if cell.encoded.Err? {
      return Err(cell.encoded.error);
    }
    if |cell.encoded.value| != position.len {
      return Err(InvalidPayload());
    }
    WriteKeepsOthers(bytes[..], rowCount, columnCount, lens, row, c, cell.encoded.value);
    WriteAt(bytes, position.offset, cell.encoded.value);
    return Ok(());
  }

  /** `fill_column` of the general route. */
  method FillColumn(columns: seq<Column>, c: nat, rowCount: nat, layout: RowLayout, bytes: array<byte>, ghost lens: seq<nat>)
    returns (r: Result<(), Error>)
    requires Shaped(columns, rowCount) && c < |columns| && |lens| == rowCount * |columns|
    requires layout == LayoutOf(rowCount, |columns|, lens) && bytes.Length == layout.payloadLen
    requires Filled(bytes[..], columns, rowCount, lens, c)
    modifies bytes
    ensures r.Ok? <==> forall k {:trigger CellAt(rowCount, |columns|, lens, k, c)} :: 0 <= k < rowCount ==>
      Fillable(columns[c][k], CellAt(rowCount, |columns|, lens, k, c))
    ensures r.Ok? ==> Filled(bytes[..], columns, rowCount, lens, c + 1)
  {
    hide Sum, RowLengths, RowStart, CellAt, AllRowPositions, Flatten, SliceAt, TokensHold;
    var columnCount := |columns|;
    for row := 0 to rowCount
      invariant Filled(bytes[..], columns, rowCount, lens, c)
      invariant forall k {:trigger CellAt(rowCount, columnCount, lens, k, c)} :: 0 <= k < row ==>
        CellHolds(bytes[..], columns[c][k], CellAt(rowCount, columnCount, lens, k, c))
    {
      var done := FillCell(columns[c][row], row, c, columnCount, layout, bytes, rowCount, lens);
      if done.Err? {
        return Err(done.error);
      }
    }
    return Ok(());
  }

  /** `BoundDirectBatch::fill_columns`: succeeds exactly when every encoded cell has
      the length the layout reserved for it. */
  method FillColumns(columns: seq<Column>, rowCount: nat, layout: RowLayout, bytes: array<byte>, ghost lens: seq<nat>)
    returns (r: Result<(), Error>)
    requires Shaped(columns, rowCount) && |lens| == rowCount * |columns|
    requires layout == LayoutOf(rowCount, |columns|, lens) && bytes.Length == layout.payloadLen
    requires Filled(bytes[..], columns, rowCount, lens, 0)
    modifies bytes
    ensures r.Ok? <==> AllFillable(columns, rowCount, lens)
    ensures r.Ok? ==> Filled(bytes[..], columns, rowCount, lens, |columns|)
  {
    hide Sum, RowLengths, RowStart, CellAt, AllRowPositions, Flatten, SliceAt, TokensHold;
    for c := 0 to |columns|
      invariant Filled(bytes[..], columns, rowCount, lens, c)
      invariant forall k, c' {:trigger CellAt(rowCount, |columns|, lens, k, c')} :: 0 <= k < rowCount && 0 <= c' < c ==>
        Fillable(columns[c'][k], CellAt(rowCount, |columns|, lens, k, c'))
    {
      var done := FillColumn(columns, c, rowCount, layout, bytes, lens);
      if done.Err? {
        return Err(done.error);
      }
    }
    return Ok(());
  }

  ghost predicate AllFillable(columns: seq<Column>, rowCount: nat, lens: seq<nat>)
    requires Shaped(columns, rowCount) && |lens| == rowCount * |columns|
  {
    forall k, c {:trigger CellAt(rowCount, |columns|, lens, k, c)} :: 0 <= k < rowCount && 0 <= c < |columns| ==>
      Fillable(columns[c][k], CellAt(rowCount, |columns|, lens, k, c))
  }

  // ------------------------------------- a filled buffer is the payload

  /** The reserved length of a cell is its entry in the length matrix. */
  lemma RowCellAt(lens: seq<nat>, rowCount: nat, columnCount: nat, row: nat, c: nat)
    requires |lens| == rowCount * columnCount && row < rowCount && c < columnCount
    ensures CellIndex(row, c, columnCount) < |lens|
    ensures CellAt(rowCount, columnCount, lens, row, c).len == lens[CellIndex(row, c, columnCount)]
  {
    hide Sum, RowStart;
    CellIndexBound(row, c, rowCount, columnCount);
    RowsInMatrix(row, rowCount, columnCount);
  }

  ghost function RowSegments(columns: seq<Column>, rowCount: nat, row: nat): (r: seq<seq<byte>>)
    requires Ready(columns, rowCount) && row < rowCount
    ensures |r| == 1 + |columns|
    ensures Flatten(r) == RowBytes(columns, rowCount, row)
  {
    var r := [[0xD1]] + EncodedCells(columns, rowCount, row);
    assert r[1..] == EncodedCells(columns, rowCount, row);
    r
  }

  lemma RowSegmentLengths(columns: seq<Column>, rowCount: nat, lens: seq<nat>, row: nat)
    requires Ready(columns, rowCount) && |lens| == rowCount * |columns| && row < rowCount
    requires AllFillable(columns, rowCount, lens)
    ensures (row + 1) * |columns| <= |lens|
    ensures Lengths(RowSegments(columns, rowCount, row)) == [1] + RowCells(lens, |columns|, row)
  {
    hide Sum, RowStart, Flatten;
    RowsInMatrix(row, rowCount, |columns|);
    var all := Lengths(RowSegments(columns, rowCount, row));
    forall c | 0 <= c < |columns| ensures all[c + 1] == RowCells(lens, |columns|, row)[c] {
      assert Fillable(columns[c][row], CellAt(rowCount, |columns|, lens, row, c));
    }
  }

  lemma SegmentStart(cells: seq<nat>, c: nat)
    requires c <= |cells|
    ensures Sum(([1] + cells)[..c + 1]) == 1 + Sum(cells[0..c])
  {
    assert ([1] + cells)[..c + 1] == [1] + cells[0..c];
    assert ([1] + cells[0..c])[1..] == cells[0..c];
  }

  lemma RowFilled(bytes: seq<byte>, columns: seq<Column>, rowCount: nat, lens: seq<nat>, row: nat)
    requires Ready(columns, rowCount) && |lens| == rowCount * |columns| && row < rowCount
    requires Filled(bytes, columns, rowCount, lens, |columns|)
    ensures RowStart(rowCount, |columns|, lens, row) <= RowStart(rowCount, |columns|, lens, row + 1) <= |bytes|
    ensures bytes[RowStart(rowCount, |columns|, lens, row)..RowStart(rowCount, |columns|, lens, row + 1)]
            == RowBytes(columns, rowCount, row)
  {
    hide Sum, RowStart, Flatten, RowLengths, RowBytes, EncodedCells;
    var columnCount := |columns|;
    FilledIsFillable(bytes, columns, rowCount, lens);
    RowStartStep(rowCount, columnCount, lens, row);
    RowStartMonotone(rowCount, columnCount, lens, row + 1, row + 1);
    RowSegmentLengths(columns, rowCount, lens, row);
    var cells := RowCells(lens, columnCount, row);
    var segments := RowSegments(columns, rowCount, row);
    var start := RowStart(rowCount, columnCount, lens, row);
    var slice := bytes[start..RowStart(rowCount, columnCount, lens, row + 1)];
    SegmentStart(cells, columnCount);
    assert cells[0..columnCount] == cells;
    assert ([1] + cells)[..columnCount + 1] == [1] + cells;
    forall i | 0 <= i < |segments|
      ensures Sum(Lengths(segments)[..i]) + |segments[i]| <= |slice|
      ensures slice[Sum(Lengths(segments)[..i])..Sum(Lengths(segments)[..i]) + |segments[i]|] == segments[i]
    {
      RowSegmentInPlace(bytes, columns, rowCount, lens, row, i);
    }
    SegmentsDetermine(slice, segments);
  }

  lemma RowSegmentInPlace(bytes: seq<byte>, columns: seq<Column>, rowCount: nat, lens: seq<nat>, row: nat, i: nat)
    requires Ready(columns, rowCount) && |lens| == rowCount * |columns| && row < rowCount && i <= |columns|
    requires Filled(bytes, columns, rowCount, lens, |columns|)
    ensures RowStart(rowCount, |columns|, lens, row) <= RowStart(rowCount, |columns|, lens, row + 1) <= |bytes|
    ensures
      var slice := bytes[RowStart(rowCount, |columns|, lens, row)..RowStart(rowCount, |columns|, lens, row + 1)];
      var segments := RowSegments(columns, rowCount, row);
      var at := Sum(Lengths(segments)[..i]);
      at + |segments[i]| <= |slice| && slice[at..at + |segments[i]|] == segments[i]
  {
    hide Sum, RowStart, Flatten, RowLengths;
    var columnCount := |columns|;
    FilledIsFillable(bytes, columns, rowCount, lens);
    RowStartStep(rowCount, columnCount, lens, row);
    RowStartMonotone(rowCount, columnCount, lens, row + 1, row + 1);
    RowSegmentLengths(columns, rowCount, lens, row);
    var start := RowStart(rowCount, columnCount, lens, row);
    if i == 0 {
      SumNone(Lengths(RowSegments(columns, rowCount, row)), 0);
      assert bytes[start] == TDS_ROW_TOKEN;
    } else {
      var c := i - 1;
      SegmentStart(RowCells(lens, columnCount, row), c);
      var position := CellAt(rowCount, columnCount, lens, row, c);
      CellInRow(rowCount, columnCount, lens, row, c);
      assert CellHolds(bytes, columns[c][row], position);
      var at := 1 + Sum(RowCells(lens, columnCount, row)[0..c]);
      assert position.offset == start + at;
      SliceOfSlice(bytes, start, RowStart(rowCount, columnCount, lens, row + 1), at, at + position.len);
    }
  }

  lemma SliceOfSlice(bytes: seq<byte>, lo: nat, hi: nat, i: nat, j: nat)
    requires lo <= hi <= |bytes| && i <= j <= hi - lo
    ensures bytes[lo..hi][i..j] == bytes[lo + i..lo + j]
  {
    var inner, outer := bytes[lo..hi][i..j], bytes[lo + i..lo + j];
    assert |inner| == |outer|;
    forall k | 0 <= k < |inner| ensures inner[k] == outer[k] {
      assert inner[k] == bytes[lo + i + k];
    }
  }

  lemma FilledIsFillable(bytes: seq<byte>, columns: seq<Column>, rowCount: nat, lens: seq<nat>)
    requires Shaped(columns, rowCount) && |lens| == rowCount * |columns|
    requires Filled(bytes, columns, rowCount, lens, |columns|)
    ensures AllFillable(columns, rowCount, lens)
  {
    hide Sum, RowStart, Flatten, RowLengths, CellAt, SliceAt, TokensHold;
  }

  lemma RowBytesLengths(columns: seq<Column>, rowCount: nat, lens: seq<nat>)
    requires Ready(columns, rowCount) && |lens| == rowCount * |columns|
    requires AllFillable(columns, rowCount, lens)
    ensures Lengths(RowsBytes(columns, rowCount, 0, rowCount)) == RowLengths(rowCount, |columns|, lens)
  {
    hide Sum, Flatten, RowStart;
    forall k | 0 <= k < rowCount
      ensures Lengths(RowsBytes(columns, rowCount, 0, rowCount))[k] == RowLengths(rowCount, |columns|, lens)[k]
    {
      RowBytesLength(columns, rowCount, lens, k);
      RowLengthsAt(rowCount, |columns|, lens, k);
    }
  }

  lemma RowBytesLength(columns: seq<Column>, rowCount: nat, lens: seq<nat>, row: nat)
    requires Ready(columns, rowCount) && |lens| == rowCount * |columns| && row < rowCount
    requires AllFillable(columns, rowCount, lens)
    ensures (row + 1) * |columns| <= |lens|
    ensures |RowBytes(columns, rowCount, row)| == RowLength(lens, |columns|, row)
  {
    hide Sum, Flatten, RowStart, RowBytes;
    var segments := RowSegments(columns, rowCount, row);
    var cells := RowCells(lens, |columns|, row);
    RowSegmentLengths(columns, rowCount, lens, row);
    FlattenLength(segments);
    SegmentStart(cells, |columns|);
    assert cells[0..|columns|] == cells;
    assert ([1] + cells)[..|columns| + 1] == [1] + cells;
  }

  /** Column-major filling yields the row-major concatenation: every byte of the
      buffer belongs to exactly one row token or cell. */
  lemma FilledIsPayload(bytes: seq<byte>, columns: seq<Column>, rowCount: nat, lens: seq<nat>)
    requires Ready(columns, rowCount) && |lens| == rowCount * |columns|
    requires Filled(bytes, columns, rowCount, lens, |columns|)
    ensures bytes == PayloadOf(columns, rowCount, 0, rowCount)
  {
    hide Sum, Flatten, RowLengths, RowBytes;
    FilledIsFillable(bytes, columns, rowCount, lens);
    RowBytesLengths(columns, rowCount, lens);
    var rows := RowsBytes(columns, rowCount, 0, rowCount);
    var lengths := RowLengths(rowCount, |columns|, lens);
    forall k | 0 <= k < rowCount
      ensures Sum(Lengths(rows)[..k]) + |rows[k]| <= |bytes|
      ensures bytes[Sum(Lengths(rows)[..k])..Sum(Lengths(rows)[..k]) + |rows[k]|] == rows[k]
    {
      RowFilled(bytes, columns, rowCount, lens, k);
      SumStep(lengths, 0, k);
      assert lengths[..k] == lengths[0..k];
    }
    SegmentsDetermine(bytes, rows);
  }
}
