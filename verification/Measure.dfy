/** Measured direct batches: checked row sums and the greedy byte-capped split
    of the rows into ranges (src/write/direct/measure.rs). */
module Measure {
  import opened Basics
  import opened Errors

  /** A contiguous run of measured rows. */
  datatype RowRange = RowRange(start: nat, len: nat) {
    function End(): nat { start + len }
  }

  // ------------------------------------------------------- specification

  /** The cells of one row of a row-major length matrix. */
  function RowCells(cellLengths: seq<nat>, columnCount: nat, row: nat): seq<nat>
    requires (row + 1) * columnCount <= |cellLengths|
  {
    cellLengths[row * columnCount..row * columnCount + columnCount]
  }

  /** A row is its token byte and its cells. */
  function RowLength(cellLengths: seq<nat>, columnCount: nat, row: nat): nat
    requires (row + 1) * columnCount <= |cellLengths|
  {
    1 + Sum(RowCells(cellLengths, columnCount, row))
  }

  lemma RowsInMatrix(row: nat, rowCount: nat, columnCount: nat)
    requires row < rowCount
    ensures (row + 1) * columnCount <= rowCount * columnCount
  {
  }

  function RowLengths(rowCount: nat, columnCount: nat, cellLengths: seq<nat>): (r: seq<nat>)
    requires |cellLengths| == rowCount * columnCount
    ensures |r| == rowCount
  {
    seq(rowCount, row requires 0 <= row < rowCount =>
      RowsInMatrix(row, rowCount, columnCount);
      RowLength(cellLengths, columnCount, row))
  }

  lemma RowLengthsAt(rowCount: nat, columnCount: nat, cellLengths: seq<nat>, row: nat)
    requires |cellLengths| == rowCount * columnCount && row < rowCount
    ensures (row + 1) * columnCount <= |cellLengths|
    ensures RowLengths(rowCount, columnCount, cellLengths)[row] == RowLength(cellLengths, columnCount, row)
  {
    RowsInMatrix(row, rowCount, columnCount);
  }

  /** The first `k` rows take one token byte each and every cell before them. */
  lemma {:induction false} RowPrefixTotal(rowCount: nat, columnCount: nat, cellLengths: seq<nat>, k: nat)
    requires |cellLengths| == rowCount * columnCount && k <= rowCount
    ensures k * columnCount <= |cellLengths|
    ensures Sum(RowLengths(rowCount, columnCount, cellLengths)[0..k]) == k + Sum(cellLengths[0..k * columnCount])
  {
    hide Sum;
    var lens := RowLengths(rowCount, columnCount, cellLengths);
    if k == 0 {
      SumNone(lens, 0);
      SumNone(cellLengths, 0);
    } else {
      RowPrefixTotal(rowCount, columnCount, cellLengths, k - 1);
      RowLengthsAt(rowCount, columnCount, cellLengths, k - 1);
      var at := (k - 1) * columnCount;
      assert k * columnCount == at + columnCount;
      SumStep(lens, 0, k - 1);
      SumSplit(cellLengths, 0, at, at + columnCount);
    }
  }

  lemma PayloadTotal(rowCount: nat, columnCount: nat, cellLengths: seq<nat>)
    requires |cellLengths| == rowCount * columnCount
    ensures Sum(RowLengths(rowCount, columnCount, cellLengths)) == rowCount + Sum(cellLengths)
  {
    RowPrefixTotal(rowCount, columnCount, cellLengths, rowCount);
    var lens := RowLengths(rowCount, columnCount, cellLengths);
    assert lens[0..rowCount] == lens;
    assert cellLengths[0..rowCount * columnCount] == cellLengths;
  }

  // ------------------------------------------------------ measured batch

  datatype MeasuredDirectBatch = MeasuredDirectBatch(
    rowCount: nat,
    columnCount: nat,
    cellLengths: seq<nat>,
    rowLengths: seq<nat>,
    payloadLen: nat)
  {
    ghost predicate Valid() {
      && |cellLengths| == rowCount * columnCount
      && rowLengths == RowLengths(rowCount, columnCount, cellLengths)
      && payloadLen == Sum(rowLengths)
      && payloadLen <= USIZE_MAX
      && rowCount * columnCount <= USIZE_MAX
    }

    static function Empty(columnCount: nat): (m: MeasuredDirectBatch)
      ensures m.Valid() && m.payloadLen == 0
    {
      MeasuredDirectBatch(0, columnCount, [], [], 0)
    }

    /** `check_range`. */
    function CheckRange(startRow: nat, count: nat): Result<nat, Error> {
      match CheckedAdd(startRow, count)
      case None => Err(InvalidPayload())
      case Some(end) => if end > rowCount then Err(InvalidPayload()) else Ok(end)
    }

    /** `range_payload_len`: a checked fold over the range's row lengths. */
    function RangePayloadLen(startRow: nat, count: nat): Result<nat, Error>
      requires |rowLengths| == rowCount
    {
      match CheckRange(startRow, count)
      case Err(e) => Err(e)
      case Ok(end) => FoldLengths(rowLengths[startRow..end], 0)
    }

    /** `cell_len`. */
    function CellLen(row: nat, column: nat): Result<nat, Error> {
      match CheckRange(row, 1)
      case Err(e) => Err(e)
      case Ok(_) =>
        if column >= columnCount then Err(InvalidPayload())
        else match CheckedMul(row, columnCount)
          case None => Err(InvalidPayload())
          case Some(base) =>
            match CheckedAdd(base, column)
            case None => Err(InvalidPayload())
            case Some(index) => if index < |cellLengths| then Ok(cellLengths[index]) else Err(InvalidPayload())
    }
  }

  function FoldLengths(lens: seq<nat>, total: nat): Result<nat, Error> {
    if |lens| == 0 then Ok(total)
    else match CheckedAdd(total, lens[0])
      case None => Err(InvalidPayload())
      case Some(next) => FoldLengths(lens[1..], next)
  }

  lemma {:induction false} FoldIsSum(lens: seq<nat>, total: nat)
    ensures FoldLengths(lens, total) ==
      if total + Sum(lens) <= USIZE_MAX || |lens| == 0 then Ok(total + Sum(lens)) else Err(InvalidPayload())
  {
    if |lens| != 0 && total + lens[0] <= USIZE_MAX {
      FoldIsSum(lens[1..], total + lens[0]);
    }
  }

  /** The inner loop of `measure_row_lengths`: token byte plus the row's cells. */
  method MeasureRowLength(columnCount: nat, cellLengths: seq<nat>, row: nat) returns (r: Option<nat>)
    requires (row + 1) * columnCount <= |cellLengths|
    ensures r == if RowLength(cellLengths, columnCount, row) <= USIZE_MAX
                 then Some(RowLength(cellLengths, columnCount, row)) else None
  {
    ghost var cells := RowCells(cellLengths, columnCount, row);
    var base := row * columnCount;
    assert (row + 1) * columnCount == base + columnCount;
    assert cells[0..columnCount] == cells;
    var rowLen: nat := 1;
    for column := 0 to columnCount
      invariant rowLen == 1 + Sum(cells[0..column])
      invariant rowLen <= USIZE_MAX
    {
      SumStep(cells, 0, column);
      SumWindow(cells, 0, 0, column + 1, columnCount);
      var next := CheckedAdd(rowLen, cellLengths[base + column]);
      if next.None? {
        return None;
      }
      rowLen := next.value;
    }
    return Some(rowLen);
  }

  /** `measure_row_lengths`: overflow is reported exactly when the whole payload
      does not fit a `usize`, whichever intermediate sum meets the limit first. */
  method MeasureRowLengths(rowCount: nat, columnCount: nat, cellLengths: seq<nat>)
    returns (r: Result<(seq<nat>, nat), Error>)
    requires |cellLengths| == rowCount * columnCount
    ensures r.Ok? <==> rowCount + Sum(cellLengths) <= USIZE_MAX
    ensures r.Err? ==> r.error == InvalidPayload()
    ensures r.Ok? ==> r.value.0 == RowLengths(rowCount, columnCount, cellLengths)
                      && r.value.1 == Sum(RowLengths(rowCount, columnCount, cellLengths))
  {
    ghost var spec := RowLengths(rowCount, columnCount, cellLengths);
    PayloadTotal(rowCount, columnCount, cellLengths);
    assert spec[0..rowCount] == spec;
    var rowLengths: seq<nat> := [];
    var payloadLen: nat := 0;
    for row := 0 to rowCount
      invariant rowLengths == spec[0..row]
      invariant payloadLen == Sum(spec[0..row]) <= USIZE_MAX
    {
      RowLengthsAt(rowCount, columnCount, cellLengths, row);
      SumStep(spec, 0, row);
      SumWindow(spec, 0, 0, row + 1, rowCount);
      var rowLen := MeasureRowLength(columnCount, cellLengths, row);
      if rowLen.None? {
        return Err(InvalidPayload());
      }
      var total := CheckedAdd(payloadLen, rowLen.value);
      if total.None? {
        return Err(InvalidPayload());
      }
      payloadLen := total.value;
      rowLengths := rowLengths + [rowLen.value];
    }
    return Ok((rowLengths, payloadLen));
  }

  /** `MeasuredDirectBatch::new` succeeds exactly when the cell count matches the
      shape without overflow and token bytes plus cells fit a `usize`. */
  method New(rowCount: nat, columnCount: nat, cellLengths: seq<nat>)
    returns (r: Result<MeasuredDirectBatch, Error>)
    ensures r.Ok? <==>
      rowCount * columnCount <= 0xFFFF_FFFF_FFFF_FFFF &&
      |cellLengths| == rowCount * columnCount &&
      rowCount + Sum(cellLengths) <= 0xFFFF_FFFF_FFFF_FFFF
    ensures r.Err? ==> r.error == InvalidPayload()
    ensures r.Ok? ==>
      r.value.Valid() && r.value.rowCount == rowCount && r.value.columnCount == columnCount
      && r.value.cellLengths == cellLengths && r.value.payloadLen == rowCount + Sum(cellLengths)
  {
    var expected := CheckedMul(rowCount, columnCount);
    if expected.None? || |cellLengths| != expected.value {
      return Err(InvalidPayload());
    }
    PayloadTotal(rowCount, columnCount, cellLengths);
    var lengths := MeasureRowLengths(rowCount, columnCount, cellLengths);
    match lengths {
      case Err(e) => return Err(e);
      case Ok(pair) =>
        return Ok(MeasuredDirectBatch(rowCount, columnCount, cellLengths, pair.0, pair.1));
    }
  }

  // --------------------------------------------------------- row ranges

  /** Where range `i` has to start: at the end of its predecessor. */
  function Boundary(ranges: seq<RowRange>, i: nat): nat
    requires i <= |ranges|
  {
    if i == 0 then 0 else ranges[i - 1].End()
  }

  ghost predicate Contiguous(ranges: seq<RowRange>) {
    forall i {:trigger Boundary(ranges, i)} :: 0 <= i < |ranges| ==>
      ranges[i].len > 0 && ranges[i].start == Boundary(ranges, i)
  }

  /** Contiguous non-empty ranges from row 0 to row `n`. */
  ghost predicate Partition(ranges: seq<RowRange>, n: nat) {
    Contiguous(ranges) && Boundary(ranges, |ranges|) == n
  }

  /** Within the limit, or one row that no split can make smaller. */
  ghost predicate Fits(lens: seq<nat>, range: RowRange, limit: nat)
    requires range.End() <= |lens|
  {
    range.len == 1 || Sum(lens[range.start..range.End()]) <= limit
  }

  ghost predicate Feasible(ranges: seq<RowRange>, lens: seq<nat>, limit: nat) {
    && Partition(ranges, |lens|)
    && forall i :: 0 <= i < |ranges| ==> ranges[i].End() <= |lens| && Fits(lens, ranges[i], limit)
  }

  /** Ranges that were closed because the next row would have passed the limit. */
  ghost predicate Closed(ranges: seq<RowRange>, lens: seq<nat>, limit: nat) {
    forall i :: 0 <= i < |ranges| ==>
      ranges[i].End() < |lens| && Fits(lens, ranges[i], limit)
      && Sum(lens[ranges[i].start..ranges[i].End() + 1]) > limit
  }

  lemma PushKeepsContiguous(ranges: seq<RowRange>, range: RowRange)
    requires Contiguous(ranges) && range.len > 0 && range.start == Boundary(ranges, |ranges|)
    ensures Contiguous(ranges + [range]) && Boundary(ranges + [range], |ranges| + 1) == range.End()
  {
    var all := ranges + [range];
    forall i | 0 <= i < |all| ensures all[i].len > 0 && all[i].start == Boundary(all, i) {
      if i < |ranges| {
        assert all[i] == ranges[i] && Boundary(all, i) == Boundary(ranges, i);
      }
    }
  }

  /** A feasible split in which no range could have taken its successor's first row. */
  ghost predicate Greedy(ranges: seq<RowRange>, lens: seq<nat>, limit: nat) {
    && Feasible(ranges, lens, limit)
    && forall i :: 0 <= i < |ranges| - 1 ==>
         ranges[i].End() < |lens| && Sum(lens[ranges[i].start..ranges[i].End() + 1]) > limit
  }

  /** Where the scan stands: closed ranges, then the open one. */
  ghost predicate Scanned(ranges: seq<RowRange>, open: RowRange, lens: seq<nat>, limit: nat) {
    && open.End() <= |lens|
    && Contiguous(ranges) && open.start == Boundary(ranges, |ranges|)
    && Closed(ranges, lens, limit)
    && (open.len > 0 ==> Fits(lens, open, limit))
  }

  lemma ScanExtends(ranges: seq<RowRange>, open: RowRange, lens: seq<nat>, limit: nat)
    requires Scanned(ranges, open, lens, limit) && open.End() < |lens|
    requires open.len == 0 || Sum(lens[open.start..open.End() + 1]) <= limit
    ensures Scanned(ranges, RowRange(open.start, open.len + 1), lens, limit)
  {
    hide Sum;
  }

  lemma ScanCloses(ranges: seq<RowRange>, open: RowRange, lens: seq<nat>, limit: nat)
    requires Scanned(ranges, open, lens, limit) && open.End() < |lens|
    requires open.len > 0 && Sum(lens[open.start..open.End() + 1]) > limit
    ensures Scanned(ranges + [open], RowRange(open.End(), 1), lens, limit)
  {
    hide Sum;
    PushKeepsContiguous(ranges, open);
  }

  lemma ScanEndsOpen(ranges: seq<RowRange>, open: RowRange, all: seq<RowRange>, lens: seq<nat>, limit: nat)
    requires Scanned(ranges, open, lens, limit) && open.End() == |lens| && open.len > 0
    requires all == ranges + [open]
    ensures Greedy(all, lens, limit)
  {
    hide Sum, Fits, Contiguous;
    PushKeepsContiguous(ranges, open);
    assert Partition(all, |lens|);
    forall i | 0 <= i < |all|
      ensures all[i].End() <= |lens| && Fits(lens, all[i], limit)
      ensures i < |all| - 1 ==> all[i].End() < |lens| && Sum(lens[all[i].start..all[i].End() + 1]) > limit
    {
      if i < |ranges| {
        assert all[i] == ranges[i];
      }
    }
  }

  lemma EmptyGreedy(limit: nat)
    ensures Greedy([], [], limit)
  {
  }

  lemma ScanEndsClosed(ranges: seq<RowRange>, lens: seq<nat>, limit: nat)
    requires Scanned(ranges, RowRange(|lens|, 0), lens, limit)
    ensures |ranges| == 0 && |lens| == 0
  {
    hide Sum, Fits, Contiguous;
  }

  /** The open range's bytes after one more row stay below the payload length. */
  lemma RunningBytes(lens: seq<nat>, start: nat, row: nat)
    requires start <= row < |lens|
    ensures Sum(lens[start..row + 1]) == Sum(lens[start..row]) + lens[row] <= Sum(lens)
    ensures Sum(lens[row..row + 1]) == lens[row]
  {
    hide Sum;
    SumStep(lens, start, row);
    SumOne(lens, row);
    SumWindow(lens, 0, start, row + 1, |lens|);
    assert lens[0..|lens|] == lens;
  }

  /** `row_ranges`. The overflow branch inside the loop is dead for a measured
      batch: the only error left is the zero limit. */
  method RowRanges(m: MeasuredDirectBatch, limit: nat) returns (r: Result<seq<RowRange>, Error>)
    requires m.payloadLen == Sum(m.rowLengths) && m.payloadLen <= USIZE_MAX
    ensures r.Ok? <==> limit > 0
    ensures r.Ok? ==> Greedy(r.value, m.rowLengths, limit)
  {
    hide Sum, Fits, Contiguous, Closed, Greedy, Scanned, Boundary, Partition, Feasible;
    if limit == 0 {
      return Err(InvalidPayload());
    }
    var lens := m.rowLengths;
    SumNone(lens, 0);
    var ranges: seq<RowRange> := [];
    var start, len, bytes := 0, 0, 0;
    EmptyScan(lens, limit);
    for row := 0 to |lens|
      invariant start + len == row
      invariant bytes == Sum(lens[start..row])
      invariant Scanned(ranges, RowRange(start, len), lens, limit)
    {
      var rowLen := lens[row];
      RunningBytes(lens, start, row);
      var next := CheckedAdd(bytes, rowLen);
      if next.None? {
        assert false;
        return Err(InvalidPayload());
      }
      if len > 0 && next.value > limit {
        ScanCloses(ranges, RowRange(start, len), lens, limit);
        ranges := ranges + [RowRange(start, len)];
        start := row;
        len := 0;
        bytes := rowLen;
      } else {
        ScanExtends(ranges, RowRange(start, len), lens, limit);
        bytes := next.value;
      }
      len := len + 1;
    }
    if len > 0 {
      ScanEndsOpen(ranges, RowRange(start, len), ranges + [RowRange(start, len)], lens, limit);
      ranges := ranges + [RowRange(start, len)];
    } else {
      ScanEndsClosed(ranges, lens, limit);
      EmptyGreedy(limit);
    }
    return Ok(ranges);
  }

  lemma EmptyScan(lens: seq<nat>, limit: nat)
    ensures Scanned([], RowRange(0, 0), lens, limit)
  {
  }

  lemma {:induction false} PartitionEnds(ranges: seq<RowRange>, n: nat, i: nat)
    requires Partition(ranges, n) && i < |ranges|
    ensures ranges[i].start == Boundary(ranges, i) && ranges[i].start < ranges[i].End() <= n
    ensures i < |ranges| - 1 ==> ranges[i].End() < n
    decreases |ranges| - i
  {
    assert Boundary(ranges, |ranges|) == n;
    if i < |ranges| - 1 {
      PartitionEnds(ranges, n, i + 1);
      assert Boundary(ranges, i + 1) == ranges[i].End();
    }
  }

  /** Greedy stays ahead: its i-th range ends no earlier than that of any other
      feasible split. */
  lemma {:induction false} GreedyStaysAhead(g: seq<RowRange>, s: seq<RowRange>, lens: seq<nat>, limit: nat, i: nat)
    requires Greedy(g, lens, limit) && Feasible(s, lens, limit)
    requires i < |g| && i < |s|
    ensures s[i].End() <= g[i].End()
  {
    hide Sum;
    if i > 0 {
      GreedyStaysAhead(g, s, lens, limit, i - 1);
    }
    assert Boundary(s, i) <= Boundary(g, i);
    if g[i].End() < s[i].End() {
      PartitionEnds(s, |lens|, i);
      assert i < |g| - 1;
      SumWindow(lens, s[i].start, g[i].start, g[i].End() + 1, s[i].End());
      assert false;
    }
  }

  /** A split that never falls behind another needs no more ranges. */
  lemma AheadIsNoLonger(g: seq<RowRange>, s: seq<RowRange>, n: nat)
    requires Partition(g, n) && Partition(s, n)
    requires forall i :: 0 <= i < |g| && i < |s| ==> s[i].End() <= g[i].End()
    ensures |g| <= |s|
  {
    if |s| < |g| {
      assert |s| > 0 ==> s[|s| - 1].End() <= g[|s| - 1].End();
      PartitionEnds(g, n, |s|);
    }
  }

  /** No feasible split of the rows uses fewer ranges. */
  lemma GreedyIsOptimal(g: seq<RowRange>, s: seq<RowRange>, lens: seq<nat>, limit: nat)
    requires Greedy(g, lens, limit) && Feasible(s, lens, limit)
    ensures |g| <= |s|
  {
    hide Sum, Fits;
    forall i | 0 <= i < |g| && i < |s| ensures s[i].End() <= g[i].End() {
      GreedyStaysAhead(g, s, lens, limit, i);
    }
    AheadIsNoLonger(g, s, |lens|);
  }

  /** The greedy properties leave only one split. */
  lemma {:induction false} GreedyPrefixUnique(g: seq<RowRange>, h: seq<RowRange>, lens: seq<nat>, limit: nat, i: nat)
    requires Greedy(g, lens, limit) && Greedy(h, lens, limit)
    requires i <= |g| && i <= |h|
    ensures g[..i] == h[..i]
  {
    if i > 0 {
      GreedyPrefixUnique(g, h, lens, limit, i - 1);
      GreedyStaysAhead(g, h, lens, limit, i - 1);
      GreedyStaysAhead(h, g, lens, limit, i - 1);
      assert i > 1 ==> g[..i - 1][i - 2] == h[..i - 1][i - 2];
      assert Boundary(g, i - 1) == Boundary(h, i - 1);
      assert g[i - 1] == h[i - 1];
      assert g[..i] == g[..i - 1] + [g[i - 1]];
      assert h[..i] == h[..i - 1] + [h[i - 1]];
    }
  }

  lemma GreedyUnique(g: seq<RowRange>, h: seq<RowRange>, lens: seq<nat>, limit: nat)
    requires Greedy(g, lens, limit) && Greedy(h, lens, limit)
    ensures g == h
  {
    GreedyIsOptimal(g, h, lens, limit);
    GreedyIsOptimal(h, g, lens, limit);
    GreedyPrefixUnique(g, h, lens, limit, |g|);
    assert g[..|g|] == g && h[..|h|] == h;
  }

  // --------------------------------------------- dead overflow branches

  lemma {:induction false} CountAtMostSum(lens: seq<nat>)
    requires forall i :: 0 <= i < |lens| ==> lens[i] >= 1
    ensures |lens| <= Sum(lens)
  {
    if |lens| != 0 {
      CountAtMostSum(lens[1..]);
    }
  }

  /** A measured batch has no more rows than payload bytes. */
  lemma RowCountFits(m: MeasuredDirectBatch)
    requires m.Valid()
    ensures m.rowCount <= m.payloadLen
  {
    forall i | 0 <= i < |m.rowLengths| ensures m.rowLengths[i] >= 1 {
      RowLengthsAt(m.rowCount, m.columnCount, m.cellLengths, i);
    }
    CountAtMostSum(m.rowLengths);
  }

  /** Inside the batch `range_payload_len` never overflows and is the byte count
      of the range; outside it always fails. */
  lemma RangePayloadLenExact(m: MeasuredDirectBatch, startRow: nat, count: nat)
    requires m.Valid()
    ensures m.RangePayloadLen(startRow, count) ==
      if startRow + count <= m.rowCount then Ok(Sum(m.rowLengths[startRow..startRow + count])) else Err(InvalidPayload())
  {
    RowCountFits(m);
    if startRow + count <= m.rowCount {
      var end := startRow + count;
      SumWindow(m.rowLengths, 0, startRow, end, m.rowCount);
      assert m.rowLengths[0..m.rowCount] == m.rowLengths;
      FoldIsSum(m.rowLengths[startRow..end], 0);
    }
  }

  /** `cell_len` inside the matrix is the measured length; outside it fails. The
      index computation overflows nowhere that the cell vector can reach. */
  lemma CellLenExact(m: MeasuredDirectBatch, row: nat, column: nat)
    requires m.Valid()
    ensures row < m.rowCount && column < m.columnCount ==>
      CellIndex(row, column, m.columnCount) < |m.cellLengths| &&
      m.CellLen(row, column) == Ok(m.cellLengths[CellIndex(row, column, m.columnCount)])
    ensures row >= m.rowCount || column >= m.columnCount ==> m.CellLen(row, column) == Err(InvalidPayload())
  {
    RowCountFits(m);
    if row < m.rowCount && column < m.columnCount {
      CellIndexBound(row, column, m.rowCount, m.columnCount);
    }
  }

  /** The byte count of each range. */
  function RangeBytes(ranges: seq<RowRange>, lens: seq<nat>): (r: seq<nat>)
    requires forall j :: 0 <= j < |ranges| ==> ranges[j].End() <= |lens|
    ensures |r| == |ranges|
  {
    seq(|ranges|, j requires 0 <= j < |ranges| =>
      var range := ranges[j];
      assert range.End() <= |lens|;
      Sum(lens[range.start..range.End()]))
  }

  /** The bytes before boundary `i` are the earlier ranges' bytes. */
  lemma {:induction false} RangeBytesPrefix(ranges: seq<RowRange>, lens: seq<nat>, i: nat)
    requires Partition(ranges, |lens|) && i <= |ranges|
    ensures forall j :: 0 <= j < |ranges| ==> ranges[j].End() <= |lens|
    ensures Boundary(ranges, i) <= |lens|
    ensures Sum(RangeBytes(ranges, lens)[0..i]) == Sum(lens[0..Boundary(ranges, i)])
  {
    hide Sum;
    forall j | 0 <= j < |ranges| ensures ranges[j].End() <= |lens| { PartitionEnds(ranges, |lens|, j); }
    SumNone(RangeBytes(ranges, lens), 0);
    SumNone(lens, 0);
    if i > 0 {
      RangeBytesPrefix(ranges, lens, i - 1);
      var range := ranges[i - 1];
      assert Boundary(ranges, i - 1) == range.start && Boundary(ranges, i) == range.End();
      SumStep(RangeBytes(ranges, lens), 0, i - 1);
      SumSplit(lens, 0, range.start, range.End());
    }
  }

  /** Splitting conserves bytes: the range lengths add up to the payload length. */
  lemma RangesConserveBytes(m: MeasuredDirectBatch, ranges: seq<RowRange>)
    requires m.Valid() && Partition(ranges, m.rowCount)
    ensures forall j :: 0 <= j < |ranges| ==> ranges[j].End() <= |m.rowLengths|
    ensures Sum(RangeBytes(ranges, m.rowLengths)) == m.payloadLen
  {
    RangeBytesPrefix(ranges, m.rowLengths, |ranges|);
    var all := RangeBytes(ranges, m.rowLengths);
    assert all[0..|ranges|] == all;
    assert m.rowLengths[0..m.rowCount] == m.rowLengths;
  }
}
