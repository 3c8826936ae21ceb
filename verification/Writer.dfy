/** The writer state machine: both backends against sinks that may fail at any
    call, and whole sessions of writes (src/write/writer.rs). */
module Writer {
  import opened Basics
  import opened Errors
  import opened Types
  import opened Measure
  import opened Layout
  import opened Payload
  import opened Rows
  import opened Classifiers
  import opened Cells
  import opened RowStream
  import opened Batches
  import opened Failures
  import opened Encoder

  const DIRECT_RAW_MAX_PAYLOAD_BYTES: nat := 8 * 1024 * 1024

  datatype WriteBackend = Auto | BaselineTokenRow | DirectFramedBulk | DirectRawBulk {
    predicate IsDirect() { DirectFramedBulk? || DirectRawBulk? }
  }

  datatype WriteStats = WriteStats(rowsWritten: nat, batchesWritten: nat)

  /** An error and the phase attached to it. */
  datatype WriteFailure = WriteFailure(error: Error, phase: WritePhase)

  /** `resolve_backend`. */
  function ResolveBackend(requested: WriteBackend): WriteBackend {
    match requested
    case Auto | DirectRawBulk => DirectRawBulk
    case BaselineTokenRow => BaselineTokenRow
    case DirectFramedBulk => DirectFramedBulk
  }

  // --------------------------------------------------------------- sinks

  /** One raw rows payload and its row-token offsets. */
  datatype RawRows = RawRows(bytes: seq<byte>, offsets: seq<nat>)

  /** The framed bulk-load request: an accepted payload is logged whole, a failed send
      not at all. */
  class RawRowsSink {
    const fails: nat -> bool
    var calls: nat
    var sent: seq<RawRows>

    constructor (fails: nat -> bool)
      ensures this.fails == fails && calls == 0 && sent == []
    {
      this.fails := fails;
      calls := 0;
      sent := [];
    }

    method Send(rows: RawRows) returns (r: Result<(), Error>)
      modifies this
      ensures calls == old(calls) + 1
      ensures r == if fails(old(calls)) then Err(Tiberius) else Ok(())
      ensures r.Ok? ==> sent == old(sent) + [rows]
      ensures r.Err? ==> sent == old(sent)
    {
      if fails(calls) {
        r := Err(Tiberius);
      } else {
        sent := sent + [rows];
        r := Ok(());
      }
      calls := calls + 1;
    }
  }

  /** The row-oriented bulk-load request. */
  class TokenRowSink {
    const fails: nat -> bool
    var calls: nat
    var rows: seq<seq<MssqlCell>>

    constructor (fails: nat -> bool)
      ensures this.fails == fails && calls == 0 && rows == []
    {
      this.fails := fails;
      calls := 0;
      rows := [];
    }

    method Send(row: seq<MssqlCell>) returns (r: Result<(), Error>)
      modifies this
      ensures calls == old(calls) + 1
      ensures r == if fails(old(calls)) then Err(Tiberius) else Ok(())
      ensures r.Ok? ==> rows == old(rows) + [row]
      ensures r.Err? ==> rows == old(rows)
    {
      if fails(calls) {
        r := Err(Tiberius);
      } else {
        rows := rows + [row];
        r := Ok(());
      }
      calls := calls + 1;
    }
  }

  /** The `n` calls from call `start` on succeed. */
  ghost predicate AllSucceed(fails: nat -> bool, start: nat, n: nat) {
    forall j :: start <= j < start + n ==> !fails(j)
  }

  lemma AllSucceedStep(fails: nat -> bool, start: nat, n: nat)
    ensures AllSucceed(fails, start, 0)
    ensures AllSucceed(fails, start, n) && !fails(start + n) ==> AllSucceed(fails, start, n + 1)
  {
  }

  // --------------------------------------------------------------- state

  function SaturatingAdd(a: nat, b: nat): nat {
    if a + b <= U64_MAX then a + b else U64_MAX
  }

  /** What the statistics say after accepting batches of these row counts. */
  ghost function StatsOf(accepted: seq<nat>): WriteStats {
    WriteStats(Min(U64_MAX, Sum(accepted)), Min(U64_MAX, |accepted|))
  }

  /** Saturating at every step is saturating once at the end. */
  lemma StatsStep(accepted: seq<nat>, rows: nat)
    ensures StatsOf(accepted + [rows]) ==
      WriteStats(SaturatingAdd(StatsOf(accepted).rowsWritten, rows), SaturatingAdd(StatsOf(accepted).batchesWritten, 1))
  {
    SumConcat(accepted, [rows]);
    assert Sum([rows]) == rows + Sum([]);
  }

  class WriterState {
    const backend: WriteBackend
    const directEncoder: Option<DirectEncoder>
    const mappings: seq<SchemaMapping>
    const runtime: Runtime
    var stats: WriteStats
    /** Row counts of the batches accepted so far. */
    ghost var accepted: seq<nat>

    ghost predicate Valid()
      reads this
    {
      && backend != Auto
      && (backend.IsDirect() <==> directEncoder.Some?)
      && (directEncoder.Some? ==>
            directEncoder.value.Valid() && directEncoder.value.mappings == mappings && directEncoder.value.runtime == runtime)
      && stats == StatsOf(accepted)
    }

    constructor (backend: WriteBackend, directEncoder: Option<DirectEncoder>, mappings: seq<SchemaMapping>, runtime: Runtime)
      requires backend != Auto && (backend.IsDirect() <==> directEncoder.Some?)
      requires directEncoder.Some? ==>
        directEncoder.value.Valid() && directEncoder.value.mappings == mappings && directEncoder.value.runtime == runtime
      ensures Valid() && accepted == []
      ensures this.backend == backend && this.directEncoder == directEncoder
      ensures this.mappings == mappings && this.runtime == runtime
    {
      this.backend := backend;
      this.directEncoder := directEncoder;
      this.mappings := mappings;
      this.runtime := runtime;
      stats := WriteStats(0, 0);
      accepted := [];
    }

    /** `record_accepted_batch`. */
    method RecordAcceptedBatch(rows: nat) returns (r: WriteStats)
      requires Valid()
      modifies this
      ensures Valid() && accepted == old(accepted) + [rows] && r == stats
    {
      StatsStep(accepted, rows);
      stats := WriteStats(SaturatingAdd(stats.rowsWritten, rows), SaturatingAdd(stats.batchesWritten, 1));
      accepted := accepted + [rows];
      r := stats;
    }
  }

  ghost predicate WritableMappings(mappings: seq<SchemaMapping>) {
    AllReadable(mappings) && forall i :: 0 <= i < |mappings| ==> InRange(mappings[i].arrow.dataType)
  }

  /** `WriterState::new`: only a direct backend with an unsupported mapping fails. */
  method NewWriterState(requested: WriteBackend, mappings: seq<SchemaMapping>, runtime: Runtime) returns (r: Result<WriterState, Error>)
    requires WritableMappings(mappings)
    ensures r.Err? <==>
      requested != BaselineTokenRow && exists i :: 0 <= i < |mappings| && SupportMapping(mappings[i]).None?
    ensures r.Ok? ==>
      && fresh(r.value) && r.value.Valid() && r.value.accepted == []
      && r.value.mappings == mappings && r.value.runtime == runtime
      && (requested == BaselineTokenRow ==> r.value.backend == BaselineTokenRow)
      && (requested == Auto || requested == DirectRawBulk ==> r.value.backend == DirectRawBulk)
      && (requested == DirectFramedBulk ==> r.value.backend == DirectFramedBulk)
    ensures r.Err? ==> r.error == DirectEncoding(UnsupportedDiagnostics(mappings, |mappings|))
  {
    hide SupportMapping;
    var backend := ResolveBackend(requested);
    var encoder: Option<DirectEncoder> := None;
    if backend.IsDirect() {
      var plan := NewPlan(mappings);
      if plan.Err? {
        return Err(plan.error);
      }
      encoder := Some(DirectEncoder(mappings, plan.value, runtime));
    }
    var state := new WriterState(backend, encoder, mappings, runtime);
    return Ok(state);
  }

  // -------------------------------------------------------- direct path

  /** The one measured batch that belongs to a measurable batch. */
  ghost function MeasuredOf(encoder: DirectEncoder, batch: RecordBatch): (m: MeasuredDirectBatch)
    requires encoder.Valid() && encoder.Accepts(batch) && Ready(encoder.Columns(batch), batch.rowCount)
  {
    var lens := LengthMatrix(encoder.Columns(batch), batch.rowCount);
    var rows := RowLengths(batch.rowCount, |encoder.mappings|, lens);
    MeasuredDirectBatch(batch.rowCount, |encoder.mappings|, lens, rows, Sum(rows))
  }

  /** The batch has the planned shape, converts, and fits a `usize`. */
  ghost predicate Prepared(encoder: DirectEncoder, batch: RecordBatch) {
    && encoder.Valid() && encoder.Accepts(batch) && Ready(encoder.Columns(batch), batch.rowCount)
    && MeasuredOf(encoder, batch).Valid()
  }

  ghost predicate Within(ranges: seq<RowRange>, rowCount: nat) {
    forall j :: 0 <= j < |ranges| ==> ranges[j].End() <= rowCount && ranges[j].len > 0
  }

  lemma WithinAt(ranges: seq<RowRange>, rowCount: nat, i: nat)
    requires Within(ranges, rowCount) && i < |ranges|
    ensures ranges[i].End() <= rowCount && ranges[i].len > 0
  {
  }

  lemma MeasuredIsUnique(encoder: DirectEncoder, batch: RecordBatch, m: MeasuredDirectBatch)
    requires encoder.Valid() && encoder.Accepts(batch) && MeasuredBatch(encoder, batch, m)
    ensures Prepared(encoder, batch) && m == MeasuredOf(encoder, batch)
  {
    hide DirectEncoder.Valid, DirectEncoder.Accepts, DirectEncoder.Columns, LengthMatrix, RowLengths, Sum;
  }

  /** The payload that one range puts on the wire. */
  ghost function RangeRows(encoder: DirectEncoder, batch: RecordBatch, range: RowRange): RawRows
    requires Prepared(encoder, batch) && range.End() <= batch.rowCount
  {
    RawRows(PayloadOf(encoder.Columns(batch), batch.rowCount, range.start, range.len),
            RangeOffsets(MeasuredOf(encoder, batch), range.start, range.len))
  }

  /** Encoding one range for the sink: payload route without variable-width columns,
      append route with them. For the measured batch neither can fail, and both give the
      same bytes and offsets. */
  method EncodeRange(encoder: DirectEncoder, batch: RecordBatch, m: MeasuredDirectBatch, range: RowRange) returns (r: Result<RawRows, Error>)
    requires encoder.Valid() && encoder.Accepts(batch) && MeasuredBatch(encoder, batch, m)
    requires range.End() <= batch.rowCount && range.len > 0
    ensures Prepared(encoder, batch)
    ensures r == Ok(RangeRows(encoder, batch, range))
  {
    MeasuredIsUnique(encoder, batch, m);
    hide DirectEncoder.Valid, DirectEncoder.Accepts, DirectEncoder.Columns, DirectEncoder.HasVariableWidthColumn, DirectEncoder.IsFixedWidth, LengthMatrix,
      PayloadOf, Ready, MeasuredOf, MeasuredDirectBatch.Valid, RangeOffsets;
    var columns := BindBatch(encoder, batch);
    if !encoder.HasVariableWidthColumn() {
      var payload := EncodeMeasuredRange(columns.value, batch.rowCount, encoder.IsFixedWidth(), m, range.start, range.len);
      r := Ok(RawRows(payload.value.bytes, payload.value.rowTokenOffsets));
    } else {
      var buf := new RawRowsBuffer();
      var offsets := EncodeMeasuredRangeInto(columns.value, batch.rowCount, m, range.start, range.len, buf);
      assert [] + PayloadOf(encoder.Columns(batch), batch.rowCount, range.start, range.len)
             == PayloadOf(encoder.Columns(batch), batch.rowCount, range.start, range.len);
      r := Ok(RawRows(buf.bytes, offsets.value));
    }
  }

  /** `send_measured_raw_rows`: nothing but the send itself can fail. */
  method SendMeasuredRawRows(sink: RawRowsSink, encoder: DirectEncoder, batch: RecordBatch, m: MeasuredDirectBatch, range: RowRange)
    returns (r: Result<(), Error>)
    requires encoder.Valid() && encoder.Accepts(batch) && MeasuredBatch(encoder, batch, m)
    requires range.End() <= batch.rowCount && range.len > 0
    modifies sink
    ensures Prepared(encoder, batch)
    ensures sink.calls == old(sink.calls) + 1
    ensures r == if sink.fails(old(sink.calls)) then Err(Tiberius) else Ok(())
    ensures r.Ok? ==> sink.sent == old(sink.sent) + [RangeRows(encoder, batch, range)]
    ensures r.Err? ==> sink.sent == old(sink.sent)
  {
    RangePayloadLenExact(m, range.start, range.len);
    hide DirectEncoder.Valid, DirectEncoder.Accepts, Prepared, MeasuredFor, RangeRows, RowLengths, Sum;
    var encodedBytes := m.RangePayloadLen(range.start, range.len);
    if encodedBytes.Err? {
      assert false;
      return Err(InvalidPayload());
    }
    var payload := EncodeRange(encoder, batch, m, range);
    if payload.Err? {
      assert false;
      return Err(InvalidPayload());
    }
    r := sink.Send(payload.value);
  }

  /** The payloads of the first `n` ranges. */
  ghost function SentRanges(encoder: DirectEncoder, batch: RecordBatch, ranges: seq<RowRange>, n: nat): (r: seq<RawRows>)
    requires Prepared(encoder, batch) && n <= |ranges| && Within(ranges, batch.rowCount)
    ensures |r| == n
  {
    seq(n, j requires 0 <= j < n => assert ranges[j].End() <= batch.rowCount; RangeRows(encoder, batch, ranges[j]))
  }

  lemma SentNone(encoder: DirectEncoder, batch: RecordBatch, ranges: seq<RowRange>)
    requires Prepared(encoder, batch) && Within(ranges, batch.rowCount)
    ensures SentRanges(encoder, batch, ranges, 0) == []
  {
  }

  lemma SentRangesStep(encoder: DirectEncoder, batch: RecordBatch, ranges: seq<RowRange>, n: nat)
    requires Prepared(encoder, batch) && Within(ranges, batch.rowCount) && n < |ranges|
    ensures SentRanges(encoder, batch, ranges, n + 1) == SentRanges(encoder, batch, ranges, n) + [RangeRows(encoder, batch, ranges[n])]
  {
    hide Prepared, RangeRows;
  }

  ghost function BytesOf(sent: seq<RawRows>): (r: seq<seq<byte>>)
    ensures |r| == |sent|
  {
    seq(|sent|, j requires 0 <= j < |sent| => sent[j].bytes)
  }

  /** What the sink has received after `n` ranges: a prefix of the batch's rows. */
  lemma SentPrefixReadsBack(encoder: DirectEncoder, batch: RecordBatch, ranges: seq<RowRange>, n: nat)
    requires Prepared(encoder, batch) && Partition(ranges, batch.rowCount) && n <= |ranges|
    ensures Within(ranges, batch.rowCount)
    ensures forall row :: 0 <= row < batch.rowCount ==> RowConverts(batch, encoder.mappings, encoder.runtime, row)
    ensures Boundary(ranges, n) <= batch.rowCount
    ensures ReadRows(TargetColumns(encoder.mappings), Flatten(BytesOf(SentRanges(encoder, batch, ranges, n))))
            == Some(BaselineRows(batch, encoder.mappings, encoder.runtime, 0, Boundary(ranges, n)))
  {
    forall j | 0 <= j < |ranges| ensures ranges[j].End() <= batch.rowCount && ranges[j].len > 0 {
      PartitionEnds(ranges, batch.rowCount, j);
    }
    var columns := encoder.Columns(batch);
    AllReadyMeasured(columns, batch.rowCount);
    RangePayloadsPrefix(columns, batch.rowCount, ranges, n);
    PayloadReadsBack(batch, encoder.mappings, encoder.encodings, encoder.runtime, 0, Boundary(ranges, n));
    hide DirectColumns, RowConverts, Ready, PayloadOf, ReadRows, Flatten, MeasuredOf, SupportedPlan, ShapeMatches, AllReadable, BaselineRow;
    assert BytesOf(SentRanges(encoder, batch, ranges, n)) == RangePayloads(columns, batch.rowCount, ranges)[..n];
  }

  lemma AllReadyMeasured(columns: seq<Column>, rowCount: nat)
    requires Ready(columns, rowCount)
    ensures AllMeasured(columns, rowCount)
  {
    forall c, r | 0 <= c < |columns| && 0 <= r < rowCount ensures columns[c][r].measured.Ok? {
      assert CellReady(columns[c][r]);
    }
  }

  /** Sends the ranges in order until one send fails. */
  method SendRanges(sink: RawRowsSink, encoder: DirectEncoder, batch: RecordBatch, m: MeasuredDirectBatch, ranges: seq<RowRange>)
    returns (r: Result<(), Error>, ghost delivered: nat)
    requires encoder.Valid() && encoder.Accepts(batch) && MeasuredBatch(encoder, batch, m)
    requires Within(ranges, batch.rowCount)
    modifies sink
    ensures Prepared(encoder, batch)
    ensures delivered <= |ranges| && sink.sent == old(sink.sent) + SentRanges(encoder, batch, ranges, delivered)
    ensures AllSucceed(sink.fails, old(sink.calls), delivered)
    ensures r.Ok? ==> delivered == |ranges| && sink.calls == old(sink.calls) + delivered
    ensures r.Err? ==>
      delivered < |ranges| && sink.calls == old(sink.calls) + delivered + 1 && sink.fails(old(sink.calls) + delivered)
      && r.error == Tiberius
  {
    hide *;
    MeasuredIsUnique(encoder, batch, m);
    SentNone(encoder, batch, ranges);
    AllSucceedStep(sink.fails, sink.calls, 0);
    delivered := 0;
    for i := 0 to |ranges|
      invariant delivered == i
      invariant sink.calls == old(sink.calls) + i
      invariant AllSucceed(sink.fails, old(sink.calls), i)
      invariant sink.sent == old(sink.sent) + SentRanges(encoder, batch, ranges, i)
    {
      WithinAt(ranges, batch.rowCount, i);
      var done := SendMeasuredRawRows(sink, encoder, batch, m, ranges[i]);
      if done.Err? {
        return Err(done.error), delivered;
      }
      delivered := delivered + 1;
      AllSucceedStep(sink.fails, old(sink.calls), i);
      SentRangesStep(encoder, batch, ranges, i);
      Associates(old(sink.sent), SentRanges(encoder, batch, ranges, i), [RangeRows(encoder, batch, ranges[i])]);
    }
    return Ok(()), delivered;
  }

  /** The batch was measured and split; the sink took the first `delivered` ranges. */
  ghost predicate DirectDelivery(encoder: DirectEncoder, batch: RecordBatch, ranges: seq<RowRange>, delivered: nat,
                                 before: seq<RawRows>, after: seq<RawRows>)
  {
    && Prepared(encoder, batch)
    && Greedy(ranges, MeasuredOf(encoder, batch).rowLengths, 8_388_608)
    && delivered <= |ranges| && Within(ranges, batch.rowCount)
    && after == before + SentRanges(encoder, batch, ranges, delivered)
  }

  /** Why nothing was sent: the batch has another shape, or its first cell that cannot be
      sent, or its size. */
  ghost predicate PreparationFailure(encoder: DirectEncoder, batch: RecordBatch, failure: WriteFailure)
    requires batch.Valid()
  {
    if !ShapeMatches(batch, encoder.mappings)
    then failure.phase == BatchSchemaValidation && IsShapeError(failure.error)
    else MeasureFailure(batch, encoder.mappings, encoder.runtime, failure.error, failure.phase)
  }

  /** Measuring and splitting, before anything is sent. */
  method MeasureAndSplit(encoder: DirectEncoder, batch: RecordBatch)
    returns (r: Result<(MeasuredDirectBatch, seq<RowRange>), WriteFailure>)
    requires encoder.Valid() && batch.Valid()
    ensures r.Ok? <==> encoder.Accepts(batch) && encoder.Measurable(batch)
    ensures r.Err? ==> PreparationFailure(encoder, batch, r.error)
    ensures r.Ok? ==>
      && MeasuredBatch(encoder, batch, r.value.0) && Within(r.value.1, batch.rowCount)
      && Prepared(encoder, batch) && Greedy(r.value.1, MeasuredOf(encoder, batch).rowLengths, 8_388_608)
  {
    hide DirectEncoder.Valid, DirectEncoder.Measurable, DirectEncoder.Columns, Prepared, MeasuredFor,
      Greedy, MeasuredOf, RowLengths, Sum, Within, MeasureFailure, IsShapeError, ShapeMatches;
    var measured := MeasureBatch(encoder, batch);
    if measured.Err? {
      return Err(WriteFailure(measured.error, PhaseOfBatchError(measured.error)));
    }
    var m := measured.value;
    MeasuredIsUnique(encoder, batch, m);
    var split := RowRanges(m, DIRECT_RAW_MAX_PAYLOAD_BYTES);
    GreedyEnds(split.value, m.rowLengths, DIRECT_RAW_MAX_PAYLOAD_BYTES);
    return Ok((m, split.value));
  }

  /** All, none or a prefix. A batch that does not measure leaves the sink as it was;
      otherwise the sink has the optimal ranges in order up to the first failing send. */
  ghost predicate DirectWrites(encoder: DirectEncoder, batch: RecordBatch, fails: nat -> bool, calls: nat, before: seq<RawRows>, after: seq<RawRows>,
                               ranges: seq<RowRange>, delivered: nat, r: Result<WriteStats, WriteFailure>)
    requires encoder.Valid() && batch.Valid()
  {
    if !encoder.Accepts(batch) || !encoder.Measurable(batch)
    then r.Err? && after == before && PreparationFailure(encoder, batch, r.error)
    else
      && DirectDelivery(encoder, batch, ranges, delivered, before, after)
      && AllSucceed(fails, calls, delivered)
      && (r.Ok? <==> delivered == |ranges|)
      && (r.Err? ==> fails(calls + delivered) && r.error == WriteFailure(Tiberius, PacketWrite))
  }

  /** `write_direct_batch_to_sink_with_observer`: the statistics change only when every
      range was taken, and nothing is sent before everything is measured. */
  method WriteDirectBatch(state: WriterState, sink: RawRowsSink, batch: RecordBatch)
    returns (r: Result<WriteStats, WriteFailure>, ghost ranges: seq<RowRange>, ghost delivered: nat)
    requires state.Valid() && state.directEncoder.Some? && batch.Valid()
    modifies state, sink
    ensures state.Valid()
    ensures state.accepted == old(state.accepted) + if r.Ok? then [batch.rowCount] else []
    ensures r.Ok? ==> r.value == state.stats
    ensures r.Err? ==> state.stats == old(state.stats)
    ensures DirectWrites(state.directEncoder.value, batch, sink.fails, old(sink.calls), old(sink.sent), sink.sent, ranges, delivered, r)
    ensures !state.directEncoder.value.Accepts(batch) || !state.directEncoder.value.Measurable(batch) ==> sink.calls == old(sink.calls)
  {
    hide DirectEncoder.Valid, DirectEncoder.Accepts, DirectEncoder.Measurable, MeasuredBatch, Prepared, Within, Greedy, SentRanges,
      MeasuredOf, StatsOf, RecordBatch.Valid, PreparationFailure;
    ranges, delivered := [], 0;
    var measured := MeasureAndSplit(state.directEncoder.value, batch);
    if measured.Err? {
      r := Err(measured.error);
      return;
    }
    ranges := measured.value.1;
    var done;
    done, delivered := SendRanges(sink, state.directEncoder.value, batch, measured.value.0, measured.value.1);
    if done.Err? {
      r := Err(WriteFailure(done.error, PhaseOfBatchError(done.error)));
      return;
    }
    var stats := state.RecordAcceptedBatch(batch.rowCount);
    r := Ok(stats);
  }

  lemma GreedyEnds(ranges: seq<RowRange>, lens: seq<nat>, limit: nat)
    requires Greedy(ranges, lens, limit)
    ensures Partition(ranges, |lens|)
    ensures Within(ranges, |lens|)
  {
    hide Sum, Fits;
    forall j | 0 <= j < |ranges| ensures ranges[j].End() <= |lens| && ranges[j].len > 0 {
      PartitionEnds(ranges, |lens|, j);
    }
  }

  /** What the sink received reads back, from the target columns alone, as the rows that
      the baseline path sends, up to the last delivered range; all of them in the end. */
  lemma DeliveryReadsBack(encoder: DirectEncoder, batch: RecordBatch, ranges: seq<RowRange>, delivered: nat, before: seq<RawRows>, after: seq<RawRows>)
    requires DirectDelivery(encoder, batch, ranges, delivered, before, after)
    ensures batch.Valid() && delivered <= |ranges| && Boundary(ranges, delivered) <= batch.rowCount
    ensures forall row :: 0 <= row < batch.rowCount ==> RowConverts(batch, encoder.mappings, encoder.runtime, row)
    ensures |before| <= |after| && after[..|before|] == before
    ensures ReadRows(TargetColumns(encoder.mappings), Flatten(BytesOf(after[|before|..])))
            == Some(BaselineRows(batch, encoder.mappings, encoder.runtime, 0, Boundary(ranges, delivered)))
    ensures delivered == |ranges| ==> Boundary(ranges, delivered) == batch.rowCount
  {
    GreedyEnds(ranges, MeasuredOf(encoder, batch).rowLengths, DIRECT_RAW_MAX_PAYLOAD_BYTES);
    SentPrefixReadsBack(encoder, batch, ranges, delivered);
    hide MeasuredOf, RangeRows, Greedy, ReadRows, Flatten, BaselineRows, RowConverts, SupportedPlan, ShapeMatches, AllReadable, DirectColumns, Ready, BytesOf;
    assert after[|before|..] == SentRanges(encoder, batch, ranges, delivered);
  }

  // ------------------------------------------------------- baseline path

  ghost predicate AllRowsConvert(batch: RecordBatch, mappings: seq<SchemaMapping>, runtime: Runtime)
    requires batch.Valid()
  {
    forall row :: 0 <= row < batch.rowCount ==> RowConverts(batch, mappings, runtime, row)
  }

  /** The first failing cell of the batch in row order. */
  ghost predicate FirstFailureInRowOrder(batch: RecordBatch, mappings: seq<SchemaMapping>, runtime: Runtime, row: nat, i: nat, error: Error)
    requires batch.Valid()
  {
    && row < batch.rowCount
    && (forall k :: 0 <= k < row ==> RowConverts(batch, mappings, runtime, k))
    && FirstFailingCell(batch, mappings, runtime, row, i, error)
  }

  /** `validate_batch_rows`: the first pass converts every row and sends nothing. */
  method ValidateBatchRows(batch: RecordBatch, mappings: seq<SchemaMapping>, runtime: Runtime) returns (r: Result<(), Error>)
    requires batch.Valid()
    ensures r.Ok? <==> AllRowsConvert(batch, mappings, runtime)
    ensures r.Err? ==> exists row, i :: FirstFailureInRowOrder(batch, mappings, runtime, row, i, r.error)
  {
    hide RowConverts, FirstFailingCell;
    for row := 0 to batch.rowCount
      invariant forall k :: 0 <= k < row ==> RowConverts(batch, mappings, runtime, k)
    {
      var cells := MssqlRow(batch, mappings, runtime, row);
      if cells.Err? {
        ghost var i :| FirstFailingCell(batch, mappings, runtime, row, i, cells.error);
        assert FirstFailureInRowOrder(batch, mappings, runtime, row, i, cells.error);
        return Err(cells.error);
      }
    }
    return Ok(());
  }

  /** The second pass: convert each row again and send it. After a successful first pass
      the conversion branch is dead, so only a send can stop it. */
  method SendTokenRows(sink: TokenRowSink, batch: RecordBatch, mappings: seq<SchemaMapping>, runtime: Runtime)
    returns (r: Result<(), WriteFailure>, ghost delivered: nat)
    requires batch.Valid() && AllRowsConvert(batch, mappings, runtime)
    modifies sink
    ensures delivered <= batch.rowCount && sink.rows == old(sink.rows) + BaselineRows(batch, mappings, runtime, 0, delivered)
    ensures AllSucceed(sink.fails, old(sink.calls), delivered)
    ensures r.Ok? <==> delivered == batch.rowCount
    ensures r.Err? ==> sink.fails(old(sink.calls) + delivered) && r.error == WriteFailure(Tiberius, PacketWrite)
  {
    hide RowConverts, BaselineRow;
    delivered := 0;
    for row := 0 to batch.rowCount
      invariant delivered == row
      invariant sink.calls == old(sink.calls) + row
      invariant AllSucceed(sink.fails, old(sink.calls), row)
      invariant sink.rows == old(sink.rows) + BaselineRows(batch, mappings, runtime, 0, row)
    {
      var cells := MssqlRow(batch, mappings, runtime, row);
      if cells.Err? {
        assert false;
        return Err(WriteFailure(InvalidPayload(), ValueConversionPhase)), delivered;
      }
      var done := sink.Send(cells.value);
      if done.Err? {
        return Err(WriteFailure(done.error, PacketWrite)), delivered;
      }
      delivered := delivered + 1;
      assert BaselineRows(batch, mappings, runtime, 0, row + 1)
             == BaselineRows(batch, mappings, runtime, 0, row) + [BaselineRow(batch, mappings, runtime, row)];
    }
    return Ok(()), delivered;
  }

  /** A batch of another shape, or with a value that does not convert, leaves the sink as
      it was; otherwise the sink has the rows up to the first failing send. */
  ghost predicate BaselineWrites(batch: RecordBatch, mappings: seq<SchemaMapping>, runtime: Runtime, fails: nat -> bool, calls: nat,
                                 before: seq<seq<MssqlCell>>, after: seq<seq<MssqlCell>>, delivered: nat, r: Result<WriteStats, WriteFailure>)
    requires batch.Valid()
  {
    if !ShapeMatches(batch, mappings) then
      r.Err? && after == before && r.error.phase == BatchSchemaValidation && IsShapeError(r.error.error)
    else if !AllRowsConvert(batch, mappings, runtime) then
      r.Err? && after == before && r.error.phase == ValueConversionPhase
      && exists row, i :: FirstFailureInRowOrder(batch, mappings, runtime, row, i, r.error.error)
    else
      && delivered <= batch.rowCount
      && after == before + BaselineRows(batch, mappings, runtime, 0, delivered)
      && AllSucceed(fails, calls, delivered)
      && (r.Ok? <==> delivered == batch.rowCount)
      && (r.Err? ==> fails(calls + delivered) && r.error == WriteFailure(Tiberius, PacketWrite))
  }

  /** `write_batch_to_sink`: shape, then every conversion, then the sends. */
  method WriteBaselineBatch(state: WriterState, sink: TokenRowSink, batch: RecordBatch)
    returns (r: Result<WriteStats, WriteFailure>, ghost delivered: nat)
    requires state.Valid() && batch.Valid()
    modifies state, sink
    ensures state.Valid()
    ensures state.accepted == old(state.accepted) + if r.Ok? then [batch.rowCount] else []
    ensures r.Ok? ==> r.value == state.stats
    ensures r.Err? ==> state.stats == old(state.stats)
    ensures BaselineWrites(batch, state.mappings, state.runtime, sink.fails, old(sink.calls), old(sink.rows), sink.rows, delivered, r)
    ensures !ShapeMatches(batch, state.mappings) || !AllRowsConvert(batch, state.mappings, state.runtime) ==> sink.calls == old(sink.calls)
  {
    delivered := 0;
    hide ShapeMatches, RowConverts, BaselineRow, StatsOf, DirectEncoder.Valid, FirstFailureInRowOrder, StandsIn, FirstMismatch;
    var shape := ValidateEncodingShape(batch, state.mappings);
    if shape.Err? {
      r := Err(WriteFailure(shape.error, BatchSchemaValidation));
      return;
    }
    var valid := ValidateBatchRows(batch, state.mappings, state.runtime);
    if valid.Err? {
      r := Err(WriteFailure(valid.error, ValueConversionPhase));
      return;
    }
    var sent;
    sent, delivered := SendTokenRows(sink, batch, state.mappings, state.runtime);
    if sent.Err? {
      r := Err(sent.error);
      return;
    }
    var stats := state.RecordAcceptedBatch(batch.rowCount);
    r := Ok(stats);
  }

  // ------------------------------------------------------------- sessions

  /** `BulkWriter::write_batch`: each backend writes to its own sink and leaves the other's
      alone. */
  method WriteBatch(state: WriterState, rows: TokenRowSink, raw: RawRowsSink, batch: RecordBatch)
    returns (r: Result<WriteStats, WriteFailure>, ghost ranges: seq<RowRange>, ghost delivered: nat)
    requires state.Valid() && batch.Valid()
    modifies state, rows, raw
    ensures state.Valid()
    ensures state.accepted == old(state.accepted) + if r.Ok? then [batch.rowCount] else []
    ensures r.Ok? ==> r.value == state.stats
    ensures r.Err? ==> state.stats == old(state.stats)
    ensures state.backend == BaselineTokenRow ==>
      && raw.sent == old(raw.sent) && raw.calls == old(raw.calls)
      && BaselineWrites(batch, state.mappings, state.runtime, rows.fails, old(rows.calls), old(rows.rows), rows.rows, delivered, r)
    ensures state.backend == DirectFramedBulk || state.backend == DirectRawBulk ==>
      && rows.rows == old(rows.rows) && rows.calls == old(rows.calls)
      && DirectWrites(state.directEncoder.value, batch, raw.fails, old(raw.calls), old(raw.sent), raw.sent, ranges, delivered, r)
  {
    hide StatsOf, DirectEncoder.Valid, DirectEncoder.Accepts, DirectEncoder.Measurable, ShapeMatches, AllRowsConvert, DirectWrites, BaselineWrites;
    ranges := [];
    match state.backend {
      case BaselineTokenRow =>
        r, delivered := WriteBaselineBatch(state, rows, batch);
      case DirectFramedBulk | DirectRawBulk =>
        r, ranges, delivered := WriteDirectBatch(state, raw, batch);
    }
  }

  /** `finish_writer_to_sink`: the statistics are read before the sink is finalised. */
  method Finish(state: WriterState, finalizeFails: bool) returns (r: Result<WriteStats, Error>)
    requires state.Valid()
    ensures r == if finalizeFails then Err(Tiberius) else Ok(StatsOf(state.accepted))
  {
    var stats := state.stats;
    if finalizeFails {
      return Err(Tiberius);
    }
    return Ok(stats);
  }

  /** The row counts of the batches whose write returned Ok, in order. */
  ghost function AcceptedRows(batches: seq<RecordBatch>, outcomes: seq<Result<WriteStats, WriteFailure>>): seq<nat>
    requires |outcomes| <= |batches|
  {
    if |outcomes| == 0 then []
    else
      var last := |outcomes| - 1;
      AcceptedRows(batches, outcomes[..last]) + (if outcomes[last].Ok? then [batches[last].rowCount] else [])
  }

  /** A successful write reports the batches accepted up to and including it. */
  ghost predicate Reports(batches: seq<RecordBatch>, outcomes: seq<Result<WriteStats, WriteFailure>>, i: nat)
    requires i < |outcomes| <= |batches|
  {
    outcomes[i].Ok? ==> outcomes[i].value == StatsOf(AcceptedRows(batches, outcomes[..i + 1]))
  }

  lemma ReportsKept(batches: seq<RecordBatch>, outcomes: seq<Result<WriteStats, WriteFailure>>, next: Result<WriteStats, WriteFailure>, i: nat)
    requires i < |outcomes| < |batches| && Reports(batches, outcomes, i)
    ensures Reports(batches, outcomes + [next], i)
  {
    assert (outcomes + [next])[..i + 1] == outcomes[..i + 1];
  }

  /** The rows of a batch that the server got: all of them when the write succeeded, else
      a proper prefix. */
  ghost predicate RowsTaken(batch: RecordBatch, mappings: seq<SchemaMapping>, runtime: Runtime, succeeded: bool, taken: seq<seq<MssqlCell>>)
    requires batch.Valid()
  {
    if succeeded then AllRowsConvert(batch, mappings, runtime) && taken == BaselineRows(batch, mappings, runtime, 0, batch.rowCount)
    else taken == [] || (AllRowsConvert(batch, mappings, runtime) && ProperPrefix(batch, mappings, runtime, taken))
  }

  ghost predicate ProperPrefix(batch: RecordBatch, mappings: seq<SchemaMapping>, runtime: Runtime, taken: seq<seq<MssqlCell>>)
    requires batch.Valid() && AllRowsConvert(batch, mappings, runtime)
  {
    |taken| < batch.rowCount && taken == BaselineRows(batch, mappings, runtime, 0, |taken|)
  }

  /** What a baseline write adds to its sink. */
  lemma BaselineTakes(batch: RecordBatch, mappings: seq<SchemaMapping>, runtime: Runtime, fails: nat -> bool, calls: nat,
                      before: seq<seq<MssqlCell>>, after: seq<seq<MssqlCell>>, delivered: nat, r: Result<WriteStats, WriteFailure>)
    returns (taken: seq<seq<MssqlCell>>)
    requires batch.Valid() && BaselineWrites(batch, mappings, runtime, fails, calls, before, after, delivered, r)
    ensures after == before + taken && RowsTaken(batch, mappings, runtime, r.Ok?, taken)
  {
    hide ShapeMatches, RowConverts, BaselineRow, FirstFailureInRowOrder, AllSucceed;
    if ShapeMatches(batch, mappings) && AllRowsConvert(batch, mappings, runtime) {
      taken := BaselineRows(batch, mappings, runtime, 0, delivered);
    } else {
      taken := [];
    }
  }

  /** What a direct write adds to its sink, read back from the bytes. */
  lemma DirectTakes(encoder: DirectEncoder, batch: RecordBatch, fails: nat -> bool, calls: nat, before: seq<RawRows>, after: seq<RawRows>,
                    ranges: seq<RowRange>, delivered: nat, r: Result<WriteStats, WriteFailure>)
    returns (taken: seq<seq<MssqlCell>>)
    requires encoder.Valid() && batch.Valid() && DirectWrites(encoder, batch, fails, calls, before, after, ranges, delivered, r)
    ensures |before| <= |after| && after[..|before|] == before
    ensures ReadRows(TargetColumns(encoder.mappings), Flatten(BytesOf(after[|before|..]))) == Some(taken)
    ensures RowsTaken(batch, encoder.mappings, encoder.runtime, r.Ok?, taken)
  {
    hide *;
    if DirectDelivery(encoder, batch, ranges, delivered, before, after) {
      DeliveryReadsBack(encoder, batch, ranges, delivered, before, after);
      taken := BaselineRows(batch, encoder.mappings, encoder.runtime, 0, Boundary(ranges, delivered));
      DeliveredRows(encoder, batch, fails, calls, before, after, ranges, delivered, r);
    } else {
      NothingTaken(encoder, batch, fails, calls, before, after, ranges, delivered, r);
      taken := [];
    }
  }

  lemma NothingTaken(encoder: DirectEncoder, batch: RecordBatch, fails: nat -> bool, calls: nat, before: seq<RawRows>, after: seq<RawRows>,
                     ranges: seq<RowRange>, delivered: nat, r: Result<WriteStats, WriteFailure>)
    requires encoder.Valid() && batch.Valid() && DirectWrites(encoder, batch, fails, calls, before, after, ranges, delivered, r)
    requires !DirectDelivery(encoder, batch, ranges, delivered, before, after)
    ensures after == before && after[|before|..] == [] && Flatten(BytesOf(after[|before|..])) == []
    ensures ReadRows(TargetColumns(encoder.mappings), []) == Some([])
    ensures RowsTaken(batch, encoder.mappings, encoder.runtime, r.Ok?, [])
  {
    hide DirectEncoder.Valid, DirectEncoder.Accepts, DirectEncoder.Measurable, DirectDelivery, PreparationFailure;
  }

  lemma DeliveredRows(encoder: DirectEncoder, batch: RecordBatch, fails: nat -> bool, calls: nat, before: seq<RawRows>, after: seq<RawRows>,
                      ranges: seq<RowRange>, delivered: nat, r: Result<WriteStats, WriteFailure>)
    requires encoder.Valid() && batch.Valid() && DirectWrites(encoder, batch, fails, calls, before, after, ranges, delivered, r)
    requires DirectDelivery(encoder, batch, ranges, delivered, before, after)
    requires AllRowsConvert(batch, encoder.mappings, encoder.runtime) && Boundary(ranges, delivered) <= batch.rowCount
    ensures RowsTaken(batch, encoder.mappings, encoder.runtime, r.Ok?, BaselineRows(batch, encoder.mappings, encoder.runtime, 0, Boundary(ranges, delivered)))
  {
  }

  /** What a log of raw payloads holds since `base`, read back. */
  ghost predicate LogReads(columns: seq<MssqlColumn>, base: seq<RawRows>, log: seq<RawRows>, rows: seq<seq<MssqlCell>>) {
    |base| <= |log| && log[..|base|] == base && ReadRows(columns, Flatten(BytesOf(log[|base|..]))) == Some(rows)
  }

  lemma LogStarts(columns: seq<MssqlColumn>, base: seq<RawRows>)
    ensures LogReads(columns, base, base, [])
  {
    assert base[|base|..] == [];
  }

  /** Logs in sequence read back in sequence. */
  lemma LogExtends(columns: seq<MssqlColumn>, base: seq<RawRows>, before: seq<RawRows>, after: seq<RawRows>,
                   rows: seq<seq<MssqlCell>>, taken: seq<seq<MssqlCell>>)
    requires LogReads(columns, base, before, rows) && LogReads(columns, before, after, taken)
    ensures LogReads(columns, base, after, rows + taken)
  {
    hide ReadRows, Flatten;
    var first, last := before[|base|..], after[|before|..];
    assert after == before + last;
    assert after[|base|..] == first + last;
    assert BytesOf(first + last) == BytesOf(first) + BytesOf(last);
    FlattenConcat(BytesOf(first), BytesOf(last));
    ReadRowsConcat(columns, Flatten(BytesOf(first)), Flatten(BytesOf(last)));
  }

  lemma TakenExtends(taken: seq<seq<seq<MssqlCell>>>, next: seq<seq<MssqlCell>>)
    ensures Flatten(taken + [next]) == Flatten(taken) + next
  {
    FlattenConcat(taken, [next]);
    assert Flatten([next]) == next + Flatten([]);
  }

  /** Batch by batch, what the server got. */
  ghost predicate AllTaken(batches: seq<RecordBatch>, mappings: seq<SchemaMapping>, runtime: Runtime,
                           outcomes: seq<Result<WriteStats, WriteFailure>>, taken: seq<seq<seq<MssqlCell>>>)
    requires forall i :: 0 <= i < |batches| ==> batches[i].Valid()
  {
    && |taken| == |outcomes| <= |batches|
    && forall i :: 0 <= i < |taken| ==> RowsTaken(batches[i], mappings, runtime, outcomes[i].Ok?, taken[i])
  }

  lemma AllTakenStep(batches: seq<RecordBatch>, mappings: seq<SchemaMapping>, runtime: Runtime,
                     outcomes: seq<Result<WriteStats, WriteFailure>>, taken: seq<seq<seq<MssqlCell>>>,
                     outcome: Result<WriteStats, WriteFailure>, next: seq<seq<MssqlCell>>)
    requires forall i :: 0 <= i < |batches| ==> batches[i].Valid()
    requires AllTaken(batches, mappings, runtime, outcomes, taken) && |outcomes| < |batches|
    requires RowsTaken(batches[|outcomes|], mappings, runtime, outcome.Ok?, next)
    ensures AllTaken(batches, mappings, runtime, outcomes + [outcome], taken + [next])
  {
    hide RowsTaken, RecordBatch.Valid;
  }

  /** Any sequence of writes on either backend, whichever of them fail. The server gets, in
      order, all the rows of each accepted batch and a proper prefix of each other one;
      what the direct backend sends reads back as those rows. `finish` reports exactly the
      accepted batches, saturated at 2^64-1. */
  method Session(state: WriterState, rows: TokenRowSink, raw: RawRowsSink, batches: seq<RecordBatch>, finalizeFails: bool)
    returns (outcomes: seq<Result<WriteStats, WriteFailure>>, r: Result<WriteStats, Error>, ghost taken: seq<seq<seq<MssqlCell>>>)
    requires state.Valid() && state.accepted == [] && forall i :: 0 <= i < |batches| ==> batches[i].Valid()
    modifies state, rows, raw
    ensures |outcomes| == |batches| && AllTaken(batches, state.mappings, state.runtime, outcomes, taken)
    ensures state.backend == BaselineTokenRow ==>
      rows.rows == old(rows.rows) + Flatten(taken) && raw.sent == old(raw.sent)
    ensures state.backend == DirectFramedBulk || state.backend == DirectRawBulk ==>
      LogReads(TargetColumns(state.mappings), old(raw.sent), raw.sent, Flatten(taken)) && rows.rows == old(rows.rows)
    ensures finalizeFails ==> r == Err(Tiberius)
    ensures !finalizeFails ==>
      && r.Ok?
      && r.value.rowsWritten == Min(0xFFFF_FFFF_FFFF_FFFF, Sum(AcceptedRows(batches, outcomes)))
      && r.value.batchesWritten == Min(0xFFFF_FFFF_FFFF_FFFF, |AcceptedRows(batches, outcomes)|)
    ensures forall i :: 0 <= i < |outcomes| ==> Reports(batches, outcomes, i)
  {
    hide Sum, RecordBatch.Valid, RowsTaken, AllTaken, Flatten, ReadRows, LogReads, BytesOf, BaselineWrites, DirectWrites, StatsOf,
      DirectEncoder.Valid, Reports;
    outcomes, taken := [], [];
    LogStarts(TargetColumns(state.mappings), raw.sent);
    NoneTaken(batches, state.mappings, state.runtime, old(rows.rows));
    for i := 0 to |batches|
      invariant state.Valid() && |outcomes| == i
      invariant state.accepted == AcceptedRows(batches, outcomes)
      invariant forall j :: 0 <= j < i ==> Reports(batches, outcomes, j)
      invariant AllTaken(batches, state.mappings, state.runtime, outcomes, taken)
      invariant state.backend == BaselineTokenRow ==> rows.rows == old(rows.rows) + Flatten(taken) && raw.sent == old(raw.sent)
      invariant state.backend != BaselineTokenRow ==>
        LogReads(TargetColumns(state.mappings), old(raw.sent), raw.sent, Flatten(taken)) && rows.rows == old(rows.rows)
    {
      ghost var rowsBefore, sentBefore, rowCalls, rawCalls := rows.rows, raw.sent, rows.calls, raw.calls;
      var outcome, ranges, delivered := WriteBatch(state, rows, raw, batches[i]);
      ghost var next: seq<seq<MssqlCell>>;
      if state.backend == BaselineTokenRow {
        next := BaselineTakes(batches[i], state.mappings, state.runtime, rows.fails, rowCalls, rowsBefore, rows.rows, delivered, outcome);
        Associates(old(rows.rows), Flatten(taken), next);
      } else {
        next := DirectTakes(state.directEncoder.value, batches[i], raw.fails, rawCalls, sentBefore, raw.sent, ranges, delivered, outcome);
        LogTaken(TargetColumns(state.mappings), sentBefore, raw.sent, next);
        LogExtends(TargetColumns(state.mappings), old(raw.sent), sentBefore, raw.sent, Flatten(taken), next);
      }
      TakenExtends(taken, next);
      AllTakenStep(batches, state.mappings, state.runtime, outcomes, taken, outcome, next);
      taken := taken + [next];
      ghost var before := outcomes;
      outcomes := outcomes + [outcome];
      assert outcomes[..i] == before && outcomes[..i + 1] == outcomes;
      ReportsNext(batches, outcomes, i, state.stats, state.accepted);
      forall j | 0 <= j < i ensures Reports(batches, outcomes, j) {
        ReportsKept(batches, before, outcome, j);
      }
    }
    r := Finish(state, finalizeFails);
    SaturatedStats(state.accepted);
  }

  lemma NoneTaken(batches: seq<RecordBatch>, mappings: seq<SchemaMapping>, runtime: Runtime, rows: seq<seq<MssqlCell>>)
    requires forall i :: 0 <= i < |batches| ==> batches[i].Valid()
    ensures AllTaken(batches, mappings, runtime, [], [])
    ensures Flatten<seq<MssqlCell>>([]) == [] && rows + [] == rows
  {
  }

  lemma LogTaken(columns: seq<MssqlColumn>, before: seq<RawRows>, after: seq<RawRows>, taken: seq<seq<MssqlCell>>)
    requires |before| <= |after| && after[..|before|] == before
    requires ReadRows(columns, Flatten(BytesOf(after[|before|..]))) == Some(taken)
    ensures LogReads(columns, before, after, taken)
  {
  }

  lemma ReportsNext(batches: seq<RecordBatch>, outcomes: seq<Result<WriteStats, WriteFailure>>, i: nat, stats: WriteStats, accepted: seq<nat>)
    requires |outcomes| == i + 1 <= |batches|
    requires outcomes[i].Ok? ==> outcomes[i].value == stats && stats == StatsOf(accepted) && accepted == AcceptedRows(batches, outcomes)
    ensures Reports(batches, outcomes, i)
  {
    assert outcomes[..i + 1] == outcomes;
  }

  lemma SaturatedStats(accepted: seq<nat>)
    ensures StatsOf(accepted) == WriteStats(Min(0xFFFF_FFFF_FFFF_FFFF, Sum(accepted)), Min(0xFFFF_FFFF_FFFF_FFFF, |accepted|))
  {
  }
}
