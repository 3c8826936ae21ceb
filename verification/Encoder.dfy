/** The direct encoder over record batches: measuring, whole-batch encoding and
    encoding of measured ranges (src/write/direct/encoder.rs, rows/payload.rs). */
module Encoder {
  import opened Basics
  import opened Errors
  import opened Types
  import opened Measure
  import opened Layout
  import opened Payload
  import opened Rows
  import opened Classifiers
  import opened Cells
  import opened Wire
  import opened DirectCells
  import opened Refinement
  import opened RowStream
  import opened Batches
  import opened Failures

  /** The support-checked plan of one writer. */
  datatype DirectEncoder = DirectEncoder(mappings: seq<SchemaMapping>, encodings: seq<DirectColumnEncoding>, runtime: Runtime) {
    ghost predicate Valid() {
      && SupportedPlan(mappings, encodings)
      && (forall i :: 0 <= i < |mappings| ==> InRange(mappings[i].arrow.dataType))
      && AllReadable(mappings)
    }

    /** The batch has the planned shape. */
    ghost predicate Accepts(batch: RecordBatch) {
      batch.Valid() && ShapeMatches(batch, mappings)
    }

    function Columns(batch: RecordBatch): (r: seq<Column>)
      requires Valid() && Accepts(batch)
      ensures |r| == |mappings| && Shaped(r, batch.rowCount)
    {
      DirectColumns(batch, mappings, encodings, runtime)
    }

    /** `has_variable_width_column`. */
    predicate HasVariableWidthColumn() {
      exists i :: 0 <= i < |encodings| && encodings[i].VariableWidthColumn?
    }

    /** Every column has a fixed cell length: the fast path applies. */
    predicate IsFixedWidth() {
      forall i :: 0 <= i < |encodings| ==> HasFixedLen(encodings[i])
    }

    /** Every row converts, every cell is framed and the sizes fit a `usize`. */
    ghost predicate Measurable(batch: RecordBatch)
      requires Valid() && Accepts(batch)
    {
      batch.rowCount == 0 ||
      (AllMeasured(Columns(batch), batch.rowCount)
       && batch.rowCount * |mappings| <= USIZE_MAX
       && batch.rowCount + Sum(LengthMatrix(Columns(batch), batch.rowCount)) <= USIZE_MAX)
    }
  }

  /** The bound columns become the payload engine's columns. */
  function ColumnsOf(bound: seq<BoundColumn>, rowCount: nat, runtime: Runtime): (r: seq<Column>)
    requires forall c :: 0 <= c < |bound| ==> |bound[c].values| == rowCount
    requires forall c, k :: 0 <= c < |bound| && 0 <= k < rowCount && bound[c].values[k].Some? ==>
      KindFits(bound[c].encoding, bound[c].values[k].value)
    ensures |r| == |bound| && Shaped(r, rowCount)
  {
    seq(|bound|, c requires 0 <= c < |bound| =>
      seq(rowCount, k requires 0 <= k < rowCount => OutcomeOf(bound[c].encoding, bound[c].mapping, runtime, bound[c].values[k], k)))
  }

  /** Binding a batch of the planned shape. */
  method BindBatch(encoder: DirectEncoder, batch: RecordBatch) returns (r: Result<seq<Column>, Error>)
    requires encoder.Valid() && encoder.Accepts(batch)
    ensures r == Ok(encoder.Columns(batch))
  {
    hide SupportMapping, SupportedPlan, ShapeMatches, KindFits, OutcomeOf;
    var bound := BindDirectColumns(encoder.mappings, encoder.encodings, batch);
    if bound.Err? {
      assert false;
      return Err(InvalidPayload());
    }
    BoundBatchFits(encoder, batch);
    var columns := ColumnsOf(bound.value, batch.rowCount, encoder.runtime);
    forall c | 0 <= c < |columns| ensures columns[c] == encoder.Columns(batch)[c] {
    }
    assert columns == encoder.Columns(batch);
    return Ok(columns);
  }

  lemma BoundBatchFits(encoder: DirectEncoder, batch: RecordBatch)
    requires encoder.Valid() && encoder.Accepts(batch)
    ensures |encoder.encodings| == |encoder.mappings| <= |batch.columns|
    ensures
      var bound := BoundColumns(encoder.mappings, encoder.encodings, batch);
      && (forall c :: 0 <= c < |bound| ==> |bound[c].values| == batch.rowCount)
      && (forall c, k :: 0 <= c < |bound| && 0 <= k < batch.rowCount && bound[c].values[k].Some? ==>
            KindFits(bound[c].encoding, bound[c].values[k].value))
  {
    hide SupportMapping, KindFits;
    var bound := BoundColumns(encoder.mappings, encoder.encodings, batch);
    forall c, k | 0 <= c < |bound| && 0 <= k < batch.rowCount && bound[c].values[k].Some?
      ensures KindFits(bound[c].encoding, bound[c].values[k].value)
    {
      BoundSuits(batch, encoder.mappings, encoder.encodings, c, k);
    }
  }

  /** The measured batch belongs to the batch. */
  ghost predicate MeasuredBatch(encoder: DirectEncoder, batch: RecordBatch, m: MeasuredDirectBatch)
    requires encoder.Valid() && encoder.Accepts(batch)
  {
    && m.rowCount == batch.rowCount && m.columnCount == |encoder.mappings| && m.Valid()
    && MeasuredFor(m, encoder.Columns(batch), batch.rowCount)
  }

  lemma EmptyBatchMeasured(encoder: DirectEncoder, batch: RecordBatch)
    requires encoder.Valid() && encoder.Accepts(batch) && batch.rowCount == 0
    ensures MeasuredBatch(encoder, batch, MeasuredDirectBatch.Empty(|encoder.mappings|))
  {
    hide SupportedPlan, ShapeMatches;
    assert Ready(encoder.Columns(batch), 0);
    assert LengthMatrix(encoder.Columns(batch), 0) == [];
  }

  /** `DirectEncoder::measure_batch`: shape errors first, then the first failing cell in
      column order, then the `usize` limits; nothing else can fail. */
  method MeasureBatch(encoder: DirectEncoder, batch: RecordBatch) returns (r: Result<MeasuredDirectBatch, Error>)
    requires encoder.Valid() && batch.Valid()
    ensures r.Ok? <==> encoder.Accepts(batch) && encoder.Measurable(batch)
    ensures r.Ok? ==> MeasuredBatch(encoder, batch, r.value)
    ensures !encoder.Accepts(batch) ==> r.Err? && IsShapeError(r.error) && PhaseOfBatchError(r.error) == BatchSchemaValidation
    ensures encoder.Accepts(batch) && r.Err? ==>
      MeasureFailure(batch, encoder.mappings, encoder.runtime, r.error, PhaseOfBatchError(r.error))
  {
    hide SupportedPlan, ShapeMatches, Sum, LengthMatrix, RowLengths, AllReadable, Ready, DirectColumns, MeasureFailure, AllSend, StandsIn, FirstMismatch,
      IsShapeError, OnlySchemaMismatches, InvalidPayload, CellSends, MeasuredDirectBatch.Valid;
    var shape := ValidateEncodingShape(batch, encoder.mappings);
    if shape.Err? {
      return Err(shape.error);
    }
    if batch.rowCount == 0 {
      EmptyBatchMeasured(encoder, batch);
      return Ok(MeasuredDirectBatch.Empty(|encoder.mappings|));
    }
    var columns := BindBatch(encoder, batch);
    var lengths := MeasureCellLengths(columns.value, batch.rowCount);
    if lengths.Err? {
      ghost var c, k :| FirstFailureInColumnOrder(columns.value, batch.rowCount, c, k) && lengths.error == columns.value[c][k].measured.error;
      FirstFailureReports(batch, encoder.mappings, encoder.encodings, encoder.runtime, c, k);
      return Err(lengths.error);
    }
    AllSendMeasures(batch, encoder.mappings, encoder.encodings, encoder.runtime);
    DirectColumnsSound(batch, encoder.mappings, encoder.encodings, encoder.runtime);
    r := New(batch.rowCount, |encoder.mappings|, lengths.value);
    if r.Err? {
      SizeFailure(batch, encoder.mappings, encoder.runtime);
    }
  }

  /** `DirectEncoder::encode_batch`. */
  method EncodeWholeBatch(encoder: DirectEncoder, batch: RecordBatch) returns (r: Result<EncodedRowsPayload, Error>)
    requires encoder.Valid() && batch.Valid()
    ensures r.Ok? <==> encoder.Accepts(batch) && Encodable(encoder.Columns(batch), batch.rowCount)
    ensures r.Ok? ==>
      Ready(encoder.Columns(batch), batch.rowCount)
      && r.value.bytes == PayloadOf(encoder.Columns(batch), batch.rowCount, 0, batch.rowCount)
  {
    hide SupportedPlan, ShapeMatches, Sum, LengthMatrix, RowLengths, AllReadable, DirectColumns, PayloadOf, LayoutOf;
    var shape := ValidateEncodingShape(batch, encoder.mappings);
    if shape.Err? {
      return Err(shape.error);
    }
    DirectColumnsSound(batch, encoder.mappings, encoder.encodings, encoder.runtime);
    if |encoder.encodings| == 0 && batch.rowCount == 0 {
      EmptyBatchMeasured(encoder, batch);
      EmptyPayload(encoder.Columns(batch), 0, 0);
      r := NewPayload([], []);
      return;
    }
    var columns := BindBatch(encoder, batch);
    r := EncodeBatch(columns.value, batch.rowCount, encoder.IsFixedWidth());
  }
}
