/** Record batches: shape validation, the baseline row view, direct binding and
    measuring, and the refinement of whole batches
    (src/write/record_batch.rs, record_batch/validate.rs, src/write/direct/encoder.rs, binding.rs). */
module Batches {
  import opened Basics
  import opened Errors
  import opened Types
  import opened Measure
  import opened Layout
  import opened Payload
  import opened Rows
  import opened Classifiers
  import opened Cells
  import opened Wire
  import opened DirectCells
  import opened Refinement
  import opened RowStream

  /** An Arrow record batch: every column has the batch's row count. */
  datatype RecordBatch = RecordBatch(schema: seq<Field>, columns: seq<ArrowArray>, rowCount: nat) {
    ghost predicate Valid() {
      && |columns| == |schema|
      && rowCount <= USIZE_MAX
      && forall c :: 0 <= c < |columns| ==> |columns[c].values| == rowCount && WellTyped(columns[c])
    }
  }

  // --------------------------------------------------- shape validation

  function MismatchOf(mapping: SchemaMapping): Error {
    ValueConversion([Diagnostic(SchemaMismatch, Some(mapping.arrow.index), None)])
  }

  predicate FieldMatches(position: nat, field: Field, mapping: SchemaMapping) {
    mapping.arrow.index == position && field.name == mapping.arrow.name && TypeCompatible(field.dataType, mapping)
  }

  ghost predicate ShapeMatches(batch: RecordBatch, mappings: seq<SchemaMapping>)
    requires batch.Valid()
  {
    && |batch.schema| == |mappings|
    && forall i :: 0 <= i < |mappings| ==>
         FieldMatches(i, batch.schema[i], mappings[i]) && TypeCompatible(batch.columns[i].dataType, mappings[i])
  }

  /** A runtime type stands in for the planned one: it is the same, or another string type
      for an nvarchar column, or another byte-string type for a varbinary column. */
  ghost predicate StandsIn(runtime: DataType, planned: DataType, target: MssqlType) {
    || runtime == planned
    || (target.NVarChar? && {runtime, planned} <= {Utf8, LargeUtf8, Utf8View})
    || (target.VarBinary? && {runtime, planned} <= {Binary, LargeBinary, BinaryView})
  }

  /** Position, name and type of one field agree with its mapping. */
  ghost predicate FieldAgrees(position: nat, field: Field, mapping: SchemaMapping) {
    && mapping.arrow.index == position && field.name == mapping.arrow.name
    && StandsIn(field.dataType, mapping.arrow.dataType, mapping.mssql.ty)
  }

  ghost predicate ArrayAgrees(items: ArrowArray, mapping: SchemaMapping) {
    StandsIn(items.dataType, mapping.arrow.dataType, mapping.mssql.ty)
  }

  lemma CompatibleStandsIn(runtime: DataType, mapping: SchemaMapping)
    ensures TypeCompatible(runtime, mapping) <==> StandsIn(runtime, mapping.arrow.dataType, mapping.mssql.ty)
  {
    var planned := mapping.arrow.dataType;
    assert runtime in {runtime, planned} && planned in {runtime, planned};
  }

  /** The first mapping, in order, whose field or else whose array disagrees. */
  ghost predicate FirstMismatch(batch: RecordBatch, mappings: seq<SchemaMapping>, i: nat)
    requires batch.Valid() && |batch.schema| == |mappings|
  {
    && i < |mappings|
    && if exists j :: 0 <= j < |mappings| && !FieldAgrees(j, batch.schema[j], mappings[j])
       then
         && !FieldAgrees(i, batch.schema[i], mappings[i])
         && forall j :: 0 <= j < i ==> FieldAgrees(j, batch.schema[j], mappings[j])
       else
         && !ArrayAgrees(batch.columns[i], mappings[i])
         && forall j :: 0 <= j < i ==> ArrayAgrees(batch.columns[j], mappings[j])
  }

  /** `validate_record_batch_encoding_shape`: accepts exactly the batches with the planned
      columns, at their positions, under their names and of their types; otherwise one
      schema mismatch points at the first field that disagrees. */
  method ValidateEncodingShape(batch: RecordBatch, mappings: seq<SchemaMapping>) returns (r: Result<(), Error>)
    requires batch.Valid()
    ensures r.Ok? <==>
      && |batch.schema| == |mappings|
      && forall i :: 0 <= i < |mappings| ==>
           && mappings[i].arrow.index == i
           && batch.schema[i].name == mappings[i].arrow.name
           && StandsIn(batch.schema[i].dataType, mappings[i].arrow.dataType, mappings[i].mssql.ty)
           && StandsIn(batch.columns[i].dataType, mappings[i].arrow.dataType, mappings[i].mssql.ty)
    ensures r.Ok? <==> ShapeMatches(batch, mappings)
    ensures |batch.schema| < |mappings| ==>
      r == Err(ValueConversion([Diagnostic(SchemaMismatch, Some(mappings[|batch.schema|].arrow.index), None)]))
    ensures |batch.schema| > |mappings| ==> r == Err(ValueConversion([Diagnostic(SchemaMismatch, None, None)]))
    ensures |batch.schema| == |mappings| && r.Err? ==>
      exists i: nat :: FirstMismatch(batch, mappings, i)
                  && r.error == ValueConversion([Diagnostic(SchemaMismatch, Some(mappings[i].arrow.index), None)])
    ensures r.Err? ==> IsShapeError(r.error) && PhaseOfBatchError(r.error) == BatchSchemaValidation
  {
    hide StandsIn, TypeCompatible;
    forall i | 0 <= i < |mappings|
      ensures i < |batch.schema| ==> (FieldMatches(i, batch.schema[i], mappings[i]) <==> FieldAgrees(i, batch.schema[i], mappings[i]))
      ensures i < |batch.schema| ==> (TypeCompatible(batch.columns[i].dataType, mappings[i]) <==> ArrayAgrees(batch.columns[i], mappings[i]))
    {
      if i < |batch.schema| {
        CompatibleStandsIn(batch.schema[i].dataType, mappings[i]);
        CompatibleStandsIn(batch.columns[i].dataType, mappings[i]);
      }
    }
    if |batch.schema| < |mappings| {
      return Err(MismatchOf(mappings[|batch.schema|]));
    }
    if |batch.schema| > |mappings| {
      return Err(ValueConversion([Diagnostic(SchemaMismatch, None, None)]));
    }
    for i := 0 to |mappings|
      invariant forall j :: 0 <= j < i ==> FieldAgrees(j, batch.schema[j], mappings[j])
    {
      if !FieldMatches(i, batch.schema[i], mappings[i]) {
        assert FirstMismatch(batch, mappings, i);
        return Err(MismatchOf(mappings[i]));
      }
    }
    for i := 0 to |mappings|
      invariant forall j :: 0 <= j < i ==> ArrayAgrees(batch.columns[j], mappings[j])
    {
      if !TypeCompatible(batch.columns[i].dataType, mappings[i]) {
        assert FirstMismatch(batch, mappings, i);
        return Err(MismatchOf(mappings[i]));
      }
    }
    return Ok(());
  }

  // ------------------------------------------------------- baseline view

  /** `RecordBatchView::mssql_cell` for a row inside the batch. */
  function MssqlCellAt(batch: RecordBatch, mapping: SchemaMapping, runtime: Runtime, row: nat): Result<MssqlCell, DiagnosticCode>
    requires batch.Valid() && row < batch.rowCount
  {
    if mapping.arrow.index >= |batch.columns| then Err(ValueTypeMismatch)
    else BaselineCell(batch.columns[mapping.arrow.index], mapping, runtime, row)
  }

  ghost predicate RowConverts(batch: RecordBatch, mappings: seq<SchemaMapping>, runtime: Runtime, row: nat)
    requires batch.Valid() && row < batch.rowCount
  {
    forall i :: 0 <= i < |mappings| ==> MssqlCellAt(batch, mappings[i], runtime, row).Ok?
  }

  /** The semantic row that the baseline path sends. */
  ghost function BaselineRow(batch: RecordBatch, mappings: seq<SchemaMapping>, runtime: Runtime, row: nat): (r: seq<MssqlCell>)
    requires batch.Valid() && row < batch.rowCount && RowConverts(batch, mappings, runtime, row)
    ensures |r| == |mappings|
  {
    seq(|mappings|, i requires 0 <= i < |mappings| => MssqlCellAt(batch, mappings[i], runtime, row).value)
  }

  ghost predicate FirstFailingCell(batch: RecordBatch, mappings: seq<SchemaMapping>, runtime: Runtime, row: nat, i: nat, error: Error)
    requires batch.Valid() && row < batch.rowCount
  {
    && i < |mappings|
    && (forall j :: 0 <= j < i ==> MssqlCellAt(batch, mappings[j], runtime, row).Ok?)
    && MssqlCellAt(batch, mappings[i], runtime, row).Err?
    && error == ValueConversion([Diagnostic(MssqlCellAt(batch, mappings[i], runtime, row).error, Some(mappings[i].arrow.index), Some(row))])
  }

  /** `RecordBatchView::mssql_row`: all cells in mapping order, or the first failure. */
  method MssqlRow(batch: RecordBatch, mappings: seq<SchemaMapping>, runtime: Runtime, row: nat) returns (r: Result<seq<MssqlCell>, Error>)
    requires batch.Valid()
    ensures row >= batch.rowCount ==> r == Err(ValueConversion([Diagnostic(RowIndexOutOfBounds, None, Some(row))]))
    ensures row < batch.rowCount ==>
      && (r.Ok? <==> RowConverts(batch, mappings, runtime, row))
      && (r.Ok? ==> r.value == BaselineRow(batch, mappings, runtime, row))
      && (r.Err? ==> exists i :: FirstFailingCell(batch, mappings, runtime, row, i, r.error))
  {
    if row >= batch.rowCount {
      return Err(ValueConversion([Diagnostic(RowIndexOutOfBounds, None, Some(row))]));
    }
    hide MssqlCellAt;
    var cells: seq<MssqlCell> := [];
    for i := 0 to |mappings|
      invariant |cells| == i
      invariant forall j :: 0 <= j < i ==> MssqlCellAt(batch, mappings[j], runtime, row) == Ok(cells[j])
    {
      var cell := MssqlCellAt(batch, mappings[i], runtime, row);
      if cell.Err? {
        var error := CellError(cell.error, mappings[i].arrow.index, row);
        assert FirstFailingCell(batch, mappings, runtime, row, i, error);
        return Err(error);
      }
      cells := cells + [cell.value];
    }
    return Ok(cells);
  }

  // ------------------------------------------------------ direct planning

  /** `DirectEncoderPlan::new` accepts when every mapping is supported. */
  ghost predicate SupportedPlan(mappings: seq<SchemaMapping>, encodings: seq<DirectColumnEncoding>) {
    |encodings| == |mappings| && forall i :: 0 <= i < |mappings| ==> SupportMapping(mappings[i]) == Some(encodings[i])
  }

  function UnsupportedDiagnostic(mapping: SchemaMapping): Diagnostic {
    Diagnostic(DirectEncodingUnsupportedMapping, Some(mapping.arrow.index), None)
  }

  /** The diagnostics of the unsupported mappings among the first `n`, in order. */
  function UnsupportedDiagnostics(mappings: seq<SchemaMapping>, n: nat): seq<Diagnostic>
    requires n <= |mappings|
  {
    if n == 0 then []
    else if SupportMapping(mappings[n - 1]).Some? then UnsupportedDiagnostics(mappings, n - 1)
    else UnsupportedDiagnostics(mappings, n - 1) + [UnsupportedDiagnostic(mappings[n - 1])]
  }

  /** A refused plan holds exactly one diagnostic per unsupported mapping, in mapping order,
      each pointing at its mapping's Arrow field. */
  lemma {:induction false} OneDiagnosticPerUnsupportedMapping(mappings: seq<SchemaMapping>, n: nat) returns (positions: seq<nat>)
    requires n <= |mappings|
    ensures |positions| == |UnsupportedDiagnostics(mappings, n)|
    ensures forall k :: 0 <= k < |positions| ==>
      && positions[k] < n && SupportMapping(mappings[positions[k]]).None?
      && UnsupportedDiagnostics(mappings, n)[k]
         == Diagnostic(DirectEncodingUnsupportedMapping, Some(mappings[positions[k]].arrow.index), None)
    ensures forall j, k :: 0 <= j < k < |positions| ==> positions[j] < positions[k]
    ensures forall i :: 0 <= i < n && SupportMapping(mappings[i]).None? ==> i in positions
  {
    hide SupportMapping;
    positions := [];
    if n != 0 {
      positions := OneDiagnosticPerUnsupportedMapping(mappings, n - 1);
      if SupportMapping(mappings[n - 1]).None? {
        var before := positions;
        positions := before + [n - 1];
        forall i | 0 <= i < n && SupportMapping(mappings[i]).None? ensures i in positions {
          assert i == n - 1 || i in before;
          assert positions[|before|] == n - 1;
        }
      }
    }
  }

  method NewPlan(mappings: seq<SchemaMapping>) returns (r: Result<seq<DirectColumnEncoding>, Error>)
    ensures r.Ok? ==> SupportedPlan(mappings, r.value)
    ensures r.Err? ==> r.error == DirectEncoding(UnsupportedDiagnostics(mappings, |mappings|)) && r.error.diagnostics != []
    ensures r.Ok? <==> forall i :: 0 <= i < |mappings| ==> SupportMapping(mappings[i]).Some?
  {
    hide SupportMapping;
    var diagnostics: seq<Diagnostic> := [];
    var columns: seq<DirectColumnEncoding> := [];
    for i := 0 to |mappings|
      invariant diagnostics == UnsupportedDiagnostics(mappings, i)
      invariant diagnostics == [] <==> forall j :: 0 <= j < i ==> SupportMapping(mappings[j]).Some?
      invariant diagnostics == [] ==>
        |columns| == i && forall j :: 0 <= j < i ==> SupportMapping(mappings[j]) == Some(columns[j])
    {
      var support := SupportMapping(mappings[i]);
      match support {
        case Some(encoding) =>
          columns := columns + [encoding];
        case None =>
          diagnostics := diagnostics + [UnsupportedDiagnostic(mappings[i])];
      }
    }
    if |diagnostics| != 0 {
      return Err(DirectEncoding(diagnostics));
    }
    return Ok(columns);
  }

  // -------------------------------------------------------------- binding

  /** A planned column bound to the typed array it reads. */
  datatype BoundColumn = BoundColumn(encoding: DirectColumnEncoding, mapping: SchemaMapping, values: seq<Option<ArrowValue>>)

  /** The array type a direct column is downcast to. */
  function SourceKind(encoding: DirectColumnEncoding): DataType {
    match encoding
    case PrimitiveColumn(BooleanToBit) => Boolean
    case PrimitiveColumn(UInt8ToTinyInt) => UInt8
    case PrimitiveColumn(Int8ToSmallInt) => Int8
    case PrimitiveColumn(Int16ToSmallInt) => Int16
    case PrimitiveColumn(Int32ToInt) => Int32
    case PrimitiveColumn(UInt16ToInt) => UInt16
    case PrimitiveColumn(Int64ToBigInt) => Int64
    case PrimitiveColumn(UInt32ToBigInt) => UInt32
    case PrimitiveColumn(UInt64ToCheckedBigInt) => UInt64
    case PrimitiveColumn(Float16ToReal) => Float16
    case PrimitiveColumn(Float32ToReal) => Float32
    case PrimitiveColumn(Float64ToFloat) => Float64
    case UInt64DecimalColumn => UInt64
    case DecimalColumn(kind) => DecimalTag(kind.source)
    case VariableWidthColumn(StringToNVarChar(_)) => Utf8
    case VariableWidthColumn(BytesToVarBinary(_)) => Binary
    case FixedBinaryColumn(_) => FixedSizeBinary(0)
    case TemporalColumn(Date32ToDate) => Date32
    case TemporalColumn(Date64ToDateTime2) => Date64
    case TemporalColumn(TimeToTime(unit)) => if unit.Second? || unit.Millisecond? then Time32(unit) else Time64(unit)
    case TemporalColumn(TimestampToDateTime2(unit, _)) => Timestamp(unit, None)
    case TemporalColumn(TimestampToDateTime(unit, _)) => Timestamp(unit, None)
    case TemporalColumn(TimestampToDateTimeOffset(unit)) => Timestamp(unit, None)
  }

  /** One arm of `bind_direct_columns`. */
  function BindColumn(encoding: DirectColumnEncoding, mapping: SchemaMapping, batch: RecordBatch): Result<BoundColumn, DiagnosticCode> {
    if mapping.arrow.index >= |batch.columns| then Err(ValueTypeMismatch)
    else
      var source := batch.columns[mapping.arrow.index];
      var bound := Ok(BoundColumn(encoding, mapping, source.values));
      match encoding
      case VariableWidthColumn(StringToNVarChar(_)) =>
        if !IsStringFamily(mapping.arrow.dataType) || !mapping.mssql.ty.NVarChar? then Err(ValueConversionUnsupported)
        else if IsStringFamily(source.dataType) then bound else Err(ValueConversionUnsupported)
      case VariableWidthColumn(BytesToVarBinary(_)) =>
        if !IsBinaryFamily(mapping.arrow.dataType) || !mapping.mssql.ty.VarBinary? then Err(ValueConversionUnsupported)
        else if IsBinaryFamily(source.dataType) then bound else Err(ValueConversionUnsupported)
      case _ => if ArrayKind(source.dataType) == SourceKind(encoding) then bound else Err(ValueTypeMismatch)
  }

  lemma SupportedSource(encoding: DirectColumnEncoding, mapping: SchemaMapping)
    requires SupportMapping(mapping) == Some(encoding)
    ensures encoding.VariableWidthColumn? || ArrayKind(mapping.arrow.dataType) == SourceKind(encoding)
    ensures encoding.VariableWidthColumn? ==> ClassifyVariableWidth(mapping) == Ok(encoding.variable)
    ensures IsStringFamily(mapping.arrow.dataType) || IsBinaryFamily(mapping.arrow.dataType) ==> encoding.VariableWidthColumn?
    ensures !mapping.arrow.dataType.Other?
    ensures mapping.arrow.dataType.Time32? ==> mapping.arrow.dataType.unit in {Second, Millisecond}
    ensures mapping.arrow.dataType.Time64? ==> mapping.arrow.dataType.unit in {Microsecond, Nanosecond}
  {
    SupportedShape(mapping);
    hide SupportMapping;
  }

  lemma CompatibleKinds(runtimeType: DataType, mapping: SchemaMapping, value: ArrowValue)
    requires TypeCompatible(runtimeType, mapping)
    ensures ValueFits(runtimeType, value) ==> ValueFits(mapping.arrow.dataType, value)
    ensures runtimeType != mapping.arrow.dataType ==>
      (IsStringFamily(runtimeType) && IsStringFamily(mapping.arrow.dataType))
      || (IsBinaryFamily(runtimeType) && IsBinaryFamily(mapping.arrow.dataType))
  {
  }

  /** For a supported mapping and a compatible runtime array, the type-mismatch
      branches of both extraction and binding are unreachable, and both paths read the
      same value at every row. */
  lemma ExtractionAndBindingAgree(encoding: DirectColumnEncoding, mapping: SchemaMapping, batch: RecordBatch, row: nat)
    requires SupportMapping(mapping) == Some(encoding)
    requires batch.Valid() && mapping.arrow.index < |batch.columns| && row < batch.rowCount
    requires TypeCompatible(batch.columns[mapping.arrow.index].dataType, mapping)
    ensures BindColumn(encoding, mapping, batch) == Ok(BoundColumn(encoding, mapping, batch.columns[mapping.arrow.index].values))
    ensures ExtractCell(batch.columns[mapping.arrow.index], mapping, row)
            == Ok(CellFor(mapping, batch.columns[mapping.arrow.index].values[row]))
  {
    SupportedSource(encoding, mapping);
    CompatibleKinds(batch.columns[mapping.arrow.index].dataType, mapping, BoolValue(true));
    hide SupportMapping, SourceKind, ValueFits;
  }

  /** `bind_direct_columns`. On a batch of the right shape it cannot fail. */
  method BindDirectColumns(mappings: seq<SchemaMapping>, encodings: seq<DirectColumnEncoding>, batch: RecordBatch)
    returns (r: Result<seq<BoundColumn>, Error>)
    requires batch.Valid() && SupportedPlan(mappings, encodings)
    ensures ShapeMatches(batch, mappings) ==> r == Ok(BoundColumns(mappings, encodings, batch))
  {
    hide BindColumn, SupportMapping;
    var columns: seq<BoundColumn> := [];
    for i := 0 to |encodings|
      invariant ShapeMatches(batch, mappings) ==>
        |columns| == i && forall j :: 0 <= j < i ==> columns[j] == BoundColumn(encodings[j], mappings[j], batch.columns[j].values)
    {
      var bound := BindColumn(encodings[i], mappings[i], batch);
      if ShapeMatches(batch, mappings) {
        BoundOk(encodings[i], mappings[i], batch);
      }
      if bound.Err? {
        return Err(CellError(bound.error, mappings[i].arrow.index, 0));
      }
      columns := columns + [bound.value];
    }
    if ShapeMatches(batch, mappings) {
      assert columns == BoundColumns(mappings, encodings, batch);
    }
    return Ok(columns);
  }

  lemma BoundOk(encoding: DirectColumnEncoding, mapping: SchemaMapping, batch: RecordBatch)
    requires SupportMapping(mapping) == Some(encoding)
    requires mapping.arrow.index < |batch.columns|
    requires TypeCompatible(batch.columns[mapping.arrow.index].dataType, mapping)
    ensures BindColumn(encoding, mapping, batch) == Ok(BoundColumn(encoding, mapping, batch.columns[mapping.arrow.index].values))
  {
    SupportedSource(encoding, mapping);
    hide SupportMapping, SourceKind;
  }

  function BoundColumns(mappings: seq<SchemaMapping>, encodings: seq<DirectColumnEncoding>, batch: RecordBatch): (r: seq<BoundColumn>)
    requires |encodings| == |mappings| <= |batch.columns|
    ensures |r| == |mappings|
  {
    seq(|mappings|, i requires 0 <= i < |mappings| => BoundColumn(encodings[i], mappings[i], batch.columns[i].values))
  }

  // ----------------------------------------------- direct cells of a batch

  function FailureError(failure: CellFailure, mapping: SchemaMapping, row: nat): Error {
    match failure
    case Conversion(code) => CellError(code, mapping.arrow.index, row)
    case Payload => InvalidPayload()
  }

  /** What measuring and encoding say about one cell. */
  function OutcomeOf(encoding: DirectColumnEncoding, mapping: SchemaMapping, runtime: Runtime, value: Option<ArrowValue>, row: nat): CellOutcome
    requires value.Some? ==> KindFits(encoding, value.value)
  {
    var measured := MeasureCell(encoding, mapping, runtime, value);
    if measured.Err? then
      var error := FailureError(measured.error, mapping, row);
      CellOutcome(Err(error), Err(error))
    else
      var encoded := EncodeCell(encoding, mapping, runtime, value, measured.value);
      CellOutcome(Ok(measured.value), if encoded.Ok? then Ok(encoded.value) else Err(FailureError(encoded.error, mapping, row)))
  }

  /** A plan over a batch it fits. */
  ghost predicate Bound(batch: RecordBatch, mappings: seq<SchemaMapping>, encodings: seq<DirectColumnEncoding>) {
    && batch.Valid() && ShapeMatches(batch, mappings) && SupportedPlan(mappings, encodings)
    && forall i :: 0 <= i < |mappings| ==> InRange(mappings[i].arrow.dataType)
  }

  function ValueAt(batch: RecordBatch, c: nat, row: nat): Option<ArrowValue>
    requires c < |batch.columns| && row < |batch.columns[c].values|
  {
    batch.columns[c].values[row]
  }

  lemma BoundSuits(batch: RecordBatch, mappings: seq<SchemaMapping>, encodings: seq<DirectColumnEncoding>, c: nat, row: nat)
    requires Bound(batch, mappings, encodings) && c < |mappings| && row < batch.rowCount
    ensures Suits(encodings[c], mappings[c], ValueAt(batch, c, row))
    ensures ValueAt(batch, c, row).Some? ==> KindFits(encodings[c], ValueAt(batch, c, row).value)
  {
    hide SupportMapping, ValueFits;
    var value := ValueAt(batch, c, row);
    if value.Some? {
      CompatibleKinds(batch.columns[c].dataType, mappings[c], value.value);
    }
    SuitsKind(encodings[c], mappings[c], value);
  }

  function DirectOutcome(batch: RecordBatch, mappings: seq<SchemaMapping>, encodings: seq<DirectColumnEncoding>, runtime: Runtime, c: nat, row: nat): CellOutcome
    requires Bound(batch, mappings, encodings) && c < |mappings| && row < batch.rowCount
  {
    BoundSuits(batch, mappings, encodings, c, row);
    OutcomeOf(encodings[c], mappings[c], runtime, ValueAt(batch, c, row), row)
  }

  /** The bound columns as the payload engine sees them. */
  function DirectColumns(batch: RecordBatch, mappings: seq<SchemaMapping>, encodings: seq<DirectColumnEncoding>, runtime: Runtime): (r: seq<Column>)
    requires Bound(batch, mappings, encodings)
    ensures |r| == |mappings| && Shaped(r, batch.rowCount)
    ensures forall c, k :: 0 <= c < |r| && 0 <= k < batch.rowCount ==>
      r[c][k] == DirectOutcome(batch, mappings, encodings, runtime, c, k)
  {
    seq(|mappings|, c requires 0 <= c < |mappings| =>
      seq(batch.rowCount, k requires 0 <= k < batch.rowCount => DirectOutcome(batch, mappings, encodings, runtime, c, k)))
  }

  ghost predicate AllReadable(mappings: seq<SchemaMapping>) {
    forall i :: 0 <= i < |mappings| ==> Readable(mappings[i].mssql.ty)
  }

  /** The row format can carry every cell of a row. */
  ghost predicate RowFramed(batch: RecordBatch, mappings: seq<SchemaMapping>, runtime: Runtime, row: nat)
    requires batch.Valid() && row < batch.rowCount && RowConverts(batch, mappings, runtime, row)
  {
    forall i :: 0 <= i < |mappings| ==> MeasuredFraming(mappings[i].mssql.ty, BaselineRow(batch, mappings, runtime, row)[i])
  }

  /** The cell the direct path measures is the cell the baseline converts. */
  lemma CellAgrees(batch: RecordBatch, mappings: seq<SchemaMapping>, encodings: seq<DirectColumnEncoding>, runtime: Runtime, c: nat, row: nat)
    requires Bound(batch, mappings, encodings) && c < |mappings| && row < batch.rowCount
    ensures MssqlCellAt(batch, mappings[c], runtime, row) == Baseline(mappings[c], runtime, ValueAt(batch, c, row))
    ensures DirectColumns(batch, mappings, encodings, runtime)[c][row].measured.Ok? <==>
      && MssqlCellAt(batch, mappings[c], runtime, row).Ok?
      && MeasuredFraming(mappings[c].mssql.ty, MssqlCellAt(batch, mappings[c], runtime, row).value)
  {
    BoundSuits(batch, mappings, encodings, c, row);
    ExtractionAndBindingAgree(encodings[c], mappings[c], batch, row);
    CellRefines(encodings[c], mappings[c], runtime, ValueAt(batch, c, row));
    hide SupportMapping, Suits, MeasureCell, EncodeCell, FromArrowCell, WireCell, CellOf, MeasuredFraming, ExtractCell, BindColumn, TypeCompatible;
  }

  /** A batch measures exactly when the baseline converts every row and the row format
      can carry every cell. */
  lemma BatchMeasuresExactly(batch: RecordBatch, mappings: seq<SchemaMapping>, encodings: seq<DirectColumnEncoding>, runtime: Runtime)
    requires Bound(batch, mappings, encodings)
    ensures AllMeasured(DirectColumns(batch, mappings, encodings, runtime), batch.rowCount) <==>
      forall row :: 0 <= row < batch.rowCount ==>
        RowConverts(batch, mappings, runtime, row) && RowFramed(batch, mappings, runtime, row)
  {
    assert batch.Valid();
    hide SupportMapping, MssqlCellAt, MeasuredFraming, Bound, DirectColumns, ShapeMatches;
    var columns: seq<Column> := DirectColumns(batch, mappings, encodings, runtime);
    forall c, row | 0 <= c < |mappings| && 0 <= row < batch.rowCount
      ensures columns[c][row].measured.Ok? <==>
        && MssqlCellAt(batch, mappings[c], runtime, row).Ok?
        && MeasuredFraming(mappings[c].mssql.ty, MssqlCellAt(batch, mappings[c], runtime, row).value)
    {
      CellAgrees(batch, mappings, encodings, runtime, c, row);
    }
    if AllMeasured(columns, batch.rowCount) {
      forall row | 0 <= row < batch.rowCount
        ensures RowConverts(batch, mappings, runtime, row) && RowFramed(batch, mappings, runtime, row)
      {
        forall c | 0 <= c < |mappings| ensures MssqlCellAt(batch, mappings[c], runtime, row).Ok? {
          assert columns[c][row].measured.Ok?;
        }
        forall c | 0 <= c < |mappings|
          ensures MeasuredFraming(mappings[c].mssql.ty, BaselineRow(batch, mappings, runtime, row)[c])
        {
          assert columns[c][row].measured.Ok?;
        }
      }
    }
    if forall row :: 0 <= row < batch.rowCount ==>
         RowConverts(batch, mappings, runtime, row) && RowFramed(batch, mappings, runtime, row) {
      forall c, row | 0 <= c < |columns| && 0 <= row < batch.rowCount ensures columns[c][row].measured.Ok? {
        assert RowConverts(batch, mappings, runtime, row) && RowFramed(batch, mappings, runtime, row);
        assert BaselineRow(batch, mappings, runtime, row)[c] == MssqlCellAt(batch, mappings[c], runtime, row).value;
      }
    }
  }

  /** A measured cell of a readable mapping encodes to exactly its measured bytes. */
  lemma MeasuredCellReady(batch: RecordBatch, mappings: seq<SchemaMapping>, encodings: seq<DirectColumnEncoding>, runtime: Runtime, c: nat, row: nat)
    requires Bound(batch, mappings, encodings) && AllReadable(mappings) && c < |mappings| && row < batch.rowCount
    requires DirectColumns(batch, mappings, encodings, runtime)[c][row].measured.Ok?
    ensures CellReady(DirectColumns(batch, mappings, encodings, runtime)[c][row])
  {
    BoundSuits(batch, mappings, encodings, c, row);
    DirectCellReadsBack(encodings[c], mappings[c], runtime, ValueAt(batch, c, row), []);
    hide SupportMapping, Suits, MeasureCell, EncodeCell, Baseline, ReadCell, TypeCompatible;
  }

  /** Measuring vouches for encoding over the whole batch. */
  lemma DirectColumnsSound(batch: RecordBatch, mappings: seq<SchemaMapping>, encodings: seq<DirectColumnEncoding>, runtime: Runtime)
    requires Bound(batch, mappings, encodings) && AllReadable(mappings)
    ensures Sound(DirectColumns(batch, mappings, encodings, runtime), batch.rowCount)
    ensures AllMeasured(DirectColumns(batch, mappings, encodings, runtime), batch.rowCount) ==>
      Ready(DirectColumns(batch, mappings, encodings, runtime), batch.rowCount)
  {
    hide SupportMapping, Bound, DirectColumns, CellReady, AllReadable;
    var columns: seq<Column> := DirectColumns(batch, mappings, encodings, runtime);
    forall c, k | 0 <= c < |columns| && 0 <= k < batch.rowCount && columns[c][k].measured.Ok?
      ensures CellReady(columns[c][k])
    {
      MeasuredCellReady(batch, mappings, encodings, runtime, c, k);
    }
  }

  // --------------------------------------------------- rows read back

  function TargetColumns(mappings: seq<SchemaMapping>): (r: seq<MssqlColumn>)
    ensures |r| == |mappings|
  {
    seq(|mappings|, i requires 0 <= i < |mappings| => mappings[i].mssql)
  }

  lemma CellSpells(batch: RecordBatch, mappings: seq<SchemaMapping>, encodings: seq<DirectColumnEncoding>, runtime: Runtime, c: nat, row: nat)
    requires Bound(batch, mappings, encodings) && AllReadable(mappings) && c < |mappings| && row < batch.rowCount
    requires DirectColumns(batch, mappings, encodings, runtime)[c][row].measured.Ok?
    ensures DirectColumns(batch, mappings, encodings, runtime)[c][row].encoded.Ok?
    ensures MssqlCellAt(batch, mappings[c], runtime, row).Ok?
    ensures SpellsCell(mappings[c].mssql, DirectColumns(batch, mappings, encodings, runtime)[c][row].encoded.value,
                       MssqlCellAt(batch, mappings[c], runtime, row).value)
  {
    BoundSuits(batch, mappings, encodings, c, row);
    CellAgrees(batch, mappings, encodings, runtime, c, row);
    MeasuredCellReady(batch, mappings, encodings, runtime, c, row);
    var value := ValueAt(batch, c, row);
    var bytes := DirectColumns(batch, mappings, encodings, runtime)[c][row].encoded.value;
    hide SupportMapping, Suits, MeasureCell, EncodeCell, Baseline, ReadCell, TypeCompatible, MssqlCellAt;
    forall rest {:trigger bytes + rest}
      ensures ReadCell(mappings[c].mssql.ty, mappings[c].mssql.nullable, bytes + rest)
              == Some((MssqlCellAt(batch, mappings[c], runtime, row).value, rest))
    {
      DirectCellReadsBack(encodings[c], mappings[c], runtime, value, rest);
    }
  }

  lemma RowSpells(batch: RecordBatch, mappings: seq<SchemaMapping>, encodings: seq<DirectColumnEncoding>, runtime: Runtime, row: nat)
    requires Bound(batch, mappings, encodings) && AllReadable(mappings) && row < batch.rowCount
    requires Ready(DirectColumns(batch, mappings, encodings, runtime), batch.rowCount)
    requires RowConverts(batch, mappings, runtime, row)
    ensures SpellsRow(TargetColumns(mappings), EncodedCells(DirectColumns(batch, mappings, encodings, runtime), batch.rowCount, row),
                      BaselineRow(batch, mappings, runtime, row))
  {
    assert batch.Valid();
    hide SupportMapping, Bound, DirectColumns, AllReadable, SpellsCell, MssqlCellAt;
    var columns: seq<Column> := DirectColumns(batch, mappings, encodings, runtime);
    var encoded, cells := EncodedCells(columns, batch.rowCount, row), BaselineRow(batch, mappings, runtime, row);
    forall c | 0 <= c < |mappings| ensures SpellsCell(TargetColumns(mappings)[c], encoded[c], cells[c]) {
      assert CellReady(columns[c][row]);
      CellSpells(batch, mappings, encodings, runtime, c, row);
    }
  }

  /** The direct path refines the baseline: for every batch that measures, the baseline
      converts every row, and the direct payload of any row range reads back, from the
      target columns alone, as exactly those rows in order. */
  lemma PayloadReadsBack(batch: RecordBatch, mappings: seq<SchemaMapping>, encodings: seq<DirectColumnEncoding>, runtime: Runtime, start: nat, count: nat)
    requires Bound(batch, mappings, encodings) && AllReadable(mappings) && start + count <= batch.rowCount
    requires AllMeasured(DirectColumns(batch, mappings, encodings, runtime), batch.rowCount)
    ensures Ready(DirectColumns(batch, mappings, encodings, runtime), batch.rowCount)
    ensures forall row :: 0 <= row < batch.rowCount ==> RowConverts(batch, mappings, runtime, row)
    ensures ReadRows(TargetColumns(mappings), PayloadOf(DirectColumns(batch, mappings, encodings, runtime), batch.rowCount, start, count))
            == Some(BaselineRows(batch, mappings, runtime, start, count))
  {
    assert batch.Valid();
    DirectColumnsSound(batch, mappings, encodings, runtime);
    BatchMeasuresExactly(batch, mappings, encodings, runtime);
    hide SupportMapping, Bound, DirectColumns, AllReadable, MssqlCellAt, CellReady, Flatten, RowConverts, Ready,
      SpellsRow, ReadRows, EncodedCells, BaselineRow, TargetColumns;
    var columns: seq<Column> := DirectColumns(batch, mappings, encodings, runtime);
    var rows := BaselineRows(batch, mappings, runtime, start, count);
    var bytes := RowsBytes(columns, batch.rowCount, start, count);
    var encoded := seq(count, k requires 0 <= k < count => EncodedCells(columns, batch.rowCount, start + k));
    forall k | 0 <= k < count
      ensures SpellsRow(TargetColumns(mappings), encoded[k], rows[k]) && bytes[k] == [0xD1] + Flatten(encoded[k])
    {
      RowSpells(batch, mappings, encodings, runtime, start + k);
      assert encoded[k] == EncodedCells(columns, batch.rowCount, start + k);
      assert rows[k] == BaselineRow(batch, mappings, runtime, start + k);
      assert bytes[k] == RowBytes(columns, batch.rowCount, start + k);
    }
    RowsReadBack(TargetColumns(mappings), encoded, bytes, rows);
  }

  ghost function BaselineRows(batch: RecordBatch, mappings: seq<SchemaMapping>, runtime: Runtime, start: nat, count: nat): (r: seq<seq<MssqlCell>>)
    requires batch.Valid() && start + count <= batch.rowCount
    requires forall row :: 0 <= row < batch.rowCount ==> RowConverts(batch, mappings, runtime, row)
    ensures |r| == count
  {
    seq(count, k requires 0 <= k < count => BaselineRow(batch, mappings, runtime, start + k))
  }
}
