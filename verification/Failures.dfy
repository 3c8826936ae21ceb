/** How the direct path fails: the code, the field, the row and the phase of the first
    cell that cannot be sent, in terms of the baseline conversion
    (src/write/direct/rows/measure.rs, src/write/writer.rs). */
module Failures {
  import opened Basics
  import opened Errors
  import opened Types
  import opened Bytes
  import opened Decimals
  import opened DateTimes
  import opened Zones
  import opened Payload
  import opened Classifiers
  import opened Cells
  import opened Wire
  import opened DirectCells
  import opened Refinement
  import opened PlannedTimes
  import opened Batches

  // ------------------------------------------------------------ one cell

  /** What a failed measurement says about the baseline conversion. */
  ghost predicate ExplainsFailure(mapping: SchemaMapping, runtime: Runtime, value: Option<ArrowValue>, failure: CellFailure) {
    match failure
    case Conversion(code) =>
      && code != SchemaMismatch
      && Baseline(mapping, runtime, value).Err?
      && code == if mapping.arrow.dataType.Timestamp? && !ZoneUsable(mapping, runtime.zones)
                 then TimezoneUnsupported else Baseline(mapping, runtime, value).error
    case Payload =>
      Baseline(mapping, runtime, value).Err? ==>
        mapping.mssql.ty.NVarChar? && exists units :: value == Some(TextValue(units)) && |units| > 0x7FFF_FFFF_FFFF_FFFF
  }

  lemma TemporalMeasureFails(kind: TemporalClass, mapping: SchemaMapping, runtime: Runtime, value: Option<ArrowValue>)
    requires Suits(TemporalColumn(kind), mapping, value) && (value.Some? ==> value.value.IntValue?)
    requires MeasureTemporal(kind, mapping, runtime, value).Err?
    ensures
      var failure := MeasureTemporal(kind, mapping, runtime, value).error;
      && failure.Conversion? && failure.code != SchemaMismatch
      && (mapping.arrow.dataType.Timestamp? && !ZoneUsable(mapping, runtime.zones) ==> failure.code == TimezoneUnsupported)
  {
    if mapping.arrow.dataType.Timestamp? {
      ZoneChecked(mapping, runtime.zones);
    }
    if value.Some? {
      TemporalConverts(kind, mapping, runtime, value.value.number);
    }
    hide SupportMapping, ValidateZone, ZoneUsable, DirectTemporal, TemporalLen;
  }

  lemma TemporalConverts(kind: TemporalClass, mapping: SchemaMapping, runtime: Runtime, n: int)
    requires Suits(TemporalColumn(kind), mapping, Some(IntValue(n)))
    ensures
      var direct := DirectTemporal(kind, mapping, runtime, n);
      && (direct.Err? ==> direct.error.Conversion? && direct.error.code != SchemaMismatch)
      && (direct.Ok? ==> TemporalLen(direct.value, mapping.mssql.nullable).Ok?)
  {
    SupportedShape(mapping);
    hide SupportMapping, Pow10;
    match kind
    case Date32ToDate =>
    case Date64ToDateTime2 =>
    case TimeToTime(unit) =>
      TimeConverts(unit, n, runtime.nanosecondPolicy);
      hide TimeOfDay;
    case TimestampToDateTime2(unit, _) =>
      TimestampConverts(unit, mapping, runtime, n);
      hide DirectTimestamp;
    case TimestampToDateTime(unit, _) =>
      TimestampConverts(unit, mapping, runtime, n);
      hide DirectTimestamp;
    case TimestampToDateTimeOffset(unit) =>
      OffsetConverts(unit, mapping.arrow.dataType.timezone.value, runtime, n);
      hide TimestampToOffsetValue;
  }

  lemma TimeConverts(unit: TimeUnit, n: int, policy: NanosecondPolicy)
    ensures TimeOfDay(unit, n, policy).Err? ==> TimeOfDay(unit, n, policy).error != SchemaMismatch
    ensures TimeOfDay(unit, n, policy).Ok? ==> TimeOfDay(unit, n, policy).value.scale <= 7
  {
    TimeOfDayError(unit, n, policy);
  }

  lemma TimestampConverts(unit: TimeUnit, mapping: SchemaMapping, runtime: Runtime, n: int)
    requires I64_MIN <= n <= I64_MAX && (mapping.mssql.ty.DateTime? || (mapping.mssql.ty.DateTime2? && mapping.mssql.ty.precision <= 7))
    ensures
      var direct := DirectTimestamp(unit, mapping, runtime, n);
      && (direct.Err? ==> direct.error.Conversion? && direct.error.code != SchemaMismatch)
      && (direct.Ok? ==> TemporalLen(direct.value, mapping.mssql.nullable).Ok?)
  {
    TimestampTicksExact(unit, n, runtime.nanosecondPolicy);
    TimestampTicksBound(unit, n, runtime.nanosecondPolicy);
    var ticks := TimestampTicks(unit, n, runtime.nanosecondPolicy);
    hide TimestampTicks, DateTimeFromTicks, DateTime2FromTicks, Fragments, HalfUp, ValidDateTime, Pow10, StoredIncrements, TickOf;
    if ticks.Ok? {
      DateTimeExact(ticks.value, runtime.rounding);
      if mapping.mssql.ty.DateTime2? {
        DateTime2Exact(ticks.value, mapping.mssql.ty.precision);
      }
    }
  }

  lemma OffsetConverts(unit: TimeUnit, timezone: string, runtime: Runtime, n: int)
    requires I64_MIN <= n <= I64_MAX
    ensures
      var direct := TimestampToOffsetValue(unit, n, timezone, runtime);
      && (direct.Err? ==> direct.error != SchemaMismatch)
      && (direct.Ok? ==> direct.value.datetime2.time.scale == 7)
  {
    TimestampTicksExact(unit, n, runtime.nanosecondPolicy);
    TimestampTicksBound(unit, n, runtime.nanosecondPolicy);
    ZoneResolves(timezone, runtime.zones);
    var parts := EpochParts(unit, n);
    OffsetsAreBounded(timezone, runtime.zones, parts.0, parts.1);
    var ticks, rule := TimestampTicks(unit, n, runtime.nanosecondPolicy), ResolveZone(timezone, runtime.zones);
    hide TimestampTicks, ResolveZone, EpochParts, OffsetForInstant, DateTimeOffsetFromTicks, ValidDateTime2, StoredIncrements, TickOf, ZoneValid;
    if rule.Ok? {
      OffsetCodes(rule.value, runtime.zones, parts.0, parts.1);
      var offset := OffsetForInstant(rule.value, runtime.zones, parts.0, parts.1);
      if ticks.Ok? && offset.Ok? {
        DateTimeOffsetExact(ticks.value, offset.value);
      }
    }
  }

  lemma OffsetCodes(rule: ZoneRule, zones: ZoneDatabase, seconds: int, nanoseconds: int)
    ensures OffsetForInstant(rule, zones, seconds, nanoseconds) != Err(SchemaMismatch)
  {
  }

  lemma OnlyTemporalTimestamps(encoding: DirectColumnEncoding, mapping: SchemaMapping)
    requires SupportMapping(mapping) == Some(encoding)
    ensures mapping.arrow.dataType.Timestamp? ==> encoding.TemporalColumn?
    ensures encoding.VariableWidthColumn? && encoding.variable.StringToNVarChar? ==> mapping.mssql.ty.NVarChar?
  {
    SupportedShape(mapping);
    hide SupportMapping;
  }

  lemma NullBaseline(mapping: SchemaMapping, runtime: Runtime)
    requires !mapping.mssql.nullable
    ensures Baseline(mapping, runtime, None) == Err(NullInNonNullableColumn)
  {
  }

  lemma NullMeasureFails(encoding: DirectColumnEncoding, mapping: SchemaMapping, runtime: Runtime)
    requires MeasureCell(encoding, mapping, runtime, None).Err? && !encoding.TemporalColumn?
    ensures MeasureCell(encoding, mapping, runtime, None) == Err(Conversion(NullInNonNullableColumn)) && !mapping.mssql.nullable
  {
  }

  lemma NullTemporalFails(kind: TemporalClass, mapping: SchemaMapping, runtime: Runtime)
    requires MeasureTemporal(kind, mapping, runtime, None).Err?
    ensures
      MeasureTemporal(kind, mapping, runtime, None) ==
        Err(Conversion(if mapping.arrow.dataType.Timestamp? && !ZoneUsable(mapping, runtime.zones) then TimezoneUnsupported else NullInNonNullableColumn))
    ensures !(mapping.arrow.dataType.Timestamp? && !ZoneUsable(mapping, runtime.zones)) ==> !mapping.mssql.nullable
  {
    if mapping.arrow.dataType.Timestamp? {
      ZoneChecked(mapping, runtime.zones);
      hide ValidateZone, ZoneUsable;
    }
  }

  lemma ValueMeasureFails(encoding: DirectColumnEncoding, mapping: SchemaMapping, runtime: Runtime, v: ArrowValue)
    requires Suits(encoding, mapping, Some(v)) && KindFits(encoding, v) && !encoding.TemporalColumn?
    requires MeasureCell(encoding, mapping, runtime, Some(v)).Err?
    ensures MeasureCell(encoding, mapping, runtime, Some(v)) != Err(Conversion(SchemaMismatch))
  {
    hide Suits, FitsPrecision, NormalizeUnscaled, IsFinite, SignedLE;
  }

  /** A payload failure is about a length that the row format cannot carry. */
  lemma PayloadFailure(encoding: DirectColumnEncoding, mapping: SchemaMapping, runtime: Runtime, v: ArrowValue)
    requires Suits(encoding, mapping, Some(v)) && KindFits(encoding, v) && !encoding.TemporalColumn?
    requires MeasureCell(encoding, mapping, runtime, Some(v)) == Err(CellFailure.Payload)
    ensures encoding.VariableWidthColumn? || encoding.FixedBinaryColumn?
    ensures Baseline(mapping, runtime, Some(v)).Err? ==>
      mapping.mssql.ty.NVarChar? && exists units :: v == TextValue(units) && |units| > 0x7FFF_FFFF_FFFF_FFFF
  {
    SupportedShape(mapping);
    hide SupportMapping, ClassifyDecimal, NormalizedDecimal, IsFinite, SignedLE, LE, UnitsToBytes, CodeUnits;
    if v.TextValue? {
      assert v == TextValue(v.units);
    }
  }

  lemma FailureExplained(encoding: DirectColumnEncoding, mapping: SchemaMapping, runtime: Runtime, value: Option<ArrowValue>)
    requires Suits(encoding, mapping, value) && (value.Some? ==> KindFits(encoding, value.value))
    requires MeasureCell(encoding, mapping, runtime, value).Err?
    ensures ExplainsFailure(mapping, runtime, value, MeasureCell(encoding, mapping, runtime, value).error)
  {
    CellRefines(encoding, mapping, runtime, value);
    OnlyTemporalTimestamps(encoding, mapping);
    hide SupportMapping, Baseline, ZoneUsable, MeasureTemporal, EncodeCell, MeasureCell, WireCell, CellOf, MeasuredFraming, ValueFits, InRange;
    if value.None? {
      if encoding.TemporalColumn? {
        NullTemporalFails(encoding.temporal, mapping, runtime);
        assert MeasureCell(encoding, mapping, runtime, value) == MeasureTemporal(encoding.temporal, mapping, runtime, value);
      } else {
        NullMeasureFails(encoding, mapping, runtime);
      }
      if !mapping.mssql.nullable {
        NullBaseline(mapping, runtime);
      }
    } else if encoding.TemporalColumn? {
      TemporalMeasureFails(encoding.temporal, mapping, runtime, value);
    } else {
      ValueMeasureFails(encoding, mapping, runtime, value.value);
      if MeasureCell(encoding, mapping, runtime, value).error.Payload? {
        PayloadFailure(encoding, mapping, runtime, value.value);
      }
    }
  }

  // ------------------------------------------------------------- batches

  /** The baseline converts the cell and the row format can carry it. */
  ghost predicate CellSends(batch: RecordBatch, mappings: seq<SchemaMapping>, runtime: Runtime, c: nat, row: nat)
    requires batch.Valid() && c < |mappings| && row < batch.rowCount
  {
    && MssqlCellAt(batch, mappings[c], runtime, row).Ok?
    && MeasuredFraming(mappings[c].mssql.ty, MssqlCellAt(batch, mappings[c], runtime, row).value)
  }

  /** The first cell, in column order, that cannot be sent. */
  ghost predicate FirstUnsendable(batch: RecordBatch, mappings: seq<SchemaMapping>, runtime: Runtime, c: nat, row: nat)
    requires batch.Valid()
  {
    && c < |mappings| && row < batch.rowCount && !CellSends(batch, mappings, runtime, c, row)
    && (forall row' :: 0 <= row' < row ==> CellSends(batch, mappings, runtime, c, row'))
    && (forall c', row' :: 0 <= c' < c && 0 <= row' < batch.rowCount ==> CellSends(batch, mappings, runtime, c', row'))
  }

  /** The code a cell fails to convert with: the baseline's, except that the direct path
      looks at the zone of a null timestamp before its nullability. */
  ghost predicate FailsWith(batch: RecordBatch, mapping: SchemaMapping, runtime: Runtime, row: nat, code: DiagnosticCode)
    requires batch.Valid() && row < batch.rowCount
  {
    && MssqlCellAt(batch, mapping, runtime, row).Err?
    && code == if mapping.arrow.dataType.Timestamp? && !ZoneUsable(mapping, runtime.zones)
               then TimezoneUnsupported else MssqlCellAt(batch, mapping, runtime, row).error
  }

  /** A value that no conversion refused before its length did: the cell converts, or is a
      text whose UTF-16 byte count overflows a `usize`. */
  ghost predicate TooLong(batch: RecordBatch, mapping: SchemaMapping, runtime: Runtime, row: nat)
    requires batch.Valid() && row < batch.rowCount
  {
    MssqlCellAt(batch, mapping, runtime, row).Err? ==>
      && mapping.mssql.ty.NVarChar? && mapping.arrow.index < |batch.columns|
      && exists units :: batch.columns[mapping.arrow.index].values[row] == Some(TextValue(units)) && |units| > 0x7FFF_FFFF_FFFF_FFFF
  }

  /** The error and the phase that one cell fails a batch with. */
  ghost predicate CellFailsAs(batch: RecordBatch, mappings: seq<SchemaMapping>, runtime: Runtime, c: nat, row: nat, error: Error, phase: WritePhase)
    requires batch.Valid() && c < |mappings| && row < batch.rowCount
  {
    || (phase == ValueConversionPhase
        && exists code :: FailsWith(batch, mappings[c], runtime, row, code) && error == ValueConversion([Diagnostic(code, Some(c), Some(row))]))
    || (phase == DirectEncodingPhase && TooLong(batch, mappings[c], runtime, row)
        && error == DirectEncoding([Diagnostic(DirectEncodingInvalidPayload, None, None)]))
  }

  /** Each direct cell measures or fails as the baseline conversion says. */
  lemma CellMeasuresOrFails(batch: RecordBatch, mappings: seq<SchemaMapping>, encodings: seq<DirectColumnEncoding>, runtime: Runtime, c: nat, row: nat)
    requires Bound(batch, mappings, encodings) && c < |mappings| && row < batch.rowCount
    ensures DirectColumns(batch, mappings, encodings, runtime)[c][row].measured.Ok? <==> CellSends(batch, mappings, runtime, c, row)
    ensures
      var measured := DirectColumns(batch, mappings, encodings, runtime)[c][row].measured;
      measured.Err? ==> CellFailsAs(batch, mappings, runtime, c, row, measured.error, PhaseOfBatchError(measured.error))
  {
    CellAgrees(batch, mappings, encodings, runtime, c, row);
    BoundSuits(batch, mappings, encodings, c, row);
    var value := ValueAt(batch, c, row);
    var measured := MeasureCell(encodings[c], mappings[c], runtime, value);
    if measured.Err? {
      FailureExplained(encodings[c], mappings[c], runtime, value);
      hide SupportMapping, Suits, MeasureCell, EncodeCell, Baseline, MssqlCellAt, ZoneUsable, MeasuredFraming, StandsIn, TypeCompatible;
      if measured.error.Conversion? {
        assert FailsWith(batch, mappings[c], runtime, row, measured.error.code);
        OneMismatchOnly(measured.error.code, c, row);
      } else {
        assert TooLong(batch, mappings[c], runtime, row);
      }
    }
  }

  lemma OneMismatchOnly(code: DiagnosticCode, field: nat, row: nat)
    requires code != SchemaMismatch
    ensures PhaseOfBatchError(ValueConversion([Diagnostic(code, Some(field), Some(row))])) == ValueConversionPhase
  {
    assert [Diagnostic(code, Some(field), Some(row))][0].code == code;
  }

  /** What a failed measurement of an accepted batch reports. */
  ghost predicate ReportsFirstUnsendable(batch: RecordBatch, mappings: seq<SchemaMapping>, runtime: Runtime, error: Error, phase: WritePhase)
    requires batch.Valid()
  {
    exists c: nat, row: nat :: FirstUnsendable(batch, mappings, runtime, c, row) && CellFailsAs(batch, mappings, runtime, c, row, error, phase)
  }

  /** The first failure in column order is the first cell that cannot be sent, and names
      its code, field and row. */
  lemma FirstFailureReports(batch: RecordBatch, mappings: seq<SchemaMapping>, encodings: seq<DirectColumnEncoding>, runtime: Runtime, c: nat, row: nat)
    requires Bound(batch, mappings, encodings)
    requires FirstFailureInColumnOrder(DirectColumns(batch, mappings, encodings, runtime), batch.rowCount, c, row)
    ensures
      var error := DirectColumns(batch, mappings, encodings, runtime)[c][row].measured.error;
      MeasureFailure(batch, mappings, runtime, error, PhaseOfBatchError(error))
  {
    var columns: seq<Column> := DirectColumns(batch, mappings, encodings, runtime);
    forall c', row' | 0 <= c' < |mappings| && 0 <= row' < batch.rowCount
      ensures columns[c'][row'].measured.Ok? <==> CellSends(batch, mappings, runtime, c', row')
    {
      CellMeasuresOrFails(batch, mappings, encodings, runtime, c', row');
    }
    CellMeasuresOrFails(batch, mappings, encodings, runtime, c, row);
    hide Bound, CellSends, CellFailsAs, DirectColumns, PhaseOfBatchError;
    assert FirstUnsendable(batch, mappings, runtime, c, row);
  }

  ghost predicate AllSend(batch: RecordBatch, mappings: seq<SchemaMapping>, runtime: Runtime)
    requires batch.Valid()
  {
    forall c: nat, row: nat :: c < |mappings| && row < batch.rowCount ==> CellSends(batch, mappings, runtime, c, row)
  }

  lemma AllSendMeasures(batch: RecordBatch, mappings: seq<SchemaMapping>, encodings: seq<DirectColumnEncoding>, runtime: Runtime)
    requires Bound(batch, mappings, encodings)
    ensures AllMeasured(DirectColumns(batch, mappings, encodings, runtime), batch.rowCount) <==> AllSend(batch, mappings, runtime)
  {
    var columns: seq<Column> := DirectColumns(batch, mappings, encodings, runtime);
    forall c, row | 0 <= c < |mappings| && 0 <= row < batch.rowCount
      ensures columns[c][row].measured.Ok? <==> CellSends(batch, mappings, runtime, c, row)
    {
      CellMeasuresOrFails(batch, mappings, encodings, runtime, c, row);
    }
    hide Bound, CellSends, DirectColumns;
  }

  /** Why an accepted batch does not measure: its first cell that cannot be sent, or, when
      every cell can, its size. */
  ghost predicate MeasureFailure(batch: RecordBatch, mappings: seq<SchemaMapping>, runtime: Runtime, error: Error, phase: WritePhase)
    requires batch.Valid()
  {
    || ReportsFirstUnsendable(batch, mappings, runtime, error, phase)
    || (AllSend(batch, mappings, runtime) && phase == DirectEncodingPhase
        && error == DirectEncoding([Diagnostic(DirectEncodingInvalidPayload, None, None)]))
  }

  lemma SizeFailure(batch: RecordBatch, mappings: seq<SchemaMapping>, runtime: Runtime)
    requires batch.Valid() && AllSend(batch, mappings, runtime)
    ensures MeasureFailure(batch, mappings, runtime, InvalidPayload(), PhaseOfBatchError(InvalidPayload()))
  {
    hide AllSend, ReportsFirstUnsendable;
  }
}
