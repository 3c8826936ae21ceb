/** One direct cell refines the baseline cell: same acceptance up to the row
    format's length limits, and bytes that read back as the baseline cell. */
module Refinement {
  import opened Basics
  import opened Errors
  import opened Types
  import opened Bytes
  import opened Decimals
  import opened DateTimes
  import opened Classifiers
  import opened Cells
  import opened Wire
  import opened DirectCells

  /** The tag under which extraction hands over a value of a planned type. */
  function TagOf(planned: DataType): DataType {
    if IsStringFamily(planned) then Utf8
    else if IsBinaryFamily(planned) || planned.FixedSizeBinary? then Binary
    else ArrayKind(planned)
  }

  function CellFor(mapping: SchemaMapping, value: Option<ArrowValue>): ArrowCell {
    if value.None? then NullCell else ValueCell(TagOf(mapping.arrow.dataType), value.value)
  }

  /** The baseline conversion of a value read under a mapping. */
  function Baseline(mapping: SchemaMapping, runtime: Runtime, value: Option<ArrowValue>): Result<MssqlCell, DiagnosticCode> {
    FromArrowCell(mapping, runtime, CellFor(mapping, value))
  }

  /** A supported mapping and a value its arrays can hold. */
  ghost predicate Suits(encoding: DirectColumnEncoding, mapping: SchemaMapping, value: Option<ArrowValue>) {
    && InRange(mapping.arrow.dataType)
    && SupportMapping(mapping) == Some(encoding)
    && (value.Some? ==> ValueFits(mapping.arrow.dataType, value.value))
  }

  /** Measuring checks the length limit of every framing but fixed binary's. */
  ghost predicate MeasuredFraming(ty: MssqlType, cell: MssqlCell) {
    ty.FixedBinary? || Framed(ty, cell)
  }

  /** The length prefix of fixed binary is an unchecked cast away from its limit only
      in mappings that planning never makes. */
  predicate PrefixHolds(ty: MssqlType) { ty.FixedBinary? ==> ty.size <= 0xFFFF }

  /** What one direct cell owes the baseline. */
  ghost predicate Refined(encoding: DirectColumnEncoding, mapping: SchemaMapping, runtime: Runtime, value: Option<ArrowValue>)
    requires value.Some? ==> KindFits(encoding, value.value)
  {
    var ty, nullable := mapping.mssql.ty, mapping.mssql.nullable;
    var measured := MeasureCell(encoding, mapping, runtime, value);
    var base := Baseline(mapping, runtime, value);
    && (base.Ok? ==> CellOf(ty, nullable, base.value))
    && (measured.Ok? <==> base.Ok? && MeasuredFraming(ty, base.value))
    && (measured.Ok? ==> measured.value == |WireCell(ty, nullable, base.value)|)
    && (measured.Ok? && PrefixHolds(ty) ==>
          EncodeCell(encoding, mapping, runtime, value, measured.value) == Ok(WireCell(ty, nullable, base.value)))
    && (value.Some? && measured.Err? && measured.error.Conversion? ==> base == Err(measured.error.code))
  }

  lemma SuitsKind(encoding: DirectColumnEncoding, mapping: SchemaMapping, value: Option<ArrowValue>)
    requires Suits(encoding, mapping, value)
    ensures value.Some? ==> KindFits(encoding, value.value)
  {
    SupportedShape(mapping);
    hide SupportMapping, ClassifyDecimal, CodeUnits;
  }

  // ---------------------------------------------------------- primitives

  lemma PrimitiveNullRefines(encoding: DirectColumnEncoding, mapping: SchemaMapping, runtime: Runtime)
    requires Suits(encoding, mapping, None) && encoding.PrimitiveColumn?
    ensures Refined(encoding, mapping, runtime, None)
  {
    SupportedShape(mapping);
    hide SupportMapping, LE, IsFinite, Pow256, PrimitiveBytes, ClassifyDecimal, ClassifyTemporal;
  }

  /** The cell a checked primitive value becomes. */
  function PrimitiveResult(kind: PrimitiveClass, value: ArrowValue): MssqlCell
    requires KindFits(PrimitiveColumn(kind), value)
  {
    match kind
    case BooleanToBit => BitCell(Some(value.flag))
    case UInt8ToTinyInt => TinyIntCell(Some(value.number))
    case Int8ToSmallInt | Int16ToSmallInt => SmallIntCell(Some(value.number))
    case Int32ToInt | UInt16ToInt => IntCell(Some(value.number))
    case Int64ToBigInt | UInt32ToBigInt | UInt64ToCheckedBigInt => BigIntCell(Some(value.number))
    case Float16ToReal | Float32ToReal => RealCell(Some(value.image))
    case Float64ToFloat => FloatCell(Some(value.image))
  }

  lemma PrimitiveBaseline(kind: PrimitiveClass, mapping: SchemaMapping, runtime: Runtime, v: ArrowValue)
    requires ClassifyPrimitive(mapping) == Ok(kind) && ValueFits(mapping.arrow.dataType, v) && KindFits(PrimitiveColumn(kind), v)
    ensures PrimitiveBytes(kind, v).Err? ==>
      PrimitiveBytes(kind, v).error.Conversion?
      && Baseline(mapping, runtime, Some(v)) == Err(PrimitiveBytes(kind, v).error.code)
    ensures PrimitiveBytes(kind, v).Ok? ==> Baseline(mapping, runtime, Some(v)) == Ok(PrimitiveResult(kind, v))
  {
    hide IsFinite, SignedLE;
  }

  lemma IntegerContent(kind: PrimitiveClass, mapping: SchemaMapping, n: int)
    requires ClassifyPrimitive(mapping) == Ok(kind) && ValueFits(mapping.arrow.dataType, IntValue(n))
    requires KindFits(PrimitiveColumn(kind), IntValue(n)) && PrimitiveBytes(kind, IntValue(n)).Ok?
    ensures CellOf(mapping.mssql.ty, mapping.mssql.nullable, PrimitiveResult(kind, IntValue(n)))
    ensures Content(PrimitiveResult(kind, IntValue(n))) == Some(SignedLE(n, PrimitiveLen(kind)))
  {
    PowersOf256();
    hide LE, SignedLE, Pow256;
  }

  lemma PrimitiveFraming(kind: PrimitiveClass, mapping: SchemaMapping)
    requires ClassifyPrimitive(mapping) == Ok(kind)
    ensures FramingOf(mapping.mssql.ty) == Fixed(PrimitiveLen(kind))
  {
  }

  lemma PrimitiveContent(kind: PrimitiveClass, mapping: SchemaMapping, v: ArrowValue)
    requires ClassifyPrimitive(mapping) == Ok(kind) && ValueFits(mapping.arrow.dataType, v) && KindFits(PrimitiveColumn(kind), v)
    requires PrimitiveBytes(kind, v).Ok?
    ensures CellOf(mapping.mssql.ty, mapping.mssql.nullable, PrimitiveResult(kind, v))
    ensures Content(PrimitiveResult(kind, v)) == Some(PrimitiveBytes(kind, v).value)
    ensures |PrimitiveBytes(kind, v).value| == PrimitiveLen(kind)
  {
    if v.IntValue? {
      IntegerContent(kind, mapping, v.number);
      hide ClassifyPrimitive, CellOf, Content, PrimitiveResult, PrimitiveLen, ValueFits;
    } else {
      hide IsFinite, LE, SignedLE;
    }
  }

  lemma PrimitiveRefines(kind: PrimitiveClass, mapping: SchemaMapping, runtime: Runtime, value: Option<ArrowValue>)
    requires Suits(PrimitiveColumn(kind), mapping, value)
    requires value.Some? ==> KindFits(PrimitiveColumn(kind), value.value)
    ensures Refined(PrimitiveColumn(kind), mapping, runtime, value)
  {
    if value.None? {
      PrimitiveNullRefines(PrimitiveColumn(kind), mapping, runtime);
    } else {
      SupportedShape(mapping);
      assert ClassifyPrimitive(mapping) == Ok(kind);
      PrimitiveFraming(kind, mapping);
      PrimitiveBaseline(kind, mapping, runtime, value.value);
      if PrimitiveBytes(kind, value.value).Ok? {
        PrimitiveContent(kind, mapping, value.value);
      }
      hide Baseline, SupportMapping, ClassifyPrimitive, PrimitiveBytes, PrimitiveLen, PrimitiveResult, CellOf, FramingOf, Content, ValueFits;
      assert value == Some(value.value);
    }
  }

  // ------------------------------------------------------ variable width

  lemma TextNullRefines(length: TypeLength, mapping: SchemaMapping, runtime: Runtime)
    requires Suits(VariableWidthColumn(StringToNVarChar(length)), mapping, None)
    ensures Refined(VariableWidthColumn(StringToNVarChar(length)), mapping, runtime, None)
  {
    SupportedShape(mapping);
    assert mapping.mssql.ty == NVarChar(length);
    hide SupportMapping, LE;
  }

  lemma TextBaseline(length: TypeLength, mapping: SchemaMapping, runtime: Runtime, units: seq<nat>)
    requires Suits(VariableWidthColumn(StringToNVarChar(length)), mapping, Some(TextValue(units)))
    ensures mapping.mssql.ty == NVarChar(length) && CodeUnits(units)
    ensures Baseline(mapping, runtime, Some(TextValue(units))) ==
      if ExceedsLength(length, |units|) then Err(ValueTooLong) else Ok(NVarCharCell(Some(units)))
  {
    SupportedShape(mapping);
    hide SupportMapping, CodeUnits;
  }

  /** The byte count read back from a measured length is the one that was measured. */
  lemma TextLengthInverts(length: TypeLength, units: seq<nat>)
    requires VariableCellLen(length, 2 * |units|).Ok?
    ensures TextBytesOfLen(length, VariableCellLen(length, 2 * |units|).value) == Ok(2 * |units|)
  {
  }

  lemma VariableWireLen(length: TypeLength, data: seq<byte>)
    ensures VariableCellLen(length, |data|).Ok? <==> |data| <= if length.Max? then MAX_PLP_CHUNK_LEN else MAX_BOUNDED_LEN
    ensures VariableCellLen(length, |data|).Ok? ==> VariableCellLen(length, |data|).value == |VariableWire(length, Some(data))|
  {
    hide LE;
  }

  lemma TextRefines(length: TypeLength, mapping: SchemaMapping, runtime: Runtime, value: Option<ArrowValue>)
    requires Suits(VariableWidthColumn(StringToNVarChar(length)), mapping, value)
    requires value.Some? ==> value.value.TextValue?
    ensures Refined(VariableWidthColumn(StringToNVarChar(length)), mapping, runtime, value)
  {
    if value.None? {
      TextNullRefines(length, mapping, runtime);
    } else {
      var units := value.value.units;
      assert value == Some(TextValue(units));
      TextBaseline(length, mapping, runtime, units);
      VariableWireLen(length, UnitsToBytes(units));
      if VariableCellLen(length, 2 * |units|).Ok? {
        TextLengthInverts(length, units);
      }
      hide SupportMapping, Baseline, UnitsToBytes, CodeUnits, VariableWire, TextBytesOfLen;
    }
  }

  lemma BinaryRefines(length: TypeLength, mapping: SchemaMapping, runtime: Runtime, value: Option<ArrowValue>)
    requires Suits(VariableWidthColumn(BytesToVarBinary(length)), mapping, value)
    requires value.Some? ==> value.value.BytesValue?
    ensures Refined(VariableWidthColumn(BytesToVarBinary(length)), mapping, runtime, value)
  {
    SupportedShape(mapping);
    assert ClassifyVariableWidth(mapping) == Ok(BytesToVarBinary(length));
    assert mapping.mssql.ty == VarBinary(length);
    hide SupportMapping, LE, UnitsToBytes, CodeUnits;
  }

  lemma FixedBinaryRefines(length: nat, mapping: SchemaMapping, runtime: Runtime, value: Option<ArrowValue>)
    requires Suits(FixedBinaryColumn(length), mapping, value)
    requires value.Some? ==> value.value.BytesValue?
    ensures Refined(FixedBinaryColumn(length), mapping, runtime, value)
  {
    SupportedShape(mapping);
    assert mapping.mssql.ty == FixedBinary(length) && mapping.arrow.dataType == FixedSizeBinary(length);
    hide SupportMapping, LE;
  }

  // ------------------------------------------------------------- decimals

  /** Every UInt64 fits decimal(20,0): the direct path may skip the precision check. */
  lemma UInt64FitsTwentyDigits(n: int)
    requires 0 <= n <= U64_MAX
    ensures FitsPrecision(n, 20) && FitsI128(n)
  {
    Pow10Values();
    FitsPrecisionExact(n, 20);
    hide Pow10;
  }

  lemma DecimalNullRefines(encoding: DirectColumnEncoding, mapping: SchemaMapping, runtime: Runtime)
    requires Suits(encoding, mapping, None) && (encoding.DecimalColumn? || encoding.UInt64DecimalColumn?)
    ensures Refined(encoding, mapping, runtime, None)
  {
    SupportedShape(mapping);
    hide SupportMapping, LE;
  }

  /** Both paths reach the same unscaled integer, or fail alike. */
  ghost predicate SameDecimalNumber(encoding: DirectColumnEncoding, mapping: SchemaMapping, runtime: Runtime, n: int)
    requires encoding.DecimalColumn? || encoding.UInt64DecimalColumn?
    requires mapping.mssql.ty.Decimal? && mapping.mssql.ty.scale >= 0
  {
    var direct := DecimalNumber(encoding, n);
    var base := Baseline(mapping, runtime, Some(IntValue(n)));
    && (direct.Err? ==> direct.error.Conversion? && base == Err(direct.error.code))
    && (direct.Ok? ==> FitsI128(direct.value) && base == Ok(DecimalCell(Some(MssqlDecimal(direct.value, mapping.mssql.ty.scale)))))
  }

  lemma UInt64DecimalBaseline(mapping: SchemaMapping, runtime: Runtime, n: int)
    requires mapping.arrow.dataType.UInt64? && mapping.mssql.ty == MssqlType.Decimal(20, 0) && 0 <= n <= U64_MAX
    ensures SameDecimalNumber(UInt64DecimalColumn, mapping, runtime, n)
  {
    UInt64FitsTwentyDigits(n);
    hide FitsPrecision, Pow10;
  }

  lemma ArrowDecimalBaseline(kind: DecimalClass, mapping: SchemaMapping, runtime: Runtime, n: int)
    requires ClassifyDecimal(mapping) == Ok(kind) && ValueFits(mapping.arrow.dataType, IntValue(n))
    ensures mapping.mssql.ty.Decimal? && mapping.mssql.ty.scale >= 0
    ensures SameDecimalNumber(DecimalColumn(kind), mapping, runtime, n)
  {
    NormalizedFits(kind, mapping, n);
    hide NormalizedDecimal;
  }

  lemma NormalizedFits(kind: DecimalClass, mapping: SchemaMapping, n: int)
    requires ClassifyDecimal(mapping) == Ok(kind) && ValueFits(mapping.arrow.dataType, IntValue(n))
    ensures NormalizedDecimal(n, kind).Ok? ==> FitsI128(NormalizedDecimal(n, kind).value)
  {
    hide Pow10, FitsPrecision;
  }

  lemma DecimalBaseline(encoding: DirectColumnEncoding, mapping: SchemaMapping, runtime: Runtime, n: int)
    requires Suits(encoding, mapping, Some(IntValue(n))) && (encoding.DecimalColumn? || encoding.UInt64DecimalColumn?)
    ensures mapping.mssql.ty.Decimal? && mapping.mssql.ty.scale >= 0
    ensures SameDecimalNumber(encoding, mapping, runtime, n)
  {
    SupportedShape(mapping);
    hide SupportMapping, ClassifyDecimal, SameDecimalNumber;
    if encoding.UInt64DecimalColumn? {
      UInt64DecimalBaseline(mapping, runtime, n);
    } else {
      ArrowDecimalBaseline(encoding.decimal, mapping, runtime, n);
    }
  }

  lemma DecimalRefines(encoding: DirectColumnEncoding, mapping: SchemaMapping, runtime: Runtime, value: Option<ArrowValue>)
    requires Suits(encoding, mapping, value) && (encoding.DecimalColumn? || encoding.UInt64DecimalColumn?)
    requires value.Some? ==> value.value.IntValue?
    ensures Refined(encoding, mapping, runtime, value)
  {
    hide Baseline, SupportMapping, DecimalNumber, MagnitudeBytes, MagnitudeLen, Pow10, InRange, ValueFits;
    if value.None? {
      DecimalNullRefines(encoding, mapping, runtime);
    } else {
      assert value == Some(IntValue(value.value.number));
      DecimalBaseline(encoding, mapping, runtime, value.value.number);
    }
  }

  // ------------------------------------------------------------- temporal

  function TemporalResult(value: TemporalValue): MssqlCell {
    match value
    case DateOf(days) => DateCell(Some(days))
    case TimeOf(time) => TimeCell(Some(time))
    case DateTime2Of(d) => DateTime2Cell(Some(d))
    case DateTimeOf(d) => DateTimeCell(Some(d))
    case OffsetOf(d) => DateTimeOffsetCell(Some(d))
  }

  lemma TemporalNullRefines(kind: TemporalClass, mapping: SchemaMapping, runtime: Runtime)
    requires Suits(TemporalColumn(kind), mapping, None)
    ensures Refined(TemporalColumn(kind), mapping, runtime, None)
  {
    SupportedShape(mapping);
    hide SupportMapping, LE, ResolveZone;
  }

  /** Baseline and direct conversion of a temporal value are the same computation,
      behind the same timezone check. */
  lemma TemporalBaseline(kind: TemporalClass, mapping: SchemaMapping, runtime: Runtime, n: int)
    requires Suits(TemporalColumn(kind), mapping, Some(IntValue(n)))
    ensures
      var zone := ValidateZone(mapping, runtime.zones);
      var direct := DirectTemporal(kind, mapping, runtime, n);
      var base := Baseline(mapping, runtime, Some(IntValue(n)));
      if zone.Err? then base == Err(zone.error)
      else if direct.Err? then direct.error.Conversion? && base == Err(direct.error.code)
      else base == Ok(TemporalResult(direct.value))
  {
    SupportedShape(mapping);
    hide SupportMapping, ResolveZone, DateFromDate32, DateTime2FromDate64, TimeOfDay, TimestampToDateTimeValue, TimestampToDateTime2Value,
      OffsetForInstant, DateTimeOffsetFromTicks, TimestampTicks, EpochParts;
  }

  lemma TimestampTicksBound(unit: TimeUnit, n: int, policy: NanosecondPolicy)
    requires I64_MIN <= n <= I64_MAX
    ensures TimestampTicks(unit, n, policy).Ok? ==>
      -0x8000_0000_0000_0000 * 10_000_000 <= TimestampTicks(unit, n, policy).value <= 0x8000_0000_0000_0000 * 10_000_000
  {
  }

  /** Conversion never produces a value the cell writers would refuse. */
  lemma DirectTemporalValid(kind: TemporalClass, mapping: SchemaMapping, runtime: Runtime, n: int)
    requires Suits(TemporalColumn(kind), mapping, Some(IntValue(n)))
    requires DirectTemporal(kind, mapping, runtime, n).Ok?
    ensures TemporalValid(DirectTemporal(kind, mapping, runtime, n).value)
    ensures CellOf(mapping.mssql.ty, mapping.mssql.nullable, TemporalResult(DirectTemporal(kind, mapping, runtime, n).value))
  {
    SupportedShape(mapping);
    hide SupportMapping, Pow10;
    match kind
    case Date32ToDate =>
    case Date64ToDateTime2 =>
      ConvertedTimesAreValid(n, runtime.nanosecondPolicy);
    case TimeToTime(unit) =>
      ConvertedTimesAreValid(n, runtime.nanosecondPolicy);
      hide ValidTime, TimeFromNanoseconds;
    case TimestampToDateTime2(unit, _) =>
      TimestampValid(unit, mapping, runtime, n);
    case TimestampToDateTime(unit, _) =>
      TimestampValid(unit, mapping, runtime, n);
    case TimestampToDateTimeOffset(unit) =>
      OffsetValid(unit, mapping.arrow.dataType.timezone.value, runtime, n);
      hide TimestampToOffsetValue, ValidDateTimeOffset;
  }

  lemma TimestampValid(unit: TimeUnit, mapping: SchemaMapping, runtime: Runtime, n: int)
    requires I64_MIN <= n <= I64_MAX && DirectTimestamp(unit, mapping, runtime, n).Ok?
    ensures TemporalValid(DirectTimestamp(unit, mapping, runtime, n).value)
    ensures CellOf(mapping.mssql.ty, mapping.mssql.nullable, TemporalResult(DirectTimestamp(unit, mapping, runtime, n).value))
  {
    TimestampTicksBound(unit, n, runtime.nanosecondPolicy);
    var ticks := TimestampTicks(unit, n, runtime.nanosecondPolicy);
    hide TimestampTicks, DateTimeFromTicks, DateTime2FromTicks, ValidDateTime, ValidDateTime2, Pow10, HalfUp;
    if ticks.Ok? {
      DateTimeExact(ticks.value, runtime.rounding);
      if mapping.mssql.ty.DateTime2? {
        DateTime2Exact(ticks.value, mapping.mssql.ty.precision);
      }
    }
  }

  lemma OffsetValid(unit: TimeUnit, timezone: string, runtime: Runtime, n: int)
    requires I64_MIN <= n <= I64_MAX && TimestampToOffsetValue(unit, n, timezone, runtime).Ok?
    ensures ValidDateTimeOffset(TimestampToOffsetValue(unit, n, timezone, runtime).value)
  {
    TimestampTicksBound(unit, n, runtime.nanosecondPolicy);
    var ticks := TimestampTicks(unit, n, runtime.nanosecondPolicy).value;
    var rule := ResolveZone(timezone, runtime.zones).value;
    var parts := EpochParts(unit, n);
    OffsetsAreBounded(timezone, runtime.zones, parts.0, parts.1);
    var offset := OffsetForInstant(rule, runtime.zones, parts.0, parts.1).value;
    DateTimeOffsetExact(ticks, offset);
    hide TimestampTicks, ResolveZone, EpochParts, OffsetForInstant, DateTimeOffsetFromTicks, ValidDateTimeOffset;
  }

  lemma TemporalContent(value: TemporalValue, ty: MssqlType, nullable: bool)
    requires TemporalValid(value) && CellOf(ty, nullable, TemporalResult(value))
    ensures Content(TemporalResult(value)) == Some(TemporalBytes(value))
    ensures FramingOf(ty) == if value.DateTimeOf? then Fixed(8) else Prefixed
    ensures TemporalLen(value, nullable) ==
      Ok(|TemporalBytes(value)| + if value.DateTimeOf? && !nullable then 0 else 1)
    ensures Framed(ty, TemporalResult(value))
  {
    hide LE, SignedLE, Pow10, ValidDateTime;
  }

  lemma TemporalRefines(kind: TemporalClass, mapping: SchemaMapping, runtime: Runtime, value: Option<ArrowValue>)
    requires Suits(TemporalColumn(kind), mapping, value)
    requires value.Some? ==> value.value.IntValue?
    ensures Refined(TemporalColumn(kind), mapping, runtime, value)
  {
    hide SupportMapping, Baseline, ValidateZone, DirectTemporal, TemporalValid, TemporalBytes, TemporalLen, TemporalResult,
      CellOf, Content, FramingOf, Framed, InRange, ValueFits;
    if value.None? {
      TemporalNullRefines(kind, mapping, runtime);
    } else {
      var n := value.value.number;
      assert value == Some(IntValue(n));
      TemporalBaseline(kind, mapping, runtime, n);
      var direct := DirectTemporal(kind, mapping, runtime, n);
      if direct.Ok? {
        DirectTemporalValid(kind, mapping, runtime, n);
        TemporalContent(direct.value, mapping.mssql.ty, mapping.mssql.nullable);
      }
    }
  }

  // ---------------------------------------------------------- main result

  /** For every supported mapping and every value its arrays can hold: measuring
      accepts exactly the values the baseline converts and the framing can carry,
      reports the exact encoded length and the baseline's own diagnostic, and
      encoding then cannot fail and yields the wire form of the baseline cell. */
  lemma CellRefines(encoding: DirectColumnEncoding, mapping: SchemaMapping, runtime: Runtime, value: Option<ArrowValue>)
    requires Suits(encoding, mapping, value)
    ensures value.Some? ==> KindFits(encoding, value.value)
    ensures Refined(encoding, mapping, runtime, value)
  {
    SuitsKind(encoding, mapping, value);
    hide Suits, Refined;
    match encoding
    case PrimitiveColumn(kind) => PrimitiveRefines(kind, mapping, runtime, value);
    case UInt64DecimalColumn => DecimalRefines(encoding, mapping, runtime, value);
    case DecimalColumn(_) => DecimalRefines(encoding, mapping, runtime, value);
    case VariableWidthColumn(StringToNVarChar(length)) => TextRefines(length, mapping, runtime, value);
    case VariableWidthColumn(BytesToVarBinary(length)) => BinaryRefines(length, mapping, runtime, value);
    case FixedBinaryColumn(length) => FixedBinaryRefines(length, mapping, runtime, value);
    case TemporalColumn(kind) => TemporalRefines(kind, mapping, runtime, value);
  }

  /** Mappings whose cells can be told apart from null on the wire. */
  predicate Readable(ty: MssqlType) { ty.FixedBinary? ==> ty.size <= 0xFFFE }

  /** Planning never makes an unreadable mapping. */
  lemma PlannedIsReadable(mapping: SchemaMapping, options: PlanOptions)
    requires Planned(mapping, options)
    ensures Readable(mapping.mssql.ty)
  {
    hide Decimals.NormalizeShape;
  }

  /** What the direct path sends for a value reads back, from the column's type and
      nullability alone, as the cell the baseline path would have sent. */
  lemma DirectCellReadsBack(encoding: DirectColumnEncoding, mapping: SchemaMapping, runtime: Runtime, value: Option<ArrowValue>, rest: seq<byte>)
    requires Suits(encoding, mapping, value) && Readable(mapping.mssql.ty)
    requires value.Some? ==> KindFits(encoding, value.value)
    requires MeasureCell(encoding, mapping, runtime, value).Ok?
    ensures
      var measured := MeasureCell(encoding, mapping, runtime, value).value;
      var encoded := EncodeCell(encoding, mapping, runtime, value, measured);
      && encoded.Ok? && |encoded.value| == measured
      && Baseline(mapping, runtime, value).Ok?
      && ReadCell(mapping.mssql.ty, mapping.mssql.nullable, encoded.value + rest) == Some((Baseline(mapping, runtime, value).value, rest))
  {
    CellRefines(encoding, mapping, runtime, value);
    var cell := Baseline(mapping, runtime, value).value;
    BaselineFramed(encoding, mapping, runtime, value);
    CellRoundTrip(mapping.mssql.ty, mapping.mssql.nullable, cell, rest);
    hide Suits, MeasureCell, EncodeCell, Baseline, WireCell, ReadCell, CellOf, Framed;
  }

  /** A measured cell of a readable mapping is framed. */
  lemma BaselineFramed(encoding: DirectColumnEncoding, mapping: SchemaMapping, runtime: Runtime, value: Option<ArrowValue>)
    requires Suits(encoding, mapping, value) && Readable(mapping.mssql.ty)
    requires value.Some? ==> KindFits(encoding, value.value)
    requires MeasureCell(encoding, mapping, runtime, value).Ok?
    ensures Baseline(mapping, runtime, value).Ok? && Framed(mapping.mssql.ty, Baseline(mapping, runtime, value).value)
  {
    CellRefines(encoding, mapping, runtime, value);
    if mapping.mssql.ty.FixedBinary? {
      hide SupportMapping, MeasureCell, EncodeCell, WireCell;
      assert !mapping.mssql.ty.NVarChar? && !mapping.mssql.ty.VarBinary?;
    } else {
      hide Suits, MeasureCell, EncodeCell, Baseline, WireCell, CellOf, Framed;
    }
  }

  /** Where fixed binary falls short: a mapping made by hand with more than 0xFFFF bytes
      measures and then fails to encode; with exactly 0xFFFF it encodes, and reads back
      as null. Nothing else is wrong: up to 0xFFFE bytes it reads back. */
  lemma FixedBinaryLimit(length: nat, mapping: SchemaMapping, runtime: Runtime, data: seq<byte>, rest: seq<byte>)
    requires Suits(FixedBinaryColumn(length), mapping, Some(BytesValue(data)))
    ensures |data| == length && MeasureCell(FixedBinaryColumn(length), mapping, runtime, Some(BytesValue(data))) == Ok(2 + length)
    ensures
      var encoded := EncodeCell(FixedBinaryColumn(length), mapping, runtime, Some(BytesValue(data)), 2 + length);
      && (encoded.Ok? <==> length <= 0xFFFF)
      && (encoded.Ok? ==>
            (ReadCell(mapping.mssql.ty, mapping.mssql.nullable, encoded.value + rest) == Some((VarBinaryCell(Some(data)), rest))
             <==> length <= 0xFFFE))
  {
    SupportedShape(mapping);
    assert mapping.mssql.ty == FixedBinary(length) && mapping.arrow.dataType == FixedSizeBinary(length);
    if length <= 0xFFFE {
      TakeBoundedInverts(Some(data), rest);
    } else if length == 0xFFFF {
      BoundedNullCollides(data, rest);
    }
    hide SupportMapping, LE, TakeBounded, BoundedWire;
  }
}
