/** Measuring and encoding one cell on the direct path, and its refinement of the
    baseline conversion (src/write/direct/types). */
module DirectCells {
  import opened Basics
  import opened Errors
  import opened Types
  import opened Bytes
  import opened Decimals
  import opened DateTimes
  import opened Classifiers
  import opened Cells
  import opened Wire

  /** Why a direct cell fails: the value does not convert, or its bytes do not fit the row format. */
  datatype CellFailure = Conversion(code: DiagnosticCode) | Payload

  const MAX_BOUNDED_LEN: nat := 0xFFFE
  const MAX_PLP_CHUNK_LEN: nat := 0xFFFF_FFFF

  /** The typed array a column was bound to holds values of this kind. */
  ghost predicate KindFits(encoding: DirectColumnEncoding, value: ArrowValue) {
    match encoding
    case PrimitiveColumn(BooleanToBit) => value.BoolValue?
    case PrimitiveColumn(Float16ToReal) | PrimitiveColumn(Float32ToReal) => value.FloatValue? && |value.image| == 4
    case PrimitiveColumn(Float64ToFloat) => value.FloatValue? && |value.image| == 8
    case VariableWidthColumn(StringToNVarChar(_)) => value.TextValue?
    case VariableWidthColumn(BytesToVarBinary(_)) | FixedBinaryColumn(_) => value.BytesValue?
    case _ => value.IntValue?
  }

  function NullLen(nullable: bool, len: nat): Result<nat, CellFailure> {
    if nullable then Ok(len) else Err(Conversion(NullInNonNullableColumn))
  }

  /** Encoded bytes have to fill the measured cell. */
  function FitLen(bytes: seq<byte>, measuredLen: nat): Result<seq<byte>, CellFailure> {
    if |bytes| == measuredLen then Ok(bytes) else Err(Payload)
  }

  function NullBytes(nullable: bool, bytes: seq<byte>, measuredLen: nat): Result<seq<byte>, CellFailure> {
    if nullable then FitLen(bytes, measuredLen) else Err(Conversion(NullInNonNullableColumn))
  }

  // ----------------------------------------------------------- primitives

  /** `primitive_value_len`. */
  function PrimitiveLen(kind: PrimitiveClass): nat {
    match kind
    case BooleanToBit | UInt8ToTinyInt => 1
    case Int8ToSmallInt | Int16ToSmallInt => 2
    case Int32ToInt | UInt16ToInt | Float16ToReal | Float32ToReal => 4
    case _ => 8
  }

  /** The little-endian image of a value, after the range and finiteness checks. */
  function PrimitiveBytes(kind: PrimitiveClass, value: ArrowValue): Result<seq<byte>, CellFailure>
    requires KindFits(PrimitiveColumn(kind), value)
  {
    match value
    case BoolValue(flag) => Ok(if flag then [1] else [0])
    case FloatValue(image) => if IsFinite(image) then Ok(image) else Err(Conversion(NonFiniteFloat))
    case IntValue(n) =>
      if kind.UInt64ToCheckedBigInt? && n > I64_MAX then Err(Conversion(IntegerOutOfRange))
      else Ok(SignedLE(n, PrimitiveLen(kind)))
  }

  function MeasurePrimitive(kind: PrimitiveClass, nullable: bool, value: Option<ArrowValue>): Result<nat, CellFailure>
    requires value.Some? ==> KindFits(PrimitiveColumn(kind), value.value)
  {
    match value
    case None => NullLen(nullable, 1)
    case Some(v) =>
      if PrimitiveBytes(kind, v).Err? then Err(PrimitiveBytes(kind, v).error)
      else Ok(if nullable then 1 + PrimitiveLen(kind) else PrimitiveLen(kind))
  }

  function EncodePrimitive(kind: PrimitiveClass, nullable: bool, value: Option<ArrowValue>, measuredLen: nat): Result<seq<byte>, CellFailure>
    requires value.Some? ==> KindFits(PrimitiveColumn(kind), value.value)
  {
    match value
    case None => NullBytes(nullable, [0], measuredLen)
    case Some(v) =>
      var bytes := PrimitiveBytes(kind, v);
      if bytes.Err? then Err(bytes.error)
      else FitLen(if nullable then [PrimitiveLen(kind)] + bytes.value else bytes.value, measuredLen)
  }

  // ------------------------------------------------------------- decimals

  function DecimalNumber(encoding: DirectColumnEncoding, n: int): Result<int, CellFailure>
    requires encoding.DecimalColumn? || encoding.UInt64DecimalColumn?
  {
    if encoding.UInt64DecimalColumn? then Ok(n)
    else match NormalizedDecimal(n, encoding.decimal)
      case Err(code) => Err(Conversion(code))
      case Ok(unscaled) => Ok(unscaled)
  }

  function MeasureDecimal(encoding: DirectColumnEncoding, nullable: bool, value: Option<ArrowValue>): Result<nat, CellFailure>
    requires encoding.DecimalColumn? || encoding.UInt64DecimalColumn?
    requires value.Some? ==> value.value.IntValue?
  {
    match value
    case None => NullLen(nullable, 1)
    case Some(v) =>
      var unscaled := DecimalNumber(encoding, v.number);
      if unscaled.Err? then Err(unscaled.error) else Ok(1 + 1 + MagnitudeLen(Abs(unscaled.value)))
  }

  function EncodeDecimal(encoding: DirectColumnEncoding, nullable: bool, value: Option<ArrowValue>, measuredLen: nat): Result<seq<byte>, CellFailure>
    requires encoding.DecimalColumn? || encoding.UInt64DecimalColumn?
    requires value.Some? ==> value.value.IntValue?
  {
    match value
    case None => NullBytes(nullable, [0], measuredLen)
    case Some(v) =>
      var unscaled := DecimalNumber(encoding, v.number);
      if unscaled.Err? then Err(unscaled.error)
      else FitLen([1 + MagnitudeLen(Abs(unscaled.value))] + DecimalBytes(unscaled.value), measuredLen)
  }

  // ------------------------------------------------------- variable width

  /** `bounded_cell_len`: 0xFFFF stays free for the null marker. */
  function BoundedCellLen(encodedBytes: nat): Result<nat, CellFailure> {
    if encodedBytes > MAX_BOUNDED_LEN then Err(Payload) else Ok(2 + encodedBytes)
  }

  /** `plp_cell_len`. */
  function PlpCellLen(encodedBytes: nat): Result<nat, CellFailure> {
    if encodedBytes > MAX_PLP_CHUNK_LEN then Err(Payload)
    else Ok(8 + 4 + encodedBytes + if encodedBytes != 0 then 4 else 0)
  }

  function VariableCellLen(length: TypeLength, encodedBytes: nat): Result<nat, CellFailure> {
    if length.Max? then PlpCellLen(encodedBytes) else BoundedCellLen(encodedBytes)
  }

  function NullVariableLen(length: TypeLength): nat { if length.Max? then 8 else 2 }

  function MeasureText(length: TypeLength, nullable: bool, value: Option<ArrowValue>): Result<nat, CellFailure>
    requires value.Some? ==> value.value.TextValue?
  {
    match value
    case None => NullLen(nullable, NullVariableLen(length))
    case Some(v) =>
      var encodedBytes := CheckedMul(|v.units|, 2);
      if encodedBytes.None? then Err(Payload)
      else if ExceedsLength(length, |v.units|) then Err(Conversion(ValueTooLong))
      else VariableCellLen(length, encodedBytes.value)
  }

  function MeasureBytes(length: TypeLength, nullable: bool, value: Option<ArrowValue>): Result<nat, CellFailure>
    requires value.Some? ==> value.value.BytesValue?
  {
    match value
    case None => NullLen(nullable, NullVariableLen(length))
    case Some(v) =>
      if ExceedsLength(length, |v.bytes|) then Err(Conversion(ValueTooLong)) else VariableCellLen(length, |v.bytes|)
  }

  /** The UTF-16 byte count that a measured nvarchar cell reserves. */
  function TextBytesOfLen(length: TypeLength, measuredLen: nat): Result<nat, CellFailure> {
    var overhead := if length.Bounded? then 2 else if measuredLen == 12 then 12 else 16;
    if measuredLen < overhead then Err(Payload)
    else if (measuredLen - overhead) % 2 != 0 then Err(Payload)
    else Ok(measuredLen - overhead)
  }

  function EncodeText(length: TypeLength, nullable: bool, value: Option<ArrowValue>, measuredLen: nat): Result<seq<byte>, CellFailure>
    requires value.Some? ==> value.value.TextValue?
  {
    match value
    case None => NullBytes(nullable, VariableWire(length, None), measuredLen)
    case Some(v) =>
      var encodedBytes := TextBytesOfLen(length, measuredLen);
      if encodedBytes.Err? then Err(encodedBytes.error)
      else if ExceedsLength(length, encodedBytes.value / 2) then Err(Conversion(ValueTooLong))
      else if VariableCellLen(length, encodedBytes.value).Err? then Err(Payload)
      else FitLen(VariableWire(length, Some(UnitsToBytes(v.units))), measuredLen)
  }

  function EncodeBytes(length: TypeLength, nullable: bool, value: Option<ArrowValue>, measuredLen: nat): Result<seq<byte>, CellFailure>
    requires value.Some? ==> value.value.BytesValue?
  {
    match value
    case None => NullBytes(nullable, VariableWire(length, None), measuredLen)
    case Some(v) =>
      if ExceedsLength(length, |v.bytes|) then Err(Conversion(ValueTooLong))
      else if VariableCellLen(length, |v.bytes|).Err? then Err(Payload)
      else FitLen(VariableWire(length, Some(v.bytes)), measuredLen)
  }

  // --------------------------------------------------------- fixed binary

  function MeasureFixedBinary(length: nat, nullable: bool, value: Option<ArrowValue>): Result<nat, CellFailure>
    requires value.Some? ==> value.value.BytesValue?
  {
    match value
    case None => NullLen(nullable, 2)
    case Some(v) =>
      if |v.bytes| != length then Err(Conversion(ValueTypeMismatch))
      else if CheckedAdd(2, length).None? then Err(Payload)
      else Ok(2 + length)
  }

  function EncodeFixedBinary(length: nat, nullable: bool, value: Option<ArrowValue>, measuredLen: nat): Result<seq<byte>, CellFailure>
    requires value.Some? ==> value.value.BytesValue?
  {
    match value
    case None => NullBytes(nullable, BoundedWire(None), measuredLen)
    case Some(v) =>
      if |v.bytes| != length then Err(Conversion(ValueTypeMismatch))
      else if 2 + length != measuredLen then Err(Payload)
      else if length > 0xFFFF then Err(Payload)
      else Ok(BoundedWire(Some(v.bytes)))
  }

  // ------------------------------------------------------------- temporal

  datatype TemporalValue =
    | DateOf(days: nat)
    | TimeOf(time: MssqlTime)
    | DateTime2Of(datetime2: MssqlDateTime2)
    | DateTimeOf(datetime: MssqlDateTime)
    | OffsetOf(datetimeoffset: MssqlDateTimeOffset)

  function Wrap<A, B>(r: Result<A, DiagnosticCode>, f: A -> B): Result<B, CellFailure> {
    if r.Ok? then Ok(f(r.value)) else Err(Conversion(r.error))
  }

  /** Conversion of one bound temporal value to the planned SQL Server value. */
  function DirectTemporal(kind: TemporalClass, mapping: SchemaMapping, runtime: Runtime, n: int): Result<TemporalValue, CellFailure> {
    match kind
    case Date32ToDate => Wrap(DateFromDate32(n), d => DateOf(d))
    case Date64ToDateTime2 => Wrap(DateTime2FromDate64(n), d => DateTime2Of(d))
    case TimeToTime(unit) => Wrap(TimeOfDay(unit, n, runtime.nanosecondPolicy), t => TimeOf(t))
    case TimestampToDateTimeOffset(unit) =>
      if !mapping.arrow.dataType.Timestamp? || IsTimezoneFree(mapping.arrow.dataType.timezone) then Err(Conversion(ValueTypeMismatch))
      else Wrap(TimestampToOffsetValue(unit, n, mapping.arrow.dataType.timezone.value, runtime), d => OffsetOf(d))
    case TimestampToDateTime2(unit, _) => DirectTimestamp(unit, mapping, runtime, n)
    case TimestampToDateTime(unit, _) => DirectTimestamp(unit, mapping, runtime, n)
  }

  /** `timestamp_*_value`: dispatch on the planned target. */
  function DirectTimestamp(unit: TimeUnit, mapping: SchemaMapping, runtime: Runtime, n: int): Result<TemporalValue, CellFailure> {
    match mapping.mssql.ty
    case DateTime => Wrap(TimestampToDateTimeValue(unit, n, runtime), d => DateTimeOf(d))
    case DateTime2(precision) =>
      if precision > 7 then Err(Conversion(ValueConversionUnsupported))
      else Wrap(TimestampToDateTime2Value(unit, n, precision, runtime), d => DateTime2Of(d))
    case _ => Err(Conversion(ValueTypeMismatch))
  }

  function TimeLenChecked(scale: nat, extra: nat): Result<nat, CellFailure> {
    if scale > 7 then Err(Payload) else Ok(1 + TimeLen(scale) + extra)
  }

  /** `temporal_value_cell_len`. */
  function TemporalLen(value: TemporalValue, nullable: bool): Result<nat, CellFailure> {
    match value
    case DateOf(_) => Ok(4)
    case TimeOf(time) => TimeLenChecked(time.scale, 0)
    case DateTime2Of(d) => TimeLenChecked(d.time.scale, 3)
    case DateTimeOf(_) => Ok(if nullable then 9 else 8)
    case OffsetOf(d) => TimeLenChecked(d.datetime2.time.scale, 5)
  }

  /** What the cell writers validate before they write. */
  predicate TemporalValid(value: TemporalValue) {
    match value
    case DateOf(days) => days <= DATE_MAX_DAYS
    case TimeOf(time) => ValidTime(time)
    case DateTime2Of(d) => ValidDateTime2(d)
    case DateTimeOf(d) => ValidDateTime(d)
    case OffsetOf(d) => ValidDateTime2(d.datetime2) && -MAX_OFFSET_MINUTES <= d.offsetMinutes <= MAX_OFFSET_MINUTES
  }

  function TemporalBytes(value: TemporalValue): (r: seq<byte>)
    ensures |r| < 256
  {
    match value
    case DateOf(days) => LE(days, 3)
    case TimeOf(time) => LE(time.increments, TimeLen(time.scale))
    case DateTime2Of(d) => DateTime2Bytes(d)
    case DateTimeOf(d) => DateTimeBytes(d)
    case OffsetOf(d) => OffsetBytes(d)
  }

  function MeasureTemporal(kind: TemporalClass, mapping: SchemaMapping, runtime: Runtime, value: Option<ArrowValue>): Result<nat, CellFailure>
    requires value.Some? ==> value.value.IntValue?
  {
    var zone := ValidateZone(mapping, runtime.zones);
    if zone.Err? then Err(Conversion(zone.error))
    else if value.None? then NullLen(mapping.mssql.nullable, 1)
    else
      var converted := DirectTemporal(kind, mapping, runtime, value.value.number);
      if converted.Err? then Err(converted.error) else TemporalLen(converted.value, mapping.mssql.nullable)
  }

  function EncodeTemporal(kind: TemporalClass, mapping: SchemaMapping, runtime: Runtime, value: Option<ArrowValue>, measuredLen: nat): Result<seq<byte>, CellFailure>
    requires value.Some? ==> value.value.IntValue?
  {
    var zone := ValidateZone(mapping, runtime.zones);
    if zone.Err? then Err(Conversion(zone.error))
    else if value.None? then NullBytes(mapping.mssql.nullable, [0], measuredLen)
    else
      var converted := DirectTemporal(kind, mapping, runtime, value.value.number);
      if converted.Err? then Err(converted.error) else
      var len := TemporalLen(converted.value, mapping.mssql.nullable);
      if len.Err? then Err(len.error)
      else if len.value != measuredLen || !TemporalValid(converted.value) then Err(Payload)
      else
        var bytes := TemporalBytes(converted.value);
        Ok(if converted.value.DateTimeOf? && !mapping.mssql.nullable then bytes else [|bytes|] + bytes)
  }

  // ------------------------------------------------------------- dispatch

  /** `measure_cell_lengths` for one cell of a bound column. */
  function MeasureCell(encoding: DirectColumnEncoding, mapping: SchemaMapping, runtime: Runtime, value: Option<ArrowValue>): Result<nat, CellFailure>
    requires value.Some? ==> KindFits(encoding, value.value)
  {
    var nullable := mapping.mssql.nullable;
    match encoding
    case PrimitiveColumn(kind) => MeasurePrimitive(kind, nullable, value)
    case UInt64DecimalColumn => MeasureDecimal(encoding, nullable, value)
    case DecimalColumn(_) => MeasureDecimal(encoding, nullable, value)
    case VariableWidthColumn(StringToNVarChar(length)) => MeasureText(length, nullable, value)
    case VariableWidthColumn(BytesToVarBinary(length)) => MeasureBytes(length, nullable, value)
    case FixedBinaryColumn(length) => MeasureFixedBinary(length, nullable, value)
    case TemporalColumn(kind) => MeasureTemporal(kind, mapping, runtime, value)
  }

  /** `fill_column` and `append_cell` for one cell of a bound column. */
  function EncodeCell(encoding: DirectColumnEncoding, mapping: SchemaMapping, runtime: Runtime, value: Option<ArrowValue>, measuredLen: nat): Result<seq<byte>, CellFailure>
    requires value.Some? ==> KindFits(encoding, value.value)
  {
    var nullable := mapping.mssql.nullable;
    match encoding
    case PrimitiveColumn(kind) => EncodePrimitive(kind, nullable, value, measuredLen)
    case UInt64DecimalColumn => EncodeDecimal(encoding, nullable, value, measuredLen)
    case DecimalColumn(_) => EncodeDecimal(encoding, nullable, value, measuredLen)
    case VariableWidthColumn(StringToNVarChar(length)) => EncodeText(length, nullable, value, measuredLen)
    case VariableWidthColumn(BytesToVarBinary(length)) => EncodeBytes(length, nullable, value, measuredLen)
    case FixedBinaryColumn(length) => EncodeFixedBinary(length, nullable, value, measuredLen)
    case TemporalColumn(kind) => EncodeTemporal(kind, mapping, runtime, value, measuredLen)
  }

  // ------------------------------------------------------ fixed lengths

  /** `fixed_width_columns`: the columns that the fast path takes. */
  predicate HasFixedLen(encoding: DirectColumnEncoding) {
    encoding.PrimitiveColumn? || encoding.FixedBinaryColumn? || encoding.TemporalColumn?
  }

  /** `fixed_width_null_cell_len` and `fixed_width_non_null_cell_len`: a length for nulls
      and one for values, chosen from the plan without looking at the value. */
  function FixedLen(encoding: DirectColumnEncoding, ty: MssqlType, nullable: bool, isNull: bool): Option<nat>
    requires HasFixedLen(encoding)
  {
    match encoding
    case FixedBinaryColumn(length) => Some(if isNull then 2 else 2 + length)
    case PrimitiveColumn(kind) => Some(if isNull then 1 else if nullable then PrimitiveLen(kind) + 1 else PrimitiveLen(kind))
    case TemporalColumn(kind) =>
      if isNull then Some(1)
      else match kind
        case Date32ToDate => Some(4)
        case Date64ToDateTime2 => Some(1 + 4 + 3)
        case TimeToTime(Second) => Some(1 + 3)
        case TimeToTime(Millisecond) => Some(1 + 4)
        case TimeToTime(_) => Some(1 + 5)
        case TimestampToDateTimeOffset(_) => Some(1 + 5 + 5)
        case _ =>
          if ty.DateTime? then Some(if nullable then 9 else 8)
          else if ty.DateTime2? && ty.precision <= 7 then Some(1 + TimeLen(ty.precision) + 3)
          else None
  }

  /** The fast path's fixed lengths are what measuring the value reports. */
  lemma FixedLenIsMeasured(encoding: DirectColumnEncoding, mapping: SchemaMapping, runtime: Runtime, value: Option<ArrowValue>)
    requires value.Some? ==> KindFits(encoding, value.value)
    requires HasFixedLen(encoding) && MeasureCell(encoding, mapping, runtime, value).Ok?
    ensures FixedLen(encoding, mapping.mssql.ty, mapping.mssql.nullable, value.None?)
            == Some(MeasureCell(encoding, mapping, runtime, value).value)
  {
    hide Pow10, ResolveZone, NanosecondTicks, DateTimeFromTicks, RoundToScale, OffsetForInstant, IsFinite, SignedLE;
  }
}
