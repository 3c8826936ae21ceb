/** Arrow arrays and cells, SQL Server cells, and the baseline conversion between
    them (src/arrow/cell.rs, src/mssql/cell.rs, src/mssql/cell/from_arrow). */
module Cells {
  import opened Basics
  import opened Errors
  import opened Types
  import opened Bytes
  import opened Decimals
  import opened DateTimes
  import opened Classifiers

  /** Profile and policies that reach the runtime conversion. */
  datatype Runtime = Runtime(nanosecondPolicy: NanosecondPolicy, rounding: DateTimeRounding, zones: ZoneDatabase)

  // ------------------------------------------------------------- arrays

  /** A non-null array element. Floats are their little-endian IEEE image (16-bit
      floats already widened), text is its UTF-16 code units. */
  datatype ArrowValue =
    | BoolValue(flag: bool)
    | IntValue(number: int)
    | FloatValue(image: seq<byte>)
    | TextValue(units: seq<nat>)
    | BytesValue(bytes: seq<byte>)

  datatype ArrowArray = ArrowArray(dataType: DataType, values: seq<Option<ArrowValue>>)

  ghost predicate IntIn(value: ArrowValue, lo: int, hi: int) {
    value.IntValue? && lo <= value.number <= hi
  }

  /** What an element of an array of type `t` can be. */
  ghost predicate ValueFits(t: DataType, value: ArrowValue) {
    match t
    case Boolean => value.BoolValue?
    case Int8 => IntIn(value, -0x80, 0x7F)
    case Int16 => IntIn(value, -0x8000, 0x7FFF)
    case Int32 | Date32 | Time32(_) | Decimal32(_, _) => IntIn(value, -0x8000_0000, 0x7FFF_FFFF)
    case Int64 | Date64 | Time64(_) | Timestamp(_, _) | Decimal64(_, _) => IntIn(value, I64_MIN, I64_MAX)
    case UInt8 => IntIn(value, 0, 0xFF)
    case UInt16 => IntIn(value, 0, 0xFFFF)
    case UInt32 => IntIn(value, 0, 0xFFFF_FFFF)
    case UInt64 => IntIn(value, 0, U64_MAX)
    case Decimal128(_, _) => IntIn(value, I128_MIN, I128_MAX)
    case Decimal256(_, _) => value.IntValue?
    case Float16 | Float32 => value.FloatValue? && |value.image| == 4
    case Float64 => value.FloatValue? && |value.image| == 8
    case Utf8 | LargeUtf8 | Utf8View => value.TextValue? && CodeUnits(value.units)
    case Binary | LargeBinary | BinaryView => value.BytesValue?
    case FixedSizeBinary(size) => value.BytesValue? && |value.bytes| == size
    case Other(_) => true
  }

  ghost predicate WellTyped(items: ArrowArray) {
    forall k :: 0 <= k < |items.values| && items.values[k].Some? ==> ValueFits(items.dataType, items.values[k].value)
  }

  /** The concrete array type behind a data type: a downcast ignores precision,
      scale, timezone and fixed size. */
  function ArrayKind(t: DataType): DataType {
    match t
    case Decimal32(_, _) => Decimal32(1, 0)
    case Decimal64(_, _) => Decimal64(1, 0)
    case Decimal128(_, _) => Decimal128(1, 0)
    case Decimal256(_, _) => Decimal256(1, 0)
    case Timestamp(unit, _) => Timestamp(unit, None)
    case FixedSizeBinary(_) => FixedSizeBinary(0)
    case _ => t
  }

  /** A borrowed cell: null, or a value tagged with what it was read as. Strings are
      tagged `Utf8` and every byte string `Binary`. */
  datatype ArrowCell = NullCell | ValueCell(tag: DataType, value: ArrowValue)

  /** `extract_arrow_cell`. */
  function ExtractCell(items: ArrowArray, mapping: SchemaMapping, row: nat): Result<ArrowCell, DiagnosticCode>
    requires row < |items.values|
  {
    if items.values[row].None? then Ok(NullCell)
    else
      var planned := mapping.arrow.dataType;
      var value := items.values[row].value;
      if planned.Other?
         || (planned.Time32? && planned.unit !in {Second, Millisecond})
         || (planned.Time64? && planned.unit !in {Microsecond, Nanosecond})
      then Err(ValueConversionUnsupported)
      else if IsStringFamily(planned) then
        if IsStringFamily(items.dataType) then Ok(ValueCell(Utf8, value)) else Err(ValueTypeMismatch)
      else if IsBinaryFamily(planned) then
        if IsBinaryFamily(items.dataType) then Ok(ValueCell(Binary, value)) else Err(ValueTypeMismatch)
      else if ArrayKind(items.dataType) != ArrayKind(planned) then Err(ValueTypeMismatch)
      else if planned.FixedSizeBinary? then Ok(ValueCell(Binary, value))
      else Ok(ValueCell(ArrayKind(planned), value))
  }

  // -------------------------------------------------- SQL Server cells

  datatype MssqlDecimal = MssqlDecimal(unscaled: int, scale: nat)

  datatype MssqlCell =
    | BitCell(bit: Option<bool>)
    | TinyIntCell(tiny: Option<int>)
    | SmallIntCell(small: Option<int>)
    | IntCell(int32: Option<int>)
    | BigIntCell(big: Option<int>)
    | DecimalCell(decimal: Option<MssqlDecimal>)
    | DateCell(date: Option<nat>)
    | TimeCell(time: Option<MssqlTime>)
    | DateTimeCell(datetime: Option<MssqlDateTime>)
    | DateTime2Cell(datetime2: Option<MssqlDateTime2>)
    | DateTimeOffsetCell(datetimeoffset: Option<MssqlDateTimeOffset>)
    | RealCell(real32: Option<seq<byte>>)
    | FloatCell(real64: Option<seq<byte>>)
    | NVarCharCell(text: Option<seq<nat>>)
    | VarBinaryCell(binary: Option<seq<byte>>)

  // -------------------------------------------------------- conversion

  /** The exponent bits: all of the top byte but the sign, then the high bits below it. */
  function Exponent(top: nat, next: nat, width: nat): nat
    requires 0 < width <= 256
  {
    top % 128 * width + next / (256 / width)
  }

  /** Finite means the exponent is not all ones. */
  predicate IsFinite(image: seq<byte>) {
    if |image| == 4 then Exponent(image[3], image[2], 2) != 255
    else if |image| == 8 then Exponent(image[7], image[6], 16) != 2047
    else false
  }

  lemma TopBytes(next: nat, top: nat, image: seq<byte>)
    requires image == [next, top]
    ensures FromLE(image) == next + 256 * top
  {
    assert image[1..] == [top];
    assert [top][1..] == [];
    assert FromLE([top]) == top + 256 * FromLE([]);
  }

  /** Dropping the low bytes and the mantissa bits of the top two leaves the exponent. */
  lemma SingleExponent(low: nat, next: nat, top: nat)
    requires low < 0x1_0000 && next < 256 && top < 256
    ensures (low + 0x1_0000 * (next + 256 * top)) / 0x80_0000 % 0x100 == Exponent(top, next, 2)
  {
    var high, exponent := next + 256 * top, next / 128 + 2 * top;
    DivisionUnique(high, 128, exponent, next % 128);
    DivisionUnique(low + 0x1_0000 * high, 0x80_0000, exponent, low + 0x1_0000 * (next % 128));
    DivisionUnique(exponent, 0x100, top / 128, next / 128 + 2 * (top % 128));
  }

  lemma DoubleExponent(low: nat, next: nat, top: nat)
    requires low < 0x1_0000_0000_0000 && next < 256 && top < 256
    ensures (low + 0x1_0000_0000_0000 * (next + 256 * top)) / 0x10_0000_0000_0000 % 0x800 == Exponent(top, next, 16)
  {
    var high, exponent := next + 256 * top, next / 16 + 16 * top;
    DivisionUnique(high, 16, exponent, next % 16);
    DivisionUnique(low + 0x1_0000_0000_0000 * high, 0x10_0000_0000_0000, exponent, low + 0x1_0000_0000_0000 * (next % 16));
    DivisionUnique(exponent, 0x800, top / 128, next / 16 + 16 * (top % 128));
  }

  /** The byte test is the IEEE 754 exponent test on the whole word. */
  lemma FiniteIsExponentTest(image: seq<byte>)
    requires |image| == 4 || |image| == 8
    ensures |image| == 4 ==> (IsFinite(image) <==> FromLE(image) / 0x80_0000 % 0x100 != 0xFF)
    ensures |image| == 8 ==> (IsFinite(image) <==> FromLE(image) / 0x10_0000_0000_0000 % 0x800 != 0x7FF)
  {
    var n := |image|;
    var low, high := image[..n - 2], image[n - 2..];
    assert low + high == image;
    FromLEBound(low);
    FromLESplit(low, high);
    TopBytes(image[n - 2], image[n - 1], high);
    PowersOf256();
    assert Pow256(6) == 0x1_0000_0000_0000;
    hide FromLE, Pow256, Exponent;
    if n == 4 {
      SingleExponent(FromLE(low), image[2], image[3]);
    } else {
      DoubleExponent(FromLE(low), image[6], image[7]);
    }
  }

  /** `primitive_mssql_cell`. */
  function PrimitiveCell(mapping: SchemaMapping, cell: ArrowCell): Result<MssqlCell, DiagnosticCode>
    requires cell.ValueCell?
  {
    var kind := ClassifyPrimitive(mapping);
    if kind.Err? then Err(ValueTypeMismatch)
    else match (kind.value, cell.tag, cell.value)
      case (BooleanToBit, Boolean, BoolValue(flag)) => Ok(BitCell(Some(flag)))
      case (UInt8ToTinyInt, UInt8, IntValue(n)) => Ok(TinyIntCell(Some(n)))
      case (Int8ToSmallInt, Int8, IntValue(n)) => Ok(SmallIntCell(Some(n)))
      case (Int16ToSmallInt, Int16, IntValue(n)) => Ok(SmallIntCell(Some(n)))
      case (Int32ToInt, Int32, IntValue(n)) => Ok(IntCell(Some(n)))
      case (UInt16ToInt, UInt16, IntValue(n)) => Ok(IntCell(Some(n)))
      case (Int64ToBigInt, Int64, IntValue(n)) => Ok(BigIntCell(Some(n)))
      case (UInt32ToBigInt, UInt32, IntValue(n)) => Ok(BigIntCell(Some(n)))
      case (UInt64ToCheckedBigInt, UInt64, IntValue(n)) => if n <= I64_MAX then Ok(BigIntCell(Some(n))) else Err(IntegerOutOfRange)
      case (Float16ToReal, Float16, FloatValue(image)) => if IsFinite(image) then Ok(RealCell(Some(image))) else Err(NonFiniteFloat)
      case (Float32ToReal, Float32, FloatValue(image)) => if IsFinite(image) then Ok(RealCell(Some(image))) else Err(NonFiniteFloat)
      case (Float64ToFloat, Float64, FloatValue(image)) => if IsFinite(image) then Ok(FloatCell(Some(image))) else Err(NonFiniteFloat)
      case _ => Err(ValueTypeMismatch)
  }

  /** `mssql_decimal_value` for UInt64 columns. */
  function UInt64DecimalValue(mapping: SchemaMapping, cell: ArrowCell): Result<MssqlDecimal, DiagnosticCode>
    requires cell.ValueCell? && mapping.mssql.ty.Decimal?
  {
    var target := DecimalTarget(mapping);
    if target.Err? then Err(target.error)
    else match ClassifyUInt64(mapping)
      case Err(code) => Err(code)
      case Ok(CheckedBigInt) => Err(ValueTypeMismatch)
      case Ok(Decimal20) =>
        if target.value.1 != 0 then Err(SchemaMismatch)
        else if !cell.tag.UInt64? || !cell.value.IntValue? then Err(ValueTypeMismatch)
        else if FitsPrecision(cell.value.number, mapping.mssql.ty.precision) then Ok(MssqlDecimal(cell.value.number, target.value.1))
        else Err(DecimalOutOfRange)
  }

  /** The checked narrowing and rescaling of one decimal. */
  function NormalizedDecimal(unscaled: int, kind: DecimalClass): Result<int, DiagnosticCode> {
    if kind.source.FromDecimal256? && !FitsI128(unscaled) then Err(DecimalOutOfRange)
    else match NormalizeUnscaled(unscaled, kind.arrowScale)
      case None => Err(DecimalOutOfRange)
      case Some(rescaled) => if FitsPrecision(rescaled, kind.targetPrecision) then Ok(rescaled) else Err(DecimalOutOfRange)
  }

  function DecimalTag(source: DecimalSource): DataType {
    match source
    case FromDecimal32 => Decimal32(1, 0)
    case FromDecimal64 => Decimal64(1, 0)
    case FromDecimal128 => Decimal128(1, 0)
    case FromDecimal256 => Decimal256(1, 0)
  }

  /** `mssql_decimal_value`. */
  function DecimalValue(mapping: SchemaMapping, cell: ArrowCell): Result<MssqlDecimal, DiagnosticCode>
    requires cell.ValueCell? && mapping.mssql.ty.Decimal?
  {
    if mapping.arrow.dataType.UInt64? then UInt64DecimalValue(mapping, cell)
    else match ClassifyDecimal(mapping)
      case Err(code) => Err(code)
      case Ok(kind) =>
        if cell.tag != DecimalTag(kind.source) || !cell.value.IntValue? then Err(ValueTypeMismatch)
        else match NormalizedDecimal(cell.value.number, kind)
          case Err(code) => Err(code)
          case Ok(unscaled) => Ok(MssqlDecimal(unscaled, kind.targetScale))
  }

  /** `validate_timestamp_timezone_metadata`. */
  function ValidateZone(mapping: SchemaMapping, zones: ZoneDatabase): Result<(), DiagnosticCode> {
    if mapping.arrow.dataType.Timestamp? && !IsTimezoneFree(mapping.arrow.dataType.timezone) then
      var rule := ResolveZone(mapping.arrow.dataType.timezone.value, zones);
      if rule.Err? then Err(rule.error) else Ok(())
    else Ok(())
  }

  /** Arrow timestamp to 100 ns ticks since the Unix epoch. */
  function TimestampTicks(unit: TimeUnit, value: int, policy: NanosecondPolicy): Result<int, DiagnosticCode> {
    match unit
    case Second => Ok(value * TICKS_PER_SECOND)
    case Millisecond => Ok(value * TICKS_PER_MILLISECOND)
    case Microsecond => Ok(value * TICKS_PER_MICROSECOND)
    case Nanosecond => NanosecondTicks(value, policy)
  }

  /** Nanoseconds per unit, the reference for every temporal scaling. */
  function UnitNanoseconds(unit: TimeUnit): nat {
    match unit
    case Second => 1_000_000_000
    case Millisecond => 1_000_000
    case Microsecond => 1_000
    case Nanosecond => 1
  }

  /** The 100 ns tick that the policy names an instant by: the exact one, the last one
      before it, or the nearest, ties upwards. */
  predicate TickOf(nanoseconds: int, policy: NanosecondPolicy, tick: int) {
    match policy
    case RejectNon100ns => nanoseconds == 100 * tick
    case TruncateTo100ns => 100 * tick <= nanoseconds < 100 * tick + 100
    case RoundTo100ns => 100 * tick - 50 <= nanoseconds < 100 * tick + 50
  }

  /** Timestamps of every unit become the tick that names their instant; only an instant
      between two ticks under the rejecting policy has none. */
  lemma TimestampTicksExact(unit: TimeUnit, value: int, policy: NanosecondPolicy)
    requires I64_MIN <= value <= I64_MAX
    ensures forall tick :: TimestampTicks(unit, value, policy) == Ok(tick) <==> TickOf(value * UnitNanoseconds(unit), policy, tick)
    ensures TimestampTicks(unit, value, policy).Err? <==>
      policy.RejectNon100ns? && value * UnitNanoseconds(unit) % 100 != 0
    ensures TimestampTicks(unit, value, policy).Err? ==> TimestampTicks(unit, value, policy) == Err(LossyConversionRequiresPolicy)
  {
  }

  function TimestampToDateTimeValue(unit: TimeUnit, value: int, runtime: Runtime): Result<MssqlDateTime, DiagnosticCode> {
    var ticks := TimestampTicks(unit, value, runtime.nanosecondPolicy);
    if ticks.Err? then Err(ticks.error) else DateTimeFromTicks(ticks.value, runtime.rounding)
  }

  function TimestampToDateTime2Value(unit: TimeUnit, value: int, scale: nat, runtime: Runtime): Result<MssqlDateTime2, DiagnosticCode>
    requires scale <= 7
  {
    var ticks := TimestampTicks(unit, value, runtime.nanosecondPolicy);
    if ticks.Err? then Err(ticks.error) else DateTime2FromTicks(ticks.value, scale)
  }

  /** Whole seconds and nanoseconds of an instant. */
  function EpochParts(unit: TimeUnit, value: int): (int, int) {
    match unit
    case Second => (value, 0)
    case Millisecond => (value / 1_000, value % 1_000 * 1_000_000)
    case Microsecond => (value / 1_000_000, value % 1_000_000 * 1_000)
    case Nanosecond => (value / 1_000_000_000, value % 1_000_000_000)
  }

  /** The parts add up to the instant. */
  lemma EpochPartsExact(unit: TimeUnit, value: int)
    ensures EpochParts(unit, value).0 * 1_000_000_000 + EpochParts(unit, value).1 == value * UnitNanoseconds(unit)
    ensures 0 <= EpochParts(unit, value).1 < 1_000_000_000
  {
  }

  function TimestampToOffsetValue(unit: TimeUnit, value: int, timezone: string, runtime: Runtime): Result<MssqlDateTimeOffset, DiagnosticCode> {
    var rule := ResolveZone(timezone, runtime.zones);
    if rule.Err? then Err(rule.error) else
    var parts := EpochParts(unit, value);
    var offset := OffsetForInstant(rule.value, runtime.zones, parts.0, parts.1);
    if offset.Err? then Err(offset.error) else
    var ticks := TimestampTicks(unit, value, runtime.nanosecondPolicy);
    if ticks.Err? then Err(ticks.error) else DateTimeOffsetFromTicks(ticks.value, offset.value)
  }

  /** `mssql_datetime_value`. */
  function DateTimeValue(mapping: SchemaMapping, runtime: Runtime, cell: ArrowCell): Result<MssqlDateTime, DiagnosticCode>
    requires cell.ValueCell? && mapping.mssql.ty.DateTime?
  {
    if !mapping.arrow.dataType.Timestamp? then Err(ValueConversionUnsupported)
    else if !cell.tag.Timestamp? || !cell.value.IntValue? then Err(ValueTypeMismatch)
    else
      var zone := ValidateZone(mapping, runtime.zones);
      if zone.Err? then Err(zone.error) else TimestampToDateTimeValue(cell.tag.unit, cell.value.number, runtime)
  }

  /** `datetime2_mapping_kind`: Date64 or Timestamp, with an allowed precision. */
  predicate DateTime2Mapping(mapping: SchemaMapping)
    requires mapping.mssql.ty.DateTime2?
  {
    || (mapping.arrow.dataType.Date64? && mapping.mssql.ty.precision == 3)
    || (mapping.arrow.dataType.Timestamp? && mapping.mssql.ty.precision <= 7)
  }

  /** `mssql_datetime2_value`. */
  function DateTime2Value(mapping: SchemaMapping, runtime: Runtime, cell: ArrowCell): Result<MssqlDateTime2, DiagnosticCode>
    requires cell.ValueCell? && mapping.mssql.ty.DateTime2?
  {
    if !DateTime2Mapping(mapping) then Err(ValueConversionUnsupported)
    else if mapping.arrow.dataType.Date64? then
      if cell.tag.Date64? && cell.value.IntValue? then DateTime2FromDate64(cell.value.number) else Err(ValueTypeMismatch)
    else if !cell.tag.Timestamp? || !cell.value.IntValue? then Err(ValueTypeMismatch)
    else
      var zone := ValidateZone(mapping, runtime.zones);
      if zone.Err? then Err(zone.error)
      else TimestampToDateTime2Value(cell.tag.unit, cell.value.number, mapping.mssql.ty.precision, runtime)
  }

  /** `mssql_datetimeoffset_value`. */
  function DateTimeOffsetValue(mapping: SchemaMapping, runtime: Runtime, cell: ArrowCell): Result<MssqlDateTimeOffset, DiagnosticCode>
    requires cell.ValueCell? && mapping.mssql.ty.DateTimeOffset?
  {
    match ClassifyTemporal(mapping)
    case Err(code) => Err(code)
    case Ok(kind) =>
      if kind.TimestampToDateTimeOffset? && cell.tag == Timestamp(kind.unit, None) && cell.value.IntValue?
      then TimestampToOffsetValue(kind.unit, cell.value.number, mapping.arrow.dataType.timezone.value, runtime)
      else Err(ValueTypeMismatch)
  }

  function TimeOfDay(unit: TimeUnit, value: int, policy: NanosecondPolicy): Result<MssqlTime, DiagnosticCode> {
    match unit
    case Second => TimeFromIncrements(value, 86_400, 0)
    case Millisecond => TimeFromIncrements(value, 86_400_000, 3)
    case Microsecond => TimeFromIncrements(value, 86_400_000_000, 6)
    case Nanosecond => TimeFromNanoseconds(value, policy)
  }

  /** The scale that keeps a time unit. */
  function UnitScale(unit: TimeUnit): nat {
    match unit
    case Second => 0
    case Millisecond => 3
    case Microsecond => 6
    case Nanosecond => 7
  }

  /** The time of day that holds a number of nanoseconds since midnight. */
  ghost predicate HoldsTime(unit: TimeUnit, nanoseconds: int, policy: NanosecondPolicy, time: MssqlTime) {
    && 0 <= nanoseconds < 86_400_000_000_000
    && time.scale == UnitScale(unit) && ValidTime(time)
    && if unit.Nanosecond? then TickOf(nanoseconds, policy, time.increments)
       else time.increments * UnitNanoseconds(unit) == nanoseconds
  }

  /** A time of day converts to exactly the valid time that holds it; its stored
      increments are less than a tick away, and none without a rounding policy. */
  lemma TimeOfDayExact(unit: TimeUnit, value: int, policy: NanosecondPolicy, time: MssqlTime)
    ensures TimeOfDay(unit, value, policy) == Ok(time) <==> HoldsTime(unit, value * UnitNanoseconds(unit), policy, time)
    ensures TimeOfDay(unit, value, policy) == Ok(time) ==>
      var lost := value * UnitNanoseconds(unit) - time.increments * Pow10(9 - time.scale);
      && time.scale <= 7 && -100 < lost < 100
      && (!unit.Nanosecond? || policy.RejectNon100ns? ==> lost == 0)
  {
    SmallPowers();
    assert Pow10(2) == 100;
    Pow10Adds(6, 3);
    hide Pow10;
  }

  /** Outside the day, or carried out of it by rounding, a time is out of range; under the
      rejecting policy a part of a tick is lossy. */
  lemma TimeOfDayError(unit: TimeUnit, value: int, policy: NanosecondPolicy)
    ensures
      var nanoseconds := value * UnitNanoseconds(unit);
      var inDay := 0 <= nanoseconds < 86_400_000_000_000;
      var lossy := policy.RejectNon100ns? && nanoseconds % 100 != 0;
      var time := TimeOfDay(unit, value, policy);
      && (time.Err? <==> !inDay || lossy || (policy.RoundTo100ns? && nanoseconds >= 86_399_999_999_950))
      && (time.Err? ==> time.error == if inDay && lossy then LossyConversionRequiresPolicy else TimestampOutOfRange)
  {
  }

  /** `mssql_time_value`. */
  function TimeValue(mapping: SchemaMapping, runtime: Runtime, cell: ArrowCell): Result<MssqlTime, DiagnosticCode>
    requires cell.ValueCell?
  {
    match ClassifyTemporal(mapping)
    case Err(code) => Err(code)
    case Ok(kind) =>
      if kind.TimeToTime? && (cell.tag == Time32(kind.unit) || cell.tag == Time64(kind.unit)) && cell.value.IntValue?
      then TimeOfDay(kind.unit, cell.value.number, runtime.nanosecondPolicy)
      else Err(ValueTypeMismatch)
  }

  /** `mssql_date_value`. */
  function DateValue(mapping: SchemaMapping, cell: ArrowCell): Result<nat, DiagnosticCode>
    requires cell.ValueCell?
  {
    match ClassifyTemporal(mapping)
    case Err(code) => Err(code)
    case Ok(kind) =>
      if kind.Date32ToDate? && cell.tag.Date32? && cell.value.IntValue? then DateFromDate32(cell.value.number) else Err(ValueTypeMismatch)
  }

  function ExceedsLength(length: TypeLength, actual: nat): bool {
    length.Bounded? && actual > length.limit
  }

  /** `nvar_char_cell`. */
  function TextCell(mapping: SchemaMapping, length: TypeLength, cell: ArrowCell): Result<MssqlCell, DiagnosticCode>
    requires cell.ValueCell?
  {
    match ClassifyVariableWidth(mapping)
    case Err(code) => Err(code)
    case Ok(BytesToVarBinary(_)) => Err(ValueConversionUnsupported)
    case Ok(StringToNVarChar(_)) =>
      if !cell.tag.Utf8? || !cell.value.TextValue? then Err(ValueTypeMismatch)
      else if ExceedsLength(length, |cell.value.units|) then Err(ValueTooLong)
      else Ok(NVarCharCell(Some(cell.value.units)))
  }

  /** `var_binary_cell`. */
  function BytesCell(mapping: SchemaMapping, length: TypeLength, cell: ArrowCell): Result<MssqlCell, DiagnosticCode>
    requires cell.ValueCell?
  {
    match ClassifyVariableWidth(mapping)
    case Err(code) => Err(code)
    case Ok(StringToNVarChar(_)) => Err(ValueConversionUnsupported)
    case Ok(BytesToVarBinary(_)) =>
      if !cell.tag.Binary? || !cell.value.BytesValue? then Err(ValueTypeMismatch)
      else if ExceedsLength(length, |cell.value.bytes|) then Err(ValueTooLong)
      else Ok(VarBinaryCell(Some(cell.value.bytes)))
  }

  /** `binary_cell`. */
  function FixedBinaryCell(mapping: SchemaMapping, length: nat, cell: ArrowCell): Result<MssqlCell, DiagnosticCode>
    requires cell.ValueCell?
  {
    match ClassifyFixedSizeBinary(mapping)
    case Err(code) => Err(code)
    case Ok(_) =>
      if !cell.tag.Binary? || !cell.value.BytesValue? then Err(ValueTypeMismatch)
      else if |cell.value.bytes| != length then Err(ValueTypeMismatch)
      else Ok(VarBinaryCell(Some(cell.value.bytes)))
  }

  /** `null_mssql_cell`. */
  function NullMssqlCell(mapping: SchemaMapping, runtime: Runtime): Result<MssqlCell, DiagnosticCode> {
    var t := mapping.arrow.dataType;
    match mapping.mssql.ty
    case Bit => Ok(BitCell(None))
    case TinyInt => Ok(TinyIntCell(None))
    case SmallInt => Ok(SmallIntCell(None))
    case Int => Ok(IntCell(None))
    case BigInt => Ok(BigIntCell(None))
    case Decimal(_, _) =>
      if t.IsDecimal() || ClassifyUInt64(mapping) == Ok(Decimal20) then Ok(DecimalCell(None)) else Err(ValueConversionUnsupported)
    case Date => Ok(DateCell(None))
    case Time(_) =>
      var kind := ClassifyTemporal(mapping);
      if kind.Err? then Err(kind.error) else if kind.value.TimeToTime? then Ok(TimeCell(None)) else Err(ValueConversionUnsupported)
    case DateTime =>
      if !t.Timestamp? then Err(ValueConversionUnsupported) else
      var zone := ValidateZone(mapping, runtime.zones);
      if zone.Err? then Err(zone.error) else Ok(DateTimeCell(None))
    case DateTime2(_) =>
      if !DateTime2Mapping(mapping) then Err(ValueConversionUnsupported) else
      var zone := ValidateZone(mapping, runtime.zones);
      if zone.Err? then Err(zone.error) else Ok(DateTime2Cell(None))
    case DateTimeOffset(_) =>
      var kind := ClassifyTemporal(mapping);
      if kind.Err? then Err(kind.error) else if !kind.value.TimestampToDateTimeOffset? then Err(ValueConversionUnsupported) else
      var zone := ValidateZone(mapping, runtime.zones);
      if zone.Err? then Err(zone.error) else Ok(DateTimeOffsetCell(None))
    case Real => Ok(RealCell(None))
    case Float(_) => Ok(FloatCell(None))
    case NVarChar(_) => Ok(NVarCharCell(None))
    case VarBinary(_) => Ok(VarBinaryCell(None))
    case FixedBinary(_) => Ok(VarBinaryCell(None))
  }

  function MapOk<A, B, E>(r: Result<A, E>, f: A -> B): Result<B, E> {
    if r.Ok? then Ok(f(r.value)) else Err(r.error)
  }

  /** `mssql_cell_from_arrow_cell`. */
  function FromArrowCell(mapping: SchemaMapping, runtime: Runtime, cell: ArrowCell): Result<MssqlCell, DiagnosticCode> {
    if cell.NullCell? then
      if !mapping.mssql.nullable then Err(NullInNonNullableColumn) else NullMssqlCell(mapping, runtime)
    else match mapping.mssql.ty
      case Decimal(_, _) => MapOk(DecimalValue(mapping, cell), d => DecimalCell(Some(d)))
      case Date => MapOk(DateValue(mapping, cell), d => DateCell(Some(d)))
      case Time(_) => MapOk(TimeValue(mapping, runtime, cell), t => TimeCell(Some(t)))
      case DateTime => MapOk(DateTimeValue(mapping, runtime, cell), d => DateTimeCell(Some(d)))
      case DateTime2(_) => MapOk(DateTime2Value(mapping, runtime, cell), d => DateTime2Cell(Some(d)))
      case DateTimeOffset(_) => MapOk(DateTimeOffsetValue(mapping, runtime, cell), d => DateTimeOffsetCell(Some(d)))
      case NVarChar(length) => TextCell(mapping, length, cell)
      case VarBinary(length) => BytesCell(mapping, length, cell)
      case FixedBinary(length) => FixedBinaryCell(mapping, length, cell)
      case _ => PrimitiveCell(mapping, cell)
  }

  /** `mssql_cell`: extract, then convert. */
  function BaselineCell(items: ArrowArray, mapping: SchemaMapping, runtime: Runtime, row: nat): Result<MssqlCell, DiagnosticCode>
    requires row < |items.values|
  {
    var cell := ExtractCell(items, mapping, row);
    if cell.Err? then Err(cell.error) else FromArrowCell(mapping, runtime, cell.value)
  }
}
