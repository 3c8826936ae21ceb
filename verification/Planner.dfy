/** Choosing a SQL Server type for an Arrow type (src/schema/type_conversion.rs). */
module Planner {
  import opened Basics
  import opened Errors
  import opened Types
  import Decimals

  const MAX_BINARY_LEN: int := 8000

  /** `plan_arrow_data_type_as_mssql_type`. */
  function PlanType(t: DataType, options: PlanOptions): Result<MssqlType, DiagnosticCode> {
    match t
    case Boolean => Ok(Bit)
    case Int8 | Int16 => Ok(SmallInt)
    case Int32 | UInt16 => Ok(Int)
    case Int64 | UInt32 => Ok(BigInt)
    case UInt8 => Ok(TinyInt)
    case UInt64 => PlanUInt64(options.uint64Policy)
    case Float16 | Float32 => Ok(Real)
    case Float64 => Ok(MssqlType.Float(53))
    case Utf8 | LargeUtf8 | Utf8View => PlanString(options.stringPolicy)
    case Binary | LargeBinary | BinaryView => PlanBinary(options.binaryPolicy)
    case FixedSizeBinary(size) => if 1 <= size <= MAX_BINARY_LEN then Ok(FixedBinary(size)) else Err(UnsupportedArrowType)
    case Decimal32(p, s) => PlanDecimal(p, s, options.decimalPolicy)
    case Decimal64(p, s) => PlanDecimal(p, s, options.decimalPolicy)
    case Decimal128(p, s) => PlanDecimal(p, s, options.decimalPolicy)
    case Decimal256(p, s) =>
      if options.decimal256Policy.RejectDecimal256? then Err(ProfileDependentConversion)
      else PlanDecimal(p, s, options.decimalPolicy)
    case Date32 => Ok(Date)
    case Date64 => if options.date64Policy.TimestampDateTime2? then Ok(DateTime2(3)) else Err(ObservedDataRequired)
    case Time32(Second) => Ok(Time(0))
    case Time32(Millisecond) => Ok(Time(3))
    case Time64(Microsecond) => Ok(Time(6))
    case Time64(Nanosecond) => Ok(Time(7))
    case Timestamp(_, timezone) => PlanTimestamp(timezone, options.timezonePolicy, options.timestampPolicy)
    case _ => Err(UnsupportedArrowType)
  }

  function PlanUInt64(policy: UInt64Policy): Result<MssqlType, DiagnosticCode> {
    match policy
    case RejectUInt64 => Err(ProfileDependentConversion)
    case Decimal20Policy => Ok(MssqlType.Decimal(20, 0))
    case CheckedBigIntPolicy => Ok(BigInt)
  }

  function PlanString(policy: StringPolicy): Result<MssqlType, DiagnosticCode> {
    match policy
    case NVarCharMaxPolicy => Ok(NVarChar(Max))
    case NVarCharPolicy(limit) => Ok(NVarChar(Bounded(limit)))
    case ObservedNVarChar => Err(ObservedDataRequired)
  }

  function PlanBinary(policy: BinaryPolicy): Result<MssqlType, DiagnosticCode> {
    match policy
    case VarBinaryMaxPolicy => Ok(VarBinary(Max))
    case VarBinaryPolicy(limit) => Ok(VarBinary(Bounded(limit)))
    case ObservedVarBinary => Err(ObservedDataRequired)
  }

  function PlanDecimal(precision: nat, scale: int, policy: DecimalPolicy): Result<MssqlType, DiagnosticCode> {
    match Decimals.NormalizeShape(precision, scale, policy)
    case Err(code) => Err(code)
    case Ok(shape) => Ok(MssqlType.Decimal(shape.0, shape.1))
  }

  function PlanTimestamp(timezone: Option<string>, zonePolicy: TimezonePolicy, policy: TimestampPolicy): Result<MssqlType, DiagnosticCode> {
    var zoned := !IsTimezoneFree(timezone);
    if zoned && zonePolicy.RejectTimezone? then Err(ProfileDependentConversion)
    else if zoned && zonePolicy.DateTimeOffsetPolicy? then Ok(DateTimeOffset(7))
    else match policy
      case DateTimePolicy => Ok(DateTime)
      case DateTime2Policy(precision) => if precision <= 7 then Ok(DateTime2(precision)) else Err(ProfileDependentConversion)
  }
}
