/** Arrow types, SQL Server types, policies and column mappings. */
module Types {
  import opened Basics

  datatype TimeUnit = Second | Millisecond | Microsecond | Nanosecond

  /** Arrow data types. `Other` stands for the families the planner refuses
      (null, duration, interval, nested and encoded types). */
  datatype DataType =
    | Boolean
    | Int8 | Int16 | Int32 | Int64
    | UInt8 | UInt16 | UInt32 | UInt64
    | Float16 | Float32 | Float64
    | Utf8 | LargeUtf8 | Utf8View
    | Binary | LargeBinary | BinaryView
    | FixedSizeBinary(size: int)
    | Decimal32(precision: nat, scale: int)
    | Decimal64(precision: nat, scale: int)
    | Decimal128(precision: nat, scale: int)
    | Decimal256(precision: nat, scale: int)
    | Date32 | Date64
    | Time32(unit: TimeUnit)
    | Time64(unit: TimeUnit)
    | Timestamp(unit: TimeUnit, timezone: Option<string>)
    | Other(family: string)
  {
    predicate IsDecimal() { Decimal32? || Decimal64? || Decimal128? || Decimal256? }
  }

  /** Field values stay inside their Rust types (`u8` precision, `i8` scale, `i32` size). */
  ghost predicate InRange(t: DataType) {
    && (t.IsDecimal() ==> t.precision < 256 && -128 <= t.scale < 128)
    && (t.FixedSizeBinary? ==> -0x8000_0000 <= t.size < 0x8000_0000)
  }

  datatype TypeLength = Bounded(limit: nat) | Max

  datatype MssqlType =
    | Bit | TinyInt | SmallInt | Int | BigInt | Real
    | Float(precision: nat)
    | NVarChar(length: TypeLength)
    | VarBinary(length: TypeLength)
    | FixedBinary(size: nat)
    | Decimal(precision: nat, scale: int)
    | Date
    | Time(precision: nat)
    | DateTime
    | DateTime2(precision: nat)
    | DateTimeOffset(precision: nat)

  datatype StringPolicy = NVarCharMaxPolicy | NVarCharPolicy(limit: nat) | ObservedNVarChar
  datatype BinaryPolicy = VarBinaryMaxPolicy | VarBinaryPolicy(limit: nat) | ObservedVarBinary
  datatype TimestampPolicy = DateTime2Policy(precision: nat) | DateTimePolicy
  datatype TimezonePolicy = RejectTimezone | DateTimeOffsetPolicy | NormalizeUtcDateTime2
  datatype NanosecondPolicy = RejectNon100ns | RoundTo100ns | TruncateTo100ns
  datatype UInt64Policy = RejectUInt64 | Decimal20Policy | CheckedBigIntPolicy
  datatype DecimalPolicy = RejectNegativeScale | NormalizeNegativeScale
  datatype Decimal256Policy = CheckedDowncast | RejectDecimal256
  datatype Date64Policy = RejectNonMidnight | TimestampDateTime2

  datatype PlanOptions = PlanOptions(
    stringPolicy: StringPolicy,
    binaryPolicy: BinaryPolicy,
    timezonePolicy: TimezonePolicy,
    timestampPolicy: TimestampPolicy,
    nanosecondPolicy: NanosecondPolicy,
    uint64Policy: UInt64Policy,
    decimalPolicy: DecimalPolicy,
    decimal256Policy: Decimal256Policy,
    date64Policy: Date64Policy)

  /** An Arrow schema field. */
  datatype Field = Field(name: string, dataType: DataType, nullable: bool)

  datatype ArrowFieldRef = ArrowFieldRef(index: nat, name: string, nullable: bool, dataType: DataType)

  datatype MssqlColumn = MssqlColumn(name: string, ty: MssqlType, nullable: bool)

  /** One planned Arrow field and its SQL Server column. */
  datatype SchemaMapping = SchemaMapping(arrow: ArrowFieldRef, mssql: MssqlColumn)

  predicate IsStringFamily(t: DataType) { t.Utf8? || t.LargeUtf8? || t.Utf8View? }

  predicate IsBinaryFamily(t: DataType) { t.Binary? || t.LargeBinary? || t.BinaryView? }

  /** `is_timezone_free`: no timezone, or an empty one. */
  predicate IsTimezoneFree(timezone: Option<string>) { timezone.None? || timezone.value == "" }
}
