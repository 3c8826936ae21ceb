/** The six conversion classifiers, the direct encoder's choice among them, and
    their agreement with the planner
    (src/conversion/arrow_to_mssql, src/write/direct/plan.rs). */
module Classifiers {
  import opened Basics
  import opened Errors
  import opened Types
  import Decimals
  import Planner

  // ------------------------------------------------------------ classes

  datatype PrimitiveClass =
    | BooleanToBit
    | UInt8ToTinyInt
    | Int8ToSmallInt | Int16ToSmallInt
    | Int32ToInt | UInt16ToInt
    | Int64ToBigInt | UInt32ToBigInt | UInt64ToCheckedBigInt
    | Float16ToReal | Float32ToReal
    | Float64ToFloat

  datatype UInt64Class = CheckedBigInt | Decimal20

  datatype DecimalSource = FromDecimal32 | FromDecimal64 | FromDecimal128 | FromDecimal256

  datatype DecimalClass = DecimalClass(source: DecimalSource, targetPrecision: nat, targetScale: nat, arrowScale: int)

  datatype VariableWidthClass = StringToNVarChar(length: TypeLength) | BytesToVarBinary(length: TypeLength)

  datatype TemporalClass =
    | Date32ToDate
    | Date64ToDateTime2
    | TimeToTime(unit: TimeUnit)
    | TimestampToDateTime2(unit: TimeUnit, zoned: bool)
    | TimestampToDateTime(unit: TimeUnit, zoned: bool)
    | TimestampToDateTimeOffset(unit: TimeUnit)

  datatype DirectColumnEncoding =
    | PrimitiveColumn(primitive: PrimitiveClass)
    | UInt64DecimalColumn
    | DecimalColumn(decimal: DecimalClass)
    | VariableWidthColumn(variable: VariableWidthClass)
    | FixedBinaryColumn(length: nat)
    | TemporalColumn(temporal: TemporalClass)

  // -------------------------------------------------------- classifiers

  function ClassifyPrimitive(mapping: SchemaMapping): Result<PrimitiveClass, DiagnosticCode> {
    match (mapping.arrow.dataType, mapping.mssql.ty)
    case (Boolean, Bit) => Ok(BooleanToBit)
    case (UInt8, TinyInt) => Ok(UInt8ToTinyInt)
    case (Int8, SmallInt) => Ok(Int8ToSmallInt)
    case (Int16, SmallInt) => Ok(Int16ToSmallInt)
    case (Int32, Int) => Ok(Int32ToInt)
    case (UInt16, Int) => Ok(UInt16ToInt)
    case (Int64, BigInt) => Ok(Int64ToBigInt)
    case (UInt32, BigInt) => Ok(UInt32ToBigInt)
    case (UInt64, BigInt) =>
      if ClassifyUInt64(mapping).Err? then Err(ClassifyUInt64(mapping).error) else Ok(UInt64ToCheckedBigInt)
    case (Float16, Real) => Ok(Float16ToReal)
    case (Float32, Real) => Ok(Float32ToReal)
    case (Float64, Float(precision)) => if precision == 53 then Ok(Float64ToFloat) else Err(ValueConversionUnsupported)
    case _ => Err(ValueConversionUnsupported)
  }

  function ClassifyUInt64(mapping: SchemaMapping): Result<UInt64Class, DiagnosticCode> {
    match (mapping.arrow.dataType, mapping.mssql.ty)
    case (UInt64, BigInt) => Ok(CheckedBigInt)
    case (UInt64, Decimal(precision, scale)) =>
      if precision == 20 && scale == 0 then Ok(Decimal20) else Err(ValueConversionUnsupported)
    case _ => Err(ValueConversionUnsupported)
  }

  /** `decimal_target`: the scale has to be below 38. */
  function DecimalTarget(mapping: SchemaMapping): Result<(nat, nat), DiagnosticCode> {
    if !mapping.mssql.ty.Decimal? then Err(ValueTypeMismatch)
    else if mapping.mssql.ty.scale < 0 || mapping.mssql.ty.scale >= 38 then Err(DecimalOutOfRange)
    else Ok((mapping.mssql.ty.precision, mapping.mssql.ty.scale))
  }

  function SourceOf(t: DataType): DecimalSource
    requires t.IsDecimal()
  {
    match t
    case Decimal32(_, _) => FromDecimal32
    case Decimal64(_, _) => FromDecimal64
    case Decimal128(_, _) => FromDecimal128
    case Decimal256(_, _) => FromDecimal256
  }

  function ClassifyDecimal(mapping: SchemaMapping): Result<DecimalClass, DiagnosticCode> {
    match DecimalTarget(mapping)
    case Err(code) => Err(code)
    case Ok(target) =>
      if !mapping.arrow.dataType.IsDecimal() then Err(ValueConversionUnsupported)
      else
        var arrowScale := mapping.arrow.dataType.scale;
        var expected := if arrowScale < 0 then 0 else arrowScale;
        if target.1 == expected
        then Ok(DecimalClass(SourceOf(mapping.arrow.dataType), target.0, target.1, arrowScale))
        else Err(SchemaMismatch)
  }

  function ClassifyVariableWidth(mapping: SchemaMapping): Result<VariableWidthClass, DiagnosticCode> {
    if mapping.mssql.ty.NVarChar? && IsStringFamily(mapping.arrow.dataType) then Ok(StringToNVarChar(mapping.mssql.ty.length))
    else if mapping.mssql.ty.VarBinary? && IsBinaryFamily(mapping.arrow.dataType) then Ok(BytesToVarBinary(mapping.mssql.ty.length))
    else Err(ValueConversionUnsupported)
  }

  function ClassifyFixedSizeBinary(mapping: SchemaMapping): Result<nat, DiagnosticCode> {
    match (mapping.arrow.dataType, mapping.mssql.ty)
    case (FixedSizeBinary(arrowLength), FixedBinary(length)) =>
      if arrowLength < 0 then Err(ValueConversionUnsupported)
      else if arrowLength != length then Err(ValueTypeMismatch)
      else Ok(length)
    case _ => Err(ValueConversionUnsupported)
  }

  function ClassifyTemporal(mapping: SchemaMapping): Result<TemporalClass, DiagnosticCode> {
    match (mapping.arrow.dataType, mapping.mssql.ty)
    case (Date32, Date) => Ok(Date32ToDate)
    case (Date64, DateTime2(precision)) => if precision == 3 then Ok(Date64ToDateTime2) else Err(ValueConversionUnsupported)
    case (Time32(unit), Time(precision)) =>
      if (unit == Second && precision == 0) || (unit == Millisecond && precision == 3) then Ok(TimeToTime(unit))
      else Err(ValueConversionUnsupported)
    case (Time64(unit), Time(precision)) =>
      if (unit == Microsecond && precision == 6) || (unit == Nanosecond && precision == 7) then Ok(TimeToTime(unit))
      else Err(ValueConversionUnsupported)
    case (Timestamp(unit, timezone), DateTime2(precision)) =>
      if precision <= 7 then Ok(TimestampToDateTime2(unit, !IsTimezoneFree(timezone))) else Err(ValueConversionUnsupported)
    case (Timestamp(unit, timezone), DateTime) => Ok(TimestampToDateTime(unit, !IsTimezoneFree(timezone)))
    case (Timestamp(unit, timezone), DateTimeOffset(precision)) =>
      if !IsTimezoneFree(timezone) && precision == 7 then Ok(TimestampToDateTimeOffset(unit)) else Err(ValueConversionUnsupported)
    case _ => Err(ValueConversionUnsupported)
  }

  // -------------------------------------------------- the direct plan

  /** `CurrentDirectMappings::support_mapping`: the first classifier that accepts. */
  function SupportMapping(mapping: SchemaMapping): Option<DirectColumnEncoding> {
    var primitive := ClassifyPrimitive(mapping);
    if primitive.Ok? then Some(PrimitiveColumn(primitive.value)) else
    var decimal := ClassifyDecimal(mapping);
    if decimal.Ok? then Some(DecimalColumn(decimal.value)) else
    var uint64 := ClassifyUInt64(mapping);
    if uint64.Ok? then
      Some(if uint64.value.Decimal20? then UInt64DecimalColumn else PrimitiveColumn(UInt64ToCheckedBigInt)) else
    var variable := ClassifyVariableWidth(mapping);
    if variable.Ok? then Some(VariableWidthColumn(variable.value)) else
    var fixed := ClassifyFixedSizeBinary(mapping);
    if fixed.Ok? then Some(FixedBinaryColumn(fixed.value)) else
    var temporal := ClassifyTemporal(mapping);
    if temporal.Ok? then Some(TemporalColumn(temporal.value)) else None
  }

  /** The pairs of types between which values can be converted. */
  predicate ConvertiblePair(t: DataType, ty: MssqlType) {
    match ty
    case Bit => t.Boolean?
    case TinyInt => t.UInt8?
    case SmallInt => t.Int8? || t.Int16?
    case Int => t.Int32? || t.UInt16?
    case BigInt => t.Int64? || t.UInt32? || t.UInt64?
    case Real => t.Float16? || t.Float32?
    case Float(precision) => t.Float64? && precision == 53
    case NVarChar(_) => t.Utf8? || t.LargeUtf8? || t.Utf8View?
    case VarBinary(_) => t.Binary? || t.LargeBinary? || t.BinaryView?
    case FixedBinary(n) => t == FixedSizeBinary(n)
    case Decimal(p, s) =>
      || (t.UInt64? && p == 20 && s == 0)
      || (t.IsDecimal() && 0 <= s < 38 && (if t.scale < 0 then s == 0 else s == t.scale))
    case Date => t.Date32?
    case Time(p) => (t, p) in {(Time32(Second), 0), (Time32(Millisecond), 3), (Time64(Microsecond), 6), (Time64(Nanosecond), 7)}
    case DateTime => t.Timestamp?
    case DateTime2(p) => (t.Date64? && p == 3) || (t.Timestamp? && p <= 7)
    case DateTimeOffset(p) => t.Timestamp? && t.timezone != None && t.timezone != Some("") && p == 7
  }

  /** The direct path supports exactly the convertible pairs. */
  lemma SupportExact(mapping: SchemaMapping)
    ensures SupportMapping(mapping).Some? <==> ConvertiblePair(mapping.arrow.dataType, mapping.mssql.ty)
  {
    if mapping.mssql.ty.Time? {
      TimePairs(mapping.arrow.dataType, mapping.mssql.ty.precision);
    }
  }

  lemma TimePairs(t: DataType, p: nat)
    ensures ConvertiblePair(t, Time(p)) <==>
      || (t.Time32? && ((t.unit.Second? && p == 0) || (t.unit.Millisecond? && p == 3)))
      || (t.Time64? && ((t.unit.Microsecond? && p == 6) || (t.unit.Nanosecond? && p == 7)))
  {
  }

  /** A mapping as schema planning makes it. */
  ghost predicate Planned(mapping: SchemaMapping, options: PlanOptions) {
    Planner.PlanType(mapping.arrow.dataType, options) == Ok(mapping.mssql.ty)
  }

  /** The families in the order of `CurrentDirectMappings`; UInt64 counts as one
      family when it targets a decimal, as a primitive when it targets bigint. */
  ghost function AcceptingFamilies(mapping: SchemaMapping): set<nat> {
    (if ClassifyPrimitive(mapping).Ok? then {0} else {})
    + (if ClassifyDecimal(mapping).Ok? then {1} else {})
    + (if ClassifyUInt64(mapping) == Ok(Decimal20) then {2} else {})
    + (if ClassifyVariableWidth(mapping).Ok? then {3} else {})
    + (if ClassifyFixedSizeBinary(mapping).Ok? then {4} else {})
    + (if ClassifyTemporal(mapping).Ok? then {5} else {})
  }

  /** The one family that could convert a pair of types at all. */
  function CandidateFamily(t: DataType, ty: MssqlType): nat {
    if t.IsDecimal() then 1
    else if t.UInt64? && ty.Decimal? then 2
    else if IsStringFamily(t) || IsBinaryFamily(t) then 3
    else if t.FixedSizeBinary? then 4
    else if t.Date32? || t.Date64? || t.Time32? || t.Time64? || t.Timestamp? then 5
    else 0
  }

  lemma PrimitiveCandidate(mapping: SchemaMapping)
    ensures ClassifyPrimitive(mapping).Ok? ==> CandidateFamily(mapping.arrow.dataType, mapping.mssql.ty) == 0
    ensures ClassifyUInt64(mapping) == Ok(CheckedBigInt) ==> ClassifyPrimitive(mapping) == Ok(UInt64ToCheckedBigInt)
  {
  }

  lemma DecimalCandidate(mapping: SchemaMapping)
    ensures ClassifyDecimal(mapping).Ok? ==> CandidateFamily(mapping.arrow.dataType, mapping.mssql.ty) == 1
    ensures ClassifyUInt64(mapping) == Ok(Decimal20) ==> CandidateFamily(mapping.arrow.dataType, mapping.mssql.ty) == 2
  {
  }

  lemma BinaryCandidates(mapping: SchemaMapping)
    ensures ClassifyVariableWidth(mapping).Ok? ==> CandidateFamily(mapping.arrow.dataType, mapping.mssql.ty) == 3
    ensures ClassifyFixedSizeBinary(mapping).Ok? ==> CandidateFamily(mapping.arrow.dataType, mapping.mssql.ty) == 4
  {
  }

  lemma TemporalCandidate(mapping: SchemaMapping)
    ensures ClassifyTemporal(mapping).Ok? ==> CandidateFamily(mapping.arrow.dataType, mapping.mssql.ty) == 5
  {
  }

  /** No mapping, planned or made by hand, is accepted by two families: the order in
      which the classifiers are asked does not matter. */
  lemma FamiliesAreDisjoint(mapping: SchemaMapping)
    ensures |AcceptingFamilies(mapping)| <= 1
    ensures |AcceptingFamilies(mapping)| == 1 <==> SupportMapping(mapping).Some?
  {
    hide ClassifyPrimitive, ClassifyDecimal, ClassifyUInt64, ClassifyVariableWidth, ClassifyFixedSizeBinary, ClassifyTemporal, CandidateFamily;
    PrimitiveCandidate(mapping);
    DecimalCandidate(mapping);
    BinaryCandidates(mapping);
    TemporalCandidate(mapping);
    var family := CandidateFamily(mapping.arrow.dataType, mapping.mssql.ty);
    assert SupportMapping(mapping).Some? <==> family in AcceptingFamilies(mapping);
    assert AcceptingFamilies(mapping) == if family in AcceptingFamilies(mapping) then {family} else {};
  }

  /** Planner and classifiers agree: a planned mapping is accepted by exactly one
      family, unless it targets decimal(38,38), which no family accepts. */
  lemma PlannedMappingsClassify(mapping: SchemaMapping, options: PlanOptions)
    requires Planned(mapping, options)
    ensures |AcceptingFamilies(mapping)| == (if mapping.mssql.ty == MssqlType.Decimal(38, 38) then 0 else 1)
    ensures SupportMapping(mapping).Some? <==> mapping.mssql.ty != MssqlType.Decimal(38, 38)
  {
    FamiliesAreDisjoint(mapping);
    PlannedIsSupported(mapping, options);
    hide AcceptingFamilies, SupportMapping, Planner.PlanType;
  }

  lemma PlannedIsSupported(mapping: SchemaMapping, options: PlanOptions)
    requires Planned(mapping, options)
    ensures SupportMapping(mapping).Some? <==> mapping.mssql.ty != MssqlType.Decimal(38, 38)
  {
    var t := mapping.arrow.dataType;
    if t.IsDecimal() {
      PlannedDecimal(mapping, options);
    }
  }

  lemma PlannedDecimal(mapping: SchemaMapping, options: PlanOptions)
    requires Planned(mapping, options) && mapping.arrow.dataType.IsDecimal()
    ensures mapping.mssql.ty.Decimal?
    ensures ClassifyDecimal(mapping).Ok? <==> mapping.mssql.ty != MssqlType.Decimal(38, 38)
  {
    var t := mapping.arrow.dataType;
    Decimals.NormalizeShapeExact(t.precision, t.scale, options.decimalPolicy);
  }

  /** The exception is real: decimal128(38,38) plans and is then refused. */
  lemma Decimal38Scale38PlansButIsRefused(options: PlanOptions, name: string)
    ensures Planner.PlanType(Decimal128(38, 38), options) == Ok(MssqlType.Decimal(38, 38))
    ensures SupportMapping(SchemaMapping(ArrowFieldRef(0, name, true, Decimal128(38, 38)),
                                         MssqlColumn(name, MssqlType.Decimal(38, 38), true))).None?
  {
  }

  /** What the chosen encoding says about the pair of types. */
  lemma SupportedShape(mapping: SchemaMapping)
    requires SupportMapping(mapping).Some?
    ensures
      var t, ty := mapping.arrow.dataType, mapping.mssql.ty;
      match SupportMapping(mapping).value
      case PrimitiveColumn(p) => ClassifyPrimitive(mapping) == Ok(p)
      case UInt64DecimalColumn => t.UInt64? && ty == MssqlType.Decimal(20, 0)
      case DecimalColumn(d) => ClassifyDecimal(mapping) == Ok(d)
      case VariableWidthColumn(v) => ClassifyVariableWidth(mapping) == Ok(v)
      case FixedBinaryColumn(n) => ty == FixedBinary(n) && t == FixedSizeBinary(n)
      case TemporalColumn(c) => ClassifyTemporal(mapping) == Ok(c)
  {
  }

  // ------------------------------------------- runtime type compatibility

  /** `arrow_type_compatible_with_mapping`. */
  predicate TypeCompatible(runtime: DataType, mapping: SchemaMapping) {
    || runtime == mapping.arrow.dataType
    || (IsStringFamily(runtime) && IsStringFamily(mapping.arrow.dataType) && mapping.mssql.ty.NVarChar?)
    || (IsBinaryFamily(runtime) && IsBinaryFamily(mapping.arrow.dataType) && mapping.mssql.ty.VarBinary?)
  }
}
