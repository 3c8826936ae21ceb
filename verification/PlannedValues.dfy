/** What planning promises about values: the policies reach the cells, and the cells
    keep the meaning of the Arrow values (src/schema/type_conversion.rs with
    src/mssql/cell/from_arrow). */
module PlannedValues {
  import opened Basics
  import opened Errors
  import opened Types
  import opened Bytes
  import opened Decimals
  import opened DateTimes
  import opened Classifiers
  import Planner
  import opened Cells
  import Wire
  import opened DirectCells
  import opened Refinement

  /** When planning gives a type at all. */
  ghost predicate Plannable(t: DataType, options: PlanOptions) {
    match t
    case Other(_) => false
    case UInt64 => !options.uint64Policy.RejectUInt64?
    case Utf8 | LargeUtf8 | Utf8View => !options.stringPolicy.ObservedNVarChar?
    case Binary | LargeBinary | BinaryView => !options.binaryPolicy.ObservedVarBinary?
    case FixedSizeBinary(size) => 1 <= size <= 8000
    case Decimal256(p, s) => !options.decimal256Policy.RejectDecimal256? && PlannableShape(p, s, options)
    case Decimal32(p, s) => PlannableShape(p, s, options)
    case Decimal64(p, s) => PlannableShape(p, s, options)
    case Decimal128(p, s) => PlannableShape(p, s, options)
    case Date64 => options.date64Policy.TimestampDateTime2?
    case Time32(unit) => unit.Second? || unit.Millisecond?
    case Time64(unit) => unit.Microsecond? || unit.Nanosecond?
    case Timestamp(_, zone) =>
      if IsTimezoneFree(zone) || options.timezonePolicy.NormalizeUtcDateTime2?
      then options.timestampPolicy.DateTime2Policy? ==> options.timestampPolicy.precision <= 7
      else options.timezonePolicy.DateTimeOffsetPolicy?
    case _ => true
  }

  ghost predicate PlannableShape(precision: nat, scale: int, options: PlanOptions) {
    && precision >= 1 && precision + ExtraDigits(scale) <= 38 && scale <= precision
    && (scale < 0 ==> options.decimalPolicy.NormalizeNegativeScale?)
  }

  /** Planning fails exactly on the types and policies that cannot be planned. */
  lemma PlanFailsExactly(t: DataType, options: PlanOptions)
    ensures Planner.PlanType(t, options).Ok? <==> Plannable(t, options)
  {
    if t.IsDecimal() {
      NormalizeShapeExact(t.precision, t.scale, options.decimalPolicy);
      hide NormalizeShape;
    }
  }

  /** Why a type cannot be planned: data or a profile would have to decide, a decimal shape
      does not fit, or the type has no counterpart. */
  lemma PlanFailureCode(t: DataType, options: PlanOptions)
    requires !Plannable(t, options)
    ensures Planner.PlanType(t, options) == Err(
      match t
      case Utf8 | LargeUtf8 | Utf8View | Binary | LargeBinary | BinaryView | Date64 => ObservedDataRequired
      case UInt64 | Timestamp(_, _) => ProfileDependentConversion
      case Decimal32(p, s) => ShapeFailure(p, s, options)
      case Decimal64(p, s) => ShapeFailure(p, s, options)
      case Decimal128(p, s) => ShapeFailure(p, s, options)
      case Decimal256(p, s) => if options.decimal256Policy.RejectDecimal256? then ProfileDependentConversion else ShapeFailure(p, s, options)
      case _ => UnsupportedArrowType)
  {
    if t.IsDecimal() {
      NormalizeShapeExact(t.precision, t.scale, options.decimalPolicy);
    }
  }

  function ShapeFailure(precision: nat, scale: int, options: PlanOptions): DiagnosticCode {
    if precision >= 1 && scale < 0 && options.decimalPolicy.RejectNegativeScale? then ProfileDependentConversion else DecimalOutOfRange
  }

  // -------------------------------------------------- what converts at all

  /** The baseline converts a value only between the types that the direct path supports. */
  lemma ConversionNeedsSupport(mapping: SchemaMapping, runtime: Runtime, value: ArrowValue)
    ensures Baseline(mapping, runtime, Some(value)).Ok? ==> SupportMapping(mapping).Some?
  {
    hide NormalizedDecimal, FitsPrecision, ResolveZone, IsFinite, TimeOfDay, TimestampToDateTimeValue, TimestampToDateTime2Value, TimestampToOffsetValue,
      DateFromDate32, DateTime2FromDate64;
  }

  /** A planned decimal(38,38) column is the one that only ever takes nulls. */
  lemma Decimal38Scale38TakesOnlyNulls(mapping: SchemaMapping, options: PlanOptions, runtime: Runtime, value: Option<ArrowValue>)
    requires Planned(mapping, options) && mapping.mssql.ty == MssqlType.Decimal(38, 38)
    ensures Baseline(mapping, runtime, value) ==
      if value.Some? then Err(DecimalOutOfRange)
      else if mapping.mssql.nullable then Ok(DecimalCell(None)) else Err(NullInNonNullableColumn)
  {
    hide NormalizeShape, FitsPrecision, NormalizedDecimal;
  }

  /** A null of any planned column but a timestamp is the column type's null, or refused. */
  lemma PlannedNull(mapping: SchemaMapping, options: PlanOptions, runtime: Runtime)
    requires Planned(mapping, options) && !mapping.arrow.dataType.Timestamp?
    ensures Baseline(mapping, runtime, None) ==
      if mapping.mssql.nullable then Ok(Wire.Null(mapping.mssql.ty)) else Err(NullInNonNullableColumn)
  {
    hide NormalizeShape;
  }

  /** Bits are kept, and floats are kept bit for bit unless they are infinite or NaN. */
  lemma PlannedBitsAndFloats(mapping: SchemaMapping, options: PlanOptions, runtime: Runtime, value: ArrowValue)
    requires Planned(mapping, options) && ValueFits(mapping.arrow.dataType, value)
    ensures mapping.arrow.dataType.Boolean? ==> Baseline(mapping, runtime, Some(value)) == Ok(BitCell(Some(value.flag)))
    ensures mapping.arrow.dataType.Float16? || mapping.arrow.dataType.Float32? ==>
      Baseline(mapping, runtime, Some(value)) ==
        if FromLE(value.image) / 0x80_0000 % 0x100 != 0xFF then Ok(RealCell(Some(value.image))) else Err(NonFiniteFloat)
    ensures mapping.arrow.dataType.Float64? ==>
      Baseline(mapping, runtime, Some(value)) ==
        if FromLE(value.image) / 0x10_0000_0000_0000 % 0x800 != 0x7FF then Ok(FloatCell(Some(value.image))) else Err(NonFiniteFloat)
  {
    if mapping.arrow.dataType.Float16? || mapping.arrow.dataType.Float32? || mapping.arrow.dataType.Float64? {
      FiniteIsExponentTest(value.image);
      hide IsFinite, FromLE;
    }
  }

  // ------------------------------------------------------------ integers

  predicate IsInteger(t: DataType) {
    t.Int8? || t.Int16? || t.Int32? || t.Int64? || t.UInt8? || t.UInt16? || t.UInt32? || t.UInt64?
  }

  /** The integer a cell stands for. */
  function NumberOf(cell: MssqlCell): Option<int> {
    match cell
    case TinyIntCell(v) => v
    case SmallIntCell(v) => v
    case IntCell(v) => v
    case BigIntCell(v) => v
    case DecimalCell(Some(d)) => if d.scale == 0 then Some(d.unscaled) else None
    case _ => None
  }

  /** Planned integers never lose or reject a value, except UInt64 beyond `i64` under the
      checked bigint policy. */
  lemma PlannedIntegersAreLossless(mapping: SchemaMapping, options: PlanOptions, runtime: Runtime, n: int)
    requires Planned(mapping, options) && IsInteger(mapping.arrow.dataType) && ValueFits(mapping.arrow.dataType, IntValue(n))
    ensures Baseline(mapping, runtime, Some(IntValue(n))).Err? <==>
      mapping.arrow.dataType.UInt64? && options.uint64Policy.CheckedBigIntPolicy? && n > I64_MAX
    ensures Baseline(mapping, runtime, Some(IntValue(n))).Err? ==> Baseline(mapping, runtime, Some(IntValue(n))) == Err(IntegerOutOfRange)
    ensures Baseline(mapping, runtime, Some(IntValue(n))).Ok? ==> NumberOf(Baseline(mapping, runtime, Some(IntValue(n))).value) == Some(n)
  {
    if mapping.arrow.dataType.UInt64? && options.uint64Policy.Decimal20Policy? {
      UInt64DecimalBaseline(mapping, runtime, n);
      hide Baseline;
    } else {
      var kind := PlannedIntegerKind(mapping, options, n);
      PrimitiveBaseline(kind, mapping, runtime, IntValue(n));
      hide Baseline, ClassifyPrimitive, SignedLE, Planned;
    }
  }

  lemma PlannedIntegerKind(mapping: SchemaMapping, options: PlanOptions, n: int) returns (kind: PrimitiveClass)
    requires Planned(mapping, options) && IsInteger(mapping.arrow.dataType) && ValueFits(mapping.arrow.dataType, IntValue(n))
    requires !options.uint64Policy.Decimal20Policy? || !mapping.arrow.dataType.UInt64?
    ensures ClassifyPrimitive(mapping) == Ok(kind) && KindFits(PrimitiveColumn(kind), IntValue(n))
    ensures kind.UInt64ToCheckedBigInt? <==> mapping.arrow.dataType.UInt64?
    ensures mapping.arrow.dataType.UInt64? ==> options.uint64Policy.CheckedBigIntPolicy?
    ensures kind != BooleanToBit && !kind.Float16ToReal? && !kind.Float32ToReal? && !kind.Float64ToFloat?
  {
    kind := ClassifyPrimitive(mapping).value;
  }

  // ------------------------------------------------------ strings, binary

  /** The string policy is the length limit that values meet. */
  lemma PlannedTextCapacity(mapping: SchemaMapping, options: PlanOptions, runtime: Runtime, units: seq<nat>)
    requires Planned(mapping, options) && IsStringFamily(mapping.arrow.dataType)
    ensures Baseline(mapping, runtime, Some(TextValue(units))) ==
      if options.stringPolicy.NVarCharPolicy? && |units| > options.stringPolicy.limit
      then Err(ValueTooLong) else Ok(NVarCharCell(Some(units)))
  {
  }

  lemma PlannedBinaryCapacity(mapping: SchemaMapping, options: PlanOptions, runtime: Runtime, data: seq<byte>)
    requires Planned(mapping, options) && IsBinaryFamily(mapping.arrow.dataType)
    ensures Baseline(mapping, runtime, Some(BytesValue(data))) ==
      if options.binaryPolicy.VarBinaryPolicy? && |data| > options.binaryPolicy.limit
      then Err(ValueTooLong) else Ok(VarBinaryCell(Some(data)))
  {
  }

  /** Every value of a planned fixed-size binary column converts, byte for byte. */
  lemma PlannedFixedBinary(mapping: SchemaMapping, options: PlanOptions, runtime: Runtime, data: seq<byte>)
    requires Planned(mapping, options) && mapping.arrow.dataType.FixedSizeBinary?
    requires ValueFits(mapping.arrow.dataType, BytesValue(data))
    ensures Baseline(mapping, runtime, Some(BytesValue(data))) == Ok(VarBinaryCell(Some(data)))
  {
  }

  // ------------------------------------------------------------- decimals

  /** A classified decimal mapping carries the planned shape. */
  lemma PlannedShape(mapping: SchemaMapping, options: PlanOptions)
    requires Planned(mapping, options) && mapping.arrow.dataType.IsDecimal()
    requires mapping.mssql.ty != MssqlType.Decimal(38, 38)
    ensures
      var t := mapping.arrow.dataType;
      var shape := NormalizeShape(t.precision, t.scale, options.decimalPolicy);
      var kind := ClassifyDecimal(mapping);
      && shape.Ok? && kind.Ok? && mapping.mssql.ty == MssqlType.Decimal(shape.value.0, shape.value.1)
      && kind.value.arrowScale == t.scale && kind.value.targetPrecision == shape.value.0
  {
    PlannedDecimal(mapping, options);
    hide NormalizeShape;
  }

  lemma NormalizedDecimalExists(v: int, kind: DecimalClass)
    requires FitsI128(v) && NormalizeUnscaled(v, kind.arrowScale).Some?
    requires FitsPrecision(NormalizeUnscaled(v, kind.arrowScale).value, kind.targetPrecision)
    ensures NormalizedDecimal(v, kind) == Ok(NormalizeUnscaled(v, kind.arrowScale).value)
  {
    hide Pow10, FitsPrecision, NormalizeUnscaled;
  }

  /** A planned decimal cell is the same number as the Arrow value, rescaled by the dropped
      negative scale, and exists for every value of the declared precision. */
  lemma PlannedDecimalKeepsValue(mapping: SchemaMapping, options: PlanOptions, runtime: Runtime, v: int)
    requires Planned(mapping, options) && mapping.arrow.dataType.IsDecimal()
    requires mapping.mssql.ty != MssqlType.Decimal(38, 38)
    requires ValueFits(mapping.arrow.dataType, IntValue(v)) && Abs(v) < Pow10(mapping.arrow.dataType.precision)
    ensures mapping.mssql.ty.Decimal? && mapping.arrow.dataType.scale <= mapping.mssql.ty.scale
    ensures
      var base := Baseline(mapping, runtime, Some(IntValue(v)));
      && base.Ok? && base.value.DecimalCell? && base.value.decimal.Some?
      && base.value.decimal.value.scale == mapping.mssql.ty.scale
      && SameDecimal(v, mapping.arrow.dataType.scale, base.value.decimal.value.unscaled, mapping.mssql.ty.scale)
  {
    hide Planned, Baseline, Pow10, FitsPrecision, NormalizeUnscaled, SameDecimal, NormalizeShape, ClassifyDecimal, NormalizedDecimal, ValueFits;
    var t := mapping.arrow.dataType;
    PlannedShape(mapping, options);
    NormalizeShapeExact(t.precision, t.scale, options.decimalPolicy);
    NormalizePreservesValue(t.precision, t.scale, options.decimalPolicy, v);
    DeclaredFitsI128(t.precision, v);
    var kind := ClassifyDecimal(mapping).value;
    NormalizedDecimalExists(v, kind);
    ArrowDecimalBaseline(kind, mapping, runtime, v);
  }

  /** Which decimals a planned column takes, whatever precision their field declared: those
      that keep to the planned digits once the negative scale is written out. */
  lemma PlannedDecimalExact(mapping: SchemaMapping, options: PlanOptions, runtime: Runtime, v: int)
    requires Planned(mapping, options) && mapping.arrow.dataType.IsDecimal()
    requires mapping.mssql.ty != MssqlType.Decimal(38, 38) && ValueFits(mapping.arrow.dataType, IntValue(v))
    ensures
      var t := mapping.arrow.dataType;
      var digits := t.precision + ExtraDigits(t.scale);
      var unscaled := v * Pow10(ExtraDigits(t.scale));
      && mapping.mssql.ty == MssqlType.Decimal(digits, if t.scale < 0 then 0 else t.scale)
      && Baseline(mapping, runtime, Some(IntValue(v))) ==
           if Abs(unscaled) < Pow10(digits) then Ok(DecimalCell(Some(MssqlDecimal(unscaled, mapping.mssql.ty.scale)))) else Err(DecimalOutOfRange)
  {
    hide Planned, Baseline, Pow10, FitsPrecision, NormalizeUnscaled, NormalizeShape, ClassifyDecimal, NormalizedDecimal, ValueFits;
    var t := mapping.arrow.dataType;
    PlannedShape(mapping, options);
    NormalizeShapeExact(t.precision, t.scale, options.decimalPolicy);
    var kind := ClassifyDecimal(mapping).value;
    ArrowDecimalBaseline(kind, mapping, runtime, v);
    if !kind.source.FromDecimal256? {
      NarrowDecimal(mapping, v);
    }
    NormalizedDecimalExact(v, t.precision, t.scale, options.decimalPolicy, kind);
  }

  lemma NormalizedDecimalExact(v: int, precision: nat, scale: int, policy: DecimalPolicy, kind: DecimalClass)
    requires NormalizeShape(precision, scale, policy).Ok?
    requires kind.arrowScale == scale && kind.targetPrecision == precision + ExtraDigits(scale)
    requires !kind.source.FromDecimal256? ==> FitsI128(v)
    ensures
      var unscaled := v * Pow10(ExtraDigits(scale));
      NormalizedDecimal(v, kind) == if Abs(unscaled) < Pow10(kind.targetPrecision) then Ok(unscaled) else Err(DecimalOutOfRange)
  {
    hide Pow10, FitsPrecision;
    NormalizeShapeExact(precision, scale, policy);
    PowZero();
    if FitsI128(v) {
      AcceptedUnscaledExact(precision, scale, policy, v);
    } else {
      WideDecimal(v, Pow10(ExtraDigits(scale)), kind.targetPrecision);
    }
  }

  lemma NarrowDecimal(mapping: SchemaMapping, v: int)
    requires ClassifyDecimal(mapping).Ok? && !ClassifyDecimal(mapping).value.source.FromDecimal256?
    requires ValueFits(mapping.arrow.dataType, IntValue(v))
    ensures FitsI128(v)
  {
  }

  /** Beyond `i128` no scaling brings a value back under 38 digits. */
  lemma WideDecimal(v: int, factor: nat, digits: nat)
    requires !FitsI128(v) && factor >= 1 && digits <= 38
    ensures Abs(v * factor) >= Pow10(digits)
  {
    hide Pow10;
    ScalingGrows(v, factor);
    I128Has38Digits(v);
    Pow10Monotone(digits, 38);
  }

  lemma I128Has38Digits(v: int)
    requires !FitsI128(v)
    ensures Abs(v) >= Pow10(38)
  {
    hide Pow10;
    Pow10Values();
  }

  lemma ScalingGrows(v: int, factor: nat)
    requires factor >= 1
    ensures Abs(v * factor) >= Abs(v)
  {
    if v > 0 {
      assert v * factor >= v;
    } else {
      assert (-v) * factor >= -v;
      assert v * factor == -((-v) * factor);
    }
  }

  lemma DeclaredFitsI128(precision: nat, v: int)
    requires precision <= 38 && Abs(v) < Pow10(precision)
    ensures FitsI128(v)
  {
    Pow10Values();
    Pow10Monotone(precision, 38);
    hide Pow10;
  }
}
