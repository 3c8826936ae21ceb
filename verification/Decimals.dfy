/** Decimal shapes and values: normalising negative scales, and the checked
    `i128` arithmetic behind it (type_conversion.rs, types/decimal.rs). */
module Decimals {
  import opened Basics
  import opened Errors
  import opened Types

  const MAX_DECIMAL_PRECISION: nat := 38
  const I128_MAX: int := 0x7FFF_FFFF_FFFF_FFFF_FFFF_FFFF_FFFF_FFFF
  const I128_MIN: int := -0x8000_0000_0000_0000_0000_0000_0000_0000

  predicate FitsI128(v: int) { I128_MIN <= v <= I128_MAX }

  function Pow10(e: nat): (r: nat)
    ensures r >= 1
  {
    if e == 0 then 1 else 10 * Pow10(e - 1)
  }

  function Abs(v: int): nat { if v < 0 then -v else v }

  /** The digits that a negative scale appends. */
  function ExtraDigits(scale: int): nat { if scale < 0 then -scale else 0 }

  // ------------------------------------------------------------- shapes

  /** `normalize_arrow_decimal_shape`. */
  function NormalizeShape(precision: nat, scale: int, policy: DecimalPolicy): Result<(nat, int), DiagnosticCode> {
    if precision == 0 then Err(DecimalOutOfRange)
    else if scale < 0 && policy.RejectNegativeScale? then Err(ProfileDependentConversion)
    else if scale < 0 && precision + ExtraDigits(scale) > 255 then Err(DecimalOutOfRange)
    else
      var shape := if scale < 0 then (precision + ExtraDigits(scale), 0) else (precision, scale);
      if shape.0 > MAX_DECIMAL_PRECISION then Err(DecimalOutOfRange)
      else if shape.1 > shape.0 then Err(DecimalOutOfRange)
      else Ok(shape)
  }

  /** Normalisation accepts exactly the shapes SQL Server can hold exactly, and the
      policy decides negative scales; the result keeps the integer digits. */
  lemma NormalizeShapeExact(precision: nat, scale: int, policy: DecimalPolicy)
    ensures NormalizeShape(precision, scale, policy).Ok? <==>
      precision >= 1 && precision + ExtraDigits(scale) <= 38 && scale <= precision
      && (scale < 0 ==> policy.NormalizeNegativeScale?)
    ensures NormalizeShape(precision, scale, policy).Ok? ==>
      var shape := NormalizeShape(precision, scale, policy).value;
      1 <= shape.0 <= 38 && 0 <= shape.1 <= shape.0
      && shape.0 - shape.1 == precision - scale
      && (shape.1 == scale || (scale < 0 && shape.1 == 0))
  {
  }

  // ------------------------------------------------------------- values

  /** `10_i128.checked_pow`. */
  function CheckedPow10(e: nat): Option<int> {
    if e <= 38 then Some(Pow10(e)) else None
  }

  /** `normalize_negative_scale` on the unscaled value. */
  function NormalizeUnscaled(unscaled: int, scale: int): Option<int> {
    if scale >= 0 then Some(unscaled)
    else match CheckedPow10(-scale)
      case None => None
      case Some(factor) => if FitsI128(unscaled * factor) then Some(unscaled * factor) else None
  }

  /** `decimal_unscaled_fits_precision`. */
  predicate FitsPrecision(value: int, precision: nat) {
    precision != 0 && match CheckedPow10(precision)
      case None => false
      case Some(limit) => -(limit - 1) <= value <= limit - 1
  }

  lemma {:induction false} Pow10Adds(a: nat, b: nat)
    ensures Pow10(a + b) == Pow10(a) * Pow10(b)
  {
    if a != 0 {
      Pow10Adds(a - 1, b);
      calc {
        Pow10(a + b);
        10 * (Pow10(a - 1) * Pow10(b));
        (10 * Pow10(a - 1)) * Pow10(b);
      }
    }
  }

  lemma {:induction false} Pow10Monotone(a: nat, b: nat)
    requires a <= b
    ensures Pow10(a) <= Pow10(b)
    decreases b - a
  {
    if a < b {
      Pow10Monotone(a + 1, b);
    }
  }

  lemma Pow10Values()
    ensures Pow10(9) == 1_000_000_000
    ensures Pow10(10) == 10_000_000_000
    ensures Pow10(19) == 10_000_000_000_000_000_000
    ensures Pow10(20) == 100_000_000_000_000_000_000
    ensures Pow10(28) == 10_000_000_000_000_000_000_000_000_000
    ensures Pow10(38) == 100_000_000_000_000_000_000_000_000_000_000_000_000
    ensures Pow10(39) == 1_000_000_000_000_000_000_000_000_000_000_000_000_000
  {
    assert Pow10(9) == 1_000_000_000;
    Pow10Adds(9, 1);
    Pow10Adds(10, 9);
    Pow10Adds(10, 10);
    Pow10Adds(19, 9);
    Pow10Adds(28, 10);
    Pow10Adds(38, 1);
  }

  /** `checked_pow` is the exact `i128` bound: 10^38 fits, 10^39 does not. */
  lemma CheckedPow10IsI128(e: nat)
    ensures CheckedPow10(e) == if FitsI128(Pow10(e)) then Some(Pow10(e)) else None
  {
    Pow10Values();
    if e <= 38 {
      Pow10Monotone(e, 38);
    } else {
      Pow10Monotone(39, e);
    }
  }

  /** v * 10^-s == v' * 10^-s', over integers, for s <= s'. */
  ghost predicate SameDecimal(v: int, s: int, v': int, s': int)
    requires s <= s'
  {
    v * Pow10(s' - s) == v'
  }

  /** Every value that the Arrow shape allows is rescaled exactly, keeps within the
      planned precision, and never meets the `i128` limits on the way. */
  lemma NormalizePreservesValue(precision: nat, scale: int, policy: DecimalPolicy, v: int)
    requires NormalizeShape(precision, scale, policy).Ok?
    requires Abs(v) < Pow10(precision)
    ensures
      var shape := NormalizeShape(precision, scale, policy).value;
      var v' := NormalizeUnscaled(v, scale);
      && v'.Some? && scale <= shape.1 && SameDecimal(v, scale, v'.value, shape.1)
      && Abs(v'.value) < Pow10(shape.0) <= Pow10(38) <= I128_MAX
      && FitsPrecision(v'.value, shape.0)
  {
    NormalizeShapeExact(precision, scale, policy);
    var shape := NormalizeShape(precision, scale, policy).value;
    Pow10Values();
    Pow10Monotone(shape.0, 38);
    if scale < 0 {
      var factor := Pow10(-scale);
      Pow10Adds(precision, -scale);
      ScaledBound(v, Pow10(precision), factor);
    }
  }

  lemma ScaledBound(v: int, bound: nat, factor: nat)
    requires Abs(v) < bound && factor >= 1
    ensures Abs(v * factor) < bound * factor
  {
    if v >= 0 {
      assert v * factor <= (bound - 1) * factor;
    } else {
      assert (-v) * factor <= (bound - 1) * factor;
      assert v * factor == -((-v) * factor);
    }
  }

  /** A stored value is accepted exactly when its rescaled form has no more digits
      than planned, whatever precision the Arrow field declared. */
  lemma AcceptedUnscaledExact(precision: nat, scale: int, policy: DecimalPolicy, v: int)
    requires NormalizeShape(precision, scale, policy).Ok? && FitsI128(v)
    ensures
      var shape := NormalizeShape(precision, scale, policy).value;
      (NormalizeUnscaled(v, scale).Some? && FitsPrecision(NormalizeUnscaled(v, scale).value, shape.0))
      <==> Abs(v * Pow10(ExtraDigits(scale))) < Pow10(shape.0)
  {
    hide Pow10;
    NormalizeShapeExact(precision, scale, policy);
    var digits := NormalizeShape(precision, scale, policy).value.0;
    FitsPrecisionExact(v * Pow10(ExtraDigits(scale)), digits);
    if scale >= 0 {
      PowZero();
    }
  }

  lemma PowZero()
    ensures Pow10(0) == 1
  {
  }

  /** Up to 38 digits, fitting a precision means having that many digits, and such a
      value is an `i128`. */
  lemma FitsPrecisionExact(value: int, digits: nat)
    requires 1 <= digits <= 38
    ensures FitsPrecision(value, digits) <==> Abs(value) < Pow10(digits)
    ensures FitsPrecision(value, digits) ==> FitsI128(value)
  {
    Pow10Values();
    Pow10Monotone(digits, 38);
    hide Pow10;
  }
}
