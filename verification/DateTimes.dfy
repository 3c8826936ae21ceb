/** Temporal arithmetic: timestamps to `datetime`, `datetime2` and
    `datetimeoffset`, in checked `i128` ticks of 100 ns
    (src/mssql/cell/from_arrow/temporal). */
module DateTimes {
  import opened Basics
  import opened Errors
  import opened Types
  import opened Decimals

  const I64_MIN: int := -0x8000_0000_0000_0000
  const I64_MAX: int := 0x7FFF_FFFF_FFFF_FFFF

  const TICKS_PER_SECOND: int := 10_000_000
  const TICKS_PER_MILLISECOND: int := 10_000
  const TICKS_PER_MICROSECOND: int := 10
  const TICKS_PER_DAY: int := 864_000_000_000

  const FRAGMENTS_PER_SECOND: int := 300
  const FRAGMENTS_PER_DAY: int := 25_920_000
  const DATETIME_DAYS_TO_UNIX_EPOCH: int := 25_567
  const DATETIME_MIN_DAYS: int := -53_690
  const DATETIME_MAX_DAYS: int := 2_958_463
  const DATETIME_MIN_TICKS: int := (DATETIME_MIN_DAYS - DATETIME_DAYS_TO_UNIX_EPOCH) * TICKS_PER_DAY

  const DATE_UNIX_EPOCH_DAYS: int := 719_162
  const DATE_MAX_DAYS: int := 3_652_058
  const DATETIME2_MIN_TICKS: int := -DATE_UNIX_EPOCH_DAYS * TICKS_PER_DAY

  const MAX_OFFSET_MINUTES: int := 840

  /** Days before January 1 of a year in the proleptic Gregorian calendar, from 0001-01-01. */
  function DaysBeforeYear(year: nat): nat
    requires year >= 1
  {
    365 * (year - 1) + (year - 1) / 4 - (year - 1) / 100 + (year - 1) / 400
  }

  /** The day constants are the calendar's: `date` covers the years 1 to 9999, `datetime`
      the years 1753 to 9999 counted from 1900. */
  lemma CalendarConstants()
    ensures DATE_UNIX_EPOCH_DAYS == DaysBeforeYear(1970) && DATE_MAX_DAYS == DaysBeforeYear(10_000) - 1
    ensures DATETIME_DAYS_TO_UNIX_EPOCH == DaysBeforeYear(1970) - DaysBeforeYear(1900)
    ensures DATETIME_MIN_DAYS == DaysBeforeYear(1753) - DaysBeforeYear(1900)
    ensures DATETIME_MAX_DAYS == DaysBeforeYear(10_000) - 1 - DaysBeforeYear(1900)
  {
  }

  datatype DateTimeRounding = LegacyPre130 | Compat130Plus

  datatype MssqlDateTime = MssqlDateTime(days: int, fragments: nat)

  datatype MssqlTime = MssqlTime(increments: nat, scale: nat)

  datatype MssqlDateTime2 = MssqlDateTime2(days: nat, time: MssqlTime)

  datatype MssqlDateTimeOffset = MssqlDateTimeOffset(datetime2: MssqlDateTime2, offsetMinutes: int)

  function CheckedI128(v: int): Result<int, DiagnosticCode> {
    if FitsI128(v) then Ok(v) else Err(TimestampOutOfRange)
  }

  // --------------------------------------------------- half-up rounding

  /** Euclidean quotient, rounded up from one half. */
  function HalfUp(n: int, d: nat): int
    requires d > 0
  {
    if n % d * 2 >= d then n / d + 1 else n / d
  }

  /** The rounded quotient is the nearest integer, ties upwards. */
  lemma HalfUpNearest(n: int, d: nat)
    requires d > 0
    ensures (2 * HalfUp(n, d) - 1) * d <= 2 * n < (2 * HalfUp(n, d) + 1) * d
  {
    assert n == n / d * d + n % d;
    var q := n / d;
    assert (2 * q - 1) * d == 2 * q * d - d;
    assert (2 * q + 1) * d == 2 * q * d + d;
    assert (2 * q + 3) * d == 2 * q * d + 3 * d;
    assert 2 * (q * d) == 2 * q * d;
  }

  lemma NearestUnique(n: int, d: nat, h: int)
    requires d > 0 && (2 * h - 1) * d <= 2 * n < (2 * h + 1) * d
    ensures HalfUp(n, d) == h
  {
    HalfUpNearest(n, d);
    var k := HalfUp(n, d);
    assert (2 * h - 1) * d < (2 * k + 1) * d;
    assert (2 * k - 1) * d < (2 * h + 1) * d;
    Cancels(2 * h - 1, 2 * k + 1, d);
    Cancels(2 * k - 1, 2 * h + 1, d);
  }

  lemma Cancels(a: int, b: int, d: nat)
    requires d > 0 && a * d < b * d
    ensures a < b
  {
  }

  lemma HalfUpMonotone(n: int, m: int, d: nat)
    requires d > 0 && n <= m
    ensures HalfUp(n, d) <= HalfUp(m, d)
  {
    HalfUpNearest(n, d);
    HalfUpNearest(m, d);
    Cancels(2 * HalfUp(n, d) - 1, 2 * HalfUp(m, d) + 1, d);
  }

  lemma HalfUpExact(q: int, d: nat)
    requires d > 0
    ensures HalfUp(q * d, d) == q
  {
    NearestUnique(q * d, d, q);
  }

  // ----------------------------------------------------------- datetime

  /** `round_100ns_ticks_to_nearest_millisecond`. */
  function RoundToMillisecond(ticks: int): Result<int, DiagnosticCode> {
    var base := ticks / TICKS_PER_MILLISECOND;
    var remainder := ticks % TICKS_PER_MILLISECOND;
    var rounded := if remainder * 2 >= TICKS_PER_MILLISECOND then CheckedI128(base + 1) else Ok(base);
    if rounded.Err? then rounded else CheckedI128(rounded.value * TICKS_PER_MILLISECOND)
  }

  /** `round_100ns_ticks_to_nearest_datetime_fragment`. */
  function RoundToFragment(ticks: int): Result<int, DiagnosticCode> {
    var numerator := CheckedI128(ticks * FRAGMENTS_PER_SECOND);
    if numerator.Err? then numerator else
    var base := numerator.value / TICKS_PER_SECOND;
    var remainder := numerator.value % TICKS_PER_SECOND;
    if remainder * 2 >= TICKS_PER_SECOND then CheckedI128(base + 1) else Ok(base)
  }

  /** `round_100ns_ticks_to_datetime_fragments`. */
  function RoundToFragments(ticks: int, rounding: DateTimeRounding): Result<int, DiagnosticCode> {
    match rounding
    case LegacyPre130 =>
      var milliseconds := RoundToMillisecond(ticks);
      if milliseconds.Err? then milliseconds else RoundToFragment(milliseconds.value)
    case Compat130Plus => RoundToFragment(ticks)
  }

  /** `mssql_datetime_from_unix_epoch_100ns_ticks`. */
  function DateTimeFromTicks(ticks: int, rounding: DateTimeRounding): Result<MssqlDateTime, DiagnosticCode> {
    if ticks < DATETIME_MIN_TICKS then Err(TimestampOutOfRange)
    else
      var rounded := RoundToFragments(ticks, rounding);
      if rounded.Err? then Err(rounded.error) else
      var days := rounded.value / FRAGMENTS_PER_DAY + DATETIME_DAYS_TO_UNIX_EPOCH;
      var fragments := rounded.value % FRAGMENTS_PER_DAY;
      if !(DATETIME_MIN_DAYS <= days <= DATETIME_MAX_DAYS) then Err(TimestampOutOfRange)
      else if !(-0x8000_0000 <= days < 0x8000_0000) || fragments >= 0x1_0000_0000 then Err(TimestampOutOfRange)
      else Ok(MssqlDateTime(days, fragments))
  }

  // Wide enough for any i64 timestamp of any unit, shifted by a timezone offset.
  const MAX_SOURCE_TICKS: int := 0x1_0000_0000_0000_0000 * 10_000_000

  predicate SourceTicks(ticks: int) { -MAX_SOURCE_TICKS <= ticks <= MAX_SOURCE_TICKS }

  /** Nearest 1/300 s fragment, counted from the Unix epoch. */
  function NearestFragment(ticks: int): int {
    HalfUp(ticks * FRAGMENTS_PER_SECOND, TICKS_PER_SECOND)
  }

  function NearestMillisecond(ticks: int): int {
    HalfUp(ticks, TICKS_PER_MILLISECOND)
  }

  function Fragments(ticks: int, rounding: DateTimeRounding): int {
    match rounding
    case LegacyPre130 => NearestFragment(NearestMillisecond(ticks) * TICKS_PER_MILLISECOND)
    case Compat130Plus => NearestFragment(ticks)
  }

  /** No `i128` overflow branch of the rounding can be reached from an Arrow timestamp. */
  lemma RoundingNeverOverflows(ticks: int, rounding: DateTimeRounding)
    requires SourceTicks(ticks)
    ensures RoundToFragments(ticks, rounding) == Ok(Fragments(ticks, rounding))
  {
    HalfUpNearest(ticks, TICKS_PER_MILLISECOND);
  }

  /** Each rounding keeps the order of instants. */
  lemma FragmentsMonotone(a: int, b: int, rounding: DateTimeRounding)
    requires a <= b
    ensures Fragments(a, rounding) <= Fragments(b, rounding)
  {
    HalfUpMonotone(a, b, TICKS_PER_MILLISECOND);
    var ma, mb := NearestMillisecond(a) * TICKS_PER_MILLISECOND, NearestMillisecond(b) * TICKS_PER_MILLISECOND;
    HalfUpMonotone(ma * FRAGMENTS_PER_SECOND, mb * FRAGMENTS_PER_SECOND, TICKS_PER_SECOND);
    HalfUpMonotone(a * FRAGMENTS_PER_SECOND, b * FRAGMENTS_PER_SECOND, TICKS_PER_SECOND);
  }

  /** How far a fragment count is from its instant, in units of 1/300 tick
      (a fragment is 10^7 of them, a millisecond 3 * 10^6). */
  function FragmentError(ticks: int, fragments: int): int {
    ticks * FRAGMENTS_PER_SECOND - fragments * TICKS_PER_SECOND
  }

  /** Direct rounding is off by at most half a fragment; legacy rounding goes to the nearest
      millisecond and from there to its nearest fragment, at most half a millisecond more. */
  lemma FragmentsErrorBound(ticks: int)
    ensures -5_000_000 <= FragmentError(ticks, Fragments(ticks, Compat130Plus)) < 5_000_000
    ensures
      var milliseconds := NearestMillisecond(ticks);
      && -5_000 <= ticks - 10_000 * milliseconds < 5_000
      && -5_000_000 <= FragmentError(10_000 * milliseconds, Fragments(ticks, LegacyPre130)) < 5_000_000
    ensures -6_500_000 <= FragmentError(ticks, Fragments(ticks, LegacyPre130)) < 6_500_000
  {
    HalfUpNearest(ticks, TICKS_PER_MILLISECOND);
    HalfUpNearest(ticks * FRAGMENTS_PER_SECOND, TICKS_PER_SECOND);
    HalfUpNearest(NearestMillisecond(ticks) * TICKS_PER_MILLISECOND * FRAGMENTS_PER_SECOND, TICKS_PER_SECOND);
  }

  /** The two roundings agree on whole milliseconds and are never more than one
      fragment apart. */
  lemma RoundingsAgree(ticks: int)
    ensures -1 <= Fragments(ticks, LegacyPre130) - Fragments(ticks, Compat130Plus) <= 1
    ensures ticks % TICKS_PER_MILLISECOND == 0 ==> Fragments(ticks, LegacyPre130) == Fragments(ticks, Compat130Plus)
  {
    FragmentsErrorBound(ticks);
    if ticks % TICKS_PER_MILLISECOND == 0 {
      HalfUpExact(ticks / TICKS_PER_MILLISECOND, TICKS_PER_MILLISECOND);
    }
  }

  /** They do differ: .684582 s is fragment 206 (.687) under legacy rounding and
      205 (.683) under direct rounding. */
  lemma RoundingsDiffer()
    ensures Fragments(6_845_820, LegacyPre130) == 206
    ensures Fragments(6_845_820, Compat130Plus) == 205
  {
    NearestUnique(6_845_820, TICKS_PER_MILLISECOND, 685);
    NearestUnique(685 * TICKS_PER_MILLISECOND * FRAGMENTS_PER_SECOND, TICKS_PER_SECOND, 206);
    NearestUnique(6_845_820 * FRAGMENTS_PER_SECOND, TICKS_PER_SECOND, 205);
  }

  /** A stored datetime as a fragment count from the Unix epoch. */
  function StoredFragments(value: MssqlDateTime): int {
    (value.days - DATETIME_DAYS_TO_UNIX_EPOCH) * FRAGMENTS_PER_DAY + value.fragments
  }

  predicate ValidDateTime(value: MssqlDateTime) {
    DATETIME_MIN_DAYS <= value.days <= DATETIME_MAX_DAYS && value.fragments < FRAGMENTS_PER_DAY
  }

  // One fragment past the last datetime value.
  const DATETIME_END_FRAGMENTS: int := (DATETIME_MAX_DAYS + 1 - DATETIME_DAYS_TO_UNIX_EPOCH) * FRAGMENTS_PER_DAY

  lemma FirstFragment(rounding: DateTimeRounding)
    ensures Fragments(DATETIME_MIN_TICKS, rounding) == (DATETIME_MIN_DAYS - DATETIME_DAYS_TO_UNIX_EPOCH) * FRAGMENTS_PER_DAY
  {
    var days := DATETIME_MIN_DAYS - DATETIME_DAYS_TO_UNIX_EPOCH;
    HalfUpExact(days * 86_400_000, TICKS_PER_MILLISECOND);
    HalfUpExact(days * FRAGMENTS_PER_DAY, TICKS_PER_SECOND);
    assert DATETIME_MIN_TICKS == days * 86_400_000 * TICKS_PER_MILLISECOND;
    assert DATETIME_MIN_TICKS * FRAGMENTS_PER_SECOND == days * FRAGMENTS_PER_DAY * TICKS_PER_SECOND;
  }

  /** Conversion to datetime succeeds exactly from the first datetime instant to the
      last one that still rounds inside the range; the result is canonical and carries
      the rounding into the day count. */
  lemma DateTimeExact(ticks: int, rounding: DateTimeRounding)
    requires SourceTicks(ticks)
    ensures DateTimeFromTicks(ticks, rounding).Ok? <==>
      DATETIME_MIN_TICKS <= ticks && Fragments(ticks, rounding) < DATETIME_END_FRAGMENTS
    ensures DateTimeFromTicks(ticks, rounding).Ok? ==>
      && ValidDateTime(DateTimeFromTicks(ticks, rounding).value)
      && StoredFragments(DateTimeFromTicks(ticks, rounding).value) == Fragments(ticks, rounding)
    ensures DateTimeFromTicks(ticks, rounding).Err? ==> DateTimeFromTicks(ticks, rounding) == Err(TimestampOutOfRange)
  {
    RoundingNeverOverflows(ticks, rounding);
    if ticks >= DATETIME_MIN_TICKS {
      FirstFragment(rounding);
      FragmentsMonotone(DATETIME_MIN_TICKS, ticks, rounding);
    }
    var total := Fragments(ticks, rounding);
    assert total == total / FRAGMENTS_PER_DAY * FRAGMENTS_PER_DAY + total % FRAGMENTS_PER_DAY;
    hide Fragments, RoundToFragments;
  }

  // -------------------------------------------------------- nanoseconds

  /** `nanoseconds_to_100ns_ticks`, also used for times of day. */
  function NanosecondTicks(nanoseconds: int, policy: NanosecondPolicy): Result<int, DiagnosticCode> {
    var base := nanoseconds / 100;
    var remainder := nanoseconds % 100;
    match policy
    case RejectNon100ns => if remainder == 0 then Ok(base) else Err(LossyConversionRequiresPolicy)
    case TruncateTo100ns => Ok(base)
    case RoundTo100ns =>
      if remainder < 50 then Ok(base)
      else if base + 1 > I64_MAX then Err(TimestampOutOfRange)
      else Ok(base + 1)
  }

  /** Rejecting accepts exactly whole ticks; truncating and rounding never fail. */
  lemma NanosecondTicksExact(nanoseconds: int, policy: NanosecondPolicy)
    requires I64_MIN <= nanoseconds <= I64_MAX
    ensures NanosecondTicks(nanoseconds, policy).Ok? <==> policy.RejectNon100ns? ==> nanoseconds % 100 == 0
    ensures NanosecondTicks(nanoseconds, policy).Ok? ==>
      var ticks := NanosecondTicks(nanoseconds, policy).value;
      && SourceTicks(ticks)
      && (policy.RejectNon100ns? ==> ticks * 100 == nanoseconds)
      && (policy.TruncateTo100ns? ==> ticks * 100 <= nanoseconds < ticks * 100 + 100)
      && (policy.RoundTo100ns? ==> ticks == HalfUp(nanoseconds, 100))
    ensures NanosecondTicks(nanoseconds, policy).Err? ==> NanosecondTicks(nanoseconds, policy) == Err(LossyConversionRequiresPolicy)
  {
  }

  // ---------------------------------------------------------- datetime2

  function IncrementTicks(scale: nat): nat
    requires scale <= 7
  {
    Pow10(7 - scale)
  }

  /** `round_100ns_ticks_to_datetime2_scale`. */
  function RoundToScale(ticks: int, scale: nat): Result<int, DiagnosticCode>
    requires scale <= 7
  {
    if scale == 7 then Ok(ticks) else
    var factor := IncrementTicks(scale);
    var base := ticks / factor;
    var rounded := if ticks % factor * 2 >= factor then CheckedI128(base + 1) else Ok(base);
    if rounded.Err? then rounded else CheckedI128(rounded.value * factor)
  }

  /** `mssql_datetime2_from_unix_epoch_100ns_ticks_at_scale`. */
  function DateTime2FromTicks(ticks: int, scale: nat): Result<MssqlDateTime2, DiagnosticCode>
    requires scale <= 7
  {
    if ticks < DATETIME2_MIN_TICKS then Err(TimestampOutOfRange)
    else
      var rounded := RoundToScale(ticks, scale);
      if rounded.Err? then Err(rounded.error) else
      var days := rounded.value / TICKS_PER_DAY + DATE_UNIX_EPOCH_DAYS;
      var ticksSinceMidnight := rounded.value % TICKS_PER_DAY;
      if !(0 <= days <= DATE_MAX_DAYS) then Err(TimestampOutOfRange)
      else if days >= 0x1_0000_0000 || ticksSinceMidnight > U64_MAX then Err(TimestampOutOfRange)
      else Ok(MssqlDateTime2(days, MssqlTime(ticksSinceMidnight / IncrementTicks(scale), scale)))
  }

  function IncrementsPerDay(scale: nat): nat { 86_400 * Pow10(scale) }

  /** A stored datetime2 as a count of increments from the Unix epoch. */
  function StoredIncrements(value: MssqlDateTime2): int {
    (value.days - DATE_UNIX_EPOCH_DAYS) * IncrementsPerDay(value.time.scale) + value.time.increments
  }

  predicate ValidTime(time: MssqlTime) {
    time.scale <= 7 && time.increments < IncrementsPerDay(time.scale)
  }

  predicate ValidDateTime2(value: MssqlDateTime2) {
    value.days <= DATE_MAX_DAYS && ValidTime(value.time)
  }

  // One tick past the last datetime2 value, counted in days from the Unix epoch.
  const DATETIME2_END_DAYS: int := DATE_MAX_DAYS + 1 - DATE_UNIX_EPOCH_DAYS

  /** A day holds a whole number of increments at every scale. */
  lemma DayIsWholeIncrements(scale: nat)
    requires scale <= 7
    ensures IncrementsPerDay(scale) * IncrementTicks(scale) == TICKS_PER_DAY
    ensures IncrementTicks(scale) <= TICKS_PER_SECOND
  {
    assert Pow10(7) == 10_000_000;
    Pow10Adds(scale, 7 - scale);
    Pow10Monotone(7 - scale, 7);
    assert 86_400 * Pow10(scale) * Pow10(7 - scale) == 86_400 * (Pow10(scale) * Pow10(7 - scale));
  }

  lemma RoundToScaleExact(ticks: int, scale: nat)
    requires scale <= 7 && SourceTicks(ticks)
    ensures RoundToScale(ticks, scale) == Ok(HalfUp(ticks, IncrementTicks(scale)) * IncrementTicks(scale))
  {
    DayIsWholeIncrements(scale);
    var d := IncrementTicks(scale);
    if scale == 7 {
      assert d == Pow10(0) == 1;
      NearestUnique(ticks, 1, ticks);
    } else {
      HalfUpNearest(ticks, d);
      var h := HalfUp(ticks, d);
      assert 2 * (h * d) == 2 * h * d;
      assert (2 * h - 1) * d == 2 * h * d - d;
      assert (2 * h + 1) * d == 2 * h * d + d;
      QuotientBound(ticks, d);
      hide Pow10;
    }
  }

  lemma QuotientBound(ticks: int, d: nat)
    requires d > 0 && SourceTicks(ticks)
    ensures -MAX_SOURCE_TICKS <= ticks / d <= MAX_SOURCE_TICKS
  {
    var q := ticks / d;
    assert ticks == q * d + ticks % d;
    assert 0 <= ticks % d < d;
    Cancels(q, MAX_SOURCE_TICKS + 1, d);
    Cancels(-MAX_SOURCE_TICKS - 1, q, d);
  }

  /** Splitting a whole number of increments at midnight. */
  lemma SplitDay(increments: int, perDay: nat, d: nat)
    requires perDay > 0 && d > 0
    ensures increments * d / (perDay * d) == increments / perDay
    ensures increments * d % (perDay * d) == increments % perDay * d
  {
    var q, r := increments / perDay, increments % perDay;
    assert increments * d == q * (perDay * d) + r * d by {
      assert increments == q * perDay + r;
      assert (q * perDay + r) * d == q * perDay * d + r * d;
      assert q * perDay * d == q * (perDay * d);
    }
    assert 0 <= r * d < perDay * d by {
      assert (perDay - r) * d > 0;
      assert (perDay - r) * d == perDay * d - r * d;
    }
    DivisionUnique(increments * d, perDay * d, q, r * d);
  }

  lemma DivisionUnique(n: int, d: nat, q: int, r: int)
    requires d > 0 && n == q * d + r && 0 <= r < d
    ensures n / d == q && n % d == r
  {
    assert n == n / d * d + n % d;
    var gap := n / d - q;
    assert gap * d == r - n % d;
    assert -1 * d < gap * d < 1 * d;
    Cancels(gap, 1, d);
    Cancels(-1, gap, d);
  }

  /** Conversion to datetime2(p) succeeds exactly from 0001-01-01 to the last instant
      that still rounds inside 9999-12-31; it stores the nearest increment, ties up,
      with the carry in the day count. */
  lemma DateTime2Exact(ticks: int, scale: nat)
    requires scale <= 7 && SourceTicks(ticks)
    ensures DateTime2FromTicks(ticks, scale).Ok? <==>
      DATETIME2_MIN_TICKS <= ticks && HalfUp(ticks, IncrementTicks(scale)) < DATETIME2_END_DAYS * IncrementsPerDay(scale)
    ensures DateTime2FromTicks(ticks, scale).Ok? ==>
      var value := DateTime2FromTicks(ticks, scale).value;
      && ValidDateTime2(value) && value.time.scale == scale
      && StoredIncrements(value) == HalfUp(ticks, IncrementTicks(scale))
    ensures DateTime2FromTicks(ticks, scale).Err? ==> DateTime2FromTicks(ticks, scale) == Err(TimestampOutOfRange)
  {
    RoundToScaleExact(ticks, scale);
    DayIsWholeIncrements(scale);
    var d, perDay, h := IncrementTicks(scale), IncrementsPerDay(scale), HalfUp(ticks, IncrementTicks(scale));
    SplitDay(h, perDay, d);
    assert h == h / perDay * perDay + h % perDay;
    DivisionUnique(h % perDay * d, d, h % perDay, 0);
    if ticks >= DATETIME2_MIN_TICKS {
      FirstIncrement(scale);
      HalfUpMonotone(DATETIME2_MIN_TICKS, ticks, d);
      DayBound(h, perDay, -DATE_UNIX_EPOCH_DAYS);
    }
    DayBound(h, perDay, DATETIME2_END_DAYS);
    hide Pow10, HalfUp, RoundToScale, IncrementTicks, IncrementsPerDay;
  }

  lemma FirstIncrement(scale: nat)
    requires scale <= 7
    ensures HalfUp(DATETIME2_MIN_TICKS, IncrementTicks(scale)) == -DATE_UNIX_EPOCH_DAYS * IncrementsPerDay(scale)
  {
    DayIsWholeIncrements(scale);
    var d, perDay := IncrementTicks(scale), IncrementsPerDay(scale);
    assert -DATE_UNIX_EPOCH_DAYS * (perDay * d) == (-DATE_UNIX_EPOCH_DAYS * perDay) * d;
    HalfUpExact(-DATE_UNIX_EPOCH_DAYS * perDay, d);
  }

  lemma DayBound(n: int, perDay: nat, days: int)
    requires perDay > 0
    ensures n / perDay >= days <==> n >= days * perDay
  {
    assert n == n / perDay * perDay + n % perDay;
    if n / perDay >= days {
      assert (n / perDay - days) * perDay >= 0;
    } else {
      assert (days - n / perDay - 1) * perDay >= 0;
    }
  }

  // ----------------------------------------------------- datetimeoffset

  function OffsetTicks(offsetMinutes: int): int { offsetMinutes * 60 * TICKS_PER_SECOND }

  /** `mssql_datetimeoffset_from_utc_100ns_ticks`: local and UTC time must both exist. */
  function DateTimeOffsetFromTicks(utcTicks: int, offsetMinutes: int): Result<MssqlDateTimeOffset, DiagnosticCode> {
    var local := CheckedI128(utcTicks + OffsetTicks(offsetMinutes));
    if local.Err? then Err(local.error) else
    var localValue := DateTime2FromTicks(local.value, 7);
    if localValue.Err? then Err(localValue.error) else
    var utc := DateTime2FromTicks(utcTicks, 7);
    if utc.Err? then Err(utc.error) else Ok(MssqlDateTimeOffset(utc.value, offsetMinutes))
  }

  predicate ValidDateTimeOffset(value: MssqlDateTimeOffset) {
    ValidDateTime2(value.datetime2) && value.datetime2.time.scale == 7 && -MAX_OFFSET_MINUTES <= value.offsetMinutes <= MAX_OFFSET_MINUTES
  }

  predicate InDateTime2Range(ticks: int) {
    DATETIME2_MIN_TICKS <= ticks < DATETIME2_END_DAYS * TICKS_PER_DAY
  }

  /** A datetimeoffset exists exactly when the instant and its local time both fall in
      the years 1 to 9999; it stores the instant itself, to the tick. */
  lemma DateTimeOffsetExact(utcTicks: int, offsetMinutes: int)
    requires -0x8000_0000_0000_0000 * 10_000_000 <= utcTicks <= 0x8000_0000_0000_0000 * 10_000_000
    requires -MAX_OFFSET_MINUTES <= offsetMinutes <= MAX_OFFSET_MINUTES
    ensures DateTimeOffsetFromTicks(utcTicks, offsetMinutes).Ok? <==>
      InDateTime2Range(utcTicks) && InDateTime2Range(utcTicks + OffsetTicks(offsetMinutes))
    ensures DateTimeOffsetFromTicks(utcTicks, offsetMinutes).Ok? ==>
      var value := DateTimeOffsetFromTicks(utcTicks, offsetMinutes).value;
      && ValidDateTimeOffset(value) && value.offsetMinutes == offsetMinutes
      && StoredIncrements(value.datetime2) == utcTicks
    ensures DateTimeOffsetFromTicks(utcTicks, offsetMinutes).Err? ==>
      DateTimeOffsetFromTicks(utcTicks, offsetMinutes) == Err(TimestampOutOfRange)
  {
    DateTime2AtFullScale(utcTicks);
    DateTime2AtFullScale(utcTicks + OffsetTicks(offsetMinutes));
    hide DateTime2FromTicks, StoredIncrements, ValidDateTime2;
  }

  lemma DateTime2AtFullScale(ticks: int)
    requires SourceTicks(ticks)
    ensures DateTime2FromTicks(ticks, 7).Ok? <==> InDateTime2Range(ticks)
    ensures DateTime2FromTicks(ticks, 7).Ok? ==>
      var value := DateTime2FromTicks(ticks, 7).value;
      ValidDateTime2(value) && value.time.scale == 7 && StoredIncrements(value) == ticks
    ensures DateTime2FromTicks(ticks, 7).Err? ==> DateTime2FromTicks(ticks, 7) == Err(TimestampOutOfRange)
  {
    DateTime2Exact(ticks, 7);
    DayIsWholeIncrements(7);
    NearestUnique(ticks, 1, ticks);
    assert Pow10(0) == 1;
    hide DateTime2FromTicks, StoredIncrements, HalfUp;
  }

  // ------------------------------------------------------ dates and times

  /** `mssql_date_from_arrow_date32`. */
  function DateFromDate32(days: int): Result<nat, DiagnosticCode> {
    if 0 <= days + DATE_UNIX_EPOCH_DAYS <= DATE_MAX_DAYS then Ok(days + DATE_UNIX_EPOCH_DAYS) else Err(TimestampOutOfRange)
  }

  /** `mssql_datetime2_from_arrow_date64`. */
  function DateTime2FromDate64(milliseconds: int): Result<MssqlDateTime2, DiagnosticCode> {
    var days := milliseconds / 86_400_000 + DATE_UNIX_EPOCH_DAYS;
    if !(0 <= days <= DATE_MAX_DAYS) then Err(TimestampOutOfRange)
    else Ok(MssqlDateTime2(days, MssqlTime(milliseconds % 86_400_000, 3)))
  }

  /** `mssql_time_from_i64`. */
  function TimeFromIncrements(value: int, perDay: int, scale: nat): Result<MssqlTime, DiagnosticCode> {
    if 0 <= value < perDay then Ok(MssqlTime(value, scale)) else Err(TimestampOutOfRange)
  }

  /** `mssql_time_from_nanoseconds`: rounding up into the next day is refused. */
  function TimeFromNanoseconds(value: int, policy: NanosecondPolicy): Result<MssqlTime, DiagnosticCode> {
    if !(0 <= value < 86_400_000_000_000) then Err(TimestampOutOfRange)
    else
      var ticks := NanosecondTicks(value, policy);
      if ticks.Err? then Err(ticks.error)
      else if ticks.value < 0 || ticks.value > U64_MAX then Err(TimestampOutOfRange)
      else if ticks.value >= TICKS_PER_DAY then Err(TimestampOutOfRange)
      else Ok(MssqlTime(ticks.value, 7))
  }

  /** The times every Arrow time unit converts to are valid, and date64 keeps its millisecond. */
  lemma ConvertedTimesAreValid(value: int, policy: NanosecondPolicy)
    ensures TimeFromIncrements(value, 86_400, 0).Ok? ==> ValidTime(TimeFromIncrements(value, 86_400, 0).value)
    ensures TimeFromIncrements(value, 86_400_000, 3).Ok? ==> ValidTime(TimeFromIncrements(value, 86_400_000, 3).value)
    ensures TimeFromIncrements(value, 86_400_000_000, 6).Ok? ==> ValidTime(TimeFromIncrements(value, 86_400_000_000, 6).value)
    ensures TimeFromNanoseconds(value, policy).Ok? ==> ValidTime(TimeFromNanoseconds(value, policy).value)
    ensures DateTime2FromDate64(value).Ok? ==>
      ValidDateTime2(DateTime2FromDate64(value).value) && StoredIncrements(DateTime2FromDate64(value).value) == value
  {
    SmallPowers();
    hide Pow10;
  }

  lemma SmallPowers()
    ensures Pow10(0) == 1 && Pow10(3) == 1_000 && Pow10(6) == 1_000_000 && Pow10(7) == 10_000_000
  {
    assert Pow10(3) == 1_000;
    Pow10Adds(3, 3);
    Pow10Adds(6, 1);
    assert Pow10(1) == 10;
  }

  // ---------------------------------------------------------- timezones

  datatype ZoneRule = FixedOffset(minutes: int) | NamedZone(name: string)

  /** The timezone database: known names, and the offset in seconds at an instant
      (seconds, nanoseconds) where the name resolves to a single one. */
  datatype ZoneDatabase = ZoneDatabase(known: string -> bool, offset: (string, int, int) -> Option<int>)

  function DigitValue(c: char): int { c as int - '0' as int }

  function LowerAscii(c: char): char {
    if 'A' <= c <= 'Z' then (c as int + 32) as char else c
  }

  predicate EqualsIgnoreCase(s: string, lower: string) {
    |s| == |lower| && forall i :: 0 <= i < |s| ==> LowerAscii(s[i]) == lower[i]
  }

  function OffsetDigits(timezone: string): Option<string> {
    if |timezone| == 3 then Some([timezone[1], timezone[2], '0', '0'])
    else if |timezone| == 5 then Some(timezone[1..5])
    else if |timezone| == 6 && timezone[3] == ':' then Some([timezone[1], timezone[2], timezone[4], timezone[5]])
    else None
  }

  /** `parse_sql_server_fixed_timezone_offset`: `None` when there is no sign. */
  function ParseFixedOffset(timezone: string): Option<Result<int, DiagnosticCode>> {
    if |timezone| == 0 || (timezone[0] != '+' && timezone[0] != '-') then None else
    var digits := OffsetDigits(timezone);
    if digits.None? then Some(Err(TimezoneUnsupported)) else
    var d := digits.value;
    if exists i :: 0 <= i < |d| && !IsDigit(d[i]) then Some(Err(TimezoneUnsupported)) else
    var hours := DigitValue(d[0]) * 10 + DigitValue(d[1]);
    var minutes := DigitValue(d[2]) * 10 + DigitValue(d[3]);
    if minutes >= 60 then Some(Err(TimezoneUnsupported))
    else if hours * 60 + minutes > MAX_OFFSET_MINUTES then Some(Err(TimezoneUnsupported))
    else Some(Ok(if timezone[0] == '-' then -(hours * 60 + minutes) else hours * 60 + minutes))
  }

  /** Two decimal digits. */
  function TwoDigits(n: nat): string
    requires n < 100
  {
    [('0' as int + n / 10) as char, ('0' as int + n % 10) as char]
  }

  /** Both spellings of a fixed offset are read as the minutes they name, exactly within
      SQL Server's fourteen hours. */
  lemma FixedOffsetsParse(hours: nat, minutes: nat, negative: bool)
    requires hours < 100 && minutes < 100
    ensures
      var sign := if negative then "-" else "+";
      var total := hours * 60 + minutes;
      var expected :=
        if minutes < 60 && total <= MAX_OFFSET_MINUTES then Some(Ok(if negative then -total else total)) else Some(Err(TimezoneUnsupported));
      && ParseFixedOffset(sign + TwoDigits(hours) + ":" + TwoDigits(minutes)) == expected
      && ParseFixedOffset(sign + TwoDigits(hours) + TwoDigits(minutes)) == expected
  {
    var sign := if negative then "-" else "+";
    var digits := TwoDigits(hours) + TwoDigits(minutes);
    var long, short := sign + TwoDigits(hours) + ":" + TwoDigits(minutes), sign + TwoDigits(hours) + TwoDigits(minutes);
    assert long[1] == digits[0] && long[2] == digits[1] && long[3] == ':' && long[4] == digits[2] && long[5] == digits[3];
    assert |long| == 6 && [long[1], long[2], long[4], long[5]] == digits;
    assert |short| == 5 && short[1..5] == digits;
    assert OffsetDigits(long) == Some(digits) && OffsetDigits(short) == Some(digits);
    assert forall i :: 0 <= i < |digits| ==> IsDigit(digits[i]);
    assert DigitValue(digits[0]) * 10 + DigitValue(digits[1]) == hours;
    assert DigitValue(digits[2]) * 10 + DigitValue(digits[3]) == minutes;
    hide OffsetDigits, DigitValue, TwoDigits;
  }

  /** `timezone_resolution_from_metadata`. */
  function ResolveZone(timezone: string, zones: ZoneDatabase): Result<ZoneRule, DiagnosticCode> {
    if EqualsIgnoreCase(timezone, "z") || EqualsIgnoreCase(timezone, "utc") then Ok(FixedOffset(0))
    else match ParseFixedOffset(timezone)
      case Some(Ok(minutes)) => Ok(FixedOffset(minutes))
      case Some(Err(code)) => Err(code)
      case None => if zones.known(timezone) then Ok(NamedZone(timezone)) else Err(TimezoneUnsupported)
  }

  /** `offset_for_instant`. */
  function OffsetForInstant(rule: ZoneRule, zones: ZoneDatabase, seconds: int, nanoseconds: int): Result<int, DiagnosticCode> {
    match rule
    case FixedOffset(minutes) => Ok(minutes)
    case NamedZone(name) =>
      match zones.offset(name, seconds, nanoseconds)
      case None => Err(TimestampOutOfRange)
      case Some(offsetSeconds) =>
        if offsetSeconds % 60 != 0 then Err(TimezoneUnsupported)
        else if -MAX_OFFSET_MINUTES <= offsetSeconds / 60 <= MAX_OFFSET_MINUTES then Ok(offsetSeconds / 60)
        else Err(TimezoneUnsupported)
  }

  /** Whatever a timezone resolves to, every offset it yields is one SQL Server accepts. */
  lemma OffsetsAreBounded(timezone: string, zones: ZoneDatabase, seconds: int, nanoseconds: int)
    ensures ResolveZone(timezone, zones).Ok? ==>
      var offset := OffsetForInstant(ResolveZone(timezone, zones).value, zones, seconds, nanoseconds);
      offset.Ok? ==> -MAX_OFFSET_MINUTES <= offset.value <= MAX_OFFSET_MINUTES
  {
    var parsed := ParseFixedOffset(timezone);
    if parsed.Some? && parsed.value.Ok? {
      var d := OffsetDigits(timezone).value;
      assert forall i :: 0 <= i < |d| ==> IsDigit(d[i]);
      assert |d| == 4 && IsDigit(d[0]) && IsDigit(d[1]) && IsDigit(d[2]) && IsDigit(d[3]);
    }
  }
}
