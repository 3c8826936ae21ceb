/** What planning promises about dates, times and timestamps: the SQL Server type that
    the policies choose, and the cell that each value becomes
    (src/schema/type_conversion.rs with src/mssql/cell/from_arrow/temporal). */
module PlannedTimes {
  import opened Basics
  import opened Errors
  import opened Types
  import opened Decimals
  import opened DateTimes
  import opened Zones
  import opened Classifiers
  import Planner
  import opened Cells
  import opened Refinement

  // -------------------------------------------------------- planned types

  /** Timestamps without a zone ignore the timezone policy. With one, rejecting refuses
      them, datetimeoffset wins over every timestamp policy, and normalising to UTC
      treats them like timestamps without a zone. */
  lemma PlannedTimestampType(unit: TimeUnit, timezone: Option<string>, options: PlanOptions)
    ensures
      var planned := Planner.PlanType(Timestamp(unit, timezone), options);
      var zoned := timezone != None && timezone != Some("");
      && (zoned && options.timezonePolicy == RejectTimezone ==> planned == Err(ProfileDependentConversion))
      && (zoned && options.timezonePolicy == DateTimeOffsetPolicy ==> planned == Ok(DateTimeOffset(7)))
      && (!zoned || options.timezonePolicy == NormalizeUtcDateTime2 ==>
            match options.timestampPolicy
            case DateTimePolicy => planned == Ok(DateTime)
            case DateTime2Policy(precision) => planned == if precision <= 7 then Ok(DateTime2(precision)) else Err(ProfileDependentConversion))
  {
  }

  // --------------------------------------------------------- stored values

  /** An instant in the years 1 to 9999. */
  predicate YearsOneTo9999(tick: int) {
    (0 - DaysBeforeYear(1970)) * 864_000_000_000 <= tick < (DaysBeforeYear(10_000) - DaysBeforeYear(1970)) * 864_000_000_000
  }

  /** The valid datetime that holds an instant by the profile's rounding. */
  ghost predicate HoldsDateTime(d: MssqlDateTime, tick: int, rounding: DateTimeRounding) {
    DATETIME_MIN_TICKS <= tick && ValidDateTime(d) && StoredFragments(d) == Fragments(tick, rounding)
  }

  /** The valid datetime2 that holds an instant to the nearest increment. */
  ghost predicate HoldsDateTime2(d: MssqlDateTime2, tick: int) {
    DATETIME2_MIN_TICKS <= tick && ValidDateTime2(d) && StoredIncrements(d) == HalfUp(tick, IncrementTicks(d.time.scale))
  }

  /** The valid datetimeoffset that holds an instant exactly, with a local time that exists. */
  ghost predicate HoldsOffset(d: MssqlDateTimeOffset, tick: int) {
    && ValidDateTime2(d.datetime2) && d.datetime2.time.scale == 7 && StoredIncrements(d.datetime2) == tick
    && YearsOneTo9999(tick + 600_000_000 * d.offsetMinutes)
  }

  lemma SplitUnique(perDay: nat, days: int, part: nat, days': int, part': nat)
    requires perDay > 0 && part < perDay && part' < perDay && days * perDay + part == days' * perDay + part'
    ensures days == days' && part == part'
  {
    DivisionUnique(days * perDay + part, perDay, days, part);
    DivisionUnique(days * perDay + part, perDay, days', part');
  }

  /** Two valid values of one count are one value. */
  lemma StoredDateTimeUnique(a: MssqlDateTime, b: MssqlDateTime)
    requires ValidDateTime(a) && ValidDateTime(b) && StoredFragments(a) == StoredFragments(b)
    ensures a == b
  {
  }

  lemma StoredDateTime2Unique(a: MssqlDateTime2, b: MssqlDateTime2)
    requires ValidDateTime2(a) && ValidDateTime2(b) && a.time.scale == b.time.scale && StoredIncrements(a) == StoredIncrements(b)
    ensures a == b
  {
    SplitUnique(IncrementsPerDay(a.time.scale), a.days - DATE_UNIX_EPOCH_DAYS, a.time.increments, b.days - DATE_UNIX_EPOCH_DAYS, b.time.increments);
    hide IncrementsPerDay;
  }

  lemma DateTimeHolds(d: MssqlDateTime, tick: int, rounding: DateTimeRounding)
    requires SourceTicks(tick)
    ensures DateTimeFromTicks(tick, rounding) == Ok(d) <==> HoldsDateTime(d, tick, rounding)
  {
    DateTimeExact(tick, rounding);
    hide DateTimeFromTicks, Fragments;
    if HoldsDateTime(d, tick, rounding) {
      StoredDateTimeUnique(d, DateTimeFromTicks(tick, rounding).value);
    }
  }

  /** A valid datetime2 is before the end of the calendar. */
  lemma StoredInCalendar(d: MssqlDateTime2)
    requires ValidDateTime2(d)
    ensures StoredIncrements(d) < DATETIME2_END_DAYS * IncrementsPerDay(d.time.scale)
  {
    var perDay := IncrementsPerDay(d.time.scale);
    hide IncrementsPerDay;
    assert (DATETIME2_END_DAYS - 1 - (d.days - DATE_UNIX_EPOCH_DAYS)) * perDay >= 0;
  }

  lemma DateTime2Holds(d: MssqlDateTime2, tick: int, scale: nat)
    requires SourceTicks(tick) && scale <= 7
    ensures DateTime2FromTicks(tick, scale) == Ok(d) <==> d.time.scale == scale && HoldsDateTime2(d, tick)
  {
    DateTime2Exact(tick, scale);
    hide DateTime2FromTicks, HalfUp, IncrementTicks, StoredIncrements, ValidDateTime2, IncrementsPerDay;
    if d.time.scale == scale && HoldsDateTime2(d, tick) {
      StoredInCalendar(d);
      StoredDateTime2Unique(d, DateTime2FromTicks(tick, scale).value);
    }
  }

  lemma YearsAreDateTime2Range(tick: int)
    ensures YearsOneTo9999(tick) <==> InDateTime2Range(tick)
  {
    CalendarConstants();
  }

  lemma OffsetHolds(d: MssqlDateTimeOffset, tick: int, offset: int)
    requires -0x8000_0000_0000_0000 * 10_000_000 <= tick <= 0x8000_0000_0000_0000 * 10_000_000 && -840 <= offset <= 840
    ensures DateTimeOffsetFromTicks(tick, offset) == Ok(d) <==> d.offsetMinutes == offset && HoldsOffset(d, tick)
  {
    DateTimeOffsetExact(tick, offset);
    YearsAreDateTime2Range(tick + OffsetTicks(offset));
    DateTime2AtFullScale(tick);
    hide DateTimeOffsetFromTicks, DateTime2FromTicks, StoredIncrements, ValidDateTime2, YearsOneTo9999, InDateTime2Range;
    if d.offsetMinutes == offset && HoldsOffset(d, tick) {
      HeldInRange(d.datetime2, tick);
      StoredDateTime2Unique(d.datetime2, DateTimeOffsetFromTicks(tick, offset).value.datetime2);
    }
  }

  lemma HeldInRange(d: MssqlDateTime2, tick: int)
    requires ValidDateTime2(d) && d.time.scale == 7 && StoredIncrements(d) == tick
    ensures InDateTime2Range(tick)
  {
    StoredInCalendar(d);
    DayIsWholeIncrements(7);
    assert Pow10(0) == 1;
    assert IncrementsPerDay(7) == TICKS_PER_DAY;
    assert d.days * IncrementsPerDay(7) >= 0;
    hide IncrementsPerDay, IncrementTicks, Pow10, ValidDateTime2;
  }

  // ------------------------------------------------------------ timestamps

  predicate Zoned(mapping: SchemaMapping)
    requires mapping.arrow.dataType.Timestamp?
  {
    mapping.arrow.dataType.timezone != None && mapping.arrow.dataType.timezone != Some("")
  }

  /** A zone is either absent or usable. */
  ghost predicate ZoneUsable(mapping: SchemaMapping, zones: ZoneDatabase)
    requires mapping.arrow.dataType.Timestamp?
  {
    Zoned(mapping) ==> ZoneValid(mapping.arrow.dataType.timezone.value, zones)
  }

  /** The zone's offset at an instant given in nanoseconds since the Unix epoch. */
  ghost predicate OffsetAt(mapping: SchemaMapping, zones: ZoneDatabase, nanoseconds: int, offset: int)
    requires mapping.arrow.dataType.Timestamp?
  {
    && Zoned(mapping)
    && ZoneHas(mapping.arrow.dataType.timezone.value, zones, nanoseconds / 1_000_000_000, nanoseconds % 1_000_000_000, offset)
  }

  /** The cell that stands for an instant and its tick. Each constructor belongs to one
      choice of policies. */
  ghost predicate StoresInstant(mapping: SchemaMapping, options: PlanOptions, runtime: Runtime, nanoseconds: int, tick: int, cell: MssqlCell)
    requires mapping.arrow.dataType.Timestamp?
  {
    && TickOf(nanoseconds, runtime.nanosecondPolicy, tick)
    && ZoneUsable(mapping, runtime.zones)
    && match cell
       case DateTimeOffsetCell(Some(d)) =>
         && Zoned(mapping) && options.timezonePolicy == DateTimeOffsetPolicy
         && OffsetAt(mapping, runtime.zones, nanoseconds, d.offsetMinutes) && HoldsOffset(d, tick)
       case DateTime2Cell(Some(d)) =>
         && (Zoned(mapping) ==> options.timezonePolicy == NormalizeUtcDateTime2)
         && options.timestampPolicy == DateTime2Policy(d.time.scale) && HoldsDateTime2(d, tick)
       case DateTimeCell(Some(d)) =>
         && (Zoned(mapping) ==> options.timezonePolicy == NormalizeUtcDateTime2)
         && options.timestampPolicy == DateTimePolicy && HoldsDateTime(d, tick, runtime.rounding)
       case _ => false
  }

  function Nanoseconds(mapping: SchemaMapping, value: int): int
    requires mapping.arrow.dataType.Timestamp?
  {
    value * UnitNanoseconds(mapping.arrow.dataType.unit)
  }

  lemma TickBound(mapping: SchemaMapping, value: int, policy: NanosecondPolicy, tick: int)
    requires mapping.arrow.dataType.Timestamp? && I64_MIN <= value <= I64_MAX
    requires TickOf(Nanoseconds(mapping, value), policy, tick)
    ensures -0x8000_0000_0000_0000 * 10_000_000 <= tick <= 0x8000_0000_0000_0000 * 10_000_000
    ensures SourceTicks(tick)
  {
    var unit := mapping.arrow.dataType.unit;
    TimestampTicksExact(unit, value, policy);
    TimestampTicksBound(unit, value, policy);
    hide TimestampTicks, TickOf, UnitNanoseconds;
  }

  lemma ZoneChecked(mapping: SchemaMapping, zones: ZoneDatabase)
    requires mapping.arrow.dataType.Timestamp?
    ensures ValidateZone(mapping, zones) == if ZoneUsable(mapping, zones) then Ok(()) else Err(TimezoneUnsupported)
  {
    if Zoned(mapping) {
      ZoneResolves(mapping.arrow.dataType.timezone.value, zones);
    }
    hide ResolveZone, ZoneValid;
  }

  lemma DateTimeBaseline(mapping: SchemaMapping, runtime: Runtime, value: int)
    requires mapping.arrow.dataType.Timestamp? && mapping.mssql.ty.DateTime?
    ensures
      var ticks := TimestampTicks(mapping.arrow.dataType.unit, value, runtime.nanosecondPolicy);
      Baseline(mapping, runtime, Some(IntValue(value))) ==
        if !ZoneUsable(mapping, runtime.zones) then Err(TimezoneUnsupported)
        else if ticks.Err? then Err(ticks.error)
        else if DateTimeFromTicks(ticks.value, runtime.rounding).Err? then Err(DateTimeFromTicks(ticks.value, runtime.rounding).error)
        else Ok(DateTimeCell(Some(DateTimeFromTicks(ticks.value, runtime.rounding).value)))
  {
    ZoneChecked(mapping, runtime.zones);
    hide ValidateZone, ZoneUsable, TimestampTicks, DateTimeFromTicks;
  }

  lemma DateTime2Baseline(mapping: SchemaMapping, runtime: Runtime, value: int)
    requires mapping.arrow.dataType.Timestamp? && mapping.mssql.ty.DateTime2? && mapping.mssql.ty.precision <= 7
    ensures
      var ticks := TimestampTicks(mapping.arrow.dataType.unit, value, runtime.nanosecondPolicy);
      var precision := mapping.mssql.ty.precision;
      Baseline(mapping, runtime, Some(IntValue(value))) ==
        if !ZoneUsable(mapping, runtime.zones) then Err(TimezoneUnsupported)
        else if ticks.Err? then Err(ticks.error)
        else if DateTime2FromTicks(ticks.value, precision).Err? then Err(DateTime2FromTicks(ticks.value, precision).error)
        else Ok(DateTime2Cell(Some(DateTime2FromTicks(ticks.value, precision).value)))
  {
    ZoneChecked(mapping, runtime.zones);
    hide ValidateZone, ZoneUsable, TimestampTicks, DateTime2FromTicks;
  }

  /** Why a timestamp has no datetimeoffset: its zone at that instant. */
  function OffsetError(mapping: SchemaMapping, zones: ZoneDatabase, nanoseconds: int): DiagnosticCode
    requires mapping.arrow.dataType.Timestamp? && Zoned(mapping)
  {
    if zones.offset(mapping.arrow.dataType.timezone.value, nanoseconds / 1_000_000_000, nanoseconds % 1_000_000_000).None?
    then TimestampOutOfRange else TimezoneUnsupported
  }

  lemma EpochIsDivision(mapping: SchemaMapping, value: int)
    requires mapping.arrow.dataType.Timestamp?
    ensures EpochParts(mapping.arrow.dataType.unit, value) == (Nanoseconds(mapping, value) / 1_000_000_000, Nanoseconds(mapping, value) % 1_000_000_000)
  {
    EpochPartsExact(mapping.arrow.dataType.unit, value);
    var parts := EpochParts(mapping.arrow.dataType.unit, value);
    DivisionUnique(Nanoseconds(mapping, value), 1_000_000_000, parts.0, parts.1);
    hide EpochParts, UnitNanoseconds;
  }

  lemma OffsetBaseline(mapping: SchemaMapping, runtime: Runtime, value: int, offset: int)
    requires mapping.arrow.dataType.Timestamp? && Zoned(mapping) && mapping.mssql.ty == DateTimeOffset(7)
    requires ZoneUsable(mapping, runtime.zones)
    requires OffsetAt(mapping, runtime.zones, Nanoseconds(mapping, value), offset)
    ensures
      var ticks := TimestampTicks(mapping.arrow.dataType.unit, value, runtime.nanosecondPolicy);
      Baseline(mapping, runtime, Some(IntValue(value))) ==
        if ticks.Err? then Err(ticks.error)
        else if DateTimeOffsetFromTicks(ticks.value, offset).Err? then Err(DateTimeOffsetFromTicks(ticks.value, offset).error)
        else Ok(DateTimeOffsetCell(Some(DateTimeOffsetFromTicks(ticks.value, offset).value)))
  {
    hide ResolveZone, OffsetForInstant, EpochParts, TimestampTicks, DateTimeOffsetFromTicks, ZoneValid, ZoneHas, Nanoseconds;
    var timezone := mapping.arrow.dataType.timezone.value;
    EpochIsDivision(mapping, value);
    var parts := EpochParts(mapping.arrow.dataType.unit, value);
    ZoneResolves(timezone, runtime.zones);
    ZoneOffsetExact(timezone, runtime.zones, parts.0, parts.1, offset);
  }

  lemma OffsetBaselineFails(mapping: SchemaMapping, runtime: Runtime, value: int)
    requires mapping.arrow.dataType.Timestamp? && Zoned(mapping) && mapping.mssql.ty == DateTimeOffset(7)
    requires !ZoneUsable(mapping, runtime.zones)
             || forall offset :: !OffsetAt(mapping, runtime.zones, Nanoseconds(mapping, value), offset)
    ensures Baseline(mapping, runtime, Some(IntValue(value))) ==
      Err(if ZoneUsable(mapping, runtime.zones) then OffsetError(mapping, runtime.zones, Nanoseconds(mapping, value)) else TimezoneUnsupported)
  {
    var timezone := mapping.arrow.dataType.timezone.value;
    EpochIsDivision(mapping, value);
    var parts := EpochParts(mapping.arrow.dataType.unit, value);
    ZoneResolves(timezone, runtime.zones);
    hide ResolveZone, OffsetForInstant, EpochParts, TimestampTicks, DateTimeOffsetFromTicks, ZoneValid, ZoneHas, Nanoseconds;
    if ZoneUsable(mapping, runtime.zones) {
      var found := OffsetForInstant(ResolveZone(timezone, runtime.zones).value, runtime.zones, parts.0, parts.1);
      forall offset ensures found != Ok(offset) {
        assert !OffsetAt(mapping, runtime.zones, Nanoseconds(mapping, value), offset);
        ZoneOffsetExact(timezone, runtime.zones, parts.0, parts.1, offset);
      }
      assert found.Err?;
      ZoneOffsetFailure(timezone, runtime.zones, parts.0, parts.1);
    }
  }

  lemma StoresDateTime(mapping: SchemaMapping, options: PlanOptions, runtime: Runtime, value: int, cell: MssqlCell)
    requires Planned(mapping, options) && mapping.arrow.dataType.Timestamp? && I64_MIN <= value <= I64_MAX && mapping.mssql.ty.DateTime?
    ensures Baseline(mapping, runtime, Some(IntValue(value))) == Ok(cell)
            <==> exists tick :: StoresInstant(mapping, options, runtime, Nanoseconds(mapping, value), tick, cell)
  {
    var ticks := TimestampTicks(mapping.arrow.dataType.unit, value, runtime.nanosecondPolicy);
    TimestampTicksExact(mapping.arrow.dataType.unit, value, runtime.nanosecondPolicy);
    DateTimeBaseline(mapping, runtime, value);
    PlannedTimestampType(mapping.arrow.dataType.unit, mapping.arrow.dataType.timezone, options);
    hide Baseline, TimestampTicks, TickOf, DateTimeFromTicks, ZoneUsable, OffsetAt, HoldsDateTime, Planner.PlanType, UnitNanoseconds;
    forall tick | TickOf(Nanoseconds(mapping, value), runtime.nanosecondPolicy, tick)
      ensures ticks == Ok(tick)
      ensures cell.DateTimeCell? && cell.datetime.Some? ==>
        (DateTimeFromTicks(tick, runtime.rounding) == Ok(cell.datetime.value) <==> HoldsDateTime(cell.datetime.value, tick, runtime.rounding))
    {
      TickBound(mapping, value, runtime.nanosecondPolicy, tick);
      if cell.DateTimeCell? && cell.datetime.Some? {
        DateTimeHolds(cell.datetime.value, tick, runtime.rounding);
      }
    }
    if Baseline(mapping, runtime, Some(IntValue(value))) == Ok(cell) {
      assert StoresInstant(mapping, options, runtime, Nanoseconds(mapping, value), ticks.value, cell);
    }
  }

  lemma StoresDateTime2(mapping: SchemaMapping, options: PlanOptions, runtime: Runtime, value: int, cell: MssqlCell)
    requires Planned(mapping, options) && mapping.arrow.dataType.Timestamp? && I64_MIN <= value <= I64_MAX && mapping.mssql.ty.DateTime2?
    ensures Baseline(mapping, runtime, Some(IntValue(value))) == Ok(cell)
            <==> exists tick :: StoresInstant(mapping, options, runtime, Nanoseconds(mapping, value), tick, cell)
  {
    var ticks := TimestampTicks(mapping.arrow.dataType.unit, value, runtime.nanosecondPolicy);
    TimestampTicksExact(mapping.arrow.dataType.unit, value, runtime.nanosecondPolicy);
    PlannedTimestampType(mapping.arrow.dataType.unit, mapping.arrow.dataType.timezone, options);
    DateTime2Baseline(mapping, runtime, value);
    hide Baseline, TimestampTicks, TickOf, DateTime2FromTicks, ZoneUsable, OffsetAt, HoldsDateTime2, Planner.PlanType, UnitNanoseconds;
    forall tick | TickOf(Nanoseconds(mapping, value), runtime.nanosecondPolicy, tick)
      ensures ticks == Ok(tick)
      ensures cell.DateTime2Cell? && cell.datetime2.Some? ==>
        (DateTime2FromTicks(tick, mapping.mssql.ty.precision) == Ok(cell.datetime2.value)
         <==> cell.datetime2.value.time.scale == mapping.mssql.ty.precision && HoldsDateTime2(cell.datetime2.value, tick))
    {
      TickBound(mapping, value, runtime.nanosecondPolicy, tick);
      if cell.DateTime2Cell? && cell.datetime2.Some? {
        DateTime2Holds(cell.datetime2.value, tick, mapping.mssql.ty.precision);
      }
    }
    if Baseline(mapping, runtime, Some(IntValue(value))) == Ok(cell) {
      assert StoresInstant(mapping, options, runtime, Nanoseconds(mapping, value), ticks.value, cell);
    }
  }

  lemma OffsetInHours(mapping: SchemaMapping, zones: ZoneDatabase, nanoseconds: int, offset: int)
    requires mapping.arrow.dataType.Timestamp? && OffsetAt(mapping, zones, nanoseconds, offset)
    ensures -840 <= offset <= 840
  {
  }

  lemma StoresOffset(mapping: SchemaMapping, options: PlanOptions, runtime: Runtime, value: int, cell: MssqlCell)
    requires Planned(mapping, options) && mapping.arrow.dataType.Timestamp? && I64_MIN <= value <= I64_MAX
    requires Zoned(mapping) && mapping.mssql.ty == DateTimeOffset(7)
    ensures Baseline(mapping, runtime, Some(IntValue(value))) == Ok(cell)
            <==> exists tick :: StoresInstant(mapping, options, runtime, Nanoseconds(mapping, value), tick, cell)
  {
    var ticks := TimestampTicks(mapping.arrow.dataType.unit, value, runtime.nanosecondPolicy);
    TimestampTicksExact(mapping.arrow.dataType.unit, value, runtime.nanosecondPolicy);
    PlannedTimestampType(mapping.arrow.dataType.unit, mapping.arrow.dataType.timezone, options);
    hide Baseline, TimestampTicks, TickOf, DateTimeOffsetFromTicks, ZoneUsable, OffsetAt, HoldsOffset, Planner.PlanType, UnitNanoseconds;
    if !ZoneUsable(mapping, runtime.zones)
       || forall offset :: !OffsetAt(mapping, runtime.zones, Nanoseconds(mapping, value), offset) {
      OffsetBaselineFails(mapping, runtime, value);
    } else {
      forall tick, offset | TickOf(Nanoseconds(mapping, value), runtime.nanosecondPolicy, tick)
                            && OffsetAt(mapping, runtime.zones, Nanoseconds(mapping, value), offset)
        ensures ticks == Ok(tick)
        ensures Baseline(mapping, runtime, Some(IntValue(value))) == Ok(cell) <==>
          cell.DateTimeOffsetCell? && cell.datetimeoffset.Some? && cell.datetimeoffset.value.offsetMinutes == offset
          && HoldsOffset(cell.datetimeoffset.value, tick)
      {
        OffsetBaseline(mapping, runtime, value, offset);
        OffsetInHours(mapping, runtime.zones, Nanoseconds(mapping, value), offset);
        TickBound(mapping, value, runtime.nanosecondPolicy, tick);
        if cell.DateTimeOffsetCell? && cell.datetimeoffset.Some? {
          OffsetHolds(cell.datetimeoffset.value, tick, offset);
        }
      }
      var offset :| OffsetAt(mapping, runtime.zones, Nanoseconds(mapping, value), offset);
      OffsetBaseline(mapping, runtime, value, offset);
      if Baseline(mapping, runtime, Some(IntValue(value))) == Ok(cell) {
        assert StoresInstant(mapping, options, runtime, Nanoseconds(mapping, value), ticks.value, cell);
      }
    }
  }

  /** A planned timestamp converts to a cell exactly when the cell is the one that stands
      for its instant in the type the policies chose: to the tick for datetimeoffset, with
      the zone's own offset at that instant; to the nearest increment for datetime2; by
      the profile's rounding for datetime. Where no such cell exists, it fails. */
  lemma PlannedTimestampExact(mapping: SchemaMapping, options: PlanOptions, runtime: Runtime, value: int, cell: MssqlCell)
    requires Planned(mapping, options) && mapping.arrow.dataType.Timestamp? && I64_MIN <= value <= I64_MAX
    ensures Baseline(mapping, runtime, Some(IntValue(value))) == Ok(cell)
            <==> exists tick :: StoresInstant(mapping, options, runtime, Nanoseconds(mapping, value), tick, cell)
  {
    PlannedTimestampType(mapping.arrow.dataType.unit, mapping.arrow.dataType.timezone, options);
    hide Baseline, StoresInstant, Planner.PlanType, UnitNanoseconds;
    match mapping.mssql.ty
    case DateTime => StoresDateTime(mapping, options, runtime, value, cell);
    case DateTime2(_) => StoresDateTime2(mapping, options, runtime, value, cell);
    case DateTimeOffset(_) => StoresOffset(mapping, options, runtime, value, cell);
  }

  /** Why a planned timestamp fails, in the order of the checks: its zone, its offset, the
      nanosecond policy, the range. */
  lemma PlannedTimestampError(mapping: SchemaMapping, options: PlanOptions, runtime: Runtime, value: int)
    requires Planned(mapping, options) && mapping.arrow.dataType.Timestamp? && I64_MIN <= value <= I64_MAX
    ensures
      var base := Baseline(mapping, runtime, Some(IntValue(value)));
      var nanoseconds := Nanoseconds(mapping, value);
      base.Err? ==> base == Err(
        if !ZoneUsable(mapping, runtime.zones) then TimezoneUnsupported
        else if mapping.mssql.ty.DateTimeOffset? && (forall offset :: !OffsetAt(mapping, runtime.zones, nanoseconds, offset))
        then OffsetError(mapping, runtime.zones, nanoseconds)
        else if runtime.nanosecondPolicy.RejectNon100ns? && nanoseconds % 100 != 0 then LossyConversionRequiresPolicy
        else TimestampOutOfRange)
  {
    var ticks := TimestampTicks(mapping.arrow.dataType.unit, value, runtime.nanosecondPolicy);
    TimestampTicksExact(mapping.arrow.dataType.unit, value, runtime.nanosecondPolicy);
    PlannedTimestampType(mapping.arrow.dataType.unit, mapping.arrow.dataType.timezone, options);
    hide Baseline, TimestampTicks, TickOf, DateTimeFromTicks, DateTime2FromTicks, DateTimeOffsetFromTicks, ZoneUsable, OffsetAt, OffsetError,
      Planner.PlanType, UnitNanoseconds, Fragments, HalfUp, StoredIncrements, ValidDateTimeOffset, ValidDateTime2, ValidDateTime;
    if ticks.Ok? {
      TickBound(mapping, value, runtime.nanosecondPolicy, ticks.value);
    }
    match mapping.mssql.ty
    case DateTime =>
      DateTimeBaseline(mapping, runtime, value);
      if ticks.Ok? {
        DateTimeExact(ticks.value, runtime.rounding);
      }
    case DateTime2(precision) =>
      DateTime2Baseline(mapping, runtime, value);
      if ticks.Ok? {
        DateTime2Exact(ticks.value, precision);
      }
    case DateTimeOffset(_) =>
      if !ZoneUsable(mapping, runtime.zones)
         || forall offset :: !OffsetAt(mapping, runtime.zones, Nanoseconds(mapping, value), offset) {
        OffsetBaselineFails(mapping, runtime, value);
      } else {
        var offset :| OffsetAt(mapping, runtime.zones, Nanoseconds(mapping, value), offset);
        OffsetInHours(mapping, runtime.zones, Nanoseconds(mapping, value), offset);
        OffsetBaseline(mapping, runtime, value, offset);
        if ticks.Ok? {
          DateTimeOffsetExact(ticks.value, offset);
        }
      }
  }

  /** A null timestamp still needs a usable zone. */
  lemma PlannedNullTimestamp(mapping: SchemaMapping, options: PlanOptions, runtime: Runtime)
    requires Planned(mapping, options) && mapping.arrow.dataType.Timestamp?
    ensures Baseline(mapping, runtime, None) ==
      if !mapping.mssql.nullable then Err(NullInNonNullableColumn)
      else if !ZoneUsable(mapping, runtime.zones) then Err(TimezoneUnsupported)
      else Ok(match mapping.mssql.ty
              case DateTime => DateTimeCell(None)
              case DateTime2(_) => DateTime2Cell(None)
              case _ => DateTimeOffsetCell(None))
  {
    ZoneChecked(mapping, runtime.zones);
    hide ValidateZone, ZoneUsable;
  }

  // -------------------------------------------------------- dates and times

  /** A planned date32 counts its days from 1970-01-01, and converts exactly in the years
      1 to 9999. */
  lemma PlannedDate32(mapping: SchemaMapping, options: PlanOptions, runtime: Runtime, days: int)
    requires Planned(mapping, options) && mapping.arrow.dataType.Date32?
    ensures Baseline(mapping, runtime, Some(IntValue(days))) ==
      if 0 <= days + DaysBeforeYear(1970) < DaysBeforeYear(10_000)
      then Ok(DateCell(Some(days + DaysBeforeYear(1970)))) else Err(TimestampOutOfRange)
  {
    CalendarConstants();
  }

  /** A planned date64 keeps its millisecond, and converts exactly in the years 1 to 9999. */
  lemma PlannedDate64(mapping: SchemaMapping, options: PlanOptions, runtime: Runtime, milliseconds: int)
    requires Planned(mapping, options) && mapping.arrow.dataType.Date64?
    ensures
      var base := Baseline(mapping, runtime, Some(IntValue(milliseconds)));
      if 0 <= milliseconds + DaysBeforeYear(1970) * 86_400_000 < DaysBeforeYear(10_000) * 86_400_000
      then
        && base.Ok? && base.value.DateTime2Cell? && base.value.datetime2.Some?
        && ValidDateTime2(base.value.datetime2.value) && base.value.datetime2.value.time.scale == 3
        && StoredIncrements(base.value.datetime2.value) == milliseconds
      else base == Err(TimestampOutOfRange)
  {
    CalendarConstants();
    ConvertedTimesAreValid(milliseconds, runtime.nanosecondPolicy);
    hide ValidDateTime2, StoredIncrements, DaysBeforeYear;
  }

  /** A planned time of day converts to a cell exactly when the cell is a valid time of the
      unit's scale that holds it: the value itself, or the tick the policy names a
      nanosecond count by. Rounding into the next day is refused. */
  lemma PlannedTimeExact(mapping: SchemaMapping, options: PlanOptions, runtime: Runtime, value: int, cell: MssqlCell)
    requires Planned(mapping, options) && (mapping.arrow.dataType.Time32? || mapping.arrow.dataType.Time64?)
    ensures
      var unit := mapping.arrow.dataType.unit;
      Baseline(mapping, runtime, Some(IntValue(value))) == Ok(cell) <==>
        cell.TimeCell? && cell.time.Some? && HoldsTime(unit, value * UnitNanoseconds(unit), runtime.nanosecondPolicy, cell.time.value)
  {
    var unit := mapping.arrow.dataType.unit;
    if cell.TimeCell? && cell.time.Some? {
      TimeOfDayExact(unit, value, runtime.nanosecondPolicy, cell.time.value);
    }
    hide TimeOfDay, HoldsTime, UnitNanoseconds;
  }

  /** Outside the day, or carried out of it by rounding, a time is out of range; under the
      rejecting policy a part of a tick is lossy. */
  lemma PlannedTimeError(mapping: SchemaMapping, options: PlanOptions, runtime: Runtime, value: int)
    requires Planned(mapping, options) && (mapping.arrow.dataType.Time32? || mapping.arrow.dataType.Time64?)
    ensures
      var nanoseconds := value * UnitNanoseconds(mapping.arrow.dataType.unit);
      var policy := runtime.nanosecondPolicy;
      var inDay := 0 <= nanoseconds < 86_400_000_000_000;
      var lossy := policy.RejectNon100ns? && nanoseconds % 100 != 0;
      var base := Baseline(mapping, runtime, Some(IntValue(value)));
      && (base.Err? <==> !inDay || lossy || (policy.RoundTo100ns? && nanoseconds >= 86_399_999_999_950))
      && (base.Err? ==> base.error == if inDay && lossy then LossyConversionRequiresPolicy else TimestampOutOfRange)
  {
    TimeOfDayError(mapping.arrow.dataType.unit, value, runtime.nanosecondPolicy);
    hide TimeOfDay, UnitNanoseconds;
  }
}
