/** What a timezone string stands for, independently of the parser that reads it
    (src/mssql/cell/from_arrow/temporal/timezone.rs). */
module Zones {
  import opened Basics
  import opened Errors
  import opened DateTimes

  /** UTC has two names, in any letter case. */
  predicate NamesUtc(timezone: string) {
    || (|timezone| == 1 && timezone[0] in {'Z', 'z'})
    || (|timezone| == 3 && timezone[0] in {'U', 'u'} && timezone[1] in {'T', 't'} && timezone[2] in {'C', 'c'})
  }

  predicate Signed(timezone: string) {
    timezone != "" && timezone[0] in {'+', '-'}
  }

  /** A fixed offset is spelled as a sign and HH:MM, HHMM or HH. */
  predicate SpellsOffset(timezone: string, negative: bool, hours: nat, minutes: nat) {
    && hours < 100 && minutes < 100
    && var sign := if negative then "-" else "+";
       || timezone == sign + TwoDigits(hours) + ":" + TwoDigits(minutes)
       || timezone == sign + TwoDigits(hours) + TwoDigits(minutes)
       || (timezone == sign + TwoDigits(hours) && minutes == 0)
  }

  /** A spelled offset within SQL Server's fourteen hours. */
  ghost predicate SpellsMinutes(timezone: string, offset: int) {
    exists negative: bool, hours: nat, minutes: nat :: SpellsOffset(timezone, negative, hours, minutes)
      && minutes < 60 && hours * 60 + minutes <= 840
      && offset == if negative then -(60 * hours + minutes) else 60 * hours + minutes
  }

  /** A timezone that can be used at all. */
  ghost predicate ZoneValid(timezone: string, zones: ZoneDatabase) {
    if NamesUtc(timezone) then true
    else if Signed(timezone) then exists offset :: SpellsMinutes(timezone, offset)
    else zones.known(timezone)
  }

  /** A timezone is `offset` minutes ahead of UTC at an instant. */
  ghost predicate ZoneHas(timezone: string, zones: ZoneDatabase, seconds: int, nanoseconds: int, offset: int) {
    if NamesUtc(timezone) then offset == 0
    else if Signed(timezone) then SpellsMinutes(timezone, offset)
    else zones.known(timezone) && -840 <= offset <= 840 && zones.offset(timezone, seconds, nanoseconds) == Some(60 * offset)
  }

  lemma UtcIsIgnoringCase(timezone: string)
    ensures EqualsIgnoreCase(timezone, "z") || EqualsIgnoreCase(timezone, "utc") <==> NamesUtc(timezone)
  {
    if |timezone| == 1 {
      LowerIs(timezone[0], 'z', 'Z');
    } else if |timezone| == 3 {
      LowerIs(timezone[0], 'u', 'U');
      LowerIs(timezone[1], 't', 'T');
      LowerIs(timezone[2], 'c', 'C');
    }
    hide LowerAscii;
  }

  lemma LowerIs(c: char, lower: char, upper: char)
    requires 'a' <= lower <= 'z' && lower as int == upper as int + 32
    ensures LowerAscii(c) == lower <==> c in {lower, upper}
  {
  }

  /** Four digits are an hour count and a minute count. */
  lemma DigitsSpell(d: string)
    requires |d| == 4 && forall i :: 0 <= i < |d| ==> IsDigit(d[i])
    ensures 0 <= DigitValue(d[0]) * 10 + DigitValue(d[1]) < 100 && 0 <= DigitValue(d[2]) * 10 + DigitValue(d[3]) < 100
    ensures d == TwoDigits(DigitValue(d[0]) * 10 + DigitValue(d[1])) + TwoDigits(DigitValue(d[2]) * 10 + DigitValue(d[3]))
  {
    assert IsDigit(d[0]) && IsDigit(d[1]) && IsDigit(d[2]) && IsDigit(d[3]);
  }

  /** What the parser reads was spelled. */
  lemma ParsedIsSpelled(timezone: string)
    requires ParseFixedOffset(timezone).Some? && ParseFixedOffset(timezone).value.Ok?
    ensures SpellsMinutes(timezone, ParseFixedOffset(timezone).value.value)
  {
    var d := OffsetDigits(timezone).value;
    DigitsSpell(d);
    var hours: nat, minutes: nat := DigitValue(d[0]) * 10 + DigitValue(d[1]), DigitValue(d[2]) * 10 + DigitValue(d[3]);
    var negative, sign := timezone[0] == '-', [timezone[0]];
    hide DigitValue, TwoDigits;
    var h, m := TwoDigits(hours), TwoDigits(minutes);
    assert h == d[..2] && m == d[2..];
    if |timezone| == 3 {
      assert timezone == sign + h;
      DigitsOfZero(minutes);
    } else if |timezone| == 5 {
      assert timezone == sign + h + m;
    } else {
      assert timezone == sign + h + ":" + m;
    }
    assert SpellsOffset(timezone, negative, hours, minutes);
  }

  lemma DigitsOfZero(n: nat)
    requires n < 100 && TwoDigits(n) == "00"
    ensures n == 0
  {
    assert TwoDigits(n)[0] == '0' && TwoDigits(n)[1] == '0';
  }

  /** Hours alone are whole hours. */
  lemma HoursParse(hours: nat, negative: bool)
    requires hours < 100
    ensures
      var sign := if negative then "-" else "+";
      ParseFixedOffset(sign + TwoDigits(hours)) ==
        if hours * 60 <= MAX_OFFSET_MINUTES then Some(Ok(if negative then -(hours * 60) else hours * 60)) else Some(Err(TimezoneUnsupported))
  {
    var timezone := (if negative then "-" else "+") + TwoDigits(hours);
    var digits := TwoDigits(hours) + "00";
    assert timezone[1] == digits[0] && timezone[2] == digits[1];
    assert [timezone[1], timezone[2], '0', '0'] == digits;
    assert OffsetDigits(timezone) == Some(digits);
    assert forall i :: 0 <= i < |digits| ==> IsDigit(digits[i]);
    assert DigitValue(digits[0]) * 10 + DigitValue(digits[1]) == hours;
    assert DigitValue(digits[2]) * 10 + DigitValue(digits[3]) == 0;
    hide OffsetDigits, DigitValue, TwoDigits;
  }

  /** What is spelled is parsed. */
  lemma SpelledIsParsed(timezone: string, offset: int)
    requires SpellsMinutes(timezone, offset)
    ensures ParseFixedOffset(timezone) == Some(Ok(offset))
  {
    hide ParseFixedOffset, TwoDigits, IsDigit;
    var negative: bool, hours: nat, minutes: nat :| SpellsOffset(timezone, negative, hours, minutes)
      && minutes < 60 && hours * 60 + minutes <= 840
      && offset == if negative then -(60 * hours + minutes) else 60 * hours + minutes;
    FixedOffsetsParse(hours, minutes, negative);
    HoursParse(hours, negative);
  }

  lemma ParseRefuses(timezone: string)
    ensures ParseFixedOffset(timezone).Some? <==> Signed(timezone)
    ensures ParseFixedOffset(timezone).Some? && ParseFixedOffset(timezone).value.Err? ==>
      ParseFixedOffset(timezone).value.error == TimezoneUnsupported
  {
  }

  /** Spellings that the repository's tests pin, one of each form and both limits. */
  lemma PinnedOffsets()
    ensures ParseFixedOffset("+02:30") == Some(Ok(150)) && ParseFixedOffset("+0230") == Some(Ok(150))
    ensures ParseFixedOffset("-07") == Some(Ok(-420)) && ParseFixedOffset("-07:45") == Some(Ok(-465))
    ensures ParseFixedOffset("+14:00") == Some(Ok(840)) && ParseFixedOffset("-14:00") == Some(Ok(-840))
  {
    assert "+0230"[1..5] == "0230";
    assert OffsetDigits("+02:30") == Some("0230") && OffsetDigits("+0230") == Some("0230");
    assert OffsetDigits("-07") == Some("0700") && OffsetDigits("-07:45") == Some("0745");
    assert OffsetDigits("+14:00") == Some("1400") && OffsetDigits("-14:00") == Some("1400");
  }

  /** The parser reads exactly the spelled offsets and the database answers for the other
      names; no spelling has two offsets. */
  lemma ZoneResolves(timezone: string, zones: ZoneDatabase)
    ensures ResolveZone(timezone, zones).Ok? <==> ZoneValid(timezone, zones)
    ensures ResolveZone(timezone, zones).Err? ==> ResolveZone(timezone, zones).error == TimezoneUnsupported
  {
    UtcIsIgnoringCase(timezone);
    ParseRefuses(timezone);
    hide ParseFixedOffset, EqualsIgnoreCase, NamesUtc, Signed, SpellsMinutes;
    forall offset | SpellsMinutes(timezone, offset) ensures ParseFixedOffset(timezone) == Some(Ok(offset)) {
      SpelledIsParsed(timezone, offset);
    }
    if ParseFixedOffset(timezone).Some? && ParseFixedOffset(timezone).value.Ok? {
      ParsedIsSpelled(timezone);
    }
  }

  /** The offset of a usable timezone at an instant, sign included. */
  lemma ZoneOffsetExact(timezone: string, zones: ZoneDatabase, seconds: int, nanoseconds: int, offset: int)
    requires ResolveZone(timezone, zones).Ok?
    ensures OffsetForInstant(ResolveZone(timezone, zones).value, zones, seconds, nanoseconds) == Ok(offset)
            <==> ZoneHas(timezone, zones, seconds, nanoseconds, offset)
  {
    UtcIsIgnoringCase(timezone);
    ParseRefuses(timezone);
    hide ParseFixedOffset, EqualsIgnoreCase, NamesUtc, Signed, SpellsMinutes;
    if SpellsMinutes(timezone, offset) {
      SpelledIsParsed(timezone, offset);
    }
    if ParseFixedOffset(timezone).Some? && ParseFixedOffset(timezone).value.Ok? {
      ParsedIsSpelled(timezone);
    }
  }

  /** A usable timezone fails at an instant only when its name has no single offset there
      (an out-of-range timestamp) or one SQL Server cannot hold. */
  lemma ZoneOffsetFailure(timezone: string, zones: ZoneDatabase, seconds: int, nanoseconds: int)
    requires ResolveZone(timezone, zones).Ok?
    requires OffsetForInstant(ResolveZone(timezone, zones).value, zones, seconds, nanoseconds).Err?
    ensures !NamesUtc(timezone) && !Signed(timezone)
    ensures OffsetForInstant(ResolveZone(timezone, zones).value, zones, seconds, nanoseconds).error ==
      if zones.offset(timezone, seconds, nanoseconds).None? then TimestampOutOfRange else TimezoneUnsupported
  {
    UtcIsIgnoringCase(timezone);
    ParseRefuses(timezone);
    hide ParseFixedOffset, EqualsIgnoreCase, NamesUtc, Signed;
  }
}
