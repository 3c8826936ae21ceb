/** The cell formats of the TDS row stream, and a reader that recovers cells from
    the column type and nullability alone (MS-TDS section 2.2.5.2.3 for
    partially length-prefixed data, 2.2.5.5.1.6 for decimals, 2.2.5.5.1.8 for
    dates and times). */
module Wire {
  import opened Basics
  import opened Types
  import opened Bytes
  import opened Decimals
  import opened DateTimes
  import opened Cells

  // ------------------------------------------------------------ framings

  /** Nullable primitives carry a length byte, zero for null; others are bare. */
  function FixedWire(nullable: bool, v: Option<seq<byte>>): seq<byte>
    requires v.Some? ==> |v.value| < 256
  {
    match v
    case None => [0]
    case Some(b) => if nullable then [|b|] + b else b
  }

  /** A length byte in every case, zero for null. */
  function PrefixedWire(v: Option<seq<byte>>): seq<byte>
    requires v.Some? ==> |v.value| < 256
  {
    FixedWire(true, v)
  }

  const BOUNDED_NULL: nat := 0xFFFF
  const PLP_NULL: nat := 0xFFFF_FFFF_FFFF_FFFF
  const PLP_UNKNOWN_LENGTH: nat := 0xFFFF_FFFF_FFFF_FFFE

  /** Two-byte length, 0xFFFF for null. */
  function BoundedWire(v: Option<seq<byte>>): seq<byte> {
    match v
    case None => LE(BOUNDED_NULL, 2)
    case Some(b) => LE(|b|, 2) + b
  }

  /** Unknown total length, one chunk, a terminator only when the chunk is not empty. */
  function MaxWire(v: Option<seq<byte>>): seq<byte> {
    match v
    case None => LE(PLP_NULL, 8)
    case Some(b) => LE(PLP_UNKNOWN_LENGTH, 8) + (LE(|b|, 4) + (b + Terminator(|b|)))
  }

  function Terminator(chunkLen: nat): seq<byte> { if chunkLen == 0 then [] else LE(0, 4) }

  function VariableWire(length: TypeLength, v: Option<seq<byte>>): seq<byte> {
    if length.Max? then MaxWire(v) else BoundedWire(v)
  }

  /** A reader's result: the payload (or null) and the bytes after it. */
  type Taken = Option<(Option<seq<byte>>, seq<byte>)>

  function TakeBytes(b: seq<byte>, n: nat): Taken {
    if n <= |b| then Some((Some(b[..n]), b[n..])) else None
  }

  function TakeFixed(b: seq<byte>, nullable: bool, width: nat): Taken {
    if !nullable then TakeBytes(b, width)
    else if |b| == 0 then None
    else if b[0] == 0 then Some((None, b[1..]))
    else if b[0] == width then TakeBytes(b[1..], width)
    else None
  }

  function TakePrefixed(b: seq<byte>): Taken {
    if |b| == 0 then None
    else if b[0] == 0 then Some((None, b[1..]))
    else TakeBytes(b[1..], b[0])
  }

  function TakeBounded(b: seq<byte>): Taken {
    if |b| < 2 then None
    else if FromLE(b[0..2]) == BOUNDED_NULL then Some((None, b[2..]))
    else TakeBytes(b[2..], FromLE(b[0..2]))
  }

  function TakeMax(b: seq<byte>): Taken {
    if |b| < 8 then None
    else if FromLE(b[..8]) == PLP_NULL then Some((None, b[8..]))
    else if FromLE(b[..8]) != PLP_UNKNOWN_LENGTH then None
    else TakeChunk(b[8..])
  }

  /** One chunk; a terminator follows unless the chunk itself is the empty one. */
  function TakeChunk(b: seq<byte>): Taken {
    if |b| < 4 then None
    else
      var n, tail := FromLE(b[..4]), b[4..];
      if n == 0 then Some((Some([]), tail))
      else if n + 4 <= |tail| && FromLE(tail[n..][..4]) == 0 then Some((Some(tail[..n]), tail[n..][4..]))
      else None
  }

  function TakeVariable(b: seq<byte>, length: TypeLength): Taken {
    if length.Max? then TakeMax(b) else TakeBounded(b)
  }

  lemma TakeFixedInverts(nullable: bool, width: nat, v: Option<seq<byte>>, rest: seq<byte>)
    requires 0 < width < 256 && (v.Some? ==> |v.value| == width) && (v.None? ==> nullable)
    ensures TakeFixed(FixedWire(nullable, v) + rest, nullable, width) == Some((v, rest))
  {
    var b := FixedWire(nullable, v) + rest;
    if v.Some? {
      if nullable {
        assert b[1..] == v.value + rest;
      }
      assert (v.value + rest)[..width] == v.value && (v.value + rest)[width..] == rest;
    } else {
      assert b[1..] == rest;
    }
  }

  lemma TakePrefixedInverts(v: Option<seq<byte>>, rest: seq<byte>)
    requires v.Some? ==> 0 < |v.value| < 256
    ensures TakePrefixed(PrefixedWire(v) + rest) == Some((v, rest))
  {
    var b := PrefixedWire(v) + rest;
    if v.Some? {
      assert b[1..] == v.value + rest;
      assert (v.value + rest)[..|v.value|] == v.value && (v.value + rest)[|v.value|..] == rest;
    } else {
      assert b[1..] == rest;
    }
  }

  /** Null is told apart from every value below 0xFFFF bytes, the empty one included. */
  lemma TakeBoundedInverts(v: Option<seq<byte>>, rest: seq<byte>)
    requires v.Some? ==> |v.value| < BOUNDED_NULL
    ensures TakeBounded(BoundedWire(v) + rest) == Some((v, rest))
  {
    PowersOf256();
    var b := BoundedWire(v) + rest;
    var n := if v.Some? then |v.value| else BOUNDED_NULL;
    LERoundTrip(n, 2);
    assert b[0..2] == LE(n, 2);
    if v.Some? {
      assert b[2..] == v.value + rest;
      assert (v.value + rest)[..n] == v.value && (v.value + rest)[n..] == rest;
    } else {
      assert b[2..] == rest;
    }
  }

  /** A value of exactly 0xFFFF bytes is read back as null: the bound is sharp. */
  lemma BoundedNullCollides(v: seq<byte>, rest: seq<byte>)
    requires |v| == BOUNDED_NULL
    ensures TakeBounded(BoundedWire(Some(v)) + rest) == Some((None, v + rest))
  {
    PowersOf256();
    var b := BoundedWire(Some(v)) + rest;
    LERoundTrip(BOUNDED_NULL, 2);
    assert b[0..2] == LE(BOUNDED_NULL, 2);
    assert b[2..] == v + rest;
  }

  lemma SplitAt<T>(a: seq<T>, b: seq<T>)
    ensures (a + b)[..|a|] == a && (a + b)[|a|..] == b
  {
  }

  lemma TakeEmptyChunk(rest: seq<byte>)
    ensures TakeChunk(LE(0, 4) + rest) == Some((Some([]), rest))
  {
    PowersOf256();
    LERoundTrip(0, 4);
    hide LE, FromLE, Pow256;
    SplitAt(LE(0, 4), rest);
  }

  lemma TakeFullChunk(data: seq<byte>, rest: seq<byte>)
    requires 0 < |data| < 0x1_0000_0000
    ensures TakeChunk(LE(|data|, 4) + (data + (LE(0, 4) + rest))) == Some((Some(data), rest))
  {
    PowersOf256();
    LERoundTrip(|data|, 4);
    LERoundTrip(0, 4);
    hide LE, FromLE, Pow256;
    SplitAt(LE(|data|, 4), data + (LE(0, 4) + rest));
    SplitAt(data, LE(0, 4) + rest);
    SplitAt(LE(0, 4), rest);
  }

  lemma TakeChunkInverts(data: seq<byte>, rest: seq<byte>)
    requires |data| < 0x1_0000_0000
    ensures TakeChunk((LE(|data|, 4) + (data + Terminator(|data|))) + rest) == Some((Some(data), rest))
  {
    hide LE, TakeChunk;
    var len, end := LE(|data|, 4), Terminator(|data|);
    Associates(len, data + end, rest);
    Associates(data, end, rest);
    if |data| == 0 {
      TakeEmptyChunk(rest);
      assert data == [] && data + (end + rest) == rest;
    } else {
      TakeFullChunk(data, rest);
    }
  }

  lemma TakeMaxInverts(v: Option<seq<byte>>, rest: seq<byte>)
    requires v.Some? ==> |v.value| < 0x1_0000_0000
    ensures TakeMax(MaxWire(v) + rest) == Some((v, rest))
  {
    PowersOf256();
    hide LE, FromLE, Pow256, TakeChunk, Terminator;
    var header := if v.None? then PLP_NULL else PLP_UNKNOWN_LENGTH;
    LERoundTrip(header, 8);
    match v
    case None =>
      SplitAt(LE(header, 8), rest);
    case Some(data) =>
      var chunk := LE(|data|, 4) + (data + Terminator(|data|));
      Associates(LE(header, 8), chunk, rest);
      SplitAt(LE(header, 8), chunk + rest);
      TakeChunkInverts(data, rest);
  }

  lemma TakeVariableInverts(length: TypeLength, v: Option<seq<byte>>, rest: seq<byte>)
    requires v.Some? ==> |v.value| < if length.Max? then 0x1_0000_0000 else BOUNDED_NULL
    ensures TakeVariable(VariableWire(length, v) + rest, length) == Some((v, rest))
  {
    if length.Max? {
      TakeMaxInverts(v, rest);
    } else {
      TakeBoundedInverts(v, rest);
    }
  }

  // ------------------------------------------------------------ decimals

  function Digits(magnitude: nat): (r: nat)
    ensures r >= 1
  {
    if magnitude < 10 then 1 else 1 + Digits(magnitude / 10)
  }

  /** `decimal_precision`: count digits by repeated division. */
  method DecimalPrecision(magnitude: nat) returns (digits: nat)
    ensures digits == Digits(magnitude)
  {
    var rest := magnitude;
    digits := 1;
    while rest >= 10
      invariant digits + Digits(rest) == Digits(magnitude) + 1
    {
      rest := rest / 10;
      digits := digits + 1;
    }
  }

  /** `n` digits mean at least 10^(n-1) and less than 10^n. */
  lemma {:induction false} DigitsExact(magnitude: nat)
    ensures magnitude < Pow10(Digits(magnitude))
    ensures Digits(magnitude) > 1 ==> Pow10(Digits(magnitude) - 1) <= magnitude
  {
    if magnitude >= 10 {
      DigitsExact(magnitude / 10);
    }
  }

  /** `decimal_magnitude_len`. */
  function MagnitudeLen(magnitude: nat): nat {
    var digits := Digits(magnitude);
    if digits <= 9 then 4 else if digits <= 19 then 8 else if digits <= 28 then 12 else 16
  }

  /** `write_decimal_magnitude`: truncating casts, low word first. */
  function Words(magnitude: nat, n: nat): (r: seq<byte>)
    requires n == 4 || n == 8 || n == 12 || n == 16
    ensures |r| == n
  {
    if n == 4 then LE(magnitude % 0x1_0000_0000, 4)
    else if n == 8 then LE(magnitude % 0x1_0000_0000_0000_0000, 8)
    else if n == 12 then LE(magnitude % 0x1_0000_0000_0000_0000, 8) + LE(magnitude / 0x1_0000_0000_0000_0000 % 0x1_0000_0000, 4)
    else LE(magnitude, 16)
  }

  function MagnitudeBytes(magnitude: nat): (r: seq<byte>)
    ensures |r| == MagnitudeLen(magnitude)
  {
    Words(magnitude, MagnitudeLen(magnitude))
  }

  function DecimalSign(unscaled: int): byte { if unscaled < 0 then 0 else 1 }

  function DecimalBytes(unscaled: int): seq<byte> {
    [DecimalSign(unscaled)] + MagnitudeBytes(Abs(unscaled))
  }

  function ReadDecimal(b: seq<byte>): Option<int> {
    if |b| !in {5, 9, 13, 17} || b[0] > 1 then None
    else
      var magnitude: int := FromLE(b[1..]);
      Some(if b[0] == 0 then -magnitude else magnitude)
  }

  /** The chosen width always holds the magnitude: no cast truncates. */
  lemma MagnitudeFits(magnitude: nat)
    requires magnitude < Pow256(16)
    ensures magnitude < Pow256(MagnitudeLen(magnitude))
  {
    DigitsExact(magnitude);
    PowersOf256();
    Pow10Values();
    var digits := Digits(magnitude);
    hide Pow10, Pow256, Digits;
    if digits <= 9 {
      Pow10Monotone(digits, 9);
    } else if digits <= 19 {
      Pow10Monotone(digits, 19);
    } else if digits <= 28 {
      Pow10Monotone(digits, 28);
    }
  }

  /** Two words written one after the other are the 96-bit number. */
  lemma TwoWords(magnitude: nat)
    requires magnitude < Pow256(12)
    ensures LE(magnitude % 0x1_0000_0000_0000_0000, 8) + LE(magnitude / 0x1_0000_0000_0000_0000 % 0x1_0000_0000, 4)
            == LE(magnitude, 12)
  {
    PowersOf256();
    hide LE, Pow256;
    var half := 0x1_0000_0000_0000_0000;
    var low, high := magnitude % half, magnitude / half;
    assert magnitude == low + Pow256(8) * high;
    assert high < 0x1_0000_0000;
    LEJoin(low, high, 8, 4);
  }

  lemma WordsAreLE(magnitude: nat, n: nat)
    requires n == 4 || n == 8 || n == 12 || n == 16
    requires magnitude < Pow256(n)
    ensures Words(magnitude, n) == LE(magnitude, n)
  {
    PowersOf256();
    hide LE, Pow256;
    if n == 4 {
      LowWord(magnitude, 0x1_0000_0000);
    } else if n == 8 {
      LowWord(magnitude, 0x1_0000_0000_0000_0000);
    } else if n == 12 {
      TwoWords(magnitude);
    }
  }

  lemma LowWord(magnitude: nat, modulus: nat)
    requires magnitude < modulus
    ensures magnitude % modulus == magnitude
  {
  }

  lemma MagnitudeRoundTrip(magnitude: nat)
    requires magnitude < Pow256(16)
    ensures FromLE(MagnitudeBytes(magnitude)) == magnitude
  {
    MagnitudeFits(magnitude);
    WordsAreLE(magnitude, MagnitudeLen(magnitude));
    LERoundTrip(magnitude, MagnitudeLen(magnitude));
    hide LE, FromLE, MagnitudeLen, Words;
  }

  lemma DecimalRoundTrip(unscaled: int)
    requires FitsI128(unscaled)
    ensures ReadDecimal(DecimalBytes(unscaled)) == Some(unscaled)
  {
    PowersOf256();
    MagnitudeRoundTrip(Abs(unscaled));
    var b := DecimalBytes(unscaled);
    assert b[1..] == MagnitudeBytes(Abs(unscaled));
    hide FromLE, MagnitudeBytes;
  }

  // ------------------------------------------------------ dates and times

  /** `time_payload_len`. */
  function TimeLen(scale: nat): nat {
    if scale <= 2 then 3 else if scale <= 4 then 4 else 5
  }

  lemma IncrementsFit(time: MssqlTime)
    requires ValidTime(time)
    ensures time.increments < Pow256(TimeLen(time.scale))
  {
    PowersOf256();
    assert Pow10(2) == 100;
    assert Pow10(4) == 10_000;
    assert Pow10(7) == 10_000_000;
    var cap := if time.scale <= 2 then 2 else if time.scale <= 4 then 4 else 7;
    Pow10Monotone(time.scale, cap);
    hide Pow10;
  }

  function DateTime2Bytes(value: MssqlDateTime2): seq<byte> {
    LE(value.time.increments, TimeLen(value.time.scale)) + LE(value.days, 3)
  }

  function OffsetBytes(value: MssqlDateTimeOffset): seq<byte> {
    DateTime2Bytes(value.datetime2) + SignedLE(value.offsetMinutes, 2)
  }

  function DateTimeBytes(value: MssqlDateTime): seq<byte> {
    SignedLE(value.days, 4) + LE(value.fragments, 4)
  }

  function ReadDateTime2(b: seq<byte>, scale: nat): Option<MssqlDateTime2> {
    var n := TimeLen(scale);
    if |b| != n + 3 then None else Some(MssqlDateTime2(FromLE(b[n..]), MssqlTime(FromLE(b[..n]), scale)))
  }

  function ReadOffset(b: seq<byte>, scale: nat): Option<MssqlDateTimeOffset> {
    if |b| < 2 then None else
    var datetime2 := ReadDateTime2(b[..|b| - 2], scale);
    if datetime2.None? then None else Some(MssqlDateTimeOffset(datetime2.value, FromSignedLE(b[|b| - 2..])))
  }

  function ReadDateTime(b: seq<byte>): Option<MssqlDateTime> {
    if |b| != 8 then None else Some(MssqlDateTime(FromSignedLE(b[..4]), FromLE(b[4..])))
  }

  lemma DateTime2RoundTrip(value: MssqlDateTime2)
    requires ValidDateTime2(value)
    ensures ReadDateTime2(DateTime2Bytes(value), value.time.scale) == Some(value)
  {
    PowersOf256();
    IncrementsFit(value.time);
    LERoundTrip(value.time.increments, TimeLen(value.time.scale));
    LERoundTrip(value.days, 3);
    hide LE, FromLE, Pow256;
    var b, n := DateTime2Bytes(value), TimeLen(value.time.scale);
    assert b[..n] == LE(value.time.increments, n) && b[n..] == LE(value.days, 3);
  }

  lemma OffsetRoundTrip(value: MssqlDateTimeOffset)
    requires ValidDateTimeOffset(value)
    ensures ReadOffset(OffsetBytes(value), 7) == Some(value)
  {
    PowersOf256();
    DateTime2RoundTrip(value.datetime2);
    SignedRoundTrip(value.offsetMinutes, 2);
    var b := OffsetBytes(value);
    assert b[..|b| - 2] == DateTime2Bytes(value.datetime2) && b[|b| - 2..] == SignedLE(value.offsetMinutes, 2);
    hide SignedLE, FromSignedLE, DateTime2Bytes, ReadDateTime2;
  }

  lemma DateTimeRoundTrip(value: MssqlDateTime)
    requires ValidDateTime(value)
    ensures ReadDateTime(DateTimeBytes(value)) == Some(value)
  {
    PowersOf256();
    SignedRoundTrip(value.days, 4);
    LERoundTrip(value.fragments, 4);
    var b := DateTimeBytes(value);
    assert b[..4] == SignedLE(value.days, 4) && b[4..] == LE(value.fragments, 4);
    hide LE, FromLE, SignedLE, FromSignedLE;
  }

  /** At most `k` digits is below 10^k. */
  lemma DigitsAtMost(magnitude: nat, k: nat)
    requires k >= 1
    ensures Digits(magnitude) <= k <==> magnitude < Pow10(k)
  {
    DigitsExact(magnitude);
    hide Digits, Pow10;
    if Digits(magnitude) <= k {
      Pow10Monotone(Digits(magnitude), k);
    } else {
      Pow10Monotone(k, Digits(magnitude) - 1);
    }
  }

  /** The width of a decimal on the wire, by value: sign and magnitude take 5, 9, 13 or 17
      bytes for up to 9, 19, 28 or more digits. */
  lemma DecimalWidth(unscaled: int)
    ensures |DecimalBytes(unscaled)| ==
      if -1_000_000_000 < unscaled < 1_000_000_000 then 5
      else if -10_000_000_000_000_000_000 < unscaled < 10_000_000_000_000_000_000 then 9
      else if -10_000_000_000_000_000_000_000_000_000 < unscaled < 10_000_000_000_000_000_000_000_000_000 then 13
      else 17
  {
    Pow10Values();
    DigitsAtMost(Abs(unscaled), 9);
    DigitsAtMost(Abs(unscaled), 19);
    DigitsAtMost(Abs(unscaled), 28);
    hide Digits, Pow10, Words;
  }

  /** The width of a time on the wire at every scale. */
  lemma TimeWidths(increments: nat, days: nat)
    ensures |LE(increments, TimeLen(0))| == 3 && |LE(increments, TimeLen(1))| == 3 && |LE(increments, TimeLen(2))| == 3
    ensures |LE(increments, TimeLen(3))| == 4 && |LE(increments, TimeLen(4))| == 4
    ensures |LE(increments, TimeLen(5))| == 5 && |LE(increments, TimeLen(6))| == 5 && |LE(increments, TimeLen(7))| == 5
    ensures forall p :: 0 <= p <= 7 ==>
      |DateTime2Bytes(MssqlDateTime2(days, MssqlTime(increments, p)))| == (if p <= 2 then 6 else if p <= 4 then 7 else 8)
  {
    hide LE;
  }

  lemma NoBytes()
    ensures LE(0, 0) == []
  {
  }

  /** A decimal cell from its width and its little-endian magnitude. */
  lemma DecimalImage(unscaled: int, n: nat, image: seq<byte>)
    requires FitsI128(unscaled) && n < 255 && |DecimalBytes(unscaled)| == 1 + n && LE(Abs(unscaled), n) == image
    ensures PrefixedWire(Some(DecimalBytes(unscaled))) == [1 + n, if unscaled < 0 then 0 else 1] + image
  {
    PowersOf256();
    hide LE, Words, Digits, Pow256;
    MagnitudeFits(Abs(unscaled));
    WordsAreLE(Abs(unscaled), n);
    assert [1 + n] + DecimalBytes(unscaled) == [1 + n, DecimalSign(unscaled)] + image;
  }

  lemma ZeroImage()
    ensures LE(0, 4) == [0, 0, 0, 0]
  {
    hide LE;
    LEStep(0, 4);
    LEStep(0, 3);
    LEStep(0, 2);
    LEStep(0, 1);
    NoBytes();
  }

  lemma NineDigitImage()
    ensures LE(123_456_789, 4) == [0x15, 0xCD, 0x5B, 7]
  {
    hide LE;
    LEStep(0x75bcd15, 4);
    LEStep(0x75bcd, 3);
    LEStep(0x75b, 2);
    LEStep(7, 1);
    NoBytes();
  }

  lemma SixtyFourBitImage()
    ensures LE(9_223_372_036_854_775_808, 8) == [0, 0, 0, 0, 0, 0, 0, 0x80]
  {
    hide LE;
    LEStep(0x8000000000000000, 8);
    LEStep(0x80000000000000, 7);
    LEStep(0x800000000000, 6);
    LEStep(0x8000000000, 5);
    LEStep(0x80000000, 4);
    LEStep(0x800000, 3);
    LEStep(0x8000, 2);
    LEStep(0x80, 1);
    NoBytes();
  }

  lemma MaxUInt64Image()
    ensures LE(18_446_744_073_709_551_615, 12) == [0xFF, 0xFF, 0xFF, 0xFF, 0xFF, 0xFF, 0xFF, 0xFF, 0, 0, 0, 0]
  {
    hide LE;
    LEStep(0xffffffffffffffff, 12);
    LEStep(0xffffffffffffff, 11);
    LEStep(0xffffffffffff, 10);
    LEStep(0xffffffffff, 9);
    LEStep(0xffffffff, 8);
    LEStep(0xffffff, 7);
    LEStep(0xffff, 6);
    LEStep(0xff, 5);
    LEStep(0, 4);
    LEStep(0, 3);
    LEStep(0, 2);
    LEStep(0, 1);
    NoBytes();
  }

  lemma ThirtyDigitImage()
    ensures LE(123_456_789_012_345_678_901_234_567_890, 16) == [0xD2, 0x0A, 0x3F, 0x4E, 0xEE, 0xE0, 0x73, 0xC3, 0xF6, 0x0F, 0xE9, 0x8E, 1, 0, 0, 0]
  {
    hide LE;
    LEStep(0x18ee90ff6c373e0ee4e3f0ad2, 16);
    LEStep(0x18ee90ff6c373e0ee4e3f0a, 15);
    LEStep(0x18ee90ff6c373e0ee4e3f, 14);
    LEStep(0x18ee90ff6c373e0ee4e, 13);
    LEStep(0x18ee90ff6c373e0ee, 12);
    LEStep(0x18ee90ff6c373e0, 11);
    LEStep(0x18ee90ff6c373, 10);
    LEStep(0x18ee90ff6c3, 9);
    LEStep(0x18ee90ff6, 8);
    LEStep(0x18ee90f, 7);
    LEStep(0x18ee9, 6);
    LEStep(0x18e, 5);
    LEStep(1, 4);
    LEStep(0, 3);
    LEStep(0, 2);
    LEStep(0, 1);
    NoBytes();
  }

  lemma ZeroCell()
    ensures PrefixedWire(Some(DecimalBytes(0))) == [5, 1, 0, 0, 0, 0]
  {
    hide LE, DecimalBytes, PrefixedWire;
    ZeroImage();
    DecimalWidth(0);
    DecimalImage(0, 4, LE(0, 4));
  }

  lemma NineDigitCell()
    ensures PrefixedWire(Some(DecimalBytes(123_456_789))) == [5, 1, 0x15, 0xCD, 0x5B, 7]
  {
    hide LE, DecimalBytes, PrefixedWire;
    NineDigitImage();
    DecimalWidth(123_456_789);
    DecimalImage(123_456_789, 4, LE(123_456_789, 4));
  }

  lemma SixtyFourBitCell()
    ensures PrefixedWire(Some(DecimalBytes(9_223_372_036_854_775_808))) == [9, 1, 0, 0, 0, 0, 0, 0, 0, 0x80]
  {
    hide LE, DecimalBytes, PrefixedWire;
    SixtyFourBitImage();
    DecimalWidth(9_223_372_036_854_775_808);
    DecimalImage(9_223_372_036_854_775_808, 8, LE(9_223_372_036_854_775_808, 8));
  }

  lemma MaxUInt64Cell()
    ensures PrefixedWire(Some(DecimalBytes(18_446_744_073_709_551_615))) == [0x0D, 1, 0xFF, 0xFF, 0xFF, 0xFF, 0xFF, 0xFF, 0xFF, 0xFF, 0, 0, 0, 0]
  {
    hide LE, DecimalBytes, PrefixedWire;
    MaxUInt64Image();
    DecimalWidth(18_446_744_073_709_551_615);
    DecimalImage(18_446_744_073_709_551_615, 12, LE(18_446_744_073_709_551_615, 12));
  }

  lemma ThirtyDigitCell()
    ensures PrefixedWire(Some(DecimalBytes(123_456_789_012_345_678_901_234_567_890))) == [0x11, 1, 0xD2, 0x0A, 0x3F, 0x4E, 0xEE, 0xE0, 0x73, 0xC3, 0xF6, 0x0F, 0xE9, 0x8E, 1, 0, 0, 0]
  {
    hide LE, DecimalBytes, PrefixedWire;
    ThirtyDigitImage();
    DecimalWidth(123_456_789_012_345_678_901_234_567_890);
    DecimalImage(123_456_789_012_345_678_901_234_567_890, 16, LE(123_456_789_012_345_678_901_234_567_890, 16));
  }

  lemma NegativeCell()
    ensures PrefixedWire(Some(DecimalBytes(-123_456_789))) == [5, 0, 0x15, 0xCD, 0x5B, 7]
  {
    hide LE, DecimalBytes, PrefixedWire;
    NineDigitImage();
    DecimalWidth(-123_456_789);
    DecimalImage(-123_456_789, 4, LE(123_456_789, 4));
  }

  /** Cells that the repository's tests pin byte by byte. */
  lemma PinnedDecimals()
    ensures PrefixedWire(Some(DecimalBytes(0))) == [5, 1, 0, 0, 0, 0]
    ensures PrefixedWire(Some(DecimalBytes(123_456_789))) == [5, 1, 0x15, 0xCD, 0x5B, 7]
    ensures PrefixedWire(Some(DecimalBytes(-123_456_789))) == [5, 0, 0x15, 0xCD, 0x5B, 7]
    ensures PrefixedWire(Some(DecimalBytes(9_223_372_036_854_775_808))) == [9, 1, 0, 0, 0, 0, 0, 0, 0, 0x80]
    ensures PrefixedWire(Some(DecimalBytes(18_446_744_073_709_551_615))) == [0x0D, 1, 0xFF, 0xFF, 0xFF, 0xFF, 0xFF, 0xFF, 0xFF, 0xFF, 0, 0, 0, 0]
    ensures PrefixedWire(Some(DecimalBytes(123_456_789_012_345_678_901_234_567_890))) == [0x11, 1, 0xD2, 0x0A, 0x3F, 0x4E, 0xEE, 0xE0, 0x73, 0xC3, 0xF6, 0x0F, 0xE9, 0x8E, 1, 0, 0, 0]
  {
    hide *;
    ZeroCell();
    NineDigitCell();
    NegativeCell();
    SixtyFourBitCell();
    MaxUInt64Cell();
    ThirtyDigitCell();
  }

  lemma ZeroBytes()
    ensures LE(0, 4) == [0, 0, 0, 0]
    ensures LE(PLP_UNKNOWN_LENGTH, 8) == [0xFE, 0xFF, 0xFF, 0xFF, 0xFF, 0xFF, 0xFF, 0xFF]
    ensures LE(PLP_NULL, 8) == [0xFF, 0xFF, 0xFF, 0xFF, 0xFF, 0xFF, 0xFF, 0xFF]
    ensures LE(BOUNDED_NULL, 2) == [0xFF, 0xFF]
    ensures LE(7, 0) == []
  {
    LEStep(0, 4);
    LEStep(0, 3);
    LEStep(0, 2);
    LEStep(0, 1);
    LEStep(PLP_UNKNOWN_LENGTH, 8);
    LEStep(PLP_NULL, 8);
    LEStep(0xFF_FFFF_FFFF_FFFF, 7);
    LEStep(0xFFFF_FFFF_FFFF, 6);
    LEStep(0xFF_FFFF_FFFF, 5);
    LEStep(0xFFFF_FFFF, 4);
    LEStep(0xFF_FFFF, 3);
    LEStep(0xFFFF, 2);
    LEStep(0xFF, 1);
    assert LE(0, 0) == [];
    hide LE;
  }

  lemma PinnedFramings()
    ensures MaxWire(None) == [0xFF, 0xFF, 0xFF, 0xFF, 0xFF, 0xFF, 0xFF, 0xFF]
    ensures MaxWire(Some([])) == [0xFE, 0xFF, 0xFF, 0xFF, 0xFF, 0xFF, 0xFF, 0xFF, 0, 0, 0, 0]
    ensures BoundedWire(None) == [0xFF, 0xFF]
    ensures PrefixedWire(None) == [0] && FixedWire(true, None) == [0]
  {
    ZeroBytes();
    hide LE;
  }

  // --------------------------------------------------------------- cells

  /** The SQL Server cells a column of type `ty` can carry. */
  ghost predicate CellOf(ty: MssqlType, nullable: bool, cell: MssqlCell) {
    match (ty, cell)
    case (Bit, BitCell(v)) => v.None? ==> nullable
    case (TinyInt, TinyIntCell(v)) => if v.None? then nullable else 0 <= v.value < 0x100
    case (SmallInt, SmallIntCell(v)) => if v.None? then nullable else FitsSigned(v.value, 2)
    case (Int, IntCell(v)) => if v.None? then nullable else FitsSigned(v.value, 4)
    case (BigInt, BigIntCell(v)) => if v.None? then nullable else FitsSigned(v.value, 8)
    case (Real, RealCell(v)) => if v.None? then nullable else |v.value| == 4
    case (Float(_), FloatCell(v)) => if v.None? then nullable else |v.value| == 8
    case (Decimal(_, scale), DecimalCell(v)) => if v.None? then nullable else FitsI128(v.value.unscaled) && v.value.scale == scale
    case (Date, DateCell(v)) => if v.None? then nullable else v.value <= DATE_MAX_DAYS
    case (Time(p), TimeCell(v)) => if v.None? then nullable else ValidTime(v.value) && v.value.scale == p
    case (DateTime, DateTimeCell(v)) => if v.None? then nullable else ValidDateTime(v.value)
    case (DateTime2(p), DateTime2Cell(v)) => if v.None? then nullable else ValidDateTime2(v.value) && v.value.time.scale == p
    case (DateTimeOffset(p), DateTimeOffsetCell(v)) => if v.None? then nullable else p == 7 && ValidDateTimeOffset(v.value)
    case (NVarChar(_), NVarCharCell(v)) => if v.None? then nullable else CodeUnits(v.value)
    case (VarBinary(_), VarBinaryCell(v)) => v.None? ==> nullable
    case (FixedBinary(_), VarBinaryCell(v)) => v.None? ==> nullable
    case _ => false
  }

  /** The payload length limit of a column's framing. */
  function PayloadLimit(ty: MssqlType): nat {
    if (ty.NVarChar? || ty.VarBinary?) && ty.length.Max? then 0xFFFF_FFFF else 0xFFFE
  }

  /** The framing can carry the cell without meeting its null marker. */
  predicate Framed(ty: MssqlType, cell: MssqlCell) {
    match cell
    case NVarCharCell(Some(units)) => 2 * |units| <= PayloadLimit(ty)
    case VarBinaryCell(Some(data)) => |data| <= PayloadLimit(ty)
    case _ => true
  }

  function MapSome<A, B>(v: Option<A>, f: A -> B): Option<B> {
    if v.Some? then Some(f(v.value)) else None
  }

  /** The byte strings inside the framing. */
  function Content(cell: MssqlCell): Option<seq<byte>> {
    match cell
    case BitCell(v) => MapSome(v, b => if b then [1] else [0])
    case TinyIntCell(v) => MapSome(v, (n: int) => SignedLE(n, 1))
    case SmallIntCell(v) => MapSome(v, (n: int) => SignedLE(n, 2))
    case IntCell(v) => MapSome(v, (n: int) => SignedLE(n, 4))
    case BigIntCell(v) => MapSome(v, (n: int) => SignedLE(n, 8))
    case RealCell(v) => v
    case FloatCell(v) => v
    case DecimalCell(v) => MapSome(v, (d: MssqlDecimal) => DecimalBytes(d.unscaled))
    case DateCell(v) => MapSome(v, (days: nat) => LE(days, 3))
    case TimeCell(v) => MapSome(v, (t: MssqlTime) => LE(t.increments, TimeLen(t.scale)))
    case DateTimeCell(v) => MapSome(v, (d: MssqlDateTime) => DateTimeBytes(d))
    case DateTime2Cell(v) => MapSome(v, (d: MssqlDateTime2) => DateTime2Bytes(d))
    case DateTimeOffsetCell(v) => MapSome(v, (d: MssqlDateTimeOffset) => OffsetBytes(d))
    case NVarCharCell(v) => MapSome(v, (units: seq<nat>) => UnitsToBytes(units))
    case VarBinaryCell(v) => v
  }

  /** How a column frames its cells. */
  datatype Framing = Fixed(width: nat) | Prefixed | Variable(length: TypeLength)

  function FramingOf(ty: MssqlType): Framing {
    match ty
    case Bit | TinyInt => Fixed(1)
    case SmallInt => Fixed(2)
    case Int | Real => Fixed(4)
    case BigInt | Float(_) | DateTime => Fixed(8)
    case NVarChar(length) => Variable(length)
    case VarBinary(length) => Variable(length)
    case FixedBinary(_) => Variable(Bounded(0))
    case _ => Prefixed
  }

  function Frame(framing: Framing, nullable: bool, content: Option<seq<byte>>): seq<byte>
    requires content.Some? && !framing.Variable? ==> |content.value| < 256
  {
    match framing
    case Fixed(_) => FixedWire(nullable, content)
    case Prefixed => PrefixedWire(content)
    case Variable(length) => VariableWire(length, content)
  }

  function Unframe(framing: Framing, nullable: bool, b: seq<byte>): Taken {
    match framing
    case Fixed(width) => TakeFixed(b, nullable, width)
    case Prefixed => TakePrefixed(b)
    case Variable(length) => TakeVariable(b, length)
  }

  lemma ContentShape(ty: MssqlType, nullable: bool, cell: MssqlCell)
    requires CellOf(ty, nullable, cell)
    ensures Content(cell).None? ==> nullable
    ensures Content(cell).Some? && FramingOf(ty).Fixed? ==> |Content(cell).value| == FramingOf(ty).width
    ensures Content(cell).Some? && FramingOf(ty).Prefixed? ==> 0 < |Content(cell).value| < 256
    ensures Content(cell).Some? && FramingOf(ty).Variable? ==>
      (Framed(ty, cell) <==> |Content(cell).value| <= PayloadLimit(ty))
  {
    hide LE, SignedLE, Digits, Pow10, UnitsToBytes, ValidTime, ValidDateTime, ValidDateTime2, ValidDateTimeOffset, CodeUnits;
  }

  /** A cell on the wire. */
  ghost function WireCell(ty: MssqlType, nullable: bool, cell: MssqlCell): seq<byte>
    requires CellOf(ty, nullable, cell)
  {
    ContentShape(ty, nullable, cell);
    Frame(FramingOf(ty), nullable, Content(cell))
  }

  // -------------------------------------------------------------- reader

  function Null(ty: MssqlType): MssqlCell {
    match ty
    case Bit => BitCell(None)
    case TinyInt => TinyIntCell(None)
    case SmallInt => SmallIntCell(None)
    case Int => IntCell(None)
    case BigInt => BigIntCell(None)
    case Real => RealCell(None)
    case Float(_) => FloatCell(None)
    case Decimal(_, _) => DecimalCell(None)
    case Date => DateCell(None)
    case Time(_) => TimeCell(None)
    case DateTime => DateTimeCell(None)
    case DateTime2(_) => DateTime2Cell(None)
    case DateTimeOffset(_) => DateTimeOffsetCell(None)
    case NVarChar(_) => NVarCharCell(None)
    case VarBinary(_) | FixedBinary(_) => VarBinaryCell(None)
  }

  function ReadContent(ty: MssqlType, b: seq<byte>): Option<MssqlCell> {
    match ty
    case Bit => if |b| == 1 then Some(BitCell(Some(b[0] != 0))) else None
    case TinyInt => Some(TinyIntCell(Some(FromLE(b))))
    case SmallInt => Some(SmallIntCell(Some(FromSignedLE(b))))
    case Int => Some(IntCell(Some(FromSignedLE(b))))
    case BigInt => Some(BigIntCell(Some(FromSignedLE(b))))
    case Real => Some(RealCell(Some(b)))
    case Float(_) => Some(FloatCell(Some(b)))
    case Decimal(_, scale) =>
      if scale < 0 then None else MapSome(ReadDecimal(b), (n: int) => DecimalCell(Some(MssqlDecimal(n, scale))))
    case Date => Some(DateCell(Some(FromLE(b))))
    case Time(p) => Some(TimeCell(Some(MssqlTime(FromLE(b), p))))
    case DateTime => MapSome(ReadDateTime(b), d => DateTimeCell(Some(d)))
    case DateTime2(p) => MapSome(ReadDateTime2(b, p), d => DateTime2Cell(Some(d)))
    case DateTimeOffset(p) => MapSome(ReadOffset(b, p), d => DateTimeOffsetCell(Some(d)))
    case NVarChar(_) => if |b| % 2 == 0 then Some(NVarCharCell(Some(BytesToUnits(b)))) else None
    case VarBinary(_) | FixedBinary(_) => Some(VarBinaryCell(Some(b)))
  }

  /** Reads one cell of a column; the column's type and nullability are all it needs. */
  function ReadCell(ty: MssqlType, nullable: bool, b: seq<byte>): Option<(MssqlCell, seq<byte>)> {
    match Unframe(FramingOf(ty), nullable, b)
    case None => None
    case Some((None, rest)) => Some((Null(ty), rest))
    case Some((Some(content), rest)) =>
      var cell := ReadContent(ty, content);
      if cell.None? then None else Some((cell.value, rest))
  }

  lemma UnframeInverts(framing: Framing, nullable: bool, content: Option<seq<byte>>, limit: nat, rest: seq<byte>)
    requires content.None? ==> nullable
    requires content.Some? && framing.Fixed? ==> |content.value| == framing.width
    requires content.Some? && framing.Prefixed? ==> 0 < |content.value| < 256
    requires framing.Fixed? ==> 0 < framing.width < 256
    requires framing.Variable? ==> limit < if framing.length.Max? then 0x1_0000_0000 else BOUNDED_NULL
    requires content.Some? && framing.Variable? ==> |content.value| <= limit
    ensures Unframe(framing, nullable, Frame(framing, nullable, content) + rest) == Some((content, rest))
  {
    match framing
    case Fixed(width) => TakeFixedInverts(nullable, width, content, rest);
    case Prefixed => TakePrefixedInverts(content, rest);
    case Variable(length) => TakeVariableInverts(length, content, rest);
  }

  lemma IntegerContentRoundTrip(ty: MssqlType, nullable: bool, cell: MssqlCell)
    requires CellOf(ty, nullable, cell) && Content(cell).Some?
    requires ty.Bit? || ty.TinyInt? || ty.SmallInt? || ty.Int? || ty.BigInt?
    ensures ReadContent(ty, Content(cell).value) == Some(cell)
  {
    PowersOf256();
    match cell {
      case BitCell(_) =>
      case TinyIntCell(v) =>
        LERoundTrip(v.value, 1);
      case SmallIntCell(v) =>
        SignedRoundTrip(v.value, 2);
      case IntCell(v) =>
        SignedRoundTrip(v.value, 4);
      case BigIntCell(v) =>
        SignedRoundTrip(v.value, 8);
    }
    hide LE, FromLE, SignedLE, FromSignedLE;
  }

  lemma TemporalContentRoundTrip(ty: MssqlType, nullable: bool, cell: MssqlCell)
    requires CellOf(ty, nullable, cell) && Content(cell).Some?
    requires ty.Date? || ty.Time? || ty.DateTime? || ty.DateTime2? || ty.DateTimeOffset?
    ensures ReadContent(ty, Content(cell).value) == Some(cell)
  {
    match cell {
      case DateCell(v) =>
        PowersOf256();
        LERoundTrip(v.value, 3);
      case TimeCell(v) =>
        IncrementsFit(v.value);
        LERoundTrip(v.value.increments, TimeLen(v.value.scale));
      case DateTimeCell(v) =>
        DateTimeRoundTrip(v.value);
      case DateTime2Cell(v) =>
        DateTime2RoundTrip(v.value);
      case DateTimeOffsetCell(v) =>
        OffsetRoundTrip(v.value);
    }
    hide LE, FromLE, OffsetBytes, ReadOffset, DateTime2Bytes, ReadDateTime2, DateTimeBytes, ReadDateTime;
  }

  lemma ContentRoundTrip(ty: MssqlType, nullable: bool, cell: MssqlCell)
    requires CellOf(ty, nullable, cell) && Content(cell).Some?
    ensures ReadContent(ty, Content(cell).value) == Some(cell)
  {
    if ty.Bit? || ty.TinyInt? || ty.SmallInt? || ty.Int? || ty.BigInt? {
      IntegerContentRoundTrip(ty, nullable, cell);
    } else if ty.Date? || ty.Time? || ty.DateTime? || ty.DateTime2? || ty.DateTimeOffset? {
      TemporalContentRoundTrip(ty, nullable, cell);
    } else {
      match cell {
        case DecimalCell(v) =>
          DecimalRoundTrip(v.value.unscaled);
        case NVarCharCell(v) =>
          UnitsRoundTrip(v.value);
        case _ =>
      }
      hide DecimalBytes, ReadDecimal, UnitsToBytes, BytesToUnits;
    }
  }

  /** Every framed cell is recovered, and the bytes after it are left untouched. */
  lemma CellRoundTrip(ty: MssqlType, nullable: bool, cell: MssqlCell, rest: seq<byte>)
    requires CellOf(ty, nullable, cell) && Framed(ty, cell)
    ensures ReadCell(ty, nullable, WireCell(ty, nullable, cell) + rest) == Some((cell, rest))
  {
    ContentShape(ty, nullable, cell);
    UnframeInverts(FramingOf(ty), nullable, Content(cell), PayloadLimit(ty), rest);
    if Content(cell).Some? {
      ContentRoundTrip(ty, nullable, cell);
    } else {
      NullContent(ty, nullable, cell);
    }
    hide Content, Frame, Unframe, ReadContent, Null, CellOf, Framed;
  }

  lemma NullContent(ty: MssqlType, nullable: bool, cell: MssqlCell)
    requires CellOf(ty, nullable, cell) && Content(cell).None?
    ensures cell == Null(ty)
  {
    hide LE, SignedLE, DecimalBytes, UnitsToBytes, OffsetBytes, DateTime2Bytes, DateTimeBytes;
  }
}
