/** Little-endian integers and UTF-16 code units on the wire. */
module Bytes {
  import opened Basics

  function Pow256(n: nat): (r: nat)
    ensures r >= 1
  {
    if n == 0 then 1 else 256 * Pow256(n - 1)
  }

  /** The low `n` bytes of `v`, least significant first. */
  function LE(v: nat, n: nat): (r: seq<byte>)
    ensures |r| == n
    decreases n
  {
    if n == 0 then [] else [v % 256] + LE(v / 256, n - 1)
  }

  function FromLE(b: seq<byte>): nat {
    if |b| == 0 then 0 else b[0] + 256 * FromLE(b[1..])
  }

  lemma {:induction false} FromLEBound(b: seq<byte>)
    ensures FromLE(b) < Pow256(|b|)
  {
    if |b| != 0 {
      FromLEBound(b[1..]);
    }
  }

  lemma {:induction false} LERoundTrip(v: nat, n: nat)
    requires v < Pow256(n)
    ensures FromLE(LE(v, n)) == v
    decreases n
  {
    if n != 0 {
      LERoundTrip(v / 256, n - 1);
      assert LE(v, n)[1..] == LE(v / 256, n - 1);
    }
  }

  lemma LEStep(v: nat, n: nat)
    requires n > 0
    ensures LE(v, n) == [v % 256] + LE(v / 256, n - 1)
  {
  }

  lemma ShiftByte(lo: nat, hi: nat, p: nat)
    requires lo < 256 * p
    ensures (lo + 256 * p * hi) % 256 == lo % 256
    ensures (lo + 256 * p * hi) / 256 == lo / 256 + p * hi
    ensures lo / 256 < p
  {
    var k := p * hi;
    assert 256 * p * hi == 256 * k;
    assert (lo + 256 * k) / 256 == lo / 256 + k;
  }

  /** Writing the low and the high part one after the other is writing the whole. */
  lemma {:induction false} LEJoin(lo: nat, hi: nat, m: nat, n: nat)
    requires lo < Pow256(m)
    ensures LE(lo + Pow256(m) * hi, m + n) == LE(lo, m) + LE(hi, n)
    decreases m
  {
    if m != 0 {
      var p := Pow256(m - 1);
      ShiftByte(lo, hi, p);
      LEStep(lo + Pow256(m) * hi, m + n);
      LEStep(lo, m);
      assert Pow256(m) == 256 * p;
      hide LE, Pow256;
      LEJoin(lo / 256, hi, m - 1, n);
      assert [lo % 256] + (LE(lo / 256, m - 1) + LE(hi, n)) == ([lo % 256] + LE(lo / 256, m - 1)) + LE(hi, n);
    }
  }

  lemma FromLEStep(b: seq<byte>)
    requires |b| > 0
    ensures FromLE(b) == b[0] + 256 * FromLE(b[1..])
    ensures Pow256(|b|) == 256 * Pow256(|b| - 1)
  {
  }

  lemma {:induction false} FromLESplit(low: seq<byte>, high: seq<byte>)
    ensures FromLE(low + high) == FromLE(low) + Pow256(|low|) * FromLE(high)
  {
    if |low| == 0 {
      assert low + high == high;
    } else {
      FromLEStep(low);
      FromLEStep(low + high);
      hide FromLE, Pow256;
      FromLESplit(low[1..], high);
      assert (low + high)[1..] == low[1..] + high;
      Distribute(low[0], FromLE(low[1..]), Pow256(|low| - 1), FromLE(high));
    }
  }

  lemma Distribute(a: nat, f: nat, p: nat, h: nat)
    ensures a + 256 * (f + p * h) == (a + 256 * f) + 256 * p * h
  {
    assert 256 * (p * h) == 256 * p * h;
  }

  // ------------------------------------------------------------- signed

  /** Two's complement of `v` in `n` bytes. */
  function SignedLE(v: int, n: nat): (r: seq<byte>)
    ensures |r| == n
  {
    LE(if v >= 0 then v else if v + Pow256(n) >= 0 then v + Pow256(n) else 0, n)
  }

  function FromSignedLE(b: seq<byte>): int {
    var u := FromLE(b);
    if 2 * u >= Pow256(|b|) then u - Pow256(|b|) else u
  }

  predicate FitsSigned(v: int, n: nat) { 0 <= 2 * v + Pow256(n) && 2 * v < Pow256(n) }

  lemma SignedRoundTrip(v: int, n: nat)
    requires n > 0 && FitsSigned(v, n)
    ensures FromSignedLE(SignedLE(v, n)) == v
  {
    LERoundTrip(if v >= 0 then v else v + Pow256(n), n);
  }

  lemma PowersOf256()
    ensures Pow256(1) == 0x100 && Pow256(2) == 0x1_0000 && Pow256(3) == 0x100_0000 && Pow256(4) == 0x1_0000_0000
    ensures Pow256(5) == 0x100_0000_0000 && Pow256(8) == 0x1_0000_0000_0000_0000
    ensures Pow256(12) == 0x1_0000_0000_0000_0000_0000_0000
    ensures Pow256(16) == 0x1_0000_0000_0000_0000_0000_0000_0000_0000
  {
    assert Pow256(4) == 0x1_0000_0000;
    assert Pow256(8) == 0x1_0000_0000 * Pow256(4);
    assert Pow256(12) == 0x1_0000_0000 * Pow256(8);
    assert Pow256(16) == 0x1_0000_0000 * Pow256(12);
  }

  // ------------------------------------------------------------- UTF-16

  predicate CodeUnits(units: seq<nat>) {
    forall i :: 0 <= i < |units| ==> units[i] < 0x1_0000
  }

  function UnitsToBytes(units: seq<nat>): (r: seq<byte>)
    ensures |r| == 2 * |units|
  {
    if |units| == 0 then [] else LE(units[0], 2) + UnitsToBytes(units[1..])
  }

  function BytesToUnits(b: seq<byte>): seq<nat>
    requires |b| % 2 == 0
  {
    if |b| == 0 then [] else [FromLE(b[0..2])] + BytesToUnits(b[2..])
  }

  lemma {:induction false} UnitsRoundTrip(units: seq<nat>)
    requires CodeUnits(units)
    ensures BytesToUnits(UnitsToBytes(units)) == units
  {
    if |units| != 0 {
      var b := UnitsToBytes(units);
      assert b[0..2] == LE(units[0], 2);
      assert b[2..] == UnitsToBytes(units[1..]);
      PowersOf256();
      LERoundTrip(units[0], 2);
      UnitsRoundTrip(units[1..]);
      assert units == [units[0]] + units[1..];
    }
  }
}
