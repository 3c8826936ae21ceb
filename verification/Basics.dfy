/** Vocabulary shared by every part of the model: results, checked machine
    arithmetic, sums and concatenations over sequences. */
module Basics {

  datatype Option<+T> = None | Some(value: T)

  datatype Result<+T, +E> = Ok(value: T) | Err(error: E)

  type byte = x: int | 0 <= x < 256

  // `usize` and `u64` of a 64-bit build.
  const USIZE_MAX: nat := 0xFFFF_FFFF_FFFF_FFFF
  const U64_MAX: nat := 0xFFFF_FFFF_FFFF_FFFF

  /** `usize::checked_add`. */
  function CheckedAdd(a: nat, b: nat): Option<nat> {
    if a + b <= USIZE_MAX then Some(a + b) else None
  }

  /** `usize::checked_mul`. */
  function CheckedMul(a: nat, b: nat): Option<nat> {
    if a * b <= USIZE_MAX then Some(a * b) else None
  }

  function Min(a: int, b: int): int {
    if a <= b then a else b
  }

  predicate IsDigit(c: char) { '0' <= c <= '9' }

  // ---------------------------------------------------------------- sums

  function Sum(s: seq<nat>): nat {
    if |s| == 0 then 0 else s[0] + Sum(s[1..])
  }

  lemma {:induction false} SumConcat(a: seq<nat>, b: seq<nat>)
    ensures Sum(a + b) == Sum(a) + Sum(b)
  {
    if |a| == 0 {
      assert a + b == b;
    } else {
      assert (a + b)[1..] == a[1..] + b;
      SumConcat(a[1..], b);
    }
  }

  lemma SumSplit(s: seq<nat>, i: nat, j: nat, k: nat)
    requires i <= j <= k <= |s|
    ensures Sum(s[i..k]) == Sum(s[i..j]) + Sum(s[j..k])
  {
    assert s[i..k] == s[i..j] + s[j..k];
    SumConcat(s[i..j], s[j..k]);
  }

  lemma SumStep(s: seq<nat>, i: nat, j: nat)
    requires i <= j < |s|
    ensures Sum(s[i..j + 1]) == Sum(s[i..j]) + s[j]
  {
    SumSplit(s, i, j, j + 1);
    assert s[j..j + 1] == [s[j]];
    assert Sum([s[j]]) == s[j] + Sum([]);
  }

  lemma SumNone(s: seq<nat>, i: nat)
    requires i <= |s|
    ensures Sum(s[i..i]) == 0
  {
    assert s[i..i] == [];
  }

  lemma SumOne(s: seq<nat>, i: nat)
    requires i < |s|
    ensures Sum(s[i..i + 1]) == s[i]
  {
    SumStep(s, i, i);
  }

  /** A window inside another window sums to no more. */
  lemma SumWindow(s: seq<nat>, i: nat, i': nat, j': nat, j: nat)
    requires i <= i' <= j' <= j <= |s|
    ensures Sum(s[i'..j']) <= Sum(s[i..j])
  {
    SumSplit(s, i, i', j);
    SumSplit(s, i', j', j);
  }

  // ------------------------------------------------------- concatenation

  lemma Associates<T>(a: seq<T>, b: seq<T>, c: seq<T>)
    ensures (a + b) + c == a + (b + c)
  {
  }

  function Flatten<T>(ss: seq<seq<T>>): seq<T> {
    if |ss| == 0 then [] else ss[0] + Flatten(ss[1..])
  }

  function Lengths<T>(ss: seq<seq<T>>): (r: seq<nat>)
    ensures |r| == |ss|
  {
    seq(|ss|, i requires 0 <= i < |ss| => |ss[i]|)
  }

  lemma {:induction false} FlattenConcat<T>(a: seq<seq<T>>, b: seq<seq<T>>)
    ensures Flatten(a + b) == Flatten(a) + Flatten(b)
  {
    if |a| == 0 {
      assert a + b == b;
    } else {
      assert (a + b)[1..] == a[1..] + b;
      FlattenConcat(a[1..], b);
    }
  }

  lemma FlattenStep<T>(ss: seq<seq<T>>, i: nat)
    requires i < |ss|
    ensures Flatten(ss[..i + 1]) == Flatten(ss[..i]) + ss[i]
  {
    assert ss[..i + 1] == ss[..i] + [ss[i]];
    FlattenConcat(ss[..i], [ss[i]]);
    assert Flatten([ss[i]]) == ss[i] + Flatten([]);
  }

  lemma {:induction false} FlattenLength<T>(ss: seq<seq<T>>)
    ensures |Flatten(ss)| == Sum(Lengths(ss))
  {
    if |ss| != 0 {
      FlattenLength(ss[1..]);
      assert Lengths(ss)[1..] == Lengths(ss[1..]);
    }
  }

  /** Segment `i` of a concatenation starts where the earlier segments end. */
  lemma {:induction false} FlattenSegment<T>(ss: seq<seq<T>>, i: nat)
    requires i < |ss|
    ensures Sum(Lengths(ss)[..i]) + |ss[i]| <= |Flatten(ss)|
    ensures Flatten(ss)[Sum(Lengths(ss)[..i])..Sum(Lengths(ss)[..i]) + |ss[i]|] == ss[i]
  {
    var p := Flatten(ss[..i]);
    FlattenLength(ss[..i]);
    assert Lengths(ss)[..i] == Lengths(ss[..i]);
    assert ss == ss[..i] + ([ss[i]] + ss[i + 1..]);
    FlattenConcat(ss[..i], [ss[i]] + ss[i + 1..]);
    assert ([ss[i]] + ss[i + 1..])[1..] == ss[i + 1..];
    assert Flatten(ss) == p + (ss[i] + Flatten(ss[i + 1..]));
  }

  /** Bytes that carry every segment at its place and nothing else are the
      concatenation. */
  lemma {:induction false} SegmentsDetermine<T>(bytes: seq<T>, ss: seq<seq<T>>)
    requires |bytes| == Sum(Lengths(ss))
    requires forall i :: 0 <= i < |ss| ==>
      Sum(Lengths(ss)[..i]) + |ss[i]| <= |bytes| &&
      bytes[Sum(Lengths(ss)[..i])..Sum(Lengths(ss)[..i]) + |ss[i]|] == ss[i]
    ensures bytes == Flatten(ss)
  {
    if |ss| != 0 {
      var n := |ss[0]|;
      var tail := ss[1..];
      assert Lengths(ss)[..0] == [];
      assert bytes[0..n] == ss[0];
      assert Lengths(ss)[1..] == Lengths(tail);
      var rest := bytes[n..];
      forall i | 0 <= i < |tail|
        ensures Sum(Lengths(tail)[..i]) + |tail[i]| <= |rest|
        ensures rest[Sum(Lengths(tail)[..i])..Sum(Lengths(tail)[..i]) + |tail[i]|] == tail[i]
      {
        var at := Sum(Lengths(ss)[..i + 1]);
        assert Lengths(ss)[..i + 1] == [n] + Lengths(tail)[..i];
        assert at == n + Sum(Lengths(tail)[..i]);
        assert tail[i] == ss[i + 1];
        assert bytes[at..at + |ss[i + 1]|] == ss[i + 1];
      }
      SegmentsDetermine(rest, tail);
      assert bytes == bytes[0..n] + rest;
    }
  }

  // ------------------------------------------------- row-major addressing

  /** Position of cell (row, column) in a row-major matrix. */
  function CellIndex(row: nat, column: nat, columnCount: nat): nat {
    row * columnCount + column
  }

  lemma CellIndexBound(row: nat, column: nat, rowCount: nat, columnCount: nat)
    requires row < rowCount && column < columnCount
    ensures CellIndex(row, column, columnCount) < rowCount * columnCount
  {
    assert (row + 1) * columnCount <= rowCount * columnCount;
  }

  lemma CellIndexInjective(r: nat, c: nat, r': nat, c': nat, columnCount: nat)
    requires c < columnCount && c' < columnCount
    requires r != r' || c != c'
    ensures CellIndex(r, c, columnCount) != CellIndex(r', c', columnCount)
  {
    if r < r' {
      assert (r + 1) * columnCount <= r' * columnCount;
    } else if r' < r {
      assert (r' + 1) * columnCount <= r * columnCount;
    }
  }
}
