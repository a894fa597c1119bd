/**
  The length and distance codes of section 3.2.5 of RFC 1951, and that the tables of lib/inflate.c are theirs: every
  length and every distance is written in exactly one way.
 */
module InflateAlphabet {
  import opened Bits
  import opened InflateWindow
  import opened InflateRfc

  /** The extra bits of length code `i`, from symbol 257 on: four codes for each number of bits, from the ninth on. */
  function LengthBits(i: nat): nat {
    if i < 8 || i == 28 then 0 else (i - 4) / 4
  }

  /** The extra bits of distance code `i`: two codes for each number of bits, from the third on. */
  function DistanceBits(i: nat): nat {
    if i < 2 then 0 else (i - 2) / 2
  }

  /** Each code begins where the one before it ends. */
  ghost predicate Stepwise(base: seq<nat>, extra: seq<nat>, k: nat) {
    && k < |base| && k <= |extra|
    && forall i {:trigger Next(base, extra, i)} :: 0 <= i < k ==> Next(base, extra, i)
  }

  ghost predicate Next(base: seq<nat>, extra: seq<nat>, i: nat)
    requires i + 1 < |base| && i < |extra|
  {
    base[i + 1] == base[i] + Pow2(extra[i])
  }

  /** Lengths begin with 3 and end with 258, which has a code of its own; distances begin with 1 and fill the window. */
  ghost predicate Standard(al: Alphabet) {
    && |al.lengthBase| == |al.lengthExtra| == 31 && |al.distanceBase| == |al.distanceExtra| == 30
    && (forall i :: 0 <= i < 29 ==> al.lengthExtra[i] == LengthBits(i))
    && (forall i :: 0 <= i < 30 ==> al.distanceExtra[i] == DistanceBits(i))
    && al.lengthBase[0] == 3 && Stepwise(al.lengthBase, al.lengthExtra, 27) && al.lengthBase[28] == 258
    && al.distanceBase[0] == 1 && Stepwise(al.distanceBase, al.distanceExtra, 29)
  }

  /** Two codes of `d` numbers each, from code `i` on. */
  ghost predicate Two(b: seq<nat>, i: nat, d: nat) {
    i + 2 < |b| && b[i + 1] == b[i] + d && b[i + 2] == b[i + 1] + d
  }

  ghost predicate Four(b: seq<nat>, i: nat, d: nat) {
    Two(b, i, d) && Two(b, i + 2, d)
  }

  lemma Lengths0(b: seq<nat>)
    requires b == DEFLATE.lengthBase
    ensures |b| == 31 && b[0] == 3 && Four(b, 0, 1)
  {
  }

  lemma Lengths4(b: seq<nat>)
    requires b == DEFLATE.lengthBase
    ensures |b| == 31 && Four(b, 4, 1)
  {
  }

  lemma Lengths8(b: seq<nat>)
    requires b == DEFLATE.lengthBase
    ensures |b| == 31 && Four(b, 8, 2)
  {
  }

  lemma Lengths12(b: seq<nat>)
    requires b == DEFLATE.lengthBase
    ensures |b| == 31 && Four(b, 12, 4)
  {
  }

  lemma Lengths16(b: seq<nat>)
    requires b == DEFLATE.lengthBase
    ensures |b| == 31 && Four(b, 16, 8) && Four(b, 20, 16)
  {
  }

  lemma Lengths24(b: seq<nat>)
    requires b == DEFLATE.lengthBase
    ensures |b| == 31 && Two(b, 24, 32) && b[27] == b[26] + 32 && b[28] == 258
  {
  }

  lemma Distances0(b: seq<nat>)
    requires b == DEFLATE.distanceBase
    ensures |b| == 30 && b[0] == 1 && Four(b, 0, 1)
  {
  }

  lemma Distances4(b: seq<nat>)
    requires b == DEFLATE.distanceBase
    ensures |b| == 30 && Two(b, 4, 2) && Two(b, 6, 4)
  {
  }

  lemma Distances8(b: seq<nat>)
    requires b == DEFLATE.distanceBase
    ensures |b| == 30 && Two(b, 8, 8) && Two(b, 10, 16) && Two(b, 12, 32) && Two(b, 14, 64)
  {
  }

  lemma Distances16(b: seq<nat>)
    requires b == DEFLATE.distanceBase
    ensures |b| == 30 && Two(b, 16, 128) && Two(b, 18, 256) && Two(b, 20, 512) && Two(b, 22, 1024)
  {
  }

  lemma Distances24(b: seq<nat>)
    requires b == DEFLATE.distanceBase
    ensures |b| == 30 && Two(b, 24, 2048) && Two(b, 26, 4096) && b[29] == b[28] + 8192
  {
  }

  lemma TwoNext(b: seq<nat>, e: seq<nat>, i: nat, d: nat)
    requires Two(b, i, d) && i + 1 < |e| && Pow2(e[i]) == Pow2(e[i + 1]) == d
    ensures Next(b, e, i) && Next(b, e, i + 1)
  {
  }

  lemma LengthsStepwise(b: seq<nat>, e: seq<nat>)
    requires |b| == |e| == 31 && Four(b, 0, 1) && Four(b, 4, 1) && Four(b, 8, 2) && Four(b, 12, 4) && Four(b, 16, 8)
      && Four(b, 20, 16) && Two(b, 24, 32) && b[27] == b[26] + 32
    requires forall i :: 0 <= i < 29 ==> e[i] == LengthBits(i)
    ensures Stepwise(b, e, 27)
  {
    SmallPowers();
    TwoNext(b, e, 0, 1);
    TwoNext(b, e, 2, 1);
    TwoNext(b, e, 4, 1);
    TwoNext(b, e, 6, 1);
    TwoNext(b, e, 8, 2);
    TwoNext(b, e, 10, 2);
    TwoNext(b, e, 12, 4);
    TwoNext(b, e, 14, 4);
    TwoNext(b, e, 16, 8);
    TwoNext(b, e, 18, 8);
    TwoNext(b, e, 20, 16);
    TwoNext(b, e, 22, 16);
    TwoNext(b, e, 24, 32);
    assert Next(b, e, 26);
  }

  lemma DistancesStepwise(b: seq<nat>, e: seq<nat>)
    requires |b| == |e| == 30 && Four(b, 0, 1) && Two(b, 4, 2) && Two(b, 6, 4) && Two(b, 8, 8) && Two(b, 10, 16)
      && Two(b, 12, 32) && Two(b, 14, 64) && Two(b, 16, 128) && Two(b, 18, 256) && Two(b, 20, 512) && Two(b, 22, 1024)
      && Two(b, 24, 2048) && Two(b, 26, 4096) && b[29] == b[28] + 8192
    requires forall i :: 0 <= i < 30 ==> e[i] == DistanceBits(i)
    ensures Stepwise(b, e, 29)
  {
    SmallPowers();
    TwoNext(b, e, 0, 1);
    TwoNext(b, e, 2, 1);
    TwoNext(b, e, 4, 2);
    TwoNext(b, e, 6, 4);
    TwoNext(b, e, 8, 8);
    TwoNext(b, e, 10, 16);
    TwoNext(b, e, 12, 32);
    TwoNext(b, e, 14, 64);
    TwoNext(b, e, 16, 128);
    TwoNext(b, e, 18, 256);
    TwoNext(b, e, 20, 512);
    TwoNext(b, e, 22, 1024);
    TwoNext(b, e, 24, 2048);
    TwoNext(b, e, 26, 4096);
    assert Next(b, e, 28);
  }

  lemma LengthExtras(e: seq<nat>, i: nat)
    requires e == DEFLATE.lengthExtra && i < 29
    ensures |e| == 31 && e[i] == LengthBits(i)
  {
  }

  lemma DistanceExtras(e: seq<nat>, i: nat)
    requires e == DEFLATE.distanceExtra && i < 30
    ensures |e| == 30 && e[i] == DistanceBits(i)
  {
  }

  lemma LengthTables(b: seq<nat>, e: seq<nat>)
    requires b == DEFLATE.lengthBase && e == DEFLATE.lengthExtra
    ensures |b| == |e| == 31 && (forall i :: 0 <= i < 29 ==> e[i] == LengthBits(i))
    ensures b[0] == 3 && b[28] == 258 && Stepwise(b, e, 27)
  {
    forall i | 0 <= i < 29 ensures e[i] == LengthBits(i) { LengthExtras(e, i); }
    Lengths0(b);
    Lengths4(b);
    Lengths8(b);
    Lengths12(b);
    Lengths16(b);
    Lengths24(b);
    LengthsStepwise(b, e);
  }

  lemma DistanceTables(b: seq<nat>, e: seq<nat>)
    requires b == DEFLATE.distanceBase && e == DEFLATE.distanceExtra
    ensures |b| == |e| == 30 && (forall i :: 0 <= i < 30 ==> e[i] == DistanceBits(i))
    ensures b[0] == 1 && Stepwise(b, e, 29)
  {
    forall i | 0 <= i < 30 ensures e[i] == DistanceBits(i) { DistanceExtras(e, i); }
    Distances0(b);
    Distances4(b);
    Distances8(b);
    Distances16(b);
    Distances24(b);
    DistancesStepwise(b, e);
  }

  /** The tables of lines 172-186 are those of RFC 1951. */
  lemma DeflateStandard(al: Alphabet)
    requires al == DEFLATE
    ensures Standard(al)
  {
    LengthTables(al.lengthBase, al.lengthExtra);
    DistanceTables(al.distanceBase, al.distanceExtra);
  }

  // ---------------------------------------------------------------- every number in one way

  /** Code `i` with the extra bits `x` stands for `n`. */
  ghost predicate Writes(base: seq<nat>, extra: seq<nat>, i: nat, x: nat, n: nat) {
    i < |base| && i < |extra| && x < Pow2(extra[i]) && base[i] + x == n
  }

  lemma {:induction false} Below(base: seq<nat>, extra: seq<nat>, k: nat, i: nat, j: nat)
    requires Stepwise(base, extra, k) && i < j <= k
    ensures base[i] + Pow2(extra[i]) <= base[j]
    decreases j
  {
    assert Next(base, extra, j - 1);
    if i < j - 1 { Below(base, extra, k, i, j - 1); }
  }

  lemma {:induction false} Locate(base: seq<nat>, extra: seq<nat>, k: nat, n: nat) returns (i: nat, x: nat)
    requires Stepwise(base, extra, k) && k < |extra| && base[0] <= n < base[k] + Pow2(extra[k])
    ensures i <= k && Writes(base, extra, i, x, n)
    decreases k
  {
    if base[k] <= n {
      i, x := k, n - base[k];
    } else {
      assert Next(base, extra, k - 1);
      i, x := Locate(base, extra, k - 1, n);
    }
  }

  /** A later code stands for something greater. */
  lemma Ascending(base: seq<nat>, extra: seq<nat>, k: nat, i: nat, x: nat, n: nat, j: nat, y: nat, m: nat)
    requires Stepwise(base, extra, k) && i < j <= k && Writes(base, extra, i, x, n) && Writes(base, extra, j, y, m)
    ensures n < m
  {
    Below(base, extra, k, i, j);
  }

  lemma OneWay(base: seq<nat>, extra: seq<nat>, k: nat, i: nat, x: nat, j: nat, y: nat, n: nat)
    requires Stepwise(base, extra, k) && i <= k && j <= k
    requires Writes(base, extra, i, x, n) && Writes(base, extra, j, y, n)
    ensures i == j && x == y
  {
    if i < j {
      Below(base, extra, k, i, j);
    } else if j < i {
      Below(base, extra, k, j, i);
    }
  }

  ghost predicate WritesDistance(i: nat, x: nat, n: nat) {
    Writes(DEFLATE.distanceBase, DEFLATE.distanceExtra, i, x, n)
  }

  ghost predicate WritesLength(i: nat, x: nat, n: nat) {
    i < 29 && Writes(DEFLATE.lengthBase, DEFLATE.lengthExtra, i, x, n)
  }

  /** The distances are those of the window, each has one code and one value of its extra bits, in ascending order. */
  lemma DistancesOnce(n: nat)
    ensures 1 <= n <= WSIZE <==> exists i: nat, x: nat :: WritesDistance(i, x, n)
    ensures forall i: nat, x: nat, j: nat, y: nat :: WritesDistance(i, x, n) && WritesDistance(j, y, n) ==>
      i == j && x == y
    ensures forall i: nat, x: nat, j: nat, y: nat, m: nat ::
      WritesDistance(i, x, n) && WritesDistance(j, y, m) && i < j ==> n < m
  {
    var base, extra := DEFLATE.distanceBase, DEFLATE.distanceExtra;
    DeflateStandard(DEFLATE);
    LastDistance(DEFLATE);
    if 1 <= n <= WSIZE {
      var i, x := Locate(base, extra, 29, n);
      assert WritesDistance(i, x, n);
    }
    forall i: nat, x: nat | WritesDistance(i, x, n) ensures 1 <= n <= WSIZE {
      if i > 0 { Below(base, extra, 29, 0, i); }
      if i < 29 { Below(base, extra, 29, i, 29); }
    }
    forall i: nat, x: nat, j: nat, y: nat, m: nat | WritesDistance(i, x, n) && WritesDistance(j, y, m) && i < j
      ensures n < m {
      Ascending(base, extra, 29, i, x, n, j, y, m);
    }
    forall i: nat, x: nat, j: nat, y: nat | WritesDistance(i, x, n) && WritesDistance(j, y, n)
      ensures i == j && x == y {
      OneWay(base, extra, 29, i, x, j, y, n);
    }
  }

  lemma LastDistance(al: Alphabet)
    requires al == DEFLATE
    ensures |al.distanceBase| == |al.distanceExtra| == 30
      && al.distanceBase[29] + Pow2(al.distanceExtra[29]) == WSIZE + 1
  {
    SmallPowers();
  }

  lemma LastLength(al: Alphabet)
    requires al == DEFLATE
    ensures |al.lengthBase| == |al.lengthExtra| == 31 && al.lengthBase[27] + Pow2(al.lengthExtra[27]) == 259
      && Pow2(al.lengthExtra[28]) == 1
  {
    SmallPowers();
  }

  /** The lengths from 3 to 258, each in one way; 258 has symbol 285, and is also the last that symbol 284 can write. */
  lemma LengthsOnce(n: nat)
    ensures 3 <= n <= 258 <==> exists i: nat, x: nat :: WritesLength(i, x, n)
    ensures n < 258 ==>
      forall i: nat, x: nat, j: nat, y: nat :: WritesLength(i, x, n) && WritesLength(j, y, n) ==> i == j && x == y
    ensures n == 258 ==> forall i: nat, x: nat :: WritesLength(i, x, n) <==> (i, x) == (28, 0) || (i, x) == (27, 31)
  {
    var base, extra := DEFLATE.lengthBase, DEFLATE.lengthExtra;
    DeflateStandard(DEFLATE);
    LastLength(DEFLATE);
    SmallPowers();
    if 3 <= n <= 258 {
      var i, x := Locate(base, extra, 27, n);
      assert WritesLength(i, x, n);
    }
    forall i: nat, x: nat | WritesLength(i, x, n) ensures 3 <= n <= 258 && (i < 27 ==> n < 227) {
      if 0 < i < 28 { Below(base, extra, 27, 0, i); }
      if i < 27 { Below(base, extra, 27, i, 27); }
    }
    forall i: nat, x: nat, j: nat, y: nat | n < 258 && WritesLength(i, x, n) && WritesLength(j, y, n)
      ensures i == j && x == y {
      OneWay(base, extra, 27, i, x, j, y, n);
    }
  }
}
