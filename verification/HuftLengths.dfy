/** Lists of code lengths: counting them, the Kraft sum, and the symbols in code order. */
module HuftLengths {
  import opened Bits
  import opened HuffmanCode

  const BMAX: nat := 16

  /** How many of the lengths are `k`. */
  function Count(b: seq<nat>, k: nat): nat {
    if |b| == 0 then 0 else Count(b[..|b| - 1], k) + if b[|b| - 1] == k then 1 else 0
  }

  /** The place of symbol `sym` among the symbols with codes of its length. */
  function Rank(b: seq<nat>, sym: nat): nat
    requires sym < |b|
  {
    Count(b[..sym], b[sym])
  }

  function CountsOf(b: seq<nat>): (c: seq<nat>)
    ensures |c| == BMAX + 1 && forall k :: 0 <= k <= BMAX ==> c[k] == Count(b, k)
  {
    seq(BMAX + 1, k requires 0 <= k <= BMAX => Count(b, k))
  }

  ghost predicate Lengths(b: seq<nat>) {
    1 <= |b| <= 288 && forall i :: 0 <= i < |b| ==> b[i] <= BMAX
  }

  /** The Kraft sum of the lengths, in units of `2^-BMAX`. */
  ghost function Kraft(b: seq<nat>): nat
    requires forall i :: 0 <= i < |b| ==> b[i] <= BMAX
  {
    if |b| == 0 then 0
    else Kraft(b[..|b| - 1]) + if b[|b| - 1] == 0 then 0 else Pow2(BMAX - b[|b| - 1])
  }

  ghost predicate AllZero(b: seq<nat>) {
    forall i :: 0 <= i < |b| ==> b[i] == 0
  }

  // ---------------------------------------------------------------- counting

  lemma CountStep(b: seq<nat>, n: nat, k: nat)
    requires n < |b|
    ensures Count(b[..n + 1], k) == Count(b[..n], k) + if b[n] == k then 1 else 0
  {
    assert b[..n + 1][..n] == b[..n];
  }

  lemma {:induction false} CountMono(b: seq<nat>, m: nat, n: nat, k: nat)
    requires m <= n <= |b|
    ensures Count(b[..m], k) <= Count(b[..n], k)
    decreases n
  {
    if m < n {
      CountMono(b, m, n - 1, k);
      CountStep(b, n - 1, k);
    }
  }

  /** Lines 331-338. */
  method CountLengths(b: seq<nat>) returns (c: seq<nat>)
    requires Lengths(b)
    ensures c == CountsOf(b)
  {
    c := seq(BMAX + 1, k => 0);
    var p := 0;
    while p < |b|
      invariant 0 <= p <= |b| && |c| == BMAX + 1
      invariant forall k :: 0 <= k <= BMAX ==> c[k] == Count(b[..p], k)
    {
      forall k | 0 <= k <= BMAX
        ensures Count(b[..p + 1], k) == Count(b[..p], k) + if b[p] == k then 1 else 0
      {
        CountStep(b, p, k);
      }
      c := c[b[p] := c[b[p]] + 1];
      p := p + 1;
    }
    assert b[..|b|] == b;
  }

  /** The sum of all counts is the number of symbols, so all lengths are zero exactly if that count says so. */
  lemma {:induction false} ZeroCount(b: seq<nat>)
    ensures Count(b, 0) <= |b| && (Count(b, 0) == |b| <==> AllZero(b))
  {
    if |b| > 0 {
      var b' := b[..|b| - 1];
      ZeroCount(b');
      assert b == b' + [b[|b| - 1]];
      assert AllZero(b) <==> AllZero(b') && b[|b| - 1] == 0;
    }
  }

  lemma {:induction false} CountWitness(b: seq<nat>, k: nat) returns (i: nat)
    requires Count(b, k) > 0
    ensures i < |b| && b[i] == k
  {
    i := |b| - 1;
    if b[i] != k {
      i := CountWitness(b[..i], k);
    }
  }

  lemma {:induction false} CountPositive(b: seq<nat>, i: nat)
    requires i < |b|
    ensures Count(b, b[i]) > 0
  {
    CountStep(b, i, b[i]);
    CountMono(b, i + 1, |b|, b[i]);
    assert b[..|b|] == b;
  }

  // ---------------------------------------------------------------- the Kraft sum

  /** `x << m` */
  ghost function Shl(x: nat, m: nat): nat
    decreases m
  {
    if m == 0 then x else 2 * Shl(x, m - 1)
  }

  lemma {:induction false} ShlAdd(x: nat, y: nat, m: nat)
    ensures Shl(x + y, m) == Shl(x, m) + Shl(y, m)
    decreases m
  {
    if m > 0 { ShlAdd(x, y, m - 1); }
  }

  lemma {:induction false} ShlTwice(x: nat, m: nat)
    ensures Shl(2 * x, m) == Shl(x, m + 1)
    decreases m
  {
    if m > 0 { ShlTwice(x, m - 1); }
  }

  lemma {:induction false} ShlPow2(k: nat, m: nat)
    ensures Shl(Pow2(k), m) == Pow2(k + m)
    decreases m
  {
    if m > 0 { ShlPow2(k, m - 1); }
  }

  lemma {:induction false} ShlOrder(x: nat, y: nat, m: nat)
    ensures (Shl(x, m) < Shl(y, m) <==> x < y) && (Shl(x, m) == Shl(y, m) <==> x == y)
    decreases m
  {
    if m > 0 { ShlOrder(x, y, m - 1); }
  }

  /** The Kraft sum of the codes of at most `k` bits, from the counts. */
  ghost function KraftOf(c: seq<nat>, k: nat): nat
    requires k < |c| && k <= BMAX
  {
    if k == 0 then 0 else KraftOf(c, k - 1) + Shl(c[k], BMAX - k)
  }

  lemma {:induction false} KraftOne(c: seq<nat>, c': seq<nat>, j: nat, k: nat)
    requires k < |c| == |c'| && k <= BMAX && 0 < j < |c| && j <= BMAX && c' == c[j := c[j] + 1]
    ensures KraftOf(c', k) == KraftOf(c, k) + if j <= k then Pow2(BMAX - j) else 0
    decreases k
  {
    if k > 0 {
      KraftOne(c, c', j, k - 1);
      if k == j {
        ShlAdd(c[j], 1, BMAX - j);
        ShlPow2(0, BMAX - j);
      }
    }
  }

  lemma {:induction false} KraftSame(c: seq<nat>, c': seq<nat>, k: nat)
    requires k < |c| && k < |c'| && k <= BMAX && forall j :: 1 <= j <= k ==> c[j] == c'[j]
    ensures KraftOf(c', k) == KraftOf(c, k)
    decreases k
  {
    if k > 0 { KraftSame(c, c', k - 1); }
  }

  lemma {:induction false} KraftZero(c: seq<nat>, k: nat)
    requires k < |c| && k <= BMAX && forall j :: 1 <= j <= k ==> c[j] == 0
    ensures KraftOf(c, k) == 0
    decreases k
  {
    if k > 0 {
      KraftZero(c, k - 1);
      ShlAdd(0, 0, BMAX - k);
    }
  }

  lemma {:induction false} KraftCounts(b: seq<nat>)
    requires forall i :: 0 <= i < |b| ==> b[i] <= BMAX
    ensures Kraft(b) == KraftOf(CountsOf(b), BMAX)
  {
    if |b| == 0 {
      KraftZero(CountsOf(b), BMAX);
    } else {
      var b', j := b[..|b| - 1], b[|b| - 1];
      KraftCounts(b');
      var c, c' := CountsOf(b'), CountsOf(b);
      assert c' == c[j := c[j] + 1];
      if j > 0 {
        KraftOne(c, c', j, BMAX);
      } else {
        KraftSame(c, c', BMAX);
      }
    }
  }

  /** The end of the codes of `k` bits measures the Kraft sum of the codes up to there. */
  lemma {:induction false} KraftEnd(c: seq<nat>, k: nat)
    requires 1 <= k < |c| && k <= BMAX
    ensures KraftOf(c, k) == Shl(EndCode(c, k), BMAX - k)
    decreases k
  {
    if k == 1 {
      assert KraftOf(c, 0) == 0;
    } else {
      KraftEnd(c, k - 1);
      ShlTwice(EndCode(c, k - 1), BMAX - k);
      ShlAdd(2 * EndCode(c, k - 1), c[k], BMAX - k);
    }
  }

  lemma {:induction false} KraftTail(c: seq<nat>, g: nat, k: nat)
    requires g <= k < |c| && k <= BMAX && forall j :: g < j <= k ==> c[j] == 0
    ensures KraftOf(c, k) == KraftOf(c, g)
    decreases k
  {
    if k > g {
      KraftTail(c, g, k - 1);
      ShlAdd(0, 0, BMAX - k);
    }
  }

  lemma EndOrder(c: seq<nat>, g: nat)
    requires 1 <= g <= BMAX < |c| && forall j :: g < j <= BMAX ==> c[j] == 0
    ensures KraftOf(c, BMAX) == Shl(EndCode(c, g), BMAX - g)
  {
    KraftTail(c, g, BMAX);
    KraftEnd(c, g);
  }

  lemma FullOrder(e: nat, g: nat, n: nat)
    requires g <= n
    ensures Shl(e, n - g) > Pow2(n) <==> e > Pow2(g)
    ensures Shl(e, n - g) == Pow2(n) <==> e == Pow2(g)
  {
    ShlPow2(g, n - g);
    ShlOrder(Pow2(g), e, n - g);
  }

  /** A set of lengths is oversubscribed exactly if its codes run past the last pattern of `g` bits. */
  lemma OversubscribedEnd(b: seq<nat>, g: nat)
    requires Lengths(b) && 1 <= g <= BMAX && forall j :: g < j <= BMAX ==> Count(b, j) == 0
    ensures Kraft(b) > Pow2(BMAX) <==> EndCode(CountsOf(b), g) > Pow2(g)
    ensures Kraft(b) == Pow2(BMAX) <==> EndCode(CountsOf(b), g) == Pow2(g)
  {
    KraftCounts(b);
    EndOrder(CountsOf(b), g);
    FullOrder(EndCode(CountsOf(b), g), g, BMAX);
  }
}
