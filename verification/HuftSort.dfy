/** The first half of `huft_build`: bounds on the lengths, spare codes, and the symbols in code order. */
module HuftSort {
  import opened Bits
  import opened HuffmanCode
  import opened HuftLengths

  const N_MAX: nat := 288

  function Clamp(m: nat, low: nat, high: nat): nat {
    if m < low then low else if m > high then high else m
  }

  /** Lines 350-363: the shortest and the longest length in use, and the table size between them. */
  method Bounds(c: seq<nat>, m: nat) returns (kmin: nat, g: nat, l: nat)
    requires |c| == BMAX + 1 && exists k :: 1 <= k <= BMAX && c[k] > 0
    ensures 1 <= kmin <= g <= BMAX && c[kmin] > 0 && c[g] > 0
    ensures forall k :: 1 <= k <= BMAX && c[k] > 0 ==> kmin <= k <= g
    ensures l == Clamp(m, kmin, g)
  {
    l, kmin := m, 1;
    while kmin <= BMAX && c[kmin] == 0
      invariant 1 <= kmin <= BMAX + 1 && forall k :: 1 <= k < kmin ==> c[k] == 0
    {
      kmin := kmin + 1;
    }
    if l < kmin {
      l := kmin;
    }
    g := BMAX;
    while g > 0 && c[g] == 0
      invariant 0 <= g <= BMAX && forall k :: g < k <= BMAX ==> c[k] == 0
    {
      g := g - 1;
    }
    if l > g {
      l := g;
    }
  }

  lemma {:induction false} OverMono(c: seq<nat>, j: nat, g: nat)
    requires 1 <= j <= g < |c| && EndCode(c, j) > Pow2(j)
    ensures EndCode(c, g) > Pow2(g)
    decreases g - j
  {
    if j < g {
      assert Pow2(j + 1) == 2 * Pow2(j);
      OverMono(c, j + 1, g);
    }
  }

  lemma {:induction false} FirstCode(c: seq<nat>, k: nat)
    requires 1 <= k <= |c| && forall j :: 1 <= j < k ==> c[j] == 0
    ensures NextCode(c, k) == 0
    decreases k
  {
    if k > 1 { FirstCode(c, k - 1); }
  }

  /** Lines 368-376: how many patterns the codes leave over, unless there are too many codes. */
  method Spare(c: seq<nat>, kmin: nat, g: nat) returns (ok: bool, y: int)
    requires 1 <= kmin <= g < |c| && forall j :: 1 <= j < kmin ==> c[j] == 0
    ensures ok <==> EndCode(c, g) <= Pow2(g)
    ensures ok ==> y == Pow2(g) - EndCode(c, g)
  {
    FirstCode(c, kmin);
    var j := kmin;
    y := Pow2(j);
    while j < g
      invariant kmin <= j <= g && y == Pow2(j) - NextCode(c, j)
    {
      y := y - c[j];
      if y < 0 {
        OverMono(c, j, g);
        return false, y;
      }
      j, y := j + 1, 2 * y;
    }
    y := y - c[g];
    ok := y >= 0;
  }

  /** Lines 382-386: where the symbols of each length start. */
  method Offsets(c: seq<nat>, g: nat) returns (x: seq<nat>)
    requires |c| == BMAX + 1 && 1 <= g <= BMAX
    ensures |x| == BMAX + 1 && forall k :: 1 <= k <= g ==> x[k] == Base(c, k)
  {
    x := seq(BMAX + 1, k => 0);
    var j, p := 0, 1;
    while p < g
      invariant 1 <= p <= g && j == Base(c, p) && |x| == BMAX + 1
      invariant forall k :: 1 <= k <= p ==> x[k] == Base(c, k)
    {
      j := j + c[p];
      x := x[p + 1 := j];
      p := p + 1;
    }
  }

  // ---------------------------------------------------------------- symbols in code order

  /** The place for code number `r` of `k` bits holds the symbol of that length and rank. */
  ghost predicate Slot(b: seq<nat>, c: seq<nat>, v: seq<nat>, k: nat, r: nat)
    requires 1 <= k <= |c|
  {
    && Base(c, k) + r < |v|
    && var sym := v[Base(c, k) + r];
       sym < |b| && b[sym] == k && Rank(b, sym) == r
  }

  ghost predicate Slots(b: seq<nat>, c: seq<nat>, g: nat, v: seq<nat>, n: nat)
    requires n <= |b| && g < |c|
  {
    forall k, r {:trigger Slot(b, c, v, k, r)} :: 1 <= k <= g && 0 <= r < Count(b[..n], k) ==> Slot(b, c, v, k, r)
  }

  lemma {:induction false} BaseMono(c: seq<nat>, j: nat, k: nat)
    requires 1 <= j < k <= |c|
    ensures Base(c, j) + c[j] <= Base(c, k)
    decreases k
  {
    if j < k - 1 { BaseMono(c, j, k - 1); }
  }

  lemma {:induction false} BaseOne(c: seq<nat>, c': seq<nat>, j: nat, k: nat)
    requires 1 <= k <= |c| == |c'| && j < |c| && c' == c[j := c[j] + 1]
    ensures Base(c', k) == Base(c, k) + if 1 <= j < k then 1 else 0
    decreases k
  {
    if k > 1 { BaseOne(c, c', j, k - 1); }
  }

  lemma {:induction false} BaseZero(c: seq<nat>, k: nat)
    requires 1 <= k <= |c| && forall j :: 0 <= j < |c| ==> c[j] == 0
    ensures Base(c, k) == 0
    decreases k
  {
    if k > 1 { BaseZero(c, k - 1); }
  }

  /** The codes shorter than `k` bits are no more than there are symbols. */
  lemma {:induction false} BaseBound(b: seq<nat>, k: nat)
    requires 1 <= k <= BMAX + 1 && forall i :: 0 <= i < |b| ==> b[i] <= BMAX
    ensures Base(CountsOf(b), k) <= |b|
  {
    if |b| == 0 {
      BaseZero(CountsOf(b), k);
    } else {
      var b', j := b[..|b| - 1], b[|b| - 1];
      BaseBound(b', k);
      var c, c' := CountsOf(b'), CountsOf(b);
      assert c' == c[j := c[j] + 1];
      BaseOne(c, c', j, k);
    }
  }

  lemma PlaceBound(b: seq<nat>, sym: nat)
    requires Lengths(b) && sym < |b| && b[sym] > 0
    ensures var k := b[sym]; Rank(b, sym) < Count(b, k) && Base(CountsOf(b), k) + Rank(b, sym) < |b|
  {
    var k := b[sym];
    CountStep(b, sym, k);
    CountMono(b, sym + 1, |b|, k);
    assert b[..|b|] == b;
    BaseBound(b, k + 1);
  }

  lemma SlotsStep(b: seq<nat>, g: nat, v: seq<nat>, v': seq<nat>, i: nat, k: nat, r: nat)
    requires Lengths(b) && 1 <= g <= BMAX && i < |b| && b[i] <= g && |v| == N_MAX && Slots(b, CountsOf(b), g, v, i)
    requires b[i] > 0 ==>
      Base(CountsOf(b), b[i]) + Rank(b, i) < |v| && v' == v[Base(CountsOf(b), b[i]) + Rank(b, i) := i]
    requires b[i] == 0 ==> v' == v
    requires 1 <= k <= g && 0 <= r < Count(b[..i + 1], k)
    ensures Slot(b, CountsOf(b), v', k, r)
  {
    var c := CountsOf(b);
    CountStep(b, i, k);
    if b[i] != k || r != Rank(b, i) {
      assert Slot(b, c, v, k, r);
      CountMono(b, i, |b|, k);
      assert b[..|b|] == b;
      if b[i] > 0 {
        PlaceBound(b, i);
        if b[i] < k { BaseMono(c, b[i], k); }
        if k < b[i] { BaseMono(c, k, b[i]); }
      }
    }
  }

  lemma SlotsNext(b: seq<nat>, g: nat, v: seq<nat>, v': seq<nat>, i: nat)
    requires Lengths(b) && 1 <= g <= BMAX && i < |b| && b[i] <= g && |v| == N_MAX && Slots(b, CountsOf(b), g, v, i)
    requires b[i] > 0 ==>
      Base(CountsOf(b), b[i]) + Rank(b, i) < |v| && v' == v[Base(CountsOf(b), b[i]) + Rank(b, i) := i]
    requires b[i] == 0 ==> v' == v
    ensures Slots(b, CountsOf(b), g, v', i + 1)
  {
    forall k, r | 1 <= k <= g && 0 <= r < Count(b[..i + 1], k) ensures Slot(b, CountsOf(b), v', k, r) {
      SlotsStep(b, g, v, v', i, k, r);
    }
  }

  /** The offsets `x` have moved past the symbols of `b`. */
  ghost predicate Moved(b: seq<nat>, c: seq<nat>, g: nat, x: seq<nat>)
    requires g < |c|
  {
    |x| == BMAX + 1 && g <= BMAX && forall k :: 1 <= k <= g ==> x[k] == Base(c, k) + Count(b, k)
  }

  lemma MovedNext(b: seq<nat>, c: seq<nat>, g: nat, x: seq<nat>, x': seq<nat>, i: nat)
    requires g < |c| && i < |b| && b[i] <= g && Moved(b[..i], c, g, x)
    requires x' == if b[i] == 0 then x else x[b[i] := x[b[i]] + 1]
    ensures Moved(b[..i + 1], c, g, x')
  {
    forall k | 1 <= k <= g ensures x'[k] == Base(c, k) + Count(b[..i + 1], k) {
      CountStep(b, i, k);
    }
  }

  /** Lines 391-396: the symbols in the order of their codes. */
  method SortSymbols(b: seq<nat>, x0: seq<nat>, g: nat) returns (v: seq<nat>)
    requires Lengths(b) && 1 <= g <= BMAX && forall i :: 0 <= i < |b| ==> b[i] <= g
    requires |x0| == BMAX + 1 && forall k :: 1 <= k <= g ==> x0[k] == Base(CountsOf(b), k)
    ensures |v| == Base(CountsOf(b), g) + Count(b, g) && Slots(b, CountsOf(b), g, v, |b|)
  {
    ghost var c := CountsOf(b);
    v := seq(N_MAX, k => 0);
    var x, i := x0, 0;
    while i < |b|
      invariant 0 <= i <= |b| && |v| == N_MAX
      invariant Moved(b[..i], c, g, x)
      invariant Slots(b, c, g, v, i)
    {
      var j, v', x' := b[i], v, x;
      if j != 0 {
        PlaceBound(b, i);
        v' := v[x[j] := i];
        x' := x[j := x[j] + 1];
      }
      SlotsNext(b, g, v, v', i);
      MovedNext(b, c, g, x, x', i);
      v, x, i := v', x', i + 1;
    }
    assert b[..|b|] == b;
    BaseBound(b, g + 1);
    TakeSlots(b, g, v, x[g]);
    v := v[..x[g]];
  }

  lemma TakeSlots(b: seq<nat>, g: nat, v: seq<nat>, n: nat)
    requires Lengths(b) && 1 <= g <= BMAX && n == Base(CountsOf(b), g) + Count(b, g) <= |v|
      && Slots(b, CountsOf(b), g, v, |b|)
    ensures Slots(b, CountsOf(b), g, v[..n], |b|)
  {
    forall k, r | 1 <= k <= g && 0 <= r < Count(b[..|b|], k) ensures Slot(b, CountsOf(b), v[..n], k, r) {
      assert b[..|b|] == b;
      assert Slot(b, CountsOf(b), v, k, r);
      TakeSlot(b, g, v, n, k, r);
    }
  }

  lemma TakeSlot(b: seq<nat>, g: nat, v: seq<nat>, n: nat, k: nat, r: nat)
    requires Lengths(b) && 1 <= k <= g <= BMAX && n == Base(CountsOf(b), g) + Count(b, g) <= |v|
    requires r < Count(b, k) && Slot(b, CountsOf(b), v, k, r)
    ensures Slot(b, CountsOf(b), v[..n], k, r)
  {
    if k < g { BaseMono(CountsOf(b), k, g); }
  }

  /** Two symbols of one length and rank are one. */
  lemma RankUnique(b: seq<nat>, s: nat, t: nat)
    requires s < |b| && t < |b| && b[s] == b[t] && Rank(b, s) == Rank(b, t)
    ensures s == t
  {
    var k := b[s];
    CountStep(b, s, k);
    CountStep(b, t, k);
    if s < t { CountMono(b, s + 1, t, k); }
    if t < s { CountMono(b, t + 1, s, k); }
  }
}
