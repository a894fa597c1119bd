/** Code lengths that come in runs of equal ones. */
module HuftRuns {
  import opened Bits
  import opened HuftLengths

  function Run(n: nat, k: nat): (r: seq<nat>)
    ensures |r| == n && forall i :: 0 <= i < n ==> r[i] == k
  {
    seq(n, i => k)
  }

  ghost predicate Lean(b: seq<nat>) {
    forall i :: 0 <= i < |b| ==> b[i] <= BMAX
  }

  /** What a length adds to the Kraft sum. */
  ghost function Weight(k: nat): nat
    requires k <= BMAX
  {
    if k == 0 then 0 else Pow2(BMAX - k)
  }

  lemma KraftAppend(b: seq<nat>, k: nat)
    requires Lean(b) && k <= BMAX
    ensures Lean(b + [k]) && Kraft(b + [k]) == Kraft(b) + Weight(k)
  {
    assert (b + [k])[..|b|] == b;
  }

  lemma {:induction false} KraftRun(b: seq<nat>, n: nat, k: nat, p: nat)
    requires Lean(b) && k <= BMAX && p == Weight(k)
    ensures Lean(b + Run(n, k)) && Kraft(b + Run(n, k)) == Kraft(b) + n * p
    decreases n
  {
    if n == 0 {
      assert b + Run(0, k) == b;
    } else {
      KraftRun(b, n - 1, k, p);
      RunStep(b, n, k);
      KraftAppend(b + Run(n - 1, k), k);
      Distribute(n - 1, 1, p);
    }
  }

  lemma RunStep(b: seq<nat>, n: nat, k: nat)
    requires n > 0
    ensures b + Run(n, k) == b + Run(n - 1, k) + [k]
  {
  }

  lemma {:induction false} NoneOf(b: seq<nat>, k: nat)
    requires forall i :: 0 <= i < |b| ==> b[i] != k
    ensures Count(b, k) == 0
  {
    if |b| > 0 { NoneOf(b[..|b| - 1], k); }
  }

  lemma Weights()
    ensures Weight(0) == 0 && Weight(5) == 2048 && Weight(7) == 512 && Weight(8) == 256 && Weight(9) == 128
    ensures Weight(1) == 32768 && Weight(2) == 16384 && Weight(3) == 8192 && Weight(4) == 4096 && Weight(6) == 1024
    ensures Pow2(BMAX) == 65536
  {
    Pow2Add(8, 8);
    Pow2Add(7, 8);
    Pow2Add(7, 7);
    Pow2Add(6, 7);
    Pow2Add(6, 6);
    Pow2Add(5, 6);
    Pow2Add(5, 5);
    Pow2Add(4, 5);
    Pow2Add(4, 4);
  }
}
