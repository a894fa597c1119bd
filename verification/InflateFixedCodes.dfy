/** The fixed codes as section 3.2.6 of RFC 1951 lists them. */
module InflateFixedCodes {
  import opened HuffmanCode
  import opened HuftLengths
  import opened HuftRuns
  import opened HuftRfc
  import opened InflateFixed

  lemma {:induction false} FirstCode(b: seq<nat>, k: nat)
    requires 1 <= k <= BMAX && forall i :: 0 <= i < |b| ==> b[i] >= k
    ensures NextCode(CountsOf(b), k) == 0
    decreases k
  {
    if k > 1 {
      FirstCode(b, k - 1);
      NoneOf(b, k - 1);
    }
  }

  lemma {:induction false} CountRun(b: seq<nat>, n: nat, k: nat, j: nat)
    ensures Count(b + Run(n, k), j) == Count(b, j) + if j == k then n else 0
    decreases n
  {
    if n == 0 {
      assert b + Run(0, k) == b;
    } else {
      CountRun(b, n - 1, k, j);
      RunStep(b, n, k);
      var c := b + Run(n - 1, k);
      assert (c + [k])[..|c|] == c;
    }
  }

  /** How many codes of length `j` there are in runs of 8, 9, 7 and 8. */
  lemma CountRuns(p: nat, q: nat, r: nat, s: nat, j: nat)
    ensures Count(Run(p, 8) + Run(q, 9) + Run(r, 7) + Run(s, 8), j)
      == (if j == 8 then p + s else 0) + (if j == 9 then q else 0) + (if j == 7 then r else 0)
  {
    CountRun([], p, 8, j);
    assert [] + Run(p, 8) == Run(p, 8);
    CountRun(Run(p, 8), q, 9, j);
    CountRun(Run(p, 8) + Run(q, 9), r, 7, j);
    CountRun(Run(p, 8) + Run(q, 9) + Run(r, 7), s, 8, j);
  }

  lemma FirstCodes(b: seq<nat>)
    requires b == FixedLit()
    ensures NextCode(CountsOf(b), 7) == 0 && NextCode(CountsOf(b), 8) == 0x30 && NextCode(CountsOf(b), 9) == 0x190
  {
    FirstCode(b, 7);
    CountRuns(144, 112, 24, 8, 7);
    CountRuns(144, 112, 24, 8, 8);
  }

  /** The symbols before `sym` that have a code of its length. */
  lemma FixedRank(b: seq<nat>, sym: nat)
    requires b == FixedLit() && |b| == 288 && sym < 288
    ensures Rank(b, sym) == if sym < 144 then sym else if sym < 256 then sym - 144 else if sym < 280 then sym - 256
      else sym - 136
  {
    var p := if sym < 144 then sym else 144;
    var q := if sym < 144 then 0 else if sym < 256 then sym - 144 else 112;
    var r := if sym < 256 then 0 else if sym < 280 then sym - 256 else 24;
    var s := if sym < 280 then 0 else sym - 280;
    assert b[..sym] == Run(p, 8) + Run(q, 9) + Run(r, 7) + Run(s, 8);
    CountRuns(p, q, r, s, b[sym]);
  }

  /** Literals and lengths: the bits and the codes of the table. */
  lemma FixedCodes(b: seq<nat>, sym: nat)
    requires b == FixedLit() && |b| == 288 && sym < 288
    ensures b[sym] == if sym < 144 then 8 else if sym < 256 then 9 else if sym < 280 then 7 else 8
    ensures CanonicalCode(b, sym) == if sym < 144 then 0x30 + sym else if sym < 256 then 0x190 + (sym - 144)
      else if sym < 280 then sym - 256 else 0xc0 + (sym - 280)
  {
    FixedRank(b, sym);
    FirstCodes(b);
  }

  /** Distances: five bits, and the code is the number. */
  lemma FixedDistances(b: seq<nat>, d: nat)
    requires b == FixedDist() && |b| == 30 && d < 30
    ensures b[d] == 5 && CanonicalCode(b, d) == d
  {
    FirstCode(b, 5);
    assert b[..d] == [] + Run(d, 5);
    CountRun([], d, 5, 5);
  }
}
