/**
  Canonical Huffman codes of section 3.2.2 of RFC 1951. `c[k]` is the number of codes of `k`
  bits, `g` the longest length; the codes of one length are consecutive numbers that start at
  `NextCode(c, k)`. A pattern is a `g`-bit number whose first bits are a code word.
 */
module HuffmanCode {
  import opened Bits

  function NextCode(c: seq<nat>, k: nat): nat
    requires 1 <= k <= |c|
  {
    if k == 1 then 0 else 2 * (NextCode(c, k - 1) + c[k - 1])
  }

  /** One more than the last code word of `k` bits. */
  function EndCode(c: seq<nat>, k: nat): nat
    requires 1 <= k < |c|
  {
    NextCode(c, k) + c[k]
  }

  /** The number of codes shorter than `k` bits. */
  function Base(c: seq<nat>, k: nat): nat
    requires 1 <= k <= |c|
  {
    if k == 1 then 0 else Base(c, k - 1) + c[k - 1]
  }

  ghost predicate Counts(c: seq<nat>, g: nat) {
    1 <= g < |c| && EndCode(c, g) == Pow2(g)
  }

  /** The first length, from `k` on, at which the bits of `x` are a code word. */
  function LenFrom(c: seq<nat>, g: nat, x: nat, k: nat): (r: nat)
    requires 1 <= k <= g < |c|
    ensures k <= r <= g
    decreases g - k
  {
    if k == g || Prefix(x, g, k) < EndCode(c, k) then k else LenFrom(c, g, x, k + 1)
  }

  function LenAt(c: seq<nat>, g: nat, x: nat): (r: nat)
    requires 1 <= g < |c|
    ensures 1 <= r <= g
  {
    LenFrom(c, g, x, 1)
  }

  /** The place of the code word at the head of `x` in the list of all codes. */
  function Ord(c: seq<nat>, g: nat, x: nat): int
    requires 1 <= g < |c|
  {
    var k := LenAt(c, g, x);
    Base(c, k) + Prefix(x, g, k) - NextCode(c, k)
  }

  lemma {:induction false} LenFromIs(c: seq<nat>, g: nat, x: nat, j: nat, k: nat)
    requires Counts(c, g) && x < Pow2(g) && 1 <= j <= k <= g
    requires NextCode(c, j) <= Prefix(x, g, j)
    ensures var r := LenFrom(c, g, x, j); NextCode(c, r) <= Prefix(x, g, r) < EndCode(c, r)
    ensures LenFrom(c, g, x, j) <= k <==> Prefix(x, g, k) < EndCode(c, k)
    decreases g - j
  {
    if j == g || Prefix(x, g, j) < EndCode(c, j) {
      BelowEnd(c, g, x, j, k);
    } else {
      PrefixStep(x, g, j + 1);
      if j < k {
        LenFromIs(c, g, x, j + 1, k);
      } else {
        LenFromIs(c, g, x, j + 1, j + 1);
      }
    }
  }

  /** A pattern that has left the codes of `j` bits behind it stays behind those of `k` bits. */
  lemma {:induction false} BelowEnd(c: seq<nat>, g: nat, x: nat, j: nat, k: nat)
    requires 1 <= j <= k <= g < |c| && (j == g ==> EndCode(c, g) == Pow2(g)) && x < Pow2(g)
    requires j == g || Prefix(x, g, j) < EndCode(c, j)
    ensures Prefix(x, g, k) < EndCode(c, k)
    decreases k - j
  {
    if j < k {
      PrefixStep(x, g, j + 1);
      if j + 1 == g {
        PrefixStep(x, g, g);
      } else {
        BelowEnd(c, g, x, j + 1, k);
      }
    }
  }

  /** The length at `x` is the only one at which the head of `x` is a code word, and the first with a later code. */
  lemma LenAtIs(c: seq<nat>, g: nat, x: nat, k: nat)
    requires Counts(c, g) && x < Pow2(g) && 1 <= k <= g
    ensures var r := LenAt(c, g, x); NextCode(c, r) <= Prefix(x, g, r) < EndCode(c, r)
    ensures LenAt(c, g, x) <= k <==> Prefix(x, g, k) < EndCode(c, k)
  {
    LenFromIs(c, g, x, 1, k);
  }

  /** Prefix-freeness: if the first `k` bits of `x` are a code word then its length is `k`. */
  lemma CodeWordLen(c: seq<nat>, g: nat, x: nat, k: nat)
    requires Counts(c, g) && x < Pow2(g) && 1 <= k <= g
    requires NextCode(c, k) <= Prefix(x, g, k) < EndCode(c, k)
    ensures LenAt(c, g, x) == k
  {
    LenAtIs(c, g, x, k);
    var r := LenAt(c, g, x);
    if r < k {
      Overtaken(c, g, x, r, k);
    }
  }

  lemma {:induction false} Overtaken(c: seq<nat>, g: nat, x: nat, r: nat, k: nat)
    requires 1 <= r < k <= g < |c| && Prefix(x, g, r) < EndCode(c, r)
    ensures Prefix(x, g, k) < NextCode(c, k)
    decreases k
  {
    PrefixStep(x, g, k);
    if r < k - 1 { Overtaken(c, g, x, r, k - 1); }
  }

  lemma {:induction false} LenMono(c: seq<nat>, g: nat, x: nat, y: nat)
    requires Counts(c, g) && x <= y < Pow2(g)
    ensures LenAt(c, g, x) <= LenAt(c, g, y)
  {
    var k := LenAt(c, g, y);
    LenAtIs(c, g, y, k);
    LenAtIs(c, g, x, k);
    ShrMono(x, y, g - k);
  }

  /** Patterns that agree on a code word stand for the same code. */
  lemma SameCode(c: seq<nat>, g: nat, x: nat, y: nat)
    requires Counts(c, g) && x < Pow2(g) && y < Pow2(g)
    requires Prefix(x, g, LenAt(c, g, x)) == Prefix(y, g, LenAt(c, g, x))
    ensures LenAt(c, g, y) == LenAt(c, g, x) && Ord(c, g, y) == Ord(c, g, x)
  {
    LenAtIs(c, g, x, 1);
    CodeWordLen(c, g, y, LenAt(c, g, x));
  }

  lemma {:induction false} EndBound(c: seq<nat>, g: nat, k: nat)
    requires Counts(c, g) && 1 <= k <= g
    ensures EndCode(c, k) <= Pow2(k)
    decreases g - k
  {
    if k < g {
      EndBound(c, g, k + 1);
      assert Pow2(k + 1) == 2 * Pow2(k);
    }
  }

  /** A pattern that starts with a code word and goes on with zeros. */
  lemma CodeStart(c: seq<nat>, g: nat, pos: nat, k: nat)
    requires Counts(c, g) && 1 <= k <= g && Low(pos, g - k) == 0
    requires NextCode(c, k) <= Prefix(pos, g, k) < EndCode(c, k)
    ensures pos < Pow2(g) && LenAt(c, g, pos) == k && Ord(c, g, pos) == Base(c, k) + Prefix(pos, g, k) - NextCode(c, k)
  {
    EndBound(c, g, k);
    ShrLow(pos, g - k);
    Pow2Add(k, g - k);
    MulLess(Prefix(pos, g, k), Pow2(k), Pow2(g - k));
    CodeWordLen(c, g, pos, k);
  }

  lemma MulLess(a: nat, b: nat, m: nat)
    requires a < b && m > 0
    ensures a * m < b * m
  {
    Distribute(a, b - a, m);
    assert (b - a) * m >= 1 * m;
  }

  /** From the end of the codes of `k` bits to the first code of `k + 1` bits. */
  lemma NextLength(c: seq<nat>, g: nat, pos: nat, k: nat)
    requires 1 <= k < g < |c| && Low(pos, g - k) == 0 && Prefix(pos, g, k) == EndCode(c, k)
    ensures Prefix(pos, g, k + 1) == NextCode(c, k + 1) && Low(pos, g - (k + 1)) == 0
      && Rev(pos, g, k + 1) == Rev(pos, g, k)
  {
    PrefixStep(pos, g, k + 1);
    LowZero(pos, g - k, g - (k + 1));
    LowZeroShorter(pos, g - (k + 1), g - k);
    RevAligned(pos, g, k, k + 1);
  }
}
