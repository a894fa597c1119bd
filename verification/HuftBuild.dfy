/** `huft_build` of lib/inflate.c: the tables are built code by code, in code order. */
module HuftBuild {
  import opened Bits
  import opened HuffmanCode
  import opened HuftTables
  import opened HuftSteps
  import opened HuftStack

  lemma DoubleRoom(p: nat, j: nat)
    requires j > 0
    ensures (p + 1) * Pow2(j) == 2 * ((p + 1) * Pow2(j - 1))
  {
  }

  /** The last code of `g` bits ends all prefixes. */
  lemma RoomAtEnd(c: seq<nat>, g: nat, w: nat, p: nat)
    requires Counts(c, g) && w <= g && p < Pow2(w)
    ensures (p + 1) * Pow2(g - w) <= EndCode(c, g)
  {
    Pow2Add(w, g - w);
    MulMono(p + 1, Pow2(w), Pow2(g - w));
  }

  lemma MulMono(a: nat, b: nat, m: nat)
    requires a <= b
    ensures a * m <= b * m
  {
    assert b * m == a * m + (b - a) * m;
  }

  /**
    Lines 427-442: the number of bits of a new table for the codes with the `w`-bit prefix `p`,
    at the first of them, which has `k` bits; `a` more codes of that length follow.
   */
  method TableBits(c: seq<nat>, g: nat, l: nat, k: nat, w: nat, a: nat, ghost p: nat) returns (j: nat)
    requires Counts(c, g) && 1 <= l && w < k <= g && p < Pow2(w)
    requires EndCode(c, k) == p * Pow2(k - w) + a + 1
    ensures k - w <= j && w + j <= g
    ensures if k - w > l then j == k - w else j <= l
    ensures j >= l || (p + 1) * Pow2(j) <= EndCode(c, w + j)
    ensures j == k - w || (p + 1) * Pow2(j - 1) > EndCode(c, w + j - 1)
  {
    var z := if g - w > l then l else g - w;
    j := k - w;
    var f := Pow2(j);
    Distribute(p, 1, Pow2(j));
    RoomAtEnd(c, g, w, p);
    if f > a + 1 {
      f := f - (a + 1);
      var xp := k;
      if j < z {
        j := j + 1;
        while j < z
          invariant k - w < j <= z && xp == w + j - 1
          invariant 0 < f == (p + 1) * Pow2(j - 1) - EndCode(c, w + j - 1)
        {
          DoubleRoom(p, j);
          f := f * 2;
          xp := xp + 1;
          if f <= c[xp] {
            break;
          }
          f := f - c[xp];
          j := j + 1;
        }
      }
    }
  }

  /** A table that the codes of its length fill up holds all codes with its prefix. */
  lemma FullCloses(cd: Code, it: Info)
    requires ValidCode(cd) && it.w + it.bits <= cd.g && 0 < it.bits
    requires (it.p + 1) * Pow2(it.bits) <= EndCode(cd.c, it.w + it.bits)
    ensures Closes(cd, it)
  {
    forall x: nat | Member(cd, it, x)
      ensures LenAt(cd.c, cd.g, x) <= it.w + it.bits
    {
      PrefixBelow(x, cd.g, it.w, it.w + it.bits);
      LenAtIs(cd.c, cd.g, x, it.w + it.bits);
    }
  }

  /** Some pattern with the `w`-bit prefix `p` has a code that takes up a table of `bits` bits. */
  ghost predicate Reached(cd: Code, w: nat, p: nat, bits: nat)
    requires ValidCode(cd) && w <= cd.g
  {
    exists x: nat :: x < Pow2(cd.g) && Prefix(x, cd.g, w) == p && LenAt(cd.c, cd.g, x) >= w + bits
  }

  /** If the codes up to a length leave part of a prefix over, its last pattern has a longer code. */
  lemma UnfilledReaches(cd: Code, w: nat, p: nat, bits: nat)
    requires ValidCode(cd) && bits > 0 && w + bits <= cd.g && w + bits > 1 && p < Pow2(w)
    requires (p + 1) * Pow2(bits - 1) > EndCode(cd.c, w + bits - 1)
    ensures Reached(cd, w, p, bits)
  {
    var g, m := cd.g, cd.g - w;
    var x := p * Pow2(m) + (Pow2(m) - 1);
    ShrUnique(x, m, p, Pow2(m) - 1);
    Distribute(p, 1, Pow2(m));
    Pow2Add(w, m);
    MulMono(p + 1, Pow2(w), Pow2(m));
    LastPrefix(p, m, bits - 1);
    LenAtIs(cd.c, g, x, w + bits - 1);
    assert Prefix(x, g, w) == p;
  }

  /** The first `j` bits after the prefix `p`, in the last pattern with that prefix. */
  lemma LastPrefix(p: nat, m: nat, j: nat)
    requires j <= m
    ensures Shr(p * Pow2(m) + (Pow2(m) - 1), m - j) == (p + 1) * Pow2(j) - 1
  {
    var q, r := (p + 1) * Pow2(j) - 1, Pow2(m - j);
    Pow2Add(j, m - j);
    assert (p + 1) * Pow2(m) == (p + 1) * (Pow2(j) * r);
    MulAssoc(p + 1, Pow2(j), r);
    Distribute(q, 1, r);
    Distribute(p, 1, Pow2(m));
    ShrUnique(p * Pow2(m) + (Pow2(m) - 1), m - j, q, r - 1);
  }

  lemma MulAssoc(a: nat, b: nat, c: nat)
    ensures a * (b * c) == (a * b) * c
  {
  }

  /** Lines 492-494. */
  method Fill(tab: seq<Huft>, i: nat, w: nat, k: nat, z: nat, r: Huft) returns (tab': seq<Huft>)
    requires w < k && z == |tab| && Shr(i, w) < Pow2(k - w)
    ensures Filled(tab, tab', Shr(i, w), k - w, r)
  {
    var f := Pow2(k - w);
    var j := Shr(i, w);
    tab' := tab;
    ghost var m, b, j0 := 0, k - w, Shr(i, w);
    forall n: nat | n < j0
      ensures Low(n, b) != j0
    {
      ShrUnique(n, b, 0, n);
    }
    while j < z
      invariant j == m * f + j0
      invariant |tab'| == |tab|
      invariant forall n: nat :: n < |tab| && n < j ==> tab'[n] == if Low(n, b) == j0 then r else tab[n]
      invariant forall n: nat :: j <= n < |tab| ==> tab'[n] == tab[n]
      decreases z - j
    {
      ShrUnique(j, b, m, j0);
      tab' := tab'[j := r];
      forall n: nat | j < n < j + f
        ensures Low(n, b) != j0
      {
        Between(n, b, m, j0);
      }
      Distribute(m, 1, f);
      j := j + f;
      m := m + 1;
    }
  }

  /** Numbers with the same `b` low bits are at least `Pow2(b)` apart. */
  lemma Between(n: nat, b: nat, m: nat, j: nat)
    requires m * Pow2(b) + j < n < m * Pow2(b) + j + Pow2(b) && j < Pow2(b)
    ensures Low(n, b) != j
  {
    var f := Pow2(b);
    Distribute(m, 1, f);
    if n < m * f + f {
      ShrUnique(n, b, m, n - m * f);
    } else {
      ShrUnique(n, b, m + 1, n - (m + 1) * f);
    }
  }

  /** Lines 497-499: backwards increment of the `k`-bit code. */
  method Increment(i0: nat, k: nat) returns (i: nat)
    requires k > 0
    ensures i == BackwardsIncrement(i0, k)
  {
    i := i0;
    var b := k;
    while b > 0 && Shr(i, b - 1) % 2 == 1
      invariant 0 <= b <= k
      invariant BackwardsIncrement(i, b) == BackwardsIncrement(i0, k)
      decreases b
    {
      OddHasBit(i, b - 1);
      i := i - Pow2(b - 1);
      b := b - 1;
    }
    if b > 0 {
      i := i + Pow2(b - 1);
    }
  }

  lemma OddHasBit(i: nat, m: nat)
    requires Shr(i, m) % 2 == 1
    ensures Pow2(m) <= i
  {
    ShrLow(i, m);
    AtLeastOnce(Shr(i, m), Pow2(m));
  }

  lemma AtLeastOnce(q: nat, p: nat)
    requires q >= 1
    ensures p <= q * p
  {
  }
}
