/**
  Powers of two, shifts and bit reversal on natural numbers. Shifts are defined by repeated
  halving, so that every fact about them is an induction on the number of bits.
 */
module Bits {

  function Pow2(n: nat): (p: nat)
    ensures p >= 1
  {
    if n == 0 then 1 else 2 * Pow2(n - 1)
  }

  /** `x >> m` */
  function Shr(x: nat, m: nat): nat
    decreases m
  {
    if m == 0 then x else Shr(x / 2, m - 1)
  }

  /** `x & ((1 << m) - 1)` */
  function Low(x: nat, m: nat): nat
    decreases m
  {
    if m == 0 then 0 else x % 2 + 2 * Low(x / 2, m - 1)
  }

  lemma {:induction false} Pow2Add(a: nat, b: nat)
    ensures Pow2(a + b) == Pow2(a) * Pow2(b)
    decreases a
  {
    if a != 0 {
      Pow2Add(a - 1, b);
      assert 2 * (Pow2(a - 1) * Pow2(b)) == (2 * Pow2(a - 1)) * Pow2(b);
    }
  }

  lemma {:induction false} Pow2Mono(a: nat, b: nat)
    requires a <= b
    ensures Pow2(a) <= Pow2(b)
    decreases b - a
  {
    if a < b { Pow2Mono(a, b - 1); }
  }

  lemma {:induction false} ShrLow(x: nat, m: nat)
    ensures x == Shr(x, m) * Pow2(m) + Low(x, m) && Low(x, m) < Pow2(m)
    decreases m
  {
    if m != 0 {
      ShrLow(x / 2, m - 1);
      var q, p := Shr(x / 2, m - 1), Pow2(m - 1);
      assert 2 * (q * p) == q * (2 * p);
    }
  }

  lemma {:induction false} ShrUnique(x: nat, m: nat, q: nat, r: nat)
    requires x == q * Pow2(m) + r && r < Pow2(m)
    ensures Shr(x, m) == q && Low(x, m) == r
    decreases m
  {
    if m != 0 {
      var p := Pow2(m - 1);
      assert q * (2 * p) == 2 * (q * p);
      ShrUnique(x / 2, m - 1, q, r / 2);
    }
  }

  lemma LowBound(x: nat, m: nat)
    ensures Low(x, m) < Pow2(m)
  {
    ShrLow(x, m);
  }

  lemma {:induction false} ShrBound(x: nat, n: nat, m: nat)
    requires x < Pow2(n) && m <= n
    ensures Shr(x, m) < Pow2(n - m)
    decreases m
  {
    if m > 0 { ShrBound(x / 2, n - 1, m - 1); }
  }

  lemma {:induction false} ShrBelow(x: nat, m: nat)
    ensures Shr(x, m) <= x
    decreases m
  {
    if m > 0 { ShrBelow(x / 2, m - 1); }
  }

  lemma LowBelow(x: nat, m: nat)
    ensures Low(x, m) <= x
  {
    ShrLow(x, m);
    assert Shr(x, m) * Pow2(m) >= 0;
  }

  lemma {:induction false} ShrShr(x: nat, a: nat, b: nat)
    ensures Shr(Shr(x, a), b) == Shr(x, a + b)
    decreases a
  {
    if a != 0 { ShrShr(x / 2, a - 1, b); }
  }

  lemma {:induction false} ShrMono(x: nat, y: nat, m: nat)
    requires x <= y
    ensures Shr(x, m) <= Shr(y, m)
    decreases m
  {
    if m != 0 { ShrMono(x / 2, y / 2, m - 1); }
  }

  // ---------------------------------------------------------------- patterns, first bit most significant

  /** The first `w` bits of the `g`-bit pattern `x`. */
  function Prefix(x: nat, g: nat, w: nat): nat
    requires w <= g
  {
    Shr(x, g - w)
  }

  /** Bit `j` of the `g`-bit pattern `x`, counting from the first one. */
  predicate Bit(x: nat, g: nat, j: nat)
    requires j < g
  {
    Prefix(x, g, j + 1) % 2 == 1
  }

  lemma PrefixStep(x: nat, g: nat, w: nat)
    requires 0 < w <= g
    ensures Prefix(x, g, w) == 2 * Prefix(x, g, w - 1) + (if Bit(x, g, w - 1) then 1 else 0)
  {
    ShrShr(x, g - w, 1);
    assert Shr(Shr(x, g - w), 1) == Shr(x, g - w) / 2;
  }

  /** Bits `w` up to `v` of the pattern `x`, read with the first of them least significant. */
  function Mid(x: nat, g: nat, w: nat, v: nat): nat
    requires w <= v <= g
  {
    if v == w then 0 else Mid(x, g, w, v - 1) + if Bit(x, g, v - 1) then Pow2(v - 1 - w) else 0
  }

  /** The first `w` bits of `x`, as they arrive from the input: the first one least significant. */
  function Rev(x: nat, g: nat, w: nat): nat
    requires w <= g
  {
    Mid(x, g, 0, w)
  }

  lemma {:induction false} MidBound(x: nat, g: nat, w: nat, v: nat)
    requires w <= v <= g
    ensures Mid(x, g, w, v) < Pow2(v - w)
  {
    if v > w { MidBound(x, g, w, v - 1); }
  }

  lemma Distribute(a: nat, b: nat, p: nat)
    ensures (a + b) * p == a * p + b * p
  {
  }

  lemma {:induction false} MidJoin(x: nat, g: nat, u: nat, w: nat, v: nat)
    requires u <= w <= v <= g
    ensures Mid(x, g, u, v) == Mid(x, g, w, v) * Pow2(w - u) + Mid(x, g, u, w)
    decreases v
  {
    if v > w {
      MidJoin(x, g, u, w, v - 1);
      if Bit(x, g, v - 1) {
        Pow2Add(v - 1 - w, w - u);
        Distribute(Mid(x, g, w, v - 1), Pow2(v - 1 - w), Pow2(w - u));
      }
    }
  }

  lemma MidSplit(x: nat, g: nat, u: nat, w: nat, v: nat)
    requires u <= w <= v <= g
    ensures Shr(Mid(x, g, u, v), w - u) == Mid(x, g, w, v) && Low(Mid(x, g, u, v), w - u) == Mid(x, g, u, w)
  {
    MidBound(x, g, u, w);
    MidJoin(x, g, u, w, v);
    ShrUnique(Mid(x, g, u, v), w - u, Mid(x, g, w, v), Mid(x, g, u, w));
  }

  /** Equal prefixes of two patterns are equal when reversed, and conversely. */
  lemma {:induction false} RevPrefix(x: nat, y: nat, g: nat, w: nat)
    requires w <= g && x < Pow2(g) && y < Pow2(g)
    ensures Rev(x, g, w) == Rev(y, g, w) <==> Prefix(x, g, w) == Prefix(y, g, w)
    decreases w
  {
    if w == 0 {
      ShrUnique(x, g, 0, x);
      ShrUnique(y, g, 0, y);
    } else {
      RevPrefix(x, y, g, w - 1);
      MidBound(x, g, 0, w - 1);
      MidBound(y, g, 0, w - 1);
      PrefixStep(x, g, w);
      PrefixStep(y, g, w);
    }
  }

  lemma {:induction false} LowZero(x: nat, m: nat, j: nat)
    requires Low(x, m) == 0 && j < m
    ensures Shr(x, j) % 2 == 0
    decreases j
  {
    if j != 0 { LowZero(x / 2, m - 1, j - 1); }
  }

  /** Trailing zero bits add nothing to the reversed value. */
  lemma {:induction false} MidAligned(x: nat, g: nat, w: nat, v: nat)
    requires w <= v <= g && Low(x, g - w) == 0
    ensures Mid(x, g, w, v) == 0
    decreases v
  {
    if v > w {
      MidAligned(x, g, w, v - 1);
      LowZero(x, g - w, g - v);
    }
  }

  lemma {:induction false} RevSame(x: nat, y: nat, g: nat, w: nat)
    requires w <= g && Prefix(x, g, w) == Prefix(y, g, w)
    ensures Rev(x, g, w) == Rev(y, g, w)
    decreases w
  {
    if w > 0 {
      PrefixStep(x, g, w);
      PrefixStep(y, g, w);
      RevSame(x, y, g, w - 1);
    }
  }

  // ---------------------------------------------------------------- counting in reversed order

  /** One is added to the `k`-bit number `i` whose bits are in reversed order. */
  function BackwardsIncrement(i: nat, k: nat): nat
    decreases k
  {
    if k == 0 then i
    else if Shr(i, k - 1) % 2 == 1 && Pow2(k - 1) <= i then BackwardsIncrement(i - Pow2(k - 1), k - 1)
    else i + Pow2(k - 1)
  }

  /** Backwards increment leads from the reversed form of a code to that of the next code. */
  lemma {:induction false} ReverseCounts(x: nat, x': nat, g: nat, k: nat)
    requires k <= g && Prefix(x', g, k) == Prefix(x, g, k) + 1
    ensures k > 0 ==> BackwardsIncrement(Rev(x, g, k), k) == Rev(x', g, k)
    decreases k
  {
    if k > 0 {
      PrefixStep(x, g, k);
      PrefixStep(x', g, k);
      MidSplit(x, g, 0, k - 1, k);
      assert Mid(x, g, k - 1, k) == if Bit(x, g, k - 1) then 1 else 0;
      if Bit(x, g, k - 1) {
        ReverseCounts(x, x', g, k - 1);
      } else {
        RevSame(x, x', g, k - 1);
      }
    }
  }

  /** A longer prefix consists of a shorter one and the bits between. */
  lemma PrefixExtends(x: nat, y: nat, g: nat, w: nat, v: nat)
    requires w <= v <= g && x < Pow2(g) && y < Pow2(g)
    ensures Prefix(x, g, v) == Prefix(y, g, v) <==>
      Prefix(x, g, w) == Prefix(y, g, w) && Mid(x, g, w, v) == Mid(y, g, w, v)
  {
    RevPrefix(x, y, g, w);
    RevPrefix(x, y, g, v);
    MidSplit(x, g, 0, w, v);
    MidSplit(y, g, 0, w, v);
    MidJoin(x, g, 0, w, v);
    MidJoin(y, g, 0, w, v);
  }

  lemma {:induction false} LowLow(s: nat, a: nat, b: nat)
    requires a <= b
    ensures Low(Low(s, b), a) == Low(s, a)
    decreases a
  {
    if a > 0 {
      assert Low(s, b) / 2 == Low(s / 2, b - 1);
      LowLow(s / 2, a - 1, b - 1);
    }
  }

  lemma {:induction false} LowShr(s: nat, w: nat, m: nat)
    ensures Low(Shr(s, w), m) == Shr(Low(s, w + m), w)
    decreases w
  {
    if w > 0 {
      assert Low(s, w + m) / 2 == Low(s / 2, w + m - 1);
      LowShr(s / 2, w - 1, m);
    }
  }

  /** The bits of an input that begins with the pattern `x`. */
  lemma InputBits(s: nat, x: nat, g: nat, w: nat, m: nat)
    requires w + m <= g && Low(s, g) == Rev(x, g, g)
    ensures Low(Shr(s, w), m) == Mid(x, g, w, w + m)
  {
    LowShr(s, w, m);
    LowLow(s, w + m, g);
    MidSplit(x, g, 0, w + m, g);
    MidSplit(x, g, 0, w, w + m);
  }

  lemma {:induction false} PrefixZero(x: nat, g: nat)
    requires x < Pow2(g)
    ensures Prefix(x, g, 0) == 0
  {
    ShrUnique(x, g, 0, x);
  }

  /** A pattern that ends in zeros is the least one with its prefix. */
  lemma LeastWithPrefix(x: nat, y: nat, g: nat, w: nat)
    requires w <= g && Low(x, g - w) == 0 && Prefix(y, g, w) == Prefix(x, g, w)
    ensures x <= y
  {
    ShrLow(x, g - w);
    ShrLow(y, g - w);
  }

  lemma PrefixShorter(x: nat, y: nat, g: nat, w: nat, v: nat)
    requires w <= v <= g && Prefix(x, g, v) == Prefix(y, g, v)
    ensures Prefix(x, g, w) == Prefix(y, g, w) && Rev(x, g, w) == Rev(y, g, w) && Mid(x, g, w, v) == Mid(y, g, w, v)
  {
    ShrShr(x, g - v, v - w);
    ShrShr(y, g - v, v - w);
    RevSame(x, y, g, w);
    RevSame(x, y, g, v);
    MidSplit(x, g, 0, w, v);
    MidSplit(y, g, 0, w, v);
  }

  /** The patterns from `pos` up to the next code of `k` bits share their first `k` bits. */
  lemma InCode(pos: nat, x: nat, g: nat, k: nat)
    requires k <= g && Low(pos, g - k) == 0 && pos <= x < pos + Pow2(g - k)
    ensures Prefix(x, g, k) == Prefix(pos, g, k)
  {
    ShrLow(pos, g - k);
    ShrUnique(x, g - k, Shr(pos, g - k), x - pos);
  }

  lemma NextPrefix(pos: nat, g: nat, k: nat)
    requires k <= g && Low(pos, g - k) == 0
    ensures Prefix(pos + Pow2(g - k), g, k) == Prefix(pos, g, k) + 1 && Low(pos + Pow2(g - k), g - k) == 0
  {
    ShrLow(pos, g - k);
    var q, p := Shr(pos, g - k), Pow2(g - k);
    assert (q + 1) * p == q * p + p;
    ShrUnique(pos + p, g - k, q + 1, 0);
  }

  lemma {:induction false} CarryClears(c: nat, m: nat)
    requires Shr(c + 1, m) != Shr(c, m)
    ensures Low(c + 1, m) == 0
    decreases m
  {
    if m > 0 {
      if c % 2 == 1 {
        CarryClears(c / 2, m - 1);
      }
    }
  }

  lemma {:induction false} LowZeroJoin(x: nat, a: nat, b: nat)
    requires Low(x, a) == 0 && Low(Shr(x, a), b) == 0
    ensures Low(x, a + b) == 0
    decreases a
  {
    if a > 0 { LowZeroJoin(x / 2, a - 1, b); }
  }

  /** If the next code of `k` bits has another prefix of `w` bits, it is the first one with that prefix. */
  lemma CarryAligns(pos: nat, g: nat, k: nat, w: nat)
    requires w <= k <= g && Low(pos, g - k) == 0
    requires Prefix(pos + Pow2(g - k), g, w) != Prefix(pos, g, w)
    ensures Low(pos + Pow2(g - k), g - w) == 0
  {
    var pos' := pos + Pow2(g - k);
    NextPrefix(pos, g, k);
    ShrShr(pos, g - k, k - w);
    ShrShr(pos', g - k, k - w);
    CarryClears(Shr(pos, g - k), k - w);
    LowZeroJoin(pos', g - k, k - w);
  }

  lemma LowZeroShorter(x: nat, a: nat, b: nat)
    requires Low(x, b) == 0 && a <= b
    ensures Low(x, a) == 0
  {
    LowLow(x, a, b);
    ShrUnique(0, a, 0, 0);
  }

  /** `Prefix(x, g, w)` bounds the longer prefix. */
  lemma PrefixBelow(x: nat, g: nat, w: nat, v: nat)
    requires w <= v <= g
    ensures Prefix(x, g, v) < (Prefix(x, g, w) + 1) * Pow2(v - w)
    ensures Low(x, g - w) == 0 ==> Prefix(x, g, v) == Prefix(x, g, w) * Pow2(v - w)
  {
    ShrShr(x, g - v, v - w);
    ShrLow(Shr(x, g - v), v - w);
    Distribute(Prefix(x, g, w), 1, Pow2(v - w));
    if Low(x, g - w) == 0 {
      LowShr(x, g - v, v - w);
      ShrUnique(0, g - v, 0, 0);
    }
  }

  lemma {:induction false} RevAligned(x: nat, g: nat, w: nat, v: nat)
    requires w <= v <= g && Low(x, g - w) == 0
    ensures Rev(x, g, v) == Rev(x, g, w)
    decreases v
  {
    if v > w {
      RevAligned(x, g, w, v - 1);
      LowZero(x, g - w, g - v);
    }
  }

  lemma PrefixBound(x: nat, g: nat, w: nat)
    requires w <= g && x < Pow2(g)
    ensures Prefix(x, g, w) < Pow2(w)
  {
    PrefixZero(x, g);
    PrefixBelow(x, g, 0, w);
  }

  lemma Pow2Double(n: nat, p: nat)
    requires Pow2(n) == p
    ensures Pow2(n + n) == p * p
  {
    Pow2Add(n, n);
  }

  lemma Pow2Of32(n: nat)
    requires n == 32
    ensures Pow2(n) == 0x1_0000_0000
  {
    assert Pow2(4) == 0x10;
    Pow2Double(n / 8, 0x10);
    Pow2Double(n / 4, 0x100);
    Pow2Double(n / 2, 0x1_0000);
  }

  lemma Pow2Of64(n: nat)
    requires n == 64
    ensures Pow2(n) == 0x1_0000_0000_0000_0000
  {
    Pow2Of32(n / 2);
    Pow2Double(n / 2, 0x1_0000_0000);
  }

  lemma ShrAll(x: nat, m: nat)
    requires x < Pow2(m)
    ensures Shr(x, m) == 0 && Low(x, m) == x
  {
    ShrUnique(x, m, 0, x);
  }
}
