/** Index arithmetic of lib/radix-tree.c: an index is a number in base 64, one digit per level. */
module RadixIndex {
  import opened Bits

  const MAP_SIZE: nat := 64
  const U64: nat := 0x1_0000_0000_0000_0000
  const MAX_HEIGHT: nat := 11

  /** The index `k` without its last `h` digits. */
  function Up(k: nat, h: nat): nat
    decreases h
  {
    if h == 0 then k else Up(k, h - 1) / MAP_SIZE
  }

  /** The slot that leads to `k` from a node of height `h`. */
  function Offset(k: nat, h: nat): (i: nat)
    requires h >= 1
    ensures i < MAP_SIZE && Up(k, h - 1) == Up(k, h) * MAP_SIZE + i
  {
    Up(k, h - 1) % MAP_SIZE
  }

  /** The slot is `(k >> shift) & RADIX_TREE_MAP_MASK` with `shift` as in the source. */
  lemma {:induction false} OffsetIsShift(k: nat, h: nat)
    requires h >= 1
    ensures Offset(k, h) == Low(Shr(k, 6 * (h - 1)), 6)
  {
    UpIsShift(k, h - 1);
    LowSix(Up(k, h - 1));
  }

  /** The slot for `index` in a node of height `h`. */
  method SlotFor(index: nat, h: nat) returns (i: nat)
    requires h >= 1
    ensures i == Offset(index, h)
  {
    var shift := (h - 1) * 6;
    i := Low(Shr(index, shift), 6);
    OffsetIsShift(index, h);
  }

  lemma {:induction false} UpIsShift(k: nat, h: nat)
    ensures Up(k, h) == Shr(k, 6 * h)
  {
    if h > 0 {
      UpIsShift(k, h - 1);
      ShrShr(k, 6 * (h - 1), 6);
      ShrSix(Up(k, h - 1));
    }
  }

  lemma ShrSix(x: nat)
    ensures Shr(x, 6) == x / MAP_SIZE
  {
    ShrLow(x, 6);
    Pow2Add(3, 3);
  }

  lemma LowSix(x: nat)
    ensures Low(x, 6) == x % MAP_SIZE
  {
    ShrLow(x, 6);
    Pow2Add(3, 3);
  }

  /** Indices with a common prefix have all shorter prefixes in common. */
  lemma {:induction false} SameUp(j: nat, k: nat, a: nat, b: nat)
    requires a <= b && Up(j, a) == Up(k, a)
    ensures Up(j, b) == Up(k, b)
    decreases b
  {
    if a < b { SameUp(j, k, a, b - 1); }
  }

  lemma {:induction false} UpZeroMore(k: nat, a: nat, b: nat)
    requires a <= b && Up(k, a) == 0
    ensures Up(k, b) == 0
    decreases b
  {
    if a < b { UpZeroMore(k, a, b - 1); }
  }

  // ---------------------------------------------------------------- the largest index of a height

  /** `__maxindex`, lines 783-791. */
  function MaxIndex(h: nat): nat {
    var tmp := 6 * h;
    if tmp >= 64 then U64 - 1 else Shr(Shr(U64 - 1, 63 - tmp), 1)
  }

  lemma {:induction false} ShrOnes(n: nat, m: nat)
    requires m <= n
    ensures Shr(Pow2(n) - 1, m) == Pow2(n - m) - 1
    decreases m
  {
    if m > 0 {
      assert (Pow2(n) - 1) / 2 == Pow2(n - 1) - 1;
      ShrOnes(n - 1, m - 1);
    }
  }

  lemma {:induction false} ShrIsZero(x: nat, m: nat)
    ensures Shr(x, m) == 0 <==> x < Pow2(m)
    decreases m
  {
    if m > 0 {
      ShrIsZero(x / 2, m - 1);
      assert Pow2(m) == 2 * Pow2(m - 1);
    }
  }

  /** An index fits a height exactly if it has no further digits. */
  lemma MaxIndexIs(k: nat, h: nat)
    requires k < U64
    ensures k <= MaxIndex(h) <==> Up(k, h) == 0
    ensures h >= MAX_HEIGHT ==> k <= MaxIndex(h)
  {
    UpIsShift(k, h);
    ShrIsZero(k, 6 * h);
    Pow2Of64(64);
    if 6 * h >= 64 {
      Pow2Mono(64, 6 * h);
    } else {
      MaxIndexPow(h);
    }
  }

  lemma MaxIndexPow(h: nat)
    requires 6 * h < 64
    ensures MaxIndex(h) == Pow2(6 * h) - 1
  {
    Pow2Of64(64);
    ShrOnes(64, 63 - 6 * h);
    ShrOnes(6 * h + 1, 1);
  }
}
