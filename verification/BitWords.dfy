/** Single bits of machine words, and the word operations of lib/bitmap.c in terms of them. */
module BitWords {
  import opened Bits

  const BITS_PER_LONG: nat := 64

  /** One more than the largest word. */
  const WORD_LIMIT: nat := 0x1_0000_0000_0000_0000

  predicate TestBit(w: nat, i: nat) {
    Shr(w, i) % 2 == 1
  }

  /** Bit `i + 1` of a word is bit `i` of its half. */
  lemma TestHalf(w: nat, i: nat)
    ensures TestBit(w, i + 1) == TestBit(w / 2, i) && TestBit(w, 0) == (w % 2 == 1)
  {
  }

  lemma {:induction false} TestLow(w: nat, n: nat, i: nat)
    ensures TestBit(Low(w, n), i) == (i < n && TestBit(w, i))
    decreases n
  {
    if n == 0 {
      TestZero(i);
    } else {
      var l := Low(w, n);
      assert l / 2 == Low(w / 2, n - 1) && l % 2 == w % 2;
      if i > 0 {
        TestHalf(l, i - 1);
        TestHalf(w, i - 1);
        TestLow(w / 2, n - 1, i - 1);
      }
    }
  }

  lemma {:induction false} TestZero(i: nat)
    ensures !TestBit(0, i)
  {
    if i > 0 { TestZero(i - 1); }
  }

  lemma TestShr(w: nat, m: nat, i: nat)
    ensures TestBit(Shr(w, m), i) == TestBit(w, m + i)
  {
    ShrShr(w, m, i);
  }

  /** A word below `2^n` has no bits from `n` on. */
  lemma {:induction false} TestBeyond(w: nat, n: nat, i: nat)
    requires w < Pow2(n) && n <= i
    ensures !TestBit(w, i)
    decreases n
  {
    if n == 0 {
      TestZero(i);
    } else {
      TestBeyond(w / 2, n - 1, i - 1);
    }
  }

  /** `w << r`, without a limit. */
  function Shl(w: nat, r: nat): nat
    decreases r
  {
    if r == 0 then w else 2 * Shl(w, r - 1)
  }

  lemma {:induction false} TestShl(w: nat, r: nat, i: nat)
    ensures TestBit(Shl(w, r), i) == (i >= r && TestBit(w, i - r))
    decreases r
  {
    if r > 0 && i > 0 {
      assert Shl(w, r) / 2 == Shl(w, r - 1);
      TestHalf(Shl(w, r), i - 1);
      TestShl(w, r - 1, i - 1);
    }
  }

  /** `a | b` */
  function Or(a: nat, b: nat): nat
    decreases a + b
  {
    if a == 0 && b == 0 then 0 else (if a % 2 == 1 || b % 2 == 1 then 1 else 0) + 2 * Or(a / 2, b / 2)
  }

  lemma {:induction false} TestOr(a: nat, b: nat, i: nat)
    ensures TestBit(Or(a, b), i) == (TestBit(a, i) || TestBit(b, i))
    decreases i
  {
    if a == 0 && b == 0 {
      TestZero(i);
    } else {
      var o := Or(a, b);
      assert o / 2 == Or(a / 2, b / 2);
      if i > 0 {
        TestHalf(o, i - 1);
        TestHalf(a, i - 1);
        TestHalf(b, i - 1);
        TestOr(a / 2, b / 2, i - 1);
      }
    }
  }

  lemma {:induction false} OrBound(a: nat, b: nat, n: nat)
    requires a < Pow2(n) && b < Pow2(n)
    ensures Or(a, b) < Pow2(n)
    decreases n
  {
    if n > 0 && (a != 0 || b != 0) {
      OrBound(a / 2, b / 2, n - 1);
    }
  }

  /** `w & (~0UL << n)` */
  function ClearLow(w: nat, n: nat): nat
    decreases n
  {
    if n == 0 then w else 2 * ClearLow(w / 2, n - 1)
  }

  lemma {:induction false} TestClearLow(w: nat, n: nat, i: nat)
    ensures TestBit(ClearLow(w, n), i) == (i >= n && TestBit(w, i))
    decreases n
  {
    if n > 0 && i > 0 {
      var c := ClearLow(w, n);
      assert c / 2 == ClearLow(w / 2, n - 1);
      TestHalf(c, i - 1);
      TestHalf(w, i - 1);
      TestClearLow(w / 2, n - 1, i - 1);
    }
  }

  lemma LowLimit(w: nat, n: nat)
    requires n <= BITS_PER_LONG
    ensures Low(w, n) < WORD_LIMIT
  {
    LowBound(w, n);
    Pow2Of64(BITS_PER_LONG);
    Pow2Mono(n, BITS_PER_LONG);
  }

  /** `__ffs(w)` */
  function LowestBit(w: nat): nat
    requires w > 0
  {
    if w % 2 == 1 then 0 else LowestBit(w / 2) + 1
  }

  lemma {:induction false} LowestIs(w: nat)
    requires w > 0
    ensures TestBit(w, LowestBit(w)) && forall j :: 0 <= j < LowestBit(w) ==> !TestBit(w, j)
  {
    if w % 2 == 0 {
      var i := LowestBit(w / 2);
      LowestIs(w / 2);
      TestHalf(w, i);
      forall j | 0 <= j < i + 1 ensures !TestBit(w, j) {
        if j > 0 { TestHalf(w, j - 1); }
      }
    }
  }

  /** A word without bits is zero. */
  lemma {:induction false} NoBits(w: nat, n: nat)
    requires w < Pow2(n) && forall i :: 0 <= i < n ==> !TestBit(w, i)
    ensures w == 0
  {
    if n > 0 {
      assert !TestBit(w, 0);
      forall i | 0 <= i < n - 1 ensures !TestBit(w / 2, i) {
        TestHalf(w, i);
      }
      NoBits(w / 2, n - 1);
    }
  }

  /** Numbers with the same bits are equal. */
  lemma {:induction false} SameBits(a: nat, b: nat)
    requires forall i: nat :: TestBit(a, i) == TestBit(b, i)
    ensures a == b
    decreases a + b
  {
    if a + b > 0 {
      TestHalf(a, 0);
      TestHalf(b, 0);
      assert TestBit(a, 0) == TestBit(b, 0);
      forall i: nat ensures TestBit(a / 2, i) == TestBit(b / 2, i) {
        TestHalf(a, i);
        TestHalf(b, i);
        assert TestBit(a, i + 1) == TestBit(b, i + 1);
      }
      SameBits(a / 2, b / 2);
    }
  }

  // ---------------------------------------------------------------- bitmaps

  type Words = seq<nat>

  /** The words are 64-bit words, and there are enough of them for `n` bits. */
  ghost predicate Holds(a: Words, n: nat) {
    n <= BITS_PER_LONG * |a| && forall k :: 0 <= k < |a| ==> a[k] < WORD_LIMIT
  }

  predicate IsSet(a: Words, i: nat)
    requires i < BITS_PER_LONG * |a|
  {
    TestBit(a[i / BITS_PER_LONG], i % BITS_PER_LONG)
  }

  /** The words that hold `n` bits. */
  function Longs(n: nat): nat {
    (n + BITS_PER_LONG - 1) / BITS_PER_LONG
  }

  // ---------------------------------------------------------------- the next set bit

  /** `i` is the least set bit from `from` on below `n`, or `n` if there is none. */
  ghost predicate IsNext(a: Words, n: nat, from: nat, i: nat)
    requires n <= BITS_PER_LONG * |a|
  {
    && i <= n && (i < n ==> IsSet(a, i) && from <= i)
    && forall j :: from <= j < i && j < n ==> !IsSet(a, j)
  }

  lemma WordBit(a: Words, k: nat, i: nat)
    requires k < |a| && i < BITS_PER_LONG
    ensures BITS_PER_LONG * k + i < BITS_PER_LONG * |a| && IsSet(a, BITS_PER_LONG * k + i) == TestBit(a[k], i)
  {
    assert (BITS_PER_LONG * k + i) / BITS_PER_LONG == k && (BITS_PER_LONG * k + i) % BITS_PER_LONG == i;
  }

  /** The bits of word `k` from `lo` up to `hi`. */
  ghost predicate IsPart(a: Words, k: nat, lo: nat, hi: nat, tmp: nat)
    requires k < |a|
  {
    && lo <= hi <= BITS_PER_LONG && tmp < WORD_LIMIT
    && forall i :: 0 <= i < BITS_PER_LONG ==> TestBit(tmp, i) == (lo <= i < hi && TestBit(a[k], i))
  }

  /** No bits are set from `from` up to `to`. */
  ghost predicate Clear(a: Words, from: nat, to: nat)
    requires to <= BITS_PER_LONG * |a|
  {
    forall j :: from <= j < to ==> !IsSet(a, j)
  }

  lemma PartEmpty(a: Words, k: nat, lo: nat, hi: nat, tmp: nat)
    requires k < |a| && IsPart(a, k, lo, hi, tmp) && tmp == 0
    ensures Clear(a, BITS_PER_LONG * k + lo, BITS_PER_LONG * k + hi)
  {
    forall j | BITS_PER_LONG * k + lo <= j < BITS_PER_LONG * k + hi ensures !IsSet(a, j) {
      var i := j - BITS_PER_LONG * k;
      WordBit(a, k, i);
      TestZero(i);
    }
  }

  lemma PartFirst(a: Words, k: nat, lo: nat, hi: nat, tmp: nat)
    requires k < |a| && IsPart(a, k, lo, hi, tmp) && tmp > 0
    ensures lo <= LowestBit(tmp) < hi && IsSet(a, BITS_PER_LONG * k + LowestBit(tmp))
      && Clear(a, BITS_PER_LONG * k + lo, BITS_PER_LONG * k + LowestBit(tmp))
  {
    var i := LowestBit(tmp);
    LowestIs(tmp);
    if i >= BITS_PER_LONG {
      Pow2Of64(BITS_PER_LONG);
      TestBeyond(tmp, BITS_PER_LONG, i);
    }
    WordBit(a, k, i);
    forall j | BITS_PER_LONG * k + lo <= j < BITS_PER_LONG * k + i ensures !IsSet(a, j) {
      WordBit(a, k, j - BITS_PER_LONG * k);
    }
  }

  /** `find_next_bit`, lines 21-58 of lib/find_next_bit.c. */
  method FindNextBit(a: Words, size0: nat, offset0: nat) returns (r: nat)
    requires Holds(a, size0)
    ensures IsNext(a, size0, offset0, r)
  {
    if offset0 >= size0 {
      return size0;
    }
    var k, offset := offset0 / BITS_PER_LONG, offset0 % BITS_PER_LONG;
    if offset > 0 {
      var tmp := ClearLow(a[k], offset);
      ClearPart(a, k, offset);
      if size0 - BITS_PER_LONG * k < BITS_PER_LONG {
        r := Tail(a, size0, offset0, k, offset, tmp);
        return;
      }
      if tmp != 0 {
        PartFirst(a, k, offset, BITS_PER_LONG, tmp);
        return BITS_PER_LONG * k + LowestBit(tmp);
      }
      PartEmpty(a, k, offset, BITS_PER_LONG, tmp);
      k := k + 1;
    }
    r := ScanWords(a, size0, offset0, k);
  }

  /** Lines 42-47: whole words from word `k0` on. */
  method ScanWords(a: Words, size0: nat, offset0: nat, k0: nat) returns (r: nat)
    requires Holds(a, size0) && offset0 <= BITS_PER_LONG * k0 <= size0 && Clear(a, offset0, BITS_PER_LONG * k0)
    ensures IsNext(a, size0, offset0, r)
  {
    var k, size := k0, size0 - BITS_PER_LONG * k0;
    while size >= BITS_PER_LONG
      invariant size == size0 - BITS_PER_LONG * k && offset0 <= BITS_PER_LONG * k <= size0
        && Clear(a, offset0, BITS_PER_LONG * k)
      decreases size
    {
      WholePart(a, k);
      if a[k] != 0 {
        PartFirst(a, k, 0, BITS_PER_LONG, a[k]);
        return BITS_PER_LONG * k + LowestBit(a[k]);
      }
      PartEmpty(a, k, 0, BITS_PER_LONG, a[k]);
      k := k + 1;
      size := size - BITS_PER_LONG;
    }
    if size == 0 {
      return BITS_PER_LONG * k;
    }
    WholePart(a, k);
    r := Tail(a, size0, offset0, k, 0, a[k]);
  }

  lemma WholePart(a: Words, k: nat)
    requires k < |a| && a[k] < WORD_LIMIT
    ensures IsPart(a, k, 0, BITS_PER_LONG, a[k])
  {
  }

  lemma {:induction false} ClearBound(w: nat, n: nat)
    ensures ClearLow(w, n) <= w
    decreases n
  {
    if n > 0 { ClearBound(w / 2, n - 1); }
  }

  lemma ClearPart(a: Words, k: nat, n: nat)
    requires k < |a| && a[k] < WORD_LIMIT && n <= BITS_PER_LONG
    ensures IsPart(a, k, n, BITS_PER_LONG, ClearLow(a[k], n))
  {
    ClearBound(a[k], n);
    forall i | 0 <= i < BITS_PER_LONG
      ensures TestBit(ClearLow(a[k], n), i) == (n <= i < BITS_PER_LONG && TestBit(a[k], i)) {
      TestClearLow(a[k], n, i);
    }
  }

  /** Lines 48-57: the last, partial word, of which the bits from `lo` on are in `tmp0`. */
  method Tail(a: Words, size0: nat, offset0: nat, k: nat, lo: nat, tmp0: nat) returns (r: nat)
    requires Holds(a, size0) && k < |a| && BITS_PER_LONG * k < size0 < BITS_PER_LONG * (k + 1)
      && IsPart(a, k, lo, BITS_PER_LONG, tmp0)
    requires BITS_PER_LONG * k + lo <= size0 && offset0 <= BITS_PER_LONG * k + lo
      && Clear(a, offset0, BITS_PER_LONG * k + lo)
    ensures IsNext(a, size0, offset0, r)
  {
    var size := size0 - BITS_PER_LONG * k;
    var tmp := Low(tmp0, size);
    LowLimit(tmp0, size);
    forall i | 0 <= i < BITS_PER_LONG ensures TestBit(tmp, i) == (lo <= i < size && TestBit(a[k], i)) {
      TestLow(tmp0, size, i);
    }
    if tmp == 0 {
      PartEmpty(a, k, lo, size, tmp);
      return size0;
    }
    PartFirst(a, k, lo, size, tmp);
    r := BITS_PER_LONG * k + LowestBit(tmp);
  }
}
