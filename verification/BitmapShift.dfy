/** Shifting a bitmap in place. */
module BitmapShift {
  import opened Bits
  import opened BitWords

  /** `bits` bits take `lim` words, the last of them with `left` bits, or full if that is 0. */
  ghost predicate Sized(bits: nat, lim: nat, left: nat) {
    if left == 0 then bits == BITS_PER_LONG * lim
      else left < BITS_PER_LONG && lim > 0 && bits + BITS_PER_LONG == BITS_PER_LONG * lim + left
  }

  lemma SizedIs(bits: nat)
    ensures Sized(bits, Longs(bits), bits % BITS_PER_LONG)
  {
  }

  /** `w & ((1UL << left) - 1)` in the last word, if it is not full. */
  function LastMask(w: nat, lim: nat, left: nat, k: nat): nat {
    if left > 0 && k + 1 == lim then Low(w, left) else w
  }

  /** A word of the shifted bitmap, from the word at its place before and the one below; words have `size` bits. */
  function ShiftedWord(size: nat, lower: nat, upper: nat, rem: nat): nat
    requires rem < size
  {
    Or(if rem == 0 then 0 else Shr(lower, size - rem), Low(Shl(upper, rem), size))
  }

  /** What word `k + off` becomes. */
  function NewWord(size: nat, s: Words, off: nat, rem: nat, left: nat, k: nat): nat
    requires k < |s| && rem < size
  {
    var lower := if rem > 0 && k > 0 then s[k - 1] else 0;
    LastMask(ShiftedWord(size, lower, LastMask(s[k], |s|, left, k), rem), |s|, left, k + off)
  }

  lemma LowLess(w: nat, n: nat, size: nat)
    requires n <= size
    ensures Low(w, n) < Pow2(size)
  {
    LowBound(w, n);
    Pow2Mono(n, size);
  }

  /** Whether bit `i` of word `k` is below the end of the bitmap. */
  ghost predicate Valid(lim: nat, left: nat, k: nat, i: nat) {
    left > 0 && k + 1 == lim ==> i < left
  }

  lemma MaskBit(size: nat, w: nat, lim: nat, left: nat, k: nat, i: nat)
    requires w < Pow2(size) && left < size
    ensures LastMask(w, lim, left, k) < Pow2(size)
      && TestBit(LastMask(w, lim, left, k), i) == (Valid(lim, left, k, i) && TestBit(w, i))
  {
    TestLow(w, left, i);
    LowLess(w, left, size);
  }

  lemma ShiftedBit(size: nat, lower: nat, upper: nat, rem: nat, i: nat)
    requires rem < size && lower < Pow2(size) && upper < Pow2(size) && i < size
    ensures ShiftedWord(size, lower, upper, rem) < Pow2(size)
    ensures TestBit(ShiftedWord(size, lower, upper, rem), i) == if i < rem then TestBit(lower, size - rem + i)
      else TestBit(upper, i - rem)
  {
    var a, b := if rem == 0 then 0 else Shr(lower, size - rem), Low(Shl(upper, rem), size);
    ShrBound(lower, size, size - rem);
    Pow2Mono(rem, size);
    LowLess(Shl(upper, rem), size, size);
    OrBound(a, b, size);
    TestOr(a, b, i);
    TestLow(Shl(upper, rem), size, i);
    TestShl(upper, rem, i);
    TestShr(lower, size - rem, i);
    TestZero(i);
    if i >= rem { TestBeyond(lower, size, size - rem + i); }
  }

  /** The bit that a shift moves to bit `i` of word `k + off`. */
  ghost predicate Source(size: nat, s: Words, off: nat, rem: nat, left: nat, k: nat, i: nat)
    requires k < |s| && rem < size && i < size
  {
    Valid(|s|, left, k + off, i) && if i < rem then k > 0 && TestBit(s[k - 1], size - rem + i)
      else Valid(|s|, left, k, i - rem) && TestBit(s[k], i - rem)
  }

  /** The bits of a shifted bitmap, word by word. */
  lemma NewWordBit(size: nat, s: Words, off: nat, rem: nat, left: nat, k: nat, i: nat)
    requires k < |s| && rem < size && left < size && i < size && forall j :: 0 <= j < |s| ==> s[j] < Pow2(size)
    ensures NewWord(size, s, off, rem, left, k) < Pow2(size)
      && TestBit(NewWord(size, s, off, rem, left, k), i) == Source(size, s, off, rem, left, k, i)
  {
    var lower, upper := if rem > 0 && k > 0 then s[k - 1] else 0, LastMask(s[k], |s|, left, k);
    MaskBit(size, s[k], |s|, left, k, if i >= rem then i - rem else 0);
    ShiftedBit(size, lower, upper, rem, i);
    MaskBit(size, ShiftedWord(size, lower, upper, rem), |s|, left, k + off, i);
    if i < rem && k == 0 { TestZero(size - rem + i); }
  }

  // ---------------------------------------------------------------- positions

  lemma ValidIs(bits: nat, lim: nat, left: nat, k: nat, i: nat)
    requires Sized(bits, lim, left) && k < lim && i < BITS_PER_LONG
    ensures Valid(lim, left, k, i) <==> BITS_PER_LONG * k + i < bits
  {
  }

  /** Every bit of `r` is that of `s`, `shift` places lower, and there are none beyond `bits`. */
  ghost predicate ShiftedBy(s: Words, r: Words, shift: nat, bits: nat) {
    && |r| == |s| && Holds(r, bits)
    && forall x :: 0 <= x < BITS_PER_LONG * |r| ==> IsSet(r, x) == (shift <= x < bits && IsSet(s, x - shift))
  }

  /** Where bit `i` of word `k + off` comes from. */
  lemma SourceIs(s: Words, size: nat, off: nat, rem: nat, bits: nat, left: nat, k: nat, i: nat)
    requires Sized(bits, |s|, left) && rem < size == BITS_PER_LONG && k + off < |s| && i < BITS_PER_LONG
    ensures var x, shift := BITS_PER_LONG * (k + off) + i, BITS_PER_LONG * off + rem;
      (shift <= x < bits ==> x - shift < BITS_PER_LONG * |s|)
        && Source(size, s, off, rem, left, k, i) == (shift <= x < bits && IsSet(s, x - shift))
  {
    ValidIs(bits, |s|, left, k + off, i);
    if i >= rem {
      WordBit(s, k, i - rem);
      ValidIs(bits, |s|, left, k, i - rem);
    } else if k > 0 {
      WordBit(s, k - 1, BITS_PER_LONG - rem + i);
    }
  }

  /** Word `j` of `r` is what the shift makes of `s`. */
  ghost predicate WordShifted(s: Words, r: Words, size: nat, off: nat, rem: nat, left: nat, j: nat)
    requires j < |r| == |s| && rem < size
  {
    r[j] == if j < off then 0 else NewWord(size, s, off, rem, left, j - off)
  }

  /** Bit `i` of word `j` of `r` is where the shift takes it from. */
  ghost predicate Moved(s: Words, r: Words, size: nat, off: nat, rem: nat, left: nat, j: nat, i: nat)
    requires j < |r| == |s| && rem < size && i < size
  {
    r[j] < Pow2(size) && TestBit(r[j], i) == (j >= off && Source(size, s, off, rem, left, j - off, i))
  }

  lemma WordMoved(s: Words, r: Words, size: nat, off: nat, rem: nat, left: nat, j: nat, i: nat)
    requires j < |r| == |s| && rem < size && left < size && i < size && forall j :: 0 <= j < |s| ==> s[j] < Pow2(size)
    requires WordShifted(s, r, size, off, rem, left, j)
    ensures Moved(s, r, size, off, rem, left, j, i)
  {
    if j < off {
      TestZero(i);
    } else {
      NewWordBit(size, s, off, rem, left, j - off, i);
    }
  }

  lemma AtPosition(s: Words, r: Words, size: nat, off: nat, rem: nat, bits: nat, left: nat, x: nat)
    requires Sized(bits, |s|, left) && |r| == |s| && rem < size == BITS_PER_LONG && off <= |s|
      && x < BITS_PER_LONG * |r|
    requires Moved(s, r, size, off, rem, left, x / BITS_PER_LONG, x % BITS_PER_LONG)
    ensures var shift := BITS_PER_LONG * off + rem; IsSet(r, x) == (shift <= x < bits && IsSet(s, x - shift))
  {
    var j, i := x / BITS_PER_LONG, x % BITS_PER_LONG;
    if j >= off { SourceIs(s, size, off, rem, bits, left, j - off, i); }
  }

  lemma AllShifted(s: Words, r: Words, size: nat, off: nat, rem: nat, bits: nat, left: nat, shift: nat)
    requires Holds(s, bits) && Sized(bits, |s|, left) && |r| == |s| && rem < size == BITS_PER_LONG && off <= |s|
      && shift == BITS_PER_LONG * off + rem
    requires forall j: nat, i: nat :: j < |r| && i < size ==> Moved(s, r, size, off, rem, left, j, i)
    ensures ShiftedBy(s, r, shift, bits)
  {
    Pow2Of64(BITS_PER_LONG);
    forall j | 0 <= j < |r| ensures r[j] < WORD_LIMIT {
      assert Moved(s, r, size, off, rem, left, j, 0);
    }
    forall x | 0 <= x < BITS_PER_LONG * |r| ensures IsSet(r, x) == (shift <= x < bits && IsSet(s, x - shift)) {
      assert Moved(s, r, size, off, rem, left, x / BITS_PER_LONG, x % BITS_PER_LONG);
      AtPosition(s, r, size, off, rem, bits, left, x);
    }
  }

  /** Lines 159-176: word by word, from the last one down. */
  method ShiftWords(a: array<nat>, size: nat, off: nat, rem: nat, left: nat)
    requires off <= a.Length && rem < size
    modifies a
    ensures forall j :: off <= j < a.Length ==> a[j] == NewWord(size, old(a[..]), off, rem, left, j - off)
  {
    ghost var s := a[..];
    var lim := a.Length;
    var k := lim - off - 1;
    while k >= 0
      invariant -1 <= k <= lim - off - 1
      invariant forall j :: 0 <= j <= k + off && j < lim ==> a[j] == s[j]
      invariant forall j :: k + off < j < lim ==> a[j] == NewWord(size, s, off, rem, left, j - off)
    {
      var lower := if rem > 0 && k > 0 then a[k - 1] else 0;
      var upper := a[k];
      if left > 0 && k == lim - 1 {
        upper := Low(upper, left);
      }
      var v := ShiftedWord(size, lower, upper, rem);
      if left > 0 && k + off == lim - 1 {
        v := Low(v, left);
      }
      assert v == NewWord(size, s, off, rem, left, k);
      a[k + off] := v;
      k := k - 1;
    }
  }

  /** The words below `off` are cleared. */
  method ClearWords(a: array<nat>, off: nat)
    requires off <= a.Length
    modifies a
    ensures forall j :: 0 <= j < a.Length ==> a[j] == if j < off then 0 else old(a[j])
  {
    var z := 0;
    while z < off
      invariant 0 <= z <= off
      invariant forall j :: 0 <= j < a.Length ==> a[j] == if j < z then 0 else old(a[j])
    {
      a[z] := 0;
      z := z + 1;
    }
  }

  method ShiftAll(a: array<nat>, size: nat, off: nat, rem: nat, left: nat)
    requires off <= a.Length && rem < size && left < size && forall j :: 0 <= j < a.Length ==> a[j] < Pow2(size)
    modifies a
    ensures forall j: nat, i: nat :: j < a.Length && i < size ==> Moved(old(a[..]), a[..], size, off, rem, left, j, i)
  {
    ghost var s := a[..];
    ShiftWords(a, size, off, rem, left);
    ClearWords(a, off);
    forall j: nat, i: nat | j < a.Length && i < size ensures Moved(s, a[..], size, off, rem, left, j, i) {
      assert WordShifted(s, a[..], size, off, rem, left, j);
      WordMoved(s, a[..], size, off, rem, left, j, i);
    }
  }

  /** `__bitmap_shift_left`, lines 154-179, with source and destination the same. */
  method ShiftLeft(a: array<nat>, shift: nat, bits: nat)
    requires a.Length == Longs(bits) && Holds(a[..], bits) && shift / BITS_PER_LONG <= a.Length
    modifies a
    ensures ShiftedBy(old(a[..]), a[..], shift, bits)
  {
    var left, off, rem := bits % BITS_PER_LONG, shift / BITS_PER_LONG, shift % BITS_PER_LONG;
    SizedIs(bits);
    Pow2Of64(BITS_PER_LONG);
    ShiftAll(a, BITS_PER_LONG, off, rem, left);
    AllShifted(old(a[..]), a[..], BITS_PER_LONG, off, rem, bits, left, shift);
  }
}
