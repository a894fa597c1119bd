/** Numbering the set bits of a bitmap, and mapping one bitmap by a pair of others. */
module BitmapRemap {
  import opened Bits
  import opened BitWords

  /** The number of bits set below `p`. */
  function Rank(a: Words, p: nat): (r: nat)
    requires p <= BITS_PER_LONG * |a|
    ensures r <= p
  {
    if p == 0 then 0 else Rank(a, p - 1) + if IsSet(a, p - 1) then 1 else 0
  }

  lemma {:induction false} RankGap(a: Words, p: nat, q: nat)
    requires p <= q <= BITS_PER_LONG * |a| && Clear(a, p, q)
    ensures Rank(a, q) == Rank(a, p)
    decreases q
  {
    if p < q { RankGap(a, p, q - 1); }
  }

  lemma {:induction false} RankMono(a: Words, p: nat, q: nat)
    requires p <= q <= BITS_PER_LONG * |a|
    ensures Rank(a, p) <= Rank(a, q)
    decreases q
  {
    if p < q { RankMono(a, p, q - 1); }
  }

  lemma RankLess(a: Words, p: nat, q: nat)
    requires p < q <= BITS_PER_LONG * |a| && IsSet(a, p)
    ensures Rank(a, p) < Rank(a, q)
  {
    RankMono(a, p + 1, q);
  }

  /** Set bits are told apart by their numbers. */
  lemma RankUnique(a: Words, p: nat, q: nat)
    requires p < BITS_PER_LONG * |a| && q < BITS_PER_LONG * |a| && IsSet(a, p) && IsSet(a, q)
      && Rank(a, p) == Rank(a, q)
    ensures p == q
  {
    if p < q { RankLess(a, p, q); }
    if q < p { RankLess(a, q, p); }
  }

  /** The set bit number `ord` below `p`, or 0. */
  function NthBit(a: Words, p: nat, ord: nat): (r: nat)
    requires p <= BITS_PER_LONG * |a|
    ensures if ord < Rank(a, p) then r < p && IsSet(a, r) && Rank(a, r) == ord else r == 0
  {
    if p == 0 then 0 else if IsSet(a, p - 1) && Rank(a, p - 1) == ord then p - 1
    else if ord < Rank(a, p - 1) then NthBit(a, p - 1, ord) else 0
  }

  method FindFirstBit(a: Words, size: nat) returns (r: nat)
    requires Holds(a, size)
    ensures IsNext(a, size, 0, r)
  {
    r := ScanWords(a, size, 0, 0);
  }

  lemma NextRank(a: Words, n: nat, from: nat, i: nat)
    requires n <= BITS_PER_LONG * |a| && IsNext(a, n, from, i) && from <= n
    ensures from <= i && Rank(a, i) == Rank(a, from)
  {
    RankGap(a, from, if from <= i then i else from);
  }

  /** `bitmap_pos_to_ord`, lines 565-581: the number of a set bit. */
  method PosToOrd(a: Words, pos: int, bits: nat) returns (ord: int)
    requires Holds(a, bits)
    ensures ord == if 0 <= pos < bits && IsSet(a, pos) then Rank(a, pos) else -1
  {
    if pos < 0 || pos >= bits || !IsSet(a, pos) {
      return -1;
    }
    var i := FindFirstBit(a, bits);
    NextRank(a, bits, 0, i);
    ord := 0;
    while i < pos
      invariant 0 <= i <= pos && IsSet(a, i) && ord == Rank(a, i)
    {
      ghost var was := i;
      i := FindNextBit(a, bits, i + 1);
      NextRank(a, bits, was + 1, i);
      ord := ord + 1;
    }
    assert i == pos;
  }

  /** `bitmap_ord_to_pos`, lines 601-617: the set bit with a number. */
  method OrdToPos(a: Words, ord0: int, bits: nat) returns (pos: nat)
    requires Holds(a, bits)
    ensures pos == if ord0 < 0 then 0 else NthBit(a, bits, ord0)
  {
    pos := 0;
    if 0 <= ord0 < bits {
      var ord := ord0;
      var i := FindFirstBit(a, bits);
      NextRank(a, bits, 0, i);
      while i < bits && ord > 0
        invariant 0 <= ord <= ord0 && i <= bits && Rank(a, i) == ord0 - ord && (i < bits ==> IsSet(a, i))
        decreases bits - i
      {
        ghost var was := i;
        i := FindNextBit(a, bits, i + 1);
        NextRank(a, bits, was + 1, i);
        ord := ord - 1;
      }
      if i < bits && ord == 0 {
        pos := i;
        RankMono(a, i + 1, bits);
        RankUnique(a, i, NthBit(a, bits, ord0));
      } else {
        assert i == bits;
      }
    }
  }

  // ---------------------------------------------------------------- bits in both directions

  /** Position and number of a set bit determine each other. */
  lemma OrdPosInverse(a: Words, bits: nat, pos: nat, ord: nat)
    requires bits <= BITS_PER_LONG * |a|
    ensures pos < bits && IsSet(a, pos) ==> Rank(a, pos) < Rank(a, bits) && NthBit(a, bits, Rank(a, pos)) == pos
    ensures ord < Rank(a, bits) ==>
      NthBit(a, bits, ord) < bits && IsSet(a, NthBit(a, bits, ord)) && Rank(a, NthBit(a, bits, ord)) == ord
  {
    if pos < bits && IsSet(a, pos) {
      RankMono(a, pos + 1, bits);
      RankUnique(a, pos, NthBit(a, bits, Rank(a, pos)));
    }
  }

  // ---------------------------------------------------------------- remapping

  ghost function BitSet(a: Words, bits: nat): set<nat>
    requires bits <= BITS_PER_LONG * |a|
  {
    set i | 0 <= i < bits && IsSet(a, i)
  }

  function Modulo(n: nat, w: nat): (r: nat)
    requires w > 0
    ensures r < w && (n < w ==> r == n)
  {
    n % w
  }

  /** Where the pair of bitmaps maps a bit. */
  function MapBit(from: Words, to: Words, bits: nat, b: nat): nat
    requires bits <= BITS_PER_LONG * |from| && bits <= BITS_PER_LONG * |to| && b < bits
  {
    if IsSet(from, b) && Rank(to, bits) > 0 then NthBit(to, bits, Modulo(Rank(from, b), Rank(to, bits))) else b
  }

  lemma MapBitBound(from: Words, to: Words, bits: nat, b: nat)
    requires bits <= BITS_PER_LONG * |from| && bits <= BITS_PER_LONG * |to| && b < bits
    ensures MapBit(from, to, bits, b) < bits
  {
  }

  ghost function MapSet(from: Words, to: Words, bits: nat, s: set<nat>): set<nat>
    requires bits <= BITS_PER_LONG * |from| && bits <= BITS_PER_LONG * |to| && forall b :: b in s ==> b < bits
  {
    set b | b in s :: MapBit(from, to, bits, b)
  }

  /** The number of a bit is how many bits are set below it. */
  lemma {:induction false} RankCounts(a: Words, p: nat)
    requires p <= BITS_PER_LONG * |a|
    ensures Rank(a, p) == |BitSet(a, p)|
  {
    if p == 0 {
      assert BitSet(a, 0) == {};
    } else {
      RankCounts(a, p - 1);
      assert BitSet(a, p) == BitSet(a, p - 1) + if IsSet(a, p - 1) then {p - 1} else {};
    }
  }

  /**
    Bit `b` lands on bit `x`: a bit of `from` on the bit of `to` with its number, modulo how many there are; any other
    bit, and every bit if `to` is empty, on itself.
   */
  ghost predicate Lands(from: Words, to: Words, bits: nat, b: nat, x: nat)
    requires bits <= BITS_PER_LONG * |from| && bits <= BITS_PER_LONG * |to| && b < bits
  {
    if IsSet(from, b) && BitSet(to, bits) != {} then
      x < bits && IsSet(to, x) && |BitSet(to, x)| == |BitSet(from, b)| % |BitSet(to, bits)|
    else x == b
  }

  lemma NoneSet(a: Words, bits: nat)
    requires bits <= BITS_PER_LONG * |a|
    ensures BitSet(a, bits) == {} <==> Rank(a, bits) == 0
  {
    if Rank(a, bits) > 0 {
      var x := NthBit(a, bits, 0);
      assert x in BitSet(a, bits);
    } else {
      forall x | x in BitSet(a, bits) ensures false {
        RankLess(a, x, bits);
      }
    }
  }

  lemma MapBitIs(from: Words, to: Words, bits: nat, b: nat, x: nat)
    requires bits <= BITS_PER_LONG * |from| && bits <= BITS_PER_LONG * |to| && b < bits
    ensures MapBit(from, to, bits, b) == x <==> Lands(from, to, bits, b, x)
  {
    NoneSet(to, bits);
    if IsSet(from, b) && Rank(to, bits) > 0 {
      var y := MapBit(from, to, bits, b);
      RankCounts(to, y);
      RankCounts(to, bits);
      RankCounts(from, b);
      if Lands(from, to, bits, b, x) {
        RankCounts(to, x);
        RankUnique(to, x, y);
      }
    }
  }

  /** The image of a set, without counting positions. */
  lemma MapSetIs(from: Words, to: Words, bits: nat, s: set<nat>)
    requires bits <= BITS_PER_LONG * |from| && bits <= BITS_PER_LONG * |to| && forall b :: b in s ==> b < bits
    ensures forall x :: x in MapSet(from, to, bits, s) <==> exists b :: b in s && Lands(from, to, bits, b, x)
  {
    forall b, x | b in s ensures MapBit(from, to, bits, b) == x <==> Lands(from, to, bits, b, x) {
      if x >= 0 { MapBitIs(from, to, bits, b, x); }
    }
  }

  /** A bit of `from` comes back when mapped there and back between bitmaps of equal weight. */
  lemma ThereAndBack(from: Words, to: Words, bits: nat, b: nat)
    requires bits <= BITS_PER_LONG * |from| && bits <= BITS_PER_LONG * |to| && b < bits && IsSet(from, b)
      && Rank(from, bits) == Rank(to, bits)
    ensures MapBit(from, to, bits, b) < bits && MapBit(to, from, bits, MapBit(from, to, bits, b)) == b
  {
    OrdPosInverse(from, bits, b, 0);
    OrdPosInverse(to, bits, 0, Rank(from, b));
  }

  /** Remapping there and back gives back every subset. */
  lemma RemapRoundTrip(from: Words, to: Words, bits: nat, s: set<nat>)
    requires bits <= BITS_PER_LONG * |from| && bits <= BITS_PER_LONG * |to| && Rank(from, bits) == Rank(to, bits)
    requires s <= BitSet(from, bits)
    ensures forall b :: b in MapSet(from, to, bits, s) ==> b < bits
    ensures MapSet(to, from, bits, MapSet(from, to, bits, s)) == s
  {
    forall b | b in s
      ensures MapBit(from, to, bits, b) < bits && MapBit(to, from, bits, MapBit(from, to, bits, b)) == b {
      ThereAndBack(from, to, bits, b);
    }
    var there := MapSet(from, to, bits, s);
    forall b | b in s ensures b in MapSet(to, from, bits, there) {
      assert MapBit(from, to, bits, b) in there;
    }
  }

  // ---------------------------------------------------------------- setting bits

  lemma {:induction false} ShlOneBound(i: nat, n: nat)
    requires i < n
    ensures Shl(1, i) < Pow2(n)
    decreases i
  {
    if i > 0 { ShlOneBound(i - 1, n - 1); } else { Pow2Mono(1, n); }
  }

  lemma TestOne(i: nat)
    ensures TestBit(1, i) == (i == 0)
  {
    if i > 0 { TestHalf(1, i - 1); TestZero(i - 1); }
  }

  /** The bits of a word after `w | 1 << r`. */
  lemma SetWord(w: nat, r: nat, i: nat)
    requires w < WORD_LIMIT && r < BITS_PER_LONG
    ensures Or(w, Shl(1, r)) < WORD_LIMIT && TestBit(Or(w, Shl(1, r)), i) == (TestBit(w, i) || i == r)
  {
    Pow2Of64(BITS_PER_LONG);
    ShlOneBound(r, BITS_PER_LONG);
    OrBound(w, Shl(1, r), BITS_PER_LONG);
    TestOr(w, Shl(1, r), i);
    TestShl(1, r, i);
    if i >= r { TestOne(i - r); }
  }

  function WithBit(a: Words, b: nat): Words
    requires b < BITS_PER_LONG * |a|
  {
    a[b / BITS_PER_LONG := Or(a[b / BITS_PER_LONG], Shl(1, b % BITS_PER_LONG))]
  }

  lemma WithBitIs(a: Words, b: nat, i: nat)
    requires Holds(a, 0) && b < BITS_PER_LONG * |a| && i < BITS_PER_LONG * |a|
    ensures IsSet(WithBit(a, b), i) == (IsSet(a, i) || i == b)
  {
    SetWord(a[b / BITS_PER_LONG], b % BITS_PER_LONG, i % BITS_PER_LONG);
    assert i == BITS_PER_LONG * (i / BITS_PER_LONG) + i % BITS_PER_LONG;
  }

  lemma WithBitHolds(a: Words, b: nat, n: nat)
    requires Holds(a, n) && b < BITS_PER_LONG * |a|
    ensures Holds(WithBit(a, b), n)
  {
    SetWord(a[b / BITS_PER_LONG], b % BITS_PER_LONG, 0);
  }

  lemma WithBitSet(a: Words, b: nat, n: nat)
    requires Holds(a, n) && b < n
    ensures Holds(WithBit(a, b), n) && BitSet(WithBit(a, b), n) == BitSet(a, n) + {b}
  {
    WithBitHolds(a, b, n);
    forall i | 0 <= i < n ensures IsSet(WithBit(a, b), i) == (IsSet(a, i) || i == b) {
      WithBitIs(a, b, i);
    }
  }

  /** `set_bit` */
  method SetBit(dst: array<nat>, b: nat, ghost n: nat)
    requires Holds(dst[..], n) && b < n
    modifies dst
    ensures Holds(dst[..], n) && BitSet(dst[..], n) == BitSet(old(dst[..]), n) + {b}
  {
    WithBitSet(dst[..], b, n);
    ghost var after := WithBit(dst[..], b);
    dst[b / BITS_PER_LONG] := Or(dst[b / BITS_PER_LONG], Shl(1, b % BITS_PER_LONG));
    assert dst[..] == after;
  }

  /** `bitmap_zero` */
  method Zero(dst: array<nat>, ghost n: nat)
    requires n <= BITS_PER_LONG * dst.Length
    modifies dst
    ensures Holds(dst[..], n) && BitSet(dst[..], n) == {} && forall k :: 0 <= k < dst.Length ==> dst[k] == 0
  {
    for k := 0 to dst.Length
      invariant forall j :: 0 <= j < k ==> dst[j] == 0
    {
      dst[k] := 0;
    }
    forall i | 0 <= i < n ensures !IsSet(dst[..], i) {
      TestZero(i % BITS_PER_LONG);
    }
  }

  /** The set bits below `p`. */
  ghost function Below(a: Words, bits: nat, p: nat): set<nat>
    requires bits <= BITS_PER_LONG * |a|
  {
    set i | 0 <= i < bits && i < p && IsSet(a, i)
  }

  /** `bitmap_remap`, lines 651-671: onto itself a bitmap is not remapped at all. */
  method Remap(dst: array<nat>, src: array<nat>, from: Words, to: Words, bits: nat)
    requires Holds(src[..], bits) && Holds(from, bits) && Holds(to, bits) && bits <= BITS_PER_LONG * dst.Length
    modifies dst
    ensures if dst == src then dst[..] == old(dst[..])
      else Holds(dst[..], bits) && BitSet(dst[..], bits) == MapSet(from, to, bits, BitSet(old(src[..]), bits))
    ensures dst != src ==> forall x ::
      x in BitSet(dst[..], bits) <==> exists b :: b in BitSet(old(src[..]), bits) && Lands(from, to, bits, b, x)
  {
    if dst == src {
      return;
    }
    MapSetIs(from, to, bits, BitSet(src[..], bits));
    RemapInto(dst, src[..], from, to, bits);
  }

  /** Lines 659-670: into a bitmap of its own. */
  method RemapInto(dst: array<nat>, src: Words, from: Words, to: Words, bits: nat)
    requires Holds(src, bits) && Holds(from, bits) && Holds(to, bits) && bits <= BITS_PER_LONG * dst.Length
    modifies dst
    ensures Holds(dst[..], bits) && BitSet(dst[..], bits) == MapSet(from, to, bits, BitSet(src, bits))
  {
    Zero(dst, bits);
    var w := Rank(to, bits);
    var b := FindFirstBit(src, bits);
    while b < bits
      invariant b <= bits && Holds(dst[..], bits) && (b < bits ==> IsSet(src, b))
      invariant BitSet(dst[..], bits) == MapSet(from, to, bits, Below(src, bits, b))
      decreases bits - b
    {
      var x := MapOne(from, to, bits, b, w);
      MapBitBound(from, to, bits, b);
      ghost var was, set0 := b, BitSet(dst[..], bits);
      SetBit(dst, x, bits);
      b := FindNextBit(src, bits, b + 1);
      BelowNext(src, bits, was, b);
      MapSetAdd(from, to, bits, Below(src, bits, was), was);
    }
    assert Below(src, bits, b) == BitSet(src, bits);
  }

  /** Lines 665-669 for one bit. */
  method MapOne(from: Words, to: Words, bits: nat, b: nat, w: nat) returns (x: nat)
    requires Holds(from, bits) && Holds(to, bits) && b < bits && w == Rank(to, bits)
    ensures x == MapBit(from, to, bits, b)
  {
    var n := PosToOrd(from, b, bits);
    if n < 0 || w == 0 {
      x := b;
    } else {
      x := OrdToPos(to, Modulo(n, w), bits);
    }
  }

  lemma BelowNext(a: Words, bits: nat, p: nat, q: nat)
    requires bits <= BITS_PER_LONG * |a| && p < bits && IsSet(a, p) && IsNext(a, bits, p + 1, q)
    ensures Below(a, bits, q) == Below(a, bits, p) + {p}
  {
    NextRank(a, bits, p + 1, q);
  }

  lemma MapSetAdd(from: Words, to: Words, bits: nat, s: set<nat>, b: nat)
    requires bits <= BITS_PER_LONG * |from| && bits <= BITS_PER_LONG * |to| && b < bits && forall x :: x in s ==>
      x < bits
    ensures MapSet(from, to, bits, s + {b}) == MapSet(from, to, bits, s) + {MapBit(from, to, bits, b)}
  {
  }
}
