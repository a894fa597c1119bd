/** Words of the entropy pool: exclusive or, the twist and its inverse, rotation of the input. */
module RandomWords {
  import opened Bits
  import opened BitWords

  const WORD_BITS: nat := 32
  const U32: nat := 0x1_0000_0000
  const TOP: nat := 0x2000_0000

  // ---------------------------------------------------------------- exclusive or

  /** `a ^ b` */
  function Xor(a: nat, b: nat): nat
    decreases a + b
  {
    if a == 0 && b == 0 then 0 else (if a % 2 == b % 2 then 0 else 1) + 2 * Xor(a / 2, b / 2)
  }

  lemma {:induction false} TestXor(a: nat, b: nat, i: nat)
    ensures TestBit(Xor(a, b), i) == (TestBit(a, i) != TestBit(b, i))
    decreases i
  {
    if a == 0 && b == 0 {
      TestZero(i);
    } else {
      var o := Xor(a, b);
      assert o / 2 == Xor(a / 2, b / 2);
      if i > 0 {
        TestHalf(o, i - 1);
        TestHalf(a, i - 1);
        TestHalf(b, i - 1);
        TestXor(a / 2, b / 2, i - 1);
      }
    }
  }

  lemma {:induction false} XorBound(a: nat, b: nat, n: nat)
    requires a < Pow2(n) && b < Pow2(n)
    ensures Xor(a, b) < Pow2(n)
    decreases n
  {
    if n > 0 && (a != 0 || b != 0) {
      XorBound(a / 2, b / 2, n - 1);
    }
  }

  lemma {:induction false} XorZero(a: nat)
    ensures Xor(a, 0) == a && Xor(0, a) == a
  {
    if a > 0 { XorZero(a / 2); }
  }

  lemma {:induction false} XorSelf(a: nat)
    ensures Xor(a, a) == 0
  {
    if a > 0 { XorSelf(a / 2); }
  }

  lemma XorComm(a: nat, b: nat)
    ensures Xor(a, b) == Xor(b, a)
  {
    forall i: nat ensures TestBit(Xor(a, b), i) == TestBit(Xor(b, a), i) {
      TestXor(a, b, i);
      TestXor(b, a, i);
    }
    SameBits(Xor(a, b), Xor(b, a));
  }

  lemma XorAssoc(a: nat, b: nat, c: nat)
    ensures Xor(Xor(a, b), c) == Xor(a, Xor(b, c))
  {
    forall i: nat ensures TestBit(Xor(Xor(a, b), c), i) == TestBit(Xor(a, Xor(b, c)), i) {
      TestXor(a, b, i);
      TestXor(b, c, i);
      TestXor(Xor(a, b), c, i);
      TestXor(a, Xor(b, c), i);
    }
    SameBits(Xor(Xor(a, b), c), Xor(a, Xor(b, c)));
  }

  lemma XorTwice(a: nat, b: nat)
    ensures Xor(Xor(a, b), b) == a
  {
    XorAssoc(a, b, b);
    XorSelf(b);
    XorZero(a);
  }

  lemma {:induction false} ShrXor(a: nat, b: nat, m: nat)
    ensures Shr(Xor(a, b), m) == Xor(Shr(a, m), Shr(b, m))
    decreases m
  {
    if m > 0 {
      assert Xor(a, b) / 2 == Xor(a / 2, b / 2);
      ShrXor(a / 2, b / 2, m - 1);
    }
  }

  // ---------------------------------------------------------------- the twist

  /** `twist_table` */
  function Table(k: nat): (t: nat)
    requires k < 8
    ensures t < U32
  {
    if k == 0 then 0x0000_0000 else if k == 1 then 0x3b6e_20c8 else if k == 2 then 0x76dc_4190
      else if k == 3 then 0x4db2_6158
    else if k == 4 then 0xedb8_8320 else if k == 5 then 0xd6d6_a3e8 else if k == 6 then 0x9b64_c2b0 else 0xa00a_e278
  }

  /** `(w >> 3) ^ twist_table[w & 7]` */
  function Twist(w: nat): nat {
    Xor(w / 8, Table(w % 8))
  }

  /** The entry whose three highest bits are `t`. */
  function Index(t: nat): (k: nat)
    requires t < 8
    ensures k < 8 && Table(k) / TOP == t
  {
    if t == 0 then 0 else if t == 1 then 1 else if t == 3 then 2 else if t == 2 then 3
    else if t == 7 then 4 else if t == 6 then 5 else if t == 4 then 6 else 7
  }

  lemma IndexTable(k: nat)
    requires k < 8
    ensures Table(k) / TOP < 8 && Index(Table(k) / TOP) == k
  {
  }

  function Untwist(x: nat): nat
    requires x < U32
  {
    var k := Index(x / TOP);
    8 * Xor(x, Table(k)) + k
  }

  lemma TopIsShr(x: nat, m: nat)
    requires m == 29
    ensures Pow2(m) == TOP && Shr(x, m) == x / TOP
  {
    Pow2Of32(m + 3);
    Pow2Add(3, m);
    assert Pow2(3) == 8;
    ShrLow(x, m);
  }

  /** Low bits do not reach the three highest ones. */
  lemma TopOfXor(a: nat, c: nat)
    ensures a < TOP ==> Xor(a, c) / TOP == c / TOP
    ensures a / TOP == c / TOP ==> Xor(a, c) < TOP
  {
    var m := 29;
    TopIsShr(a, m);
    TopIsShr(c, m);
    TopIsShr(Xor(a, c), m);
    ShrXor(a, c, m);
    XorZero(c / TOP);
    XorSelf(c / TOP);
  }

  lemma XorWord(a: nat, b: nat)
    requires a < U32 && b < U32
    ensures Xor(a, b) < U32
  {
    var n := 32;
    Pow2Of32(n);
    XorBound(a, b, n);
  }

  lemma UntwistTwist(w: nat)
    requires w < U32
    ensures Twist(w) < U32 && Untwist(Twist(w)) == w
  {
    var a, k := w / 8, w % 8;
    XorWord(a, Table(k));
    TopOfXor(a, Table(k));
    IndexTable(k);
    XorTwice(a, Table(k));
  }

  lemma TwistUntwist(x: nat)
    requires x < U32
    ensures Untwist(x) < U32 && Twist(Untwist(x)) == x
  {
    var k := Index(x / TOP);
    var b := Xor(x, Table(k));
    TopOfXor(x, Table(k));
    XorTwice(x, Table(k));
    EightTimes(b, k);
  }

  lemma EightTimes(b: nat, k: nat)
    requires k < 8
    ensures (8 * b + k) / 8 == b && (8 * b + k) % 8 == k
  {
  }

  // ---------------------------------------------------------------- input bytes

  /** `rol32`, for words of `size` bits. */
  function Rol(w: nat, s: nat, size: nat): nat
    requires s < size
  {
    Or(Shl(w, s) % U32, Shr(w, size - s))
  }

  lemma ModIsLow(x: nat, size: nat)
    requires Pow2(size) == U32
    ensures Low(x, size) == x % U32
  {
    ShrLow(x, size);
  }

  /** Rotation moves every bit `s` places on. */
  lemma TestRol(w: nat, s: nat, size: nat, i: nat)
    requires s < size && Pow2(size) == U32 && w < U32
    ensures TestBit(Rol(w, s, size), i) == (i < size && TestBit(w, if i >= s then i - s else size - s + i))
      && Rol(w, s, size) < U32
  {
    ModIsLow(Shl(w, s), size);
    TestOr(Low(Shl(w, s), size), Shr(w, size - s), i);
    TestLow(Shl(w, s), size, i);
    TestShl(w, s, i);
    TestShr(w, size - s, i);
    if i >= s { TestBeyond(w, size, size - s + i); }
    ShrBelow(w, size - s);
    OrBound(Low(Shl(w, s), size), Shr(w, size - s), size);
  }

  /** A signed character as a word: the same number modulo `2^32`. */
  function Extend(b: nat): (w: nat)
    requires b < 256
    ensures w < U32 && (w - if b < 128 then b else b - 256) % U32 == 0
  {
    if b < 128 then b else 0xffff_ff00 + b
  }

  /** What a byte contributes when the rotation is `rotate`. */
  function InputWord(b: nat, rotate: nat): nat
    requires b < 256
  {
    Rol(Extend(b), rotate % WORD_BITS, WORD_BITS)
  }

  lemma InputWordBound(b: nat, rotate: nat)
    requires b < 256
    ensures InputWord(b, rotate) < U32
  {
    Pow2Of32(WORD_BITS);
    TestRol(Extend(b), rotate % WORD_BITS, WORD_BITS, 0);
  }

  /** Bit `i` of the input comes from the bit `rotate` places before it, all around. */
  lemma InputBits(b: nat, rotate: nat, i: nat)
    requires b < 256 && i < WORD_BITS
    ensures TestBit(InputWord(b, rotate), i) == TestBit(Extend(b), (i - rotate) % WORD_BITS)
  {
    var s, size := rotate % WORD_BITS, WORD_BITS;
    Pow2Of32(size);
    TestRol(Extend(b), s, size, i);
    Around(i, rotate);
  }

  lemma Around(i: nat, rotate: nat)
    requires i < WORD_BITS
    ensures var s := rotate % WORD_BITS; (i - rotate) % WORD_BITS == if i >= s then i - s else WORD_BITS - s + i
  {
  }
}
