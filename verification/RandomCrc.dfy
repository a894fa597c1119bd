/**
  The twist of kernel/random.c is three steps of the register of a cyclic redundancy check with the CRC-32 polynomial,
  as its comment says.
 */
module RandomCrc {
  import opened RandomWords

  /** The CRC-32 polynomial, highest power in the lowest bit. */
  const CRC32: nat := 0xedb8_8320

  /** One bit of a cyclic redundancy check with the polynomial `p`. */
  function CrcStep(x: nat, p: nat): nat {
    if x % 2 == 0 then x / 2 else Xor(x / 2, p)
  }

  /** The step is linear. */
  lemma CrcLinear(x: nat, y: nat, p: nat)
    ensures CrcStep(Xor(x, y), p) == Xor(CrcStep(x, p), CrcStep(y, p))
  {
    var a, b := x / 2, y / 2;
    XorHalves(x, y);
    if x % 2 == 1 && y % 2 == 1 {
      XorComm(b, p);
      XorAssoc(Xor(a, p), p, b);
      XorTwice(a, p);
    } else if x % 2 == 1 {
      XorAssoc(a, p, b);
      XorComm(p, b);
      XorAssoc(a, b, p);
    } else if y % 2 == 1 {
      XorAssoc(a, b, p);
    }
  }

  lemma XorHalves(x: nat, y: nat)
    ensures Xor(x, y) / 2 == Xor(x / 2, y / 2) && (Xor(x, y) % 2 == 0 <==> x % 2 == y % 2)
  {
  }

  function ThreeSteps(x: nat, p: nat): nat {
    CrcStep(CrcStep(CrcStep(x, p), p), p)
  }

  lemma ThreeLinear(x: nat, y: nat, p: nat)
    ensures ThreeSteps(Xor(x, y), p) == Xor(ThreeSteps(x, p), ThreeSteps(y, p))
  {
    CrcLinear(x, y, p);
    CrcLinear(CrcStep(x, p), CrcStep(y, p), p);
    CrcLinear(CrcStep(CrcStep(x, p), p), CrcStep(CrcStep(y, p), p), p);
  }

  lemma LowBit(a: nat, k: nat)
    ensures Xor(2 * a, k) == 2 * Xor(a, k / 2) + k % 2
  {
    XorHalves(2 * a, k);
  }

  /** Three low bits and the rest. */
  lemma SplitLow(a: nat, k: nat)
    requires k < 8
    ensures 8 * a + k == Xor(8 * a, k)
  {
    LowBit(4 * a, k);
    LowBit(2 * a, k / 2);
    LowBit(a, k / 2 / 2);
    assert k / 2 / 2 / 2 == 0;
    XorZero(a);
  }

  function Differ(x: nat, y: nat): nat {
    if x % 2 == y % 2 then 0 else 1
  }

  /** Exclusive or of four bits. */
  function Nibble(x: nat, y: nat): nat {
    Differ(x, y) + 2 * Differ(x / 2, y / 2) + 4 * Differ(x / 4, y / 4) + 8 * Differ(x / 8, y / 8)
  }

  lemma XorNibble(x: nat, y: nat)
    ensures Xor(x, y) == Nibble(x, y) + 16 * Xor(x / 16, y / 16)
  {
    XorHalves(x, y);
    XorHalves(x / 2, y / 2);
    XorHalves(x / 4, y / 4);
    XorHalves(x / 8, y / 8);
    Quarters(x);
    Quarters(y);
  }

  lemma Quarters(x: nat)
    ensures x / 2 / 2 == x / 4 && x / 4 / 2 == x / 8 && x / 8 / 2 == x / 16
  {
  }

  /** The number with the given hexadecimal digits. */
  function Hex(d: seq<nat>): nat {
    if |d| == 0 then 0 else 16 * Hex(d[..|d| - 1]) + d[|d| - 1]
  }

  lemma NibbleLow(a: nat, b: nat, x: nat, y: nat)
    requires x < 16 && y < 16
    ensures Nibble(16 * a + x, 16 * b + y) == Nibble(x, y)
  {
    HalvesOf(a, x);
    HalvesOf(b, y);
    DifferLow(8 * a, x, 8 * b, y);
    DifferLow(4 * a, x / 2, 4 * b, y / 2);
    DifferLow(2 * a, x / 4, 2 * b, y / 4);
    DifferLow(a, x / 8, b, y / 8);
  }

  lemma HalvesOf(a: nat, x: nat)
    requires x < 16
    ensures (16 * a + x) / 2 == 2 * (4 * a) + x / 2 && (16 * a + x) / 4 == 2 * (2 * a) + x / 4
      && (16 * a + x) / 8 == 2 * a + x / 8 && (16 * a + x) / 16 == a && 16 * a + x == 2 * (8 * a) + x
  {
  }

  lemma DifferLow(a: nat, x: nat, b: nat, y: nat)
    ensures Differ(2 * a + x, 2 * b + y) == Differ(x, y)
  {
  }

  /** Digit by digit. */
  ghost predicate DigitsXor(p: seq<nat>, q: seq<nat>, r: seq<nat>) {
    |p| == |q| == |r| && forall i :: 0 <= i < |p| ==> p[i] < 16 && q[i] < 16 && r[i] == Nibble(p[i], q[i])
  }

  lemma {:induction false} XorHex(p: seq<nat>, q: seq<nat>, r: seq<nat>)
    requires DigitsXor(p, q, r)
    ensures Xor(Hex(p), Hex(q)) == Hex(r)
  {
    if |p| > 0 {
      var n := |p| - 1;
      assert DigitsXor(p[..n], q[..n], r[..n]);
      XorHex(p[..n], q[..n], r[..n]);
      XorUp(Hex(p[..n]), Hex(q[..n]), Hex(r[..n]), p[n], q[n], r[n]);
    }
  }

  /** One more digit. */
  lemma XorUp(a: nat, b: nat, c: nat, x: nat, y: nat, z: nat)
    requires Xor(a, b) == c && x < 16 && y < 16 && z == Nibble(x, y)
    ensures Xor(16 * a + x, 16 * b + y) == 16 * c + z
  {
    XorNibble(16 * a + x, 16 * b + y);
    NibbleLow(a, b, x, y);
    HalvesOf(a, x);
    HalvesOf(b, y);
  }

  lemma {:induction false} HexJoin(d: seq<nat>, e: seq<nat>)
    requires |e| == 4
    ensures Hex(d + e) == 65536 * Hex(d) + 4096 * e[0] + 256 * e[1] + 16 * e[2] + e[3]
  {
    HexMore(d, e[0]);
    HexMore(d + [e[0]], e[1]);
    HexMore(d + [e[0]] + [e[1]], e[2]);
    HexMore(d + [e[0]] + [e[1]] + [e[2]], e[3]);
    assert d + e == d + [e[0]] + [e[1]] + [e[2]] + [e[3]];
  }

  lemma HexMore(d: seq<nat>, x: nat)
    ensures Hex(d + [x]) == 16 * Hex(d) + x
  {
    assert (d + [x])[..|d|] == d;
  }

  /** Eight digits. */
  function Eight(d: seq<nat>): nat
    requires |d| == 8
  {
    65536 * (4096 * d[0] + 256 * d[1] + 16 * d[2] + d[3]) + 4096 * d[4] + 256 * d[5] + 16 * d[6] + d[7]
  }

  lemma HexEight(d: seq<nat>)
    requires |d| == 8
    ensures Hex(d) == Eight(d)
  {
    assert d == d[..4] + d[4..] && d[..4] == [] + d[..4];
    HexJoin([], d[..4]);
    HexJoin(d[..4], d[4..]);
  }

  lemma XorEight(p: seq<nat>, q: seq<nat>, r: seq<nat>)
    requires DigitsXor(p, q, r) && |p| == 8
    ensures Xor(Eight(p), Eight(q)) == Eight(r)
  {
    XorHex(p, q, r);
    HexEight(p);
    HexEight(q);
    HexEight(r);
  }

  /** The digits of the entries for one bit, and of the sums of two. */
  const ONE: seq<nat> := [3, 0xb, 6, 0xe, 2, 0, 0xc, 8]
  const TWO: seq<nat> := [7, 6, 0xd, 0xc, 4, 1, 9, 0]
  const THREE: seq<nat> := [4, 0xd, 0xb, 2, 6, 1, 5, 8]
  const FOUR: seq<nat> := [0xe, 0xd, 0xb, 8, 8, 3, 2, 0]
  const FIVE: seq<nat> := [0xd, 6, 0xd, 6, 0xa, 3, 0xe, 8]
  const SIX: seq<nat> := [9, 0xb, 6, 4, 0xc, 2, 0xb, 0]
  const SEVEN: seq<nat> := [0xa, 0, 0, 0xa, 0xe, 2, 7, 8]

  lemma TableDigits(k: nat, d: seq<nat>)
    requires 0 < k < 8 && d == [ONE, TWO, THREE, FOUR, FIVE, SIX, SEVEN][k - 1]
    ensures |d| == 8 && Eight(d) == Table(k)
  {
  }

  lemma Sum12()
    ensures DigitsXor(ONE, TWO, THREE)
  {
  }

  lemma Sum14()
    ensures DigitsXor(ONE, FOUR, FIVE)
  {
  }

  lemma Sum24()
    ensures DigitsXor(TWO, FOUR, SIX)
  {
  }

  lemma Sum34()
    ensures DigitsXor(THREE, FOUR, SEVEN)
  {
  }

  ghost predicate Parts(j: nat, k: nat) {
    (j == 1 && (k == 2 || k == 4)) || (j == 2 && k == 4) || (j == 3 && k == 4)
  }

  lemma SumOfDigits(j: nat, k: nat, p: seq<nat>, q: seq<nat>, r: seq<nat>)
    requires 0 < j < 8 && 0 < k < 8 && j + k < 8 && DigitsXor(p, q, r) && |p| == 8
    requires Eight(p) == Table(j) && Eight(q) == Table(k) && Eight(r) == Table(j + k)
    ensures Xor(Table(j), Table(k)) == Table(j + k)
  {
    XorEight(p, q, r);
  }

  /** The entry for two or three bits is the sum of the entries for one or two. */
  lemma TableSum(j: nat, k: nat)
    requires Parts(j, k)
    ensures Xor(Table(j), Table(k)) == Table(j + k)
  {
    var t := [ONE, TWO, THREE, FOUR, FIVE, SIX, SEVEN];
    var p, q, r := t[j - 1], t[k - 1], t[j + k - 1];
    TableDigits(j, p);
    TableDigits(k, q);
    TableDigits(j + k, r);
    Sum12();
    Sum14();
    Sum24();
    Sum34();
    SumOfDigits(j, k, p, q, r);
  }

  lemma SmallSum(j: nat, k: nat)
    requires Parts(j, k)
    ensures Xor(j, k) == j + k
  {
    XorNibble(j, k);
    XorZero(0);
  }

  lemma TableAdds(j: nat, k: nat, p: nat)
    requires Parts(j, k) && Table(j) == ThreeSteps(j, p) && Table(k) == ThreeSteps(k, p)
    ensures Table(j + k) == ThreeSteps(j + k, p)
  {
    TableSum(j, k);
    SmallSum(j, k);
    ThreeLinear(j, k, p);
  }

  lemma StepOne(x: nat, p: nat)
    requires x == 1
    ensures CrcStep(x, p) == p
  {
    XorZero(p);
  }

  lemma StepEven(x: nat, p: nat)
    ensures CrcStep(2 * x, p) == x
  {
  }

  /** A single bit becomes the polynomial, which then moves down. */
  lemma TableOfOne(k: nat, p: nat)
    requires (k == 0 || k == 1 || k == 2 || k == 4) && p == CRC32
    ensures Table(k) == ThreeSteps(k, p)
  {
    var half, quarter := p / 2, p / 4;
    assert p == 2 * half && half == 2 * quarter && half == 0x76dc_4190 && quarter == 0x3b6e_20c8;
    StepEven(half, p);
    StepEven(quarter, p);
    if k > 0 {
      var one := 1;
      StepOne(one, p);
      StepEven(one, p);
      StepEven(2 * one, p);
    }
  }

  /** The table holds what three steps make of the three bits. */
  lemma TableIs(k: nat, p: nat)
    requires k < 8 && p == CRC32
    ensures Table(k) == ThreeSteps(k, p)
    decreases k
  {
    if k == 0 || k == 1 || k == 2 || k == 4 {
      TableOfOne(k, p);
    } else {
      var j := if k < 4 then k - 2 else k - 4;
      TableIs(j, p);
      TableOfOne(k - j, p);
      TableAdds(j, k - j, p);
    }
  }

  lemma EvenSteps(a: nat, p: nat)
    ensures ThreeSteps(8 * a, p) == a
  {
    assert 8 * a == 2 * (4 * a) && 4 * a == 2 * (2 * a);
    assert CrcStep(2 * (4 * a), p) == 4 * a && CrcStep(2 * (2 * a), p) == 2 * a && CrcStep(2 * a, p) == a;
  }

  /** The twist is three steps of the CRC-32 register. */
  lemma TwistIsCrc(w: nat, p: nat)
    requires p == CRC32
    ensures Twist(w) == ThreeSteps(w, p)
  {
    var a, k := w / 8, w % 8;
    SplitLow(a, k);
    ThreeLinear(8 * a, k, p);
    TableIs(k, p);
    EvenSteps(a, p);
  }
}
