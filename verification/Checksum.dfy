/**
  The Internet checksum of net/inet_chksum.c (RFC 1071) on a little-endian machine: three ways of
  summing a buffer, and the sum over a chain of buffers. The reference is the sum of the bytes at
  even places and those at odd places, the latter weighing 256, reduced modulo 2^16 - 1.
 */
module Checksum {
  import opened Common

  const U32: nat := 0x1_0000_0000
  const M: nat := 0xffff

  // ---------------------------------------------------------------- the reference

  /** The sum of the bytes at even places, respectively at odd places. */
  function Even(d: seq<byte>): nat {
    if |d| == 0 then 0 else d[0] + Odd(d[1..])
  }

  function Odd(d: seq<byte>): nat {
    if |d| == 0 then 0 else Even(d[1..])
  }

  /** The sum of the 16-bit words, first byte low. */
  function Sum(d: seq<byte>): nat {
    Even(d) + 256 * Odd(d)
  }

  /** The representative of `n` modulo 2^16 - 1; only 0 is represented by 0. */
  function Canon(n: nat): (r: nat)
    ensures r <= M && (r == 0 <==> n == 0)
  {
    if n == 0 then 0 else (n - 1) % M + 1
  }

  /** The checksum of RFC 1071, before it is inverted. */
  function Reference(d: seq<byte>): nat {
    Canon(Sum(d))
  }

  // ---------------------------------------------------------------- arithmetic

  lemma CanonSame(a: nat, b: nat, k: int)
    requires a == b + 0xffff * k && (a == 0 <==> b == 0)
    ensures Canon(a) == Canon(b)
  {
    if a > 0 {
      assert a - 1 == (b - 1) + 0xffff * k;
    }
  }

  lemma CanonIs(n: nat) returns (k: nat)
    ensures n == Canon(n) + 0xffff * k
  {
    k := if n == 0 then 0 else (n - 1) / M;
  }

  lemma CanonSmall(n: nat)
    requires n <= M
    ensures Canon(n) == n
  {
  }

  /** `FOLD_U32T` */
  function Fold(u: nat): nat {
    u / 0x10000 + u % 0x10000
  }

  lemma FoldCanon(u: nat)
    ensures Canon(Fold(u)) == Canon(u)
  {
    CanonSame(u, Fold(u), u / 0x10000);
  }

  /** Folding a 32-bit sum twice leaves its representative. */
  lemma FoldTwice(u: nat)
    requires u < U32
    ensures Fold(Fold(u)) == Canon(u)
  {
    FoldCanon(u);
    FoldCanon(Fold(u));
    assert Fold(u) <= 0x1fffe;
    assert Fold(Fold(u)) <= M;
    CanonSmall(Fold(Fold(u)));
  }

  /** `SWAP_BYTES_IN_WORD` */
  function Swap(w: nat): nat {
    w % 0x100 * 0x100 + w % 0x10000 / 0x100
  }

  /** Swapping the bytes of a sum weighs it by 256. */
  lemma SwapCanon(n: nat)
    ensures Swap(Canon(n)) == Canon(256 * n)
  {
    var k := CanonIs(n);
    var w := Canon(n);
    var h := w / 0x100;
    assert Swap(w) == 256 * w - 0xffff * h;
    CanonSame(256 * n, Swap(w), 256 * k + h);
    CanonSmall(Swap(w));
  }

  lemma CanonScaled(n: nat)
    ensures Canon(256 * Canon(n)) == Canon(256 * n)
  {
    var k := CanonIs(n);
    CanonSame(256 * n, 256 * Canon(n), 256 * k);
  }

  /** Representatives add up. */
  lemma CanonAdd(a: nat, b: nat)
    ensures Canon(Canon(a) + Canon(b)) == Canon(a + b)
  {
    var k := CanonIs(a);
    var l := CanonIs(b);
    CanonSame(a + b, Canon(a) + Canon(b), k + l);
  }

  // ---------------------------------------------------------------- sums

  /** Dropping the first byte exchanges even and odd. */
  lemma SumTail(d: seq<byte>)
    requires |d| > 0
    ensures Sum(d[1..]) == Odd(d) + 256 * (Even(d) - d[0])
  {
  }

  lemma SumShift(d: seq<byte>)
    requires |d| > 0
    ensures Canon(256 * (256 * d[0] + Sum(d[1..]))) == Canon(Sum(d))
  {
    SumTail(d);
    CanonShift(d[0], Even(d), Odd(d), Sum(d[1..]));
  }

  lemma CanonShift(b: nat, e: nat, o: nat, rest: nat)
    requires rest == o + 256 * (e - b)
    ensures Canon(256 * (256 * b + rest)) == Canon(e + 256 * o)
  {
    assert 256 * (256 * b + rest) == 0x10000 * e + 256 * o;
    CanonSame(0x10000 * e + 256 * o, e + 256 * o, e);
  }

  lemma {:induction false} SumJoin(a: seq<byte>, b: seq<byte>)
    ensures Even(a + b) == Even(a) + (if |a| % 2 == 0 then Even(b) else Odd(b))
    ensures Odd(a + b) == Odd(a) + (if |a| % 2 == 0 then Odd(b) else Even(b))
  {
    if |a| == 0 {
      assert a + b == b;
    } else {
      assert (a + b)[1..] == a[1..] + b;
      SumJoin(a[1..], b);
    }
  }

  /** A byte more, or a word more. */
  lemma SumByte(d: seq<byte>, i: nat)
    requires i < |d|
    ensures Even(d[..i + 1]) == Even(d[..i]) + (if i % 2 == 0 then d[i] else 0)
    ensures Odd(d[..i + 1]) == Odd(d[..i]) + (if i % 2 == 0 then 0 else d[i])
  {
    assert d[..i + 1] == d[..i] + [d[i]];
    SumJoin(d[..i], [d[i]]);
    assert Even([d[i]]) == d[i] && Odd([d[i]]) == 0;
  }

  // ---------------------------------------------------------------- version 1

  /** A word of two bytes. */
  function Word(high: nat, low: nat): nat {
    256 * high + low
  }

  /** 32-bit addition. */
  function Add32(a: nat, b: nat): (r: nat)
    ensures a + b < U32 ==> r == a + b
  {
    (a + b) % U32
  }

  lemma SumWord(d: seq<byte>, i: nat)
    requires i + 1 < |d| && i % 2 == 0
    ensures Even(d[..i + 2]) == Even(d[..i]) + d[i] && Odd(d[..i + 2]) == Odd(d[..i]) + d[i + 1]
  {
    SumByte(d, i);
    SumByte(d, i + 1);
  }

  /** Lines 90-106: words with the first byte high. */
  method SumHighFirst(d: seq<byte>) returns (acc: nat)
    requires |d| <= 0xffff
    ensures acc == 256 * Even(d) + Odd(d) < U32
  {
    acc := 0;
    var i := 0;
    while |d| - i > 1
      invariant 0 <= i <= |d| && i % 2 == 0 && acc == 256 * Even(d[..i]) + Odd(d[..i]) && 2 * acc <= 0xffff * i
    {
      SumWord(d, i);
      acc := Add32(acc, Word(d[i], d[i + 1]));
      i := i + 2;
    }
    if |d| - i > 0 {
      SumByte(d, i);
      acc := Add32(acc, Word(d[i], 0));
      i := i + 1;
    }
    assert d[..i] == d;
  }

  /** Version 1, lines 81-116: the sum is put into host order at the end. */
  method Version1(d: seq<byte>) returns (r: nat)
    requires |d| <= 0xffff
    ensures r == Reference(d)
  {
    var acc := SumHighFirst(d);
    FoldTwice(acc);
    SwapCanon(acc);
    CanonSame(256 * acc, Sum(d), Even(d));
    acc := Fold(acc);
    if acc >= 0x10000 {
      acc := Fold(acc);
    } else {
      assert Fold(acc) == acc;
    }
    r := Swap(acc);
  }

  // ---------------------------------------------------------------- version 2

  /** The sum with its end bytes: swapped against the reference if the address is odd. */
  ghost predicate Summed(d: seq<byte>, odd: bool, sum: nat) {
    && sum < U32 && (|d| == 0 ==> sum == 0)
    && (|d| > 0 ==> Canon(sum) == Canon(if odd then 256 * d[0] + Sum(d[1..]) else Sum(d)))
  }

  /** Lines 164-174 and 247-256: two folds, and a swap if the address was odd. */
  method Finish(sum0: nat, odd: bool, ghost d: seq<byte>) returns (sum: nat)
    requires Summed(d, odd, sum0)
    ensures sum == Reference(d)
  {
    EndsRight(d, odd, sum0);
    sum := Fold(sum0);
    sum := Fold(sum);
    if odd {
      sum := Swap(sum);
    }
  }

  lemma EndsRight(d: seq<byte>, odd: bool, sum: nat)
    requires Summed(d, odd, sum)
    ensures (if odd then Swap(Fold(Fold(sum))) else Fold(Fold(sum))) == Reference(d)
  {
    FoldTwice(sum);
    if odd {
      SwapCanon(sum);
      if |d| > 0 {
        SumShift(d);
        CanonScaled(sum);
        CanonScaled(256 * d[0] + Sum(d[1..]));
      }
    }
  }

  /** Lines 149-154 on the bytes after the first odd one: whole words, the first byte low; a last byte is left. */
  method SumLowFirst(d: seq<byte>, from: nat) returns (sum: nat, i: nat)
    requires from <= |d| && |d| - from <= 0x20000
    ensures from <= i <= |d| && |d| - i <= 1 && (i - from) % 2 == 0 && sum == Sum(d[from..i])
      && 2 * sum <= 0xffff * (i - from)
  {
    sum, i := 0, from;
    ghost var e := d[from..];
    assert d[from..from] == [];
    while |d| - i > 1
      invariant from <= i <= |d| && (i - from) % 2 == 0 && sum == Sum(d[from..i]) && 2 * sum <= 0xffff * (i - from)
    {
      SumWord(e, i - from);
      assert e[..i - from] == d[from..i] && e[..i - from + 2] == d[from..i + 2];
      sum := Add32(sum, Word(d[i + 1], d[i]));
      i := i + 2;
    }
  }

  /** How many bytes come before the first even address. */
  function Lead(addr: nat, d: seq<byte>): nat {
    if addr % 2 == 1 && |d| > 0 then 1 else 0
  }

  /** Version 2, lines 135-175; `addr` is the address of the data. */
  method Version2(addr: nat, d: seq<byte>) returns (r: nat)
    requires |d| <= 0x20000
    ensures r == Reference(d)
  {
    var odd := addr % 2 == 1;
    var high, low, from := 0, 0, 0;
    if odd && |d| > 0 {
      high, from := d[0], 1;
    }
    var sum, i := SumLowFirst(d, from);
    if |d| - i > 0 {
      low := d[i];
    }
    EndBytes(addr, d, i, sum, Sum(d[from..i]), high, low);
    sum := Add32(sum, Word(high, low));
    r := Finish(sum, odd, d);
  }

  /** Adding the end bytes to the sum of the words between them. */
  lemma EndBytes(addr: nat, d: seq<byte>, i: nat, sum: nat, words: nat, high: nat, low: nat)
    requires var from := Lead(addr, d);
      from <= i <= |d| && |d| - i <= 1 && (i - from) % 2 == 0 && words == Sum(d[from..i]) && Canon(sum) == Canon(words)
    requires high == (if Lead(addr, d) == 1 then d[0] else 0) && low == (if i < |d| then d[i] else 0)
      && sum + Word(high, low) < U32
    ensures Summed(d, addr % 2 == 1, sum + Word(high, low))
  {
    var from := Lead(addr, d);
    WithLast(d, from, i);
    CanonAdd(sum, Word(high, low));
    CanonAdd(words, Word(high, low));
    if |d| == 0 { assert d[from..i] == []; }
  }

  /** The last byte of an odd number weighs nothing extra. */
  lemma WithLast(d: seq<byte>, from: nat, i: nat)
    requires from <= i <= |d| && |d| - i <= 1 && (i - from) % 2 == 0
    ensures Sum(d[from..]) == Sum(d[from..i]) + if i < |d| then d[i] else 0
    ensures d[0..] == d
  {
    var e := d[from..];
    assert e[..i - from] == d[from..i];
    if i < |d| {
      SumByte(e, i - from);
      assert e[..i - from + 1] == e;
    } else {
      assert e[..i - from] == e;
    }
  }

  // ---------------------------------------------------------------- version 3

  /** Lines 216-224: 32-bit addition with the carry added back. */
  method AddCarry(sum: nat, w: nat) returns (r: nat)
    requires sum < U32 && w < U32
    ensures r < U32 && Canon(r) == Canon(sum + w)
  {
    r := Add32(sum, w);
    if r < sum {
      CanonSame(sum + w, r + 1, 0x10001);
      r := r + 1;
    }
  }

  /** A 32-bit word of four bytes. */
  function Long(a: nat, b: nat, c: nat, d: nat): nat {
    Word(b, a) + 0x10000 * Word(d, c)
  }

  /** Its halves weigh the same. */
  lemma LongCanon(n: nat, a: nat, b: nat)
    ensures Canon(n + (a + 0x10000 * b)) == Canon(n + a + b)
  {
    CanonSame(n + (a + 0x10000 * b), n + a + b, b);
  }

  lemma SumFour(d: seq<byte>, from: nat, i: nat)
    requires from <= i && i + 3 < |d| && (i - from) % 2 == 0
    ensures Sum(d[from..i + 4]) == Sum(d[from..i]) + Word(d[i + 1], d[i]) + Word(d[i + 3], d[i + 2])
  {
    var e := d[from..];
    SumWord(e, i - from);
    SumWord(e, i - from + 2);
    assert e[..i - from] == d[from..i] && e[..i - from + 2] == d[from..i + 2] && e[..i - from + 4] == d[from..i + 4];
  }

  /** Four bytes more. */
  method AddLong(d: seq<byte>, from: nat, i: nat, sum: nat) returns (r: nat)
    requires from <= i && i + 3 < |d| && (i - from) % 2 == 0 && sum < U32 && Canon(sum) == Canon(Sum(d[from..i]))
    ensures r < U32 && Canon(r) == Canon(Sum(d[from..i + 4]))
  {
    var w := Long(d[i], d[i + 1], d[i + 2], d[i + 3]);
    r := AddCarry(sum, w);
    CanonAdd(sum, w);
    CanonAdd(Sum(d[from..i]), w);
    LongCanon(Sum(d[from..i]), Word(d[i + 1], d[i]), Word(d[i + 3], d[i + 2]));
    SumFour(d, from, i);
  }

  lemma SumTwo(d: seq<byte>, from: nat, i: nat)
    requires from <= i && i + 1 < |d| && (i - from) % 2 == 0
    ensures Sum(d[from..i + 2]) == Sum(d[from..i]) + Word(d[i + 1], d[i])
  {
    var e := d[from..];
    SumWord(e, i - from);
    assert e[..i - from] == d[from..i] && e[..i - from + 2] == d[from..i + 2];
  }

  method AddWord(d: seq<byte>, from: nat, i: nat, sum: nat) returns (r: nat)
    requires from <= i && i + 1 < |d| && (i - from) % 2 == 0 && sum + 0xffff < U32
      && Canon(sum) == Canon(Sum(d[from..i]))
    ensures r <= sum + 0xffff && Canon(r) == Canon(Sum(d[from..i + 2]))
  {
    var w := Word(d[i + 1], d[i]);
    r := Add32(sum, w);
    CanonAdd(sum, w);
    CanonAdd(Sum(d[from..i]), w);
    SumTwo(d, from, i);
  }

  /** Lines 213-227: most words, two at a time. */
  method SumLongs(addr: nat, d: seq<byte>, from: nat) returns (sum: nat, i: nat)
    requires from <= |d|
    ensures from <= i <= |d| && |d| - i <= 7 && (i - from) % 2 == 0 && sum < U32 && Canon(sum) == Canon(Sum(d[from..i]))
  {
    sum, i := 0, from;
    assert d[from..from] == [];
    if (addr + from) % 4 != 0 && |d| - i > 1 {
      sum := AddWord(d, from, i, sum);
      i := i + 2;
    }
    while |d| - i > 7
      invariant from <= i <= |d| && (i - from) % 2 == 0 && sum < U32 && Canon(sum) == Canon(Sum(d[from..i]))
    {
      sum := AddLong(d, from, i, sum);
      sum := AddLong(d, from, i + 4, sum);
      i := i + 8;
    }
  }

  /** Lines 232-238: the words that are left. */
  method SumRest(d: seq<byte>, from: nat, i0: nat, sum0: nat) returns (sum: nat, i: nat)
    requires from <= i0 <= |d| && |d| - i0 <= 7 && (i0 - from) % 2 == 0 && sum0 < U32
      && Canon(sum0) == Canon(Sum(d[from..i0]))
    ensures from <= i <= |d| && |d| - i <= 1 && (i - from) % 2 == 0 && Canon(sum) == Canon(Sum(d[from..i]))
      && sum <= 0x1fffe + 7 * 0xffff
  {
    FoldCanon(sum0);
    sum, i := SumWords(d, from, i0, Fold(sum0));
  }

  method SumWords(d: seq<byte>, from: nat, i0: nat, sum0: nat) returns (sum: nat, i: nat)
    requires from <= i0 <= |d| && |d| - i0 <= 7 && (i0 - from) % 2 == 0 && sum0 <= 0x1fffe
      && Canon(sum0) == Canon(Sum(d[from..i0]))
    ensures from <= i <= |d| && |d| - i <= 1 && (i - from) % 2 == 0 && Canon(sum) == Canon(Sum(d[from..i]))
      && sum <= 0x1fffe + 7 * 0xffff
  {
    sum, i := sum0, i0;
    while |d| - i > 1
      invariant i0 <= i <= |d| && (i - from) % 2 == 0 && Canon(sum) == Canon(Sum(d[from..i]))
        && sum <= 0x1fffe + (i - i0) * 0xffff
    {
      sum := AddWord(d, from, i, sum);
      i := i + 2;
    }
  }

  /** Version 3, lines 191-257. */
  method Version3(addr: nat, d: seq<byte>) returns (r: nat)
    ensures r == Reference(d)
  {
    var odd := addr % 2 == 1;
    var high, low, from := 0, 0, 0;
    if odd && |d| > 0 {
      high, from := d[0], 1;
    }
    var sum, i := SumLongs(addr, d, from);
    sum, i := SumRest(d, from, i, sum);
    if |d| - i > 0 {
      low := d[i];
    }
    EndBytes(addr, d, i, sum, Sum(d[from..i]), high, low);
    sum := Add32(sum, Word(high, low));
    r := Finish(sum, odd, d);
  }

  // ---------------------------------------------------------------- chains

  ghost function Joined(chain: seq<seq<byte>>): seq<byte> {
    if |chain| == 0 then [] else Joined(chain[..|chain| - 1]) + chain[|chain| - 1]
  }

  /** The running sum over a chain is swapped while an odd number of bytes has gone by. */
  ghost predicate Running(all: seq<byte>, acc: nat, swapped: bool) {
    && acc <= M && swapped == (|all| % 2 == 1)
    && acc == if swapped then Canon(256 * Sum(all)) else Canon(Sum(all))
  }

  lemma JoinCanon(all: seq<byte>, d: seq<byte>)
    ensures |all| % 2 == 0 ==> Canon(Sum(all + d)) == Canon(Sum(all) + Sum(d))
    ensures |all| % 2 == 1 ==> Canon(256 * Sum(all + d)) == Canon(256 * Sum(all) + Sum(d))
  {
    SumJoin(all, d);
    if |all| % 2 == 1 {
      assert 256 * Sum(all + d) == 256 * Sum(all) + 256 * Odd(d) + 0x10000 * Even(d);
      CanonSame(256 * Sum(all + d), 256 * Sum(all) + Sum(d), Even(d));
    }
  }

  /** Lines 512-519: one buffer of the chain. */
  method AddPart(acc0: nat, swapped0: bool, addr: nat, d: seq<byte>, ghost all: seq<byte>)
    returns (acc: nat, swapped: bool)
    requires Running(all, acc0, swapped0) && |d| <= 0xffff
    ensures Running(all + d, acc, swapped)
  {
    var part := Version2(addr, d);
    acc, swapped := Fold(acc0 + part), swapped0;
    if |d| % 2 != 0 {
      swapped := !swapped;
      acc := Swap(acc);
    }
    PartDone(all, d, acc0, swapped0, acc, swapped);
  }

  lemma PartDone(all: seq<byte>, d: seq<byte>, acc0: nat, swapped0: bool, acc: nat, swapped: bool)
    requires Running(all, acc0, swapped0)
    requires swapped == if |d| % 2 != 0 then !swapped0 else swapped0
    requires acc == if |d| % 2 != 0 then Swap(Fold(acc0 + Reference(d))) else Fold(acc0 + Reference(d))
    ensures Running(all + d, acc, swapped)
  {
    PartFolded(all, d, acc0, swapped0);
    Parity(|all|, |d|);
    RunningFrom(all + d, |d| % 2 != 0, swapped0, Fold(acc0 + Reference(d)), acc, swapped);
  }

  lemma RunningFrom(x: seq<byte>, odd: bool, swapped0: bool, f: nat, acc: nat, swapped: bool)
    requires f == (if swapped0 then Canon(256 * Sum(x)) else Canon(Sum(x)))
    requires acc == (if odd then Swap(f) else f) && swapped == (if odd then !swapped0 else swapped0)
    requires swapped == (|x| % 2 == 1)
    ensures Running(x, acc, swapped)
  {
    var n := Sum(x);
    PartSwapped(n);
    Flip(Canon(n), Canon(256 * n), odd, swapped0, f, acc, swapped);
  }

  lemma Parity(a: nat, b: nat)
    ensures (a + b) % 2 == 1 <==> ((a % 2 == 1) != (b % 2 == 1))
  {
  }

  lemma Flip(plain: nat, swap: nat, odd: bool, swapped0: bool, f: nat, acc: nat, swapped: bool)
    requires Swap(plain) == swap && Swap(swap) == plain && f == (if swapped0 then swap else plain)
    requires acc == (if odd then Swap(f) else f) && swapped == (if odd then !swapped0 else swapped0)
    ensures acc == if swapped then swap else plain
  {
  }

  lemma PartFolded(all: seq<byte>, d: seq<byte>, acc: nat, swapped: bool)
    requires Running(all, acc, swapped)
    ensures Fold(acc + Reference(d)) == if swapped then Canon(256 * Sum(all + d)) else Canon(Sum(all + d))
  {
    var a, s := if swapped then 256 * Sum(all) else Sum(all), Sum(d);
    JoinCanon(all, d);
    FoldSum(a, s, acc, Reference(d));
  }

  lemma FoldSum(a: nat, b: nat, x: nat, y: nat)
    requires x == Canon(a) && y == Canon(b)
    ensures Fold(x + y) == Canon(a + b)
  {
    CanonAdd(a, b);
    FoldCanon(x + y);
    CanonSmall(Fold(x + y));
  }

  lemma PartSwapped(n: nat)
    ensures Swap(Canon(n)) == Canon(256 * n) && Swap(Canon(256 * n)) == Canon(n)
  {
    SwapCanon(n);
    SwapCanon(256 * n);
    CanonSame(0x10000 * n, n, n);
  }

  /** `inet_chksum_pbuf`, lines 504-525, of buffers at any addresses: the inverted checksum of all their bytes. */
  method ChainChecksum(addrs: seq<nat>, chain: seq<seq<byte>>) returns (r: nat)
    requires |addrs| == |chain| && forall i :: 0 <= i < |chain| ==> |chain[i]| <= 0xffff
    ensures r == 0xffff - Reference(Joined(chain))
  {
    var acc, swapped, i := 0, false, 0;
    while i < |chain|
      invariant 0 <= i <= |chain| && Running(Joined(chain[..i]), acc, swapped)
    {
      assert chain[..i + 1][..i] == chain[..i];
      acc, swapped := AddPart(acc, swapped, addrs[i], chain[i], Joined(chain[..i]));
      i := i + 1;
    }
    assert chain[..i] == chain;
    ChainEnd(Joined(chain), acc, swapped);
    if swapped {
      acc := Swap(acc);
    }
    r := Not16(acc);
  }

  /** `(u16_t)~(w & 0xffff)` */
  function Not16(w: nat): nat {
    0xffff - w % 0x10000
  }

  lemma ChainEnd(all: seq<byte>, acc: nat, swapped: bool)
    requires Running(all, acc, swapped)
    ensures Not16(if swapped then Swap(acc) else acc) == 0xffff - Reference(all)
  {
    PartSwapped(Sum(all));
    Not16Is(Reference(all));
  }

  lemma Not16Is(w: nat)
    requires w <= M
    ensures Not16(w) == 0xffff - w
  {
  }

  // ---------------------------------------------------------------- what it is for

  /** Data with its inverted checksum in it, at an even place, sums to all ones: this is how a receiver checks it. */
  lemma ReceiverCheck(a: seq<byte>, b: seq<byte>, c: nat)
    requires |a| % 2 == 0 && c == 0xffff - Reference(a + [0, 0] + b)
    ensures Reference(a + [c % 256, c / 256] + b) == 0xffff
  {
    var zero: seq<byte>, full: seq<byte> := [0, 0], [c % 256, c / 256];
    TwoBytes(zero, 0, 0);
    TwoBytes(full, c % 256, c / 256);
    FieldSum(a, b, zero, 0);
    FieldSum(a, b, full, c);
    var n := Sum(a + zero + b);
    var k := CanonIs(n);
    assert n + c == 0xffff * (k + 1);
    CanonFull(k + 1);
  }

  lemma CanonFull(k: nat)
    requires k > 0
    ensures Canon(0xffff * k) == 0xffff
  {
    CanonSame(0xffff * k, 0xffff, k - 1);
  }

  lemma FieldSum(a: seq<byte>, b: seq<byte>, f: seq<byte>, c: nat)
    requires |a| % 2 == 0 && |f| == 2 && c == Sum(f)
    ensures Sum(a + f + b) == Sum(a) + c + Sum(b)
  {
    SumJoin(a + f, b);
    SumJoin(a, f);
  }

  lemma TwoBytes(f: seq<byte>, lo: nat, hi: nat)
    requires |f| == 2 && f[0] == lo && f[1] == hi
    ensures Sum(f) == lo + 256 * hi
  {
    var g := f[1..];
    assert g[1..] == [];
    assert Even(g) == hi && Odd(g) == 0;
  }
}
