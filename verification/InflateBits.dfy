/** The bit buffer of lib/inflate.c: bytes are taken from the input as needed, bits are used lowest first. */
module InflateBits {
  import opened Bits
  import opened Common

  /** The `k` low bits of `b`, followed by `v`. */
  ghost function Cat(b: nat, k: nat, v: nat): nat
    decreases k
  {
    if k == 0 then v else b % 2 + 2 * Cat(b / 2, k - 1, v)
  }

  lemma {:induction false} CatIs(b: nat, k: nat, v: nat)
    requires b < Pow2(k)
    ensures Cat(b, k, v) == b + v * Pow2(k)
    decreases k
  {
    if k > 0 {
      CatIs(b / 2, k - 1, v);
      assert 2 * (v * Pow2(k - 1)) == v * (2 * Pow2(k - 1));
    }
  }

  lemma {:induction false} CatLow(b: nat, k: nat, v: nat, n: nat)
    requires n <= k
    ensures Low(Cat(b, k, v), n) == Low(b, n)
    decreases k
  {
    if n > 0 { CatLow(b / 2, k - 1, v, n - 1); }
  }

  lemma {:induction false} CatShr(b: nat, k: nat, v: nat, n: nat)
    requires n <= k
    ensures Shr(Cat(b, k, v), n) == Cat(Shr(b, n), k - n, v)
    decreases k
  {
    if n > 0 { CatShr(b / 2, k - 1, v, n - 1); }
  }

  lemma {:induction false} CatCat(b: nat, k: nat, y: nat, m: nat, v: nat)
    ensures Cat(Cat(b, k, y), k + m, v) == Cat(b, k, Cat(y, m, v))
    decreases k
  {
    if k > 0 { CatCat(b / 2, k - 1, y, m, v); }
  }

  lemma {:induction false} CatBound(b: nat, k: nat, y: nat, m: nat)
    requires y < Pow2(m)
    ensures Cat(b, k, y) < Pow2(k + m)
    decreases k
  {
    if k > 0 { CatBound(b / 2, k - 1, y, m); }
  }

  /** The bits of a sequence of bytes, the first byte lowest. */
  ghost function Value(s: seq<byte>): nat {
    if |s| == 0 then 0 else Cat(s[0], 8, Value(s[1..]))
  }

  /** Past the first `k` bits comes `v`. */
  lemma CatBeyond(b: nat, k: nat, v: nat, r: nat)
    ensures Shr(Cat(b, k, v), k + r) == Shr(v, r)
  {
    CatShr(b, k, v, k);
    ShrShr(Cat(b, k, v), k, r);
  }

  lemma CatWithin(b: nat, k: nat, v: nat, r: nat)
    requires r < k
    ensures Shr(Cat(b, k, v), r) % 2 == Shr(b, r) % 2
  {
    CatShr(b, k, v, r);
  }

  /** Bits are packed into bytes lowest first, and the bytes are in order. */
  lemma {:induction false} StreamBits(s: seq<byte>, q: nat, r: nat)
    requires q < |s| && r < 8
    ensures Shr(Value(s), 8 * q + r) % 2 == Shr(s[q], r) % 2
    decreases q
  {
    var k, rest := 8, Value(s[1..]);
    if q == 0 {
      CatWithin(s[0], k, rest, r);
    } else {
      CatBeyond(s[0], k, rest, 8 * (q - 1) + r);
      StreamBits(s[1..], q - 1, r);
    }
  }

  /** `b | y << k`, where `b` has `k` bits. */
  function InsertAt(b: nat, k: nat, y: nat): nat {
    b + y * Pow2(k)
  }

  lemma PushByte(b: nat, k: nat, rest: seq<byte>, b': nat)
    requires b < Pow2(k) && |rest| > 0 && b' == InsertAt(b, k, rest[0])
    ensures Cat(b', k + 8, Value(rest[1..])) == Cat(b, k, Value(rest)) && b' < Pow2(k + 8)
  {
    var y := rest[0];
    ByteBound(y);
    CatIs(b, k, y);
    CatCat(b, k, y, 8, Value(rest[1..]));
    CatBound(b, k, y, 8);
  }

  class BitReader {
    const input: seq<byte>
    var inptr: nat
    var b: nat
    var k: nat

    ghost predicate Valid()
      reads this
    {
      inptr <= |input| && k <= 23 && b < Pow2(k)
    }

    /** The bits that have not been used, as one number. */
    ghost function Stream(): nat
      requires inptr <= |input|
      reads this
    {
      Cat(b, k, Value(input[inptr..]))
    }

    /** How many bits have not been used. */
    ghost function Avail(): nat
      requires inptr <= |input|
      reads this
    {
      k + 8 * (|input| - inptr)
    }

    constructor (input: seq<byte>)
      ensures Valid() && Stream() == Value(input) && Avail() == 8 * |input|
    {
      this.input := input;
      inptr, b, k := 0, 0, 0;
      new;
      assert input[0..] == input;
    }

    /** `b |= NEXTBYTE() << k; k += 8` */
    method NextByte()
      requires Valid() && inptr < |input| && k <= 15
      modifies this
      ensures Valid() && k == old(k) + 8 && Stream() == old(Stream()) && Avail() == old(Avail())
    {
      ghost var rest := input[inptr..];
      assert rest[1..] == input[inptr + 1..];
      var b' := InsertAt(b, k, input[inptr]);
      PushByte(b, k, rest, b');
      b := b';
      k := k + 8;
      inptr := inptr + 1;
    }

    /** NEEDBITS, line 230: at least `n` bits in the buffer, unless the input runs out. */
    method Need(n: nat) returns (ok: bool)
      requires Valid() && n <= 16
      modifies this
      ensures Valid() && Stream() == old(Stream()) && Avail() == old(Avail())
      ensures ok <==> n <= Avail()
      ensures ok ==> n <= k
    {
      while k < n
        invariant Valid() && Stream() == old(Stream()) && Avail() == old(Avail())
        decreases n - k
      {
        if inptr == |input| {
          return false;
        }
        NextByte();
      }
      return true;
    }

    /** DUMPBITS, line 231. */
    method Drop(n: nat)
      requires Valid() && n <= k
      modifies this
      ensures Valid() && Stream() == Shr(old(Stream()), n) && Avail() == old(Avail()) - n
    {
      CatShr(b, k, Value(input[inptr..]), n);
      ShrBound(b, k, n);
      b := Shr(b, n);
      k := k - n;
    }

    /** `b & mask_bits[n]` */
    method Peek(n: nat) returns (x: nat)
      requires Valid() && n <= k
      ensures x == Low(Stream(), n)
    {
      CatLow(b, k, Value(input[inptr..]), n);
      x := Low(b, n);
    }

    /** NEEDBITS, the masked bits, and DUMPBITS. */
    method Take(n: nat) returns (ok: bool, x: nat)
      requires Valid() && n <= 16
      modifies this
      ensures Valid() && (ok <==> n <= old(Avail()))
      ensures ok ==> x == Low(old(Stream()), n) && Stream() == Shr(old(Stream()), n) && Avail() == old(Avail()) - n
    {
      x := 0;
      ok := Need(n);
      if ok {
        x := Peek(n);
        Drop(n);
      }
    }
  }

  lemma ByteBound(y: byte)
    ensures y < Pow2(8)
  {
    Pow2Add(4, 4);
  }
}
