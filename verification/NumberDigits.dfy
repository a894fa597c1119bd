/** Digits of numbers, and the division-free decimal conversion of lib/vsprintf.c. */
module NumberDigits {
  import opened Bits

  /** One digit; `small` selects lower-case letters. */
  function DigitChar(d: nat, small: bool): char
    requires d < 16
  {
    if small then "0123456789abcdef"[d] else "0123456789ABCDEF"[d]
  }

  /** The digits of `n`, the least significant first and without leading zeros. */
  function RevDigits(n: nat, base: nat, small: bool): (s: string)
    requires 2 <= base <= 16
    ensures |s| > 0
  {
    if n < base then [DigitChar(n, small)] else [DigitChar(n % base, small)] + RevDigits(n / base, base, small)
  }

  /** Exactly `width` decimal digits of `n`, the least significant first. */
  function RevFixed(n: nat, width: nat): (s: string)
    ensures |s| == width
  {
    if width == 0 then "" else [DigitChar(n % 10, false)] + RevFixed(n / 10, width - 1)
  }

  /** A number below 2^m has at most m digits. */
  lemma {:induction false} DigitsBound(n: nat, base: nat, small: bool, m: nat)
    requires 2 <= base <= 16 && n < Pow2(m) && m > 0
    ensures |RevDigits(n, base, small)| <= m
    decreases m
  {
    if n >= base {
      assert n / base <= n / 2 by { DivSmaller(n, base); }
      DigitsBound(n / base, base, small, m - 1);
    }
  }

  lemma DivSmaller(n: nat, base: nat)
    requires base >= 2
    ensures n / base <= n / 2
  {
    var q := n / base;
    assert n == base * q + n % base;
    assert base * q >= 2 * q;
  }

  // ---------------------------------------------------------------- dividing by multiplying

  /** Multiplying by 205 and dropping 11 bits divides by ten. */
  lemma Tenth(x: nat)
    requires x < 1020
    ensures x * 0xcd / 2048 == x / 10
  {
    var a, b := x / 10, x % 10;
    assert x * 0xcd == 2048 * a + (2 * a + 205 * b);
  }

  /** Multiplying by 13 and dropping 7 bits divides by ten, for less. */
  lemma TenthShort(x: nat)
    requires x < 69
    ensures x * 0xd / 128 == x / 10
  {
    var a, b := x / 10, x % 10;
    assert x * 0xd == 128 * a + (2 * a + 13 * b);
  }

  lemma Nibbles(q: nat)
    ensures q == 4096 * (q / 4096) + 256 * (q / 256 % 16) + 16 * (q / 16 % 16) + q % 16
  {
    var a := q / 16;
    var b := a / 16;
    assert b == q / 256 && b / 16 == q / 4096;
  }

  lemma TakeDigit(x: nat, e: nat, rest: nat)
    requires x == e + 10 * rest
    ensures x % 10 == e % 10 && x / 10 == e / 10 + rest
  {
    assert x == e % 10 + 10 * (e / 10 + rest);
  }

  /** What is left of `q` as its decimal digits come off, found from its hexadecimal digits. */
  lemma HexToDecimal(q: nat, d3: nat, d2: nat, d1: nat, e0: nat, e1: nat, e2: nat)
    requires q < 100000 && d3 == q / 4096 && d2 == q / 256 % 16 && d1 == q / 16 % 16
    requires e0 == 6 * (d3 + d2 + d1) + q % 16 && e1 == e0 / 10 + 9 * d3 + 5 * d2 + d1 && e2 == e1 / 10 + 2 * d2
    ensures e0 < 1020 && e1 < 1020 && e2 < 69 && e0 % 10 == q % 10 && (e1 == 0 ==> q / 10 == 0)
    ensures q / 10 == e1 + 10 * (2 * d2 + 40 * d3) && q / 10 / 10 == e2 + 10 * (4 * d3)
      && q / 10 / 10 / 10 == e2 / 10 + 4 * d3
  {
    Nibbles(q);
    TakeDigit(q, e0, 9 * d3 + 5 * d2 + d1 + 10 * (2 * d2 + 40 * d3));
    TakeDigit(q / 10, e1, 2 * d2 + 40 * d3);
    TakeDigit(q / 10 / 10, e2, 4 * d3);
  }

  // ---------------------------------------------------------------- writing digits

  /** The digits of `x` are what `all` still lacks after the first `k` characters; zero has none left. */
  ghost predicate Lacks(all: string, buf: seq<char>, k: nat, x: nat) {
    && |all| <= |buf| && k <= |buf|
    && all == buf[..k] + if x == 0 then "" else RevDigits(x, 10, false)
  }

  /** `*buf++ = d + '0'` */
  method PutDigit(buf: array<char>, k: nat, d: nat, ghost x: nat, ghost all: string)
    requires |all| <= buf.Length && k < buf.Length && all == buf[..k] + RevDigits(x, 10, false) && d == x % 10
    modifies buf
    ensures Lacks(all, buf[..], k + 1, x / 10)
  {
    ghost var rest := if x < 10 then "" else RevDigits(x / 10, 10, false);
    assert all == buf[..k] + ([DigitChar(d, false)] + rest);
    buf[k] := ('0' as int + d) as char;
    assert buf[k] == DigitChar(d, false);
    assert buf[..k + 1] == buf[..k] + [buf[k]];
    assert buf[..k] + ([DigitChar(d, false)] + rest) == buf[..k] + [DigitChar(d, false)] + rest;
    assert buf[..][..k + 1] == buf[..k + 1];
  }

  /** Lines 337-344: the last two digits. */
  method PutDecTop(buf: array<char>, k: nat, d3: nat, ghost all: string) returns (j: nat)
    requires d3 < 100 && Lacks(all, buf[..], k, d3)
    modifies buf
    ensures j <= buf.Length && buf[..j] == all
  {
    j := k;
    assert buf[..][..k] == buf[..k];
    if d3 != 0 {
      Tenth(d3);
      var q := d3 * 0xcd / 2048;
      PutDigit(buf, j, d3 - 10 * q, d3, all);
      j := j + 1;
      assert buf[..][..j] == buf[..j];
      if q != 0 {
        PutDigit(buf, j, q, q, all);
        j := j + 1;
        assert buf[..][..j] == buf[..j];
      }
    }
  }

  /** Lines 325-346: what follows the first digit. */
  method PutDecMid(buf: array<char>, k: nat, d3: nat, d2: nat, d1: nat, ghost x: nat, ghost all: string)
    returns (j: nat)
    requires x == d1 + 10 * (2 * d2 + 40 * d3) && x < 10000 && d1 < 1020 && d1 / 10 + 2 * d2 < 69
      && (d1 == 0 ==> x == 0) && Lacks(all, buf[..], k, x)
    modifies buf
    ensures j <= buf.Length && buf[..j] == all
  {
    j := k;
    assert buf[..][..k] == buf[..k];
    if d1 != 0 {
      Tenth(d1);
      var q := d1 * 0xcd / 2048;
      TakeDigit(x, d1, 2 * d2 + 40 * d3);
      PutDigit(buf, j, d1 - 10 * q, x, all);
      j := j + 1;
      assert buf[..][..j] == buf[..j];
      var e2 := q + 2 * d2;
      if e2 != 0 || d3 != 0 {
        TenthShort(e2);
        q := e2 * 0xd / 128;
        TakeDigit(x / 10, e2, 4 * d3);
        PutDigit(buf, j, e2 - 10 * q, x / 10, all);
        j := PutDecTop(buf, j + 1, q + 4 * d3, all);
      }
    }
  }

  /** `put_dec_trunc`, lines 314-348: no leading zeros. */
  method PutDecTrunc(buf: array<char>, i: nat, q: nat) returns (j: nat)
    requires q < 100000 && i + |RevDigits(q, 10, false)| <= buf.Length
    modifies buf
    ensures j <= buf.Length && buf[..j] == old(buf[..i]) + RevDigits(q, 10, false)
  {
    ghost var all := buf[..i] + RevDigits(q, 10, false);
    var d1, d2, d3 := q / 16 % 16, q / 256 % 16, q / 4096;
    var d0 := 6 * (d3 + d2 + d1) + q % 16;
    HexToDecimal(q, d3, d2, d1, d0, d0 / 10 + 9 * d3 + 5 * d2 + d1, (d0 / 10 + 9 * d3 + 5 * d2 + d1) / 10 + 2 * d2);
    Tenth(d0);
    var r := d0 * 0xcd / 2048;
    PutDigit(buf, i, d0 - 10 * r, q, all);
    j := PutDecMid(buf, i + 1, d3, d2, r + 9 * d3 + 5 * d2 + d1, q / 10, all);
  }

  // ---------------------------------------------------------------- five digits at a time

  function Pow10(k: nat): (p: nat)
    ensures p > 0
  {
    if k == 0 then 1 else 10 * Pow10(k - 1)
  }

  lemma MulAtLeast(p: nat, d: int)
    requires d >= 1
    ensures p * d >= p
  {
  }

  lemma DivUnique(n: nat, p: nat, q: nat, r: nat)
    requires p > 0 && n == p * q + r && r < p
    ensures n / p == q && n % p == r
  {
    var q' := n / p;
    Distributes(p, q, q');
    if q' > q { MulAtLeast(p, q' - q); } else if q' < q { MulAtLeast(p, q - q'); }
  }

  lemma Distributes(p: nat, a: nat, b: nat)
    ensures p * (b - a) == p * b - p * a && p * (a - b) == p * a - p * b
  {
  }

  lemma DivTen(n: nat, p: nat)
    requires p > 0
    ensures n / (10 * p) == n / 10 / p && n % (10 * p) / 10 == n / 10 % p && n % (10 * p) % 10 == n % 10
  {
    var q, r := n / 10 / p, n / 10 % p;
    assert n / 10 == p * q + r;
    assert 10 * (p * q) == 10 * p * q;
    DivUnique(n, 10 * p, q, 10 * r + n % 10);
  }

  /** The first `k` digits, and the rest. */
  lemma {:induction false} Peel(n: nat, k: nat)
    requires n >= Pow10(k)
    ensures RevDigits(n, 10, false) == RevFixed(n % Pow10(k), k) + RevDigits(n / Pow10(k), 10, false)
  {
    if k > 0 {
      var p := Pow10(k - 1);
      DivTen(n, p);
      Peel(n / 10, k - 1);
      assert RevFixed(n % Pow10(k), k) == [DigitChar(n % 10, false)] + RevFixed(n / 10 % p, k - 1);
    }
  }

  /** `*buf++ = d + '0'`, when `width` digits of `x` are still to be written. */
  method PutFixed(buf: array<char>, k: nat, d: nat, ghost x: nat, ghost width: nat, ghost all: string)
    requires k < buf.Length && width > 0 && all == buf[..k] + RevFixed(x, width) && d == x % 10
    modifies buf
    ensures all == buf[..k + 1] + RevFixed(x / 10, width - 1)
  {
    ghost var rest := RevFixed(x / 10, width - 1);
    assert buf[..k] + ([DigitChar(d, false)] + rest) == buf[..k] + [DigitChar(d, false)] + rest;
    buf[k] := ('0' as int + d) as char;
    assert buf[k] == DigitChar(d, false);
    assert buf[..k + 1] == buf[..k] + [buf[k]];
  }

  /** Lines 381-386: the last two digits. */
  method PutFullTop(buf: array<char>, k: nat, d3: nat, ghost all: string)
    requires d3 < 100 && k + 2 <= buf.Length && all == buf[..k] + RevFixed(d3, 2)
    modifies buf
    ensures all == buf[..k + 2]
  {
    Tenth(d3);
    var q := d3 * 0xcd / 2048;
    PutFixed(buf, k, d3 - 10 * q, d3, 2, all);
    PutFixed(buf, k + 1, q, q, 1, all);
  }

  /** Lines 371-386: what follows the first digit. */
  method PutFullMid(buf: array<char>, k: nat, d3: nat, d2: nat, d1: nat, ghost x: nat, ghost all: string)
    requires x == d1 + 10 * (2 * d2 + 40 * d3) && x < 10000 && d1 < 1020 && d1 / 10 + 2 * d2 < 69
      && k + 4 <= buf.Length && all == buf[..k] + RevFixed(x, 4)
    modifies buf
    ensures all == buf[..k + 4]
  {
    Tenth(d1);
    var q := d1 * 0xcd / 2048;
    TakeDigit(x, d1, 2 * d2 + 40 * d3);
    PutFixed(buf, k, d1 - 10 * q, x, 4, all);
    var e2 := q + 2 * d2;
    TenthShort(e2);
    q := e2 * 0xd / 128;
    TakeDigit(x / 10, e2, 4 * d3);
    PutFixed(buf, k + 1, e2 - 10 * q, x / 10, 3, all);
    PutFullTop(buf, k + 2, q + 4 * d3, all);
  }

  /** `put_dec_full`, lines 350-388: always five digits. */
  method PutDecFull(buf: array<char>, i: nat, q: nat) returns (j: nat)
    requires q < 100000 && i + 5 <= buf.Length
    modifies buf
    ensures j == i + 5 && buf[..j] == old(buf[..i]) + RevFixed(q, 5)
  {
    ghost var all := buf[..i] + RevFixed(q, 5);
    var d1, d2, d3 := q / 16 % 16, q / 256 % 16, q / 4096;
    var d0 := 6 * (d3 + d2 + d1) + q % 16;
    HexToDecimal(q, d3, d2, d1, d0, d0 / 10 + 9 * d3 + 5 * d2 + d1, (d0 / 10 + 9 * d3 + 5 * d2 + d1) / 10 + 2 * d2);
    Tenth(d0);
    var r := d0 * 0xcd / 2048;
    PutFixed(buf, i, d0 - 10 * r, q, 5, all);
    PutFullMid(buf, i + 1, d3, d2, r + 9 * d3 + 5 * d2 + d1, q / 10, all);
    j := i + 5;
  }

  /** `put_dec`, lines 390-399 */
  method PutDec(buf: array<char>, i: nat, num0: nat) returns (j: nat)
    requires i + |RevDigits(num0, 10, false)| <= buf.Length
    modifies buf
    ensures j <= buf.Length && buf[..j] == old(buf[..i]) + RevDigits(num0, 10, false)
  {
    ghost var all := buf[..i] + RevDigits(num0, 10, false);
    var num := num0;
    j := i;
    assert Pow10(5) == 100000;
    while num >= 100000
      invariant j <= buf.Length && all == buf[..j] + RevDigits(num, 10, false)
    {
      ghost var pre, rest := buf[..j], RevDigits(num / 100000, 10, false);
      Peel(num, 5);
      assert pre + (RevFixed(num % 100000, 5) + rest) == pre + RevFixed(num % 100000, 5) + rest;
      j := PutDecFull(buf, j, num % 100000);
      num := num / 100000;
    }
    j := PutDecTrunc(buf, j, num);
  }
}
