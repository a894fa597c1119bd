/** Numbers as text: number() of lib/vsprintf.c. */
module NumberText {
  import opened Bits
  import opened NumberDigits

  const U64: nat := 0x1_0000_0000_0000_0000
  const S64: nat := 0x8000_0000_0000_0000

  /** `struct printf_spec` with its flags. */
  datatype Spec = Spec(zeropad: bool, sign: bool, plus: bool, space: bool, left: bool, small: bool, special: bool,
    width: int, base: nat, precision: int)

  ghost predicate ValidSpec(spec: Spec) {
    spec.base == 8 || spec.base == 10 || spec.base == 16
  }

  // ---------------------------------------------------------------- what is printed

  function Rep(c: char, n: int): (s: string)
    ensures |s| == if n < 0 then 0 else n
    ensures forall k :: 0 <= k < |s| ==> s[k] == c
  {
    if n <= 0 then "" else Rep(c, n - 1) + [c]
  }

  function Reverse(s: string): (r: string)
    ensures |r| == |s|
  {
    if s == "" then "" else Reverse(s[1..]) + [s[0]]
  }

  predicate Negative(num: nat, spec: Spec) {
    spec.sign && num >= S64
  }

  function Magnitude(num: nat, spec: Spec): nat
    requires num < U64
  {
    if Negative(num, spec) then U64 - num else num
  }

  function SignText(num: nat, spec: Spec): string {
    if !spec.sign then "" else if num >= S64 then "-" else if spec.plus then "+" else if spec.space then " " else ""
  }

  function Prefix(spec: Spec): string {
    if !spec.special || spec.base == 10 then "" else if spec.base == 16 then (if spec.small then "0x" else "0X")
      else "0"
  }

  function Digits(n: nat, spec: Spec): string
    requires 2 <= spec.base <= 16
  {
    Reverse(RevDigits(n, spec.base, spec.small))
  }

  function Max(a: int, b: int): int {
    if a > b then a else b
  }

  /** What comes before the digits: leading spaces, the sign, the prefix and the zeros that fill the field. */
  function Head(lead: int, sign: string, prefix: string, zeros: int): string {
    Rep(' ', lead) + sign + prefix + Rep('0', zeros)
  }

  /** The zeros that the precision asks for, the digits and trailing spaces. */
  function Tail(zeros: int, digits: string, trail: int): string {
    Rep('0', zeros) + digits + Rep(' ', trail)
  }

  /** How the characters that fill a field are spent: on spaces before, zeros, or spaces behind. */
  function LeadOf(spec: Spec, pad: int): int {
    if spec.left || spec.zeropad then 0 else pad
  }

  function ZerosOf(spec: Spec, pad: int): int {
    if spec.left || !spec.zeropad then 0 else pad
  }

  function TrailOf(spec: Spec, pad: int): int {
    if spec.left then pad else 0
  }

  /** The sign, the prefix and the digits, with `pad` characters to fill. */
  function Field(spec: Spec, sign: string, prefix: string, digits: string, pad: int): string {
    Head(LeadOf(spec, pad), sign, prefix, ZerosOf(spec, pad))
      + Tail(spec.precision - |digits|, digits, TrailOf(spec, pad))
  }

  /** What the field leaves to fill. */
  function PadOf(num: nat, spec: Spec): int
    requires 2 <= spec.base <= 16 && num < U64
  {
    spec.width - |SignText(num, spec)| - |Prefix(spec)| - Max(|Digits(Magnitude(num, spec), spec)|, spec.precision)
  }

  function Text(num: nat, spec: Spec): string
    requires 2 <= spec.base <= 16 && num < U64
  {
    Field(spec, SignText(num, spec), Prefix(spec), Digits(Magnitude(num, spec), spec), PadOf(num, spec))
  }

  lemma ReverseCons(c: char, r: string)
    ensures Reverse([c] + r) == Reverse(r) + [c]
  {
    assert ([c] + r)[1..] == r;
  }

  lemma Empties(a: string, d: string)
    ensures "" + "" + "" + a + ("" + d + "") == a + d
  {
  }

  /** Digits in a field that is filled with zeros. */
  lemma ZeroFilled(spec: Spec, digits: string, pad: int)
    requires spec.zeropad && !spec.left && spec.precision <= |digits|
    ensures Field(spec, "", "", digits, pad) == Rep('0', pad) + digits
  {
    Empties(Rep('0', pad), digits);
  }

  /** Digits in a field that is not wider than they are. */
  lemma Unfilled(spec: Spec, digits: string, pad: int)
    requires pad <= 0 && spec.precision <= |digits|
    ensures Field(spec, "", "", digits, pad) == digits
  {
    Empties("", digits);
    assert "" + digits == digits;
  }

  /** A field is as wide as it should be, or as what is in it. */
  lemma FieldWidth(num: nat, spec: Spec)
    requires 2 <= spec.base <= 16 && num < U64
    ensures |Text(num, spec)|
      == Max(spec.width, |SignText(num, spec)| + |Prefix(spec)|
        + Max(|Digits(Magnitude(num, spec), spec)|, spec.precision))
  {
  }

  lemma Parts(s: string, a: string, b: string, z: string, d: string, e: string)
    ensures s + a + b + z + ("" + d + e) == s + (a + b) + z + d + e
  {
  }

  lemma Between(a: string, b: string)
    ensures a + "" + b == a + b && "" + a == a && a + "" == a
  {
  }

  /** Filling comes before the sign and the prefix, between them and the digits, or behind the digits. */
  lemma FieldParts(digits: string, sign: string, prefix: string, spec: Spec, pad: nat)
    requires spec.precision <= |digits|
    ensures Field(spec, sign, prefix, digits, pad) == Rep(' ', LeadOf(spec, pad)) + (sign + prefix)
      + Rep('0', ZerosOf(spec, pad)) + digits + Rep(' ', TrailOf(spec, pad))
  {
    var s, z, e := Rep(' ', LeadOf(spec, pad)), Rep('0', ZerosOf(spec, pad)), Rep(' ', TrailOf(spec, pad));
    Parts(s, sign, prefix, z, digits, e);
  }

  /** Zeros fill a field behind the sign and the prefix, spaces before them or, to the left, behind the digits. */
  lemma Fields(digits: string, sign: string, prefix: string, spec: Spec, pad: nat)
    requires spec.precision <= |digits|
    ensures Field(spec, sign, prefix, digits, pad) == if spec.left then sign + prefix + digits + Rep(' ', pad)
      else if spec.zeropad then sign + prefix + Rep('0', pad) + digits
      else Rep(' ', pad) + (sign + prefix) + digits
  {
    FieldParts(digits, sign, prefix, spec, pad);
    var h := sign + prefix;
    if spec.left {
      Between(h, digits);
    } else if spec.zeropad {
      Between(h, "");
      Between(h + Rep('0', pad) + digits, "");
    } else {
      Between(Rep(' ', pad) + h, digits);
      Between(Rep(' ', pad) + h + digits, "");
    }
  }

  // ---------------------------------------------------------------- writing into a bounded buffer

  /** `t` has been written at `pos`, except for what falls beyond `end`. */
  ghost predicate Written(a: string, b: string, end: nat, pos: nat, t: string) {
    && |b| == |a|
    && forall k :: 0 <= k < |b| ==> b[k] == if pos <= k < end && k < pos + |t| then t[k - pos] else a[k]
  }

  lemma WrittenJoin(a: string, b: string, c: string, end: nat, pos: nat, t: string, u: string)
    requires Written(a, b, end, pos, t) && Written(b, c, end, pos + |t|, u)
    ensures Written(a, c, end, pos, t + u)
  {
  }

  /** `if (buf < end) *buf = c; ++buf;` */
  method Put(out: array<char>, end: nat, pos: nat, c: char) returns (next: nat)
    requires end <= out.Length
    modifies out
    ensures next == pos + 1 && Written(old(out[..]), out[..], end, pos, [c])
  {
    if pos < end {
      out[pos] := c;
    }
    next := pos + 1;
  }

  /** `while (--n >= 0)`: `n` copies of a character. */
  method Fill(out: array<char>, end: nat, pos: nat, c: char, n: int) returns (next: nat)
    requires end <= out.Length
    modifies out
    ensures next == pos + |Rep(c, n)| && Written(old(out[..]), out[..], end, pos, Rep(c, n))
  {
    next := pos;
    var k := 0;
    while k < n
      invariant 0 <= k && (n >= 0 ==> k <= n) && (n < 0 ==> k == 0) && next == pos + k
      invariant Written(old(out[..]), out[..], end, pos, Rep(c, k))
    {
      ghost var b := out[..];
      next := Put(out, end, next, c);
      WrittenJoin(old(out[..]), b, out[..], end, pos, Rep(c, k), [c]);
      k := k + 1;
    }
  }

  method PutString(out: array<char>, end: nat, pos: nat, s: string) returns (next: nat)
    requires end <= out.Length
    modifies out
    ensures next == pos + |s| && Written(old(out[..]), out[..], end, pos, s)
  {
    next := pos;
    for k := 0 to |s|
      invariant next == pos + k && Written(old(out[..]), out[..], end, pos, s[..k])
    {
      ghost var b := out[..];
      next := Put(out, end, next, s[k]);
      WrittenJoin(old(out[..]), b, out[..], end, pos, s[..k], [s[k]]);
      assert s[..k + 1] == s[..k] + [s[k]];
    }
    assert s[..|s|] == s;
  }

  lemma ReverseSplit(s: string, i: nat)
    requires 0 < i <= |s|
    ensures Reverse(s[i - 1..]) == Reverse(s[i..]) + [s[i - 1]]
  {
    assert s[i - 1..][1..] == s[i..];
  }

  /** `while (--i >= 0)`: the characters of `tmp`, the last one first. */
  method PutReversed(out: array<char>, end: nat, pos: nat, tmp: string) returns (next: nat)
    requires end <= out.Length
    modifies out
    ensures next == pos + |tmp| && Written(old(out[..]), out[..], end, pos, Reverse(tmp))
  {
    next := pos;
    var i := |tmp|;
    while i > 0
      invariant 0 <= i <= |tmp| && next == pos + |tmp| - i
      invariant Written(old(out[..]), out[..], end, pos, Reverse(tmp[i..]))
    {
      ReverseSplit(tmp, i);
      i := i - 1;
      ghost var b := out[..];
      next := Put(out, end, next, tmp[i]);
      WrittenJoin(old(out[..]), b, out[..], end, pos, Reverse(tmp[i + 1..]), [tmp[i]]);
    }
    assert tmp[0..] == tmp;
  }

  // ---------------------------------------------------------------- the digits

  lemma {:induction false} DecimalCase(n: nat, small: bool)
    ensures RevDigits(n, 10, false) == RevDigits(n, 10, small)
  {
    if n >= 10 { DecimalCase(n / 10, small); }
  }

  lemma OctalDigit(n: nat)
    ensures n % 256 % 8 == n % 8 && (n > 0 ==> n / 8 < n)
  {
  }

  lemma HexDigit(n: nat)
    ensures n % 256 % 16 == n % 16 && (n > 0 ==> n / 16 < n)
  {
  }

  /** `(unsigned char)num & mask` and `num >> shift` take one digit off. */
  method LastDigit(n: nat, base: nat, ghost small: bool) returns (d: nat, q: nat)
    requires base == 8 || base == 16
    ensures d < 16 && (n > 0 ==> q < n) && RevDigits(n, base, small) == [DigitChar(d, small)] + if q == 0 then ""
      else RevDigits(q, base, small)
  {
    if base == 16 {
      HexDigit(n);
      d, q := n % 256 % 16, n / 16;
    } else {
      OctalDigit(n);
      d, q := n % 256 % 8, n / 8;
    }
  }

  lemma Appended(pre: string, c: char, rest: string)
    ensures pre + ([c] + rest) == pre + [c] + rest
  {
  }

  method WriteChar(tmp: array<char>, i: nat, c: char)
    requires i < tmp.Length
    modifies tmp
    ensures tmp[..i + 1] == old(tmp[..i]) + [c]
  {
    tmp[i] := c;
  }

  /** Lines 487-494: digits by masking and shifting. */
  method PutBits(tmp: array<char>, num0: nat, base: nat, small: bool) returns (i: nat)
    requires (base == 8 || base == 16) && |RevDigits(num0, base, small)| <= tmp.Length
    modifies tmp
    ensures i <= tmp.Length && tmp[..i] == RevDigits(num0, base, small)
  {
    var num: nat := num0;
    var more := true;
    i := 0;
    while more
      invariant i <= tmp.Length
      invariant RevDigits(num0, base, small) == tmp[..i] + if more then RevDigits(num, base, small) else ""
      decreases more, num
    {
      var d, q := LastDigit(num, base, small);
      var c := DigitChar(d, small);
      Appended(tmp[..i], c, if q == 0 then "" else RevDigits(q, base, small));
      WriteChar(tmp, i, c);
      i := i + 1;
      more := q != 0;
      num := q;
    }
  }

  /** Lines 478-497 */
  method MakeDigits(tmp: array<char>, num: nat, base: nat, small: bool) returns (i: nat)
    requires tmp.Length == 66 && num < U64 && (base == 8 || base == 10 || base == 16)
    modifies tmp
    ensures i <= tmp.Length && tmp[..i] == RevDigits(num, base, small)
  {
    var wordBits := 64;
    Pow2Of64(wordBits);
    DigitsBound(num, base, small, wordBits);
    if num == 0 {
      tmp[0] := '0';
      i := 1;
    } else if base != 10 {
      i := PutBits(tmp, num, base, small);
    } else {
      DecimalCase(num, small);
      i := PutDec(tmp, 0, num);
    }
  }

  /** Lines 499-536: everything before the digits. */
  method PutHead(out: array<char>, end: nat, pos: nat, lead: int, sign: string, prefix: string, zeros: int)
    returns (next: nat)
    requires end <= out.Length
    modifies out
    ensures next == pos + |Head(lead, sign, prefix, zeros)|
      && Written(old(out[..]), out[..], end, pos, Head(lead, sign, prefix, zeros))
  {
    ghost var a := out[..];
    next := Fill(out, end, pos, ' ', lead);
    ghost var b := out[..];
    next := PutString(out, end, next, sign);
    WrittenJoin(a, b, out[..], end, pos, Rep(' ', lead), sign);
    b := out[..];
    next := PutString(out, end, next, prefix);
    WrittenJoin(a, b, out[..], end, pos, Rep(' ', lead) + sign, prefix);
    b := out[..];
    next := Fill(out, end, next, '0', zeros);
    WrittenJoin(a, b, out[..], end, pos, Rep(' ', lead) + sign + prefix, Rep('0', zeros));
  }

  /** Lines 537-554: the digits and what follows them. */
  method PutTail(out: array<char>, end: nat, pos: nat, zeros: int, tmp: string, trail: int) returns (next: nat)
    requires end <= out.Length
    modifies out
    ensures next == pos + |Tail(zeros, Reverse(tmp), trail)|
      && Written(old(out[..]), out[..], end, pos, Tail(zeros, Reverse(tmp), trail))
  {
    ghost var a := out[..];
    next := Fill(out, end, pos, '0', zeros);
    ghost var b := out[..];
    next := PutReversed(out, end, next, tmp);
    WrittenJoin(a, b, out[..], end, pos, Rep('0', zeros), Reverse(tmp));
    b := out[..];
    next := Fill(out, end, next, ' ', trail);
    WrittenJoin(a, b, out[..], end, pos, Rep('0', zeros) + Reverse(tmp), Rep(' ', trail));
  }

  /** Lines 499-555: the field around the digits in `tmp`; `width` is what the sign and the prefix leave of it. */
  method PutField(out: array<char>, end: nat, pos: nat, sign: string, prefix: string, spec: Spec, tmp: string,
                  width: int, ghost digits: string, ghost pad: int)
    returns (next: nat)
    requires end <= out.Length && digits == Reverse(tmp) && pad == width - Max(|digits|, spec.precision)
    modifies out
    ensures next == pos + |Field(spec, sign, prefix, digits, pad)|
      && Written(old(out[..]), out[..], end, pos, Field(spec, sign, prefix, digits, pad))
  {
    var precision := Max(|tmp|, spec.precision);
    var fill := width - precision;
    ghost var a := out[..];
    var lead, zeros, trail := LeadOf(spec, fill), ZerosOf(spec, fill), TrailOf(spec, fill);
    next := PutHead(out, end, pos, lead, sign, prefix, zeros);
    ghost var b := out[..];
    next := PutTail(out, end, next, precision - |tmp|, tmp, trail);
    assert Rep('0', precision - |tmp|) == Rep('0', spec.precision - |tmp|);
    WrittenJoin(a, b, out[..], end, pos, Head(lead, sign, prefix, zeros),
      Tail(spec.precision - |tmp|, Reverse(tmp), trail));
  }

  /** Lines 450-476: the sign, the magnitude and the width that is left. */
  method TakeSign(num0: nat, spec: Spec) returns (sign: string, num: nat, width: int)
    requires num0 < U64
    ensures sign == SignText(num0, spec) && num == Magnitude(num0, spec) && width == spec.width - |sign|
  {
    sign, num, width := "", num0, spec.width;
    if spec.sign {
      if num >= S64 {
        sign := "-";
        num := U64 - num;
        width := width - 1;
      } else if spec.plus {
        sign := "+";
        width := width - 1;
      } else if spec.space {
        sign := " ";
        width := width - 1;
      }
    }
  }

  /** `number`, lines 441-556 */
  method Number(out: array<char>, end: nat, pos: nat, num0: nat, spec: Spec) returns (next: nat)
    requires end <= out.Length && num0 < U64 && ValidSpec(spec)
    modifies out
    ensures next == pos + |Text(num0, spec)| && Written(old(out[..]), out[..], end, pos, Text(num0, spec))
  {
    var sign, num, width := TakeSign(num0, spec);
    var prefix := Prefix(spec);
    width := width - |prefix|;
    var tmp := new char[66];
    var i := MakeDigits(tmp, num, spec.base, spec.small);
    next := PutField(out, end, pos, sign, prefix, spec, tmp[..i], width, Digits(num, spec), PadOf(num0, spec));
  }
}
