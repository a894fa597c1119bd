/** simple_strtoul and simple_strtol of lib/vsprintf.c, and what they make of printed numbers. */
module NumberParse {
  import opened Ctype
  import opened NumberDigits
  import opened NumberText

  // ---------------------------------------------------------------- parsing

  /** The character at `i` of a string that ends in a null character. */
  function At(s: string, i: nat): char {
    if i < |s| then s[i] else '\0'
  }

  /** `TOLOWER(c) == 'x'` */
  predicate IsX(c: char) {
    c == 'x' || c == 'X'
  }

  /** A digit of the base. */
  predicate Fits(c: char, base: nat) {
    IsXDigit(c) && Unhex(c) < base
  }

  /** Digits from `pos` on, and where they end; the value wraps at 64 bits. */
  function Scan(s: string, pos: nat, base: nat, acc: nat): (nat, nat)
    decreases |s| - pos
  {
    if pos < |s| && Fits(s[pos], base) then Scan(s, pos + 1, base, (acc * base + Unhex(s[pos])) % U64) else (acc, pos)
  }

  /** `simple_guess_base` */
  function GuessBase(s: string, pos: nat): nat {
    if At(s, pos) == '0' then (if IsX(At(s, pos + 1)) && IsXDigit(At(s, pos + 2)) then 16 else 8) else 10
  }

  /** The base in force, and where the digits start. */
  function Start(s: string, pos: nat, base: nat): nat {
    if base == 16 && At(s, pos) == '0' && IsX(At(s, pos + 1)) then pos + 2 else pos
  }

  function Base(s: string, pos: nat, base: nat): nat {
    if base == 0 then GuessBase(s, pos) else base
  }

  function Unsigned(s: string, pos: nat, base: nat): (nat, nat) {
    var b := Base(s, pos, base);
    Scan(s, Start(s, pos, b), b, 0)
  }

  /** `simple_strtoul`, lines 64-87 */
  method StrToUl(s: string, pos: nat, base0: nat) returns (result: nat, end: nat)
    ensures (result, end) == Unsigned(s, pos, base0)
    ensures pos <= |s| ==>
      Denotes(s, Start(s, pos, Base(s, pos, base0)), end, Base(s, pos, base0), result)
  {
    if pos <= |s| { UnsignedIs(s, pos, base0); }
    var base := base0;
    if base == 0 {
      base := GuessBase(s, pos);
    }
    end := Start(s, pos, base);
    result := 0;
    while IsXDigit(At(s, end))
      invariant Unsigned(s, pos, base0) == Scan(s, end, base, result)
      decreases |s| - end
    {
      var value := Unhex(At(s, end));
      if value >= base {
        break;
      }
      result := (result * base + value) % U64;
      end := end + 1;
    }
  }

  /** `simple_strtol`, lines 96-101: the 64-bit pattern of the signed value. */
  function Signed(s: string, base: nat): nat {
    if At(s, 0) == '-' then (U64 - Unsigned(s, 1, base).0) % U64 else Unsigned(s, 0, base).0
  }

  // ---------------------------------------------------------------- values

  ghost predicate AllFit(t: string, base: nat) {
    forall k :: 0 <= k < |t| ==> Fits(t[k], base)
  }

  /** What a string of digits denotes. */
  ghost function Value(t: string, base: nat): nat
    requires AllFit(t, base)
  {
    if t == "" then 0 else Value(t[..|t| - 1], base) * base + Unhex(t[|t| - 1])
  }

  /** From `from` to `end` are all the digits there are, and `v` is what they denote, in 64 bits. */
  ghost predicate Denotes(s: string, from: nat, end: nat, base: nat, v: nat) {
    && from <= end <= |s| && AllFit(s[from..end], base) && !Fits(At(s, end), base)
    && v == Value(s[from..end], base) % U64
  }

  lemma ModStep(v: nat, base: nat, d: nat)
    ensures (v % U64 * base + d) % U64 == (v * base + d) % U64
  {
    var q, r := v / U64, v % U64;
    assert v * base == (q * base) * U64 + r * base;
    ModAdd(q * base, r * base + d);
  }

  lemma ModAdd(k: nat, x: nat)
    ensures (k * U64 + x) % U64 == x % U64
  {
  }

  /** One digit more. */
  lemma MoreDigits(s: string, from: nat, pos: nat, base: nat)
    requires from <= pos < |s| && AllFit(s[from..pos], base) && Fits(s[pos], base)
    ensures AllFit(s[from..pos + 1], base)
    ensures Value(s[from..pos + 1], base) == Value(s[from..pos], base) * base + Unhex(s[pos])
  {
    assert s[from..pos + 1] == s[from..pos] + [s[pos]];
    ValueAppend(s[from..pos], base, s[pos]);
  }

  /** Scanning on from `pos` finds all digits. */
  lemma {:induction false} ScanIs(s: string, from: nat, pos: nat, base: nat, acc: nat)
    requires from <= pos <= |s| && AllFit(s[from..pos], base) && acc == Value(s[from..pos], base) % U64
    ensures var r := Scan(s, pos, base, acc); Denotes(s, from, r.1, base, r.0)
    decreases |s| - pos
  {
    if pos < |s| && Fits(s[pos], base) {
      MoreDigits(s, from, pos, base);
      ModStep(Value(s[from..pos], base), base, Unhex(s[pos]));
      ScanIs(s, from, pos + 1, base, (acc * base + Unhex(s[pos])) % U64);
    }
  }

  lemma UnsignedIs(s: string, pos: nat, base: nat)
    requires pos <= |s|
    ensures var b, r := Base(s, pos, base), Unsigned(s, pos, base); Denotes(s, Start(s, pos, b), r.1, b, r.0)
  {
    var b := Base(s, pos, base);
    var from := Start(s, pos, b);
    assert s[from..from] == "";
    ScanIs(s, from, from, b, 0);
  }

  lemma Grows(v: nat, base: nat)
    requires base > 0
    ensures v <= v * base
  {
  }

  lemma DivBack(n: nat, base: nat)
    requires base > 0
    ensures n / base * base + n % base == n
  {
  }

  lemma {:induction false} ValueMono(t: string, base: nat, d: nat)
    requires AllFit(t, base) && d <= |t| && base > 0
    ensures Value(t[..d], base) <= Value(t, base)
    decreases |t|
  {
    if d == |t| {
      assert t[..d] == t;
    } else {
      var u := t[..|t| - 1];
      ValueMono(u, base, d);
      assert u[..d] == t[..d];
      Grows(Value(u, base), base);
    }
  }

  /** Scanning digits computes what they denote, as long as that fits in 64 bits. */
  lemma {:induction false} ScanDigits(s: string, pos: nat, t: string, base: nat, d: nat)
    requires AllFit(t, base) && base > 0 && Value(t, base) < U64
    requires d <= |t| && pos + |t| <= |s| && s[pos..pos + |t|] == t && !Fits(At(s, pos + |t|), base)
    ensures Scan(s, pos + d, base, Value(t[..d], base)) == (Value(t, base), pos + |t|)
    decreases |t| - d
  {
    if d == |t| {
      assert t[..d] == t;
    } else {
      assert s[pos + d] == s[pos..pos + |t|][d] == t[d];
      ValueNext(t, base, d);
      ValueMono(t, base, d + 1);
      ScanOne(s, pos + d, base, Value(t[..d], base), Value(t[..d + 1], base));
      ScanDigits(s, pos, t, base, d + 1);
    }
  }

  lemma ValueNext(t: string, base: nat, d: nat)
    requires AllFit(t, base) && d < |t|
    ensures Fits(t[d], base) && Value(t[..d + 1], base) == Value(t[..d], base) * base + Unhex(t[d])
  {
    assert t[..d + 1][..d] == t[..d];
  }

  lemma ScanOne(s: string, pos: nat, base: nat, acc: nat, acc': nat)
    requires pos < |s| && Fits(s[pos], base) && acc' == acc * base + Unhex(s[pos]) && acc' < U64
    ensures Scan(s, pos, base, acc) == Scan(s, pos + 1, base, acc')
  {
  }

  lemma {:induction false} DigitFits(d: nat, small: bool, base: nat)
    requires d < base <= 16
    ensures Fits(DigitChar(d, small), base) && Unhex(DigitChar(d, small)) == d && !IsX(DigitChar(d, small))
  {
  }

  lemma FirstDigit(n: nat, base: nat, small: bool) returns (q: nat, d: nat)
    requires 2 <= base <= 16
    ensures d < base && n == q * base + d && (n < base ==> q == 0 && d == n) && (n >= base ==> q < n)
    ensures RevDigits(n, base, small) == [DigitChar(d, small)] + if n < base then "" else RevDigits(q, base, small)
  {
    if n < base {
      q, d := 0, n;
    } else {
      q, d := n / base, n % base;
      DivBack(n, base);
      DivSmaller(n, base);
    }
  }

  /** The printed digits, with any number of zeros in front, denote the number. */
  lemma {:induction false} ValueOfDigits(n: nat, base: nat, small: bool, zeros: string)
    requires 2 <= base <= 16 && forall k :: 0 <= k < |zeros| ==> zeros[k] == '0'
    ensures var t := zeros + Reverse(RevDigits(n, base, small)); AllFit(t, base) && Value(t, base) == n
    decreases n
  {
    var q, d := FirstDigit(n, base, small);
    var c := DigitChar(d, small);
    DigitFits(d, small, base);
    if n < base {
      ReverseCons(c, "");
      assert Reverse("") + [c] == [c];
      ValueOfZeros(zeros, base);
      ValueAppend(zeros, base, c);
    } else {
      var r := RevDigits(q, base, small);
      ValueOfDigits(q, base, small, zeros);
      ReverseCons(c, r);
      assert zeros + (Reverse(r) + [c]) == zeros + Reverse(r) + [c];
      ValueAppend(zeros + Reverse(r), base, c);
    }
  }

  lemma ValueAppend(u: string, base: nat, c: char)
    requires AllFit(u, base) && Fits(c, base)
    ensures AllFit(u + [c], base) && Value(u + [c], base) == Value(u, base) * base + Unhex(c)
  {
    assert (u + [c])[..|u|] == u;
  }

  lemma {:induction false} ValueOfZeros(zeros: string, base: nat)
    requires base >= 2 && forall k :: 0 <= k < |zeros| ==> zeros[k] == '0'
    ensures AllFit(zeros, base) && Value(zeros, base) == 0
  {
    if zeros != "" { ValueOfZeros(zeros[..|zeros| - 1], base); }
  }

  // ---------------------------------------------------------------- printing then parsing

  lemma FitIsNotX(t: string, base: nat, k: nat)
    requires AllFit(t, base)
    ensures !IsX(At(t, k))
  {
    if k < |t| { assert Fits(t[k], base); }
  }

  /** Digits at `pos`, spaces after them, and nothing that looks like a prefix. */
  lemma ParseDigits(s: string, pos: nat, base: nat, from: nat, t: string, trail: int)
    requires AllFit(t, base) && 2 <= base <= 16 && Value(t, base) < U64 && t != ""
    requires from <= |s| && s[from..] == t + Rep(' ', trail) && Start(s, pos, base) == from
    ensures Unsigned(s, pos, base) == (Value(t, base), |s| - |Rep(' ', trail)|)
  {
    var u := s[from..];
    assert u[..|t|] == t;
    assert s[from..from + |t|] == t;
    assert At(s, from + |t|) == (if |t| < |u| then u[|t|] else '\0');
    ScanDigits(s, from, t, base, 0);
    assert t[..0] == "";
  }

  lemma Regroup(p: string, a: string, b: string, d: string, r: string)
    ensures p + a + (b + d + r) == p + (a + b + d + r)
  {
  }

  lemma RegroupMore(p: string, z: string, d: string, r: string)
    ensures p + (z + d + r) == p + z + d + r
  {
  }

  /** What follows the sign: the prefix, zeros, the digits and trailing spaces. */
  function Body(spec: Spec, mag: nat, z1: int, z2: int, trail: int): string
    requires 2 <= spec.base <= 16
  {
    Prefix(spec) + Rep('0', z1) + Tail(z2, Digits(mag, spec), trail)
  }

  lemma ParsePlain(s: string, pos: nat, base: nat, t: string, trail: int)
    requires AllFit(t, base) && 2 <= base <= 16 && Value(t, base) < U64 && t != ""
    requires pos <= |s| && s[pos..] == t + Rep(' ', trail)
    ensures Unsigned(s, pos, base) == (Value(t, base), |s| - |Rep(' ', trail)|) && At(s, pos) != '-'
  {
    assert Fits(t[0], base) && At(s, pos) == s[pos..][0] == t[0];
    FitIsNotX(t, base, 1);
    assert At(s, pos + 1) == At(s[pos..], 1);
    ParseDigits(s, pos, base, pos, t, trail);
  }

  lemma ParsePrefixed(s: string, pos: nat, prefix: string, base: nat, t: string, trail: int)
    requires AllFit(t, base) && base == 16 && Value(t, base) < U64 && t != "" && |prefix| == 2 && prefix[0] == '0'
      && IsX(prefix[1])
    requires pos <= |s| && s[pos..] == prefix + (t + Rep(' ', trail))
    ensures Unsigned(s, pos, base) == (Value(t, base), |s| - |Rep(' ', trail)|) && At(s, pos) != '-'
  {
    var u := s[pos..];
    assert s[pos] == u[0] && s[pos + 1] == u[1];
    assert s[pos + 2..] == u[2..] == t + Rep(' ', trail);
    ParseDigits(s, pos, base, pos + 2, t, trail);
  }

  /** What follows the sign is parsed as the magnitude, whatever zeros and spaces surround the digits. */
  lemma ParseBody(s: string, pos: nat, mag: nat, spec: Spec, z1: int, z2: int, trail: int)
    requires ValidSpec(spec) && mag < U64 && pos <= |s| && s[pos..] == Body(spec, mag, z1, z2, trail)
    ensures Unsigned(s, pos, spec.base) == (mag, |s| - |Rep(' ', trail)|) && At(s, pos) != '-'
  {
    var zeros, d := Rep('0', z1) + Rep('0', z2), Digits(mag, spec);
    Regroup(Prefix(spec), Rep('0', z1), Rep('0', z2), d, Rep(' ', trail));
    if spec.base == 16 && Prefix(spec) != "" {
      ValueOfDigits(mag, spec.base, spec.small, zeros);
      ParsePrefixed(s, pos, Prefix(spec), spec.base, zeros + d, trail);
    } else {
      RegroupMore(Prefix(spec), zeros, d, Rep(' ', trail));
      ParseUnprefixed(s, pos, mag, spec, Prefix(spec) + zeros, trail);
    }
  }

  /** A prefix that is a zero, or none, is part of the number. */
  lemma ParseUnprefixed(s: string, pos: nat, mag: nat, spec: Spec, zeros: string, trail: int)
    requires ValidSpec(spec) && mag < U64 && pos <= |s| && (forall k :: 0 <= k < |zeros| ==> zeros[k] == '0')
      && s[pos..] == zeros + Digits(mag, spec) + Rep(' ', trail)
    ensures Unsigned(s, pos, spec.base) == (mag, |s| - |Rep(' ', trail)|) && At(s, pos) != '-'
  {
    ValueOfDigits(mag, spec.base, spec.small, zeros);
    ParsePlain(s, pos, spec.base, zeros + Digits(mag, spec), trail);
  }

  /** The leading spaces. */
  function Lead(num: nat, spec: Spec): int
    requires 2 <= spec.base <= 16 && num < U64
  {
    LeadOf(spec, PadOf(num, spec))
  }

  /** Nothing is printed before the prefix and the digits. */
  predicate Bare(num: nat, spec: Spec)
    requires 2 <= spec.base <= 16 && num < U64
  {
    SignText(num, spec) == "" && Lead(num, spec) <= 0
  }

  lemma Split(l: string, sign: string, prefix: string, z: string, t: string)
    ensures (l + sign + prefix + z) + t == l + sign + (prefix + z + t)
  {
  }

  /** The text after leading spaces and sign. */
  lemma TextBody(num: nat, spec: Spec) returns (z1: int, z2: int, trail: int)
    requires ValidSpec(spec) && num < U64
    ensures Text(num, spec) == Rep(' ', Lead(num, spec)) + SignText(num, spec)
      + Body(spec, Magnitude(num, spec), z1, z2, trail)
  {
    var digits, pad := Digits(Magnitude(num, spec), spec), PadOf(num, spec);
    z1, z2, trail := ZerosOf(spec, pad), spec.precision - |digits|, TrailOf(spec, pad);
    Split(Rep(' ', LeadOf(spec, pad)), SignText(num, spec), Prefix(spec), Rep('0', z1), Tail(z2, digits, trail));
  }

  lemma NoLead(l: string, sign: string, body: string)
    requires l == ""
    ensures l + sign + body == sign + body && (sign + body)[|sign|..] == body
  {
  }

  lemma FirstChar(l: string, sign: string, body: string)
    requires (l != "" && l[0] == ' ') || (l == "" && sign != "")
    ensures l + sign + body != "" && (l + sign + body)[0] == if l == "" then sign[0] else ' '
  {
  }

  /** `simple_strtoul` on what `number` prints returns the number exactly when it is printed bare, or is zero. */
  lemma NumberRoundTrip(num: nat, spec: Spec)
    requires ValidSpec(spec) && num < U64
    ensures Unsigned(Text(num, spec), 0, spec.base).0 == num <==> Bare(num, spec) || num == 0
  {
    var z1, z2, trail := TextBody(num, spec);
    var l, sign, body, text := Rep(' ', Lead(num, spec)), SignText(num, spec),
      Body(spec, Magnitude(num, spec), z1, z2, trail), Text(num, spec);
    if Bare(num, spec) {
      NoLead(l, sign, body);
      assert text[0..] == text;
      ParseBody(text, 0, num, spec, z1, z2, trail);
    } else {
      FirstChar(l, sign, body);
      NotANumber(text, spec.base);
    }
  }

  lemma NotANumber(s: string, base: nat)
    requires s != "" && (s[0] == ' ' || s[0] == '+' || s[0] == '-') && base != 0
    ensures Unsigned(s, 0, base) == (0, 0)
  {
  }

  lemma SignedIs(s: string, base: nat, negative: bool, mag: nat)
    requires if negative then At(s, 0) == '-' && Unsigned(s, 1, base).0 == mag && 0 < mag < U64
      else At(s, 0) != '-' && Unsigned(s, 0, base).0 == mag
    ensures Signed(s, base) == if negative then U64 - mag else mag
  {
  }

  /**
    `simple_strtol` on what `number` prints returns it exactly when nothing but a minus sign comes first, or
    it is zero.
   */
  lemma SignedRoundTrip(num: nat, spec: Spec)
    requires ValidSpec(spec) && num < U64
    ensures Signed(Text(num, spec), spec.base) == num <==>
      num == 0 || (Lead(num, spec) <= 0 && (SignText(num, spec) == "" || SignText(num, spec) == "-"))
  {
    var z1, z2, trail := TextBody(num, spec);
    var l, sign, text := Rep(' ', Lead(num, spec)), SignText(num, spec), Text(num, spec);
    var body := Body(spec, Magnitude(num, spec), z1, z2, trail);
    if Lead(num, spec) <= 0 && (sign == "" || sign == "-") {
      NoLead(l, sign, body);
      ParseBody(text, |sign|, Magnitude(num, spec), spec, z1, z2, trail);
      SignedIs(text, spec.base, |sign| == 1, Magnitude(num, spec));
    } else {
      FirstChar(l, sign, body);
      NotANumber(text, spec.base);
      assert At(text, 0) == text[0];
    }
  }

  /** The number 5 with a plus sign is not read back. */
  lemma PlusFive()
    ensures var spec := Spec(false, true, true, false, false, false, false, 0, 10, -1);
      && Text(5, spec) == "+5" && Unsigned("+5", 0, 10) == (0, 0) && Signed("+5", 10) == 0
  {
    var spec := Spec(false, true, true, false, false, false, false, 0, 10, -1);
    assert RevDigits(5, 10, false) == "5";
    ReverseCons('5', "");
    assert Digits(5, spec) == "5";
    assert Text(5, spec) == "+5";
    NotANumber("+5", 10);
  }
}
