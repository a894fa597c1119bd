/** Bitmaps as lists of decimal ranges: bitmap_scnlistprintf and bitmap_parselist of lib/bitmap.c. */
module BitmapList {
  import opened BitWords
  import opened BitmapRemap
  import opened Ctype
  import opened NumberDigits
  import opened NumberText
  import opened NumberParse

  const U32: nat := 0x1_0000_0000
  const EINVAL: int := 22
  const ERANGE: int := 34

  /** The format `%d`. */
  const DEC: Spec := Spec(false, true, false, false, false, false, false, -1, 10, -1)

  // ---------------------------------------------------------------- ranges

  datatype Range = Range(lo: nat, hi: nat)

  predicate In(r: Range, i: nat) {
    r.lo <= i <= r.hi
  }

  function Bits(r: Range): set<nat> {
    set i | 0 <= i <= r.hi && In(r, i)
  }

  function Union(rs: seq<Range>): set<nat> {
    if rs == [] then {} else Union(rs[..|rs| - 1]) + Bits(rs[|rs| - 1])
  }

  function Number(n: nat): string {
    Reverse(RevDigits(n, 10, false))
  }

  /** `%d` prints the digits. */
  lemma NumberIsText(n: nat)
    requires n < S64
    ensures Text(n, DEC) == Number(n)
  {
    Unfilled(DEC, Number(n), PadOf(n, DEC));
  }

  function RangeText(r: Range): string {
    if r.lo == r.hi then Number(r.lo) else Number(r.lo) + "-" + Number(r.hi)
  }

  /** The ranges from the `k`th on, separated by commas. */
  function ListFrom(rs: seq<Range>, k: nat): string
    requires k < |rs|
    decreases |rs| - k
  {
    RangeText(rs[k]) + if k + 1 < |rs| then "," + ListFrom(rs, k + 1) else ""
  }

  function List(rs: seq<Range>): string {
    if rs == [] then "" else ListFrom(rs, 0)
  }

  /** Ranges with a dash, single bits alone, commas between them. */
  lemma ListExample()
    ensures List([Range(0, 3), Range(16, 17), Range(20, 20)]) == "0-3,16-17,20"
  {
    var rs := [Range(0, 3), Range(16, 17), Range(20, 20)];
    Numerals();
    assert ListFrom(rs, 2) == "20";
    assert ListFrom(rs, 1) == "16-17,20";
    assert ListFrom(rs, 0) == "0-3,16-17,20";
  }

  lemma Numerals()
    ensures Number(0) == "0" && Number(3) == "3" && Number(16) == "16" && Number(17) == "17" && Number(20) == "20"
  {
    TwoDigits(16, 1, 6);
    TwoDigits(17, 1, 7);
    TwoDigits(20, 2, 0);
  }

  lemma TwoDigits(n: nat, a: nat, b: nat)
    requires n == 10 * a + b && 0 < a < 10 && b < 10
    ensures Number(n) == [DigitChar(a, false), DigitChar(b, false)]
  {
    ReverseTwo(DigitChar(b, false), DigitChar(a, false));
    RevTwo(n, a, b);
  }

  lemma RevTwo(n: nat, a: nat, b: nat)
    requires n == 10 * a + b && 0 < a < 10 && b < 10
    ensures RevDigits(n, 10, false) == [DigitChar(b, false), DigitChar(a, false)]
  {
    assert n / 10 == a && n % 10 == b && RevDigits(a, 10, false) == [DigitChar(a, false)];
  }

  lemma ReverseTwo(x: char, y: char)
    ensures Reverse([x, y]) == [y, x]
  {
    assert [x, y][1..] == [y] && [y][1..] == [];
  }

  // ---------------------------------------------------------------- printing

  /** The ranges are the maximal runs of set bits, in ascending order. */
  ghost predicate Maximal(rs: seq<Range>, a: Words, n: nat)
    requires n <= BITS_PER_LONG * |a|
  {
    && (forall k :: 0 <= k < |rs| ==> IsRun(rs[k], a, n))
    && forall k, l :: 0 <= k < l < |rs| ==> rs[k].hi + 1 < rs[l].lo
  }

  ghost predicate IsRun(r: Range, a: Words, n: nat)
    requires n <= BITS_PER_LONG * |a|
  {
    && r.lo <= r.hi < n && (forall i :: r.lo <= i <= r.hi ==> IsSet(a, i))
    && (r.lo > 0 ==> !IsSet(a, r.lo - 1)) && (r.hi + 1 < n ==> !IsSet(a, r.hi + 1))
  }

  lemma {:induction false} ListAppend(rs: seq<Range>, r: Range, k: nat)
    requires k < |rs|
    ensures ListFrom(rs + [r], k) == ListFrom(rs, k) + "," + RangeText(r)
    decreases |rs| - k
  {
    var t, u, rt := RangeText(rs[k]), if k + 1 < |rs| then ListFrom(rs, k + 1) else "", RangeText(r);
    if k + 1 < |rs| {
      ListAppend(rs, r, k + 1);
      Regrouped(t, u, rt);
    } else {
      assert ListFrom(rs + [r], k + 1) == rt + "" == rt;
      assert t + "" == t && t + ("," + rt) == t + "," + rt;
    }
  }

  lemma Regrouped(t: string, u: string, r: string)
    ensures t + ("," + (u + "," + r)) == t + ("," + u) + "," + r
  {
  }

  /** `bscnl_emit`, lines 448-457, into a buffer that is large enough. */
  method Emit(s: string, rbot: nat, rtop: nat, ghost rs: seq<Range>) returns (t: string)
    requires s == List(rs) && rbot < S64 && rtop < S64
    ensures t == List(rs + [Range(rbot, rtop)])
  {
    t := s;
    if |t| > 0 {
      t := t + ",";
    }
    NumberIsText(rbot);
    NumberIsText(rtop);
    if rbot == rtop {
      t := t + Text(rbot, DEC);
    } else {
      t := t + (Text(rbot, DEC) + "-" + Text(rtop, DEC));
    }
    ghost var r := Range(rbot, rtop);
    if rs == [] {
      assert rs + [r] == [r];
      assert RangeText(r) + "" == RangeText(r);
    } else {
      ListAppend(rs, r, 0);
      assert |RangeText(rs[0])| > 0;
    }
  }

  lemma UnionAppend(rs: seq<Range>, r: Range)
    ensures Union(rs + [r]) == Union(rs) + Bits(r)
  {
    assert (rs + [r])[..|rs|] == rs;
  }

  lemma UnionStep(rs: seq<Range>, k: nat)
    requires k < |rs|
    ensures Union(rs[..k + 1]) == Union(rs[..k]) + Bits(rs[k])
  {
    assert rs[..k + 1][..k] == rs[..k];
  }

  ghost predicate AllBefore(rs: seq<Range>, p: nat) {
    forall k :: 0 <= k < |rs| ==> rs[k].hi + 1 < p
  }

  /** What the loop knows: the ranges so far are the set bits below `rbot`, and from there to `cur` all bits are set. */
  ghost predicate Progress(rs: seq<Range>, a: Words, n: nat, rbot: nat, cur: nat)
    requires n <= BITS_PER_LONG * |a|
  {
    && Maximal(rs, a, n) && rbot <= cur <= n && Union(rs) == Below(a, n, rbot) && (rbot == n || AllBefore(rs, rbot))
    && if cur == n then rbot == n
      else (forall i :: rbot <= i <= cur ==> IsSet(a, i)) && (rbot > 0 ==> !IsSet(a, rbot - 1))
  }

  /** A run that ends at `rtop` is added. */
  lemma AddRun(rs: seq<Range>, a: Words, n: nat, rbot: nat, rtop: nat, cur: nat)
    requires n <= BITS_PER_LONG * |a| && Progress(rs, a, n, rbot, rtop) && rtop < n
    requires IsNext(a, n, rtop + 1, cur) && (cur == n || cur > rtop + 1)
    ensures Progress(rs + [Range(rbot, rtop)], a, n, cur, cur)
  {
    NextClear(a, n, rtop, cur);
    BelowMore(rs, a, n, rbot, rtop, cur);
    RunAdded(rs, a, n, Range(rbot, rtop), cur);
  }

  lemma RunAdded(rs: seq<Range>, a: Words, n: nat, r: Range, cur: nat)
    requires n <= BITS_PER_LONG * |a| && Progress(rs, a, n, r.lo, r.hi) && r.hi < n
    requires (r.hi + 1 < n ==> !IsSet(a, r.hi + 1)) && (cur == n || cur > r.hi + 1)
    ensures Maximal(rs + [r], a, n) && (cur == n || AllBefore(rs + [r], cur))
  {
    MaximalMore(rs, a, n, r, cur);
  }

  /** The bits between a run and the next one are clear. */
  lemma NextClear(a: Words, n: nat, rtop: nat, cur: nat)
    requires n <= BITS_PER_LONG * |a| && rtop < n && IsNext(a, n, rtop + 1, cur) && (cur == n || cur > rtop + 1)
    ensures rtop < cur <= n && (rtop + 1 < n ==> !IsSet(a, rtop + 1))
      && (cur < n ==> IsSet(a, cur) && !IsSet(a, cur - 1))
  {
  }

  lemma BelowMore(rs: seq<Range>, a: Words, n: nat, rbot: nat, rtop: nat, cur: nat)
    requires n <= BITS_PER_LONG * |a| && rbot <= rtop < n && (forall i :: rbot <= i <= rtop ==> IsSet(a, i))
      && IsNext(a, n, rtop + 1, cur) && rtop < cur
    requires Union(rs) == Below(a, n, rbot)
    ensures Union(rs + [Range(rbot, rtop)]) == Below(a, n, cur)
  {
    var r := Range(rbot, rtop);
    UnionAppend(rs, r);
    forall i: nat ensures i in Below(a, n, cur) <==> i in Below(a, n, rbot) + Bits(r) {
      if rtop < i < cur && i < n { assert !IsSet(a, i); }
      assert In(r, i) <==> rbot <= i <= rtop;
    }
  }

  lemma MaximalMore(rs: seq<Range>, a: Words, n: nat, r: Range, p: nat)
    requires n <= BITS_PER_LONG * |a| && Maximal(rs, a, n) && IsRun(r, a, n) && AllBefore(rs, r.lo)
    ensures Maximal(rs + [r], a, n) && (r.hi + 1 < p ==> AllBefore(rs + [r], p))
  {
  }

  lemma NoRun(a: Words, n: nat, cur: nat)
    requires n <= BITS_PER_LONG * |a| && IsNext(a, n, 0, cur)
    ensures Progress([], a, n, cur, cur)
  {
    assert Below(a, n, cur) == {};
  }

  lemma LongerRun(rs: seq<Range>, a: Words, n: nat, rbot: nat, rtop: nat, cur: nat)
    requires n <= BITS_PER_LONG * |a| && Progress(rs, a, n, rbot, rtop) && rtop < n && IsNext(a, n, rtop + 1, cur)
      && cur < n && cur <= rtop + 1
    ensures Progress(rs, a, n, rbot, cur)
  {
  }

  lemma AllRuns(rs: seq<Range>, a: Words, n: nat, rbot: nat)
    requires n <= BITS_PER_LONG * |a| && Progress(rs, a, n, rbot, n)
    ensures Maximal(rs, a, n) && Union(rs) == BitSet(a, n)
  {
    assert Below(a, n, n) == BitSet(a, n);
  }

  /** `bitmap_scnlistprintf`, lines 476-497, into a buffer that is large enough. */
  method PrintList(a: Words, n: nat) returns (s: string, ghost rs: seq<Range>)
    requires Holds(a, n) && n < S64
    ensures s == List(rs) && Maximal(rs, a, n) && Union(rs) == BitSet(a, n)
  {
    s, rs := "", [];
    var cur: nat := FindFirstBit(a, n);
    var rbot: nat := cur;
    NoRun(a, n, cur);
    while cur < n
      invariant rbot <= cur <= n
      invariant s == List(rs)
      invariant Progress(rs, a, n, rbot, cur)
      decreases n - cur
    {
      var rtop := cur;
      cur := FindNextBit(a, n, rtop + 1);
      if cur >= n || cur > rtop + 1 {
        s := Emit(s, rbot, rtop, rs);
        AddRun(rs, a, n, rbot, rtop, cur);
        rs := rs + [Range(rbot, rtop)];
        rbot := cur;
      } else {
        LongerRun(rs, a, n, rbot, rtop, cur);
      }
    }
    AllRuns(rs, a, n, rbot);
  }

  // ---------------------------------------------------------------- parsing, as a function

  datatype Parsed = Ok(bits: set<nat>) | Error(code: int)

  /** One number or range from `pos` on, lines 523-535: the range and where it ends. */
  datatype Item = Item(r: Range, end: nat) | Bad(error: int)

  function ReadItem(s: string, pos: nat): (it: Item)
    ensures it.Item? ==> pos < it.end <= |s|
  {
    if !IsDigit(At(s, pos)) then Bad(-EINVAL)
    else
      var (a, e) := Unsigned(s, pos, 10);
      ScanMoves(s, pos, 10, 0);
      if At(s, e) != '-' then Item(Range(a % U32, a % U32), e)
      else if !IsDigit(At(s, e + 1)) then Bad(-EINVAL)
      else
        var (b, e') := Unsigned(s, e + 1, 10);
        ScanMoves(s, e + 1, 10, 0);
        if a % U32 > b % U32 then Bad(-EINVAL) else Item(Range(a % U32, b % U32), e')
  }

  /** Scanning stays in the string, and moves on over a digit. */
  lemma {:induction false} ScanMoves(s: string, pos: nat, base: nat, acc: nat)
    requires pos <= |s|
    ensures pos <= Scan(s, pos, base, acc).1 <= |s|
      && (pos < |s| && Fits(s[pos], base) ==> pos < Scan(s, pos, base, acc).1)
    decreases |s| - pos
  {
    if pos < |s| && Fits(s[pos], base) { ScanMoves(s, pos + 1, base, (acc * base + Unhex(s[pos])) % NumberText.U64); }
  }

  /** Lines 522-542 */
  function ParseFrom(s: string, pos: nat, n: nat, bits: set<nat>): Parsed
    decreases |s| - pos
  {
    var it := ReadItem(s, pos);
    if it.Bad? then Error(it.error)
    else if it.r.hi >= n then Error(-ERANGE)
    else
      var bits', next := bits + Bits(it.r), if At(s, it.end) == ',' then it.end + 1 else it.end;
      if At(s, next) == '\0' || At(s, next) == '\n' then Ok(bits') else ParseFrom(s, next, n, bits')
  }

  // ---------------------------------------------------------------- parsing what was printed

  lemma Tails(s: string, pos: nat, t: string, rest: string)
    requires pos <= |s| && s[pos..] == t + rest
    ensures pos + |t| <= |s| && s[pos..pos + |t|] == t && s[pos + |t|..] == rest
    ensures At(s, pos + |t|) == (if rest == "" then '\0' else rest[0]) && (t != "" ==> At(s, pos) == t[0])
  {
    var u := s[pos..];
    assert s[pos..pos + |t|] == u[..|t|] == t;
    assert s[pos + |t|..] == u[|t|..] == rest;
    assert rest != "" ==> s[pos + |t|] == u[|t|];
    assert t != "" ==> s[pos] == u[0];
  }

  lemma NumberFits(v: nat)
    ensures AllFit(Number(v), 10) && Value(Number(v), 10) == v && IsDigit(Number(v)[0])
  {
    ValueOfDigits(v, 10, false, "");
    assert "" + Number(v) == Number(v);
    assert Fits(Number(v)[0], 10);
  }

  /** The digits of a number, followed by something else, are read as the number. */
  lemma ReadNumber(s: string, pos: nat, v: nat, rest: string)
    requires v < NumberText.U64 && pos <= |s| && s[pos..] == Number(v) + rest && (rest != "" ==> !IsDigit(rest[0]))
    ensures IsDigit(At(s, pos)) && Unsigned(s, pos, 10) == (v, pos + |Number(v)|)
    ensures pos + |Number(v)| <= |s| && s[pos + |Number(v)|..] == rest
      && At(s, pos + |Number(v)|) == if rest == "" then '\0' else rest[0]
  {
    NumberFits(v);
    ReadDigits(s, pos, Number(v), rest);
  }

  lemma ReadDigits(s: string, pos: nat, t: string, rest: string)
    requires t != "" && AllFit(t, 10) && Value(t, 10) < NumberText.U64 && IsDigit(t[0])
    requires pos <= |s| && s[pos..] == t + rest && (rest != "" ==> !IsDigit(rest[0]))
    ensures IsDigit(At(s, pos)) && Unsigned(s, pos, 10) == (Value(t, 10), pos + |t|)
    ensures pos + |t| <= |s| && s[pos + |t|..] == rest && At(s, pos + |t|) == if rest == "" then '\0' else rest[0]
  {
    Tails(s, pos, t, rest);
    DecimalScan(s, pos, t);
  }

  lemma DecimalScan(s: string, pos: nat, t: string)
    requires AllFit(t, 10) && Value(t, 10) < NumberText.U64 && pos + |t| <= |s| && s[pos..pos + |t|] == t
      && !Fits(At(s, pos + |t|), 10)
    ensures Unsigned(s, pos, 10) == (Value(t, 10), pos + |t|)
  {
    assert t[..0] == "";
    ScanDigits(s, pos, t, 10, 0);
  }

  lemma ReadRange(s: string, pos: nat, r: Range, rest: string)
    requires r.lo <= r.hi < U32 && pos <= |s| && s[pos..] == RangeText(r) + rest && (rest != "" ==> rest[0] == ',')
    ensures ReadItem(s, pos) == Item(r, pos + |RangeText(r)|)
    ensures pos + |RangeText(r)| <= |s| && s[pos + |RangeText(r)|..] == rest
      && At(s, pos + |RangeText(r)|) == if rest == "" then '\0' else rest[0]
  {
    Tails(s, pos, RangeText(r), rest);
    if r.lo == r.hi {
      ReadNumber(s, pos, r.lo, rest);
    } else {
      ReadPair(s, pos, r.lo, r.hi, rest);
    }
  }

  lemma Shape(lo: string, hi: string, rest: string)
    ensures lo + "-" + hi + rest == lo + ("-" + (hi + rest))
  {
  }

  lemma PairItem(s: string, pos: nat, lo: nat, e: nat, hi: nat, end: nat)
    requires lo < hi < U32 && IsDigit(At(s, pos)) && Unsigned(s, pos, 10) == (lo, e) && At(s, e) == '-'
      && IsDigit(At(s, e + 1)) && Unsigned(s, e + 1, 10) == (hi, end)
    ensures ReadItem(s, pos) == Item(Range(lo, hi), end)
  {
  }

  lemma ReadPair(s: string, pos: nat, lo: nat, hi: nat, rest: string)
    requires lo < hi < U32 && pos <= |s| && s[pos..] == Number(lo) + "-" + Number(hi) + rest
      && (rest != "" ==> rest[0] == ',')
    ensures ReadItem(s, pos) == Item(Range(lo, hi), pos + |Number(lo)| + 1 + |Number(hi)|)
  {
    var e := pos + |Number(lo)|;
    assert IsDigit(At(s, pos)) && Unsigned(s, pos, 10) == (lo, e) && At(s, e) == '-' && e < |s|
      && s[e + 1..] == Number(hi) + rest by {
      Shape(Number(lo), Number(hi), rest);
      ReadNumber(s, pos, lo, "-" + (Number(hi) + rest));
      Tails(s, e, "-", Number(hi) + rest);
    }
    ReadNumber(s, e + 1, hi, rest);
    PairItem(s, pos, lo, e, hi, e + 1 + |Number(hi)|);
  }

  ghost predicate Fit(rs: seq<Range>, n: nat) {
    forall k :: 0 <= k < |rs| ==> rs[k].lo <= rs[k].hi < n
  }

  /** One item takes parsing from `pos` to `next`, and from `bits` to `bits'`. */
  ghost predicate Step(s: string, pos: nat, n: nat, bits: set<nat>, next: nat, bits': set<nat>) {
    var it := ReadItem(s, pos);
    it.Item? && it.r.hi < n && bits' == bits + Bits(it.r) && next == if At(s, it.end) == ',' then it.end + 1 else it.end
  }

  lemma StepIs(s: string, pos: nat, n: nat, bits: set<nat>, next: nat, bits': set<nat>)
    requires Step(s, pos, n, bits, next, bits')
    ensures ParseFrom(s, pos, n, bits) == if At(s, next) == '\0' || At(s, next) == '\n' then Ok(bits')
      else ParseFrom(s, next, n, bits')
  {
  }

  /** The text from `pos` on is the list from the `k`th range on, and `bits` are those of the ranges before. */
  ghost predicate Next(s: string, pos: nat, rs: seq<Range>, k: nat, bits: set<nat>) {
    k < |rs| && pos <= |s| && s[pos..] == ListFrom(rs, k) && bits == Union(rs[..k])
  }

  /** The range that is next in the text is the one read. */
  lemma ReadNext(s: string, pos: nat, rs: seq<Range>, k: nat, bits: set<nat>)
    requires Next(s, pos, rs, k, bits) && Fit(rs, U32)
    ensures var e := pos + |RangeText(rs[k])|;
      && ReadItem(s, pos) == Item(rs[k], e) && e <= |s|
      && s[e..] == if k + 1 < |rs| then "," + ListFrom(rs, k + 1) else ""
  {
    if k + 1 < |rs| {
      ReadRange(s, pos, rs[k], "," + ListFrom(rs, k + 1));
    } else {
      assert RangeText(rs[k]) + "" == ListFrom(rs, k);
      ReadRange(s, pos, rs[k], "");
    }
  }

  /** Parsing one range leads to the next, or to the end. */
  lemma OneRange(s: string, pos: nat, rs: seq<Range>, n: nat, k: nat, bits: set<nat>) returns (next: nat)
    requires Next(s, pos, rs, k, bits) && Fit(rs, U32) && rs[k].hi < n
    ensures Step(s, pos, n, bits, next, bits + Bits(rs[k]))
    ensures k + 1 == |rs| ==> At(s, next) == '\0' && bits + Bits(rs[k]) == Union(rs)
    ensures k + 1 < |rs| ==> IsDigit(At(s, next)) && Next(s, next, rs, k + 1, bits + Bits(rs[k]))
  {
    var e := pos + |RangeText(rs[k])|;
    UnionStep(rs, k);
    ReadNext(s, pos, rs, k, bits);
    if k + 1 < |rs| {
      NextRange(s, e, rs, k);
      next := e + 1;
      StepFrom(s, pos, n, bits, rs[k], e, next);
    } else {
      assert rs[..k + 1] == rs;
      next := e;
      StepFrom(s, pos, n, bits, rs[k], e, next);
    }
  }

  lemma StepFrom(s: string, pos: nat, n: nat, bits: set<nat>, r: Range, e: nat, next: nat)
    requires ReadItem(s, pos) == Item(r, e) && r.hi < n && next == if At(s, e) == ',' then e + 1 else e
    ensures Step(s, pos, n, bits, next, bits + Bits(r))
  {
  }

  /** Every range from the `k`th on ends below `n`. */
  ghost predicate Within(rs: seq<Range>, k: nat, n: nat) {
    forall j :: k <= j < |rs| ==> rs[j].hi < n
  }

  /** Parsing the list from the `k`th range on adds the rest of the ranges, unless one of them ends too high. */
  lemma {:induction false} ParseRest(s: string, pos: nat, rs: seq<Range>, n: nat, k: nat, bits: set<nat>)
    requires Next(s, pos, rs, k, bits) && Fit(rs, U32)
    ensures ParseFrom(s, pos, n, bits) == if Within(rs, k, n) then Ok(Union(rs)) else Error(-ERANGE)
    decreases |rs| - k
  {
    if rs[k].hi >= n {
      ReadNext(s, pos, rs, k, bits);
      return;
    }
    var next := OneRange(s, pos, rs, n, k, bits);
    StepIs(s, pos, n, bits, next, bits + Bits(rs[k]));
    if k + 1 < |rs| { ParseRest(s, next, rs, n, k + 1, bits + Bits(rs[k])); }
  }

  lemma NextRange(s: string, e: nat, rs: seq<Range>, k: nat)
    requires k + 1 < |rs| && e <= |s| && s[e..] == "," + ListFrom(rs, k + 1)
    ensures At(s, e) == ',' && IsDigit(At(s, e + 1)) && e < |s| && s[e + 1..] == ListFrom(rs, k + 1)
  {
    StartsWithDigit(rs, k + 1);
    Tails(s, e, ",", ListFrom(rs, k + 1));
  }

  lemma StartsWithDigit(rs: seq<Range>, k: nat)
    requires k < |rs|
    ensures ListFrom(rs, k) != "" && IsDigit(ListFrom(rs, k)[0])
  {
    NumberFits(rs[k].lo);
    assert ListFrom(rs, k)[0] == Number(rs[k].lo)[0];
  }

  /** A printed list is parsed as the bits of its ranges if each fits the bitmap; the empty list is refused. */
  lemma ParsePrinted(rs: seq<Range>, n: nat)
    requires Fit(rs, U32)
    ensures ParseFrom(List(rs), 0, n, {}) == if rs == [] then Error(-EINVAL)
      else if Within(rs, 0, n) then Ok(Union(rs)) else Error(-ERANGE)
  {
    if rs != [] {
      assert List(rs)[0..] == List(rs);
      assert rs[..0] == [];
      ParseRest(List(rs), 0, rs, n, 0, {});
    }
  }

  // ---------------------------------------------------------------- parsing into words

  /** Lines 523-535 */
  method ReadRangeAt(s: string, pos: nat) returns (it: Item)
    ensures it == ReadItem(s, pos)
  {
    if !IsDigit(At(s, pos)) {
      return Bad(-EINVAL);
    }
    var a, end := StrToUl(s, pos, 10);
    a := a % U32;
    var b := a;
    if At(s, end) == '-' {
      if !IsDigit(At(s, end + 1)) {
        return Bad(-EINVAL);
      }
      b, end := StrToUl(s, end + 1, 10);
      b := b % U32;
    }
    if a > b {
      return Bad(-EINVAL);
    }
    it := Item(Range(a, b), end);
  }

  lemma BitsStep(lo: nat, a: nat, b: nat)
    requires lo <= a <= b
    ensures (set i | 0 <= i < a && In(Range(lo, b), i)) + {a} == set i | 0 <= i < a + 1 && In(Range(lo, b), i)
  {
    assert In(Range(lo, b), a);
  }

  /** Lines 536-539 */
  method SetRange(mask: array<nat>, r: Range, ghost n: nat)
    requires Holds(mask[..], n) && r.lo <= r.hi < n
    modifies mask
    ensures Holds(mask[..], n) && BitSet(mask[..], n) == BitSet(old(mask[..]), n) + Bits(r)
  {
    var a := r.lo;
    ghost var done: set<nat> := set i | 0 <= i < a && In(r, i);
    assert done == {};
    while a <= r.hi
      invariant r.lo <= a <= r.hi + 1 && Holds(mask[..], n) && done == set i | 0 <= i < a && In(r, i)
      invariant BitSet(mask[..], n) == BitSet(old(mask[..]), n) + done
    {
      SetBit(mask, a, n);
      BitsStep(r.lo, a, r.hi);
      done := done + {a};
      a := a + 1;
    }
    assert done == Bits(r);
  }

  /** `bitmap_parselist`, lines 517-544 */
  method ParseList(s: string, mask: array<nat>, n: nat) returns (err: int)
    requires n <= BITS_PER_LONG * mask.Length
    modifies mask
    ensures var p := ParseFrom(s, 0, n, {});
      if p.Ok? then err == 0 && Holds(mask[..], n) && BitSet(mask[..], n) == p.bits else err == p.code
  {
    Zero(mask, n);
    var pos: nat, more := 0, true;
    ghost var bits: set<nat> := {};
    ghost var all := ParseFrom(s, 0, n, {});
    while more
      invariant Holds(mask[..], n) && BitSet(mask[..], n) == bits
      invariant all == if more then ParseFrom(s, pos, n, bits) else Ok(bits)
      decreases |s| - pos, more
    {
      var it := ReadRangeAt(s, pos);
      if it.Bad? {
        return it.error;
      }
      if it.r.hi >= n {
        return -ERANGE;
      }
      SetRange(mask, it.r, n);
      bits := bits + Bits(it.r);
      pos := it.end;
      if At(s, pos) == ',' {
        pos := pos + 1;
      }
      more := At(s, pos) != '\0' && At(s, pos) != '\n';
    }
    err := 0;
  }

  lemma RunsFit(rs: seq<Range>, a: Words, n: nat)
    requires n <= BITS_PER_LONG * |a| && Maximal(rs, a, n)
    ensures Fit(rs, n)
  {
    forall k | 0 <= k < |rs| ensures rs[k].lo <= rs[k].hi < n {
      assert IsRun(rs[k], a, n);
    }
  }

  lemma NoBits(rs: seq<Range>, n: nat)
    requires Fit(rs, n)
    ensures Union(rs) == {} <==> rs == []
  {
    if rs != [] {
      assert In(rs[|rs| - 1], rs[|rs| - 1].lo);
      assert rs[|rs| - 1].lo in Union(rs);
    }
  }

  /** Every range ends below `m` exactly if every bit is below `m`. */
  lemma UnionWithin(rs: seq<Range>, n: nat, m: nat)
    requires Fit(rs, n)
    ensures Within(rs, 0, m) <==> forall b :: b in Union(rs) ==> b < m
  {
    if Within(rs, 0, m) {
      forall b | b in Union(rs) ensures b < m {
        UnionFrom(rs, b);
        var k :| 0 <= k < |rs| && In(rs[k], b);
      }
    } else {
      var k :| 0 <= k < |rs| && rs[k].hi >= m;
      UnionHas(rs, k, rs[k].hi);
    }
  }

  lemma {:induction false} UnionHas(rs: seq<Range>, k: nat, b: nat)
    requires k < |rs| && In(rs[k], b)
    ensures b in Union(rs)
  {
    if k < |rs| - 1 { UnionHas(rs[..|rs| - 1], k, b); }
  }

  lemma {:induction false} UnionFrom(rs: seq<Range>, b: nat)
    requires b in Union(rs)
    ensures exists k :: 0 <= k < |rs| && In(rs[k], b)
  {
    var last := |rs| - 1;
    if In(rs[last], b) { return; }
    UnionFrom(rs[..last], b);
    var k :| 0 <= k < last && In(rs[..last][k], b);
    assert In(rs[k], b);
  }

  /** Printing a bitmap of `n` bits as a list and parsing that list into a bitmap of `m` bits gives the same bits back,
    * exactly if there are any and each of them is below `m`. */
  method PrintParseList(a: Words, n: nat, mask: array<nat>, m: nat) returns (err: int)
    requires Holds(a, n) && n < 0x8000_0000 && m <= BITS_PER_LONG * mask.Length
    modifies mask
    ensures err == if BitSet(a, n) == {} then -EINVAL else if forall b :: b in BitSet(a, n) ==>
      b < m then 0 else -ERANGE
    ensures err == 0 ==> Holds(mask[..], m) && BitSet(mask[..], m) == BitSet(a, n)
  {
    var s, rs := PrintList(a, n);
    RunsFit(rs, a, n);
    NoBits(rs, n);
    UnionWithin(rs, n, m);
    ParsePrinted(rs, m);
    err := ParseList(s, mask, m);
  }
}
