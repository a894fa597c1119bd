/**
  The tables of `huft_build` against section 3.2.2 of RFC 1951: the code of a symbol is fixed by
  the list of code lengths, and the table walk reads exactly the symbol whose code comes next.
 */
module HuftRfc {
  import opened Bits
  import opened HuffmanCode
  import opened HuftLengths
  import opened HuftSort
  import opened HuftTables
  import opened HuftCorrect

  /** The code of `sym`: the codes of one length are consecutive, in the order of their symbols. */
  ghost function CanonicalCode(b: seq<nat>, sym: nat): nat
    requires sym < |b| && 1 <= b[sym] <= BMAX
  {
    NextCode(CountsOf(b), b[sym]) + Rank(b, sym)
  }

  /** The input `st` begins with the code of `sym`, first bit first. */
  ghost predicate StartsWith(st: nat, b: seq<nat>, sym: nat)
    requires sym < |b|
  {
    1 <= b[sym] <= BMAX && Low(st, b[sym]) == Rev(CanonicalCode(b, sym), b[sym], b[sym])
  }

  /** A lookup ended with `mean` after `k` bits. */
  ghost predicate Reads(out: Outcome, mean: (nat, nat), k: nat) {
    if mean.0 == INVALID_CODE then out.Invalid?
    else out.Found? && out.used == k && (out.en.e, out.en.v) == mean
  }

  ghost predicate Listed(b: seq<nat>, s: nat, d: seq<nat>, e: seq<nat>) {
    |b| <= s + |d| && |b| <= s + |e|
  }

  /** A lookup on `st` reads the symbol whose code comes first, and fails if there is none. */
  ghost predicate ReadsCode(b: seq<nat>, s: nat, d: seq<nat>, e: seq<nat>, out: Outcome, st: nat)
    requires Listed(b, s, d, e)
  {
    && (forall sym :: 0 <= sym < |b| && StartsWith(st, b, sym) ==> Reads(out, MeaningOf(s, d, e, sym), b[sym]))
    && ((forall sym :: 0 <= sym < |b| ==> !StartsWith(st, b, sym)) ==> out.Invalid?)
  }

  ghost predicate ReadsAll(b: seq<nat>, s: nat, d: seq<nat>, e: seq<nat>, pool: seq<seq<Huft>>, bits: nat)
    requires Listed(b, s, d, e) && |pool| > 0
  {
    forall st: nat {:trigger ReadsCode(b, s, d, e, Walk(pool, 0, bits, st, 0), st)} ::
      ReadsCode(b, s, d, e, Walk(pool, 0, bits, st, 0), st)
  }

  // ---------------------------------------------------------------- bits of a prefix

  lemma {:induction false} MidHalf(x: nat, g: nat, v: nat)
    requires v < g
    ensures Mid(x, g, 0, v) == Mid(x / 2, g - 1, 0, v)
  {
    if v > 0 {
      MidHalf(x, g, v - 1);
      assert Prefix(x, g, v) == Prefix(x / 2, g - 1, v);
    }
  }

  lemma {:induction false} RevOfPrefix(x: nat, g: nat, k: nat)
    requires k <= g
    ensures Rev(x, g, k) == Rev(Prefix(x, g, k), k, k)
    decreases g
  {
    if k < g {
      MidHalf(x, g, k);
      RevOfPrefix(x / 2, g - 1, k);
    }
  }

  /** Reversal reaches every pattern. */
  lemma {:induction false} Unreverse(t: nat, g: nat) returns (x: nat)
    requires t < Pow2(g)
    ensures x < Pow2(g) && Rev(x, g, g) == t
  {
    if g == 0 {
      x := 0;
    } else {
      var p := Pow2(g - 1);
      var y := Unreverse(if t < p then t else t - p, g - 1);
      x := 2 * y + if t < p then 0 else 1;
      MidHalf(x, g, g - 1);
      assert x / 2 == y;
      assert Prefix(x, g, g) == x;
    }
  }

  // ---------------------------------------------------------------- from lengths to a code

  /** `cd` is the code of the lengths `b`, with the spare patterns counted as codes of `g` bits. */
  ghost predicate Assembled(b: seq<nat>, cd: Code) {
    && Lengths(b) && ValidCode(cd) && cd.g <= BMAX && |cd.c| == BMAX + 1
    && (forall i :: 0 <= i < |b| ==> b[i] <= cd.g)
    && (forall k :: 0 <= k <= BMAX && k != cd.g ==> cd.c[k] == Count(b, k)) && cd.c[cd.g] >= Count(b, cd.g)
    && |cd.v| == Base(CountsOf(b), cd.g) + Count(b, cd.g) && Slots(b, CountsOf(b), cd.g, cd.v, |b|)
    && Listed(b, cd.s, cd.d, cd.e)
  }

  lemma {:induction false} SameBelow(c: seq<nat>, c': seq<nat>, k: nat)
    requires 1 <= k <= |c| == |c'| && forall j :: 1 <= j < k ==> c[j] == c'[j]
    ensures NextCode(c, k) == NextCode(c', k) && Base(c, k) == Base(c', k)
    decreases k
  {
    if k > 1 { SameBelow(c, c', k - 1); }
  }

  lemma CodeInRange(b: seq<nat>, cd: Code, sym: nat)
    requires Assembled(b, cd) && sym < |b| && b[sym] > 0
    ensures NextCode(cd.c, b[sym]) <= CanonicalCode(b, sym) < EndCode(cd.c, b[sym]) <= Pow2(b[sym])
    ensures NextCode(cd.c, b[sym]) == NextCode(CountsOf(b), b[sym])
  {
    SameBelow(cd.c, CountsOf(b), b[sym]);
    PlaceBound(b, sym);
    EndBound(cd.c, cd.g, b[sym]);
  }

  /** The input begins with the code of `sym` exactly if the pattern it begins with does. */
  lemma StartsIs(b: seq<nat>, cd: Code, x: nat, st: nat, sym: nat)
    requires Assembled(b, cd) && x < Pow2(cd.g) && Low(st, cd.g) == Rev(x, cd.g, cd.g) && sym < |b| && b[sym] > 0
    ensures StartsWith(st, b, sym) <==> Prefix(x, cd.g, b[sym]) == CanonicalCode(b, sym)
    ensures StartsWith(st, b, sym) ==> LenAt(cd.c, cd.g, x) == b[sym]
  {
    var g, k, p, cc := cd.g, b[sym], Prefix(x, cd.g, b[sym]), CanonicalCode(b, sym);
    CodeInRange(b, cd, sym);
    LowLow(st, k, g);
    MidSplit(x, g, 0, k, g);
    RevOfPrefix(x, g, k);
    PrefixBound(x, g, k);
    RevPrefix(p, cc, k, k);
    assert Prefix(p, k, k) == p && Prefix(cc, k, k) == cc;
    if p == cc { CodeWordLen(cd.c, g, x, k); }
  }

  /** The place in the list of codes decides whether a pattern begins with the code of a symbol, and of which. */
  lemma Assigned(b: seq<nat>, cd: Code, x: nat)
    requires Assembled(b, cd) && x < Pow2(cd.g)
    ensures var k, ord := LenAt(cd.c, cd.g, x), Ord(cd.c, cd.g, x);
            if 0 <= ord < |cd.v| then
              var sym := cd.v[ord]; sym < |b| && b[sym] == k && Prefix(x, cd.g, k) == CanonicalCode(b, sym)
            else Prefix(x, cd.g, k) >= NextCode(CountsOf(b), k) + Count(b, k)
  {
    var c, k := CountsOf(b), LenAt(cd.c, cd.g, x);
    LenAtIs(cd.c, cd.g, x, k);
    SameBelow(cd.c, c, k);
    SlotOf(b, c, cd, k, Prefix(x, cd.g, k) - NextCode(c, k));
  }

  /** The `r`th code of `k` bits is that of the symbol in its slot; there is none beyond the last. */
  lemma SlotOf(b: seq<nat>, c: seq<nat>, cd: Code, k: nat, r: nat)
    requires Assembled(b, cd) && c == CountsOf(b) && 1 <= k <= cd.g
    ensures r < Count(b, k) ==> Slot(b, c, cd.v, k, r)
    ensures r >= Count(b, k) ==> Base(c, k) + r >= |cd.v| || k < cd.g
  {
    assert b[..|b|] == b;
  }

  lemma OnlyOne(b: seq<nat>, cd: Code, x: nat, st: nat, sym: nat)
    requires Assembled(b, cd) && x < Pow2(cd.g) && Low(st, cd.g) == Rev(x, cd.g, cd.g)
    requires sym < |b| && StartsWith(st, b, sym)
    ensures var ord := Ord(cd.c, cd.g, x); 0 <= ord < |cd.v| && cd.v[ord] == sym
  {
    StartsIs(b, cd, x, st, sym);
    Assigned(b, cd, x);
    PlaceBound(b, sym);
    var ord := Ord(cd.c, cd.g, x);
    if 0 <= ord < |cd.v| {
      RankUnique(b, sym, cd.v[ord]);
    }
  }

  /** Pattern by pattern, decoding the code at the head and reading the first symbol are the same. */
  lemma ReadsIffDecodes(b: seq<nat>, cd: Code, out: Outcome, x: nat, st: nat)
    requires Assembled(b, cd) && x < Pow2(cd.g) && Low(st, cd.g) == Rev(x, cd.g, cd.g)
    ensures ReadsCode(b, cd.s, cd.d, cd.e, out, st) <==> Decodes(cd, out, x)
  {
    var ord := Ord(cd.c, cd.g, x);
    forall sym | 0 <= sym < |b| && StartsWith(st, b, sym) ensures 0 <= ord < |cd.v| && cd.v[ord] == sym {
      OnlyOne(b, cd, x, st, sym);
    }
    if 0 <= ord < |cd.v| {
      Assigned(b, cd, x);
      StartsIs(b, cd, x, st, cd.v[ord]);
    }
  }

  lemma ReadsAllIff(b: seq<nat>, cd: Code, pool: seq<seq<Huft>>)
    requires Assembled(b, cd) && |pool| > 0
    ensures ReadsAll(b, cd.s, cd.d, cd.e, pool, cd.l) <==> DecodesAll(cd, pool, cd.l)
  {
    if ReadsAll(b, cd.s, cd.d, cd.e, pool, cd.l) {
      forall x: nat, st: nat | x < Pow2(cd.g) && Low(st, cd.g) == Rev(x, cd.g, cd.g)
        ensures Decodes(cd, Walk(pool, 0, cd.l, st, 0), x)
      {
        assert ReadsCode(b, cd.s, cd.d, cd.e, Walk(pool, 0, cd.l, st, 0), st);
        ReadsIffDecodes(b, cd, Walk(pool, 0, cd.l, st, 0), x, st);
      }
    }
    if DecodesAll(cd, pool, cd.l) {
      forall st: nat ensures ReadsCode(b, cd.s, cd.d, cd.e, Walk(pool, 0, cd.l, st, 0), st) {
        ShrLow(st, cd.g);
        var x := Unreverse(Low(st, cd.g), cd.g);
        ReadsIffDecodes(b, cd, Walk(pool, 0, cd.l, st, 0), x, st);
      }
    }
  }
}
