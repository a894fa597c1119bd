/**
  How many bits a lookup in the tables of `huft_build` asks for. Every table looks up all its bits, so a lookup
  may ask for more bits than the code has that it finds.
 */
module HuftNeed {
  import opened Bits
  import opened HuffmanCode
  import opened HuftLengths
  import opened HuftSort
  import opened HuftTables
  import opened HuftStack
  import opened HuftBuild
  import opened HuftBuilder
  import opened HuftCorrect
  import opened HuftRfc

  /** The number of bits that must be there for the walk. */
  ghost function WalkNeed(pool: seq<seq<Huft>>, t: nat, bits: nat, s: nat, used: nat): (n: nat)
    requires t < |pool|
    ensures n >= used + bits
    decreases |pool| - t
  {
    var idx := Low(Shr(s, used), bits);
    if idx >= |pool[t]| then used + bits
    else
      var en := pool[t][idx];
      if en.e == INVALID_CODE || en.b > bits || en.e <= 16 || !(t < en.v < |pool| && en.e <= 32) then used + bits
      else
        var n := WalkNeed(pool, en.v, en.e - 16, s, used + en.b);
        if n > used + bits then n else used + bits
  }

  /** The bits that must be there cover those that are used. */
  lemma {:induction false} NeedCovers(pool: seq<seq<Huft>>, t: nat, bits: nat, s: nat, used: nat)
    requires t < |pool|
    ensures var out, n := Walk(pool, t, bits, s, used), WalkNeed(pool, t, bits, s, used);
      out.Found? ==> used <= out.used <= n
    decreases |pool| - t
  {
    var idx := Low(Shr(s, used), bits);
    if idx < |pool[t]| {
      var en := pool[t][idx];
      if en.e > 16 && t < en.v < |pool| && en.e <= 32 { NeedCovers(pool, en.v, en.e - 16, s, used + en.b); }
    }
  }

  // ---------------------------------------------------------------- on code lengths

  /** The bits before the table that holds a code of `k` bits, when all tables before it look up `l` bits. */
  function Whole(k: nat, l: nat): (w: nat)
    requires l >= 1
    ensures k > 0 ==> w < k <= w + l
    decreases k
  {
    if k <= l then 0 else l + Whole(k - l, l)
  }

  /** The codes of `x` and `y` agree on their first `w` bits. */
  ghost predicate Shares(b: seq<nat>, w: nat, x: nat, y: nat)
    requires x < |b| && y < |b| && w <= b[x] <= BMAX && w <= b[y] <= BMAX && 1 <= b[x] && 1 <= b[y]
  {
    w == 0 || Prefix(CanonicalCode(b, x), b[x], w) == Prefix(CanonicalCode(b, y), b[y], w)
  }

  /** Every code that begins with the first `w` bits of the code of `sym` has at most `n` bits. */
  ghost predicate NoneLongerThan(b: seq<nat>, w: nat, sym: nat, n: nat)
    requires sym < |b| && w < b[sym] <= BMAX
  {
    forall o {:trigger b[o]} :: 0 <= o < |b| && w < b[o] <= BMAX && Shares(b, w, sym, o) ==> b[o] <= n
  }

  /**
    With tables of `l` bits, `n` bits are enough to look up the code of `sym`: they are enough for a whole table,
    or for every code that is in the same table.
   */
  ghost predicate Enough(b: seq<nat>, l: nat, sym: nat, n: nat)
    requires l >= 1 && sym < |b| && 1 <= b[sym] <= BMAX
  {
    Whole(b[sym], l) + l <= n || NoneLongerThan(b, Whole(b[sym], l), sym, n)
  }

  /** They are never fewer than the code has. */
  lemma EnoughCovers(b: seq<nat>, l: nat, sym: nat, n: nat)
    requires l >= 1 && sym < |b| && 1 <= b[sym] <= BMAX && Enough(b, l, sym, n)
    ensures b[sym] <= n
  {
  }

  lemma EnoughMono(b: seq<nat>, l: nat, sym: nat, n: nat, n': nat)
    requires l >= 1 && sym < |b| && 1 <= b[sym] <= BMAX && Enough(b, l, sym, n) && n <= n'
    ensures Enough(b, l, sym, n')
  {
  }

  /** If `m` bits are enough for one code, then for any other so are `m` bits after it. */
  lemma EnoughBefore(b: seq<nat>, l: nat, sym: nat, m: nat, o: nat, n: nat)
    requires l >= 1 && sym < |b| && 1 <= b[sym] <= BMAX && Enough(b, l, sym, m)
    requires o < |b| && 1 <= b[o] <= BMAX && n >= b[o] + m
    ensures Enough(b, l, o, n)
  {
    EnoughCovers(b, l, sym, m);
    if m < l {
      assert Whole(b[sym], l) == 0;
      assert NoneLongerThan(b, 0, sym, m);
      forall p | 0 <= p < |b| && Whole(b[o], l) < b[p] <= BMAX ensures b[p] <= n {
        assert Shares(b, 0, sym, p);
      }
    }
  }

  // ---------------------------------------------------------------- patterns

  lemma {:induction false} WholeIs(k: nat, l: nat, q: nat)
    requires l >= 1 && Times(q, l) < k <= Times(q, l) + l
    ensures Whole(k, l) == Times(q, l)
    decreases q
  {
    if q > 0 { WholeIs(k - l, l, q - 1); }
  }

  lemma NeedLeaf(cd: Code, pool: seq<seq<Huft>>, infos: seq<Info>, t: nat, x: nat, s: nat)
    requires ValidCode(cd) && ProperOps(cd) && Shaped(cd, pool, infos) && t < |pool|
    requires Good(cd, pool, infos, t, x) && Low(s, cd.g) == Rev(x, cd.g, cd.g)
    requires LenAt(cd.c, cd.g, x) <= infos[t].w + infos[t].bits
    ensures WalkNeed(pool, t, infos[t].bits, s, infos[t].w) == infos[t].w + infos[t].bits
  {
    InputBits(s, x, cd.g, infos[t].w, infos[t].bits);
  }

  lemma NeedLink(cd: Code, pool: seq<seq<Huft>>, infos: seq<Info>, t: nat, x: nat, s: nat)
    requires ValidCode(cd) && Shaped(cd, pool, infos) && t < |pool|
    requires Good(cd, pool, infos, t, x) && LenAt(cd.c, cd.g, x) > infos[t].w + infos[t].bits
    requires Low(s, cd.g) == Rev(x, cd.g, cd.g)
    ensures var t' := Target(cd, pool, infos, t, x);
      var n := WalkNeed(pool, t', infos[t'].bits, s, infos[t'].w);
      WalkNeed(pool, t, infos[t].bits, s, infos[t].w) ==
        if n > infos[t].w + infos[t].bits then n else infos[t].w + infos[t].bits
  {
    InputBits(s, x, cd.g, infos[t].w, infos[t].bits);
  }

  /** A lookup asks for the bits up to the end of the table that holds the code. */
  lemma {:induction false} NeedAtEnd(cd: Code, pool: seq<seq<Huft>>, infos: seq<Info>, t: nat, q: nat, x: nat, s: nat)
    returns (f: nat)
    requires ValidCode(cd) && ProperOps(cd) && NoSkip(cd) && Tables(cd, pool, infos) && t < |pool|
    requires GoodBelow(cd, pool, infos, Pow2(cd.g)) && infos[t].w == Times(q, cd.l)
    requires Member(cd, infos[t], x) && Low(s, cd.g) == Rev(x, cd.g, cd.g)
    ensures f < |pool| && Member(cd, infos[f], x) && infos[f].bits <= cd.l && infos[t].w <= infos[f].w
    ensures infos[f].w == Whole(LenAt(cd.c, cd.g, x), cd.l)
    ensures WalkNeed(pool, t, infos[t].bits, s, infos[t].w) == infos[f].w + infos[f].bits
    decreases |pool| - t
  {
    assert TableOk(cd, infos[t], pool[t]);
    ProperSize(cd, infos[t], pool[t], q);
    assert Good(cd, pool, infos, t, x);
    if LenAt(cd.c, cd.g, x) <= infos[t].w + infos[t].bits {
      f := t;
      NeedLeaf(cd, pool, infos, t, x, s);
      WholeIs(LenAt(cd.c, cd.g, x), cd.l, q);
    } else {
      NeedLink(cd, pool, infos, t, x, s);
      f := NeedAtEnd(cd, pool, infos, Target(cd, pool, infos, t, x), q + 1, x, s);
    }
  }

  /** Every pattern that begins with the first `w` bits of `x` has a code of at most `n` bits. */
  ghost predicate ShortFrom(cd: Code, w: nat, x: nat, n: nat)
    requires ValidCode(cd) && w <= cd.g
  {
    forall y: nat {:trigger Prefix(y, cd.g, w)} ::
      y < Pow2(cd.g) && Prefix(y, cd.g, w) == Prefix(x, cd.g, w) ==> LenAt(cd.c, cd.g, y) <= n
  }

  /** The table at the end of a walk is as small as its codes allow. */
  lemma EndFits(cd: Code, it: Info, tab: seq<Huft>, x: nat, n: nat)
    requires ValidCode(cd) && it.w + it.bits <= cd.g && TableOk(cd, it, tab) && it.bits <= cd.l && Member(cd, it, x)
    requires Reached(cd, it.w, it.p, it.bits)
    ensures it.w + it.bits <= n <==> it.w + cd.l <= n || ShortFrom(cd, it.w, x, n)
  {
    if it.w + it.bits <= n && it.bits < cd.l {
      forall y: nat | y < Pow2(cd.g) && Prefix(y, cd.g, it.w) == Prefix(x, cd.g, it.w)
        ensures LenAt(cd.c, cd.g, y) <= n
      {
        assert Member(cd, it, y);
      }
    }
  }

  lemma NeedIs(cd: Code, pool: seq<seq<Huft>>, infos: seq<Info>, x: nat, s: nat, n: nat)
    requires ValidCode(cd) && ProperOps(cd) && NoSkip(cd) && Tables(cd, pool, infos) && |pool| > 0
    requires GoodBelow(cd, pool, infos, Pow2(cd.g)) && Snug(cd, infos)
    requires x < Pow2(cd.g) && Low(s, cd.g) == Rev(x, cd.g, cd.g)
    ensures var w := Whole(LenAt(cd.c, cd.g, x), cd.l);
      w <= cd.g && (WalkNeed(pool, 0, cd.l, s, 0) <= n <==> w + cd.l <= n || ShortFrom(cd, w, x, n))
  {
    RootBits(cd, pool, infos);
    PrefixZero(x, cd.g);
    var f := NeedAtEnd(cd, pool, infos, 0, 0, x, s);
    assert TableOk(cd, infos[f], pool[f]) && SnugAt(cd, infos, f);
    EndFits(cd, infos[f], pool[f], x, n);
  }

  // ---------------------------------------------------------------- from patterns to symbols

  /** Every pattern begins with a code, or all codes are equally long. */
  ghost predicate Even(b: seq<nat>, cd: Code)
    requires cd.g < |cd.c|
  {
    cd.c[cd.g] == Count(b, cd.g) || forall i :: 0 <= i < |b| && b[i] > 0 ==> b[i] == cd.g
  }

  /** The pattern of the code of `o`, followed by zeros. */
  lemma PatternOf(b: seq<nat>, cd: Code, o: nat) returns (y: nat)
    requires Assembled(b, cd) && o < |b| && b[o] > 0
    ensures y < Pow2(cd.g) && LenAt(cd.c, cd.g, y) == b[o] && Prefix(y, cd.g, b[o]) == CanonicalCode(b, o)
  {
    CodeInRange(b, cd, o);
    var m := cd.g - b[o];
    y := CanonicalCode(b, o) * Pow2(m);
    ShrUnique(y, m, CanonicalCode(b, o), 0);
    CodeStart(cd.c, cd.g, y, b[o]);
  }

  lemma PrefixOfCode(x: nat, g: nat, k: nat, w: nat)
    requires w <= k <= g
    ensures Prefix(x, g, w) == Prefix(Prefix(x, g, k), k, w)
  {
    ShrShr(x, g - k, k - w);
  }

  /** What is short for all patterns is short for all symbols. */
  lemma ShortSymbols(b: seq<nat>, cd: Code, sym: nat, x: nat, w: nat, n: nat)
    requires Assembled(b, cd) && sym < |b| && w < b[sym] && x < Pow2(cd.g)
    requires Prefix(x, cd.g, b[sym]) == CanonicalCode(b, sym) && ShortFrom(cd, w, x, n)
    ensures NoneLongerThan(b, w, sym, n)
  {
    forall o | 0 <= o < |b| && w < b[o] <= BMAX && Shares(b, w, sym, o) ensures b[o] <= n {
      var y := PatternOf(b, cd, o);
      PrefixOfCode(y, cd.g, b[o], w);
      PrefixOfCode(x, cd.g, b[sym], w);
      PrefixZero(x, cd.g);
      PrefixZero(y, cd.g);
      assert Prefix(y, cd.g, w) == Prefix(x, cd.g, w);
    }
  }

  lemma ShortPattern(b: seq<nat>, cd: Code, sym: nat, x: nat, w: nat, n: nat, y: nat)
    requires Assembled(b, cd) && Even(b, cd) && sym < |b| && w < b[sym] && x < Pow2(cd.g) && y < Pow2(cd.g)
    requires Prefix(x, cd.g, b[sym]) == CanonicalCode(b, sym) && NoneLongerThan(b, w, sym, n)
    requires Prefix(y, cd.g, w) == Prefix(x, cd.g, w)
    ensures LenAt(cd.c, cd.g, y) <= n
  {
    assert Shares(b, w, sym, sym);
    var k, ord := LenAt(cd.c, cd.g, y), Ord(cd.c, cd.g, y);
    Assigned(b, cd, y);
    if 0 <= ord < |cd.v| {
      var o := cd.v[ord];
      if w < k {
        PrefixOfCode(y, cd.g, k, w);
        PrefixOfCode(x, cd.g, b[sym], w);
        assert Shares(b, w, sym, o);
      }
    } else if cd.c[cd.g] == Count(b, cd.g) {
      LenAtIs(cd.c, cd.g, y, k);
      SameBelow(cd.c, CountsOf(b), k);
      assert false;
    }
  }

  /** The bits that a lookup asks for, on the code lengths. */
  lemma NeedOfCode(b: seq<nat>, cd: Code, pool: seq<seq<Huft>>, infos: seq<Info>, st: nat, sym: nat, n: nat)
    requires Assembled(b, cd) && Even(b, cd) && ProperOps(cd) && NoSkip(cd) && Tables(cd, pool, infos) && |pool| > 0
    requires GoodBelow(cd, pool, infos, Pow2(cd.g)) && Snug(cd, infos) && sym < |b| && StartsWith(st, b, sym)
    ensures WalkNeed(pool, 0, cd.l, st, 0) <= n <==> Enough(b, cd.l, sym, n)
  {
    LowBound(st, cd.g);
    var x := Unreverse(Low(st, cd.g), cd.g);
    StartsIs(b, cd, x, st, sym);
    NeedIs(cd, pool, infos, x, st, n);
    var w := Whole(b[sym], cd.l);
    if ShortFrom(cd, w, x, n) {
      ShortSymbols(b, cd, sym, x, w, n);
    }
    if NoneLongerThan(b, w, sym, n) {
      forall y: nat | y < Pow2(cd.g) && Prefix(y, cd.g, w) == Prefix(x, cd.g, w) ensures LenAt(cd.c, cd.g, y) <= n {
        ShortPattern(b, cd, sym, x, w, n, y);
      }
    }
  }

  ghost predicate NeedFits(b: seq<nat>, pool: seq<seq<Huft>>, bits: nat, st: nat, sym: nat)
    requires |pool| > 0 && bits >= 1 && sym < |b| && 1 <= b[sym] <= BMAX
  {
    forall n: nat {:trigger Enough(b, bits, sym, n)} ::
      WalkNeed(pool, 0, bits, st, 0) <= n <==> Enough(b, bits, sym, n)
  }

  /** Every lookup of a code asks for just what the code lengths say. */
  ghost predicate NeedsAll(b: seq<nat>, pool: seq<seq<Huft>>, bits: nat) {
    && |pool| > 0 && bits >= 1
    && forall st: nat, sym: nat {:trigger StartsWith(st, b, sym)} ::
      sym < |b| && StartsWith(st, b, sym) ==> NeedFits(b, pool, bits, st, sym)
  }

  lemma NeedsAllIs(b: seq<nat>, cd: Code, pool: seq<seq<Huft>>, infos: seq<Info>)
    requires Assembled(b, cd) && Even(b, cd) && ProperOps(cd) && NoSkip(cd) && Tables(cd, pool, infos) && |pool| > 0
    requires GoodBelow(cd, pool, infos, Pow2(cd.g)) && Snug(cd, infos)
    ensures NeedsAll(b, pool, cd.l)
  {
    forall st: nat, sym: nat | sym < |b| && StartsWith(st, b, sym) ensures NeedFits(b, pool, cd.l, st, sym) {
      forall n: nat ensures WalkNeed(pool, 0, cd.l, st, 0) <= n <==> Enough(b, cd.l, sym, n) {
        NeedOfCode(b, cd, pool, infos, st, sym, n);
      }
    }
  }

  /** An input begins with the code of one symbol at most. */
  ghost predicate PrefixFree(b: seq<nat>) {
    forall st: nat, x: nat, y: nat {:trigger StartsWith(st, b, x), StartsWith(st, b, y)} ::
      x < |b| && y < |b| && StartsWith(st, b, x) && StartsWith(st, b, y) ==> x == y
  }

  lemma {:induction false} EndBelow(c: seq<nat>, g: nat, k: nat)
    requires 1 <= k <= g < |c| && EndCode(c, g) <= Pow2(g)
    ensures EndCode(c, k) <= Pow2(k)
    decreases g - k
  {
    if k < g {
      EndBelow(c, g, k + 1);
      assert Pow2(k + 1) == 2 * Pow2(k);
    }
  }

  lemma CodeBelow(b: seq<nat>, sym: nat)
    requires Lengths(b) && Kraft(b) <= Pow2(BMAX) && sym < |b| && b[sym] > 0
    ensures NextCode(CountsOf(b), b[sym]) <= CanonicalCode(b, sym) < EndCode(CountsOf(b), b[sym]) <= Pow2(b[sym])
  {
    OversubscribedEnd(b, BMAX);
    EndBelow(CountsOf(b), BMAX, b[sym]);
    PlaceBound(b, sym);
  }

  lemma ShorterPattern(st: nat, v: nat, j: nat, w: nat, k: nat)
    requires j <= k && v < Pow2(j) && w < Pow2(k) && Low(st, j) == Rev(v, j, j) && Low(st, k) == Rev(w, k, k)
    ensures Prefix(w, k, j) == v
  {
    LowLow(st, j, k);
    MidSplit(w, k, 0, j, k);
    RevOfPrefix(w, k, j);
    PrefixBound(w, k, j);
    RevPrefix(Prefix(w, k, j), v, j, j);
    assert Prefix(Prefix(w, k, j), j, j) == Prefix(w, k, j) && Prefix(v, j, j) == v;
  }

  /** An input that begins with a longer code begins with its prefix. */
  lemma ShorterCode(b: seq<nat>, st: nat, x: nat, y: nat)
    requires Lengths(b) && Kraft(b) <= Pow2(BMAX) && x < |b| && y < |b| && StartsWith(st, b, x) && StartsWith(st, b, y)
    requires b[x] <= b[y]
    ensures Prefix(CanonicalCode(b, y), b[y], b[x]) == CanonicalCode(b, x)
  {
    CodeBelow(b, x);
    CodeBelow(b, y);
    ShorterPattern(st, CanonicalCode(b, x), b[x], CanonicalCode(b, y), b[y]);
  }

  lemma OneCode(b: seq<nat>, st: nat, x: nat, y: nat)
    requires Lengths(b) && Kraft(b) <= Pow2(BMAX) && x < |b| && y < |b| && StartsWith(st, b, x) && StartsWith(st, b, y)
    requires b[x] <= b[y]
    ensures x == y
  {
    ShorterCode(b, st, x, y);
    CodeBelow(b, x);
    CodeBelow(b, y);
    if b[x] < b[y] {
      Overtaken(CountsOf(b), b[y], CanonicalCode(b, y), b[x], b[y]);
      assert false;
    } else {
      RankUnique(b, x, y);
    }
  }

  /** The codes that lengths define are prefix-free, unless there are too many. */
  lemma CodesArePrefixFree(b: seq<nat>)
    requires Lengths(b) && Kraft(b) <= Pow2(BMAX)
    ensures PrefixFree(b)
  {
    forall st: nat, x: nat, y: nat | x < |b| && y < |b| && StartsWith(st, b, x) && StartsWith(st, b, y) ensures x == y {
      if b[x] <= b[y] { OneCode(b, st, x, y); } else { OneCode(b, st, y, x); }
    }
  }
}
