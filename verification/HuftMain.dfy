/** `huft_build` as a whole: its result code, the table size it returns, and what its tables decode. */
module HuftMain {
  import opened Bits
  import opened HuffmanCode
  import opened HuftLengths
  import opened HuftSort
  import opened HuftTables
  import opened HuftStack
  import opened HuftBuilder
  import opened HuftCorrect
  import opened HuftRfc
  import opened HuftNeed

  /** The longest length. */
  ghost function MaxLen(b: seq<nat>): nat {
    if |b| == 0 then 0
    else var r := MaxLen(b[..|b| - 1]); if b[|b| - 1] > r then b[|b| - 1] else r
  }

  /** The shortest length of a symbol that has a code, or zero. */
  ghost function MinLen(b: seq<nat>): nat {
    if |b| == 0 then 0
    else
      var r, k := MinLen(b[..|b| - 1]), b[|b| - 1];
      if r == 0 || (0 < k < r) then k else r
  }

  lemma {:induction false} ExtremesStep(b': seq<nat>, k: nat, b: seq<nat>)
    requires |b| > 0 && b' == b[..|b| - 1] && k == b[|b| - 1]
    requires forall i :: 0 <= i < |b'| ==> b'[i] <= MaxLen(b') && (b'[i] > 0 ==> 1 <= MinLen(b') <= b'[i])
    requires if AllZero(b') then MaxLen(b') == MinLen(b') == 0
      else MaxLen(b') in b' && MinLen(b') in b' && MinLen(b') > 0
    ensures forall i :: 0 <= i < |b| ==> b[i] <= MaxLen(b) && (b[i] > 0 ==> 1 <= MinLen(b) <= b[i])
    ensures if AllZero(b) then MaxLen(b) == MinLen(b) == 0 else MaxLen(b) in b && MinLen(b) in b && MinLen(b) > 0
  {
    assert MaxLen(b) == if k > MaxLen(b') then k else MaxLen(b');
    assert MinLen(b) == if MinLen(b') == 0 || (0 < k < MinLen(b')) then k else MinLen(b');
    forall i | 0 <= i < |b| ensures b[i] <= MaxLen(b) && (b[i] > 0 ==> 1 <= MinLen(b) <= b[i]) {
      if i < |b'| { assert b'[i] == b[i]; }
    }
    if !AllZero(b) {
      assert forall n :: n in b' ==> n in b;
    }
  }

  lemma {:induction false} Extremes(b: seq<nat>)
    ensures forall i :: 0 <= i < |b| ==> b[i] <= MaxLen(b) && (b[i] > 0 ==> 1 <= MinLen(b) <= b[i])
    ensures if AllZero(b) then MaxLen(b) == MinLen(b) == 0 else MaxLen(b) in b && MinLen(b) in b && MinLen(b) > 0
  {
    if |b| > 0 {
      var b', k := b[..|b| - 1], b[|b| - 1];
      Extremes(b');
      ExtremesStep(b', k, b);
    }
  }

  /**
    Beyond the first two tables' worth of bits, the codes that reach past a table of `l` bits do
    not fill a whole table.
   */
  ghost predicate NoTableSkipped(b: seq<nat>, l: nat) {
    forall q: nat :: q >= 2 && 1 <= Times(q, l) < MaxLen(b) && Times(q, l) <= BMAX ==>
      Left(CountsOf(b), Times(q, l)) < Pow2(l)
  }

  lemma NoSkipSame(b: seq<nat>, cd: Code)
    requires Assembled(b, cd) && cd.g == MaxLen(b)
    ensures NoSkip(cd) <==> NoTableSkipped(b, cd.l)
  {
    forall q: nat | q >= 2 && Times(q, cd.l) < cd.g
      ensures 1 <= Times(q, cd.l) && Left(cd.c, Times(q, cd.l)) == Left(CountsOf(b), Times(q, cd.l))
    {
      TimesMono(1, q, cd.l);
      assert Times(1, cd.l) == Times(0, cd.l) + cd.l;
      SameBelow(cd.c, CountsOf(b), Times(q, cd.l));
    }
  }

  lemma SomeLength(b: seq<nat>) returns (k: nat)
    requires Lengths(b) && !AllZero(b)
    ensures 1 <= k <= BMAX && CountsOf(b)[k] > 0
  {
    var i :| 0 <= i < |b| && b[i] != 0;
    CountPositive(b, i);
    k := b[i];
  }

  lemma SpanIs(b: seq<nat>, kmin: nat, g: nat)
    requires Lengths(b) && 1 <= kmin <= g <= BMAX && Count(b, kmin) > 0 && Count(b, g) > 0
    requires forall k :: 1 <= k <= BMAX && Count(b, k) > 0 ==> kmin <= k <= g
    ensures kmin == MinLen(b) && g == MaxLen(b) && !AllZero(b) && forall i :: 0 <= i < |b| ==> b[i] <= g
  {
    Extremes(b);
    var i := CountWitness(b, kmin);
    var j := CountWitness(b, g);
    forall i | 0 <= i < |b| && b[i] > 0 ensures kmin <= b[i] <= g {
      CountPositive(b, i);
    }
  }

  lemma AssembledIs(b: seq<nat>, cd: Code, kmin: nat, y: nat)
    requires Lengths(b) && 1 <= kmin <= cd.l <= cd.g <= BMAX && Count(b, kmin) > 0 && Count(b, cd.g) > 0
    requires forall i :: 0 <= i < |b| ==> b[i] <= cd.g
    requires y == Pow2(cd.g) - EndCode(CountsOf(b), cd.g) && cd.c == CountsOf(b)[cd.g := CountsOf(b)[cd.g] + y]
    requires |cd.v| == Base(CountsOf(b), cd.g) + Count(b, cd.g) && Slots(b, CountsOf(b), cd.g, cd.v, |b|)
    requires Listed(b, cd.s, cd.d, cd.e)
    ensures Assembled(b, cd)
  {
    SameBelow(cd.c, CountsOf(b), cd.g);
    assert Counts(cd.c, cd.g);
    LenAtIs(cd.c, cd.g, 0, kmin);
    ZeroPrefix(cd.g - kmin);
    SortedSymbols(b, cd.g, cd.v);
  }

  lemma {:induction false} ZeroPrefix(m: nat)
    ensures Shr(0, m) == 0
  {
    if m > 0 { ZeroPrefix(m - 1); }
  }

  /** Every place of the sorted list holds a symbol. */
  lemma SortedSymbols(b: seq<nat>, g: nat, v: seq<nat>)
    requires Lengths(b) && 1 <= g <= BMAX && |v| == Base(CountsOf(b), g) + Count(b, g)
      && Slots(b, CountsOf(b), g, v, |b|)
    ensures forall i :: 0 <= i < |v| ==> v[i] < |b|
  {
    forall i | 0 <= i < |v| ensures v[i] < |b| {
      SymbolAtPlace(b, CountsOf(b), g, v, i);
    }
  }

  lemma SymbolAtPlace(b: seq<nat>, c: seq<nat>, g: nat, v: seq<nat>, i: nat)
    requires c == CountsOf(b) && 1 <= g <= BMAX && |v| == Base(c, g) + c[g] && Slots(b, c, g, v, |b|) && i < |v|
    ensures v[i] < |b|
  {
    var k := PlaceOf(c, g, i);
    SlotHolds(b, c, g, v, k, i - Base(c, k));
  }

  lemma SlotHolds(b: seq<nat>, c: seq<nat>, g: nat, v: seq<nat>, k: nat, r: nat)
    requires c == CountsOf(b) && 1 <= k <= g <= BMAX && Slots(b, c, g, v, |b|) && r < c[k]
    ensures Slot(b, c, v, k, r)
  {
    assert b[..|b|] == b;
  }

  lemma {:induction false} PlaceOf(c: seq<nat>, g: nat, i: nat) returns (k: nat)
    requires 1 <= g < |c| && i < Base(c, g) + c[g]
    ensures 1 <= k <= g && Base(c, k) <= i < Base(c, k) + c[k]
  {
    if i >= Base(c, g) {
      k := g;
    } else {
      k := PlaceOf(c, g - 1, i);
    }
  }

  /** Lines 347-363 on the counts of `b`. */
  method Measure(b: seq<nat>, c: seq<nat>, m0: nat) returns (kmin: nat, g: nat, m: nat)
    requires Lengths(b) && c == CountsOf(b) && !AllZero(b)
    ensures kmin == MinLen(b) && g == MaxLen(b) && m == Clamp(m0, kmin, g) && 1 <= kmin <= g <= BMAX
    ensures Count(b, kmin) > 0 && Count(b, g) > 0
    ensures forall i :: 0 <= i < |b| ==> b[i] <= g
    ensures forall j :: 1 <= j < kmin ==> c[j] == 0
  {
    ghost var k0 := SomeLength(b);
    kmin, g, m := Bounds(c, m0);
    SpanIs(b, kmin, g);
  }

  /** Lines 365-376 on the counts of `b`. */
  method SpareCodes(b: seq<nat>, c: seq<nat>, kmin: nat, g: nat) returns (ok: bool, y: int)
    requires Lengths(b) && c == CountsOf(b) && 1 <= kmin <= g <= BMAX && forall j :: 1 <= j < kmin ==> c[j] == 0
    requires forall i :: 0 <= i < |b| ==> b[i] <= g
    ensures ok <==> Kraft(b) <= Pow2(BMAX)
    ensures ok ==> y == Pow2(g) - EndCode(c, g) >= 0 && (y == 0 <==> Kraft(b) == Pow2(BMAX))
  {
    ok, y := Spare(c, kmin, g);
    NoneLonger(b, g);
    OversubscribedEnd(b, g);
  }

  /** The codes use up all patterns, or are all equally long. */
  ghost predicate Regular(b: seq<nat>)
    requires Lengths(b)
  {
    Kraft(b) == Pow2(BMAX) || forall i :: 0 <= i < |b| && b[i] > 0 ==> b[i] == MaxLen(b)
  }

  /** lib/inflate.c, lines 279-515, with memory that does not run out. */
  method BuildTables(b: seq<nat>, s: nat, d: seq<nat>, e: seq<nat>, m0: nat)
    returns (ret: nat, pool: seq<seq<Huft>>, m: nat)
    requires Lengths(b) && Listed(b, s, d, e)
    requires forall i :: 0 <= i < |e| ==> e[i] <= 16 || e[i] == INVALID_CODE
    ensures ret == if AllZero(b) || Kraft(b) > Pow2(BMAX) then 2 else if Kraft(b) < Pow2(BMAX) && MaxLen(b) != 1 then 1
      else 0
    ensures m == if AllZero(b) then 0 else Clamp(m0, MinLen(b), MaxLen(b))
    ensures ret != 2 ==> |pool| > 0 && (ReadsAll(b, s, d, e, pool, m) <==> NoTableSkipped(b, m))
    ensures ret != 2 && NoTableSkipped(b, m) && Regular(b) ==> NeedsAll(b, pool, m)
  {
    var c := CountLengths(b);
    ZeroCount(b);
    if c[0] == |b| {
      return 2, [], 0;
    }
    var kmin, g;
    kmin, g, m := Measure(b, c, m0);
    var ok, y := SpareCodes(b, c, kmin, g);
    if !ok {
      return 2, [], m;
    }
    pool := FillTables(b, Code(c[g := c[g] + y], g, m, [], s, d, e), kmin, y);
    ret := if y != 0 && g != 1 then 1 else 0;
  }

  /** Lines 379-510: the sorted symbols, and the tables. */
  method FillTables(b: seq<nat>, cd0: Code, kmin: nat, ghost y: nat) returns (pool: seq<seq<Huft>>)
    requires Lengths(b) && 1 <= kmin <= cd0.l <= cd0.g <= BMAX && Count(b, kmin) > 0 && Count(b, cd0.g) > 0
    requires forall i :: 0 <= i < |b| ==> b[i] <= cd0.g
    requires cd0.g == MaxLen(b) && forall j :: 1 <= j < kmin ==> CountsOf(b)[j] == 0
    requires Listed(b, cd0.s, cd0.d, cd0.e) && forall i :: 0 <= i < |cd0.e| ==>
      cd0.e[i] <= 16 || cd0.e[i] == INVALID_CODE
    requires y == Pow2(cd0.g) - EndCode(CountsOf(b), cd0.g) && cd0.c == CountsOf(b)[cd0.g := CountsOf(b)[cd0.g] + y]
    requires y == 0 <==> Kraft(b) == Pow2(BMAX)
    ensures |pool| > 0 && (ReadsAll(b, cd0.s, cd0.d, cd0.e, pool, cd0.l) <==> NoTableSkipped(b, cd0.l))
    ensures NoTableSkipped(b, cd0.l) && Regular(b) ==> NeedsAll(b, pool, cd0.l)
  {
    var cd := Assemble(b, cd0, kmin, y);
    ghost var infos;
    pool, infos := MakePool(cd, kmin);
    ReadsAllIff(b, cd, pool);
    NoSkipSame(b, cd);
    if NoTableSkipped(b, cd0.l) && Regular(b) {
      NeedsAllIs(b, cd, pool, infos);
    }
  }

  /** Lines 379-397: the sorted symbols complete the code. */
  method Assemble(b: seq<nat>, cd0: Code, ghost kmin: nat, ghost y: nat) returns (cd: Code)
    requires Lengths(b) && 1 <= kmin <= cd0.l <= cd0.g <= BMAX && Count(b, kmin) > 0 && Count(b, cd0.g) > 0
    requires forall i :: 0 <= i < |b| ==> b[i] <= cd0.g
    requires Listed(b, cd0.s, cd0.d, cd0.e)
    requires y == Pow2(cd0.g) - EndCode(CountsOf(b), cd0.g) && cd0.c == CountsOf(b)[cd0.g := CountsOf(b)[cd0.g] + y]
    ensures Assembled(b, cd) && cd == cd0.(v := cd.v)
  {
    var x := Offsets(cd0.c, cd0.g);
    forall k | 1 <= k <= cd0.g ensures Base(cd0.c, k) == Base(CountsOf(b), k) {
      SameBelow(cd0.c, CountsOf(b), k);
    }
    var v := SortSymbols(b, x, cd0.g);
    cd := cd0.(v := v);
    AssembledIs(b, cd, kmin, y);
  }

  method MakePool(cd: Code, kmin: nat) returns (pool: seq<seq<Huft>>, ghost infos: seq<Info>)
    requires ValidCode(cd) && ProperOps(cd) && 1 <= kmin <= cd.g && forall j :: 1 <= j < kmin ==> cd.c[j] == 0
    ensures |pool| > 0 && (DecodesAll(cd, pool, cd.l) <==> NoSkip(cd))
    ensures Tables(cd, pool, infos) && GoodBelow(cd, pool, infos, Pow2(cd.g)) && Snug(cd, infos)
  {
    var bld := new Builder(cd);
    bld.Run(kmin);
    pool, infos := bld.pool, bld.infos;
    DecodesIffNoSkip(cd, pool, infos);
  }

  // ---------------------------------------------------------------- when no table is skipped

  lemma {:induction false} CodesLeft(c: seq<nat>, g: nat, k: nat)
    requires 1 <= k <= g < |c| && EndCode(c, g) == Pow2(g)
    ensures k < g ==> 2 * Left(c, k) <= Base(c, g) + c[g] - Base(c, k + 1)
    ensures Left(c, k) >= 0 && (k == g ==> Left(c, k) == 0)
    decreases g - k
  {
    if k < g {
      CodesLeft(c, g, k + 1);
      assert Pow2(k + 1) == 2 * Pow2(k);
      assert 2 * Left(c, k) == Left(c, k + 1) + c[k + 1];
      if k + 1 == g {
        assert Base(c, g) + c[g] - Base(c, k + 1) == c[g];
      }
    }
  }

  /**
    A complete set of codes with fewer than `2^(l + 1)` symbols never skips a table, and neither
    does any set once two tables span all lengths. All calls in lib/inflate.c that go on to decode
    are of one of these kinds.
   */
  lemma CompleteNoSkip(b: seq<nat>, l: nat)
    requires Lengths(b) && !AllZero(b)
    requires (Kraft(b) == Pow2(BMAX) && |b| < 2 * Pow2(l)) || 2 * l >= MaxLen(b)
    ensures NoTableSkipped(b, l)
  {
    forall q: nat | q >= 2 && 1 <= Times(q, l) < MaxLen(b) && Times(q, l) <= BMAX
      ensures Left(CountsOf(b), Times(q, l)) < Pow2(l) {
      TimesMono(2, q, l);
      assert Times(2, l) == Times(1, l) + l;
      assert Times(1, l) == Times(0, l) + l;
      FewLeft(b, Times(q, l));
    }
  }

  /** A complete set of codes has at least two codes for every pattern of `k` bits that is left. */
  lemma FewLeft(b: seq<nat>, k: nat)
    requires Lengths(b) && Kraft(b) == Pow2(BMAX) && 1 <= k < MaxLen(b) && k <= BMAX
    ensures 2 * Left(CountsOf(b), k) <= |b|
  {
    Extremes(b);
    NoneLonger(b, MaxLen(b));
    FewLeftTo(b, MaxLen(b), k);
  }

  lemma FewLeftTo(b: seq<nat>, g: nat, k: nat)
    requires Lengths(b) && Kraft(b) == Pow2(BMAX) && 1 <= k < g <= BMAX
    requires forall j :: g < j <= BMAX ==> Count(b, j) == 0
    ensures 2 * Left(CountsOf(b), k) <= |b|
  {
    var c := CountsOf(b);
    OversubscribedEnd(b, g);
    CodesLeft(c, g, k);
    BaseBound(b, g + 1);
    assert Base(c, g + 1) == Base(c, g) + c[g];
  }

  lemma NoneLonger(b: seq<nat>, g: nat)
    requires Lengths(b) && forall i :: 0 <= i < |b| ==> b[i] <= g
    ensures forall j :: g < j <= BMAX ==> Count(b, j) == 0
  {
    forall j | g < j <= BMAX ensures Count(b, j) == 0 {
      if Count(b, j) > 0 {
        var i := CountWitness(b, j);
        assert false;
      }
    }
  }

  /** A set of lengths for which a table is skipped: codes of 1 and 13 bits with tables of 6 bits. */
  lemma SkippedTable()
    ensures Lengths([1, 13]) && !AllZero([1, 13]) && Kraft([1, 13]) < Pow2(BMAX) && MaxLen([1, 13]) == 13
      && MinLen([1, 13]) == 1
    ensures Clamp(6, 1, 13) == 6 && !NoTableSkipped([1, 13], 6)
  {
    var b := [1, 13];
    assert b[..1] == [1] && [1][..0] == [];
    OneOf([1, 13]);
    var c := CountsOf(b);
    assert Times(2, 6) == 12;
    NextCodeAfterOne(c, 12);
    Pow2Values();
  }

  lemma OneOf(b: seq<nat>)
    requires b == [1, 13]
    ensures Count(b, 1) == 1 && forall k :: 2 <= k <= 12 ==> Count(b, k) == 0
    ensures Lengths(b) && Kraft(b) == Pow2(15) + Pow2(3) && MaxLen(b) == 13 && MinLen(b) == 1
  {
    assert b[..1] == [1] && [1][..0] == [];
    assert b[..|b| - 1] == [1];
    assert Kraft([1]) == Pow2(15);
    assert MaxLen([1]) == 1 && MinLen([1]) == 1;
    forall k ensures Count([1], k) == if k == 1 then 1 else 0 {
      assert Count([], k) == 0;
    }
  }

  lemma {:induction false} NextCodeAfterOne(c: seq<nat>, k: nat)
    requires 2 <= k < |c| && c[1] == 1 && forall j :: 2 <= j <= k ==> c[j] == 0
    ensures EndCode(c, k) == Pow2(k - 1)
    decreases k
  {
    if k == 2 {
      assert NextCode(c, 1) == 0;
    } else {
      NextCodeAfterOne(c, k - 1);
    }
  }

  lemma Pow2Values()
    ensures Pow2(3) == 8 && Pow2(6) == 64 && Pow2(11) == 2048 && Pow2(12) == 4096 && Pow2(15) == 32768
      && Pow2(16) == 65536
  {
    Pow2Add(3, 3);
    Pow2Add(6, 5);
    Pow2Add(6, 6);
    Pow2Add(12, 3);
  }
}
