/** When the tables built by `huft_build` decode every code, and when they cannot. */
module HuftCorrect {
  import opened Bits
  import opened HuffmanCode
  import opened HuftTables
  import opened HuftStack

  /** `n` times `l` */
  function Times(n: nat, l: nat): nat {
    if n == 0 then 0 else Times(n - 1, l) + l
  }

  /** The number of patterns of `k` bits that no code of at most `k` bits begins. */
  function Left(c: seq<nat>, k: nat): int
    requires 1 <= k < |c|
  {
    Pow2(k) - EndCode(c, k)
  }

  /**
    No table is skipped: beyond the first table, the codes that reach past a table of `l` bits
    do not fill a whole table of `l` bits.
   */
  ghost predicate NoSkip(cd: Code)
    requires ValidCode(cd)
  {
    forall q: nat :: q >= 2 && Times(q, cd.l) < cd.g ==> Left(cd.c, Times(q, cd.l)) < Pow2(cd.l)
  }

  /**
    If the first code with some prefix of `w` bits is longer than `w + l` bits, many patterns of `w + l` bits
    are left.
   */
  lemma SkipBound(cd: Code, x: nat, w: nat)
    requires ValidCode(cd) && x < Pow2(cd.g) && w + cd.l < LenAt(cd.c, cd.g, x) && Low(x, cd.g - w) == 0
    ensures Left(cd.c, w + cd.l) >= Pow2(cd.l)
  {
    LenAtIs(cd.c, cd.g, x, w + cd.l);
    PrefixBelow(x, cd.g, w, w + cd.l);
    PrefixBound(x, cd.g, w);
    Pow2Add(w, cd.l);
    RoomLeft(Prefix(x, cd.g, w), Pow2(w), Pow2(cd.l));
  }

  lemma RoomLeft(p: nat, q: nat, m: nat)
    requires p < q
    ensures q * m - p * m >= m
  {
    Distribute(p, q - p, m);
    assert (q - p) * m == m + (q - p - 1) * m by { Distribute(1, q - p - 1, m); }
  }

  /** Without skips, a table on the path of a code looks up at most `l` bits. */
  lemma ProperSize(cd: Code, it: Info, tab: seq<Huft>, q: nat)
    requires ValidCode(cd) && NoSkip(cd) && it.w + it.bits <= cd.g && TableOk(cd, it, tab) && it.w == Times(q, cd.l)
    ensures it.bits <= cd.l
  {
    assert Times(q + 1, cd.l) == it.w + cd.l;
    if it.bits > cd.l {
      if q == 0 {
        ShrUnique(0, cd.g, 0, 0);
        ShrUnique(it.first, cd.g, 0, it.first);
      } else {
        SkipBound(cd, it.first, it.w);
      }
    }
  }

  lemma WalkLeaf(cd: Code, pool: seq<seq<Huft>>, infos: seq<Info>, t: nat, x: nat, s: nat)
    requires ValidCode(cd) && ProperOps(cd) && Shaped(cd, pool, infos) && t < |pool|
    requires Good(cd, pool, infos, t, x) && Low(s, cd.g) == Rev(x, cd.g, cd.g)
    requires LenAt(cd.c, cd.g, x) <= infos[t].w + infos[t].bits
    ensures Decodes(cd, Walk(pool, t, infos[t].bits, s, infos[t].w), x)
  {
    InputBits(s, x, cd.g, infos[t].w, infos[t].bits);
  }

  /** The table that the entry of table `t` for `x` leads to. */
  ghost function Target(cd: Code, pool: seq<seq<Huft>>, infos: seq<Info>, t: nat, x: nat): (t': nat)
    requires ValidCode(cd) && Shaped(cd, pool, infos) && t < |pool|
    requires Good(cd, pool, infos, t, x) && LenAt(cd.c, cd.g, x) > infos[t].w + infos[t].bits
    ensures t < t' < |pool| && infos[t].bits == cd.l && infos[t'].w == infos[t].w + cd.l <= cd.g
    ensures infos[t'].p == Prefix(x, cd.g, infos[t'].w)
  {
    pool[t][Mid(x, cd.g, infos[t].w, infos[t].w + infos[t].bits)].v
  }

  lemma WalkLink(cd: Code, pool: seq<seq<Huft>>, infos: seq<Info>, t: nat, x: nat, y: nat, s: nat)
    requires ValidCode(cd) && Shaped(cd, pool, infos) && t < |pool|
    requires Good(cd, pool, infos, t, x) && LenAt(cd.c, cd.g, x) > infos[t].w + infos[t].bits
    requires Low(s, cd.g) == Rev(y, cd.g, cd.g) && Mid(y, cd.g, infos[t].w, infos[t].w + infos[t].bits)
      == Mid(x, cd.g, infos[t].w, infos[t].w + infos[t].bits)
    ensures var t' := Target(cd, pool, infos, t, x);
      Walk(pool, t, infos[t].bits, s, infos[t].w) == Walk(pool, t', infos[t'].bits, s, infos[t'].w)
  {
    InputBits(s, y, cd.g, infos[t].w, infos[t].bits);
    FollowLink(pool, t, infos[t].bits, s, infos[t].w, Mid(x, cd.g, infos[t].w, infos[t].w + infos[t].bits));
  }

  lemma FollowLink(pool: seq<seq<Huft>>, t: nat, bits: nat, s: nat, used: nat, idx: nat)
    requires t < |pool| && idx == Low(Shr(s, used), bits) < |pool[t]|
    ensures var en := pool[t][idx];
      16 < en.e <= 32 && en.e != INVALID_CODE && en.b <= bits && t < en.v < |pool| ==>
        Walk(pool, t, bits, s, used) == Walk(pool, en.v, en.e - 16, s, used + en.b)
  {
  }

  /** Good tables without skips decode. */
  lemma {:induction false} WalkDecodes(cd: Code, pool: seq<seq<Huft>>, infos: seq<Info>, t: nat, q: nat, x: nat, s: nat)
    requires ValidCode(cd) && ProperOps(cd) && NoSkip(cd) && Tables(cd, pool, infos) && t < |pool|
    requires GoodBelow(cd, pool, infos, Pow2(cd.g)) && infos[t].w == Times(q, cd.l)
    requires Member(cd, infos[t], x) && Low(s, cd.g) == Rev(x, cd.g, cd.g)
    ensures Decodes(cd, Walk(pool, t, infos[t].bits, s, infos[t].w), x)
    decreases |pool| - t
  {
    assert TableOk(cd, infos[t], pool[t]);
    ProperSize(cd, infos[t], pool[t], q);
    assert Good(cd, pool, infos, t, x);
    if LenAt(cd.c, cd.g, x) <= infos[t].w + infos[t].bits {
      WalkLeaf(cd, pool, infos, t, x, s);
    } else {
      WalkLink(cd, pool, infos, t, x, x, s);
      WalkDecodes(cd, pool, infos, Target(cd, pool, infos, t, x), q + 1, x, s);
    }
  }

  // ---------------------------------------------------------------- a skipped table

  /** The pattern with the first `w` bits of `x`, then `l` zeros, then a one. */
  ghost function Beyond(cd: Code, x: nat, w: nat): nat
    requires ValidCode(cd) && w + cd.l < cd.g && Low(x, cd.g - w) == 0
  {
    x + Pow2(cd.g - w - cd.l - 1)
  }

  lemma BeyondBits(cd: Code, x: nat, w: nat)
    requires ValidCode(cd) && w + cd.l < cd.g && Low(x, cd.g - w) == 0 && x < Pow2(cd.g)
    ensures var y := Beyond(cd, x, w); x <= y < Pow2(cd.g) && Prefix(y, cd.g, w) == Prefix(x, cd.g, w)
    ensures forall v :: w + cd.l < v <= cd.g ==> Mid(Beyond(cd, x, w), cd.g, w, v) == Pow2(cd.l)
  {
    var g, y, k := cd.g, Beyond(cd, x, w), w + cd.l + 1;
    OneInside(x, g, w, k);
    MidsBeyond(y, g, w, k);
  }

  lemma MidsBeyond(y: nat, g: nat, w: nat, k: nat)
    requires w <= k <= g && Low(y, g - k) == 0
    ensures forall v :: k <= v <= g ==> Mid(y, g, w, v) == Mid(y, g, w, k)
  {
    forall v | k <= v <= g ensures Mid(y, g, w, v) == Mid(y, g, w, k) {
      MidBeyond(y, g, w, k, v);
    }
  }

  lemma MidBeyond(y: nat, g: nat, w: nat, k: nat, v: nat)
    requires w <= k <= v <= g && Low(y, g - k) == 0
    ensures Mid(y, g, w, v) == Mid(y, g, w, k)
  {
    MidJoin(y, g, w, k, v);
    MidAligned(y, g, k, v);
    assert 0 * Pow2(k - w) == 0;
  }

  lemma AlignedRoom(x: nat, g: nat, w: nat)
    requires w <= g && Low(x, g - w) == 0 && x < Pow2(g)
    ensures x + Pow2(g - w) <= Pow2(g)
  {
    ShrLow(x, g - w);
    PrefixBound(x, g, w);
    Pow2Add(w, g - w);
    RoomLeft(Shr(x, g - w), Pow2(w), Pow2(g - w));
  }

  /** A one at bit `k - 1` of a pattern that is zero from bit `w` on. */
  lemma OneInside(x: nat, g: nat, w: nat, k: nat)
    requires w < k <= g && Low(x, g - w) == 0 && x < Pow2(g)
    ensures var y := x + Pow2(g - k);
      && y < Pow2(g) && Prefix(y, g, w) == Prefix(x, g, w) && Mid(y, g, w, k) == Pow2(k - 1 - w) && Low(y, g - k) == 0
  {
    var y := x + Pow2(g - k);
    AlignedRoom(x, g, w);
    Pow2Mono(g - k, g - (w + 1));
    assert Pow2(g - w) == 2 * Pow2(g - (w + 1));
    LowZeroShorter(x, g - k, g - w);
    NextPrefix(x, g, k);
    LowZero(x, g - w, g - k);
    PrefixStep(x, g, k);
    PrefixStep(y, g, k);
    PrefixShorter(y, x, g, w, k - 1);
    MidAligned(x, g, w, k - 1);
  }

  /** The walk from table `t` goes wrong on every input that begins with `x`. */
  ghost predicate FailsAt(cd: Code, pool: seq<seq<Huft>>, infos: seq<Info>, t: nat, x: nat)
    requires ValidCode(cd) && Shaped(cd, pool, infos) && t < |pool|
  {
    && Member(cd, infos[t], x)
    && forall s: nat :: Low(s, cd.g) == Rev(x, cd.g, cd.g) ==>
      !Decodes(cd, Walk(pool, t, infos[t].bits, s, infos[t].w), x)
  }

  /** A table that is larger than it should be is not filled in for some of its codes. */
  lemma OversizedFails(cd: Code, pool: seq<seq<Huft>>, infos: seq<Info>, t: nat) returns (x: nat)
    requires ValidCode(cd) && Tables(cd, pool, infos) && t < |pool| && infos[t].bits > cd.l
    ensures FailsAt(cd, pool, infos, t, x)
  {
    var it := infos[t];
    assert TableOk(cd, it, pool[t]);
    x := Beyond(cd, it.first, it.w);
    BeyondBits(cd, it.first, it.w);
    Pow2Mono(cd.l, it.bits - 1);
    LenMono(cd.c, cd.g, it.first, x);
    forall s: nat | Low(s, cd.g) == Rev(x, cd.g, cd.g)
      ensures !Decodes(cd, Walk(pool, t, it.bits, s, it.w), x)
    {
      InputBits(s, x, cd.g, it.w, it.bits);
    }
  }

  lemma {:induction false} TimesMono(q: nat, r: nat, l: nat)
    requires q <= r
    ensures Times(q, l) <= Times(r, l) && (q < r ==> Times(q, l) + l <= Times(r, l))
    decreases r
  {
    if q < r { TimesMono(q, r - 1, l); }
  }

  /** The walk along a pattern whose code skips a table ends in an oversized table. */
  lemma {:induction false} SkipFails(cd: Code, pool: seq<seq<Huft>>, infos: seq<Info>, t: nat, q: nat, r: nat, x: nat)
    returns (y: nat)
    requires ValidCode(cd) && Tables(cd, pool, infos) && t < |pool| && GoodBelow(cd, pool, infos, Pow2(cd.g))
    requires Member(cd, infos[t], x) && infos[t].w == Times(q, cd.l) && q <= r
    requires Times(r, cd.l) + cd.l < LenAt(cd.c, cd.g, x) && Low(x, cd.g - Times(r, cd.l)) == 0
    ensures FailsAt(cd, pool, infos, t, y)
    decreases |pool| - t
  {
    y := x;
    if q == r { SkippedHere(cd, pool, infos, t, x); }
    if infos[t].bits > cd.l {
      y := OversizedFails(cd, pool, infos, t);
    } else {
      var t' := NextTable(cd, pool, infos, t, q, r, x);
      y := SkipFails(cd, pool, infos, t', q + 1, r, x);
      FailsAbove(cd, pool, infos, t, x, y);
    }
  }

  /** The table that the code leaves at its end, with zeros from there on, is oversized. */
  lemma SkippedHere(cd: Code, pool: seq<seq<Huft>>, infos: seq<Info>, t: nat, x: nat)
    requires ValidCode(cd) && Tables(cd, pool, infos) && t < |pool| && Member(cd, infos[t], x)
    requires infos[t].w + cd.l < LenAt(cd.c, cd.g, x) && Low(x, cd.g - infos[t].w) == 0
    ensures infos[t].bits > cd.l
  {
    var it := infos[t];
    assert TableOk(cd, it, pool[t]);
    LeastWithPrefix(x, it.first, cd.g, it.w);
    LeastWithPrefix(it.first, x, cd.g, it.w);
  }

  /** Before that, the walk goes on to the next table. */
  lemma NextTable(cd: Code, pool: seq<seq<Huft>>, infos: seq<Info>, t: nat, q: nat, r: nat, x: nat) returns (t': nat)
    requires ValidCode(cd) && Tables(cd, pool, infos) && t < |pool| && GoodBelow(cd, pool, infos, Pow2(cd.g))
    requires Member(cd, infos[t], x) && infos[t].w == Times(q, cd.l) && q < r && infos[t].bits <= cd.l
    requires Times(r, cd.l) + cd.l < LenAt(cd.c, cd.g, x)
    ensures Good(cd, pool, infos, t, x) && LenAt(cd.c, cd.g, x) > infos[t].w + infos[t].bits
      && t' == Target(cd, pool, infos, t, x)
    ensures t < t' < |pool| && Member(cd, infos[t'], x) && infos[t'].w == Times(q + 1, cd.l)
  {
    TimesMono(q, r, cd.l);
    assert TableOk(cd, infos[t], pool[t]);
    assert Good(cd, pool, infos, t, x);
    t' := Target(cd, pool, infos, t, x);
  }

  lemma FailsAbove(cd: Code, pool: seq<seq<Huft>>, infos: seq<Info>, t: nat, x: nat, y: nat)
    requires ValidCode(cd) && Shaped(cd, pool, infos) && t < |pool| && Member(cd, infos[t], x)
    requires Good(cd, pool, infos, t, x) && LenAt(cd.c, cd.g, x) > infos[t].w + infos[t].bits
    requires FailsAt(cd, pool, infos, Target(cd, pool, infos, t, x), y)
    ensures FailsAt(cd, pool, infos, t, y)
  {
    var it := infos[t];
    PrefixShorter(y, x, cd.g, it.w, it.w + cd.l);
    forall s: nat | Low(s, cd.g) == Rev(y, cd.g, cd.g)
      ensures !Decodes(cd, Walk(pool, t, it.bits, s, it.w), y)
    {
      WalkLink(cd, pool, infos, t, x, y, s);
    }
  }

  /** The pattern of `w` ones followed by zeros. */
  lemma Ones(g: nat, w: nat) returns (x: nat)
    requires w <= g
    ensures x < Pow2(g) && Low(x, g - w) == 0 && Prefix(x, g, w) == Pow2(w) - 1
  {
    Pow2Add(w, g - w);
    x := Pow2(g) - Pow2(g - w);
    Distribute(Pow2(w) - 1, 1, Pow2(g - w));
    ShrUnique(x, g - w, Pow2(w) - 1, 0);
  }

  lemma SkippedCode(cd: Code, w: nat) returns (x: nat)
    requires ValidCode(cd) && w + cd.l < cd.g && Left(cd.c, w + cd.l) >= Pow2(cd.l)
    ensures x < Pow2(cd.g) && Low(x, cd.g - w) == 0 && w + cd.l < LenAt(cd.c, cd.g, x)
  {
    x := Ones(cd.g, w);
    PrefixBelow(x, cd.g, w, w + cd.l);
    Pow2Add(w, cd.l);
    Distribute(Pow2(w) - 1, 1, Pow2(cd.l));
    LenAtIs(cd.c, cd.g, x, w + cd.l);
  }

  /** Every input that begins with a code word is decoded to what the code word means. */
  ghost predicate DecodesAll(cd: Code, pool: seq<seq<Huft>>, bits: nat)
    requires ValidCode(cd) && |pool| > 0
  {
    forall x: nat, s: nat {:trigger Rev(x, cd.g, cd.g), Walk(pool, 0, bits, s, 0)} ::
      x < Pow2(cd.g) && Low(s, cd.g) == Rev(x, cd.g, cd.g) ==> Decodes(cd, Walk(pool, 0, bits, s, 0), x)
  }

  lemma NoSkipDecodes(cd: Code, pool: seq<seq<Huft>>, infos: seq<Info>)
    requires ValidCode(cd) && ProperOps(cd) && Tables(cd, pool, infos) && GoodBelow(cd, pool, infos, Pow2(cd.g))
      && |pool| > 0
    requires NoSkip(cd)
    ensures DecodesAll(cd, pool, cd.l)
  {
    RootBits(cd, pool, infos);
    forall x: nat, s: nat | x < Pow2(cd.g) && Low(s, cd.g) == Rev(x, cd.g, cd.g)
      ensures Decodes(cd, Walk(pool, 0, cd.l, s, 0), x)
    {
      PrefixZero(x, cd.g);
      WalkDecodes(cd, pool, infos, 0, 0, x, s);
    }
  }

  lemma SkipBreaks(cd: Code, pool: seq<seq<Huft>>, infos: seq<Info>)
    requires ValidCode(cd) && Tables(cd, pool, infos) && GoodBelow(cd, pool, infos, Pow2(cd.g)) && |pool| > 0
    requires !NoSkip(cd)
    ensures !DecodesAll(cd, pool, cd.l)
  {
    RootBits(cd, pool, infos);
    var q: nat :| q >= 2 && Times(q, cd.l) < cd.g && Left(cd.c, Times(q, cd.l)) >= Pow2(cd.l);
    var x := SkippedCode(cd, Times(q - 1, cd.l));
    PrefixZero(x, cd.g);
    var y := SkipFails(cd, pool, infos, 0, 0, q - 1, x);
    FailsRefutes(cd, pool, infos, y);
  }

  lemma FailsRefutes(cd: Code, pool: seq<seq<Huft>>, infos: seq<Info>, y: nat)
    requires ValidCode(cd) && Shaped(cd, pool, infos) && |pool| > 0 && FailsAt(cd, pool, infos, 0, y)
    requires infos[0].bits == cd.l && infos[0].w == 0
    ensures !DecodesAll(cd, pool, cd.l)
  {
    LowRev(y, cd.g);
    var s := Rev(y, cd.g, cd.g);
    assert !Decodes(cd, Walk(pool, 0, cd.l, s, 0), y);
  }

  /** The finished tables decode all codes exactly if no table was skipped. */
  lemma DecodesIffNoSkip(cd: Code, pool: seq<seq<Huft>>, infos: seq<Info>)
    requires ValidCode(cd) && ProperOps(cd) && Tables(cd, pool, infos) && GoodBelow(cd, pool, infos, Pow2(cd.g))
      && |pool| > 0
    ensures DecodesAll(cd, pool, cd.l) <==> NoSkip(cd)
  {
    if NoSkip(cd) {
      NoSkipDecodes(cd, pool, infos);
    } else {
      SkipBreaks(cd, pool, infos);
    }
  }

  lemma LowRev(y: nat, g: nat)
    ensures Low(Rev(y, g, g), g) == Rev(y, g, g)
  {
    MidBound(y, g, 0, g);
    ShrUnique(Rev(y, g, g), g, 0, Rev(y, g, g));
  }

  /** The first table looks up exactly `l` bits. */
  lemma RootBits(cd: Code, pool: seq<seq<Huft>>, infos: seq<Info>)
    requires ValidCode(cd) && Tables(cd, pool, infos) && |pool| > 0
    ensures infos[0].bits == cd.l && infos[0].w == 0 && infos[0].p == 0
  {
    var it := infos[0];
    assert TableOk(cd, it, pool[0]);
    ShrUnique(it.first, cd.g, 0, it.first);
    if it.bits < cd.l {
      var x := Pow2(cd.g) - 1;
      PrefixZero(x, cd.g);
      assert Member(cd, it, x);
      LastCode(cd, x);
    }
  }

  lemma LastCode(cd: Code, x: nat)
    requires ValidCode(cd) && x == Pow2(cd.g) - 1
    ensures LenAt(cd.c, cd.g, x) == cd.g
  {
    CodeWordLen(cd.c, cd.g, x, cd.g);
  }
}
