/** The stack of open tables of `huft_build`: the tables on the path of the current code. */
module HuftStack {
  import opened Bits
  import opened HuffmanCode
  import opened HuftTables
  import opened HuftSteps

  /** Every code below this table is short enough for it. */
  ghost predicate Closes(cd: Code, it: Info)
    requires ValidCode(cd) && it.w <= cd.g
  {
    forall x: nat :: Member(cd, it, x) ==> LenAt(cd.c, cd.g, x) <= it.w + it.bits
  }

  ghost predicate TableOk(cd: Code, it: Info, tab: seq<Huft>)
    requires ValidCode(cd) && it.w + it.bits <= cd.g
  {
    && 0 < it.bits && it.level <= it.w
    && it.first < Pow2(cd.g) && Low(it.first, cd.g - it.w) == 0 && it.p == Prefix(it.first, cd.g, it.w)
    && it.w < LenAt(cd.c, cd.g, it.first) <= it.w + it.bits
    && (it.bits >= cd.l || Closes(cd, it))
    && (it.bits > cd.l ==> && it.w + it.bits == LenAt(cd.c, cd.g, it.first)
                           && forall i :: Pow2(cd.l) <= i < |tab| ==> tab[i] == BLANK)
  }

  ghost predicate Tables(cd: Code, pool: seq<seq<Huft>>, infos: seq<Info>)
    requires ValidCode(cd)
  {
    && Shaped(cd, pool, infos)
    && (forall t {:trigger TableOk(cd, infos[t], pool[t])} :: 0 <= t < |pool| ==> TableOk(cd, infos[t], pool[t]))
    && (|pool| > 0 ==> infos[0].w == 0 && infos[0].p == 0)
  }

  /** The open table at level `q` and the link out of it follow the code at `pos`. */
  ghost predicate Open(cd: Code, pool: seq<seq<Huft>>, infos: seq<Info>, u: seq<nat>, xs: seq<nat>, h: nat, pos: nat,
                       q: nat)
    requires ValidCode(cd) && Shaped(cd, pool, infos) && q <= h < |u| && h < |xs| && u[q] < |pool| && u[h] < |pool|
  {
    && var it := infos[u[q]];
       && it.level == q && it.p == Prefix(pos, cd.g, it.w) && xs[q] == Rev(pos, cd.g, it.w)
       && (q == 0 ==> it.w == 0)
       && (q < h ==>
            && u[q] < u[q + 1] < |pool| && infos[u[h]].w >= infos[u[q + 1]].w == it.w + cd.l && it.bits >= cd.l
            && Mid(pos, cd.g, it.w, it.w + cd.l) < |pool[u[q]]|
            && pool[u[q]][Mid(pos, cd.g, it.w, it.w + cd.l)] == Huft(16 + infos[u[q + 1]].bits, cd.l, u[q + 1]))
  }

  /** The open tables are those on the path to `pos`; every other table is finished. */
  ghost predicate Stack(cd: Code, pool: seq<seq<Huft>>, infos: seq<Info>, u: seq<nat>, xs: seq<nat>, h: nat, pos: nat)
    requires ValidCode(cd) && Shaped(cd, pool, infos) && h < |u| && h < |xs|
  {
    && (forall q :: 0 <= q <= h ==> u[q] < |pool|)
    && (forall q :: 0 <= q <= h ==> Open(cd, pool, infos, u, xs, h, pos, q))
    && (forall t {:trigger Finished(cd, infos, pos, t)} :: 0 <= t < |pool| ==>
      Finished(cd, infos, pos, t) || (infos[t].level <= h && u[infos[t].level] == t))
  }

  ghost predicate Finished(cd: Code, infos: seq<Info>, pos: nat, t: nat)
    requires t < |infos| && infos[t].w <= cd.g
  {
    infos[t].p < Prefix(pos, cd.g, infos[t].w)
  }

  /** An open table above the current one is good for the code at `pos`: it links to the next one. */
  lemma OpenGood(cd: Code, pool: seq<seq<Huft>>, infos: seq<Info>, u: seq<nat>, xs: seq<nat>, h: nat, pos: nat, q: nat,
                 x: nat)
    requires ValidCode(cd) && Tables(cd, pool, infos) && q < h < |u| && h < |xs| && pos < Pow2(cd.g) && x < Pow2(cd.g)
    requires Stack(cd, pool, infos, u, xs, h, pos)
    requires infos[u[h]].w < LenAt(cd.c, cd.g, pos)
    requires infos[u[q]].bits <= cd.l && Prefix(x, cd.g, LenAt(cd.c, cd.g, pos))
      == Prefix(pos, cd.g, LenAt(cd.c, cd.g, pos))
    ensures Good(cd, pool, infos, u[q], x)
  {
    var k := LenAt(cd.c, cd.g, pos);
    assert Open(cd, pool, infos, u, xs, h, pos, q) && Open(cd, pool, infos, u, xs, h, pos, q + 1);
    var it := infos[u[q]];
    SameCode(cd.c, cd.g, pos, x);
    PrefixShorter(x, pos, cd.g, it.w + cd.l, k);
    PrefixShorter(x, pos, cd.g, it.w, it.w + cd.l);
    assert TableOk(cd, infos[u[q + 1]], pool[u[q + 1]]);
    GoodByLink(cd, pool, infos, u[q], x, u[q + 1]);
  }

  /** The code at `pos`, which is the entry `r`, is filled in in the current table. */
  ghost predicate FilledIn(cd: Code, pool: seq<seq<Huft>>, infos: seq<Info>, pool': seq<seq<Huft>>, q: nat, k: nat,
                           pos: nat, r: Huft)
    requires ValidCode(cd) && Shaped(cd, pool, infos) && q < |pool|
  {
    var it := infos[q];
    && k == LenAt(cd.c, cd.g, pos) && Low(pos, cd.g - k) == 0
    && it.w < k <= it.w + it.bits && r.b == k - it.w && Carries(cd, Ord(cd.c, cd.g, pos), r)
    && |pool'| == |pool| && Filled(pool[q], pool'[q], Mid(pos, cd.g, it.w, k), k - it.w, r)
    && forall i :: 0 <= i < |pool| && i != q ==> pool'[i] == pool[i]
  }

  lemma FillShaped(cd: Code, pool: seq<seq<Huft>>, infos: seq<Info>, pool': seq<seq<Huft>>, q: nat, k: nat, pos: nat,
                   r: Huft)
    requires ValidCode(cd) && Shaped(cd, pool, infos) && q < |pool| && FilledIn(cd, pool, infos, pool', q, k, pos, r)
    ensures Shaped(cd, pool', infos)
  {
  }

  lemma GoodSame(cd: Code, pool: seq<seq<Huft>>, infos: seq<Info>, pool': seq<seq<Huft>>, t: nat, x: nat)
    requires ValidCode(cd) && Shaped(cd, pool, infos) && Shaped(cd, pool', infos) && t < |pool| && pool'[t] == pool[t]
    requires Good(cd, pool, infos, t, x)
    ensures Good(cd, pool', infos, t, x)
  {
  }

  /** A table other than the current one that holds the code at `pos` is an open one. */
  lemma IsOpen(cd: Code, pool: seq<seq<Huft>>, infos: seq<Info>, u: seq<nat>, xs: seq<nat>, h: nat, pos: nat, t: nat,
               x: nat)
    requires ValidCode(cd) && Shaped(cd, pool, infos) && h < |u| && h < |xs| && Stack(cd, pool, infos, u, xs, h, pos)
    requires t < |pool| && pos <= x && Member(cd, infos[t], x) && t != u[h]
    ensures infos[t].level < h && u[infos[t].level] == t
  {
    ShrMono(pos, x, cd.g - infos[t].w);
    assert !Finished(cd, infos, pos, t);
  }

  lemma FillGoodAt(cd: Code, pool: seq<seq<Huft>>, infos: seq<Info>, pool': seq<seq<Huft>>, u: seq<nat>, xs: seq<nat>,
                   h: nat,
                   k: nat, pos: nat, r: Huft, t: nat, x: nat)
    requires ValidCode(cd) && Tables(cd, pool, infos) && h < |u| && h < |xs| && pos < Pow2(cd.g)
    requires Stack(cd, pool, infos, u, xs, h, pos) && FilledIn(cd, pool, infos, pool', u[h], k, pos, r)
    requires Shaped(cd, pool', infos) && t < |pool'| && infos[t].bits <= cd.l && Member(cd, infos[t], x)
      && x < pos + Pow2(cd.g - k)
    requires x < pos ==> Good(cd, pool, infos, t, x)
    ensures Good(cd, pool', infos, t, x)
  {
    if x >= pos {
      InCode(pos, x, cd.g, k);
    }
    if t == u[h] {
      assert Open(cd, pool, infos, u, xs, h, pos, h);
      FillGoodHere(cd, pool, infos, pool', u[h], k, pos, r, t, x);
    } else {
      if x >= pos {
        IsOpen(cd, pool, infos, u, xs, h, pos, t, x);
        OpenGood(cd, pool, infos, u, xs, h, pos, infos[t].level, x);
      }
      GoodSame(cd, pool, infos, pool', t, x);
    }
  }

  /** Filling in the code at `pos` in the current table keeps everything good, now up to the next code. */
  lemma FillGood(cd: Code, pool: seq<seq<Huft>>, infos: seq<Info>, pool': seq<seq<Huft>>, u: seq<nat>, xs: seq<nat>,
                 h: nat,
                 k: nat, pos: nat, r: Huft)
    requires ValidCode(cd) && Tables(cd, pool, infos) && h < |u| && h < |xs| && pos < Pow2(cd.g)
    requires Stack(cd, pool, infos, u, xs, h, pos) && FilledIn(cd, pool, infos, pool', u[h], k, pos, r)
    requires GoodBelow(cd, pool, infos, pos)
    ensures Shaped(cd, pool', infos) && GoodBelow(cd, pool', infos, pos + Pow2(cd.g - k))
  {
    FillShaped(cd, pool, infos, pool', u[h], k, pos, r);
    forall t: nat, x: nat | t < |pool'| && infos[t].bits <= cd.l && Member(cd, infos[t], x) && x < pos + Pow2(cd.g - k)
      ensures Good(cd, pool', infos, t, x)
    {
      FillGoodAt(cd, pool, infos, pool', u, xs, h, k, pos, r, t, x);
    }
  }

  /** A table that holds a code of at most `l` bits beyond its prefix looks up at most `l` bits. */
  lemma NotOversized(cd: Code, it: Info, tab: seq<Huft>, x: nat)
    requires ValidCode(cd) && it.w + it.bits <= cd.g && TableOk(cd, it, tab) && Member(cd, it, x)
    requires LenAt(cd.c, cd.g, x) <= it.w + cd.l
    ensures it.bits <= cd.l && LenAt(cd.c, cd.g, x) <= it.w + it.bits
  {
    LeastWithPrefix(it.first, x, cd.g, it.w);
    LenMono(cd.c, cd.g, it.first, x);
  }

  lemma FillTables(cd: Code, pool: seq<seq<Huft>>, infos: seq<Info>, pool': seq<seq<Huft>>, u: seq<nat>, xs: seq<nat>,
                   h: nat,
                  k: nat, pos: nat, r: Huft)
    requires ValidCode(cd) && Tables(cd, pool, infos) && h < |u| && h < |xs| && pos < Pow2(cd.g)
    requires Stack(cd, pool, infos, u, xs, h, pos) && FilledIn(cd, pool, infos, pool', u[h], k, pos, r)
    requires k <= infos[u[h]].w + cd.l
    ensures Tables(cd, pool', infos) && Stack(cd, pool', infos, u, xs, h, pos)
  {
    FillShaped(cd, pool, infos, pool', u[h], k, pos, r);
    assert Open(cd, pool, infos, u, xs, h, pos, h);
    NotOversized(cd, infos[u[h]], pool[u[h]], pos);
    forall q | 0 <= q <= h
      ensures Open(cd, pool', infos, u, xs, h, pos, q)
    {
      assert Open(cd, pool, infos, u, xs, h, pos, q);
    }
  }

  /** The memory after a new table of `j` bits has been linked in. */
  ghost function WithTable(pool: seq<seq<Huft>>, parent: nat, idx: nat, l: nat, j: nat): seq<seq<Huft>>
    requires parent < |pool| && idx < |pool[parent]|
  {
    pool[parent := pool[parent][idx := Huft(16 + j, l, |pool|)]] + [Blanks(Pow2(j))]
  }

  /** Table `|pool|` is new, blank, and linked from the current table at the code `pos`. */
  ghost predicate Added(cd: Code, pool: seq<seq<Huft>>, infos: seq<Info>, pool': seq<seq<Huft>>, infos': seq<Info>,
                        u: seq<nat>, h: nat, pos: nat, bits: nat)
    requires ValidCode(cd) && Shaped(cd, pool, infos) && h < |u| && u[h] < |pool|
  {
    var w := infos[u[h]].w;
    && w + cd.l + bits <= cd.g
    && infos' == infos + [Info(h + 1, w + cd.l, bits, Prefix(pos, cd.g, w + cd.l), pos)]
    && var idx := Mid(pos, cd.g, w, w + cd.l);
       && idx < |pool[u[h]]|
       && pool' == WithTable(pool, u[h], idx, cd.l, bits)
  }

  /** `bits` bits are right for a new table at level `level`, with the first `w` bits of the code at `pos`. */
  ghost predicate Startable(cd: Code, level: nat, w: nat, pos: nat, bits: nat)
    requires ValidCode(cd)
  {
    && pos < Pow2(cd.g) && w < LenAt(cd.c, cd.g, pos) <= w + bits <= cd.g && Low(pos, cd.g - w) == 0
    && level <= w
    && (bits >= cd.l || Closes(cd, Info(level, w, bits, Prefix(pos, cd.g, w), pos)))
    && (bits > cd.l ==> w + bits == LenAt(cd.c, cd.g, pos))
  }

  /** A table with a longer code in it than it can hold links to other tables, so it has at least `l` bits. */
  lemma LinkingBits(cd: Code, it: Info, tab: seq<Huft>, pos: nat)
    requires ValidCode(cd) && it.w + it.bits <= cd.g && TableOk(cd, it, tab) && Member(cd, it, pos)
      && |tab| == Pow2(it.bits)
    requires it.w + cd.l < LenAt(cd.c, cd.g, pos)
    ensures it.bits >= cd.l && it.w + cd.l <= cd.g && Mid(pos, cd.g, it.w, it.w + cd.l) < Pow2(cd.l) <= |tab|
  {
    MidBound(pos, cd.g, it.w, it.w + cd.l);
    Pow2Mono(cd.l, it.bits);
  }

  lemma AddedLinked(cd: Code, pool: seq<seq<Huft>>, infos: seq<Info>, pool': seq<seq<Huft>>, infos': seq<Info>,
                    u: seq<nat>, xs: seq<nat>, h: nat, pos: nat, bits: nat)
    requires ValidCode(cd) && Tables(cd, pool, infos) && h + 1 < |u| && h < |xs|
      && Stack(cd, pool, infos, u, xs, h, pos)
    requires Startable(cd, h + 1, infos[u[h]].w + cd.l, pos, bits)
      && Added(cd, pool, infos, pool', infos', u, h, pos, bits)
    ensures var w := infos[u[h]].w;
      LinkedIn(cd, pool, infos, pool', infos', u[h], Mid(pos, cd.g, w, w + cd.l), Huft(16 + bits, cd.l, |pool|),
        infos'[|infos|], Blanks(Pow2(bits)), pos)
  {
    assert Open(cd, pool, infos, u, xs, h, pos, h) && TableOk(cd, infos[u[h]], pool[u[h]]);
    LinkingBits(cd, infos[u[h]], pool[u[h]], pos);
    AddedIsLinked(cd, pool, infos, pool', infos', u, h, pos, bits);
  }

  lemma AddedIsLinked(cd: Code, pool: seq<seq<Huft>>, infos: seq<Info>, pool': seq<seq<Huft>>, infos': seq<Info>,
                      u: seq<nat>, h: nat, pos: nat, bits: nat)
    requires ValidCode(cd) && Shaped(cd, pool, infos) && h < |u| && u[h] < |pool|
      && Added(cd, pool, infos, pool', infos', u, h, pos, bits)
    requires infos[u[h]].bits >= cd.l && Low(pos, cd.g - (infos[u[h]].w + cd.l)) == 0
      && infos[u[h]].p == Prefix(pos, cd.g, infos[u[h]].w)
    ensures var w := infos[u[h]].w;
      LinkedIn(cd, pool, infos, pool', infos', u[h], Mid(pos, cd.g, w, w + cd.l), Huft(16 + bits, cd.l, |pool|),
        infos'[|infos|], Blanks(Pow2(bits)), pos)
  {
  }

  lemma AddTableOk(cd: Code, pool: seq<seq<Huft>>, infos: seq<Info>, pool': seq<seq<Huft>>, infos': seq<Info>,
                   u: seq<nat>, h: nat, pos: nat, bits: nat, t: nat)
    requires ValidCode(cd) && Tables(cd, pool, infos) && Shaped(cd, pool', infos') && h + 1 < |u| && u[h] < |pool|
    requires Startable(cd, h + 1, infos[u[h]].w + cd.l, pos, bits)
      && Added(cd, pool, infos, pool', infos', u, h, pos, bits)
    requires t < |pool'|
    ensures TableOk(cd, infos'[t], pool'[t])
  {
    if t < |pool| { assert TableOk(cd, infos[t], pool[t]); }
    var w := infos[u[h]].w;
    MidBound(pos, cd.g, w, w + cd.l);
  }

  lemma AddTables(cd: Code, pool: seq<seq<Huft>>, infos: seq<Info>, pool': seq<seq<Huft>>, infos': seq<Info>,
                  u: seq<nat>, xs: seq<nat>, h: nat, pos: nat, bits: nat)
    requires ValidCode(cd) && Tables(cd, pool, infos) && h + 1 < |u| && h < |xs|
      && Stack(cd, pool, infos, u, xs, h, pos)
    requires Startable(cd, h + 1, infos[u[h]].w + cd.l, pos, bits)
      && Added(cd, pool, infos, pool', infos', u, h, pos, bits)
    requires GoodBelow(cd, pool, infos, pos)
    ensures Tables(cd, pool', infos') && GoodBelow(cd, pool', infos', pos)
  {
    var w := infos[u[h]].w;
    AddedLinked(cd, pool, infos, pool', infos', u, xs, h, pos, bits);
    NewTableGood(cd, pool, infos, pool', infos', u[h], Mid(pos, cd.g, w, w + cd.l), Huft(16 + bits, cd.l, |pool|),
                 infos'[|infos|], Blanks(Pow2(bits)), pos);
    forall t | 0 <= t < |pool'|
      ensures TableOk(cd, infos'[t], pool'[t])
    {
      AddTableOk(cd, pool, infos, pool', infos', u, h, pos, bits, t);
    }
  }

  lemma AddOpen(cd: Code, pool: seq<seq<Huft>>, infos: seq<Info>, pool': seq<seq<Huft>>, infos': seq<Info>,
                u: seq<nat>, xs: seq<nat>, h: nat, pos: nat, bits: nat,
                u': seq<nat>, xs': seq<nat>, q: nat)
    requires ValidCode(cd) && Shaped(cd, pool, infos) && Shaped(cd, pool', infos')
    requires q <= h && h + 1 < |u| == |u'| && h + 1 < |xs| == |xs'|
    requires u[q] < |pool| && u[h] < |pool| && Open(cd, pool, infos, u, xs, h, pos, q)
    requires Added(cd, pool, infos, pool', infos', u, h, pos, bits) && infos[u[h]].bits >= cd.l
    requires u' == u[h + 1 := |pool|] && xs'[q] == xs[q]
    requires q < h ==> u[q] != u[h]
    ensures Open(cd, pool', infos', u', xs', h + 1, pos, q)
  {
  }

  lemma AddFinished(cd: Code, pool: seq<seq<Huft>>, infos: seq<Info>, pool': seq<seq<Huft>>, infos': seq<Info>,
                    u: seq<nat>, xs: seq<nat>, h: nat, pos: nat, bits: nat, u': seq<nat>, t: nat)
    requires ValidCode(cd) && Shaped(cd, pool, infos) && Shaped(cd, pool', infos') && h + 1 < |u| && h < |xs|
    requires Stack(cd, pool, infos, u, xs, h, pos) && Added(cd, pool, infos, pool', infos', u, h, pos, bits)
    requires u' == u[h + 1 := |pool|] && t < |pool'|
    ensures Finished(cd, infos', pos, t) || (infos'[t].level <= h + 1 && u'[infos'[t].level] == t)
  {
    if t < |pool| { assert Finished(cd, infos, pos, t) || (infos[t].level <= h && u[infos[t].level] == t); }
  }

  lemma AddStack(cd: Code, pool: seq<seq<Huft>>, infos: seq<Info>, pool': seq<seq<Huft>>, infos': seq<Info>,
                 u: seq<nat>, xs: seq<nat>, h: nat, pos: nat, bits: nat,
                 u': seq<nat>, xs': seq<nat>, h': nat)
    requires ValidCode(cd) && Tables(cd, pool, infos) && h + 1 < |u| && h + 1 < |xs|
      && Stack(cd, pool, infos, u, xs, h, pos)
    requires Startable(cd, h + 1, infos[u[h]].w + cd.l, pos, bits)
      && Added(cd, pool, infos, pool', infos', u, h, pos, bits)
    requires Shaped(cd, pool', infos') && h' == h + 1
    requires u' == u[h' := |pool|] && xs' == xs[h' := Rev(pos, cd.g, infos[u[h]].w + cd.l)]
    ensures Stack(cd, pool', infos', u', xs', h', pos)
  {
    assert Open(cd, pool, infos, u, xs, h, pos, h) && TableOk(cd, infos[u[h]], pool[u[h]]);
    LinkingBits(cd, infos[u[h]], pool[u[h]], pos);
    forall q | 0 <= q <= h
      ensures Open(cd, pool', infos', u', xs', h', pos, q)
    {
      assert Open(cd, pool, infos, u, xs, h, pos, q);
      AddOpen(cd, pool, infos, pool', infos', u, xs, h, pos, bits, u', xs', q);
    }
    forall t | 0 <= t < |pool'|
      ensures Finished(cd, infos', pos, t) || (infos'[t].level <= h' && u'[infos'[t].level] == t)
    {
      AddFinished(cd, pool, infos, pool', infos', u, xs, h, pos, bits, u', t);
    }
  }

  lemma {:induction false} StackMono(cd: Code, pool: seq<seq<Huft>>, infos: seq<Info>, u: seq<nat>, xs: seq<nat>,
                                     h: nat, pos: nat, q: nat, r: nat)
    requires ValidCode(cd) && Shaped(cd, pool, infos) && h < |u| && h < |xs| && Stack(cd, pool, infos, u, xs, h, pos)
    requires q <= r <= h
    ensures infos[u[q]].w <= infos[u[r]].w
    decreases r
  {
    if q < r {
      assert Open(cd, pool, infos, u, xs, h, pos, r - 1);
      StackMono(cd, pool, infos, u, xs, h, pos, q, r - 1);
    }
  }

  /** Backing up to level `h'`: the next code shares the prefixes of the tables that stay open, and no others. */
  ghost predicate BacksUp(cd: Code, pool: seq<seq<Huft>>, infos: seq<Info>, u: seq<nat>, xs: seq<nat>, h: nat, h': nat,
                          pos: nat, pos': nat)
    requires ValidCode(cd) && Shaped(cd, pool, infos) && h < |u| && h < |xs| && Stack(cd, pool, infos, u, xs, h, pos)
  {
    && h' <= h && pos <= pos' < Pow2(cd.g)
    && Prefix(pos', cd.g, infos[u[h']].w) == Prefix(pos, cd.g, infos[u[h']].w)
    && forall q :: h' < q <= h ==> Prefix(pos', cd.g, infos[u[q]].w) != Prefix(pos, cd.g, infos[u[q]].w)
  }

  lemma BackUpOpen(cd: Code, pool: seq<seq<Huft>>, infos: seq<Info>, u: seq<nat>, xs: seq<nat>, h: nat, h': nat,
                   pos: nat, pos': nat, q: nat)
    requires ValidCode(cd) && Shaped(cd, pool, infos) && h < |u| && h < |xs| && Stack(cd, pool, infos, u, xs, h, pos)
    requires BacksUp(cd, pool, infos, u, xs, h, h', pos, pos') && q <= h'
    ensures Open(cd, pool, infos, u, xs, h', pos', q)
  {
    var it := infos[u[q]];
    assert Open(cd, pool, infos, u, xs, h, pos, q);
    StackMono(cd, pool, infos, u, xs, h, pos, q, h');
    PrefixShorter(pos', pos, cd.g, it.w, infos[u[h']].w);
    if q < h' {
      StackMono(cd, pool, infos, u, xs, h, pos, q + 1, h');
      PrefixShorter(pos', pos, cd.g, it.w + cd.l, infos[u[h']].w);
      PrefixShorter(pos', pos, cd.g, it.w, it.w + cd.l);
    }
  }

  lemma BackUpFinished(cd: Code, pool: seq<seq<Huft>>, infos: seq<Info>, u: seq<nat>, xs: seq<nat>, h: nat, h': nat,
                       pos: nat, pos': nat, t: nat)
    requires ValidCode(cd) && Shaped(cd, pool, infos) && h < |u| && h < |xs| && Stack(cd, pool, infos, u, xs, h, pos)
    requires BacksUp(cd, pool, infos, u, xs, h, h', pos, pos') && t < |pool|
    ensures Finished(cd, infos, pos', t) || (infos[t].level <= h' && u[infos[t].level] == t)
  {
    ShrMono(pos, pos', cd.g - infos[t].w);
    if !Finished(cd, infos, pos, t) && infos[t].level > h' {
      assert Open(cd, pool, infos, u, xs, h, pos, infos[t].level);
    }
  }

  lemma BackUpStack(cd: Code, pool: seq<seq<Huft>>, infos: seq<Info>, u: seq<nat>, xs: seq<nat>, h: nat, h': nat,
                    pos: nat, pos': nat)
    requires ValidCode(cd) && Shaped(cd, pool, infos) && h < |u| && h < |xs| && Stack(cd, pool, infos, u, xs, h, pos)
    requires BacksUp(cd, pool, infos, u, xs, h, h', pos, pos')
    ensures Stack(cd, pool, infos, u, xs, h', pos')
  {
    forall q | 0 <= q <= h'
      ensures Open(cd, pool, infos, u, xs, h', pos', q)
    {
      BackUpOpen(cd, pool, infos, u, xs, h, h', pos, pos', q);
    }
    forall t | 0 <= t < |pool|
      ensures Finished(cd, infos, pos', t) || (infos[t].level <= h' && u[infos[t].level] == t)
    {
      BackUpFinished(cd, pool, infos, u, xs, h, h', pos, pos', t);
    }
  }
}
