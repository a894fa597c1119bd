/** The table building loop of `huft_build`, lines 400-510 of lib/inflate.c. */
module HuftBuilder {
  import opened Bits
  import opened HuffmanCode
  import opened HuftTables
  import opened HuftSteps
  import opened HuftStack
  import opened HuftBuild

  /** What holds when all codes below `pos` have been entered and the code at `pos` is next. */
  ghost predicate Built(cd: Code, pool: seq<seq<Huft>>, infos: seq<Info>, u: seq<nat>, x: seq<nat>, h: int, w: int,
                        q: nat, pos: nat) {
    && ValidCode(cd) && Tables(cd, pool, infos) && GoodBelow(cd, pool, infos, pos)
    && |u| == 16 && |x| == 17 && -1 <= h < 16
    && if h == -1 then pool == [] && pos == 0 && w + cd.l == 0 else OnPath(cd, pool, infos, u, x, h, w, q, pos)
  }

  ghost predicate OnPath(cd: Code, pool: seq<seq<Huft>>, infos: seq<Info>, u: seq<nat>, x: seq<nat>, h: nat, w: int,
                         q: nat, pos: nat)
    requires ValidCode(cd) && Shaped(cd, pool, infos) && h < |u| && h < |x|
  {
    && q < |pool| && w >= 0
    && (pos < Pow2(cd.g) ==>
          && Stack(cd, pool, infos, u, x, h, pos) && w == infos[u[h]].w
          && var k := LenAt(cd.c, cd.g, pos);
             && w < k
             && (k <= w + cd.l ==> q == u[h])
             && (k > w + cd.l ==> Low(pos, cd.g - w - cd.l) == 0))
  }

  lemma RootBuilt(cd: Code, bits: nat, u: seq<nat>, x: seq<nat>)
    requires ValidCode(cd) && |u| == 16 && |x| == 17 && 0 < bits <= cd.g && LenAt(cd.c, cd.g, 0) <= bits <= cd.l
    requires bits >= cd.l || Closes(cd, Info(0, 0, bits, 0, 0))
    ensures Built(cd, [Blanks(Pow2(bits))], [Info(0, 0, bits, 0, 0)], u[0 := 0], x[0 := 0], 0, 0, 0, 0)
  {
    var pool, infos, u', x' := [Blanks(Pow2(bits))], [Info(0, 0, bits, 0, 0)], u[0 := 0], x[0 := 0];
    PrefixZero(0, cd.g);
    ShrUnique(0, cd.g, 0, 0);
    assert TableOk(cd, infos[0], pool[0]);
    assert Open(cd, pool, infos, u', x', 0, 0, 0);
    assert Stack(cd, pool, infos, u', x', 0, 0);
  }

  lemma AddBuilt(cd: Code, pool: seq<seq<Huft>>, infos: seq<Info>, pool': seq<seq<Huft>>, infos': seq<Info>,
                 u: seq<nat>, x: seq<nat>, h: nat, pos: nat, bits: nat,
                 u': seq<nat>, x': seq<nat>, h': int, w': int, q': nat)
    requires ValidCode(cd) && Tables(cd, pool, infos) && |u| == 16 && |x| == 17 && h + 1 < 16
      && Stack(cd, pool, infos, u, x, h, pos)
    requires Startable(cd, h + 1, infos[u[h]].w + cd.l, pos, bits)
      && Added(cd, pool, infos, pool', infos', u, h, pos, bits)
    requires GoodBelow(cd, pool, infos, pos)
    requires h' == h + 1 && w' == infos[u[h]].w + cd.l && q' == |pool|
    requires u' == u[h' := |pool|] && x' == x[h' := Rev(pos, cd.g, infos[u[h]].w + cd.l)]
    ensures Built(cd, pool', infos', u', x', h', w', q', pos)
  {
    AddTables(cd, pool, infos, pool', infos', u, x, h, pos, bits);
    AddStack(cd, pool, infos, pool', infos', u, x, h, pos, bits, u', x', h');
    if w' + cd.l < LenAt(cd.c, cd.g, pos) {
      LowZeroShorter(pos, cd.g - w' - cd.l, cd.g - w');
    }
  }

  /** The room left for the codes with the prefix of the code at `pos`. */
  lemma RoomAt(cd: Code, pos: nat, k: nat, w: nat, a: nat)
    requires ValidCode(cd) && pos < Pow2(cd.g) && w <= k <= cd.g && 1 <= k && Low(pos, cd.g - w) == 0
    requires EndCode(cd.c, k) == Prefix(pos, cd.g, k) + a + 1
    ensures var p := Prefix(pos, cd.g, w); p < Pow2(w) && EndCode(cd.c, k) == p * Pow2(k - w) + a + 1
  {
    PrefixBelow(pos, cd.g, w, k);
    PrefixZero(pos, cd.g);
    PrefixBelow(pos, cd.g, 0, w);
  }

  /** `j` bits are right for a table with the `w`-bit prefix of the code at `pos`. */
  ghost predicate Suits(cd: Code, pos: nat, w: nat, j: nat)
    requires ValidCode(cd) && w <= cd.g
  {
    var k := LenAt(cd.c, cd.g, pos);
    && w < k <= w + j <= cd.g
    && (if k - w > cd.l then j == k - w else j <= cd.l)
    && (j >= cd.l || Closes(cd, Info(0, w, j, Prefix(pos, cd.g, w), pos)))
  }

  lemma ClosesAtLevel(cd: Code, it: Info, level: nat)
    requires ValidCode(cd) && it.w <= cd.g && Closes(cd, it)
    ensures Closes(cd, it.(level := level))
  {
    forall x: nat | Member(cd, it.(level := level), x)
      ensures LenAt(cd.c, cd.g, x) <= it.w + it.bits
    {
      assert Member(cd, it, x);
    }
  }

  method ChooseBits(cd: Code, k: nat, w: nat, a: nat, ghost pos: nat) returns (j: nat)
    requires ValidCode(cd) && pos < Pow2(cd.g) && k == LenAt(cd.c, cd.g, pos) && w < k && Low(pos, cd.g - w) == 0
    requires EndCode(cd.c, k) == Prefix(pos, cd.g, k) + a + 1
    ensures Suits(cd, pos, w, j) && Reached(cd, w, Prefix(pos, cd.g, w), j)
  {
    RoomAt(cd, pos, k, w, a);
    ghost var p := Prefix(pos, cd.g, w);
    j := TableBits(cd.c, cd.g, cd.l, k, w, a, p);
    if j < cd.l { FullCloses(cd, Info(0, w, j, p, pos)); }
    if j > k - w { UnfilledReaches(cd, w, p, j); }
  }

  /** No table looks up more bits than a code in it has. */
  ghost predicate Snug(cd: Code, infos: seq<Info>) {
    ValidCode(cd) && forall t {:trigger SnugAt(cd, infos, t)} :: 0 <= t < |infos| ==> SnugAt(cd, infos, t)
  }

  ghost predicate SnugAt(cd: Code, infos: seq<Info>, t: nat)
    requires ValidCode(cd) && t < |infos|
  {
    infos[t].w <= cd.g && Reached(cd, infos[t].w, infos[t].p, infos[t].bits)
  }

  lemma SnugMore(cd: Code, infos: seq<Info>, it: Info, infos': seq<Info>)
    requires Snug(cd, infos) && it.w <= cd.g && Reached(cd, it.w, it.p, it.bits) && infos' == infos + [it]
    ensures Snug(cd, infos')
  {
    forall t | 0 <= t < |infos'| ensures SnugAt(cd, infos', t) {
      if t < |infos| { assert SnugAt(cd, infos, t); }
    }
  }

  lemma LinkIndex(cd: Code, pos: nat, w: nat, i: nat)
    requires ValidCode(cd) && w + cd.l <= LenAt(cd.c, cd.g, pos)
    requires Low(pos, cd.g - (w + cd.l)) == 0 && i == Rev(pos, cd.g, LenAt(cd.c, cd.g, pos))
    ensures i == Rev(pos, cd.g, w + cd.l) && Shr(i, w) == Mid(pos, cd.g, w, w + cd.l)
  {
    IndexOf(pos, cd.g, w, w + cd.l, LenAt(cd.c, cd.g, pos), i);
  }

  lemma IndexOf(pos: nat, g: nat, w: nat, v: nat, len: nat, i: nat)
    requires w <= v <= len <= g && Low(pos, g - v) == 0 && i == Rev(pos, g, len)
    ensures i == Rev(pos, g, v) && Shr(i, w) == Mid(pos, g, w, v)
  {
    RevAligned(pos, g, v, len);
    MidSplit(pos, g, 0, w, v);
  }

  lemma CurrentTable(cd: Code, pool: seq<seq<Huft>>, infos: seq<Info>, u: seq<nat>, x: seq<nat>, h: nat, w: nat,
                     q: nat, pos: nat)
    requires Built(cd, pool, infos, u, x, h, w, q, pos) && pos < Pow2(cd.g)
    ensures u[h] < |pool| && infos[u[h]].w == w && h <= w && |pool[u[h]]| == Pow2(infos[u[h]].bits)
      && x[h] == Rev(pos, cd.g, w)
    ensures TableOk(cd, infos[u[h]], pool[u[h]]) && Member(cd, infos[u[h]], pos)
  {
    assert Open(cd, pool, infos, u, x, h, pos, h) && TableOk(cd, infos[u[h]], pool[u[h]]);
  }

  lemma Aligned(cd: Code, pool: seq<seq<Huft>>, infos: seq<Info>, u: seq<nat>, x: seq<nat>, h: int, w: int, q: nat,
                pos: nat)
    requires Built(cd, pool, infos, u, x, h, w, q, pos) && pos < Pow2(cd.g) && LenAt(cd.c, cd.g, pos) > w + cd.l
    ensures w + cd.l >= 0 && Low(pos, cd.g - (w + cd.l)) == 0
  {
    if h == -1 { ShrUnique(0, cd.g, 0, 0); }
  }

  lemma LinkFits(cd: Code, it: Info, tab: seq<Huft>, pos: nat, i: nat, w: nat)
    requires ValidCode(cd) && it.w + it.bits <= cd.g && TableOk(cd, it, tab) && Member(cd, it, pos)
      && |tab| == Pow2(it.bits)
    requires it.w == w && w + cd.l < LenAt(cd.c, cd.g, pos) && i == Rev(pos, cd.g, LenAt(cd.c, cd.g, pos))
    requires Low(pos, cd.g - (w + cd.l)) == 0
    ensures i == Rev(pos, cd.g, w + cd.l) && Shr(i, w) == Mid(pos, cd.g, w, w + cd.l) < |tab|
  {
    LinkingBits(cd, it, tab, pos);
    LinkIndex(cd, pos, w, i);
  }

  lemma CanStart(cd: Code, level: nat, w: nat, pos: nat, j: nat)
    requires ValidCode(cd) && pos < Pow2(cd.g) && level <= w <= cd.g && Low(pos, cd.g - w) == 0 && Suits(cd, pos, w, j)
    ensures Startable(cd, level, w, pos, j)
  {
    if j < cd.l { ClosesAtLevel(cd, Info(0, w, j, Prefix(pos, cd.g, w), pos), level); }
  }

  lemma NewTableStartable(cd: Code, pool: seq<seq<Huft>>, infos: seq<Info>, u: seq<nat>, x: seq<nat>, h: nat, w: nat,
                          q: nat, pos: nat, j: nat)
    requires Built(cd, pool, infos, u, x, h, w, q, pos) && pos < Pow2(cd.g) && LenAt(cd.c, cd.g, pos) > w + cd.l
    requires Suits(cd, pos, w + cd.l, j)
    ensures u[h] < |pool| && w == infos[u[h]].w && Startable(cd, h + 1, infos[u[h]].w + cd.l, pos, j)
  {
    Aligned(cd, pool, infos, u, x, h, w, q, pos);
    CurrentTable(cd, pool, infos, u, x, h, w, q, pos);
    CanStart(cd, h + 1, infos[u[h]].w + cd.l, pos, j);
  }

  lemma NewTableFacts(cd: Code, pool: seq<seq<Huft>>, infos: seq<Info>, u: seq<nat>, x: seq<nat>, h: nat, w: nat,
                      q: nat, pos: nat, i: nat)
    requires Built(cd, pool, infos, u, x, h, w, q, pos) && pos < Pow2(cd.g) && w + cd.l < LenAt(cd.c, cd.g, pos)
    requires i == Rev(pos, cd.g, LenAt(cd.c, cd.g, pos))
    ensures u[h] < |pool| && infos[u[h]].w == w && i == Rev(pos, cd.g, w + cd.l)
      && Shr(i, w) == Mid(pos, cd.g, w, w + cd.l)
  {
    Aligned(cd, pool, infos, u, x, h, w, q, pos);
    CurrentTable(cd, pool, infos, u, x, h, w, q, pos);
    LinkFits(cd, infos[u[h]], pool[u[h]], pos, i, w);
  }

  lemma NewTableAdded(cd: Code, pool: seq<seq<Huft>>, infos: seq<Info>, u: seq<nat>, h: nat, w: nat, pos: nat, j: nat,
                      i: nat,
                      pool': seq<seq<Huft>>, infos': seq<Info>)
    requires ValidCode(cd) && Shaped(cd, pool, infos) && h < |u| && u[h] < |pool| && infos[u[h]].w == w
      && w + cd.l + j <= cd.g
    requires i == Rev(pos, cd.g, w + cd.l) && Shr(i, w) == Mid(pos, cd.g, w, w + cd.l)
    requires Shr(i, w) < |pool[u[h]]| && pool' == WithTable(pool, u[h], Shr(i, w), cd.l, j)
    requires infos' == infos + [Info(h + 1, w + cd.l, j, Prefix(pos, cd.g, w + cd.l), pos)]
    ensures i == Rev(pos, cd.g, infos[u[h]].w + cd.l) && Added(cd, pool, infos, pool', infos', u, h, pos, j)
  {
  }

  lemma NewTableBuilt(cd: Code, pool: seq<seq<Huft>>, infos: seq<Info>, u: seq<nat>, x: seq<nat>, h: nat, w: nat,
                      q: nat, pos: nat, j: nat, i: nat,
                      pool': seq<seq<Huft>>, infos': seq<Info>, u': seq<nat>, x': seq<nat>, h': int, w': int, q': nat)
    requires Built(cd, pool, infos, u, x, h, w, q, pos) && pos < Pow2(cd.g) && LenAt(cd.c, cd.g, pos) > w + cd.l
    requires i == Rev(pos, cd.g, LenAt(cd.c, cd.g, pos)) && Suits(cd, pos, w + cd.l, j)
    requires h < 15 && u[h] < |pool| && Shr(i, w) < |pool[u[h]]| && pool' == WithTable(pool, u[h], Shr(i, w), cd.l, j)
    requires infos' == infos + [Info(h + 1, w + cd.l, j, Prefix(pos, cd.g, w + cd.l), pos)]
    requires h' == h + 1 && w' == w + cd.l && q' == |pool| && u' == u[h' := |pool|] && x' == x[h' := i]
    ensures Built(cd, pool', infos', u', x', h', w', q', pos)
  {
    NewTableStartable(cd, pool, infos, u, x, h, w, q, pos, j);
    NewTableFacts(cd, pool, infos, u, x, h, w, q, pos, i);
    NewTableAdded(cd, pool, infos, u, h, w, pos, j, i, pool', infos');
    AddBuilt(cd, pool, infos, pool', infos', u, x, h, pos, j, u', x', h', w', q');
  }

  lemma NewRootBuilt(cd: Code, pool: seq<seq<Huft>>, infos: seq<Info>, u: seq<nat>, x: seq<nat>, h: int, w: int,
                     q: nat, pos: nat, j: nat,
                     pool': seq<seq<Huft>>, infos': seq<Info>, u': seq<nat>, h': int, w': int, q': nat)
    requires Built(cd, pool, infos, u, x, h, w, q, pos) && h == -1 && x[0] == 0 && Suits(cd, pos, 0, j)
    requires pool' == pool + [Blanks(Pow2(j))] && infos' == infos + [Info(0, 0, j, Prefix(pos, cd.g, 0), pos)]
      && u' == u[0 := 0]
    requires h' == w' == q' == 0
    ensures Built(cd, pool', infos', u', x, h', w', q', pos)
  {
    PrefixZero(0, cd.g);
    RootBuilt(cd, j, u, x);
    assert x[0 := 0] == x;
    assert pool' == [Blanks(Pow2(j))] && infos' == [Info(0, 0, j, 0, 0)];
  }

  lemma LinkInRange(cd: Code, pool: seq<seq<Huft>>, infos: seq<Info>, u: seq<nat>, x: seq<nat>, h: nat, w: nat, q: nat,
                    pos: nat, i: nat)
    requires Built(cd, pool, infos, u, x, h, w, q, pos) && pos < Pow2(cd.g) && LenAt(cd.c, cd.g, pos) > w + cd.l
    requires i == Rev(pos, cd.g, LenAt(cd.c, cd.g, pos))
    ensures h < 15 && u[h] < |pool| && Shr(i, w) < |pool[u[h]]|
  {
    Aligned(cd, pool, infos, u, x, h, w, q, pos);
    CurrentTable(cd, pool, infos, u, x, h, w, q, pos);
    LinkFits(cd, infos[u[h]], pool[u[h]], pos, i, w);
  }

  /** What lines 423-424 and 442-469 do to the tables and the stacks. */
  ghost predicate TableAdded(cd: Code, pool: seq<seq<Huft>>, infos: seq<Info>, u: seq<nat>, x: seq<nat>, h: int,
                             w: int, i: nat, pos: nat, j: nat,
                             pool': seq<seq<Huft>>, infos': seq<Info>, u': seq<nat>, x': seq<nat>, h': int, w': int,
                               q': nat) {
    && -1 <= h < 15 && |u| == 16 && |x| == 17 && 0 <= w + cd.l <= cd.g
    && h' == h + 1 && w' == w + cd.l && q' == |pool| && u' == u[h' := q']
    && infos' == infos + [Info(h', w', j, Prefix(pos, cd.g, w'), pos)]
    && if h == -1 then x' == x && pool' == pool + [Blanks(Pow2(j))]
       else && x' == x[h' := i] && w >= 0 && u[h] < |pool| && Shr(i, w) < |pool[u[h]]|
            && pool' == WithTable(pool, u[h], Shr(i, w), cd.l, j)
  }

  lemma TableAddedBuilt(cd: Code, pool: seq<seq<Huft>>, infos: seq<Info>, u: seq<nat>, x: seq<nat>, h: int, w: int,
                        q: nat, i: nat, pos: nat, j: nat,
                        pool': seq<seq<Huft>>, infos': seq<Info>, u': seq<nat>, x': seq<nat>, h': int, w': int, q': nat)
    requires Built(cd, pool, infos, u, x, h, w, q, pos) && pos < Pow2(cd.g) && LenAt(cd.c, cd.g, pos) > w + cd.l
    requires i == Rev(pos, cd.g, LenAt(cd.c, cd.g, pos)) && x[0] == 0 && w + cd.l >= 0 && Suits(cd, pos, w + cd.l, j)
    requires TableAdded(cd, pool, infos, u, x, h, w, i, pos, j, pool', infos', u', x', h', w', q')
    ensures Built(cd, pool', infos', u', x', h', w', q', pos)
  {
    if h >= 0 {
      NewTableBuilt(cd, pool, infos, u, x, h, w, q, pos, j, i, pool', infos', u', x', h', w', q');
    } else {
      NewRootBuilt(cd, pool, infos, u, x, h, w, q, pos, j, pool', infos', u', h', w', q');
    }
  }

  /** Where the code at `pos` belongs: in the current table, which is no larger than it should be. */
  lemma FillHere(cd: Code, pool: seq<seq<Huft>>, infos: seq<Info>, u: seq<nat>, x: seq<nat>, h: nat, w: nat, q: nat,
                 pos: nat, k: nat, i: nat)
    requires Built(cd, pool, infos, u, x, h, w, q, pos) && pos < Pow2(cd.g)
    requires k == LenAt(cd.c, cd.g, pos) && k <= w + cd.l && i == Rev(pos, cd.g, k)
    ensures q == u[h] && w < k <= w + infos[q].bits && infos[q].w == w
    ensures Shr(i, w) == Mid(pos, cd.g, w, k) < Pow2(k - w)
  {
    CurrentTable(cd, pool, infos, u, x, h, w, q, pos);
    NotOversized(cd, infos[u[h]], pool[u[h]], pos);
    MidSplit(pos, cd.g, 0, w, k);
    MidBound(pos, cd.g, w, k);
  }

  /** After the code at `pos` is filled in, before backing up. */
  ghost predicate Entered(cd: Code, pool: seq<seq<Huft>>, infos: seq<Info>, u: seq<nat>, x: seq<nat>, h: nat,
                          pos: nat) {
    && ValidCode(cd) && pos < Pow2(cd.g) && Low(pos, cd.g - LenAt(cd.c, cd.g, pos)) == 0
    && Tables(cd, pool, infos) && |u| == 16 && |x| == 17 && h < 16 && Stack(cd, pool, infos, u, x, h, pos)
    && infos[u[h]].w < LenAt(cd.c, cd.g, pos) <= infos[u[h]].w + cd.l
    && GoodBelow(cd, pool, infos, pos + Pow2(cd.g - LenAt(cd.c, cd.g, pos)))
  }

  lemma FillEntered(cd: Code, pool: seq<seq<Huft>>, infos: seq<Info>, u: seq<nat>, x: seq<nat>, h: nat, w: nat, q: nat,
                    pos: nat, k: nat, r: Huft, pool': seq<seq<Huft>>)
    requires Built(cd, pool, infos, u, x, h, w, q, pos) && pos < Pow2(cd.g) && k <= w + cd.l
    requires q == u[h] && q < |pool| && FilledIn(cd, pool, infos, pool', q, k, pos, r)
    ensures Entered(cd, pool', infos, u, x, h, pos)
  {
    CurrentTable(cd, pool, infos, u, x, h, w, q, pos);
    FillGood(cd, pool, infos, pool', u, x, h, k, pos, r);
    FillTables(cd, pool, infos, pool', u, x, h, k, pos, r);
  }

  /** Where the next code stands relative to the table backed up to, which is at `w'` bits. */
  lemma NextAligned(cd: Code, pos: nat, pos': nat, w: nat, w': nat, popped: bool)
    requires ValidCode(cd) && pos < pos' < Pow2(cd.g)
    requires var k := LenAt(cd.c, cd.g, pos);
      pos' == pos + Pow2(cd.g - k) && Low(pos, cd.g - k) == 0 && w < k <= w + cd.l
    requires if popped then w' + cd.l <= w && Prefix(pos', cd.g, w' + cd.l) != Prefix(pos, cd.g, w' + cd.l) else w' == w
    ensures var k' := LenAt(cd.c, cd.g, pos');
      w' < k' && (k' <= w' + cd.l ==> !popped) && (k' > w' + cd.l ==> Low(pos', cd.g - w' - cd.l) == 0)
  {
    var k, k' := LenAt(cd.c, cd.g, pos), LenAt(cd.c, cd.g, pos');
    LenMono(cd.c, cd.g, pos, pos');
    if popped {
      CarryAligns(pos, cd.g, k, w' + cd.l);
    } else if k' > w' + cd.l {
      NextPrefix(pos, cd.g, k);
      LowZeroShorter(pos', cd.g - (w' + cd.l), cd.g - k);
    }
  }

  lemma BackedUpAligned(cd: Code, pool: seq<seq<Huft>>, infos: seq<Info>, u: seq<nat>, x: seq<nat>, h: nat, h': nat,
                        pos: nat, pos': nat)
    requires Entered(cd, pool, infos, u, x, h, pos) && pos' == pos + Pow2(cd.g - LenAt(cd.c, cd.g, pos))
    requires BacksUp(cd, pool, infos, u, x, h, h', pos, pos')
    ensures var w', k' := infos[u[h']].w, LenAt(cd.c, cd.g, pos');
      w' < k' && (k' <= w' + cd.l ==> h' == h) && (k' > w' + cd.l ==> Low(pos', cd.g - w' - cd.l) == 0)
  {
    if h' < h { NextTable(cd, pool, infos, u, x, h, h', pos); }
    NextAligned(cd, pos, pos', infos[u[h]].w, infos[u[h']].w, h' < h);
  }

  lemma NextTable(cd: Code, pool: seq<seq<Huft>>, infos: seq<Info>, u: seq<nat>, x: seq<nat>, h: nat, h': nat, pos: nat)
    requires Entered(cd, pool, infos, u, x, h, pos) && h' < h
    ensures infos[u[h' + 1]].w == infos[u[h']].w + cd.l <= infos[u[h]].w
  {
    assert Open(cd, pool, infos, u, x, h, pos, h');
  }

  lemma BackedUpBuilt(cd: Code, pool: seq<seq<Huft>>, infos: seq<Info>, u: seq<nat>, x: seq<nat>, h: nat, h': nat,
                      w': nat, q: nat, pos: nat, pos': nat)
    requires Entered(cd, pool, infos, u, x, h, pos) && pos' == pos + Pow2(cd.g - LenAt(cd.c, cd.g, pos))
    requires h' <= h && w' == infos[u[h']].w && q == u[h]
    requires pos' < Pow2(cd.g) ==> BacksUp(cd, pool, infos, u, x, h, h', pos, pos')
    ensures Built(cd, pool, infos, u, x, h', w', q, pos')
  {
    if pos' < Pow2(cd.g) {
      BackUpStack(cd, pool, infos, u, x, h, h', pos, pos');
      BackedUpAligned(cd, pool, infos, u, x, h, h', pos, pos');
    }
  }

  lemma OpenAt(cd: Code, pool: seq<seq<Huft>>, infos: seq<Info>, u: seq<nat>, x: seq<nat>, h: nat, pos: nat, q: nat)
    requires Entered(cd, pool, infos, u, x, h, pos) && q <= h
    ensures x[q] == Rev(pos, cd.g, infos[u[q]].w) && infos[u[q]].w <= infos[u[h]].w
    ensures if q == 0 then infos[u[q]].w == 0 else infos[u[q]].w == infos[u[q - 1]].w + cd.l
  {
    assert Open(cd, pool, infos, u, x, h, pos, q);
    StackMono(cd, pool, infos, u, x, h, pos, q, h);
    if q > 0 { assert Open(cd, pool, infos, u, x, h, pos, q - 1); }
  }

  /** The test of line 502 compares the prefixes of two codes. */
  lemma SamePrefixTest(g: nat, pos: nat, pos': nat, w: nat, k: nat, i: nat)
    requires w <= k <= g && i == Rev(pos', g, k) && pos < Pow2(g) && pos' < Pow2(g)
    ensures Low(i, w) == Rev(pos, g, w) <==> Prefix(pos', g, w) == Prefix(pos, g, w)
  {
    MidSplit(pos', g, 0, w, k);
    RevPrefix(pos, pos', g, w);
  }

  /** The number of bits before each of the first `n` open tables. */
  ghost function Widths(infos: seq<Info>, u: seq<nat>, n: nat): (ws: seq<nat>)
    requires n <= |u| && forall q :: 0 <= q < n ==> u[q] < |infos|
    ensures |ws| == n && forall q :: 0 <= q < n ==> ws[q] == infos[u[q]].w
  {
    seq(n, q requires 0 <= q < n => infos[u[q]].w)
  }

  /** Lines 502-506: the deepest open table whose recorded code agrees with the next code `i`. */
  method Retreat(x: seq<nat>, l: nat, i: nat, h0: nat, w0: int, ghost ws: seq<nat>) returns (h: int, w: int)
    requires |ws| == h0 + 1 <= |x| && ws[0] == 0 && ws[h0] == w0 && x[0] == 0
    requires forall q :: 0 < q <= h0 ==> ws[q] == ws[q - 1] + l
    ensures 0 <= h <= h0 && w == ws[h] && Low(i, ws[h]) == x[h]
    ensures forall q :: h < q <= h0 ==> Low(i, ws[q]) != x[q]
  {
    h, w := h0, w0;
    while Low(i, w) != x[h]
      invariant 0 <= h <= h0 && w == ws[h]
      invariant forall q :: h < q <= h0 ==> Low(i, ws[q]) != x[q]
      decreases h
    {
      h := h - 1;
      w := w - l;
    }
  }

  lemma RetreatBacksUp(cd: Code, pool: seq<seq<Huft>>, infos: seq<Info>, u: seq<nat>, x: seq<nat>, h: nat, h': nat,
                       pos: nat, pos': nat, i: nat)
    requires Entered(cd, pool, infos, u, x, h, pos) && pos <= pos' < Pow2(cd.g)
      && i == Rev(pos', cd.g, LenAt(cd.c, cd.g, pos))
    requires h' <= h && Low(i, infos[u[h']].w) == x[h'] && forall q :: h' < q <= h ==> Low(i, infos[u[q]].w) != x[q]
    ensures BacksUp(cd, pool, infos, u, x, h, h', pos, pos')
  {
    forall q | h' <= q <= h
      ensures Low(i, infos[u[q]].w) == x[q] <==> Prefix(pos', cd.g, infos[u[q]].w) == Prefix(pos, cd.g, infos[u[q]].w)
    {
      OpenAt(cd, pool, infos, u, x, h, pos, q);
      SamePrefixTest(cd.g, pos, pos', infos[u[q]].w, LenAt(cd.c, cd.g, pos), i);
    }
  }

  lemma WidthSteps(cd: Code, pool: seq<seq<Huft>>, infos: seq<Info>, u: seq<nat>, x: seq<nat>, h: nat, pos: nat,
                   ws: seq<nat>)
    requires Entered(cd, pool, infos, u, x, h, pos) && ws == Widths(infos, u, h + 1)
    ensures ws[0] == 0 && x[0] == 0 && forall q :: 0 < q <= h ==> ws[q] == ws[q - 1] + cd.l
  {
    OpenAt(cd, pool, infos, u, x, h, pos, 0);
    forall q | 0 < q <= h
      ensures ws[q] == ws[q - 1] + cd.l
    {
      OpenAt(cd, pool, infos, u, x, h, pos, q);
    }
  }

  lemma RetreatBuilt(cd: Code, pool: seq<seq<Huft>>, infos: seq<Info>, u: seq<nat>, x: seq<nat>, h: nat, h': int,
                     w': int, q: nat, pos: nat, pos': nat, i: nat, ws: seq<nat>)
    requires Entered(cd, pool, infos, u, x, h, pos) && pos' == pos + Pow2(cd.g - LenAt(cd.c, cd.g, pos))
    requires i == Rev(pos', cd.g, LenAt(cd.c, cd.g, pos)) && ws == Widths(infos, u, h + 1) && q == u[h]
    requires 0 <= h' <= h && w' == ws[h'] && Low(i, ws[h']) == x[h'] && forall q :: h' < q <= h ==>
      Low(i, ws[q]) != x[q]
    ensures Built(cd, pool, infos, u, x, h', w', q, pos')
  {
    if pos' < Pow2(cd.g) {
      RetreatBacksUp(cd, pool, infos, u, x, h, h', pos, pos', i);
    }
    BackedUpBuilt(cd, pool, infos, u, x, h, h', w', q, pos, pos');
  }

  lemma NextReversed(cd: Code, pos: nat, pos': nat, k: nat)
    requires k <= cd.g && 0 < k && Low(pos, cd.g - k) == 0 && pos' == pos + Pow2(cd.g - k)
    ensures BackwardsIncrement(Rev(pos, cd.g, k), k) == Rev(pos', cd.g, k)
  {
    NextPrefix(pos, cd.g, k);
    ReverseCounts(pos, pos', cd.g, k);
  }

  /** Position `pos` is where code number `n` of the codes of `k` bits starts, and `i` is that code reversed. */
  ghost predicate AtCode(cd: Code, k: nat, n: nat, pos: nat, i: nat)
    requires ValidCode(cd) && 1 <= k <= cd.g
  {
    Low(pos, cd.g - k) == 0 && Prefix(pos, cd.g, k) == NextCode(cd.c, k) + n && i == Rev(pos, cd.g, k)
  }

  lemma AtNext(cd: Code, k: nat, n: nat, pos: nat, pos': nat, i: nat, i': nat)
    requires ValidCode(cd) && 1 <= k <= cd.g && AtCode(cd, k, n, pos, i) && n < cd.c[k]
    requires pos' == pos + Pow2(cd.g - k) && i' == Rev(pos', cd.g, k)
    ensures AtCode(cd, k, n + 1, pos', i')
  {
    NextPrefix(pos, cd.g, k);
  }

  lemma AtIs(cd: Code, k: nat, n: nat, pos: nat, i: nat)
    requires ValidCode(cd) && 1 <= k <= cd.g && AtCode(cd, k, n, pos, i) && n < cd.c[k]
    ensures pos < Pow2(cd.g) && LenAt(cd.c, cd.g, pos) == k && Low(pos, cd.g - k) == 0
    ensures EndCode(cd.c, k) == Prefix(pos, cd.g, k) + (cd.c[k] - n) && Ord(cd.c, cd.g, pos) == Base(cd.c, k) + n
  {
    CodeStart(cd.c, cd.g, pos, k);
  }

  lemma AtNextLength(cd: Code, k: nat, pos: nat, i: nat)
    requires ValidCode(cd) && 1 <= k <= cd.g && AtCode(cd, k, cd.c[k], pos, i)
    ensures if k < cd.g then AtCode(cd, k + 1, 0, pos, i) else pos == Pow2(cd.g)
  {
    if k < cd.g {
      NextLength(cd.c, cd.g, pos, k);
    }
  }

  lemma {:induction false} AtFirst(cd: Code, k: nat)
    requires ValidCode(cd) && 1 <= k <= cd.g && forall j :: 1 <= j < k ==> cd.c[j] == 0
    ensures AtCode(cd, k, 0, 0, 0) && Base(cd.c, k) == 0
    decreases k
  {
    ShrUnique(0, cd.g - k, 0, 0);
    if k > 1 {
      AtFirst(cd, k - 1);
      AtNextLength(cd, k - 1, 0, 0);
    } else {
      ShrUnique(0, cd.g, 0, 0);
      MidAligned(0, cd.g, 0, 1);
    }
  }

  ghost function Least(a: nat, b: nat): nat {
    if a < b then a else b
  }

  class Builder {
    const cd: Code
    var pool: seq<seq<Huft>>
    var u: seq<nat>
    var x: seq<nat>
    var h: int
    var w: int
    var i: nat
    var q: nat
    var z: nat
    ghost var infos: seq<Info>

    ghost predicate Valid(pos: nat)
      reads this
    {
      Built(cd, pool, infos, u, x, h, w, q, pos) && x[0] == 0 && (h >= 0 ==> z == |pool[q]|) && Snug(cd, infos)
    }

    constructor (cd: Code)
      requires ValidCode(cd)
      ensures Valid(0) && this.cd == cd && i == 0
    {
      this.cd := cd;
      pool, u, x := [], seq(16, i => 0), seq(17, i => 0);
      h, w, i, q, z := -1, 0 - cd.l, 0, 0, 0;
      infos := [];
    }

    /** Lines 423-469: a new table for the code `i` of `k` bits at `pos`; `a` more such codes follow. */
    method NewTable(k: nat, a: nat, ghost pos: nat)
      requires Valid(pos) && pos < Pow2(cd.g) && k == LenAt(cd.c, cd.g, pos) && k > w + cd.l
      requires i == Rev(pos, cd.g, k) && EndCode(cd.c, k) == Prefix(pos, cd.g, k) + a + 1
      modifies this
      ensures Valid(pos) && h == old(h) + 1 && w == old(w) + cd.l && i == old(i)
    {
      Aligned(cd, pool, infos, u, x, h, w, q, pos);
      var j := ChooseBits(cd, k, w + cd.l, a, pos);
      if h >= 0 {
        LinkInRange(cd, pool, infos, u, x, h, w, q, pos, i);
      }
      AddTable(j, pos);
      SnugMore(cd, old(infos), Info(h, w, j, Prefix(pos, cd.g, w), pos), infos);
      TableAddedBuilt(cd, old(pool), old(infos), old(u), old(x), old(h), old(w), old(q), i, pos, j, pool, infos, u, x,
        h, w, q);
    }

    /** Lines 423-424 and 442-469: the table is allocated and linked. */
    method AddTable(j: nat, ghost pos: nat)
      requires -1 <= h < 15 && |u| == 16 && |x| == 17 && 0 <= w + cd.l <= cd.g
      requires h >= 0 ==> w >= 0 && u[h] < |pool| && Shr(i, w) < |pool[u[h]]|
      modifies this
      ensures i == old(i) && q < |pool| && z == |pool[q]| && |x| == 17 && x[0] == old(x[0])
      ensures TableAdded(cd, old(pool), old(infos), old(u), old(x), old(h), old(w), i, pos, j, pool, infos, u, x, h, w,
        q)
    {
      h := h + 1;
      w := w + cd.l;
      z := Pow2(j);
      q := |pool|;
      u := u[h := q];
      if h != 0 {
        x := x[h := i];
        var idx := Shr(i, w - cd.l);
        pool := pool[u[h - 1] := pool[u[h - 1]][idx := Huft(16 + j, cd.l, q)]];
      }
      pool := pool + [Blanks(z)];
      infos := infos + [Info(h, w, j, Prefix(pos, cd.g, w), pos)];
    }

    /** Lines 497-506: on to the next code, which is at `pos'`. */
    method NextCode(k: nat, ghost pos: nat, ghost pos': nat)
      requires 0 <= h < 16 && Entered(cd, pool, infos, u, x, h, pos) && w == infos[u[h]].w && q == u[h]
        && z == |pool[q]| && Snug(cd, infos)
      requires k == LenAt(cd.c, cd.g, pos) && pos' == pos + Pow2(cd.g - k) && i == Rev(pos, cd.g, k)
      modifies this`h, this`w, this`i
      ensures Valid(pos') && i == Rev(pos', cd.g, k) && h >= 0
    {
      NextReversed(cd, pos, pos', k);
      i := Increment(i, k);
      ghost var h0, ws := h, Widths(infos, u, h + 1);
      WidthSteps(cd, pool, infos, u, x, h, pos, ws);
      h, w := Retreat(x, cd.l, i, h, w, ws);
      RetreatBuilt(cd, pool, infos, u, x, h0, h, w, q, pos, pos', i, ws);
    }

    /** Lines 475-494: the entries for the code `i` of `k` bits at `pos`, which means `e`, `v`. */
    method EnterEntries(k: nat, e: nat, v: nat, ghost pos: nat)
      requires h >= 0 && Valid(pos) && pos < Pow2(cd.g) && k == LenAt(cd.c, cd.g, pos) && k <= w + cd.l
        && Low(pos, cd.g - k) == 0
      requires i == Rev(pos, cd.g, k) && Carries(cd, Ord(cd.c, cd.g, pos), Huft(e, 0, v))
      modifies this`pool
      ensures Entered(cd, pool, infos, u, x, h, pos) && w == infos[u[h]].w && q == u[h] && z == |pool[q]|
    {
      FillHere(cd, pool, infos, u, x, h, w, q, pos, k, i);
      var r := Huft(e, k - w, v);
      var tab := Fill(pool[q], i, w, k, z, r);
      ghost var pool0 := pool;
      pool := pool[q := tab];
      FillEntered(cd, pool0, infos, u, x, h, w, q, pos, k, r, pool);
    }

    /** Lines 420-471: tables up to the level of the code at `pos`. */
    method MakeTables(k: nat, a: nat, ghost pos: nat)
      requires Valid(pos) && pos < Pow2(cd.g) && k == LenAt(cd.c, cd.g, pos)
      requires i == Rev(pos, cd.g, k) && EndCode(cd.c, k) == Prefix(pos, cd.g, k) + a + 1
      modifies this
      ensures Valid(pos) && k <= w + cd.l && i == old(i) && h >= 0
    {
      while k > w + cd.l
        invariant Valid(pos) && i == old(i)
        decreases k - w
      {
        NewTable(k, a, pos);
      }
    }

    /** Lines 418-508: one code, with `a` more of the same length to follow. */
    method EnterCode(k: nat, a: nat, e: nat, v: nat, ghost pos: nat, ghost pos': nat)
      requires Valid(pos) && pos < Pow2(cd.g) && k == LenAt(cd.c, cd.g, pos) && Low(pos, cd.g - k) == 0
      requires i == Rev(pos, cd.g, k) && EndCode(cd.c, k) == Prefix(pos, cd.g, k) + a + 1
      requires Carries(cd, Ord(cd.c, cd.g, pos), Huft(e, 0, v)) && pos' == pos + Pow2(cd.g - k)
      modifies this
      ensures Valid(pos') && i == Rev(pos', cd.g, k) && h >= 0
    {
      MakeTables(k, a, pos);
      EnterEntries(k, e, v, pos);
      NextCode(k, pos, pos');
    }

    /** Lines 475-488: what the next symbol in code order means; `r` keeps the value of the last one. */
    method SymbolEntry(p: nat, r: Huft) returns (p': nat, r': Huft)
      requires ValidCode(cd) && p <= |cd.v|
      ensures Carries(cd, p, r') && p' == if p < |cd.v| then p + 1 else p
    {
      p' := p;
      if p >= |cd.v| {
        r' := r.(e := INVALID_CODE);
      } else if cd.v[p] < cd.s {
        r' := r.(e := if cd.v[p] < 256 then 16 else 15, v := cd.v[p]);
        p' := p + 1;
      } else {
        r' := r.(e := cd.e[cd.v[p] - cd.s], v := cd.d[cd.v[p] - cd.s]);
        p' := p + 1;
      }
    }

    /** Lines 415-508 for code number `n` of the codes of `k` bits, with `a` more to follow. */
    method EnterNth(k: nat, a: nat, p: nat, r: Huft, ghost n: nat, ghost pos: nat)
      returns (p': nat, r': Huft, ghost pos': nat)
      requires Valid(pos) && 1 <= k <= cd.g && AtCode(cd, k, n, pos, i) && cd.c[k] == n + a + 1
      requires p == Least(Base(cd.c, k) + n, |cd.v|)
      modifies this
      ensures Valid(pos') && AtCode(cd, k, n + 1, pos', i) && h >= 0 && p' == Least(Base(cd.c, k) + n + 1, |cd.v|)
    {
      AtIs(cd, k, n, pos, i);
      p', r' := SymbolEntry(p, r);
      pos' := pos + Pow2(cd.g - k);
      EnterCode(k, a, r'.e, r'.v, pos, pos');
      AtNext(cd, k, n, pos, pos', old(i), i);
    }

    /** Lines 413-509: all codes of `k` bits, of which the first is at `pos`. */
    method EnterLength(k: nat, p: nat, r: Huft, ghost pos: nat) returns (p': nat, r': Huft, ghost pos': nat)
      requires Valid(pos) && 1 <= k <= cd.g && AtCode(cd, k, 0, pos, i) && p == Least(Base(cd.c, k), |cd.v|)
      modifies this
      ensures Valid(pos') && AtCode(cd, k, cd.c[k], pos', i) && p' == Least(Base(cd.c, k) + cd.c[k], |cd.v|)
      ensures cd.c[k] > 0 ==> h >= 0
    {
      var a := cd.c[k];
      ghost var n := 0;
      p', r', pos' := p, r, pos;
      while a > 0
        invariant n + a == cd.c[k] && Valid(pos') && AtCode(cd, k, n, pos', i)
        invariant p' == Least(Base(cd.c, k) + n, |cd.v|)
        invariant n > 0 ==> h >= 0
      {
        a := a - 1;
        p', r', pos' := EnterNth(k, a, p', r', n, pos');
        n := n + 1;
      }
    }

    /** Lines 411-510, from the shortest length `kmin` on: all codes. */
    method Run(kmin: nat)
      requires Valid(0) && i == 0 && 1 <= kmin <= cd.g && forall j :: 1 <= j < kmin ==> cd.c[j] == 0
      modifies this
      ensures Valid(Pow2(cd.g)) && h >= 0
    {
      AtFirst(cd, kmin);
      var k, p, r := kmin, 0, BLANK;
      ghost var pos := 0;
      while k <= cd.g
        invariant 1 <= k <= cd.g + 1 && Valid(pos)
        invariant if k <= cd.g then AtCode(cd, k, 0, pos, i) && p == Least(Base(cd.c, k), |cd.v|)
          else pos == Pow2(cd.g) && h >= 0
      {
        p, r, pos := EnterLength(k, p, r, pos);
        AtNextLength(cd, k, pos, i);
        k := k + 1;
      }
    }
  }
}
