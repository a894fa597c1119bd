/** What one new table, and one new code, do to tables that are good so far. */
module HuftSteps {
  import opened Bits
  import opened HuffmanCode
  import opened HuftTables

  const BLANK: Huft := Huft(0, 0, 0)

  function Blanks(n: nat): (tab: seq<Huft>)
    ensures |tab| == n && forall i :: 0 <= i < n ==> tab[i] == BLANK
  {
    seq(n, i => BLANK)
  }

  /** A table stays good for `x` as long as its entry for `x` stays. */
  lemma GoodKept(cd: Code, pool: seq<seq<Huft>>, infos: seq<Info>, pool': seq<seq<Huft>>, infos': seq<Info>, t: nat,
                 x: nat)
    requires ValidCode(cd) && Shaped(cd, pool, infos) && Shaped(cd, pool', infos') && infos <= infos' && t < |pool|
    requires Good(cd, pool, infos, t, x)
    requires var idx := Mid(x, cd.g, infos[t].w, infos[t].w + infos[t].bits);
      idx < |pool'[t]| && pool'[t][idx] == pool[t][idx]
    ensures Good(cd, pool', infos', t, x)
  {
  }

  /** The code at `pos` is linked to a new table from `parent`, at index `idx`. */
  ghost predicate LinkedIn(cd: Code, pool: seq<seq<Huft>>, infos: seq<Info>, pool': seq<seq<Huft>>, infos': seq<Info>,
                           parent: nat, idx: nat, en: Huft, it: Info, blank: seq<Huft>, pos: nat)
    requires ValidCode(cd) && Shaped(cd, pool, infos)
  {
    && parent < |pool| && infos[parent].bits >= cd.l && idx < |pool[parent]|
    && it.w == infos[parent].w + cd.l && it.w + it.bits <= cd.g && |blank| == Pow2(it.bits)
    && Low(pos, cd.g - it.w) == 0 && it.p == Prefix(pos, cd.g, it.w)
    && infos[parent].p == Prefix(pos, cd.g, infos[parent].w) && idx == Mid(pos, cd.g, infos[parent].w, it.w)
    && pool' == pool[parent := pool[parent][idx := en]] + [blank] && infos' == infos + [it]
  }

  lemma NewTableGoodAt(cd: Code, pool: seq<seq<Huft>>, infos: seq<Info>, pool': seq<seq<Huft>>, infos': seq<Info>,
                       parent: nat, idx: nat, en: Huft, it: Info, blank: seq<Huft>, pos: nat, t: nat, x: nat)
    requires ValidCode(cd) && Shaped(cd, pool, infos) && Shaped(cd, pool', infos') && pos < Pow2(cd.g)
    requires LinkedIn(cd, pool, infos, pool', infos', parent, idx, en, it, blank, pos)
    requires t < |pool| && infos[t].bits <= cd.l && Member(cd, infos[t], x) && x < pos && Good(cd, pool, infos, t, x)
    ensures Good(cd, pool', infos', t, x)
  {
    if t == parent && Mid(x, cd.g, infos[t].w, it.w) == idx {
      PrefixExtends(x, pos, cd.g, infos[t].w, it.w);
      LeastWithPrefix(pos, x, cd.g, it.w);
    }
    GoodKept(cd, pool, infos, pool', infos', t, x);
  }

  /** Linking a new table in at the current code leaves the tables good for all patterns before it. */
  lemma NewTableGood(cd: Code, pool: seq<seq<Huft>>, infos: seq<Info>, pool': seq<seq<Huft>>, infos': seq<Info>,
                     parent: nat, idx: nat, en: Huft, it: Info, blank: seq<Huft>, pos: nat)
    requires ValidCode(cd) && Shaped(cd, pool, infos) && GoodBelow(cd, pool, infos, pos) && pos < Pow2(cd.g)
    requires LinkedIn(cd, pool, infos, pool', infos', parent, idx, en, it, blank, pos)
    ensures Shaped(cd, pool', infos') && GoodBelow(cd, pool', infos', pos)
  {
    forall t: nat, x: nat | t < |pool'| && infos'[t].bits <= cd.l && Member(cd, infos'[t], x) && x < pos
      ensures Good(cd, pool', infos', t, x)
    {
      if t == |pool| {
        LeastWithPrefix(pos, x, cd.g, it.w);
      } else {
        assert Good(cd, pool, infos, t, x);
        NewTableGoodAt(cd, pool, infos, pool', infos', parent, idx, en, it, blank, pos, t, x);
      }
    }
  }

  lemma GoodByLink(cd: Code, pool: seq<seq<Huft>>, infos: seq<Info>, t: nat, x: nat, t': nat)
    requires ValidCode(cd) && Shaped(cd, pool, infos) && t < t' < |pool|
    requires infos[t].bits == cd.l && LenAt(cd.c, cd.g, x) > infos[t].w + cd.l
    requires 0 < infos[t'].bits <= 16 && infos[t'].w == infos[t].w + cd.l && infos[t'].p == Prefix(x, cd.g, infos[t'].w)
    requires var idx := Mid(x, cd.g, infos[t].w, infos[t].w + cd.l);
      idx < |pool[t]| && pool[t][idx] == Huft(16 + infos[t'].bits, cd.l, t')
    ensures Good(cd, pool, infos, t, x)
  {
  }

  /** The table `tab` with `r` at every index whose low `m` bits are `j`. */
  ghost predicate Filled(tab: seq<Huft>, tab': seq<Huft>, j: nat, m: nat, r: Huft) {
    && |tab'| == |tab|
    && forall i :: 0 <= i < |tab| ==> tab'[i] == if Low(i, m) == j then r else tab[i]
  }

  /** Filling in the entries for the code at `pos` makes its table good for that code too. */
  lemma FillGoodHere(cd: Code, pool: seq<seq<Huft>>, infos: seq<Info>, pool': seq<seq<Huft>>,
                     q: nat, k: nat, pos: nat, r: Huft, t: nat, x: nat)
    requires ValidCode(cd) && Shaped(cd, pool, infos) && q < |pool| && pos < Pow2(cd.g)
    requires k == LenAt(cd.c, cd.g, pos) && infos[q].w < k <= infos[q].w + infos[q].bits && Low(pos, cd.g - k) == 0
    requires r.b == k - infos[q].w && Carries(cd, Ord(cd.c, cd.g, pos), r)
    requires |pool'| == |pool| && Filled(pool[q], pool'[q], Mid(pos, cd.g, infos[q].w, k), k - infos[q].w, r)
    requires forall i :: 0 <= i < |pool| && i != q ==> pool'[i] == pool[i]
    requires t < |pool| && Member(cd, infos[t], x)
    requires t == q && infos[q].p == Prefix(pos, cd.g, infos[q].w)
    requires x < pos ==> Good(cd, pool, infos, t, x)
    requires x < pos || Prefix(x, cd.g, k) == Prefix(pos, cd.g, k)
    ensures Shaped(cd, pool', infos) && Good(cd, pool', infos, t, x)
  {
    var it := infos[q];
    var idx := Mid(x, cd.g, it.w, it.w + it.bits);
    MidBound(x, cd.g, it.w, it.w + it.bits);
    MidSplit(x, cd.g, it.w, k, it.w + it.bits);
    PrefixExtends(x, pos, cd.g, it.w, k);
    assert Low(idx, k - it.w) == Mid(x, cd.g, it.w, k);
    if Prefix(x, cd.g, k) == Prefix(pos, cd.g, k) {
      SameCode(cd.c, cd.g, pos, x);
    } else {
      assert pool'[q][idx] == pool[q][idx];
    }
  }
}
