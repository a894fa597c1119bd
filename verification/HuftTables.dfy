/** The linked decoding tables of lib/inflate.c and what it means for them to decode a code. */
module HuftTables {
  import opened Bits
  import opened HuffmanCode

  /** `struct huft`: operation or number of extra bits, bits to drop, and a value or the number of a table. */
  datatype Huft = Huft(e: nat, b: nat, v: nat)

  const INVALID_CODE: nat := 99

  /**
    A set of codes to be decoded: `c[k]` codes of `k` bits, at most `g` bits; `v` the symbols in
    code order (codes beyond `v` are not assigned); `s`, `d`, `e` say what the symbols mean, and
    `l` is the number of bits the first table looks up.
   */
  datatype Code = Code(c: seq<nat>, g: nat, l: nat, v: seq<nat>, s: nat, d: seq<nat>, e: seq<nat>)

  /** What a table entry says for symbol `sym`, given `s` simple symbols and the lists for the others. */
  function MeaningOf(s: nat, d: seq<nat>, e: seq<nat>, sym: nat): (nat, nat)
    requires sym < s || (sym - s < |d| && sym - s < |e|)
  {
    if sym < s then (if sym < 256 then 16 else 15, sym) else (e[sym - s], d[sym - s])
  }

  function Meaning(cd: Code, sym: nat): (nat, nat)
    requires sym < cd.s || (sym - cd.s < |cd.d| && sym - cd.s < |cd.e|)
  {
    MeaningOf(cd.s, cd.d, cd.e, sym)
  }

  ghost predicate ValidCode(cd: Code) {
    && Counts(cd.c, cd.g) && cd.g <= 16 && 1 <= cd.l <= cd.g
    && LenAt(cd.c, cd.g, 0) <= cd.l && cd.c[cd.g] > 0
    && forall i :: 0 <= i < |cd.v| ==> cd.v[i] < cd.s || (cd.v[i] - cd.s < |cd.d| && cd.v[i] - cd.s < |cd.e|)
  }

  /** The entry `en` carries the meaning of code number `ord`. */
  ghost predicate Carries(cd: Code, ord: int, en: Huft)
    requires ValidCode(cd)
  {
    if 0 <= ord < |cd.v| then (en.e, en.v) == Meaning(cd, cd.v[ord]) else en.e == INVALID_CODE
  }

  /**
    Where a table stands: its level, the bits decoded before it, the bits it looks up, its code
    prefix, and the first pattern with that prefix.
   */
  datatype Info = Info(level: nat, w: nat, bits: nat, p: nat, first: nat)

  ghost predicate Member(cd: Code, it: Info, x: nat)
    requires ValidCode(cd) && it.w <= cd.g
  {
    x < Pow2(cd.g) && Prefix(x, cd.g, it.w) == it.p
  }

  ghost predicate Shaped(cd: Code, pool: seq<seq<Huft>>, infos: seq<Info>) {
    && |pool| == |infos|
    && forall t :: 0 <= t < |pool| ==> && infos[t].w + infos[t].bits <= cd.g
                                       && |pool[t]| == Pow2(infos[t].bits)
  }

  /** The entry of table `t` for the pattern `x` decodes the code at the head of `x`, or leads on to the right table. */
  ghost predicate Good(cd: Code, pool: seq<seq<Huft>>, infos: seq<Info>, t: nat, x: nat)
    requires ValidCode(cd) && Shaped(cd, pool, infos) && t < |pool|
  {
    var it := infos[t];
    var idx := Mid(x, cd.g, it.w, it.w + it.bits);
    var k := LenAt(cd.c, cd.g, x);
    && idx < |pool[t]|
    && var en := pool[t][idx];
       if k <= it.w + it.bits then
         it.w < k && en.b == k - it.w && Carries(cd, Ord(cd.c, cd.g, x), en)
       else
         LinksTo(cd, infos, t, x, en)
  }

  ghost predicate LinksTo(cd: Code, infos: seq<Info>, t: nat, x: nat, en: Huft)
    requires t < |infos|
  {
    && t < en.v < |infos|
    && var it, it' := infos[t], infos[en.v];
       && it.bits == cd.l && en.b == cd.l && en.e == 16 + it'.bits && 0 < it'.bits <= 16
       && it'.w == it.w + cd.l && it'.w <= cd.g && it'.p == Prefix(x, cd.g, it'.w)
  }

  /** Every table that looks up at most `l` bits is good for the patterns below `pos`. */
  ghost predicate GoodBelow(cd: Code, pool: seq<seq<Huft>>, infos: seq<Info>, pos: nat)
    requires ValidCode(cd) && Shaped(cd, pool, infos)
  {
    forall t: nat, x: nat {:trigger Good(cd, pool, infos, t, x)} ::
      t < |pool| && infos[t].bits <= cd.l && Member(cd, infos[t], x) && x < pos
      ==> Good(cd, pool, infos, t, x)
  }

  // ---------------------------------------------------------------- looking up a code

  datatype Outcome = Found(en: Huft, used: nat) | Invalid | Stuck

  /**
    The table walk: from table `t`, which looks up `bits` bits, with `used` bits of the input `s`
    dropped. It is stuck at an entry that is neither a code nor a link to a table of at most 16 bits.
   */
  function Walk(pool: seq<seq<Huft>>, t: nat, bits: nat, s: nat, used: nat): (out: Outcome)
    requires t < |pool|
    ensures out.Found? ==> out.en.e <= 16
    decreases |pool| - t
  {
    var idx := Low(Shr(s, used), bits);
    if idx >= |pool[t]| then Stuck
    else
      var en := pool[t][idx];
      if en.e == INVALID_CODE then Invalid
      else if en.b > bits then Stuck
      else if en.e <= 16 then Found(en, used + en.b)
      else if t < en.v < |pool| && en.e <= 32 then Walk(pool, en.v, en.e - 16, s, used + en.b)
      else Stuck
  }

  /** The walk on input `s` finds the code at the head of the pattern `x`. */
  ghost predicate Decodes(cd: Code, out: Outcome, x: nat)
    requires ValidCode(cd)
  {
    var ord := Ord(cd.c, cd.g, x);
    if 0 <= ord < |cd.v| && Meaning(cd, cd.v[ord]).0 != INVALID_CODE then
      && out.Found? && out.used == LenAt(cd.c, cd.g, x)
      && (out.en.e, out.en.v) == Meaning(cd, cd.v[ord])
    else out.Invalid?
  }

  /** The operations that symbols may have: a number of extra bits, end of block, literal, or invalid. */
  ghost predicate ProperOps(cd: Code) {
    forall i :: 0 <= i < |cd.e| ==> cd.e[i] <= 16 || cd.e[i] == INVALID_CODE
  }
}
