/**
  `inflate_codes` of lib/inflate.c: a compressed block, read through the bit buffer, decoded with
  the tables of `huft_build` and written to the sliding window. The specification `Block` knows
  neither buffer nor window: it reads a number bit by bit and appends to an unbounded history.
 */
module InflateCodes {
  import opened Bits
  import opened Common
  import opened HuftTables
  import opened HuftNeed
  import opened InflateWindow
  import opened InflateBits

  datatype Lookup = Hit(en: Huft) | Miss | Short

  /** The walk and its needs from table `t` on are those from the start. */
  ghost predicate Underway(pool: seq<seq<Huft>>, bits: nat, s: nat, a: nat, t: nat, n: nat, used: nat)
    requires |pool| > 0
  {
    && t < |pool| && n <= 16 && used <= a
    && Walk(pool, t, n, s, used) == Walk(pool, 0, bits, s, 0) && !Walk(pool, t, n, s, used).Stuck?
    && (WalkNeed(pool, t, n, s, used) > a <==> WalkNeed(pool, 0, bits, s, 0) > a)
  }

  lemma FollowLink(pool: seq<seq<Huft>>, bits: nat, s: nat, a: nat, t: nat, n: nat, used: nat, t': nat, n': nat,
                   used': nat)
    requires |pool| > 0 && Underway(pool, bits, s, a, t, n, used) && used + n <= a
    requires Low(Shr(s, used), n) < |pool[t]|
    requires var en := pool[t][Low(Shr(s, used), n)];
      en.e != INVALID_CODE && en.e > 16 && t' == en.v && n' == en.e - 16 && used' == used + en.b
    ensures Underway(pool, bits, s, a, t', n', used') && t < t'
  {
    WalkOn(pool, t, n, s, used);
    NeedOn(pool, t, n, s, used);
  }

  lemma WalkOn(pool: seq<seq<Huft>>, t: nat, n: nat, s: nat, used: nat)
    requires t < |pool| && Low(Shr(s, used), n) < |pool[t]| && !Walk(pool, t, n, s, used).Stuck?
    ensures var en := pool[t][Low(Shr(s, used), n)];
      en.e != INVALID_CODE && en.e > 16 ==>
        en.b <= n && t < en.v < |pool| && en.e <= 32
        && Walk(pool, t, n, s, used) == Walk(pool, en.v, en.e - 16, s, used + en.b)
  {
  }

  lemma NeedOn(pool: seq<seq<Huft>>, t: nat, n: nat, s: nat, used: nat)
    requires t < |pool| && Low(Shr(s, used), n) < |pool[t]|
    ensures var en := pool[t][Low(Shr(s, used), n)];
      en.e != INVALID_CODE && 16 < en.e <= 32 && en.b <= n && t < en.v < |pool| ==>
        var m := WalkNeed(pool, en.v, en.e - 16, s, used + en.b);
          WalkNeed(pool, t, n, s, used) == if m > used + n then m else used + n
  {
  }

  /** What the entry found says about the whole walk. */
  lemma Arrive(pool: seq<seq<Huft>>, bits: nat, s: nat, a: nat, t: nat, n: nat, used: nat)
    requires |pool| > 0 && Underway(pool, bits, s, a, t, n, used)
    ensures used + n > a ==> WalkNeed(pool, 0, bits, s, 0) > a
    ensures Low(Shr(s, used), n) < |pool[t]|
    ensures used + n <= a ==>
      var en, out := pool[t][Low(Shr(s, used), n)], Walk(pool, 0, bits, s, 0);
      if en.e == INVALID_CODE then out.Invalid? && WalkNeed(pool, 0, bits, s, 0) <= a
      else en.b <= n && (en.e <= 16 ==> out == Found(en, used + en.b) && WalkNeed(pool, 0, bits, s, 0) <= a)
  {
  }

  method DropMore(rd: BitReader, ghost s: nat, ghost used: nat, n: nat)
    requires rd.Valid() && n <= rd.k && rd.Stream() == Shr(s, used)
    modifies rd
    ensures rd.Valid() && rd.Stream() == Shr(s, used + n) && rd.Avail() == old(rd.Avail()) - n
  {
    ShrShr(s, used, n);
    rd.Drop(n);
  }

  /** What a lookup says about the input `s` of `a` bits, and what it leaves of it. */
  ghost predicate LookupIs(pool: seq<seq<Huft>>, bits: nat, s: nat, a: nat, r: Lookup, rest: nat, left: nat)
    requires |pool| > 0
  {
    var out := Walk(pool, 0, bits, s, 0);
    && (r.Short? <==> WalkNeed(pool, 0, bits, s, 0) > a)
    && (r.Miss? ==> out.Invalid?)
    && (r.Hit? ==> out.Found? && out.en == r.en && rest == Shr(s, out.used) && left == a - out.used)
  }

  /** One round of lines 574-583: the table `t` of `n` bits is looked up. */
  method Look(rd: BitReader, pool: seq<seq<Huft>>, t: nat, n: nat, ghost bits: nat, ghost s: nat, ghost a: nat,
              ghost used: nat)
    returns (r: Lookup, more: bool, t': nat, n': nat, ghost used': nat)
    requires rd.Valid() && |pool| > 0 && Underway(pool, bits, s, a, t, n, used) && rd.Stream() == Shr(s, used)
      && rd.Avail() == a - used
    modifies rd
    ensures rd.Valid()
    ensures more ==>
      t < t' && Underway(pool, bits, s, a, t', n', used') && rd.Stream() == Shr(s, used') && rd.Avail() == a - used'
    ensures !more ==> LookupIs(pool, bits, s, a, r, rd.Stream(), rd.Avail())
  {
    Arrive(pool, bits, s, a, t, n, used);
    more, t', n', used' := false, t, n, used;
    var ok := rd.Need(n);
    if !ok {
      r := Short;
      return;
    }
    var idx := rd.Peek(n);
    var en := pool[t][idx];
    if en.e == INVALID_CODE {
      r := Miss;
      return;
    }
    DropMore(rd, s, used, en.b);
    r := Hit(en);
    if en.e > 16 {
      more, t', n', used' := true, en.v, en.e - 16, used + en.b;
      FollowLink(pool, bits, s, a, t, n, used, t', n', used');
    }
  }

  /** Lines 574-583 and 606-615: a code, through the tables. */
  method Decode(rd: BitReader, pool: seq<seq<Huft>>, bits: nat) returns (r: Lookup)
    requires rd.Valid() && |pool| > 0 && bits <= 16 && !Walk(pool, 0, bits, rd.Stream(), 0).Stuck?
    modifies rd
    ensures rd.Valid() && LookupIs(pool, bits, old(rd.Stream()), old(rd.Avail()), r, rd.Stream(), rd.Avail())
  {
    ghost var s, a := rd.Stream(), rd.Avail();
    ghost var used: nat := 0;
    var t: nat, n: nat, more := 0, bits, true;
    r := Short;
    assert Shr(s, 0) == s;
    while more
      invariant rd.Valid()
      invariant if more then
        Underway(pool, bits, s, a, t, n, used) && rd.Stream() == Shr(s, used) && rd.Avail() == a - used
        else LookupIs(pool, bits, s, a, r, rd.Stream(), rd.Avail())
      decreases more, |pool| - t
    {
      r, more, t, n, used := Look(rd, pool, t, n, bits, s, a, used);
    }
  }

  // ---------------------------------------------------------------- blocks

  datatype BlockResult = Ended(past: seq<byte>, s: nat, avail: nat) | BadCode | Underrun | TooFar

  /** A lookup in the literal and length tables does not lead astray, uses up bits, and finds no empty copy. */
  ghost predicate LengthFine(tl: seq<seq<Huft>>, bl: nat, s: nat)
    requires |tl| > 0
  {
    var out := Walk(tl, 0, bl, s, 0);
    !out.Stuck? && (out.Found? ==> out.used > 0 && (out.en.e < 15 ==> out.en.v > 0))
  }

  ghost predicate LengthTables(tl: seq<seq<Huft>>, bl: nat) {
    |tl| > 0 && bl <= 16 && forall s: nat :: LengthFine(tl, bl, s)
  }

  /** A lookup in the distance tables does not lead astray and finds distances inside the window. */
  ghost predicate DistanceFine(td: seq<seq<Huft>>, bd: nat, s: nat)
    requires |td| > 0
  {
    var out := Walk(td, 0, bd, s, 0);
    !out.Stuck? && (out.Found? ==> out.en.e <= 13 && 1 <= out.en.v && out.en.v + Pow2(out.en.e) <= WSIZE + 1)
  }

  ghost predicate DistanceTables(td: seq<seq<Huft>>, bd: nat) {
    |td| > 0 && bd <= 16 && forall s: nat :: DistanceFine(td, bd, s)
  }

  ghost function Block(tl: seq<seq<Huft>>, bl: nat, td: seq<seq<Huft>>, bd: nat, past: seq<byte>, s: nat,
                       a: nat): BlockResult
    requires LengthTables(tl, bl) && DistanceTables(td, bd) && |past| >= WSIZE
    decreases a, 0
  {
    if WalkNeed(tl, 0, bl, s, 0) > a then Underrun
    else
      assert LengthFine(tl, bl, s);
      NeedCovers(tl, 0, bl, s, 0);
      match Walk(tl, 0, bl, s, 0)
      case Found(en, used) =>
        if en.e == 16 then Block(tl, bl, td, bd, past + [en.v % 256], Shr(s, used), a - used)
        else if en.e == 15 then Ended(past, Shr(s, used), a - used)
        else Copying(tl, bl, td, bd, past, en, Shr(s, used), a - used)
      case _ => BadCode
  }

  /** The rest of a block from the extra bits of the length entry `en` on. */
  ghost function Copying(tl: seq<seq<Huft>>, bl: nat, td: seq<seq<Huft>>, bd: nat, past: seq<byte>, en: Huft, s: nat,
                         a: nat): BlockResult
    requires LengthTables(tl, bl) && DistanceTables(td, bd) && |past| >= WSIZE
    decreases a, 1
  {
    if en.e > a then Underrun
    else
      var n, s2, a2 := en.v + Low(s, en.e), Shr(s, en.e), a - en.e;
      if WalkNeed(td, 0, bd, s2, 0) > a2 then Underrun
      else
        assert DistanceFine(td, bd, s2);
        NeedCovers(td, 0, bd, s2, 0);
        match Walk(td, 0, bd, s2, 0)
        case Found(en', used) =>
          var s3, a3 := Shr(s2, used), a2 - used;
          if en'.e > a3 then Underrun
          else
            LowBound(s3, en'.e);
            Block(tl, bl, td, bd, CopyBack(past, en'.v + Low(s3, en'.e), n), Shr(s3, en'.e), a3 - en'.e)
        case _ => BadCode
  }

  lemma CopyingIs(tl: seq<seq<Huft>>, bl: nat, td: seq<seq<Huft>>, bd: nat, past: seq<byte>, en: Huft, s: nat, a: nat,
                  en': Huft, used: nat, s3: nat, a3: nat, dist: nat, n: nat, s4: nat, a4: nat, past': seq<byte>)
    requires LengthTables(tl, bl) && DistanceTables(td, bd) && |past| >= WSIZE && en.e <= a
    requires n == en.v + Low(s, en.e) && WalkNeed(td, 0, bd, Shr(s, en.e), 0) <= a - en.e
    requires Walk(td, 0, bd, Shr(s, en.e), 0) == Found(en', used) && s3 == Shr(Shr(s, en.e), used)
      && a3 == a - en.e - used
    requires en'.e <= a3 && dist == en'.v + Low(s3, en'.e) && s4 == Shr(s3, en'.e) && a4 == a3 - en'.e
    requires 1 <= dist <= WSIZE && past' == CopyBack(past, dist, n)
    ensures Copying(tl, bl, td, bd, past, en, s, a) == Block(tl, bl, td, bd, past', s4, a4)
  {
  }

  lemma DistanceRange(td: seq<seq<Huft>>, bd: nat, s: nat, s': nat)
    requires DistanceTables(td, bd) && Walk(td, 0, bd, s, 0).Found?
    ensures var en := Walk(td, 0, bd, s, 0).en; en.e <= 13 && 1 <= en.v + Low(s', en.e) <= WSIZE
  {
    assert DistanceFine(td, bd, s);
    LowBound(s', Walk(td, 0, bd, s, 0).en.e);
  }

  /** Lines 601-642: a length and a distance, and the copy they ask for. */
  method Repeat(rd: BitReader, win: Window, en: Huft, td: seq<seq<Huft>>, bd: nat, ghost tl: seq<seq<Huft>>,
                ghost bl: nat)
    returns (ret: nat)
    requires rd.Valid() && win.Valid() && LengthTables(tl, bl) && DistanceTables(td, bd) && en.e < 15 && en.v > 0
    modifies rd, win, win.slide
    ensures rd.Valid() && win.Valid() && ret in {0, 1, 4} && (ret == 0 ==> rd.Avail() <= old(rd.Avail()))
    ensures Copying(tl, bl, td, bd, old(win.past), en, old(rd.Stream()), old(rd.Avail()))
         == if ret == 0 then Block(tl, bl, td, bd, win.past, rd.Stream(), rd.Avail()) else if ret == 1 then BadCode
           else Underrun
  {
    ghost var past, s, a := win.past, rd.Stream(), rd.Avail();
    var ok, x := rd.Take(en.e);
    if !ok {
      return 4;
    }
    assert DistanceFine(td, bd, rd.Stream());
    var r := Decode(rd, td, bd);
    if r.Short? {
      return 4;
    } else if r.Miss? {
      return 1;
    }
    ghost var s3, a3 := rd.Stream(), rd.Avail();
    DistanceRange(td, bd, Shr(s, en.e), s3);
    ok, ret := rd.Take(r.en.e);
    if !ok {
      return 4;
    }
    var dist, n := r.en.v + ret, en.v + x;
    win.Copy(dist, n);
    CopyingIs(tl, bl, td, bd, past, en, s, a, r.en, Walk(td, 0, bd, Shr(s, en.e), 0).used, s3, a3, dist, n,
      rd.Stream(), rd.Avail(), win.past);
    return 0;
  }

  lemma BlockIs(tl: seq<seq<Huft>>, bl: nat, td: seq<seq<Huft>>, bd: nat, past: seq<byte>, s: nat, a: nat, en: Huft,
                used: nat, s1: nat, a1: nat)
    requires LengthTables(tl, bl) && DistanceTables(td, bd) && |past| >= WSIZE
    requires WalkNeed(tl, 0, bl, s, 0) <= a && Walk(tl, 0, bl, s, 0) == Found(en, used) && s1 == Shr(s, used)
      && a1 == a - used
    ensures a1 < a && (en.e < 15 ==> en.v > 0)
    ensures Block(tl, bl, td, bd, past, s, a)
         == if en.e == 16 then Block(tl, bl, td, bd, past + [en.v % 256], s1, a1)
            else if en.e == 15 then Ended(past, s1, a1)
            else Copying(tl, bl, td, bd, past, en, s1, a1)
  {
    assert LengthFine(tl, bl, s);
  }

  /** What a step of the loop of `inflate_codes` leads to. */
  datatype Step = Next | Stop | Fail(code: nat)

  /** Lines 574-643: one symbol of the block. */
  method Symbol(rd: BitReader, win: Window, tl: seq<seq<Huft>>, td: seq<seq<Huft>>, bl: nat, bd: nat) returns (st: Step)
    requires rd.Valid() && win.Valid() && LengthTables(tl, bl) && DistanceTables(td, bd)
    modifies rd, win, win.slide
    ensures rd.Valid() && win.Valid() && (st.Next? ==> rd.Avail() < old(rd.Avail()))
    ensures Block(tl, bl, td, bd, old(win.past), old(rd.Stream()), old(rd.Avail()))
         == match st
            case Next => Block(tl, bl, td, bd, win.past, rd.Stream(), rd.Avail())
            case Stop => Ended(win.past, rd.Stream(), rd.Avail())
            case Fail(code) => if code == 1 then BadCode else Underrun
    ensures st.Fail? ==> st.code == 1 || st.code == 4
  {
    ghost var past, s, a := win.past, rd.Stream(), rd.Avail();
    assert LengthFine(tl, bl, rd.Stream());
    var r := Decode(rd, tl, bl);
    if r.Short? {
      return Fail(4);
    } else if r.Miss? {
      return Fail(1);
    }
    BlockIs(tl, bl, td, bd, past, s, a, r.en, Walk(tl, 0, bl, s, 0).used, rd.Stream(), rd.Avail());
    if r.en.e == 16 {
      win.Put(r.en.v % 256);
      return Next;
    } else if r.en.e == 15 {
      return Stop;
    } else {
      var c := Repeat(rd, win, r.en, td, bd, tl, bl);
      return if c == 0 then Next else Fail(c);
    }
  }

  /** `inflate_codes`, lines 546-657. */
  method InflateBlock(rd: BitReader, win: Window, tl: seq<seq<Huft>>, td: seq<seq<Huft>>, bl: nat, bd: nat)
    returns (ret: nat)
    requires rd.Valid() && win.Valid() && LengthTables(tl, bl) && DistanceTables(td, bd)
    modifies rd, win, win.slide
    ensures rd.Valid() && win.Valid()
    ensures Block(tl, bl, td, bd, old(win.past), old(rd.Stream()), old(rd.Avail()))
         == if ret == 0 then Ended(win.past, rd.Stream(), rd.Avail()) else if ret == 1 then BadCode else Underrun
  {
    var st := Next;
    while st.Next?
      invariant rd.Valid() && win.Valid() && (st.Fail? ==> st.code == 1 || st.code == 4)
      invariant Block(tl, bl, td, bd, old(win.past), old(rd.Stream()), old(rd.Avail()))
             == match st
                case Next => Block(tl, bl, td, bd, win.past, rd.Stream(), rd.Avail())
                case Stop => Ended(win.past, rd.Stream(), rd.Avail())
                case Fail(code) => if code == 1 then BadCode else Underrun
      decreases st.Next?, rd.Avail()
    {
      st := Symbol(rd, win, tl, td, bl, bd);
    }
    return if st.Stop? then 0 else st.code;
  }
}
