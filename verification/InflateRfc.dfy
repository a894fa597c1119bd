/**
  Compressed blocks of RFC 1951, section 3.2.3 and 3.2.5, and that `inflate_codes` decodes them, as far as its
  lookups do not ask for bits beyond the end of the input. It does not look whether a distance reaches before the
  beginning of the output.
 */
module InflateRfc {
  import opened Bits
  import opened Common
  import opened HuftTables
  import opened HuftRfc
  import opened HuftNeed
  import opened InflateWindow
  import opened InflateCodes

  /** Base values and extra bits of the length codes, from symbol 257 on, and of the distance codes. */
  datatype Alphabet = Alphabet(lengthBase: seq<nat>, lengthExtra: seq<nat>, distanceBase: seq<nat>,
    distanceExtra: seq<nat>)

  /** Lines 172-186. */
  const DEFLATE: Alphabet := Alphabet(
    [3, 4, 5, 6, 7, 8, 9, 10, 11, 13, 15, 17, 19, 23, 27, 31,
     35, 43, 51, 59, 67, 83, 99, 115, 131, 163, 195, 227, 258, 0, 0],
    [0, 0, 0, 0, 0, 0, 0, 0, 1, 1, 1, 1, 2, 2, 2, 2,
     3, 3, 3, 3, 4, 4, 4, 4, 5, 5, 5, 5, 0, 99, 99],
    [1, 2, 3, 4, 5, 7, 9, 13, 17, 25, 33, 49, 65, 97, 129, 193,
     257, 385, 513, 769, 1025, 1537, 2049, 3073, 4097, 6145,
     8193, 12289, 16385, 24577],
    [0, 0, 0, 0, 1, 1, 2, 2, 3, 3, 4, 4, 5, 5, 6, 6,
     7, 7, 8, 8, 9, 9, 10, 10, 11, 11,
     12, 12, 13, 13])

  /** Lengths are positive up to symbol 285 and invalid from there on; distances stay inside the window. */
  ghost predicate Proper(al: Alphabet) {
    && |al.lengthBase| == |al.lengthExtra| == 31 && |al.distanceBase| == |al.distanceExtra| == 30
    && (forall i :: 0 <= i < 29 ==> al.lengthBase[i] > 0 && al.lengthExtra[i] <= 5)
    && (forall i :: 29 <= i < 31 ==> al.lengthExtra[i] == INVALID_CODE)
    && (forall i :: 0 <= i < 30 ==>
      al.distanceExtra[i] <= 13 && 1 <= al.distanceBase[i]
      && al.distanceBase[i] + Pow2(al.distanceExtra[i]) <= WSIZE + 1)
  }

  lemma DeflateProper()
    ensures Proper(DEFLATE)
  {
    forall i | 0 <= i < 31
      ensures if i < 29 then DEFLATE.lengthBase[i] > 0 && DEFLATE.lengthExtra[i] <= 5
      else DEFLATE.lengthExtra[i] == INVALID_CODE {
      DeflateLength(i);
    }
    forall i | 0 <= i < 30
      ensures DEFLATE.distanceExtra[i] <= 13 && 1 <= DEFLATE.distanceBase[i]
      && DEFLATE.distanceBase[i] + Pow2(DEFLATE.distanceExtra[i]) <= WSIZE + 1 {
      DeflateDistance(i);
    }
  }

  lemma DeflateLength(i: nat)
    requires i < 31
    ensures if i < 29 then DEFLATE.lengthBase[i] > 0 && DEFLATE.lengthExtra[i] <= 5
      else DEFLATE.lengthExtra[i] == INVALID_CODE
  {
  }

  lemma DeflateDistance(i: nat)
    requires i < 30
    ensures DEFLATE.distanceExtra[i] <= 13 && 1 <= DEFLATE.distanceBase[i]
      && DEFLATE.distanceBase[i] + Pow2(DEFLATE.distanceExtra[i]) <= WSIZE + 1
  {
    SmallPowers();
  }

  /** The symbol whose code the input `s` begins with. */
  ghost function SymbolAt(b: seq<nat>, s: nat): (r: Option<nat>)
    ensures r.Some? ==> r.value < |b| && StartsWith(s, b, r.value)
    ensures r.None? ==> forall sym :: 0 <= sym < |b| ==> !StartsWith(s, b, sym)
  {
    if exists sym :: 0 <= sym < |b| && StartsWith(s, b, sym) then
      var sym :| 0 <= sym < |b| && StartsWith(s, b, sym); Some(sym)
    else None
  }

  /**
    A block with code lengths `lit` and `dist`, decoded from the `a` bits of `s`. What `past` holds beyond the first
    `WSIZE` bytes is output; a distance must not reach before that.
   */
  ghost function RfcBlock(al: Alphabet, lit: seq<nat>, dist: seq<nat>, past: seq<byte>, s: nat,
                          a: nat): (r: BlockResult)
    requires Proper(al) && |lit| <= 288 && |dist| <= 30 && |past| >= WSIZE
    ensures r.Ended? ==> r.avail <= a
    decreases a, 0
  {
    match SymbolAt(lit, s)
    case None => BadCode
    case Some(sym) =>
      if sym > 285 then BadCode
      else if lit[sym] > a then Underrun
      else
        var s1, a1 := Shr(s, lit[sym]), a - lit[sym];
        if sym < 256 then RfcBlock(al, lit, dist, past + [sym], s1, a1)
        else if sym == 256 then Ended(past, s1, a1)
        else RfcCopy(al, lit, dist, past, sym - 257, s1, a1)
  }

  /** The rest of a block after length code number `i`. */
  ghost function RfcCopy(al: Alphabet, lit: seq<nat>, dist: seq<nat>, past: seq<byte>, i: nat, s: nat,
                         a: nat): (r: BlockResult)
    requires Proper(al) && |lit| <= 288 && |dist| <= 30 && |past| >= WSIZE && i < 29
    ensures r.Ended? ==> r.avail <= a
    decreases a, 1
  {
    var x := al.lengthExtra[i];
    if x > a then Underrun
    else
      var n, s2, a2 := al.lengthBase[i] + Low(s, x), Shr(s, x), a - x;
      match SymbolAt(dist, s2)
      case None => BadCode
      case Some(sym) =>
        var y := al.distanceExtra[sym];
        if dist[sym] + y > a2 then Underrun
        else
          var s3, a3 := Shr(s2, dist[sym]), a2 - dist[sym];
          var d := al.distanceBase[sym] + Low(s3, y);
          DistanceBound(al, sym, s3);
          if d > |past| - WSIZE then TooFar else RfcBlock(al, lit, dist, CopyBack(past, d, n), Shr(s3, y), a3 - y)
  }

  /** The same without the rule on distances: what is before the output is whatever the window holds. */
  ghost function OpenBlock(al: Alphabet, lit: seq<nat>, dist: seq<nat>, past: seq<byte>, s: nat,
                          a: nat): (r: BlockResult)
    requires Proper(al) && |lit| <= 288 && |dist| <= 30 && |past| >= WSIZE
    ensures r.Ended? ==> r.avail <= a
    decreases a, 0
  {
    match SymbolAt(lit, s)
    case None => BadCode
    case Some(sym) =>
      if sym > 285 then BadCode
      else if lit[sym] > a then Underrun
      else
        var s1, a1 := Shr(s, lit[sym]), a - lit[sym];
        if sym < 256 then OpenBlock(al, lit, dist, past + [sym], s1, a1)
        else if sym == 256 then Ended(past, s1, a1)
        else OpenCopy(al, lit, dist, past, sym - 257, s1, a1)
  }

  ghost function OpenCopy(al: Alphabet, lit: seq<nat>, dist: seq<nat>, past: seq<byte>, i: nat, s: nat,
                         a: nat): (r: BlockResult)
    requires Proper(al) && |lit| <= 288 && |dist| <= 30 && |past| >= WSIZE && i < 29
    ensures r.Ended? ==> r.avail <= a
    decreases a, 1
  {
    var x := al.lengthExtra[i];
    if x > a then Underrun
    else
      var n, s2, a2 := al.lengthBase[i] + Low(s, x), Shr(s, x), a - x;
      match SymbolAt(dist, s2)
      case None => BadCode
      case Some(sym) =>
        var y := al.distanceExtra[sym];
        if dist[sym] + y > a2 then Underrun
        else
          var s3, a3 := Shr(s2, dist[sym]), a2 - dist[sym];
          DistanceBound(al, sym, s3);
          OpenBlock(al, lit, dist, CopyBack(past, al.distanceBase[sym] + Low(s3, y), n), Shr(s3, y), a3 - y)
  }

  /** Only that rule makes a difference, and none once a window of output is there. */
  lemma {:induction false} RfcIsOpen(al: Alphabet, lit: seq<nat>, dist: seq<nat>, past: seq<byte>, s: nat, a: nat)
    requires Proper(al) && |lit| <= 288 && |dist| <= 30 && |past| >= WSIZE
    ensures var rfc := RfcBlock(al, lit, dist, past, s, a);
      (rfc.TooFar? && |past| < 2 * WSIZE) || rfc == OpenBlock(al, lit, dist, past, s, a)
    decreases a, 0
  {
    var r := SymbolAt(lit, s);
    if r.Some? && r.value <= 285 && lit[r.value] <= a {
      var s1, a1 := Shr(s, lit[r.value]), a - lit[r.value];
      if r.value < 256 {
        RfcIsOpen(al, lit, dist, past + [r.value], s1, a1);
      } else if r.value > 256 {
        RfcIsOpenCopy(al, lit, dist, past, r.value - 257, s1, a1);
      }
    }
  }

  lemma {:induction false} RfcIsOpenCopy(al: Alphabet, lit: seq<nat>, dist: seq<nat>, past: seq<byte>, i: nat, s: nat,
                                         a: nat)
    requires Proper(al) && |lit| <= 288 && |dist| <= 30 && |past| >= WSIZE && i < 29
    ensures var rfc := RfcCopy(al, lit, dist, past, i, s, a);
      (rfc.TooFar? && |past| < 2 * WSIZE) || rfc == OpenCopy(al, lit, dist, past, i, s, a)
    decreases a, 1
  {
    var x := al.lengthExtra[i];
    if x <= a {
      var n, s2, a2 := al.lengthBase[i] + Low(s, x), Shr(s, x), a - x;
      var r := SymbolAt(dist, s2);
      if r.Some? && dist[r.value] + al.distanceExtra[r.value] <= a2 {
        var y, s3 := al.distanceExtra[r.value], Shr(s2, dist[r.value]);
        DistanceBound(al, r.value, s3);
        var d := al.distanceBase[r.value] + Low(s3, y);
        if d <= |past| - WSIZE {
          RfcIsOpen(al, lit, dist, CopyBack(past, d, n), Shr(s3, y), a2 - dist[r.value] - y);
        }
      }
    }
  }

  lemma DistanceBound(al: Alphabet, sym: nat, s: nat)
    requires Proper(al) && sym < 30
    ensures 1 <= al.distanceBase[sym] + Low(s, al.distanceExtra[sym]) <= WSIZE
  {
    LowBound(s, al.distanceExtra[sym]);
  }

  lemma SmallPowers()
    ensures Pow2(0) == 1 && Pow2(1) == 2 && Pow2(2) == 4 && Pow2(3) == 8 && Pow2(4) == 16 && Pow2(5) == 32
      && Pow2(6) == 64
    ensures Pow2(7) == 128 && Pow2(8) == 256 && Pow2(9) == 512 && Pow2(10) == 1024 && Pow2(11) == 2048
      && Pow2(12) == 4096 && Pow2(13) == 8192
  {
    Pow2Add(4, 4);
    Pow2Add(8, 4);
  }

  // ---------------------------------------------------------------- looking ahead

  /** A block's codes, and the sizes of the first tables for them. */
  datatype Setup = Setup(al: Alphabet, lit: seq<nat>, dist: seq<nat>, bl: nat, bd: nat)

  ghost predicate Fit(c: Setup) {
    Proper(c.al) && |c.lit| <= 288 && |c.dist| <= 30 && 1 <= c.bl <= 16 && 1 <= c.bd <= 16
  }

  /** The block as RFC 1951 has it, if for every code there are as many bits as its lookup asks for. */
  ghost function LookBlock(c: Setup, past: seq<byte>, s: nat, a: nat): (r: BlockResult)
    requires Fit(c) && |past| >= WSIZE
    ensures r.Ended? ==> r.avail <= a
    decreases a, 0
  {
    match SymbolAt(c.lit, s)
    case None => BadCode
    case Some(sym) =>
      if sym > 285 then BadCode
      else if c.lit[sym] > a || !Enough(c.lit, c.bl, sym, a) then Underrun
      else LookOn(c, past, sym, Shr(s, c.lit[sym]), a - c.lit[sym])
  }

  /** The rest of a block after the code of `sym`. */
  ghost function LookOn(c: Setup, past: seq<byte>, sym: nat, s: nat, a: nat): (r: BlockResult)
    requires Fit(c) && |past| >= WSIZE && sym <= 285
    ensures r.Ended? ==> r.avail <= a
    decreases a, 2
  {
    if sym < 256 then LookBlock(c, past + [sym], s, a)
    else if sym == 256 then Ended(past, s, a)
    else LookCopy(c, past, sym - 257, s, a)
  }

  ghost function LookCopy(c: Setup, past: seq<byte>, i: nat, s: nat, a: nat): (r: BlockResult)
    requires Fit(c) && |past| >= WSIZE && i < 29
    ensures r.Ended? ==> r.avail <= a
    decreases a, 1
  {
    var x := c.al.lengthExtra[i];
    if x > a then Underrun
    else
      match SymbolAt(c.dist, Shr(s, x))
      case None => BadCode
      case Some(sym) =>
        if x + c.dist[sym] + c.al.distanceExtra[sym] > a || !Enough(c.dist, c.bd, sym, a - x) then Underrun
        else
          var to := CopyTo(c, past, i, s, a, sym);
          LookBlock(c, to.past, to.s, to.a)
  }

  // ---------------------------------------------------------------- one step of each

  lemma OpenBlockIs(c: Setup, past: seq<byte>, s: nat, a: nat, sym: nat, s1: nat, a1: nat)
    requires Fit(c) && |past| >= WSIZE && SymbolAt(c.lit, s) == Some(sym) && sym <= 285 && c.lit[sym] <= a
    requires s1 == Shr(s, c.lit[sym]) && a1 == a - c.lit[sym]
    ensures OpenBlock(c.al, c.lit, c.dist, past, s, a)
         == if sym < 256 then OpenBlock(c.al, c.lit, c.dist, past + [sym], s1, a1)
            else if sym == 256 then Ended(past, s1, a1)
            else OpenCopy(c.al, c.lit, c.dist, past, sym - 257, s1, a1)
  {
  }

  lemma LookBlockIs(c: Setup, past: seq<byte>, s: nat, a: nat, sym: nat, s1: nat, a1: nat)
    requires Fit(c) && |past| >= WSIZE && SymbolAt(c.lit, s) == Some(sym) && sym <= 285 && c.lit[sym] <= a
    requires Enough(c.lit, c.bl, sym, a) && s1 == Shr(s, c.lit[sym]) && a1 == a - c.lit[sym]
    ensures LookBlock(c, past, s, a)
         == if sym < 256 then LookBlock(c, past + [sym], s1, a1)
            else if sym == 256 then Ended(past, s1, a1)
            else LookCopy(c, past, sym - 257, s1, a1)
  {
    LookFirst(c, past, s, a, sym);
  }

  lemma LookFirst(c: Setup, past: seq<byte>, s: nat, a: nat, sym: nat)
    requires Fit(c) && |past| >= WSIZE && SymbolAt(c.lit, s) == Some(sym) && sym <= 285 && c.lit[sym] <= a
    requires Enough(c.lit, c.bl, sym, a)
    ensures LookBlock(c, past, s, a) == LookOn(c, past, sym, Shr(s, c.lit[sym]), a - c.lit[sym])
  {
  }

  /** A distance with its extra bits: where it leads from `past`, the input `s` and `a` bits. */
  datatype Copied = Copied(past: seq<byte>, s: nat, a: nat)

  /** The copy for length code `i` and distance code `sym`. */
  ghost function CopyTo(c: Setup, past: seq<byte>, i: nat, s: nat, a: nat, sym: nat): (r: Copied)
    requires Fit(c) && |past| >= WSIZE && i < 29 && sym < |c.dist|
    requires c.al.lengthExtra[i] + c.dist[sym] + c.al.distanceExtra[sym] <= a
    ensures |r.past| >= WSIZE && r.a == a - c.al.lengthExtra[i] - c.dist[sym] - c.al.distanceExtra[sym]
  {
    var x, y := c.al.lengthExtra[i], c.al.distanceExtra[sym];
    var s3 := Shr(Shr(s, x), c.dist[sym]);
    DistanceBound(c.al, sym, s3);
    Copied(CopyBack(past, c.al.distanceBase[sym] + Low(s3, y), c.al.lengthBase[i] + Low(s, x)), Shr(s3, y),
      a - x - c.dist[sym] - y)
  }

  lemma OpenCopyIs(c: Setup, past: seq<byte>, i: nat, s: nat, a: nat, sym: nat)
    requires Fit(c) && |past| >= WSIZE && i < 29 && SymbolAt(c.dist, Shr(s, c.al.lengthExtra[i])) == Some(sym)
    requires c.al.lengthExtra[i] + c.dist[sym] + c.al.distanceExtra[sym] <= a
    ensures var to := CopyTo(c, past, i, s, a, sym);
      OpenCopy(c.al, c.lit, c.dist, past, i, s, a) == OpenBlock(c.al, c.lit, c.dist, to.past, to.s, to.a)
  {
  }

  lemma LookCopyIs(c: Setup, past: seq<byte>, i: nat, s: nat, a: nat, sym: nat)
    requires Fit(c) && |past| >= WSIZE && i < 29 && SymbolAt(c.dist, Shr(s, c.al.lengthExtra[i])) == Some(sym)
    requires c.al.lengthExtra[i] + c.dist[sym] + c.al.distanceExtra[sym] <= a
    requires Enough(c.dist, c.bd, sym, a - c.al.lengthExtra[i])
    ensures var to := CopyTo(c, past, i, s, a, sym);
      LookCopy(c, past, i, s, a) == LookBlock(c, to.past, to.s, to.a)
  {
  }

  // ---------------------------------------------------------------- lookups

  ghost predicate LengthsRead(al: Alphabet, lit: seq<nat>, tl: seq<seq<Huft>>, bl: nat) {
    Proper(al) && |lit| <= 288 && |tl| > 0 && bl <= 16 && ReadsAll(lit, 257, al.lengthBase, al.lengthExtra, tl, bl)
  }

  ghost predicate DistancesRead(al: Alphabet, dist: seq<nat>, td: seq<seq<Huft>>, bd: nat) {
    Proper(al) && |dist| <= 30 && |td| > 0 && bd <= 16 && ReadsAll(dist, 0, al.distanceBase, al.distanceExtra, td, bd)
  }

  /** What a lookup in the literal and length tables finds. */
  lemma LengthLookup(al: Alphabet, lit: seq<nat>, tl: seq<seq<Huft>>, bl: nat, s: nat)
    requires LengthsRead(al, lit, tl, bl)
    ensures match SymbolAt(lit, s)
            case None => Walk(tl, 0, bl, s, 0).Invalid?
            case Some(sym) =>
              Reads(Walk(tl, 0, bl, s, 0), MeaningOf(257, al.lengthBase, al.lengthExtra, sym), lit[sym]) && lit[sym] > 0
  {
    assert ReadsCode(lit, 257, al.lengthBase, al.lengthExtra, Walk(tl, 0, bl, s, 0), s);
  }

  lemma DistanceLookup(al: Alphabet, dist: seq<nat>, td: seq<seq<Huft>>, bd: nat, s: nat)
    requires DistancesRead(al, dist, td, bd)
    ensures match SymbolAt(dist, s)
            case None => Walk(td, 0, bd, s, 0).Invalid?
            case Some(sym) =>
              Reads(Walk(td, 0, bd, s, 0), (al.distanceExtra[sym], al.distanceBase[sym]), dist[sym])
              && al.distanceExtra[sym] <= 13
  {
    assert ReadsCode(dist, 0, al.distanceBase, al.distanceExtra, Walk(td, 0, bd, s, 0), s);
  }

  /** Tables that read the codes are fit for `inflate_codes`. */
  lemma TablesFit(al: Alphabet, lit: seq<nat>, dist: seq<nat>, tl: seq<seq<Huft>>, bl: nat, td: seq<seq<Huft>>, bd: nat)
    requires LengthsRead(al, lit, tl, bl) && DistancesRead(al, dist, td, bd)
    ensures LengthTables(tl, bl) && DistanceTables(td, bd)
  {
    forall s: nat ensures LengthFine(tl, bl, s) {
      LengthLookup(al, lit, tl, bl, s);
    }
    forall s: nat ensures DistanceFine(td, bd, s) {
      DistanceLookup(al, dist, td, bd, s);
    }
  }

  /** The tables read the codes of a block, and ask for what the code lengths say. */
  ghost predicate Equipped(c: Setup, tl: seq<seq<Huft>>, td: seq<seq<Huft>>) {
    && Fit(c) && LengthsRead(c.al, c.lit, tl, c.bl) && DistancesRead(c.al, c.dist, td, c.bd)
    && NeedsAll(c.lit, tl, c.bl) && NeedsAll(c.dist, td, c.bd) && LengthTables(tl, c.bl) && DistanceTables(td, c.bd)
  }

  /** The bits that a lookup asks for are there exactly if the code lengths say so. */
  lemma LengthNeed(c: Setup, tl: seq<seq<Huft>>, td: seq<seq<Huft>>, s: nat, a: nat)
    requires Equipped(c, tl, td) && SymbolAt(c.lit, s).Some?
    ensures var sym := SymbolAt(c.lit, s).value;
      && (WalkNeed(tl, 0, c.bl, s, 0) <= a <==> Enough(c.lit, c.bl, sym, a))
      && (Enough(c.lit, c.bl, sym, a) ==> c.lit[sym] <= a)
  {
    var sym := SymbolAt(c.lit, s).value;
    assert NeedFits(c.lit, tl, c.bl, s, sym);
    if Enough(c.lit, c.bl, sym, a) { EnoughCovers(c.lit, c.bl, sym, a); }
  }

  lemma DistanceNeed(c: Setup, tl: seq<seq<Huft>>, td: seq<seq<Huft>>, s: nat, a: nat)
    requires Equipped(c, tl, td) && SymbolAt(c.dist, s).Some?
    ensures var sym := SymbolAt(c.dist, s).value;
      WalkNeed(td, 0, c.bd, s, 0) <= a <==> Enough(c.dist, c.bd, sym, a)
  {
    assert NeedFits(c.dist, td, c.bd, s, SymbolAt(c.dist, s).value);
  }

  // ---------------------------------------------------------------- blocks

  /** Both end the block alike, or neither does. */
  ghost predicate SameEnd(r: BlockResult, r': BlockResult) {
    r.Ended? || r'.Ended? ==> r == r'
  }

  /** `inflate_codes` ends a block exactly if RFC 1951 does and every lookup has the bits it asks for. */
  lemma {:induction false} BlockIsRfc(c: Setup, tl: seq<seq<Huft>>, td: seq<seq<Huft>>, past: seq<byte>, s: nat, a: nat)
    requires Equipped(c, tl, td) && |past| >= WSIZE
    ensures SameEnd(Block(tl, c.bl, td, c.bd, past, s, a), LookBlock(c, past, s, a))
    decreases a, 0
  {
    LengthLookup(c.al, c.lit, tl, c.bl, s);
    var r := SymbolAt(c.lit, s);
    if r.Some? && r.value <= 285 {
      LengthNeed(c, tl, td, s, a);
      if Enough(c.lit, c.bl, r.value, a) {
        BlockGoesOn(c, tl, td, past, s, a, r.value, Shr(s, c.lit[r.value]), a - c.lit[r.value]);
      }
    }
  }

  lemma {:induction false} BlockGoesOn(c: Setup, tl: seq<seq<Huft>>, td: seq<seq<Huft>>, past: seq<byte>, s: nat,
                                       a: nat,
                                       sym: nat, s1: nat, a1: nat)
    requires Equipped(c, tl, td) && |past| >= WSIZE && SymbolAt(c.lit, s) == Some(sym) && sym <= 285
    requires Enough(c.lit, c.bl, sym, a) && c.lit[sym] <= a && WalkNeed(tl, 0, c.bl, s, 0) <= a
    requires s1 == Shr(s, c.lit[sym]) && a1 == a - c.lit[sym]
    ensures SameEnd(Block(tl, c.bl, td, c.bd, past, s, a), LookBlock(c, past, s, a))
    decreases a1, 2
  {
    LengthLookup(c.al, c.lit, tl, c.bl, s);
    var out := Walk(tl, 0, c.bl, s, 0);
    BlockIs(tl, c.bl, td, c.bd, past, s, a, out.en, out.used, s1, a1);
    LookBlockIs(c, past, s, a, sym, s1, a1);
    if sym < 256 {
      assert out.en.e == 16 && out.en.v % 256 == sym;
      BlockIsRfc(c, tl, td, past + [sym], s1, a1);
    } else if sym == 256 {
      assert out.en.e == 15;
    } else {
      assert out.en.e < 15;
      CopyIsRfc(c, tl, td, past, sym - 257, out.en, s1, a1);
    }
  }

  lemma {:induction false} CopyIsRfc(c: Setup, tl: seq<seq<Huft>>, td: seq<seq<Huft>>, past: seq<byte>, i: nat,
                                     en: Huft,
                                     s: nat, a: nat)
    requires Equipped(c, tl, td) && |past| >= WSIZE
    requires i < 29 && (en.e, en.v) == (c.al.lengthExtra[i], c.al.lengthBase[i])
    ensures SameEnd(Copying(tl, c.bl, td, c.bd, past, en, s, a), LookCopy(c, past, i, s, a))
    decreases a, 1
  {
    var x := c.al.lengthExtra[i];
    if x <= a {
      var s2 := Shr(s, x);
      DistanceLookup(c.al, c.dist, td, c.bd, s2);
      var r := SymbolAt(c.dist, s2);
      if r.Some? {
        DistanceNeed(c, tl, td, s2, a - x);
        if Enough(c.dist, c.bd, r.value, a - x) && x + c.dist[r.value] + c.al.distanceExtra[r.value] <= a {
          CopyFound(c, tl, td, past, i, en, s, a, r.value);
          LookCopyIs(c, past, i, s, a, r.value);
          var to := CopyTo(c, past, i, s, a, r.value);
          BlockIsRfc(c, tl, td, to.past, to.s, to.a);
        }
      }
    }
  }

  /** When there is input for all of it, the same copy is done. */
  lemma CopyFound(c: Setup, tl: seq<seq<Huft>>, td: seq<seq<Huft>>, past: seq<byte>, i: nat, en: Huft, s: nat, a: nat,
                  sym: nat)
    requires Equipped(c, tl, td) && |past| >= WSIZE
    requires i < 29 && (en.e, en.v) == (c.al.lengthExtra[i], c.al.lengthBase[i])
    requires SymbolAt(c.dist, Shr(s, c.al.lengthExtra[i])) == Some(sym)
    requires c.al.lengthExtra[i] + c.dist[sym] + c.al.distanceExtra[sym] <= a
    requires WalkNeed(td, 0, c.bd, Shr(s, c.al.lengthExtra[i]), 0) <= a - c.al.lengthExtra[i]
    ensures var to := CopyTo(c, past, i, s, a, sym);
      Copying(tl, c.bl, td, c.bd, past, en, s, a) == Block(tl, c.bl, td, c.bd, to.past, to.s, to.a)
  {
    var s2 := Shr(s, c.al.lengthExtra[i]);
    DistanceLookup(c.al, c.dist, td, c.bd, s2);
    CopyOf(c, tl, td, past, i, en, s, a, sym, Walk(td, 0, c.bd, s2, 0).en);
  }

  lemma CopyOf(c: Setup, tl: seq<seq<Huft>>, td: seq<seq<Huft>>, past: seq<byte>, i: nat, en: Huft, s: nat, a: nat,
               sym: nat, en': Huft)
    requires Fit(c) && LengthTables(tl, c.bl) && DistanceTables(td, c.bd) && |past| >= WSIZE && sym < |c.dist|
    requires i < 29 && (en.e, en.v) == (c.al.lengthExtra[i], c.al.lengthBase[i])
    requires c.al.lengthExtra[i] + c.dist[sym] + c.al.distanceExtra[sym] <= a
    requires Walk(td, 0, c.bd, Shr(s, en.e), 0) == Found(en', c.dist[sym])
    requires (en'.e, en'.v) == (c.al.distanceExtra[sym], c.al.distanceBase[sym])
    requires WalkNeed(td, 0, c.bd, Shr(s, en.e), 0) <= a - en.e
    ensures var to := CopyTo(c, past, i, s, a, sym);
      Copying(tl, c.bl, td, c.bd, past, en, s, a) == Block(tl, c.bl, td, c.bd, to.past, to.s, to.a)
  {
    var s3, to := Shr(Shr(s, en.e), c.dist[sym]), CopyTo(c, past, i, s, a, sym);
    DistanceBound(c.al, sym, s3);
    CopyingIs(tl, c.bl, td, c.bd, past, en, s, a, en', c.dist[sym], s3, a - en.e - c.dist[sym],
      en'.v + Low(s3, en'.e), en.v + Low(s, en.e), to.s, to.a, to.past);
  }
}
