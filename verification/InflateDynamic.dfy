/** The last part of `inflate_dynamic`: tables for both codes, then the block. */
module InflateDynamic {
  import opened Bits
  import opened Common
  import opened HuftLengths
  import opened HuftSort
  import opened HuftTables
  import opened HuftRfc
  import opened HuftNeed
  import opened HuftMain
  import opened InflateWindow
  import opened InflateBits
  import opened InflateCodes
  import opened InflateRfc
  import opened InflateAlphabet
  import opened InflateEnd

  const LBITS: nat := 9
  const DBITS: nat := 6

  /** A complete set of codes, or a single code of one bit. */
  ghost predicate Usable(b: seq<nat>)
    requires Lengths(b)
  {
    !AllZero(b) && (Kraft(b) == Pow2(BMAX) || (Kraft(b) < Pow2(BMAX) && MaxLen(b) == 1))
  }

  lemma ClampBounds(m: nat, low: nat, high: nat)
    requires low <= high
    ensures low <= Clamp(m, low, high) <= high && (Clamp(m, low, high) < m ==> Clamp(m, low, high) == high)
  {
  }

  lemma UsableReads(b: seq<nat>, m: nat, l: nat)
    requires Lengths(b) && Usable(b) && l == Clamp(m, MinLen(b), MaxLen(b))
    requires 2 * m >= BMAX || |b| < 2 * Pow2(m)
    ensures NoTableSkipped(b, l) && l <= BMAX
  {
    Extremes(b);
    ClampBounds(m, MinLen(b), MaxLen(b));
    if l < m {
      CompleteNoSkip(b, l);
    } else {
      Pow2Mono(m, l);
      CompleteNoSkip(b, l);
    }
  }

  /** One of the calls of `huft_build`. */
  method Tables(b: seq<nat>, s: nat, d: seq<nat>, e: seq<nat>, m: nat)
    returns (ret: nat, pool: seq<seq<Huft>>, bits: nat)
    requires Lengths(b) && Listed(b, s, d, e) && (forall i :: 0 <= i < |e| ==> e[i] <= 16 || e[i] == INVALID_CODE)
    requires 2 * m >= BMAX || |b| < 2 * Pow2(m)
    ensures ret == 0 <==> Usable(b)
    ensures ret == 0 ==> bits == Clamp(m, MinLen(b), MaxLen(b)) && 1 <= bits <= 16
    ensures ret == 0 ==> |pool| > 0 && ReadsAll(b, s, d, e, pool, bits) && NeedsAll(b, pool, bits)
  {
    ret, pool, bits := BuildTables(b, s, d, e, m);
    if ret == 0 {
      UsableReads(b, m, bits);
      Extremes(b);
    }
  }

  lemma DistanceSize()
    ensures 30 < 2 * Pow2(DBITS)
  {
    Pow2Add(3, 3);
  }

  /** The codes of a dynamic block, with the table sizes that come out for them. */
  ghost function Dynamic(lit: seq<nat>, dist: seq<nat>): Setup {
    Setup(DEFLATE, lit, dist, Clamp(LBITS, MinLen(lit), MaxLen(lit)), Clamp(DBITS, MinLen(dist), MaxLen(dist)))
  }

  /** The blocks that are decoded. */
  ghost predicate Decodes(lit: seq<nat>, dist: seq<nat>, past: seq<byte>, s: nat, a: nat)
    requires Lengths(lit) && Lengths(dist)
  {
    Usable(lit) && Usable(dist) && Accepts(Dynamic(lit, dist), past, s, a)
  }

  /** A block of RFC 1951 that is not. */
  ghost predicate Lost(lit: seq<nat>, dist: seq<nat>, past: seq<byte>, s: nat, a: nat)
    requires Lengths(lit) && Lengths(dist) && |dist| <= 30 && Proper(DEFLATE)
  {
    |past| >= WSIZE && s < Pow2(a) && RfcBlock(DEFLATE, lit, dist, past, s, a).Ended? && !Decodes(lit, dist, past, s, a)
  }

  ghost predicate SomeLost(lit: seq<nat>, dist: seq<nat>)
    requires Lengths(lit) && Lengths(dist) && |dist| <= 30 && Proper(DEFLATE)
  {
    exists past, s, a :: Lost(lit, dist, past, s, a)
  }

  ghost predicate LooseEnd(lit: seq<nat>, dist: seq<nat>) {
    Fit(Dynamic(lit, dist)) && HasEnd(Dynamic(lit, dist)) && !Tight(Dynamic(lit, dist))
  }

  /**
    The code lengths for which some block of RFC 1951 is not decoded: there is an end of the block, and either no
    distance has a code, which RFC 1951 allows, or the lengths are not tight.
   */
  lemma DynamicRefuses(lit: seq<nat>, dist: seq<nat>)
    requires Lengths(lit) && Lengths(dist) && |dist| <= 30 && Usable(lit) && (Usable(dist) || AllZero(dist))
    ensures Proper(DEFLATE)
    ensures SomeLost(lit, dist) <==>
      |lit| > 256 && lit[256] > 0 && (AllZero(dist) || LooseEnd(lit, dist))
  {
    DeflateProper();
    if |lit| <= 256 || lit[256] == 0 {
      forall past, s, a ensures !Lost(lit, dist, past, s, a) {
        if |past| >= WSIZE { NoEnd(lit, dist, past, s, a); }
      }
    } else if AllZero(dist) {
      CodesArePrefixFree(lit);
      NoDistanceCode(lit, dist);
    } else {
      UsableRefuses(lit, dist);
    }
  }

  lemma UsableRefuses(lit: seq<nat>, dist: seq<nat>)
    requires Lengths(lit) && Lengths(dist) && |dist| <= 30 && Usable(lit) && Usable(dist) && Proper(DEFLATE)
    requires |lit| > 256 && lit[256] > 0
    ensures SomeLost(lit, dist) <==> LooseEnd(lit, dist)
  {
    DynamicFits(lit, dist);
    CodesArePrefixFree(lit);
    CodesArePrefixFree(dist);
    RefusesIff(Dynamic(lit, dist));
    LostIs(lit, dist);
  }

  lemma LostIs(lit: seq<nat>, dist: seq<nat>)
    requires Lengths(lit) && Lengths(dist) && |dist| <= 30 && Usable(lit) && Usable(dist) && Proper(DEFLATE)
    requires Fit(Dynamic(lit, dist))
    ensures SomeLost(lit, dist) <==> SomeRefused(Dynamic(lit, dist))
  {
    var c := Dynamic(lit, dist);
    forall past: seq<byte>, s: nat, a: nat | |past| >= WSIZE && s < Pow2(a)
      ensures Refused(c, past, s, a) <==> Lost(lit, dist, past, s, a)
    {
      LookIsOpen(c, past, s, a);
      RfcIsOpen(c.al, c.lit, c.dist, past, s, a);
    }
  }

  /** Without an end-of-block code no block ends. */
  lemma NoEnd(lit: seq<nat>, dist: seq<nat>, past: seq<byte>, s: nat, a: nat)
    requires Lengths(lit) && |dist| <= 30 && Proper(DEFLATE) && |past| >= WSIZE && (|lit| <= 256 || lit[256] == 0)
    ensures !RfcBlock(DEFLATE, lit, dist, past, s, a).Ended?
  {
    var c := Setup(DEFLATE, lit, dist, 1, 1);
    RfcIsOpen(DEFLATE, lit, dist, past, s, a);
    if Opened(c, past, s, a).Ended? { EndedRoom(c, past, s, a); }
  }

  /** A block with nothing but its end, and no distance codes. */
  lemma NoDistanceCode(lit: seq<nat>, dist: seq<nat>)
    requires Lengths(lit) && Lengths(dist) && |dist| <= 30 && Proper(DEFLATE) && PrefixFree(lit)
    requires |lit| > 256 && lit[256] > 0 && AllZero(dist)
    ensures SomeLost(lit, dist)
  {
    var c, past: seq<byte> := Setup(DEFLATE, lit, dist, 1, 1), seq(2 * WSIZE, _ => 0);
    var s := JustTheEnd(c, past);
    RfcIsOpen(DEFLATE, lit, dist, past, s, lit[256]);
    assert Lost(lit, dist, past, s, lit[256]);
  }

  lemma DynamicFits(lit: seq<nat>, dist: seq<nat>)
    requires Lengths(lit) && Lengths(dist) && |dist| <= 30 && Usable(lit) && Usable(dist) && Proper(DEFLATE)
    ensures Fit(Dynamic(lit, dist))
  {
    Extremes(lit);
    Extremes(dist);
    ClampBounds(LBITS, MinLen(lit), MaxLen(lit));
    ClampBounds(DBITS, MinLen(dist), MaxLen(dist));
  }

  /**
    Lines 930-967: the block with code lengths `lit` and `dist`. It is accepted exactly if both codes can be used, the
    block is complete and no lookup asks for bits beyond the input; where the lengths are tight, exactly if it is
    complete, and it is then RFC 1951's or has a distance that reaches before the output.
   */
  method InflateCoded(rd: BitReader, win: Window, lit: seq<nat>, dist: seq<nat>) returns (ret: nat)
    requires rd.Valid() && win.Valid() && Lengths(lit) && Lengths(dist) && |dist| <= 30
    modifies rd, win, win.slide
    ensures rd.Valid() && win.Valid()
    ensures Standard(DEFLATE) && Proper(DEFLATE) && (Usable(lit) && Usable(dist) ==> Fit(Dynamic(lit, dist)))
    ensures ret == 0 <==> Decodes(lit, dist, old(win.past), old(rd.Stream()), old(rd.Avail()))
    ensures Usable(lit) && Usable(dist) ==>
      var c, rfc := Dynamic(lit, dist), RfcBlock(DEFLATE, lit, dist, old(win.past), old(rd.Stream()), old(rd.Avail()));
      var open := OpenBlock(DEFLATE, lit, dist, old(win.past), old(rd.Stream()), old(rd.Avail()));
      && (ret == 0 ==> Complete(rfc, open) && open == Ended(win.past, rd.Stream(), rd.Avail()))
      && (ret == 0 && rfc.Ended? ==> rfc == Ended(win.past, rd.Stream(), rd.Avail()))
      && (HasEnd(c) && Tight(c) ==> (ret == 0 <==> Complete(rfc, open)))
      && (rfc.Ended? && rfc.avail >= 16 ==> ret == 0)
  {
    DeflateProper();
    DeflateStandard(DEFLATE);
    ghost var past, s, a := win.past, rd.Stream(), rd.Avail();
    var al := DEFLATE;
    var tl, bl, td, bd;
    ret, tl, bl := Tables(lit, 257, al.lengthBase, al.lengthExtra, LBITS);
    if ret != 0 {
      return;
    }
    DistanceSize();
    ret, td, bd := Tables(dist, 0, al.distanceBase, al.distanceExtra, DBITS);
    if ret != 0 {
      return;
    }
    TablesFit(al, lit, dist, tl, bl, td, bd);
    BlockAccepts(Dynamic(lit, dist), tl, td, past, s, a);
    var r := InflateBlock(rd, win, tl, td, bl, bd);
    ret := if r != 0 then 1 else 0;
  }
}
