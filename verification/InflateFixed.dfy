/** `inflate_fixed` of lib/inflate.c: blocks with the fixed codes of RFC 1951, section 3.2.6. */
module InflateFixed {
  import opened Bits
  import opened HuftLengths
  import opened HuftRuns
  import opened HuftNeed
  import opened HuftTables
  import opened HuftMain
  import opened InflateWindow
  import opened InflateBits
  import opened InflateCodes
  import opened InflateRfc
  import opened InflateAlphabet
  import opened InflateEnd

  function FixedLit(): seq<nat> {
    Run(144, 8) + Run(112, 9) + Run(24, 7) + Run(8, 8)
  }

  function FixedDist(): seq<nat> {
    Run(30, 5)
  }

  /** The fixed lengths are complete, with lengths from 7 to 9, and the end of the block is one of the shortest. */
  lemma FixedLitIs(b: seq<nat>)
    requires b == FixedLit()
    ensures Lengths(b) && |b| == 288 && b[256] == 7 && Kraft(b) == Pow2(BMAX) && !AllZero(b)
    ensures MinLen(b) == 7 && MaxLen(b) == 9
  {
    FixedLitKraft(b);
    assert b[255] == 9 && b[256] == 7;
    Extremes(b);
  }

  lemma FixedLitKraft(b: seq<nat>)
    requires b == FixedLit()
    ensures Lengths(b) && Kraft(b) == Pow2(BMAX)
  {
    Weights();
    KraftRun([], 144, 8, 256);
    assert [] + Run(144, 8) == Run(144, 8);
    KraftRun(Run(144, 8), 112, 9, 128);
    KraftRun(Run(144, 8) + Run(112, 9), 24, 7, 512);
    KraftRun(Run(144, 8) + Run(112, 9) + Run(24, 7), 8, 8, 256);
  }

  lemma FixedDistIs(b: seq<nat>)
    requires b == FixedDist()
    ensures Lengths(b) && |b| == 30 && Kraft(b) < Pow2(BMAX) && !AllZero(b) && MinLen(b) == 5 && MaxLen(b) == 5
  {
    Weights();
    KraftRun([], 30, 5, 2048);
    assert [] + Run(30, 5) == Run(30, 5);
    assert b[0] == 5;
    Extremes(b);
  }

  ghost function Fixed(): Setup {
    Setup(DEFLATE, FixedLit(), FixedDist(), 7, 5)
  }

  /** With a first table of seven bits, the end of the block never asks for more than it has, as the source says. */
  lemma FixedIsTight(c: Setup)
    requires c == Fixed() && Fit(c) && |c.lit| == 288 && c.lit[256] == 7
    ensures HasEnd(c) && Tight(c)
  {
    assert Whole(7, 7) == 0;
    forall d | 0 <= d < |c.dist| ensures Enough(c.dist, c.bd, d, c.dist[d] + c.al.distanceExtra[d] + 7) {
      assert c.dist[d] == 5 && Whole(5, 5) == 0;
    }
  }

  /** Lines 741-748. */
  method FixedLengths() returns (l: seq<nat>)
    ensures l == FixedLit()
  {
    l := [];
    while |l| < 144
      invariant |l| <= 144 && l == Run(|l|, 8)
      decreases 144 - |l|
    {
      l := l + [8];
    }
    while |l| < 256
      invariant 144 <= |l| <= 256 && l == Run(144, 8) + Run(|l| - 144, 9)
      decreases 256 - |l|
    {
      l := l + [9];
    }
    while |l| < 280
      invariant 256 <= |l| <= 280 && l == Run(144, 8) + Run(112, 9) + Run(|l| - 256, 7)
      decreases 280 - |l|
    {
      l := l + [7];
    }
    while |l| < 288
      invariant 280 <= |l| <= 288 && l == Run(144, 8) + Run(112, 9) + Run(24, 7) + Run(|l| - 280, 8)
      decreases 288 - |l|
    {
      l := l + [8];
    }
  }

  /** The table for the literals and lengths, line 750. */
  method LitTables(lit: seq<nat>) returns (ret: nat, tl: seq<seq<Huft>>, bl: nat)
    requires lit == FixedLit() && Proper(DEFLATE)
    ensures ret == 0 && bl == 7 && LengthsRead(DEFLATE, lit, tl, bl) && NeedsAll(lit, tl, bl)
  {
    FixedLitIs(lit);
    ret, tl, bl := BuildTables(lit, 257, DEFLATE.lengthBase, DEFLATE.lengthExtra, 7);
    CompleteNoSkip(lit, 7);
  }

  /** The table for the distances, line 759: the code is incomplete, which is let pass. */
  method DistTables(dist: seq<nat>) returns (ret: nat, td: seq<seq<Huft>>, bd: nat)
    requires dist == FixedDist() && Proper(DEFLATE)
    ensures ret == 1 && bd == 5 && DistancesRead(DEFLATE, dist, td, bd) && NeedsAll(dist, td, bd)
  {
    FixedDistIs(dist);
    ret, td, bd := BuildTables(dist, 0, DEFLATE.distanceBase, DEFLATE.distanceExtra, 5);
    CompleteNoSkip(dist, 5);
    Extremes(dist);
  }

  /**
    `inflate_fixed`, lines 722-780: exactly the complete blocks are decoded. Those of RFC 1951 are decoded as it says;
    the others have a distance that reaches before the output.
   */
  method InflateFixedBlock(rd: BitReader, win: Window) returns (ret: nat)
    requires rd.Valid() && win.Valid()
    modifies rd, win, win.slide
    ensures rd.Valid() && win.Valid()
    ensures Standard(DEFLATE) && Proper(DEFLATE) && |FixedLit()| == 288 && |FixedDist()| == 30
    ensures var rfc := RfcBlock(DEFLATE, FixedLit(), FixedDist(), old(win.past), old(rd.Stream()), old(rd.Avail()));
      var open := OpenBlock(DEFLATE, FixedLit(), FixedDist(), old(win.past), old(rd.Stream()), old(rd.Avail()));
      && (ret == 0 <==> Complete(rfc, open)) && (ret == 0 ==> open == Ended(win.past, rd.Stream(), rd.Avail()))
      && (rfc.Ended? ==> rfc == Ended(win.past, rd.Stream(), rd.Avail()))
  {
    DeflateProper();
    DeflateStandard(DEFLATE);
    ghost var past, s, a, c := win.past, rd.Stream(), rd.Avail(), Fixed();
    var lit := FixedLengths();
    var dist := Run(30, 5);
    var tl, bl, td, bd;
    FixedLitIs(lit);
    ret, tl, bl := LitTables(lit);
    if ret != 0 {
      return;
    }
    ret, td, bd := DistTables(dist);
    if ret > 1 {
      return;
    }
    FixedIsTight(c);
    TablesFit(c.al, c.lit, c.dist, tl, bl, td, bd);
    BlockAccepts(c, tl, td, past, s, a);
    var r := InflateBlock(rd, win, tl, td, bl, bd);
    ret := if r != 0 then 1 else 0;
  }
}
