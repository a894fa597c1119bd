/** Blocks that RFC 1951 decodes and lib/inflate.c does not: one at the end of its input, one without distance codes. */
module InflateShort {
  import opened Bits
  import opened Common
  import opened HuftLengths
  import opened HuftRuns
  import opened HuftRfc
  import opened HuftNeed
  import opened HuftMain
  import opened InflateWindow
  import opened InflateBits
  import opened InflateCodes
  import opened InflateRfc
  import opened InflateEnd
  import opened InflateDynamic

  /** The end of the block has one bit, and the literals 0 to 8 have two to nine. */
  function ShortLit(): seq<nat> {
    First() + Run(247, 0) + [1]
  }

  function First(): seq<nat> {
    Few() + [6] + [7] + [8] + [9] + [9]
  }

  function Few(): seq<nat> {
    [] + [2] + [3] + [4] + [5]
  }

  lemma FewKraft()
    ensures Lean(Few()) && Kraft(Few()) == 30720
  {
    Weights();
    KraftAppend([], 2);
    KraftAppend([] + [2], 3);
    KraftAppend([] + [2] + [3], 4);
    KraftAppend([] + [2] + [3] + [4], 5);
  }

  lemma FirstKraft(b: seq<nat>)
    requires b == Few()
    ensures Lean(First()) && Kraft(First()) == 32768
  {
    FewKraft();
    Weights();
    KraftAppend(b, 6);
    KraftAppend(b + [6], 7);
    KraftAppend(b + [6] + [7], 8);
    KraftAppend(b + [6] + [7] + [8], 9);
    KraftAppend(b + [6] + [7] + [8] + [9], 9);
  }

  lemma ShortKraft(b: seq<nat>)
    requires b == ShortLit()
    ensures Lean(b) && Kraft(b) == Pow2(BMAX)
  {
    FirstKraft(Few());
    Weights();
    KraftRun(First(), 247, 0, 0);
    KraftAppend(First() + Run(247, 0), 1);
  }

  lemma ShortEntries(b: seq<nat>)
    requires b == ShortLit()
    ensures |b| == 257 && b[256] == 1 && b[7] == 9 && forall i :: 0 <= i < 256 ==> b[i] == 0 || 2 <= b[i] <= 9
  {
    var f := First();
    assert f == [2, 3, 4, 5, 6, 7, 8, 9, 9];
    forall i | 0 <= i < 256 ensures b[i] == 0 || 2 <= b[i] <= 9 {
      if i < 9 { assert b[i] == f[i]; } else { assert b[i] == Run(247, 0)[i - 9]; }
    }
  }

  lemma ShortLitIs(b: seq<nat>)
    requires b == ShortLit()
    ensures Lengths(b) && |b| == 257 && b[256] == 1 && b[7] == 9 && Usable(b) && MinLen(b) == 1 && MaxLen(b) == 9
    ensures forall i :: 0 <= i < 256 ==> b[i] != 1
  {
    ShortKraft(b);
    ShortEntries(b);
    Extremes(b);
  }

  /** An input of zeros begins with the end of the block. */
  lemma ZeroIsEnd(b: seq<nat>)
    requires b == ShortLit()
    ensures |b| == 257 && SymbolAt(b, 0) == Some(256)
  {
    ShortLitIs(b);
    NoneOf(b[..256], 1);
    assert CanonicalCode(b, 256) == 0;
    assert Rev(0, 1, 1) == 0 by { assert Prefix(0, 1, 1) == 0; }
    assert StartsWith(0, b, 256);
    CodesArePrefixFree(b);
  }

  lemma OneDistance(b: seq<nat>)
    requires b == [1]
    ensures Lengths(b) && Usable(b) && MinLen(b) == 1 && MaxLen(b) == 1
  {
    Weights();
    KraftAppend([], 1);
    assert [] + [1] == b;
    Extremes(b);
  }

  lemma ShortRefused(c: Setup, past: seq<byte>)
    requires c == Dynamic(ShortLit(), [1]) && |past| >= WSIZE && Proper(DEFLATE)
    ensures Fit(c) && !Accepts(c, past, 0, 8)
  {
    ShortLitIs(c.lit);
    OneDistance(c.dist);
    DynamicFits(c.lit, c.dist);
    ZeroIsEnd(c.lit);
    assert c.bl == 9 && Whole(1, 9) == 0;
    assert Shares(c.lit, 0, 256, 7);
    assert !Enough(c.lit, c.bl, 256, 8);
  }

  /** RFC 1951 ends the block after one bit. */
  lemma EndsAtOnce(dist: seq<nat>, past: seq<byte>, a: nat)
    requires Proper(DEFLATE) && |dist| <= 30 && |past| >= WSIZE && a > 0
    ensures |ShortLit()| == 257 && RfcBlock(DEFLATE, ShortLit(), dist, past, 0, a) == Ended(past, 0, a - 1)
  {
    ZeroIsEnd(ShortLit());
    ShortLitIs(ShortLit());
    ShrUnique(0, 1, 0, 0);
    EndsNow(ShortLit(), dist, past, a);
  }

  lemma EndsNow(lit: seq<nat>, dist: seq<nat>, past: seq<byte>, a: nat)
    requires Proper(DEFLATE) && |lit| == 257 && |dist| <= 30 && |past| >= WSIZE && a > 0
    requires SymbolAt(lit, 0) == Some(256) && lit[256] == 1 && Shr(0, 1) == 0
    ensures RfcBlock(DEFLATE, lit, dist, past, 0, a) == Ended(past, 0, a - 1)
  {
  }

  lemma {:induction false} ZeroBytes(s: seq<byte>)
    requires forall i :: 0 <= i < |s| ==> s[i] == 0
    ensures Value(s) == 0
  {
    if |s| > 0 {
      ZeroBytes(s[1..]);
      CatIs(0, 8, 0);
    }
  }

  /** One zero byte: RFC 1951 ends the block after one bit, but the lookup asks for nine. */
  method ShortInput() returns (ret: nat)
    ensures ret != 0
    ensures Proper(DEFLATE) && |ShortLit()| == 257
    ensures RfcBlock(DEFLATE, ShortLit(), [1], Run(WSIZE, 0), 0, 8) == Ended(Run(WSIZE, 0), 0, 7)
  {
    var rd := new BitReader([0]);
    var zeros: seq<byte> := seq(WSIZE, i => 0);
    var win := new Window(zeros);
    DeflateProper();
    ZeroBytes([0]);
    ShortLitIs(ShortLit());
    OneDistance([1]);
    ShortRefused(Dynamic(ShortLit(), [1]), zeros);
    assert zeros == Run(WSIZE, 0);
    EndsAtOnce([1], zeros, 8);
    ret := InflateCoded(rd, win, ShortLit(), [1]);
  }

  /** A distance code of zero bits: RFC 1951 ends the block with 23 bits left, but there is no table for distances. */
  method NoDistances() returns (ret: nat)
    ensures ret != 0
    ensures Proper(DEFLATE) && |ShortLit()| == 257
    ensures RfcBlock(DEFLATE, ShortLit(), [0], Run(WSIZE, 0), 0, 24) == Ended(Run(WSIZE, 0), 0, 23)
  {
    var rd := new BitReader([0, 0, 0]);
    var zeros: seq<byte> := seq(WSIZE, i => 0);
    var win := new Window(zeros);
    DeflateProper();
    ShortLitIs(ShortLit());
    assert zeros == Run(WSIZE, 0);
    EndsAtOnce([0], zeros, 24);
    ret := InflateCoded(rd, win, ShortLit(), [0]);
  }
}
