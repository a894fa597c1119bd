/** A block with a distance before the beginning of the output, which lib/inflate.c decodes and RFC 1951 does not. */
module InflateEarly {
  import opened Bits
  import opened Common
  import opened HuftLengths
  import opened HuftRfc
  import opened HuftNeed
  import opened InflateWindow
  import opened InflateBits
  import opened InflateCodes
  import opened InflateRfc
  import opened InflateEnd
  import opened InflateFixed
  import opened InflateFixedCodes

  /** The pattern `x` below 2 has only its last bit, if any. */
  lemma {:induction false} MidSmall(x: nat, g: nat, v: nat)
    requires x < 2 && v < g
    ensures Mid(x, g, 0, v) == 0
    decreases v
  {
    if v > 0 {
      MidSmall(x, g, v - 1);
      Pow2Mono(1, g - v);
      ShrUnique(x, g - v, 0, x);
    }
  }

  lemma RevSmall(x: nat, g: nat)
    requires x < 2 && g > 0
    ensures Rev(x, g, g) == x * Pow2(g - 1)
  {
    MidSmall(x, g, g - 1);
  }

  /** A pattern that is the code of a symbol, first bit lowest, starts with that symbol. */
  lemma StartsAt(b: seq<nat>, sym: nat, g: nat, s: nat)
    requires sym < |b| && b[sym] == g && 1 <= g <= BMAX && PrefixFree(b)
    requires s == Rev(CanonicalCode(b, sym), g, g) && s < Pow2(g)
    ensures SymbolAt(b, s) == Some(sym)
  {
    ShrAll(s, g);
    assert StartsWith(s, b, sym);
  }

  lemma EndStarts(b: seq<nat>, g: nat)
    requires b == FixedLit() && |b| == 288 && PrefixFree(b) && g == 7
    ensures SymbolAt(b, 0) == Some(256)
  {
    FixedCodes(b, 256);
    RevSmall(0, g);
    StartsAt(b, 256, g, 0);
  }

  lemma LengthStarts(b: seq<nat>, s: nat, g: nat)
    requires b == FixedLit() && |b| == 288 && PrefixFree(b) && g == 7 && s == Pow2(g - 1)
    ensures SymbolAt(b, s) == Some(257)
  {
    FixedCodes(b, 257);
    RevSmall(1, g);
    StartsAt(b, 257, g, s);
  }

  lemma DistanceStarts(b: seq<nat>, g: nat)
    requires b == FixedDist() && |b| == 30 && PrefixFree(b) && g == 5
    ensures SymbolAt(b, 0) == Some(0) && b[0] == 5
  {
    FixedDistances(b, 0);
    RevSmall(0, g);
    StartsAt(b, 0, g, 0);
  }

  /** Length code 0, distance code 0 and the end of the block, all without extra bits. */
  ghost predicate Sequence(c: Setup, s: nat, a: nat) {
    && Fit(c) && SymbolAt(c.lit, s) == Some(257) && SymbolAt(c.dist, 0) == Some(0) && SymbolAt(c.lit, 0) == Some(256)
    && Shr(s, c.lit[257]) == 0 && Shr(0, c.dist[0]) == 0 && Shr(0, c.lit[256]) == 0
    && c.al.lengthExtra[0] == 0 && c.al.distanceExtra[0] == 0 && c.al.distanceBase[0] == 1
    && c.lit[257] + c.dist[0] + c.lit[256] <= a
  }

  lemma SequenceCopy(c: Setup, past: seq<byte>, s: nat, a: nat, n: nat, a2: nat)
    requires Sequence(c, s, a) && |past| >= WSIZE && n == c.al.lengthBase[0] && a2 == a - c.lit[257] - c.dist[0]
    ensures |CopyBack(past, 1, n)| >= WSIZE && Opened(c, past, s, a) == Opened(c, CopyBack(past, 1, n), 0, a2)
  {
    var a1 := a - c.lit[257];
    OpenBlockIs(c, past, s, a, 257, 0, a1);
    OpenCopyIs(c, past, 0, 0, a1, 0);
  }

  lemma SequenceOpen(c: Setup, past: seq<byte>, s: nat, a: nat, n: nat, a': nat)
    requires Sequence(c, s, a) && |past| >= WSIZE && n == c.al.lengthBase[0]
      && a' == a - c.lit[257] - c.dist[0] - c.lit[256]
    ensures Opened(c, past, s, a) == Ended(CopyBack(past, 1, n), 0, a')
  {
    var a2 := a - c.lit[257] - c.dist[0];
    SequenceCopy(c, past, s, a, n, a2);
    OpenBlockIs(c, CopyBack(past, 1, n), 0, a2, 256, 0, a');
  }

  lemma SequenceTooFar(c: Setup, past: seq<byte>, s: nat, a: nat)
    requires Sequence(c, s, a) && |past| == WSIZE
    ensures Rfc(c, past, s, a) == TooFar
  {
    assert RfcCopy(c.al, c.lit, c.dist, past, 0, 0, a - c.lit[257]) == TooFar;
  }

  lemma Shifts(s: nat)
    requires s == 64
    ensures Shr(s, 7) == 0 && Shr(0, 7) == 0 && Shr(0, 5) == 0
  {
    SmallPowers();
    ShrUnique(s, 7, 0, s);
    ShrUnique(0, 7, 0, 0);
    ShrUnique(0, 5, 0, 0);
  }

  lemma FirstEntries(al: Alphabet)
    requires al == DEFLATE
    ensures |al.lengthBase| == |al.lengthExtra| == 31 && al.lengthBase[0] == 3 && al.lengthExtra[0] == 0
    ensures |al.distanceBase| == |al.distanceExtra| == 30 && al.distanceBase[0] == 1 && al.distanceExtra[0] == 0
  {
  }

  lemma EarlySequence(c: Setup, s: nat, a: nat)
    requires c == Fixed() && Fit(c) && |c.lit| == 288 && |c.dist| == 30 && PrefixFree(c.lit) && PrefixFree(c.dist)
    requires s == 64 && a == 24
    ensures Sequence(c, s, a) && c.lit[257] == c.lit[256] == 7 && c.dist[0] == 5 && c.al.lengthBase[0] == 3
  {
    SmallPowers();
    EndStarts(c.lit, 7);
    LengthStarts(c.lit, s, 7);
    DistanceStarts(c.dist, 5);
    FixedCodes(c.lit, 256);
    FixedCodes(c.lit, 257);
    FirstEntries(c.al);
    Shifts(s);
  }

  /** The codes of length 3, distance 1 and the end of the block, when there is no output yet. */
  lemma EarlyBlock(c: Setup, past: seq<byte>, s: nat, a: nat)
    requires c == Fixed() && Fit(c) && |past| == WSIZE && s == 64 && a == 24
    ensures Rfc(c, past, s, a) == TooFar && Opened(c, past, s, a) == Ended(CopyBack(past, 1, 3), 0, 5)
  {
    FixedLitIs(c.lit);
    FixedDistIs(c.dist);
    CodesArePrefixFree(c.lit);
    CodesArePrefixFree(c.dist);
    EarlySequence(c, s, a);
    SequenceOpen(c, past, s, a, 3, 5);
    SequenceTooFar(c, past, s, a);
  }

  /** The bytes 64, 0, 0 at the start of the output: three copies of what was in the window before. */
  method EarlyCopy(before: seq<byte>) returns (ret: nat, win: Window, ghost s: nat, ghost a: nat)
    requires |before| == WSIZE
    ensures s == Value([64, 0, 0]) && a == 24
    ensures Proper(DEFLATE) && |FixedLit()| == 288 && |FixedDist()| == 30
    ensures RfcBlock(DEFLATE, FixedLit(), FixedDist(), before, s, a) == TooFar
    ensures ret == 0 && win.past == CopyBack(before, 1, 3)
  {
    var rd := new BitReader([64, 0, 0]);
    s, a := rd.Stream(), rd.Avail();
    win := new Window(before);
    DeflateProper();
    InputIs();
    EarlyBlock(Fixed(), before, s, a);
    ret := InflateFixedBlock(rd, win);
  }

  lemma InputIs()
    ensures Value([64, 0, 0]) == 64
  {
    var z: seq<byte> := [0, 0];
    assert [64, 0, 0][1..] == z && z[1..] == [0] && [0][1..] == [];
    CatIs(0, 8, 0);
    CatIs(64, 8, 0);
  }
}
