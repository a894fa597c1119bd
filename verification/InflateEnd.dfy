/**
  The end of the input. A lookup may ask for more bits than its code has, and near the end of the input these may
  be missing although the block is complete. The source names a condition under which this cannot happen: that the
  end-of-block code is the longest. Here is the exact one, on the code lengths.
 */
module InflateEnd {
  import opened Bits
  import opened Common
  import opened HuftLengths
  import opened HuftCorrect
  import opened HuftTables
  import opened HuftRfc
  import opened HuftNeed
  import opened InflateWindow
  import opened InflateBits
  import opened InflateCodes
  import opened InflateRfc

  ghost function Rfc(c: Setup, past: seq<byte>, s: nat, a: nat): BlockResult
    requires Fit(c) && |past| >= WSIZE
  {
    RfcBlock(c.al, c.lit, c.dist, past, s, a)
  }

  /** The same with any distance. */
  ghost function Opened(c: Setup, past: seq<byte>, s: nat, a: nat): BlockResult
    requires Fit(c) && |past| >= WSIZE
  {
    OpenBlock(c.al, c.lit, c.dist, past, s, a)
  }

  /** What is accepted is decoded as RFC 1951 has it, but for distances before the output. */
  lemma {:induction false} LookIsOpen(c: Setup, past: seq<byte>, s: nat, a: nat)
    requires Fit(c) && |past| >= WSIZE
    ensures LookBlock(c, past, s, a).Ended? ==> Opened(c, past, s, a) == LookBlock(c, past, s, a)
    decreases a, 0
  {
    if LookBlock(c, past, s, a).Ended? {
      var sym := SymbolAt(c.lit, s).value;
      var s1, a1 := Shr(s, c.lit[sym]), a - c.lit[sym];
      LookBlockIs(c, past, s, a, sym, s1, a1);
      OpenBlockIs(c, past, s, a, sym, s1, a1);
      if sym < 256 {
        LookIsOpen(c, past + [sym], s1, a1);
      } else if sym > 256 {
        LookIsOpenCopy(c, past, sym - 257, s1, a1);
      }
    }
  }

  lemma {:induction false} LookIsOpenCopy(c: Setup, past: seq<byte>, i: nat, s: nat, a: nat)
    requires Fit(c) && |past| >= WSIZE && i < 29 && LookCopy(c, past, i, s, a).Ended?
    ensures OpenCopy(c.al, c.lit, c.dist, past, i, s, a) == LookCopy(c, past, i, s, a)
    decreases a, 1
  {
    var sym := SymbolAt(c.dist, Shr(s, c.al.lengthExtra[i])).value;
    LookCopyIs(c, past, i, s, a, sym);
    OpenCopyIs(c, past, i, s, a, sym);
    var to := CopyTo(c, past, i, s, a, sym);
    LookIsOpen(c, to.past, to.s, to.a);
  }

  // ---------------------------------------------------------------- what is left at the end

  ghost predicate HasEnd(c: Setup) {
    |c.lit| > 256 && 1 <= c.lit[256] <= BMAX
  }

  /** A block ends with the end-of-block code. */
  lemma {:induction false} EndedRoom(c: Setup, past: seq<byte>, s: nat, a: nat)
    requires Fit(c) && |past| >= WSIZE && Opened(c, past, s, a).Ended?
    ensures HasEnd(c) && c.lit[256] + Opened(c, past, s, a).avail <= a
    decreases a, 0
  {
    var sym := SymbolAt(c.lit, s).value;
    var s1, a1 := Shr(s, c.lit[sym]), a - c.lit[sym];
    OpenBlockIs(c, past, s, a, sym, s1, a1);
    if sym < 256 {
      EndedRoom(c, past + [sym], s1, a1);
    } else if sym > 256 {
      var d := CopyRoom(c, past, sym - 257, s1, a1);
    }
  }

  lemma {:induction false} CopyRoom(c: Setup, past: seq<byte>, i: nat, s: nat, a: nat) returns (d: nat)
    requires Fit(c) && |past| >= WSIZE && i < 29 && OpenCopy(c.al, c.lit, c.dist, past, i, s, a).Ended?
    ensures SymbolAt(c.dist, Shr(s, c.al.lengthExtra[i])) == Some(d) && HasEnd(c)
    ensures c.al.lengthExtra[i] + c.dist[d] + c.al.distanceExtra[d] + c.lit[256]
      + OpenCopy(c.al, c.lit, c.dist, past, i, s, a).avail <= a
    decreases a, 1
  {
    d := SymbolAt(c.dist, Shr(s, c.al.lengthExtra[i])).value;
    OpenCopyIs(c, past, i, s, a, d);
    var to := CopyTo(c, past, i, s, a, d);
    EndedRoom(c, to.past, to.s, to.a);
  }

  // ---------------------------------------------------------------- when it is enough

  ghost predicate HasLength(lit: seq<nat>) {
    exists sym :: 257 <= sym <= 285 && sym < |lit| && 1 <= lit[sym] <= BMAX
  }

  /** With `m` bits after it, any distance can be looked up. */
  ghost predicate DistancesEnough(c: Setup, m: nat)
    requires Fit(c)
  {
    HasLength(c.lit) ==> forall d {:trigger c.dist[d]} :: 0 <= d < |c.dist| && 1 <= c.dist[d] <= BMAX ==>
      Enough(c.dist, c.bd, d, c.dist[d] + c.al.distanceExtra[d] + m)
  }

  lemma DistancesMono(c: Setup, m: nat, m': nat)
    requires Fit(c) && DistancesEnough(c, m) && m <= m'
    ensures DistancesEnough(c, m')
  {
    if HasLength(c.lit) {
      forall d | 0 <= d < |c.dist| && 1 <= c.dist[d] <= BMAX
        ensures Enough(c.dist, c.bd, d, c.dist[d] + c.al.distanceExtra[d] + m')
      {
        EnoughMono(c.dist, c.bd, d, c.dist[d] + c.al.distanceExtra[d] + m, c.dist[d] + c.al.distanceExtra[d] + m');
      }
    }
  }

  /** The end-of-block code and what follows it decide. */
  ghost predicate Decided(c: Setup, look: BlockResult, rfc: BlockResult)
    requires HasEnd(c) && Fit(c)
  {
    rfc.Ended? ==> look == if Enough(c.lit, c.bl, 256, c.lit[256] + rfc.avail) then rfc else Underrun
  }

  /**
    Where distances are no problem, a block of RFC 1951 is accepted exactly if the bits of its end-of-block code
    and those after it are enough to look that code up.
   */
  lemma {:induction false} EndExact(c: Setup, past: seq<byte>, s: nat, a: nat)
    requires Fit(c) && HasEnd(c) && |past| >= WSIZE && Opened(c, past, s, a).Ended?
    requires DistancesEnough(c, c.lit[256] + Opened(c, past, s, a).avail)
    ensures Decided(c, LookBlock(c, past, s, a), Opened(c, past, s, a))
    decreases a, 0
  {
    FirstExact(c, past, s, a);
    var sym := SymbolAt(c.lit, s).value;
    if Enough(c.lit, c.bl, sym, a) && sym != 256 {
      var s1, a1 := Shr(s, c.lit[sym]), a - c.lit[sym];
      LookBlockIs(c, past, s, a, sym, s1, a1);
      OpenBlockIs(c, past, s, a, sym, s1, a1);
      if sym < 256 {
        EndExact(c, past + [sym], s1, a1);
      } else {
        assert HasLength(c.lit);
        EndExactCopy(c, past, sym - 257, s1, a1);
      }
    }
  }

  /** The first code of a block: what is enough for the end-of-block code is enough for it. */
  lemma FirstExact(c: Setup, past: seq<byte>, s: nat, a: nat)
    requires Fit(c) && HasEnd(c) && |past| >= WSIZE && Opened(c, past, s, a).Ended?
    ensures var r, rfc := SymbolAt(c.lit, s), Opened(c, past, s, a);
      && r.Some? && r.value <= 285 && c.lit[r.value] <= a
      && (Enough(c.lit, c.bl, 256, c.lit[256] + rfc.avail) ==> Enough(c.lit, c.bl, r.value, a))
      && (r.value == 256 ==> Decided(c, LookBlock(c, past, s, a), rfc))
  {
    var sym, rfc := SymbolAt(c.lit, s).value, Opened(c, past, s, a);
    var s1, a1 := Shr(s, c.lit[sym]), a - c.lit[sym];
    OpenBlockIs(c, past, s, a, sym, s1, a1);
    if sym < 256 {
      EndedRoom(c, past + [sym], s1, a1);
    } else if sym > 256 {
      var d := CopyRoom(c, past, sym - 257, s1, a1);
    }
    if sym != 256 && Enough(c.lit, c.bl, 256, c.lit[256] + rfc.avail) {
      EnoughBefore(c.lit, c.bl, 256, c.lit[256] + rfc.avail, sym, a);
    }
  }

  lemma {:induction false} EndExactCopy(c: Setup, past: seq<byte>, i: nat, s: nat, a: nat)
    requires Fit(c) && HasEnd(c) && |past| >= WSIZE && i < 29 && HasLength(c.lit)
    requires OpenCopy(c.al, c.lit, c.dist, past, i, s, a).Ended?
    requires DistancesEnough(c, c.lit[256] + OpenCopy(c.al, c.lit, c.dist, past, i, s, a).avail)
    ensures Decided(c, LookCopy(c, past, i, s, a), OpenCopy(c.al, c.lit, c.dist, past, i, s, a))
    decreases a, 1
  {
    var m := c.lit[256] + OpenCopy(c.al, c.lit, c.dist, past, i, s, a).avail;
    var d := CopyRoom(c, past, i, s, a);
    EnoughMono(c.dist, c.bd, d, c.dist[d] + c.al.distanceExtra[d] + m, a - c.al.lengthExtra[i]);
    LookCopyIs(c, past, i, s, a, d);
    OpenCopyIs(c, past, i, s, a, d);
    var to := CopyTo(c, past, i, s, a, d);
    EndExact(c, to.past, to.s, to.a);
  }

  // ---------------------------------------------------------------- the condition on the lengths

  /**
    Nothing after the end-of-block code is ever asked for: its own bits are enough to look it up, and together
    with any distance they are enough to look that up.
   */
  ghost predicate Tight(c: Setup)
    requires Fit(c) && HasEnd(c)
  {
    Enough(c.lit, c.bl, 256, c.lit[256]) && DistancesEnough(c, c.lit[256])
  }

  ghost predicate Accepts(c: Setup, past: seq<byte>, s: nat, a: nat) {
    Fit(c) && |past| >= WSIZE && LookBlock(c, past, s, a).Ended?
  }

  /** A block that is complete and not accepted. */
  ghost predicate Missed(c: Setup, past: seq<byte>, s: nat, a: nat)
    requires Fit(c) && |past| >= WSIZE
  {
    Opened(c, past, s, a).Ended? && LookBlock(c, past, s, a) != Opened(c, past, s, a)
  }

  /** A block that RFC 1951 decodes and the source does not. */
  ghost predicate Refused(c: Setup, past: seq<byte>, s: nat, a: nat)
    requires Fit(c) && |past| >= WSIZE
  {
    Rfc(c, past, s, a).Ended? && LookBlock(c, past, s, a) != Rfc(c, past, s, a)
  }

  lemma RefusedIs(c: Setup, past: seq<byte>, s: nat, a: nat)
    requires Fit(c) && |past| >= WSIZE
    ensures Refused(c, past, s, a) ==> Missed(c, past, s, a)
    ensures |past| >= 2 * WSIZE ==> (Refused(c, past, s, a) <==> Missed(c, past, s, a))
  {
    RfcIsOpen(c.al, c.lit, c.dist, past, s, a);
  }

  lemma TightAccepts(c: Setup, past: seq<byte>, s: nat, a: nat)
    requires Fit(c) && HasEnd(c) && Tight(c) && |past| >= WSIZE
    ensures !Missed(c, past, s, a)
  {
    if Opened(c, past, s, a).Ended? {
      var m := c.lit[256] + Opened(c, past, s, a).avail;
      DistancesMono(c, c.lit[256], m);
      EnoughMono(c.lit, c.bl, 256, c.lit[256], m);
      EndExact(c, past, s, a);
    }
  }

  /** With 16 bits after the block nothing is refused. */
  lemma SpareAccepts(c: Setup, past: seq<byte>, s: nat, a: nat)
    requires Fit(c) && |past| >= WSIZE && Opened(c, past, s, a).Ended? && Opened(c, past, s, a).avail >= 16
    ensures !Missed(c, past, s, a)
  {
    EndedRoom(c, past, s, a);
    EndExact(c, past, s, a);
  }

  /** The condition of the source: the end-of-block code is the longest. */
  lemma LongestIsTight(c: Setup)
    requires Fit(c) && HasEnd(c)
    requires forall i :: 0 <= i < |c.lit| ==> c.lit[i] <= c.lit[256]
    requires forall d :: 0 <= d < |c.dist| ==> c.dist[d] <= c.lit[256]
    ensures Tight(c)
  {
  }

  // ---------------------------------------------------------------- a block that is refused

  /** The code of `sym`, first bit lowest. */
  ghost function Word(b: seq<nat>, sym: nat): (v: nat)
    requires sym < |b| && 1 <= b[sym] <= BMAX
    ensures v < Pow2(b[sym])
  {
    MidBound(CanonicalCode(b, sym), b[sym], 0, b[sym]);
    Rev(CanonicalCode(b, sym), b[sym], b[sym])
  }

  /** An input that begins with the code of `sym` and goes on with `rest`. */
  lemma Begins(b: seq<nat>, sym: nat, rest: nat, m: nat) returns (s: nat)
    requires PrefixFree(b) && sym < |b| && 1 <= b[sym] <= BMAX && rest < Pow2(m)
    ensures SymbolAt(b, s) == Some(sym) && Shr(s, b[sym]) == rest && s < Pow2(b[sym] + m)
  {
    var k, v := b[sym], Word(b, sym);
    s := Cat(v, k, rest);
    CatBound(v, k, rest, m);
    CatLow(v, k, rest, k);
    CatShr(v, k, rest, k);
    LowRev(CanonicalCode(b, sym), k);
    assert StartsWith(s, b, sym);
  }

  /** Zero bits before `rest`. */
  lemma Zeros(x: nat, rest: nat, m: nat) returns (s: nat)
    requires rest < Pow2(m)
    ensures Shr(s, x) == rest && s < Pow2(x + m)
  {
    s := Cat(0, x, rest);
    CatBound(0, x, rest, m);
    CatShr(0, x, rest, x);
  }

  lemma JustTheEnd(c: Setup, past: seq<byte>) returns (s: nat)
    requires Fit(c) && HasEnd(c) && PrefixFree(c.lit) && |past| >= WSIZE
    ensures s < Pow2(c.lit[256]) && SymbolAt(c.lit, s) == Some(256)
    ensures Opened(c, past, s, c.lit[256]) == Ended(past, 0, 0)
  {
    s := Begins(c.lit, 256, 0, 0);
    OpenBlockIs(c, past, s, c.lit[256], 256, 0, 0);
  }

  /** An input of the distance `d`, `y` zero bits and the end of the block. */
  lemma DistanceInput(c: Setup, d: nat, y: nat, m: nat) returns (s2: nat, s4: nat)
    requires HasEnd(c) && PrefixFree(c.lit) && PrefixFree(c.dist) && d < |c.dist| && 1 <= c.dist[d] <= BMAX
    requires m == c.dist[d] + (y + c.lit[256])
    ensures SymbolAt(c.dist, s2) == Some(d) && s4 == Shr(Shr(s2, c.dist[d]), y) && s2 < Pow2(m)
    ensures SymbolAt(c.lit, s4) == Some(256)
  {
    s4 := Begins(c.lit, 256, 0, 0);
    var s3 := Zeros(y, s4, c.lit[256]);
    s2 := Begins(c.dist, d, s3, y + c.lit[256]);
  }

  /** An input of a length and `x` zero bits before that. */
  lemma LengthInput(c: Setup, sym: nat, d: nat, x: nat, y: nat, m: nat) returns (s: nat, s1: nat, s4: nat)
    requires HasEnd(c) && PrefixFree(c.lit) && PrefixFree(c.dist)
    requires sym < |c.lit| && 1 <= c.lit[sym] <= BMAX && d < |c.dist| && 1 <= c.dist[d] <= BMAX
    requires m == c.lit[sym] + (x + (c.dist[d] + (y + c.lit[256])))
    ensures SymbolAt(c.lit, s) == Some(sym) && s1 == Shr(s, c.lit[sym]) && s < Pow2(m)
    ensures SymbolAt(c.dist, Shr(s1, x)) == Some(d) && s4 == Shr(Shr(Shr(s1, x), c.dist[d]), y)
    ensures SymbolAt(c.lit, s4) == Some(256)
  {
    var n := c.dist[d] + (y + c.lit[256]);
    var s2;
    s2, s4 := DistanceInput(c, d, y, n);
    s1 := Zeros(x, s2, n);
    s := Begins(c.lit, sym, s1, x + n);
  }

  /** Such a block is refused if its distance asks for too much. */
  lemma LengthAndEnd(c: Setup, past: seq<byte>, sym: nat, d: nat) returns (s: nat, a: nat)
    requires Fit(c) && HasEnd(c) && PrefixFree(c.lit) && PrefixFree(c.dist) && |past| >= WSIZE
    requires 257 <= sym <= 285 && sym < |c.lit| && 1 <= c.lit[sym] <= BMAX
    requires d < |c.dist| && 1 <= c.dist[d] <= BMAX
    requires !Enough(c.dist, c.bd, d, c.dist[d] + c.al.distanceExtra[d] + c.lit[256])
    ensures s < Pow2(a) && Missed(c, past, s, a)
  {
    var x, y := c.al.lengthExtra[sym - 257], c.al.distanceExtra[d];
    var a1 := x + c.dist[d] + y + c.lit[256];
    a := c.lit[sym] + a1;
    var s1, s4;
    s, s1, s4 := LengthInput(c, sym, d, x, y, a);
    CopyThenEnd(c, past, sym, d, s, a, s1, a1, s4);
    NoDistance(c, past, sym, s, a, s1, a1, d);
  }

  lemma CopyThenEnd(c: Setup, past: seq<byte>, sym: nat, d: nat, s: nat, a: nat, s1: nat, a1: nat, s4: nat)
    requires Fit(c) && HasEnd(c) && |past| >= WSIZE && 257 <= sym <= 285 && SymbolAt(c.lit, s) == Some(sym)
    requires s1 == Shr(s, c.lit[sym]) && a == c.lit[sym] + a1
    requires SymbolAt(c.dist, Shr(s1, c.al.lengthExtra[sym - 257])) == Some(d)
    requires s4 == Shr(Shr(Shr(s1, c.al.lengthExtra[sym - 257]), c.dist[d]), c.al.distanceExtra[d])
    requires SymbolAt(c.lit, s4) == Some(256)
    requires a1 == c.al.lengthExtra[sym - 257] + c.dist[d] + c.al.distanceExtra[d] + c.lit[256]
    ensures Opened(c, past, s, a).Ended?
  {
    OpenBlockIs(c, past, s, a, sym, s1, a1);
    OpenCopyIs(c, past, sym - 257, s1, a1, d);
    var to := CopyTo(c, past, sym - 257, s1, a1, d);
    OpenBlockIs(c, to.past, s4, c.lit[256], 256, Shr(s4, c.lit[256]), 0);
  }

  /** The block is refused at the distance, if not before. */
  lemma NoDistance(c: Setup, past: seq<byte>, sym: nat, s: nat, a: nat, s1: nat, a1: nat, d: nat)
    requires Fit(c) && |past| >= WSIZE && 257 <= sym <= 285 && SymbolAt(c.lit, s) == Some(sym)
    requires s1 == Shr(s, c.lit[sym]) && a1 == a - c.lit[sym] && c.al.lengthExtra[sym - 257] <= a1
    requires SymbolAt(c.dist, Shr(s1, c.al.lengthExtra[sym - 257])) == Some(d)
    requires !Enough(c.dist, c.bd, d, a1 - c.al.lengthExtra[sym - 257])
    ensures !LookBlock(c, past, s, a).Ended?
  {
    if Enough(c.lit, c.bl, sym, a) {
      LookBlockIs(c, past, s, a, sym, s1, a1);
    }
  }

  /** Otherwise some block is refused, after any output that fills the window. */
  lemma LooseRefuses(c: Setup, past: seq<byte>) returns (s: nat, a: nat)
    requires Fit(c) && HasEnd(c) && PrefixFree(c.lit) && PrefixFree(c.dist) && !Tight(c) && |past| >= 2 * WSIZE
    ensures s < Pow2(a) && Refused(c, past, s, a)
  {
    if !Enough(c.lit, c.bl, 256, c.lit[256]) {
      s := JustTheEnd(c, past);
      a := c.lit[256];
    } else {
      var sym :| 257 <= sym <= 285 && sym < |c.lit| && 1 <= c.lit[sym] <= BMAX;
      var d :| 0 <= d < |c.dist| && 1 <= c.dist[d] <= BMAX
        && !Enough(c.dist, c.bd, d, c.dist[d] + c.al.distanceExtra[d] + c.lit[256]);
      s, a := LengthAndEnd(c, past, sym, d);
    }
    RefusedIs(c, past, s, a);
  }

  /** Some block is refused, in some stream. */
  ghost predicate SomeRefused(c: Setup)
    requires Fit(c)
  {
    exists past: seq<byte>, s: nat, a: nat :: |past| >= WSIZE && s < Pow2(a) && Refused(c, past, s, a)
  }

  /** Exactly these code lengths never make the source refuse a block. */
  lemma RefusesIff(c: Setup)
    requires Fit(c) && HasEnd(c) && PrefixFree(c.lit) && PrefixFree(c.dist)
    ensures SomeRefused(c) <==> !Tight(c)
  {
    if Tight(c) {
      forall past: seq<byte>, s: nat, a: nat | |past| >= WSIZE ensures !Refused(c, past, s, a) {
        TightAccepts(c, past, s, a);
        RefusedIs(c, past, s, a);
      }
    } else {
      var past: seq<byte> := seq(2 * WSIZE, _ => 0);
      var s, a := LooseRefuses(c, past);
      assert |past| >= WSIZE && s < Pow2(a) && Refused(c, past, s, a);
    }
  }

  /** The block is complete; it is RFC 1951's, or some distance reaches before the output. */
  ghost predicate Complete(rfc: BlockResult, open: BlockResult) {
    rfc.Ended? || (rfc.TooFar? && open.Ended?)
  }

  /** Whatever the block, this is what acceptance comes to. */
  lemma BlockAccepts(c: Setup, tl: seq<seq<Huft>>, td: seq<seq<Huft>>, past: seq<byte>, s: nat, a: nat)
    requires Equipped(c, tl, td) && |past| >= WSIZE
    ensures var r, open, rfc := Block(tl, c.bl, td, c.bd, past, s, a), Opened(c, past, s, a), Rfc(c, past, s, a);
      && (r.Ended? <==> Accepts(c, past, s, a)) && (r.Ended? ==> open == r) && (open.Ended? <==> Complete(rfc, open))
      && (rfc.Ended? ==> open == rfc) && (open.Ended? && HasEnd(c) && Tight(c) ==> r.Ended?)
      && (open.Ended? && open.avail >= 16 ==> r.Ended?)
  {
    BlockIsRfc(c, tl, td, past, s, a);
    LookIsOpen(c, past, s, a);
    RfcIsOpen(c.al, c.lit, c.dist, past, s, a);
    if HasEnd(c) && Tight(c) { TightAccepts(c, past, s, a); }
    if Opened(c, past, s, a).Ended? && Opened(c, past, s, a).avail >= 16 { SpareAccepts(c, past, s, a); }
  }
}
