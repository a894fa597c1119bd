/**
  The sliding window of lib/inflate.c: a buffer of WSIZE bytes that wraps around, flushed each
  time it is full. `past` is what the window stands for, its initial contents followed by
  everything written since, without any wrapping.
 */
module InflateWindow {
  import opened Common

  const WSIZE: nat := 0x8000

  /** The byte `dist` places back is appended. */
  ghost function Again(s: seq<byte>, dist: nat): (r: seq<byte>)
    requires 1 <= dist <= |s|
    ensures |r| == |s| + 1
  {
    s + [s[|s| - dist]]
  }

  /** The LZ77 copy: `n` times, append the byte `dist` places back. */
  ghost function CopyBack(s: seq<byte>, dist: nat, n: nat): (r: seq<byte>)
    requires 1 <= dist <= |s|
    ensures |r| == |s| + n
    decreases n
  {
    if n == 0 then s else CopyBack(Again(s, dist), dist, n - 1)
  }

  /** Every copied byte repeats the one `dist` places before it. */
  lemma {:induction false} CopyBackAt(s: seq<byte>, dist: nat, n: nat)
    requires 1 <= dist <= |s|
    ensures s <= CopyBack(s, dist, n)
    ensures forall i :: |s| <= i < |s| + n ==> CopyBack(s, dist, n)[i] == CopyBack(s, dist, n)[i - dist]
    decreases n
  {
    if n > 0 {
      var s', r := Again(s, dist), CopyBack(s, dist, n);
      CopyBackAt(s', dist, n - 1);
      assert s' <= r && r[|s|] == s'[|s|] && r[|s| - dist] == s'[|s| - dist];
    }
  }

  /** A copy in two parts. */
  lemma {:induction false} CopyBackSplit(s: seq<byte>, dist: nat, m: nat, n: nat)
    requires 1 <= dist <= |s|
    ensures CopyBack(CopyBack(s, dist, m), dist, n) == CopyBack(s, dist, m + n)
    decreases m
  {
    if m > 0 { CopyBackSplit(Again(s, dist), dist, m - 1, n); }
  }

  lemma CopyBackFirst(s: seq<byte>, dist: nat, n: nat)
    requires 1 <= dist <= |s| && n > 0
    ensures CopyBack(s, dist, n) == CopyBack(Again(s, dist), dist, n - 1)
  {
  }

  lemma {:induction false} CopyBackLast(s: seq<byte>, dist: nat, n: nat)
    requires 1 <= dist <= |s| && n > 0
    ensures CopyBack(s, dist, n) == Again(CopyBack(s, dist, n - 1), dist)
    decreases n
  {
    if n > 1 { CopyBackLast(Again(s, dist), dist, n - 1); }
  }

  lemma CopyBackRest(s: seq<byte>, dist: nat, e: nat, n0: nat, n: nat)
    requires 1 <= dist <= |s| && e + n == n0
    ensures CopyBack(CopyBack(s, dist, e), dist, n) == CopyBack(s, dist, n0)
  {
    CopyBackSplit(s, dist, e, n);
  }

  /** A copy that does not reach its own output is a block move. */
  lemma {:induction false} CopyBackBlock(s: seq<byte>, dist: nat, n: nat)
    requires 1 <= dist <= |s| && n <= dist
    ensures CopyBack(s, dist, n) == s + s[|s| - dist..|s| - dist + n]
    decreases n
  {
    if n > 0 {
      CopyBackBlock(s, dist, n - 1);
      CopyBackLast(s, dist, n);
      BlockMore(s, |s| - dist, n - 1, dist);
    }
  }

  lemma BlockMore(s: seq<byte>, a: nat, n: nat, dist: nat)
    requires 1 <= dist <= |s| && a == |s| - dist && n < dist
    ensures Again(s + s[a..a + n], dist) == s + s[a..a + n + 1]
  {
    var r := s + s[a..a + n];
    assert r[|r| - dist] == s[a + n];
    assert s[a..a + n] + [s[a + n]] == s[a..a + n + 1];
  }

  /** What slot `i` of the window holds when `w` bytes of this round have been written. */
  ghost function SlotOf(past: seq<byte>, w: nat, i: nat): byte
    requires i < WSIZE && w <= WSIZE <= |past|
  {
    if i < w then past[|past| - w + i] else past[|past| - w - WSIZE + i]
  }

  ghost predicate Holds(slide: seq<byte>, past: seq<byte>, w: nat) {
    && |slide| == WSIZE <= |past| && w <= WSIZE
    && forall i :: 0 <= i < WSIZE ==> slide[i] == SlotOf(past, w, i)
  }

  function Written(slide: seq<byte>, w: nat, add: seq<byte>): (r: seq<byte>)
    requires w + |add| <= |slide|
    ensures |r| == |slide|
  {
    slide[..w] + add + slide[w + |add|..]
  }

  lemma WrittenOne(slide: seq<byte>, w: nat, y: byte)
    requires w < |slide|
    ensures Written(slide, w, [y]) == slide[w := y]
  {
  }

  /** The window and what has been flushed from it are the end of `past`, beyond the initial contents. */
  ghost predicate Shows(slide: seq<byte>, w: nat, flushed: seq<byte>, past: seq<byte>) {
    Holds(slide, past, w) && past[WSIZE..] == flushed + slide[..w]
  }

  lemma WrittenHolds(slide: seq<byte>, past: seq<byte>, w: nat, add: seq<byte>)
    requires Holds(slide, past, w) && w + |add| <= WSIZE
    ensures Holds(Written(slide, w, add), past + add, w + |add|)
  {
  }

  /** Writing a block at `w`. */
  lemma WrittenShows(slide: seq<byte>, w: nat, flushed: seq<byte>, past: seq<byte>, add: seq<byte>, slide': seq<byte>,
                     w': nat, past': seq<byte>)
    requires Shows(slide, w, flushed, past) && w + |add| <= WSIZE
    requires slide' == Written(slide, w, add) && w' == w + |add| && past' == past + add
    ensures Shows(slide', w', flushed, past')
  {
    WrittenHolds(slide, past, w, add);
    assert past'[WSIZE..] == past[WSIZE..] + add;
    assert slide'[..w'] == slide[..w] + add;
  }

  lemma WrapShows(slide: seq<byte>, flushed: seq<byte>, past: seq<byte>, flushed': seq<byte>)
    requires Shows(slide, WSIZE, flushed, past) && flushed' == flushed + slide[..WSIZE]
    ensures Shows(slide, 0, flushed', past)
  {
  }

  /** Slot `d` lies `dist` places before slot `w`, around the end of the window. */
  ghost predicate Behind(d: nat, w: nat, dist: nat) {
    d < WSIZE && 1 <= dist <= WSIZE && (d + dist == w || d + dist == w + WSIZE)
  }

  lemma BehindHolds(slide: seq<byte>, past: seq<byte>, d: nat, w: nat, dist: nat)
    requires Holds(slide, past, w) && Behind(d, w, dist)
    ensures slide[d] == past[|past| - dist]
  {
  }

  /** A block that ends before the window does. */
  lemma BehindBlock(slide: seq<byte>, past: seq<byte>, d: nat, w: nat, dist: nat, e: nat)
    requires Holds(slide, past, w) && Behind(d, w, dist) && d + e <= WSIZE && w + e <= WSIZE && e <= dist
    ensures slide[d..d + e] == past[|past| - dist..|past| - dist + e]
  {
    var a, b := slide[d..d + e], past[|past| - dist..|past| - dist + e];
    forall i | 0 <= i < e ensures a[i] == b[i] {
      assert a[i] == slide[d + i] && b[i] == past[|past| - dist + i];
    }
  }

  lemma FastBlock(slide: seq<byte>, past: seq<byte>, d: nat, w: nat, dist: nat, e: nat)
    requires Holds(slide, past, w) && Behind(d, w, dist) && d + e <= WSIZE && w + e <= WSIZE && e <= dist
    ensures past + slide[d..d + e] == CopyBack(past, dist, e)
  {
    BehindBlock(slide, past, d, w, dist, e);
    CopyBackBlock(past, dist, e);
  }

  const U32: nat := 0x1_0000_0000

  /** lib/string.c: `memcpy`, byte by byte from the front. */
  method MemCopy(a: array<byte>, dst: nat, src: nat, n: nat)
    requires dst + n <= a.Length && src + n <= a.Length && (dst <= src || src + n <= dst)
    modifies a
    ensures a[..] == Written(old(a[..]), dst, old(a[..])[src..src + n])
  {
    ghost var s := a[..];
    var k := 0;
    while k < n
      invariant 0 <= k <= n && a[..] == Written(s, dst, s[src..src + k])
    {
      CopyStep(s, dst, src, k);
      ghost var r := a[..];
      a[dst + k] := a[src + k];
      assert a[..] == r[dst + k := s[src + k]];
      k := k + 1;
    }
  }

  lemma CopyStep(s: seq<byte>, dst: nat, src: nat, k: nat)
    requires dst + k < |s| && src + k < |s| && (dst <= src || src + k < dst)
    ensures var r := Written(s, dst, s[src..src + k]);
            r[src + k] == s[src + k] && r[dst + k := s[src + k]] == Written(s, dst, s[src..src + k + 1])
  {
    var add := s[src..src + k];
    assert s[src..src + k + 1] == add + [s[src + k]];
    assert s[dst + k..] == [s[dst + k]] + s[dst + k + 1..];
  }

  /** `d & (WSIZE - 1)` */
  function Mask(d: nat): nat {
    d % WSIZE
  }

  /** The bytes up to the end of the window, but not more than `n`. */
  function ChunkSize(d: nat, w: nat, n: nat): (e: nat)
    requires d < WSIZE && w < WSIZE && n >= 1
    ensures 1 <= e <= n && d + e <= WSIZE && w + e <= WSIZE
  {
    var e := WSIZE - (if d > w then d else w);
    if e > n then n else e
  }

  /** The unsigned difference of two 32-bit numbers. */
  function Minus(a: nat, b: nat): nat {
    (a - b) % U32
  }

  class Window {
    const slide: array<byte>
    var w: nat
    var flushed: seq<byte>
    ghost var past: seq<byte>

    ghost predicate Partial()
      reads this, slide
    {
      slide.Length == WSIZE && Shows(slide[..], w, flushed, past)
    }

    ghost predicate Valid()
      reads this, slide
    {
      Partial() && w < WSIZE
    }

    /** All output so far, flushed or not. */
    ghost function Output(): seq<byte>
      requires Partial()
      reads this, slide
    {
      flushed + slide[..w]
    }

    constructor (contents: seq<byte>)
      requires |contents| == WSIZE
      ensures Valid() && fresh(slide) && past == contents && Output() == []
    {
      slide := new byte[WSIZE](i requires 0 <= i < |contents| => contents[i]);
      w, flushed, past := 0, [], contents;
      new;
      assert slide[..] == contents;
    }

    /** `flush_output` of a full window. */
    method FlushIfFull()
      requires Partial()
      modifies this
      ensures Valid() && past == old(past)
      ensures w == if old(w) == WSIZE then 0 else old(w)
    {
      if w == WSIZE {
        ghost var before := flushed;
        flushed := flushed + slide[..w];
        w := 0;
        WrapShows(slide[..], before, past, flushed);
      }
    }

    /** Lines 586-592: a literal byte. */
    method Put(c: byte)
      requires Valid()
      modifies this, slide
      ensures Valid() && past == old(past) + [c]
    {
      ghost var was, w0, past0 := slide[..], w, past;
      slide[w] := c;
      w := w + 1;
      past := past + [c];
      assert slide[..] == was[w0 := c];
      WrittenOne(was, w0, c);
      WrittenShows(was, w0, flushed, past0, [c], slide[..], w, past);
      FlushIfFull();
    }

    /** Lines 627-629, the `memcpy` path: `e` bytes at once. */
    method CopyFast(d: nat, e: nat, ghost dist: nat)
      requires Partial() && Behind(d, w, dist) && d + e <= WSIZE && w + e <= WSIZE && e <= dist
        && (w <= d || d + e <= w)
      modifies this, slide
      ensures Partial() && past == CopyBack(old(past), dist, e) && w == old(w) + e
    {
      ghost var was, w0, past0 := slide[..], w, past;
      ghost var add := was[d..d + e];
      FastBlock(was, past, d, w, dist, e);
      MemCopy(slide, w, d, e);
      w := w + e;
      past := past + add;
      WrittenShows(was, w0, flushed, past0, add, slide[..], w, past);
    }

    method CopyOne(d: nat, ghost dist: nat)
      requires Valid() && Behind(d, w, dist)
      modifies this, slide
      ensures Partial() && past == Again(old(past), dist) && w == old(w) + 1
    {
      ghost var was, w0, past0 := slide[..], w, past;
      BehindHolds(was, past, d, w, dist);
      slide[w] := slide[d];
      w := w + 1;
      past := past + [was[d]];
      assert slide[..] == was[w0 := was[d]];
      WrittenOne(was, w0, was[d]);
      WrittenShows(was, w0, flushed, past0, [was[d]], slide[..], w, past);
    }

    /** Lines 633-636: byte by byte, as the copy may reach its own output. */
    method CopySlow(d0: nat, e0: nat, ghost dist: nat)
      requires Partial() && Behind(d0, w, dist) && d0 + e0 <= WSIZE && w + e0 <= WSIZE
      modifies this, slide
      ensures Partial() && past == CopyBack(old(past), dist, e0) && w == old(w) + e0
    {
      ghost var all, w1 := CopyBack(past, dist, e0), w + e0;
      var d, e: nat := d0, e0;
      while e > 0
        invariant Partial() && w + e == w1 && d + e == d0 + e0 && Behind(d, w, dist) == (d < WSIZE)
        invariant CopyBack(past, dist, e) == all
      {
        CopyBackFirst(past, dist, e);
        CopyOne(d, dist);
        d, e := d + 1, e - 1;
      }
    }

    method CopyChunk(d: nat, e: nat, ghost dist: nat)
      requires Partial() && Behind(d, w, dist) && d + e <= WSIZE && w + e <= WSIZE
      modifies this, slide
      ensures Partial() && past == CopyBack(old(past), dist, e) && w == old(w) + e
    {
      if Minus(w, d) >= e {
        CopyFast(d, e, dist);
      } else {
        CopySlow(d, e, dist);
      }
    }

    /** Lines 623-641: up to the end of the window, at the source or at the destination. */
    method CopyRound(d0: nat, n0: nat, ghost dist: nat) returns (d: nat, n: nat)
      requires Valid() && Behind(Mask(d0), w, dist) && n0 >= 1
      modifies this, slide
      ensures Valid() && n < n0 && CopyBack(past, dist, n) == CopyBack(old(past), dist, n0)
      ensures Behind(Mask(d), w, dist)
    {
      ghost var w0, past0 := w, past;
      var from := Mask(d0);
      var e := ChunkSize(from, w, n0);
      d, n := from + e, n0 - e;
      CopyChunk(from, e, dist);
      FlushIfFull();
      NextBehind(from, w0, dist, e, d, w);
      CopyBackRest(past0, dist, e, n0, n);
    }

    /** Lines 617 and 622-642: the copy of `n0` bytes from `dist` back. */
    method Copy(dist: nat, n0: nat)
      requires Valid() && 1 <= dist <= WSIZE && n0 >= 1
      modifies this, slide
      ensures Valid() && past == CopyBack(old(past), dist, n0)
    {
      var d: nat, n: nat := Minus(w, dist), n0;
      StartBehind(d, w, dist);
      while n > 0
        invariant Valid() && Behind(Mask(d), w, dist) && CopyBack(past, dist, n) == CopyBack(old(past), dist, n0)
      {
        d, n := CopyRound(d, n, dist);
      }
    }
  }

  lemma StartBehind(d: nat, w: nat, dist: nat)
    requires w < WSIZE && 1 <= dist <= WSIZE && d == Minus(w, dist)
    ensures Behind(Mask(d), w, dist)
  {
    if dist <= w {
      assert d == w - dist;
    } else {
      assert d == w - dist + U32;
      assert d == (w - dist + WSIZE) + WSIZE * 0x1ffff;
    }
  }

  lemma NextBehind(d: nat, w: nat, dist: nat, e: nat, d': nat, w': nat)
    requires Behind(d, w, dist) && w < WSIZE && d + e <= WSIZE && w + e <= WSIZE
    requires d' == d + e && w' == if w + e == WSIZE then 0 else w + e
    ensures Behind(Mask(d'), w', dist)
  {
    if d' < WSIZE {
      assert Mask(d') == d';
    } else {
      assert Mask(d') == 0;
    }
  }
}
