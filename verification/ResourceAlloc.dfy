/**
  Finding room in a resource tree. Addresses are 64-bit: the start of a gap wraps after a child that ends at the
  last address, and so does aligning near the end of the address space.
 */
module ResourceAlloc {
  import opened Bits
  import opened Resource
  import opened ResourceRegion

  const EBUSY: int := 16

  function Max(a: nat, b: nat): nat {
    if a < b then b else a
  }

  /** What is asked of a range besides its size: bounds, and an alignment to `1 << align`. */
  datatype Limits = Limits(min: nat, max: nat, align: nat) {
    predicate Proper() {
      min < U64 && max < U64 && align < 64
    }
  }

  /** `ALIGN(x, 1 << k)` on 64-bit numbers. */
  function Align(x: nat, k: nat): (r: nat)
    ensures r < U64
  {
    var v := (x + Pow2(k) - 1) % U64;
    LowBelow(v, k);
    v - Low(v, k)
  }

  /** The least multiple of `2^k` from `x` on, unless the sum wraps. */
  lemma AlignIs(x: nat, k: nat, s: nat)
    requires x + Pow2(k) <= U64
    ensures x <= Align(x, k) && Low(Align(x, k), k) == 0
    ensures x <= s && Low(s, k) == 0 ==> Align(x, k) <= s
  {
    var v, p := x + Pow2(k) - 1, Pow2(k);
    assert v % U64 == v;
    ShrLow(v, k);
    assert Align(x, k) == Shr(v, k) * p + 0;
    ShrUnique(Align(x, k), k, Shr(v, k), 0);
    ShrLow(s, k);
    if x <= s && Low(s, k) == 0 {
      Compare(Shr(v, k), Shr(s, k), p);
    }
  }

  lemma Compare(a: nat, b: nat, p: nat)
    requires p >= 1
    ensures a <= b ==> a * p <= b * p
    ensures a > b ==> b * p + p <= a * p
  {
    if a <= b {
      Distribute(a, b - a, p);
      assert (b - a) * p >= 0;
    } else {
      Distribute(b, 1, p);
      Distribute(b + 1, a - b - 1, p);
      assert (a - b - 1) * p >= 0;
    }
  }

  /** From a multiple of `2^k` to the end of the address space it is `2^k` at least. */
  lemma MultipleBelow(s: nat, k: nat, w: nat)
    requires k < 64 == w && s < U64 && Low(s, k) == 0
    ensures s + Pow2(k) <= U64
  {
    Pow2Of64(w);
    Pow2Add(w - k, k);
    ShrLow(s, k);
    Compare(Pow2(w - k), Shr(s, k), Pow2(k));
  }

  // ---------------------------------------------------------------- gaps

  /** `i` numbers a gap among the children of `root`: the one before entry `i`, or after the last. */
  ghost predicate Gap(mem: Mem, kids: Kids, root: Ptr, i: nat) {
    && root in mem && root in kids && i <= |kids[root]|
    && (i > 0 ==> kids[root][i - 1] in mem) && (i < |kids[root]| ==> kids[root][i] in mem)
  }

  lemma GapOk(mem: Mem, kids: Kids, depth: Depths, root: Ptr, i: nat)
    requires Linked(mem, kids, depth) && root in mem && i <= |kids[root]|
    ensures Gap(mem, kids, root, i)
  {
    if i > 0 { ChildNotRoot(mem, kids, depth, root, i - 1); }
    if i < |kids[root]| { ChildNotRoot(mem, kids, depth, root, i); }
  }

  /** Where gap `i` starts; this may be just past the last address. */
  ghost function GapStart(mem: Mem, kids: Kids, root: Ptr, i: nat): nat
    requires Gap(mem, kids, root, i)
  {
    if i == 0 then mem[root].start else mem[kids[root][i - 1]].end + 1
  }

  ghost function GapEnd(mem: Mem, kids: Kids, root: Ptr, i: nat): int
    requires Gap(mem, kids, root, i)
  {
    if i < |kids[root]| then mem[kids[root][i]].start - 1 else mem[root].end
  }

  /** A range of `size` from `s` on would do. */
  ghost predicate Suits(mem: Mem, kids: Kids, root: Ptr, s: nat, size: nat, l: Limits)
    requires root in mem && root in kids
  {
    && Low(s, l.align) == 0 && l.min <= s && s + size <= l.max + 1
    && mem[root].start <= s && s + size <= mem[root].end + 1
    && forall i {:trigger kids[root][i]} :: 0 <= i < |kids[root]| && kids[root][i] in mem ==>
      s + size <= mem[kids[root][i]].start || mem[kids[root][i]].end < s
  }

  ghost predicate Possible(mem: Mem, kids: Kids, root: Ptr, size: nat, l: Limits)
    requires root in mem && root in kids
  {
    exists s: nat :: Suits(mem, kids, root, s, size, l)
  }

  /** Neither the start of gap `i` nor its alignment passes the end of the address space. */
  ghost predicate NoWrapAt(mem: Mem, kids: Kids, root: Ptr, i: nat, l: Limits)
    requires Gap(mem, kids, root, i)
  {
    Max(GapStart(mem, kids, root, i), l.min) + Pow2(l.align) <= U64
  }

  /** The address that is tried in gap `i`, lines 135-143. */
  ghost function At(mem: Mem, kids: Kids, root: Ptr, i: nat, l: Limits): nat
    requires Gap(mem, kids, root, i)
  {
    Align(Max(GapStart(mem, kids, root, i) % U64, l.min), l.align)
  }

  /** The test of line 146 for gap `i`. */
  ghost predicate Room(mem: Mem, kids: Kids, root: Ptr, i: nat, size: nat, l: Limits)
    requires Gap(mem, kids, root, i)
  {
    var s, e := At(mem, kids, root, i, l), GapEnd(mem, kids, root, i);
    s < e && s < l.max && s + size <= e + 1 && s + size <= l.max + 1
  }

  /** The gap that is tried first: a first child at address 0 is skipped. */
  ghost function FirstGap(mem: Mem, kids: Kids, root: Ptr): nat
    requires root in kids
  {
    if |kids[root]| > 0 && kids[root][0] in mem && mem[kids[root][0]].start == 0 then 1 else 0
  }

  ghost predicate NoRoomBefore(mem: Mem, kids: Kids, root: Ptr, i: nat, size: nat, l: Limits)
    requires root in kids
  {
    forall j: nat {:trigger Room(mem, kids, root, j, size, l)} ::
      FirstGap(mem, kids, root) <= j < i && Gap(mem, kids, root, j) ==> !Room(mem, kids, root, j, size, l)
  }

  ghost predicate NoRoom(mem: Mem, kids: Kids, root: Ptr, size: nat, l: Limits)
    requires root in kids
  {
    NoRoomBefore(mem, kids, root, |kids[root]| + 1, size, l)
  }

  lemma NoRoomStep(mem: Mem, kids: Kids, root: Ptr, i: nat, size: nat, l: Limits)
    requires Gap(mem, kids, root, i) && NoRoomBefore(mem, kids, root, i, size, l) && !Room(mem, kids, root, i, size, l)
    ensures NoRoomBefore(mem, kids, root, i + 1, size, l)
  {
  }

  /** Gap `i` is the first with room. */
  ghost predicate FirstRoom(mem: Mem, kids: Kids, root: Ptr, i: nat, size: nat, l: Limits) {
    && Gap(mem, kids, root, i) && FirstGap(mem, kids, root) <= i
    && NoRoomBefore(mem, kids, root, i, size, l) && Room(mem, kids, root, i, size, l)
  }

  lemma {:induction false} BeforeGap(mem: Mem, kids: Kids, depth: Depths, root: Ptr, i: nat, j: nat)
    requires Linked(mem, kids, depth) && Gap(mem, kids, root, i) && j < i
    ensures kids[root][j] in mem && mem[kids[root][j]].end < GapStart(mem, kids, root, i)
  {
    assert NodeOk(mem, kids, depth, root);
    if j < i - 1 {
      KidsApart(mem, kids, depth, root, j, i - 1);
      assert KidOk(mem, kids, depth, root, i - 1);
    }
  }

  lemma AfterGap(mem: Mem, kids: Kids, depth: Depths, root: Ptr, i: nat, j: nat)
    requires Linked(mem, kids, depth) && Gap(mem, kids, root, i) && i <= j < |kids[root]|
    ensures kids[root][j] in mem && GapEnd(mem, kids, root, i) < mem[kids[root][j]].start
  {
    assert NodeOk(mem, kids, depth, root);
    assert KidOk(mem, kids, depth, root, i);
    if i < j {
      KidsApart(mem, kids, depth, root, i, j);
    }
  }

  /** A range inside a gap is free. */
  lemma GapFree(mem: Mem, kids: Kids, depth: Depths, root: Ptr, s: nat, size: nat, l: Limits, i: nat)
    requires Linked(mem, kids, depth) && Gap(mem, kids, root, i)
    requires Low(s, l.align) == 0 && l.min <= s && s + size <= l.max + 1
    requires GapStart(mem, kids, root, i) <= s && s + size <= GapEnd(mem, kids, root, i) + 1
    ensures Suits(mem, kids, root, s, size, l)
  {
    assert NodeOk(mem, kids, depth, root);
    if i > 0 { assert KidOk(mem, kids, depth, root, i - 1); }
    if i < |kids[root]| { assert KidOk(mem, kids, depth, root, i); }
    forall j | 0 <= j < |kids[root]| && kids[root][j] in mem
      ensures s + size <= mem[kids[root][j]].start || mem[kids[root][j]].end < s
    {
      if j < i { BeforeGap(mem, kids, depth, root, i, j); } else { AfterGap(mem, kids, depth, root, i, j); }
    }
  }

  /** Without wrapping, the address tried in a gap is the least that is aligned and not too low. */
  lemma AtIs(mem: Mem, kids: Kids, root: Ptr, i: nat, l: Limits, s: nat)
    requires Gap(mem, kids, root, i) && NoWrapAt(mem, kids, root, i, l)
    ensures var a := At(mem, kids, root, i, l);
      && GapStart(mem, kids, root, i) <= a && l.min <= a && Low(a, l.align) == 0
      && (GapStart(mem, kids, root, i) <= s && l.min <= s && Low(s, l.align) == 0 ==> a <= s)
  {
    var g := GapStart(mem, kids, root, i);
    assert g % U64 == g;
    AlignIs(Max(g, l.min), l.align, s);
  }

  /** Without wrapping, the address tried in a gap with room suits. */
  lemma RoomSuits(mem: Mem, kids: Kids, depth: Depths, root: Ptr, i: nat, size: nat, l: Limits)
    requires Linked(mem, kids, depth) && Gap(mem, kids, root, i) && NoWrapAt(mem, kids, root, i, l)
    requires Room(mem, kids, root, i, size, l)
    ensures Suits(mem, kids, root, At(mem, kids, root, i, l), Max(size, 2), l)
  {
    AtIs(mem, kids, root, i, l, 0);
    GapFree(mem, kids, depth, root, At(mem, kids, root, i, l), Max(size, 2), l, i);
  }

  /** Below an address that suits nothing wraps. */
  lemma NoWrapBelow(mem: Mem, kids: Kids, depth: Depths, root: Ptr, i: nat, s: nat, size: nat, l: Limits)
    requires Linked(mem, kids, depth) && Gap(mem, kids, root, i) && l.Proper() && size >= 1
    requires Suits(mem, kids, root, s, size, l) && GapStart(mem, kids, root, i) <= s
    ensures NoWrapAt(mem, kids, root, i, l)
  {
    assert NodeOk(mem, kids, depth, root);
    MultipleBelow(s, l.align, 64);
  }

  /** An address that suits and is not below a gap without room is beyond that gap. */
  lemma PastGap(mem: Mem, kids: Kids, depth: Depths, root: Ptr, i: nat, s: nat, size: nat, l: Limits)
    requires Linked(mem, kids, depth) && Gap(mem, kids, root, i) && l.Proper()
    requires Suits(mem, kids, root, s, Max(size, 2), l) && GapStart(mem, kids, root, i) <= s
    requires !Room(mem, kids, root, i, size, l)
    ensures i < |kids[root]| && Gap(mem, kids, root, i + 1) && GapStart(mem, kids, root, i + 1) <= s
  {
    NoWrapBelow(mem, kids, depth, root, i, s, Max(size, 2), l);
    AtIs(mem, kids, root, i, l, s);
    if i < |kids[root]| {
      GapOk(mem, kids, depth, root, i + 1);
    }
  }

  /** An address that suits is not below the first gaps without room. */
  lemma {:induction false} PastGaps(mem: Mem, kids: Kids, depth: Depths, root: Ptr, i: nat, s: nat, size: nat,
                                    l: Limits)
    requires Linked(mem, kids, depth) && root in mem && l.Proper() && FirstGap(mem, kids, root) <= i
    requires Suits(mem, kids, root, s, Max(size, 2), l) && NoRoomBefore(mem, kids, root, i, size, l)
    ensures Gap(mem, kids, root, i) && GapStart(mem, kids, root, i) <= s
    decreases i
  {
    if i == FirstGap(mem, kids, root) {
      GapOk(mem, kids, depth, root, i);
    } else {
      PastGaps(mem, kids, depth, root, i - 1, s, size, l);
      PastGap(mem, kids, depth, root, i - 1, s, size, l);
    }
  }

  /** What the first gap with room offers suits if and only if nothing wraps there, and then only if anything does. */
  lemma FirstRoomExact(mem: Mem, kids: Kids, depth: Depths, root: Ptr, i: nat, size: nat, l: Limits)
    requires Linked(mem, kids, depth) && l.Proper() && FirstRoom(mem, kids, root, i, size, l)
    ensures Suits(mem, kids, root, At(mem, kids, root, i, l), Max(size, 2), l) <==> NoWrapAt(mem, kids, root, i, l)
    ensures NoWrapAt(mem, kids, root, i, l) <==> Possible(mem, kids, root, Max(size, 2), l)
  {
    if NoWrapAt(mem, kids, root, i, l) {
      RoomSuits(mem, kids, depth, root, i, size, l);
    }
    if Possible(mem, kids, root, Max(size, 2), l) {
      var s: nat :| Suits(mem, kids, root, s, Max(size, 2), l);
      PastGaps(mem, kids, depth, root, i, s, size, l);
      NoWrapBelow(mem, kids, depth, root, i, s, Max(size, 2), l);
    }
  }

  lemma NoRoomExact(mem: Mem, kids: Kids, depth: Depths, root: Ptr, size: nat, l: Limits)
    requires Linked(mem, kids, depth) && root in mem && l.Proper() && NoRoom(mem, kids, root, size, l)
    ensures !Possible(mem, kids, root, Max(size, 2), l)
  {
    if Possible(mem, kids, root, Max(size, 2), l) {
      var s: nat :| Suits(mem, kids, root, s, Max(size, 2), l);
      PastGaps(mem, kids, depth, root, |kids[root]| + 1, s, size, l);
      assert false;
    }
  }

  /** A shorter range at the same address suits as well. */
  lemma ShorterSuits(mem: Mem, kids: Kids, root: Ptr, s: nat, size: nat, size': nat, l: Limits)
    requires root in mem && root in kids && Suits(mem, kids, root, s, size, l) && size' <= size
    ensures Suits(mem, kids, root, s, size', l)
  {
  }

  /** Nowhere does a gap or its alignment pass the end of the address space. */
  ghost predicate NoWrap(mem: Mem, kids: Kids, root: Ptr, l: Limits)
    requires root in mem && root in kids
  {
    && Max(mem[root].start, l.min) + Pow2(l.align) <= U64
    && forall k :: k in kids[root] && k in mem ==> Max(mem[k].end + 1, l.min) + Pow2(l.align) <= U64
  }

  lemma NoWrapHere(mem: Mem, kids: Kids, root: Ptr, i: nat, l: Limits)
    requires Gap(mem, kids, root, i) && NoWrap(mem, kids, root, l)
    ensures NoWrapAt(mem, kids, root, i, l)
  {
    if i > 0 { assert kids[root][i - 1] in kids[root]; }
  }

  /** Where nothing can wrap, there is room if and only if some range suits. */
  lemma NoWrapExact(mem: Mem, kids: Kids, depth: Depths, root: Ptr, size: nat, l: Limits)
    requires Linked(mem, kids, depth) && root in mem && l.Proper() && NoWrap(mem, kids, root, l)
    ensures Possible(mem, kids, root, Max(size, 2), l) <==> !NoRoom(mem, kids, root, size, l)
  {
    if NoRoom(mem, kids, root, size, l) {
      NoRoomExact(mem, kids, depth, root, size, l);
    } else {
      var j: nat :| FirstGap(mem, kids, root) <= j && Gap(mem, kids, root, j) && Room(mem, kids, root, j, size, l);
      NoWrapHere(mem, kids, root, j, l);
      RoomSuits(mem, kids, depth, root, j, size, l);
    }
  }

  // ---------------------------------------------------------------- searching

  function WithRange(mem: Mem, n: Ptr, start: nat, end: nat): Mem
    requires n in mem
  {
    mem[n := mem[n].(start := start, end := end)]
  }

  /** The range of a node that is linked nowhere is free to change. */
  lemma SetRange(mem: Mem, kids: Kids, depth: Depths, n: Ptr, start: nat, end: nat)
    requires WellFormed(mem, kids, depth) && Loose(mem, kids, n) && start < U64 && end < U64
    ensures WellFormed(WithRange(mem, n, start, end), kids, depth) && Loose(WithRange(mem, n, start, end), kids, n)
  {
    var mem' := WithRange(mem, n, start, end);
    forall p | p in mem' ensures NodeOk(mem', kids, depth, p) {
      assert NodeOk(mem, kids, depth, p);
      if p != n {
        forall k | k in kids[p] ensures k in mem && k in mem' && SameOutside(mem[k], mem'[k]) && depth[p] < depth[k] {
          var j := ParentOf(mem, kids, depth, p, k);
        }
        NodeKept(mem, kids, depth, mem', kids, depth, p);
      }
    }
    forall p | p in mem' ensures Owned(mem', kids, p) {
      assert Owned(mem, kids, p);
    }
  }

  /** The size that is meant by a 64-bit `size`, of which only `size - 1` is used. */
  function Span(size: nat): nat {
    if size == 0 then U64 else size
  }

  method LessOne(size: nat) returns (r: nat)
    requires size < U64
    ensures r == Span(size) - 1
  {
    r := (size + U64 - 1) % U64;
  }

  method Next(end: nat) returns (r: nat)
    requires end < U64
    ensures r == (end + 1) % U64
  {
    r := (end + 1) % U64;
  }

  /** What is left in `new` after gap `i` has been tried without success. */
  ghost predicate Tried(mem: Mem, kids: Kids, root: Ptr, i: nat, l: Limits, start: nat, end: nat)
    requires Gap(mem, kids, root, i)
  {
    && start == At(mem, kids, root, i, l)
    && end == if GapEnd(mem, kids, root, i) > l.max then l.max else GapEnd(mem, kids, root, i)
  }

  /** Lines 135-149: one gap. */
  method TryGap(t: ResourceTree, root: Ptr, this_: Ptr, start0: nat, last: nat, l: Limits, ghost i: nat)
    returns (ok: bool, start: nat, end: nat)
    requires Gap(t.mem, t.kids, root, i) && this_ == Nth(t.kids[root], i) && (this_ != NULL <==> i < |t.kids[root]|)
    requires this_ != NULL ==> t.mem[this_].start > 0
    requires start0 == GapStart(t.mem, t.kids, root, i) % U64
    ensures ok <==> Room(t.mem, t.kids, root, i, last + 1, l)
    ensures ok ==> start == At(t.mem, t.kids, root, i, l) && end == start + last
    ensures !ok ==> Tried(t.mem, t.kids, root, i, l, start, end)
  {
    end := if this_ != NULL then t.mem[this_].start - 1 else t.mem[root].end;
    start := if start0 < l.min then l.min else start0;
    end := if end > l.max then l.max else end;
    start := Align(start, l.align);
    ok := start < end && end - start >= last;
    if ok {
      end := start + last;
    }
  }

  /** The gap that is about to be tried, and its start. */
  ghost predicate Trying(t: ResourceTree, root: Ptr, this_: Ptr, start: nat, i: nat)
    reads t
  {
    && Gap(t.mem, t.kids, root, i) && FirstGap(t.mem, t.kids, root) <= i && this_ == Nth(t.kids[root], i)
    && (this_ != NULL <==> i < |t.kids[root]|) && (this_ != NULL ==> t.mem[this_].start > 0)
    && start == GapStart(t.mem, t.kids, root, i) % U64
  }

  /** Lines 130-133 and 152-153: past the child `this_`, to the gap after it. */
  method StepOver(t: ResourceTree, root: Ptr, this_: Ptr, ghost i: nat) returns (start: nat, next: Ptr)
    requires t.Valid() && root in t.mem && i < |t.kids[root]| && this_ == t.kids[root][i]
    requires FirstGap(t.mem, t.kids, root) <= i + 1
    ensures Trying(t, root, next, start, i + 1)
  {
    ChildNotRoot(t.mem, t.kids, t.depth, root, i);
    assert NodeOk(t.mem, t.kids, t.depth, this_);
    start := Next(t.mem[this_].end);
    next := t.mem[this_].sibling;
    GapOk(t.mem, t.kids, t.depth, root, i + 1);
    NthOk(t.mem, t.kids, t.depth, root, i + 1);
  }

  /** The outcome of a search; `i` is the gap taken. */
  ghost predicate Found(mem: Mem, kids: Kids, root: Ptr, i: nat, size: nat, l: Limits, start: nat, end: nat) {
    FirstRoom(mem, kids, root, i, size, l) && start == At(mem, kids, root, i, l) && end == start + size - 1
  }

  ghost predicate NotFound(mem: Mem, kids: Kids, root: Ptr, size: nat, l: Limits, start: nat, end: nat)
    requires root in kids
  {
    && NoRoom(mem, kids, root, size, l) && Gap(mem, kids, root, |kids[root]|)
    && Tried(mem, kids, root, |kids[root]|, l, start, end)
  }

  /**
    `find_resource`, lines 115-156, without an alignment callback: the first gap with room is taken. What it
    offers suits exactly when nothing wraps there, and this is so exactly when there is a range that suits.
   */
  method Find(t: ResourceTree, root: Ptr, size: nat, l: Limits) returns (err: int, start: nat, end: nat, ghost i: nat)
    requires t.Valid() && root in t.mem && size < U64 && l.Proper()
    ensures err == 0 || err == -EBUSY
    ensures err == 0 ==> Found(t.mem, t.kids, root, i, Span(size), l, start, end)
    ensures err != 0 ==> NotFound(t.mem, t.kids, root, Span(size), l, start, end)
    ensures err == 0 ==>
      (Suits(t.mem, t.kids, root, start, Max(Span(size), 2), l) <==> NoWrapAt(t.mem, t.kids, root, i, l))
    ensures err == 0 ==>
      (NoWrapAt(t.mem, t.kids, root, i, l) <==> Possible(t.mem, t.kids, root, Max(Span(size), 2), l))
    ensures err == 0 && NoWrapAt(t.mem, t.kids, root, i, l) ==> Suits(t.mem, t.kids, root, start, Span(size), l)
    ensures Possible(t.mem, t.kids, root, Max(Span(size), 2), l) ==> err == 0
  {
    var last := LessOne(size);
    var this_ := t.mem[root].child;
    i := 0;
    GapOk(t.mem, t.kids, t.depth, root, 0);
    NthOk(t.mem, t.kids, t.depth, root, 0);
    assert NodeOk(t.mem, t.kids, t.depth, root);
    start, end := t.mem[root].start, 0;
    if this_ != NULL && t.mem[this_].start == 0 {
      start, this_ := StepOver(t, root, this_, 0);
      i := 1;
    }
    while true
      invariant Trying(t, root, this_, start, i) && NoRoomBefore(t.mem, t.kids, root, i, Span(size), l)
      decreases |t.kids[root]| - i
    {
      var ok;
      ok, start, end := TryGap(t, root, this_, start, last, l, i);
      if ok {
        FirstRoomExact(t.mem, t.kids, t.depth, root, i, Span(size), l);
        if NoWrapAt(t.mem, t.kids, root, i, l) {
          ShorterSuits(t.mem, t.kids, root, start, Max(Span(size), 2), Span(size), l);
        }
        return 0, start, end, i;
      }
      NoRoomStep(t.mem, t.kids, root, i, Span(size), l);
      if this_ == NULL {
        break;
      }
      start, this_ := StepOver(t, root, this_, i);
      i := i + 1;
    }
    NoRoomExact(t.mem, t.kids, t.depth, root, Span(size), l);
    err := -EBUSY;
  }

  /** `allocate_resource`, lines 161-177; `gap` is the gap that was found, `i` the place taken in it. */
  method Allocate(t: ResourceTree, root: Ptr, n: Ptr, size: nat, l: Limits)
    returns (err: int, ghost start: nat, ghost end: nat, ghost found: bool, ghost gap: nat, ghost i: nat)
    requires t.Valid() && root in t.mem && Loose(t.mem, t.kids, n) && n != root && size < U64 && l.Proper()
    modifies t
    ensures t.Valid() && (err == 0 || err == -EBUSY)
    ensures found ==> Found(old(t.mem), old(t.kids), root, gap, Span(size), l, start, end)
    ensures !found ==> NotFound(old(t.mem), old(t.kids), root, Span(size), l, start, end)
    ensures err == 0 <==> found && Fits(WithRange(old(t.mem), n, start, end), old(t.kids), root, n)
    ensures err == 0 ==> PlaceFor(WithRange(old(t.mem), n, start, end), old(t.kids), root, i, n)
    ensures err == 0 ==> t.mem == LinkedMem(WithRange(old(t.mem), n, start, end), old(t.kids), root, i, n)
    ensures err == 0 ==> t.kids == WithKid(old(t.kids), root, i, n)
    ensures err != 0 ==> t.kids == old(t.kids) && t.mem == WithRange(old(t.mem), n, start, end)
    ensures err == 0 ==>
      (Suits(old(t.mem), old(t.kids), root, start, Max(Span(size), 2), l) <==>
        NoWrapAt(old(t.mem), old(t.kids), root, gap, l))
    ensures old(Possible(t.mem, t.kids, root, Max(Span(size), 2), l)) ==>
      err == 0 && Suits(old(t.mem), old(t.kids), root, start, Max(Span(size), 2), l)
  {
    var s, e;
    err, s, e, gap := Find(t, root, size, l);
    start, end, found, i := s, e, err == 0, 0;
    ghost var m := Max(Span(size), 2);
    FoundBelow(t.mem, t.kids, t.depth, root, gap, Span(size), l, s, e, err == 0);
    SetRange(t.mem, t.kids, t.depth, n, s, e);
    if Possible(t.mem, t.kids, root, m, l) {
      SuitsFits(t.mem, t.kids, t.depth, root, n, s, Span(size), m, l);
    }
    t.mem := WithRange(t.mem, n, s, e);
    if err >= 0 {
      var conflict;
      conflict, i := Resource.Request(t, root, n);
      if conflict != NULL {
        err := -EBUSY;
      }
    }
  }

  /** Whatever the search leaves in `new` is a 64-bit range. */
  lemma FoundBelow(mem: Mem, kids: Kids, depth: Depths, root: Ptr, i: nat, size: nat, l: Limits, start: nat, end: nat,
                   found: bool)
    requires Linked(mem, kids, depth) && root in mem && l.Proper() && size >= 1
    requires if found then Found(mem, kids, root, i, size, l, start, end)
      else NotFound(mem, kids, root, size, l, start, end)
    ensures start < U64 && end < U64
  {
  }

  /** A range that suits can be linked. */
  lemma SuitsFits(mem: Mem, kids: Kids, depth: Depths, root: Ptr, n: Ptr, s: nat, size: nat, m: nat, l: Limits)
    requires Linked(mem, kids, depth) && root in mem && Loose(mem, kids, n) && n != root && 1 <= size <= m
    requires Suits(mem, kids, root, s, m, l)
    ensures Fits(WithRange(mem, n, s, s + size - 1), kids, root, n)
  {
    var mem' := WithRange(mem, n, s, s + size - 1);
    forall i | 0 <= i < |kids[root]| && kids[root][i] in mem' ensures !Overlap(mem'[kids[root][i]], mem'[n]) {
      ChildNotRoot(mem, kids, depth, root, i);
      assert NodeOk(mem, kids, depth, root);
    }
  }

  // ---------------------------------------------------------------- where the search wraps

  /** One node over the whole address space. */
  ghost function Whole(): Mem {
    map[1 := Res(0, U64 - 1, false, NULL, NULL, NULL)]
  }

  /** Two addresses from `2^64 - 6` on, aligned to 4096. */
  function Late(): Limits {
    Limits(U64 - 6, U64 - 1, 12)
  }

  lemma LateAlign(k: nat)
    requires k == 12
    ensures Align(U64 - 6, k) == 0 && Pow2(k) == 4096
  {
    assert Pow2(12) == 4096;
    var v := (U64 - 6 + Pow2(k) - 1) % U64;
    ShrUnique(v, k, 0, v);
  }

  lemma LateWraps(mem: Mem, kids: Kids, l: Limits)
    requires mem == Whole() && kids == map[1 := []]
    requires l.min == U64 - 6 && l.max == U64 - 1 && Align(l.min, l.align) == 0 && Pow2(l.align) == 4096
    ensures Gap(mem, kids, 1, 0) && At(mem, kids, 1, 0, l) == 0
    ensures FirstRoom(mem, kids, 1, 0, 2, l) && !NoWrapAt(mem, kids, 1, 0, l)
  {
    var g := GapStart(mem, kids, 1, 0);
    assert g == 0 && Max(g % U64, l.min) == l.min;
  }

  /** On that node the search for such a range succeeds, at address 0; it should have found nothing. */
  method SearchWraps() returns (err: int, start: nat)
    ensures err == 0 && start == 0 < Late().min && !Possible(Whole(), map[1 := []], 1, 2, Late())
  {
    var t := new ResourceTree();
    AddNode(t, 1, Res(0, U64 - 1, false, NULL, NULL, NULL));
    assert t.mem == Whole() && t.kids == map[1 := []];
    LateAlign(Late().align);
    LateWraps(t.mem, t.kids, Late());
    var end;
    ghost var i;
    err, start, end, i := Find(t, 1, 2, Late());
  }
}
