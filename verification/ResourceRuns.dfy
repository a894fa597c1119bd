/**
  Any run of the calls of kernel/resource.c on one tree. Callers keep to what the code demands of them: nodes
  exist, and a node that is to be linked is not linked already. The tree stays well formed in every such run,
  except where one of two steps is taken: a region that has children is released, or a range is adjusted to one
  that ends before it starts.
 */
module ResourceRuns {
  import opened Resource
  import opened ResourceAlloc
  import opened ResourceInsert
  import opened ResourceRegion

  datatype Op =
    | New(n: Ptr, start: nat, end: nat, busy: bool)
    | Claim(root: Ptr, n: Ptr)
    | Insert(parent: Ptr, n: Ptr)
    | Resize(n: Ptr, start: nat, size: nat)
    | Place(root: Ptr, n: Ptr, size: nat, l: Limits)
    | GiveUp(n: Ptr)
    | ClaimRegion(parent: Ptr, start: nat, size: nat, n: Ptr)
    | FreeRegion(parent: Ptr, start: nat, size: nat)

  /** A node that is linked nowhere, as its fields show it. */
  predicate Unlinked(mem: Mem, n: Ptr) {
    n in mem && mem[n].parent == NULL && mem[n].child == NULL
  }

  /** What a caller has to see to. */
  predicate Legal(mem: Mem, op: Op) {
    match op
    case New(n, start, end, _) => n !in mem && n != NULL && start < U64 && end < U64
    case Claim(root, n) => root in mem && Unlinked(mem, n) && n != root
    case Insert(parent, n) => parent in mem && Unlinked(mem, n) && n != parent
    case Resize(n, start, size) => n in mem && mem[n].parent != NULL && start < U64 && size < U64
    case Place(root, n, size, l) => root in mem && Unlinked(mem, n) && n != root && size < U64 && l.Proper()
    case GiveUp(n) => n in mem && mem[n].parent != NULL && mem[n].child == NULL
    case ClaimRegion(parent, start, size, n) => parent in mem && n !in mem && n != NULL && start < U64 && size < U64
    case FreeRegion(parent, start, size) => parent in mem && start < U64 && size < U64
  }

  /** A state of the tree. */
  datatype Snap = Snap(mem: Mem, kids: Kids)

  ghost predicate Sound(s: Snap) {
    exists depth :: WellFormed(s.mem, s.kids, depth)
  }

  /** Every node has a list of children. */
  ghost predicate Listed(s: Snap) {
    s.mem.Keys == s.kids.Keys
  }

  ghost function Now(t: ResourceTree): Snap
    reads t
  {
    Snap(t.mem, t.kids)
  }

  lemma UnlinkedIsLoose(s: Snap, n: Ptr)
    requires Sound(s) && Unlinked(s.mem, n)
    ensures Loose(s.mem, s.kids, n)
  {
    var depth :| WellFormed(s.mem, s.kids, depth);
    assert NodeOk(s.mem, s.kids, depth, n);
    NthOk(s.mem, s.kids, depth, n, 0);
  }

  // ---------------------------------------------------------------- what each call does

  ghost predicate Same(a: Snap, b: Snap) {
    a.mem == b.mem && a.kids == b.kids
  }

  ghost predicate LinkedAt(a: Snap, root: Ptr, i: nat, n: Ptr, b: Snap) {
    && PlaceFor(a.mem, a.kids, root, i, n)
    && b.mem == LinkedMem(a.mem, a.kids, root, i, n) && b.kids == WithKid(a.kids, root, i, n)
  }

  ghost predicate Claimed(a: Snap, root: Ptr, n: Ptr, b: Snap)
    requires root in a.mem && root in a.kids && n in a.mem
  {
    if Fits(a.mem, a.kids, root, n) then exists i: nat :: LinkedAt(a, root, i, n, b) else Same(a, b)
  }

  ghost predicate Inserted(a: Snap, parent: Ptr, n: Ptr, b: Snap)
    requires parent in a.mem && n in a.mem
  {
    if a.mem[n].start <= a.mem[n].end && Inside(a.mem[n], a.mem[parent]) && NoClash(a.mem, a.kids, parent, n)
    then exists at :: PlacedAt(a.mem, a.kids, n, at, b.mem, b.kids)
    else Same(a, b)
  }

  /** `n` is entry `i` of its parent's children, and can be adjusted. */
  ghost predicate ResizesAt(a: Snap, n: Ptr, i: nat, start: nat, end: nat) {
    && n in a.mem && a.mem[n].parent in a.mem && a.mem[n].parent in a.kids && i < |a.kids[a.mem[n].parent]|
    && a.kids[a.mem[n].parent][i] == n && n in a.kids && CanAdjust(a.mem, a.kids, a.mem[n].parent, i, start, end)
  }

  ghost predicate Resizes(a: Snap, n: Ptr, start: nat, end: nat) {
    exists i: nat :: ResizesAt(a, n, i, start, end)
  }

  ghost predicate Resized(a: Snap, n: Ptr, start: nat, end: nat, b: Snap)
    requires n in a.mem
  {
    b.kids == a.kids && b.mem == if Resizes(a, n, start, end) then WithRange(a.mem, n, start, end) else a.mem
  }

  /** The range of `n` is what the search left in it, and `n` is linked there if room was found and is free. */
  ghost predicate PlacedIn(a: Snap, root: Ptr, n: Ptr, size: nat, l: Limits, start: nat, end: nat, gap: nat, b: Snap)
    requires root in a.mem && root in a.kids && n in a.mem
  {
    var c := Snap(WithRange(a.mem, n, start, end), a.kids);
    if Found(a.mem, a.kids, root, gap, size, l, start, end) then Claimed(c, root, n, b)
    else NotFound(a.mem, a.kids, root, size, l, start, end) && Same(c, b)
  }

  ghost predicate Placed(a: Snap, root: Ptr, n: Ptr, size: nat, l: Limits, b: Snap)
    requires root in a.mem && root in a.kids && n in a.mem
  {
    exists start: nat, end: nat, gap: nat :: PlacedIn(a, root, n, size, l, start, end, gap, b)
  }

  ghost predicate GivenUp(a: Snap, n: Ptr, b: Snap)
    requires n in a.mem
  {
    exists i: nat :: Removed(a.mem, a.kids, a.mem[n].parent, i, n, b.mem, b.kids)
  }

  ghost predicate RegionClaimed(a: Snap, parent: Ptr, start: nat, size: nat, n: Ptr, b: Snap) {
    var mem, kids := a.mem[n := Region(start, size)], a.kids[n := []];
    if NoSlot(mem, kids, parent, n) then Same(a, b)
    else exists path, i: nat :: Settled(mem, kids, parent, n, path, i, b.mem, b.kids)
  }

  ghost predicate RegionAt(a: Snap, parent: Ptr, start: nat, end: nat, path: seq<Ptr>, r: Ptr, i: nat, b: Snap) {
    Reaches(a.mem, a.kids, path, parent, start, end, r) && Freed(a.mem, a.kids, path[|path| - 1], i, r, b.mem, b.kids)
  }

  ghost predicate RegionFreed(a: Snap, parent: Ptr, start: nat, end: nat, b: Snap) {
    if NoRegion(a.mem, a.kids, parent, start, end) then Same(a, b)
    else exists path, r, i: nat :: RegionAt(a, parent, start, end, path, r, i, b)
  }

  /** The state that a call leads to. */
  ghost predicate Effect(a: Snap, op: Op, b: Snap)
    requires Listed(a) && Legal(a.mem, op)
  {
    match op
    case New(n, start, end, busy) =>
      b.mem == a.mem[n := Res(start, end, busy, NULL, NULL, NULL)] && b.kids == a.kids[n := []]
    case Claim(root, n) => Claimed(a, root, n, b)
    case Insert(parent, n) => Inserted(a, parent, n, b)
    case Resize(n, start, size) => Resized(a, n, start, EndOf(start, size), b)
    case Place(root, n, size, l) => Placed(a, root, n, Span(size), l, b)
    case GiveUp(n) => GivenUp(a, n, b)
    case ClaimRegion(parent, start, size, n) => RegionClaimed(a, parent, start, size, n, b)
    case FreeRegion(parent, start, size) => RegionFreed(a, parent, start, EndOf(start, size), b)
  }

  ghost predicate ParentAt(a: Snap, parent: Ptr, start: nat, end: nat, path: seq<Ptr>, r: Ptr) {
    Reaches(a.mem, a.kids, path, parent, start, end, r) && a.mem[r].child != NULL
  }

  /** The two steps that do harm: the region to release has children, or a range becomes empty. */
  ghost predicate Breaks(a: Snap, op: Op) {
    match op
    case Resize(n, start, size) => Resizes(a, n, start, EndOf(start, size)) && EndOf(start, size) < start
    case FreeRegion(parent, start, size) => exists path, r :: ParentAt(a, parent, start, EndOf(start, size), path, r)
    case _ => false
  }

  // ---------------------------------------------------------------- the calls

  method DoClaim(t: ResourceTree, root: Ptr, n: Ptr)
    requires t.Valid() && root in t.mem && Unlinked(t.mem, n) && n != root
    modifies t
    ensures t.Valid() && Claimed(old(Now(t)), root, n, Now(t))
  {
    UnlinkedIsLoose(Now(t), n);
    var conflict, i := Resource.Request(t, root, n);
    assert conflict == NULL ==> LinkedAt(old(Now(t)), root, i, n, Now(t));
  }

  method DoInsert(t: ResourceTree, parent: Ptr, n: Ptr)
    requires t.Valid() && parent in t.mem && Unlinked(t.mem, n) && n != parent
    modifies t
    ensures t.Valid() && Inserted(old(Now(t)), parent, n, Now(t))
  {
    UnlinkedIsLoose(Now(t), n);
    var err, at := InsertResource(t, parent, n);
  }

  method DoResize(t: ResourceTree, n: Ptr, start: nat, size: nat) returns (ok: bool)
    requires t.Valid() && n in t.mem && t.mem[n].parent != NULL && start < U64 && size < U64
    modifies t
    ensures Resized(old(Now(t)), n, start, EndOf(start, size), Now(t))
    ensures ok <==> !old(Breaks(Now(t), Resize(n, start, size)))
    ensures t.Valid() <==> ok
  {
    var err, i := Adjust(t, n, start, size);
    ok := err != 0 || start <= EndOf(start, size);
    OnePlace(old(Now(t)), n, start, EndOf(start, size), i);
    if err == 0 { assert ResizesAt(old(Now(t)), n, i, start, EndOf(start, size)); }
  }

  lemma OnePlace(a: Snap, n: Ptr, start: nat, end: nat, i: nat)
    requires Sound(a) && Listed(a) && n in a.mem && a.mem[n].parent in a.mem && i < |a.kids[a.mem[n].parent]|
    requires a.kids[a.mem[n].parent][i] == n
    ensures Resizes(a, n, start, end) ==> ResizesAt(a, n, i, start, end)
  {
    if Resizes(a, n, start, end) {
      var depth :| WellFormed(a.mem, a.kids, depth);
      var j: nat :| ResizesAt(a, n, j, start, end);
      assert NodeOk(a.mem, a.kids, depth, a.mem[n].parent);
      KidsDistinct(a.mem, a.kids, depth, a.mem[n].parent, i, j);
    }
  }

  method DoPlace(t: ResourceTree, root: Ptr, n: Ptr, size: nat, l: Limits)
    requires t.Valid() && root in t.mem && Unlinked(t.mem, n) && n != root && size < U64 && l.Proper()
    modifies t
    ensures t.Valid() && Placed(old(Now(t)), root, n, Span(size), l, Now(t))
  {
    UnlinkedIsLoose(Now(t), n);
    var err, start, end, found, gap, i := Allocate(t, root, n, size, l);
    ghost var a := old(Now(t));
    ghost var c := Snap(WithRange(a.mem, n, start, end), a.kids);
    if err == 0 { assert LinkedAt(c, root, i, n, Now(t)); }
    if !found && Found(a.mem, a.kids, root, gap, Span(size), l, start, end) {
      NotBoth(a, root, gap, Span(size), l);
      assert false;
    }
    assert PlacedIn(a, root, n, Span(size), l, start, end, gap, Now(t));
  }

  lemma NotBoth(a: Snap, root: Ptr, gap: nat, size: nat, l: Limits)
    requires root in a.kids && FirstRoom(a.mem, a.kids, root, gap, size, l)
    ensures !NoRoom(a.mem, a.kids, root, size, l)
  {
  }

  method DoGiveUp(t: ResourceTree, n: Ptr)
    requires t.Valid() && n in t.mem && t.mem[n].parent != NULL && t.mem[n].child == NULL
    modifies t
    ensures t.Valid() && GivenUp(old(Now(t)), n, Now(t))
  {
    var err, at := Release(t, n);
  }

  method DoClaimRegion(t: ResourceTree, parent: Ptr, start: nat, size: nat, n: Ptr)
    requires t.Valid() && parent in t.mem && n !in t.mem && n != NULL && start < U64 && size < U64
    modifies t
    ensures t.Valid() && RegionClaimed(old(Now(t)), parent, start, size, n, Now(t))
  {
    var res, path, i := RequestRegion(t, parent, start, size, n);
  }

  method DoFreeRegion(t: ResourceTree, parent: Ptr, start: nat, size: nat) returns (ok: bool)
    requires t.Valid() && parent in t.mem && start < U64 && size < U64
    modifies t
    ensures RegionFreed(old(Now(t)), parent, start, EndOf(start, size), Now(t))
    ensures ok <==> !old(Breaks(Now(t), FreeRegion(parent, start, size)))
    ensures t.Valid() <==> ok
  {
    ghost var a := Now(t);
    var freed, orphan, path, i := ReleaseRegion(t, parent, start, size);
    ok := freed == NULL || orphan == NULL;
    if freed != NULL {
      assert RegionAt(a, parent, start, EndOf(start, size), path, freed, i, Now(t));
      ParentThere(a, parent, start, size, path, freed);
    }
  }

  lemma ParentThere(a: Snap, parent: Ptr, start: nat, size: nat, path: seq<Ptr>, r: Ptr)
    requires Sound(a) && parent in a.mem && Reaches(a.mem, a.kids, path, parent, start, EndOf(start, size), r)
    ensures Breaks(a, FreeRegion(parent, start, size)) <==> a.mem[r].child != NULL
  {
    var end := EndOf(start, size);
    if Breaks(a, FreeRegion(parent, start, size)) {
      var depth :| WellFormed(a.mem, a.kids, depth);
      var path', r' :| ParentAt(a, parent, start, end, path', r');
      OneRegion(a.mem, a.kids, depth, path, path', parent, start, end, r, r');
    }
    if a.mem[r].child != NULL { assert ParentAt(a, parent, start, end, path, r); }
  }

  // ---------------------------------------------------------------- what each effect keeps

  lemma LinkedSound(a: Snap, root: Ptr, i: nat, n: Ptr, b: Snap)
    requires Sound(a) && Loose(a.mem, a.kids, n) && LinkedAt(a, root, i, n, b)
    ensures Sound(b)
  {
    var depth :| WellFormed(a.mem, a.kids, depth);
    var depth' := depth[n := depth[root] + 1.0];
    LinkKid(a.mem, a.kids, depth, root, i, n, b.mem, b.kids, depth');
    LinkHome(a.mem, a.kids, root, i, n, b.mem, b.kids);
    assert WellFormed(b.mem, b.kids, depth');
  }

  lemma ClaimSound(a: Snap, root: Ptr, n: Ptr, b: Snap)
    requires Sound(a) && root in a.mem && root in a.kids && Loose(a.mem, a.kids, n) && Claimed(a, root, n, b)
    ensures Sound(b)
  {
    if Fits(a.mem, a.kids, root, n) {
      var i: nat :| LinkedAt(a, root, i, n, b);
      LinkedSound(a, root, i, n, b);
    }
  }

  lemma OverSound(a: Snap, n: Ptr, p: Ptr, i: nat, j: nat, b: Snap)
    requires Sound(a) && Loose(a.mem, a.kids, n) && PlacedAt(a.mem, a.kids, n, Over(p, i, j), b.mem, b.kids)
    ensures Sound(b)
  {
    var depth :| WellFormed(a.mem, a.kids, depth);
    var list := a.kids[p][i..j + 1];
    forall x | 0 <= x < |list| ensures list[x] in depth && depth[p] < depth[list[x]] {
      ChildNotRoot(a.mem, a.kids, depth, p, i + x);
    }
    var r := FindBetween(depth, list, p);
    var depth' := depth[n := r];
    Adopt(a.mem, a.kids, depth, p, i, j, n, r, b.mem, b.kids, depth');
    AdoptedHome(a.mem, a.kids, depth, p, i, j, n, r, b.mem, b.kids);
    assert WellFormed(b.mem, b.kids, depth');
  }

  lemma InsertSound(a: Snap, parent: Ptr, n: Ptr, b: Snap)
    requires Sound(a) && parent in a.mem && Loose(a.mem, a.kids, n) && Inserted(a, parent, n, b)
    ensures Sound(b)
  {
    if a.mem[n].start <= a.mem[n].end && Inside(a.mem[n], a.mem[parent]) && NoClash(a.mem, a.kids, parent, n) {
      var at :| PlacedAt(a.mem, a.kids, n, at, b.mem, b.kids);
      match at
      case Alone(p, i) => LinkedSound(a, p, i, n, b);
      case Over(p, i, j) => OverSound(a, n, p, i, j, b);
    }
  }

  lemma ResizeSound(a: Snap, n: Ptr, start: nat, end: nat, b: Snap)
    requires Sound(a) && n in a.mem && start < U64 && end < U64 && Resized(a, n, start, end, b)
    ensures Sound(b) <==> !(Resizes(a, n, start, end) && end < start)
  {
    if Resizes(a, n, start, end) {
      var i: nat :| ResizesAt(a, n, i, start, end);
      var p := a.mem[n].parent;
      var depth :| WellFormed(a.mem, a.kids, depth);
      ChildNotRoot(a.mem, a.kids, depth, p, i);
      if start <= end {
        Adjusted(a.mem, a.kids, depth, p, i, start, end, b.mem);
      } else {
        forall depth' ensures !WellFormed(b.mem, b.kids, depth') {
          EmptyKid(b.mem, b.kids, depth', p, i);
        }
      }
    }
  }

  lemma PlaceSound(a: Snap, root: Ptr, n: Ptr, size: nat, l: Limits, b: Snap)
    requires Sound(a) && root in a.mem && root in a.kids && Loose(a.mem, a.kids, n) && l.Proper() && size >= 1
    requires Placed(a, root, n, size, l, b)
    ensures Sound(b)
  {
    var start: nat, end: nat, gap: nat :| PlacedIn(a, root, n, size, l, start, end, gap, b);
    var depth :| WellFormed(a.mem, a.kids, depth);
    FoundBelow(a.mem, a.kids, depth, root, gap, size, l, start, end,
      Found(a.mem, a.kids, root, gap, size, l, start, end));
    SetRange(a.mem, a.kids, depth, n, start, end);
    var c := Snap(WithRange(a.mem, n, start, end), a.kids);
    assert Sound(c);
    if Found(a.mem, a.kids, root, gap, size, l, start, end) { ClaimSound(c, root, n, b); }
  }

  lemma GiveUpSound(a: Snap, n: Ptr, b: Snap)
    requires Sound(a) && n in a.mem && GivenUp(a, n, b)
    ensures Sound(b)
  {
    var depth :| WellFormed(a.mem, a.kids, depth);
    var p := a.mem[n].parent;
    var i: nat :| Removed(a.mem, a.kids, p, i, n, b.mem, b.kids);
    UnlinkKid(a.mem, a.kids, depth, p, i, b.mem, b.kids);
    UnlinkHome(a.mem, a.kids, p, i, b.mem, b.kids);
    assert WellFormed(b.mem, b.kids, depth);
  }

  lemma ClaimRegionSound(a: Snap, parent: Ptr, start: nat, size: nat, n: Ptr, b: Snap)
    requires Sound(a) && n !in a.mem && n != NULL && start < U64 && RegionClaimed(a, parent, start, size, n, b)
    ensures Sound(b)
  {
    var depth :| WellFormed(a.mem, a.kids, depth);
    var c := Snap(a.mem[n := Region(start, size)], a.kids[n := []]);
    AddLoose(a.mem, a.kids, depth, n, Region(start, size));
    assert Sound(c);
    if !NoSlot(c.mem, c.kids, parent, n) {
      var path, i: nat :| Settled(c.mem, c.kids, parent, n, path, i, b.mem, b.kids);
      LinkedSound(c, path[|path| - 1], i, n, b);
    }
  }

  /** Freeing a region keeps the tree exactly if it had no children. */
  lemma FreeSound(a: Snap, p: Ptr, i: nat, n: Ptr, b: Snap)
    requires Sound(a) && Freed(a.mem, a.kids, p, i, n, b.mem, b.kids)
    ensures Sound(b) <==> a.mem[n].child == NULL
  {
    var depth :| WellFormed(a.mem, a.kids, depth);
    ChildNotRoot(a.mem, a.kids, depth, p, i);
    if i > 0 {
      assert NodeOk(a.mem, a.kids, depth, p);
      KidsApart(a.mem, a.kids, depth, p, i - 1, i);
      ChildNotRoot(a.mem, a.kids, depth, p, i - 1);
    }
    var mem1, kids1 := UnlinkedMem(a.mem, a.kids, p, i), WithoutKid(a.kids, p, i);
    UnlinkKid(a.mem, a.kids, depth, p, i, mem1, kids1);
    UnlinkHome(a.mem, a.kids, p, i, mem1, kids1);
    assert b.mem == mem1 - {n};
    FreeNode(mem1, kids1, depth, n, b.mem, b.kids, depth - {n});
    if a.mem[n].child != NULL {
      forall depth' ensures !WellFormed(b.mem, b.kids, depth') {
        assert !Homed(b.mem, b.kids);
      }
    }
  }

  lemma FreeRegionSound(a: Snap, parent: Ptr, start: nat, size: nat, b: Snap)
    requires Sound(a) && parent in a.mem && RegionFreed(a, parent, start, EndOf(start, size), b)
    ensures Sound(b) <==> !Breaks(a, FreeRegion(parent, start, size))
  {
    var end := EndOf(start, size);
    if NoRegion(a.mem, a.kids, parent, start, end) {
      assert !Breaks(a, FreeRegion(parent, start, size));
    } else {
      var path, r, i: nat :| RegionAt(a, parent, start, end, path, r, i, b);
      FreeSound(a, path[|path| - 1], i, r, b);
      ParentThere(a, parent, start, size, path, r);
    }
  }

  /** Every effect keeps the tree well formed, except for those that do harm, and they never do. */
  lemma EffectSound(a: Snap, op: Op, b: Snap)
    requires Sound(a) && Listed(a) && Legal(a.mem, op) && Effect(a, op, b)
    ensures Sound(b) <==> !Breaks(a, op)
  {
    match op
    case New(n, start, end, busy) =>
      var depth :| WellFormed(a.mem, a.kids, depth);
      AddLoose(a.mem, a.kids, depth, n, Res(start, end, busy, NULL, NULL, NULL));
    case Claim(root, n) => UnlinkedIsLoose(a, n); ClaimSound(a, root, n, b);
    case Insert(parent, n) => UnlinkedIsLoose(a, n); InsertSound(a, parent, n, b);
    case Resize(n, start, size) => ResizeSound(a, n, start, EndOf(start, size), b);
    case Place(root, n, size, l) => UnlinkedIsLoose(a, n); PlaceSound(a, root, n, Span(size), l, b);
    case GiveUp(n) => GiveUpSound(a, n, b);
    case ClaimRegion(parent, start, size, n) => ClaimRegionSound(a, parent, start, size, n, b);
    case FreeRegion(parent, start, size) => FreeRegionSound(a, parent, start, size, b);
  }

  // ---------------------------------------------------------------- runs

  /** A call that a caller may make takes its effect, and does harm exactly if it is one of those that do. */
  method Step(t: ResourceTree, op: Op) returns (ok: bool)
    requires t.Valid() && Legal(t.mem, op)
    modifies t
    ensures Effect(old(Now(t)), op, Now(t))
    ensures ok <==> !Breaks(old(Now(t)), op)
    ensures t.Valid() <==> ok
  {
    ok := true;
    match op
    case New(n, start, end, busy) => AddNode(t, n, Res(start, end, busy, NULL, NULL, NULL));
    case Claim(root, n) => DoClaim(t, root, n);
    case Insert(parent, n) => DoInsert(t, parent, n);
    case Resize(n, start, size) => ok := DoResize(t, n, start, size);
    case Place(root, n, size, l) => DoPlace(t, root, n, size, l);
    case GiveUp(n) => DoGiveUp(t, n);
    case ClaimRegion(parent, start, size, n) => DoClaimRegion(t, parent, start, size, n);
    case FreeRegion(parent, start, size) => ok := DoFreeRegion(t, parent, start, size);
  }

  /** From one state of a run to the next; a call that no caller may make is not made. */
  ghost predicate Follows(a: Snap, op: Op, b: Snap) {
    Listed(a) && if Legal(a.mem, op) then Effect(a, op, b) else b == a
  }

  ghost predicate Harmless(a: Snap, op: Op) {
    Legal(a.mem, op) ==> !Breaks(a, op)
  }

  ghost predicate Steps(ops: seq<Op>, trace: seq<Snap>)
    requires |trace| <= |ops| + 1
  {
    forall j {:trigger Follows(trace[j], ops[j], trace[j + 1])} ::
      0 <= j < |trace| - 1 ==> Follows(trace[j], ops[j], trace[j + 1])
  }

  /** The states that calls lead through, from the empty tree on. */
  ghost predicate Trace(ops: seq<Op>, trace: seq<Snap>) {
    1 <= |trace| <= |ops| + 1 && trace[0] == Snap(map[], map[]) && Steps(ops, trace)
  }

  /** The calls up to number `k` do no harm. */
  ghost predicate HarmlessTo(ops: seq<Op>, trace: seq<Snap>, k: nat)
    requires k <= |ops| && k < |trace|
  {
    forall j {:trigger Harmless(trace[j], ops[j])} :: 0 <= j < k ==> Harmless(trace[j], ops[j])
  }

  /** Up to a call that does harm, every state is well formed; after it, none of these is. */
  lemma {:induction false} TraceSound(ops: seq<Op>, trace: seq<Snap>, k: nat)
    requires Trace(ops, trace) && k < |trace|
    ensures HarmlessTo(ops, trace, k) ==> Sound(trace[k])
    ensures k > 0 && HarmlessTo(ops, trace, k - 1) && !Harmless(trace[k - 1], ops[k - 1]) ==> !Sound(trace[k])
    decreases k
  {
    if k == 0 {
      EmptySound();
    } else {
      var j := k - 1;
      TraceSound(ops, trace, j);
      assert Follows(trace[j], ops[j], trace[j + 1]);
      if HarmlessTo(ops, trace, j) && Legal(trace[j].mem, ops[j]) {
        EffectSound(trace[j], ops[j], trace[k]);
      }
      if HarmlessTo(ops, trace, k) { assert Harmless(trace[j], ops[j]); }
    }
  }

  lemma EmptySound()
    ensures Sound(Snap(map[], map[]))
  {
    var depth: Depths := map[];
    assert WellFormed(map[], map[], depth);
  }

  /**
    All calls of a run, in turn. It ends early only with a call that does harm; a run without such calls is made in
    full, and each of its states is well formed.
   */
  method Run(ops: seq<Op>) returns (t: ResourceTree, ghost trace: seq<Snap>)
    ensures Trace(ops, trace) && trace[|trace| - 1] == Now(t)
    ensures HarmlessTo(ops, trace, |trace| - 1) ==> |trace| == |ops| + 1 && t.Valid()
    ensures forall k: nat :: k < |trace| && HarmlessTo(ops, trace, k) ==> Sound(trace[k])
  {
    t := new ResourceTree();
    trace := [Now(t)];
    var k, ok := 0, true;
    while k < |ops| && ok
      invariant k <= |ops| && |trace| == k + 1 && trace[0] == Snap(map[], map[]) && trace[k] == Now(t)
      invariant (ok <==> t.Valid()) && fresh(t) && Steps(ops, trace)
      invariant !ok ==> k > 0 && !Harmless(trace[k - 1], ops[k - 1])
    {
      var legal := Legal(t.mem, ops[k]);
      if legal {
        ok := Step(t, ops[k]);
      }
      OneMore(ops, trace, Now(t));
      trace := trace + [Now(t)];
      k := k + 1;
    }
    forall j: nat | j < |trace| && HarmlessTo(ops, trace, j) ensures Sound(trace[j]) {
      TraceSound(ops, trace, j);
    }
    if HarmlessTo(ops, trace, k) && k > 0 { assert Harmless(trace[k - 1], ops[k - 1]); }
  }

  lemma OneMore(ops: seq<Op>, trace: seq<Snap>, b: Snap)
    requires 1 <= |trace| <= |ops| && Steps(ops, trace) && Follows(trace[|trace| - 1], ops[|trace| - 1], b)
    ensures Steps(ops, trace + [b])
  {
    var trace' := trace + [b];
    forall j | 0 <= j < |trace'| - 1 ensures Follows(trace'[j], ops[j], trace'[j + 1]) {
      if j < |trace| - 1 { assert Follows(trace[j], ops[j], trace[j + 1]); }
    }
  }
}
