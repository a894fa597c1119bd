/** Changing one slot of a radix tree, and moving on the level up to which the old sets still count. */
module RadixUpdate {
  import opened RadixIndex
  import opened RadixShape

  lemma AnyAdd(s: set<nat>, k: nat, h: nat, x: nat)
    ensures Any(s + {k}, h, x) <==> Any(s, h, x) || Up(k, h) == x
  {
    if Any(s, h, x) {
      var j :| j in s && Up(j, h) == x;
      assert j in s + {k};
    }
    if Up(k, h) == x {
      assert k in s + {k};
    }
  }

  lemma AnyRemove(s: set<nat>, k: nat, h: nat, x: nat)
    requires x != Up(k, h)
    ensures Any(s - {k}, h, x) <==> Any(s, h, x)
  {
    if Any(s, h, x) {
      var j :| j in s && Up(j, h) == x;
      assert j in s - {k};
    }
  }

  /** The worlds make the same demands on links to a place. */
  ghost predicate PlaceSame(w: World, w': World, c: nat, x: nat) {
    && (Below(w.keys, c, x) <==> Below(w'.keys, c, x))
    && (Below(w.tags0, c, x) <==> Below(w'.tags0, c, x))
    && (Below(w.tags1, c, x) <==> Below(w'.tags1, c, x))
    && (forall ptr {:trigger TargetOk(w', ptr, c, x)} :: Below(w.keys, c, x) && TargetOk(w, ptr, c, x) ==>
      TargetOk(w', ptr, c, x))
  }

  /** The worlds make the same demands on links to all places of height below `height`, except one. */
  ghost predicate AgreeBut(w: World, w': World, height: nat, c0: nat, x0: nat) {
    forall c: nat, x: nat {:trigger PlaceSame(w, w', c, x)} :: c < height && !(c == c0 && x == x0) ==>
      PlaceSame(w, w', c, x)
  }

  lemma LinkSame(w: World, w': World, ptr: Ptr, b0: bool, b1: bool, c: nat, x: nat)
    requires LinkOk(w, ptr, b0, b1, c, x) && PlaceSame(w, w', c, x)
    ensures LinkOk(w', ptr, b0, b1, c, x)
  {
  }

  /** `n'` is `n` but for slot `i`. */
  ghost predicate DiffersAt(n: Node, n': Node, i: nat) {
    && Shaped(n) && Shaped(n') && i < MAP_SIZE
    && (forall j :: 0 <= j < MAP_SIZE && j != i ==> n'.slots[j] == n.slots[j])
    && (forall j :: 0 <= j < MAP_SIZE && j != i ==> n'.tags[0][j] == n.tags[0][j])
    && (forall j :: 0 <= j < MAP_SIZE && j != i ==> n'.tags[1][j] == n.tags[1][j])
  }

  lemma NodeChanged(w: World, w': World, n: Node, n': Node, lab: Label, i: nat, height: nat)
    requires NodeOk(w, n, lab) && DiffersAt(n, n', i) && lab.h <= height
    requires AgreeBut(w, w', height, lab.h - 1, lab.pre * MAP_SIZE + i)
    requires EntryOk(w', n', lab, i)
    ensures NodeOk(w', n', lab)
  {
    forall j | 0 <= j < MAP_SIZE ensures EntryOk(w', n', lab, j) {
      if j != i {
        assert EntryOk(w, n, lab, j);
        assert PlaceSame(w, w', lab.h - 1, lab.pre * MAP_SIZE + j);
        LinkSame(w, w', n.slots[j], n.tags[0][j], n.tags[1][j], lab.h - 1, lab.pre * MAP_SIZE + j);
      }
    }
  }

  /** A node whose slots do not lead to the place in question. */
  lemma NodeKept(w: World, w': World, n: Node, lab: Label, height: nat, c0: nat, x0: nat)
    requires NodeOk(w, n, lab) && lab.h <= height && AgreeBut(w, w', height, c0, x0)
    requires lab != Label(c0 + 1, x0 / MAP_SIZE)
    ensures NodeOk(w', n, lab)
  {
    forall j | 0 <= j < MAP_SIZE ensures EntryOk(w', n, lab, j) {
      assert EntryOk(w, n, lab, j);
      assert (lab.pre * MAP_SIZE + j) / MAP_SIZE == lab.pre;
      assert PlaceSame(w, w', lab.h - 1, lab.pre * MAP_SIZE + j);
      LinkSame(w, w', n.slots[j], n.tags[0][j], n.tags[1][j], lab.h - 1, lab.pre * MAP_SIZE + j);
    }
  }

  /** No node stands where the worlds see different keys. */
  ghost predicate PlacesUsed(w: World, w': World) {
    forall q {:trigger w.at[q]} :: q in w.at && Below(w.keys, w.at[q].h, w.at[q].pre) ==>
      Below(w'.keys, w.at[q].h, w.at[q].pre)
  }

  /** The places of `w` are still taken by the same nodes in `w'`. */
  ghost predicate Keeps(w: World, w': World) {
    forall q {:trigger w.at[q]} {:trigger w'.at[q]} :: q in w.at ==> q in w'.at && w'.at[q] == w.at[q]
  }

  /** One slot of one node changes, and with it what the nodes are to agree with. */
  lemma ChangePlaces(w: World, w': World, mem: Mem, mem': Mem, height: nat, p: Ptr, i: nat)
    requires NodesOk(w, mem, height) && p in mem && p in mem' && mem' == mem[p := mem'[p]]
    requires Keeps(w, w') && i < MAP_SIZE && w.at[p].h >= 1 && DiffersAt(mem[p], mem'[p], i)
    requires AgreeBut(w, w', height, w.at[p].h - 1, w.at[p].pre * MAP_SIZE + i) && PlacesUsed(w, w')
    requires EntryOk(w', mem'[p], w.at[p], i)
    ensures forall q :: q in mem' ==> PlaceOk(w', mem', q, height)
  {
    var lab := w.at[p];
    forall q | q in mem' ensures PlaceOk(w', mem', q, height) {
      assert PlaceOk(w, mem, q, height);
      if q == p {
        NodeChanged(w, w', mem[p], mem'[p], lab, i, height);
      } else {
        assert (lab.pre * MAP_SIZE + i) / MAP_SIZE == lab.pre;
        NodeKept(w, w', mem[q], w.at[q], height, lab.h - 1, lab.pre * MAP_SIZE + i);
      }
    }
  }

  lemma ChangeSlot(w: World, w': World, mem: Mem, mem': Mem, height: nat, p: Ptr, i: nat)
    requires NodesOk(w, mem, height) && p in mem && p in mem' && mem' == mem[p := mem'[p]]
    requires w'.at == w.at && i < MAP_SIZE && w.at[p].h >= 1 && DiffersAt(mem[p], mem'[p], i)
    requires AgreeBut(w, w', height, w.at[p].h - 1, w.at[p].pre * MAP_SIZE + i) && PlacesUsed(w, w')
    requires EntryOk(w', mem'[p], w.at[p], i)
    ensures NodesOk(w', mem', height)
  {
    ChangePlaces(w, w', mem, mem', height, p, i);
  }

  ghost predicate Vacant(at: map<Ptr, Label>, lab: Label) {
    forall q {:trigger at[q]} :: q in at ==> at[q] != lab
  }

  /** A node at a new place. */
  lemma AddPlace(w: World, at: map<Ptr, Label>, mem: Mem, height: nat, p: Ptr, lab: Label, mem': Mem)
    requires mem.Keys == at.Keys && Unique(at) && p !in mem && p != NULL && w.at == at[p := lab]
    requires forall q :: q in mem ==> PlaceOk(w, mem, q, height)
    requires p in mem' && mem' == mem[p := mem'[p]]
    requires 1 <= lab.h <= height && Vacant(at, lab) && NodeOk(w, mem'[p], lab) && Below(w.keys, lab.h, lab.pre)
    ensures NodesOk(w, mem', height)
  {
    forall q | q in mem' ensures PlaceOk(w, mem', q, height) {
      if q != p {
        assert PlaceOk(w, mem, q, height);
      }
    }
  }

  /** All nodes kept, at their places, under a world that makes the same demands. */
  lemma KeepPlaces(w: World, w': World, mem: Mem, height: nat, height': nat)
    requires NodesOk(w, mem, height) && height <= height' && Keeps(w, w') && AgreeBut(w, w', height, height, 0)
      && PlacesUsed(w, w')
    ensures forall q :: q in mem ==> PlaceOk(w', mem, q, height')
  {
    forall q | q in mem ensures PlaceOk(w', mem, q, height') {
      assert PlaceOk(w, mem, q, height);
      NodeKept(w, w', mem[q], w.at[q], height, height, 0);
    }
  }

  /** Worlds that make the same demands everywhere. */
  lemma SameNodes(w: World, w': World, mem: Mem, height: nat)
    requires NodesOk(w, mem, height) && w'.at == w.at && AgreeBut(w, w', height, height, 0) && PlacesUsed(w, w')
    ensures NodesOk(w', mem, height)
  {
    forall q | q in mem ensures PlaceOk(w', mem, q, height) {
      assert PlaceOk(w, mem, q, height);
      NodeKept(w, w', mem[q], w.at[q], height, height, 0);
    }
  }

  // ---------------------------------------------------------------- counting slots

  lemma {:induction false} InUseUpdate(s: seq<Ptr>, i: nat, ptr: Ptr)
    requires i < |s|
    ensures InUse(s[i := ptr]) == InUse(s) - (if s[i] != NULL then 1 else 0) + (if ptr != NULL then 1 else 0)
  {
    var t := s[i := ptr];
    if i == |s| - 1 {
      assert t[..|t| - 1] == s[..|s| - 1];
    } else {
      InUseUpdate(s[..|s| - 1], i, ptr);
      assert t[..|t| - 1] == s[..|s| - 1][i := ptr];
    }
  }

  lemma {:induction false} InUseZero(s: seq<Ptr>)
    ensures InUse(s) == 0 <==> forall i :: 0 <= i < |s| ==> s[i] == NULL
  {
    if |s| > 0 {
      InUseZero(s[..|s| - 1]);
      assert s == s[..|s| - 1] + [s[|s| - 1]];
    }
  }

  /** With one slot in use, there are no two. */
  lemma InUseOne(s: seq<Ptr>, i: nat, j: nat)
    requires i < |s| && j < |s| && s[i] != NULL && s[j] != NULL && InUse(s) == 1
    ensures i == j
  {
    InUseUpdate(s, i, NULL);
    InUseZero(s[i := NULL]);
  }
}
