/** Whole runs of operations on a radix tree, against a map with two sets of tagged indices. */
module RadixRuns {
  import opened RadixIndex
  import opened RadixShape
  import opened RadixTags
  import opened RadixInsert
  import opened RadixDelete

  datatype Table = Table(items: map<nat, Ptr>, tagged0: set<nat>, tagged1: set<nat>)

  datatype Op = Store(index: nat, item: Ptr) | Drop(index: nat) | Mark(index: nat, tag: nat)
    | Unmark(index: nat, tag: nat)

  /** What the callers owe: 64-bit indices, no null items, and tags only on present items. */
  ghost predicate Legal(t: Table, op: Op) {
    op.index < U64 && match op
                      case Store(index, item) => item != NULL
                      case Drop(index) => true
                      case Mark(index, tag) => tag < 2 && index in t.items
                      case Unmark(index, tag) => tag < 2
  }

  ghost function Apply(t: Table, op: Op): Table {
    match op
    case Store(index, item) => if index in t.items then t else t.(items := t.items[index := item])
    case Drop(index) => Table(t.items - {index}, t.tagged0 - {index}, t.tagged1 - {index})
    case Mark(index, tag) => if tag == 0 then t.(tagged0 := t.tagged0 + {index}) else t.(tagged1 := t.tagged1 + {index})
    case Unmark(index, tag) =>
      if tag == 0 then t.(tagged0 := t.tagged0 - {index}) else t.(tagged1 := t.tagged1 - {index})
  }

  ghost function ApplyAll(t: Table, ops: seq<Op>): Table {
    if |ops| == 0 then t else Apply(ApplyAll(t, ops[..|ops| - 1]), ops[|ops| - 1])
  }

  ghost predicate LegalAll(t: Table, ops: seq<Op>) {
    forall i {:trigger ops[i]} :: 0 <= i < |ops| ==> Legal(ApplyAll(t, ops[..i]), ops[i])
  }

  ghost function Contents(r: RadixRoot): Table
    reads r
  {
    Table(r.items, r.tagged0, r.tagged1)
  }

  method Step(r: RadixRoot, op: Op)
    requires r.Valid() && Legal(Contents(r), op)
    modifies r
    ensures r.Valid() && Contents(r) == Apply(old(Contents(r)), op)
  {
    match op
    case Store(index, item) => var err := Insert(r, index, item);
    case Drop(index) => var slot := Delete(r, index);
    case Mark(index, tag) => var slot := TagSet(r, index, tag);
    case Unmark(index, tag) => var slot := TagClear(r, index, tag);
  }

  /** Every run keeps the tree in agreement with the map. */
  method Run(ops: seq<Op>) returns (r: RadixRoot)
    requires LegalAll(Table(map[], {}, {}), ops)
    ensures r.Valid() && Contents(r) == ApplyAll(Table(map[], {}, {}), ops)
  {
    r := new RadixRoot();
    ghost var t := Contents(r);
    var i := 0;
    while i < |ops|
      invariant 0 <= i <= |ops| && r.Valid() && fresh(r) && Contents(r) == ApplyAll(t, ops[..i])
    {
      assert ops[..i + 1][..i] == ops[..i];
      Step(r, ops[i]);
      i := i + 1;
    }
    assert ops[..|ops|] == ops;
  }
}
