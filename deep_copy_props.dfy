// What `deepCopy` guarantees: over an acyclic heap the copy is the heap
// unfolded into a tree, shared substructures included; a reachable cycle
// throws.

module DeepCopyProps {
  import opened Base
  import opened JsValue
  import opened DeepCopy

  /** Every object outranks the objects it refers to. */
  ghost predicate Ranked(h: Heap, rank: nat -> nat) {
    forall a :: a in h ==> match h[a]
      case HArr(items) => forall i :: 0 <= i < |items| ==> items[i].Ref? ==> rank(items[i].addr) < rank(a)
      case HObj(props) => forall i :: 0 <= i < |props| ==> props[i].1.Ref? ==> rank(props[i].1.addr) < rank(a)
      case HOther(_) => true
  }

  /** A bound on the depth of what a slot refers to. */
  function SlotRank(s: Slot, rank: nat -> nat): nat {
    if s.Ref? then rank(s.addr) + 1 else 0
  }

  /** The structure a slot stands for, unfolded into a tree: arrays and plain
      objects expanded wherever they are referred to. */
  function Unfold(h: Heap, s: Slot, rank: nat -> nat): Copy
    requires HeapOk(h) && Ranked(h, rank) && SlotIn(h, s)
    decreases SlotRank(s, rank), 1, 0
  {
    match s
    case Prim(v) => CPrim(v)
    case Ref(a) =>
      match h[a]
      case HOther(_) => CShared(a)
      case HArr(items) => CArr(UnfoldItems(h, items, rank, rank(a) + 1))
      case HObj(props) => CObj(UnfoldProps(h, props, rank, rank(a) + 1))
  }

  function UnfoldItems(h: Heap, items: seq<Slot>, rank: nat -> nat, bound: nat): (r: seq<Copy>)
    requires HeapOk(h) && Ranked(h, rank)
    requires forall i :: 0 <= i < |items| ==> SlotIn(h, items[i]) && SlotRank(items[i], rank) < bound
    ensures |r| == |items|
    decreases bound, 0, |items|
  {
    if items == [] then [] else [Unfold(h, items[0], rank)] + UnfoldItems(h, items[1..], rank, bound)
  }

  function UnfoldProps(h: Heap, props: seq<(string, Slot)>, rank: nat -> nat, bound: nat): (r: seq<(string, Copy)>)
    requires HeapOk(h) && Ranked(h, rank)
    requires forall i :: 0 <= i < |props| ==> SlotIn(h, props[i].1) && SlotRank(props[i].1, rank) < bound
    ensures |r| == |props|
    decreases bound, 0, |props|
  {
    if props == [] then [] else [(props[0].0, Unfold(h, props[0].1, rank))] + UnfoldProps(h, props[1..], rank, bound)
  }

  /** Over a ranked heap, with only higher-ranked objects in `seen`, the copy
      succeeds and is the unfolded tree. */
  lemma {:induction false} CopyIsUnfold(h: Heap, s: Slot, rank: nat -> nat, seen: set<nat>)
    requires HeapOk(h) && Ranked(h, rank) && SlotIn(h, s)
    requires forall b :: b in seen ==> SlotRank(s, rank) <= rank(b)
    ensures Copied(h, s, seen) == Ok(Unfold(h, s, rank))
    decreases SlotRank(s, rank), 1, 0
  {
    if s.Ref? {
      var a := s.addr;
      match h[a]
      case HOther(_) =>
      case HArr(items) =>
        assert a !in seen;
        CopyItemsIsUnfold(h, items, rank, rank(a) + 1, seen + {a});
      case HObj(props) =>
        assert a !in seen;
        CopyPropsIsUnfold(h, props, rank, rank(a) + 1, seen + {a});
    }
  }

  lemma {:induction false} CopyItemsIsUnfold(h: Heap, items: seq<Slot>, rank: nat -> nat, bound: nat, seen: set<nat>)
    requires HeapOk(h) && Ranked(h, rank)
    requires forall i :: 0 <= i < |items| ==> SlotIn(h, items[i]) && SlotRank(items[i], rank) < bound
    requires forall b :: b in seen ==> bound <= rank(b) + 1
    ensures CopiedItems(h, items, seen) == Ok(UnfoldItems(h, items, rank, bound))
    decreases bound, 0, |items|
  {
    if items != [] {
      CopyIsUnfold(h, items[0], rank, seen);
      CopyItemsIsUnfold(h, items[1..], rank, bound, seen);
    }
  }

  lemma {:induction false} CopyPropsIsUnfold(h: Heap, props: seq<(string, Slot)>, rank: nat -> nat, bound: nat, seen: set<nat>)
    requires HeapOk(h) && Ranked(h, rank)
    requires forall i :: 0 <= i < |props| ==> SlotIn(h, props[i].1) && SlotRank(props[i].1, rank) < bound
    requires forall b :: b in seen ==> bound <= rank(b) + 1
    ensures CopiedProps(h, props, seen) == Ok(UnfoldProps(h, props, rank, bound))
    decreases bound, 0, |props|
  {
    if props != [] {
      CopyIsUnfold(h, props[0].1, rank, seen);
      CopyPropsIsUnfold(h, props[1..], rank, bound, seen);
    }
  }

  /** `deepCopy(value)` of an acyclic value is its unfolded tree. */
  lemma AcyclicCopied(h: Heap, s: Slot, rank: nat -> nat)
    requires HeapOk(h) && Ranked(h, rank) && SlotIn(h, s)
    ensures Copied(h, s, {}) == Ok(Unfold(h, s, rank))
  {
    CopyIsUnfold(h, s, rank, {});
  }

  /** An array whose two items are the same plain object copies without a
      throw, into two separate copies. */
  lemma SharedChildCopiedTwice()
    ensures Copied(map[0 := HArr([Ref(1), Ref(1)]), 1 := HObj([])], Ref(0), {}) == Ok(CArr([CObj([]), CObj([])]))
  {
    var h := map[0 := HArr([Ref(1), Ref(1)]), 1 := HObj([])];
    SharedChildRanked(h);
    AcyclicCopied(h, Ref(0), ArrayAbove);
    SharedChildUnfolded(h);
  }

  /** The rank of the two-object heap: the array above the object. */
  function ArrayAbove(a: nat): nat {
    if a == 0 then 1 else 0
  }

  lemma SharedChildRanked(h: Heap)
    requires h == map[0 := HArr([Ref(1), Ref(1)]), 1 := HObj([])]
    ensures HeapOk(h) && Ranked(h, ArrayAbove)
  {
  }

  lemma SharedChildUnfolded(h: Heap)
    requires h == map[0 := HArr([Ref(1), Ref(1)]), 1 := HObj([])]
    requires HeapOk(h) && Ranked(h, ArrayAbove)
    ensures Unfold(h, Ref(0), ArrayAbove) == CArr([CObj([]), CObj([])])
  {
    var none: seq<(string, Copy)> := [];
    assert Unfold(h, Ref(1), ArrayAbove) == CObj(none);
    assert UnfoldItems(h, [Ref(1), Ref(1)], ArrayAbove, 2) == [CObj(none), CObj(none)] by {
      assert [Ref(1), Ref(1)][1..] == [Ref(1)];
    }
  }

  /** Objects of other classes and primitives come back as they are. */
  lemma NotPlainKept(h: Heap, s: Slot, seen: set<nat>)
    requires HeapOk(h) && SlotIn(h, s)
    ensures s.Prim? ==> Copied(h, s, seen) == Ok(CPrim(s.v))
    ensures s.Ref? && h[s.addr].HOther? ==> Copied(h, s, seen) == Ok(CShared(s.addr))
  {
  }

  /** `c` is an object that the array or plain object `a` refers to. */
  predicate Child(h: Heap, a: nat, c: nat) {
    a in h && match h[a]
      case HArr(items) => Ref(c) in items
      case HObj(props) => exists i :: 0 <= i < |props| && props[i].1 == Ref(c)
      case HOther(_) => false
  }

  /** A throw among the items is a throw of the whole map. */
  lemma {:induction false} ItemsThrow(h: Heap, items: seq<Slot>, seen: set<nat>, j: nat)
    requires HeapOk(h) && forall i :: 0 <= i < |items| ==> SlotIn(h, items[i])
    requires j < |items| && Copied(h, items[j], seen).Err?
    ensures CopiedItems(h, items, seen).Err?
  {
    if j > 0 && Copied(h, items[0], seen).Ok? {
      ItemsThrow(h, items[1..], seen, j - 1);
    }
  }

  lemma {:induction false} PropsThrow(h: Heap, props: seq<(string, Slot)>, seen: set<nat>, j: nat)
    requires HeapOk(h) && forall i :: 0 <= i < |props| ==> SlotIn(h, props[i].1)
    requires j < |props| && Copied(h, props[j].1, seen).Err?
    ensures CopiedProps(h, props, seen).Err?
  {
    if j > 0 && Copied(h, props[0].1, seen).Ok? {
      PropsThrow(h, props[1..], seen, j - 1);
    }
  }

  /** Following a chain of references down to an object that is already
      being copied throws. */
  lemma {:induction false} PathToSeenThrows(h: Heap, path: seq<nat>, seen: set<nat>)
    requires HeapOk(h) && |path| >= 1 && path[0] in h
    requires forall i :: 0 <= i < |path| - 1 ==> Child(h, path[i], path[i + 1])
    requires path[|path| - 1] in seen && path[|path| - 1] in h && !h[path[|path| - 1]].HOther?
    ensures Copied(h, Ref(path[0]), seen) == Err(Circular)
    decreases |path|
  {
    var a := path[0];
    if |path| > 1 {
      assert Child(h, a, path[1]);
    }
    if |path| > 1 && a !in seen {
      assert Child(h, a, path[1]);
      assert path[1] in h;
      PathToSeenThrows(h, path[1..], seen + {a});
      match h[a]
      case HArr(items) =>
        var j :| 0 <= j < |items| && items[j] == Ref(path[1]);
        ItemsThrow(h, items, seen + {a}, j);
      case HObj(props) =>
        var j :| 0 <= j < |props| && props[j].1 == Ref(path[1]);
        PropsThrow(h, props, seen + {a}, j);
    }
  }

  /** A cycle of references through arrays and plain objects throws
      `TypeError` when copied from any object on it. */
  lemma CycleThrows(h: Heap, cycle: seq<nat>)
    requires HeapOk(h) && |cycle| >= 2 && cycle[0] in h && cycle[0] == cycle[|cycle| - 1]
    requires forall i :: 0 <= i < |cycle| - 1 ==> Child(h, cycle[i], cycle[i + 1])
    ensures Copied(h, Ref(cycle[0]), {}) == Err(Circular)
  {
    var a := cycle[0];
    assert Child(h, a, cycle[1]);
    PathToSeenThrows(h, cycle[1..], {a});
    var none: set<nat> := {};
    assert none + {a} == {a};
    match h[a]
    case HArr(items) =>
      var j :| 0 <= j < |items| && items[j] == Ref(cycle[1]);
      ItemsThrow(h, items, {a}, j);
    case HObj(props) =>
      var j :| 0 <= j < |props| && props[j].1 == Ref(cycle[1]);
      PropsThrow(h, props, {a}, j);
  }
}
