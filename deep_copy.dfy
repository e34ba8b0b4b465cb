// `deepCopy(value)`: a copy of a value in which every plain object and every
// array is new. Objects of other classes are shared with the original, and
// a circular structure throws. Values live in a heap so that sharing and
// cycles can be expressed; the copy is a tree of new objects.

module DeepCopy {
  import opened Base
  import opened JsValue

  /** A property or array slot: a primitive (or a function), or an object of
      the heap by address. */
  datatype Slot = Prim(v: Value) | Ref(addr: nat)

  /** An object of the heap: an array, a plain object, or an object made by
      another constructor. */
  datatype HeapObj =
    | HArr(items: seq<Slot>)
    | HObj(props: seq<(string, Slot)>)
    | HOther(ctor: string)

  type Heap = map<nat, HeapObj>

  /** The copy: primitives as they were, objects of other classes shared by
      address, new arrays and new plain objects. */
  datatype Copy =
    | CPrim(v: Value)
    | CShared(addr: nat)
    | CArr(items: seq<Copy>)
    | CObj(props: seq<(string, Copy)>)

  predicate SlotIn(h: Heap, s: Slot) {
    s.Ref? ==> s.addr in h
  }

  /** Every reference inside the heap points into it, as in a JavaScript heap. */
  ghost predicate HeapOk(h: Heap) {
    forall a :: a in h ==> match h[a]
      case HArr(items) => forall i :: 0 <= i < |items| ==> SlotIn(h, items[i])
      case HObj(props) => forall i :: 0 <= i < |props| ==> SlotIn(h, props[i].1)
      case HOther(_) => true
  }

  const Circular := "TypeError: Recursively copying circular structure"

  lemma EnterShrinks(h: Heap, seen: set<nat>, a: nat)
    requires a in h && a !in seen
    ensures |h.Keys - (seen + {a})| < |h.Keys - seen|
  {
    assert h.Keys - seen == (h.Keys - (seen + {a})) + {a};
  }

  /** `deepCopy(value, seen)`: `seen` holds the objects being copied on the
      way down from the root. */
  function Copied(h: Heap, s: Slot, seen: set<nat>): (r: Result<Copy, string>)
    requires HeapOk(h) && SlotIn(h, s)
    ensures r.Err? ==> r.error == Circular
    ensures r.Ok? && s.Ref? && h[s.addr].HArr? ==> r.value.CArr? && |r.value.items| == |h[s.addr].items|
    ensures r.Ok? && s.Ref? && h[s.addr].HObj? ==> (r.value.CObj? && |r.value.props| == |h[s.addr].props| &&
      forall i :: 0 <= i < |r.value.props| ==> r.value.props[i].0 == h[s.addr].props[i].0)
    decreases |h.Keys - seen|, 1, 0
  {
    match s
    case Prim(v) => Ok(CPrim(v))
    case Ref(a) =>
      match h[a]
      case HOther(_) => Ok(CShared(a))
      case HArr(items) =>
        if a in seen then Err(Circular)
        else
          EnterShrinks(h, seen, a);
          (match CopiedItems(h, items, seen + {a})
           case Err(e) => Err(e)
           case Ok(cs) => Ok(CArr(cs)))
      case HObj(props) =>
        if a in seen then Err(Circular)
        else
          EnterShrinks(h, seen, a);
          (match CopiedProps(h, props, seen + {a})
           case Err(e) => Err(e)
           case Ok(ps) => Ok(CObj(ps)))
  }

  /** `value.map((value) => deepCopy(value, seen))`, stopping at the first throw. */
  function CopiedItems(h: Heap, items: seq<Slot>, seen: set<nat>): (r: Result<seq<Copy>, string>)
    requires HeapOk(h) && forall i :: 0 <= i < |items| ==> SlotIn(h, items[i])
    ensures r.Ok? ==> |r.value| == |items|
    ensures r.Err? ==> r.error == Circular
    decreases |h.Keys - seen|, 2, |items|
  {
    if items == [] then Ok([])
    else match Copied(h, items[0], seen)
      case Err(e) => Err(e)
      case Ok(c) =>
        match CopiedItems(h, items[1..], seen)
        case Err(e) => Err(e)
        case Ok(cs) => Ok([c] + cs)
  }

  /** The `for (const key in value)` loop, stopping at the first throw. */
  function CopiedProps(h: Heap, props: seq<(string, Slot)>, seen: set<nat>): (r: Result<seq<(string, Copy)>, string>)
    requires HeapOk(h) && forall i :: 0 <= i < |props| ==> SlotIn(h, props[i].1)
    ensures r.Ok? ==> |r.value| == |props| && forall i :: 0 <= i < |props| ==> r.value[i].0 == props[i].0
    ensures r.Err? ==> r.error == Circular
    decreases |h.Keys - seen|, 2, |props|
  {
    if props == [] then Ok([])
    else match Copied(h, props[0].1, seen)
      case Err(e) => Err(e)
      case Ok(c) =>
        match CopiedProps(h, props[1..], seen)
        case Err(e) => Err(e)
        case Ok(ps) => Ok([(props[0].0, c)] + ps)
  }

  /** The JavaScript `Set` of objects being copied. */
  class SeenSet {
    var elems: set<nat>

    constructor()
      ensures elems == {}
    {
      elems := {};
    }
  }

  /** Prepend the copies made so far to what the rest gives. */
  function After<T>(done: seq<T>, rest: Result<seq<T>, string>): Result<seq<T>, string> {
    match rest
    case Err(e) => Err(e)
    case Ok(xs) => Ok(done + xs)
  }

  lemma AfterSteps<T>(done: seq<T>, c: T, rest: Result<seq<T>, string>)
    ensures After([], rest) == rest
    ensures After(done, After([c], rest)) == After(done + [c], rest)
    ensures After(done, Ok([])) == Ok(done)
  {
    if rest.Ok? {
      assert [] + rest.value == rest.value;
      assert done + ([c] + rest.value) == (done + [c]) + rest.value;
    }
    assert done + [] == done;
  }

  /** `deepCopy(value, seen)` with its shared `seen` set: on success the set is
      as it was before the call. */
  method DeepCopyOf(h: Heap, s: Slot, seen: SeenSet) returns (r: Result<Copy, string>)
    requires HeapOk(h) && SlotIn(h, s)
    modifies seen
    ensures r == Copied(h, s, old(seen.elems))
    ensures r.Ok? ==> seen.elems == old(seen.elems)
    decreases |h.Keys - seen.elems|, 1
  {
    if s.Prim? {
      return Ok(CPrim(s.v));
    }
    var a := s.addr;
    if h[a].HOther? {
      return Ok(CShared(a));
    }
    if a in seen.elems {
      return Err(Circular);
    }
    EnterShrinks(h, seen.elems, a);
    ghost var before := seen.elems;
    seen.elems := seen.elems + {a};
    if h[a].HArr? {
      var cs := CopyItems(h, h[a].items, seen);
      if cs.Err? {
        return Err(cs.error);
      }
      r := Ok(CArr(cs.value));
    } else {
      var ps := CopyProps(h, h[a].props, seen);
      if ps.Err? {
        return Err(ps.error);
      }
      r := Ok(CObj(ps.value));
    }
    seen.elems := seen.elems - {a};
    assert seen.elems == before;
  }

  /** The `map` over an array's items. */
  method CopyItems(h: Heap, items: seq<Slot>, seen: SeenSet) returns (r: Result<seq<Copy>, string>)
    requires HeapOk(h) && forall i :: 0 <= i < |items| ==> SlotIn(h, items[i])
    modifies seen
    ensures r == CopiedItems(h, items, old(seen.elems))
    ensures r.Ok? ==> seen.elems == old(seen.elems)
    decreases |h.Keys - seen.elems|, 2
  {
    var done: seq<Copy> := [];
    var i := 0;
    assert items[0..] == items;
    AfterSteps(done, CPrim(Undefined), CopiedItems(h, items, seen.elems));
    while i < |items|
      invariant i <= |items| && seen.elems == old(seen.elems)
      invariant CopiedItems(h, items, seen.elems) == After(done, CopiedItems(h, items[i..], seen.elems))
    {
      assert items[i..][1..] == items[i + 1..];
      var c := DeepCopyOf(h, items[i], seen);
      if c.Err? {
        return Err(c.error);
      }
      AfterSteps(done, c.value, CopiedItems(h, items[i + 1..], seen.elems));
      done := done + [c.value];
      i := i + 1;
    }
    AfterSteps(done, CPrim(Undefined), Ok([]));
    r := Ok(done);
  }

  /** The `for ... in` loop over a plain object's properties. */
  method CopyProps(h: Heap, props: seq<(string, Slot)>, seen: SeenSet) returns (r: Result<seq<(string, Copy)>, string>)
    requires HeapOk(h) && forall i :: 0 <= i < |props| ==> SlotIn(h, props[i].1)
    modifies seen
    ensures r == CopiedProps(h, props, old(seen.elems))
    ensures r.Ok? ==> seen.elems == old(seen.elems)
    decreases |h.Keys - seen.elems|, 2
  {
    var done: seq<(string, Copy)> := [];
    var i := 0;
    assert props[0..] == props;
    AfterSteps(done, ("", CPrim(Undefined)), CopiedProps(h, props, seen.elems));
    while i < |props|
      invariant i <= |props| && seen.elems == old(seen.elems)
      invariant CopiedProps(h, props, seen.elems) == After(done, CopiedProps(h, props[i..], seen.elems))
    {
      assert props[i..][1..] == props[i + 1..];
      var c := DeepCopyOf(h, props[i].1, seen);
      if c.Err? {
        return Err(c.error);
      }
      AfterSteps(done, (props[i].0, c.value), CopiedProps(h, props[i + 1..], seen.elems));
      done := done + [(props[i].0, c.value)];
      i := i + 1;
    }
    AfterSteps(done, ("", CPrim(Undefined)), Ok([]));
    r := Ok(done);
  }

  /** `deepCopy(value)`: a fresh `seen` set. */
  method DeepCopyValue(h: Heap, s: Slot) returns (r: Result<Copy, string>)
    requires HeapOk(h) && SlotIn(h, s)
    ensures r == Copied(h, s, {})
  {
    var seen := new SeenSet();
    r := DeepCopyOf(h, s, seen);
  }
}
