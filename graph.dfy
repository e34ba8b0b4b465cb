// The parse graph kept on each parsed entry: the list of formats the input
// went through. When an entry that already has a graph is parsed again, its
// old graph (without the final step) is spliced into the new one right after
// the `@else/list+object` step.

module InputGraph {
  import opened Base
  import opened JsValue

  /** One step of a parse graph: the format type and the data seen there. */
  datatype Step = Step(typ: string, data: Value)

  /** A graph array, which `applyGraph` changes in place. */
  class Graph {
    var steps: seq<Step>

    constructor(steps: seq<Step>)
      ensures this.steps == steps
    {
      this.steps := steps;
    }
  }

  /** The `_graph` property of an entry object. */
  class Entry {
    var graph: Option<Graph>

    constructor()
      ensures graph.None?
    {
      graph := None;
    }
  }

  /** `graph.findIndex(({ type }) => type === '@else/list+object')`. */
  function ElseIndex(g: seq<Step>): (r: int)
    ensures -1 <= r < |g|
    ensures r >= 0 ==> g[r].typ == "@else/list+object" && forall k :: 0 <= k < r ==> g[k].typ != "@else/list+object"
    ensures r == -1 <==> forall k :: 0 <= k < |g| ==> g[k].typ != "@else/list+object"
  {
    if g == [] then -1
    else if g[0].typ == "@else/list+object" then 0
    else var r := ElseIndex(g[1..]); if r == -1 then -1 else r + 1
  }

  /** `slice(0, -1)`: everything but the last element. */
  function Init(s: seq<Step>): (r: seq<Step>)
    ensures |r| == if s == [] then 0 else |s| - 1
  {
    if s == [] then [] else s[..|s| - 1]
  }

  /** The new graph after `applyGraph`, given the entry's previous graph. */
  function Spliced(previous: Option<seq<Step>>, g: seq<Step>): seq<Step> {
    if previous.None? || ElseIndex(g) == -1 then g
    else var k := ElseIndex(g); g[..k + 1] + Init(previous.value) + g[k + 1..]
  }

  /** The previous graph of an entry, as a value. */
  function PreviousSteps(e: Entry): Option<seq<Step>>
    reads e, if e.graph.Some? then {e.graph.value} else {}
  {
    if e.graph.Some? then Some(e.graph.value.steps) else None
  }

  /** `applyGraph(entry, graph)`: splice the previous graph into `graph` and
      make `graph` the entry's graph. The previous graph array may be `graph`
      itself: its slice is taken before the splice. */
  method ApplyGraph(entry: Entry, graph: Graph) returns (r: Entry)
    modifies entry, graph
    ensures r == entry && entry.graph == Some(graph)
    ensures graph.steps == Spliced(old(PreviousSteps(entry)), old(graph.steps))
  {
    if entry.graph.Some? {
      var index := ElseIndex(graph.steps);
      if index != -1 {
        var inserted := Init(entry.graph.value.steps);
        graph.steps := graph.steps[..index + 1] + inserted + graph.steps[index + 1..];
      }
    }
    entry.graph := Some(graph);
    r := entry;
  }

  /** `removeGraph(entry)`: the entry has no graph any more. */
  method RemoveGraph(entry: Entry) returns (r: Entry)
    modifies entry
    ensures r == entry && entry.graph.None?
  {
    entry.graph := None;
    r := entry;
  }

  /** Without a previous graph, or without an `@else/list+object` step, the
      graph is kept as it is. */
  lemma SplicedUnchanged(previous: Option<seq<Step>>, g: seq<Step>)
    requires previous.None? || forall k :: 0 <= k < |g| ==> g[k].typ != "@else/list+object"
    ensures Spliced(previous, g) == g
  {
  }

  /** With both, the previous graph minus its last step sits right after the
      first `@else/list+object` step, and every step of `g` keeps its order
      around it. */
  lemma SplicedLayout(previous: seq<Step>, g: seq<Step>, k: nat)
    requires k < |g| && g[k].typ == "@else/list+object"
    requires forall i :: 0 <= i < k ==> g[i].typ != "@else/list+object"
    ensures var r := Spliced(Some(previous), g); var n := |Init(previous)|;
      |r| == |g| + n && r[..k + 1] == g[..k + 1] && r[k + 1..k + 1 + n] == Init(previous) &&
      r[k + 1 + n..] == g[k + 1..]
  {
    assert ElseIndex(g) == k;
    var r := Spliced(Some(previous), g);
    var n := |Init(previous)|;
    assert r == g[..k + 1] + Init(previous) + g[k + 1..];
    assert r[..k + 1] == g[..k + 1];
    assert r[k + 1..k + 1 + n] == Init(previous);
    assert r[k + 1 + n..] == g[k + 1..];
  }

  /** Cutting the inserted block out again gives back the new graph. */
  lemma SplicedUndo(previous: seq<Step>, g: seq<Step>)
    requires ElseIndex(g) >= 0
    ensures var k := ElseIndex(g); var r := Spliced(Some(previous), g);
      r[..k + 1] + r[k + 1 + |Init(previous)|..] == g
  {
    var k := ElseIndex(g);
    CutBlock(g, k, Init(previous), Spliced(Some(previous), g));
  }

  lemma CutBlock(g: seq<Step>, k: nat, ins: seq<Step>, r: seq<Step>)
    requires k < |g| && r == g[..k + 1] + ins + g[k + 1..]
    ensures r[..k + 1] + r[k + 1 + |ins|..] == g
  {
    var head, tail := g[..k + 1], g[k + 1..];
    assert r[..k + 1] == head;
    assert r[k + 1 + |ins|..] == tail;
    assert head + tail == g;
  }

  /** Parsing again an entry whose graph has a single step inserts nothing. */
  lemma SingleStepInsertsNothing(s: Step, g: seq<Step>)
    ensures Spliced(Some([s]), g) == g
  {
    if ElseIndex(g) != -1 {
      var k := ElseIndex(g);
      assert g[..k + 1] + [] + g[k + 1..] == g;
    }
  }
}
