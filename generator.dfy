// The citation pass of the plugin: every text node under a `div`, `p`, `span`
// or `li` is searched for citation markers; each marker whose keys are all in
// the bibliography is replaced by a citation node, numbered 1, 2, ... in
// document order, and the engine is told about the clusters before it.

module Generator {
  import opened Base
  import opened CiteItems
  import opened Hast
  import opened GenCitation

  /** Where the marker finder found a marker: its start and its length. */
  datatype Match = Match(start: nat, len: nat)

  /** What the pass depends on: the marker finder and parser, the keys of the
      bibliography, the engine's cluster processing and citation mode, and the
      classes for the citation span. */
  datatype Env = Env(
    find: string -> Option<Match>,
    parse: string -> (seq<CiteItem>, bool),
    citationIds: seq<string>,
    engine: ClusterRequest -> seq<ClusterRow>,
    mode: Mode,
    inlineClass: Option<seq<string>>)

  /** The finder reports a non-empty marker inside the text searched. */
  ghost predicate FinderOk(find: string -> Option<Match>) {
    forall s :: find(s).Some? ==> 1 <= find(s).value.len && find(s).value.start + find(s).value.len <= |s|
  }

  /** The state the visitor keeps between markers: the next citation number,
      the clusters cited so far and the text of each citation by number. */
  datatype St = St(citationId: nat, pre: seq<(string, int)>, dict: map<string, string>)

  const IdRoot := "CITATION"

  function Initial(): St { St(1, [], map[]) }

  /** The tags whose text children are searched. */
  predicate Permitted(tag: string) {
    tag == "div" || tag == "p" || tag == "span" || tag == "li"
  }

  /** Every key of the marker is in the bibliography. */
  predicate AllKnown(entries: seq<CiteItem>, ids: seq<string>) {
    forall i :: 0 <= i < |entries| ==> entries[i].id in ids
  }

  // ---------------------------------------------------------------------
  // One citation

  /** The node of citation number n. In note mode it is the footnote
      reference `span > sup > a` with the number as text; in text mode it is
      the span around what the engine's text converts to. */
  function CiteNode(env: Env, entries: seq<CiteItem>, n: nat, text: string): Node {
    var props := map["className" := Names(env.inlineClass.GetOr([])), "id" := Str(SpanId(entries, n))];
    if env.mode == Note then
      var num := NatToString(n);
      Element("span", props,
        [Element("sup", map[],
          [Element("a", map["href" := Str("#cite-fn-" + num), "id" := Str("cite-fnref-" + num),
                            "dataFootnoteRef" := Str(""), "ariaDescribedBy" := Names(["footnote-label"])],
                   [Text(num)])])])
    else Element("span", props, [Markup(text)])
  }

  /** The generator's own `genCitation`: the engine's text for cluster n and
      its node; a missing row is the `TypeError` of reading it. */
  function GenInline(env: Env, entries: seq<CiteItem>, n: nat, pre: seq<(string, int)>, composite: bool)
    : (r: Result<(string, Node), string>)
    ensures r.Ok? <==> RowText(env.engine(RequestFor(env.mode, entries, IdRoot, n, pre, composite)), CitationKey(IdRoot, n)).Some?
    ensures r.Ok? ==> r.value.0 == RowText(env.engine(RequestFor(env.mode, entries, IdRoot, n, pre, composite)), CitationKey(IdRoot, n)).value &&
                      r.value.1 == CiteNode(env, entries, n, r.value.0)
  {
    match RowText(env.engine(RequestFor(env.mode, entries, IdRoot, n, pre, composite)), CitationKey(IdRoot, n))
    case None => Err("TypeError: no engine row")
    case Some(text) => Ok((text, CiteNode(env, entries, n, text)))
  }

  /** The state after citation number `st.citationId` with text `text`. */
  function Advance(st: St, text: string): St {
    St(st.citationId + 1, st.pre + [(CitationKey(IdRoot, st.citationId), 0)], st.dict[NatToString(st.citationId) := text])
  }

  // ---------------------------------------------------------------------
  // One text node

  /** A result with nodes put in front. */
  function Prefix(out: seq<Node>, r: Result<(seq<Node>, St), string>): (p: Result<(seq<Node>, St), string>)
    ensures p.Ok? <==> r.Ok?
    ensures p.Ok? ==> p.value == (out + r.value.0, r.value.1)
    ensures r.Err? ==> p == r
  {
    if r.Ok? then Ok((out + r.value.0, r.value.1)) else r
  }

  lemma PrefixEmpty(r: Result<(seq<Node>, St), string>)
    ensures Prefix([], r) == r
  {
    if r.Ok? { assert [] + r.value.0 == r.value.0; }
  }

  lemma PrefixPrefix(a: seq<Node>, b: seq<Node>, r: Result<(seq<Node>, St), string>)
    ensures Prefix(a, Prefix(b, r)) == Prefix(a + b, r)
  {
    if r.Ok? { assert a + (b + r.value.0) == a + b + r.value.0; }
  }

  /** The text of a marker found in `v`. */
  function MarkerText(v: string, m: Match): string
    requires m.start + m.len <= |v|
  {
    v[m.start..][..m.len]
  }

  /** The text before a marker, as a text node when it is not empty. */
  function Lead(v: string, m: Match): seq<Node>
    requires m.start + m.len <= |v|
  {
    if m.start != 0 then [Text(v[..m.start])] else []
  }

  /** The text after a marker, when there is any. */
  function After(v: string, m: Match): (r: Option<string>)
    requires m.start + m.len <= |v|
    ensures r.Some? ==> |r.value| == |v| - m.start - m.len
  {
    if m.start + m.len < |v| then Some(v[m.start + m.len..]) else None
  }

  /** The first marker of `v` alone: the nodes that take the place of the
      text up to the marker's end, the text left to visit, and the new state.
      Text under another tag, text without a marker and a marker with a key
      outside the bibliography are left as they are. */
  function FirstMarker(env: Env, tag: string, v: string, st: St): (r: Result<(seq<Node>, Option<string>, St), string>)
    requires FinderOk(env.find)
    ensures !Permitted(tag) || env.find(v).None? ==> r == Ok(([Text(v)], None, st))
    ensures env.find(v).Some? && !AllKnown(env.parse(MarkerText(v, env.find(v).value)).0, env.citationIds) ==>
            r == Ok(([Text(v)], None, st))
    ensures r.Ok? && r.value.1.Some? ==> |r.value.1.value| < |v|
  {
    if !Permitted(tag) then Ok(([Text(v)], None, st))
    else match env.find(v)
      case None => Ok(([Text(v)], None, st))
      case Some(m) => CiteAt(env, v, m, st)
  }

  /** A marker found in `v`: replaced by the citation node when every key is
      in the bibliography. */
  function CiteAt(env: Env, v: string, m: Match, st: St): (r: Result<(seq<Node>, Option<string>, St), string>)
    requires 1 <= m.len && m.start + m.len <= |v|
    ensures !AllKnown(env.parse(MarkerText(v, m)).0, env.citationIds) ==> r == Ok(([Text(v)], None, st))
    ensures r.Ok? && r.value.1.Some? ==> |r.value.1.value| < |v|
  {
    var (entries, composite) := env.parse(MarkerText(v, m));
    if !AllKnown(entries, env.citationIds) then Ok(([Text(v)], None, st))
    else match GenInline(env, entries, st.citationId, st.pre, composite)
      case Err(e) => Err(e)
      case Ok((text, node)) => Ok((Lead(v, m) + [node], After(v, m), Advance(st, text)))
  }

  /** What visiting the text node `v` under a parent with tag `tag` puts in
      its place, together with the new state: the first marker's nodes, and
      then, when text follows the marker, what visiting that text puts in its
      place, since the walk visits the text node after the citation next. */
  function RewriteSpec(env: Env, tag: string, v: string, st: St): (r: Result<(seq<Node>, St), string>)
    requires FinderOk(env.find)
    ensures !Permitted(tag) || env.find(v).None? ==> r == Ok(([Text(v)], st))
    ensures env.find(v).Some? && !AllKnown(env.parse(MarkerText(v, env.find(v).value)).0, env.citationIds) ==>
            r == Ok(([Text(v)], st))
    decreases |v|
  {
    match FirstMarker(env, tag, v, st)
    case Err(e) => Err(e)
    case Ok((out, next, st')) =>
      if next.None? then Ok((out, st')) else Prefix(out, RewriteSpec(env, tag, next.value, st'))
  }

  // ---------------------------------------------------------------------
  // The walk

  function Size(n: Node): (s: nat)
    ensures s >= 1
  {
    match n
    case Element(_, _, children) => 1 + SizeList(children)
    case _ => 1
  }

  function SizeList(cs: seq<Node>): nat {
    if cs == [] then 0 else Size(cs[0]) + SizeList(cs[1..])
  }

  /** The children of a parent with tag `tag`, each visited in order. */
  function WalkList(env: Env, tag: string, cs: seq<Node>, st: St): Result<(seq<Node>, St), string>
    requires FinderOk(env.find)
    decreases SizeList(cs), 2
  {
    if cs == [] then Ok(([], st))
    else
      var first := VisitChild(env, tag, cs[0], st);
      if first.Err? then Err(first.error)
      else Prefix(first.value.0, WalkList(env, tag, cs[1..], first.value.1))
  }

  /** One child: a text node is rewritten, an element walked into, converted
      HTML kept. */
  function VisitChild(env: Env, tag: string, c: Node, st: St): Result<(seq<Node>, St), string>
    requires FinderOk(env.find)
    decreases Size(c), 1
  {
    match c
    case Text(v) => RewriteSpec(env, tag, v, st)
    case Element(_, _, _) =>
      (match WalkNode(env, c, st)
       case Err(e) => Err(e)
       case Ok((n, st')) => Ok(([n], st')))
    case Markup(_) => Ok(([c], st))
  }

  /** An element with its children walked. */
  function WalkNode(env: Env, n: Node, st: St): Result<(Node, St), string>
    requires FinderOk(env.find) && n.Element?
    decreases Size(n), 0
  {
    match WalkList(env, n.tagName, n.children, st)
    case Err(e) => Err(e)
    case Ok((cs, st')) => Ok((n.(children := cs), st'))
  }

  /** The pass over the root's children; the root has no tag. */
  function CitationPass(env: Env, tree: seq<Node>): Result<(seq<Node>, St), string>
    requires FinderOk(env.find)
  {
    WalkList(env, "", tree, Initial())
  }

  // ---------------------------------------------------------------------
  // The visitor as an object with the pass's state

  class Visitor {
    var citationId: nat
    var citationPre: seq<(string, int)>
    var citationDict: map<string, string>

    function State(): St
      reads this
    {
      St(citationId, citationPre, citationDict)
    }

    constructor ()
      ensures State() == Initial()
    {
      citationId := 1;
      citationPre := [];
      citationDict := map[];
    }

    /** The outcome of a call as the specification states it. */
    function Outcome(r: Result<seq<Node>, string>): Result<(seq<Node>, St), string>
      reads this
    {
      if r.Ok? then Ok((r.value, State())) else Err(r.error)
    }

    /** A text node and the texts after its markers, one marker at a time. */
    method RewriteText(env: Env, tag: string, v: string) returns (r: Result<seq<Node>, string>)
      requires FinderOk(env.find)
      modifies this
      ensures Outcome(r) == RewriteSpec(env, tag, v, old(State()))
    {
      var out: seq<Node> := [];
      var rest := v;
      PrefixEmpty(RewriteSpec(env, tag, v, State()));
      while true
        invariant Prefix(out, RewriteSpec(env, tag, rest, State())) == RewriteSpec(env, tag, v, old(State()))
        decreases |rest|
      {
        var step := VisitMarker(env, tag, rest);
        if step.Err? {
          return Err(step.error);
        }
        var (emit, next) := step.value;
        if next.None? {
          return Ok(out + emit);
        }
        PrefixPrefix(out, emit, RewriteSpec(env, tag, next.value, State()));
        out := out + emit;
        rest := next.value;
      }
    }

    /** The first marker of a text: the visitor's state moves on by one
        citation when the marker is replaced. */
    method VisitMarker(env: Env, tag: string, v: string) returns (r: Result<(seq<Node>, Option<string>), string>)
      requires FinderOk(env.find)
      modifies this
      ensures (if r.Ok? then Ok((r.value.0, r.value.1, State())) else Err(r.error)) == FirstMarker(env, tag, v, old(State()))
    {
      var m := env.find(v);
      if !Permitted(tag) || m.None? {
        return Ok(([Text(v)], None));
      }
      var (entries, composite) := env.parse(MarkerText(v, m.value));
      if !AllKnown(entries, env.citationIds) {
        return Ok(([Text(v)], None));
      }
      var c := GenInline(env, entries, citationId, citationPre, composite);
      if c.Err? {
        return Err(c.error);
      }
      var (text, node) := c.value;
      Record(text);
      r := Ok((Lead(v, m.value) + [node], After(v, m.value)));
    }

    /** The citation just made, with text `text`: its number is used, its
        cluster joins those cited before, and its text is kept by number. */
    method Record(text: string)
      modifies this
      ensures State() == Advance(old(State()), text)
    {
      citationDict := citationDict[NatToString(citationId) := text];
      citationPre := citationPre + [(CitationKey(IdRoot, citationId), 0)];
      citationId := citationId + 1;
    }

    /** The children of a parent, in order. */
    method WalkChildren(env: Env, tag: string, cs: seq<Node>) returns (r: Result<seq<Node>, string>)
      requires FinderOk(env.find)
      modifies this
      ensures Outcome(r) == WalkList(env, tag, cs, old(State()))
      decreases SizeList(cs), 2
    {
      if cs == [] {
        return Ok([]);
      }
      var first := Visit(env, tag, cs[0]);
      if first.Err? {
        return Err(first.error);
      }
      var rest := WalkChildren(env, tag, cs[1..]);
      r := if rest.Ok? then Ok(first.value + rest.value) else rest;
    }

    /** One child of a parent. */
    method Visit(env: Env, tag: string, c: Node) returns (r: Result<seq<Node>, string>)
      requires FinderOk(env.find)
      modifies this
      ensures Outcome(r) == VisitChild(env, tag, c, old(State()))
      decreases Size(c), 1
    {
      match c {
        case Text(v) =>
          r := RewriteText(env, tag, v);
        case Element(_, _, _) =>
          var n := WalkElement(env, c);
          r := if n.Ok? then Ok([n.value]) else Err(n.error);
        case Markup(_) =>
          r := Ok([c]);
      }
    }

    /** An element, with its children walked. */
    method WalkElement(env: Env, n: Node) returns (r: Result<Node, string>)
      requires FinderOk(env.find) && n.Element?
      modifies this
      ensures (if r.Ok? then Ok((r.value, State())) else Err(r.error)) == WalkNode(env, n, old(State()))
      decreases Size(n), 0
    {
      var cs := WalkChildren(env, n.tagName, n.children);
      r := if cs.Ok? then Ok(n.(children := cs.value)) else Err(cs.error);
    }
  }

  /** The pass as the plugin runs it: a fresh visitor over the root. */
  method RunCitationPass(env: Env, tree: seq<Node>) returns (r: Result<(seq<Node>, St), string>)
    requires FinderOk(env.find)
    ensures r == CitationPass(env, tree)
  {
    var visitor := new Visitor();
    var out := visitor.WalkChildren(env, "", tree);
    r := if out.Ok? then Ok((out.value, visitor.State())) else Err(out.error);
  }
}
