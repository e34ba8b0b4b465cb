// Note mode, after the citation pass: every footnote reference `sup > a` of
// the document, the citations' and the document's own, is numbered 1, 2, ...
// in document order, and the merged footnote section takes the place of the
// old one or ends the document.

module GeneratorNotes {
  import opened Base
  import opened Hast
  import opened GenFootnote
  import opened Generator

  /** What the renumbering walk keeps: the references recorded so far and the
      next number. */
  datatype Refs = Refs(fnArray: seq<FnItem>, index: nat)

  /** The href and the id that reference k is given. */
  function RefHref(k: nat): string { "#user-content-fn-" + NatToString(k) }
  function RefId(k: nat): string { "user-content-fnref-" + NatToString(k) }

  /** A link is a footnote reference when its href mentions `fn` and its id
      `fnref`. */
  predicate IsFootnoteRef(href: string, id: string) {
    Includes(href, "fn") && Includes(id, "fnref")
  }

  /** `href.split('-').pop()`. */
  function LastPiece(s: string): string {
    var p := Split(s, "-");
    p[|p| - 1]
  }

  /** The record of a reference: a citation when its href mentions `cite`,
      with the last dash-separated piece of the href as its old label. */
  function ItemOf(href: string): FnItem {
    FnItem(if Includes(href, "cite") then CitationRef else ExistingRef, LastPiece(href))
  }

  /** Two nodes with the same outside: the same element tag and properties,
      or the same leaf. */
  predicate SameShell(a: Node, b: Node) {
    (a.Element? <==> b.Element?) &&
    (a.Element? ==> b.tagName == a.tagName && b.properties == a.properties) &&
    (!a.Element? ==> b == a)
  }

  lemma SizeListCons(x: Node, xs: seq<Node>)
    ensures SizeList([x] + xs) == Size(x) + SizeList(xs)
  {
    assert ([x] + xs)[1..] == xs;
  }

  /** The link given number k: its href, its id and the text of its first
      child. A first child that is not text has no text to set. */
  function Renumbered(a: Node, k: nat): (r: Node)
    requires a.Element? && |a.children| >= 1
    ensures r.Element? && r.tagName == a.tagName && |r.children| == |a.children|
    ensures r.properties == a.properties["href" := Str(RefHref(k))]["id" := Str(RefId(k))]
    ensures r.children[1..] == a.children[1..]
    ensures a.children[0].Text? ==> r.children[0] == Text(NatToString(k))
    ensures !a.children[0].Text? ==> r.children[0] == a.children[0]
    ensures Size(r) <= Size(a)
  {
    var first := if a.children[0].Text? then Text(NatToString(k)) else a.children[0];
    SizeListCons(first, a.children[1..]);
    SizeListCons(a.children[0], a.children[1..]);
    assert a.children == [a.children[0]] + a.children[1..];
    a.(properties := a.properties["href" := Str(RefHref(k))]["id" := Str(RefId(k))],
       children := [first] + a.children[1..])
  }

  /** The visitor on a `sup`: a first child that is a footnote reference is
      recorded and renumbered. A `sup` without children, a link without an
      href, a reference without an id and a reference link without children
      are the `TypeError`s of reading what is not there. */
  function VisitSup(sup: Node, refs: Refs): (r: Result<(Node, Refs), string>)
    requires sup.Element?
    ensures sup.children == [] ==> r.Err?
    ensures r.Ok? ==> SameShell(sup, r.value.0) && Size(r.value.0) <= Size(sup)
  {
    if sup.children == [] then Err("TypeError: no first child of sup")
    else
      var a := sup.children[0];
      if TagOf(a) != Some("a") then Ok((sup, refs))
      else if StrProp(a, "href").None? then Err("TypeError: no href")
      else
        var href := StrProp(a, "href").value;
        if !Includes(href, "fn") then Ok((sup, refs))
        else if StrProp(a, "id").None? then Err("TypeError: no id")
        else if !Includes(StrProp(a, "id").value, "fnref") then Ok((sup, refs))
        else if a.children == [] then Err("TypeError: no first child of the reference")
        else
          var a' := Renumbered(a, refs.index);
          SizeListCons(a', sup.children[1..]);
          SizeListCons(a, sup.children[1..]);
          assert sup.children == [a] + sup.children[1..];
          Ok((sup.(children := [a'] + sup.children[1..]), Refs(refs.fnArray + [ItemOf(href)], refs.index + 1)))
  }

  // ---------------------------------------------------------------------
  // The walk: every element in document order, the visitor first

  function RenumberList(cs: seq<Node>, refs: Refs): (r: Result<(seq<Node>, Refs), string>)
    ensures r.Ok? ==> |r.value.0| == |cs| && forall i :: 0 <= i < |cs| ==> SameShell(cs[i], r.value.0[i])
    decreases SizeList(cs), 2
  {
    if cs == [] then Ok(([], refs))
    else match RenumberChild(cs[0], refs)
      case Err(e) => Err(e)
      case Ok((n, refs')) =>
        match RenumberList(cs[1..], refs')
        case Err(e) => Err(e)
        case Ok((rest, refs'')) =>
          assert forall i :: 1 <= i < |cs| ==> ([n] + rest)[i] == rest[i - 1];
          Ok(([n] + rest, refs''))
  }

  /** One node: an element is visited, and then its children as the visitor
      left them are walked. */
  function RenumberChild(c: Node, refs: Refs): (r: Result<(Node, Refs), string>)
    ensures r.Ok? ==> SameShell(c, r.value.0)
    decreases Size(c), 1
  {
    if !c.Element? then Ok((c, refs))
    else
      var v := if c.tagName == "sup" then VisitSup(c, refs) else Ok((c, refs));
      match v
      case Err(e) => Err(e)
      case Ok((n, refs')) => RenumberInto(n, refs')
  }

  function RenumberInto(n: Node, refs: Refs): (r: Result<(Node, Refs), string>)
    requires n.Element?
    ensures r.Ok? ==> SameShell(n, r.value.0)
    decreases Size(n), 0
  {
    match RenumberList(n.children, refs)
    case Err(e) => Err(e)
    case Ok((cs, refs')) => Ok((n.(children := cs), refs'))
  }

  /** The renumbering of the whole tree, from number 1. */
  function Renumbering(tree: seq<Node>): Result<(seq<Node>, Refs), string> {
    RenumberList(tree, Refs([], 1))
  }

  // ---------------------------------------------------------------------
  // Placing the section

  /** `node.properties.dataFootnotes` read as a condition. */
  predicate Truthy(p: Prop) {
    match p
    case Str(s) => s != ""
    case Flag(b) => b
    case Names(_) => true
  }

  predicate IsFootnotes(n: Node) {
    n.Element? && n.tagName == "section" && "dataFootnotes" in n.properties && Truthy(n.properties["dataFootnotes"])
  }

  /** The footnote sections in document order. */
  function SectionsList(cs: seq<Node>): seq<Node>
    decreases SizeList(cs), 1
  {
    if cs == [] then [] else SectionsNode(cs[0]) + SectionsList(cs[1..])
  }

  function SectionsNode(c: Node): seq<Node>
    decreases Size(c), 0
  {
    if !c.Element? then [] else (if IsFootnotes(c) then [c] else []) + SectionsList(c.children)
  }

  /** The section the first walk ends on: the last one. */
  function FootnoteSection(tree: seq<Node>): (r: Option<Node>)
    ensures r.Some? <==> SectionsList(tree) != []
  {
    var all := SectionsList(tree);
    if all == [] then None else Some(all[|all| - 1])
  }

  /** Every footnote section given the new section's children. */
  function ReplaceSections(cs: seq<Node>, newChildren: seq<Node>): (r: seq<Node>)
    ensures |r| == |cs|
    decreases SizeList(cs), 1
  {
    if cs == [] then [] else [ReplaceIn(cs[0], newChildren)] + ReplaceSections(cs[1..], newChildren)
  }

  function ReplaceIn(c: Node, newChildren: seq<Node>): Node
    decreases Size(c), 0
  {
    if !c.Element? then c
    else if IsFootnotes(c) then c.(children := newChildren)
    else c.(children := ReplaceSections(c.children, newChildren))
  }

  /** The note-mode step: renumber, build the merged section from the old
      one, and put it in place. */
  function NotesPhase(tree: seq<Node>, dict: map<string, string>): Result<seq<Node>, string> {
    match Renumbering(tree)
    case Err(e) => Err(e)
    case Ok((t, refs)) =>
      var section := FootnoteSection(t);
      match SectionOf(PlainText, dict, refs.fnArray, section)
      case Err(e) => Err(e)
      case Ok(ns) => if section.Some? then Ok(ReplaceSections(t, ns.children)) else Ok(t + [ns])
  }

  // ---------------------------------------------------------------------
  // The renumbering as an object with the walk's state

  class Renumberer {
    var fnArray: seq<FnItem>
    var index: nat

    function State(): Refs
      reads this
    {
      Refs(fnArray, index)
    }

    constructor ()
      ensures State() == Refs([], 1)
    {
      fnArray := [];
      index := 1;
    }

    /** The visitor's work on a `sup`. */
    method OnSup(sup: Node) returns (r: Result<Node, string>)
      requires sup.Element?
      modifies this
      ensures (if r.Ok? then Ok((r.value, State())) else Err(r.error)) == VisitSup(sup, old(State()))
    {
      if sup.children == [] {
        return Err("TypeError: no first child of sup");
      }
      var a := sup.children[0];
      if TagOf(a) != Some("a") {
        return Ok(sup);
      }
      var href := StrProp(a, "href");
      if href.None? {
        return Err("TypeError: no href");
      }
      if !Includes(href.value, "fn") {
        return Ok(sup);
      }
      var id := StrProp(a, "id");
      if id.None? {
        return Err("TypeError: no id");
      }
      if !Includes(id.value, "fnref") {
        return Ok(sup);
      }
      if a.children == [] {
        return Err("TypeError: no first child of the reference");
      }
      fnArray := fnArray + [ItemOf(href.value)];
      var a' := Renumbered(a, index);
      index := index + 1;
      r := Ok(sup.(children := [a'] + sup.children[1..]));
    }

    method WalkChildren(cs: seq<Node>) returns (r: Result<seq<Node>, string>)
      modifies this
      ensures (if r.Ok? then Ok((r.value, State())) else Err(r.error)) == RenumberList(cs, old(State()))
      decreases SizeList(cs), 2
    {
      if cs == [] {
        return Ok([]);
      }
      var n := Visit(cs[0]);
      if n.Err? {
        return Err(n.error);
      }
      var rest := WalkChildren(cs[1..]);
      r := if rest.Ok? then Ok([n.value] + rest.value) else Err(rest.error);
    }

    method Visit(c: Node) returns (r: Result<Node, string>)
      modifies this
      ensures (if r.Ok? then Ok((r.value, State())) else Err(r.error)) == RenumberChild(c, old(State()))
      decreases Size(c), 1
    {
      if !c.Element? {
        return Ok(c);
      }
      var n := c;
      if c.tagName == "sup" {
        var v := OnSup(c);
        if v.Err? {
          return Err(v.error);
        }
        n := v.value;
      }
      r := Into(n);
    }

    method Into(n: Node) returns (r: Result<Node, string>)
      requires n.Element?
      modifies this
      ensures (if r.Ok? then Ok((r.value, State())) else Err(r.error)) == RenumberInto(n, old(State()))
      decreases Size(n), 0
    {
      var cs := WalkChildren(n.children);
      r := if cs.Ok? then Ok(n.(children := cs.value)) else Err(cs.error);
    }
  }

  /** The note-mode step as the plugin runs it. */
  method RunNotesPhase(tree: seq<Node>, dict: map<string, string>) returns (r: Result<seq<Node>, string>)
    ensures r == NotesPhase(tree, dict)
  {
    var walker := new Renumberer();
    var t := walker.WalkChildren(tree);
    if t.Err? {
      return Err(t.error);
    }
    var section := FootnoteSection(t.value);
    var ns := GenFootnoteSection(PlainText, dict, walker.fnArray, section);
    if ns.Err? {
      return Err(ns.error);
    }
    if section.Some? {
      r := Ok(ReplaceSections(t.value, ns.value.children));
    } else {
      r := Ok(t.value + [ns.value]);
    }
  }
}
