// The merged footnote section: one list item per footnote reference of the
// document, in order, numbered 1, 2, ... Citation footnotes are built from the
// engine's text; footnotes the document already had are taken from the old
// section and relabelled.

module GenFootnote {
  import opened Base
  import opened Hast

  /** Where a footnote reference came from: a citation (`#cite-fn-n`) or a
      footnote the document already had. */
  datatype FnKind = CitationRef | ExistingRef

  /** One entry of the footnote array: its kind and its old number or label. */
  datatype FnItem = FnItem(kind: FnKind, oldId: string)

  /** How a citation's text becomes the first child of its paragraph: as a
      text node (the generator's own copy) or as the node that
      `<span>{text}</span>` converts to (gen-footnote.js). */
  datatype Cell = PlainText | SpanHtml

  /** An entry of the new list: a node built here, or the item at a position
      of the old list. A reused item is the same object as the one still in
      the old list, so relabelling that object later changes this entry too. */
  datatype Entry = Fresh(node: Node) | Reused(pos: nat)

  function ItemId(fnLabel: string): string { "user-content-fn-" + fnLabel }
  function FnId(k: nat): string { ItemId(NatToString(k)) }
  function FnRefHref(k: nat): string { "#user-content-fnref-" + NatToString(k) }

  /** `citationDict[oldId]`, which a template string shows as `undefined` when
      the key is missing. */
  function DictText(dict: map<string, string>, oldId: string): string {
    if oldId in dict then dict[oldId] else "undefined"
  }

  function CellNode(cell: Cell, dict: map<string, string>, oldId: string): Node {
    match cell
    case PlainText => Text(DictText(dict, oldId))
    case SpanHtml => Markup("<span>" + DictText(dict, oldId) + "</span>")
  }

  /** The back link `↩` of item k. */
  function BackLink(k: nat): Node {
    Element("a", map["href" := Str(FnRefHref(k)), "dataFootnoteBackref" := Flag(true),
                     "className" := Names(["data-footnote-backref"]), "ariaLabel" := Str("Back to content")],
            [Text("↩")])
  }

  /** The list item of a citation footnote at number k. */
  function CitationItem(cell: Cell, dict: map<string, string>, oldId: string, k: nat): Node {
    Element("li", map["id" := Str(FnId(k))],
            [Element("p", map[], [CellNode(cell, dict, oldId), BackLink(k)]), Text("\n")])
  }

  /** `children.find(n => n.tagName === tag)`, as a position. */
  function FirstTagged(children: seq<Node>, tag: string): (r: Option<nat>)
    ensures r.Some? ==> r.value < |children| && TagOf(children[r.value]) == Some(tag) &&
                        forall i :: 0 <= i < r.value ==> TagOf(children[i]) != Some(tag)
    ensures r.None? ==> forall i :: 0 <= i < |children| ==> TagOf(children[i]) != Some(tag)
  {
    if children == [] then None
    else if TagOf(children[0]) == Some(tag) then Some(0)
    else match FirstTagged(children[1..], tag)
      case None => None
      case Some(p) => Some(p + 1)
  }

  /** A position holding the tag after positions that do not is the first. */
  lemma FirstTaggedAt(children: seq<Node>, tag: string, q: nat)
    requires q < |children| && TagOf(children[q]) == Some(tag)
    requires forall i :: 0 <= i < q ==> TagOf(children[..q][i]) != Some(tag)
    ensures FirstTagged(children, tag) == Some(q)
  {
    forall i | 0 <= i < q
      ensures TagOf(children[i]) != Some(tag)
    {
      assert children[..q][i] == children[i];
    }
  }

  /** An `li` element with the id of a footnote label. */
  predicate IsItemFor(n: Node, fnLabel: string) {
    TagOf(n) == Some("li") && StrProp(n, "id") == Some(ItemId(fnLabel))
  }

  /** The first item of the old list with the id of a label, as a position. */
  function FindItem(olds: seq<Node>, fnLabel: string): (r: Option<nat>)
    ensures r.Some? ==> r.value < |olds| && IsItemFor(olds[r.value], fnLabel) &&
                        forall i :: 0 <= i < r.value ==> !IsItemFor(olds[i], fnLabel)
    ensures r.None? ==> forall i :: 0 <= i < |olds| ==> !IsItemFor(olds[i], fnLabel)
  {
    if olds == [] then None
    else if IsItemFor(olds[0], fnLabel) then Some(0)
    else match FindItem(olds[1..], fnLabel)
      case None => None
      case Some(p) => Some(p + 1)
  }

  /** The href of the first link in the second child of an item, the place
      where a footnote item keeps its back link. */
  function BackHref(li: Node): Option<string> {
    if li.Element? && |li.children| >= 2 && li.children[1].Element? then
      match FirstTagged(li.children[1].children, "a")
      case None => None
      case Some(q) => StrProp(li.children[1].children[q], "href")
    else None
  }

  /** An existing item relabelled to number k: its id, and the href of the
      first link of its second child. The code reads that child without
      checking it, so a missing child or link is a `TypeError`. */
  function Relabel(li: Node, k: nat): (r: Result<Node, string>)
    ensures r.Ok? <==> li.Element? && |li.children| >= 2 && li.children[1].Element? &&
                       FirstTagged(li.children[1].children, "a").Some?
    ensures r.Ok? ==> TagOf(r.value) == TagOf(li) && StrProp(r.value, "id") == Some(FnId(k)) &&
                      BackHref(r.value) == Some(FnRefHref(k))
  {
    if !li.Element? || |li.children| < 2 || !li.children[1].Element? then
      Err("TypeError: footnote item without a paragraph")
    else
      var p := li.children[1];
      match FirstTagged(p.children, "a")
      case None => Err("TypeError: footnote item without a back link")
      case Some(q) =>
        var a := WithProp(p.children[q], "href", Str(FnRefHref(k)));
        var p' := p.(children := p.children[q := a]);
        assert p'.children[..q] == p.children[..q];
        FirstTaggedAt(p'.children, "a", q);
        Ok(li.(properties := li.properties["id" := Str(FnId(k))], children := li.children[1 := p']))
  }

  /** The entries built so far and the old list as relabelling has left it. */
  datatype Acc = Acc(entries: seq<Entry>, olds: seq<Node>)

  /** The footnote array item at position idx, numbered idx + 1. */
  function Step(cell: Cell, dict: map<string, string>, acc: Acc, idx: nat, item: FnItem): Result<Acc, string> {
    match item.kind
    case CitationRef => Ok(acc.(entries := acc.entries + [Fresh(CitationItem(cell, dict, item.oldId, idx + 1))]))
    case ExistingRef =>
      match FindItem(acc.olds, item.oldId)
      case None => Err("TypeError: no footnote item " + item.oldId)
      case Some(p) =>
        var li := Relabel(acc.olds[p], idx + 1);
        if li.Err? then Err(li.error)
        else Ok(Acc(acc.entries + [Reused(p)], acc.olds[p := li.value]))
  }

  /** The first n items of the footnote array, in order, over the old list. */
  function Steps(cell: Cell, dict: map<string, string>, olds: seq<Node>, items: seq<FnItem>, n: nat): Result<Acc, string>
    requires n <= |items|
  {
    if n == 0 then Ok(Acc([], olds))
    else
      var prev := Steps(cell, dict, olds, items, n - 1);
      if prev.Err? then prev else Step(cell, dict, prev.value, n - 1, items[n - 1])
  }

  /** The node an entry stands for once every relabelling is done. */
  function Resolve(olds: seq<Node>, e: Entry): Node {
    match e
    case Fresh(n) => n
    case Reused(p) => if p < |olds| then olds[p] else Text("")
  }

  function ResolveAll(olds: seq<Node>, entries: seq<Entry>): (r: seq<Node>)
    ensures |r| == |entries| && forall i :: 0 <= i < |r| ==> r[i] == Resolve(olds, entries[i])
  {
    seq(|entries|, i requires 0 <= i < |entries| => Resolve(olds, entries[i]))
  }

  /** The children of the first `ol` of the old section, if there is one. */
  function OldList(section: Option<Node>): seq<Node> {
    if section.None? || !section.value.Element? then []
    else match FirstTagged(section.value.children, "ol")
      case None => []
      case Some(p) => section.value.children[p].children
  }

  /** The section around a list. */
  function SectionNode(listChildren: seq<Node>): Node {
    Element("section", map["dataFootnotes" := Flag(true), "className" := Names(["footnotes"])],
            [Element("h2", map["className" := Names(["sr-only"]), "id" := Str("footnote-label")], [Text("Footnotes")]),
             Text("\n"),
             Element("ol", map[], listChildren)])
  }

  /** `genFootnoteSection`: the new section, or the error the first failing
      lookup of an existing item throws. */
  function SectionOf(cell: Cell, dict: map<string, string>, items: seq<FnItem>, section: Option<Node>): (r: Result<Node, string>)
    ensures r.Ok? ==> r.value.Element? && r.value.tagName == "section" && |r.value.children| == 3 &&
                      r.value.children[2].Element? && r.value.children[2].tagName == "ol" &&
                      |r.value.children[2].children| == 1 + |items| && r.value.children[2].children[0] == Text("\n")
  {
    var acc := Steps(cell, dict, OldList(section), items, |items|);
    if acc.Err? then Err(acc.error)
    else
      StepsShape(cell, dict, OldList(section), items, |items|);
      Ok(SectionNode([Text("\n")] + ResolveAll(acc.value.olds, acc.value.entries)))
  }

  /** The footnote section as the loop over the footnote array. */
  method GenFootnoteSection(cell: Cell, dict: map<string, string>, items: seq<FnItem>, section: Option<Node>)
    returns (r: Result<Node, string>)
    ensures r == SectionOf(cell, dict, items, section)
  {
    var acc := Acc([], OldList(section));
    for idx := 0 to |items|
      invariant Steps(cell, dict, OldList(section), items, idx) == Ok(acc)
    {
      var next := AddItem(cell, dict, acc, idx, items[idx]);
      if next.Err? {
        SectionErr(cell, dict, items, section, idx + 1);
        return Err(next.error);
      }
      acc := next.value;
    }
    r := Ok(SectionNode([Text("\n")] + ResolveAll(acc.olds, acc.entries)));
  }

  /** A step that throws makes the whole section throw the same error. */
  lemma SectionErr(cell: Cell, dict: map<string, string>, items: seq<FnItem>, section: Option<Node>, n: nat)
    requires n <= |items| && Steps(cell, dict, OldList(section), items, n).Err?
    ensures SectionOf(cell, dict, items, section) == Err(Steps(cell, dict, OldList(section), items, n).error)
  {
    StepsErrSticks(cell, dict, OldList(section), items, n, |items|);
  }

  /** One pass of the loop: a new item for a citation, or the old item found
      by its id and relabelled in place. */
  method AddItem(cell: Cell, dict: map<string, string>, acc: Acc, idx: nat, item: FnItem)
    returns (r: Result<Acc, string>)
    ensures r == Step(cell, dict, acc, idx, item)
  {
    if item.kind == CitationRef {
      return Ok(acc.(entries := acc.entries + [Fresh(CitationItem(cell, dict, item.oldId, idx + 1))]));
    }
    var p := FindItem(acc.olds, item.oldId);
    if p.None? {
      return Err("TypeError: no footnote item " + item.oldId);
    }
    var li := Relabel(acc.olds[p.value], idx + 1);
    if li.Err? {
      return Err(li.error);
    }
    r := Ok(Acc(acc.entries + [Reused(p.value)], acc.olds[p.value := li.value]));
  }

  // ---------------------------------------------------------------------
  // Properties

  /** What one entry looks like: a fresh citation item numbered by its
      position, or a position of the old list. */
  predicate EntryFits(cell: Cell, dict: map<string, string>, size: nat, item: FnItem, i: nat, e: Entry) {
    (e.Fresh? <==> item.kind == CitationRef) &&
    (e.Fresh? ==> e.node == CitationItem(cell, dict, item.oldId, i + 1)) &&
    (e.Reused? ==> e.pos < size)
  }

  /** A step adds one fitting entry and keeps the length of the old list. */
  lemma StepShape(cell: Cell, dict: map<string, string>, acc: Acc, idx: nat, item: FnItem)
    requires Step(cell, dict, acc, idx, item).Ok?
    ensures var a := Step(cell, dict, acc, idx, item).value;
      |a.olds| == |acc.olds| && a.entries[..|acc.entries|] == acc.entries &&
      |a.entries| == |acc.entries| + 1 && EntryFits(cell, dict, |acc.olds|, item, idx, a.entries[|acc.entries|])
  {
  }

  /** One entry per item, in order: a citation item is a fresh list item
      numbered by its position, an existing one a position of the old list,
      which keeps its length. */
  lemma {:induction false} StepsShape(cell: Cell, dict: map<string, string>, olds: seq<Node>, items: seq<FnItem>, n: nat)
    requires n <= |items|
    ensures var r := Steps(cell, dict, olds, items, n);
      r.Ok? ==> (|r.value.entries| == n && |r.value.olds| == |olds| &&
        forall i :: 0 <= i < n ==> EntryFits(cell, dict, |olds|, items[i], i, r.value.entries[i]))
  {
    if n > 0 {
      var prev := Steps(cell, dict, olds, items, n - 1);
      if prev.Ok? {
        StepsShape(cell, dict, olds, items, n - 1);
        var r := Step(cell, dict, prev.value, n - 1, items[n - 1]);
        assert Steps(cell, dict, olds, items, n) == r;
        if r.Ok? {
          StepShape(cell, dict, prev.value, n - 1, items[n - 1]);
          forall i | 0 <= i < n - 1 ensures r.value.entries[i] == prev.value.entries[i] {
            assert r.value.entries[..n - 1][i] == r.value.entries[i];
          }
        }
      }
    }
  }

  /** A citation's item carries its number in its id and in its back link,
      and shows the citation's text before the back link. */
  lemma CitationItemShape(cell: Cell, dict: map<string, string>, oldId: string, k: nat)
    ensures var li := CitationItem(cell, dict, oldId, k);
      TagOf(li) == Some("li") && StrProp(li, "id") == Some(FnId(k)) &&
      li.children[0].children == [CellNode(cell, dict, oldId), BackLink(k)] &&
      StrProp(BackLink(k), "href") == Some(FnRefHref(k))
  {
  }

  /** With only citation footnotes the section is always built. */
  lemma {:induction false} CitationsOnlySucceed(cell: Cell, dict: map<string, string>, olds: seq<Node>, items: seq<FnItem>, n: nat)
    requires n <= |items|
    requires forall i :: 0 <= i < |items| ==> items[i].kind == CitationRef
    ensures Steps(cell, dict, olds, items, n).Ok?
  {
    if n > 0 {
      CitationsOnlySucceed(cell, dict, olds, items, n - 1);
    }
  }

  /** After the first error the remaining items do not matter. */
  lemma {:induction false} StepsErrSticks(cell: Cell, dict: map<string, string>, olds: seq<Node>, items: seq<FnItem>, n: nat, m: nat)
    requires n <= m <= |items| && Steps(cell, dict, olds, items, n).Err?
    ensures Steps(cell, dict, olds, items, m) == Steps(cell, dict, olds, items, n)
    decreases m
  {
    if n < m {
      StepsErrSticks(cell, dict, olds, items, n, m - 1);
    }
  }

  /** Without an old list, an existing footnote cannot be found: the call
      throws. */
  lemma ExistingWithoutListFails(cell: Cell, dict: map<string, string>, items: seq<FnItem>, j: nat)
    requires j < |items| && items[j].kind == ExistingRef
    ensures Steps(cell, dict, [], items, |items|).Err?
  {
    var prev := Steps(cell, dict, [], items, j);
    if prev.Ok? {
      StepsShape(cell, dict, [], items, j);
      assert FindItem(prev.value.olds, items[j].oldId).None?;
    }
    StepsErrSticks(cell, dict, [], items, j + 1, |items|);
  }

  /** The reused positions are pairwise distinct: no two items took the same
      old list item. */
  predicate DistinctReuse(entries: seq<Entry>) {
    forall i, j :: 0 <= i < j < |entries| && entries[i].Reused? && entries[j].Reused? ==> entries[i].pos != entries[j].pos
  }

  /** An item labelled with number k: its id and its back link. */
  predicate Labelled(li: Node, k: nat) {
    StrProp(li, "id") == Some(FnId(k)) && BackHref(li) == Some(FnRefHref(k))
  }

  /** Every reused entry points into the old list, at an item labelled with
      the number of the entry's position. */
  predicate Numbered(a: Acc) {
    forall i :: 0 <= i < |a.entries| && a.entries[i].Reused? ==>
      a.entries[i].pos < |a.olds| && Labelled(a.olds[a.entries[i].pos], i + 1)
  }

  /** A step keeps the entries numbered when it does not take an old item
      a second time. */
  lemma StepNumbered(cell: Cell, dict: map<string, string>, acc: Acc, idx: nat, item: FnItem)
    requires idx == |acc.entries| && Numbered(acc)
    requires Step(cell, dict, acc, idx, item).Ok?
    requires DistinctReuse(Step(cell, dict, acc, idx, item).value.entries)
    ensures Numbered(Step(cell, dict, acc, idx, item).value)
  {
    var a := Step(cell, dict, acc, idx, item).value;
    if item.kind == ExistingRef {
      var p := FindItem(acc.olds, item.oldId).value;
      assert a.entries == acc.entries + [Reused(p)];
      forall i | 0 <= i < |a.entries| && a.entries[i].Reused?
        ensures a.entries[i].pos < |a.olds| && Labelled(a.olds[a.entries[i].pos], i + 1)
      {
        if i < idx {
          assert a.entries[i] == acc.entries[i];
          assert a.entries[i].pos != a.entries[idx].pos;
        }
      }
    } else {
      assert a.entries == acc.entries + [a.entries[idx]];
      forall i | 0 <= i < |a.entries| && a.entries[i].Reused?
        ensures a.entries[i].pos < |a.olds| && Labelled(a.olds[a.entries[i].pos], i + 1)
      {
        assert a.entries[i] == acc.entries[i];
      }
    }
  }

  /** When no old item is taken twice, every entry carries the number of its
      position, in its id and in its back link. */
  lemma {:induction false} StepsNumbering(cell: Cell, dict: map<string, string>, olds: seq<Node>, items: seq<FnItem>, n: nat)
    requires n <= |items|
    requires Steps(cell, dict, olds, items, n).Ok?
    ensures var a := Steps(cell, dict, olds, items, n).value;
      DistinctReuse(a.entries) ==> Numbered(a)
  {
    if n > 0 {
      var prev := Steps(cell, dict, olds, items, n - 1).value;
      var a := Steps(cell, dict, olds, items, n).value;
      StepsShape(cell, dict, olds, items, n - 1);
      StepsNumbering(cell, dict, olds, items, n - 1);
      if DistinctReuse(a.entries) {
        StepShape(cell, dict, prev, n - 1, items[n - 1]);
        assert DistinctReuse(prev.entries) by {
          forall i, j | 0 <= i < j < |prev.entries| && prev.entries[i].Reused? && prev.entries[j].Reused?
            ensures prev.entries[i].pos != prev.entries[j].pos
          {
            assert a.entries[i] == prev.entries[i] && a.entries[j] == prev.entries[j];
          }
        }
        StepNumbered(cell, dict, prev, n - 1, items[n - 1]);
      }
    }
  }

  /** Every item of the new list, after the leading line break, carries the
      number of its position, when no old item is taken twice. */
  lemma SectionNumbering(cell: Cell, dict: map<string, string>, items: seq<FnItem>, section: Option<Node>)
    requires SectionOf(cell, dict, items, section).Ok?
    requires DistinctReuse(Steps(cell, dict, OldList(section), items, |items|).value.entries)
    ensures forall k :: 1 <= k <= |items| ==>
      StrProp(SectionOf(cell, dict, items, section).value.children[2].children[k], "id") == Some(FnId(k))
  {
    var a := Steps(cell, dict, OldList(section), items, |items|).value;
    StepsShape(cell, dict, OldList(section), items, |items|);
    StepsNumbering(cell, dict, OldList(section), items, |items|);
    ResolvedNumbered(cell, dict, items, a);
    var list := SectionOf(cell, dict, items, section).value.children[2].children;
    assert list == [Text("\n")] + ResolveAll(a.olds, a.entries);
    forall k | 1 <= k <= |items|
      ensures StrProp(list[k], "id") == Some(FnId(k))
    {
      assert list[k] == ResolveAll(a.olds, a.entries)[k - 1];
    }
  }

  /** Resolved, a numbered list of fitting entries has item i numbered i + 1. */
  lemma ResolvedNumbered(cell: Cell, dict: map<string, string>, items: seq<FnItem>, a: Acc)
    requires |a.entries| == |items| && Numbered(a)
    requires forall i :: 0 <= i < |items| ==> EntryFits(cell, dict, |a.olds|, items[i], i, a.entries[i])
    ensures forall i :: 0 <= i < |items| ==> StrProp(ResolveAll(a.olds, a.entries)[i], "id") == Some(FnId(i + 1))
  {
    forall i | 0 <= i < |items|
      ensures StrProp(ResolveAll(a.olds, a.entries)[i], "id") == Some(FnId(i + 1))
    {
      if a.entries[i].Fresh? {
        CitationItemShape(cell, dict, items[i].oldId, i + 1);
      }
    }
  }
}
