// What the renumbering promises: the k-th footnote reference of the
// document, in document order, is recorded k-th and points at item k of the
// merged list, which points back at it.

module GeneratorNotesProps {
  import opened Base
  import opened Hast
  import opened GenFootnote
  import opened Generator
  import opened GeneratorNotes

  /** The href of the footnote reference a `sup` starts with, if it does. */
  function SupHref(n: Node): seq<string> {
    if n.Element? && n.tagName == "sup" && |n.children| >= 1 && TagOf(n.children[0]) == Some("a") &&
       StrProp(n.children[0], "href").Some? && StrProp(n.children[0], "id").Some? &&
       IsFootnoteRef(StrProp(n.children[0], "href").value, StrProp(n.children[0], "id").value)
    then [StrProp(n.children[0], "href").value]
    else []
  }

  /** The hrefs of the footnote references of the children, in document
      order. */
  function HrefsList(cs: seq<Node>): seq<string>
    decreases SizeList(cs), 1
  {
    if cs == [] then [] else HrefsNode(cs[0]) + HrefsList(cs[1..])
  }

  function HrefsNode(c: Node): seq<string>
    decreases Size(c), 0
  {
    if !c.Element? then [] else SupHref(c) + HrefsList(c.children)
  }

  /** The hrefs of references k .. k + n - 1. */
  function Numbers(k: nat, n: nat): (r: seq<string>)
    ensures |r| == n
    decreases n
  {
    if n == 0 then [] else [RefHref(k)] + Numbers(k + 1, n - 1)
  }

  /** The records of references with these hrefs. */
  function Items(hrefs: seq<string>): (r: seq<FnItem>)
    ensures |r| == |hrefs|
  {
    if hrefs == [] then [] else [ItemOf(hrefs[0])] + Items(hrefs[1..])
  }

  /** Reference k + i is the i-th of those numbered from k. */
  lemma {:induction false} NumbersAt(k: nat, n: nat, i: nat)
    requires i < n
    ensures Numbers(k, n)[i] == RefHref(k + i)
    decreases n
  {
    if i > 0 { NumbersAt(k + 1, n - 1, i - 1); }
  }

  lemma {:induction false} ItemsAt(hrefs: seq<string>, i: nat)
    requires i < |hrefs|
    ensures Items(hrefs)[i] == ItemOf(hrefs[i])
  {
    if i > 0 { ItemsAt(hrefs[1..], i - 1); }
  }

  lemma {:induction false} NumbersAppend(k: nat, a: nat, b: nat)
    ensures Numbers(k, a) + Numbers(k + a, b) == Numbers(k, a + b)
    decreases a
  {
    if a > 0 {
      NumbersAppend(k + 1, a - 1, b);
      assert [RefHref(k)] + Numbers(k + 1, a - 1) + Numbers(k + a, b) == [RefHref(k)] + (Numbers(k + 1, a - 1) + Numbers(k + 1 + (a - 1), b));
    } else {
      assert Numbers(k, 0) == [];
    }
  }

  lemma {:induction false} ItemsAppend(a: seq<string>, b: seq<string>)
    ensures Items(a) + Items(b) == Items(a + b)
  {
    if a != [] {
      ItemsAppend(a[1..], b);
      assert (a + b)[1..] == a[1..] + b;
      assert [ItemOf(a[0])] + Items(a[1..]) + Items(b) == [ItemOf(a[0])] + (Items(a[1..]) + Items(b));
    } else {
      assert a + b == b;
    }
  }

  lemma HrefsListCons(x: Node, xs: seq<Node>)
    ensures HrefsList([x] + xs) == HrefsNode(x) + HrefsList(xs)
  {
    assert ([x] + xs)[1..] == xs;
  }

  /** A renumbered link is a footnote reference with the new href. */
  lemma RenumberedIsRef(k: nat)
    ensures IsFootnoteRef(RefHref(k), RefId(k))
  {
    var h := RefHref(k);
    var d := RefId(k);
    assert h[14..16] == "fn";
    IncludesAt(h, "fn", 14);
    assert d[13..18] == "fnref";
    IncludesAt(d, "fnref", 13);
  }

  /** What the references of a node depend on: the shell of the node and of
      its first child. */
  lemma SupHrefShell(n: Node, n': Node)
    requires SameShell(n, n') && n.Element?
    requires |n.children| == |n'.children| && (|n.children| >= 1 ==> SameShell(n.children[0], n'.children[0]))
    ensures SupHref(n') == SupHref(n)
  {
    if |n.children| >= 1 && n.children[0].Element? {
      assert StrProp(n'.children[0], "href") == StrProp(n.children[0], "href");
      assert StrProp(n'.children[0], "id") == StrProp(n.children[0], "id");
    }
  }

  /** The relation between a walk's references before and after: the records
      are added in order, the number moves past them, and the references come
      out numbered from where the walk started. */
  predicate Counted(before: seq<string>, refs: Refs, after: seq<string>, refs': Refs) {
    refs'.fnArray == refs.fnArray + Items(before) && refs'.index == refs.index + |before| &&
    after == Numbers(refs.index, |before|)
  }

  lemma CountedChain(a: seq<string>, b: seq<string>, r0: Refs, a': seq<string>, r1: Refs, b': seq<string>, r2: Refs)
    requires Counted(a, r0, a', r1) && Counted(b, r1, b', r2)
    ensures Counted(a + b, r0, a' + b', r2)
  {
    ItemsAppend(a, b);
    NumbersAppend(r0.index, |a|, |b|);
    assert r2.fnArray == r0.fnArray + Items(a) + Items(b);
    assert r0.fnArray + Items(a) + Items(b) == r0.fnArray + (Items(a) + Items(b));
  }

  /** The visitor on a `sup` records and renumbers exactly its reference and
      leaves the references below its first child as they were. */
  lemma VisitSupCounted(sup: Node, refs: Refs)
    requires sup.Element? && sup.tagName == "sup" && VisitSup(sup, refs).Ok?
    ensures var (n, refs') := VisitSup(sup, refs).value;
      Counted(SupHref(sup), refs, SupHref(n), refs') && HrefsList(n.children) == HrefsList(sup.children) &&
      n.Element?
  {
    var (n, refs') := VisitSup(sup, refs).value;
    if SupHref(sup) != [] {
      var a := sup.children[0];
      var a' := Renumbered(a, refs.index);
      RenumberedIsRef(refs.index);
      assert n.children == [a'] + sup.children[1..];
      assert StrProp(a', "href") == Some(RefHref(refs.index));
      assert StrProp(a', "id") == Some(RefId(refs.index));
      assert SupHref(n) == [RefHref(refs.index)];
      HrefsListCons(a', sup.children[1..]);
      HrefsListCons(a, sup.children[1..]);
      assert sup.children == [a] + sup.children[1..];
      HrefsListCons(a'.children[0], a'.children[1..]);
      HrefsListCons(a.children[0], a.children[1..]);
      assert a.children == [a.children[0]] + a.children[1..];
      assert a'.children == [a'.children[0]] + a'.children[1..];
      assert HrefsNode(a'.children[0]) == HrefsNode(a.children[0]);
      assert HrefsNode(a') == HrefsNode(a);
    } else {
      assert n == sup;
    }
  }

  /** The renumbering walk counts the references of the children in
      document order. */
  lemma {:induction false} RenumberListCounted(cs: seq<Node>, refs: Refs)
    requires RenumberList(cs, refs).Ok?
    ensures var (cs', refs') := RenumberList(cs, refs).value; Counted(HrefsList(cs), refs, HrefsList(cs'), refs')
    decreases SizeList(cs), 2
  {
    if cs != [] {
      var (n, r1) := RenumberChild(cs[0], refs).value;
      RenumberChildCounted(cs[0], refs);
      RenumberListCounted(cs[1..], r1);
      var (rest, r2) := RenumberList(cs[1..], r1).value;
      HrefsListCons(n, rest);
      CountedChain(HrefsNode(cs[0]), HrefsList(cs[1..]), refs, HrefsNode(n), r1, HrefsList(rest), r2);
    }
  }

  lemma {:induction false} RenumberChildCounted(c: Node, refs: Refs)
    requires RenumberChild(c, refs).Ok?
    ensures var (n, refs') := RenumberChild(c, refs).value; Counted(HrefsNode(c), refs, HrefsNode(n), refs')
    decreases Size(c), 1
  {
    if c.Element? {
      if c.tagName == "sup" {
        var (n, r1) := VisitSup(c, refs).value;
        VisitSupCounted(c, refs);
        RenumberIntoCounted(n, r1);
        var (n', r2) := RenumberInto(n, r1).value;
        SupHrefShell(n, n');
        CountedChain(SupHref(c), HrefsList(c.children), refs, SupHref(n'), r1, HrefsList(n'.children), r2);
      } else {
        RenumberIntoCounted(c, refs);
        var (n', r2) := RenumberInto(c, refs).value;
        assert SupHref(c) == [] && SupHref(n') == [];
        assert HrefsNode(c) == HrefsList(c.children);
        assert HrefsNode(n') == HrefsList(n'.children);
      }
    } else {
      assert Numbers(refs.index, 0) == [];
      assert refs.fnArray + [] == refs.fnArray;
    }
  }

  /** Walking into an element counts the references of its children. */
  lemma {:induction false} RenumberIntoCounted(n: Node, refs: Refs)
    requires n.Element? && RenumberInto(n, refs).Ok?
    ensures var (n', refs') := RenumberInto(n, refs).value;
      n'.Element? && Counted(HrefsList(n.children), refs, HrefsList(n'.children), refs')
    decreases Size(n), 0
  {
    RenumberListCounted(n.children, refs);
  }

  /** Over the whole tree: reference k, in document order, is recorded k-th
      as what its href says, and ends up with the href of number k. */
  lemma RenumberingCounted(tree: seq<Node>)
    requires Renumbering(tree).Ok?
    ensures var (t, refs) := Renumbering(tree).value;
      refs.fnArray == Items(HrefsList(tree)) && refs.index == |HrefsList(tree)| + 1 &&
      HrefsList(t) == Numbers(1, |HrefsList(tree)|)
  {
    RenumberListCounted(tree, Refs([], 1));
  }

  /** The href of reference k links to the id of footnote item k. */
  lemma RefHrefLinks(k: nat)
    ensures RefHref(k) == "#" + FnId(k)
  {
    assert "#user-content-fn-" == "#" + "user-content-fn-";
  }

  /** A reference and its footnote point at each other: when no old item is
      taken twice, item k of the merged list has the id that reference k links
      to. */
  lemma ReferencesReachItems(tree: seq<Node>, dict: map<string, string>, t: seq<Node>, refs: Refs, ns: Node)
    requires Renumbering(tree) == Ok((t, refs))
    requires SectionOf(PlainText, dict, refs.fnArray, FootnoteSection(t)) == Ok(ns)
    requires DistinctReuse(Steps(PlainText, dict, OldList(FootnoteSection(t)), refs.fnArray, |refs.fnArray|).value.entries)
    ensures |ns.children[2].children| == |HrefsList(t)| + 1
    ensures forall k :: 1 <= k <= |HrefsList(t)| ==>
      StrProp(ns.children[2].children[k], "id").Some? && HrefsList(t)[k - 1] == "#" + StrProp(ns.children[2].children[k], "id").value
  {
    var n := |HrefsList(tree)|;
    assert HrefsList(t) == Numbers(1, n) && |refs.fnArray| == n by {
      RenumberingCounted(tree);
    }
    var list := ns.children[2].children;
    assert |list| == n + 1 && forall k :: 1 <= k <= n ==> StrProp(list[k], "id") == Some(FnId(k)) by {
      SectionNumbering(PlainText, dict, refs.fnArray, FootnoteSection(t));
    }
    LinksMatchIds(list, HrefsList(t), n);
  }

  /** Reference k links to `#` and the id of item k. */
  lemma LinksMatchIds(list: seq<Node>, hrefs: seq<string>, n: nat)
    requires hrefs == Numbers(1, n) && |list| == n + 1
    requires forall k :: 1 <= k <= n ==> StrProp(list[k], "id") == Some(FnId(k))
    ensures forall k :: 1 <= k <= n ==>
      StrProp(list[k], "id").Some? && hrefs[k - 1] == "#" + StrProp(list[k], "id").value
  {
    forall k | 1 <= k <= n
      ensures StrProp(list[k], "id").Some? && hrefs[k - 1] == "#" + StrProp(list[k], "id").value
    {
      NumbersAt(1, n, k - 1);
      RefHrefLinks(k);
    }
  }

  /** Placing the section changes nothing in a tree without footnote
      sections. */
  lemma {:induction false} ReplaceSectionsQuiet(cs: seq<Node>, newChildren: seq<Node>)
    requires SectionsList(cs) == []
    ensures ReplaceSections(cs, newChildren) == cs
    decreases SizeList(cs), 1
  {
    if cs != [] {
      assert SectionsNode(cs[0]) == [] && SectionsList(cs[1..]) == [];
      ReplaceInQuiet(cs[0], newChildren);
      ReplaceSectionsQuiet(cs[1..], newChildren);
      assert [cs[0]] + cs[1..] == cs;
    }
  }

  lemma {:induction false} ReplaceInQuiet(c: Node, newChildren: seq<Node>)
    requires SectionsNode(c) == []
    ensures ReplaceIn(c, newChildren) == c
    decreases Size(c), 0
  {
    if c.Element? {
      ReplaceSectionsQuiet(c.children, newChildren);
    }
  }

  /** Without a footnote section the merged one becomes the last child of the
      root; with one, the root keeps its number of children. */
  lemma NotesPhasePlacement(tree: seq<Node>, dict: map<string, string>)
    requires NotesPhase(tree, dict).Ok?
    ensures var (t, refs) := Renumbering(tree).value;
      var r := NotesPhase(tree, dict).value;
      var ns := SectionOf(PlainText, dict, refs.fnArray, FootnoteSection(t)).value;
      (SectionsList(t) == [] ==> r == t + [ns] && IsFootnotes(r[|r| - 1])) &&
      (SectionsList(t) != [] ==> |r| == |tree|)
  {
    var (t, refs) := Renumbering(tree).value;
    var ns := SectionOf(PlainText, dict, refs.fnArray, FootnoteSection(t)).value;
    assert ns == SectionNode(ns.children[2].children);
  }
}
