// What the citation pass promises: citations are numbered 1, 2, ... with the
// engine told about every earlier cluster, each citation's text is kept
// under its number, text without a usable marker is left alone, and a
// marker's node takes exactly the marker's place in its text.

module GeneratorProps {
  import opened Base
  import opened CiteItems
  import opened Hast
  import opened GenCitation
  import opened Generator

  /** The names of the numbers 1 .. n - 1. */
  function NumberNames(n: nat): set<string> {
    set j: nat | 1 <= j < n :: NatToString(j)
  }

  /** The state after citations 1 .. citationId - 1: cluster k + 1 is the
      k-th of those cited before, and the texts are stored under exactly the
      numbers used. */
  predicate Numbered(st: St) {
    st.citationId >= 1 && |st.pre| == st.citationId - 1 &&
    (forall k :: 0 <= k < |st.pre| ==> st.pre[k] == (CitationKey(IdRoot, k + 1), 0)) &&
    st.dict.Keys == NumberNames(st.citationId)
  }

  /** A later state only adds citations: the clusters and texts of the
      earlier ones are kept. */
  predicate Extends(st: St, st': St) {
    st.citationId <= st'.citationId && |st.pre| <= |st'.pre| && st'.pre[..|st.pre|] == st.pre &&
    forall j :: j in st.dict ==> j in st'.dict && st'.dict[j] == st.dict[j]
  }

  /** A numbered state moves to a numbered state that extends it. */
  predicate Keeps(st: St, st': St) {
    Numbered(st) ==> Numbered(st') && Extends(st, st')
  }

  lemma KeepsRefl(st: St)
    ensures Keeps(st, st)
  {
    assert st.pre[..|st.pre|] == st.pre;
  }

  lemma KeepsTrans(a: St, b: St, c: St)
    requires Keeps(a, b) && Keeps(b, c)
    ensures Keeps(a, c)
  {
    if Numbered(a) {
      assert c.pre[..|a.pre|] == c.pre[..|b.pre|][..|a.pre|];
    }
  }

  lemma NumberNamesNext(n: nat)
    requires n >= 1
    ensures NumberNames(n + 1) == NumberNames(n) + {NatToString(n)}
    ensures NatToString(n) !in NumberNames(n)
  {
    forall j: nat | 1 <= j < n ensures NatToString(j) != NatToString(n) {
      if NatToString(j) == NatToString(n) { NatToStringInjective(j, n); }
    }
  }

  /** One citation keeps the state numbered: the number used is the next one,
      its cluster joins the list and its text is stored under a new name. */
  lemma AdvanceKeeps(st: St, text: string)
    ensures Keeps(st, Advance(st, text))
    ensures Advance(st, text).citationId == st.citationId + 1
    ensures Advance(st, text).dict[NatToString(st.citationId)] == text
  {
    var st' := Advance(st, text);
    if Numbered(st) {
      NumberNamesNext(st.citationId);
      assert st'.pre[..|st.pre|] == st.pre;
      forall k | 0 <= k < |st'.pre| ensures st'.pre[k] == (CitationKey(IdRoot, k + 1), 0) {
        if k < |st.pre| { assert st'.pre[k] == st.pre[k]; }
      }
    }
  }

  /** The first marker of a text either leaves the text and the state as
      they are, or replaces the text up to the marker's end with the text
      before the marker and the node of citation `st.citationId`, whose
      entries are what the marker parses to, all of them in the
      bibliography. */
  lemma FirstMarkerCases(env: Env, tag: string, v: string, st: St)
    requires FinderOk(env.find) && FirstMarker(env, tag, v, st).Ok?
    ensures var (out, next, st') := FirstMarker(env, tag, v, st).value;
      (out == [Text(v)] && next == None && st' == st) ||
      (Permitted(tag) && env.find(v).Some? &&
       var m := env.find(v).value;
       var entries := env.parse(MarkerText(v, m)).0;
       var text := st'.dict[NatToString(st.citationId)];
       AllKnown(entries, env.citationIds) && st' == Advance(st, text) &&
       out == Lead(v, m) + [CiteNode(env, entries, st.citationId, text)] && next == After(v, m))
  {
    if Permitted(tag) && env.find(v).Some? {
      var m := env.find(v).value;
      var (entries, composite) := env.parse(MarkerText(v, m));
      if AllKnown(entries, env.citationIds) {
        var (text, node) := GenInline(env, entries, st.citationId, st.pre, composite).value;
        AdvanceKeeps(st, text);
      }
    }
  }

  lemma FirstMarkerKeeps(env: Env, tag: string, v: string, st: St)
    requires FinderOk(env.find) && FirstMarker(env, tag, v, st).Ok?
    ensures Keeps(st, FirstMarker(env, tag, v, st).value.2)
  {
    FirstMarkerCases(env, tag, v, st);
    var st' := FirstMarker(env, tag, v, st).value.2;
    if st' == st { KeepsRefl(st); } else { AdvanceKeeps(st, st'.dict[NatToString(st.citationId)]); }
  }

  /** Rewriting a text node keeps the state numbered. */
  lemma {:induction false} RewriteKeeps(env: Env, tag: string, v: string, st: St)
    requires FinderOk(env.find) && RewriteSpec(env, tag, v, st).Ok?
    ensures Keeps(st, RewriteSpec(env, tag, v, st).value.1)
    decreases |v|
  {
    var (out, next, st') := FirstMarker(env, tag, v, st).value;
    FirstMarkerKeeps(env, tag, v, st);
    if next.Some? {
      RewriteKeeps(env, tag, next.value, st');
      KeepsTrans(st, st', RewriteSpec(env, tag, v, st).value.1);
    }
  }

  /** Walking a list of children keeps the state numbered. */
  lemma {:induction false} WalkListKeeps(env: Env, tag: string, cs: seq<Node>, st: St)
    requires FinderOk(env.find) && WalkList(env, tag, cs, st).Ok?
    ensures Keeps(st, WalkList(env, tag, cs, st).value.1)
    decreases SizeList(cs), 2
  {
    if cs == [] {
      KeepsRefl(st);
    } else {
      var first := VisitChild(env, tag, cs[0], st);
      VisitChildKeeps(env, tag, cs[0], st);
      WalkListKeeps(env, tag, cs[1..], first.value.1);
      KeepsTrans(st, first.value.1, WalkList(env, tag, cs, st).value.1);
    }
  }

  lemma {:induction false} VisitChildKeeps(env: Env, tag: string, c: Node, st: St)
    requires FinderOk(env.find) && VisitChild(env, tag, c, st).Ok?
    ensures Keeps(st, VisitChild(env, tag, c, st).value.1)
    decreases Size(c), 1
  {
    match c
    case Text(v) => RewriteKeeps(env, tag, v, st);
    case Element(_, _, _) => WalkNodeKeeps(env, c, st);
    case Markup(_) => KeepsRefl(st);
  }

  lemma {:induction false} WalkNodeKeeps(env: Env, n: Node, st: St)
    requires FinderOk(env.find) && n.Element? && WalkNode(env, n, st).Ok?
    ensures Keeps(st, WalkNode(env, n, st).value.1)
    decreases Size(n), 0
  {
    WalkListKeeps(env, n.tagName, n.children, st);
  }

  /** After the pass, cluster k is `CITATION-k` and the texts are stored under
      exactly the numbers 1 .. citationId - 1. */
  lemma CitationPassNumbered(env: Env, tree: seq<Node>)
    requires FinderOk(env.find) && CitationPass(env, tree).Ok?
    ensures Numbered(CitationPass(env, tree).value.1)
  {
    assert NumberNames(1) == {};
    WalkListKeeps(env, "", tree, Initial());
  }

  // ---------------------------------------------------------------------
  // Text without a usable marker

  /** No text node that the pass searches holds a marker whose keys are all
      in the bibliography. */
  predicate QuietList(env: Env, tag: string, cs: seq<Node>)
    decreases SizeList(cs), 1
  {
    cs == [] || (QuietNode(env, tag, cs[0]) && QuietList(env, tag, cs[1..]))
  }

  predicate QuietNode(env: Env, tag: string, c: Node)
    decreases Size(c), 0
  {
    match c
    case Text(v) =>
      !Permitted(tag) || env.find(v).None? ||
      (env.find(v).value.start + env.find(v).value.len <= |v| &&
       !AllKnown(env.parse(MarkerText(v, env.find(v).value)).0, env.citationIds))
    case Element(t, _, children) => QuietList(env, t, children)
    case Markup(_) => true
  }

  /** Such children come out of the pass as they went in, with no number
      used. */
  lemma {:induction false} QuietListUnchanged(env: Env, tag: string, cs: seq<Node>, st: St)
    requires FinderOk(env.find) && QuietList(env, tag, cs)
    ensures WalkList(env, tag, cs, st) == Ok((cs, st))
    decreases SizeList(cs), 2
  {
    if cs != [] {
      QuietNodeUnchanged(env, tag, cs[0], st);
      QuietListUnchanged(env, tag, cs[1..], st);
      assert [cs[0]] + cs[1..] == cs;
    }
  }

  lemma {:induction false} QuietNodeUnchanged(env: Env, tag: string, c: Node, st: St)
    requires FinderOk(env.find) && QuietNode(env, tag, c)
    ensures VisitChild(env, tag, c, st) == Ok(([c], st))
    decreases Size(c), 1
  {
    match c
    case Text(v) =>
    case Element(t, p, children) =>
      QuietListUnchanged(env, t, children, st);
      assert c.(children := children) == c;
    case Markup(_) =>
  }

  // ---------------------------------------------------------------------
  // The splice

  /** The text before the marker, the marker and the text after it make up
      the whole text node. */
  lemma MarkerSplit(v: string, m: Match)
    requires m.start + m.len <= |v|
    ensures (if Lead(v, m) == [] then "" else Lead(v, m)[0].value) + MarkerText(v, m) + After(v, m).GetOr("") == v
    ensures forall i :: 0 <= i < |Lead(v, m)| ==> Lead(v, m)[i] == Text(v[..m.start]) && v[..m.start] != ""
  {
    if m.start + m.len < |v| {
      assert v[..m.start] + v[m.start..][..m.len] + v[m.start + m.len..] == v;
    } else {
      assert v[..m.start] + v[m.start..][..m.len] == v;
    }
  }
}
