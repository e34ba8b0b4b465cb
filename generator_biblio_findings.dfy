// Two places where the bibliography phase does what its authors evidently
// did not mean: it fails on an empty paragraph or `div` whenever the block is
// shown, and a key cited twice puts one entry object in both inline blocks,
// so both show the number of the later citation.

module GeneratorBiblioFindings {
  import opened Base
  import opened CiteItems
  import opened Hast
  import opened GenCitation
  import opened GenBiblio
  import opened Generator
  import opened GeneratorBiblio
  import opened GeneratorBiblioProps

  // ---------------------------------------------------------------------
  // An empty paragraph

  /** A bibliography with no entries. */
  function NoEntries(): Bibliography { Bibliography([], []) }

  lemma NoEntriesBlock()
    ensures BiblioNodeOf(NoEntries()) == Ok(Wrapper([Text("\n")]))
    ensures EntryMap([Text("\n")]) == Ok(map[])
  {
    var cs := [Text("\n")] + NoEntries().body;
    assert cs == [Text("\n")];
    assert !IsEntry(Text("\n"));
    assert LabelFrom(cs, 1, [], 0) == Ok([]);
    assert LabelFrom(cs, 0, [], 0) == Ok([Text("\n")] + []);
    assert [Text("\n")][..0] == [];
  }

  /** As written: a document holding an empty `div`, with the block shown,
      fails instead of getting its bibliography. */
  lemma EmptyDivFails()
    ensures BiblioPhase([Element("div", map[], [])], 1, Placement(false, []), NoEntries(), AsWritten).Err?
  {
    NoEntriesBlock();
    var b := Wrapper([Text("\n")]);
    var ctx := Ctx(b, map[], Placement(false, []), map[], AsWritten);
    assert RefRule(ctx, Element("div", map[], [])).Err?;
  }

  /** As written, with the block shown, a visit that meets an empty `p` or
      `div` anywhere fails. */
  lemma {:induction false} EmptyBlockFailsList(ctx: Ctx, cs: seq<Node>, st: Seen)
    requires ctx.reading == AsWritten && !ctx.opts.suppress && Somewhere(cs, EmptyBlock)
    ensures PlaceList(ctx, cs, st).Err?
    decreases SizeList(cs), 2
  {
    if Within(cs[0], EmptyBlock) {
      EmptyBlockFailsNode(ctx, cs[0], st);
    } else if PlaceNode(ctx, cs[0], st).Ok? {
      EmptyBlockFailsList(ctx, cs[1..], PlaceNode(ctx, cs[0], st).value.2);
    }
  }

  /** As written, the shown phase fails on a document holding an empty `p`
      or `div`. */
  lemma EmptyBlockFailsPhase(tree: seq<Node>, registrySize: nat, opts: Placement, bib: Bibliography)
    requires Runs(registrySize, opts) && !opts.suppress && Somewhere(tree, EmptyBlock)
    requires BiblioNodeOf(bib).Ok? && EntryMap(BiblioNodeOf(bib).value.children).Ok?
    ensures BiblioPhase(tree, registrySize, opts, bib, AsWritten).Err?
  {
    var b := BiblioNodeOf(bib).value;
    var ctx := Ctx(b, EntryMap(b.children).value, opts, map[], AsWritten);
    EmptyBlockFailsList(ctx, tree, Seen(false, map[]));
    assert Placed(tree, opts, b, EntryMap(b.children).value, AsWritten).Err?;
  }

  lemma {:induction false} EmptyBlockFailsNode(ctx: Ctx, c: Node, st: Seen)
    requires ctx.reading == AsWritten && !ctx.opts.suppress && Within(c, EmptyBlock)
    ensures PlaceNode(ctx, c, st).Err?
    decreases Size(c), 1
  {
    if !EmptyBlock(c) && InlineRule(ctx, c).Ok? && RefRule(ctx, c).Ok? {
      var replace := RefRule(ctx, c).value;
      EmptyBlockFailsList(ctx, c.children, Seen(st.inserted || replace, Noted(ctx, c, st.uses)));
    }
  }

  /** Intended: without an inline class the visit cannot fail. */
  lemma {:induction false} IntendedPlaceListOk(ctx: Ctx, cs: seq<Node>, st: Seen)
    requires ctx.reading == Intended && |ctx.opts.inlineBibClass| == 0
    ensures PlaceList(ctx, cs, st).Ok?
    decreases SizeList(cs), 2
  {
    if cs != [] {
      IntendedPlaceNodeOk(ctx, cs[0], st);
      IntendedPlaceListOk(ctx, cs[1..], PlaceNode(ctx, cs[0], st).value.2);
    }
  }

  lemma {:induction false} IntendedPlaceNodeOk(ctx: Ctx, c: Node, st: Seen)
    requires ctx.reading == Intended && |ctx.opts.inlineBibClass| == 0
    ensures PlaceNode(ctx, c, st).Ok?
    decreases Size(c), 1
  {
    if c.Element? {
      var replace := RefRule(ctx, c);
      IntendedPlaceListOk(ctx, c.children, Seen(st.inserted || replace.value, Noted(ctx, c, st.uses)));
    }
  }

  /** Intended: without an inline class the phase fails only where the
      block itself cannot be built. */
  lemma IntendedPhaseOk(tree: seq<Node>, registrySize: nat, opts: Placement, bib: Bibliography)
    requires |opts.inlineBibClass| == 0 && BiblioNodeOf(bib).Ok? && EntryMap(BiblioNodeOf(bib).value.children).Ok?
    ensures BiblioPhase(tree, registrySize, opts, bib, Intended).Ok?
  {
    var b := BiblioNodeOf(bib).value;
    var ctx := Ctx(b, EntryMap(b.children).value, opts, map[], Intended);
    IntendedPlaceListOk(ctx, tree, Seen(false, map[]));
    var seen := PlaceAll(ctx, tree).value.1;
    IntendedPlaceListOk(ctx.(last := seen.uses), tree, Seen(false, map[]));
  }

  /** Intended: on the document of `EmptyDivFails` the `div` is kept and the
      block appended. */
  lemma IntendedEmptyDivKept()
    ensures BiblioPhase([Element("div", map[], [])], 1, Placement(false, []), NoEntries(), Intended) ==
            Ok([Element("div", map[], []), Wrapper([Text("\n")])])
  {
    NoEntriesBlock();
    var d := Element("div", map[], []);
    assert !Somewhere([d], RefBlock) by {
      assert !Somewhere(d.children, RefBlock);
      assert ([d])[1..] == [];
    }
    assert Wrapper([Text("\n")]).children == [Text("\n")];
    BiblioPhaseAppends([d], 1, Placement(false, []), NoEntries(), Intended);
    assert [d] + [Wrapper([Text("\n")])] == [d, Wrapper([Text("\n")])];
  }

  // ---------------------------------------------------------------------
  // One entry object for two citations

  /** The span of citation number k of key `a`, as the citation pass names
      it. */
  function SpanOf(k: nat): Node {
    Element("span", map["id" := Str(SpanId([KeyOnly("a")], k))], [])
  }

  /** A paragraph citing `a` twice. */
  function TwiceCited(): Node { Element("p", map[], [SpanOf(1), SpanOf(2)]) }

  /** The inline options without a shown block. */
  function InlineOnly(): Placement { Placement(true, ["inline"]) }

  /** The key `a` is its own lower case and safe in a span id. */
  lemma KeyA()
    ensures LowerIds([KeyOnly("a")]) == ["a"] && SafeKeys(["a"])
  {
    assert LowerChar('a') == 'a';
    assert ToLower("a") == "a";
    assert LowerIds([KeyOnly("a")]) == [ToLower("a")];
    IndexOfFirst("a", "--");
    assert forall i: nat :: !OccursAt("a", "--", i);
  }

  /** The span of citation k reads back as key `a` and number k. */
  lemma SpanKeys(k: nat)
    ensures CitationIdOf(SpanOf(k)) == Some(SpanId([KeyOnly("a")], k))
    ensures KeysOf(SpanId([KeyOnly("a")], k)) == (["a"], NatToString(k))
  {
    KeyA();
    SpanIdKeys([KeyOnly("a")], k);
    SpanIdStarts([KeyOnly("a")], k);
  }

  /** Visiting the span of citation k pushes the block of key `a` and records
      the use. */
  lemma SpanVisit(ctx: Ctx, k: nat, st: Seen)
    requires ctx.opts == InlineOnly() && "a" in ctx.entries
    ensures InlineBlock(ctx, ["a"], NatToString(k)).Ok?
    ensures PlaceNode(ctx, SpanOf(k), st) ==
      Ok((SpanOf(k), [InlineBlock(ctx, ["a"], NatToString(k)).value], Seen(st.inserted, st.uses["a" := NatToString(k)])))
  {
    var c := SpanOf(k);
    var num := NatToString(k);
    SpanKeys(k);
    assert InlineApplies(ctx, c);
    var block := InlineBlock(ctx, ["a"], num);
    assert block.Ok?;
    assert InlineRule(ctx, c) == Ok([block.value]);
    assert RefRule(ctx, c) == Ok(false);
    var st1 := Seen(st.inserted, st.uses["a" := num]);
    assert Use(st.uses, ["a"], num) == st.uses["a" := num];
    assert Noted(ctx, c, st.uses) == st.uses["a" := num];
    var none: seq<Node> := [];
    assert PlaceList(ctx, c.children, Seen(st.inserted || false, st.uses["a" := num])) == Ok((none, none, st1));
    assert c.(children := none + none) == c;
  }

  /** The visit of a list: its first node, then the rest. */
  lemma PlaceListCons(ctx: Ctx, cs: seq<Node>, st: Seen, n: Node, ps: seq<Node>, st1: Seen,
                      ns: seq<Node>, qs: seq<Node>, st2: Seen)
    requires cs != [] && PlaceNode(ctx, cs[0], st) == Ok((n, ps, st1))
    requires PlaceList(ctx, cs[1..], st1) == Ok((ns, qs, st2))
    ensures PlaceList(ctx, cs, st) == Ok(([n] + ns, ps + qs, st2))
  {
  }

  /** The children of the paragraph: both spans stay, each pushes its
      block, and the last use of `a` is citation 2. */
  lemma TwiceCitedChildren(ctx: Ctx)
    requires ctx.opts == InlineOnly() && "a" in ctx.entries
    ensures InlineBlock(ctx, ["a"], "1").Ok? && InlineBlock(ctx, ["a"], "2").Ok?
    ensures PlaceList(ctx, TwiceCited().children, Seen(false, map[])) ==
      Ok(([SpanOf(1), SpanOf(2)], [InlineBlock(ctx, ["a"], "1").value, InlineBlock(ctx, ["a"], "2").value],
          Seen(false, map["a" := "2"])))
  {
    var st := Seen(false, map[]);
    var st1 := Seen(false, map["a" := "1"]);
    var st2 := Seen(false, map["a" := "2"]);
    OneTwo();
    SpanVisit(ctx, 1, st);
    SpanVisit(ctx, 2, st1);
    TwiceCitedSpans();
    TwoPushing(ctx, SpanOf(1), SpanOf(2), st, InlineBlock(ctx, ["a"], "1").value, st1,
               InlineBlock(ctx, ["a"], "2").value, st2);
  }

  lemma OneTwo()
    ensures NatToString(1) == "1" && NatToString(2) == "2"
    ensures map["a" := "1"]["a" := "2"] == map["a" := "2"]
  {
  }

  lemma TwiceCitedSpans()
    ensures TwiceCited().children == [SpanOf(1), SpanOf(2)]
  {
  }

  /** Two nodes that stay and push one block each. */
  lemma TwoPushing(ctx: Ctx, n1: Node, n2: Node, st: Seen, b1: Node, st1: Seen, b2: Node, st2: Seen)
    requires PlaceNode(ctx, n1, st) == Ok((n1, [b1], st1))
    requires PlaceNode(ctx, n2, st1) == Ok((n2, [b2], st2))
    ensures PlaceList(ctx, [n1, n2], st) == Ok(([n1, n2], [b1, b2], st2))
  {
    var none: seq<Node> := [];
    var tail := [n2];
    assert tail[1..] == [];
    PlaceListCons(ctx, tail, st1, n2, [b2], st2, none, none, st2);
    assert [n1, n2][1..] == tail;
    PlaceListCons(ctx, [n1, n2], st, n1, [b1], st1, [n2] + none, [b2] + none, st2);
    assert [n1] + ([n2] + none) == [n1, n2];
    assert [b1] + ([b2] + none) == [b1, b2];
  }

  /** The paragraph gets both blocks after its spans. */
  lemma TwiceCitedVisit(ctx: Ctx)
    requires ctx.opts == InlineOnly() && "a" in ctx.entries
    ensures InlineBlock(ctx, ["a"], "1").Ok? && InlineBlock(ctx, ["a"], "2").Ok?
    ensures PlaceAll(ctx, [TwiceCited()]) ==
      Ok(([TwiceCited().(children := [SpanOf(1), SpanOf(2)] +
                                     [InlineBlock(ctx, ["a"], "1").value, InlineBlock(ctx, ["a"], "2").value])],
          Seen(false, map["a" := "2"])))
  {
    TwiceCitedChildren(ctx);
    var st := Seen(false, map[]);
    var st2 := Seen(false, map["a" := "2"]);
    var none: seq<Node> := [];
    var p := TwiceCited();
    var kids := [SpanOf(1), SpanOf(2)];
    var pushed := [InlineBlock(ctx, ["a"], "1").value, InlineBlock(ctx, ["a"], "2").value];
    assert !InlineApplies(ctx, p);
    assert RefRule(ctx, p) == Ok(false);
    assert Noted(ctx, p, map[]) == map[];
    var p' := p.(children := kids + pushed);
    assert PlaceNode(ctx, p, st) == Ok((p', none, st2));
    assert [p][1..] == [];
    PlaceListCons(ctx, [p], st, p', none, st2, none, none, st2);
    assert [p'] + none + (none + none) == [p'];
  }

  /** The id of the entry in an inline block of key `a`. */
  function EntryIdIn(block: Node): Option<string> {
    if block.Element? && |block.children| == 1 then StrProp(block.children[0], "id") else None
  }

  lemma OneEntryId(ctx: Ctx, n: string)
    requires "a" in ctx.entries && ctx.entries["a"].Element?
    ensures InlineBlock(ctx, ["a"], n).Ok? &&
      EntryIdIn(InlineBlock(ctx, ["a"], n).value) == Some("inline--" + "a" + "--" + EntryNumber(ctx, "a", n))
  {
    var es := InlineEntries(ctx, ["a"], n);
    assert es.Ok?;
    InlineEntriesShape(ctx, ["a"], n);
    var id := "inline--" + "a" + "--" + EntryNumber(ctx, "a", n);
    var props := map["class" := Str("inline-entry"), "id" := Str(id)];
    assert es.value[0] == SetProps(ctx.entries["a"], props);
    assert props["id"] == Str(id);
    assert StrProp(es.value[0], "id") == Some(id);
  }

  lemma InlineIds()
    ensures "inline--" + "a" + "--" + "1" == "inline--a--1"
    ensures "inline--" + "a" + "--" + "2" == "inline--a--2"
  {
  }

  /** The two inline blocks that visiting the paragraph pushes, with the
      entries as the uses `a := 2` leave them. */
  lemma TwiceCitedPlaced(b: Node, m: map<string, Node>, reading: Reading)
    requires "a" in m && m["a"].Element?
    ensures var ctx' := Ctx(b, m, InlineOnly(), map["a" := "2"], reading);
      var r := Placed([TwiceCited()], InlineOnly(), b, m, reading);
      r.Ok? && |r.value.0| == 1 && |r.value.0[0].children| == 4 &&
      r.value.0[0].children[2] == InlineBlock(ctx', ["a"], "1").value &&
      r.value.0[0].children[3] == InlineBlock(ctx', ["a"], "2").value
  {
    var ctx := Ctx(b, m, InlineOnly(), map[], reading);
    TwiceCitedVisit(ctx);
    var ctx' := ctx.(last := map["a" := "2"]);
    TwiceCitedVisit(ctx');
  }

  /** As written: with any bibliography that has an entry for `a`, the inline
      block of the first citation shows the entry with the id of the second;
      the two inline entries share one id. */
  lemma SharedEntryShowsLastUse(b: Node, m: map<string, Node>)
    requires "a" in m && m["a"].Element?
    ensures var r := Placed([TwiceCited()], InlineOnly(), b, m, AsWritten);
      r.Ok? && |r.value.0| == 1 && |r.value.0[0].children| == 4 &&
      EntryIdIn(r.value.0[0].children[2]) == Some("inline--a--2") &&
      EntryIdIn(r.value.0[0].children[3]) == Some("inline--a--2")
  {
    TwiceCitedPlaced(b, m, AsWritten);
    var ctx' := Ctx(b, m, InlineOnly(), map["a" := "2"], AsWritten);
    OneEntryId(ctx', "1");
    OneEntryId(ctx', "2");
    InlineIds();
  }

  /** Intended: each inline block shows its own citation's number. */
  lemma OwnEntryPerUse(b: Node, m: map<string, Node>)
    requires "a" in m && m["a"].Element?
    ensures var r := Placed([TwiceCited()], InlineOnly(), b, m, Intended);
      r.Ok? && |r.value.0| == 1 && |r.value.0[0].children| == 4 &&
      EntryIdIn(r.value.0[0].children[2]) == Some("inline--a--1") &&
      EntryIdIn(r.value.0[0].children[3]) == Some("inline--a--2")
  {
    TwiceCitedPlaced(b, m, Intended);
    var ctx' := Ctx(b, m, InlineOnly(), map["a" := "2"], Intended);
    OneEntryId(ctx', "1");
    OneEntryId(ctx', "2");
    InlineIds();
  }
}
