// What the bibliography phase promises: the block replaces every `[^ref]`
// paragraph it meets and is otherwise appended, nothing else changes without
// an inline class, and the inline block of a citation lists the keys and the
// number its span id carries.

module GeneratorBiblioProps {
  import opened Base
  import opened CiteItems
  import opened Hast
  import opened GenCitation
  import opened GenBiblio
  import opened Generator
  import opened GeneratorBiblio

  // ---------------------------------------------------------------------
  // Nodes somewhere in a tree

  /** Some node of `cs` or below it, in the order the visit meets them,
      satisfies `p`; text and converted HTML have no children to look in. */
  predicate Somewhere(cs: seq<Node>, p: Node -> bool)
    decreases SizeList(cs), 1
  {
    cs != [] && (Within(cs[0], p) || Somewhere(cs[1..], p))
  }

  /** `c` or a node below it satisfies `p`. */
  predicate Within(c: Node, p: Node -> bool)
    decreases Size(c), 0
  {
    p(c) || (c.Element? && Somewhere(c.children, p))
  }

  // ---------------------------------------------------------------------
  // The entries shared between inline blocks

  /** Whether the visit fails, and what it sees, do not depend on how the
      shared entries end up: only the blocks it builds do. */
  lemma {:induction false} PlaceListLast(ctx: Ctx, l: map<string, string>, cs: seq<Node>, st: Seen)
    ensures var a := PlaceList(ctx, cs, st);
            var b := PlaceList(ctx.(last := l), cs, st);
            a.Ok? == b.Ok? && (a.Ok? ==> a.value.2 == b.value.2)
    decreases SizeList(cs), 2
  {
    if cs != [] {
      PlaceNodeLast(ctx, l, cs[0], st);
      var a := PlaceNode(ctx, cs[0], st);
      if a.Ok? {
        PlaceListLast(ctx, l, cs[1..], a.value.2);
      }
    }
  }

  lemma {:induction false} PlaceNodeLast(ctx: Ctx, l: map<string, string>, c: Node, st: Seen)
    ensures var a := PlaceNode(ctx, c, st);
            var b := PlaceNode(ctx.(last := l), c, st);
            a.Ok? == b.Ok? && (a.Ok? ==> a.value.2 == b.value.2)
    decreases Size(c), 1
  {
    if c.Element? {
      var ctx' := ctx.(last := l);
      assert InlineApplies(ctx, c) == InlineApplies(ctx', c);
      if InlineApplies(ctx, c) {
        var (keys, n) := KeysOf(CitationIdOf(c).value);
        assert InlineEntries(ctx, keys, n).Ok? == InlineEntries(ctx', keys, n).Ok?;
      }
      assert InlineRule(ctx, c).Ok? == InlineRule(ctx', c).Ok?;
      assert RefRule(ctx, c) == RefRule(ctx', c);
      var replace := RefRule(ctx, c);
      if InlineRule(ctx, c).Ok? && replace.Ok? {
        PlaceListLast(ctx, l, c.children, Seen(st.inserted || replace.value, Noted(ctx, c, st.uses)));
      }
    }
  }

  // ---------------------------------------------------------------------
  // The `[^ref]` paragraph

  /** The visit records an insertion exactly when it meets a `[^ref]`
      paragraph, while the block is shown. */
  lemma {:induction false} PlaceListInserted(ctx: Ctx, cs: seq<Node>, st: Seen)
    requires PlaceList(ctx, cs, st).Ok?
    ensures PlaceList(ctx, cs, st).value.2.inserted == (st.inserted || (!ctx.opts.suppress && Somewhere(cs, RefBlock)))
    decreases SizeList(cs), 2
  {
    if cs != [] {
      var a := PlaceNode(ctx, cs[0], st);
      PlaceNodeInserted(ctx, cs[0], st);
      PlaceListInserted(ctx, cs[1..], a.value.2);
    }
  }

  lemma {:induction false} PlaceNodeInserted(ctx: Ctx, c: Node, st: Seen)
    requires PlaceNode(ctx, c, st).Ok?
    ensures PlaceNode(ctx, c, st).value.2.inserted == (st.inserted || (!ctx.opts.suppress && Within(c, RefBlock)))
    decreases Size(c), 1
  {
    if c.Element? {
      var replace := RefRule(ctx, c);
      var st1 := Seen(st.inserted || replace.value, Noted(ctx, c, st.uses));
      PlaceListInserted(ctx, c.children, st1);
    }
  }

  /** Every `[^ref]` paragraph among the children gives its place to the
      block, while the block is shown. */
  lemma {:induction false} PlaceListReplaces(ctx: Ctx, cs: seq<Node>, st: Seen, i: nat)
    requires PlaceList(ctx, cs, st).Ok? && i < |cs|
    requires !ctx.opts.suppress && RefBlock(cs[i])
    ensures i < |PlaceList(ctx, cs, st).value.0| && PlaceList(ctx, cs, st).value.0[i] == ctx.biblio
    decreases i
  {
    var a := PlaceNode(ctx, cs[0], st);
    if i > 0 {
      PlaceListReplaces(ctx, cs[1..], a.value.2, i - 1);
    }
  }

  /** The visit keeps the number of children. */
  lemma {:induction false} PlaceListLength(ctx: Ctx, cs: seq<Node>, st: Seen)
    requires PlaceList(ctx, cs, st).Ok?
    ensures |PlaceList(ctx, cs, st).value.0| == |cs|
    decreases |cs|
  {
    if cs != [] {
      PlaceListLength(ctx, cs[1..], PlaceNode(ctx, cs[0], st).value.2);
    }
  }

  /** Without an inline class and with nothing to replace or to fail on, the
      visit leaves the children and the state as they are. */
  lemma {:induction false} PlaceListQuiet(ctx: Ctx, cs: seq<Node>, st: Seen)
    requires |ctx.opts.inlineBibClass| == 0
    requires ctx.opts.suppress || (!Somewhere(cs, RefBlock) && (ctx.reading == Intended || !Somewhere(cs, EmptyBlock)))
    ensures PlaceList(ctx, cs, st) == Ok((cs, [], st))
    decreases SizeList(cs), 2
  {
    if cs != [] {
      assert !Within(cs[0], RefBlock) || ctx.opts.suppress;
      PlaceNodeQuiet(ctx, cs[0], st);
      PlaceListQuiet(ctx, cs[1..], st);
      assert PlaceNode(ctx, cs[0], st) == Ok((cs[0], [], st));
      assert PlaceList(ctx, cs[1..], st) == Ok((cs[1..], [], st));
      assert [cs[0]] + cs[1..] == cs;
      assert PlaceList(ctx, cs, st) == Ok(([cs[0]] + cs[1..], [] + [], st));
      var none: seq<Node> := [];
      assert [] + [] == none;
      assert PlaceList(ctx, cs, st) == Ok((cs, none, st));
    }
  }

  lemma {:induction false} PlaceNodeQuiet(ctx: Ctx, c: Node, st: Seen)
    requires |ctx.opts.inlineBibClass| == 0
    requires ctx.opts.suppress || (!Within(c, RefBlock) && (ctx.reading == Intended || !Within(c, EmptyBlock)))
    ensures PlaceNode(ctx, c, st) == Ok((c, [], st))
    decreases Size(c), 1
  {
    if c.Element? {
      assert RefRule(ctx, c) == Ok(false);
      assert Noted(ctx, c, st.uses) == st.uses;
      assert Seen(st.inserted || false, st.uses) == st;
      PlaceListQuiet(ctx, c.children, st);
      assert c.children + [] == c.children;
    }
  }

  /** The same for the visit from the root. */
  lemma PlaceAllQuiet(ctx: Ctx, tree: seq<Node>)
    requires |ctx.opts.inlineBibClass| == 0
    requires ctx.opts.suppress || (!Somewhere(tree, RefBlock) && (ctx.reading == Intended || !Somewhere(tree, EmptyBlock)))
    ensures PlaceAll(ctx, tree) == Ok((tree, Seen(false, map[])))
  {
    PlaceListQuiet(ctx, tree, Seen(false, map[]));
    assert tree + [] == tree;
  }

  /** Where the shown block goes: in place of each `[^ref]` paragraph among
      the root's children, and at the end exactly when the visit met no
      `[^ref]` paragraph anywhere. */
  lemma BiblioPhasePlacement(tree: seq<Node>, registrySize: nat, opts: Placement, bib: Bibliography, reading: Reading)
    requires Runs(registrySize, opts) && !opts.suppress
    requires BiblioPhase(tree, registrySize, opts, bib, reading).Ok?
    ensures BiblioNodeOf(bib).Ok? && EntryMap(BiblioNodeOf(bib).value.children).Ok?
    ensures var b := BiblioNodeOf(bib).value;
            var p := Placed(tree, opts, b, EntryMap(b.children).value, reading);
            var r := BiblioPhase(tree, registrySize, opts, bib, reading).value;
            p.Ok? &&
            (Somewhere(tree, RefBlock) ==> r == p.value.0) &&
            (!Somewhere(tree, RefBlock) ==> r == p.value.0 + [b]) &&
            forall i :: 0 <= i < |tree| && RefBlock(tree[i]) ==> i < |r| && r[i] == b
  {
    var b := BiblioNodeOf(bib).value;
    var m := EntryMap(b.children).value;
    var ctx := Ctx(b, m, opts, map[], reading);
    var seen := PlaceAll(ctx, tree).value.1;
    var ctx' := ctx.(last := seen.uses);
    var start := Seen(false, map[]);
    PlaceListInserted(ctx', tree, start);
    var w := PlaceList(ctx', tree, start).value;
    PlaceListLength(ctx', tree, start);
    forall i | 0 <= i < |tree| && RefBlock(tree[i])
      ensures i < |w.0 + w.1| && (w.0 + w.1)[i] == b
    {
      PlaceListReplaces(ctx', tree, start, i);
    }
  }

  /** Without an inline class, nothing to replace and nothing to fail on, the
      document is kept and the block appended. */
  lemma BiblioPhaseAppends(tree: seq<Node>, registrySize: nat, opts: Placement, bib: Bibliography, reading: Reading)
    requires Runs(registrySize, opts) && |opts.inlineBibClass| == 0
    requires !Somewhere(tree, RefBlock) && (reading == Intended || !Somewhere(tree, EmptyBlock))
    requires BiblioNodeOf(bib).Ok? && EntryMap(BiblioNodeOf(bib).value.children).Ok?
    ensures BiblioPhase(tree, registrySize, opts, bib, reading) == Ok(tree + [BiblioNodeOf(bib).value])
  {
    var b := BiblioNodeOf(bib).value;
    var ctx := Ctx(b, EntryMap(b.children).value, opts, map[], reading);
    PlaceAllQuiet(ctx, tree);
    PlaceAllQuiet(ctx.(last := map[]), tree);
  }

  // ---------------------------------------------------------------------
  // The inline blocks

  /** Keys that the span id keeps apart: no `--` inside one, and no `-` at
      the end of one that another follows. */
  predicate Separable(parts: seq<string>) {
    forall i :: 0 <= i < |parts| ==> !Includes(parts[i], "--") && (i + 1 < |parts| ==> !EndsWith(parts[i], "-"))
  }

  /** Keys a span id keeps apart: no `--` inside one and no `-` at the end. */
  predicate SafeKeys(ks: seq<string>) {
    forall i :: 0 <= i < |ks| ==> !Includes(ks[i], "--") && !EndsWith(ks[i], "-")
  }

  /** The first `--` of `p--x` is the one after `p` when `p` has none and
      does not end with a dash. */
  lemma FirstDashes(p: string, x: string)
    requires !Includes(p, "--") && !EndsWith(p, "-")
    ensures IndexOf(p + "--" + x, "--") == |p|
  {
    var s := p + "--" + x;
    assert s[|p|..|p| + 2] == "--";
    IndexOfFirst(p, "--");
    forall i: nat | i < |p| ensures !OccursAt(s, "--", i) {
      if i + 2 <= |p| {
        assert !OccursAt(p, "--", i);
        assert s[i..i + 2] == p[i..i + 2];
      } else {
        assert p[|p| - 1..] == [p[i]];
        assert s[i..i + 2][0] == s[i] == p[i] != '-';
      }
    }
    IndexOfAt(s, "--", |p|);
  }

  /** Splitting on `--` undoes joining with `--` when the parts are
      separable. */
  lemma {:induction false} SplitJoinDashes(parts: seq<string>)
    requires |parts| >= 1 && Separable(parts)
    ensures Split(Join(parts, "--"), "--") == parts
    decreases |parts|
  {
    var p := parts[0];
    if |parts| == 1 {
      assert IndexOf(p, "--") == -1;
      SplitAbsent(p, "--");
    } else {
      var rest := parts[1..];
      var x := Join(rest, "--");
      assert [p] + rest == parts;
      JoinCons(p, rest, "--");
      var s := p + "--" + x;
      FirstDashes(p, x);
      SplitFirstPiece(s, "--");
      assert s[..|p|] == p && s[|p| + 2..] == x;
      assert Separable(rest) by {
        forall i | 0 <= i < |rest| ensures !Includes(rest[i], "--") && (i + 1 < |rest| ==> !EndsWith(rest[i], "-")) {
          assert rest[i] == parts[i + 1];
        }
      }
      SplitJoinDashes(rest);
    }
  }

  /** Joining a list with one more part at the end. */
  lemma {:induction false} JoinSnoc(parts: seq<string>, last: string, sep: string)
    requires |parts| >= 1
    ensures Join(parts + [last], sep) == Join(parts, sep) + sep + last
    decreases |parts|
  {
    if |parts| == 1 {
      assert parts + [last] == [parts[0]] + [last];
      JoinCons(parts[0], [last], sep);
    } else {
      assert parts + [last] == [parts[0]] + (parts[1..] + [last]);
      JoinCons(parts[0], parts[1..] + [last], sep);
      JoinSnoc(parts[1..], last, sep);
      JoinCons(parts[0], parts[1..], sep);
      assert [parts[0]] + parts[1..] == parts;
    }
  }

  /** A number has no dash in it. */
  lemma NumberSeparable(n: nat)
    ensures !Includes(NatToString(n), "--") && !EndsWith(NatToString(n), "-")
  {
    var s := NatToString(n);
    IndexOfFirst(s, "--");
    assert forall i: nat :: OccursAt(s, "--", i) ==> s[i] == '-';
  }

  /** The span id is the keys and the number joined with `--` after
      `citation`. */
  lemma SpanIdParts(entries: seq<CiteItem>, n: nat)
    requires |entries| >= 1
    ensures SpanId(entries, n) == Join(["citation"] + LowerIds(entries) + [NatToString(n)], "--")
  {
    var ks := LowerIds(entries);
    var num := NatToString(n);
    JoinSnoc(ks, num, "--");
    assert ["citation"] + (ks + [num]) == ["citation"] + ks + [num];
    JoinCons("citation", ks + [num], "--");
  }

  /** The word `citation` has no dash. */
  lemma CitationWordSafe()
    ensures !Includes("citation", "--") && !EndsWith("citation", "-")
  {
    IndexOfFirst("citation", "--");
    assert forall i: nat :: OccursAt("citation", "--", i) ==> "citation"[i] == '-';
    assert "citation"[7] == 'n';
  }

  /** Safe keys are separable between `citation` and a number. */
  lemma PartsSeparable(ks: seq<string>, n: nat)
    requires SafeKeys(ks)
    ensures Separable(["citation"] + ks + [NatToString(n)])
  {
    var parts := ["citation"] + ks + [NatToString(n)];
    NumberSeparable(n);
    CitationWordSafe();
    forall i | 0 <= i < |parts| ensures !Includes(parts[i], "--") && (i + 1 < |parts| ==> !EndsWith(parts[i], "-")) {
      if i == 0 {
        assert parts[i] == "citation";
      } else if i < |parts| - 1 {
        assert parts[i] == ks[i - 1];
      } else {
        assert parts[i] == NatToString(n);
      }
    }
  }

  /** A span id starts with `citation-`. */
  lemma SpanIdStarts(entries: seq<CiteItem>, n: nat)
    ensures StartsWith(SpanId(entries, n), "citation-")
  {
    var s := SpanId(entries, n);
    assert s == "citation--" + (Join(LowerIds(entries), "--") + "--" + NatToString(n));
    assert s[..9] == "citation-";
  }

  /** The span id of a citation reads back as its lower-cased keys and its
      number, when the keys are separable. */
  lemma SpanIdKeys(entries: seq<CiteItem>, n: nat)
    requires |entries| >= 1 && SafeKeys(LowerIds(entries))
    ensures KeysOf(SpanId(entries, n)) == (LowerIds(entries), NatToString(n))
  {
    var ks := LowerIds(entries);
    var num := NatToString(n);
    var parts := ["citation"] + ks + [num];
    SpanIdParts(entries, n);
    PartsSeparable(ks, n);
    SplitJoinDashes(parts);
    assert parts[1..] == ks + [num];
  }

  /** The citation node that the citation pass builds carries its span id. */
  lemma CiteNodeId(env: Env, entries: seq<CiteItem>, n: nat, text: string)
    ensures CitationIdOf(CiteNode(env, entries, n, text)) == Some(SpanId(entries, n))
  {
    var c := CiteNode(env, entries, n, text);
    assert "id" in c.properties && c.properties["id"] == Str(SpanId(entries, n));
    SpanIdStarts(entries, n);
  }

  /** The inline block holds one entry per key, in order, each the entry of
      that key with the class `inline-entry` and the id `inline--{key}--{m}`,
      where `m` is the last use of the key as written and the citation's own
      number in the intended reading. */
  lemma {:induction false} InlineEntriesShape(ctx: Ctx, keys: seq<string>, n: string)
    requires InlineEntries(ctx, keys, n).Ok?
    ensures var r := InlineEntries(ctx, keys, n).value;
      forall i :: 0 <= i < |keys| ==>
        keys[i] in ctx.entries &&
        r[i] == SetProps(ctx.entries[keys[i]], map["class" := Str("inline-entry"),
                                                   "id" := Str("inline--" + keys[i] + "--" + EntryNumber(ctx, keys[i], n))])
    decreases |keys|
  {
    if keys != [] {
      InlineEntriesShape(ctx, keys[1..], n);
      var r := InlineEntries(ctx, keys, n).value;
      forall i | 0 < i < |keys| ensures r[i] == InlineEntries(ctx, keys[1..], n).value[i - 1] && keys[i] == keys[1..][i - 1] {
      }
    }
  }

  /** A citation of the citation pass, visited with an inline class, pushes
      one block to its parent: the `div` with the inline class, the id
      `inlineBib--{keys}--{n}` and one entry per key in order. */
  lemma CitationPushes(ctx: Ctx, env: Env, entries: seq<CiteItem>, n: nat, text: string, st: Seen)
    requires |entries| >= 1 && SafeKeys(LowerIds(entries)) && |ctx.opts.inlineBibClass| > 0
    requires PlaceNode(ctx, CiteNode(env, entries, n, text), st).Ok?
    ensures var pushed := PlaceNode(ctx, CiteNode(env, entries, n, text), st).value.1;
      var ks := LowerIds(entries);
      var num := NatToString(n);
      |pushed| == 1 && pushed[0].Element? && pushed[0].tagName == "div" &&
      pushed[0].properties == map["className" := Names(ctx.opts.inlineBibClass),
                                  "id" := Str("inlineBib--" + Join(ks, "--") + "--" + num)] &&
      |pushed[0].children| == |entries| &&
      forall i :: 0 <= i < |entries| ==> (ks[i] in ctx.entries &&
        pushed[0].children[i] == SetProps(ctx.entries[ks[i]], map["class" := Str("inline-entry"),
                                          "id" := Str("inline--" + ks[i] + "--" + EntryNumber(ctx, ks[i], num))]))
  {
    var c := CiteNode(env, entries, n, text);
    CiteNodeId(env, entries, n, text);
    SpanIdKeys(entries, n);
    var ks := LowerIds(entries);
    var num := NatToString(n);
    assert KeysOf(CitationIdOf(c).value) == (ks, num);
    InlineEntriesShape(ctx, ks, num);
  }
}
