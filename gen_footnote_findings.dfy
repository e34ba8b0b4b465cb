// Reusing an old footnote item relabels the object in place, and the next
// lookup searches the old list as relabelled; an old item can then be taken
// twice and another one dropped.

module GenFootnoteFindings {
  import opened Base
  import opened Hast
  import opened GenFootnote

  /** A footnote item as GitHub-flavoured markdown renders it: a line break,
      then a paragraph holding the back link. */
  function GfmItem(fnLabel: string): Node {
    Element("li", map["id" := Str(ItemId(fnLabel))],
            [Text("\n"), Element("p", map[], [Element("a", map["href" := Str("#back")], [])])])
  }

  /** The old list of a document with footnotes `[^1]` and `[^2]`. */
  function TwoFootnotes(): seq<Node> { [GfmItem("1"), GfmItem("2")] }

  /** A citation first, then the two footnotes: the array the renumbering
      walk records for `[@key] ... [^1] ... [^2]`. */
  function CitationThenFootnotes(): seq<FnItem> {
    [FnItem(CitationRef, "1"), FnItem(ExistingRef, "1"), FnItem(ExistingRef, "2")]
  }

  lemma TwoIsTwo()
    ensures NatToString(2) == "2" && FnId(2) == ItemId("2")
  {
    assert NatToString(2) == [DigitChar(2)];
  }

  /** A footnote item relabelled to k is found by the label `k`, and can be
      relabelled again. */
  lemma RelabelledItem(li: Node, k: nat, m: nat)
    requires TagOf(li) == Some("li") && Relabel(li, k).Ok?
    ensures IsItemFor(Relabel(li, k).value, NatToString(k))
    ensures Relabel(Relabel(li, k).value, m).Ok?
  {
    var r := Relabel(li, k).value;
    assert BackHref(r).Some?;
  }

  /** Reusing the old item that the lookup finds first. */
  lemma ReuseStep(cell: Cell, dict: map<string, string>, acc: Acc, idx: nat, item: FnItem, p: nat)
    requires item.kind == ExistingRef && FindItem(acc.olds, item.oldId) == Some(p)
    requires Relabel(acc.olds[p], idx + 1).Ok?
    ensures Step(cell, dict, acc, idx, item) ==
      Ok(Acc(acc.entries + [Reused(p)], acc.olds[p := Relabel(acc.olds[p], idx + 1).value]))
  {
  }

  /** As written: footnote `[^1]` becomes number 2 in place, so the lookup of
      `[^2]` finds that same item; both list positions hold one object, which
      ends up numbered 3, and footnote `[^2]` is gone. */
  lemma ExistingItemTakenTwice(cell: Cell, dict: map<string, string>)
    ensures var r := Steps(cell, dict, TwoFootnotes(), CitationThenFootnotes(), 3);
      r.Ok? && |r.value.entries| == 3 && r.value.entries[1] == Reused(0) && r.value.entries[2] == Reused(0) &&
      |r.value.olds| == 2 && StrProp(r.value.olds[0], "id") == Some(FnId(3)) && !DistinctReuse(r.value.entries)
  {
    var olds := TwoFootnotes();
    var items := CitationThenFootnotes();
    var a0 := Acc([], olds);
    var e0 := Fresh(CitationItem(cell, dict, "1", 1));
    var a1 := Acc(a0.entries + [e0], olds);
    assert Steps(cell, dict, olds, items, 1) == Ok(a1);
    assert IsItemFor(olds[0], "1");
    var li2 := Relabel(olds[0], 2);
    ReuseStep(cell, dict, a1, 1, items[1], 0);
    var a2 := Acc(a1.entries + [Reused(0)], olds[0 := li2.value]);
    assert Steps(cell, dict, olds, items, 2) == Ok(a2);
    TwoIsTwo();
    RelabelledItem(olds[0], 2, 3);
    ReuseStep(cell, dict, a2, 2, items[2], 0);
    var li3 := Relabel(a2.olds[0], 3);
    var a3 := Acc(a2.entries + [Reused(0)], a2.olds[0 := li3.value]);
    assert Steps(cell, dict, olds, items, 3) == Ok(a3);
    ReusedTwice(a3.entries, e0);
  }

  /** One fresh entry followed by two reuses of position 0. */
  lemma ReusedTwice(entries: seq<Entry>, e0: Entry)
    requires entries == [] + [e0] + [Reused(0)] + [Reused(0)]
    ensures |entries| == 3 && entries[1] == Reused(0) && entries[2] == Reused(0) && !DistinctReuse(entries)
  {
    assert entries[1].Reused? && entries[2].Reused? && entries[1].pos == entries[2].pos;
  }

  // ---------------------------------------------------------------------
  // Corrected: look items up in the old list as it was

  /** One item of the array: every lookup goes to the old list as the
      document had it, and the item found is relabelled as a new node. */
  function IntendedStep(cell: Cell, dict: map<string, string>, orig: seq<Node>, built: seq<Node>, idx: nat, item: FnItem)
    : Result<seq<Node>, string>
  {
    match item.kind
    case CitationRef => Ok(built + [CitationItem(cell, dict, item.oldId, idx + 1)])
    case ExistingRef =>
      match FindItem(orig, item.oldId)
      case None => Err("TypeError: no footnote item " + item.oldId)
      case Some(p) =>
        var li := Relabel(orig[p], idx + 1);
        if li.Err? then Err(li.error) else Ok(built + [li.value])
  }

  function IntendedSteps(cell: Cell, dict: map<string, string>, orig: seq<Node>, items: seq<FnItem>, n: nat)
    : Result<seq<Node>, string>
    requires n <= |items|
  {
    if n == 0 then Ok([])
    else
      var prev := IntendedSteps(cell, dict, orig, items, n - 1);
      if prev.Err? then prev else IntendedStep(cell, dict, orig, prev.value, n - 1, items[n - 1])
  }

  /** What the item at position i becomes: the citation's item, or the old
      item with the item's label relabelled, both numbered i + 1. */
  predicate IntendedAt(cell: Cell, dict: map<string, string>, orig: seq<Node>, item: FnItem, i: nat, n: Node) {
    match item.kind
    case CitationRef => n == CitationItem(cell, dict, item.oldId, i + 1)
    case ExistingRef =>
      var p := FindItem(orig, item.oldId);
      p.Some? && Relabel(orig[p.value], i + 1) == Ok(n)
  }

  /** One corrected step adds one item, numbered by its position. */
  lemma IntendedStepShape(cell: Cell, dict: map<string, string>, orig: seq<Node>, built: seq<Node>, idx: nat, item: FnItem)
    requires IntendedStep(cell, dict, orig, built, idx, item).Ok?
    ensures var r := IntendedStep(cell, dict, orig, built, idx, item).value;
      |r| == |built| + 1 && r[..|built|] == built &&
      IntendedAt(cell, dict, orig, item, idx, r[|built|]) && StrProp(r[|built|], "id") == Some(FnId(idx + 1))
  {
    CitationItemShape(cell, dict, item.oldId, idx + 1);
    var r := IntendedStep(cell, dict, orig, built, idx, item).value;
    assert r[..|built|] == built;
  }

  /** The corrected list holds one item per array entry, each numbered by its
      position, an existing one being the old item with its own label. */
  lemma {:induction false} IntendedNumbering(cell: Cell, dict: map<string, string>, orig: seq<Node>, items: seq<FnItem>, n: nat)
    requires n <= |items|
    ensures var r := IntendedSteps(cell, dict, orig, items, n);
      r.Ok? ==> (|r.value| == n &&
        forall i :: 0 <= i < n ==> IntendedAt(cell, dict, orig, items[i], i, r.value[i]) &&
                                   StrProp(r.value[i], "id") == Some(FnId(i + 1)))
  {
    if n > 0 {
      var prev := IntendedSteps(cell, dict, orig, items, n - 1);
      if prev.Ok? {
        IntendedNumbering(cell, dict, orig, items, n - 1);
        var r := IntendedStep(cell, dict, orig, prev.value, n - 1, items[n - 1]);
        assert IntendedSteps(cell, dict, orig, items, n) == r;
        if r.Ok? {
          IntendedStepShape(cell, dict, orig, prev.value, n - 1, items[n - 1]);
          NumberedSnoc(cell, dict, orig, items, prev.value, r.value, n);
        }
      }
    }
  }

  lemma NumberedSnoc(cell: Cell, dict: map<string, string>, orig: seq<Node>, items: seq<FnItem>, prev: seq<Node>, r: seq<Node>, n: nat)
    requires 0 < n <= |items| && |prev| == n - 1 && |r| == n && r[..n - 1] == prev
    requires forall i :: 0 <= i < n - 1 ==> IntendedAt(cell, dict, orig, items[i], i, prev[i]) &&
                                            StrProp(prev[i], "id") == Some(FnId(i + 1))
    requires IntendedAt(cell, dict, orig, items[n - 1], n - 1, r[n - 1]) && StrProp(r[n - 1], "id") == Some(FnId(n))
    ensures forall i :: 0 <= i < n ==> IntendedAt(cell, dict, orig, items[i], i, r[i]) &&
                                       StrProp(r[i], "id") == Some(FnId(i + 1))
  {
    forall i | 0 <= i < n
      ensures IntendedAt(cell, dict, orig, items[i], i, r[i]) && StrProp(r[i], "id") == Some(FnId(i + 1))
    {
      if i < n - 1 {
        assert r[i] == r[..n - 1][i];
      }
    }
  }

  /** On the same document the corrected lookup keeps footnote `[^2]`: the
      third entry is that item, numbered 3. */
  lemma SecondFootnoteKept(cell: Cell, dict: map<string, string>)
    ensures var r := IntendedSteps(cell, dict, TwoFootnotes(), CitationThenFootnotes(), 3);
      r.Ok? && |r.value| == 3 && r.value[2] == Relabel(GfmItem("2"), 3).value
  {
    var orig := TwoFootnotes();
    var items := CitationThenFootnotes();
    assert items[0] == FnItem(CitationRef, "1");
    var b1 := [] + [CitationItem(cell, dict, "1", 1)];
    assert IntendedSteps(cell, dict, orig, items, 1) == IntendedStep(cell, dict, orig, [], 0, items[0]) == Ok(b1);
    assert IsItemFor(orig[0], "1");
    assert FindItem(orig, "1") == Some(0);
    var li2 := Relabel(orig[0], 2);
    assert li2.Ok?;
    assert items[1] == FnItem(ExistingRef, "1");
    var b2 := b1 + [li2.value];
    assert IntendedSteps(cell, dict, orig, items, 2) == IntendedStep(cell, dict, orig, b1, 1, items[1]) == Ok(b2);
    assert !IsItemFor(orig[0], "2") by {
      assert ItemId("1")[16] == '1' && ItemId("2")[16] == '2';
    }
    assert IsItemFor(orig[1], "2");
    assert FindItem(orig, "2") == Some(1);
    var li3 := Relabel(orig[1], 3);
    assert li3.Ok?;
    assert items[2] == FnItem(ExistingRef, "2");
    assert IntendedSteps(cell, dict, orig, items, 3) == IntendedStep(cell, dict, orig, b2, 2, items[2]) == Ok(b2 + [li3.value]);
  }
}
