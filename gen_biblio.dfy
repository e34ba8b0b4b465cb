// The bibliography block: the engine's entries inside a `refs` div, each
// entry given the id `bib-{key}` that citation links point to.

module GenBiblio {
  import opened Base
  import opened Hast

  /** What the engine's `makeBibliography` gives: the keys of each entry
      (`entry_ids`) and the nodes that its entries' HTML converts to. */
  datatype Bibliography = Bibliography(entryIds: seq<seq<string>>, body: seq<Node>)

  /** A bibliography entry: an element whose class list holds `csl-entry`. */
  predicate IsEntry(n: Node) { HasClass(n, "csl-entry") }

  /** The number of entries among `children[..j]`. */
  function EntriesBefore(children: seq<Node>, j: nat): (r: nat)
    requires j <= |children|
    ensures r <= j
  {
    if j == 0 then 0 else EntriesBefore(children, j - 1) + (if IsEntry(children[j - 1]) then 1 else 0)
  }

  /** The id of the bibliography entry for a key. */
  function BibId(key: string): string { "bib-" + ToLower(key) }

  /** The children from position `j` with the entries labelled, the first of
      them with `entryIds[k][0]`. There is no first key to read once the
      entries outnumber the keys, or when an entry has no key. */
  function LabelFrom(children: seq<Node>, j: nat, entryIds: seq<seq<string>>, k: nat): Result<seq<Node>, string>
    requires j <= |children|
    decreases |children| - j
  {
    if j == |children| then Ok([])
    else if !IsEntry(children[j]) then
      var rest := LabelFrom(children, j + 1, entryIds, k);
      if rest.Ok? then Ok([children[j]] + rest.value) else rest
    else if k >= |entryIds| || entryIds[k] == [] then Err("TypeError: no key for bibliography entry")
    else
      var rest := LabelFrom(children, j + 1, entryIds, k + 1);
      if rest.Ok? then Ok([WithProp(children[j], "id", Str(BibId(entryIds[k][0])))] + rest.value) else rest
  }

  /** The keys that labelling needs are there: one non-empty list per entry. */
  predicate KeysCover(children: seq<Node>, entryIds: seq<seq<string>>) {
    KeysCoverFrom(children, entryIds, 0)
  }

  /** The entries from the `k`-th on each have a non-empty list of keys. */
  predicate KeysCoverFrom(children: seq<Node>, entryIds: seq<seq<string>>, k: nat) {
    forall x :: k <= x < EntriesBefore(children, |children|) ==> HasKey(entryIds, x)
  }

  /** The `x`-th entry has a non-empty list of keys. */
  predicate HasKey(entryIds: seq<seq<string>>, x: nat) {
    x < |entryIds| && entryIds[x] != []
  }

  lemma EntriesBeforeMono(children: seq<Node>, i: nat, j: nat)
    requires i <= j <= |children|
    ensures EntriesBefore(children, i) <= EntriesBefore(children, j)
    decreases j - i
  {
    if i < j { EntriesBeforeMono(children, i, j - 1); }
  }

  /** Labelling succeeds exactly when the keys cover the entries from the
      current one on. */
  lemma {:induction false} LabelFromOk(children: seq<Node>, j: nat, entryIds: seq<seq<string>>, k: nat)
    requires j <= |children| && k == EntriesBefore(children, j)
    ensures LabelFrom(children, j, entryIds, k).Ok? <==> KeysCoverFrom(children, entryIds, k)
    decreases |children| - j
  {
    if j < |children| {
      EntriesBeforeMono(children, j + 1, |children|);
      if !IsEntry(children[j]) {
        assert EntriesBefore(children, j + 1) == k;
        LabelFromOk(children, j + 1, entryIds, k);
        assert LabelFrom(children, j, entryIds, k).Ok? == LabelFrom(children, j + 1, entryIds, k).Ok?;
      } else {
        assert EntriesBefore(children, j + 1) == k + 1;
        if !HasKey(entryIds, k) {
          assert LabelFrom(children, j, entryIds, k).Err?;
          assert k < EntriesBefore(children, |children|);
        } else {
          LabelFromOk(children, j + 1, entryIds, k + 1);
          assert LabelFrom(children, j, entryIds, k).Ok? == LabelFrom(children, j + 1, entryIds, k + 1).Ok?;
        }
      }
    }
  }

  /** A successful labelling keeps every child in place, leaves the
      non-entries as they are, and gives each entry the id of the first key of
      the entries counted before it. */
  lemma {:induction false} LabelFromShape(children: seq<Node>, j: nat, entryIds: seq<seq<string>>, k: nat)
    requires j <= |children| && k == EntriesBefore(children, j)
    requires LabelFrom(children, j, entryIds, k).Ok?
    ensures |LabelFrom(children, j, entryIds, k).value| == |children| - j
    ensures forall x :: 0 <= x < |LabelFrom(children, j, entryIds, k).value| ==>
      LabelFrom(children, j, entryIds, k).value[x] == Labelled(children, j + x, entryIds)
    decreases |children| - j
  {
    if j < |children| {
      var k' := if IsEntry(children[j]) then k + 1 else k;
      assert EntriesBefore(children, j + 1) == k';
      var tail := LabelFrom(children, j + 1, entryIds, k');
      var first := Labelled(children, j, entryIds);
      LabelFromStep(children, j, entryIds, k);
      LabelFromShape(children, j + 1, entryIds, k');
      var rest := tail.value;
      var r := LabelFrom(children, j, entryIds, k).value;
      assert r == [first] + rest;
      forall x | 0 <= x < |r| ensures r[x] == Labelled(children, j + x, entryIds) {
        if x > 0 {
          assert r[x] == rest[x - 1];
        }
      }
    }
  }

  /** One step of the labelling: the child at `j`, labelled, before the rest. */
  lemma LabelFromStep(children: seq<Node>, j: nat, entryIds: seq<seq<string>>, k: nat)
    requires j < |children| && k == EntriesBefore(children, j)
    requires LabelFrom(children, j, entryIds, k).Ok?
    ensures var k' := if IsEntry(children[j]) then k + 1 else k;
      LabelFrom(children, j + 1, entryIds, k').Ok? &&
      LabelFrom(children, j, entryIds, k).value == [Labelled(children, j, entryIds)] + LabelFrom(children, j + 1, entryIds, k').value
  {
  }

  /** What a child becomes: an entry gets the id of the key of the entries
      counted before it, anything else stays as it is. */
  function Labelled(children: seq<Node>, x: nat, entryIds: seq<seq<string>>): Node
    requires x < |children|
  {
    var n := EntriesBefore(children, x);
    if IsEntry(children[x]) && n < |entryIds| && entryIds[n] != [] then
      WithProp(children[x], "id", Str(BibId(entryIds[n][0])))
    else children[x]
  }

  /** The labelling as a loop over the children with a counter of the entries
      seen so far. */
  method LabelEntries(children: seq<Node>, entryIds: seq<seq<string>>) returns (r: Result<seq<Node>, string>)
    ensures r == LabelFrom(children, 0, entryIds, 0)
  {
    var out: seq<Node> := [];
    var i := 0;
    var whole := LabelFrom(children, 0, entryIds, 0);
    if whole.Ok? { assert out + whole.value == whole.value; }
    for j := 0 to |children|
      invariant (var rest := LabelFrom(children, j, entryIds, i);
                 if rest.Ok? then Ok(out + rest.value) else rest) == LabelFrom(children, 0, entryIds, 0)
    {
      var node := children[j];
      if IsEntry(node) {
        if i >= |entryIds| || entryIds[i] == [] {
          return Err("TypeError: no key for bibliography entry");
        }
        var rest := LabelFrom(children, j + 1, entryIds, i + 1);
        if rest.Ok? {
          assert out + [WithProp(node, "id", Str(BibId(entryIds[i][0])))] + rest.value ==
                 out + ([WithProp(node, "id", Str(BibId(entryIds[i][0])))] + rest.value);
        }
        out := out + [WithProp(node, "id", Str(BibId(entryIds[i][0])))];
        i := i + 1;
      } else {
        var rest := LabelFrom(children, j + 1, entryIds, i);
        if rest.Ok? {
          assert out + [node] + rest.value == out + ([node] + rest.value);
        }
        out := out + [node];
      }
    }
    assert out + [] == out;
    r := Ok(out);
  }

  /** The wrapper `<div id="refs" class="references csl-bib-body">` around
      its children: the line break and the entries. */
  function Wrapper(children: seq<Node>): Node {
    Element("div", map["id" := Str("refs"), "className" := Names(["references", "csl-bib-body"])], children)
  }

  /** The bibliography block with its entries labelled, as a value. */
  function BiblioNodeOf(bib: Bibliography): Result<Node, string> {
    match LabelFrom([Text("\n")] + bib.body, 0, bib.entryIds, 0)
    case Err(e) => Err(e)
    case Ok(cs) => Ok(Wrapper(cs))
  }

  /** `genBiblioNode`: the bibliography block with its entries labelled. */
  method GenBiblioNode(bib: Bibliography) returns (r: Result<Node, string>)
    ensures r == BiblioNodeOf(bib)
    ensures r.Ok? <==> KeysCover([Text("\n")] + bib.body, bib.entryIds)
    ensures r.Ok? ==> r.value.Element? && r.value.tagName == "div" && StrProp(r.value, "id") == Some("refs")
    ensures r.Ok? ==> LabelFrom([Text("\n")] + bib.body, 0, bib.entryIds, 0) == Ok(r.value.children)
  {
    var children := [Text("\n")] + bib.body;
    LabelFromOk(children, 0, bib.entryIds, 0);
    var labelled := LabelEntries(children, bib.entryIds);
    if labelled.Err? {
      return Err(labelled.error);
    }
    var w := Wrapper(labelled.value);
    assert StrProp(w, "id") == Some("refs");
    r := Ok(w);
  }

  // ---------------------------------------------------------------------
  // Reading a key back from an entry id

  /** `id.split('-').slice(1).join('-')`: everything after the first dash. */
  function KeyOfBibId(id: string): string {
    Join(Split(id, "-")[1..], "-")
  }

  /** Reading the key back from a bibliography id gives the lower-cased key. */
  lemma KeyOfBibIdRoundTrip(key: string)
    ensures KeyOfBibId(BibId(key)) == ToLower(key)
  {
    var id := BibId(key);
    var k := ToLower(key);
    assert OccursAt(id, "-", 3) by { assert id[3..4] == "-"; }
    forall i: nat | i < 3 ensures !OccursAt(id, "-", i) {
      assert id[i..i + 1] == ["bib"[i]];
    }
    IndexOfAt(id, "-", 3);
    assert id[4..] == k;
    SplitFirstPiece(id, "-");
    assert Split(id, "-")[1..] == Split(k, "-");
    JoinSplit(k, "-");
  }
}
