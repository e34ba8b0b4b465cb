// The last phase of the generator: the bibliography block goes in place of
// a paragraph that holds only `[^ref]`, or at the end of the document, and
// with an inline class each citation gets a block of its own entries after
// its siblings.

module GeneratorBiblio {
  import opened Base
  import opened CiteItems
  import opened Hast
  import opened GenCitation
  import opened GenBiblio
  import opened Generator

  /** The two options this phase reads: `suppressBibliography` and
      `inlineBibClass` (an absent class list is the empty one). */
  datatype Placement = Placement(suppress: bool, inlineBibClass: seq<string>)

  // How the entries of the inline blocks are read (`Reading`). The source
  // puts the same entry object in every inline block that cites its key and
  // sets its properties at each use, so every copy shows the last use; the
  // intended reading gives each use its own copy. The source also reads the
  // first child of every `p` and `div`, which fails on an empty one; the
  // intended reading skips it.

  /** What the visit reads: the bibliography block, its entries by key, the
      options, the last citation number that used each key (how the shared
      entry objects end up), and the reading. */
  datatype Ctx = Ctx(biblio: Node, entries: map<string, Node>, opts: Placement,
                     last: map<string, string>, reading: Reading)

  /** What the visit keeps: whether the block was put in place of a
      paragraph, and the last citation number that used each key. */
  datatype Seen = Seen(inserted: bool, uses: map<string, string>)

  /** The phase runs when the engine registered an item and the block is
      either shown or needed for the inline blocks. */
  predicate Runs(registrySize: nat, opts: Placement) {
    registrySize >= 1 && (!opts.suppress || |opts.inlineBibClass| > 0)
  }

  // ---------------------------------------------------------------------
  // The entries by key

  /** `properties.id.toString()`. */
  function IdText(p: Prop): string {
    match p
    case Str(s) => s
    case Names(ns) => Join(ns, ",")
    case Flag(b) => if b then "true" else "false"
  }

  /** The element with its properties replaced. */
  function SetProps(n: Node, props: map<string, Prop>): (r: Node)
    ensures n.Element? ==> r.Element? && r.tagName == n.tagName && r.children == n.children && r.properties == props
    ensures !n.Element? ==> r == n
  {
    if n.Element? then n.(properties := props) else n
  }

  /** The bibliography entries among `cs` by the key their id carries, a later
      entry with the same key replacing an earlier one; an entry whose id is
      not a string cannot be split. */
  function EntryMap(cs: seq<Node>): Result<map<string, Node>, string>
    decreases |cs|
  {
    if cs == [] then Ok(map[])
    else
      var init := EntryMap(cs[..|cs| - 1]);
      var n := cs[|cs| - 1];
      if init.Err? || !IsEntry(n) then init
      else if StrProp(n, "id").None? then Err("TypeError: entry id is not a string")
      else
        var key := KeyOfBibId(StrProp(n, "id").value);
        Ok(init.value[key := SetProps(n, map["id" := Str("inlinebib-" + key)])])
  }

  /** The map of entries, built by one loop over the children. */
  method BuildEntryMap(cs: seq<Node>) returns (r: Result<map<string, Node>, string>)
    ensures r == EntryMap(cs)
  {
    var m: map<string, Node> := map[];
    for i := 0 to |cs|
      invariant EntryMap(cs[..i]) == Ok(m)
    {
      assert cs[..i + 1][..i] == cs[..i];
      var n := cs[i];
      if IsEntry(n) {
        var id := StrProp(n, "id");
        if id.None? {
          assert EntryMap(cs[..i + 1]).Err?;
          assert cs[..|cs|] == cs;
          EntryMapErrSticks(cs, i + 1);
          return Err("TypeError: entry id is not a string");
        }
        var key := KeyOfBibId(id.value);
        m := m[key := SetProps(n, map["id" := Str("inlinebib-" + key)])];
      }
    }
    assert cs[..|cs|] == cs;
    r := Ok(m);
  }

  /** Once the map fails on a prefix it fails on the whole list, with the
      same error. */
  lemma {:induction false} EntryMapErrSticks(cs: seq<Node>, i: nat)
    requires i <= |cs| && EntryMap(cs[..i]).Err?
    ensures EntryMap(cs) == EntryMap(cs[..i])
    decreases |cs| - i
  {
    if i < |cs| {
      assert cs[..i + 1][..i] == cs[..i];
      EntryMapErrSticks(cs, i + 1);
    } else {
      assert cs[..i] == cs;
    }
  }

  /** Every entry with a string id is in the map under the key of its id,
      unless a later entry has the same key. */
  lemma {:induction false} EntryMapHolds(cs: seq<Node>, j: nat)
    requires j < |cs| && EntryMap(cs).Ok? && IsEntry(cs[j]) && StrProp(cs[j], "id").Some?
    ensures KeyOfBibId(StrProp(cs[j], "id").value) in EntryMap(cs).value
    decreases |cs|
  {
    var init := cs[..|cs| - 1];
    if j < |cs| - 1 {
      assert init[j] == cs[j];
      EntryMapHolds(init, j);
    }
  }

  /** Every value of the map is an entry of the list with its properties
      reduced to the id `inlinebib-{key}`. */
  lemma {:induction false} EntryMapValues(cs: seq<Node>, key: string)
    requires EntryMap(cs).Ok? && key in EntryMap(cs).value
    ensures exists j :: (0 <= j < |cs| && IsEntry(cs[j]) &&
                         EntryMap(cs).value[key] == SetProps(cs[j], map["id" := Str("inlinebib-" + key)]))
    decreases |cs|
  {
    var init := cs[..|cs| - 1];
    var n := cs[|cs| - 1];
    if IsEntry(n) && StrProp(n, "id").Some? && KeyOfBibId(StrProp(n, "id").value) == key {
    } else {
      EntryMapValues(init, key);
      var j :| 0 <= j < |init| && IsEntry(init[j]) &&
        EntryMap(init).value[key] == SetProps(init[j], map["id" := Str("inlinebib-" + key)]);
      assert cs[j] == init[j];
    }
  }

  // ---------------------------------------------------------------------
  // The inline blocks

  /** The id of a node, when it starts with `citation-`. */
  function CitationIdOf(n: Node): Option<string> {
    if n.Element? && "id" in n.properties && StartsWith(IdText(n.properties["id"]), "citation-")
    then Some(IdText(n.properties["id"])) else None
  }

  /** `[, ...citekeys] = id.split('--')` and `citationID = citekeys.pop()`:
      the keys between the first and the last piece, and the last piece
      (`undefined` when there is only one). */
  function KeysOf(id: string): (seq<string>, string) {
    var rest := Split(id, "--")[1..];
    if rest == [] then ([], "undefined") else (rest[..|rest| - 1], rest[|rest| - 1])
  }

  /** The number an inline entry of `key` shows in citation `n`. */
  function EntryNumber(ctx: Ctx, key: string, n: string): string {
    if ctx.reading == AsWritten && key in ctx.last then ctx.last[key] else n
  }

  /** The entry of `key` in an inline block; a key without an entry is the
      `TypeError` of setting properties on `undefined`. */
  function InlineEntry(ctx: Ctx, key: string, n: string): (r: Result<Node, string>)
    ensures r.Ok? <==> key in ctx.entries
  {
    if key !in ctx.entries then Err("TypeError: no bibliography entry for " + key)
    else Ok(SetProps(ctx.entries[key],
                     map["class" := Str("inline-entry"), "id" := Str("inline--" + key + "--" + EntryNumber(ctx, key, n))]))
  }

  /** The entries of the keys, in order, or the first failure. */
  function InlineEntries(ctx: Ctx, keys: seq<string>, n: string): (r: Result<seq<Node>, string>)
    ensures r.Ok? <==> forall i :: 0 <= i < |keys| ==> keys[i] in ctx.entries
    ensures r.Ok? ==> |r.value| == |keys|
  {
    if keys == [] then Ok([])
    else
      match InlineEntry(ctx, keys[0], n)
      case Err(e) => Err(e)
      case Ok(first) =>
        match InlineEntries(ctx, keys[1..], n)
        case Err(e) => Err(e)
        case Ok(rest) => Ok([first] + rest)
  }

  /** The inline block of a citation: a `div` with the inline class, the id
      `inlineBib--{keys}--{n}`, and the entries of its keys. */
  function InlineBlock(ctx: Ctx, keys: seq<string>, n: string): Result<Node, string> {
    match InlineEntries(ctx, keys, n)
    case Err(e) => Err(e)
    case Ok(cs) =>
      Ok(Element("div", map["className" := Names(ctx.opts.inlineBibClass),
                            "id" := Str("inlineBib--" + Join(keys, "--") + "--" + n)], cs))
  }

  /** The first rule applies: there is an inline class and the node's id
      starts with `citation-`. */
  predicate InlineApplies(ctx: Ctx, c: Node) {
    |ctx.opts.inlineBibClass| > 0 && CitationIdOf(c).Some?
  }

  /** What the first rule pushes to the parent: the inline block, or nothing. */
  function InlineRule(ctx: Ctx, c: Node): Result<seq<Node>, string> {
    if InlineApplies(ctx, c) then
      var (keys, n) := KeysOf(CitationIdOf(c).value);
      match InlineBlock(ctx, keys, n)
      case Err(e) => Err(e)
      case Ok(b) => Ok([b])
    else Ok([])
  }

  /** Every key of a citation is now used by that citation's number. */
  function Use(uses: map<string, string>, keys: seq<string>, n: string): (r: map<string, string>)
    ensures forall k :: k in keys ==> k in r && r[k] == n
    ensures forall k :: k in uses && k !in keys ==> k in r && r[k] == uses[k]
    ensures r.Keys == uses.Keys + set k | k in keys
  {
    uses + map k | k in keys :: n
  }

  /** The uses after the first rule on `c`. */
  function Noted(ctx: Ctx, c: Node, uses: map<string, string>): map<string, string> {
    if InlineApplies(ctx, c) then
      var (keys, n) := KeysOf(CitationIdOf(c).value);
      Use(uses, keys, n)
    else uses
  }

  // ---------------------------------------------------------------------
  // The `[^ref]` paragraph

  /** A paragraph or `div` whose first child is the text `[^ref]`. */
  predicate RefBlock(c: Node) {
    c.Element? && (c.tagName == "p" || c.tagName == "div") && |c.children| > 0 && c.children[0] == Text("[^ref]")
  }

  /** A paragraph or `div` without children. */
  predicate EmptyBlock(c: Node) {
    c.Element? && (c.tagName == "p" || c.tagName == "div") && c.children == []
  }

  /** The second rule: whether `c` is replaced by the bibliography block. As
      written, reading the first child of an empty block fails. */
  function RefRule(ctx: Ctx, c: Node): (r: Result<bool, string>)
    ensures r == Ok(true) <==> !ctx.opts.suppress && RefBlock(c)
    ensures r.Err? <==> !ctx.opts.suppress && EmptyBlock(c) && ctx.reading == AsWritten
  {
    if ctx.opts.suppress || !c.Element? || !(c.tagName == "p" || c.tagName == "div") then Ok(false)
    else if c.children == [] then
      if ctx.reading == AsWritten then Err("TypeError: cannot read properties of undefined (reading 'value')")
      else Ok(false)
    else Ok(c.children[0] == Text("[^ref]"))
  }

  // ---------------------------------------------------------------------
  // The visit

  /** The children of a parent, visited in order: the children as they end
      up in place, the inline blocks pushed to the parent, and what was seen. */
  function PlaceList(ctx: Ctx, cs: seq<Node>, st: Seen): Result<(seq<Node>, seq<Node>, Seen), string>
    decreases SizeList(cs), 2
  {
    if cs == [] then Ok(([], [], st))
    else
      match PlaceNode(ctx, cs[0], st)
      case Err(e) => Err(e)
      case Ok((n, pushed, st1)) =>
        match PlaceList(ctx, cs[1..], st1)
        case Err(e) => Err(e)
        case Ok((rest, more, st2)) => Ok(([n] + rest, pushed + more, st2))
  }

  /** One node: both rules on an element, then its own children, visited as
      they were before any replacement; the blocks pushed while visiting the
      children of a replaced node go with the node that left the tree. */
  function PlaceNode(ctx: Ctx, c: Node, st: Seen): (r: Result<(Node, seq<Node>, Seen), string>)
    ensures !c.Element? ==> r == Ok((c, [], st))
    ensures r.Ok? && !ctx.opts.suppress && RefBlock(c) ==> r.value.0 == ctx.biblio
    ensures r.Ok? && c.Element? && (ctx.opts.suppress || !RefBlock(c)) ==>
      r.value.0.Element? && r.value.0.tagName == c.tagName && r.value.0.properties == c.properties
    ensures r.Ok? ==> |r.value.1| == (if InlineApplies(ctx, c) then 1 else 0)
    decreases Size(c), 1
  {
    if !c.Element? then Ok((c, [], st))
    else
      match InlineRule(ctx, c)
      case Err(e) => Err(e)
      case Ok(pushed) =>
        match RefRule(ctx, c)
        case Err(e) => Err(e)
        case Ok(replace) =>
          match PlaceList(ctx, c.children, Seen(st.inserted || replace, Noted(ctx, c, st.uses)))
          case Err(e) => Err(e)
          case Ok((kids, more, st')) =>
            Ok((if replace then ctx.biblio else c.(children := kids + more), pushed, st'))
  }

  /** The visit of the root's children, the blocks pushed to the root
      appended after them. */
  function PlaceAll(ctx: Ctx, tree: seq<Node>): Result<(seq<Node>, Seen), string> {
    match PlaceList(ctx, tree, Seen(false, map[]))
    case Err(e) => Err(e)
    case Ok((cs, pushed, st)) => Ok((cs + pushed, st))
  }

  /** The whole phase: the block and its entries, the visit, and, without a
      paragraph to replace, a shown block at the end. */
  function BiblioPhase(tree: seq<Node>, registrySize: nat, opts: Placement, bib: Bibliography, reading: Reading)
    : Result<seq<Node>, string>
  {
    if !Runs(registrySize, opts) then Ok(tree)
    else
      match BiblioNodeOf(bib)
      case Err(e) => Err(e)
      case Ok(b) =>
        match EntryMap(b.children)
        case Err(e) => Err(e)
        case Ok(m) =>
          match Placed(tree, opts, b, m, reading)
          case Err(e) => Err(e)
          case Ok((t, seen)) => Ok(if !opts.suppress && !seen.inserted then t + [b] else t)
  }

  /** The visit with the block `b` and its entries `m`, read twice: once for
      the uses, and once with the entries as those uses leave them. */
  function Placed(tree: seq<Node>, opts: Placement, b: Node, m: map<string, Node>, reading: Reading)
    : Result<(seq<Node>, Seen), string>
  {
    var ctx := Ctx(b, m, opts, map[], reading);
    match PlaceAll(ctx, tree)
    case Err(e) => Err(e)
    case Ok((_, seen)) => PlaceAll(ctx.(last := seen.uses), tree)
  }

  // ---------------------------------------------------------------------
  // The visit as an object with the inserted flag

  class Placer {
    var inserted: bool
    var uses: map<string, string>

    function State(): Seen
      reads this
    {
      Seen(inserted, uses)
    }

    constructor()
      ensures State() == Seen(false, map[])
    {
      inserted := false;
      uses := map[];
    }

    /** The node and the blocks it pushes, with the new state. */
    function NodeOutcome(r: Result<(Node, seq<Node>), string>): Result<(Node, seq<Node>, Seen), string>
      reads this
    {
      if r.Ok? then Ok((r.value.0, r.value.1, State())) else Err(r.error)
    }

    /** The children in place and the blocks pushed, with the new state. */
    function ListOutcome(r: Result<(seq<Node>, seq<Node>), string>): Result<(seq<Node>, seq<Node>, Seen), string>
      reads this
    {
      if r.Ok? then Ok((r.value.0, r.value.1, State())) else Err(r.error)
    }

    /** The children of a parent, in order. */
    method WalkChildren(ctx: Ctx, cs: seq<Node>) returns (r: Result<(seq<Node>, seq<Node>), string>)
      modifies this
      ensures ListOutcome(r) == PlaceList(ctx, cs, old(State()))
      decreases SizeList(cs), 2
    {
      if cs == [] {
        return Ok(([], []));
      }
      var first := Visit(ctx, cs[0]);
      if first.Err? {
        return Err(first.error);
      }
      var rest := WalkChildren(ctx, cs[1..]);
      if rest.Err? {
        return Err(rest.error);
      }
      r := Ok(([first.value.0] + rest.value.0, first.value.1 + rest.value.1));
    }

    /** One node: the inline block first, then the `[^ref]` test, then the
        node's own children. */
    method Visit(ctx: Ctx, c: Node) returns (r: Result<(Node, seq<Node>), string>)
      modifies this
      ensures NodeOutcome(r) == PlaceNode(ctx, c, old(State()))
      decreases Size(c), 1
    {
      if !c.Element? {
        return Ok((c, []));
      }
      var pushed := InlineRule(ctx, c);
      if pushed.Err? {
        return Err(pushed.error);
      }
      var replace := RefRule(ctx, c);
      if replace.Err? {
        return Err(replace.error);
      }
      uses := Noted(ctx, c, uses);
      inserted := inserted || replace.value;
      var kids := WalkChildren(ctx, c.children);
      if kids.Err? {
        return Err(kids.error);
      }
      var n := if replace.value then ctx.biblio else c.(children := kids.value.0 + kids.value.1);
      r := Ok((n, pushed.value));
    }
  }

  /** The phase as the plugin runs it. The first visit stands for the writes
      to the shared entry objects, which the second visit's blocks show. */
  method RunBiblioPhase(tree: seq<Node>, registrySize: nat, opts: Placement, bib: Bibliography, reading: Reading)
    returns (r: Result<seq<Node>, string>)
    ensures r == BiblioPhase(tree, registrySize, opts, bib, reading)
  {
    if !Runs(registrySize, opts) {
      return Ok(tree);
    }
    var b := GenBiblioNode(bib);
    if b.Err? {
      return Err(b.error);
    }
    var m := BuildEntryMap(b.value.children);
    if m.Err? {
      return Err(m.error);
    }
    var ctx := Ctx(b.value, m.value, opts, map[], reading);
    var writes := new Placer();
    var first := writes.WalkChildren(ctx, tree);
    if first.Err? {
      return Err(first.error);
    }
    var placer := new Placer();
    var out := placer.WalkChildren(ctx.(last := writes.uses), tree);
    if out.Err? {
      return Err(out.error);
    }
    var t := out.value.0 + out.value.1;
    r := Ok(if !opts.suppress && !placer.inserted then t + [b.value] else t);
  }
}
