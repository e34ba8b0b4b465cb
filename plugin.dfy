// The transformer that the plugin returns: the citation pass, the renumbering
// of footnotes in note mode, and the bibliography phase, in that order.

module CitationPlugin {
  import opened Base
  import opened Hast
  import opened GenCitation
  import opened GenBiblio
  import opened Generator
  import opened GeneratorProps
  import opened GeneratorNotes
  import opened GeneratorBiblio
  import opened GeneratorBiblioProps
  import opened GeneratorBiblioFindings

  /** The note step runs in note mode once some citation was made. */
  predicate NotesRun(env: Env, st: St) {
    env.mode == Note && |st.dict| > 0
  }

  /** The whole transformation of a document's root children. The engine's
      registry size and bibliography are what it answers after the citation
      pass. `AsWritten` is the program; `Intended` keeps an empty `p` or
      `div` instead of failing on it. */
  function Transform(env: Env, tree: seq<Node>, registrySize: nat, opts: Placement, bib: Bibliography, reading: Reading)
    : Result<seq<Node>, string>
    requires FinderOk(env.find)
  {
    match CitationPass(env, tree)
    case Err(e) => Err(e)
    case Ok((t, st)) =>
      var noted := if NotesRun(env, st) then NotesPhase(t, st.dict) else Ok(t);
      match noted
      case Err(e) => Err(e)
      case Ok(t') => BiblioPhase(t', registrySize, opts, bib, reading)
  }

  /** The transformer as the plugin runs it, one phase after the other. */
  method RunTransform(env: Env, tree: seq<Node>, registrySize: nat, opts: Placement, bib: Bibliography, reading: Reading)
    returns (r: Result<seq<Node>, string>)
    requires FinderOk(env.find)
    ensures r == Transform(env, tree, registrySize, opts, bib, reading)
  {
    var cited := RunCitationPass(env, tree);
    if cited.Err? {
      return Err(cited.error);
    }
    var (t, st) := cited.value;
    var noted: Result<seq<Node>, string> := Ok(t);
    if env.mode == Note && |st.dict| > 0 {
      noted := RunNotesPhase(t, st.dict);
    }
    if noted.Err? {
      return Err(noted.error);
    }
    r := RunBiblioPhase(noted.value, registrySize, opts, bib, reading);
  }

  /** A document without a marker to cite, when the engine registered
      nothing, comes out as it went in. */
  lemma QuietDocumentUnchanged(env: Env, tree: seq<Node>, opts: Placement, bib: Bibliography, reading: Reading)
    requires FinderOk(env.find) && QuietList(env, "", tree)
    ensures Transform(env, tree, 0, opts, bib, reading) == Ok(tree)
  {
    QuietListUnchanged(env, "", tree, Initial());
  }

  /** A document without a marker to cite, when the engine registered items
      of its own (the `noCite` keys), keeps its nodes and gets the
      bibliography at the end, unless a `[^ref]` paragraph is there to take
      it. As written, the document must also hold no empty `p` or `div`. */
  lemma QuietDocumentGetsBibliography(env: Env, tree: seq<Node>, registrySize: nat, opts: Placement, bib: Bibliography, reading: Reading)
    requires FinderOk(env.find) && QuietList(env, "", tree)
    requires Runs(registrySize, opts) && |opts.inlineBibClass| == 0
    requires !Somewhere(tree, RefBlock) && (reading == Intended || !Somewhere(tree, EmptyBlock))
    requires BiblioNodeOf(bib).Ok? && EntryMap(BiblioNodeOf(bib).value.children).Ok?
    ensures Transform(env, tree, registrySize, opts, bib, reading) == Ok(tree + [BiblioNodeOf(bib).value])
  {
    QuietTransform(env, tree, registrySize, opts, bib, reading);
    BiblioPhaseAppends(tree, registrySize, opts, bib, reading);
  }

  /** As written, a document without a marker to cite that holds an empty
      `p` or `div` anywhere makes the whole transformation fail once the
      bibliography is shown. */
  lemma QuietDocumentWithEmptyBlockFails(env: Env, tree: seq<Node>, registrySize: nat, opts: Placement, bib: Bibliography)
    requires FinderOk(env.find) && QuietList(env, "", tree)
    requires Runs(registrySize, opts) && !opts.suppress && Somewhere(tree, EmptyBlock)
    requires BiblioNodeOf(bib).Ok? && EntryMap(BiblioNodeOf(bib).value.children).Ok?
    ensures Transform(env, tree, registrySize, opts, bib, AsWritten).Err?
  {
    QuietTransform(env, tree, registrySize, opts, bib, AsWritten);
    EmptyBlockFailsPhase(tree, registrySize, opts, bib);
  }

  /** Without a marker to cite, only the bibliography phase acts. */
  lemma QuietTransform(env: Env, tree: seq<Node>, registrySize: nat, opts: Placement, bib: Bibliography, reading: Reading)
    requires FinderOk(env.find) && QuietList(env, "", tree)
    ensures Transform(env, tree, registrySize, opts, bib, reading) == BiblioPhase(tree, registrySize, opts, bib, reading)
  {
    QuietListUnchanged(env, "", tree, Initial());
  }
}
