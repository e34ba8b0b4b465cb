# rehype-citation, modelled in Dafny

rehype-citation is a rehype plugin. It finds pandoc-style citation markers
(`[see @smith04, p. 3; -@doe99]`, `@smith04 [p. 3]`) in the text nodes of an
HTML syntax tree and replaces them with rendered citations. In note styles it
rewrites them as footnote references and merges them into a renumbered
footnote section. Finally it places a bibliography, either at a `[^ref]`
placeholder or at the end of the document. It carries a trimmed copy of
citation-js, which it uses to load bibliography sources: BibTeX, bibtxt,
CFF and CSL-JSON.

This project models the deterministic core of both halves. Every module is
named after the source file it models.

- **Marker parsing.**
  - `CitationRegex` and `CitationParser` model `src/regex.js` and `src/parse-citation.js`:
    - the locator pattern as an exact longest-prefix scanner
    - the citation patterns as records of captured groups, with shape predicates
    - `parseSuffix` with its label-alias table
  - `LegacyRegex` and `LegacyParseCitation` model the older `regex.js` and `parse-citation.js`. That parser splits on `;` and `@` by hand and throws on malformed segments.
- **Document reconciliation.**
  - `Hast` is the syntax tree: text, elements and opaque engine markup.
  - `Generator`, `GeneratorNotes` and `GeneratorBiblio` model the three phases of `src/generator.js`. Each phase is written as a class whose walk updates its fields (`Visitor`, `Renumberer`, `Placer`), proved against a specification function. `*Props` modules prove the phase properties.
  - `CitationPlugin` chains the phases.
  - `GenCitation`, `GenFootnote`, `GenBiblio` and `Utils` model `src/gen-citation.js`, `src/gen-footnote.js`, `src/gen-biblio.js` and `src/utils.js`.
  - The CSL engine (citeproc) is an oracle. Its cluster rows, registry list and bibliography are parameters.
- **Bibliography sources (citation-js).**
  - `BibtexLexer`, `BibtexFile`, `BibtexRules` and `GrammarUtil` model the BibTeX grammar, its lexer state table and the token cursor.
  - `BibtxtInput`, `BibtexEntries`, `BibtexShared`, `BibtexMapping` and `BiblatexCrossref` model the bibtxt parser, validation, the shared converters and crossref inheritance.
  - `BibtexOutput` and `BibtxtOutput` model the serialisers.
  - `Cff` models the CFF converters. `Csl` models CSL-JSON cleaning. `BibtexData`, `JsValue` and `JsObject` hold the shared data shapes.
- **Plugin registries and utilities (citation-js).**
  - `JsRegister`, `PluginDict`, `PluginOutput`, `PluginConfig`, `PluginIndex`, `TypeParser`, `InputData` and `InputGraph` model the registries.
  - `DeepCopy` models cycle-detecting copying, over an explicit heap of objects.
  - `CiteLog` models the version log. `CslAttr` models attribute injection.

Where the code has a defect that the model exhibits, the model keeps the
code as written. A lemma exhibits the failing input, and a corrected
definition sits beside it with the intended property proved (see "##
Findings"). Some corrected definitions are chosen through a
`Reading = AsWritten | Intended` parameter. The document transformer
`CitationPlugin.Transform` takes the reading too: under `AsWritten` an empty
`p` or `div` makes the bibliography phase fail, as in the code, and under
`Intended` it is kept. The other file models keep the behaviour as written:
- `GenCitation` tooltip escaping
- `GenFootnote` relabelling
- the splitting in `LegacyParseCitation`
- `CitationParser`'s suffix and prefix handling

## Model

| member | source | states |
|---|---|---|
| JsObject.ObjectKeys | src/citation-js/core/util/register.js:26 | `Object.keys`: as many keys as properties, the same keys, each once when the object has each once, array-index keys first in ascending numeric order, the other keys in the order they were added; exactly the order added when no key is an array index |
| JsObject.EnumeratedOrder | src/citation-js/plugin-bibtex/output/bibtex.js:2 | in `Object.entries` order an array-index key comes only after smaller ones, and the other keys keep the order they were added in |
| JsObject.EnumeratedMembers | src/citation-js/plugin-bibtex/output/bibtex.js:2 | every property `Object.entries` lists is one of the object's |
| JsObject.EnumeratedPermutation | src/citation-js/plugin-bibtex/output/bibtex.js:2 | `Object.entries` lists every property of the object, each as often as it occurs: a permutation of the properties |
| JsObject.EnumeratedAll | src/citation-js/core/plugins/dict.js:8-13 | a condition holds of every property `for ... in` visits exactly when it holds of every property of the object |
| JsObject.EnumeratedDistinct | src/citation-js/plugin-bibtex/output/bibtex.js:2 | `Object.entries` lists each key once |
| JsObject.EnumeratedWithoutIndexKeys | src/citation-js/core/plugins/dict.js:8 | without array-index keys, `for ... in` visits the properties in the order they were added |
| JsObject.SortIndexed | src/citation-js/core/util/register.js:26 | the array-index properties put in ascending order: a permutation of them |
| JsObject.DistinctPermutation | src/citation-js/core/util/register.js:26 | reordering the properties keeps each key once |
| JsRegister.Register.constructor | src/citation-js/core/util/register.js:2-4 | the register keeps the object it is given |
| JsRegister.Register.Set | src/citation-js/core/util/register.js:5-8 | `get(key)` is the new value, every other key keeps its value, and the register itself is returned |
| JsRegister.Register.Add | src/citation-js/core/util/register.js:9-11 | `add` changes the data exactly as `set` does and returns the register |
| JsRegister.Register.Delete | src/citation-js/core/util/register.js:12-15 | the key is no longer an own property, every other key keeps its value, the register is returned |
| JsRegister.Register.Remove | src/citation-js/core/util/register.js:16-18 | `remove` changes the data exactly as `delete` does and returns the register |
| JsRegister.Register.Get | src/citation-js/core/util/register.js:19-21 | the value is defined iff the key is present, and it is the value stored under that key |
| JsRegister.Register.Has | src/citation-js/core/util/register.js:22-24 | true iff the key is an own property of the data |
| JsRegister.Register.List | src/citation-js/core/util/register.js:25-27 | `Object.keys(this.data)` (`ObjectKeys`): the same keys, the array-index keys first in ascending numeric order, then the others in the order they were added |
| PluginConfig.Configs.constructor | src/citation-js/core/plugins/config.js:1 | the `configs` dictionary starts empty |
| PluginConfig.Configs.Add | src/citation-js/core/plugins/config.js:2-4 | afterwards `get(ref)` is the configuration and every other reference keeps its configuration |
| PluginConfig.Configs.Get | src/citation-js/core/plugins/config.js:5 | defined iff the reference is stored, and then it is the stored configuration |
| PluginConfig.Configs.Has | src/citation-js/core/plugins/config.js:6 | true iff the reference is stored |
| PluginConfig.Configs.Remove | src/citation-js/core/plugins/config.js:7-9 | afterwards the reference is absent and the other references are unchanged |
| PluginConfig.Configs.List | src/citation-js/core/plugins/config.js:10 | `Object.keys(configs)` (`ObjectKeys`): the stored references, the same keys, the array-index keys first in ascending numeric order, then the others in the order they were added |
| PluginConfig.AddTwiceOverwrites | src/citation-js/core/plugins/config.js:2-4 | a second `add` for the same reference overwrites the first: the result equals a single `add` of the second value |
| PluginOutput.ValidationAccepts | src/citation-js/core/plugins/output.js:3-9 | `validate` throws no `TypeError` iff the name is a string and the formatter a function |
| PluginOutput.Add | src/citation-js/core/plugins/output.js:12-15 | an invalid name or formatter throws and leaves the register unchanged; otherwise the formatter is stored under the name |
| PluginOutput.Remove | src/citation-js/core/plugins/output.js:16-18 | afterwards `has(name)` is false |
| PluginOutput.Has | src/citation-js/core/plugins/output.js:19-21 | true iff the name is registered |
| PluginOutput.List | src/citation-js/core/plugins/output.js:22-24 | the registered names as `Object.keys` lists them (`ObjectKeys`) |
| PluginOutput.Format | src/citation-js/core/plugins/output.js:25-31 | an unregistered name throws `Output format "name" unavailable`; otherwise the registered formatter applied to the data and options |
| PluginDict.FirstBadEntry | src/citation-js/core/plugins/dict.js:8-13 | of the entries as listed, none is reported iff every one is an array of strings; a reported name belongs to one that is not; `Validation` lists them in `for ... in` order (`Enumerated`) |
| PluginDict.ValidationAccepts | src/citation-js/core/plugins/dict.js:2-14 | `validate` throws no `TypeError` iff the name is a string, the dict an object and every entry an array of strings |
| PluginDict.IndexEntryReportedFirst | src/citation-js/core/plugins/dict.js:8-11 | `for ... in` visits array-index keys first: of the two bad entries of `{a: null, 1: null}` the one reported is `1` |
| PluginDict.FindBadEntry | src/citation-js/core/plugins/dict.js:8-13 | the loop stops at the first listed entry that is not an array of strings, and finds none iff there is none |
| PluginDict.Validate | src/citation-js/core/plugins/dict.js:2-14 | the type checks, then the loop over the entries in `for ... in` order, throw exactly what the declarative validation says |
| PluginDict.PairsValid | src/citation-js/core/plugins/dict.js:15-28 | a dictionary made of start/end string pairs passes `validate` under any string name |
| PluginDict.DefaultsValid | src/citation-js/core/plugins/dict.js:15-28 | the default register holds exactly `html` and `text`, each a valid dictionary |
| PluginDict.DefaultRegister | src/citation-js/core/plugins/dict.js:15-28 | the module's register starts with the `html` and `text` dictionaries of bibliographyContainer, entry, list and listItem pairs |
| PluginDict.Add | src/citation-js/core/plugins/dict.js:29-32 | an invalid name or dict throws `TypeError` and changes nothing; otherwise the dict is stored under the name |
| PluginDict.Remove | src/citation-js/core/plugins/dict.js:33-35 | afterwards `has(name)` is false |
| PluginDict.Has | src/citation-js/core/plugins/dict.js:36-38 | true iff the name is registered |
| PluginDict.List | src/citation-js/core/plugins/dict.js:39-41 | the registered names as `Object.keys` lists them (`ObjectKeys`) |
| PluginDict.Get | src/citation-js/core/plugins/dict.js:42-47 | an unregistered name throws `Dict "name" unavailable`; otherwise the stored dict |
| PluginDict.AddThenGet | src/citation-js/core/plugins/dict.js:29-47 | after a valid `add`, `has(name)` holds and `get(name)` returns the dict |
| PluginIndex.Plugins.constructor | src/citation-js/core/plugins/index.js:6-12 | the four registers are the input, output, dict and config stores, and `indices` starts empty |
| PluginIndex.Plugins.Register | src/citation-js/core/plugins/index.js:28 | `registers[type].add(name, plugin)`: the register of that kind gains the plugin, or the kind's validation error is thrown and nothing changes |
| PluginIndex.Plugins.Unregister | src/citation-js/core/plugins/index.js:37 | `registers[type].remove(name)` on the register of that kind; an unknown kind is a `TypeError` |
| PluginIndex.Plugins.AddKindOf | src/citation-js/core/plugins/index.js:16-29 | one plugin type: a `config` is stored under the reference in the index and the config register; any other type gets a fresh name index and its plugins registered in order, stopping at the first error |
| PluginIndex.Plugins.AddNamesOf | src/citation-js/core/plugins/index.js:23-29 | the inner loop marks every name `true` in the type index and registers it, stopping at the first error |
| PluginIndex.Plugins.Add | src/citation-js/core/plugins/index.js:13-31 | `indices[ref]` is replaced by the new index built over the plugin types, and the registers change as the nested loops say |
| PluginIndex.Plugins.UnregisterAll | src/citation-js/core/plugins/index.js:36-38 | every recorded name of one type is removed from its register |
| PluginIndex.Plugins.Remove | src/citation-js/core/plugins/index.js:32-41 | every recorded name is unregistered, then `indices[ref]` is deleted |
| PluginIndex.Plugins.Has | src/citation-js/core/plugins/index.js:42-44 | true iff the reference has an index |
| PluginIndex.Plugins.List | src/citation-js/core/plugins/index.js:45-47 | `Object.keys(indices)` (`ObjectKeys`): the references with an index, the same keys, the array-index keys first in ascending numeric order, then the others in the order they were added |
| PluginIndexProps.RegisterOneFrame | src/citation-js/core/plugins/index.js:28 | a successful registration stores the plugin under its name and changes no other name and no other register |
| PluginIndexProps.RemoveOneFrame | src/citation-js/core/plugins/index.js:37 | a removal deletes exactly that name from that register and touches no other register |
| PluginIndexProps.AddNamesFrame | src/citation-js/core/plugins/index.js:23-29 | adding the names of one type leaves the registers and index entries of other types alone |
| PluginIndexProps.AddNamesKeeps | src/citation-js/core/plugins/index.js:25-29 | names not in the plugin object keep their register entry and index flag |
| PluginIndexProps.AddNamesRegisters | src/citation-js/core/plugins/index.js:25-29 | after the inner loop, every plugin name is registered with its plugin and flagged `true` in the type index |
| PluginIndexProps.AddKindsFrame | src/citation-js/core/plugins/index.js:15-30 | types not in the plugins object keep their register and index entry |
| PluginIndexProps.KindAddedKept | src/citation-js/core/plugins/index.js:15-30 | what one type recorded stays recorded while later types, which touch other registers, are added |
| PluginIndexProps.AddKindAdds | src/citation-js/core/plugins/index.js:16-29 | one type is recorded: a config under `ref` itself, any other type name by name |
| PluginIndexProps.AddKindsAdds | src/citation-js/core/plugins/index.js:13-31 | after `add(ref, p)`, every type of `p` is recorded (config under `ref`, other plugins by name) and registered |
| PluginIndexProps.RemoveOneClears | src/citation-js/core/plugins/index.js:37 | after one removal the name is gone and nothing absent before reappears |
| PluginIndexProps.RemoveNamesClears | src/citation-js/core/plugins/index.js:36-38 | after the inner removal loop none of the recorded names is registered |
| PluginIndexProps.RemoveKindsClears | src/citation-js/core/plugins/index.js:32-39 | after `remove(ref)`'s loops no name recorded in the index is registered in its register |
| PluginIndexProps.RemoveNamesOk | src/citation-js/core/plugins/index.js:36-38 | removing names from a known register never throws |
| PluginIndexProps.RemoveKindsOk | src/citation-js/core/plugins/index.js:32-39 | removing an index whose types are all known registers never throws |
| PluginIndexProps.AddNamesSound | src/citation-js/core/plugins/index.js:23-29 | the index only records names under known register types |
| PluginIndexProps.SetSound | src/citation-js/core/plugins/index.js:17-23 | setting a type index keeps the index sound when the type is a known register or the index is empty |
| PluginIndexProps.AddKindsSound | src/citation-js/core/plugins/index.js:13-31 | an index built by a successful `add` is sound, so a later `remove` cannot fail |
| PluginIndexProps.AddNamesValid | src/citation-js/core/plugins/index.js:23-29 | registration keeps every register free of duplicate keys |
| PluginIndexProps.AddKindsValid | src/citation-js/core/plugins/index.js:13-31 | the whole `add` keeps every register free of duplicate keys |
| PluginIndexProps.IndexedName | src/citation-js/core/plugins/index.js:34-36 | a name flagged in a type index is one that `remove` iterates over |
| PluginIndexProps.AddThenRemoveClears | src/citation-js/core/plugins/index.js:13-41 | `remove(ref)` right after a successful `add(ref, p)` succeeds and leaves none of `p`'s plugins (nor its config) registered |
| CiteLog.Revived | src/citation-js/core/Cite/log.js:9 | `JSON.parse(JSON.stringify(v))`: no text for `undefined` and functions; the result is always JSON-plain |
| CiteLog.RevivedItems | src/citation-js/core/Cite/log.js:21 | an array keeps its length; elements without JSON text become `null` |
| CiteLog.RevivedProps | src/citation-js/core/Cite/log.js:21 | object properties without JSON text are dropped, the rest keep their order |
| CiteLog.PlainRevived | src/citation-js/core/Cite/log.js:9 | a value JSON can hold survives the stringify/parse round trip unchanged |
| CiteLog.PlainRevivedProps | src/citation-js/core/Cite/log.js:9 | the properties of a JSON-plain object survive the round trip unchanged |
| CiteLog.RevivedTwice | src/citation-js/core/Cite/log.js:9 | the round trip is idempotent |
| CiteLog.PlainSnapshotRestores | src/citation-js/core/Cite/log.js:9-21 | JSON-plain data and options are saved as themselves and parse back without error |
| CiteLog.Version | src/citation-js/core/Cite/log.js:4-13 | a version exists iff 1 ≤ n ≤ the number of snapshots; it is snapshot n and its log is the first n snapshots |
| CiteLog.Cite.constructor | src/citation-js/core/Cite/log.js:9 | a new instance holds the given data and options and an empty log |
| CiteLog.Cite.CurrentVersion | src/citation-js/core/Cite/log.js:1-3 | the number of saved snapshots |
| CiteLog.Cite.Save | src/citation-js/core/Cite/log.js:20-23 | exactly one snapshot is appended, holding what the JSON texts of the current data and options parse back to; the instance itself is returned |
| CiteLog.Cite.RetrieveVersion | src/citation-js/core/Cite/log.js:4-13 | `versnum` defaults to 1; `null` outside 1..currentVersion; a `SyntaxError` iff a text of that snapshot is `undefined`; otherwise a new instance with the snapshot's parsed data and options and the first n snapshots as its log, the original log untouched |
| CiteLog.Cite.Undo | src/citation-js/core/Cite/log.js:14-16 | `number` defaults to 1; `undo(k)` is `retrieveVersion(currentVersion - k)`: null outside the versions, an error iff that snapshot has an `undefined` text, otherwise a new instance with that snapshot's data and options and the log up to it |
| CiteLog.Cite.RetrieveLastVersion | src/citation-js/core/Cite/log.js:17-19 | `retrieveVersion(currentVersion)`: null on an empty log, an error iff the last snapshot has an `undefined` text, otherwise a new instance with the last snapshot's data and options and the whole log |
| CiteLog.VersionOfImage | src/citation-js/core/Cite/log.js:8-11 | a retrieved image has version n, and its own versions up to n are those of the original |
| CiteLog.SaveThenLast | src/citation-js/core/Cite/log.js:17-23 | after `save`, the last version is the snapshot just saved |
| CiteLog.SaveThenUndo | src/citation-js/core/Cite/log.js:14-23 | after `save`, `undo(1)` is the version before the save |
| CiteLog.UndoBounds | src/citation-js/core/Cite/log.js:4-16 | `undo(0)` is the last version (null on an empty log) and undoing every version gives null |
| CslAttr.TagNameEnd | src/citation-js/plugin-csl/attr.js:13 | `/^\s*<[a-z]+/i` matches iff the string starts with optional whitespace, `<` and a letter; the match ends after the longest letter run |
| CslAttr.LetterRunEnd | src/citation-js/plugin-csl/attr.js:13 | the end of the greedy `[a-z]+` run, case-insensitive |
| CslAttr.AttributedEntryLiteral | src/citation-js/plugin-csl/attr.js:12-13 | the intended result: unchanged without a leading tag; otherwise ` data-{name}="{value}"` inserted right after the first tag name and nothing else changed |
| CslAttr.ExpandPlainPrefix | src/citation-js/plugin-csl/attr.js:13 | a replacement-pattern prefix without `$` is copied verbatim |
| CslAttr.ExpandPlain | src/citation-js/plugin-csl/attr.js:13 | a replacement string without `$` expands to itself |
| CslAttr.ExpandMatch | src/citation-js/plugin-csl/attr.js:13 | `$&` in the replacement expands to the matched text |
| CslAttr.AttributeNoDollar | src/citation-js/plugin-csl/attr.js:13 | the attribute text has no `$` when neither the name nor the value has one |
| CslAttr.PlainAttributeInserted | src/citation-js/plugin-csl/attr.js:12-13 | for names and values without `$`, `string.replace` gives exactly the intended insertion |
| CslAttr.DollarAmpCopiesTag | src/citation-js/plugin-csl/attr.js:12-13 | a `$&` inside the value is replaced by the matched tag text |
| CslAttr.PrefixedDollarId | src/citation-js/plugin-csl/attr.js:25 | `getPrefixedEntry("<div>", "a$&b")` writes `csl-entry-id="a<divb"` where `"a$&b"` is meant |
| CslAttr.LiteralRoundTrip | src/citation-js/plugin-csl/attr.js:12-13 | removing the inserted attribute gives back the original string: only the first tag is affected |
| InputGraph.Graph.constructor | src/citation-js/core/plugins/input/graph.js:1 | a graph array holds the given steps |
| InputGraph.Entry.constructor | src/citation-js/core/plugins/input/graph.js:2 | a new entry has no `_graph` |
| InputGraph.ElseIndex | src/citation-js/core/plugins/input/graph.js:3 | `findIndex`: the first step of type `@else/list+object`, or -1 iff there is none |
| InputGraph.ApplyGraph | src/citation-js/core/plugins/input/graph.js:1-10 | `entry._graph` is the given graph, whose array is spliced in place, and the same entry is returned |
| InputGraph.RemoveGraph | src/citation-js/core/plugins/input/graph.js:11-14 | `_graph` is deleted and the same entry is returned |
| InputGraph.SplicedUnchanged | src/citation-js/core/plugins/input/graph.js:2-7 | without a previous graph or an `@else/list+object` step the array is unchanged |
| InputGraph.SplicedLayout | src/citation-js/core/plugins/input/graph.js:3-6 | the old graph minus its last step is inserted right after index k; the steps before and after are kept in order |
| InputGraph.SplicedUndo | src/citation-js/core/plugins/input/graph.js:3-6 | removing the inserted steps gives the original graph back |
| InputGraph.SingleStepInsertsNothing | src/citation-js/core/plugins/input/graph.js:6 | a previous graph of one step inserts nothing (`slice(0, -1)` is empty) |
| InputData.Flatten | src/citation-js/core/plugins/input/data.js:3 | `[].concat(...array)` leaves a list without nested arrays unchanged |
| InputData.MapChain | src/citation-js/core/plugins/input/data.js:10 | `input.map(chain)`: one result per item, in order, or the first item's error |
| InputData.DataParsers.constructor | src/citation-js/core/plugins/input/data.js:5-6 | both parser tables start empty |
| InputData.DataParsers.AddDataParser | src/citation-js/core/plugins/input/data.js:38-44 | the parser goes into the async table when its flag is set and into the sync table otherwise; the other table is unchanged |
| InputData.DataParsers.RemoveDataParser | src/citation-js/core/plugins/input/data.js:47-49 | the type is deleted from the chosen table only |
| InputData.DataParsers.HasDataParser | src/citation-js/core/plugins/input/data.js:45-46 | a registered or native parser of the chosen kind exists |
| InputData.DataParsers.ListDataParser | src/citation-js/core/plugins/input/data.js:50 | `Object.keys` of the chosen table (`ObjectKeys`): its names, the same keys, the array-index keys first in ascending numeric order, then the others in the order they were added |
| InputData.DataParsers.ParseData | src/citation-js/core/plugins/input/data.js:18-26 | the result of `data(input, type)` by the dispatch rule |
| InputData.DataParsers.ParseDataAsync | src/citation-js/core/plugins/input/data.js:27-37 | the result of `dataAsync(input, type)` by the dispatch rule |
| InputData.RegisteredFirst | src/citation-js/core/plugins/input/data.js:19-20 | a registered sync parser is used before any native one |
| InputData.NativeParsers | src/citation-js/core/plugins/input/data.js:7-14 | `@csl/object` wraps the input in a one-element list, `@csl/list+object` is the identity, `@invalid` throws |
| InputData.ElseListFlattens | src/citation-js/core/plugins/input/data.js:10 | `@else/list+object` chains every element and flattens the results |
| InputData.MapChainOk | src/citation-js/core/plugins/input/data.js:10 | when every element chains, the mapped list is the list of results |
| InputData.FlattenAppend | src/citation-js/core/plugins/input/data.js:3 | flattening distributes over concatenation |
| InputData.DataDispatch | src/citation-js/core/plugins/input/data.js:18-26 | registered parser, else native parser, else `TypeError: No synchronous parser found` |
| InputData.AsyncFallsBack | src/citation-js/core/plugins/input/data.js:32-33 | with no async parser of either kind but a sync one, `dataAsync` is `data` |
| InputData.RemoveSyncKeepsAsync | src/citation-js/core/plugins/input/data.js:45-49 | removing a sync parser leaves it available only if it is native, and does not affect async lookups |
| InputData.NativesNotListed | src/citation-js/core/plugins/input/data.js:45-50 | a native type is available although `listDataParser` lists nothing |
| InputData.AddThenHas | src/citation-js/core/plugins/input/data.js:38-46 | after adding, `hasDataParser` holds for that kind, and the other kind's lookups are unchanged |
| TypeParser.ListOf | src/citation-js/core/plugins/input/type.js:63 | `table[key] \|\| []`: the stored list, or empty when the key is absent |
| TypeParser.Position | src/citation-js/core/plugins/input/type.js:79 | `indexOf`: the first position holding the type, or -1 iff it is absent |
| TypeParser.RemoveFirst | src/citation-js/core/plugins/input/type.js:79-82 | `splice(index, 1)` removes one occurrence when there is one and changes nothing otherwise |
| TypeParser.RemoveFromLists | src/citation-js/core/plugins/input/type.js:73-83 | every data-type list loses its first occurrence of the type; the keys stay |
| TypeParser.RemoveFromExtensions | src/citation-js/core/plugins/input/type.js:74-83 | every extension list loses its first occurrence of the type |
| TypeParser.TypeParsers.constructor | src/citation-js/core/plugins/input/type.js:3-5 | `types`, `dataTypes` and `unregExts` start empty |
| TypeParser.TypeParsers.AddTypeParser | src/citation-js/core/plugins/input/type.js:36-66 | the three tables become the declarative `Added` state (queued children adopted, then filed under the data type, the parent, or the parent's queue) |
| TypeParser.TypeParsers.HasTypeParser | src/citation-js/core/plugins/input/type.js:67-69 | true iff the format is registered |
| TypeParser.TypeParsers.ListTypeParser | src/citation-js/core/plugins/input/type.js:85-87 | `Object.keys(types)` (`ObjectKeys`): the registered formats, the same keys, the array-index keys first in ascending numeric order, then the others in the order they were added |
| TypeParser.TypeParsers.RemoveTypeParser | src/citation-js/core/plugins/input/type.js:70-84 | the tables become the declarative `Removed` state: the type deleted, and one occurrence spliced out of every list |
| TypeParser.TypeParsers.MatchType | src/citation-js/core/plugins/input/type.js:21-27 | the loop returns what the recursive `Match` specification gives |
| TypeParser.TypeParsers.Type | src/citation-js/core/plugins/input/type.js:28-35 | `type(input)` returns what the `TypeOfInput` specification gives |
| TypeParser.RemoveEach | src/citation-js/core/plugins/input/type.js:78-83 | the `forEach` over the data-type lists splices as `RemoveFromLists` says |
| TypeParser.RemoveEachExtension | src/citation-js/core/plugins/input/type.js:78-83 | the `forEach` over the extension lists splices as `RemoveFromExtensions` says |
| TypeParserProps.HasAfterSet | src/citation-js/core/plugins/input/type.js:50 | after `types[format] = object`, exactly the old formats and the new one are registered |
| TypeParserProps.SameKeysSameIndex | src/citation-js/core/plugins/input/type.js:74-75 | mapping the values of an object keeps every key at its position |
| TypeParserProps.AddedRegisters | src/citation-js/core/plugins/input/type.js:46-50 | after `addTypeParser` the format is registered with its predicate and no other format's predicate changes |
| TypeParserProps.AddedTopLevel | src/citation-js/core/plugins/input/type.js:37-65 | without `extends` the format is appended to its data type's list, other lists are unchanged, and its queued children become its extensions and leave the queue |
| TypeParserProps.AddedUnderParent | src/citation-js/core/plugins/input/type.js:51-54 | with a registered parent the format is appended to the parent's extensions and no data-type list changes |
| TypeParserProps.AddedWaiting | src/citation-js/core/plugins/input/type.js:55-61 | with an unregistered parent the format is queued under the parent, and the parent stays unregistered |
| TypeParserProps.MatchFirst | src/citation-js/core/plugins/input/type.js:21-27 | a match is at the first format in list order whose predicate holds; no match means no predicate in the list holds |
| TypeParserProps.MatchFuelMonotone | src/citation-js/core/plugins/input/type.js:21-27 | a recursion bound that suffices gives the same result as any larger one |
| TypeParserProps.RankedMatchReturns | src/citation-js/core/plugins/input/type.js:21-27 | on an acyclic extension tree `matchType` terminates (no stack overflow) |
| TypeParserProps.ClosedMatchNoMissing | src/citation-js/core/plugins/input/type.js:21-27 | when every listed format is registered, `types[type].predicate` never reads `undefined` |
| TypeParserProps.AllRegisteredGrow | src/citation-js/core/plugins/input/type.js:50-64 | registering more formats keeps lists registered |
| TypeParserProps.AddedClosed | src/citation-js/core/plugins/input/type.js:36-66 | `addTypeParser` keeps every listed format registered |
| TypeParserProps.AddedClosedTop | src/citation-js/core/plugins/input/type.js:62-65 | the top-level branch keeps every listed format registered |
| TypeParserProps.AddedClosedChild | src/citation-js/core/plugins/input/type.js:51-61 | the `extends` branch keeps every listed format registered |
| TypeParserProps.RemovedUnregisters | src/citation-js/core/plugins/input/type.js:70-71 | after `removeTypeParser(t)`, `hasTypeParser(t)` is false and every other format keeps its registration |
| TypeParserProps.RemoveFirstOne | src/citation-js/core/plugins/input/type.js:79-82 | `splice(indexOf(t), 1)` removes exactly one `t` and keeps the rest |
| TypeParserProps.RemoveFirstClears | src/citation-js/core/plugins/input/type.js:79-82 | a list that held `t` at most once no longer holds it |
| TypeParserProps.EmptyArrayIsCslList | src/citation-js/core/plugins/input/type.js:30-32 | an empty array has type `@csl/list+object` whatever is registered |
| TypeParserProps.NativeFallback | src/citation-js/core/plugins/input/type.js:14-34 | with no match, objects get `@csl/object` and other non-arrays `@invalid` |
| TypeParserProps.ArrayEntries | src/citation-js/core/plugins/input/type.js:8-13 | an unmatched array is `@csl/list+object` iff every element has type `@csl/object` |
| TypeParserFindings.Without | src/citation-js/core/plugins/input/type.js:78-83 | the intended removal: no occurrence of the type is left and every other element stays |
| TypeParserFindings.WithoutInLists | src/citation-js/core/plugins/input/type.js:73-83 | the intended removal applied to every data-type list |
| TypeParserFindings.WithoutInExtensions | src/citation-js/core/plugins/input/type.js:74-83 | the intended removal applied to every extension list |
| TypeParserFindings.GetMappedLists | src/citation-js/core/plugins/input/type.js:73 | reading a data-type list after the intended removal is removing from the list read |
| TypeParserFindings.GetMappedExtensions | src/citation-js/core/plugins/input/type.js:74-75 | reading an extension list after the intended removal is removing from the list read |
| TypeParserFindings.RemovedAllClears | src/citation-js/core/plugins/input/type.js:70-84 | corrected: the removed type is unregistered and appears in no data-type list, queue or extension list |
| TypeParserFindings.RemovedAllClosed | src/citation-js/core/plugins/input/type.js:70-84 | corrected: removal keeps every listed format registered |
| TypeParserFindings.SetEmpty | src/citation-js/core/plugins/input/type.js:50-63 | a property set on an empty object is its only property |
| TypeParserFindings.SetOne | src/citation-js/core/plugins/input/type.js:50-71 | setting the one property replaces it; deleting it empties the object |
| TypeParserFindings.GetOneOther | src/citation-js/core/plugins/input/type.js:52 | a one-property object has no other key |
| TypeParserFindings.TwiceAddedTables | src/citation-js/core/plugins/input/type.js:36-66 | adding the same top-level format twice lists it twice under its data type |
| TypeParserFindings.TwiceAddedRemovedThrows | src/citation-js/core/plugins/input/type.js:21-84 | as written: removing it splices only one occurrence, so `type` of a string then throws reading `predicate` of `undefined` |
| TypeParserFindings.TwiceAddedRemovedAll | src/citation-js/core/plugins/input/type.js:28-84 | corrected: removing every occurrence lets `type` fall back to `@invalid` |
| TypeParserFindings.WaitingTables | src/citation-js/core/plugins/input/type.js:55-61 | a child added before its parent is registered and queued under the parent |
| TypeParserFindings.RemovedWaitingChildThrows | src/citation-js/core/plugins/input/type.js:38-84 | as written: a queued child removed before its parent stays queued, is adopted by the parent, and `type` then throws |
| TypeParserFindings.RemovedAllWaitingChild | src/citation-js/core/plugins/input/type.js:38-84 | corrected: removing the child from the queues too lets `type` return the parent |
| DeepCopy.EnterShrinks | src/citation-js/core/util/deepCopy.js:9-12 | adding an unseen value to `seen` shrinks the set of values still enterable, so the recursion terminates |
| DeepCopy.Copied | src/citation-js/core/util/deepCopy.js:1-25 | the only error is the circular-structure `TypeError`; an array copies to an array of the same length, a plain object to an object with the same keys in order |
| DeepCopy.CopiedItems | src/citation-js/core/util/deepCopy.js:15 | `value.map(deepCopy)`: one copy per element, or the circular error |
| DeepCopy.CopiedProps | src/citation-js/core/util/deepCopy.js:17-21 | the `for…in` loop copies every key in order, or fails with the circular error |
| DeepCopy.SeenSet.constructor | src/citation-js/core/util/deepCopy.js:1 | `new Set()` is empty |
| DeepCopy.AfterSteps | src/citation-js/core/util/deepCopy.js:15-20 | accumulating copied items one at a time gives the same list as the whole map |
| DeepCopy.DeepCopyOf | src/citation-js/core/util/deepCopy.js:1-25 | the recursive method returns the `Copied` specification, and on success `seen` is as it was on entry (the value is deleted after copying) |
| DeepCopy.CopyItems | src/citation-js/core/util/deepCopy.js:15 | the element loop returns `CopiedItems` and restores `seen` |
| DeepCopy.CopyProps | src/citation-js/core/util/deepCopy.js:17-21 | the key loop returns `CopiedProps` and restores `seen` |
| DeepCopy.DeepCopyValue | src/citation-js/core/util/deepCopy.js:1 | `deepCopy(value)` with a fresh empty `seen` |
| DeepCopyProps.UnfoldItems | src/citation-js/core/util/deepCopy.js:14-15 | the structural unfolding of an array has one element per element |
| DeepCopyProps.UnfoldProps | src/citation-js/core/util/deepCopy.js:17-20 | the structural unfolding of an object has one entry per key |
| DeepCopyProps.CopyIsUnfold | src/citation-js/core/util/deepCopy.js:1-25 | on an acyclic heap the copy succeeds and equals the structural unfolding of the value |
| DeepCopyProps.CopyItemsIsUnfold | src/citation-js/core/util/deepCopy.js:15 | on an acyclic heap every element copies to its unfolding |
| DeepCopyProps.CopyPropsIsUnfold | src/citation-js/core/util/deepCopy.js:17-20 | on an acyclic heap every key's value copies to its unfolding |
| DeepCopyProps.AcyclicCopied | src/citation-js/core/util/deepCopy.js:1-25 | the result is structurally equal to the input whenever the input is acyclic |
| DeepCopyProps.SharedChildCopiedTwice | src/citation-js/core/util/deepCopy.js:12-23 | a child shared by two slots of an array is copied twice without a circular error |
| DeepCopyProps.NotPlainKept | src/citation-js/core/util/deepCopy.js:2-8 | primitives and objects that are not plain Object/Array are returned as they are |
| DeepCopyProps.ItemsThrow | src/citation-js/core/util/deepCopy.js:15 | one element that throws makes the array copy throw |
| DeepCopyProps.PropsThrow | src/citation-js/core/util/deepCopy.js:18-20 | one property that throws makes the object copy throw |
| DeepCopyProps.PathToSeenThrows | src/citation-js/core/util/deepCopy.js:9-11 | a path of child links reaching a value in `seen` throws the circular `TypeError` |
| DeepCopyProps.CycleThrows | src/citation-js/core/util/deepCopy.js:9-11 | a value on a cycle of child links throws the circular `TypeError` |
| BibtexLexer.RunFrom | src/citation-js/plugin-bibtex/input/file.js:60-111 | the longest run of accepted characters from a position: every character in it is accepted and the next one is not |
| BibtexLexer.QuotedRun | src/citation-js/plugin-bibtex/input/file.js:151 | the quoted-text run stays inside the input |
| BibtexLexer.BracedRun | src/citation-js/plugin-bibtex/input/file.js:165 | the braced-text run stays inside the input |
| BibtexLexer.JunkLen | src/citation-js/plugin-bibtex/input/file.js:70-73 | `junk` matches nothing exactly at an `@` that does not start an `@comment` line with text after it |
| BibtexLexer.Layout | src/citation-js/plugin-bibtex/input/file.js:61-67 | a `comment` or `whitespace` token is non-empty and inside the input |
| BibtexLexer.NumberLen | src/citation-js/plugin-bibtex/input/file.js:123 | the `-?\d+` match stays inside the input |
| BibtexLexer.Match | src/citation-js/plugin-bibtex/input/file.js:68-169 | the lexer state table: in each state the first rule that matches gives a non-empty token inside the input |
| BibtexLexer.CoveredCons | src/citation-js/plugin-bibtex/input/file.js:68-169 | the text of a token list is the first token's text followed by the rest's |
| BibtexLexer.CoverStep | src/citation-js/plugin-bibtex/input/file.js:68-169 | a token followed by text covering the rest covers the text from the token's start |
| BibtexLexer.Lex | src/citation-js/plugin-bibtex/input/file.js:68-169 | the token stream of the state machine (`next`, `push`, `pop`): no token is empty, and the tokens' texts concatenated are a prefix of the input, and the whole input when the lexer reached the end |
| GrammarUtil.Advance | src/citation-js/core/util/grammar.js:31 | `this.lexer.next()` moves to the next position, and fails only where the lexer stops on text no rule matches |
| GrammarUtil.Take | src/citation-js/core/util/grammar.js:27-41 | a consumed token is the current one and the cursor advances by exactly one; an optional miss returns `undefined` without advancing; a required consume never returns nothing |
| GrammarUtil.TakeCases | src/citation-js/core/util/grammar.js:27-41 | on a match the token is consumed; on a mismatch an optional consume returns `undefined` and a required one throws `SyntaxError: expected "type", got …` with the rule log |
| GrammarUtil.Grammar.constructor | src/citation-js/core/util/grammar.js:4-9 | a new grammar has an empty log |
| GrammarUtil.Grammar.Start | src/citation-js/core/util/grammar.js:11-16 | `parse` reads the first token, sets the state to a copy of the default `@string` table and clears the log |
| GrammarUtil.Grammar.ConsumeToken | src/citation-js/core/util/grammar.js:27-41 | `consumeToken` changes only the position, as `Take` says, and leaves state and log alone |
| GrammarUtil.Grammar.Enter | src/citation-js/core/util/grammar.js:44 | entering a rule pushes its name onto the log and changes nothing else |
| GrammarUtil.Grammar.Leave | src/citation-js/core/util/grammar.js:46 | leaving a rule pops the log and changes nothing else |
| BibtexRules.Need | src/citation-js/core/util/grammar.js:27-41 | a required `consumeToken` returns what `BibtexFile.Need` specifies and keeps the log |
| BibtexRules.Layout | src/citation-js/plugin-bibtex/input/file.js:189-196 | rule `_` skips whitespace and comment tokens as `Skip` says and leaves the log as it was |
| BibtexRules.Text | src/citation-js/plugin-bibtex/input/file.js:323-329 | rule `Text` returns `BibtexFile.Text` and leaves the log as it was |
| BibtexRules.BracketString | src/citation-js/plugin-bibtex/input/file.js:314-322 | rule `BracketString` returns `BibtexFile.Bracket` and leaves the log as it was |
| BibtexRules.QuoteString | src/citation-js/plugin-bibtex/input/file.js:305-313 | rule `QuoteString` returns `BibtexFile.Quote` and leaves the log as it was |
| BibtexRules.ExpressionPart | src/citation-js/plugin-bibtex/input/file.js:294-304 | rule `ExpressionPart` returns `BibtexFile.Part` and leaves the log as it was |
| BibtexRules.Expression | src/citation-js/plugin-bibtex/input/file.js:283-293 | rule `Expression` returns `BibtexFile.Expr` and leaves the log as it was |
| BibtexRules.Field | src/citation-js/plugin-bibtex/input/file.js:275-282 | rule `Field` returns `BibtexFile.Field` and leaves the log as it was |
| BibtexRules.EntryBody | src/citation-js/plugin-bibtex/input/file.js:238-274 | rule `EntryBody` returns `BibtexFile.BodyLoop` and leaves the log as it was |
| BibtexRules.EntryHead | src/citation-js/plugin-bibtex/input/file.js:198-207 | the start of rule `Entry` (at, type, opening brace) returns `BibtexFile.EntryHead` |
| BibtexRules.EntryClose | src/citation-js/plugin-bibtex/input/file.js:228-235 | the end of rule `Entry` reads the closing delimiter and warns on a mismatch, as `BibtexFile.EntryClose` says |
| BibtexRules.Entry | src/citation-js/plugin-bibtex/input/file.js:197-237 | rule `Entry` returns `BibtexFile.Entry`: entry, `@string` table and warnings, log unchanged |
| BibtexRules.Content | src/citation-js/plugin-bibtex/input/file.js:208-227 | the middle of rule `Entry` (`@string`, `@preamble` or label and body) returns `BibtexFile.EntryContent` |
| BibtexRules.MainRule | src/citation-js/plugin-bibtex/input/file.js:176-188 | rule `Main` returns the present entries of `BibtexFile.MainLoop` |
| BibtexRules.Parse | src/citation-js/plugin-bibtex/input/file.js:335-337 | `parse(text)` returns the entries and warnings of `BibtexFile.ParseFile` over the lexer's tokens |
| BibtexFile.Need | src/citation-js/core/util/grammar.js:27-41 | a required consume returns the current token and advances by one when it has the type |
| BibtexFile.Skip | src/citation-js/plugin-bibtex/input/file.js:189-196 | rule `_` stops at the first token that is neither whitespace nor comment and skipped only such tokens |
| BibtexFile.Text | src/citation-js/plugin-bibtex/input/file.js:323-329 | `Text` consumes at least one token |
| BibtexFile.Bracket | src/citation-js/plugin-bibtex/input/file.js:314-322 | `BracketString` consumes at least one token |
| BibtexFile.BracketLoop | src/citation-js/plugin-bibtex/input/file.js:317-319 | the loop stops at the closing `rbrace` |
| BibtexFile.Quote | src/citation-js/plugin-bibtex/input/file.js:305-313 | `QuoteString` consumes at least one token |
| BibtexFile.QuoteLoop | src/citation-js/plugin-bibtex/input/file.js:308-310 | the loop stops at the closing `quote` |
| BibtexFile.Macro | src/citation-js/plugin-bibtex/input/file.js:296 | an identifier evaluates to its defined (truthy) string under its lower-cased name, else to `''` |
| BibtexFile.Part | src/citation-js/plugin-bibtex/input/file.js:294-304 | an identifier gives its macro, a number token an integer, a quoted or braced literal a string |
| BibtexFile.Expr | src/citation-js/plugin-bibtex/input/file.js:283-293 | `Expression` consumes at least one token |
| BibtexFile.ExprLoop | src/citation-js/plugin-bibtex/input/file.js:286-291 | the `#` loop stops at a token that is not `hash`, and a concatenation is a string |
| BibtexFile.Field | src/citation-js/plugin-bibtex/input/file.js:275-282 | `Field` starts at an identifier and its name is the identifier lower-cased |
| BibtexFile.SplitPrefix | src/citation-js/plugin-bibtex/input/file.js:251-253 | `split`'s first part is a prefix of the field name, and with the marker present the first two parts and the marker are too |
| BibtexFile.AnnotationOf | src/citation-js/plugin-bibtex/input/file.js:244-255 | a field ending in the annotation marker annotates the field before it under `default`; one containing marker+named marker annotates the part before it under the part after |
| BibtexFile.AnnotationOfMarked | src/citation-js/plugin-bibtex/input/file.js:246-247 | `field` + marker is an annotation of `field` named `default` |
| BibtexFile.Place | src/citation-js/plugin-bibtex/input/file.js:255-265 | an annotation is stored under its field and name and leaves the properties alone; any other field is stored as a property |
| BibtexFile.BodyLoop | src/citation-js/plugin-bibtex/input/file.js:242-272 | the field loop never moves the cursor backwards |
| BibtexFile.EntryHead | src/citation-js/plugin-bibtex/input/file.js:198-207 | an entry starts at an `at` token and consumes at least it |
| BibtexFile.EntryClose | src/citation-js/plugin-bibtex/input/file.js:228-235 | the entry ends with an `rbrace`; a closing delimiter that does not match the opening one only adds one warning |
| BibtexFile.Entry | src/citation-js/plugin-bibtex/input/file.js:197-237 | an entry produced is neither `@string` nor `@preamble` and defines no macro; at most one warning is added |
| BibtexFile.EntryContent | src/citation-js/plugin-bibtex/input/file.js:208-227 | `@string{k = v}` stores a value under lower-cased k and produces no entry; `@preamble` produces nothing; any other type produces an entry of that type |
| BibtexFile.SkipJunk | src/citation-js/plugin-bibtex/input/file.js:179-181 | the junk loop skips exactly the junk tokens in front of the cursor |
| BibtexFile.MainLoop | src/citation-js/plugin-bibtex/input/file.js:176-188 | `Main` reads to the end of the tokens and only appends to the entries read so far, so entries stay in source order |
| BibtexFile.Present | src/citation-js/plugin-bibtex/input/file.js:187 | `entries.filter(Boolean)` keeps exactly the entries that were produced |
| BibtexFileProps.CoveredAppend | src/citation-js/plugin-bibtex/input/file.js:68-169 | the text of two token lists joined is their texts joined |
| BibtexFileProps.CoveredSplit | src/citation-js/plugin-bibtex/input/file.js:68-169 | the text of a token range splits at any inner position |
| BibtexFileProps.CoveredOne | src/citation-js/plugin-bibtex/input/file.js:68-169 | the text of one token is its value |
| BibtexFileProps.TextCovers | src/citation-js/plugin-bibtex/input/file.js:323-329 | over literal tokens, `Text` returns exactly the source text it consumed, nested braces included |
| BibtexFileProps.BracketSteps | src/citation-js/plugin-bibtex/input/file.js:314-322 | `BracketString` consumes `{`, runs its loop up to the matching `}`, and consumes that |
| BibtexFileProps.QuoteSteps | src/citation-js/plugin-bibtex/input/file.js:305-313 | `QuoteString` consumes `"`, runs its loop up to the next `"`, and consumes that |
| BibtexFileProps.BracketLoopStep | src/citation-js/plugin-bibtex/input/file.js:317-319 | one iteration of the brace loop appends one `Text` |
| BibtexFileProps.QuoteLoopStep | src/citation-js/plugin-bibtex/input/file.js:308-310 | one iteration of the quote loop appends one `Text` |
| BibtexFileProps.Delimited | src/citation-js/plugin-bibtex/input/file.js:325 | an opening token, inner text and closing token cover their concatenation |
| BibtexFileProps.BracketCovers | src/citation-js/plugin-bibtex/input/file.js:314-329 | a braced literal's value wrapped in braces is its source text: nested braces are preserved |
| BibtexFileProps.BracketLoopCovers | src/citation-js/plugin-bibtex/input/file.js:317-319 | the brace loop's accumulated value is the source text it consumed |
| BibtexFileProps.QuoteLoopCovers | src/citation-js/plugin-bibtex/input/file.js:308-310 | the quote loop's accumulated value is the source text it consumed |
| BibtexFileProps.QuoteCovers | src/citation-js/plugin-bibtex/input/file.js:305-313 | a quoted literal's value wrapped in quotes is its source text, nested braces preserved |
| BibtexFileProps.MacroDefinedThenUsed | src/citation-js/plugin-bibtex/input/file.js:211-296 | a macro stored by `@string` is what an identifier of that name (any case) evaluates to; other names are unaffected |
| BibtexFileProps.UndefinedMacro | src/citation-js/plugin-bibtex/input/file.js:296 | an undefined identifier evaluates to `''` |
| BibtexFileProps.NeedHere | src/citation-js/core/util/grammar.js:30-32 | a required consume of the current token's type returns it and advances by one |
| BibtexFileProps.NeedMissing | src/citation-js/core/util/grammar.js:35-40 | a required consume of another type throws the `expected … got …` syntax error |
| BibtexFileProps.QuotedText | src/citation-js/plugin-bibtex/input/file.js:305-313 | `"t"` parses to `t` and consumes three tokens |
| BibtexFileProps.NumberPart | src/citation-js/plugin-bibtex/input/file.js:297-298 | a number token becomes that integer |
| BibtexFileProps.QuotedPart | src/citation-js/plugin-bibtex/input/file.js:299-300 | a quoted literal part is the string inside the quotes |
| BibtexFileProps.SinglePart | src/citation-js/plugin-bibtex/input/file.js:283-293 | an expression without `#` is its one part |
| BibtexFileProps.HashStep | src/citation-js/plugin-bibtex/input/file.js:286-291 | `a # b` concatenates the string forms left to right |
| BibtexFileProps.FieldOf | src/citation-js/plugin-bibtex/input/file.js:275-282 | `name = expr` gives the lower-cased name and the expression's value |
| BibtexFileProps.HeadOf | src/citation-js/plugin-bibtex/input/file.js:198-207 | the entry type is lower-cased and the opening delimiter is kept |
| BibtexFileProps.CloseOf | src/citation-js/plugin-bibtex/input/file.js:228-235 | a mismatched closing delimiter adds one warning and parsing continues; a matching one adds none |
| BibtexFileProps.StringEntry | src/citation-js/plugin-bibtex/input/file.js:209-211 | `@string{k = "v"}` produces no entry and stores `v` under lower-cased `k` |
| BibtexFileProps.LastField | src/citation-js/plugin-bibtex/input/file.js:242-272 | a last field without a trailing comma ends the body with that field placed |
| BibtexFileProps.LabelledContent | src/citation-js/plugin-bibtex/input/file.js:214-226 | a data entry keeps its label verbatim with the body's properties and annotations |
| BibtexFileProps.DataEntry | src/citation-js/plugin-bibtex/input/file.js:197-237 | `@Type(label, Field = 3}` gives one entry with the lower-cased type, the verbatim label and the lower-cased field, plus one mismatch warning |
| BibtexFileProps.Concatenation | src/citation-js/plugin-bibtex/input/file.js:283-293 | `"a" # n` evaluates to `a` followed by the digits of n |
| BibtexFileProps.UnclosedEntry | src/citation-js/plugin-bibtex/input/file.js:215-274 | an entry whose text ends after the label's comma throws `expected "rbrace", got EOF` |
| BibtxtInput.LastNewlineBefore | src/citation-js/plugin-bibtex/input/bibtxt.js:3 | the last newline before a position, or -1 when there is none |
| BibtxtInput.RestMatch | src/citation-js/plugin-bibtex/input/bibtxt.js:3 | the tail `\s*(?:\n([\s\S]+))?$` after the label: no pairs iff the rest is all whitespace; otherwise the pairs are the non-empty text after the last possible newline preceded only by whitespace |
| BibtxtInput.LabelScan | src/citation-js/plugin-bibtex/input/bibtxt.js:3 | the lazy `\[(.+?)\]` label is a non-empty slice right after the `[` |
| BibtxtInput.BlankEnd | src/citation-js/plugin-bibtex/input/bibtxt.js:4 | the end of the `\s*` run after a newline |
| BibtxtInput.PairBreakAt | src/citation-js/plugin-bibtex/input/bibtxt.js:4 | a `splitPairs` separator starting at a position ends after it |
| BibtxtInput.FirstPairBreak | src/citation-js/plugin-bibtex/input/bibtxt.js:4-19 | the first position where a separator matches; none before it |
| BibtxtInput.SplitPairs | src/citation-js/plugin-bibtex/input/bibtxt.js:19 | `split(splitPairs)` yields at least one piece (captured groups appear as extra, possibly undefined, pieces) |
| BibtxtInput.Truthy | src/citation-js/plugin-bibtex/input/bibtxt.js:20 | `filter((v) => v)` keeps only non-empty strings |
| BibtxtInput.LineEnd | src/citation-js/plugin-bibtex/input/bibtxt.js:5 | `.` stops at the first line terminator |
| BibtxtInput.SplitPair | src/citation-js/plugin-bibtex/input/bibtxt.js:5-23 | a pair with a value splits at its first `:` into a key without `:` and a non-empty value; no `:` or nothing after it gives no value |
| BibtxtInput.Store | src/citation-js/plugin-bibtex/input/bibtxt.js:26-30 | storing a field keeps the label |
| BibtxtInput.Assign | src/citation-js/plugin-bibtex/input/bibtxt.js:21-32 | one field line changes the type or a property and keeps the label |
| BibtxtInput.Fill | src/citation-js/plugin-bibtex/input/bibtxt.js:21-32 | the `forEach` over the field lines keeps the label |
| BibtxtInput.ParseEntry | src/citation-js/plugin-bibtex/input/bibtxt.js:7-35 | an entry is parsed iff it matches `[label]` followed by field lines, and its label is the captured one; otherwise the result is `{}` |
| BibtxtInput.ParseBibTxtEntry | src/citation-js/plugin-bibtex/input/bibtxt.js:7-35 | the loop that fills `out.properties` returns `ParseEntry` |
| BibtxtInput.EntryBreakAt | src/citation-js/plugin-bibtex/input/bibtxt.js:2 | a `\n\s*(?=\[)` separator ends right before a `[` |
| BibtxtInput.FirstEntryBreak | src/citation-js/plugin-bibtex/input/bibtxt.js:2-36 | the first position where an entry separator matches; none before it |
| BibtxtInput.SplitEntries | src/citation-js/plugin-bibtex/input/bibtxt.js:36 | `split(splitEntries)` yields at least one piece |
| BibtxtInput.ParseAll | src/citation-js/plugin-bibtex/input/bibtxt.js:36 | `map(parseBibTxtEntry)`: one parse per piece, in order |
| BibtxtInput.ParseBibTxt | src/citation-js/plugin-bibtex/input/bibtxt.js:36 | parsing any text yields at least one entry object |
| BibtxtOutput.TxtFields | src/citation-js/plugin-bibtex/output/bibtxt.js:2-3 | the fields are the properties in `Object.entries` order followed by a final `type` field |
| BibtxtProps.ListedOk | src/citation-js/plugin-bibtex/output/bibtxt.js:2-3 | listing the properties in `Object.entries` order keeps an entry well formed, and the written fields are the listed properties, then the type |
| BibtxtProps.ListedWithoutIndexKeys | src/citation-js/plugin-bibtex/output/bibtxt.js:2 | without array-index keys, `Object.entries` lists an entry's properties as they are |
| BibtxtOutput.TxtItems | src/citation-js/plugin-bibtex/output/bibtxt.js:4 | each field becomes `field: value` wrapped in `listItem` |
| BibtxtOutput.FormatEntries | src/citation-js/plugin-bibtex/output/bibtxt.js:8 | one formatted entry per source entry, in order |
| BibtxtProps.Lines | src/citation-js/plugin-bibtex/output/bibtxt.js:4 | one `field: value` line per field |
| BibtxtProps.ItemsText | src/citation-js/plugin-bibtex/output/bibtxt.js:4-5 | with the text dictionary the items are the lines joined by newline-tab, after a tab and before a newline |
| BibtxtProps.FormatEntryText | src/citation-js/plugin-bibtex/output/bibtxt.js:1-6 | a text entry is `[label]`, the field lines, and two newlines |
| BibtxtProps.LineOfField | src/citation-js/plugin-bibtex/input/bibtxt.js:4-5 | a trimmed one-line key and value give a line that the pair splitter keeps whole |
| BibtxtProps.EntryLinesOk | src/citation-js/plugin-bibtex/output/bibtxt.js:2-4 | every written line of a well-formed entry is such a line |
| BibtxtProps.NoPairBreakInLine | src/citation-js/plugin-bibtex/input/bibtxt.js:4 | no pair separator starts inside such a line |
| BibtxtProps.SplitPairsLine | src/citation-js/plugin-bibtex/input/bibtxt.js:19 | a single such line splits into itself |
| BibtxtProps.SplitPairsCons | src/citation-js/plugin-bibtex/input/bibtxt.js:4-19 | a line, newline-tab and more text split into the line, an undefined capture, and the split of the rest |
| BibtxtProps.TruthySkips | src/citation-js/plugin-bibtex/input/bibtxt.js:20 | the filter drops the undefined captures and keeps the lines |
| BibtxtProps.AllLinesOkTail | src/citation-js/plugin-bibtex/input/bibtxt.js:19-20 | the lines after the first are still well-formed |
| BibtxtProps.SplitPairsJoin | src/citation-js/plugin-bibtex/input/bibtxt.js:17-20 | splitting the written field lines and filtering gives back exactly those lines |
| BibtxtProps.JoinHead | src/citation-js/plugin-bibtex/input/bibtxt.js:18 | the written field lines are already trimmed |
| BibtxtProps.LabelScanSkips | src/citation-js/plugin-bibtex/input/bibtxt.js:3 | the lazy label scan passes over characters that are not `]` or line ends |
| BibtxtProps.EntryMatchText | src/citation-js/plugin-bibtex/input/bibtxt.js:3 | `[L]` followed by a newline and a body matches with label L and the body as pairs |
| BibtxtProps.EntryMatchPiece | src/citation-js/plugin-bibtex/input/bibtxt.js:3 | a written entry matches `parseEntry` with its own label |
| BibtxtProps.SplitFieldLine | src/citation-js/plugin-bibtex/input/bibtxt.js:22 | `k: v` splits at its first `:` into `k` and ` v` |
| BibtxtProps.TrimSpaced | src/citation-js/plugin-bibtex/input/bibtxt.js:24-25 | trimming ` v` gives back a trimmed `v` |
| BibtxtProps.NewKeyAppended | src/citation-js/plugin-bibtex/input/bibtxt.js:29 | a new key is appended at the end of the properties |
| BibtxtProps.AssignField | src/citation-js/plugin-bibtex/input/bibtxt.js:22-30 | a `k: v` line with a new key appends the property `k` = `v` |
| BibtxtProps.FillAppend | src/citation-js/plugin-bibtex/input/bibtxt.js:21 | the `forEach` over two runs of lines is the `forEach` over the first then the second |
| BibtxtProps.FillStep | src/citation-js/plugin-bibtex/input/bibtxt.js:21-32 | one written field line adds its property |
| BibtxtProps.FieldsOkTail | src/citation-js/plugin-bibtex/output/bibtxt.js:2-4 | the well-formedness of written fields carries over to the remaining fields |
| BibtxtProps.FillFields | src/citation-js/plugin-bibtex/input/bibtxt.js:21-32 | reading the written lines of distinct properties restores them in order |
| BibtxtProps.TypeLine | src/citation-js/plugin-bibtex/input/bibtxt.js:26-27 | a `type:` line sets the type instead of adding a property |
| BibtxtProps.FillEntry | src/citation-js/plugin-bibtex/input/bibtxt.js:12-33 | starting from the default type `book`, the written lines restore the entry's type and its properties in `Object.entries` order |
| BibtxtProps.PieceRoundTrip | src/citation-js/plugin-bibtex/input/bibtxt.js:7-35 | a written entry followed by whitespace parses back to the entry with its properties in `Object.entries` order |
| BibtxtProps.TrimBody | src/citation-js/plugin-bibtex/input/bibtxt.js:18 | trimming the tab-indented body with trailing whitespace gives the body |
| BibtxtProps.EntryRoundTrip | src/citation-js/plugin-bibtex/output/bibtxt.js:1-6 | `parseBibTxtEntry(formatEntry(e, text))` is any well-formed `e` with its properties in `Object.entries` order, so `e` itself when no key is an array index |
| BibtxtProps.GuardedCons | src/citation-js/plugin-bibtex/input/bibtxt.js:2 | a line and more field lines contain no entry separator |
| BibtxtProps.GuardedJoin | src/citation-js/plugin-bibtex/input/bibtxt.js:2 | written field lines contain no entry separator |
| BibtxtProps.PieceShape | src/citation-js/plugin-bibtex/output/bibtxt.js:5 | a written entry starts with `[`, ends with a non-space, and contains no entry separator |
| BibtxtProps.Pieces | src/citation-js/plugin-bibtex/output/bibtxt.js:5 | the written text of each entry, in order |
| BibtxtProps.JoinFormatted | src/citation-js/plugin-bibtex/output/bibtxt.js:8 | entries joined with `\n` are the entry texts separated by three newlines, with two after the last |
| BibtxtProps.JoinEnds | src/citation-js/plugin-bibtex/output/bibtxt.js:8 | a join starts with the first piece's first character and ends with the last piece's last character |
| BibtxtProps.SplitEntriesJoin | src/citation-js/plugin-bibtex/input/bibtxt.js:2-36 | splitting the joined entry texts at the entry separator gives back the entry texts |
| BibtxtProps.NoEntryBreakInPiece | src/citation-js/plugin-bibtex/input/bibtxt.js:2 | no entry separator starts inside a written entry |
| BibtxtProps.ParseAllPieces | src/citation-js/plugin-bibtex/input/bibtxt.js:36 | mapping the parser over the written entries gives back the entries |
| BibtxtProps.ParsedAll | src/citation-js/plugin-bibtex/input/bibtxt.js:36 | each entry, parsed, in order, with its properties in `Object.entries` order |
| BibtxtProps.FormatText | src/citation-js/plugin-bibtex/output/bibtxt.js:7-10 | with the text dictionary the whole output is the joined entries followed by three newlines |
| BibtxtProps.TrimFile | src/citation-js/plugin-bibtex/input/bibtxt.js:36 | `trim` removes exactly the container's trailing newlines |
| BibtxtProps.TrimTrailingNewlines | src/citation-js/plugin-bibtex/input/bibtxt.js:36 | trimming text that starts and ends with non-space drops only the appended newlines |
| BibtxtProps.PiecesOk | src/citation-js/plugin-bibtex/output/bibtxt.js:5 | every written entry of well-formed entries has the shape the splitter relies on |
| BibtxtProps.FileSplits | src/citation-js/plugin-bibtex/input/bibtxt.js:36 | the trimmed output splits into exactly the written entries |
| BibtxtProps.FileRoundTrip | src/citation-js/plugin-bibtex/output/bibtxt.js:7-10 | `parseBibTxt(format(src, text))` gives back every entry of a non-empty list of well-formed entries, in order, each with its properties in `Object.entries` order: the entry itself when no key is an array index |
| BibtxtProps.EmptyFile | src/citation-js/plugin-bibtex/input/bibtxt.js:8-36 | formatting no entries and parsing the result gives one `{}` |
| BibtexOutput.FieldItems | src/citation-js/plugin-bibtex/output/bibtex.js:2-4 | one `field = {value},` item wrapped in `listItem` per property given, in that order; `FormatEntry` gives them in `Object.entries` order (`Enumerated`) |
| BibtexOutput.FormatEntries | src/citation-js/plugin-bibtex/output/bibtex.js:9 | one formatted entry per source entry, in order |
| BibtexOutput.FormatEntriesAppend | src/citation-js/plugin-bibtex/output/bibtex.js:9 | formatting two lists concatenated is concatenating their formats |
| BibtexOutput.FormatEntriesSplit | src/citation-js/plugin-bibtex/output/bibtex.js:9 | the entry list of two lists joined is the two entry lists joined |
| BibtexOutput.FormatWrapped | src/citation-js/plugin-bibtex/output/bibtex.js:8-11 | `format` is container[0] ++ the formatted entries concatenated ++ container[1] |
| BibtexOutput.FieldLines | src/citation-js/plugin-bibtex/output/bibtex.js:3 | one `field = {value},` line per property |
| BibtexOutput.FieldItemsLines | src/citation-js/plugin-bibtex/output/bibtex.js:2-4 | with the text dictionary the field items split into exactly one line per property |
| BibtexOutput.TextEntryLines | src/citation-js/plugin-bibtex/output/bibtex.js:1-6 | a text entry is the line `@type{label,`, one line per field in `Object.entries` order, then `}`: as many field lines as properties |
| BibtexEntries.Missing | src/citation-js/plugin-bibtex/input/entries.js:64-71 | at most one missing name per requirement |
| BibtexEntries.ProblemOf | src/citation-js/plugin-bibtex/input/entries.js:62-77 | a problem of an entry is reported under the entry's own label |
| BibtexEntries.Problems | src/citation-js/plugin-bibtex/input/entries.js:61-78 | at most one problem per entry |
| BibtexEntries.Lines | src/citation-js/plugin-bibtex/input/entries.js:82 | one `  - label has problem` line per problem, in order |
| BibtexEntries.ValidationError | src/citation-js/plugin-bibtex/input/entries.js:79-85 | `validate` throws iff there is at least one problem |
| BibtexEntries.MissingFields | src/citation-js/plugin-bibtex/input/entries.js:64-71 | the loop over a type's requirements collects exactly the missing field names |
| BibtexEntries.Validate | src/citation-js/plugin-bibtex/input/entries.js:60-86 | the loop over the entries throws exactly the validation error |
| BibtexEntries.ParseEntryValues | src/citation-js/plugin-bibtex/input/entries.js:87-113 | the entry is copied with its properties replaced by the parsed values and annotations; label, type and annotations are kept |
| BibtexEntries.AllEntryValues | src/citation-js/plugin-bibtex/input/entries.js:118-124 | `entries.map(parseEntryValues)`: one parsed entry per entry, in order |
| BibtexEntriesProps.MissingEmpty | src/citation-js/plugin-bibtex/input/entries.js:64-72 | nothing is missing iff every requirement (a field, or one of a list of alternatives) is met |
| BibtexEntriesProps.ProblemOfValid | src/citation-js/plugin-bibtex/input/entries.js:62-77 | an entry has no problem iff its type is known and all its requirements are met |
| BibtexEntriesProps.ProblemsEmpty | src/citation-js/plugin-bibtex/input/entries.js:61-79 | there are no problems iff every entry is valid |
| BibtexEntriesProps.ValidateThrows | src/citation-js/plugin-bibtex/input/entries.js:79-85 | `validate` throws iff some entry is invalid |
| BibtexEntriesProps.ProblemsAppend | src/citation-js/plugin-bibtex/input/entries.js:62 | the problems of two runs of entries are the problems of each, in order |
| BibtexEntriesProps.ProblemInOrder | src/citation-js/plugin-bibtex/input/entries.js:62-78 | each entry's problem appears between those of earlier and later entries |
| BibtexEntriesProps.InvalidType | src/citation-js/plugin-bibtex/input/entries.js:75-76 | an entry of an unknown type is reported as `invalid type: "type"` |
| BibtexEntriesProps.MissingAlternatives | src/citation-js/plugin-bibtex/input/entries.js:66-67 | a list of alternatives none of which is present is reported once, joined with `/` |
| BibtexEntriesProps.MessageLines | src/citation-js/plugin-bibtex/input/entries.js:80-84 | the error message is `Invalid entries:` followed by one line per problem |
| BibtexEntriesProps.NonStrictIgnoresRequirements | src/citation-js/plugin-bibtex/input/entries.js:114-125 | outside strict mode the requirements make no difference |
| BibtexEntriesProps.StrictGate | src/citation-js/plugin-bibtex/input/entries.js:114-125 | in strict mode an invalid entry makes parsing throw the validation message; with all entries valid, the result is the non-strict one |
| BibtexEntriesProps.SliceLacks | src/citation-js/plugin-bibtex/input/entries.js:92 | a key absent from every position of a slice is not in it |
| BibtexEntriesProps.FieldsAppend | src/citation-js/plugin-bibtex/input/entries.js:92-98 | the property loop over two runs is the loop over the first then the second |
| BibtexEntriesProps.FieldsOther | src/citation-js/plugin-bibtex/input/entries.js:92-98 | the loop does not change keys that are not properties |
| BibtexEntriesProps.FieldAt | src/citation-js/plugin-bibtex/input/entries.js:92-98 | each property's output is its value parsed with the language known so far; an empty value leaves the output unchanged |
| BibtexEntriesProps.LanguageKept | src/citation-js/plugin-bibtex/input/entries.js:92-98 | without a `language` property the language seen by the loop is the starting one |
| BibtexEntriesProps.NoLanguage | src/citation-js/plugin-bibtex/input/entries.js:89-98 | without a `language` property every non-empty field is parsed with an undefined language |
| BibtexEntriesProps.LanguageFirst | src/citation-js/plugin-bibtex/input/entries.js:89-98 | with a `language` property, the fields before it are parsed with the language parsed first, those after it with the language parsed again |
| BibtexEntriesProps.EmptyDropped | src/citation-js/plugin-bibtex/input/entries.js:94-96 | an empty field other than `language` is left out of the output |
| BibtexEntriesProps.FieldAnnotationKeys | src/citation-js/plugin-bibtex/input/entries.js:101 | one `field+an:name` key per annotation of a field |
| BibtexEntriesProps.AnnotateFieldOther | src/citation-js/plugin-bibtex/input/entries.js:100-104 | the annotation loop leaves other keys unchanged |
| BibtexEntriesProps.AnnotateFieldAt | src/citation-js/plugin-bibtex/input/entries.js:100-104 | each annotation, not written again later, ends up parsed under `field+an:name` |
| BibtexEntriesProps.AnnotateOther | src/citation-js/plugin-bibtex/input/entries.js:99-105 | the annotations leave keys that are not annotation keys unchanged |
| BibtexEntriesProps.AnnotationAt | src/citation-js/plugin-bibtex/input/entries.js:99-105 | each annotation of each field, not written again later, ends up parsed under its annotation key |
| BibtexShared.CloseFrom | src/citation-js/plugin-bibtex/mapping/shared.js:5 | the lazy `.*?>` of a tag ends at the first `>` after the tag start |
| BibtexShared.TagEnd | src/citation-js/plugin-bibtex/mapping/shared.js:5 | a tag match starts at `<` and is at least two characters long |
| BibtexShared.RunEnd | src/citation-js/plugin-bibtex/mapping/shared.js:5 | a run of unsafe characters is empty only at the end or before a safe character |
| BibtexShared.Pieces | src/citation-js/plugin-bibtex/mapping/shared.js:5-15 | splitting on `unsafeChars` gives at least one piece, each without unsafe characters |
| BibtexShared.SplitUnsafe | src/citation-js/plugin-bibtex/mapping/shared.js:15 | `split(unsafeChars)` gives at least one piece, all safe |
| BibtexShared.KeepAscii | src/citation-js/plugin-bibtex/mapping/shared.js:6-14 | `replace(unicode, '')` leaves only characters from U+0020 to U+007F |
| BibtexShared.FindWord | src/citation-js/plugin-bibtex/mapping/shared.js:16 | `find` gives no word iff every piece is empty or a stop word, and the word found is neither |
| BibtexShared.FirstWord | src/citation-js/plugin-bibtex/mapping/shared.js:8-18 | a falsy text gives `''`; a truthy non-string throws on `normalize`; a string gives its first kept word, or `undefined` when there is none |
| BibtexShared.LabelToTarget | src/citation-js/plugin-bibtex/mapping/shared.js:254-256 | `LABEL.toTarget(label)` is `[label, label]` |
| BibtexShared.DropQualifier | src/citation-js/plugin-bibtex/mapping/shared.js:106 | `replace(/[?~%]$/, '')` changes nothing when the last character is not a qualifier |
| BibtexShared.ParseDate | src/citation-js/plugin-bibtex/mapping/shared.js:103-119 | a date gives one to three parts; a month is kept only when non-zero and at most 20; a day only when non-zero |
| BibtexShared.DateToTarget | src/citation-js/plugin-bibtex/mapping/shared.js:178-190 | reading a date throws only as written, when the first range is open |
| BibtexShared.PadStart2 | src/citation-js/plugin-bibtex/mapping/shared.js:196 | `padStart(2, '0')` keeps parts of two or more characters and makes the rest two long |
| BibtexShared.DateToSource | src/citation-js/plugin-bibtex/mapping/shared.js:192-200 | a literal date gives `undefined`; a date with parts is written iff every range is closed |
| BibtexShared.SpaceFrom | src/citation-js/plugin-bibtex/mapping/shared.js:135 | the next whitespace at or after a position |
| BibtexShared.SplitSpaces | src/citation-js/plugin-bibtex/mapping/shared.js:135 | `split(/\s+/)` gives at least one piece |
| BibtexShared.ParseMonth | src/citation-js/plugin-bibtex/mapping/shared.js:120-148 | `null` gives `[]`; any month gives at most a month and a day |
| BibtexShared.YearMonthToSource | src/citation-js/plugin-bibtex/mapping/shared.js:219-224 | a literal date gives `undefined`; otherwise the year as a string and a month value |
| BibtexShared.TitleToTarget | src/citation-js/plugin-bibtex/mapping/shared.js:307-313 | without a (non-empty) subtitle the title is returned unchanged |
| BibtexShared.PickToTarget | src/citation-js/plugin-bibtex/mapping/shared.js:170-172 | `args.find(Boolean)` is `undefined` iff no argument is truthy; otherwise the result is truthy |
| BibtexSharedProps.SafePieces | src/citation-js/plugin-bibtex/mapping/shared.js:15 | text without unsafe characters is one piece |
| BibtexSharedProps.SafeSplit | src/citation-js/plugin-bibtex/mapping/shared.js:15 | splitting or stripping safe text gives it back |
| BibtexSharedProps.JoinSafe | src/citation-js/plugin-bibtex/mapping/shared.js:266 | joining safe pieces gives safe text |
| BibtexSharedProps.StripSafe | src/citation-js/plugin-bibtex/mapping/shared.js:266 | `replace(unsafeChars, '')` leaves no unsafe character |
| BibtexSharedProps.StripIdempotent | src/citation-js/plugin-bibtex/mapping/shared.js:266 | stripping twice is stripping once |
| BibtexSharedProps.FindWordFirst | src/citation-js/plugin-bibtex/mapping/shared.js:16 | the word found is the first piece that is neither empty nor a stop word |
| BibtexSharedProps.FirstWordSafe | src/citation-js/plugin-bibtex/mapping/shared.js:8-18 | a first word is non-empty, safe and not `the`, `a` or `an` in any case |
| BibtexSharedProps.PickFirst | src/citation-js/plugin-bibtex/mapping/shared.js:170-172 | `PICK` gives the first truthy argument |
| BibtexSharedProps.PickRoundTrip | src/citation-js/plugin-bibtex/mapping/shared.js:169-177 | `PICK.toTarget(...PICK.toSource(v))` is `v` when truthy, else `undefined` |
| BibtexSharedProps.SafeIdSafe | src/citation-js/plugin-bibtex/mapping/shared.js:259-267 | the id used as a fallback label is always safe |
| BibtexSharedProps.IdAsLabel | src/citation-js/plugin-bibtex/mapping/shared.js:269-271 | with `useIdAsLabel` the label is the safe id |
| BibtexSharedProps.LabelRoundTrip | src/citation-js/plugin-bibtex/mapping/shared.js:253-278 | a safe non-empty label survives `LABEL.toTarget` then `LABEL.toSource` when the id is not used as label |
| BibtexSharedProps.KeywordsRoundTrip | src/citation-js/plugin-bibtex/mapping/shared.js:244-252 | a non-empty list of keywords without commas survives join then split |
| BibtexSharedProps.KeywordsTextRoundTrip | src/citation-js/plugin-bibtex/mapping/shared.js:244-252 | any text survives split then join |
| BibtexSharedProps.TitleRoundTrip | src/citation-js/plugin-bibtex/mapping/shared.js:306-318 | `TITLE.toTarget(...TITLE.toSource(t))` is `t` |
| BibtexSharedProps.StopWordTitleParts | src/citation-js/plugin-bibtex/mapping/shared.js:160-166 | a title made only of a stop word adds `undefined` to the label as written, nothing as intended |
| BibtexSharedProps.StopWordTitleLabel | src/citation-js/plugin-bibtex/mapping/shared.js:273-277 | that title gives the label `undefined` as written, the safe id as intended |
| BibtexSharedProps.EmptyLabelFallsBack | src/citation-js/plugin-bibtex/mapping/shared.js:276 | an empty generated label falls back to the safe id |
| BibtexDateProps.PartDigits | src/citation-js/plugin-bibtex/mapping/shared.js:196 | a written date part is at least two digits |
| BibtexDateProps.LeadingZero | src/citation-js/plugin-bibtex/mapping/shared.js:109-110 | a zero-padded digit reads back as the digit |
| BibtexDateProps.PartReads | src/citation-js/plugin-bibtex/mapping/shared.js:108-196 | a written date part reads back as the number |
| BibtexDateProps.PartTexts | src/citation-js/plugin-bibtex/mapping/shared.js:196 | one written part per date part |
| BibtexDateProps.JoinChars | src/citation-js/plugin-bibtex/mapping/shared.js:196-198 | a character of a join is the separator or comes from a part |
| BibtexDateProps.JoinLast | src/citation-js/plugin-bibtex/mapping/shared.js:196-198 | a join ends with the last part's last character |
| BibtexDateProps.ReplaceAbsent | src/citation-js/plugin-bibtex/mapping/shared.js:108 | replacing a character that is absent changes nothing |
| BibtexDateProps.RangeShape | src/citation-js/plugin-bibtex/mapping/shared.js:196 | a written range is digits and hyphens, starting and ending with a digit |
| BibtexDateProps.RangeSplits | src/citation-js/plugin-bibtex/mapping/shared.js:104-107 | a written range has no time and no qualifier, and splits at `-` into its written parts |
| BibtexDateProps.PiecesRead | src/citation-js/plugin-bibtex/mapping/shared.js:103-119 | a text whose pieces read back as the range parses as the range |
| BibtexDateProps.RangeReads | src/citation-js/plugin-bibtex/mapping/shared.js:103-196 | `parseDate` of a written range gives the range back |
| BibtexDateProps.RangeTexts | src/citation-js/plugin-bibtex/mapping/shared.js:195-197 | one written range per range |
| BibtexDateProps.DateRoundTrip | src/citation-js/plugin-bibtex/mapping/shared.js:178-200 | `DATE.toTarget(DATE.toSource(d))` is `d` for closed ranges of a year with a month from 1 to 20 and a non-zero day |
| BibtexDateProps.TimeIgnored | src/citation-js/plugin-bibtex/mapping/shared.js:105 | a time after `T` is ignored |
| BibtexDateProps.QualifierIgnored | src/citation-js/plugin-bibtex/mapping/shared.js:106 | a trailing `?`, `~` or `%` is ignored |
| BibtexDateProps.YearOfUnspecified | src/citation-js/plugin-bibtex/mapping/shared.js:108 | unspecified digits `X` read as zeros |
| BibtexDateProps.UnspecifiedDigits | src/citation-js/plugin-bibtex/mapping/shared.js:103-119 | `19XX` parses as the year 1900 |
| BibtexDateProps.OpenStart | src/citation-js/plugin-bibtex/mapping/shared.js:180-184 | `../2020` throws as written, since `parts[0]` is `undefined`; as intended it gives a literal date |
| BibtexDateProps.MonthKeysLetters | src/citation-js/plugin-bibtex/mapping/shared.js:52-77 | every month key is lower-case letters |
| BibtexDateProps.ShortMonthKey | src/citation-js/plugin-bibtex/mapping/shared.js:49-64 | the short name of month m is the m-th key, with value m, and no earlier key is the same |
| BibtexDateProps.ShortMonthLookup | src/citation-js/plugin-bibtex/mapping/shared.js:49-64 | the short name of month m looks up m |
| BibtexDateProps.SpacedNotMonth | src/citation-js/plugin-bibtex/mapping/shared.js:131 | text with a space is not a month key |
| BibtexDateProps.SpaceFromAt | src/citation-js/plugin-bibtex/mapping/shared.js:135 | the scan for whitespace stops at the first space |
| BibtexDateProps.SplitTwoWords | src/citation-js/plugin-bibtex/mapping/shared.js:135 | two words separated by a space split into the two words |
| BibtexDateProps.DigitsNoSpace | src/citation-js/plugin-bibtex/mapping/shared.js:135 | digits contain no whitespace |
| BibtexDateProps.ParseMonthName | src/citation-js/plugin-bibtex/mapping/shared.js:129-133 | a non-numeric month that is a key, after trimming and lowering, gives that month |
| BibtexDateProps.ParseMonthDay | src/citation-js/plugin-bibtex/mapping/shared.js:135-147 | a non-numeric month of the form `month day` gives the month and day |
| BibtexDateProps.LowerTrimmed | src/citation-js/plugin-bibtex/mapping/shared.js:129 | trimming and lowering trimmed lower-case text changes nothing |
| BibtexDateProps.MonthDayChars | src/citation-js/plugin-bibtex/mapping/shared.js:222 | `mon d` starts with a lower-case letter and ends with a digit |
| BibtexDateProps.MonthDayText | src/citation-js/plugin-bibtex/mapping/shared.js:125-129 | `mon d` is not a number and is unchanged by trimming and lowering |
| BibtexDateProps.MonthDayReads | src/citation-js/plugin-bibtex/mapping/shared.js:120-148 | `parseMonth("mon d")` gives month and day |
| BibtexDateProps.WriteYearMonthDay | src/citation-js/plugin-bibtex/mapping/shared.js:219-224 | a year, month and day are written as the year and `mon d` |
| BibtexDateProps.ReadYearMonth | src/citation-js/plugin-bibtex/mapping/shared.js:203-216 | a numeric year with a month and no day parses the month with `parseMonth` |
| BibtexDateProps.YearMonthDayRoundTrip | src/citation-js/plugin-bibtex/mapping/shared.js:202-225 | year, month and day survive `YEAR_MONTH.toSource` then `toTarget` |
| BibtexDateProps.ParseMonthNumber | src/citation-js/plugin-bibtex/mapping/shared.js:125-127 | a numeric month is read with `parseInt` |
| BibtexDateProps.YearMonthRoundTrip | src/citation-js/plugin-bibtex/mapping/shared.js:202-225 | a year and a month survive `YEAR_MONTH.toSource` then `toTarget` |
| BibtexDateProps.MonthNameReads | src/citation-js/plugin-bibtex/mapping/shared.js:120-148 | `parseMonth(" March ")` is `[3]` |
| BibtexMapping.Registry | src/citation-js/plugin-bibtex/mapping/index.js:111-115 | the registry maps labels to positions of entries |
| BibtexMapping.BuildRegistry | src/citation-js/plugin-bibtex/mapping/index.js:111-115 | the loop over the entries builds the registry |
| BibtexMapping.CrossrefKey | src/citation-js/plugin-bibtex/mapping/index.js:97 | with a `crossref` field the key is its string; without one the key is `"undefined"` as written and absent as intended |
| BibtexMapping.Parent | src/citation-js/plugin-bibtex/mapping/index.js:97-98 | the parent found in the registry is an entry |
| BibtexMapping.Inherit | src/citation-js/plugin-bibtex/mapping/index.js:96-108 | the recursion through parents fails only with a stack overflow |
| BibtexMapping.Convert | src/citation-js/plugin-bibtex/mapping/index.js:117-126 | an entry converts iff its crossref chain resolves |
| BibtexMapping.Converted | src/citation-js/plugin-bibtex/mapping/index.js:117-127 | one conversion per entry, in order |
| BibtexMapping.Parse | src/citation-js/plugin-bibtex/mapping/index.js:110-128 | the registry loop followed by the map over the entries gives the parse function |
| BibtexMapping.FormatEntry | src/citation-js/plugin-bibtex/mapping/index.js:131-144 | the type and label are taken from the converted object and every other property is kept in `properties` |
| BibtexMapping.Format | src/citation-js/plugin-bibtex/mapping/index.js:130-145 | one formatted entry per input, in order |
| BibtexMappingProps.RegistryOther | src/citation-js/plugin-bibtex/mapping/index.js:113-115 | the last entry changes only its own label |
| BibtexMappingProps.RegistryHas | src/citation-js/plugin-bibtex/mapping/index.js:113-115 | every entry's label is in the registry |
| BibtexMappingProps.RegistryLast | src/citation-js/plugin-bibtex/mapping/index.js:113-115 | a label maps to the last entry carrying it |
| BibtexMappingProps.StackIrrelevant | src/citation-js/plugin-bibtex/mapping/index.js:96-108 | when the chain resolves, the entries already visited make no difference |
| BibtexMappingProps.InheritDistinct | src/citation-js/plugin-bibtex/mapping/index.js:104 | inheriting keeps keys distinct |
| BibtexMappingProps.Unchanged | src/citation-js/plugin-bibtex/mapping/index.js:97-107 | an entry without a parent, or that is its own parent, keeps its properties |
| BibtexMappingProps.InheritedFields | src/citation-js/plugin-bibtex/mapping/index.js:104 | an entry's own fields win; the others come from the resolved parent |
| BibtexMappingProps.StepOk | src/citation-js/plugin-bibtex/mapping/index.js:104 | when the parent resolves, so does the child |
| BibtexMappingProps.Grandparent | src/citation-js/plugin-bibtex/mapping/index.js:104 | a field absent from the entry and its parent comes from the grandparent |
| BibtexMappingProps.TwoCycle | src/citation-js/plugin-bibtex/mapping/index.js:96-108 | two entries naming each other overflow the stack |
| BibtexMappingProps.ParseOk | src/citation-js/plugin-bibtex/mapping/index.js:117-127 | when every chain resolves, each result is the type, label and inherited properties converted to CSL |
| BibtexMappingProps.ParseErr | src/citation-js/plugin-bibtex/mapping/index.js:110-128 | one unresolved chain makes parsing throw |
| BibtexMappingProps.UndefinedAdopts | src/citation-js/plugin-bibtex/mapping/index.js:97 | as written, an entry without `crossref` inherits from an entry labelled `undefined` |
| BibtexMappingProps.UndefinedExample | src/citation-js/plugin-bibtex/mapping/index.js:97 | a two-entry example of that: as written the title is inherited, as intended it is not |
| BibtexMappingProps.NoCrossrefKeeps | src/citation-js/plugin-bibtex/mapping/index.js:97-107 | as intended, an entry without `crossref` keeps its properties |
| BiblatexCrossref.TitleMap | src/citation-js/plugin-bibtex/mapping/crossref.js:56-79 | every parent type in `TITLE_MAP` maps to one of the prefixes `main`, `book`, `journal` |
| BiblatexCrossref.TitleRule | src/citation-js/plugin-bibtex/mapping/crossref.js:106-108 | titles are renamed iff the parent type is in `TITLE_MAP` and the target type is in its set, and then with that type's prefix |
| BiblatexCrossref.NeverInherited | src/citation-js/plugin-bibtex/mapping/crossref.js:87-102 | sixteen fields are deleted from the inherited data |
| BiblatexCrossref.ValueOf | src/citation-js/plugin-bibtex/mapping/crossref.js:104-112 | reading a field gives its value, or `undefined` when absent |
| BiblatexCrossref.AdaptParent | src/citation-js/plugin-bibtex/mapping/crossref.js:86-122 | the sequence of deletes and assignments on `data` produces the adapted parent data |
| BiblatexCrossref.Inherit | src/citation-js/plugin-bibtex/mapping/crossref.js:80-126 | the recursion through parents fails only with a stack overflow |
| BiblatexCrossrefProps.NamedKeysKept | src/citation-js/plugin-bibtex/mapping/crossref.js:87-102 | `author`, `bookauthor`, `title`, `subtitle` and `titleaddon` are not among the deleted fields |
| BiblatexCrossrefProps.PrefixedKeys | src/citation-js/plugin-bibtex/mapping/crossref.js:106-121 | the renamed title fields are neither deleted nor among the title fields removed afterwards |
| BiblatexCrossrefProps.CopiedGet | src/citation-js/plugin-bibtex/mapping/crossref.js:86-102 | the copied data has every parent field except the deleted ones |
| BiblatexCrossrefProps.BookAuthorGet | src/citation-js/plugin-bibtex/mapping/crossref.js:103-105 | a book part of a `book` or `mvbook` gets `bookauthor` from the parent's `author`; nothing else changes |
| BiblatexCrossrefProps.TitlesGet | src/citation-js/plugin-bibtex/mapping/crossref.js:106-121 | the titles move to their prefixed names (no `titleaddon` for `journal`) and the title fields are deleted |
| BiblatexCrossrefProps.AdaptedGet | src/citation-js/plugin-bibtex/mapping/crossref.js:86-122 | every key of the adapted data has the value of the declarative description of the adaptation |
| BiblatexCrossrefProps.StackIrrelevant | src/citation-js/plugin-bibtex/mapping/crossref.js:80-126 | when the chain resolves, the entries already visited make no difference |
| BiblatexCrossrefProps.InheritDistinct | src/citation-js/plugin-bibtex/mapping/crossref.js:123 | inheriting keeps keys distinct |
| BiblatexCrossrefProps.Unchanged | src/citation-js/plugin-bibtex/mapping/crossref.js:81-125 | an entry without a parent, or that is its own parent, keeps its properties |
| BiblatexCrossrefProps.InheritedFields | src/citation-js/plugin-bibtex/mapping/crossref.js:86-123 | an entry's own fields win; the others come from the adapted data of the resolved parent |
| BiblatexCrossrefProps.NeverInheritedAbsent | src/citation-js/plugin-bibtex/mapping/crossref.js:87-123 | a deleted field that the entry does not have itself is absent from the result |
| BiblatexCrossrefProps.ExpectedBookAuthor | src/citation-js/plugin-bibtex/mapping/crossref.js:103-105 | under the book-author rule the expected `bookauthor` is the parent's `author` |
| BiblatexCrossrefProps.ExpectedTitle | src/citation-js/plugin-bibtex/mapping/crossref.js:106-121 | under a title rule the prefixed title is the parent's title and the title fields are absent |
| BiblatexCrossrefProps.BookAuthorFromParent | src/citation-js/plugin-bibtex/mapping/crossref.js:103-123 | a book part without its own `bookauthor` gets the parent's `author` |
| BiblatexCrossrefProps.TitleRenamed | src/citation-js/plugin-bibtex/mapping/crossref.js:106-123 | a part of a titled parent gets the parent's title under the prefixed name |
| BiblatexCrossrefProps.ExpectedPlain | src/citation-js/plugin-bibtex/mapping/crossref.js:86-123 | a field that no rule touches is inherited as is |
| BiblatexCrossrefProps.StepOk | src/citation-js/plugin-bibtex/mapping/crossref.js:86 | when the parent resolves, so does the child |
| BiblatexCrossrefProps.Grandparent | src/citation-js/plugin-bibtex/mapping/crossref.js:86 | a field absent from the entry and its parent, and untouched by the rules, comes from the grandparent |
| BiblatexCrossrefProps.TwoCycle | src/citation-js/plugin-bibtex/mapping/crossref.js:80-126 | two entries naming each other overflow the stack |
| BiblatexCrossrefProps.ShorthandPlain | src/citation-js/plugin-bibtex/mapping/crossref.js:100-101 | as written, `shorthand` is not deleted, since the code deletes `shortand` |
| BiblatexCrossrefProps.ShorthandInherited | src/citation-js/plugin-bibtex/mapping/crossref.js:100-123 | as written, an entry without `shorthand` inherits the parent's |
| BiblatexCrossrefProps.ShorthandNotInherited | src/citation-js/plugin-bibtex/mapping/crossref.js:100-101 | as intended, a child without `shorthand` has none after inheriting from its crossref parent |
| BiblatexCrossrefProps.ShorthandNeverInherited | src/citation-js/plugin-bibtex/mapping/crossref.js:100-101 | as intended, `shorthand` and `shorthandintro` are deleted |
| Cff.TypeToTarget | src/citation-js/plugin-cff/index.js:624-626 | an unknown CFF type becomes `document`; every result is `document` or a value of `TYPES_TO_TARGET` |
| Cff.TypeToSource | src/citation-js/plugin-cff/index.js:627-632 | a `book` with an event title becomes `proceedings`; otherwise an unknown type becomes `generic` |
| Cff.MainType | src/citation-js/plugin-cff/index.js:299-304 | the main work's type is `dataset` iff it is `dataset`, else `software` |
| Cff.TruthyOnly | src/citation-js/plugin-cff/index.js:131 | `filter(Boolean)` keeps exactly the truthy values |
| Cff.PlaceOf | src/citation-js/plugin-cff/index.js:131-132 | the place is a non-empty string or `undefined`, and `undefined` when city, region and country are all missing |
| Cff.PublisherToTarget | src/citation-js/plugin-cff/index.js:130-133 | destructuring throws iff the entity is `undefined` or `null`; otherwise the result is the name and the place |
| Cff.PublisherEntity | src/citation-js/plugin-cff/index.js:134-153 | the entity starts with the name; a truthy non-string place throws on `split`; without a place the entity is only the name |
| Cff.PublisherToSource | src/citation-js/plugin-cff/index.js:134-153 | the method that pops the country, region and city returns the entity function |
| Cff.InstitutionToTarget | src/citation-js/plugin-cff/index.js:554-557 | an institution is read like a publisher, with the department before the name when there is one |
| Cff.Slots | src/citation-js/plugin-cff/index.js:198-219 | each of the six identifier slots holds the last value written to it |
| Cff.IdentifiersToTarget | src/citation-js/plugin-cff/index.js:197-220 | the loop throws iff some `other` identifier is not a string, with the first such identifier's error; otherwise it gives the six slots |
| Cff.IdentifiersToSource | src/citation-js/plugin-cff/index.js:221-231 | at most six identifiers, each truthy and of type `doi`, `url` or `other` |
| Cff.KeywordsToSource | src/citation-js/plugin-cff/index.js:242-244 | `split(/,\s*/g)` gives at least one keyword, none holding a comma, none after the first starting with whitespace |
| Cff.PagesToTarget | src/citation-js/plugin-cff/index.js:605-607 | `start-end` when there is an end, else `start` |
| Cff.PagesToSource | src/citation-js/plugin-cff/index.js:608-611 | the start is the text before the first `-`; an end is given iff the next piece is non-empty |
| Cff.YearMonthToTarget | src/citation-js/plugin-cff/index.js:397-400 | one date part starting with the year, with the month iff it is truthy |
| Cff.YearMonthToSource | src/citation-js/plugin-cff/index.js:401-404 | reading the year and month throws iff there is no date part |
| Cff.OriginalYearToTarget | src/citation-js/plugin-cff/index.js:412-414 | the year becomes the only date part |
| Cff.OriginalYearToSource | src/citation-js/plugin-cff/index.js:415-417 | throws iff there is no date part; otherwise gives the first part's year |
| Cff.ReplaceFirst | src/citation-js/plugin-cff/index.js:650 | `replace` with a string pattern replaces only its first occurrence |
| Cff.AddId | src/citation-js/plugin-cff/index.js:646-652 | the id is the DOI when there is one, else the URL without its scheme; a non-string URL throws; an entry with neither is unchanged |
| Cff.SetAllGet | src/citation-js/plugin-cff/index.js:648-650 | assigning a key sets it and leaves every other key unchanged |
| Cff.MainEntry | src/citation-js/plugin-cff/index.js:655-659 | the main entry is marked `_cff_mainReference`; a CFF version up to 1.1.0 forces the type `software`; every other key comes from the main translator |
| Cff.References | src/citation-js/plugin-cff/index.js:669-671 | one converted reference per element of an array `references`, none otherwise |
| Cff.DefaultOptions | src/citation-js/plugin-cff/index.js:678-683 | without options the CFF version is 1.2.0 and no main or preferred id is given |
| Cff.FindIndex | src/citation-js/plugin-cff/index.js:686-691 | `findIndex` is -1 iff nothing matches, otherwise the first match |
| Cff.Remove | src/citation-js/plugin-cff/index.js:688-694 | `splice(i, 1)` removes exactly the i-th entry and keeps the order of the others |
| Cff.PreferredAt | src/citation-js/plugin-cff/index.js:686-689 | a preferred citation is taken only for CFF 1.2.0 or later, with a preferred id, from an entry carrying that id |
| Cff.AfterPreferred | src/citation-js/plugin-cff/index.js:688 | taking the preferred citation removes one entry |
| Cff.MainAt | src/citation-js/plugin-cff/index.js:691-692 | the main entry is the first match, or the first entry when nothing matches |
| Cff.Converted | src/citation-js/plugin-cff/index.js:707 | one converted reference per remaining entry, in order |
| Cff.Format | src/citation-js/plugin-cff/index.js:676-711 | the method that splices out the preferred and main entries returns the format function |
| CffProps.ProceedingsRoundTrip | src/citation-js/plugin-cff/index.js:624-632 | `proceedings` reads as `book` and is written back as `proceedings` only with an event title |
| CffProps.SplitJoin | src/citation-js/plugin-cff/index.js:142 | splitting joined parts that hold no separator gives the parts back |
| CffProps.TruthyOnlyAppend | src/citation-js/plugin-cff/index.js:131 | the filter distributes over concatenation |
| CffProps.EntityMembers | src/citation-js/plugin-cff/index.js:130 | the members read by destructuring are the entity's own |
| CffProps.PlaceOfCountry | src/citation-js/plugin-cff/index.js:131-132 | a country alone is the place |
| CffProps.PlaceOfCity | src/citation-js/plugin-cff/index.js:131-132 | city and country are joined with `, ` |
| CffProps.PlaceOfAll | src/citation-js/plugin-cff/index.js:131-132 | city, region and country are joined with `, ` |
| CffProps.PublisherText | src/citation-js/plugin-cff/index.js:130-133 | a publisher with plain place parts reads as its name and their join |
| CffProps.SourceOfCountry | src/citation-js/plugin-cff/index.js:134-153 | a one-part place is the country |
| CffProps.SourceOfCity | src/citation-js/plugin-cff/index.js:134-153 | a two-part place is city and country |
| CffProps.SourceOfAll | src/citation-js/plugin-cff/index.js:134-153 | a three-part place is city, region and country |
| CffProps.PublisherRoundTrip | src/citation-js/plugin-cff/index.js:129-154 | a publisher with plain place parts, and a city whenever there is a region, survives `toTarget` then `toSource` |
| CffProps.RegionWithoutCity | src/citation-js/plugin-cff/index.js:142-149 | a place `Bavaria, Germany` is read back with Bavaria as the city, so a region without a city does not survive |
| CffProps.LastWriteSnoc | src/citation-js/plugin-cff/index.js:199-218 | one more identifier overrides a slot only if it writes it |
| CffProps.PrefixStarts | src/citation-js/plugin-cff/index.js:206-216 | each `urn:isbn:`, `urn:issn:`, `pmcid:`, `pmid:` value starts with its own prefix and no other |
| CffProps.PrefixedWrite | src/citation-js/plugin-cff/index.js:206-217 | an `other` identifier writes its slot with the prefix removed, and no other slot |
| CffProps.SourceReadable | src/citation-js/plugin-cff/index.js:221-231 | every written identifier can be read back without an error |
| CffProps.SourceBlocks | src/citation-js/plugin-cff/index.js:222-230 | the written identifiers are the doi, url, isbn, issn, pmcid and pmid blocks in that order |
| CffProps.IdentifiersRoundTrip | src/citation-js/plugin-cff/index.js:197-231 | reading written identifiers back fills each slot with its value, DOI and URL only when the entry has none of its own |
| CffProps.KeywordsRoundTrip | src/citation-js/plugin-cff/index.js:239-244 | keywords without commas, not starting with whitespace after the first, survive join then split |
| CffProps.KeywordsStable | src/citation-js/plugin-cff/index.js:239-244 | split, join, split is split |
| CffProps.PagesRoundTrip | src/citation-js/plugin-cff/index.js:605-611 | a page range without extra hyphens survives `toTarget` then `toSource` |
| CffProps.StartPageRoundTrip | src/citation-js/plugin-cff/index.js:605-611 | a start page alone survives `toTarget` then `toSource` |
| CffProps.YearMonthRoundTrip | src/citation-js/plugin-cff/index.js:397-404 | the year survives, and a month when truthy |
| CffProps.OriginalYearRoundTrip | src/citation-js/plugin-cff/index.js:412-417 | the original year survives |
| CffProps.UrlIdStripsScheme | src/citation-js/plugin-cff/index.js:650 | the id of an `http://` or `https://` URL is the URL without the scheme |
| CffProps.ParseShape | src/citation-js/plugin-cff/index.js:654-674 | the output is the main entry, then the preferred citation when present, then the references |
| CffProps.ParseThrows | src/citation-js/plugin-cff/index.js:654-674 | parsing throws iff adding an id to the main entry or to the preferred citation throws |
| CffProps.ParseMainId | src/citation-js/plugin-cff/index.js:646-660 | a main entry with a DOI gets it as its id |
| CffProps.FormatKeepsEntries | src/citation-js/plugin-cff/index.js:686-708 | the preferred entry, the main entry and the references together are exactly the input |
| CffProps.FormatVersionRules | src/citation-js/plugin-cff/index.js:687-698 | below CFF 1.2.0 no preferred citation is taken and the main type is deleted |
| CffProps.DocumentGet | src/citation-js/plugin-cff/index.js:700-708 | references are written when there are any, and the preferred citation when there is one |
| CffProps.FormatParts | src/citation-js/plugin-cff/index.js:700-708 | the references are the remaining entries converted, and the preferred citation is the taken entry converted |
| CffProps.ParseThenFormat | src/citation-js/plugin-cff/index.js:654-711 | formatting parsed output with default options takes the first entry as the main one and the rest as references |
| CffProps.NoPreferredByDefault | src/citation-js/plugin-cff/index.js:686-689 | without a preferred id no entry is taken as preferred |
| CffProps.MainFirstByDefault | src/citation-js/plugin-cff/index.js:691-694 | without a main id the first entry marked as main is taken |
| Csl.CorrectPlain | src/citation-js/core/plugins/input/csl.js:317-337 | the result is `undefined` or of one of the field's types; without best guess it is the value when its type fits, else `undefined` |
| Csl.CorrectedName | src/citation-js/core/plugins/input/csl.js:219-238 | a name object without ORCID is kept; one with an ORCID gets it moved to `_orcid`; anything else is dropped unless best guess may parse a string |
| Csl.CorrectName | src/citation-js/core/plugins/input/csl.js:219-238 | the method that copies the name and deletes the ORCID keys returns the corrected name |
| Csl.CorrectedNames | src/citation-js/core/plugins/input/csl.js:241 | `filter(Boolean)` keeps at most the given names, all truthy |
| Csl.CorrectedNameList | src/citation-js/core/plugins/input/csl.js:239-244 | a name list becomes a non-empty array of truthy names or `undefined`; a non-array gives `undefined` |
| Csl.ParsedParts | src/citation-js/core/plugins/input/csl.js:251 | `parseInt` of every part gives numbers, one per part |
| Csl.CorrectDateParts | src/citation-js/core/plugins/input/csl.js:245-253 | all-number parts are kept; others are converted iff best guess is on and every part parses as an integer; otherwise `undefined` |
| Csl.KeptRanges | src/citation-js/core/plugins/input/csl.js:259-261 | the corrected ranges kept are numeric, at most one per range |
| Csl.EveryHasDateParts | src/citation-js/core/plugins/input/csl.js:271 | `every((part) => part[dp] instanceof Array)` is true iff every element has `date-parts`; it throws only on a `null` or `undefined` element |
| Csl.DatePartsOfEach | src/citation-js/core/plugins/input/csl.js:273 | one `date-parts` array per element |
| Csl.CorrectDate | src/citation-js/core/plugins/input/csl.js:254-290 | a value that is not an object gives `undefined`; only an array of dates can throw |
| Csl.ToLowerTwice | src/citation-js/core/plugins/input/csl.js:299-300 | lower-casing twice is lower-casing once, so the recursion in `correctType` stops |
| Csl.CleanedErr | src/citation-js/core/plugins/input/csl.js:340-349 | once an entry throws, later entries do not change the outcome |
| Csl.CleanFields | src/citation-js/core/plugins/input/csl.js:341-348 | the loop over the fields of an entry gives the cleaned entry |
| Csl.ParseCsl | src/citation-js/core/plugins/input/csl.js:339-350 | the loop over the entries gives the cleaned list |
| CslProps.JournalArticleAlias | src/citation-js/core/plugins/input/csl.js:107 | `journal-article` is an alias of the CSL type `article-journal` |
| CslProps.BookChapterAlias | src/citation-js/core/plugins/input/csl.js:108 | `book-chapter` is an alias of `chapter` |
| CslProps.PostedContentAlias | src/citation-js/core/plugins/input/csl.js:109 | `posted-content` is an alias of `manuscript` |
| CslProps.ProceedingsArticleAlias | src/citation-js/core/plugins/input/csl.js:110 | `proceedings-article` is an alias of `paper-conference` |
| CslProps.DissertationAlias | src/citation-js/core/plugins/input/csl.js:111 | `dissertation` is an alias of `thesis` |
| CslProps.AliasResolves | src/citation-js/core/plugins/input/csl.js:61-112 | an alias names a CSL type and is not one itself |
| CslProps.AliasesResolve | src/citation-js/core/plugins/input/csl.js:61-112 | every alias names a CSL type and is not one itself |
| CslProps.LanguageTakesStrings | src/citation-js/core/plugins/input/csl.js:151 | `language` takes strings |
| CslProps.LanguageField | src/citation-js/core/plugins/input/csl.js:305-338 | cleaning `language` is the plain correction for strings |
| CslProps.NoNumberOnlyField | src/citation-js/core/plugins/input/csl.js:113-218 | no field takes numbers but not strings, so the `parseFloat` branch is never taken |
| CslProps.ListedTypeKept | src/citation-js/core/plugins/input/csl.js:335-337 | a value whose type the field takes is kept |
| CslProps.PlainIdempotent | src/citation-js/core/plugins/input/csl.js:305-338 | cleaning a cleaned plain value changes nothing |
| CslProps.NumberTextRoundTrip | src/citation-js/core/plugins/input/csl.js:318-330 | under best guess a number in a string-only field becomes its text, and the text in a number-only field its number |
| CslProps.FirstElementTaken | src/citation-js/core/plugins/input/csl.js:331-333 | under best guess a non-empty array is replaced by its first element |
| CslProps.OrcidKey | src/citation-js/core/plugins/input/csl.js:221-231 | moving the ORCID deletes `ORCID`, `orcid` and `_ORCID`, keeps an existing `_orcid`, adds one otherwise, and keeps every other key |
| CslProps.OrcidMoved | src/citation-js/core/plugins/input/csl.js:219-232 | the corrected name has no ORCID key, an `_orcid`, and the other fields unchanged |
| CslProps.MemberKept | src/citation-js/core/plugins/input/csl.js:222-227 | other members of the name are unchanged |
| CslProps.MemberGone | src/citation-js/core/plugins/input/csl.js:228-230 | the three ORCID keys are gone |
| CslProps.MovedNameSettled | src/citation-js/core/plugins/input/csl.js:220-221 | the corrected name is still a name and has no ORCID left to move |
| CslProps.NameIdempotent | src/citation-js/core/plugins/input/csl.js:219-238 | correcting a corrected name changes nothing |
| CslProps.NamesKept | src/citation-js/core/plugins/input/csl.js:241 | a name is kept iff it is truthy and the correction of one of the given names |
| CslProps.YearTextRead | src/citation-js/core/plugins/input/csl.js:248-251 | under best guess, parts written as digits are read as their numbers |
| CslProps.RangesKept | src/citation-js/core/plugins/input/csl.js:259-261 | a range is kept iff it is the array correction of one of the ranges |
| CslProps.NumericRangesKept | src/citation-js/core/plugins/input/csl.js:259-261 | numeric ranges are kept as they are |
| CslProps.RangesDateSettled | src/citation-js/core/plugins/input/csl.js:258-270 | a date whose non-empty ranges are numeric is unchanged by correction |
| CslProps.RangesObject | src/citation-js/core/plugins/input/csl.js:263-269 | the copy of the date with new `date-parts` holds them |
| CslProps.DateIdempotent | src/citation-js/core/plugins/input/csl.js:254-290 | correcting a corrected date changes nothing |
| CslProps.DateShape | src/citation-js/core/plugins/input/csl.js:254-290 | a changed date is an object with non-empty numeric `date-parts` |
| CslProps.DateKeepsFields | src/citation-js/core/plugins/input/csl.js:263-269 | correcting a date keeps its other fields |
| CslProps.RangesDateDropped | src/citation-js/core/plugins/input/csl.js:258-270 | a date becomes `undefined` iff none of its ranges can be corrected |
| CslProps.LiteralDateKept | src/citation-js/core/plugins/input/csl.js:287-289 | a date with `literal` or `raw` and no `date-parts` is kept |
| CslProps.NullDateThrows | src/citation-js/core/plugins/input/csl.js:271 | an array holding `null` throws a `TypeError` |
| CslProps.CanonicalTypeKept | src/citation-js/core/plugins/input/csl.js:293-295 | a CSL type is kept |
| CslProps.StringLanguage | src/citation-js/core/plugins/input/csl.js:292 | cleaning a string as a language keeps it |
| CslProps.TypeRetry | src/citation-js/core/plugins/input/csl.js:299-300 | a type with capitals is retried in lower case, with fewer retries left |
| CslProps.TypeIsCanonical | src/citation-js/core/plugins/input/csl.js:291-304 | a cleaned type is `undefined` or a CSL type |
| CslProps.TypeOk | src/citation-js/core/plugins/input/csl.js:291-304 | `correctType` does not throw without best guess, on a string, or as intended |
| CslProps.TypeNeverThrows | src/citation-js/core/plugins/input/csl.js:291-304 | as intended `correctType` never throws |
| CslProps.TypeThrowsWhen | src/citation-js/core/plugins/input/csl.js:296-300 | as written `correctType` throws iff best guess is on and the type does not clean to a string |
| CslProps.AliasReplaced | src/citation-js/core/plugins/input/csl.js:297-298 | an alias is replaced by its CSL type |
| CslProps.CapitalsIgnored | src/citation-js/core/plugins/input/csl.js:299-300 | a CSL type written with capitals is lower-cased |
| CslProps.TypeIdempotent | src/citation-js/core/plugins/input/csl.js:291-304 | cleaning a cleaned type changes nothing |
| CslProps.StrictType | src/citation-js/core/plugins/input/csl.js:291-304 | without best guess only CSL types are kept |
| CslProps.UnknownFieldDropped | src/citation-js/core/plugins/input/csl.js:305-338 | a field the table does not know is dropped |
| CslProps.FieldFits | src/citation-js/core/plugins/input/csl.js:305-338 | a cleaned field holds a value of the kind the field takes |
| CslProps.CleanFromGet | src/citation-js/core/plugins/input/csl.js:342-347 | each field of the cleaned entry is its correction when not `undefined` |
| CslProps.CleanEntryGet | src/citation-js/core/plugins/input/csl.js:340-349 | the cleaned entry holds each field's correction, and nothing for a field corrected to `undefined` |
| CslProps.CleanEntryKeys | src/citation-js/core/plugins/input/csl.js:342-347 | every field of the cleaned entry was in the entry and is known to the table |
| CslProps.SingleFieldEntry | src/citation-js/core/plugins/input/csl.js:340-349 | an entry of one field gives that field's correction or nothing |
| CslProps.CleanFromThrows | src/citation-js/core/plugins/input/csl.js:342-347 | cleaning an entry throws iff correcting one of its fields throws |
| Base.RunEachCollects | src/citation-js/core/plugins/input/csl.js:339-350 | a loop that cleans each entry in order and stops at the first throw gives the run of the entries' results: all values, or the first error |
| CslProps.CleanedPointwise | src/citation-js/core/plugins/input/csl.js:339-350 | the list is cleaned iff every entry is, and then each result is its entry cleaned |
| CslFindings.TypeIsTheItemType | src/citation-js/core/plugins/input/csl.js:147 | the field `type` is the item type |
| CslFindings.TypeFieldCorrected | src/citation-js/core/plugins/input/csl.js:314-315 | cleaning `type` is `correctType` |
| CslFindings.CategoriesTakeObjects | src/citation-js/core/plugins/input/csl.js:148 | `categories` takes objects |
| CslFindings.TypeNullThrows | src/citation-js/core/plugins/input/csl.js:292-299 | as written, a `null` or `true` type throws under best guess |
| CslFindings.TypeNullEntryThrows | src/citation-js/core/plugins/input/csl.js:339-349 | as written, an entry with a `null` type makes the cleaning throw |
| CslFindings.TypeNullDropped | src/citation-js/core/plugins/input/csl.js:339-349 | as intended, that `type` is dropped |
| CslFindings.CategoriesDropped | src/citation-js/core/plugins/input/csl.js:331-337 | as written, `categories: ["a"]` is dropped under best guess and kept without it |
| CslFindings.CategoriesKept | src/citation-js/core/plugins/input/csl.js:305-338 | as intended, an array of categories is kept |
| Utils.InRegistryOrder | src/utils.js:150-154 | sorted: at most one item per registry entry |
| Utils.FindById | src/utils.js:158 | `reflist.find` gives an item carrying the id, and nothing iff no item carries it |
| Utils.InIdOrder | src/utils.js:156-159 | unsorted: one lookup per relevant id, in the order of the ids |
| Utils.GetSortedRelevantRegistryItems | src/utils.js:148-162 | the loops give the registry-order selection when sorted and the id-order lookups otherwise |
| Utils.Wrap | src/utils.js:153 | each pushed item is present |
| Utils.WrapAppend | src/utils.js:152-154 | pushing two runs of items is pushing each |
| Utils.RegistryOrderIsSubsequence | src/utils.js:150-154 | sorted: the result keeps registry order and holds exactly the registry items whose id is relevant |
| Utils.IdOrderMissing | src/utils.js:158 | unsorted: an id gets `undefined` iff no registry item carries it |
| Utils.SplitAtJoins | src/utils.js:171-173 | the two halves join back to the string, and the first has the index's length when the index is in range |
| Utils.IsSameAuthor | src/utils.js:183-191 | reading `.length` throws iff either entry has no author list; otherwise true iff both lists have the same family names, position by position |
| Utils.SameAuthorsReflexive | src/utils.js:183-191 | an item has the same authors as itself |
| Utils.SameAuthorsSymmetric | src/utils.js:183-191 | the comparison is symmetric |
| Utils.SameAuthorsTransitive | src/utils.js:183-191 | the comparison is transitive |
| Utils.SameAuthorsIsEquality | src/utils.js:186-190 | same authors iff the lists of family names are equal |
| GenBiblio.EntriesBefore | src/gen-biblio.js:15-17 | the number of `csl-entry` nodes before a position is at most the position |
| GenBiblio.EntriesBeforeMono | src/gen-biblio.js:15-17 | that count never decreases |
| GenBiblio.LabelFromOk | src/gen-biblio.js:15-21 | labelling succeeds iff every `csl-entry` node has an entry id to take its key from |
| GenBiblio.LabelFromShape | src/gen-biblio.js:15-21 | labelling keeps every child in place and labels each `csl-entry` node with the next key |
| GenBiblio.LabelFromStep | src/gen-biblio.js:15-21 | labelling proceeds child by child, counting only `csl-entry` nodes |
| GenBiblio.LabelEntries | src/gen-biblio.js:15-21 | the `forEach` loop over the entries gives the labelling |
| GenBiblio.GenBiblioNode | src/gen-biblio.js:8-23 | the result is the `div#refs` wrapper around the newline and the labelled entries; it fails iff some entry has no entry id |
| GenBiblio.KeyOfBibIdRoundTrip | src/generator.js:378 | reading the key back from `bib-<key>` gives the key lower-cased |
| GenFootnote.FirstTagged | src/gen-footnote.js:25-63 | `children.find(n => n.tagName === tag)`: the first child with that tag, or none when no child has it |
| GenFootnote.FirstTaggedAt | src/gen-footnote.js:63 | a child with the tag and none before it is the one found |
| GenFootnote.FindItem | src/gen-footnote.js:59-61 | the first old `li` whose id is `user-content-fn-<label>`, or none when no old item has it |
| GenFootnote.Relabel | src/gen-footnote.js:62-64 | relabelling succeeds iff the item has a second child holding an `a`; the item then carries the new id and its back link the new href |
| GenFootnote.ResolveAll | src/gen-footnote.js:65 | each entry of the new list is the node it stands for once all relabelling is done |
| GenFootnote.SectionOf | src/gen-footnote.js:69-85 | the section holds the heading, a line break and an `ol` of a line break and one item per footnote array entry |
| GenFootnote.GenFootnoteSection | src/gen-footnote.js:15-86 | the loop over the footnote array gives the section |
| GenFootnote.AddItem | src/gen-footnote.js:27-66 | one loop iteration is one step of the specification |
| GenFootnote.StepShape | src/gen-footnote.js:27-66 | a step adds exactly one entry that fits its item and keeps the old list's length |
| GenFootnote.StepsShape | src/gen-footnote.js:27-67 | after n steps there are n entries, each fitting its item and its number |
| GenFootnote.CitationItemShape | src/gen-footnote.js:30-56 | a citation item is an `li` with id `user-content-fn-k`, the citation text and a back link to `#user-content-fnref-k` |
| GenFootnote.CitationsOnlySucceed | src/gen-footnote.js:29-56 | a footnote array of citations only never fails |
| GenFootnote.StepsErrSticks | src/gen-footnote.js:27-67 | once a step fails, the whole loop fails with that error |
| GenFootnote.ExistingWithoutListFails | src/gen-footnote.js:22-61 | an existing footnote with no old section makes the section fail |
| GenFootnote.StepNumbered | src/gen-footnote.js:57-65 | a step that takes an old item not taken before keeps every reused item labelled with its own number |
| GenFootnote.StepsNumbering | src/gen-footnote.js:27-67 | when no old item is taken twice, every reused item is labelled with its position's number |
| GenFootnote.SectionNumbering | src/gen-footnote.js:15-86 | under the same condition, the k-th list item carries the id `user-content-fn-k` |
| GenFootnoteFindings.TwoIsTwo | src/gen-footnote.js:60 | the id of number 2 is the id of label `2` |
| GenFootnoteFindings.RelabelledItem | src/gen-footnote.js:59-64 | a relabelled item is found under its new number and can be relabelled again |
| GenFootnoteFindings.ReuseStep | src/gen-footnote.js:57-65 | as written, reusing an item appends it and relabels it in the old list |
| GenFootnoteFindings.ExistingItemTakenTwice | src/gen-footnote.js:57-65 | as written, a citation before `[^1]` and `[^2]` relabels `[^1]`'s item to 2; the lookup of `[^2]` then takes that same item again, and `[^2]`'s own item is dropped |
| GenFootnoteFindings.IntendedStepShape | src/gen-footnote.js:57-65 | as intended (looking up the original labels), each step adds one item numbered by its position |
| GenFootnoteFindings.IntendedNumbering | src/gen-footnote.js:27-67 | as intended, the n items are numbered 1 to n, each fitting its footnote array entry |
| GenFootnoteFindings.SecondFootnoteKept | src/gen-footnote.js:57-65 | as intended, on the same document the third item is `[^2]`'s own item relabelled 3 |
| GenCitation.CitationKeyInjective | src/gen-citation.js:42 | distinct citation numbers give distinct keys `root-n` |
| GenCitation.RowText | src/gen-citation.js:56 | the text of the first engine row carrying the key; none iff no row carries it |
| GenCitation.LowerIds | src/gen-citation.js:57 | the span id uses every entry id lower-cased, in order |
| GenCitation.EscapeAsWrittenHasNoQuote | src/gen-citation.js:65 | the escaped tooltip text holds no `"` |
| GenCitation.TooltipMap | src/gen-citation.js:60-67 | the tooltip map has exactly one key per lower-cased entry id |
| GenCitation.TooltipsOf | src/gen-citation.js:71 | one tooltip per entry |
| GenCitation.EraseAppend | src/gen-citation.js:87-93 | the text of pieces joined is the texts joined |
| GenCitation.Prepend | src/gen-citation.js:135-144 | adding a piece before a successful result |
| GenCitation.Then | src/gen-citation.js:135-144 | adding pieces before a successful result |
| GenCitation.ThenEmpty | src/gen-citation.js:135-144 | adding nothing changes nothing |
| GenCitation.ThenAssoc | src/gen-citation.js:135-144 | adding a then b is adding a + b |
| GenCitation.ThenPrepend | src/gen-citation.js:135-144 | adding pieces then one piece is adding them all |
| GenCitation.RunEnd | src/gen-citation.js:87 | the end of a run of digits, or of non-digits |
| GenCitation.LowerAll | src/gen-citation.js:88 | each id lower-cased |
| GenCitation.LowerAllCons | src/gen-citation.js:88 | lower-casing a slice is lower-casing its head then the rest |
| GenCitation.MaximalCons | src/gen-citation.js:87 | a run of the other kind in front keeps the runs maximal |
| GenCitation.NumericHead | src/gen-citation.js:87 | the first piece is a link iff the text starts with a digit |
| GenCitation.RunKind | src/gen-citation.js:87 | every character of a run is of its kind |
| GenCitation.NumericTargets | src/gen-citation.js:85-93 | numeric linking succeeds iff there are enough entries for the digit runs, and the k-th run links to the k-th entry |
| GenCitation.NumericErase | src/gen-citation.js:87-93 | the linked text reads as the citation text |
| GenCitation.NumericRuns | src/gen-citation.js:87 | each link is a whole run of digits |
| GenCitation.NumericLinks | src/gen-citation.js:83-98 | numeric linking fails iff some run of digits has no entry; otherwise the text is unchanged, each link is a maximal run of digits and the links go to the entries in order |
| GenCitation.LinkNumbers | src/gen-citation.js:85-93 | the `replace` loop over the digit runs gives the numeric linking |
| GenCitation.EraseThree | src/gen-citation.js:106-111 | the text of three pieces is their texts joined |
| GenCitation.SinglePiecesErase | src/gen-citation.js:101-111 | one entry links to its id; the text is kept, except that a one-character citation is doubled by the slices |
| GenCitation.CiteMatch | src/gen-citation.js:127-132 | the disambiguated text without a previous item; with one, `isSameAuthor` throws when either has no author list; with the same authors and the text not found, the year, and reading a missing year throws |
| GenCitation.AuthorDateFails | src/gen-citation.js:118-147 | author-date linking fails when an item is missing or is compared with a previous item and one of the two has no author list, and fails only then or when an item needs a year it lacks |
| GenCitation.AuthorDateErase | src/gen-citation.js:121-147 | the linked text reads as the citation text |
| GenCitation.AuthorDateTargets | src/gen-citation.js:124-146 | the links go to the registry items in order, lower-cased |
| GenCitation.AuthorDateLinks | src/gen-citation.js:118-153 | linking fails when an item is missing or an author list it is compared with is missing, and only then or for a missing year; otherwise it keeps the text and links every item in order |
| GenCitation.FoundMatchIsLinked | src/gen-citation.js:133-142 | a match found in the text is exactly the text of its link |
| GenCitation.LinkAuthorDate | src/gen-citation.js:121-147 | the loop over the registry items, stopping where `isSameAuthor` or a missing year throws, gives the author-date linking |
| GenCitation.GenCitationOf | src/gen-citation.js:30-165 | without an engine row for the key the call fails; otherwise the first result is the row's text and the second its HTML |
| GenCitation.PlainCitation | src/gen-citation.js:155-164 | without links or tooltips the span holds the engine's text |
| GenCitation.LinkedCitationErases | src/gen-citation.js:83-154 | when linking succeeds, the span holds the engine's text with links put in |
| GenCitation.GenCitation | src/gen-citation.js:30-165 | the method gives the specification's result |
| GenCitationFindings.UnescapePlain | src/gen-citation.js:65 | text without `&` reads as itself |
| GenCitationFindings.QuoteEscapedTwice | src/gen-citation.js:65 | as written `"` becomes `&amp;quot;`, which an HTML reader shows as `&quot;` |
| GenCitationFindings.EscapeAttrHasNoQuote | src/gen-citation.js:65 | the corrected escaping holds no `"` |
| GenCitationFindings.UnescapeEscapeAttr | src/gen-citation.js:65 | the corrected escaping reads back as the original text |
| GenCitationFindings.QuoteEscapedOnce | src/gen-citation.js:65 | corrected, `"` becomes `&quot;` and reads back as `"` |
| Generator.GenInline | src/generator.js:54-92 | the generator's own citation fails iff the engine returns no row for `CITATION-n`; otherwise it gives the row's text and the note-mode reference or the text-mode span |
| Generator.Prefix | src/generator.js:263-311 | nodes put in front of a result; an error passes through |
| Generator.PrefixEmpty | src/generator.js:263-311 | putting nothing in front changes nothing |
| Generator.PrefixPrefix | src/generator.js:263-311 | putting a then b in front is putting a + b in front |
| Generator.After | src/generator.js:298-303 | the text after the marker is strictly shorter than the text searched |
| Generator.FirstMarker | src/generator.js:257-303 | text under a tag other than div, p, span or li, text without a marker and a marker with a key outside the bibliography are left alone; otherwise any text still to visit is shorter |
| Generator.CiteAt | src/generator.js:273-303 | a marker with a key outside the bibliography leaves the text node alone; otherwise any text still to visit is shorter |
| Generator.RewriteSpec | src/generator.js:257-311 | what the visit puts in a text node's place; the cases the visit returns from early leave it unchanged |
| Generator.Size | src/generator.js:257 | every node has size at least one, so the walk ends |
| Generator.Visitor.constructor | src/generator.js:250-252 | the visitor starts with citation 1, no earlier clusters and no texts |
| Generator.Visitor.RewriteText | src/generator.js:257-311 | the visitor's callback on a text node does what the specification says and leaves the state it says |
| Generator.Visitor.VisitMarker | src/generator.js:257-303 | handling one marker gives the specification's nodes, remaining text and state |
| Generator.Visitor.Record | src/generator.js:288-292 | recording a citation stores its text under its number, adds its cluster and moves to the next number |
| Generator.Visitor.WalkChildren | src/generator.js:257 | the walk over a child list matches the specification |
| Generator.Visitor.Visit | src/generator.js:257 | the walk over one child matches the specification |
| Generator.Visitor.WalkElement | src/generator.js:257 | the walk into an element matches the specification |
| Generator.RunCitationPass | src/generator.js:248-312 | the whole citation pass, run with a visitor, gives the specification's tree and state |
| GeneratorProps.KeepsRefl | src/generator.js:250-292 | a state keeps itself |
| GeneratorProps.KeepsTrans | src/generator.js:250-292 | keeping the numbering is transitive |
| GeneratorProps.NumberNamesNext | src/generator.js:288-292 | the names of 1..n are those of 1..n-1 plus a new one |
| GeneratorProps.AdvanceKeeps | src/generator.js:288-292 | recording a citation keeps the numbering, moves the number on by one and stores the text under the old number |
| GeneratorProps.FirstMarkerCases | src/generator.js:257-303 | a marker either leaves the text node alone, or every key is known and the node becomes lead text, the citation node and the rest, with the state advanced by the citation's text |
| GeneratorProps.FirstMarkerKeeps | src/generator.js:257-303 | one marker keeps the numbering |
| GeneratorProps.RewriteKeeps | src/generator.js:257-311 | rewriting a text node keeps the numbering |
| GeneratorProps.WalkListKeeps | src/generator.js:257 | walking a child list keeps the numbering |
| GeneratorProps.VisitChildKeeps | src/generator.js:257 | visiting a child keeps the numbering |
| GeneratorProps.WalkNodeKeeps | src/generator.js:257 | walking an element keeps the numbering |
| GeneratorProps.CitationPassNumbered | src/generator.js:250-312 | after the pass, citation k has cluster `CITATION-k` among the earlier clusters and its text stored under k, for exactly the numbers used |
| GeneratorProps.QuietListUnchanged | src/generator.js:258-278 | children with no usable marker come out unchanged with no number used |
| GeneratorProps.QuietNodeUnchanged | src/generator.js:258-278 | a node with no usable marker comes out unchanged with no number used |
| GeneratorProps.MarkerSplit | src/generator.js:261-303 | the lead text, the marker and the rest make up the whole text node, and the lead is there only when it is not empty |
| GeneratorNotes.Renumbered | src/generator.js:342-347 | a renumbered link gets href `#user-content-fn-k`, id `user-content-fnref-k` and text k; everything else is kept |
| GeneratorNotes.VisitSup | src/generator.js:331-351 | a `sup` with no child fails; otherwise its outside is kept |
| GeneratorNotes.RenumberList | src/generator.js:330-352 | renumbering keeps the list's length and each node's outside |
| GeneratorNotes.RenumberChild | src/generator.js:330-352 | renumbering keeps a node's outside |
| GeneratorNotes.RenumberInto | src/generator.js:330-352 | renumbering keeps an element's outside |
| GeneratorNotes.FootnoteSection | src/generator.js:321-326 | a footnote section is found iff the tree has one |
| GeneratorNotes.ReplaceSections | src/generator.js:357-361 | putting the section in place keeps the number of children |
| GeneratorNotes.Renumberer.constructor | src/generator.js:328-329 | the walk starts with no references and number 1 |
| GeneratorNotes.Renumberer.OnSup | src/generator.js:331-351 | the callback on a `sup` does what the specification says |
| GeneratorNotes.Renumberer.WalkChildren | src/generator.js:330 | the walk over a child list matches the specification |
| GeneratorNotes.Renumberer.Visit | src/generator.js:330 | the walk over one child matches the specification |
| GeneratorNotes.Renumberer.Into | src/generator.js:330 | the walk into an element matches the specification |
| GeneratorNotes.RunNotesPhase | src/generator.js:320-365 | the note-mode step, run with a renumberer, gives the specification's tree |
| GeneratorNotesProps.Numbers | src/generator.js:344 | n hrefs are numbered from k |
| GeneratorNotesProps.Items | src/generator.js:337-341 | one footnote record per reference |
| GeneratorNotesProps.NumbersAt | src/generator.js:344 | the i-th href numbered from k is `#user-content-fn-(k+i)` |
| GeneratorNotesProps.ItemsAt | src/generator.js:337-341 | the i-th record is that of the i-th reference |
| GeneratorNotesProps.NumbersAppend | src/generator.js:344-348 | numbering a then b from k is numbering them together |
| GeneratorNotesProps.ItemsAppend | src/generator.js:337-341 | records of a then b are the records of a + b |
| GeneratorNotesProps.RenumberedIsRef | src/generator.js:336-346 | a renumbered link is still a footnote reference, so a second run would find it |
| GeneratorNotesProps.CountedChain | src/generator.js:330-352 | two walks in a row are one walk over both |
| GeneratorNotesProps.VisitSupCounted | src/generator.js:331-351 | a `sup` adds one record and one number when it holds a footnote reference, none otherwise |
| GeneratorNotesProps.RenumberListCounted | src/generator.js:330-352 | walking a list records each reference of the list and numbers it in order |
| GeneratorNotesProps.RenumberChildCounted | src/generator.js:330-352 | walking a node records each reference of the node and numbers it in order |
| GeneratorNotesProps.RenumberIntoCounted | src/generator.js:330-352 | walking into an element records each reference below it and numbers it in order |
| GeneratorNotesProps.RenumberingCounted | src/generator.js:328-352 | over the whole tree, the records are one per reference in document order, and the references are numbered 1..n |
| GeneratorNotesProps.RefHrefLinks | src/generator.js:344 | reference k links to the id of item k |
| GeneratorNotesProps.ReferencesReachItems | src/generator.js:320-365 | when no old item is taken twice, the merged list has one item per reference and reference k links to item k |
| GeneratorNotesProps.ReplaceSectionsQuiet | src/generator.js:357-361 | a tree without a footnote section is unchanged by the placement |
| GeneratorNotesProps.ReplaceInQuiet | src/generator.js:357-361 | a node without a footnote section is unchanged by the placement |
| GeneratorNotesProps.NotesPhasePlacement | src/generator.js:354-364 | without a footnote section the merged one is appended as the root's last child; with one, the root keeps its number of children |
| GeneratorBiblio.SetProps | src/generator.js:379-406 | an element gets exactly the new properties and keeps its tag and children |
| GeneratorBiblio.BuildEntryMap | src/generator.js:374-381 | the `forEach` over the entries gives the entry map |
| GeneratorBiblio.EntryMapErrSticks | src/generator.js:375-381 | once reading an entry fails, building the map fails with that error |
| GeneratorBiblio.EntryMapHolds | src/generator.js:375-381 | every entry with an id is in the map under the key its id carries |
| GeneratorBiblio.EntryMapValues | src/generator.js:375-381 | every value in the map is some entry with its properties replaced by `{ id: 'inlinebib-' + key }` |
| GeneratorBiblio.InlineEntry | src/generator.js:401-407 | an inline entry exists iff its key has a bibliography entry; otherwise setting properties on `undefined` fails |
| GeneratorBiblio.InlineEntries | src/generator.js:401-408 | the entries exist iff every key has one, one per key |
| GeneratorBiblio.Use | src/generator.js:401-407 | after a citation, each of its keys is last used by its number and every other key keeps its last use |
| GeneratorBiblio.RefRule | src/generator.js:414-421 | a node is replaced iff the bibliography is shown and the node is a `p` or `div` whose first child is `[^ref]`; as written, an empty `p` or `div` fails |
| GeneratorBiblio.PlaceNode | src/generator.js:384-422 | a leaf is left alone; a `[^ref]` block becomes the bibliography; any other element keeps its tag and properties; a citation span with an inline class pushes exactly one block |
| GeneratorBiblio.Placer.constructor | src/generator.js:372 | the visit starts with nothing inserted and no key used |
| GeneratorBiblio.Placer.WalkChildren | src/generator.js:384 | the walk over a child list matches the specification |
| GeneratorBiblio.Placer.Visit | src/generator.js:384-422 | the walk over one node matches the specification |
| GeneratorBiblio.RunBiblioPhase | src/generator.js:367-427 | the bibliography phase, run with a placer, gives the specification's tree |
| GeneratorBiblioProps.PlaceListLast | src/generator.js:384-422 | what the visit sees and whether it fails do not depend on how the shared entries end up |
| GeneratorBiblioProps.PlaceNodeLast | src/generator.js:384-422 | the same for one node |
| GeneratorBiblioProps.PlaceListInserted | src/generator.js:414-421 | the block counts as inserted iff it is shown and some `[^ref]` block is in the children |
| GeneratorBiblioProps.PlaceNodeInserted | src/generator.js:414-421 | the same for one node and what is below it |
| GeneratorBiblioProps.PlaceListReplaces | src/generator.js:414-421 | a `[^ref]` child is replaced in place by the bibliography block |
| GeneratorBiblioProps.PlaceListLength | src/generator.js:384-422 | the visit keeps the number of children in place |
| GeneratorBiblioProps.PlaceListQuiet | src/generator.js:384-422 | without an inline class, children with no `[^ref]` block (and, as written, no empty `p` or `div`) are unchanged |
| GeneratorBiblioProps.PlaceNodeQuiet | src/generator.js:384-422 | the same for one node |
| GeneratorBiblioProps.PlaceAllQuiet | src/generator.js:384-422 | the same for the whole tree, with nothing inserted and no key used |
| GeneratorBiblioProps.BiblioPhasePlacement | src/generator.js:367-427 | when the block is shown, every `[^ref]` root child is replaced by it, and it is appended iff no `[^ref]` block is anywhere |
| GeneratorBiblioProps.BiblioPhaseAppends | src/generator.js:367-427 | without an inline class and with nothing to replace, the document is kept and the block appended |
| GeneratorBiblioProps.FirstDashes | src/generator.js:391 | the first `--` of `p--x` is the one after `p` when `p` has none and does not end in `-` |
| GeneratorBiblioProps.SplitJoinDashes | src/generator.js:391 | splitting keys joined with `--` at `--` gives them back, when no key holds `--` or ends in `-` before another |
| GeneratorBiblioProps.JoinSnoc | src/generator.js:73 | joining with one more piece at the end |
| GeneratorBiblioProps.NumberSeparable | src/generator.js:73 | a citation number holds no `--` and does not end in `-` |
| GeneratorBiblioProps.SpanIdParts | src/generator.js:73 | the span id is `citation`, the lower-cased keys and the number joined with `--` |
| GeneratorBiblioProps.CitationWordSafe | src/generator.js:73 | the word `citation` holds no `--` |
| GeneratorBiblioProps.PartsSeparable | src/generator.js:73 | a span id's pieces are kept apart when the keys are |
| GeneratorBiblioProps.SpanIdStarts | src/generator.js:73 | every span id starts with `citation-`, so the inline rule finds it |
| GeneratorBiblioProps.SpanIdKeys | src/generator.js:391-392 | reading a span id back gives its keys and its number; the model keeps the whole id, which the unquoted attribute of the source keeps only when no entry id holds whitespace, `>` or `&` (Generator.CiteNode line under Left out) |
| GeneratorBiblioProps.CiteNodeId | src/generator.js:79-89 | a citation node carries its span id; the model keeps the whole id, which the unquoted attribute of the source keeps only when no entry id holds whitespace, `>` or `&` (Generator.CiteNode line under Left out) |
| GeneratorBiblioProps.InlineEntriesShape | src/generator.js:401-407 | the i-th inline entry is the key's entry with class `inline-entry` and id `inline--key--n` |
| GeneratorBiblioProps.CitationPushes | src/generator.js:386-410 | a citation visited with an inline class pushes one `div` with that class, the id `inlineBib--keys--n` and one entry per key in order; the model keeps the whole id, which the unquoted attribute of the source keeps only when no entry id holds whitespace, `>` or `&` (Generator.CiteNode line under Left out) |
| GeneratorBiblioFindings.NoEntriesBlock | src/generator.js:192-206 | an engine with no entries gives a block holding only a line break, and no entries by key |
| GeneratorBiblioFindings.EmptyDivFails | src/generator.js:414-418 | as written, a document holding an empty `div` fails the phase |
| GeneratorBiblioFindings.EmptyBlockFailsPhase | src/generator.js:414-418 | as written, when the bibliography is placed, an empty `p` or `div` anywhere in the tree fails the phase |
| GeneratorBiblioFindings.EmptyBlockFailsList | src/generator.js:384-418 | as written, the visit of a child list fails when an empty `p` or `div` lies anywhere in it |
| GeneratorBiblioFindings.EmptyBlockFailsNode | src/generator.js:384-418 | as written, the visit of a node fails when an empty `p` or `div` lies within it |
| GeneratorBiblioFindings.IntendedPlaceListOk | src/generator.js:414-418 | as intended, without an inline class the visit never fails |
| GeneratorBiblioFindings.IntendedPlaceNodeOk | src/generator.js:414-418 | the same for one node |
| GeneratorBiblioFindings.IntendedPhaseOk | src/generator.js:367-427 | as intended, without an inline class the phase fails only when the block or its entries cannot be built |
| GeneratorBiblioFindings.IntendedEmptyDivKept | src/generator.js:414-426 | as intended, the empty `div` is kept and the block appended after it |
| GeneratorBiblioFindings.SpanVisit | src/generator.js:386-410 | a one-key citation span pushes its inline block and records its number as the key's last use |
| GeneratorBiblioFindings.TwiceCitedChildren | src/generator.js:384-422 | two citations of the same key push two blocks, and the key's last use is the second |
| GeneratorBiblioFindings.TwiceCitedVisit | src/generator.js:384-422 | a paragraph citing one key twice gets both blocks after its spans |
| GeneratorBiblioFindings.OneEntryId | src/generator.js:403-406 | an inline entry's id names the number that the reading gives it |
| GeneratorBiblioFindings.TwiceCitedPlaced | src/generator.js:384-422 | after both visits, the paragraph holds the two spans and the two blocks |
| GeneratorBiblioFindings.SharedEntryShowsLastUse | src/generator.js:379-407 | as written, both inline entries of the twice-cited key carry `inline--a--2`, since they are one object |
| GeneratorBiblioFindings.OwnEntryPerUse | src/generator.js:401-407 | as intended, the first carries `inline--a--1` and the second `inline--a--2` |
| CitationPlugin.RunTransform | src/generator.js:219-428 | the transformer runs the citation pass, the note step in note mode once a citation was made, and the bibliography phase under the given reading, and fails with the first failure |
| CitationPlugin.QuietDocumentUnchanged | src/generator.js:257-370 | a document with no usable marker, when the engine registered nothing, comes out unchanged |
| CitationPlugin.QuietDocumentGetsBibliography | src/generator.js:314-426 | a document with no usable marker and no `[^ref]` block, when the engine registered items (the `noCite` keys), is kept and gets the bibliography at the end; as written this needs the document to hold no empty `p` or `div` |
| CitationPlugin.QuietDocumentWithEmptyBlockFails | src/generator.js:414-418 | as written, a quiet document holding an empty `p` or `div` fails the transform when the engine registered items |
| CitationPlugin.QuietTransform | src/generator.js:257-370 | on a document with no usable marker the transform is the bibliography phase alone |
| CitationRegex.BodyRun | src/regex.js:52 | the starred class of one `locatorRE` alternative takes the longest run of its characters |
| CitationRegex.TailEnd | src/regex.js:52 | the backtracking point: the last tail character (digit, or roman letter) within the run |
| CitationRegex.LocatorMatch | src/regex.js:52 | a locator match is a non-empty prefix of the text, ending in a digit or a roman letter |
| CitationRegex.AltEndGreatest | src/regex.js:52 | each alternative's match is the longest prefix that alternative can match |
| CitationRegex.DigitAlternativeFirst | src/regex.js:52 | when the digit alternative matches, it is the one taken, at its longest |
| CitationRegex.RomanAlternativeOnly | src/regex.js:52 | when the digit alternative cannot match, there is a match iff the roman alternative matches, at its longest |
| CitationRegex.LocatorMatchAlternatives | src/regex.js:52 | a match comes from one of the two alternatives, and no match means neither can match |
| CitationRegex.RomanTakesWordStart | src/regex.js:52 | as written, `in particular` gives the locator `i`, the first letter of a word |
| CitationRegex.BoundedRomanEnd | src/regex.js:52 | the corrected roman alternative ends only where no letter follows |
| CitationRegex.IntendedLocatorMatch | src/regex.js:52 | a corrected locator match is a non-empty prefix of the text |
| CitationRegex.IntendedAgreesOnDigits | src/regex.js:52 | the correction changes nothing when the digit alternative matches |
| CitationRegex.IntendedRomanEndsWord | src/regex.js:52 | a corrected roman locator is a whole word: no letter follows it, and every longer roman match is followed by a letter |
| CitationRegex.InParticularIntended | src/regex.js:52 | corrected, `in particular` holds no locator |
| CitationRegex.InTextKeyEnds | src/regex.js:17 | an unbraced in-text key has at least two characters and does not end in white space, `.`, `,` or `;` |
| CitationRegex.InTextNotAfterWord | src/regex.js:17 | an in-text `@` never directly follows a letter, digit or `_` |
| CitationRegex.UnbracedKeyStopsAtBrace | src/regex.js:34 | an unbraced item key holds no `{`, so a braced locator after it is never part of the key |
| CitationRegex.LineEnd | src/parse-citation.js:98 | the first line terminator at or after a position, or the end |
| CitationRegex.LastCloseIn | src/parse-citation.js:98 | the last `}` in a range, or none |
| CitationRegex.CloseFor | src/parse-citation.js:98 | the `}` that closes `{(.+)}` from a `{` is at least two characters later |
| CitationRegex.NoBraceUnchanged | src/parse-citation.js:98-163 | a key without `{` is unchanged by the replace |
| CitationRegex.UnbraceBraced | src/parse-citation.js:98-163 | a braced key loses exactly its outer braces |
| CitationParser.FindWord | src/parse-citation.js:199-200 | the first word of one label that the lower-cased suffix starts with, and no earlier word of it does |
| CitationParser.FindAlias | src/parse-citation.js:198-200 | the first label and word, in table order, that the suffix starts with; none when no word fits |
| CitationParser.FirstAlias | src/parse-citation.js:198-200 | a fitting word with none fitting before it is the one found |
| CitationParser.SplitLocator | src/parse-citation.js:209-235 | the locator is what `locatorRE` matches at the start and the suffix is the rest, trimmed; without a match the text is all suffix |
| CitationParser.SuffixAfterSearch | src/parse-citation.js:198-238 | the label is the one found, or `page`; an explicit locator always gives a locator and no suffix |
| CitationParser.SuffixOf | src/parse-citation.js:182-239 | no suffix gives label `page` and nothing else; an explicit locator always gives a locator and no suffix; the label is `page` or one from the table |
| CitationParser.LabelFromFirstWord | src/parse-citation.js:195-218 | with a label word first in table order, the label is that word's and only the text after it is read for the locator |
| CitationParser.UnlabelledSuffix | src/parse-citation.js:222-238 | with no label word, the label is `page`; an explicit locator is all locator; otherwise the locator is what `locatorRE` matches, with the rest as suffix, and no suffix without a match |
| CitationParser.ParseSuffix | src/parse-citation.js:182-239 | the two loops with their early exit give the specification's result |
| CitationParser.PrefixOf | src/parse-citation.js:108-116 | the author is suppressed iff the trimmed prefix ends with `-`; a prefix group always gives a prefix |
| CitationParser.AppendDefined | src/parse-citation.js:149-154 | appending nothing leaves the locator as it is |
| CitationParser.ItemOf | src/parse-citation.js:97-154 | the id is the unbraced key; the author is suppressed iff the trimmed prefix ends with `-`; with an explicit locator the locator is read from it and the suffix is the trimmed suffix group |
| CitationParser.PieceItems | src/parse-citation.js:89-92 | a piece gives at most one item |
| CitationParser.ItemsOf | src/parse-citation.js:88-157 | no more items than pieces |
| CitationParser.ItemsOfSnoc | src/parse-citation.js:88-157 | the items of the first i+1 pieces are those of the first i, then piece i's item if `exec` matches it |
| CitationParser.ItemsOfAppend | src/parse-citation.js:88-157 | the items of two piece lists are the items of each, in order |
| CitationParser.ItemsOfAllMatch | src/parse-citation.js:88-157 | when every piece matches, item j is the item of piece j |
| CitationParser.ItemsOfNoneMatch | src/parse-citation.js:90-92 | when no piece matches, there are no items |
| CitationParser.ItemsOfFromMatches | src/parse-citation.js:88-157 | every item comes from a piece that matches |
| CitationParser.ItemKey | src/parse-citation.js:98 | the item id is the key without its braces, or the key itself |
| CitationParser.Citation | src/parse-citation.js:77-169 | the citation is composite iff it is in-text; a bracketed one has at most one item per `;` piece; an in-text one has exactly one item, with no prefix, the unbraced key and the author suppressed iff a `-` came before |
| CitationParser.ParseCitation | src/parse-citation.js:77-169 | the loop over the pieces gives the specification's result |
| CitationParserFindings.AliasAgrees | src/parse-citation.js:200 | a fitting word agrees with the text character by character in lower case |
| CitationParserFindings.NoInitialNoAlias | src/parse-citation.js:200 | labels whose words start with another letter cannot fit |
| CitationParserFindings.WordMissesAt | src/parse-citation.js:200 | one differing character means the word does not fit |
| CitationParserFindings.LongWordsMissShort | src/parse-citation.js:200 | when every long word differs somewhere, only short words can fit |
| CitationParserFindings.LabelsBeforePageSkipP | src/parse-citation.js:15-36 | no word of the labels before `page` starts with `p` |
| CitationParserFindings.FirstLabelsSkipE | src/parse-citation.js:15-36 | no word of the first eight labels starts with `e` |
| CitationParserFindings.LastLabelsSkipE | src/parse-citation.js:36-68 | no word of the last eight labels starts with `e` |
| CitationParserFindings.FirstLabelsLongMiss | src/parse-citation.js:15-36 | no word of the first eight labels longer than five characters starts `p?g` |
| CitationParserFindings.LastLabelsLongMiss | src/parse-citation.js:36-68 | the same for the last eight labels |
| CitationParserFindings.PageWordsOfPage | src/parse-citation.js:37 | `page` is the first word of the `page` label that `pages 3-4` starts with |
| CitationParserFindings.PagesFound | src/parse-citation.js:198-200 | the search stops at `page` on `pages 3-4` |
| CitationParserFindings.NoLocatorAfterS | src/regex.js:52 | `s 3-4` holds no locator |
| CitationParserFindings.PagesLosesLocator | src/parse-citation.js:198-218 | as written, `[@key, pages 3-4]` gets no locator and the suffix `s 3-4` |
| CitationParserFindings.LongestFrom | src/parse-citation.js:198-200 | the corrected search: the longest fitting word, the first in table order among equals |
| CitationParserFindings.IntendedSuffixOf | src/parse-citation.js:182-239 | corrected, no suffix still gives label `page` and nothing else |
| CitationParserFindings.IntendedPrefersLonger | src/parse-citation.js:198-200 | corrected, a longer fitting word always wins over a shorter one |
| CitationParserFindings.PagesRest | src/parse-citation.js:209-213 | after `pages`, `3-4` is all locator |
| CitationParserFindings.PagesLongest | src/parse-citation.js:37 | the corrected search takes the five-character `pages` |
| CitationParserFindings.PagesIntended | src/parse-citation.js:182-239 | corrected, `pages 3-4` gives the locator `3-4` and an empty suffix |
| CitationParserFindings.EmphasisText | src/regex.js:52 | `emphasis added` is trimmed, lower-case and holds no locator |
| CitationParserFindings.EmphasisUnlabelled | src/parse-citation.js:15-68 | no label word fits `emphasis added` |
| CitationParserFindings.EmphasisDropped | src/parse-citation.js:222-238 | as written, `[@key, emphasis added]` loses its suffix |
| CitationParserFindings.KeptSuffixKeepsText | src/parse-citation.js:222-238 | corrected, a plain suffix always comes back as a suffix, and without label and locator it is the whole trimmed text |
| CitationParserFindings.EmphasisKept | src/parse-citation.js:222-238 | corrected, `emphasis added` is kept as the suffix |
| CitationParserFindings.IndentedTexts | src/parse-citation.js:110-112 | trimming `  see -` and `  se` |
| CitationParserFindings.UnindentedTexts | src/parse-citation.js:110-112 | trimming `see -` and `see ` |
| CitationParserFindings.UnindentedPrefix | src/parse-citation.js:108-116 | `see -` gives the prefix `see` with the author suppressed |
| CitationParserFindings.IndentedPrefixCut | src/parse-citation.js:110-112 | as written, `  see -` gives the prefix `se`: the cut is at the trimmed length of the untrimmed text |
| CitationParserFindings.IntendedPrefixOf | src/parse-citation.js:108-116 | corrected, the prefix is read from the trimmed text |
| CitationParserFindings.IntendedPrefixIgnoresSpaces | src/parse-citation.js:108-116 | corrected, white space around the prefix changes nothing |
| CitationParserFindings.IndentedPrefixIntended | src/parse-citation.js:108-116 | corrected, `  see -` gives the prefix `see` |
| LegacyRegex.KeyRun | regex.js:18 | the greedy run of key characters `[a-zA-Z0-9_:.#$%&\-+?<>~]*` |
| LegacyRegex.KeyAt | regex.js:18 | a key match starts at i iff `@` stands there followed by a key start; it then runs to the end of the key characters |
| LegacyRegex.FirstKeyFrom | regex.js:18 | the leftmost key match at or after a position, or none when there is none |
| LegacyRegex.FirstKey | regex.js:18 | the first key match covers `@` and at least one key character |
| LegacyRegex.KeyShape | regex.js:18 | the first key match is `@` followed by a key start and key characters |
| LegacyRegex.CloserOnLine | regex.js:19 | a `]` follows on the same line |
| LegacyRegex.BracketTestFromSound | regex.js:19 | the bracket test from a position holds iff a `[` at or after it is followed by a `]` on the same line |
| LegacyRegex.BracketTestSound | regex.js:19 | `citeBracketRe.test` holds iff some `[` is followed by a `]` on the same line |
| LegacyRegex.NextBracket | regex.js:17 | the first `[` or `]` at or after a position |
| LegacyRegex.HasAtWithTail | regex.js:17 | the body holds an `@` with at least one character after it |
| LegacyRegex.ExtractAt | regex.js:17 | a marker matched at a position starts there and is not empty |
| LegacyRegex.ExtractFrom | regex.js:17 | the leftmost position where `citeExtractorRe` matches, or none when it matches nowhere |
| LegacyRegex.ExtractBracketShape | regex.js:12-17 | a bracketed match is `[`, a body without brackets holding an `@` with something after it, and `]` |
| LegacyRegex.BracketShapeAt | regex.js:17 | the same at any position |
| LegacyRegex.ExtractInTextNotAfterWord | regex.js:13-17 | an in-text match starts with an `@` that no word character precedes, so e-mail addresses are not taken |
| LegacyRegex.NoMatchAfterWordChar | regex.js:14-17 | an `@` right after a word character never starts a match |
| LegacyParseCitation.MapLabel | parse-citation.js:131 | a word outside `locatorMapping` gives `page`; otherwise the label is the one the table gives |
| LegacyParseCitation.LocatorRunFrom | parse-citation.js:124 | the run of `(\d\|-\| \|,)+` starting at a position |
| LegacyParseCitation.FirstLocatorRun | parse-citation.js:124 | the first run of digits, `-`, spaces and commas, or none when there is none |
| LegacyParseCitation.SplitAny | parse-citation.js:130-133 | `split` with the empty string splits into characters; otherwise it is the ordinary split |
| LegacyParseCitation.LocatorPartsInRange | parse-citation.js:130-133 | the split at the trimmed locator always has a second piece, so reading it never fails |
| LegacyParseCitation.BlankRunInside | parse-citation.js:124-126 | a run that trims to nothing inside trimmed text means the text has two characters or more |
| LegacyParseCitation.TrimmedOccurs | parse-citation.js:126-130 | the trimmed locator occurs in the text where its run starts after its leading spaces |
| LegacyParseCitation.AfterKey | parse-citation.js:120-121 | the text after the key is trimmed |
| LegacyParseCitation.ParseEach | parse-citation.js:92-148 | one result per item, each the item's own |
| LegacyParseCitation.ParseItems | parse-citation.js:92-148 | when no item throws, one entry per item |
| LegacyParseCitation.ParseItemsPointwise | parse-citation.js:92-148 | the items parse iff each does, and then entry i is item i's |
| LegacyParseCitation.ParseCitationLoop | parse-citation.js:84-158 | the function's two branches and its loop give the specification's result |
| LegacyParseCitation.ParseItemsLoop | parse-citation.js:92-148 | the loop over the items gives the specification's result, stopping at the first throw |
| LegacyParseCitation.InTextForm | parse-citation.js:149-156 | without brackets the result is composite, note index 0, with one entry holding only the first key |
| LegacyParseCitation.BracketedForm | parse-citation.js:88-148 | with brackets, parsing succeeds iff every `;`-piece of the text inside parses, and then there is one non-composite entry per piece |
| LegacyParseCitation.ItemAtCount | parse-citation.js:98-103 | an item without `@` throws the missing-key error; one with two or more throws the several-keys error |
| LegacyParseCitation.SingleAt | parse-citation.js:98-104 | with one `@`, the split is the text before it and after it |
| LegacyParseCitation.ItemKey | parse-citation.js:112-117 | with one `@`, a key is found iff a key start follows the `@`, and then it starts at the `@` |
| LegacyParseCitation.MalformedKeyThrows | parse-citation.js:117 | with one `@` not followed by a key start, reading `match(...)[0]` throws |
| LegacyParseCitation.ItemSuppressAuthor | parse-citation.js:104-109 | the author is suppressed iff a `-` stands right before the `@`, and the prefix is the text before the `@` trimmed, without that `-` |
| LegacyParseCitation.ParsedHead | parse-citation.js:98-147 | a parsed item has one `@`, a key after it, and its id and prefix from them |
| LegacyParseCitation.PrefixOfHead | parse-citation.js:104-109 | the prefix read from the head |
| LegacyParseCitation.DropLast | parse-citation.js:109 | dropping the last character |
| LegacyParseCitation.ItemId | parse-citation.js:141 | the id is the key after the `@`, without the `@` |
| LegacyParseCitation.KeyOfHead | parse-citation.js:117-141 | the key read from the head |
| LegacyParseCitation.TrimEndKeepsLast | parse-citation.js:105 | trimming text that does not end in white space keeps its last character |
| LegacyParseCitation.NoRunDefaults | parse-citation.js:134-137 | without a locator run there is no locator, the label is `page` and all the text is suffix |
| LegacyParseCitation.FirstNonBlankRun | parse-citation.js:124-126 | the corrected search: the first run that holds more than spaces |
| LegacyParseCitation.IntendedLocatorFound | parse-citation.js:122-126 | corrected, a locator is found iff the text has a digit, `-` or `,` |
| LegacyParseCitation.SplitAgreesWhenLocatorUnique | parse-citation.js:124-137 | when the locator text does not occur again after its run, the code as written and the correction agree |
| LegacyParseCitation.FromUniqueRun | parse-citation.js:124-133 | then the locator is the trimmed run, the label is read from the text before it and the suffix is the text after it |
| LegacyParseCitation.LocatorLabelSuffixOfRun | parse-citation.js:124-133 | with a locator run, the locator, label and suffix come from splitting at the trimmed run |
| LegacyParseCitation.FromRunOfParts | parse-citation.js:130-133 | with two pieces, the label is read from the first and the suffix is the second trimmed |
| LegacyParseCitation.LocatorIndex | parse-citation.js:130 | the trimmed locator first occurs where its run starts, after its spaces |
| LegacyParseCitation.LabelText | parse-citation.js:130 | the label text is the text before the run, trimmed |
| LegacyParseCitation.SuffixText | parse-citation.js:133 | the text after the trimmed locator, trimmed, is the text after the run, trimmed |
| LegacyParseCitation.BlankRunSplitsCharacters | parse-citation.js:124-133 | as written, a first run of spaces only gives an empty locator; `split('')` then splits into characters, and the suffix is the second character |
| LegacyParseCitation.NoMarkIntended | parse-citation.js:134-137 | corrected, text with no digit, `-` or `,` is all suffix with label `page` |
| LegacyParseCitation.RecurringLocatorTruncatesSuffix | parse-citation.js:130-133 | as written, when the locator text occurs again later, the suffix stops before that second occurrence |
| LegacyParseCitation.IntendedSuffixIsRest | parse-citation.js:124-133 | corrected, the suffix is all the text after the locator run |
| LegacyParseCitation.FromRunSuffix | parse-citation.js:133 | the suffix is the second split piece, trimmed |
| LegacyParseCitation.PageThreeOfThree | parse-citation.js:124-133 | as written, `[@key, p. 3 of 3]` gets the suffix `of` |
| LegacyParseCitation.PageThreeOfThreeIntended | parse-citation.js:124-133 | corrected, it gets `of 3` |
| LegacyParseCitation.PageExampleRun | parse-citation.js:124-126 | its first locator run is ` 3 `, trimmed to `3` |
| LegacyParseCitation.PageExamplePieces | parse-citation.js:133 | the second piece of the split at `3` is ` of ` |
| LegacyParseCitation.PageExampleRest | parse-citation.js:133 | the text after the run is `of 3` |
| LegacyParseCitation.AndPassim | parse-citation.js:124-133 | as written, `[@key, and passim]` gets the suffix `n` |
| LegacyParseCitation.AndPassimIntended | parse-citation.js:134-137 | corrected, it keeps `and passim` as its suffix |
| LegacyParseCitation.PassimHasNoMark | parse-citation.js:124 | `and passim` holds no digit, `-` or `,` |
| LegacyParseCitation.PassimRun | parse-citation.js:124 | its first locator run is the single space |

## Left out

- File and network I/O are not modelled. The sources are parameters or not modelled at all: `readFile`, `isValidHttpUrl`, `getBibliography`, `loadCSL` and `loadLocale` in src/utils.js, and the bibliography fetch and read in src/generator.js:236-246.
- The CSL engine is an oracle, because citeproc is not part of this model:
  - `processCitationCluster` rows, `makeBibliography` (entry ids and entry HTML), the registry size and `registry.reflist` are parameters.
  - `updateItems` and `options.noCite` are not modelled.
  - `getCitationFormat` is not modelled, because it reads citeproc's style XML. The citation format (note, numeric, author-date) is a parameter.
- `getBibliographyEntryText` is called by src/gen-citation.js for tooltips, but src/utils.js does not define it. Its result is a parameter.
- Generator.CiteNode: the source writes the span's `id` attribute WITHOUT quotes (`id=${ids}` at src/generator.js:81 and 89, and src/gen-citation.js:80, 97, 115, 151 and 161). An HTML parser ends an unquoted value at the first whitespace or `>` and decodes character references in it. The model gives the span the whole `GenCitation.SpanId` as its `id`. So GeneratorBiblioProps.SpanIdKeys, GeneratorBiblioProps.CiteNodeId and GeneratorBiblioProps.CitationPushes describe the program only when no entry id holds whitespace, `>` or `&`. A key such as `a b` (from `[@{a b}]`, unbraced at src/parse-citation.js:98, or a CSL-JSON id with a space) gives the real span the id `citation--a` and a stray attribute `b--1`. The inline bibliography then reads back no key (src/generator.js:391-392) and pushes an empty `div`. The model reads back `a b`.
- `htmlToHast` (parse5 or the DOM) is not modelled. Engine HTML is kept as an opaque `Markup` leaf inside the fixed template elements the code builds around it.
- unist-util-visit is modelled as an explicit preorder walk over child lists. Re-entry into nodes the visitor has just inserted is not modelled: after a splice, the library moves on to the citation node and walks into it, while the model goes straight to the trailing text. In note mode the citation node's only text sits under an `a`, which is never rewritten. In text mode the engine's markup is opaque.
- GeneratorBiblio.PlaceNode: an inline bibliography block pushed into a parent's children is not visited again, although unist-util-visit reaches it (src/generator.js:386-418). A pushed block with keys starts with an inline entry element, whose `value` is not `[^ref]`, so the revisit leaves it alone. But a span id such as `citation-x` or `citation--a` gives no keys, so with `inlineBibClass` set an empty `div` is pushed, and as written the revisit throws at `children[0].value` (src/generator.js:414-417). The model returns `Ok` there instead. `PlaceList`, `PlaceAll`, `Placer.Visit`, `RunBiblioPhase` and `CitationPlugin.Transform` inherit this.
- The generator does not match the helper modules it imports:
  - It imports `citeExtractorRe` from src/regex.js, which does not export it.
  - It passes the matched string to `parseCitation`, which expects the captured groups.
  - So the marker finder and the marker parser are the `find` and `parse` fields of `Generator.Env`. The finder's one obligation (a non-empty match inside the text) is the predicate `FinderOk`.
- `citationRE` and `fullCitationRE` use lookbehind and backtracking. Their matches are records of captured groups, with predicates for the shapes the patterns allow, and are not a regex engine. `locatorRE` is modelled exactly.
- Unicode is only partly modelled:
  - `toLowerCase` is modelled for ASCII letters only.
  - `\p{L}` in src/regex.js is read as the ASCII letters.
  - The NFKD normalisation in `firstWord` (shared.js) is the identity. So an accented letter is dropped with the other non-ASCII characters, instead of leaving its base letter.
- Plain-object tables: JavaScript's `key in obj` and `obj[key]` also find the keys that a plain object inherits from `Object.prototype` (`constructor`, `toString`, `hasOwnProperty` and the rest), and `obj[key] = v` with the key `__proto__` replaces the prototype instead of adding a property. The model keeps every such table as its own properties only, so an inherited key is absent and `__proto__` is an ordinary key. Where the source uses `Object.prototype.hasOwnProperty` (`Register.has`, config.js `has`, type.js `hasTypeParser`) the model is exact. These members read an inherited key as absent, where the source finds a function:
  - LegacyParseCitation.MapLabel: `locatorMapping[label]` (root parse-citation.js:131). A label word `constructor` gives a function, not `page`.
  - BibtexShared.ParseMonth: `value in MONTHS` and `MONTHS[...]` (src/citation-js/plugin-bibtex/mapping/shared.js:131-143). `month = {constructor}` gives `[Object]` in the source and `[]` in the model.
  - BibtexMapping.CrossrefKey, BibtexMapping.Parent and BibtexMapping.Inherit: `entry.crossref in registry` (src/citation-js/plugin-bibtex/mapping/index.js:97). With `crossref = {toString}` the source reads `.properties` of a function, gets `undefined` and throws on `.crossref` in the recursion; the model keeps the entry unchanged.
  - BiblatexCrossref.Inherit: the same lookup at src/citation-js/plugin-bibtex/mapping/crossref.js:81.
  - BiblatexCrossref.TitleMap and BiblatexCrossref.TitleRule: `parent.type in TITLE_MAP` (crossref.js:106). A parent type `constructor` makes the source throw when it destructures a function; the model renames nothing.
  - Csl.CorrectType: `type in entryTypes` (src/citation-js/core/plugins/input/csl.js:297). Under best guess a type `constructor` becomes the function `Object` in the source and is dropped in the model.
  - BibtexEntries.ProblemOf: `type in requirements` (src/citation-js/plugin-bibtex/input/entries.js:63). A type `constructor` makes the source throw when it iterates a function; the model reports `invalid type`.
  - InputData.DataParsers.ParseData, InputData.DataParsers.ParseDataAsync and InputData.DataParsers.HasDataParser: `parsers[type]` (src/citation-js/core/plugins/input/data.js:19-31, 46). A type `constructor` finds the function `Object` and calls it.
  - TypeParser.TypeParsers.AddTypeParser: `format in unregExts` (src/citation-js/core/plugins/input/type.js:38). A format `constructor` takes the function as its queued children.
  - JsRegister.Register.Get and PluginConfig.Configs.Get: `this.data[key]` and `configs[ref]` (src/citation-js/core/util/register.js:19-21, src/citation-js/core/plugins/config.js:5). An inherited key gives a function, not `undefined`.
  - PluginIndex.Plugins.Has, PluginIndex.Plugins.Register and PluginIndex.Plugins.Unregister: `ref in indices` and `registers[type]` (src/citation-js/core/plugins/index.js:28-43). `has('toString')` is true in the source and false in the model.
- dict.js `htmlDict` and `textDict` (lines 48-67) are not modelled. The default register is modelled with its four pairs per dictionary.
- type.js `treeTypeParser` and `typeMatcher` (lines 88-101) are debugging helpers and are not modelled.
- `TypeParser.Match`: the recursion into extensions takes a `fuel` bound, and when the fuel runs out the result is a `RangeError`. A registry whose extension chain is deeper than the fuel is not covered.
- The `moo` lexer library is not modelled. `BibtexLexer` writes out its state table (the states and the push/pop of the state stack) over characters. A parse always starts from `BibtexRules.MainRule` (the rule `Main`), the first rule of `bibtexGrammar`. Choosing another main rule is not modelled.
- core/plugins/input/register.js is not part of this model, because it builds on `FormatParser`, which is not part of this model. The type and data registries it fills are modelled directly (`TypeParser`, `InputData`).
- Some mapping pieces are not part of this model, so the converters that need them are parameters:
  - the field tables in plugin-bibtex/mapping/biblatex.js and bibtex.js
  - value.js (`parseValue`, `parseAnnotation`)
  - required.js (the required-field table)
- shared.js `EPRINT`, `HOW_PUBLISHED`, `NAMES` and `STANDARD_NUMBERS` converters are not modelled. They need `@citation-js/name`, the URL and eprint tables, or `util.Translator`, which are not part of this model.
- The `/g` regex `lastIndex` state in `LABEL.toSource` is not modelled. The test is read as a fresh `test` each time.
- The CFF date and name converters (`Date.UTC`, `@citation-js/date`, `@citation-js/name`) are not modelled. The YAML output and the `plugins.add` registration of the CFF plugin are not modelled either.
- `parseName` in csl.js comes from `@citation-js/name` and is a parameter of `correctName`.
- A crossref chain that recurses forever in src/citation-js/plugin-bibtex/mapping/index.js (a 2-cycle) overflows the JavaScript stack. The model returns an error result instead.
- deepCopy works on a model of the JavaScript heap (object ids mapped to plain objects, arrays and other values). Properties are copied in the order they were added (see the `JsObject.Keys` line).
- JsObject.Keys: an object is its properties in the order they were added. `JsObject.Enumerated` and `JsObject.ObjectKeys` give the order of `Object.keys`, `Object.entries` and `for ... in` (array-index keys such as `"0"` or `"42"` first, in ascending numeric order, then the others in the order they were added). They are used by every `list()` method, `PluginDict.Validation`, `BibtexOutput.FormatEntry` and `BibtxtOutput.TxtFields`. The other walks over an object's keys use the order the keys were added, so they differ from JavaScript for objects holding array-index keys: `JsValue.ForIn` and its users `PluginIndex.Plugins.AddKindOf`, `AddNamesOf`, `UnregisterAll` and `Remove` (src/citation-js/core/plugins/index.js:15-37), `Csl.CleanFields` (src/citation-js/core/plugins/input/csl.js:342), `DeepCopy.CopiedProps` (src/citation-js/core/util/deepCopy.js:18); `BibtexEntries.ParseEntryValues` (src/citation-js/plugin-bibtex/input/entries.js:92-100); and `JsObject.Assign` and `JsObject.Without` (`Object.assign`, `Object.keys` in src/citation-js/plugin-bibtex/mapping/index.js:20). `JsObject.EnumeratedWithoutIndexKeys` proves the two orders are the same when no key is an array index.
- Asynchronous parsing (`dataAsync`) is modelled as a sequential choice among the async, native async and sync parsers. There is no interleaving.
- Root index.js, src/cite.js, the Cite/ wrappers (set, options, async, sort), fetchId.js, plugin-yaml, plugin-common JSON repair, bootstrap.js and the barrel `index.js` files are not part of this model. They are thin wiring over code that is not part of this model, or rely on randomness.
- Base.ToNumber reads a run of decimal digits only, and `Num` holds an integer. Fractions, exponents, hex literals, `NaN` and `Infinity` are not modelled. This affects `BibtexShared.ParseDate`, `BibtexShared.Plus` and `BibtexShared.ParseMonth` (a month `"3.5"` goes to the month-name lookup instead of giving `[3]`), and `Csl.CorrectPlain`, which stands for `parseFloat` in src/citation-js/core/plugins/input/csl.js:324.
- BibtexFile.Markers: the annotation markers are a parameter standing for `config.biber` (src/citation-js/plugin-bibtex/input/file.js:246-252). src/citation-js/plugin-bibtex/config.js does not define `biber`, so its value is not fixed by the code. `BibtexFile.AnnotationOf` and `BibtexFile.Place` take it as given.
- CiteLog.Revived: `toJSON` methods (a `Date` becomes its ISO string) and duplicate object keys are not modelled. An instance of another class is written as a plain object of its properties. `NaN` and `Infinity` (written as `null`) cannot occur, because `Num` holds an integer.
- CiteLog.Cite.constructor: the image is built from the parsed data and options as they are. The input parsing that the real `Cite` constructor does is not part of this model.

## Findings

| source | as written | input that shows it | evidently intended | confidence | as-written member | corrected member |
|---|---|---|---|---|---|---|
| src/gen-citation.js:65 | the tooltip replaces `"` with `&quot;` and then `&` with `&amp;`, so a quote becomes `&amp;quot;` | a bibliography text holding `"` | each character escaped once, so the attribute reads back as the original text | high (not executed) | GenCitationFindings.QuoteEscapedTwice | GenCitationFindings.UnescapeEscapeAttr |
| src/gen-footnote.js:57-65 | an existing footnote's `li` is found by its old label after earlier items have already relabelled other `li` nodes | a citation followed by footnotes `[^1]` and `[^2]`: the item of `[^1]` is relabelled 2, and then taken again for the second footnote, so `[^2]`'s item is lost | every existing footnote keeps its own item, numbered by its position | high (not executed) | GenFootnoteFindings.ExistingItemTakenTwice | GenFootnoteFindings.IntendedNumbering |
| src/generator.js:414-418 | the placeholder test reads `children[0].value` of every `p`/`div` without checking that there is a first child | a document holding an empty `<div></div>`, with one registry item: TypeError | an empty block is not a placeholder and is kept | high (not executed) | GeneratorBiblioFindings.EmptyDivFails | GeneratorBiblioFindings.IntendedEmptyDivKept |
| src/generator.js:379-407 | one entry node per key is shared by every inline bibliography block, and its id is overwritten at each use | two citations of key `a` with an inline class: both blocks show `inline--a--2` | each block has its own entry, with the number of its own citation | medium (not executed) | GeneratorBiblioFindings.SharedEntryShowsLastUse | GeneratorBiblioFindings.OwnEntryPerUse |
| src/citation-js/core/plugins/input/type.js:70-84 | `removeTypeParser` splices only the first occurrence of the name, and leaves queued children in `unregExts` | a format added twice to one data type and then removed: detecting the type of a string throws on the name still listed | every occurrence is removed, so `hasTypeParser` is false and matching never meets the name | medium (not executed) | TypeParserFindings.TwiceAddedRemovedThrows | TypeParserFindings.TwiceAddedRemovedAll |
| src/citation-js/plugin-csl/attr.js:12-25 | the id is put into the replacement string of `String.replace`, so `$&` in it stands for the match | `getPrefixedEntry("<div>", "a$&b")` gives `<div data-csl-entry-id="a<divb">` | the id inserted literally | high (not executed) | CslAttr.PrefixedDollarId | CslAttr.LiteralRoundTrip |
| src/citation-js/core/plugins/input/csl.js:292-300 | under best-guess, `correctType` calls `toLowerCase` on a type that is not a string | an entry with `type: null` or `type: true`: TypeError | a non-string type is dropped like any other invalid field | high (not executed) | CslFindings.TypeNullThrows | CslProps.TypeNeverThrows |
| src/citation-js/core/plugins/input/csl.js:331-337 | under best-guess, an array for a field that takes arrays is replaced by its corrected first element | `categories: ["a"]` is dropped | an array field keeps its array | medium (not executed) | CslFindings.CategoriesDropped | CslFindings.CategoriesKept |
| src/citation-js/plugin-bibtex/mapping/shared.js:158-277 | `firstWord` of a title with only stop words is `undefined`, and `label +=` appends the text `undefined` | an entry with id `x1`, no author and no date, titled `The`: the label is `undefined` | no title word is added, and the empty label falls back to the safe id `x1` | high (not executed) | BibtexSharedProps.StopWordTitleLabel | BibtexSharedProps.EmptyLabelFallsBack |
| src/citation-js/plugin-bibtex/mapping/shared.js:180-184 | an open range start `..` is mapped to `undefined`, and then its `date-parts` are read | `DATE` `../2020`: TypeError | a date with an open start is kept as a literal, like one whose start is not a number | high (not executed) | BibtexDateProps.OpenStart | BibtexShared.DateToTarget |
| src/citation-js/plugin-bibtex/mapping/index.js:97 | the registry is indexed with the crossref value without checking that it is set | an entry without `crossref` while an entry labelled `undefined` is registered: it inherits that entry's fields | an entry without crossref is returned unchanged | medium (not executed) | BibtexMappingProps.UndefinedExample | BibtexMappingProps.NoCrossrefKeeps |
| src/citation-js/plugin-bibtex/mapping/crossref.js:100-101 | the list of fields never inherited names `shortand` instead of `shorthand` | a parent with `shorthand`: the child inherits it | `shorthand` is never inherited | high (not executed) | BiblatexCrossrefProps.ShorthandInherited | BiblatexCrossrefProps.ShorthandNotInherited |
| parse-citation.js:124-133 | the locator run may be blank, and the suffix is cut at a later occurrence of it | `[@key, and passim]` gives the suffix `n` | without digits there is no locator, and the whole rest is the suffix | high (not executed) | LegacyParseCitation.AndPassim | LegacyParseCitation.AndPassimIntended |
| parse-citation.js:130-133 | the suffix is the text after the first occurrence of the locator text, cut at its next occurrence | `[@key, p. 3 of 3]` gives the suffix `of` | the suffix is the text right after the locator | high (not executed) | LegacyParseCitation.PageThreeOfThree | LegacyParseCitation.IntendedSuffixIsRest |
| src/regex.js:52 | the roman-numeral alternative of `locatorRE` matches the first letter of any word that starts with i, v, x, l, c, d or m | `in particular` gives the locator `i` | a roman locator ends at a word boundary | medium (not executed) | CitationRegex.RomanTakesWordStart | CitationRegex.IntendedRomanEndsWord |
| src/parse-citation.js:198-218 | label aliases are tried as prefixes in table order, so a singular alias shadows its plural | `pages 3-4` gives no locator and the suffix `s 3-4` | the longest alias wins, giving locator `3-4` | high (not executed) | CitationParserFindings.PagesLosesLocator | CitationParserFindings.PagesIntended |
| src/parse-citation.js:222-238 | a suffix with no label and no locator is dropped | `emphasis added` gives no suffix | the text is kept as the suffix | low (not executed) | CitationParserFindings.EmphasisDropped | CitationParserFindings.KeptSuffixKeepsText |
| src/parse-citation.js:108-116 | the trailing `-` is found on the trimmed prefix, but the cut is made on the untrimmed one | a bracketed text with a line break before an indented prefix, `[x⏎  see -@key]`: the prefix `  see -` becomes `se` | the dash is removed from the trimmed prefix, giving `see` | medium (not executed) | CitationParserFindings.IndentedPrefixCut | CitationParserFindings.IntendedPrefixOf |
