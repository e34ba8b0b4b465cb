// `format(src, dict)` of the bibtxt output plugin: each entry is `[label]`
// followed by one `field: value` item per property and a final `type` item.

module BibtxtOutput {
  import opened Base
  import opened JsObject
  import opened BibtexData

  /** One item: `field: value` in the item wrapper. */
  function TxtItem(d: Dict, field: string, value: string): string {
    Join(d.listItem, field + ": " + value)
  }

  /** `Object.entries(properties)`, then `['type', type]`. */
  function TxtFields(e: Entry): (r: Props<string>)
    ensures |r| == |e.properties| + 1 && r[|e.properties|] == ("type", e.entryType)
    ensures r[..|e.properties|] == Enumerated(e.properties)
  {
    Enumerated(e.properties) + [("type", e.entryType)]
  }

  function TxtItems(d: Dict, fields: Props<string>): (r: seq<string>)
    ensures |r| == |fields|
    ensures forall i :: 0 <= i < |fields| ==> r[i] == TxtItem(d, fields[i].0, fields[i].1)
  {
    if fields == [] then [] else [TxtItem(d, fields[0].0, fields[0].1)] + TxtItems(d, fields[1..])
  }

  /** `formatEntry`. */
  function FormatEntry(e: Entry, d: Dict): string {
    Join(d.entry, "[" + e.entryLabel + "]" + Join(d.list, Concat(TxtItems(d, TxtFields(e)))))
  }

  function FormatEntries(src: seq<Entry>, d: Dict): (r: seq<string>)
    ensures |r| == |src|
    ensures forall i :: 0 <= i < |src| ==> r[i] == FormatEntry(src[i], d)
  {
    if src == [] then [] else [FormatEntry(src[0], d)] + FormatEntries(src[1..], d)
  }

  /** `format`: the entries joined by newlines inside the bibliography container. */
  function Format(src: seq<Entry>, d: Dict): string {
    Join(d.bibliographyContainer, Join(FormatEntries(src, d), "\n"))
  }
}
