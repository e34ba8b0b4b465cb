// `format(src, dict)` of the BibTeX output plugin: each entry rendered as
// `@type{label,` with one `field = {value},` item per property, in the
// wrappers of an output dictionary.

module BibtexOutput {
  import opened Base
  import opened JsObject
  import opened BibtexData

  /** One property as a field item: `field = {value},` in the item wrapper. */
  function FieldItem(d: Dict, field: string, value: string): string {
    Join(d.listItem, field + " = {" + value + "},")
  }

  /** `.map(...)` over `Object.entries(properties)`: one item per listed property, in order. */
  function FieldItems(d: Dict, props: Props<string>): (r: seq<string>)
    ensures |r| == |props|
    ensures forall i :: 0 <= i < |props| ==> r[i] == FieldItem(d, props[i].0, props[i].1)
  {
    if props == [] then [] else [FieldItem(d, props[0].0, props[0].1)] + FieldItems(d, props[1..])
  }

  /** `formatEntry`: the fields in the order `Object.entries` lists the properties. */
  function FormatEntry(e: Entry, d: Dict): string {
    Join(d.entry, "@" + e.entryType + "{" + e.entryLabel + "," + Join(d.list, Concat(FieldItems(d, Enumerated(e.properties)))) + "}")
  }

  function FormatEntries(src: seq<Entry>, d: Dict): (r: seq<string>)
    ensures |r| == |src|
    ensures forall i :: 0 <= i < |src| ==> r[i] == FormatEntry(src[i], d)
  {
    if src == [] then [] else [FormatEntry(src[0], d)] + FormatEntries(src[1..], d)
  }

  /** `format`: the entries one after the other inside the bibliography container. */
  function Format(src: seq<Entry>, d: Dict): string {
    Join(d.bibliographyContainer, Concat(FormatEntries(src, d)))
  }

  /** Entries are rendered independently and in order: formatting two lists
      one after the other is formatting their concatenation. */
  lemma FormatEntriesAppend(a: seq<Entry>, b: seq<Entry>, d: Dict)
    ensures Concat(FormatEntries(a + b, d)) == Concat(FormatEntries(a, d)) + Concat(FormatEntries(b, d))
  {
    FormatEntriesSplit(a, b, d);
    ConcatAppend(FormatEntries(a, d), FormatEntries(b, d));
  }

  lemma {:induction false} FormatEntriesSplit(a: seq<Entry>, b: seq<Entry>, d: Dict)
    ensures FormatEntries(a + b, d) == FormatEntries(a, d) + FormatEntries(b, d)
    decreases |a|
  {
    if a == [] {
      assert a + b == b;
    } else {
      assert (a + b)[1..] == a[1..] + b;
      FormatEntriesSplit(a[1..], b, d);
    }
  }

  /** With a dictionary of two-part wrappers, the output is the container's
      opening, the entries, and the container's closing. */
  lemma FormatWrapped(src: seq<Entry>, d: Dict)
    requires |d.bibliographyContainer| == 2
    ensures Format(src, d) == d.bibliographyContainer[0] + Concat(FormatEntries(src, d)) + d.bibliographyContainer[1]
  {
    JoinPair(d.bibliographyContainer, Concat(FormatEntries(src, d)));
  }

  /** The text line of one field. */
  function FieldLine(field: string, value: string): string {
    "\t" + field + " = {" + value + "},"
  }

  function FieldLines(props: Props<string>): (r: seq<string>)
    ensures |r| == |props|
    ensures forall i :: 0 <= i < |props| ==> r[i] == FieldLine(props[i].0, props[i].1)
  {
    if props == [] then [] else [FieldLine(props[0].0, props[0].1)] + FieldLines(props[1..])
  }

  predicate OneLine(s: string) { '\n' !in s }

  predicate PropsOnOneLine(props: Props<string>) {
    forall i :: 0 <= i < |props| ==> OneLine(props[i].0) && OneLine(props[i].1)
  }

  lemma {:induction false} FieldItemsLines(props: Props<string>, rest: string)
    requires PropsOnOneLine(props)
    ensures Split(Concat(FieldItems(TextDict, props)) + rest, "\n") == FieldLines(props) + Split(rest, "\n")
    decreases |props|
  {
    if props == [] {
      assert Concat([]) + rest == rest;
    } else {
      var line := FieldLine(props[0].0, props[0].1);
      var tail := Concat(FieldItems(TextDict, props[1..])) + rest;
      FieldItemsHead(props, rest);
      FieldLineOneLine(props[0].0, props[0].1);
      SplitLine(line, tail);
      FieldItemsLines(props[1..], rest);
      assert [line] + (FieldLines(props[1..]) + Split(rest, "\n")) == FieldLines(props) + Split(rest, "\n");
    }
  }

  lemma FieldItemsHead(props: Props<string>, rest: string)
    requires props != []
    ensures Concat(FieldItems(TextDict, props)) + rest ==
      FieldLine(props[0].0, props[0].1) + "\n" + (Concat(FieldItems(TextDict, props[1..])) + rest)
  {
    var item := FieldItem(TextDict, props[0].0, props[0].1);
    var items := FieldItems(TextDict, props[1..]);
    assert Concat(FieldItems(TextDict, props)) == item + Concat(items) by {
      ConcatCons(item, items);
    }
    TextItem(props[0].0, props[0].1);
    LineThenRest(Concat(FieldItems(TextDict, props)), item, FieldLine(props[0].0, props[0].1), Concat(items), rest);
  }

  lemma LineThenRest(whole: string, item: string, line: string, more: string, rest: string)
    requires whole == item + more && item == line + "\n"
    ensures whole + rest == line + "\n" + (more + rest)
  {
  }

  lemma TextItem(field: string, value: string)
    ensures FieldItem(TextDict, field, value) == FieldLine(field, value) + "\n"
  {
    JoinPair(TextDict.listItem, field + " = {" + value + "},");
  }

  lemma FieldLineOneLine(field: string, value: string)
    requires OneLine(field) && OneLine(value)
    ensures OneLine(FieldLine(field, value))
  {
  }

  /** In the `text` dictionary an entry is a header line, then one line per
      property in `Object.entries` order, then the closing brace. */
  lemma TextEntryLines(e: Entry)
    requires OneLine(e.entryType) && OneLine(e.entryLabel) && PropsOnOneLine(e.properties)
    ensures Split(FormatEntry(e, TextDict), "\n") ==
      ["@" + e.entryType + "{" + e.entryLabel + ","] + FieldLines(Enumerated(e.properties)) + ["}", ""]
    ensures |Split(FormatEntry(e, TextDict), "\n")| == |e.properties| + 3
  {
    var listed := Enumerated(e.properties);
    var fields := Concat(FieldItems(TextDict, listed));
    var head := "@" + e.entryType + "{" + e.entryLabel + ",";
    EnumeratedAll(e.properties, (p: (string, string)) => OneLine(p.0) && OneLine(p.1));
    HeadOneLine(e.entryType, e.entryLabel);
    EntryBlockLines(head, listed, "}\n");
    ClosingLines();
    assert FormatEntry(e, TextDict) == Join(TextDict.entry, head + Join(TextDict.list, fields) + "}");
    TextEntryText(head, fields);
  }

  /** A header line followed by the joined property lines, split back into lines. */
  lemma EntryBlockLines(head: string, listed: Props<string>, rest: string)
    requires OneLine(head) && PropsOnOneLine(listed)
    ensures Split(head + "\n" + (Concat(FieldItems(TextDict, listed)) + rest), "\n") ==
      [head] + FieldLines(listed) + Split(rest, "\n")
  {
    var block := Concat(FieldItems(TextDict, listed)) + rest;
    var lines, tail := FieldLines(listed), Split(rest, "\n");
    assert [head] + (lines + tail) == [head] + lines + tail;
    assert Split(block, "\n") == lines + tail by {
      FieldItemsLines(listed, rest);
    }
    assert Split(head + "\n" + block, "\n") == [head] + Split(block, "\n") by {
      SplitLine(head, block);
    }
  }

  lemma TextEntryText(head: string, fields: string)
    ensures Join(TextDict.entry, head + Join(TextDict.list, fields) + "}") == head + "\n" + (fields + "}\n")
  {
    JoinPair(TextDict.list, fields);
    var body := head + ("\n" + fields + "") + "}";
    JoinPair(TextDict.entry, body);
  }

  lemma HeadOneLine(entryType: string, entryLabel: string)
    requires OneLine(entryType) && OneLine(entryLabel)
    ensures OneLine("@" + entryType + "{" + entryLabel + ",")
  {
  }

  lemma ClosingLines()
    ensures Split("}\n", "\n") == ["}", ""]
  {
    SplitLine("}", "");
    SplitNoLine("");
    assert "}" + "\n" + "" == "}\n";
  }
}
