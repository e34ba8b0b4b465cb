// The shapes the BibTeX plugin's formatters and parsers share: an entry
// `{ type, label, properties }` and an output dictionary of wrappers.

module BibtexData {
  import opened Base
  import opened JsObject

  /** A BibTeX entry: its type, its citation label and its fields in order. */
  datatype Entry = Entry(entryType: string, entryLabel: string, properties: Props<string>)

  /** An output dictionary (`plugins.dict.get(name)`): each element is an
      array of strings, and `element.join(text)` puts `text` between its parts. */
  datatype Dict = Dict(bibliographyContainer: seq<string>, entry: seq<string>, list: seq<string>, listItem: seq<string>)

  /** The default `text` dictionary (src/citation-js/core/plugins/dict.js). */
  const TextDict := Dict(["", "\n"], ["", "\n"], ["\n", ""], ["\t", "\n"])

  /** The default `html` dictionary. */
  const HtmlDict := Dict(["<div class=\"csl-bib-body\">", "</div>"], ["<div class=\"csl-entry\">", "</div>"],
                         ["<ul style=\"list-style-type:none\">", "</ul>"], ["<li>", "</li>"])

  /** `parts.join('')`. */
  function Concat(parts: seq<string>): string {
    Join(parts, "")
  }

  lemma ConcatCons(p: string, rest: seq<string>)
    ensures Concat([p] + rest) == p + Concat(rest)
  {
    if rest == [] {
      assert [p] + rest == [p];
    } else {
      JoinCons(p, rest, "");
    }
  }

  /** Joining without a separator distributes over appending the lists. */
  lemma {:induction false} ConcatAppend(a: seq<string>, b: seq<string>)
    ensures Concat(a + b) == Concat(a) + Concat(b)
    decreases |a|
  {
    if a == [] {
      assert a + b == b;
    } else {
      assert a + b == [a[0]] + (a[1..] + b);
      ConcatCons(a[0], a[1..] + b);
      ConcatAppend(a[1..], b);
      ConcatCons(a[0], a[1..]);
      assert [a[0]] + a[1..] == a;
    }
  }

  /** A two-part wrapper around a text. */
  lemma JoinPair(pair: seq<string>, s: string)
    requires |pair| == 2
    ensures Join(pair, s) == pair[0] + s + pair[1]
  {
    assert pair[1..] == [pair[1]];
  }

  /** The first line of a text and the lines after it. */
  lemma SplitLine(a: string, b: string)
    requires '\n' !in a
    ensures Split(a + "\n" + b, "\n") == [a] + Split(b, "\n")
  {
    var s := a + "\n" + b;
    assert OccursAt(s, "\n", |a|) by {
      assert s[|a|..|a| + 1] == "\n";
    }
    forall i: nat | i < |a| ensures !OccursAt(s, "\n", i) {
      assert s[i] == a[i];
    }
    IndexOfAt(s, "\n", |a|);
    assert s[..|a|] == a;
    assert s[|a| + 1..] == b;
  }

  /** A text without a newline is one line. */
  lemma SplitNoLine(a: string)
    requires '\n' !in a
    ensures Split(a, "\n") == [a]
  {
    forall i: nat ensures !OccursAt(a, "\n", i) {
      if i + 1 <= |a| {
        assert a[i..i + 1][0] == a[i];
      }
    }
    IndexOfFirst(a, "\n");
  }
}
