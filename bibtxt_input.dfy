// The bibtxt input parser: a file of entries, each `[label]` followed by
// `key: value` lines. The regular expressions of the parser are written out
// here as scanners that follow JavaScript's matching order.

module BibtxtInput {
  import opened Base
  import opened JsObject
  import opened BibtexData

  /** What `parseBibTxtEntry` gives: `{}`, or an entry. */
  datatype Parsed = NoEntry | Parsed(entry: Entry)

  // ---------------------------------------------------------------------
  // parseEntry: /^\[(.+?)\]\s*(?:\n([\s\S]+))?$/

  /** The last newline before index `k`, or -1. */
  function LastNewlineBefore(r: string, k: nat): (i: int)
    requires k <= |r|
    ensures -1 <= i < k && (i >= 0 ==> r[i] == '\n')
    ensures forall j :: i < j < k ==> r[j] != '\n'
  {
    if k == 0 then -1 else if r[k - 1] == '\n' then k - 1 else LastNewlineBefore(r, k - 1)
  }

  /**
   * `\s*(?:\n([\s\S]+))?$` against the text after the closing bracket:
   * `None` when it does not match, `Some(None)` when it matches without the
   * optional group, `Some(Some(p))` when the group captures `p`. The greedy
   * `\s*` gives back white space until a newline starts the group.
   */
  function RestMatch(r: string): (m: Option<Option<string>>)
    ensures m == Some(None) <==> AllSpace(r)
    ensures m.Some? && m.value.Some? ==> (
      var p := m.value.value;
      |p| > 0 && |p| < |r| && r[|r| - |p| - 1] == '\n' && r[|r| - |p|..] == p && AllSpace(r[..|r| - |p|]))
  {
    var mx := SpaceEndFrom(r, 0);
    if mx == |r| then Some(None)
    else
      var i := LastNewlineBefore(r, mx);
      if i < 0 then None else Some(Some(r[i + 1..]))
  }

  /** The lazy `(.+?)`: the shortest label, on one line, after which `]` and
      a matching rest follow. */
  function LabelScan(s: string, j: nat): (m: Option<(string, Option<string>)>)
    requires 2 <= j <= |s|
    ensures m.Some? ==> 1 <= |m.value.0| < |s| && m.value.0 == s[1..1 + |m.value.0|]
    decreases |s| - j
  {
    if j == |s| then None
    else if s[j] == ']' && RestMatch(s[j + 1..]).Some? then Some((s[1..j], RestMatch(s[j + 1..]).value))
    else if IsLineTerminator(s[j]) then None
    else LabelScan(s, j + 1)
  }

  /** The match of `parseEntry`: the label and the optional field text. */
  function EntryMatch(s: string): Option<(string, Option<string>)> {
    if |s| < 2 || s[0] != '[' || IsLineTerminator(s[1]) then None else LabelScan(s, 2)
  }

  // ---------------------------------------------------------------------
  // splitPairs: /((?=.)\s)*\n\s*/g

  /** White space that `.` matches: everything in `\s` but line terminators. */
  predicate IsBlank(c: char) { IsSpace(c) && !IsLineTerminator(c) }

  function BlankEnd(s: string, q: nat): (w: nat)
    requires q <= |s|
    ensures q <= w <= |s| && (w < |s| ==> !IsBlank(s[w]))
    ensures forall k :: q <= k < w ==> IsBlank(s[k])
    decreases |s| - q
  {
    if q < |s| && IsBlank(s[q]) then BlankEnd(s, q + 1) else q
  }

  /** A match of `splitPairs` starting at `q`: where it ends, and the captured
      group (the last blank before the newline, or `undefined`). */
  function PairBreakAt(s: string, q: nat): (m: Option<(nat, Option<string>)>)
    requires q <= |s|
    ensures m.Some? ==> q < m.value.0 <= |s|
  {
    var w := BlankEnd(s, q);
    if w < |s| && s[w] == '\n' then Some((SpaceEndFrom(s, w + 1), if w > q then Some([s[w - 1]]) else None))
    else None
  }

  /** The leftmost match at or after `q`, as `split` searches for it. */
  function FirstPairBreak(s: string, q: nat): (r: Option<nat>)
    requires q <= |s|
    ensures r.Some? ==> q <= r.value < |s| && PairBreakAt(s, r.value).Some?
    ensures r.Some? ==> forall k :: q <= k < r.value ==> PairBreakAt(s, k).None?
    ensures r.None? ==> forall k :: q <= k < |s| ==> PairBreakAt(s, k).None?
    decreases |s| - q
  {
    if q >= |s| then None
    else if PairBreakAt(s, q).Some? then Some(q)
    else FirstPairBreak(s, q + 1)
  }

  /** `s.split(splitPairs)`: the pieces, with the captured group after each
      separator (`None` for `undefined`). */
  function SplitPairs(s: string): (r: seq<Option<string>>)
    ensures |r| >= 1
    decreases |s|
  {
    match FirstPairBreak(s, 0)
    case None => [Some(s)]
    case Some(q) =>
      var m := PairBreakAt(s, q).value;
      [Some(s[..q]), m.1] + SplitPairs(s[m.0..])
  }

  /** `.filter((v) => v)`: the defined, non-empty pieces. */
  function Truthy(pieces: seq<Option<string>>): (r: seq<string>)
    ensures forall i :: 0 <= i < |r| ==> r[i] != []
    ensures |r| <= |pieces|
  {
    if pieces == [] then []
    else if pieces[0].Some? && pieces[0].value != [] then [pieces[0].value] + Truthy(pieces[1..])
    else Truthy(pieces[1..])
  }

  // ---------------------------------------------------------------------
  // splitPair: /:(.*)/

  /** The first line terminator at or after `i`, or the end. */
  function LineEnd(s: string, i: nat): (t: nat)
    requires i <= |s|
    ensures i <= t <= |s| && (t < |s| ==> IsLineTerminator(s[t]))
    ensures forall k :: i <= k < t ==> !IsLineTerminator(s[k])
    decreases |s| - i
  {
    if i < |s| && !IsLineTerminator(s[i]) then LineEnd(s, i + 1) else i
  }

  /** `[key, value] = pair.split(/:(.*)/)` when `value` is truthy: the text
      before the first `:`, and the rest of that line after it. */
  function SplitPair(pair: string): (r: Option<(string, string)>)
    ensures r.Some? ==> ':' !in r.value.0 && r.value.1 != [] && |r.value.0| < |pair| && pair[..|r.value.0|] == r.value.0
  {
    var c := IndexOfChar(pair, ':');
    if c < 0 then None
    else
      var v := pair[c + 1..LineEnd(pair, c + 1)];
      if v == [] then None else Some((pair[..c], v))
  }

  // ---------------------------------------------------------------------
  // parseBibTxtEntry

  /** A trimmed key and value: `type` sets the type, any other key a property. */
  function Store(out: Entry, key: string, value: string): (r: Entry)
    ensures r.entryLabel == out.entryLabel
  {
    if key == "type" then out.(entryType := value)
    else out.(properties := Set(out.properties, key, value))
  }

  /** The body of the `forEach`: a line with a value is stored, trimmed. */
  function Assign(out: Entry, pair: string): (r: Entry)
    ensures r.entryLabel == out.entryLabel
  {
    match SplitPair(pair)
    case None => out
    case Some(kv) => Store(out, Trim(kv.0), Trim(kv.1))
  }

  /** The `forEach` over the field lines, from the left. */
  function Fill(out: Entry, pairs: seq<string>): (r: Entry)
    ensures r.entryLabel == out.entryLabel
    decreases |pairs|
  {
    if pairs == [] then out else Fill(Assign(out, pairs[0]), pairs[1..])
  }

  /** The field lines of an entry's field text. */
  function PairLines(pairs: string): seq<string> {
    Truthy(SplitPairs(Trim(pairs)))
  }

  /** `parseBibTxtEntry`. */
  function ParseEntry(s: string): (r: Parsed)
    ensures r.Parsed? ==> EntryMatch(s).Some? && r.entry.entryLabel == EntryMatch(s).value.0
    ensures r.NoEntry? <==> EntryMatch(s).None? || EntryMatch(s).value.1.None?
  {
    match EntryMatch(s)
    case None => NoEntry
    case Some((name, pairs)) =>
      if pairs.None? then NoEntry
      else Parsed(Fill(Entry("book", name, []), PairLines(pairs.value)))
  }

  /** `parseBibTxtEntry` as the source writes it: a loop assigning each field
      line into the output in turn. */
  method ParseBibTxtEntry(s: string) returns (r: Parsed)
    ensures r == ParseEntry(s)
  {
    var m := EntryMatch(s);
    if m.None? || m.value.1.None? {
      return NoEntry;
    }
    var lines := PairLines(m.value.1.value);
    var out := Entry("book", m.value.0, []);
    ghost var start := out;
    var i := 0;
    assert lines[0..] == lines;
    while i < |lines|
      invariant i <= |lines|
      invariant Fill(start, lines) == Fill(out, lines[i..])
    {
      assert lines[i..][1..] == lines[i + 1..];
      var pair := SplitPair(lines[i]);
      if pair.Some? {
        var key := Trim(pair.value.0);
        var value := Trim(pair.value.1);
        if key == "type" {
          out := out.(entryType := value);
        } else {
          out := out.(properties := Set(out.properties, key, value));
        }
      }
      i := i + 1;
    }
    r := Parsed(out);
  }

  // ---------------------------------------------------------------------
  // parseBibTxt: splitEntries /\n\s*(?=\[)/g

  /** A match of `splitEntries` at `q`: a newline, white space, and a `[`
      that is looked at but not consumed; the index of that `[`. */
  function EntryBreakAt(s: string, q: nat): (m: Option<nat>)
    requires q <= |s|
    ensures m.Some? ==> q < m.value < |s| && s[m.value] == '['
  {
    if q < |s| && s[q] == '\n' then
      var e := SpaceEndFrom(s, q + 1);
      if e < |s| && s[e] == '[' then Some(e) else None
    else None
  }

  function FirstEntryBreak(s: string, q: nat): (r: Option<nat>)
    requires q <= |s|
    ensures r.Some? ==> q <= r.value < |s| && EntryBreakAt(s, r.value).Some?
    ensures r.Some? ==> forall k :: q <= k < r.value ==> EntryBreakAt(s, k).None?
    ensures r.None? ==> forall k :: q <= k < |s| ==> EntryBreakAt(s, k).None?
    decreases |s| - q
  {
    if q >= |s| then None
    else if EntryBreakAt(s, q).Some? then Some(q)
    else FirstEntryBreak(s, q + 1)
  }

  /** `s.split(splitEntries)`. */
  function SplitEntries(s: string): (r: seq<string>)
    ensures |r| >= 1
    decreases |s|
  {
    match FirstEntryBreak(s, 0)
    case None => [s]
    case Some(q) => [s[..q]] + SplitEntries(s[EntryBreakAt(s, q).value..])
  }

  function ParseAll(pieces: seq<string>): (r: seq<Parsed>)
    ensures |r| == |pieces|
    ensures forall i :: 0 <= i < |pieces| ==> r[i] == ParseEntry(pieces[i])
  {
    if pieces == [] then [] else [ParseEntry(pieces[0])] + ParseAll(pieces[1..])
  }

  /** `parseBibTxt`: the trimmed file split into entries, each parsed. */
  function ParseBibTxt(src: string): (r: seq<Parsed>)
    ensures |r| >= 1
  {
    ParseAll(SplitEntries(Trim(src)))
  }
}
