// The bibtxt parser reads back what the bibtxt formatter writes with the
// `text` dictionary, for entries the format can carry: labels and values on
// one line, keys without `:`, no key `type`, and no key twice.

module BibtxtProps {
  import opened Base
  import opened JsObject
  import opened BibtexData
  import opened BibtxtOutput
  import opened BibtxtInput

  predicate Trimmed(s: string) { s != [] && !IsSpace(s[0]) && !IsSpace(s[|s| - 1]) }

  predicate NoTerminator(s: string) { forall i :: 0 <= i < |s| ==> !IsLineTerminator(s[i]) }

  /** A field that a `key: value` line carries unchanged. */
  predicate FieldOk(k: string, v: string) {
    Trimmed(k) && NoTerminator(k) && ':' !in k && k[0] != '[' && k != "type" && Trimmed(v) && NoTerminator(v)
  }

  /** An entry that the bibtxt text format carries unchanged. */
  predicate EntryOk(e: Entry) {
    e.entryLabel != [] && NoTerminator(e.entryLabel) && ']' !in e.entryLabel
    && Trimmed(e.entryType) && NoTerminator(e.entryType)
    && Distinct(e.properties)
    && forall i :: 0 <= i < |e.properties| ==> FieldOk(e.properties[i].0, e.properties[i].1)
  }

  /** The entry with its properties in the order `Object.entries` lists them. */
  function Listed(e: Entry): (r: Entry)
    ensures r.entryType == e.entryType && r.entryLabel == e.entryLabel
    ensures multiset(r.properties) == multiset(e.properties)
  {
    EnumeratedPermutation(e.properties);
    e.(properties := Enumerated(e.properties))
  }

  /** Listing the properties keeps an entry carriable, and the fields written
      are the listed properties and the type. */
  lemma ListedOk(e: Entry)
    requires EntryOk(e)
    ensures EntryOk(Listed(e))
    ensures TxtFields(e) == Listed(e).properties + [("type", e.entryType)]
  {
    var listed := Listed(e).properties;
    EnumeratedDistinct(e.properties);
    EnumeratedAll(e.properties, (p: (string, string)) => FieldOk(p.0, p.1));
  }

  /** Without array-index keys an entry is listed as it is. */
  lemma ListedWithoutIndexKeys(e: Entry)
    requires forall i :: 0 <= i < |e.properties| ==> !IsIndexKey(e.properties[i].0)
    ensures Listed(e) == e
  {
    EnumeratedWithoutIndexKeys(e.properties);
  }

  function Line(f: (string, string)): string { f.0 + ": " + f.1 }

  function Lines(fields: Props<string>): (r: seq<string>)
    ensures |r| == |fields|
    ensures forall i :: 0 <= i < |fields| ==> r[i] == Line(fields[i])
  {
    if fields == [] then [] else [Line(fields[0])] + Lines(fields[1..])
  }

  predicate LineOk(l: string) { Trimmed(l) && NoTerminator(l) && l[0] != '[' }

  predicate AllLinesOk(lines: seq<string>) { forall i :: 0 <= i < |lines| ==> LineOk(lines[i]) }

  /** The field lines of an entry, separated as the `text` dictionary separates them. */
  function Body(e: Entry): string { Join(Lines(TxtFields(e)), "\n\t") }

  /** An entry's text without the newlines that close it. */
  function Piece(e: Entry): string { "[" + e.entryLabel + "]" + "\n\t" + Body(e) }

  // ---------------------------------------------------------------------
  // The formatter's output

  lemma {:induction false} ItemsText(fields: Props<string>)
    requires |fields| >= 1
    ensures Concat(TxtItems(TextDict, fields)) == "\t" + Join(Lines(fields), "\n\t") + "\n"
    decreases |fields|
  {
    var item := TxtItem(TextDict, fields[0].0, fields[0].1);
    JoinPair(TextDict.listItem, fields[0].0 + ": " + fields[0].1);
    assert item == "\t" + Line(fields[0]) + "\n";
    ConcatCons(item, TxtItems(TextDict, fields[1..]));
    if |fields| == 1 {
      assert TxtItems(TextDict, fields[1..]) == [];
    } else {
      ItemsText(fields[1..]);
      assert Lines(fields) == [Line(fields[0])] + Lines(fields[1..]);
      JoinCons(Line(fields[0]), Lines(fields[1..]), "\n\t");
    }
  }

  lemma FormatEntryText(e: Entry)
    ensures FormatEntry(e, TextDict) == Piece(e) + "\n\n"
  {
    var fields := TxtFields(e);
    ItemsText(fields);
    var items := Concat(TxtItems(TextDict, fields));
    JoinPair(TextDict.list, items);
    JoinPair(TextDict.entry, "[" + e.entryLabel + "]" + ("\n" + items + ""));
  }

  // ---------------------------------------------------------------------
  // Field lines

  lemma LineOfField(k: string, v: string)
    requires Trimmed(k) && NoTerminator(k) && k[0] != '[' && Trimmed(v) && NoTerminator(v)
    ensures LineOk(k + ": " + v)
  {
    var l := k + ": " + v;
    assert l[0] == k[0] && l[|l| - 1] == v[|v| - 1];
    forall i | 0 <= i < |l| ensures !IsLineTerminator(l[i]) {
      if i < |k| { assert l[i] == k[i]; }
      else if i >= |k| + 2 { assert l[i] == v[i - |k| - 2]; }
    }
  }

  lemma EntryLinesOk(e: Entry)
    requires EntryOk(e)
    ensures AllLinesOk(Lines(TxtFields(e)))
  {
    ListedOk(e);
    TypedLinesOk(Listed(e).properties, e.entryType);
  }

  /** Carriable fields followed by the type give carriable lines. */
  lemma TypedLinesOk(fields: Props<string>, entryType: string)
    requires forall i :: 0 <= i < |fields| ==> FieldOk(fields[i].0, fields[i].1)
    requires Trimmed(entryType) && NoTerminator(entryType)
    ensures AllLinesOk(Lines(fields + [("type", entryType)]))
  {
    var all := fields + [("type", entryType)];
    var lines := Lines(all);
    forall i | 0 <= i < |lines| ensures LineOk(lines[i]) {
      if i < |fields| {
        var (k, v) := fields[i];
        assert lines[i] == k + ": " + v;
        LineOfField(k, v);
      } else {
        assert all[i] == ("type", entryType);
        TypeLineOk(entryType);
      }
    }
  }

  lemma TypeLineOk(entryType: string)
    requires Trimmed(entryType) && NoTerminator(entryType)
    ensures LineOk(Line(("type", entryType)))
  {
    var t := "type";
    assert t[0] == 't' && t[|t| - 1] == 'e';
    assert NoTerminator(t) by {
      forall i | 0 <= i < |t| ensures !IsLineTerminator(t[i]) {
        assert t[i] in "type";
      }
    }
    LineOfField(t, entryType);
  }

  /** A line with no newline and nothing blank at its end holds no `splitPairs` match. */
  lemma NoPairBreakInLine(s: string, l: string, q: nat)
    requires LineOk(l) && |l| <= |s| && s[..|l|] == l && q < |l|
    ensures PairBreakAt(s, q).None?
  {
    var w := BlankEnd(s, q);
    assert s[|l| - 1] == l[|l| - 1];
    assert !IsBlank(s[|l| - 1]);
    assert w < |l|;
    assert s[w] == l[w];
  }

  /** A single line is one piece. */
  lemma SplitPairsLine(l: string)
    requires LineOk(l)
    ensures SplitPairs(l) == [Some(l)]
  {
    forall q | 0 <= q < |l| ensures PairBreakAt(l, q).None? {
      NoPairBreakInLine(l, l, q);
    }
    assert FirstPairBreak(l, 0).None?;
  }

  /** A line, a newline and a tab, and more: the line is the first piece, and
      the separator captures nothing. */
  lemma SplitPairsCons(l: string, rest: string)
    requires LineOk(l) && rest != [] && !IsSpace(rest[0])
    ensures SplitPairs(l + "\n\t" + rest) == [Some(l), None] + SplitPairs(rest)
  {
    var s := l + "\n\t" + rest;
    forall q | 0 <= q < |l| ensures PairBreakAt(s, q).None? {
      assert s[..|l|] == l;
      NoPairBreakInLine(s, l, q);
    }
    assert s[|l|] == '\n' && s[|l| + 1] == '\t' && s[|l| + 2] == rest[0];
    assert BlankEnd(s, |l|) == |l|;
    assert SpaceEndFrom(s, |l| + 1) == |l| + 2 by {
      assert SpaceEndFrom(s, |l| + 2) == |l| + 2;
    }
    assert PairBreakAt(s, |l|) == Some((|l| + 2, None));
    assert FirstPairBreak(s, 0) == Some(|l|);
    assert s[..|l|] == l && s[|l| + 2..] == rest;
  }

  lemma TruthySkips(l: string, tail: seq<Option<string>>)
    requires l != []
    ensures Truthy([Some(l), None] + tail) == [l] + Truthy(tail)
    ensures Truthy([Some(l)]) == [l]
  {
    assert ([Some(l), None] + tail)[1..] == [None] + tail;
    assert ([None] + tail)[1..] == tail;
    assert Truthy([Some(l)]) == [l] + Truthy([]);
  }

  lemma AllLinesOkTail(lines: seq<string>)
    requires |lines| >= 1 && AllLinesOk(lines)
    ensures AllLinesOk(lines[1..]) && LineOk(lines[0])
    ensures lines == [lines[0]] + lines[1..]
  {
    forall i | 0 <= i < |lines[1..]| ensures LineOk(lines[1..][i]) {
      assert lines[1..][i] == lines[i + 1];
    }
  }

  /** `splitPairs` cuts the joined lines back into the lines. */
  lemma {:induction false} SplitPairsJoin(lines: seq<string>)
    requires |lines| >= 1 && AllLinesOk(lines)
    ensures Truthy(SplitPairs(Join(lines, "\n\t"))) == lines
    decreases |lines|
  {
    var l := lines[0];
    AllLinesOkTail(lines);
    if |lines| == 1 {
      SplitPairsLine(l);
      TruthySkips(l, []);
    } else {
      var rest := Join(lines[1..], "\n\t");
      JoinCons(l, lines[1..], "\n\t");
      JoinHead(lines[1..]);
      SplitPairsCons(l, rest);
      TruthySkips(l, SplitPairs(rest));
      SplitPairsJoin(lines[1..]);
    }
  }

  /** Joined lines start with the first line's first character and end with
      the last line's last character. */
  lemma {:induction false} JoinHead(lines: seq<string>)
    requires |lines| >= 1 && AllLinesOk(lines)
    ensures Trimmed(Join(lines, "\n\t"))
    ensures Join(lines, "\n\t")[0] == lines[0][0]
    decreases |lines|
  {
    if |lines| > 1 {
      JoinCons(lines[0], lines[1..], "\n\t");
      assert lines == [lines[0]] + lines[1..];
      assert AllLinesOk(lines[1..]) by {
        forall i | 0 <= i < |lines[1..]| ensures LineOk(lines[1..][i]) {
          assert lines[1..][i] == lines[i + 1];
        }
      }
      JoinHead(lines[1..]);
    }
  }

  // ---------------------------------------------------------------------
  // The entry pattern

  /** The lazy label grows over characters that are neither `]` nor a line terminator. */
  lemma {:induction false} LabelScanSkips(s: string, j: nat, stop: nat)
    requires 2 <= j <= stop < |s|
    requires forall k :: j <= k < stop ==> s[k] != ']' && !IsLineTerminator(s[k])
    ensures LabelScan(s, j) == LabelScan(s, stop)
    decreases stop - j
  {
    if j < stop {
      LabelScanSkips(s, j + 1, stop);
    }
  }

  /** `[label]`, a newline and a tab, and field text starting with something
      other than white space. */
  lemma EntryMatchText(L: string, B: string, tail: string)
    requires L != [] && NoTerminator(L) && ']' !in L && B != [] && !IsSpace(B[0])
    ensures EntryMatch("[" + L + "]" + ("\n\t" + B + tail)) == Some((L, Some("\t" + B + tail)))
  {
    var r := "\n\t" + B + tail;
    var s := "[" + L + "]" + r;
    var stop := |L| + 1;
    forall k | 2 <= k < stop ensures s[k] != ']' && !IsLineTerminator(s[k]) {
      assert s[k] == L[k - 1];
    }
    assert s[1] == L[0];
    assert s[stop] == ']';
    assert s[stop + 1..] == r;
    assert s[1..stop] == L;
    assert SpaceEndFrom(r, 0) == 2 by {
      assert r[2] == B[0];
      assert SpaceEndFrom(r, 2) == 2;
    }
    assert LastNewlineBefore(r, 2) == 0;
    assert RestMatch(r) == Some(Some(r[1..]));
    assert r[1..] == "\t" + B + tail;
    LabelScanSkips(s, 2, stop);
  }

  lemma EntryMatchPiece(e: Entry, tail: string)
    requires EntryOk(e) && AllSpace(tail)
    ensures EntryMatch(Piece(e) + tail) == Some((e.entryLabel, Some("\t" + Body(e) + tail)))
  {
    var body := Body(e);
    assert body != [] && !IsSpace(body[0]) by {
      EntryLinesOk(e);
      JoinHead(Lines(TxtFields(e)));
    }
    EntryMatchText(e.entryLabel, body, tail);
    PieceTail(e.entryLabel, body, tail);
  }

  lemma PieceTail(key: string, body: string, tail: string)
    ensures "[" + key + "]" + "\n\t" + body + tail == "[" + key + "]" + ("\n\t" + body + tail)
  {
  }

  // ---------------------------------------------------------------------
  // The field assignments

  lemma SplitFieldLine(k: string, v: string)
    requires ':' !in k && NoTerminator(v) && v != []
    ensures SplitPair(k + ": " + v) == Some((k, " " + v))
  {
    var l := k + ": " + v;
    assert l[|k|] == ':' && l[..|k|] == k;
    assert ':' in l;
    var c := IndexOfChar(l, ':');
    assert forall i :: 0 <= i < |k| ==> l[i] == k[i] && l[i] != ':';
    assert c == |k|;
    forall i | |k| + 1 <= i < |l| ensures !IsLineTerminator(l[i]) {
      if i > |k| + 1 { assert l[i] == v[i - |k| - 2]; }
    }
    assert LineEnd(l, |k| + 1) == |l|;
    assert l[|k| + 1..|l|] == " " + v;
    assert l[..c] == k;
  }

  lemma TrimSpaced(v: string)
    requires Trimmed(v)
    ensures Trim(" " + v) == v && Trim(v) == v
  {
    TrimUnique(" " + v, 1, |v| + 1);
    assert (" " + v)[1..|v| + 1] == v;
    TrimOfTrimmed(v);
  }

  lemma NewKeyAppended(o: Props<string>, k: string, v: string)
    requires forall i :: 0 <= i < |o| ==> o[i].0 != k
    ensures Set(o, k, v) == o + [(k, v)]
  {
  }

  /** A `key: value` line for a key not yet there appends the property. */
  lemma AssignField(t: string, name: string, acc: Props<string>, k: string, v: string)
    requires FieldOk(k, v)
    requires forall i :: 0 <= i < |acc| ==> acc[i].0 != k
    ensures BibtxtInput.Assign(Entry(t, name, acc), k + ": " + v) == Entry(t, name, acc + [(k, v)])
  {
    var line := k + ": " + v;
    SplitFieldLine(k, v);
    var m := SplitPair(line);
    assert m == Some((k, " " + v));
    TrimSpaced(v);
    TrimSpaced(k);
    assert BibtxtInput.Assign(Entry(t, name, acc), line) == Store(Entry(t, name, acc), Trim(m.value.0), Trim(m.value.1));
    NewKeyAppended(acc, k, v);
  }

  /** The field lines are assigned one after the other. */
  lemma {:induction false} FillAppend(out: Entry, a: seq<string>, b: seq<string>)
    ensures Fill(out, a + b) == Fill(Fill(out, a), b)
    decreases |a|
  {
    if a == [] {
      assert a + b == b;
    } else {
      assert (a + b)[0] == a[0];
      assert (a + b)[1..] == a[1..] + b;
      FillAppend(BibtxtInput.Assign(out, a[0]), a[1..], b);
    }
  }

  /** The first field line of a run of fresh keys appends its property. */
  lemma FillStep(t: string, name: string, acc: Props<string>, props: Props<string>)
    requires props != [] && Distinct(acc + props) && FieldOk(props[0].0, props[0].1)
    ensures Fill(Entry(t, name, acc), Lines(props)) == Fill(Entry(t, name, acc + [props[0]]), Lines(props[1..]))
  {
    var k := props[0].0;
    var v := props[0].1;
    var all := acc + props;
    var lines := Lines(props);
    assert lines[0] == k + ": " + v;
    assert lines[1..] == Lines(props[1..]);
    forall i | 0 <= i < |acc| ensures acc[i].0 != k {
      assert all[i] == acc[i] && all[|acc|] == (k, v);
    }
    AssignField(t, name, acc, k, v);
  }

  predicate FieldsOk(props: Props<string>) {
    forall i :: 0 <= i < |props| ==> FieldOk(props[i].0, props[i].1)
  }

  lemma FieldsOkTail(acc: Props<string>, props: Props<string>)
    requires props != [] && FieldsOk(props) && Distinct(acc + props)
    ensures FieldsOk(props[1..]) && FieldOk(props[0].0, props[0].1)
    ensures (acc + [props[0]]) + props[1..] == acc + props
    ensures Distinct((acc + [props[0]]) + props[1..])
  {
    assert forall i :: 0 <= i < |props[1..]| ==> props[1..][i] == props[i + 1];
    assert (acc + [props[0]]) + props[1..] == acc + props;
  }

  /** Distinct keys are assigned in order, each appended as a new property. */
  lemma {:induction false} FillFields(t: string, name: string, acc: Props<string>, props: Props<string>)
    requires Distinct(acc + props) && FieldsOk(props)
    ensures Fill(Entry(t, name, acc), Lines(props)) == Entry(t, name, acc + props)
    decreases |props|
  {
    if props == [] {
      assert acc + props == acc;
    } else {
      FieldsOkTail(acc, props);
      FillStep(t, name, acc, props);
      FillFields(t, name, acc + [props[0]], props[1..]);
    }
  }

  /** The closing `type: ...` line sets the type. */
  lemma TypeLine(out: Entry, t: string)
    requires Trimmed(t) && NoTerminator(t)
    ensures BibtxtInput.Assign(out, "type: " + t) == out.(entryType := t)
  {
    var line := "type: " + t;
    assert SplitPair(line) == Some(("type", " " + t)) by {
      TypeColon(t);
      SplitFieldLine("type", t);
    }
    assert Trim("type") == "type" && Trim(" " + t) == t by {
      TrimSpaced(t);
      TrimSpaced("type");
    }
  }

  lemma TypeColon(t: string)
    ensures "type: " + t == "type" + ": " + t
  {
  }

  lemma FillEntry(e: Entry)
    requires EntryOk(e)
    ensures Fill(Entry("book", e.entryLabel, []), Lines(TxtFields(e))) == Listed(e)
  {
    var start := Entry("book", e.entryLabel, []);
    var typeLine := "type: " + e.entryType;
    var props := Listed(e).properties;
    var mid := Entry("book", e.entryLabel, props);
    ListedOk(e);
    TxtLines(e);
    FillAppend(start, Lines(props), [typeLine]);
    assert Fill(start, Lines(props)) == mid by {
      assert [] + props == props;
      FillFields("book", e.entryLabel, [], props);
    }
    assert Fill(mid, [typeLine]) == Listed(e) by {
      TypeLine(mid, e.entryType);
      assert [typeLine][1..] == [];
    }
  }

  /** The lines of an entry's fields are its properties' lines, then its type. */
  lemma TxtLines(e: Entry)
    ensures Lines(TxtFields(e)) == Lines(Listed(e).properties) + ["type: " + e.entryType]
  {
    var a := Lines(TxtFields(e));
    var b := Lines(Listed(e).properties) + ["type: " + e.entryType];
    assert |a| == |b|;
    forall i | 0 <= i < |a| ensures a[i] == b[i] {
      if i < |e.properties| {
        assert TxtFields(e)[i] == Listed(e).properties[i];
      }
    }
  }

  // ---------------------------------------------------------------------
  // Round trips

  /** The text of an entry, followed by any white space, parses back to the entry. */
  lemma PieceRoundTrip(e: Entry, tail: string)
    requires EntryOk(e) && AllSpace(tail)
    ensures ParseEntry(Piece(e) + tail) == Parsed(Listed(e))
  {
    var B := Body(e);
    var lines := Lines(TxtFields(e));
    assert EntryMatch(Piece(e) + tail) == Some((e.entryLabel, Some("\t" + B + tail))) by {
      EntryMatchPiece(e, tail);
    }
    assert PairLines("\t" + B + tail) == lines by {
      EntryLinesOk(e);
      JoinHead(lines);
      TrimBody(B, tail);
      SplitPairsJoin(lines);
    }
    FillEntry(e);
  }

  lemma TrimBody(B: string, tail: string)
    requires Trimmed(B) && AllSpace(tail)
    ensures Trim("\t" + B + tail) == B
  {
    TrimUnique("\t" + B + tail, 1, |B| + 1);
    assert ("\t" + B + tail)[1..|B| + 1] == B;
  }

  /** `textEntry(formatEntry(e, text))` is `e` with its properties in
      `Object.entries` order, so `e` itself when no key is an array index. */
  lemma EntryRoundTrip(e: Entry)
    requires EntryOk(e)
    ensures ParseEntry(FormatEntry(e, TextDict)) == Parsed(Listed(e))
    ensures (forall i :: 0 <= i < |e.properties| ==> !IsIndexKey(e.properties[i].0)) ==>
      ParseEntry(FormatEntry(e, TextDict)) == Parsed(e)
  {
    FormatEntryText(e);
    PieceRoundTrip(e, "\n\n");
    if forall i :: 0 <= i < |e.properties| ==> !IsIndexKey(e.properties[i].0) {
      ListedWithoutIndexKeys(e);
    }
  }

  // ---------------------------------------------------------------------
  // A whole file

  /** Every newline is followed by a tab and then by the start of a field:
      never by white space and a `[`, so `splitEntries` does not cut there. */
  predicate Guarded(s: string) {
    forall k :: 0 <= k < |s| && s[k] == '\n' ==> k + 2 < |s| && s[k + 1] == '\t' && !IsSpace(s[k + 2]) && s[k + 2] != '['
  }

  lemma GuardedCons(a: string, b: string)
    requires '\n' !in a && Guarded(b) && b != [] && !IsSpace(b[0]) && b[0] != '['
    ensures Guarded(a + "\n\t" + b)
  {
    var s := a + "\n\t" + b;
    forall k | 0 <= k < |a| ensures s[k] != '\n' {
      assert s[k] == a[k];
    }
    forall k | 0 <= k < |s| && s[k] == '\n'
      ensures k + 2 < |s| && s[k + 1] == '\t' && !IsSpace(s[k + 2]) && s[k + 2] != '['
    {
      if k > |a| + 1 {
        assert s[k] == b[k - |a| - 2];
        assert s[k + 2] == b[k - |a|];
      } else {
        assert k == |a|;
        assert s[k + 2] == b[0];
      }
    }
  }

  lemma {:induction false} GuardedJoin(lines: seq<string>)
    requires |lines| >= 1 && AllLinesOk(lines)
    ensures Guarded(Join(lines, "\n\t"))
    decreases |lines|
  {
    if |lines| == 1 {
      assert '\n' !in lines[0] by {
        assert forall i :: 0 <= i < |lines[0]| ==> !IsLineTerminator(lines[0][i]);
      }
    } else {
      JoinCons(lines[0], lines[1..], "\n\t");
      assert lines == [lines[0]] + lines[1..];
      assert AllLinesOk(lines[1..]) by {
        forall i | 0 <= i < |lines[1..]| ensures LineOk(lines[1..][i]) {
          assert lines[1..][i] == lines[i + 1];
        }
      }
      GuardedJoin(lines[1..]);
      JoinHead(lines[1..]);
      assert '\n' !in lines[0] by {
        assert forall i :: 0 <= i < |lines[0]| ==> !IsLineTerminator(lines[0][i]);
      }
      GuardedCons(lines[0], Join(lines[1..], "\n\t"));
    }
  }

  /** What an entry's piece of a file looks like. */
  lemma PieceShape(e: Entry)
    requires EntryOk(e)
    ensures Guarded(Piece(e)) && Piece(e)[0] == '[' && !IsSpace(Piece(e)[|Piece(e)| - 1])
  {
    var lines := Lines(TxtFields(e));
    EntryLinesOk(e);
    JoinHead(lines);
    GuardedJoin(lines);
    var head := "[" + e.entryLabel + "]";
    assert '\n' !in head by {
      assert forall i :: 1 <= i < |head| - 1 ==> head[i] == e.entryLabel[i - 1];
    }
    GuardedCons(head, Body(e));
    assert Piece(e) == head + "\n\t" + Body(e);
  }

  predicate PieceOk(p: string) {
    p != [] && Guarded(p) && p[0] == '[' && !IsSpace(p[|p| - 1])
  }

  function Pieces(src: seq<Entry>): (r: seq<string>)
    ensures |r| == |src| && forall i :: 0 <= i < |src| ==> r[i] == Piece(src[i])
  {
    if src == [] then [] else [Piece(src[0])] + Pieces(src[1..])
  }

  /** The formatted entries joined by newlines are the pieces joined by blank lines. */
  lemma {:induction false} JoinFormatted(src: seq<Entry>)
    requires |src| >= 1
    ensures Join(FormatEntries(src, TextDict), "\n") == Join(Pieces(src), "\n\n\n") + "\n\n"
    decreases |src|
  {
    FormatEntryText(src[0]);
    if |src| > 1 {
      JoinFormatted(src[1..]);
      assert FormatEntries(src, TextDict) == [FormatEntry(src[0], TextDict)] + FormatEntries(src[1..], TextDict);
      JoinCons(FormatEntry(src[0], TextDict), FormatEntries(src[1..], TextDict), "\n");
      assert Pieces(src) == [Piece(src[0])] + Pieces(src[1..]);
      JoinCons(Piece(src[0]), Pieces(src[1..]), "\n\n\n");
      BlankLineGap(FormatEntry(src[0], TextDict), Piece(src[0]),
        Join(FormatEntries(src[1..], TextDict), "\n"), Join(Pieces(src[1..]), "\n\n\n"));
    }
  }

  lemma BlankLineGap(entry: string, piece: string, more: string, pieces: string)
    requires entry == piece + "\n\n" && more == pieces + "\n\n"
    ensures entry + "\n" + more == piece + "\n\n\n" + pieces + "\n\n"
  {
  }

  /** The first and last characters of joined non-empty pieces. */
  lemma {:induction false} JoinEnds(ps: seq<string>, sep: string)
    requires |ps| >= 1 && forall i :: 0 <= i < |ps| ==> ps[i] != []
    ensures |Join(ps, sep)| >= |ps[0]|
    ensures Join(ps, sep)[0] == ps[0][0]
    ensures Join(ps, sep)[|Join(ps, sep)| - 1] == ps[|ps| - 1][|ps[|ps| - 1]| - 1]
    decreases |ps|
  {
    if |ps| > 1 {
      JoinCons(ps[0], ps[1..], sep);
      assert ps == [ps[0]] + ps[1..];
      JoinEnds(ps[1..], sep);
    }
  }

  lemma {:induction false} SplitEntriesJoin(ps: seq<string>)
    requires |ps| >= 1 && forall i :: 0 <= i < |ps| ==> PieceOk(ps[i])
    ensures SplitEntries(Join(ps, "\n\n\n")) == ps
    decreases |ps|
  {
    var p := ps[0];
    if |ps| == 1 {
      forall k | 0 <= k < |p| ensures EntryBreakAt(p, k).None? {
        NoEntryBreakInPiece(p, p, k);
      }
      assert FirstEntryBreak(p, 0).None?;
    } else {
      var rest := Join(ps[1..], "\n\n\n");
      JoinCons(p, ps[1..], "\n\n\n");
      assert ps == [p] + ps[1..];
      var s := p + "\n\n\n" + rest;
      assert forall i :: 0 <= i < |ps[1..]| ==> ps[1..][i] == ps[i + 1];
      JoinEnds(ps[1..], "\n\n\n");
      forall k | 0 <= k < |p| ensures EntryBreakAt(s, k).None? {
        NoEntryBreakInPiece(s, p, k);
      }
      assert s[|p| + 3] == rest[0] == '[';
      assert SpaceEndFrom(s, |p| + 1) == |p| + 3 by {
        assert SpaceEndFrom(s, |p| + 3) == |p| + 3;
      }
      assert EntryBreakAt(s, |p|) == Some(|p| + 3);
      assert FirstEntryBreak(s, 0) == Some(|p|);
      assert s[..|p|] == p && s[|p| + 3..] == rest;
      SplitEntriesJoin(ps[1..]);
    }
  }

  /** No `splitEntries` match starts inside a piece. */
  lemma NoEntryBreakInPiece(s: string, p: string, k: nat)
    requires PieceOk(p) && |p| <= |s| && s[..|p|] == p && k < |p|
    ensures EntryBreakAt(s, k).None?
  {
    assert s[k] == p[k];
    if p[k] == '\n' {
      assert s[k + 1] == p[k + 1] && s[k + 2] == p[k + 2];
      assert SpaceEndFrom(s, k + 1) == k + 2 by {
        assert SpaceEndFrom(s, k + 2) == k + 2;
      }
    }
  }

  lemma {:induction false} ParseAllPieces(src: seq<Entry>)
    requires forall i :: 0 <= i < |src| ==> EntryOk(src[i])
    ensures ParseAll(Pieces(src)) == ParsedAll(src)
    decreases |src|
  {
    if src != [] {
      PieceRoundTrip(src[0], "");
      assert Piece(src[0]) + "" == Piece(src[0]);
      assert forall i :: 0 <= i < |src[1..]| ==> src[1..][i] == src[i + 1];
      ParseAllPieces(src[1..]);
    }
  }

  /** Each entry read back, with its properties in `Object.entries` order. */
  function ParsedAll(src: seq<Entry>): (r: seq<Parsed>)
    ensures |r| == |src| && forall i :: 0 <= i < |src| ==> r[i] == Parsed(Listed(src[i]))
  {
    if src == [] then [] else [Parsed(Listed(src[0]))] + ParsedAll(src[1..])
  }

  /** The `text` output of entries: the pieces separated and followed by blank lines. */
  lemma FormatText(src: seq<Entry>)
    requires |src| >= 1
    ensures Format(src, TextDict) == Join(Pieces(src), "\n\n\n") + "\n\n\n"
  {
    var j := Join(FormatEntries(src, TextDict), "\n");
    JoinFormatted(src);
    JoinPair(TextDict.bibliographyContainer, j);
    ThreeNewlines(Join(Pieces(src), "\n\n\n"));
  }

  lemma ThreeNewlines(q: string)
    ensures "" + (q + "\n\n") + "\n" == q + "\n\n\n"
  {
  }

  lemma TrimFile(ps: seq<string>)
    requires |ps| >= 1 && forall i :: 0 <= i < |ps| ==> PieceOk(ps[i])
    ensures Trim(Join(ps, "\n\n\n") + "\n\n\n") == Join(ps, "\n\n\n")
  {
    var q := Join(ps, "\n\n\n");
    var first, last := ps[0], ps[|ps| - 1];
    assert PieceOk(first) && PieceOk(last);
    assert q != [] && q[0] == first[0] && q[|q| - 1] == last[|last| - 1] by {
      forall i | 0 <= i < |ps| ensures ps[i] != [] {
        assert PieceOk(ps[i]);
      }
      JoinEnds(ps, "\n\n\n");
    }
    BracketNotSpace();
    TrimTrailingNewlines(q);
  }

  lemma BracketNotSpace()
    ensures !IsSpace('[')
  {
  }

  lemma TrimTrailingNewlines(q: string)
    requires q != [] && !IsSpace(q[0]) && !IsSpace(q[|q| - 1])
    ensures Trim(q + "\n\n\n") == q
  {
    NewlinesSpace();
    TrimIgnoresTrailingSpaces(q, "\n\n\n");
    TrimOfTrimmed(q);
  }

  lemma NewlinesSpace()
    ensures AllSpace("\n\n\n")
  {
    assert IsSpace('\n');
  }

  lemma PiecesOk(src: seq<Entry>)
    requires forall i :: 0 <= i < |src| ==> EntryOk(src[i])
    ensures forall i :: 0 <= i < |Pieces(src)| ==> PieceOk(Pieces(src)[i])
  {
    forall i | 0 <= i < |src| ensures PieceOk(Pieces(src)[i]) {
      PieceShape(src[i]);
    }
  }

  /** The formatted file, trimmed and cut at its entry breaks, is the entries' texts. */
  lemma FileSplits(src: seq<Entry>)
    requires |src| >= 1 && forall i :: 0 <= i < |src| ==> EntryOk(src[i])
    ensures SplitEntries(Trim(Format(src, TextDict))) == Pieces(src)
  {
    var ps := Pieces(src);
    PiecesOk(src);
    assert Trim(Format(src, TextDict)) == Join(ps, "\n\n\n") by {
      FormatText(src);
      TrimFile(ps);
    }
    SplitEntriesJoin(ps);
  }

  /** `parse(format(src, text))` gives back every entry, in order, each with
      its properties in `Object.entries` order: the entry itself when no key
      is an array index. */
  lemma FileRoundTrip(src: seq<Entry>)
    requires |src| >= 1 && forall i :: 0 <= i < |src| ==> EntryOk(src[i])
    ensures ParseBibTxt(Format(src, TextDict)) == ParsedAll(src)
    ensures forall i :: 0 <= i < |src| && (forall j :: 0 <= j < |src[i].properties| ==> !IsIndexKey(src[i].properties[j].0)) ==>
      ParseBibTxt(Format(src, TextDict))[i] == Parsed(src[i])
  {
    FileSplits(src);
    ParseOfPieces(Format(src, TextDict), Pieces(src));
    ParseAllPieces(src);
    forall i | 0 <= i < |src| && (forall j :: 0 <= j < |src[i].properties| ==> !IsIndexKey(src[i].properties[j].0))
      ensures ParseBibTxt(Format(src, TextDict))[i] == Parsed(src[i])
    {
      ListedWithoutIndexKeys(src[i]);
    }
  }

  lemma ParseOfPieces(text: string, ps: seq<string>)
    requires SplitEntries(Trim(text)) == ps
    ensures ParseBibTxt(text) == ParseAll(ps)
  {
  }

  /** With no entries the text is a single newline, which parses to one `{}`. */
  lemma EmptyFile()
    ensures ParseBibTxt(Format([], TextDict)) == [NoEntry]
  {
    var none: seq<string> := [];
    assert FormatEntries([], TextDict) == none;
    JoinPair(TextDict.bibliographyContainer, "");
    assert Format([], TextDict) == "\n";
    TrimUnique("\n", 1, 1);
    assert Trim("\n") == [];
    assert SplitEntries([]) == [[]];
  }
}
