// Rendering one citation cluster: asking the citation engine for its text,
// then wrapping it in a span, optionally with links to the bibliography and
// tooltips.

module GenCitation {
  import opened Base
  import opened CiteItems
  import opened Utils
  import opened Hast

  /** The engine's citation mode (`citeproc.opt.xclass`). */
  datatype Mode = Note | InText

  /** The style's citation format. */
  datatype CitationFormat = AuthorDate | AuthorOnly | Numeric | NoteFormat | LabelFormat

  /** The options this step reads; an absent option is `None`. */
  datatype Options = Options(
    inlineClass: Option<seq<string>>,
    linkCitations: bool,
    showTooltips: Option<bool>,
    tooltipAttribute: Option<string>)

  /** The cluster handed to the engine, with the clusters cited before it. */
  datatype ClusterRequest = ClusterRequest(
    citationID: string,
    citationItems: seq<CiteItem>,
    noteIndex: nat,
    composite: bool,
    citationsPre: seq<(string, int)>)

  /** One row of the engine's answer: position, rendered text, cluster id. */
  datatype ClusterRow = ClusterRow(index: int, text: string, citationID: string)

  // ---------------------------------------------------------------------
  // Keys and ids

  /** The cluster id `${citationIdRoot}-${citationId}`. */
  function CitationKey(root: string, n: nat): string {
    root + "-" + NatToString(n)
  }

  /** Different numbers give different cluster ids. */
  lemma CitationKeyInjective(root: string, m: nat, n: nat)
    requires CitationKey(root, m) == CitationKey(root, n)
    ensures m == n
  {
    assert NatToString(m) == CitationKey(root, m)[|root| + 1..];
    assert NatToString(n) == CitationKey(root, n)[|root| + 1..];
    NatToStringInjective(m, n);
  }

  /** The request: in-text clusters have note index 0, notes their number. */
  function RequestFor(mode: Mode, entries: seq<CiteItem>, root: string, n: nat,
                      pre: seq<(string, int)>, composite: bool): ClusterRequest
  {
    ClusterRequest(CitationKey(root, n), entries, if mode == InText then 0 else n, composite, pre)
  }

  /** `rows.find(x => x[2] === key)[1]`: the text of the first row for the key. */
  function RowText(rows: seq<ClusterRow>, key: string): (r: Option<string>)
    ensures r.None? <==> forall j :: 0 <= j < |rows| ==> rows[j].citationID != key
    ensures r.Some? ==> exists j :: 0 <= j < |rows| && rows[j].citationID == key && rows[j].text == r.value &&
                          forall i :: 0 <= i < j ==> rows[i].citationID != key
  {
    if rows == [] then None
    else if rows[0].citationID == key then Some(rows[0].text)
    else
      var r := RowText(rows[1..], key);
      if r.Some? then
        ghost var j :| 0 < j + 1 <= |rows[1..]| && rows[1..][j].citationID == key && rows[1..][j].text == r.value &&
                       forall i :: 0 <= i < j ==> rows[1..][i].citationID != key;
        assert rows[j + 1] == rows[1..][j];
        assert forall i :: 0 <= i < j + 1 ==> rows[i].citationID != key by {
          forall i | 0 <= i < j + 1 ensures rows[i].citationID != key {
            if i > 0 { assert rows[i] == rows[1..][i - 1]; }
          }
        }
        r
      else r
  }

  /** The lower-cased keys of the entries. */
  function LowerIds(entries: seq<CiteItem>): (r: seq<string>)
    ensures |r| == |entries| && forall i :: 0 <= i < |r| ==> r[i] == ToLower(entries[i].id)
  {
    if entries == [] then [] else [ToLower(entries[0].id)] + LowerIds(entries[1..])
  }

  /** The span id `citation--{ids joined by --}--{n}`. */
  function SpanId(entries: seq<CiteItem>, n: nat): string {
    "citation--" + Join(LowerIds(entries), "--") + "--" + NatToString(n)
  }

  // ---------------------------------------------------------------------
  // Tooltips

  /** The attribute escaping as written: quotes first, then ampersands. */
  function EscapeAsWritten(s: string): string {
    ReplaceChar(ReplaceChar(s, '"', "&quot;"), '&', "&amp;")
  }

  /** A quote never survives the escaping. */
  lemma EscapeAsWrittenHasNoQuote(s: string)
    ensures '"' !in EscapeAsWritten(s)
  {
    var t := ReplaceChar(s, '"', "&quot;");
    assert '"' !in "&quot;";
    assert '"' !in "&amp;";
  }

  /** `tooltipMap`: each entry's lower-cased key mapped to its escaped
      bibliography text; a later entry with the same key wins. */
  function TooltipMap(entries: seq<CiteItem>, bibText: string -> string): (m: map<string, string>)
    ensures forall i :: 0 <= i < |entries| ==> ToLower(entries[i].id) in m
    ensures forall k :: k in m ==> exists i :: 0 <= i < |entries| && ToLower(entries[i].id) == k
    decreases |entries|
  {
    if entries == [] then map[]
    else
      var last := entries[|entries| - 1];
      var m := TooltipMap(entries[..|entries| - 1], bibText);
      assert forall i :: 0 <= i < |entries| - 1 ==> entries[i] == entries[..|entries| - 1][i];
      m[ToLower(last.id) := EscapeAsWritten(bibText(last.id))]
  }

  function ShowTooltips(o: Options): bool { o.showTooltips.GetOr(false) }

  function TooltipAttribute(o: Options): string { o.tooltipAttribute.GetOr("title") }

  /** `tooltipMap[refId]`; a missing key reads as the text `undefined`. */
  function TooltipOf(tips: map<string, string>, refId: string): string {
    if refId in tips then tips[refId] else "undefined"
  }

  /** The tooltip attribute of one link, empty unless tooltips are shown. */
  function LinkTooltip(o: Options, tips: map<string, string>, refId: string): string {
    if ShowTooltips(o) then " " + TooltipAttribute(o) + "=\"" + TooltipOf(tips, refId) + "\"" else ""
  }

  function TooltipsOf(tips: map<string, string>, entries: seq<CiteItem>): (r: seq<string>)
    ensures |r| == |entries|
  {
    if entries == [] then [] else [TooltipOf(tips, ToLower(entries[0].id))] + TooltipsOf(tips, entries[1..])
  }

  /** The combined tooltip of the wrapping span, entries joined by `; `. */
  function WrapperTooltip(o: Options, tips: map<string, string>, entries: seq<CiteItem>): string {
    if ShowTooltips(o) then " " + TooltipAttribute(o) + "=\"" + Join(TooltipsOf(tips, entries), "; ") + "\"" else ""
  }

  // ---------------------------------------------------------------------
  // Linked text

  /** A stretch of citation text, either left as it is or linked to the
      bibliography entry `bib-{refId}`. */
  datatype Piece = Plain(text: string) | Link(refId: string, text: string)

  /** The text with the links taken out again. */
  function Erase(ps: seq<Piece>): string {
    if ps == [] then [] else ps[0].text + Erase(ps[1..])
  }

  lemma EraseAppend(a: seq<Piece>, b: seq<Piece>)
    ensures Erase(a + b) == Erase(a) + Erase(b)
  {
    if a != [] {
      assert (a + b)[1..] == a[1..] + b;
      EraseAppend(a[1..], b);
    } else {
      assert a + b == b;
    }
  }

  /** The link targets, in order. */
  function Targets(ps: seq<Piece>): seq<string> {
    if ps == [] then [] else (if ps[0].Link? then [ps[0].refId] else []) + Targets(ps[1..])
  }

  /** The HTML of the pieces: links become anchors to the bibliography. */
  function Render(ps: seq<Piece>, o: Options, tips: map<string, string>): string {
    if ps == [] then []
    else
      var head := match ps[0]
        case Plain(t) => t
        case Link(id, t) => "<a href=\"#bib-" + id + "\"" + LinkTooltip(o, tips, id) + ">" + t + "</a>";
      head + Render(ps[1..], o, tips)
  }

  /** Adds one piece in front of a result that may have failed. */
  function Prepend(p: Piece, rest: Option<seq<Piece>>): (r: Option<seq<Piece>>)
    ensures r.Some? <==> rest.Some?
    ensures r.Some? ==> r.value == [p] + rest.value
  {
    if rest.Some? then Some([p] + rest.value) else None
  }

  /** Prefixes a result that may have failed. */
  function Then(ps: seq<Piece>, rest: Option<seq<Piece>>): (r: Option<seq<Piece>>)
    ensures r.Some? <==> rest.Some?
    ensures r.Some? ==> r.value == ps + rest.value
  {
    if rest.Some? then Some(ps + rest.value) else None
  }

  lemma ThenEmpty(rest: Option<seq<Piece>>)
    ensures Then([], rest) == rest
  {
    if rest.Some? {
      assert [] + rest.value == rest.value;
    }
  }

  lemma ThenAssoc(a: seq<Piece>, b: seq<Piece>, rest: Option<seq<Piece>>)
    ensures Then(a + b, rest) == Then(a, Then(b, rest))
  {
    if rest.Some? {
      assert a + b + rest.value == a + (b + rest.value);
    }
  }

  lemma ThenPrepend(ps: seq<Piece>, p: Piece, rest: Option<seq<Piece>>)
    ensures Then(ps + [p], rest) == Then(ps, Prepend(p, rest))
  {
    if rest.Some? {
      assert ps + [p] + rest.value == ps + ([p] + rest.value);
    }
  }

  // ---------------------------------------------------------------------
  // Numeric styles: every maximal run of digits becomes a link

  /** The end of the run starting at `i` of characters that are digits
      exactly when `digits` holds. */
  function RunEnd(s: string, i: nat, digits: bool): (r: nat)
    requires i <= |s|
    ensures i <= r <= |s|
    ensures forall j :: i <= j < r ==> IsDigit(s[j]) == digits
    ensures r == |s| || IsDigit(s[r]) != digits
    decreases |s| - i
  {
    if i < |s| && IsDigit(s[i]) == digits then RunEnd(s, i + 1, digits) else i
  }

  /** The number of maximal digit runs from `i` on. */
  function DigitRuns(s: string, i: nat): nat
    requires i <= |s|
    decreases |s| - i
  {
    if i == |s| then 0
    else
      var d := IsDigit(s[i]);
      (if d then 1 else 0) + DigitRuns(s, RunEnd(s, i, d))
  }

  /** `text.replace(/\d+/g, …)` from position `i`, the `k`-th link going to
      `refIds[k]`; there is no result once the runs outnumber the ids. */
  function NumericFrom(s: string, i: nat, refIds: seq<string>, k: nat): Option<seq<Piece>>
    requires i <= |s|
    decreases |s| - i
  {
    if i == |s| then Some([])
    else
      var d := IsDigit(s[i]);
      var j := RunEnd(s, i, d);
      if d then
        if k < |refIds| then Prepend(Link(ToLower(refIds[k]), s[i..j]), NumericFrom(s, j, refIds, k + 1)) else None
      else Prepend(Plain(s[i..j]), NumericFrom(s, j, refIds, k))
  }

  /** Each piece is a non-empty run: links hold only digits, plain text none,
      and two neighbours are never of the same kind. */
  predicate MaximalRuns(ps: seq<Piece>) {
    (forall j :: 0 <= j < |ps| ==> |ps[j].text| > 0) &&
    (forall j, c :: 0 <= j < |ps| && c in ps[j].text ==> (IsDigit(c) <==> ps[j].Link?)) &&
    (forall j :: 0 <= j < |ps| - 1 ==> ps[j].Link? != ps[j + 1].Link?)
  }

  function LowerAll(ids: seq<string>): (r: seq<string>)
    ensures |r| == |ids| && forall i :: 0 <= i < |r| ==> r[i] == ToLower(ids[i])
  {
    if ids == [] then [] else [ToLower(ids[0])] + LowerAll(ids[1..])
  }

  lemma LowerAllCons(ids: seq<string>, k: nat, n: nat)
    requires k + n + 1 <= |ids|
    ensures LowerAll(ids[k..k + n + 1]) == [ToLower(ids[k])] + LowerAll(ids[k + 1..k + 1 + n])
  {
    assert ids[k..k + n + 1] == [ids[k]] + ids[k + 1..k + 1 + n];
  }

  /** A non-empty run of one kind in front of maximal runs that start with
      the other kind gives maximal runs. */
  lemma MaximalCons(p: Piece, rest: seq<Piece>)
    requires MaximalRuns(rest) && |p.text| > 0
    requires forall c :: c in p.text ==> (IsDigit(c) <==> p.Link?)
    requires rest != [] ==> rest[0].Link? != p.Link?
    ensures MaximalRuns([p] + rest)
  {
    var ps := [p] + rest;
    forall j', c | 0 <= j' < |ps| && c in ps[j'].text
      ensures IsDigit(c) <==> ps[j'].Link?
    {
      if j' > 0 { assert ps[j'] == rest[j' - 1]; }
    }
    forall j' | 0 <= j' < |ps| - 1 ensures ps[j'].Link? != ps[j' + 1].Link? {
      if j' > 0 { assert ps[j'] == rest[j' - 1] && ps[j' + 1] == rest[j']; }
    }
  }

  /** The first piece from a position is of the kind of the character there. */
  lemma NumericHead(s: string, i: nat, refIds: seq<string>, k: nat)
    requires i < |s| && NumericFrom(s, i, refIds, k).Some?
    ensures NumericFrom(s, i, refIds, k).value != []
    ensures NumericFrom(s, i, refIds, k).value[0].Link? == IsDigit(s[i])
  {
  }

  /** The characters of a run are all of its kind. */
  lemma RunKind(s: string, i: nat, d: bool)
    requires i <= |s|
    ensures forall c :: c in s[i..RunEnd(s, i, d)] ==> IsDigit(c) == d
  {
    var j := RunEnd(s, i, d);
    forall c | c in s[i..j] ensures IsDigit(c) == d {
      var x :| 0 <= x < j - i && s[i..j][x] == c;
      assert c == s[i + x];
    }
  }

  /** Numeric linking succeeds when there are enough ids, and then links the
      runs to the ids in order. */
  lemma {:induction false} NumericTargets(s: string, i: nat, refIds: seq<string>, k: nat)
    requires i <= |s| && k <= |refIds|
    ensures NumericFrom(s, i, refIds, k).Some? <==> k + DigitRuns(s, i) <= |refIds|
    ensures NumericFrom(s, i, refIds, k).Some? ==>
      Targets(NumericFrom(s, i, refIds, k).value) == LowerAll(refIds[k..k + DigitRuns(s, i)])
    decreases |s| - i
  {
    if i < |s| {
      var d := IsDigit(s[i]);
      var j := RunEnd(s, i, d);
      var k' := if d then k + 1 else k;
      if !d || k < |refIds| {
        NumericTargets(s, j, refIds, k');
        var rest := NumericFrom(s, j, refIds, k');
        if rest.Some? {
          var p := if d then Link(ToLower(refIds[k]), s[i..j]) else Plain(s[i..j]);
          var ps := [p] + rest.value;
          assert NumericFrom(s, i, refIds, k) == Some(ps);
          assert ps[1..] == rest.value;
          assert DigitRuns(s, i) == (if d then 1 else 0) + DigitRuns(s, j);
          assert Targets(ps) == (if d then [ToLower(refIds[k])] else []) + Targets(rest.value);
          if d {
            LowerAllCons(refIds, k, DigitRuns(s, j));
          } else {
            assert [] + Targets(rest.value) == Targets(rest.value);
          }
        }
      }
    }
  }

  /** A successful numeric linking erases back to the text. */
  lemma {:induction false} NumericErase(s: string, i: nat, refIds: seq<string>, k: nat)
    requires i <= |s|
    requires NumericFrom(s, i, refIds, k).Some?
    ensures Erase(NumericFrom(s, i, refIds, k).value) == s[i..]
    decreases |s| - i
  {
    if i < |s| {
      var d := IsDigit(s[i]);
      var j := RunEnd(s, i, d);
      var k' := if d then k + 1 else k;
      NumericErase(s, j, refIds, k');
      var rest := NumericFrom(s, j, refIds, k').value;
      var p := if d then Link(ToLower(refIds[k]), s[i..j]) else Plain(s[i..j]);
      var ps := [p] + rest;
      assert NumericFrom(s, i, refIds, k) == Some(ps);
      assert ps[1..] == rest;
      assert s[i..] == s[i..j] + s[j..];
    }
  }

  /** A successful numeric linking cuts the text into maximal runs. */
  lemma {:induction false} NumericRuns(s: string, i: nat, refIds: seq<string>, k: nat)
    requires i <= |s|
    requires NumericFrom(s, i, refIds, k).Some?
    ensures MaximalRuns(NumericFrom(s, i, refIds, k).value)
    decreases |s| - i
  {
    if i < |s| {
      var d := IsDigit(s[i]);
      var j := RunEnd(s, i, d);
      var k' := if d then k + 1 else k;
      NumericRuns(s, j, refIds, k');
      var rest := NumericFrom(s, j, refIds, k').value;
      var p := if d then Link(ToLower(refIds[k]), s[i..j]) else Plain(s[i..j]);
      assert NumericFrom(s, i, refIds, k) == Some([p] + rest);
      RunKind(s, i, d);
      if j < |s| { NumericHead(s, j, refIds, k'); }
      MaximalCons(p, rest);
    }
  }

  /** Numeric linking fails exactly when there are more digit runs than ids;
      otherwise it cuts the text into maximal runs that erase back to it, and
      the i-th run is linked to the i-th id. */
  lemma NumericLinks(s: string, i: nat, refIds: seq<string>, k: nat)
    requires i <= |s| && k <= |refIds|
    ensures NumericFrom(s, i, refIds, k).None? <==> k + DigitRuns(s, i) > |refIds|
    ensures NumericFrom(s, i, refIds, k).Some? ==>
      var ps := NumericFrom(s, i, refIds, k).value;
      Erase(ps) == s[i..] && MaximalRuns(ps) && Targets(ps) == LowerAll(refIds[k..k + DigitRuns(s, i)])
  {
    NumericTargets(s, i, refIds, k);
    if NumericFrom(s, i, refIds, k).Some? {
      NumericErase(s, i, refIds, k);
      NumericRuns(s, i, refIds, k);
    }
  }

  /** The numeric linking as a scan over the text with a counter for the next
      id. */
  method LinkNumbers(s: string, refIds: seq<string>) returns (r: Option<seq<Piece>>)
    ensures r == NumericFrom(s, 0, refIds, 0)
  {
    var pieces: seq<Piece> := [];
    var i := 0;
    var k := 0;
    ThenEmpty(NumericFrom(s, 0, refIds, 0));
    while i < |s|
      invariant i <= |s|
      invariant Then(pieces, NumericFrom(s, i, refIds, k)) == NumericFrom(s, 0, refIds, 0)
      decreases |s| - i
    {
      var digits := IsDigit(s[i]);
      var j := i + 1;
      while j < |s| && IsDigit(s[j]) == digits
        invariant i < j <= |s|
        invariant RunEnd(s, j, digits) == RunEnd(s, i, digits)
      {
        j := j + 1;
      }
      assert RunEnd(s, j, digits) == j;
      if digits {
        if k >= |refIds| {
          assert NumericFrom(s, i, refIds, k) == None;
          return None;
        }
        ThenPrepend(pieces, Link(ToLower(refIds[k]), s[i..j]), NumericFrom(s, j, refIds, k + 1));
        pieces := pieces + [Link(ToLower(refIds[k]), s[i..j])];
        k := k + 1;
      } else {
        ThenPrepend(pieces, Plain(s[i..j]), NumericFrom(s, j, refIds, k));
        pieces := pieces + [Plain(s[i..j])];
      }
      i := j;
    }
    assert pieces + [] == pieces;
    r := Some(pieces);
  }

  // ---------------------------------------------------------------------
  // Author-date styles

  /** A single entry: a composite citation is linked whole; otherwise the
      first and the last character stay outside the link. */
  function SinglePieces(t: string, refId: string, composite: bool): seq<Piece> {
    if composite then [Link(refId, t)]
    else [Plain(Slice(t, 0, 1)), Link(refId, Slice(t, 1, -1)), Plain(SliceFrom(t, -1))]
  }

  lemma EraseThree(a: Piece, b: Piece, c: Piece)
    ensures Erase([a, b, c]) == a.text + b.text + c.text
    ensures Targets([a, b, c]) == Targets([a]) + Targets([b]) + Targets([c])
  {
    assert [a, b, c][1..] == [b, c];
    assert [b, c][1..] == [c];
    assert [a][1..] == [] && [b][1..] == [] && [c][1..] == [];
    assert Erase([c]) == c.text + [] == c.text;
  }

  /** The pieces erase back to the text, except for a one-character text,
      whose only character then appears twice. */
  lemma SinglePiecesErase(t: string, refId: string, composite: bool)
    ensures composite || |t| != 1 ==> Erase(SinglePieces(t, refId, composite)) == t
    ensures !composite && |t| == 1 ==> Erase(SinglePieces(t, refId, composite)) == t + t
    ensures Targets(SinglePieces(t, refId, composite)) == [refId]
  {
    if composite {
      assert [Link(refId, t)][1..] == [];
    } else {
      var a, b, c := Slice(t, 0, 1), Slice(t, 1, -1), SliceFrom(t, -1);
      EraseThree(Plain(a), Link(refId, b), Plain(c));
      assert [Plain(a)][1..] == [] && [Link(refId, b)][1..] == [] && [Plain(c)][1..] == [];
      if |t| >= 2 {
        assert a == t[..1];
        assert b == t[1..|t| - 1];
        assert c == t[|t| - 1..];
        assert t == t[..1] + t[1..|t| - 1] + t[|t| - 1..];
      } else if |t| == 1 {
        assert a == t;
        assert b == [];
        assert c == t;
      } else {
        assert a == [] && b == [] && c == [];
      }
    }
  }

  /** The text to look for: the item's disambiguated citation, or its year
      when the author is the same as the previous item's and the citation
      text no longer contains the full form. Comparing with a previous item
      when either has no author list throws, and so does reading a year that
      is not there. */
  function CiteMatch(str: string, item: RegistryItem, prev: Option<RegistryItem>): (m: Option<string>)
    ensures prev.None? ==> m == Some(item.ambig)
    ensures m.None? <==>
      prev.Some? && (prev.value.authors.None? || item.authors.None? ||
        (SameAuthors(prev.value.authors.value, item.authors.value) && IndexOf(str, item.ambig) == -1 && item.year.None?))
    ensures m.Some? && IndexOf(str, item.ambig) >= 0 ==> m.value == item.ambig
    ensures m.Some? && m.value != item.ambig ==>
      prev.Some? && SameAuthors(prev.value.authors.value, item.authors.value) && m.value == IntToString(item.year.value)
  {
    if prev.None? then Some(item.ambig)
    else if prev.value.authors.None? || item.authors.None? then None
    else if SameAuthors(prev.value.authors.value, item.authors.value) && IndexOf(str, item.ambig) == -1 then
      (if item.year.Some? then Some(IntToString(item.year.value)) else None)
    else Some(item.ambig)
  }

  /** Several entries: each item in turn is looked for in what is left of
      the text after the previous link; the text before it stays plain. A
      missing registry item has no id to read and fails, and so does a
      `CiteMatch` that throws. */
  function AuthorDateFrom(items: seq<Option<RegistryItem>>, str: string, prev: Option<RegistryItem>): Option<seq<Piece>>
    decreases |items|
  {
    if items == [] then Some([Plain(str)])
    else if items[0].None? then None
    else
      var item := items[0].value;
      match CiteMatch(str, item, prev)
      case None => None
      case Some(m) =>
        var parts := SplitAt(str, IndexOf(str, m));
        Then([Plain(parts.0), Link(ToLower(item.id), Substring(parts.1, 0, |m|))],
             AuthorDateFrom(items[1..], SubstringFrom(parts.1, |m|), items[0]))
  }

  function LowerItemIds(items: seq<Option<RegistryItem>>): seq<string> {
    if items == [] then [] else (if items[0].Some? then [ToLower(items[0].value.id)] else []) + LowerItemIds(items[1..])
  }

  /** The item before position j: `prev` for the first. */
  function Before(items: seq<Option<RegistryItem>>, j: nat, prev: Option<RegistryItem>): Option<RegistryItem>
    requires j < |items|
  {
    if j == 0 then prev else items[j - 1]
  }

  /** Item j cannot be linked whatever the text: it is missing, or it is
      compared with a previous item and one of the two has no author list. */
  predicate Unreadable(items: seq<Option<RegistryItem>>, j: nat, prev: Option<RegistryItem>)
    requires j < |items|
  {
    items[j].None? ||
    (Before(items, j, prev).Some? && (Before(items, j, prev).value.authors.None? || items[j].value.authors.None?))
  }

  /** Item j has no year to fall back on, should its author match the
      previous item's. */
  predicate YearMissing(items: seq<Option<RegistryItem>>, j: nat, prev: Option<RegistryItem>)
    requires j < |items|
  {
    items[j].Some? && items[j].value.year.None? && Before(items, j, prev).Some?
  }

  lemma ShiftBefore(items: seq<Option<RegistryItem>>, j: nat, prev: Option<RegistryItem>)
    requires 1 <= j < |items|
    ensures Unreadable(items, j, prev) == Unreadable(items[1..], j - 1, items[0])
    ensures YearMissing(items, j, prev) == YearMissing(items[1..], j - 1, items[0])
  {
    assert items[1..][j - 1] == items[j];
    if j >= 2 {
      assert items[1..][j - 2] == items[j - 1];
    }
  }

  /** Author-date linking fails when an item cannot be read, and only when
      an item cannot be read or has no year to fall back on. */
  lemma {:induction false} AuthorDateFails(items: seq<Option<RegistryItem>>, str: string, prev: Option<RegistryItem>)
    ensures (exists j :: 0 <= j < |items| && Unreadable(items, j, prev)) ==> AuthorDateFrom(items, str, prev).None?
    ensures AuthorDateFrom(items, str, prev).None? ==>
      exists j :: 0 <= j < |items| && (Unreadable(items, j, prev) || YearMissing(items, j, prev))
    decreases |items|
  {
    if items == [] {
    } else if items[0].None? {
      assert Unreadable(items, 0, prev);
    } else if CiteMatch(str, items[0].value, prev).None? {
      assert Unreadable(items, 0, prev) || YearMissing(items, 0, prev);
    } else {
      var item := items[0].value;
      var m := CiteMatch(str, item, prev).value;
      var parts := SplitAt(str, IndexOf(str, m));
      var rest := SubstringFrom(parts.1, |m|);
      AuthorDateFails(items[1..], rest, items[0]);
      assert !Unreadable(items, 0, prev);
      if exists j :: 0 <= j < |items| && Unreadable(items, j, prev) {
        var j :| 0 <= j < |items| && Unreadable(items, j, prev);
        ShiftBefore(items, j, prev);
      }
      if AuthorDateFrom(items, str, prev).None? {
        var j :| 0 <= j < |items[1..]| && (Unreadable(items[1..], j, items[0]) || YearMissing(items[1..], j, items[0]));
        ShiftBefore(items, j + 1, prev);
      }
    }
  }

  /** The pieces of author-date linking erase back to the citation text,
      whatever was found. */
  lemma {:induction false} AuthorDateErase(items: seq<Option<RegistryItem>>, str: string, prev: Option<RegistryItem>)
    requires AuthorDateFrom(items, str, prev).Some?
    ensures Erase(AuthorDateFrom(items, str, prev).value) == str
    decreases |items|
  {
    if items == [] {
      assert [Plain(str)][1..] == [];
    } else {
      var item := items[0].value;
      var m := CiteMatch(str, item, prev).value;
      var parts := SplitAt(str, IndexOf(str, m));
      var rest := SubstringFrom(parts.1, |m|);
      var tail := AuthorDateFrom(items[1..], rest, items[0]);
      AuthorDateErase(items[1..], rest, items[0]);
      var head := [Plain(parts.0), Link(ToLower(item.id), Substring(parts.1, 0, |m|))];
      SplitAtJoins(str, IndexOf(str, m));
      SubstringRejoins(parts.1, |m|);
      EraseAppend(head, tail.value);
      assert Erase(head) == parts.0 + Substring(parts.1, 0, |m|) by {
        assert head[1..][1..] == [];
      }
    }
  }

  /** The links of author-date linking go to the items in order. */
  lemma {:induction false} AuthorDateTargets(items: seq<Option<RegistryItem>>, str: string, prev: Option<RegistryItem>)
    requires AuthorDateFrom(items, str, prev).Some?
    ensures Targets(AuthorDateFrom(items, str, prev).value) == LowerItemIds(items)
    decreases |items|
  {
    if items == [] {
      assert [Plain(str)][1..] == [];
    } else {
      var item := items[0].value;
      var m := CiteMatch(str, item, prev).value;
      var parts := SplitAt(str, IndexOf(str, m));
      var rest := SubstringFrom(parts.1, |m|);
      var tail := AuthorDateFrom(items[1..], rest, items[0]);
      AuthorDateTargets(items[1..], rest, items[0]);
      var head := [Plain(parts.0), Link(ToLower(item.id), Substring(parts.1, 0, |m|))];
      assert Targets(head + tail.value) == [ToLower(item.id)] + Targets(tail.value) by {
        assert (head + tail.value)[1..] == [head[1]] + tail.value;
        assert ([head[1]] + tail.value)[1..] == tail.value;
      }
    }
  }

  /** Author-date linking fails when an item cannot be read, and only when
      an item cannot be read or has no year to fall back on; otherwise the
      pieces erase back to the citation text whatever was found, and the
      links go to the items in order. */
  lemma AuthorDateLinks(items: seq<Option<RegistryItem>>, str: string, prev: Option<RegistryItem>)
    ensures (exists j :: 0 <= j < |items| && Unreadable(items, j, prev)) ==> AuthorDateFrom(items, str, prev).None?
    ensures AuthorDateFrom(items, str, prev).None? ==>
      exists j :: 0 <= j < |items| && (Unreadable(items, j, prev) || YearMissing(items, j, prev))
    ensures AuthorDateFrom(items, str, prev).Some? ==>
      Erase(AuthorDateFrom(items, str, prev).value) == str &&
      Targets(AuthorDateFrom(items, str, prev).value) == LowerItemIds(items)
  {
    AuthorDateFails(items, str, prev);
    if AuthorDateFrom(items, str, prev).Some? {
      AuthorDateErase(items, str, prev);
      AuthorDateTargets(items, str, prev);
    }
  }

  /** When the text to look for is found, the link covers exactly it. */
  lemma FoundMatchIsLinked(str: string, m: string)
    requires IndexOf(str, m) >= 0
    ensures Substring(SplitAt(str, IndexOf(str, m)).1, 0, |m|) == m
  {
    var p := IndexOf(str, m);
    assert SplitAt(str, p).1 == str[p..];
    assert str[p..][0..|m|] == str[p..p + |m|];
  }

  /** The author-date linking as a loop over the items with a cursor into the
      text that only moves forward. */
  method LinkAuthorDate(results: seq<Option<RegistryItem>>, citationText: string) returns (r: Option<seq<Piece>>)
    ensures r == AuthorDateFrom(results, citationText, None)
  {
    var output: seq<Piece> := [];
    var str := citationText;
    ThenEmpty(AuthorDateFrom(results, citationText, None));
    for i := 0 to |results|
      invariant Then(output, AuthorDateFrom(results[i..], str, if i == 0 then None else results[i - 1])) ==
                AuthorDateFrom(results, citationText, None)
      invariant i > 0 ==> results[i - 1].Some?
    {
      if results[i].None? {
        assert AuthorDateFrom(results[i..], str, if i == 0 then None else results[i - 1]) == None;
        return None;
      }
      var item := results[i].value;
      var prev := if i == 0 then None else results[i - 1];
      var citeMatch := item.ambig;
      if i > 0 {
        var same := IsSameAuthor(results[i - 1].value, item);
        if same.Err? {
          return None;
        }
        if same.value && IndexOf(str, citeMatch) == -1 {
          if item.year.None? {
            return None;
          }
          citeMatch := IntToString(item.year.value);
        }
      }
      assert Some(citeMatch) == CiteMatch(str, item, prev);
      var parts := SplitAt(str, IndexOf(str, citeMatch));
      var head := [Plain(parts.0), Link(ToLower(item.id), Substring(parts.1, 0, |citeMatch|))];
      var next := SubstringFrom(parts.1, |citeMatch|);
      assert results[i..][1..] == results[i + 1..];
      assert AuthorDateFrom(results[i..], str, prev) == Then(head, AuthorDateFrom(results[i + 1..], next, results[i]));
      ThenAssoc(output, head, AuthorDateFrom(results[i + 1..], next, results[i]));
      output := output + head;
      str := next;
    }
    assert results[|results|..] == [];
    r := Some(output + [Plain(str)]);
  }

  // ---------------------------------------------------------------------
  // The whole step

  /** `<span class="{inlineClass joined by spaces}" id={id}{extra}>`. */
  function SpanOpen(o: Options, id: string, extra: string): string {
    "<span class=\"" + Join(o.inlineClass.GetOr([]), " ") + "\" id=" + id + extra + ">"
  }

  /** The footnote reference a note-mode citation shows. */
  function NoteReference(n: nat): string {
    "<sup><a href=\"#cite-fn-" + NatToString(n) + "\" id=\"cite-fnref-" + NatToString(n) +
    "\" data-footnote-ref aria-describedby=\"footnote-label\">" + NatToString(n) + "</a></sup>"
  }

  /** How the citation text is laid out in the span, or `None` when linking
      fails. */
  function Body(reflist: seq<RegistryItem>, sortCitations: bool, entries: seq<CiteItem>, citationText: string,
                composite: bool, format: CitationFormat): Option<seq<Piece>>
  {
    if format == Numeric then NumericFrom(citationText, 0, Ids(entries), 0)
    else if |entries| == 1 then Some(SinglePieces(citationText, ToLower(entries[0].id), composite))
    else AuthorDateFrom(SortedRelevant(reflist, Ids(entries), sortCitations), citationText, None)
  }

  /** What `getSortedRelevantRegistryItems` returns. */
  function SortedRelevant(reflist: seq<RegistryItem>, ids: seq<string>, sorted: bool): seq<Option<RegistryItem>> {
    if sorted then Wrap(InRegistryOrder(reflist, ids)) else InIdOrder(reflist, ids)
  }

  /** `genCitation`: the plain citation text and the hast of its span. It
      fails when the engine has no row for the cluster or when linking fails. */
  function GenCitationOf(engine: ClusterRequest -> seq<ClusterRow>, bibText: string -> string,
                         reflist: seq<RegistryItem>, sortCitations: bool, mode: Mode, entries: seq<CiteItem>,
                         root: string, n: nat, pre: seq<(string, int)>, o: Options, composite: bool,
                         format: CitationFormat): (r: Result<(string, Node), string>)
    ensures RowText(engine(RequestFor(mode, entries, root, n, pre, composite)), CitationKey(root, n)).None? ==> r.Err?
    ensures r.Ok? ==> Some(r.value.0) == RowText(engine(RequestFor(mode, entries, root, n, pre, composite)), CitationKey(root, n))
    ensures r.Ok? ==> r.value.1.Markup?
  {
    var key := CitationKey(root, n);
    var row := RowText(engine(RequestFor(mode, entries, root, n, pre, composite)), key);
    if row.None? then Err("TypeError: no engine row for " + key)
    else
      var text := row.value;
      var ids := SpanId(entries, n);
      var tips := if ShowTooltips(o) then TooltipMap(entries, bibText) else map[];
      if mode == Note then
        Ok((text, Markup(SpanOpen(o, ids, WrapperTooltip(o, tips, entries)) + NoteReference(n) + "</span>")))
      else if o.linkCitations && (format == Numeric || format == AuthorDate) then
        var body := Body(reflist, sortCitations, entries, text, composite, format);
        if body.None? then Err("TypeError: cannot link " + key)
        else Ok((text, Markup(SpanOpen(o, ids, "") + Render(body.value, o, tips) + "</span>")))
      else Ok((text, Markup(SpanOpen(o, ids, WrapperTooltip(o, tips, entries)) + text + "</span>")))
  }

  /** Text left unlinked keeps the wrapper tooltip and the engine's text. */
  lemma PlainCitation(engine: ClusterRequest -> seq<ClusterRow>, bibText: string -> string,
                      reflist: seq<RegistryItem>, sortCitations: bool, mode: Mode, entries: seq<CiteItem>,
                      root: string, n: nat, pre: seq<(string, int)>, o: Options, composite: bool, format: CitationFormat)
    requires mode == InText && !o.linkCitations && !ShowTooltips(o)
    requires RowText(engine(RequestFor(mode, entries, root, n, pre, composite)), CitationKey(root, n)).Some?
    ensures GenCitationOf(engine, bibText, reflist, sortCitations, mode, entries, root, n, pre, o, composite, format) ==
      var text := RowText(engine(RequestFor(mode, entries, root, n, pre, composite)), CitationKey(root, n)).value;
      Ok((text, Markup(SpanOpen(o, SpanId(entries, n), "") + text + "</span>")))
  {
  }

  /** When linking succeeds, the span holds the engine's text with links put
      in, and nothing else. */
  lemma LinkedCitationErases(engine: ClusterRequest -> seq<ClusterRow>, bibText: string -> string,
                             reflist: seq<RegistryItem>, sortCitations: bool, entries: seq<CiteItem>,
                             text: string, composite: bool, format: CitationFormat)
    requires format == Numeric || |entries| != 1 || composite || |text| >= 2
    requires Body(reflist, sortCitations, entries, text, composite, format).Some?
    ensures Erase(Body(reflist, sortCitations, entries, text, composite, format).value) == text
  {
    if format == Numeric {
      NumericLinks(text, 0, Ids(entries), 0);
    } else if |entries| == 1 {
      SinglePiecesErase(text, ToLower(entries[0].id), composite);
    } else {
      AuthorDateLinks(SortedRelevant(reflist, Ids(entries), sortCitations), text, None);
    }
  }

  /** `genCitation` as a method: it asks the engine, looks up the registry in
      the order the style sorts citations, and links the text. */
  method GenCitation(engine: ClusterRequest -> seq<ClusterRow>, bibText: string -> string,
                     reflist: seq<RegistryItem>, sortCitations: bool, mode: Mode, entries: seq<CiteItem>,
                     root: string, n: nat, pre: seq<(string, int)>, o: Options, composite: bool,
                     format: CitationFormat) returns (r: Result<(string, Node), string>)
    ensures r == GenCitationOf(engine, bibText, reflist, sortCitations, mode, entries, root, n, pre, o, composite, format)
  {
    var key := CitationKey(root, n);
    var row := RowText(engine(RequestFor(mode, entries, root, n, pre, composite)), key);
    if row.None? {
      return Err("TypeError: no engine row for " + key);
    }
    var text := row.value;
    var ids := SpanId(entries, n);
    var tips := if ShowTooltips(o) then TooltipMap(entries, bibText) else map[];
    if mode == Note {
      return Ok((text, Markup(SpanOpen(o, ids, WrapperTooltip(o, tips, entries)) + NoteReference(n) + "</span>")));
    }
    if o.linkCitations && (format == Numeric || format == AuthorDate) {
      var body: Option<seq<Piece>>;
      if format == Numeric {
        body := LinkNumbers(text, Ids(entries));
      } else if |entries| == 1 {
        body := Some(SinglePieces(text, ToLower(entries[0].id), composite));
      } else {
        var results := GetSortedRelevantRegistryItems(reflist, Ids(entries), sortCitations);
        body := LinkAuthorDate(results, text);
      }
      if body.None? {
        return Err("TypeError: cannot link " + key);
      }
      return Ok((text, Markup(SpanOpen(o, ids, "") + Render(body.value, o, tips) + "</span>")));
    }
    return Ok((text, Markup(SpanOpen(o, ids, WrapperTooltip(o, tips, entries)) + text + "</span>")));
  }
}
