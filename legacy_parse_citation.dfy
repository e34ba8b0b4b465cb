/**
 * The older citation parser of parse-citation.js. A bracketed marker
 * `[pre @key, label locator suffix; ...]` is cut into `;`-separated cite
 * items after its first and last characters are dropped; each item must
 * hold exactly one `@`. Anything else is the in-text form `@key`.
 */
module LegacyParseCitation {
  import opened Base
  import opened CiteItems
  import opened LegacyRegex

  /** The exceptions the parser throws. */
  datatype ParseError =
    | NoCiteKey          // 'Cite key should be in the form of @key'
    | MultipleCiteKeys   // 'More than one cite key @ detected, please separate keys with ;'
    | MalformedKey       // a TypeError: no `citeKeyRe` match where one is indexed

  /** What the parser returns: the cluster properties and the cite items. */
  datatype Parsed = Parsed(noteIndex: int, composite: bool, entries: seq<CiteItem>)

  /** `locatorMapping`: the label words a locator may follow, and the CSL label each one means. */
  const LocatorMapping: seq<(string, string)> := [
    ("book", "book"), ("bk.", "book"), ("bks.", "book"),
    ("chapter", "chapter"), ("chap.", "chapter"), ("chaps.", "chapter"),
    ("column", "column"), ("col.", "column"), ("cols.", "column"),
    ("figure", "figure"), ("fig.", "figure"), ("figs.", "figure"),
    ("folio", "folio"), ("fol.", "folio"), ("fols.", "folio"),
    ("number", "number"), ("no.", "number"), ("nos.", "number"),
    ("line", "line"), ("l.", "line"), ("ll.", "line"),
    ("note", "note"), ("n.", "note"), ("nn.", "note"),
    ("opus", "opus"), ("op.", "opus"), ("opp.", "opus"),
    ("page", "page"), ("p.", "page"), ("pp.", "page"),
    ("paragraph", "paragraph"), ("para.", "paragraph"), ("paras.", "paragraph"),
    ("part", "part"), ("pt.", "part"), ("pts.", "part"),
    ("section", "section"), ("sec.", "section"), ("secs.", "section"),
    ("sub verbo", "sub verbo"), ("s.v.", "sub verbo"), ("s.vv.", "sub verbo"),
    ("verse", "verse"), ("v.", "verse"), ("vv.", "verse"),
    ("volume", "volume"), ("vol.", "volume"), ("vols.", "volume"),
    ("¶", "paragraph"), ("¶¶", "paragraph"), ("§", "section"),
    ("§§", "section")
  ]

  /** `locatorMapping[label] || 'page'`. */
  function MapLabel(word: string): (r: string)
    ensures (forall i :: 0 <= i < |LocatorMapping| ==> LocatorMapping[i].0 != word) ==> r == "page"
    ensures r == "page" || exists i :: 0 <= i < |LocatorMapping| && LocatorMapping[i] == (word, r)
  {
    Lookup(LocatorMapping, word).GetOr("page")
  }

  /** The characters of `/(\d|-| |,)+/`. */
  predicate IsLocatorChar(c: char) { IsDigit(c) || c == '-' || c == ' ' || c == ',' }

  /** Length of the run of locator characters starting at `i`. */
  function LocatorRunFrom(s: string, i: nat): (k: nat)
    requires i <= |s|
    ensures i + k <= |s| && (forall j :: i <= j < i + k ==> IsLocatorChar(s[j]))
    ensures i + k < |s| ==> !IsLocatorChar(s[i + k])
    decreases |s| - i
  {
    if i < |s| && IsLocatorChar(s[i]) then 1 + LocatorRunFrom(s, i + 1) else 0
  }

  /** The first match of `/(\d|-| |,)+/g`: the leftmost maximal run of locator characters. */
  function FirstLocatorRun(s: string, from: nat): (r: Option<(nat, nat)>)
    requires from <= |s|
    ensures r.Some? ==> from <= r.value.0 < r.value.1 <= |s| && IsLocatorChar(s[r.value.0])
    ensures r.Some? ==> r.value.1 == r.value.0 + LocatorRunFrom(s, r.value.0)
    ensures r.Some? ==> forall j :: from <= j < r.value.0 ==> !IsLocatorChar(s[j])
    ensures r.None? ==> forall j :: from <= j < |s| ==> !IsLocatorChar(s[j])
    decreases |s| - from
  {
    if from == |s| then None
    else if IsLocatorChar(s[from]) then Some((from, from + LocatorRunFrom(s, from)))
    else FirstLocatorRun(s, from + 1)
  }

  /** `s.split(sep)` including the empty separator, which splits into single characters. */
  function SplitAny(s: string, sep: string): (parts: seq<string>)
    ensures sep == [] ==> |parts| == |s| && forall i :: 0 <= i < |s| ==> parts[i] == [s[i]]
    ensures |sep| > 0 ==> parts == Split(s, sep)
  {
    if |sep| > 0 then Split(s, sep) else seq(|s|, i requires 0 <= i < |s| => [s[i]])
  }

  /** The locator, label and suffix that a locator run yields: what lines 126-133 compute. */
  function FromRun(afterKey: string, a: nat, b: nat): (r: (string, string, string))
    requires a < b <= |afterKey|
    requires |SplitAny(afterKey, Trim(afterKey[a..b]))| >= 2
  {
    var locator := Trim(afterKey[a..b]);
    var parts := SplitAny(afterKey, locator);
    (locator, MapLabel(Trim(parts[0])), Trim(parts[1]))
  }

  /** (locator, label, suffix) of the text after the key, as lines 124-137 compute them. */
  function LocatorLabelSuffix(afterKey: string): (r: (string, string, string))
    requires Trim(afterKey) == afterKey
  {
    match FirstLocatorRun(afterKey, 0)
    case None => ("", "page", afterKey)
    case Some((a, b)) =>
      LocatorPartsInRange(afterKey, a, b);
      FromRun(afterKey, a, b)
  }

  /** The split in `LocatorLabelSuffix` always has a first and a second piece. */
  lemma LocatorPartsInRange(afterKey: string, a: nat, b: nat)
    requires Trim(afterKey) == afterKey
    requires a < b <= |afterKey|
    ensures |SplitAny(afterKey, Trim(afterKey[a..b]))| >= 2
  {
    var run := afterKey[a..b];
    if Trim(run) == [] {
      BlankRunInside(afterKey, a, b);
    } else {
      TrimmedOccurs(afterKey, a, b);
      IndexOfFirst(afterKey, Trim(run));
    }
  }

  /** A run that trims to nothing lies strictly inside trimmed text, so that text has two or more characters. */
  lemma BlankRunInside(s: string, a: nat, b: nat)
    requires Trim(s) == s && a < b <= |s| && Trim(s[a..b]) == []
    ensures |s| >= 2
  {
    TrimEmpty(s[a..b]);
    assert IsSpace(s[a..b][0]);
  }

  /** The trimmed text of a slice occurs in the text where the slice's leading white space ends. */
  lemma TrimmedOccurs(s: string, a: nat, b: nat)
    requires a <= b <= |s|
    ensures OccursAt(s, Trim(s[a..b]), a + TrimLo(s[a..b]))
  {
    var run := s[a..b];
    var lo, hi := TrimLo(run), TrimHi(run);
    assert Trim(run) == run[lo..hi];
    assert lo <= hi <= |run|;
    assert run[lo..hi] == s[a + lo..a + hi] by {
      forall i | 0 <= i < hi - lo ensures run[lo..hi][i] == s[a + lo..a + hi][i] {
        assert run[lo + i] == s[a + lo + i];
      }
    }
  }

  /** The prefix and suppress-author flag of an item whose single `@` is at `at`: lines 104-109. */
  function ItemPrefix(item: string, at: nat): (r: (string, bool))
    requires at <= |item|
  {
    var prefix0 := Trim(item[..at]);
    var suppress := at > 0 && item[at - 1] == '-';
    (if suppress then Trim(Substr(prefix0, 0, |prefix0| - 1)) else prefix0, suppress)
  }

  /** The text the key is read from: from `@` up to the first comma, else the first space: lines 112-117. */
  function KeyText(item: string, at: nat, rest: string): string {
    var c1 := IndexOfChar(rest, ',') + 1;
    var commaIndex := if c1 != 0 then c1 else IndexOfChar(rest, ' ') + 1;
    if commaIndex <= 0 then SubstrFrom(item, at) else Substr(item, at, commaIndex)
  }

  /** The text after the key: `rest` without the key's length in characters, trimmed, and without one leading comma: lines 120-121. */
  function AfterKey(rest: string, keyLength: nat): (r: string)
    ensures Trim(r) == r
  {
    var afterKey0 := Trim(SubstrFrom(rest, keyLength));
    TrimIdempotent(SubstrFrom(rest, keyLength));
    TrimIdempotent(SubstrFrom(afterKey0, 1));
    if afterKey0 != [] && afterKey0[0] == ',' then Trim(SubstrFrom(afterKey0, 1)) else afterKey0
  }

  /** One `;`-separated item of a bracketed marker, processed as the loop body at lines 92-147 does. */
  function ParseItem(item: string): (r: Result<CiteItem, ParseError>)
  {
    var chunk := Split(item, "@");
    if |chunk| == 1 then Err(NoCiteKey)
    else if |chunk| > 2 then Err(MultipleCiteKeys)
    else
      var at := IndexOf(item, "@");
      var (prefix, suppress) := ItemPrefix(item, at);
      var keyText := KeyText(item, at, chunk[1]);
      match FirstKey(keyText)
      case None => Err(MalformedKey)
      case Some(km) =>
        var (locator, lab, suffix) := LocatorLabelSuffix(AfterKey(chunk[1], km.end - km.start));
        match FirstKey(item)
        case None => Err(MalformedKey)
        case Some(idm) =>
          Ok(CiteItem(item[idm.start + 1..idm.end], Some(prefix), Some(suffix), Some(locator), Some(lab), Some(suppress)))
  }

  /** What each item alone parses to. */
  function ParseEach(items: seq<string>): (rs: seq<Result<CiteItem, ParseError>>)
    ensures |rs| == |items| && forall i :: 0 <= i < |items| ==> rs[i] == ParseItem(items[i])
  {
    seq(|items|, i requires 0 <= i < |items| => ParseItem(items[i]))
  }

  /** The items in order, stopping at the first one that throws. */
  function ParseItems(items: seq<string>): (r: Result<seq<CiteItem>, ParseError>)
    ensures r.Ok? ==> |r.value| == |items|
  {
    Collect(ParseEach(items))
  }

  /** The items parse when every one of them does, each into the entry at its position. */
  lemma ParseItemsPointwise(items: seq<string>)
    ensures ParseItems(items).Ok? <==> forall i :: 0 <= i < |items| ==> ParseItem(items[i]).Ok?
    ensures ParseItems(items).Ok? ==> forall i :: 0 <= i < |items| ==> ParseItems(items).value[i] == ParseItem(items[i]).value
  {
    CollectPointwise(ParseEach(items));
  }

  /** The `;`-separated items between the outer brackets. */
  function BracketItems(s: string): seq<string> {
    Split(Substr(s, 1, |s| - 2), ";")
  }

  /** `parseCitation(citeString)`. */
  function ParseCitation(s: string): (r: Result<Parsed, ParseError>)
  {
    if BracketTest(s) then
      match ParseItems(BracketItems(s))
      case Err(e) => Err(e)
      case Ok(entries) => Ok(Parsed(0, false, entries))
    else
      match FirstKey(s)
      case None => Err(MalformedKey)
      case Some(m) => Ok(Parsed(0, true, [KeyOnly(s[m.start + 1..m.end])]))
  }

  /** The parser as the source runs it: one pass over the items, pushing each entry or throwing. */
  method ParseCitationLoop(s: string) returns (r: Result<Parsed, ParseError>)
    ensures r == ParseCitation(s)
  {
    if !BracketTest(s) {
      var m := FirstKey(s);
      if m.None? {
        return Err(MalformedKey);
      }
      return Ok(Parsed(0, true, [KeyOnly(s[m.value.start + 1..m.value.end])]));
    }
    var entries := ParseItemsLoop(BracketItems(s));
    if entries.Err? {
      return Err(entries.error);
    }
    return Ok(Parsed(0, false, entries.value));
  }

  /** The loop over the items: each entry pushed in turn, or the first throw. */
  method ParseItemsLoop(items: seq<string>) returns (r: Result<seq<CiteItem>, ParseError>)
    ensures r == ParseItems(items)
  {
    ghost var rs := ParseEach(items);
    var entries: seq<CiteItem> := [];
    for i := 0 to |items|
      invariant Collect(rs[..i]) == Ok(entries)
    {
      var c := ParseItem(items[i]);
      CollectPrefix(rs, i);
      if c.Err? {
        CollectPrefixErr(rs, i + 1);
        return Err(c.error);
      }
      entries := entries + [c.value];
    }
    CollectWhole(rs);
    return Ok(entries);
  }

  // ---------------------------------------------------------------------
  // Properties

  /** Text without a bracket pair is the in-text form: one item carrying only the key. */
  lemma InTextForm(s: string)
    requires !BracketTest(s) && FirstKey(s).Some?
    ensures ParseCitation(s).Ok?
    ensures var p := ParseCitation(s).value;
      p.noteIndex == 0 && p.composite && |p.entries| == 1
      && p.entries[0] == KeyOnly(s[FirstKey(s).value.start + 1..FirstKey(s).value.end])
  {
  }

  /** A bracketed marker gives one entry per `;`-separated item, in order, or the first item's error. */
  lemma BracketedForm(s: string)
    requires BracketTest(s)
    ensures ParseCitation(s).Ok? <==> forall i :: 0 <= i < |BracketItems(s)| ==> ParseItem(BracketItems(s)[i]).Ok?
    ensures ParseCitation(s).Ok? ==> var p := ParseCitation(s).value;
      p.noteIndex == 0 && !p.composite && |p.entries| == |BracketItems(s)|
      && forall i :: 0 <= i < |p.entries| ==> p.entries[i] == ParseItem(BracketItems(s)[i]).value
  {
    ParseItemsPointwise(BracketItems(s));
  }

  /** An item without `@` throws `NoCiteKey`; one with two or more throws `MultipleCiteKeys`. */
  lemma ItemAtCount(item: string)
    ensures '@' !in item ==> ParseItem(item) == Err(NoCiteKey)
    ensures |Split(item, "@")| > 2 ==> ParseItem(item) == Err(MultipleCiteKeys)
  {
    if '@' !in item {
      forall i: nat ensures !OccursAt(item, "@", i) {
        if i < |item| { assert item[i..i + 1] == [item[i]]; }
      }
    }
  }

  /** An item holding exactly one `@`: where it is, and that no other `@` follows. */
  lemma SingleAt(item: string)
    requires |Split(item, "@")| == 2
    ensures var at := IndexOf(item, "@");
      0 <= at < |item| && item[at] == '@' && Split(item, "@") == [item[..at], item[at + 1..]]
      && forall j :: 0 <= j < |item| && j != at ==> item[j] != '@'
  {
    var at := IndexOf(item, "@");
    assert item[at..at + 1] == "@";
    var rest := item[at + 1..];
    assert |Split(rest, "@")| == 1;
    assert IndexOf(rest, "@") < 0;
    IndexOfFirst(item, "@");
    IndexOfFirst(rest, "@");
    forall j | 0 <= j < |item| && j != at ensures item[j] != '@' {
      if j < at {
        assert !OccursAt(item, "@", j);
        assert item[j..j + 1] == [item[j]];
      } else {
        assert !OccursAt(rest, "@", j - at - 1);
        assert rest[j - at - 1..j - at] == [item[j]];
      }
    }
  }

  /** The key of an item is the run of key characters right after its single `@`. */
  lemma ItemKey(item: string)
    requires |Split(item, "@")| == 2
    ensures var at := IndexOf(item, "@");
      FirstKey(item).Some? <==> at + 1 < |item| && IsKeyStart(item[at + 1])
    ensures FirstKey(item).Some? ==> FirstKey(item).value.start == IndexOf(item, "@")
  {
    SingleAt(item);
    var at := IndexOf(item, "@");
    if FirstKey(item).Some? {
      var m := FirstKey(item).value;
      assert item[m.start] == '@';
    } else {
      assert KeyAt(item, at).None?;
    }
  }

  /** A key that does not start with a letter, digit or `_` makes the item throw. */
  lemma MalformedKeyThrows(item: string)
    requires |Split(item, "@")| == 2
    requires var at := IndexOf(item, "@"); !(at + 1 < |item| && IsKeyStart(item[at + 1]))
    ensures ParseItem(item) == Err(MalformedKey)
  {
    SingleAt(item);
    var at := IndexOf(item, "@");
    var kt := KeyText(item, at, item[at + 1..]);
    assert kt == item[at..at + |kt|];
    forall j | 0 <= j < |kt| ensures KeyAt(kt, j).None? {
      if j > 0 {
        assert kt[j] == item[at + j];
      } else if 1 < |kt| {
        assert kt[1] == item[at + 1];
      }
    }
    assert FirstKey(kt).None?;
  }

  /** `-` right before `@` sets suppress-author and is dropped from the prefix, the trimmed text before `@`. */
  lemma ItemSuppressAuthor(item: string)
    requires ParseItem(item).Ok?
    ensures PrefixBeforeAt(item, ParseItem(item).value)
  {
    ParsedHead(item);
    PrefixOfHead(item, ParseItem(item).value);
  }

  /** `-` right before the single `@` suppresses the author and is dropped from the trimmed prefix. */
  predicate PrefixBeforeAt(item: string, c: CiteItem) {
    var at := IndexOf(item, "@");
    var dash := at > 0 && item[at - 1] == '-';
    0 <= at < |item|
    && c.suppressAuthor == Some(dash)
    && c.prefix == Some(if dash then Trim(DropLast(Trim(item[..at]))) else Trim(item[..at]))
  }

  /** The key, prefix and flag of an item, as the loop body computes them from its single `@`. */
  predicate HeadOf(item: string, c: CiteItem) {
    var at := IndexOf(item, "@");
    |Split(item, "@")| == 2 && 0 <= at <= |item| && FirstKey(item).Some?
    && c.id == item[FirstKey(item).value.start + 1..FirstKey(item).value.end]
    && (c.prefix, c.suppressAuthor) == (Some(ItemPrefix(item, at).0), Some(ItemPrefix(item, at).1))
  }

  lemma ParsedHead(item: string)
    requires ParseItem(item).Ok?
    ensures HeadOf(item, ParseItem(item).value)
  {
  }

  lemma PrefixOfHead(item: string, c: CiteItem)
    requires HeadOf(item, c)
    ensures PrefixBeforeAt(item, c)
  {
    SingleAt(item);
    var at := IndexOf(item, "@");
    if at > 0 && item[at - 1] == '-' {
      TrimEndKeepsLast(item[..at]);
    }
  }

  /** Everything but the last character. */
  function DropLast(s: string): (r: string)
    ensures s != [] ==> s == r + [s[|s| - 1]]
  {
    if s == [] then s else s[..|s| - 1]
  }

  /** The id of a parsed item is the key right after its single `@`, which starts with a letter, digit or `_`. */
  lemma ItemId(item: string)
    requires ParseItem(item).Ok?
    ensures KeyAfterAt(item, ParseItem(item).value.id)
  {
    ParsedHead(item);
    KeyOfHead(item, ParseItem(item).value);
  }

  /** `id` is the longest run of key characters after the single `@`, and starts with a key start. */
  predicate KeyAfterAt(item: string, id: string) {
    var at := IndexOf(item, "@");
    0 <= at && at + 1 < |item| && IsKeyStart(item[at + 1])
    && id == item[at + 1..at + 2 + KeyRun(item, at + 2)]
  }

  lemma KeyOfHead(item: string, c: CiteItem)
    requires HeadOf(item, c)
    ensures KeyAfterAt(item, c.id)
  {
    SingleAt(item);
    ItemKey(item);
  }

  /** Trimming keeps a final character that is not white space. */
  lemma TrimEndKeepsLast(s: string)
    requires s != [] && !IsSpace(s[|s| - 1])
    ensures Trim(s) != [] && Trim(s)[|Trim(s)| - 1] == s[|s| - 1]
  {
    assert TrimLo(s) < |s|;
    assert TrimHi(s) == |s|;
  }

  /** With no locator run after the key, the locator is empty, the label `page`, the suffix the rest. */
  lemma NoRunDefaults(afterKey: string)
    requires Trim(afterKey) == afterKey
    requires forall j :: 0 <= j < |afterKey| ==> !IsLocatorChar(afterKey[j])
    ensures LocatorLabelSuffix(afterKey) == ("", "page", afterKey)
  {
  }

  // ---------------------------------------------------------------------
  // The locator split as intended

  /** The first maximal run of locator characters that is not only white space. */
  function FirstNonBlankRun(s: string, from: nat): (r: Option<(nat, nat)>)
    requires from <= |s|
    ensures r.Some? ==> from <= r.value.0 < r.value.1 <= |s| && IsLocatorChar(s[r.value.0])
    ensures r.Some? ==> r.value.1 == r.value.0 + LocatorRunFrom(s, r.value.0)
    ensures r.Some? ==> Trim(s[r.value.0..r.value.1]) != []
    decreases |s| - from
  {
    match FirstLocatorRun(s, from)
    case None => None
    case Some((a, b)) => if Trim(s[a..b]) != [] then Some((a, b)) else FirstNonBlankRun(s, b)
  }

  /**
   * The evidently intended reading of lines 124-137: the locator is the first
   * run that holds more than white space, the label comes from the text
   * before it and the suffix is all the text after it.
   */
  function IntendedLocatorLabelSuffix(afterKey: string): (r: (string, string, string))
  {
    match FirstNonBlankRun(afterKey, 0)
    case None => ("", "page", Trim(afterKey))
    case Some((a, b)) => (Trim(afterKey[a..b]), MapLabel(Trim(afterKey[..a])), Trim(afterKey[b..]))
  }

  /** The characters of a locator other than the space. */
  predicate IsLocatorMark(c: char) { IsDigit(c) || c == '-' || c == ',' }

  /** As intended, a locator is found exactly when the text has a digit, `-` or `,`. */
  lemma {:induction false} IntendedLocatorFound(s: string, from: nat)
    requires from <= |s|
    ensures FirstNonBlankRun(s, from).None? <==> forall j :: from <= j < |s| ==> !IsLocatorMark(s[j])
    decreases |s| - from
  {
    match FirstLocatorRun(s, from)
    case None =>
    case Some((a, b)) =>
      var run := s[a..b];
      if Trim(run) != [] {
        var k := TrimLo(run);
        assert run[k] == s[a + k] && IsLocatorChar(run[k]) && !IsSpace(run[k]);
        assert IsLocatorMark(s[a + k]);
      } else {
        TrimEmpty(run);
        forall j | a <= j < b ensures !IsLocatorMark(s[j]) {
          assert IsSpace(run[j - a]);
        }
        IntendedLocatorFound(s, b);
      }
  }

  /**
   * The case the source handles as intended: the text after the key is
   * trimmed, its first locator run `s[a..b]` holds more than white space,
   * and the run's trimmed text does not occur again after the run.
   */
  predicate UniqueRun(s: string, a: nat, b: nat) {
    Trim(s) == s && FirstLocatorRun(s, 0) == Some((a, b)) && Trim(s[a..b]) != []
    && IndexOf(s[a + TrimHi(s[a..b])..], Trim(s[a..b])) == -1
  }

  /** Where the first run has more than white space and its text occurs only once, the source's split is the intended one. */
  lemma SplitAgreesWhenLocatorUnique(s: string, a: nat, b: nat)
    requires UniqueRun(s, a, b)
    ensures LocatorLabelSuffix(s) == IntendedLocatorLabelSuffix(s)
  {
    assert FirstNonBlankRun(s, 0) == Some((a, b));
    FromUniqueRun(s, a, b);
  }

  /** With its text occurring once, the first run splits the text around itself. */
  lemma FromUniqueRun(s: string, a: nat, b: nat)
    requires UniqueRun(s, a, b)
    ensures LocatorLabelSuffix(s) == (Trim(s[a..b]), MapLabel(Trim(s[..a])), Trim(s[b..]))
  {
    var run := s[a..b];
    var loc := Trim(run);
    var pos, hi := a + TrimLo(run), a + TrimHi(run);
    LocatorPartsInRange(s, a, b);
    LocatorLabelSuffixOfRun(s, a, b);
    LocatorIndex(s, a, b);
    SplitOnce(s, loc, pos, hi);
    FromRunOfParts(s, a, b, s[..pos], s[hi..]);
    LabelText(s, a, b, pos);
    SuffixText(s, a, b, hi);
  }

  lemma LocatorLabelSuffixOfRun(s: string, a: nat, b: nat)
    requires Trim(s) == s && FirstLocatorRun(s, 0) == Some((a, b))
    requires |SplitAny(s, Trim(s[a..b]))| >= 2
    ensures LocatorLabelSuffix(s) == FromRun(s, a, b)
  {
  }

  lemma FromRunOfParts(s: string, a: nat, b: nat, p0: string, p1: string)
    requires a < b <= |s| && SplitAny(s, Trim(s[a..b])) == [p0, p1]
    ensures FromRun(s, a, b) == (Trim(s[a..b]), MapLabel(Trim(p0)), Trim(p1))
  {
  }

  /** The trimmed first run is found where its leading white space ends: nothing earlier starts with its first character. */
  lemma LocatorIndex(s: string, a: nat, b: nat)
    requires FirstLocatorRun(s, 0) == Some((a, b)) && Trim(s[a..b]) != []
    ensures IndexOf(s, Trim(s[a..b])) == a + TrimLo(s[a..b])
  {
    var run := s[a..b];
    var loc := Trim(run);
    var pos := a + TrimLo(run);
    TrimmedOccurs(s, a, b);
    assert loc[0] == run[TrimLo(run)] == s[pos];
    forall j: nat | j < pos ensures !OccursAt(s, loc, j) {
      if j < a {
        assert !IsLocatorChar(s[j]) && IsLocatorChar(run[TrimLo(run)]);
      } else {
        assert IsSpace(run[j - a]);
      }
      assert s[j] != loc[0];
      if j + |loc| <= |s| {
        assert s[j..j + |loc|][0] == s[j];
      }
    }
    IndexOfAt(s, loc, pos);
  }

  /** The text before the locator trims as the text before its run. */
  lemma LabelText(s: string, a: nat, b: nat, pos: nat)
    requires a <= b <= |s| && pos == a + TrimLo(s[a..b])
    ensures Trim(s[..pos]) == Trim(s[..a])
  {
    var run := s[a..b];
    assert s[..pos] == s[..a] + s[a..pos];
    assert AllSpace(s[a..pos]) by {
      forall i | 0 <= i < |s[a..pos]| ensures IsSpace(s[a..pos][i]) {
        assert s[a..pos][i] == run[i];
      }
    }
    TrimIgnoresTrailingSpaces(s[..a], s[a..pos]);
  }

  /** The text after the locator trims as the text after its run. */
  lemma SuffixText(s: string, a: nat, b: nat, hi: nat)
    requires a <= b <= |s| && hi == a + TrimHi(s[a..b])
    ensures Trim(s[hi..]) == Trim(s[b..])
  {
    var run := s[a..b];
    var tail := s[hi..b];
    assert s[hi..] == tail + s[b..];
    assert AllSpace(tail) by {
      forall i | 0 <= i < |tail| ensures IsSpace(tail[i]) {
        assert tail[i] == run[hi - a + i];
      }
    }
    TrimIgnoresLeadingSpaces(tail, s[b..]);
  }

  // ---------------------------------------------------------------------
  // Where the source's split differs from the intended one

  /**
   * A first run of only white space trims to the empty separator, and
   * splitting on it cuts the text into characters: the locator is empty and
   * the suffix is the second character alone ("and passim" keeps "n").
   */
  lemma BlankRunSplitsCharacters(s: string, a: nat, b: nat)
    requires Trim(s) == s && FirstLocatorRun(s, 0) == Some((a, b)) && Trim(s[a..b]) == []
    ensures |s| >= 2
    ensures LocatorLabelSuffix(s).0 == "" && LocatorLabelSuffix(s).2 == Trim([s[1]])
  {
    LocatorPartsInRange(s, a, b);
    LocatorLabelSuffixOfRun(s, a, b);
  }

  /** As intended, text with no digit, `-` or `,` has no locator and is the whole suffix. */
  lemma NoMarkIntended(s: string)
    requires Trim(s) == s && forall j :: 0 <= j < |s| ==> !IsLocatorMark(s[j])
    ensures IntendedLocatorLabelSuffix(s) == ("", "page", s)
  {
    IntendedLocatorFound(s, 0);
  }

  /**
   * A locator whose trimmed text occurs again after it: the split's second
   * piece stops at that occurrence, so the suffix is only the text between
   * the two ("p. 3 of 3" keeps "of").
   */
  lemma RecurringLocatorTruncatesSuffix(s: string, a: nat, b: nat, hi: nat, q: nat)
    requires Trim(s) == s && FirstLocatorRun(s, 0) == Some((a, b)) && Trim(s[a..b]) != []
    requires hi == a + TrimHi(s[a..b]) && IndexOf(s[hi..], Trim(s[a..b])) == q
    ensures hi + q + |Trim(s[a..b])| <= |s|
    ensures LocatorLabelSuffix(s).2 == Trim(s[hi..hi + q])
  {
    var loc := Trim(s[a..b]);
    var pos := a + TrimLo(s[a..b]);
    LocatorPartsInRange(s, a, b);
    LocatorLabelSuffixOfRun(s, a, b);
    LocatorIndex(s, a, b);
    SecondPiece(s, loc, pos, hi, q);
    FromRunSuffix(s, a, b, s[hi..hi + q]);
  }

  /** As intended, the suffix is all the text after the first run that holds more than white space. */
  lemma IntendedSuffixIsRest(s: string, a: nat, b: nat)
    requires FirstLocatorRun(s, 0) == Some((a, b)) && Trim(s[a..b]) != []
    ensures IntendedLocatorLabelSuffix(s) == (Trim(s[a..b]), MapLabel(Trim(s[..a])), Trim(s[b..]))
  {
    assert FirstNonBlankRun(s, 0) == Some((a, b));
  }

  lemma FromRunSuffix(s: string, a: nat, b: nat, p1: string)
    requires a < b <= |s| && |SplitAny(s, Trim(s[a..b]))| >= 2 && SplitAny(s, Trim(s[a..b]))[1] == p1
    ensures FromRun(s, a, b).2 == Trim(p1)
  {
  }

  // Concrete inputs for both discrepancies.

  /** "p. 3 of 3": the source keeps "of" as the suffix. */
  lemma PageThreeOfThree()
    ensures LocatorLabelSuffix("p. 3 of 3").2 == "of"
  {
    PageExampleTrimmed();
    PageExampleRun();
    PageExamplePieces();
    PageSuffix("p. 3 of 3");
  }

  lemma PageSuffix(s: string)
    requires s == "p. 3 of 3" && Trim(s) == s && FirstLocatorRun(s, 0) == Some((2, 5))
    requires s[2..5] == " 3 " && TrimHi(" 3 ") == 2 && Trim(" 3 ") == "3"
    requires s[4..] == " of 3" && IndexOf(" of 3", "3") == 4
    requires s[4..8] == " of " && Trim(" of ") == "of"
    ensures LocatorLabelSuffix(s).2 == "of"
  {
    RecurringLocatorTruncatesSuffix(s, 2, 5, 4, 4);
  }

  /** "p. 3 of 3": as intended, the suffix is "of 3". */
  lemma PageThreeOfThreeIntended()
    ensures IntendedLocatorLabelSuffix("p. 3 of 3").2 == "of 3"
  {
    PageExampleRun();
    PageExampleRest();
    IntendedSuffixIsRest("p. 3 of 3", 2, 5);
  }

  lemma PageExampleTrimmed()
    ensures Trim("p. 3 of 3") == "p. 3 of 3"
  {
    TrimUnique("p. 3 of 3", 0, 9);
  }

  lemma PageExampleRun()
    ensures FirstLocatorRun("p. 3 of 3", 0) == Some((2, 5))
    ensures "p. 3 of 3"[2..5] == " 3 " && TrimHi(" 3 ") == 2 && Trim(" 3 ") == "3"
  {
    var s := "p. 3 of 3";
    assert !IsLocatorChar(s[0]) && !IsLocatorChar(s[1]);
    assert LocatorRunFrom(s, 2) == 3;
    TrimUnique(" 3 ", 1, 2);
  }

  lemma PageExamplePieces()
    ensures "p. 3 of 3"[4..] == " of 3" && IndexOf(" of 3", "3") == 4
    ensures "p. 3 of 3"[4..8] == " of " && Trim(" of ") == "of"
  {
    var t := " of 3";
    assert t[4..5] == "3";
    forall i: nat | i < 4 ensures !OccursAt(t, "3", i) {
      assert t[i] != '3';
      assert t[i..i + 1] == [t[i]];
    }
    IndexOfAt(t, "3", 4);
    TrimUnique(" of ", 1, 3);
  }

  lemma PageExampleRest()
    ensures "p. 3 of 3"[5..] == "of 3" && Trim("of 3") == "of 3"
  {
    TrimUnique("of 3", 0, 4);
  }

  /** "and passim": the source keeps "n" as the suffix. */
  lemma AndPassim()
    ensures LocatorLabelSuffix("and passim").2 == "n"
  {
    PassimRun();
    PassimSecond();
    BlankRunSplitsCharacters("and passim", 3, 4);
  }

  lemma PassimSecond()
    ensures Trim(["and passim"[1]]) == "n"
  {
    assert ["and passim"[1]] == "n";
    TrimOfTrimmed("n");
  }

  /** "and passim": as intended, it has no locator and is the whole suffix. */
  lemma AndPassimIntended()
    ensures IntendedLocatorLabelSuffix("and passim").2 == "and passim"
  {
    PassimTrimmed();
    PassimHasNoMark();
    NoMarkIntended("and passim");
  }

  lemma PassimTrimmed()
    ensures Trim("and passim") == "and passim"
  {
    TrimUnique("and passim", 0, 10);
  }

  lemma PassimHasNoMark()
    ensures forall j :: 0 <= j < |"and passim"| ==> !IsLocatorMark("and passim"[j])
  {
  }

  lemma PassimRun()
    ensures Trim("and passim") == "and passim" && FirstLocatorRun("and passim", 0) == Some((3, 4))
    ensures Trim("and passim"[3..4]) == []
  {
    var s := "and passim";
    PassimTrimmed();
    assert !IsLocatorChar(s[0]) && !IsLocatorChar(s[1]) && !IsLocatorChar(s[2]);
    assert LocatorRunFrom(s, 3) == 1;
    assert s[3..4] == " ";
    TrimEmpty(" ");
  }
}
