/**
 * Three places where the suffix and prefix handling of src/parse-citation.js
 * does not do what its comments describe, each as written and corrected:
 *  - the label search takes the first word of the table that the suffix
 *    starts with, so a singular listed before its plural (`page` before
 *    `pages`) cuts the plural in two and loses the locator;
 *  - a suffix with no label and no locator is dropped instead of kept;
 *  - the prefix of an author-suppressed item is cut at the length of its
 *    trimmed text, which is the wrong place when it starts with white space.
 */
module CitationParserFindings {
  import opened Base
  import opened CitationRegex
  import opened CitationParser

  // ---------------------------------------------------------------------
  // Reading the label table on a concrete text

  /** No word of the labels `[lo, hi)` is empty or starts, in lower case, with `c`. */
  predicate NoInitial(t: seq<(string, seq<string>)>, lo: nat, hi: nat, c: char) {
    forall i, k :: lo <= i < hi && i < |t| && 0 <= k < |t[i].1| ==> |t[i].1[k]| > 0 && LowerChar(t[i].1[k][0]) != c
  }

  /** Position `j` of `w` exists and differs, in lower case, from `c`. */
  predicate Miss(w: string, j: nat, c: char) {
    j < |w| && LowerChar(w[j]) != c
  }

  /** Every word of `t` longer than `n` differs from `c1` at `j1` or from `c2` at `j2`. */
  predicate LongWordsMiss(t: seq<(string, seq<string>)>, lo: nat, hi: nat, n: nat, j1: nat, c1: char, j2: nat, c2: char) {
    forall i, k :: lo <= i < hi && i < |t| && 0 <= k < |t[i].1| ==>
      |t[i].1[k]| <= n || Miss(t[i].1[k], j1, c1) || Miss(t[i].1[k], j2, c2)
  }

  /** A text starts with a word only where their lower-cased characters agree. */
  lemma AliasAgrees(t: seq<(string, seq<string>)>, lower: string, i: nat, k: nat, j: nat)
    requires AliasAt(t, lower, i, k) && j < |t[i].1[k]|
    ensures j < |lower| && lower[j] == LowerChar(t[i].1[k][j])
  {
    assert lower[..|t[i].1[k]|][j] == ToLower(t[i].1[k])[j];
  }

  /** A text starting with `c` starts with no word of labels whose words never start with `c`. */
  lemma NoInitialNoAlias(t: seq<(string, seq<string>)>, lower: string, lo: nat, hi: nat)
    requires |lower| > 0 && NoInitial(t, lo, hi, lower[0])
    ensures forall i: nat, k: nat :: lo <= i < hi ==> !AliasAt(t, lower, i, k)
  {
    forall i: nat, k: nat | lo <= i < hi && i < |t| && k < |t[i].1|
      ensures !AliasAt(t, lower, i, k)
    {
      WordMissesAt(lower, t[i].1[k], 0);
    }
  }

  /** A word that differs from the text at `j` is not a prefix of it. */
  lemma WordMissesAt(lower: string, w: string, j: nat)
    requires Miss(w, j, if j < |lower| then lower[j] else ' ') && j < |lower|
    ensures !StartsWith(lower, ToLower(w))
  {
    assert ToLower(w)[j] != lower[j];
  }

  /** Where the long words all miss the text, the words it starts with are at most `n` long. */
  lemma LongWordsMissShort(t: seq<(string, seq<string>)>, lower: string, n: nat, j1: nat, j2: nat)
    requires j1 < |lower| && j2 < |lower| && LongWordsMiss(t, 0, |t|, n, j1, lower[j1], j2, lower[j2])
    ensures forall i: nat, k: nat :: AliasAt(t, lower, i, k) ==> |t[i].1[k]| <= n
  {
    forall i: nat, k: nat | i < |t| && k < |t[i].1| && n < |t[i].1[k]|
      ensures !AliasAt(t, lower, i, k)
    {
      if Miss(t[i].1[k], j1, lower[j1]) {
        WordMissesAt(lower, t[i].1[k], j1);
      } else {
        WordMissesAt(lower, t[i].1[k], j2);
      }
    }
  }

  lemma LabelsBeforePageSkipP()
    ensures NoInitial(LocatorLabels, 0, 9, 'p')
  {
  }

  lemma FirstLabelsSkipE()
    ensures NoInitial(LocatorLabels, 0, 8, 'e')
  {
    LabelSkipsE0();
    LabelSkipsE1();
    LabelSkipsE2();
    LabelSkipsE3();
    LabelSkipsE4();
    LabelSkipsE5();
    LabelSkipsE6();
    LabelSkipsE7();
    RowsNoInitial(LocatorLabels, 0, 8, 'e');
  }

  lemma LastLabelsSkipE()
    ensures NoInitial(LocatorLabels, 8, 16, 'e')
  {
    LabelSkipsE8();
    LabelSkipsE9();
    LabelSkipsE10();
    LabelSkipsE11();
    LabelSkipsE12();
    LabelSkipsE13();
    LabelSkipsE14();
    LabelSkipsE15();
    RowsNoInitial(LocatorLabels, 8, 16, 'e');
  }

  /** No word of label `i` is empty or starts, in lower case, with `c`. */
  predicate RowNoInitial(t: seq<(string, seq<string>)>, i: nat, c: char) {
    i < |t| && forall k :: 0 <= k < |t[i].1| ==> |t[i].1[k]| > 0 && LowerChar(t[i].1[k][0]) != c
  }

  lemma RowsNoInitial(t: seq<(string, seq<string>)>, lo: nat, hi: nat, c: char)
    requires forall i :: lo <= i < hi ==> RowNoInitial(t, i, c)
    ensures NoInitial(t, lo, hi, c)
  {
    forall i, k | lo <= i < hi && i < |t| && 0 <= k < |t[i].1|
      ensures |t[i].1[k]| > 0 && LowerChar(t[i].1[k][0]) != c
    {
      assert RowNoInitial(t, i, c);
    }
  }

  // Label by label: one small table lookup each.
  lemma LabelSkipsE0() ensures RowNoInitial(LocatorLabels, 0, 'e') { }
  lemma LabelSkipsE1() ensures RowNoInitial(LocatorLabels, 1, 'e') { }
  lemma LabelSkipsE2() ensures RowNoInitial(LocatorLabels, 2, 'e') { }
  lemma LabelSkipsE3() ensures RowNoInitial(LocatorLabels, 3, 'e') { }
  lemma LabelSkipsE4() ensures RowNoInitial(LocatorLabels, 4, 'e') { }
  lemma LabelSkipsE5() ensures RowNoInitial(LocatorLabels, 5, 'e') { }
  lemma LabelSkipsE6() ensures RowNoInitial(LocatorLabels, 6, 'e') { }
  lemma LabelSkipsE7() ensures RowNoInitial(LocatorLabels, 7, 'e') { }
  lemma LabelSkipsE8() ensures RowNoInitial(LocatorLabels, 8, 'e') { }
  lemma LabelSkipsE9() ensures RowNoInitial(LocatorLabels, 9, 'e') { }
  lemma LabelSkipsE10() ensures RowNoInitial(LocatorLabels, 10, 'e') { }
  lemma LabelSkipsE11() ensures RowNoInitial(LocatorLabels, 11, 'e') { }
  lemma LabelSkipsE12() ensures RowNoInitial(LocatorLabels, 12, 'e') { }
  lemma LabelSkipsE13() ensures RowNoInitial(LocatorLabels, 13, 'e') { }
  lemma LabelSkipsE14() ensures RowNoInitial(LocatorLabels, 14, 'e') { }
  lemma LabelSkipsE15() ensures RowNoInitial(LocatorLabels, 15, 'e') { }

  lemma FirstLabelsLongMiss()
    ensures LongWordsMiss(LocatorLabels, 0, 8, 5, 0, 'p', 2, 'g')
  {
  }

  lemma LastLabelsLongMiss()
    ensures LongWordsMiss(LocatorLabels, 8, 16, 5, 0, 'p', 2, 'g')
  {
  }

  // ---------------------------------------------------------------------
  // The first word wins, so `pages` is read as `page` + `s`

  lemma PagesText()
    ensures Trim("pages 3-4") == "pages 3-4" && ToLower("pages 3-4") == "pages 3-4"
    ensures Trim("pages 3-4"[4..]) == "s 3-4"
  {
    TrimOfTrimmed("pages 3-4");
    assert "pages 3-4"[4..] == "s 3-4";
    TrimOfTrimmed("s 3-4");
  }

  /** `page` is the first word of the label `page` that `pages 3-4` starts with. */
  lemma PageWordsOfPage(lower: string)
    requires lower == "pages 3-4"
    ensures AliasAt(LocatorLabels, lower, 9, 3)
    ensures forall k: nat :: k < 3 ==> !AliasAt(LocatorLabels, lower, 9, k)
  {
    assert LocatorLabels[9].1[3] == "page";
    assert ToLower("page") == "page";
    forall k: nat | k < 3
      ensures !AliasAt(LocatorLabels, lower, 9, k)
    {
      assert LowerChar(LocatorLabels[9].1[k][0]) == 's';
      WordMissesAt(lower, LocatorLabels[9].1[k], 0);
    }
  }

  /** The label search on `pages 3-4` stops at `page`. */
  lemma PagesFound()
    ensures FindAlias(LocatorLabels, "pages 3-4", 0) == Some((9, 3))
  {
    var lower := "pages 3-4";
    PageWordsOfPage(lower);
    LabelsBeforePageSkipP();
    NoInitialNoAlias(LocatorLabels, lower, 0, 9);
    FirstAlias(LocatorLabels, lower, 9, 3);
  }

  lemma PageWord()
    ensures LocatorLabels[9].0 == "page" && |LocatorLabels[9].1[3]| == 4
  {
  }

  lemma NoLocatorAfterS()
    ensures LocatorMatch("s 3-4").None?
  {
    var s := "s 3-4";
    assert s[0] == 's';
    assert BodyRun(s, 0, false) == 0;
    assert BodyRun(s, 0, true) == 0;
  }

  /**
   * As written: `pages 3-4` is read with the word `page`, the locator search
   * then starts at `s 3-4` and finds nothing, and the page range ends up in
   * the suffix.
   */
  lemma PagesLosesLocator()
    ensures SuffixOf(LocatorLabels, Some("pages 3-4"), false) == SuffixParts(None, "page", Some("s 3-4"))
  {
    PagesText();
    PagesFound();
    PageWord();
    NoLocatorAfterS();
  }

  /** The position `(i', k')` is `(i, k)` or comes after it in loop order. */
  predicate AtOrAfter(i': nat, k': nat, i: nat, k: nat) {
    i < i' || (i == i' && k <= k')
  }

  /**
   * Corrected search: of the words at `(i, k)` or after that the text starts
   * with, the longest, the first in table order among equally long ones.
   */
  function LongestFrom(t: seq<(string, seq<string>)>, lower: string, i: nat, k: nat): (r: Option<(nat, nat)>)
    requires i <= |t| && (i < |t| ==> k <= |t[i].1|)
    ensures r.Some? ==> AtOrAfter(r.value.0, r.value.1, i, k) && AliasAt(t, lower, r.value.0, r.value.1)
    ensures forall i': nat, k': nat :: AtOrAfter(i', k', i, k) && AliasAt(t, lower, i', k') ==>
      r.Some? && |t[i'].1[k']| <= |t[r.value.0].1[r.value.1]|
    ensures r.Some? ==> forall i': nat, k': nat ::
      AtOrAfter(i', k', i, k) && Before(i', k', r.value.0, r.value.1) && AliasAt(t, lower, i', k') ==>
      |t[i'].1[k']| < |t[r.value.0].1[r.value.1]|
    decreases |t| - i, if i < |t| then |t[i].1| - k else 0
  {
    if i == |t| then None
    else if k == |t[i].1| then LongestFrom(t, lower, i + 1, 0)
    else
      var rest := LongestFrom(t, lower, i, k + 1);
      if AliasAt(t, lower, i, k) && (rest.None? || |t[i].1[k]| >= |t[rest.value.0].1[rest.value.1]|)
      then Some((i, k))
      else rest
  }

  /** `parseSuffix` reading the longest word the suffix starts with. */
  function IntendedSuffixOf(t: seq<(string, seq<string>)>, suffix: Option<string>, containsLocator: bool): (r: SuffixParts)
    ensures suffix.None? ==> r == SuffixParts(None, "page", None)
  {
    match suffix
    case None => SuffixParts(None, "page", None)
    case Some(raw) =>
      var s := Trim(raw);
      SuffixAfterSearch(t, s, LongestFrom(t, ToLower(s), 0, 0), containsLocator)
  }

  /**
   * Corrected: when a word `w` and a longer word both start the text, the
   * longer one (or one at least as long) is read, so a plural listed after
   * its singular is reachable.
   */
  lemma IntendedPrefersLonger(t: seq<(string, seq<string>)>, lower: string, i: nat, k: nat, i2: nat, k2: nat)
    requires AliasAt(t, lower, i, k) && AliasAt(t, lower, i2, k2) && |t[i].1[k]| < |t[i2].1[k2]|
    ensures var r := LongestFrom(t, lower, 0, 0);
      r.Some? && r.value != (i, k) && |t[i2].1[k2]| <= |t[r.value.0].1[r.value.1]|
  {
  }

  lemma PagesRest()
    ensures Trim("pages 3-4"[5..]) == "3-4" && LocatorMatch("3-4") == Some("3-4") && Trim("3-4"[3..]) == ""
  {
    assert "pages 3-4"[5..] == " " + "3-4";
    TrimIgnoresLeadingSpaces(" ", "3-4");
    TrimOfTrimmed("3-4");
    var s := "3-4";
    assert BodyRun(s, 3, false) == 0;
    assert BodyRun(s, 0, false) == 3;
    assert TailEnd(s, 3, false) == 3;
    assert s[..3] == s;
    assert s[3..] == "";
    TrimEmpty("");
  }

  /** The longest word `pages 3-4` starts with is five characters long. */
  lemma PagesLongest()
    ensures var r := LongestFrom(LocatorLabels, "pages 3-4", 0, 0);
      r.Some? && |LocatorLabels[r.value.0].1[r.value.1]| == 5
  {
    var lower := "pages 3-4";
    assert LocatorLabels[9].1[4] == "pages";
    assert ToLower("pages") == "pages";
    assert AliasAt(LocatorLabels, lower, 9, 4);
    FirstLabelsLongMiss();
    LastLabelsLongMiss();
    LongWordsMissShort(LocatorLabels, lower, 5, 0, 2);
  }

  /** Corrected: `pages 3-4` is read with the word `pages` and the locator is `3-4`. */
  lemma PagesIntended()
    ensures IntendedSuffixOf(LocatorLabels, Some("pages 3-4"), false).locator == Some("3-4")
    ensures IntendedSuffixOf(LocatorLabels, Some("pages 3-4"), false).suffix == Some("")
  {
    PagesText();
    PagesLongest();
    PagesRest();
  }

  // ---------------------------------------------------------------------
  // A suffix with neither label nor locator is dropped

  lemma EmphasisText()
    ensures Trim("emphasis added") == "emphasis added" && ToLower("emphasis added") == "emphasis added"
    ensures LocatorMatch("emphasis added").None?
  {
    TrimOfTrimmed("emphasis added");
    var s := "emphasis added";
    assert s[0] == 'e';
    assert BodyRun(s, 0, false) == 0;
    assert BodyRun(s, 0, true) == 0;
  }

  /** No word of the table starts `emphasis added`. */
  lemma EmphasisUnlabelled()
    ensures forall i: nat, k: nat :: !AliasAt(LocatorLabels, "emphasis added", i, k)
  {
    var lower := "emphasis added";
    FirstLabelsSkipE();
    LastLabelsSkipE();
    NoInitialNoAlias(LocatorLabels, lower, 0, 8);
    NoInitialNoAlias(LocatorLabels, lower, 8, 16);
  }

  /** As written: `[@key, emphasis added]` loses its suffix. */
  lemma EmphasisDropped()
    ensures SuffixOf(LocatorLabels, Some("emphasis added"), false) == SuffixParts(None, "page", None)
  {
    EmphasisText();
    EmphasisUnlabelled();
    UnlabelledSuffix(LocatorLabels, "emphasis added", false);
  }

  /** `parseSuffix` keeping the text as the suffix when no locator is found. */
  function KeptSuffixOf(t: seq<(string, seq<string>)>, suffix: Option<string>, containsLocator: bool): (r: SuffixParts)
  {
    var r := SuffixOf(t, suffix, containsLocator);
    if suffix.Some? && !containsLocator && r.suffix.None? then SuffixParts(r.locator, r.labelName, Some(Trim(suffix.value)))
    else r
  }

  /**
   * Corrected: a suffix that is not an explicit locator always comes back as
   * a suffix, and with no label and no locator it is the whole trimmed text.
   */
  lemma KeptSuffixKeepsText(t: seq<(string, seq<string>)>, raw: string)
    ensures KeptSuffixOf(t, Some(raw), false).suffix.Some?
    ensures var r := KeptSuffixOf(t, Some(raw), false);
      r.locator.None? && r.labelName == "page" && (forall i: nat, k: nat :: !AliasAt(t, ToLower(Trim(raw)), i, k))
      ==> r.suffix == Some(Trim(raw))
  {
    var s := Trim(raw);
    var f := FindAlias(t, ToLower(s), 0);
    if f.Some? {
      assert SuffixOf(t, Some(raw), false) == SplitLocator(Trim(SubstrFrom(s, |t[f.value.0].1[f.value.1]|)), t[f.value.0].0);
    }
  }

  /** Corrected: `[@key, emphasis added]` keeps `emphasis added` as its suffix. */
  lemma EmphasisKept()
    ensures KeptSuffixOf(LocatorLabels, Some("emphasis added"), false) == SuffixParts(None, "page", Some("emphasis added"))
  {
    EmphasisDropped();
    EmphasisText();
  }

  // ---------------------------------------------------------------------
  // The suppress-author prefix is cut on the untrimmed text

  lemma IndentedTexts()
    ensures Trim("  see -") == "see -" && Trim("  se") == "se"
  {
    TrimIgnoresLeadingSpaces("  ", "see -");
    assert "  " + "see -" == "  see -";
    TrimOfTrimmed("see -");
    TrimIgnoresLeadingSpaces("  ", "se");
    assert "  " + "se" == "  se";
    TrimOfTrimmed("se");
  }

  lemma UnindentedTexts()
    ensures Trim("see -") == "see -" && Trim("see ") == "see"
  {
    TrimOfTrimmed("see -");
    TrimIgnoresTrailingSpaces("see", " ");
    assert "see" + " " == "see ";
    TrimOfTrimmed("see");
  }

  /** The prefix `see -` gives `see`: the `-` and the space before it are cut. */
  lemma UnindentedPrefix()
    ensures PrefixOf(Some("see -")) == (Some("see"), true)
  {
    UnindentedTexts();
    assert "see -"[..4] == "see ";
  }

  /** As written: the prefix `  see -` of an item on an indented line becomes `se`. */
  lemma IndentedPrefixCut()
    ensures PrefixOf(Some("  see -")) == (Some("se"), true)
  {
    IndentedTexts();
    assert "  see -"[..4] == "  se";
  }

  /** Lines 110-116 with the `-` cut off the trimmed prefix. */
  function IntendedPrefixOf(rawPrefix: Option<string>): (r: (Option<string>, bool))
    ensures rawPrefix.None? ==> r == (None, false)
    ensures rawPrefix.Some? ==> r == PrefixOf(Some(Trim(rawPrefix.value)))
  {
    match rawPrefix
    case None => (None, false)
    case Some(raw) =>
      var t := Trim(raw);
      TrimIdempotent(raw);
      if EndsWith(t, "-") then (Some(Trim(t[..|t| - 1])), true) else (Some(t), false)
  }

  /** Corrected: white space around a prefix changes neither the prefix nor the flag. */
  lemma IntendedPrefixIgnoresSpaces(y: string, x: string, z: string)
    requires AllSpace(y) && AllSpace(z)
    ensures IntendedPrefixOf(Some(y + x + z)) == IntendedPrefixOf(Some(x))
  {
    TrimIgnoresSurroundingSpaces(y, x, z);
  }

  /** Corrected: the indented prefix `  see -` gives `see`, as `see -` does. */
  lemma IndentedPrefixIntended()
    ensures IntendedPrefixOf(Some("  see -")) == (Some("see"), true)
  {
    IndentedTexts();
    UnindentedPrefix();
  }
}
