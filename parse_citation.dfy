/**
 * The citation parser of src/parse-citation.js. It reads the groups of a
 * `citationRE` match: a bracketed marker is cut at `;` and every piece that
 * `fullCitationRE` matches becomes a cite item; an in-text marker becomes a
 * single item. `parseSuffix` reads an optional label, a locator and the
 * remaining suffix from the text after a key.
 */
module CitationParser {
  import opened Base
  import opened CiteItems
  import opened CitationRegex

  /** `locatorLabels`: each CSL label with the words a writer may use for it, in source order. */
  const LocatorLabels: seq<(string, seq<string>)> := [
    ("book", ["Buch", "Bücher", "B.", "book", "books", "bk.", "bks.", "livre", "livres", "liv."]),
    ("chapter", ["Kapitel", "Kap.", "chapter", "chapters", "chap.", "chaps", "chapitre", "chapitres"]),
    ("column", ["Spalte", "Spalten", "Sp.", "column", "columns", "col.", "cols", "colonne", "colonnes"]),
    ("figure", ["Abbildung", "Abbildungen", "Abb.", "figure", "figures", "fig.", "figs"]),
    ("folio", ["Blatt", "Blätter", "Fol.", "folio", "folios", "fol.", "fols", "fᵒ", "fᵒˢ"]),
    ("issue", ["Nummer", "Nummern", "Nr.", "number", "numbers", "no.", "nos.", "numéro", "numéros", "nᵒ", "nᵒˢ"]),
    ("line", ["Zeile", "Zeilen", "Z", "line", "lines", "l.", "ll.", "ligne", "lignes"]),
    ("note", ["Note", "Noten", "N.", "note", "notes", "n.", "nn."]),
    ("opus", ["Opus", "Opera", "op.", "opus", "opera", "opp."]),
    ("page", ["Seite", "Seiten", "S.", "page", "pages", "p.", "pp."]),
    ("paragraph", ["Absatz", "Absätze", "Abs.", "¶", "¶¶", "paragraph", "paragraphs", "para.", "paras",
                   "paragraphe", "paragraphes", "paragr."]),
    ("part", ["Teil", "Teile", "part", "parts", "pt.", "pts", "partie", "parties", "part."]),
    ("section", ["Abschnitt", "Abschnitte", "Abschn.", "§", "§§", "section", "sections", "sec.", "secs", "sect."]),
    ("sub verbo", ["sub verbo", "sub verbis", "s.&#160;v.", "s.&#160;vv.", "s.v.", "s.vv."]),
    ("verse", ["Vers", "Verse", "V.", "verse", "verses", "v.", "vv.", "verset", "versets"]),
    ("volume", ["Band", "Bände", "Bd.", "Bde.", "volume", "volumes", "vol.", "vols."])
  ]

  /** The label test of line 200: the lower-cased text starts with the lower-cased word. */
  predicate AliasAt(t: seq<(string, seq<string>)>, lower: string, i: nat, k: nat) {
    i < |t| && k < |t[i].1| && StartsWith(lower, ToLower(t[i].1[k]))
  }

  /** The position `(i, k)` comes before `(i', k')` in the order the two loops visit them. */
  predicate Before(i: nat, k: nat, i': nat, k': nat) {
    i < i' || (i == i' && k < k')
  }

  /** The first word at or after position `k` of one label's list that the text starts with. */
  function FindWord(t: seq<(string, seq<string>)>, lower: string, i: nat, k: nat): (r: Option<nat>)
    requires i < |t| && k <= |t[i].1|
    ensures r.Some? ==> k <= r.value && AliasAt(t, lower, i, r.value)
    ensures r.Some? ==> forall k': nat :: k <= k' < r.value ==> !AliasAt(t, lower, i, k')
    ensures r.None? ==> forall k': nat :: k <= k' < |t[i].1| ==> !AliasAt(t, lower, i, k')
    decreases |t[i].1| - k
  {
    if k == |t[i].1| then None
    else if StartsWith(lower, ToLower(t[i].1[k])) then Some(k)
    else FindWord(t, lower, i, k + 1)
  }

  /** The first `(label, word)` position, in loop order from label `i`, whose word the text starts with. */
  function FindAlias(t: seq<(string, seq<string>)>, lower: string, i: nat): (r: Option<(nat, nat)>)
    requires i <= |t|
    ensures r.Some? ==> i <= r.value.0 && AliasAt(t, lower, r.value.0, r.value.1)
    ensures r.Some? ==> forall i': nat, k': nat :: i <= i' && Before(i', k', r.value.0, r.value.1) ==> !AliasAt(t, lower, i', k')
    ensures r.None? ==> forall i': nat, k': nat :: i <= i' ==> !AliasAt(t, lower, i', k')
    decreases |t| - i
  {
    if i == |t| then None
    else match FindWord(t, lower, i, 0)
      case Some(k) => Some((i, k))
      case None => FindAlias(t, lower, i + 1)
  }

  /** Any position whose word the text starts with, with none before it in loop order, is the one `FindAlias` finds. */
  lemma FirstAlias(t: seq<(string, seq<string>)>, lower: string, i: nat, k: nat)
    requires AliasAt(t, lower, i, k)
    requires forall i': nat, k': nat :: Before(i', k', i, k) ==> !AliasAt(t, lower, i', k')
    ensures FindAlias(t, lower, 0) == Some((i, k))
  {
    var r := FindAlias(t, lower, 0);
    assert r.Some?;
    assert !Before(r.value.0, r.value.1, i, k);
    assert !Before(i, k, r.value.0, r.value.1);
  }

  /** What `parseSuffix` returns. `label` is always set; it starts as `page`. */
  datatype SuffixParts = SuffixParts(locator: Option<string>, labelName: string, suffix: Option<string>)

  /** The locator at the start of `rest`, and the trimmed text after it: lines 210-214 and 231-235. */
  function SplitLocator(rest: string, name: string): (r: SuffixParts)
    ensures r.labelName == name && r.suffix.Some?
    ensures r.locator.None? <==> LocatorMatch(rest).None?
    ensures r.locator.None? ==> r.suffix == Some(rest)
    ensures r.locator.Some? ==> var m := r.locator.value;
      0 < |m| <= |rest| && rest[..|m|] == m && r.suffix == Some(Trim(rest[|m|..]))
  {
    match LocatorMatch(rest)
    case None => SuffixParts(None, name, Some(rest))
    case Some(m) => SuffixParts(Some(m), name, Some(Trim(SubstrFrom(rest, |m|))))
  }

  /**
   * What `parseSuffix` does with the trimmed text `s` once the label search
   * has found the word `found` (a label and the index of one of its words),
   * or no word: lines 199-216 and 219-237.
   */
  function SuffixAfterSearch(t: seq<(string, seq<string>)>, s: string, found: Option<(nat, nat)>, containsLocator: bool): (r: SuffixParts)
    requires found.Some? ==> found.value.0 < |t| && found.value.1 < |t[found.value.0].1|
    ensures r.labelName == (if found.Some? then t[found.value.0].0 else "page")
    ensures containsLocator ==> r.locator.Some? && r.suffix.None?
  {
    match found
    case Some((i, k)) =>
      var rest := Trim(SubstrFrom(s, |t[i].1[k]|));
      if containsLocator then SuffixParts(Some(rest), t[i].0, None)
      else SplitLocator(rest, t[i].0)
    case None =>
      if containsLocator then SuffixParts(Some(s), "page", None)
      else
        match LocatorMatch(s)
        case None => SuffixParts(None, "page", None)
        case Some(m) => SuffixParts(Some(m), "page", Some(Trim(SubstrFrom(s, |m|))))
  }

  /**
   * `parseSuffix(suffix, containsLocator)` over a label table. Without a
   * suffix the defaults come back; with `containsLocator` a locator always
   * comes back and never a suffix; the label is `page` or one of the table's.
   */
  function SuffixOf(t: seq<(string, seq<string>)>, suffix: Option<string>, containsLocator: bool): (r: SuffixParts)
    ensures suffix.None? ==> r == SuffixParts(None, "page", None)
    ensures suffix.Some? && containsLocator ==> r.locator.Some? && r.suffix.None?
    ensures r.labelName == "page" || exists i :: 0 <= i < |t| && r.labelName == t[i].0
  {
    match suffix
    case None => SuffixParts(None, "page", None)
    case Some(raw) =>
      var s := Trim(raw);
      SuffixAfterSearch(t, s, FindAlias(t, ToLower(s), 0), containsLocator)
  }

  /**
   * The label comes from the first word, in table order, that the trimmed
   * suffix starts with (compared in lower case), and only the text after
   * that word is read for the locator.
   */
  lemma LabelFromFirstWord(t: seq<(string, seq<string>)>, raw: string, containsLocator: bool, i: nat, k: nat)
    requires AliasAt(t, ToLower(Trim(raw)), i, k)
    requires forall i': nat, k': nat :: Before(i', k', i, k) ==> !AliasAt(t, ToLower(Trim(raw)), i', k')
    ensures |t[i].1[k]| <= |Trim(raw)|
    ensures var r := SuffixOf(t, Some(raw), containsLocator);
      var rest := Trim(Trim(raw)[|t[i].1[k]|..]);
      r.labelName == t[i].0
      && (containsLocator ==> r == SuffixParts(Some(rest), t[i].0, None))
      && (!containsLocator ==> r == SplitLocator(rest, t[i].0))
  {
    FirstAlias(t, ToLower(Trim(raw)), i, k);
  }

  /**
   * A suffix that starts with no word of the table keeps the label `page`:
   * as an explicit locator it is the whole locator; otherwise the locator is
   * what `locatorRE` matches, and when it matches nothing no suffix is kept.
   */
  lemma UnlabelledSuffix(t: seq<(string, seq<string>)>, raw: string, containsLocator: bool)
    requires forall i: nat, k: nat :: !AliasAt(t, ToLower(Trim(raw)), i, k)
    ensures var r := SuffixOf(t, Some(raw), containsLocator);
      var s := Trim(raw);
      r.labelName == "page"
      && (containsLocator ==> r == SuffixParts(Some(s), "page", None))
      && (!containsLocator ==> r.locator == LocatorMatch(s))
      && (!containsLocator && r.locator.Some? ==> r.suffix == Some(Trim(s[|r.locator.value|..])))
      && (!containsLocator && r.locator.None? ==> r.suffix.None?)
  {
  }

  /** `parseSuffix` as the source runs it over the label table `t`: the two loops with their early exit. */
  method ParseSuffix(t: seq<(string, seq<string>)>, suffix: Option<string>, containsLocator: bool) returns (r: SuffixParts)
    ensures r == SuffixOf(t, suffix, containsLocator)
  {
    r := SuffixParts(None, "page", None);
    if suffix.None? {
      return;
    }
    var s := Trim(suffix.value);
    var lower := ToLower(s);
    for i := 0 to |t|
      invariant forall i': nat, k': nat :: i' < i ==> !AliasAt(t, lower, i', k')
    {
      var words := t[i].1;
      for k := 0 to |words|
        invariant forall k': nat :: k' < k ==> !AliasAt(t, lower, i, k')
      {
        if StartsWith(lower, ToLower(words[k])) {
          FirstAlias(t, lower, i, k);
          var rest := Trim(SubstrFrom(s, |words[k]|));
          if containsLocator {
            r := SuffixParts(Some(rest), t[i].0, None);
          } else {
            r := SplitLocator(rest, t[i].0);
          }
          return;
        }
      }
    }
    assert FindAlias(t, lower, 0).None?;
    if containsLocator {
      r := SuffixParts(Some(s), r.labelName, r.suffix);
    } else {
      var m := LocatorMatch(s);
      if m.Some? {
        r := SuffixParts(Some(m.value), r.labelName, Some(Trim(SubstrFrom(s, |m.value|))));
      }
    }
  }

  // ---------------------------------------------------------------------
  // Cite items

  /** The prefix and suppress-author flag of lines 108-116. */
  function PrefixOf(rawPrefix: Option<string>): (r: (Option<string>, bool))
    ensures rawPrefix.None? ==> r == (None, false)
    ensures rawPrefix.Some? ==> r.1 == EndsWith(Trim(rawPrefix.value), "-") && r.0.Some?
  {
    match rawPrefix
    case None => (None, false)
    case Some(raw) =>
      var t := Trim(raw);
      if EndsWith(t, "-") then (Some(Trim(raw[..|t| - 1])), true) else (Some(t), false)
  }

  /** `a += b` guarded by both being defined: lines 148-153. */
  function AppendDefined(a: Option<string>, b: Option<string>): (r: Option<string>)
    ensures b.None? ==> r == a
  {
    match (a, b)
    case (Some(x), Some(y)) => Some(x + y)
    case _ => a
  }

  /** The item one `fullCitationRE` match yields: lines 97-154. */
  function ItemOf(t: seq<(string, seq<string>)>, m: ItemGroups): (c: CiteItem)
    ensures c.id == Unbrace(m.citekey) && c.locatorLabel.Some?
    ensures c.suppressAuthor == Some(m.prefix.Some? && EndsWith(Trim(m.prefix.value), "-"))
    ensures m.prefix.None? <==> c.prefix.None?
    // An explicit locator, the one right after the key first, is read whole as
    // the locator and the suffix is kept, trimmed: the append never happens.
    ensures m.explicitLocator.Some? || m.explicitLocatorInSuffix.Some? ==>
      var explicit := if m.explicitLocator.Some? then m.explicitLocator else m.explicitLocatorInSuffix;
      c.locator.Some? && c.locator == SuffixOf(t, explicit, true).locator
      && c.suffix == (if m.suffix.Some? then Some(Trim(m.suffix.value)) else None)
  {
    var (prefix, suppress) := PrefixOf(m.prefix);
    var noExplicit := m.explicitLocator.None? && m.explicitLocatorInSuffix.None?;
    var toParse := if noExplicit then m.suffix
      else if m.explicitLocator.Some? then m.explicitLocator else m.explicitLocatorInSuffix;
    var parts := SuffixOf(t, toParse, !noExplicit);
    var suffix0: Option<string> := if noExplicit then None
      else if m.suffix.Some? then Some(Trim(m.suffix.value)) else None;
    var (locator, suffix) :=
      if noExplicit then (parts.locator, parts.suffix) else (AppendDefined(parts.locator, parts.suffix), suffix0);
    CiteItem(Unbrace(m.citekey), prefix, suffix, locator, Some(parts.labelName), Some(suppress))
  }

  /** The item of one `;`-piece: none when `fullCitationRE` does not match its trimmed text. */
  function PieceItems(t: seq<(string, seq<string>)>, piece: string, exec: string -> Option<ItemGroups>): (r: seq<CiteItem>)
    ensures |r| <= 1
  {
    match exec(Trim(piece))
    case None => []
    case Some(m) => [ItemOf(t, m)]
  }

  /** The items of the `;`-pieces, in order, skipping the pieces `exec` does not match. */
  function ItemsOf(t: seq<(string, seq<string>)>, pieces: seq<string>, exec: string -> Option<ItemGroups>): (r: seq<CiteItem>)
    ensures |r| <= |pieces|
  {
    if pieces == [] then [] else PieceItems(t, pieces[0], exec) + ItemsOf(t, pieces[1..], exec)
  }

  /** One more piece adds that piece's item, if it has one. */
  lemma ItemsOfSnoc(t: seq<(string, seq<string>)>, pieces: seq<string>, i: nat, exec: string -> Option<ItemGroups>)
    requires i < |pieces|
    ensures ItemsOf(t, pieces[..i + 1], exec) == ItemsOf(t, pieces[..i], exec) + PieceItems(t, pieces[i], exec)
  {
    assert pieces[..i + 1] == pieces[..i] + [pieces[i]];
    ItemsOfAppend(t, pieces[..i], [pieces[i]], exec);
    assert ItemsOf(t, [pieces[i]], exec) == PieceItems(t, pieces[i], exec) + ItemsOf(t, [], exec);
  }

  /** The items of consecutive pieces are the items of each part, in order. */
  lemma {:induction false} ItemsOfAppend(t: seq<(string, seq<string>)>, a: seq<string>, b: seq<string>, exec: string -> Option<ItemGroups>)
    ensures ItemsOf(t, a + b, exec) == ItemsOf(t, a, exec) + ItemsOf(t, b, exec)
    decreases |a|
  {
    if a == [] {
      assert a + b == b;
    } else {
      assert (a + b)[1..] == a[1..] + b;
      ItemsOfAppend(t, a[1..], b, exec);
    }
  }

  /** When every piece matches, there is one item per piece, built from that piece's match. */
  lemma {:induction false} ItemsOfAllMatch(t: seq<(string, seq<string>)>, pieces: seq<string>, exec: string -> Option<ItemGroups>)
    requires forall j :: 0 <= j < |pieces| ==> exec(Trim(pieces[j])).Some?
    ensures |ItemsOf(t, pieces, exec)| == |pieces|
    ensures forall j :: 0 <= j < |pieces| ==> ItemsOf(t, pieces, exec)[j] == ItemOf(t, exec(Trim(pieces[j])).value)
    decreases |pieces|
  {
    if pieces != [] {
      ItemsOfAllMatch(t, pieces[1..], exec);
      assert forall j :: 1 <= j < |pieces| ==> pieces[1..][j - 1] == pieces[j];
    }
  }

  /** Pieces that `fullCitationRE` does not match are skipped entirely. */
  lemma {:induction false} ItemsOfNoneMatch(t: seq<(string, seq<string>)>, pieces: seq<string>, exec: string -> Option<ItemGroups>)
    requires forall j :: 0 <= j < |pieces| ==> exec(Trim(pieces[j])).None?
    ensures ItemsOf(t, pieces, exec) == []
    decreases |pieces|
  {
    if pieces != [] {
      ItemsOfNoneMatch(t, pieces[1..], exec);
    }
  }

  /** Every item comes from a piece that `fullCitationRE` matches. */
  lemma {:induction false} ItemsOfFromMatches(t: seq<(string, seq<string>)>, pieces: seq<string>, exec: string -> Option<ItemGroups>)
    ensures forall c :: c in ItemsOf(t, pieces, exec) ==>
      exists j :: 0 <= j < |pieces| && exec(Trim(pieces[j])).Some? && c == ItemOf(t, exec(Trim(pieces[j])).value)
    decreases |pieces|
  {
    if pieces != [] {
      ItemsOfFromMatches(t, pieces[1..], exec);
      forall c | c in ItemsOf(t, pieces, exec)
        ensures exists j :: 0 <= j < |pieces| && exec(Trim(pieces[j])).Some? && c == ItemOf(t, exec(Trim(pieces[j])).value)
      {
        if c !in PieceItems(t, pieces[0], exec) {
          assert c in ItemsOf(t, pieces[1..], exec);
          var j :| 0 <= j < |pieces[1..]| && exec(Trim(pieces[1..][j])).Some? && c == ItemOf(t, exec(Trim(pieces[1..][j])).value);
          assert pieces[1..][j] == pieces[j + 1];
        }
      }
    }
  }

  /** The id of an item is its key, without the braces when the key is braced. */
  lemma ItemKey(t: seq<(string, seq<string>)>, m: ItemGroups)
    requires ItemShape(m)
    ensures ItemOf(t, m).id == if BracedKey(m.citekey) then m.citekey[1..|m.citekey| - 1] else m.citekey
  {
    if BracedKey(m.citekey) {
      UnbraceBraced(m.citekey);
    } else {
      NoBraceUnchanged(m.citekey, 0);
    }
  }

  /** The in-text item of lines 161-166. */
  function InTextItem(t: seq<(string, seq<string>)>, g: MarkerGroups): (c: CiteItem)
    requires g.key.Some?
  {
    var parts := SuffixOf(t, g.optionalSuffix, false);
    CiteItem(Unbrace(g.key.value), None, parts.suffix, parts.locator, Some(parts.labelName), Some(g.suppress.Some?))
  }

  /** `parseCitation(regexMatch)`: the entries and the composite flag. */
  function Citation(t: seq<(string, seq<string>)>, g: MarkerGroups, exec: string -> Option<ItemGroups>): (r: (seq<CiteItem>, bool))
    requires g.full.Some? || g.key.Some?
    ensures r.1 <==> g.full.None?
    ensures g.full.Some? ==> |r.0| <= |Split(g.full.value, ";")|
    ensures g.full.None? ==>
      |r.0| == 1 && r.0[0].prefix.None? && r.0[0].id == Unbrace(g.key.value)
      && r.0[0].suppressAuthor == Some(g.suppress.Some?)
  {
    if g.full.Some? then (ItemsOf(t, Split(g.full.value, ";"), exec), false)
    else ([InTextItem(t, g)], true)
  }

  /** `parseCitation` as the source runs it, pushing each matched piece's item. */
  method ParseCitation(t: seq<(string, seq<string>)>, g: MarkerGroups, exec: string -> Option<ItemGroups>) returns (entries: seq<CiteItem>, composite: bool)
    requires g.full.Some? || g.key.Some?
    ensures (entries, composite) == Citation(t, g, exec)
  {
    entries := [];
    composite := false;
    if g.full.Some? {
      var pieces := Split(g.full.value, ";");
      for i := 0 to |pieces|
        invariant entries == ItemsOf(t, pieces[..i], exec)
      {
        ItemsOfSnoc(t, pieces, i, exec);
        var m := exec(Trim(pieces[i]));
        if m.None? {
          continue;
        }
        var item := ItemOf(t, m.value);
        entries := entries + [item];
      }
      assert pieces[..|pieces|] == pieces;
    } else {
      composite := true;
      var parts := ParseSuffix(t, g.optionalSuffix, false);
      entries := [CiteItem(Unbrace(g.key.value), None, parts.suffix, parts.locator, Some(parts.labelName), Some(g.suppress.Some?))];
      assert entries == [InTextItem(t, g)];
    }
  }
}
