// The Citation File Format plugin: the type tables and the field converters
// between CFF and CSL (publisher and place, identifiers, keywords, pages,
// year and month), `addId`, and `parse` / `format`, which turn one CFF
// document into a list of CSL entries and back. The generic property
// translator the plugin configures is a pair of given functions.

module Cff {
  import opened Base
  import opened JsValue
  import opened JsObject

  // ---------------------------------------------------------------------
  // Types

  /** `TYPES_TO_TARGET`: CFF reference types to CSL types. */
  const TypesToTarget: map<string, string> := map[
    "art" := "graphic", "article" := "article-journal", "audiovisual" := "motion_picture",
    "bill" := "bill", "blog" := "post-weblog", "book" := "book", "catalogue" := "collection",
    "conference" := "event", "conference-paper" := "paper-conference", "data" := "dataset",
    "database" := "dataset", "dictionary" := "entry-dictionary", "edited-work" := "document",
    "encyclopedia" := "entry-encyclopedia", "film-broadcast" := "broadcast", "generic" := "document",
    "government-document" := "regulation", "grant" := "document", "hearing" := "hearing",
    "historical-work" := "classic", "legal-case" := "legal_case", "legal-rule" := "legislation",
    "magazine-article" := "article-magazine", "manual" := "report", "map" := "map",
    "multimedia" := "motion_picture", "music" := "musical_score", "newspaper-article" := "article-newspaper",
    "pamphlet" := "pamphlet", "patent" := "patent", "personal-communication" := "personal_communication",
    "proceedings" := "book", "report" := "report", "serial" := "periodical", "slides" := "speech",
    "software" := "software", "software-code" := "software", "software-container" := "software",
    "software-executable" := "software", "software-virtual-machine" := "software",
    "sound-recording" := "song", "standard" := "standard", "statute" := "legislation",
    "thesis" := "thesis", "unpublished" := "article", "video" := "motion_picture", "website" := "webpage"
  ]

  /** `TYPES_TO_SOURCE`: CSL types to CFF reference types. */
  const TypesToSource: map<string, string> := map[
    "article" := "article", "article-journal" := "article", "article-magazine" := "magazine-article",
    "article-newspaper" := "newspaper-article", "bill" := "bill", "book" := "book",
    "broadcast" := "film-broadcast", "chapter" := "generic", "classic" := "historical-work",
    "collection" := "catalogue", "dataset" := "data", "document" := "generic", "entry" := "generic",
    "entry-dictionary" := "dictionary", "entry-encyclopedia" := "encyclopedia", "event" := "conference",
    "figure" := "generic", "graphic" := "art", "hearing" := "hearing", "interview" := "sound-recording",
    "legal_case" := "legal-case", "legislation" := "statute", "manuscript" := "historical-work",
    "map" := "map", "motion_picture" := "film-broadcast", "musical_score" := "music",
    "pamphlet" := "pamphlet", "paper-conference" := "conference-paper", "patent" := "patent",
    "performance" := "generic", "periodical" := "serial", "personal_communication" := "personal-communication",
    "post" := "serial", "post-weblog" := "blog", "regulation" := "government-document", "report" := "report",
    "review" := "generic", "review-book" := "generic", "software" := "software", "song" := "sound-recording",
    "speech" := "slides", "standard" := "standard", "thesis" := "thesis", "treaty" := "generic",
    "webpage" := "website"
  ]

  /** The type of a reference in CSL: its table entry, or `document`. */
  function TypeToTarget(t: Value): (r: string)
    ensures ToJsString(t) !in TypesToTarget ==> r == "document"
    ensures r == "document" || r in TypesToTarget.Values
  {
    var key := ToJsString(t);
    if key in TypesToTarget then TypesToTarget[key] else "document"
  }

  /** The type of a reference in CFF: `proceedings` for a book with an
      event title, else its table entry, or `generic`. */
  function TypeToSource(t: Value, eventTitle: Value): (r: string)
    ensures t == Str("book") && Truthy(eventTitle) ==> r == "proceedings"
    ensures !(t == Str("book") && Truthy(eventTitle)) && ToJsString(t) !in TypesToSource ==> r == "generic"
    ensures r == "proceedings" || r == "generic" || r in TypesToSource.Values
  {
    var key := ToJsString(t);
    if t == Str("book") && Truthy(eventTitle) then "proceedings"
    else if key in TypesToSource then TypesToSource[key] else "generic"
  }

  /** The type of the main work, both ways: `dataset` stays, all else is
      `software`. */
  function MainType(t: Value): (r: string)
    ensures r == "dataset" || r == "software"
    ensures r == "dataset" <==> t == Str("dataset")
  {
    if t == Str("dataset") then "dataset" else "software"
  }

  // ---------------------------------------------------------------------
  // Publisher and place

  const DestructureError := "TypeError: Cannot destructure an undefined or null value"
  const PlaceSplitError := "TypeError: place.split is not a function"

  /** `values.filter(Boolean)`. */
  function TruthyOnly(vs: seq<Value>): (r: seq<Value>)
    ensures |r| <= |vs|
    ensures forall i :: 0 <= i < |r| ==> Truthy(r[i]) && r[i] in vs
    ensures forall i :: 0 <= i < |vs| && Truthy(vs[i]) ==> vs[i] in r
  {
    if vs == [] then [] else (if Truthy(vs[0]) then [vs[0]] else []) + TruthyOnly(vs[1..])
  }

  /** `[city, region, country].filter(Boolean).join(', ') || undefined`. */
  function PlaceOf(city: Value, region: Value, country: Value): (r: Value)
    ensures r.Undefined? || (r.Str? && r.s != "")
    ensures !Truthy(city) && !Truthy(region) && !Truthy(country) ==> r.Undefined?
  {
    var present := TruthyOnly([city, region, country]);
    var text := Join(seq(|present|, i requires 0 <= i < |present| => ToJsString(present[i])), ", ");
    if text == "" then Undefined else Str(text)
  }

  /** `publisher.toTarget(entity)`: the name and the place. */
  function PublisherToTarget(entity: Value): (r: Result<seq<Value>, string>)
    ensures r.Err? <==> entity.Undefined? || entity.Null?
    ensures r.Ok? ==> |r.value| == 2 && r.value[0] == Member(entity, "name")
  {
    if entity.Undefined? || entity.Null? then Err(DestructureError)
    else Ok([Member(entity, "name"),
             PlaceOf(Member(entity, "city"), Member(entity, "region"), Member(entity, "country"))])
  }

  /** What `publisher.toSource` builds: the name, and from a place the
      country (the last part), the region (the middle of three parts) and
      the city (the first of two or three parts). */
  function PublisherEntity(name: Value, place: Value): (r: Result<Props<Value>, string>)
    ensures r.Err? <==> Truthy(place) && !place.Str?
    ensures r.Ok? ==> |r.value| >= 1 && r.value[0] == ("name", name) && Distinct(r.value)
    ensures r.Ok? && !Truthy(place) ==> r.value == [("name", name)]
  {
    if !Truthy(place) then Ok([("name", name)])
    else if !place.Str? then Err(PlaceSplitError)
    else
      var parts := Split(place.s, ", ");
      var n := |parts|;
      var country := ("country", Str(parts[n - 1]));
      if n == 3 then Ok([("name", name), country, ("region", Str(parts[1])), ("city", Str(parts[0]))])
      else if n == 2 then Ok([("name", name), country, ("city", Str(parts[0]))])
      else Ok([("name", name), country])
  }

  /** `publisher.toSource(name, place)`, popping the parts of the place. */
  method PublisherToSource(name: Value, place: Value) returns (r: Result<Props<Value>, string>)
    ensures r == PublisherEntity(name, place)
  {
    var entity: Props<Value> := [("name", name)];
    if Truthy(place) {
      if !place.Str? {
        return Err(PlaceSplitError);
      }
      var parts := Split(place.s, ", ");
      ghost var n := |parts|;
      ghost var all := parts;
      entity := Set(entity, "country", Str(parts[|parts| - 1]));
      assert entity == [("name", name), ("country", Str(all[n - 1]))];
      parts := parts[..|parts| - 1];
      if |parts| == 2 {
        entity := Set(entity, "region", Str(parts[1]));
        assert entity == [("name", name), ("country", Str(all[n - 1])), ("region", Str(all[1]))];
        parts := parts[..1];
      }
      if |parts| == 1 {
        entity := Set(entity, "city", Str(parts[0]));
        assert parts[0] == all[0];
      }
      assert all == Split(place.s, ", ");
      assert n == 3 ==> entity == [("name", name), ("country", Str(all[n - 1])), ("region", Str(all[1])), ("city", Str(all[0]))];
      assert n == 2 ==> entity == [("name", name), ("country", Str(all[n - 1])), ("city", Str(all[0]))];
      assert n != 2 && n != 3 ==> entity == [("name", name), ("country", Str(all[n - 1]))];
    }
    return Ok(entity);
  }

  /** The converter of `institution` and `department` for theses: the
      department goes in front of the institution's name. */
  function InstitutionToTarget(institution: Value, department: Value): (r: Result<seq<Value>, string>)
    ensures r.Err? <==> institution.Undefined? || institution.Null?
    ensures r.Ok? ==> |r.value| == 2 && PublisherToTarget(institution).Ok? && r.value[1] == PublisherToTarget(institution).value[1]
    ensures r.Ok? && !Truthy(department) ==> r.value == PublisherToTarget(institution).value
  {
    match PublisherToTarget(institution)
    case Err(e) => Err(e)
    case Ok(np) =>
      var name := np[0];
      Ok([if Truthy(department) then Str(ToJsString(department) + ", " + ToJsString(name)) else name, np[1]])
  }

  // ---------------------------------------------------------------------
  // Identifiers

  /** An identifier object, as its `type` and `value`. */
  type Identifier = (Value, Value)

  const TypeIsbn := "urn:isbn:"
  const TypeIssn := "urn:issn:"
  const TypePmcid := "pmcid:"
  const TypePmid := "pmid:"

  /** An `other` identifier whose value is no string: `startsWith` throws. */
  predicate Unreadable(id: Identifier) {
    id.0 == Str("other") && !id.1.Str?
  }

  function StartsWithError(v: Value): string {
    if v.Undefined? then "TypeError: Cannot read properties of undefined (reading 'startsWith')"
    else if v.Null? then "TypeError: Cannot read properties of null (reading 'startsWith')"
    else "TypeError: value.startsWith is not a function"
  }

  /** The value identifier `id` writes into slot `k` of
      [DOI, ISBN, ISSN, PMCID, PMID, URL], if it writes there: a `doi` when
      the entry has no `doi` field, a `url` when it has no `url` field, and
      an `other` with one of the four prefixes, without the prefix. */
  function WriteOf(id: Identifier, k: nat, doi: Value, url: Value): Option<Value> {
    var (t, v) := id;
    if k == 0 && !Truthy(doi) && t == Str("doi") then Some(v)
    else if k == 5 && !Truthy(url) && t == Str("url") then Some(v)
    else if t == Str("other") && v.Str? then
      var s := v.s;
      if k == 1 && StartsWith(s, TypeIsbn) then Some(Str(s[|TypeIsbn|..]))
      else if k == 2 && StartsWith(s, TypeIssn) then Some(Str(s[|TypeIssn|..]))
      else if k == 3 && StartsWith(s, TypePmcid) then Some(Str(s[|TypePmcid|..]))
      else if k == 4 && StartsWith(s, TypePmid) then Some(Str(s[|TypePmid|..]))
      else None
    else None
  }

  /** Slot `k` after the identifiers: the value the last identifier that
      writes there wrote, or `undefined`. */
  function LastWrite(ids: seq<Identifier>, k: nat, doi: Value, url: Value): Value
    decreases |ids|
  {
    if ids == [] then Undefined
    else match WriteOf(ids[|ids| - 1], k, doi, url)
      case Some(v) => v
      case None => LastWrite(ids[..|ids| - 1], k, doi, url)
  }

  /** All six slots after the identifiers. */
  function Slots(ids: seq<Identifier>, doi: Value, url: Value): (r: seq<Value>)
    ensures |r| == 6 && forall k :: 0 <= k < 6 ==> r[k] == LastWrite(ids, k, doi, url)
  {
    seq(6, k requires 0 <= k < 6 => LastWrite(ids, k, doi, url))
  }

  /** The slots after one more identifier, the updates in the order the
      loop body makes them. */
  function Written(slots: seq<Value>, id: Identifier, doi: Value, url: Value): (r: seq<Value>)
    requires |slots| == 6 && !Unreadable(id)
    ensures |r| == 6
  {
    var (t, v) := id;
    var s0 := if !Truthy(doi) && t == Str("doi") then slots[0 := v] else slots;
    var s5 := if !Truthy(url) && t == Str("url") then s0[5 := v] else s0;
    var s1 := if t == Str("other") && StartsWith(v.s, TypeIsbn) then s5[1 := Str(v.s[9..])] else s5;
    var s2 := if t == Str("other") && StartsWith(v.s, TypeIssn) then s1[2 := Str(v.s[9..])] else s1;
    var s3 := if t == Str("other") && StartsWith(v.s, TypePmcid) then s2[3 := Str(v.s[6..])] else s2;
    if t == Str("other") && StartsWith(v.s, TypePmid) then s3[4 := Str(v.s[5..])] else s3
  }

  /** One identifier more: each slot takes what the identifier writes
      there, if anything, and keeps its value otherwise. */
  lemma WrittenLast(prefix: seq<Identifier>, id: Identifier, slots: seq<Value>, doi: Value, url: Value)
    requires |slots| == 6 && !Unreadable(id)
    requires forall k :: 0 <= k < 6 ==> slots[k] == LastWrite(prefix, k, doi, url)
    ensures forall k :: 0 <= k < 6 ==> Written(slots, id, doi, url)[k] == LastWrite(prefix + [id], k, doi, url)
  {
    var ids := prefix + [id];
    assert ids[..|ids| - 1] == prefix && ids[|ids| - 1] == id;
    WrittenSlots(slots, id, doi, url);
  }

  /** What the loop body leaves in slot `k`: what the identifier writes
      there, if anything, or the slot's old value. */
  function SlotAfter(slots: seq<Value>, id: Identifier, k: nat, doi: Value, url: Value): Value
    requires k < |slots|
  {
    match WriteOf(id, k, doi, url)
    case Some(w) => w
    case None => slots[k]
  }

  lemma WrittenSlots(slots: seq<Value>, id: Identifier, doi: Value, url: Value)
    requires |slots| == 6 && !Unreadable(id)
    ensures forall k :: 0 <= k < 6 ==> Written(slots, id, doi, url)[k] == SlotAfter(slots, id, k, doi, url)
  {
    var w := Written(slots, id, doi, url);
    assert w[0] == SlotAfter(slots, id, 0, doi, url) && w[5] == SlotAfter(slots, id, 5, doi, url) by {
      WrittenFields(slots, id, doi, url);
    }
    assert w[1] == SlotAfter(slots, id, 1, doi, url) && w[2] == SlotAfter(slots, id, 2, doi, url) by {
      WrittenNumbers(slots, id, doi, url);
    }
    assert w[3] == SlotAfter(slots, id, 3, doi, url) && w[4] == SlotAfter(slots, id, 4, doi, url) by {
      WrittenPubMed(slots, id, doi, url);
    }
  }

  lemma WrittenFields(slots: seq<Value>, id: Identifier, doi: Value, url: Value)
    requires |slots| == 6 && !Unreadable(id)
    ensures Written(slots, id, doi, url)[0] == SlotAfter(slots, id, 0, doi, url)
    ensures Written(slots, id, doi, url)[5] == SlotAfter(slots, id, 5, doi, url)
  {
  }

  lemma WrittenNumbers(slots: seq<Value>, id: Identifier, doi: Value, url: Value)
    requires |slots| == 6 && !Unreadable(id)
    ensures Written(slots, id, doi, url)[1] == SlotAfter(slots, id, 1, doi, url)
    ensures Written(slots, id, doi, url)[2] == SlotAfter(slots, id, 2, doi, url)
  {
  }

  lemma WrittenPubMed(slots: seq<Value>, id: Identifier, doi: Value, url: Value)
    requires |slots| == 6 && !Unreadable(id)
    ensures Written(slots, id, doi, url)[3] == SlotAfter(slots, id, 3, doi, url)
    ensures Written(slots, id, doi, url)[4] == SlotAfter(slots, id, 4, doi, url)
  {
  }

  /** `identifiers.toTarget(identifiers)` on an entry with fields `doi` and
      `url`: the slots, or the error of the first `other` identifier whose
      value is no string. */
  method IdentifiersToTarget(ids: seq<Identifier>, doi: Value, url: Value) returns (r: Result<seq<Value>, string>)
    ensures r.Ok? <==> forall i :: 0 <= i < |ids| ==> !Unreadable(ids[i])
    ensures r.Ok? ==> r.value == Slots(ids, doi, url)
    ensures r.Err? ==> exists i :: (0 <= i < |ids| && Unreadable(ids[i]) && r.error == StartsWithError(ids[i].1) &&
                                    forall j :: 0 <= j < i ==> !Unreadable(ids[j]))
  {
    var slots: seq<Value> := [Undefined, Undefined, Undefined, Undefined, Undefined, Undefined];
    var i := 0;
    while i < |ids|
      invariant i <= |ids|
      invariant forall j :: 0 <= j < i ==> !Unreadable(ids[j])
      invariant |slots| == 6 && forall k :: 0 <= k < 6 ==> slots[k] == LastWrite(ids[..i], k, doi, url)
    {
      var (t, v) := ids[i];
      if t == Str("other") && !v.Str? {
        return Err(StartsWithError(v));
      }
      ghost var before := slots;
      if !Truthy(doi) && t == Str("doi") {
        slots := slots[0 := v];
      }
      if !Truthy(url) && t == Str("url") {
        slots := slots[5 := v];
      }
      if t == Str("other") && StartsWith(v.s, TypeIsbn) {
        slots := slots[1 := Str(v.s[9..])];
      }
      if t == Str("other") && StartsWith(v.s, TypeIssn) {
        slots := slots[2 := Str(v.s[9..])];
      }
      if t == Str("other") && StartsWith(v.s, TypePmcid) {
        slots := slots[3 := Str(v.s[6..])];
      }
      if t == Str("other") && StartsWith(v.s, TypePmid) {
        slots := slots[4 := Str(v.s[5..])];
      }
      assert slots == Written(before, ids[i], doi, url);
      WrittenLast(ids[..i], ids[i], before, doi, url);
      assert ids[..i + 1] == ids[..i] + [ids[i]];
      i := i + 1;
    }
    assert ids[..|ids|] == ids;
    return Ok(slots);
  }

  /** `doi && { type: 'doi', value: doi }`, kept by `filter(Boolean)`
      when truthy. */
  function IdentifierIf(v: Value, t: string, prefix: string): seq<Identifier> {
    if Truthy(v) then [(Str(t), if prefix == "" then v else Str(prefix + ToJsString(v)))] else []
  }

  /** `identifiers.toSource(doi, isbn, issn, pmcid, pmid, url)`: the
      identifiers present, the DOI and URL first, with their prefixes. */
  function IdentifiersToSource(doi: Value, isbn: Value, issn: Value, pmcid: Value, pmid: Value, url: Value): (r: seq<Identifier>)
    ensures |r| <= 6
    ensures forall i :: 0 <= i < |r| ==> Truthy(r[i].1) && r[i].0 in {Str("doi"), Str("url"), Str("other")}
  {
    IdentifierIf(doi, "doi", "") + IdentifierIf(url, "url", "") +
    IdentifierIf(isbn, "other", TypeIsbn) + IdentifierIf(issn, "other", TypeIssn) +
    IdentifierIf(pmcid, "other", TypePmcid) + IdentifierIf(pmid, "other", TypePmid)
  }

  // ---------------------------------------------------------------------
  // Keywords

  /** `keywords.join(',')`. */
  function KeywordsToTarget(keywords: seq<string>): string {
    Join(keywords, ",")
  }

  /** `keywords.split(/,\s*\/g)`: pieces between commas, each comma taking
      the white space after it. */
  function KeywordsToSource(text: string): (r: seq<string>)
    ensures |r| >= 1
    ensures forall i :: 0 <= i < |r| ==> ',' !in r[i]
    ensures forall i :: 1 <= i < |r| ==> r[i] == [] || !IsSpace(r[i][0])
    decreases |text|
  {
    var i := IndexOfChar(text, ',');
    if i < 0 then [text]
    else
      var rest := text[SpaceEndFrom(text, i + 1)..];
      var tail := KeywordsToSource(rest);
      assert tail[0] == [] || !IsSpace(tail[0][0]) by {
        if tail[0] != [] && |tail| == 1 && ',' !in rest {
          assert tail[0][0] == text[SpaceEndFrom(text, i + 1)];
        }
      }
      [text[..i]] + tail
  }

  // ---------------------------------------------------------------------
  // Pages

  /** `end ? `${start}-${end}` : start`. */
  function PagesToTarget(start: Value, end: Value): (r: Value)
    ensures !Truthy(end) ==> r == start
    ensures Truthy(end) ==> r == Str(ToJsString(start) + "-" + ToJsString(end))
  {
    if Truthy(end) then Str(ToJsString(start) + "-" + ToJsString(end)) else start
  }

  /** `page.split('-')`, read as start and end: just the start when the
      second piece is empty or missing. */
  function PagesToSource(page: string): (r: seq<string>)
    ensures 1 <= |r| <= 2 && r[0] == Split(page, "-")[0]
    ensures |r| == 2 <==> |Split(page, "-")| >= 2 && Split(page, "-")[1] != ""
  {
    var parts := Split(page, "-");
    if |parts| >= 2 && parts[1] != "" then [parts[0], parts[1]] else [parts[0]]
  }

  // ---------------------------------------------------------------------
  // Year and month

  const UndefinedDateParts := "TypeError: undefined is not iterable"

  /** `{ 'date-parts': [month ? [year, month] : [year]] }`, its date parts. */
  function YearMonthToTarget(year: Value, month: Value): (r: seq<seq<Value>>)
    ensures |r| == 1 && |r[0]| >= 1 && r[0][0] == year
    ensures |r[0]| == 2 <==> Truthy(month)
  {
    [if Truthy(month) then [year, month] else [year]]
  }

  /** The first two parts of the first date: `[year, month]`. */
  function YearMonthToSource(dateParts: seq<seq<Value>>): (r: Result<(Value, Value), string>)
    ensures r.Err? <==> dateParts == []
  {
    if dateParts == [] then Err(UndefinedDateParts)
    else
      var d := dateParts[0];
      Ok((if |d| >= 1 then d[0] else Undefined, if |d| >= 2 then d[1] else Undefined))
  }

  /** `year-original` to `original-date`: `[[year]]`. */
  function OriginalYearToTarget(year: Value): (r: seq<seq<Value>>)
    ensures r == [[year]]
  {
    [[year]]
  }

  /** `original-date` to `year-original`: the first part of the first date. */
  function OriginalYearToSource(dateParts: seq<seq<Value>>): (r: Result<Value, string>)
    ensures r.Err? <==> dateParts == []
    ensures r.Ok? && dateParts[0] != [] ==> r.value == dateParts[0][0]
  {
    if dateParts == [] then Err(UndefinedDateParts)
    else if dateParts[0] == [] then Ok(Undefined)
    else Ok(dateParts[0][0])
  }

  // ---------------------------------------------------------------------
  // addId

  /** `s.replace(pattern, with)` for a string pattern: the first occurrence
      only. */
  function ReplaceFirst(s: string, pattern: string, with: string): (r: string)
    ensures IndexOf(s, pattern) < 0 ==> r == s
    ensures IndexOf(s, pattern) >= 0 ==> r == s[..IndexOf(s, pattern)] + with + s[IndexOf(s, pattern) + |pattern|..]
  {
    var i := IndexOf(s, pattern);
    if i < 0 then s else s[..i] + with + s[i + |pattern|..]
  }

  function ReplaceError(v: Value): string {
    if v.Undefined? then "TypeError: Cannot read properties of undefined (reading 'replace')"
    else if v.Null? then "TypeError: Cannot read properties of null (reading 'replace')"
    else "TypeError: entry.URL.replace is not a function"
  }

  /** The URL without its first `http://`, then without its first `https://`. */
  function UrlId(url: string): string {
    ReplaceFirst(ReplaceFirst(url, "http://", ""), "https://", "")
  }

  /** `addId(entry)`: the id is the DOI when there is one, else the URL
      without its scheme, else the entry stays as it is. */
  function AddId(entry: Props<Value>): (r: Result<Props<Value>, string>)
    ensures r.Err? <==> !Has(entry, "DOI") && Has(entry, "URL") && !Get(entry, "URL").value.Str?
    ensures r.Ok? && Has(entry, "DOI") ==> Get(r.value, "id") == Get(entry, "DOI")
    ensures r.Ok? && !Has(entry, "DOI") && Has(entry, "URL") ==> Get(r.value, "id") == Some(Str(UrlId(Get(entry, "URL").value.s)))
    ensures r.Ok? && !Has(entry, "DOI") && !Has(entry, "URL") ==> r.value == entry
    ensures r.Ok? ==> forall k :: k != "id" ==> Get(r.value, k) == Get(entry, k)
  {
    if Has(entry, "DOI") then
      var doi := Get(entry, "DOI").value;
      SetAllGet(entry, "id", doi);
      Ok(Set(entry, "id", doi))
    else if Has(entry, "URL") then
      var u := Get(entry, "URL").value;
      if u.Str? then
        SetAllGet(entry, "id", Str(UrlId(u.s)));
        Ok(Set(entry, "id", Str(UrlId(u.s))))
      else Err(ReplaceError(u))
    else Ok(entry)
  }

  /** `Set` in every key at once. */
  lemma SetAllGet(o: Props<Value>, key: string, value: Value)
    ensures Get(Set(o, key, value), key) == Some(value)
    ensures forall k :: k != key ==> Get(Set(o, key, value), k) == Get(o, k)
  {
    forall k | k != key ensures Get(Set(o, key, value), k) == Get(o, k) {
      SetGet(o, key, value, k);
    }
    SetGet(o, key, value, key);
  }

  // ---------------------------------------------------------------------
  // Versions

  /** `a < b` on strings: code unit by code unit, a proper prefix first. */
  predicate StrLess(a: string, b: string)
    decreases |a|
  {
    if a == [] then b != []
    else if b == [] then false
    else if a[0] != b[0] then a[0] < b[0]
    else StrLess(a[1..], b[1..])
  }

  /** `input['cff-version'] <= '1.1.0'`: a string compared as a string,
      arrays, plain objects and functions by their text; every other value
      is compared as a number with the `NaN` the version string gives, which
      is false. */
  predicate OldVersion(v: Value) {
    match v
    case Str(s) => !StrLess("1.1.0", s)
    case Arr(_) => !StrLess("1.1.0", ToJsString(v))
    case Obj(_) => !StrLess("1.1.0", ToJsString(v))
    case Fn(_) => !StrLess("1.1.0", ToJsString(v))
    case _ => false
  }

  // ---------------------------------------------------------------------
  // parse

  /** The main entry before `addId`: the translated document, of type
      `software` for CFF 1.1.0 and earlier, flagged as the main reference. */
  function MainEntry(input: Value, mainToTarget: Value -> Props<Value>): (r: Props<Value>)
    ensures Get(r, "_cff_mainReference") == Some(Bool(true))
    ensures OldVersion(Member(input, "cff-version")) ==> Get(r, "type") == Some(Str("software"))
    ensures !OldVersion(Member(input, "cff-version")) ==> Get(r, "type") == Get(mainToTarget(input), "type")
    ensures forall k :: k != "type" && k != "_cff_mainReference" ==> Get(r, k) == Get(mainToTarget(input), k)
  {
    var main := mainToTarget(input);
    var typed := if OldVersion(Member(input, "cff-version")) then Set(main, "type", Str("software")) else main;
    SetAllGet(main, "type", Str("software"));
    SetAllGet(typed, "_cff_mainReference", Bool(true));
    Set(typed, "_cff_mainReference", Bool(true))
  }

  /** The translated references, when `references` is an array. */
  function References(input: Value, refToTarget: Value -> Props<Value>): (r: seq<Props<Value>>)
    ensures var refs := Member(input, "references");
      (refs.Arr? ==> |r| == |refs.items| && forall i :: 0 <= i < |r| ==> r[i] == refToTarget(refs.items[i])) &&
      (!refs.Arr? ==> r == [])
  {
    var refs := Member(input, "references");
    if refs.Arr? then seq(|refs.items|, i requires 0 <= i < |refs.items| => refToTarget(refs.items[i])) else []
  }

  /** `parse(input)`: the main entry, then the preferred citation if there
      is one, then the references in order; `addId` may throw on a URL that
      is no string. */
  function Parse(input: Value, mainToTarget: Value -> Props<Value>, refToTarget: Value -> Props<Value>): Result<seq<Props<Value>>, string>
  {
    match AddId(MainEntry(input, mainToTarget))
    case Err(e) => Err(e)
    case Ok(main) =>
      var pc := Member(input, "preferred-citation");
      if Truthy(pc) then
        match AddId(refToTarget(pc))
        case Err(e) => Err(e)
        case Ok(p) => Ok([main, p] + References(input, refToTarget))
      else Ok([main] + References(input, refToTarget))
  }

  // ---------------------------------------------------------------------
  // format

  /** The options of `format`; `cffVersion` and `message` have their
      defaults filled in. */
  datatype Options = Options(main: Value, preferred: Value, cffVersion: string, message: string)

  const CffVersion := "1.2.0"
  const DefaultMessage := "Please cite the following works when using this software."

  /** The options with nothing given. */
  function DefaultOptions(): (r: Options)
    ensures r.cffVersion == CffVersion && !Truthy(r.main) && !Truthy(r.preferred)
  {
    Options(Undefined, Undefined, CffVersion, DefaultMessage)
  }

  /** `entry.id`. */
  function IdOf(entry: Props<Value>): Value {
    Get(entry, "id").GetOr(Undefined)
  }

  /** `array.findIndex(test)`. */
  function FindIndex(es: seq<Props<Value>>, test: Props<Value> -> bool): (r: int)
    ensures -1 <= r < |es|
    ensures r == -1 <==> forall i :: 0 <= i < |es| ==> !test(es[i])
    ensures r >= 0 ==> test(es[r]) && forall i :: 0 <= i < r ==> !test(es[i])
    decreases |es|
  {
    if es == [] then -1
    else if test(es[0]) then 0
    else var k := FindIndex(es[1..], test);
      assert forall i :: 1 <= i < |es| ==> es[i] == es[1..][i - 1];
      if k < 0 then -1 else k + 1
  }

  /** `preferred && entry.id === preferred`. */
  function IsPreferred(preferred: Value): Props<Value> -> bool {
    e => Truthy(preferred) && IdOf(e) == preferred
  }

  /** `main ? entry.id === main : entry._cff_mainReference`. */
  function IsMain(main: Value): Props<Value> -> bool {
    e => if Truthy(main) then IdOf(e) == main else Truthy(Get(e, "_cff_mainReference").GetOr(Undefined))
  }

  /** `array.splice(i, 1)`, what is left. */
  function Remove(es: seq<Props<Value>>, i: nat): (r: seq<Props<Value>>)
    requires i < |es|
    ensures |r| == |es| - 1
    ensures forall j :: 0 <= j < i ==> r[j] == es[j]
    ensures forall j :: i <= j < |r| ==> r[j] == es[j + 1]
    ensures multiset(r) + multiset{es[i]} == multiset(es)
  {
    assert es == es[..i] + [es[i]] + es[i + 1..];
    es[..i] + es[i + 1..]
  }

  /** Where the preferred citation is, when the version allows one. */
  function PreferredAt(input: seq<Props<Value>>, options: Options): (r: int)
    ensures -1 <= r < |input|
    ensures r >= 0 ==> !StrLess(options.cffVersion, "1.2.0") && Truthy(options.preferred) && IdOf(input[r]) == options.preferred
  {
    var i := FindIndex(input, IsPreferred(options.preferred));
    if !StrLess(options.cffVersion, "1.2.0") && i > -1 then i else -1
  }

  /** The entries once the preferred citation is taken out. */
  function AfterPreferred(input: seq<Props<Value>>, options: Options): (r: seq<Props<Value>>)
    ensures |r| == if PreferredAt(input, options) >= 0 then |input| - 1 else |input|
  {
    var p := PreferredAt(input, options);
    if p >= 0 then Remove(input, p) else input
  }

  /** Where the main entry is among those: the one found, else the first. */
  function MainAt(rest: seq<Props<Value>>, options: Options): (r: nat)
    ensures rest != [] ==> r < |rest|
    ensures r > 0 ==> r < |rest| && IsMain(options.main)(rest[r])
  {
    var i := FindIndex(rest, IsMain(options.main));
    if i > -1 then i else 0
  }

  /** The entries left for `references`. */
  function Leftover(input: seq<Props<Value>>, options: Options): (r: seq<Props<Value>>)
  {
    var rest := AfterPreferred(input, options);
    if rest != [] then Remove(rest, MainAt(rest, options)) else rest
  }

  /** The document `format` builds from its parts: version and message,
      overridden by the main reference's own keys, then the preferred
      citation and the references. */
  function Document(options: Options, mainRef: Props<Value>, preferred: Option<Props<Value>>, refs: seq<Props<Value>>): Props<Value> {
    var cff := Assign([("cff-version", Str(options.cffVersion)), ("message", Str(options.message))], mainRef);
    var cff2 := if preferred.Some? then Set(cff, "preferred-citation", Obj(preferred.value)) else cff;
    if refs != [] then Set(cff2, "references", Arr(seq(|refs|, i requires 0 <= i < |refs| => Obj(refs[i])))) else cff2
  }

  /** `entries.map(convert)`. */
  function Converted(es: seq<Props<Value>>, convert: Props<Value> -> Props<Value>): (r: seq<Props<Value>>)
    ensures |r| == |es| && forall i :: 0 <= i < |es| ==> r[i] == convert(es[i])
  {
    seq(|es|, i requires 0 <= i < |es| => convert(es[i]))
  }

  /** The CFF document `format(input, options)` returns. */
  function Formatted(input: seq<Props<Value>>, options: Options,
                     mainToSource: Props<Value> -> Props<Value>, refToSource: Props<Value> -> Props<Value>): Props<Value>
  {
    var p := PreferredAt(input, options);
    var rest := AfterPreferred(input, options);
    var mainRef := if rest != [] then mainToSource(rest[MainAt(rest, options)]) else [];
    var mainRef2 := if StrLess(options.cffVersion, "1.2.0") then Delete(mainRef, "type") else mainRef;
    var left := Leftover(input, options);
    Document(options, mainRef2, if p >= 0 then Some(refToSource(input[p])) else None, Converted(left, refToSource))
  }

  /** `format(input, options)`: on a copy of the entries, the preferred
      citation and then the main entry are spliced out, and what is left
      becomes the references. */
  method Format(input: seq<Props<Value>>, options: Options,
                mainToSource: Props<Value> -> Props<Value>, refToSource: Props<Value> -> Props<Value>)
    returns (cff: Props<Value>)
    ensures cff == Formatted(input, options, mainToSource, refToSource)
  {
    var entries := input;
    var preferredCitation: Option<Props<Value>> := None;
    var preferredIndex := FindIndex(entries, IsPreferred(options.preferred));
    if !StrLess(options.cffVersion, "1.2.0") && preferredIndex > -1 {
      preferredCitation := Some(refToSource(entries[preferredIndex]));
      entries := entries[..preferredIndex] + entries[preferredIndex + 1..];
    }
    assert entries == AfterPreferred(input, options);
    var mainIndex := FindIndex(entries, IsMain(options.main));
    mainIndex := if mainIndex > -1 then mainIndex else 0;
    var mainRef: Props<Value> := [];
    if mainIndex < |entries| {
      mainRef := mainToSource(entries[mainIndex]);
      entries := entries[..mainIndex] + entries[mainIndex + 1..];
    }
    if StrLess(options.cffVersion, "1.2.0") {
      mainRef := Delete(mainRef, "type");
    }
    assert entries == Leftover(input, options);
    ghost var p := PreferredAt(input, options);
    assert preferredCitation == if p >= 0 then Some(refToSource(input[p])) else None;
    cff := Document(options, mainRef, preferredCitation, Converted(entries, refToSource));
  }
}
