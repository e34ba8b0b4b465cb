// The CSL-JSON cleaner: every field of every entry is checked against the
// kind of value the field takes (a list of names, a date, the item type, or
// values of some JavaScript types), repaired where a best guess can be made,
// and dropped when it cannot be used.

module Csl {
  import opened Base
  import opened JsObject
  import opened JsValue

  // ---------------------------------------------------------------------
  // The tables

  /** The item types `entryTypes` marks as CSL types, from `article` to `legislation`. */
  const TypesAToL: set<string> := {
    "article", "article-journal", "article-magazine", "article-newspaper", "bill", "book",
    "broadcast", "chapter", "classic", "collection", "dataset", "document", "entry",
    "entry-dictionary", "entry-encyclopedia", "event", "figure", "graphic", "hearing", "interview",
    "legal_case", "legislation"
  }

  /** The item types `entryTypes` marks as CSL types, from `manuscript` to `webpage`. */
  const TypesMToW: set<string> := {
    "manuscript", "map", "motion_picture", "musical_score", "pamphlet", "paper-conference",
    "patent", "performance", "periodical", "personal_communication", "post", "post-weblog",
    "regulation", "report", "review", "review-book", "software", "song", "speech", "standard",
    "thesis", "treaty", "webpage"
  }

  /** The item types `entryTypes` marks as CSL types. */
  const CanonicalTypes: set<string> := TypesAToL + TypesMToW

  /** The other spellings `entryTypes` maps to a CSL type. */
  const TypeAliases: map<string, string> := map[
    "journal-article" := "article-journal", "book-chapter" := "chapter",
    "posted-content" := "manuscript", "proceedings-article" := "paper-conference",
    "dissertation" := "thesis"
  ]

  /** What a field of `fieldTypes` holds: a name, a list of names, a date,
      the item type, or a value of one of the JavaScript types listed. */
  datatype FieldType = Name | NameList | Date | TypeField | Types(ts: seq<string>)

  /** The fields that take lists of names. */
  const NameListFields: set<string> := {
    "author", "chair", "collection-editor", "compiler", "composer", "container-author",
    "contributor", "curator", "director", "editor", "editorial-director", "executive-producer",
    "guest", "host", "interviewer", "illustrator", "narrator", "organizer", "original-author",
    "performer", "producer", "reviewed-author", "recipient", "script-writer", "series-creator",
    "translator"
  }

  /** The fields that take dates. */
  const DateFields: set<string> := {
    "accessed", "available-date", "container", "event-date", "issued", "original-date",
    "submitted"
  }

  /** The fields that take objects. */
  const ObjectFields: set<string> := {"categories", "custom"}

  /** The fields that take strings or numbers. */
  const StringOrNumberFields: set<string> := {
    "id", "edition", "issue", "number", "number-of-volumes", "part-number", "supplement", "volume"
  }

  /** The fields that take strings only, by first letter in any case: `a` to `d`. */
  const StringFieldsAToD: set<string> := {
    "abstract", "annote", "archive", "archive-place", "archive_collection", "archive_location",
    "authority", "call-number", "chapter-number", "citation-key", "citation-label",
    "citation-number", "collection-number", "collection-title", "container-title",
    "container-title-short", "dimensions", "division", "DOI"
  }

  /** `e` to `o`. */
  const StringFieldsEToO: set<string> := {
    "event", "event-place", "event-title", "first-reference-note-number", "genre", "ISBN", "ISSN",
    "journalAbbreviation", "jurisdiction", "keyword", "language", "locator", "medium", "note",
    "number-of-pages", "original-publisher", "original-publisher-place", "original-title"
  }

  /** `p` to `y`. */
  const StringFieldsPToY: set<string> := {
    "page", "page-first", "part-title", "PMCID", "PMID", "printing", "publisher",
    "publisher-place", "references", "reviewed-genre", "reviewed-title", "scale", "section",
    "shortTitle", "source", "status", "title", "title-short", "URL", "version", "volume-title",
    "volume-title-short", "year-suffix"
  }

  /** The fields that take strings only. */
  const StringFields: set<string> := StringFieldsAToD + StringFieldsEToO + StringFieldsPToY

  /** `fieldTypes[field]`, the table grouped by kind; no field is listed
      twice, so the groups are read in any order. */
  function FieldTypeOf(field: string): Option<FieldType> {
    if field in NameListFields then Some(NameList)
    else if field in DateFields then Some(Date)
    else if field == "type" then Some(TypeField)
    else if field in ObjectFields then Some(Types(["object"]))
    else if field in StringOrNumberFields then Some(Types(["string", "number"]))
    else if field in StringFields then Some(Types(["string"]))
    else None
  }

  /** The types `language` takes, which `correctType` cleans a type with. */
  const LanguageTypes: seq<string> := ["string"]

  // ---------------------------------------------------------------------
  // Values of the listed JavaScript types

  /**
   * `correctField` for a field whose entry in `fieldTypes` lists the
   * JavaScript types `types` (an unknown field lists none). Under best
   * guess a numeric string becomes a number where only numbers are taken,
   * a number becomes its text where only strings are, and a non-empty
   * array stands for its first element; then the value is kept when its
   * type is listed. Read as intended, an array is kept as it is where
   * objects are taken.
   */
  function CorrectPlain(types: seq<string>, v: Value, bg: bool, reading: Reading): (r: Value)
    ensures r == Undefined || TypeOf(r) in types
    ensures !bg ==> r == (if TypeOf(v) in types then v else Undefined)
    decreases v
  {
    if bg && v.Str? && "number" in types && "string" !in types && ToNumber(v.s).Some? then Num(ToNumber(v.s).value)
    else if bg && v.Num? && "string" in types && "number" !in types then Str(IntToString(v.n))
    else if bg && v.Arr? && |v.items| > 0 && (reading.AsWritten? || "object" !in types) then
      CorrectPlain(types, v.items[0], bg, reading)
    else if TypeOf(v) in types then v
    else Undefined
  }

  // ---------------------------------------------------------------------
  // Names

  /** An object that names someone: a truthy `literal`, `given` or `family`. */
  predicate IsNameObject(v: Value) {
    (v.Obj? || v.Arr? || v.Other?) &&
    (Truthy(Member(v, "literal")) || Truthy(Member(v, "given")) || Truthy(Member(v, "family")))
  }

  /** `name.ORCID || name.orcid || name._ORCID`. */
  function OrcidOf(v: Value): Value {
    var a := Member(v, "ORCID");
    var b := Member(v, "orcid");
    if Truthy(a) then a else if Truthy(b) then b else Member(v, "_ORCID")
  }

  /** The spellings of the ORCID key that `correctName` replaces. */
  const OrcidKeys: seq<string> := ["ORCID", "orcid", "_ORCID"]

  /** `{ _orcid: orcid, ...name }` without the three ORCID keys. */
  function WithOrcid(v: Value, orcid: Value): Props<Value> {
    DeleteAll(Assign([("_orcid", orcid)], ForIn(v)), OrcidKeys)
  }

  /**
   * `correctName(name, bestGuessConversions)`: a name object is kept, its
   * ORCID moved to `_orcid`; under best guess a string is handed to the
   * name parser; anything else is `undefined`.
   */
  function CorrectedName(v: Value, bg: bool, parseName: string -> Value): (r: Value)
    ensures IsNameObject(v) && !Truthy(OrcidOf(v)) ==> r == v
    ensures IsNameObject(v) && Truthy(OrcidOf(v)) ==> r.Obj? && r.props == WithOrcid(v, OrcidOf(v))
    ensures !IsNameObject(v) && !(bg && v.Str?) ==> r == Undefined
  {
    if IsNameObject(v) then
      (if Truthy(OrcidOf(v)) then Obj(WithOrcid(v, OrcidOf(v))) else v)
    else if !bg then Undefined
    else if v.Str? then parseName(v.s)
    else Undefined
  }

  /** `correctName` as it runs: the name is copied with `_orcid` in front
      and the three other spellings are deleted from the copy one by one. */
  method CorrectName(name: Value, bg: bool, parseName: string -> Value) returns (r: Value)
    ensures r == CorrectedName(name, bg, parseName)
  {
    if (name.Obj? || name.Arr? || name.Other?) &&
       (Truthy(Member(name, "literal")) || Truthy(Member(name, "given")) || Truthy(Member(name, "family"))) {
      var orcid := Member(name, "ORCID");
      if !Truthy(orcid) {
        orcid := Member(name, "orcid");
      }
      if !Truthy(orcid) {
        orcid := Member(name, "_ORCID");
      }
      if Truthy(orcid) {
        var copy := Assign([("_orcid", orcid)], ForIn(name));
        copy := Delete(copy, "ORCID");
        copy := Delete(copy, "orcid");
        copy := Delete(copy, "_ORCID");
        return Obj(copy);
      }
      return name;
    } else if !bg {
      return Undefined;
    } else if name.Str? {
      return parseName(name.s);
    }
    return Undefined;
  }

  /** The corrected names, the falsy ones left out, in order. */
  function CorrectedNames(names: seq<Value>, bg: bool, parseName: string -> Value): (r: seq<Value>)
    ensures |r| <= |names|
    ensures forall i :: 0 <= i < |r| ==> Truthy(r[i])
  {
    TruthyOf(names, Namer(bg, parseName))
  }

  /** `correctName` as a function value, for the `map` over a name list. */
  function Namer(bg: bool, parseName: string -> Value): Value -> Value {
    v => CorrectedName(v, bg, parseName)
  }

  /** `values.map(f).filter(Boolean)`: the truthy images, in order. */
  function TruthyOf(values: seq<Value>, f: Value -> Value): (r: seq<Value>)
    ensures |r| <= |values|
    ensures forall i :: 0 <= i < |r| ==> Truthy(r[i])
  {
    if values == [] then []
    else
      var n := |values| - 1;
      var c := f(values[n]);
      TruthyOf(values[..n], f) + (if Truthy(c) then [c] else [])
  }

  /** `correctNameList(nameList, bestGuessConversions)`: the usable names of
      an array, or `undefined` when none is left or it is no array. */
  function CorrectedNameList(v: Value, bg: bool, parseName: string -> Value): (r: Value)
    ensures r == Undefined || (r.Arr? && |r.items| > 0 && forall i :: 0 <= i < |r.items| ==> Truthy(r.items[i]))
    ensures !v.Arr? ==> r == Undefined
  {
    if v.Arr? && CorrectedNames(v.items, bg, parseName) != [] then Arr(CorrectedNames(v.items, bg, parseName))
    else Undefined
  }

  // ---------------------------------------------------------------------
  // Dates

  /** A date part list every element of which is a number. */
  predicate AllNumbers(parts: seq<Value>) {
    forall i :: 0 <= i < |parts| ==> parts[i].Num?
  }

  /** `parseInt(part)` for each part, which must all be numbers. */
  function ParsedParts(parts: seq<Value>): (r: seq<Value>)
    requires forall i :: 0 <= i < |parts| ==> ParseInt(ToJsString(parts[i])).Some?
    ensures |r| == |parts| && AllNumbers(r)
  {
    seq(|parts|, i requires 0 <= i < |parts| => Num(ParseInt(ToJsString(parts[i])).value))
  }

  /**
   * `correctDateParts(dateParts, bestGuessConversions)`: numeric parts are
   * kept; under best guess parts that `parseInt` reads are replaced by the
   * numbers it reads; otherwise `undefined`.
   */
  function CorrectDateParts(parts: seq<Value>, bg: bool): (r: Value)
    ensures r == Undefined || (r.Arr? && |r.items| == |parts| && AllNumbers(r.items))
    ensures AllNumbers(parts) ==> r == Arr(parts)
    ensures r.Arr? <==> AllNumbers(parts) || (bg && forall i :: 0 <= i < |parts| ==> ParseInt(ToJsString(parts[i])).Some?)
  {
    if AllNumbers(parts) then Arr(parts)
    else if !bg || exists i :: 0 <= i < |parts| && ParseInt(ToJsString(parts[i])).None? then Undefined
    else Arr(ParsedParts(parts))
  }

  /** Every element is an array. */
  predicate AllArrays(vs: seq<Value>) {
    forall i :: 0 <= i < |vs| ==> vs[i].Arr?
  }

  /** A run of date part lists, each a non-empty list of numbers. */
  predicate NumericRanges(ranges: seq<Value>) {
    forall i :: 0 <= i < |ranges| ==> ranges[i].Arr? && AllNumbers(ranges[i].items)
  }

  /** `ranges.map(correctDateParts).filter(Boolean)`. */
  function KeptRanges(ranges: seq<Value>, bg: bool): (r: seq<Value>)
    requires AllArrays(ranges)
    ensures |r| <= |ranges| && NumericRanges(r)
  {
    if ranges == [] then []
    else
      var n := |ranges| - 1;
      var c := CorrectDateParts(ranges[n].items, bg);
      KeptRanges(ranges[..n], bg) + (if c.Arr? then [c] else [])
  }

  const DatePartsKey: string := "date-parts"

  /**
   * `date.every((part) => part[dp] instanceof Array)`, which throws at the
   * first element that is `null` or `undefined`, unless an earlier element
   * has already made it false.
   */
  function EveryHasDateParts(items: seq<Value>): (r: Result<bool, string>)
    ensures r == Ok(true) <==> forall i :: 0 <= i < |items| ==> Member(items[i], DatePartsKey).Arr?
    ensures r.Err? ==> exists i :: 0 <= i < |items| && (items[i].Null? || items[i].Undefined?)
  {
    if items == [] then Ok(true)
    else if items[0].Null? || items[0].Undefined? then
      NoMembers(items[0], DatePartsKey);
      Err(if items[0].Null? then "TypeError: Cannot read properties of null (reading 'date-parts')"
          else "TypeError: Cannot read properties of undefined (reading 'date-parts')")
    else if !Member(items[0], DatePartsKey).Arr? then Ok(false)
    else
      var r := EveryHasDateParts(items[1..]);
      EveryStep(items, r);
      r
  }

  /** `null` and `undefined` have no members. */
  lemma NoMembers(v: Value, key: string)
    requires v.Null? || v.Undefined?
    ensures Member(v, key) == Undefined
  {
    assert ForIn(v) == [];
  }

  /** The answer for the elements after a first one that has a `date-parts`
      array is the answer for all of them. */
  lemma EveryStep(items: seq<Value>, r: Result<bool, string>)
    requires items != [] && Member(items[0], DatePartsKey).Arr?
    requires r == Ok(true) <==> forall i :: 0 <= i < |items[1..]| ==> Member(items[1..][i], DatePartsKey).Arr?
    requires r.Err? ==> exists i :: 0 <= i < |items[1..]| && (items[1..][i].Null? || items[1..][i].Undefined?)
    ensures r == Ok(true) <==> forall i :: 0 <= i < |items| ==> Member(items[i], DatePartsKey).Arr?
    ensures r.Err? ==> exists i :: 0 <= i < |items| && (items[i].Null? || items[i].Undefined?)
  {
    var rest := items[1..];
    assert forall i :: 1 <= i < |items| ==> items[i] == rest[i - 1];
    if r.Err? {
      var j :| 0 <= j < |rest| && (rest[j].Null? || rest[j].Undefined?);
      assert items[j + 1] == rest[j];
    }
  }

  /** The `date-parts` list of each element, all arrays. */
  function DatePartsOfEach(items: seq<Value>): (r: seq<Value>)
    requires forall i :: 0 <= i < |items| ==> Member(items[i], DatePartsKey).Arr?
    ensures |r| == |items| && AllArrays(r)
  {
    seq(|items|, i requires 0 <= i < |items| => Member(items[i], DatePartsKey))
  }

  /** An object that is not an array or `null`: `typeof date === 'object'`. */
  predicate IsObject(v: Value) {
    TypeOf(v) == "object" && !v.Null?
  }

  /**
   * `correctDate(date, bestGuessConversions)`: a date object with a list of
   * ranges keeps its other fields and the usable ranges; an array of date
   * objects becomes one date with their usable ranges; a single range is
   * corrected and wrapped; a literal or raw date is kept; everything else
   * is `undefined`.
   */
  function CorrectDate(v: Value, bg: bool): (r: Result<Value, string>)
    ensures !IsObject(v) ==> r == Ok(Undefined)
    ensures r.Err? ==> v.Arr?
  {
    var dp := Member(v, DatePartsKey);
    if !IsObject(v) then Ok(Undefined)
    else if dp.Arr? && AllArrays(dp.items) then
      var range := KeptRanges(dp.items, bg);
      Ok(if range != [] then Obj(Set(Assign([], ForIn(v)), DatePartsKey, Arr(range))) else Undefined)
    else if v.Arr? && EveryHasDateParts(v.items).Err? then Err(EveryHasDateParts(v.items).error)
    else if v.Arr? && EveryHasDateParts(v.items) == Ok(true) then
      var range := KeptRanges(DatePartsOfEach(v.items), bg);
      Ok(if range != [] then Obj([(DatePartsKey, Arr(range))]) else Undefined)
    else if dp.Arr? then
      var parts := CorrectDateParts(dp.items, bg);
      Ok(if parts.Arr? then Obj([(DatePartsKey, Arr([parts]))]) else Undefined)
    else if Has(ForIn(v), "literal") || Has(ForIn(v), "raw") then Ok(v)
    else Ok(Undefined)
  }

  // ---------------------------------------------------------------------
  // The item type

  /** A lower-cased text is its own lower case. */
  lemma ToLowerTwice(s: string)
    ensures ToLower(ToLower(s)) == ToLower(s)
  {
    forall i | 0 <= i < |s| ensures LowerChar(LowerChar(s[i])) == LowerChar(s[i]) {
      if 'A' <= s[i] <= 'Z' {
        assert 'a' <= LowerChar(s[i]) <= 'z';
      }
    }
  }

  /** How many lower-casing retries `correctType` has left for `v`. */
  function Retries(v: Value, bg: bool, reading: Reading): nat {
    var t := CorrectPlain(LanguageTypes, v, bg, reading);
    if t.Str? && ToLower(t.s) != t.s then 1 else 0
  }

  /**
   * `correctType(type, bestGuessConversions)`: the type is cleaned as a
   * `language` string; a CSL type is kept; under best guess an alias is
   * replaced by its type and a type with capitals is tried again in lower
   * case; anything else is `undefined`. As written, best guess throws on a
   * type that is not a string, when it calls `toLowerCase` on `undefined`;
   * read as intended such a type is `undefined`.
   */
  function CorrectType(v: Value, bg: bool, reading: Reading): (r: Result<Value, string>)
    decreases Retries(v, bg, reading)
  {
    var t := CorrectPlain(LanguageTypes, v, bg, reading);
    if t.Str? && t.s in CanonicalTypes then Ok(t)
    else if !bg then Ok(Undefined)
    else if t.Str? && t.s in TypeAliases then Ok(Str(TypeAliases[t.s]))
    else if !t.Str? then
      (if reading.AsWritten? then Err("TypeError: Cannot read properties of undefined (reading 'toLowerCase')") else Ok(Undefined))
    else if ToLower(t.s) != t.s then
      ToLowerTwice(t.s);
      CorrectType(Str(ToLower(t.s)), bg, reading)
    else Ok(Undefined)
  }

  // ---------------------------------------------------------------------
  // Fields and entries

  /** `correctField(fieldName, value, bestGuessConversions)`. */
  function CorrectField(field: string, v: Value, bg: bool, reading: Reading, parseName: string -> Value): Result<Value, string> {
    match FieldTypeOf(field)
    case Some(Name) => Ok(CorrectedName(v, bg, parseName))
    case Some(NameList) => Ok(CorrectedNameList(v, bg, parseName))
    case Some(Date) => CorrectDate(v, bg)
    case Some(TypeField) => CorrectType(v, bg, reading)
    case Some(Types(ts)) => Ok(CorrectPlain(ts, v, bg, reading))
    case None => Ok(CorrectPlain([], v, bg, reading))
  }

  /** The field loop of one entry over `fields`, from the fields `clean`
      kept so far: a correction that is not `undefined` is stored. */
  function CleanFrom(fields: Props<Value>, clean: Props<Value>, bg: bool, reading: Reading, parseName: string -> Value): Result<Props<Value>, string> {
    KeepCorrections(fields, clean, Corrector(bg, reading, parseName))
  }

  /** `correctField` under fixed options. */
  function Corrector(bg: bool, reading: Reading, parseName: string -> Value): (string, Value) -> Result<Value, string> {
    (field, v) => CorrectField(field, v, bg, reading, parseName)
  }

  /** Each field corrected in turn by `correct`: a correction that is not
      `undefined` is stored, and the first one that throws ends the loop. */
  function KeepCorrections(fields: Props<Value>, clean: Props<Value>, correct: (string, Value) -> Result<Value, string>): Result<Props<Value>, string>
    decreases |fields|
  {
    if fields == [] then Ok(clean)
    else
      match correct(fields[0].0, fields[0].1)
      case Err(e) => Err(e)
      case Ok(c) => KeepCorrections(fields[1..], if c != Undefined then Set(clean, fields[0].0, c) else clean, correct)
  }

  /** One entry of `parseCsl`: the object its usable fields make up. */
  function CleanEntry(entry: Value, bg: bool, reading: Reading, parseName: string -> Value): Result<Value, string> {
    match CleanFrom(ForIn(entry), [], bg, reading, parseName)
    case Err(e) => Err(e)
    case Ok(clean) => Ok(Obj(clean))
  }

  /** `parseCsl(data, bestGuessConversions)`: each entry cleaned, in
      order; the first entry that throws ends the run. */
  function Cleaned(data: seq<Value>, bg: bool, reading: Reading, parseName: string -> Value): Result<seq<Value>, string> {
    RunEach(data, Cleaner(bg, reading, parseName))
  }

  /** `CleanEntry` under fixed options. */
  function Cleaner(bg: bool, reading: Reading, parseName: string -> Value): Value -> Result<Value, string> {
    entry => CleanEntry(entry, bg, reading, parseName)
  }

  /** An entry that throws ends the run with its error or an earlier one. */
  lemma CleanedErr(data: seq<Value>, more: seq<Value>, bg: bool, reading: Reading, parseName: string -> Value)
    requires Cleaned(data, bg, reading, parseName).Err?
    ensures Cleaned(data + more, bg, reading, parseName) == Cleaned(data, bg, reading, parseName)
  {
    RunEachErr(data, more, Cleaner(bg, reading, parseName));
  }

  /** The field loop of `parseCsl` for one entry. */
  method CleanFields(entry: Value, bg: bool, reading: Reading, parseName: string -> Value) returns (r: Result<Value, string>)
    ensures r == CleanEntry(entry, bg, reading, parseName)
  {
    var fields := ForIn(entry);
    var clean: Props<Value> := [];
    for j := 0 to |fields|
      invariant CleanFrom(fields[j..], clean, bg, reading, parseName) == CleanFrom(fields, [], bg, reading, parseName)
    {
      assert fields[j..][1..] == fields[j + 1..];
      var correction := CorrectField(fields[j].0, fields[j].1, bg, reading, parseName);
      if correction.Err? {
        return Err(correction.error);
      }
      if correction.value != Undefined {
        clean := Set(clean, fields[j].0, correction.value);
      }
    }
    return Ok(Obj(clean));
  }

  /** `parseCsl` as it runs: every entry, every field, storing each
      correction that is defined. */
  method ParseCsl(data: seq<Value>, bg: bool, reading: Reading, parseName: string -> Value) returns (r: Result<seq<Value>, string>)
    ensures r == Cleaned(data, bg, reading, parseName)
  {
    var entries: seq<Value> := [];
    for i := 0 to |data|
      invariant Cleaned(data[..i], bg, reading, parseName) == Ok(entries)
    {
      var cleaned := CleanFields(data[i], bg, reading, parseName);
      RunEachPrefixStep(data, i, Cleaner(bg, reading, parseName), entries);
      if cleaned.Err? {
        return Err(cleaned.error);
      }
      entries := entries + [cleaned.value];
    }
    RunEachWhole(data, Cleaner(bg, reading, parseName));
    r := Ok(entries);
  }
}
