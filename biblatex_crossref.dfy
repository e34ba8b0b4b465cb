// biblatex's `crossref` inheritance: an entry inherits the fields of the
// entry its `crossref` field names, except the bookkeeping fields, with the
// parent's author copied to `bookauthor` for parts of a book and the parent's
// title fields renamed after the kind of work the parent is.

module BiblatexCrossref {
  import opened Base
  import opened JsObject
  import opened JsValue
  import opened BibtexFile
  import opened BibtexMapping

  const Book: set<string> := {"book", "inbook", "bookinbook", "suppbook"}
  const BookPart: set<string> := {"inbook", "bookinbook", "suppbook"}
  const Collection: set<string> := {"collection", "reference", "incollection", "inreference", "suppcollection"}
  const CollectionPart: set<string> := {"incollection", "inreference", "suppcollection"}
  const Proceedings: set<string> := {"proceedings", "inproceedings"}
  const ProceedingsPart: set<string> := {"inproceedings"}
  const PeriodicalPart: set<string> := {"article", "suppperiodical"}

  /** The prefixes `TITLE_MAP` gives the parent's title fields. */
  const Prefixes: set<string> := {"main", "book", "journal"}

  /** `TITLE_MAP[parentType]`: the prefix and the child types it applies to. */
  function TitleMap(parentType: string): (r: Option<(string, set<string>)>)
    ensures r.Some? ==> r.value.0 in Prefixes
  {
    if parentType == "mvbook" then Some(("main", Book))
    else if parentType == "mvcollection" || parentType == "mvreference" then Some(("main", Collection))
    else if parentType == "mvproceedings" then Some(("main", Proceedings))
    else if parentType == "book" then Some(("book", BookPart))
    else if parentType == "collection" || parentType == "reference" then Some(("book", CollectionPart))
    else if parentType == "proceedings" then Some(("book", ProceedingsPart))
    else if parentType == "periodical" then Some(("journal", PeriodicalPart))
    else None
  }

  /** The prefix under which a child of type `target` receives the title
      fields of a parent of type `parentType`, when it does. */
  function TitleRule(parentType: string, target: string): (r: Option<string>)
    ensures r.Some? <==> TitleMap(parentType).Some? && target in TitleMap(parentType).value.1
    ensures r.Some? ==> r.value == TitleMap(parentType).value.0 && r.value in Prefixes
  {
    match TitleMap(parentType)
    case None => None
    case Some((prefix, targets)) => if target in targets then Some(prefix) else None
  }

  /** A part of a book receives the book's author as `bookauthor`. */
  predicate BookAuthorRule(parentType: string, target: string) {
    (parentType == "mvbook" || parentType == "book") && target in BookPart
  }

  /** The fields deleted from the parent's data. As written the list says
      `shortand` and `shortandintro`; biblatex's own list of fields that are
      never inherited says `shorthand` and `shorthandintro`. */
  function NeverInherited(reading: Reading): (r: seq<string>)
    ensures |r| == 16
  {
    ["ids", "crossref", "xref", "entryset", "entrysubtype", "execute", "label", "options", "presort",
     "related", "relatedoptions", "relatedstring", "relatedtype"] +
    (if reading == AsWritten then ["shortand", "shortandintro"] else ["shorthand", "shorthandintro"]) +
    ["sortkey"]
  }

  /** The title fields a renamed title replaces. */
  const TitleFields: seq<string> := ["title", "subtitle", "titleaddon", "shorttitle", "sorttitle", "indextitle", "indexsorttitle"]

  /** `data.key`: the value, or `undefined` for a missing key. */
  function ValueOf(o: Props<Value>, key: string): (r: Value)
    ensures Has(o, key) ==> r == Get(o, key).value
    ensures !Has(o, key) ==> r == Undefined
  {
    Get(o, key).GetOr(Undefined)
  }

  /** `_objectSpread({}, parentData)` with the bookkeeping fields deleted. */
  function Copied(p: Props<Value>, reading: Reading): Props<Value> {
    DeleteAll(Assign([], p), NeverInherited(reading))
  }

  /** `data.bookauthor = data.author` when the rule applies. */
  function WithBookAuthor(d: Props<Value>, parentType: string, target: string): Props<Value> {
    if BookAuthorRule(parentType, target) then Set(d, "bookauthor", ValueOf(d, "author")) else d
  }

  /** The title fields moved under `prefix`, and the plain ones deleted. */
  function WithTitles(d: Props<Value>, prefix: string): Props<Value> {
    var d2 := Set(d, prefix + "title", ValueOf(d, "title"));
    var d3 := Set(d2, prefix + "subtitle", ValueOf(d2, "subtitle"));
    var d4 := if prefix != "journal" then Set(d3, prefix + "titleaddon", ValueOf(d3, "titleaddon")) else d3;
    DeleteAll(d4, TitleFields)
  }

  /** The data a child of type `target` takes from a parent of type
      `parentType` whose resolved fields are `p`. */
  function Adapted(parentType: string, target: string, p: Props<Value>, reading: Reading): Props<Value> {
    var d := WithBookAuthor(Copied(p, reading), parentType, target);
    match TitleRule(parentType, target)
    case None => d
    case Some(prefix) => WithTitles(d, prefix)
  }

  /** The value a key has in the taken data, stated key by key: nothing for
      a bookkeeping field or a replaced title field, the parent's title,
      subtitle and title addendum under the prefixed names, the parent's
      author as `bookauthor`, and otherwise the parent's own value. */
  function Expected(parentType: string, target: string, p: Props<Value>, reading: Reading, key: string): Option<Value> {
    var rule := TitleRule(parentType, target);
    if key in NeverInherited(reading) then None
    else if rule.Some? && key in TitleFields then None
    else if rule.Some? && key == rule.value + "title" then Some(ValueOf(p, "title"))
    else if rule.Some? && key == rule.value + "subtitle" then Some(ValueOf(p, "subtitle"))
    else if rule.Some? && rule.value != "journal" && key == rule.value + "titleaddon" then Some(ValueOf(p, "titleaddon"))
    else if BookAuthorRule(parentType, target) && key == "bookauthor" then Some(ValueOf(p, "author"))
    else Get(p, key)
  }

  /** Lines 86-122 of `crossref`: the parent's data copied, then its keys
      deleted and assigned one statement at a time. */
  method AdaptParent(parentType: string, target: string, p: Props<Value>, reading: Reading) returns (data: Props<Value>)
    ensures data == Adapted(parentType, target, p, reading)
  {
    data := Assign([], p);
    data := DeleteAll(data, NeverInherited(reading));
    if (parentType == "mvbook" || parentType == "book") && target in BookPart {
      data := Set(data, "bookauthor", ValueOf(data, "author"));
    }
    var entry := TitleMap(parentType);
    if entry.Some? {
      var (prefix, targets) := entry.value;
      if target in targets {
        data := Set(data, prefix + "title", ValueOf(data, "title"));
        data := Set(data, prefix + "subtitle", ValueOf(data, "subtitle"));
        if prefix != "journal" {
          data := Set(data, prefix + "titleaddon", ValueOf(data, "titleaddon"));
        }
        data := DeleteAll(data, TitleFields);
      }
    }
  }

  /** `crossref(target, entry, registry)` for entry `i` while the calls for
      the entries in `stack` wait on it: the entry itself without a
      registered parent or as its own parent, else the data taken from the
      parent, resolved for the parent's own type first, overwritten by the
      entry's own fields. */
  function Inherit(target: string, es: seq<BibEntry>, reg: Props<nat>, i: nat, stack: set<nat>, reading: Reading): (r: Result<Props<Value>, string>)
    requires i < |es| && Indexes(reg, |es|) && i !in stack
    ensures r.Err? ==> r.error == StackOverflow
    decreases |Positions(|es|) - stack|
  {
    match Parent(es, reg, i, reading)
    case None => Ok(es[i].properties)
    case Some(j) =>
      if j == i then Ok(es[i].properties)
      else if j in stack then Err(StackOverflow)
      else
        Shrinks(|es|, stack, i);
        match Inherit(es[j].entryType, es, reg, j, stack + {i}, reading)
        case Err(e) => Err(e)
        case Ok(p) => Ok(Assign(Adapted(es[j].entryType, target, p, reading), es[i].properties))
  }

  /** The fields of entry `i`, read as an entry of type `target`, with what
      it inherits. */
  function Crossref(target: string, es: seq<BibEntry>, reg: Props<nat>, i: nat, reading: Reading): Result<Props<Value>, string>
    requires i < |es| && Indexes(reg, |es|)
  {
    Inherit(target, es, reg, i, {}, reading)
  }
}
