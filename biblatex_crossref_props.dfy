// Properties of biblatex's `crossref` inheritance: the taken data key by
// key, the entry's own fields winning, the bookkeeping fields never
// inherited, `bookauthor` and the prefixed titles, inheritance through the
// parent's parent and the overflow of a cycle of two.

module BiblatexCrossrefProps {
  import opened Base
  import opened JsObject
  import opened JsValue
  import opened BibtexFile
  import BibtexMapping
  import opened BiblatexCrossref

  /** None of the keys the rules read or write is a bookkeeping field. */
  lemma NamedKeysKept(reading: Reading)
    ensures "author" !in NeverInherited(reading) && "bookauthor" !in NeverInherited(reading)
    ensures "title" !in NeverInherited(reading) && "subtitle" !in NeverInherited(reading)
    ensures "titleaddon" !in NeverInherited(reading)
    ensures "bookauthor" !in TitleFields && "titleaddon" != "bookauthor"
  {
    AuthorKept(reading);
    TitleKept(reading);
    SubtitleKept(reading);
    AddonKept(reading);
  }

  lemma AuthorKept(reading: Reading)
    ensures "author" !in NeverInherited(reading)
  {
  }

  lemma TitleKept(reading: Reading)
    ensures "title" !in NeverInherited(reading)
  {
  }

  lemma SubtitleKept(reading: Reading)
    ensures "subtitle" !in NeverInherited(reading)
  {
  }

  lemma AddonKept(reading: Reading)
    ensures "titleaddon" !in NeverInherited(reading) && "bookauthor" !in NeverInherited(reading)
  {
  }

  lemma MainTitleNew(reading: Reading)
    ensures "maintitle" !in NeverInherited(reading) && "maintitle" !in TitleFields
  {
  }

  lemma MainSubtitleNew(reading: Reading)
    ensures "mainsubtitle" !in NeverInherited(reading) && "mainsubtitle" !in TitleFields
  {
  }

  lemma MainAddonNew(reading: Reading)
    ensures "maintitleaddon" !in NeverInherited(reading) && "maintitleaddon" !in TitleFields
  {
  }

  lemma BookTitleNew(reading: Reading)
    ensures "booktitle" !in NeverInherited(reading) && "booktitle" !in TitleFields
  {
  }

  lemma BookSubtitleNew(reading: Reading)
    ensures "booksubtitle" !in NeverInherited(reading) && "booksubtitle" !in TitleFields
  {
  }

  lemma BookAddonNew(reading: Reading)
    ensures "booktitleaddon" !in NeverInherited(reading) && "booktitleaddon" !in TitleFields
  {
  }

  lemma JournalTitleNew(reading: Reading)
    ensures "journaltitle" !in NeverInherited(reading) && "journaltitle" !in TitleFields
  {
  }

  lemma JournalSubtitleNew(reading: Reading)
    ensures "journalsubtitle" !in NeverInherited(reading) && "journalsubtitle" !in TitleFields
  {
  }

  lemma JournalAddonNew(reading: Reading)
    ensures "journaltitleaddon" !in NeverInherited(reading) && "journaltitleaddon" !in TitleFields
  {
  }

  /** The prefixed title keys are new keys, distinct from each other. */
  lemma PrefixedKeys(prefix: string, reading: Reading)
    requires prefix in Prefixes
    ensures prefix + "title" !in NeverInherited(reading) && prefix + "title" !in TitleFields
    ensures prefix + "subtitle" !in NeverInherited(reading) && prefix + "subtitle" !in TitleFields
    ensures prefix + "titleaddon" !in NeverInherited(reading) && prefix + "titleaddon" !in TitleFields
    ensures prefix + "title" != "bookauthor" && prefix + "subtitle" != "bookauthor" && prefix + "titleaddon" != "bookauthor"
    ensures prefix + "title" != prefix + "subtitle" && prefix + "title" != prefix + "titleaddon"
    ensures prefix + "subtitle" != prefix + "titleaddon"
  {
    if prefix == "main" {
      assert prefix + "title" == "maintitle" && prefix + "subtitle" == "mainsubtitle" && prefix + "titleaddon" == "maintitleaddon";
      MainTitleNew(reading);
      MainSubtitleNew(reading);
      MainAddonNew(reading);
    } else if prefix == "book" {
      assert prefix + "title" == "booktitle" && prefix + "subtitle" == "booksubtitle" && prefix + "titleaddon" == "booktitleaddon";
      BookTitleNew(reading);
      BookSubtitleNew(reading);
      BookAddonNew(reading);
    } else {
      assert prefix + "title" == "journaltitle" && prefix + "subtitle" == "journalsubtitle" && prefix + "titleaddon" == "journaltitleaddon";
      JournalTitleNew(reading);
      JournalSubtitleNew(reading);
      JournalAddonNew(reading);
    }
  }

  /** The copy holds every field of the parent except the bookkeeping ones. */
  lemma CopiedGet(p: Props<Value>, reading: Reading, key: string)
    requires Distinct(p)
    ensures Distinct(Copied(p, reading))
    ensures Get(Copied(p, reading), key) == if key in NeverInherited(reading) then None else Get(p, key)
  {
    AssignGet([], p, key);
    DeleteAllGet(Assign([], p), NeverInherited(reading), key);
  }

  lemma BookAuthorGet(d: Props<Value>, parentType: string, target: string, key: string)
    requires Distinct(d)
    ensures Distinct(WithBookAuthor(d, parentType, target))
    ensures Get(WithBookAuthor(d, parentType, target), key) ==
      if BookAuthorRule(parentType, target) && key == "bookauthor" then Some(ValueOf(d, "author")) else Get(d, key)
  {
    SetGet(d, "bookauthor", ValueOf(d, "author"), key);
  }

  /** Under a prefix the title, subtitle and (but for a journal) title
      addendum move to the prefixed keys, and the plain title fields go. */
  lemma TitlesGet(d: Props<Value>, prefix: string, key: string, reading: Reading)
    requires Distinct(d) && prefix in Prefixes
    ensures Distinct(WithTitles(d, prefix))
    ensures Get(WithTitles(d, prefix), key) ==
      if key in TitleFields then None
      else if key == prefix + "title" then Some(ValueOf(d, "title"))
      else if key == prefix + "subtitle" then Some(ValueOf(d, "subtitle"))
      else if prefix != "journal" && key == prefix + "titleaddon" then Some(ValueOf(d, "titleaddon"))
      else Get(d, key)
  {
    PrefixedKeys(prefix, reading);
    var p1, p2, p3 := prefix + "title", prefix + "subtitle", prefix + "titleaddon";
    var d2 := Set(d, p1, ValueOf(d, "title"));
    var d3 := Set(d2, p2, ValueOf(d2, "subtitle"));
    var d4 := if prefix != "journal" then Set(d3, p3, ValueOf(d3, "titleaddon")) else d3;
    SetGet(d, p1, ValueOf(d, "title"), "subtitle");
    SetGet(d, p1, ValueOf(d, "title"), "titleaddon");
    SetGet(d2, p2, ValueOf(d2, "subtitle"), "titleaddon");
    SetGet(d, p1, ValueOf(d, "title"), key);
    SetGet(d2, p2, ValueOf(d2, "subtitle"), key);
    SetGet(d3, p3, ValueOf(d3, "titleaddon"), key);
    DeleteAllGet(d4, TitleFields, key);
  }

  /** The data a child takes from its parent holds, key by key, what
      `Expected` says, each key once. */
  lemma AdaptedGet(parentType: string, target: string, p: Props<Value>, reading: Reading, key: string)
    requires Distinct(p)
    ensures Distinct(Adapted(parentType, target, p, reading))
    ensures Get(Adapted(parentType, target, p, reading), key) == Expected(parentType, target, p, reading, key)
  {
    NamedKeysKept(reading);
    var d0 := Copied(p, reading);
    var d1 := WithBookAuthor(d0, parentType, target);
    CopiedGet(p, reading, key);
    CopiedGet(p, reading, "author");
    BookAuthorGet(d0, parentType, target, key);
    match TitleRule(parentType, target)
    case None =>
    case Some(prefix) =>
      PrefixedKeys(prefix, reading);
      CopiedGet(p, reading, "title");
      CopiedGet(p, reading, "subtitle");
      CopiedGet(p, reading, "titleaddon");
      BookAuthorGet(d0, parentType, target, "title");
      BookAuthorGet(d0, parentType, target, "subtitle");
      BookAuthorGet(d0, parentType, target, "titleaddon");
      TitlesGet(d1, prefix, key, reading);
  }

  /** A longer chain of waiting calls can only turn a result into the stack
      overflow. */
  lemma {:induction false} StackIrrelevant(target: string, es: seq<BibEntry>, reg: Props<nat>, i: nat, big: set<nat>, small: set<nat>, reading: Reading)
    requires i < |es| && BibtexMapping.Indexes(reg, |es|) && i !in big && small <= big
    requires Inherit(target, es, reg, i, big, reading).Ok?
    ensures Inherit(target, es, reg, i, small, reading) == Inherit(target, es, reg, i, big, reading)
    decreases |BibtexMapping.Positions(|es|) - big|
  {
    match BibtexMapping.Parent(es, reg, i, reading)
    case None =>
    case Some(j) =>
      if j != i {
        BibtexMapping.Shrinks(|es|, big, i);
        StackIrrelevant(es[j].entryType, es, reg, j, big + {i}, small + {i}, reading);
      }
  }

  /** Resolved fields have distinct keys when the entries' fields do. */
  lemma {:induction false} InheritDistinct(target: string, es: seq<BibEntry>, reg: Props<nat>, i: nat, stack: set<nat>, reading: Reading)
    requires i < |es| && BibtexMapping.Indexes(reg, |es|) && i !in stack && BibtexMapping.AllDistinct(es)
    requires Inherit(target, es, reg, i, stack, reading).Ok?
    ensures Distinct(Inherit(target, es, reg, i, stack, reading).value)
    decreases |BibtexMapping.Positions(|es|) - stack|
  {
    match BibtexMapping.Parent(es, reg, i, reading)
    case None =>
    case Some(j) =>
      if j != i {
        BibtexMapping.Shrinks(|es|, stack, i);
        InheritDistinct(es[j].entryType, es, reg, j, stack + {i}, reading);
        var p := Inherit(es[j].entryType, es, reg, j, stack + {i}, reading).value;
        AdaptedGet(es[j].entryType, target, p, reading, "");
        AssignGet(Adapted(es[j].entryType, target, p, reading), es[i].properties, "");
      }
  }

  /** Without a registered parent, or as its own parent, an entry keeps
      exactly its own fields. */
  lemma {:induction false} Unchanged(target: string, es: seq<BibEntry>, reg: Props<nat>, i: nat, reading: Reading)
    requires i < |es| && BibtexMapping.Indexes(reg, |es|)
    requires BibtexMapping.Parent(es, reg, i, reading).None? || BibtexMapping.Parent(es, reg, i, reading) == Some(i)
    ensures Crossref(target, es, reg, i, reading) == Ok(es[i].properties)
  {
  }

  /** With a parent, every field the entry has is its own, and every other
      field is what the parent's data gives it, the parent resolved for its
      own type first. */
  lemma {:induction false} InheritedFields(target: string, es: seq<BibEntry>, reg: Props<nat>, i: nat, reading: Reading, key: string)
    requires i < |es| && BibtexMapping.Indexes(reg, |es|) && BibtexMapping.AllDistinct(es)
    requires Crossref(target, es, reg, i, reading).Ok?
    requires BibtexMapping.Parent(es, reg, i, reading).Some? && BibtexMapping.Parent(es, reg, i, reading) != Some(i)
    ensures var j := BibtexMapping.Parent(es, reg, i, reading).value;
      Crossref(es[j].entryType, es, reg, j, reading).Ok? &&
      Get(Crossref(target, es, reg, i, reading).value, key) ==
        if Has(es[i].properties, key) then Get(es[i].properties, key)
        else Expected(es[j].entryType, target, Crossref(es[j].entryType, es, reg, j, reading).value, reading, key)
  {
    var j := BibtexMapping.Parent(es, reg, i, reading).value;
    BibtexMapping.Shrinks(|es|, {}, i);
    StackIrrelevant(es[j].entryType, es, reg, j, {i}, {}, reading);
    var p := Inherit(es[j].entryType, es, reg, j, {i}, reading).value;
    InheritDistinct(es[j].entryType, es, reg, j, {i}, reading);
    AdaptedGet(es[j].entryType, target, p, reading, key);
    AssignGet(Adapted(es[j].entryType, target, p, reading), es[i].properties, key);
  }

  /** An entry's own bookkeeping field is all it has of that field: the
      parent's is never inherited. */
  lemma {:induction false} NeverInheritedAbsent(target: string, es: seq<BibEntry>, reg: Props<nat>, i: nat, reading: Reading, key: string)
    requires i < |es| && BibtexMapping.Indexes(reg, |es|) && BibtexMapping.AllDistinct(es)
    requires Crossref(target, es, reg, i, reading).Ok?
    requires key in NeverInherited(reading) && !Has(es[i].properties, key)
    ensures Get(Crossref(target, es, reg, i, reading).value, key) == None
  {
    var par := BibtexMapping.Parent(es, reg, i, reading);
    if par.Some? && par != Some(i) {
      InheritedFields(target, es, reg, i, reading, key);
    }
  }

  /** The book's author is taken as `bookauthor`. */
  lemma ExpectedBookAuthor(parentType: string, target: string, p: Props<Value>, reading: Reading)
    requires BookAuthorRule(parentType, target)
    ensures Expected(parentType, target, p, reading, "bookauthor") == Some(ValueOf(p, "author"))
  {
    NamedKeysKept(reading);
    var rule := TitleRule(parentType, target);
    if rule.Some? {
      PrefixedKeys(rule.value, reading);
    }
  }

  /** The parent's title is taken under the prefixed name, its plain title
      fields not at all. */
  lemma ExpectedTitle(parentType: string, target: string, p: Props<Value>, reading: Reading, prefix: string, field: string)
    requires TitleRule(parentType, target) == Some(prefix) && field in TitleFields
    ensures Expected(parentType, target, p, reading, prefix + "title") == Some(ValueOf(p, "title"))
    ensures Expected(parentType, target, p, reading, field) == None
  {
    PrefixedKeys(prefix, reading);
  }

  /** A part of a book without a `bookauthor` of its own gets the book's
      author, or `undefined` when the book has none. */
  lemma {:induction false} BookAuthorFromParent(target: string, es: seq<BibEntry>, reg: Props<nat>, i: nat, reading: Reading)
    requires i < |es| && BibtexMapping.Indexes(reg, |es|) && BibtexMapping.AllDistinct(es)
    requires Crossref(target, es, reg, i, reading).Ok?
    requires BibtexMapping.Parent(es, reg, i, reading).Some? && BibtexMapping.Parent(es, reg, i, reading) != Some(i)
    requires var j := BibtexMapping.Parent(es, reg, i, reading).value;
      BookAuthorRule(es[j].entryType, target) && !Has(es[i].properties, "bookauthor")
    ensures var j := BibtexMapping.Parent(es, reg, i, reading).value;
      Crossref(es[j].entryType, es, reg, j, reading).Ok? &&
      Get(Crossref(target, es, reg, i, reading).value, "bookauthor") ==
        Some(ValueOf(Crossref(es[j].entryType, es, reg, j, reading).value, "author"))
  {
    var j := BibtexMapping.Parent(es, reg, i, reading).value;
    InheritedFields(target, es, reg, i, reading, "bookauthor");
    ExpectedBookAuthor(es[j].entryType, target, Crossref(es[j].entryType, es, reg, j, reading).value, reading);
  }

  /** A child the parent's kind of work applies to gets the parent's title
      under the prefixed name, unless it has that field itself, and none of
      the parent's plain title fields. */
  lemma {:induction false} TitleRenamed(target: string, es: seq<BibEntry>, reg: Props<nat>, i: nat, reading: Reading, prefix: string, field: string)
    requires i < |es| && BibtexMapping.Indexes(reg, |es|) && BibtexMapping.AllDistinct(es)
    requires Crossref(target, es, reg, i, reading).Ok?
    requires BibtexMapping.Parent(es, reg, i, reading).Some? && BibtexMapping.Parent(es, reg, i, reading) != Some(i)
    requires TitleRule(es[BibtexMapping.Parent(es, reg, i, reading).value].entryType, target) == Some(prefix)
    requires field in TitleFields && !Has(es[i].properties, field) && !Has(es[i].properties, prefix + "title")
    ensures var j := BibtexMapping.Parent(es, reg, i, reading).value;
      Crossref(es[j].entryType, es, reg, j, reading).Ok? &&
      Get(Crossref(target, es, reg, i, reading).value, prefix + "title") ==
        Some(ValueOf(Crossref(es[j].entryType, es, reg, j, reading).value, "title")) &&
      Get(Crossref(target, es, reg, i, reading).value, field) == None
  {
    var j := BibtexMapping.Parent(es, reg, i, reading).value;
    InheritedFields(target, es, reg, i, reading, prefix + "title");
    InheritedFields(target, es, reg, i, reading, field);
    ExpectedTitle(es[j].entryType, target, Crossref(es[j].entryType, es, reg, j, reading).value, reading, prefix, field);
  }

  /** The keys the title rule writes. */
  const PrefixedTitleKeys: seq<string> := ["maintitle", "mainsubtitle", "maintitleaddon", "booktitle", "booksubtitle",
    "booktitleaddon", "journaltitle", "journalsubtitle", "journaltitleaddon"]

  /** A key no rule touches. */
  predicate Plain(key: string, reading: Reading) {
    key !in NeverInherited(reading) && key !in TitleFields && key != "bookauthor" && key !in PrefixedTitleKeys
  }

  /** A key no rule touches is taken from the parent as it is. */
  lemma ExpectedPlain(parentType: string, target: string, p: Props<Value>, reading: Reading, key: string)
    requires Plain(key, reading)
    ensures Expected(parentType, target, p, reading, key) == Get(p, key)
  {
    var rule := TitleRule(parentType, target);
    if rule == Some("main") {
      assert "main" + "title" == "maintitle" && "main" + "subtitle" == "mainsubtitle" && "main" + "titleaddon" == "maintitleaddon";
    } else if rule == Some("book") {
      assert "book" + "title" == "booktitle" && "book" + "subtitle" == "booksubtitle" && "book" + "titleaddon" == "booktitleaddon";
    } else if rule == Some("journal") {
      assert "journal" + "title" == "journaltitle" && "journal" + "subtitle" == "journalsubtitle";
    }
  }

  /** An entry resolves when its parent resolves with it waiting. */
  lemma {:induction false} StepOk(target: string, es: seq<BibEntry>, reg: Props<nat>, i: nat, j: nat, stack: set<nat>, reading: Reading)
    requires i < |es| && j < |es| && BibtexMapping.Indexes(reg, |es|) && i !in stack && j !in stack && i != j
    requires BibtexMapping.Parent(es, reg, i, reading) == Some(j)
    requires Inherit(es[j].entryType, es, reg, j, stack + {i}, reading).Ok?
    ensures Inherit(target, es, reg, i, stack, reading).Ok?
  {
    BibtexMapping.Shrinks(|es|, stack, i);
  }

  /** Inheritance is transitive: a field no rule touches that only the
      grandparent has reaches the entry through its parent. */
  lemma {:induction false} Grandparent(target: string, es: seq<BibEntry>, reg: Props<nat>, i: nat, j: nat, g: nat, reading: Reading, key: string)
    requires i < |es| && j < |es| && g < |es| && BibtexMapping.Indexes(reg, |es|)
    requires i != j && j != g && i != g && BibtexMapping.AllDistinct(es)
    requires BibtexMapping.Parent(es, reg, i, reading) == Some(j) && BibtexMapping.Parent(es, reg, j, reading) == Some(g)
    requires BibtexMapping.Parent(es, reg, g, reading).None?
    requires Plain(key, reading) && !Has(es[i].properties, key) && !Has(es[j].properties, key)
    ensures Crossref(target, es, reg, i, reading).Ok?
    ensures Get(Crossref(target, es, reg, i, reading).value, key) == Get(es[g].properties, key)
  {
    assert {} + {i} == {i};
    StepOk(es[j].entryType, es, reg, j, g, {i}, reading);
    StepOk(target, es, reg, i, j, {}, reading);
    InheritedFields(target, es, reg, i, reading, key);
    InheritedFields(es[j].entryType, es, reg, j, reading, key);
    ExpectedPlain(es[j].entryType, target, Crossref(es[j].entryType, es, reg, j, reading).value, reading, key);
    ExpectedPlain(es[g].entryType, es[j].entryType, Crossref(es[g].entryType, es, reg, g, reading).value, reading, key);
  }

  /** Two entries naming each other never finish resolving. */
  lemma {:induction false} TwoCycle(target: string, es: seq<BibEntry>, reg: Props<nat>, i: nat, j: nat, reading: Reading)
    requires i < |es| && j < |es| && BibtexMapping.Indexes(reg, |es|) && i != j
    requires BibtexMapping.Parent(es, reg, i, reading) == Some(j) && BibtexMapping.Parent(es, reg, j, reading) == Some(i)
    ensures Crossref(target, es, reg, i, reading) == Err(BibtexMapping.StackOverflow)
  {
    BibtexMapping.Shrinks(|es|, {}, i);
    assert Inherit(es[j].entryType, es, reg, j, {i}, reading) == Err(BibtexMapping.StackOverflow);
  }

  /** As written, `shorthand` is not among the deleted fields, so no rule
      touches it. */
  lemma ShorthandPlain()
    ensures Plain("shorthand", AsWritten)
  {
  }

  /** As written, a parent's `shorthand` reaches a child that has none. */
  lemma {:induction false} ShorthandInherited(target: string, es: seq<BibEntry>, reg: Props<nat>, i: nat)
    requires i < |es| && BibtexMapping.Indexes(reg, |es|) && BibtexMapping.AllDistinct(es)
    requires Crossref(target, es, reg, i, AsWritten).Ok?
    requires BibtexMapping.Parent(es, reg, i, AsWritten).Some?
    requires BibtexMapping.Parent(es, reg, i, AsWritten) != Some(i)
    requires !Has(es[i].properties, "shorthand")
    ensures var j := BibtexMapping.Parent(es, reg, i, AsWritten).value;
      Crossref(es[j].entryType, es, reg, j, AsWritten).Ok? &&
      Get(Crossref(target, es, reg, i, AsWritten).value, "shorthand") ==
        Get(Crossref(es[j].entryType, es, reg, j, AsWritten).value, "shorthand")
  {
    var j := BibtexMapping.Parent(es, reg, i, AsWritten).value;
    InheritedFields(target, es, reg, i, AsWritten, "shorthand");
    ShorthandPlain();
    ExpectedPlain(es[j].entryType, target, Crossref(es[j].entryType, es, reg, j, AsWritten).value, AsWritten, "shorthand");
  }

  /** As intended, `shorthand` is one of the fields never inherited. */
  lemma ShorthandNeverInherited()
    ensures "shorthand" in NeverInherited(Intended) && "shorthandintro" in NeverInherited(Intended)
  {
  }

  /** Intended: an entry without `shorthand` gets none from its parent. */
  lemma ShorthandNotInherited(target: string, es: seq<BibEntry>, reg: Props<nat>, i: nat)
    requires i < |es| && BibtexMapping.Indexes(reg, |es|) && BibtexMapping.AllDistinct(es)
    requires Crossref(target, es, reg, i, Intended).Ok? && !Has(es[i].properties, "shorthand")
    ensures Get(Crossref(target, es, reg, i, Intended).value, "shorthand") == None
  {
    ShorthandNeverInherited();
    NeverInheritedAbsent(target, es, reg, i, Intended, "shorthand");
  }
}
