// What the CSL-JSON cleaner promises: corrected values have the types their
// fields take, already clean values are left alone, dates and types come
// out in their canonical shapes, and a cleaned entry holds exactly the
// usable fields of the input.

module CslProps {
  import opened Base
  import opened JsObject
  import opened JsValue
  import opened Csl

  // ---------------------------------------------------------------------
  // The tables

  lemma JournalArticleAlias()
    ensures "journal-article" in TypeAliases && TypeAliases["journal-article"] == "article-journal"
    ensures "article-journal" in CanonicalTypes && "journal-article" !in CanonicalTypes
  {
    JournalArticleNotType();
  }

  lemma JournalArticleNotType()
    ensures "journal-article" !in CanonicalTypes
  {
    JournalArticleNotAToL();
    JournalArticleNotMToW();
  }

  lemma JournalArticleNotAToL()
    ensures "journal-article" !in TypesAToL
  {
  }

  lemma JournalArticleNotMToW()
    ensures "journal-article" !in TypesMToW
  {
  }

  lemma BookChapterAlias()
    ensures "book-chapter" in TypeAliases && TypeAliases["book-chapter"] == "chapter"
    ensures "chapter" in CanonicalTypes && "book-chapter" !in CanonicalTypes
  {
    BookChapterNotType();
  }

  lemma BookChapterNotType()
    ensures "book-chapter" !in CanonicalTypes
  {
    BookChapterNotAToL();
    BookChapterNotMToW();
  }

  lemma BookChapterNotAToL()
    ensures "book-chapter" !in TypesAToL
  {
  }

  lemma BookChapterNotMToW()
    ensures "book-chapter" !in TypesMToW
  {
  }

  lemma PostedContentAlias()
    ensures "posted-content" in TypeAliases && TypeAliases["posted-content"] == "manuscript"
    ensures "manuscript" in CanonicalTypes && "posted-content" !in CanonicalTypes
  {
    PostedContentNotType();
  }

  lemma PostedContentNotType()
    ensures "posted-content" !in CanonicalTypes
  {
    PostedContentNotAToL();
    PostedContentNotMToW();
  }

  lemma PostedContentNotAToL()
    ensures "posted-content" !in TypesAToL
  {
  }

  lemma PostedContentNotMToW()
    ensures "posted-content" !in TypesMToW
  {
  }

  lemma ProceedingsArticleAlias()
    ensures "proceedings-article" in TypeAliases && TypeAliases["proceedings-article"] == "paper-conference"
    ensures "paper-conference" in CanonicalTypes && "proceedings-article" !in CanonicalTypes
  {
    ProceedingsArticleNotType();
  }

  lemma ProceedingsArticleNotType()
    ensures "proceedings-article" !in CanonicalTypes
  {
    ProceedingsArticleNotAToL();
    ProceedingsArticleNotMToW();
  }

  lemma ProceedingsArticleNotAToL()
    ensures "proceedings-article" !in TypesAToL
  {
  }

  lemma ProceedingsArticleNotMToW()
    ensures "proceedings-article" !in TypesMToW
  {
  }

  lemma DissertationAlias()
    ensures "dissertation" in TypeAliases && TypeAliases["dissertation"] == "thesis"
    ensures "thesis" in CanonicalTypes && "dissertation" !in CanonicalTypes
  {
    DissertationNotType();
  }

  lemma DissertationNotType()
    ensures "dissertation" !in CanonicalTypes
  {
    DissertationNotAToL();
    DissertationNotMToW();
  }

  lemma DissertationNotAToL()
    ensures "dissertation" !in TypesAToL
  {
  }

  lemma DissertationNotMToW()
    ensures "dissertation" !in TypesMToW
  {
  }

  /** Each alias names a CSL type and is not one itself. */
  lemma AliasResolves(a: string)
    requires a in TypeAliases
    ensures TypeAliases[a] in CanonicalTypes && a !in CanonicalTypes
  {
    assert TypeAliases.Keys == {"journal-article", "book-chapter", "posted-content", "proceedings-article", "dissertation"};
    JournalArticleAlias();
    BookChapterAlias();
    PostedContentAlias();
    ProceedingsArticleAlias();
    DissertationAlias();
  }

  /** Every alias names a CSL type, and no alias is one itself. */
  lemma AliasesResolve()
    ensures forall a :: a in TypeAliases ==> TypeAliases[a] in CanonicalTypes && a !in CanonicalTypes
  {
    forall a | a in TypeAliases ensures TypeAliases[a] in CanonicalTypes && a !in CanonicalTypes {
      AliasResolves(a);
    }
  }

  /** `fieldTypes.language` is `'string'`. */
  lemma LanguageTakesStrings()
    ensures FieldTypeOf("language") == Some(Types(LanguageTypes))
  {
    assert "language" !in NameListFields && "language" !in DateFields;
    assert "language" !in ObjectFields && "language" !in StringOrNumberFields;
    assert "language" in StringFieldsEToO;
  }

  /** `language` takes strings, so `correctType` cleans a type as a language. */
  lemma LanguageField(v: Value, bg: bool, reading: Reading, parseName: string -> Value)
    ensures CorrectField("language", v, bg, reading, parseName) == Ok(CorrectPlain(LanguageTypes, v, bg, reading))
  {
    LanguageTakesStrings();
  }

  /** No field takes numbers but not strings. */
  lemma NoNumberOnlyField(field: string)
    ensures FieldTypeOf(field).Some? && FieldTypeOf(field).value.Types? ==>
      var ts := FieldTypeOf(field).value.ts; !("number" in ts && "string" !in ts)
  {
  }

  // ---------------------------------------------------------------------
  // Values of the listed types

  /** Read as intended, a value of a type the field takes is left alone. */
  lemma ListedTypeKept(types: seq<string>, v: Value, bg: bool)
    requires TypeOf(v) in types
    ensures CorrectPlain(types, v, bg, Intended) == v
  {
  }

  /** Read as intended, a corrected value needs no more correction. */
  lemma PlainIdempotent(types: seq<string>, v: Value, bg: bool)
    ensures var r := CorrectPlain(types, v, bg, Intended); CorrectPlain(types, r, bg, Intended) == r
  {
    var r := CorrectPlain(types, v, bg, Intended);
    if r != Undefined {
      ListedTypeKept(types, r, bg);
    }
  }

  /** A field that takes strings only stores a number as its decimal text,
      and one that takes numbers only reads that text back as the number. */
  lemma NumberTextRoundTrip(n: nat, reading: Reading)
    ensures CorrectPlain(["string"], Num(n), true, reading) == Str(NatToString(n))
    ensures CorrectPlain(["number"], Str(NatToString(n)), true, reading) == Num(n)
  {
    ToNumberOfNatToString(n);
  }

  /** An array under best guess stands for its first element, unless, read
      as intended, the field takes objects. */
  lemma FirstElementTaken(types: seq<string>, items: seq<Value>, reading: Reading)
    requires items != [] && (reading.AsWritten? || "object" !in types)
    ensures CorrectPlain(types, Arr(items), true, reading) == CorrectPlain(types, items[0], true, reading)
  {
  }

  // ---------------------------------------------------------------------
  // Names

  /** One key of a name whose ORCID moved: the three spellings are gone,
      `_orcid` holds the ORCID unless the name had its own `_orcid`, and
      every other key holds what it held. */
  lemma OrcidKey(v: Value, k: string)
    requires IsNameObject(v) && Truthy(OrcidOf(v)) && Distinct(ForIn(v))
    ensures Distinct(WithOrcid(v, OrcidOf(v)))
    ensures Get(WithOrcid(v, OrcidOf(v)), k) ==
      if k in OrcidKeys then None
      else if k == "_orcid" && !Has(ForIn(v), k) then Some(OrcidOf(v))
      else Get(ForIn(v), k)
  {
    var front: Props<Value> := [("_orcid", OrcidOf(v))];
    AssignGet(front, ForIn(v), k);
    DeleteAllGet(Assign(front, ForIn(v)), OrcidKeys, k);
  }

  /** `correctName` moves the ORCID of a name to `_orcid`. */
  lemma OrcidMoved(v: Value, bg: bool, parseName: string -> Value)
    requires IsNameObject(v) && Truthy(OrcidOf(v)) && Distinct(ForIn(v))
    ensures var r := CorrectedName(v, bg, parseName);
      r.Obj? && Distinct(r.props) &&
      (forall k :: k in OrcidKeys ==> !Has(r.props, k)) &&
      Get(r.props, "_orcid") == (if Has(ForIn(v), "_orcid") then Get(ForIn(v), "_orcid") else Some(OrcidOf(v))) &&
      (forall k :: k !in OrcidKeys && k != "_orcid" ==> Get(r.props, k) == Get(ForIn(v), k))
  {
    var r := CorrectedName(v, bg, parseName);
    OrcidKey(v, "_orcid");
    forall k ensures Get(r.props, k) == Get(WithOrcid(v, OrcidOf(v)), k) {}
    forall k | k in OrcidKeys ensures !Has(r.props, k) {
      OrcidKey(v, k);
    }
    forall k | k !in OrcidKeys && k != "_orcid" ensures Get(r.props, k) == Get(ForIn(v), k) {
      OrcidKey(v, k);
    }
  }

  /** `name[key]` on the corrected name, for a key that is not an ORCID key. */
  lemma MemberKept(v: Value, k: string)
    requires IsNameObject(v) && Truthy(OrcidOf(v)) && Distinct(ForIn(v))
    requires k !in OrcidKeys && k != "_orcid"
    ensures Member(Obj(WithOrcid(v, OrcidOf(v))), k) == Member(v, k)
  {
    OrcidKey(v, k);
    LookupIsGet(WithOrcid(v, OrcidOf(v)), k);
    LookupIsGet(ForIn(v), k);
  }

  /** `name[key]` on the corrected name, for an ORCID key. */
  lemma MemberGone(v: Value, k: string)
    requires IsNameObject(v) && Truthy(OrcidOf(v)) && Distinct(ForIn(v))
    requires k in OrcidKeys
    ensures Member(Obj(WithOrcid(v, OrcidOf(v))), k) == Undefined
  {
    OrcidKey(v, k);
    LookupIsGet(WithOrcid(v, OrcidOf(v)), k);
  }

  /** The corrected name still names someone, and has no ORCID left to move. */
  lemma MovedNameSettled(v: Value)
    requires IsNameObject(v) && Truthy(OrcidOf(v)) && Distinct(ForIn(v))
    ensures IsNameObject(Obj(WithOrcid(v, OrcidOf(v))))
    ensures !Truthy(OrcidOf(Obj(WithOrcid(v, OrcidOf(v)))))
  {
    MemberKept(v, "literal");
    MemberKept(v, "given");
    MemberKept(v, "family");
    MemberGone(v, "ORCID");
    MemberGone(v, "orcid");
    MemberGone(v, "_ORCID");
  }

  /** A corrected name object is its own correction. */
  lemma NameIdempotent(v: Value, bg: bool, parseName: string -> Value)
    requires IsNameObject(v) && Distinct(ForIn(v))
    ensures var r := CorrectedName(v, bg, parseName); CorrectedName(r, bg, parseName) == r
  {
    if Truthy(OrcidOf(v)) {
      MovedNameSettled(v);
    }
  }

  /** The names `correctNameList` keeps are the truthy corrections of the
      names it is given. */
  lemma NamesKept(names: seq<Value>, bg: bool, parseName: string -> Value, x: Value)
    ensures x in CorrectedNames(names, bg, parseName) <==>
      Truthy(x) && exists i :: 0 <= i < |names| && CorrectedName(names[i], bg, parseName) == x
  {
    var f := Namer(bg, parseName);
    var cs := Applied(names, f);
    TruthyAmongApplied(names, f, x);
    if x in cs {
      var i :| 0 <= i < |cs| && cs[i] == x;
      assert CorrectedName(names[i], bg, parseName) == x;
    }
    if exists i :: 0 <= i < |names| && CorrectedName(names[i], bg, parseName) == x {
      var i :| 0 <= i < |names| && CorrectedName(names[i], bg, parseName) == x;
      assert cs[i] == x;
    }
  }

  /** The image of each value, in order. */
  function Applied(values: seq<Value>, f: Value -> Value): (r: seq<Value>)
    ensures |r| == |values| && forall i :: 0 <= i < |values| ==> r[i] == f(values[i])
  {
    seq(|values|, i requires 0 <= i < |values| => f(values[i]))
  }

  lemma {:induction false} TruthyAmongApplied(values: seq<Value>, f: Value -> Value, x: Value)
    ensures x in TruthyOf(values, f) <==> Truthy(x) && x in Applied(values, f)
  {
    if values != [] {
      var n := |values| - 1;
      var init := values[..n];
      TruthyAmongApplied(init, f, x);
      assert Applied(values, f) == Applied(init, f) + [f(values[n])];
      TruthySnoc(TruthyOf(init, f), Applied(init, f), f(values[n]), x);
    }
  }

  lemma TruthySnoc(kept: seq<Value>, cs: seq<Value>, c: Value, x: Value)
    requires x in kept <==> Truthy(x) && x in cs
    ensures x in kept + (if Truthy(c) then [c] else []) <==> Truthy(x) && x in cs + [c]
  {
  }

  // ---------------------------------------------------------------------
  // Dates

  /** Years written as text are read as the numbers they spell. */
  lemma YearTextRead(ns: seq<nat>)
    ensures CorrectDateParts(seq(|ns|, i requires 0 <= i < |ns| => Str(NatToString(ns[i]))), true) ==
            Arr(seq(|ns|, i requires 0 <= i < |ns| => Num(ns[i])))
  {
    var texts := seq(|ns|, i requires 0 <= i < |ns| => Str(NatToString(ns[i])));
    assert forall i :: 0 <= i < |ns| ==> ParseInt(ToJsString(texts[i])) == Some(ns[i]) by {
      forall i | 0 <= i < |ns| ensures ParseInt(ToJsString(texts[i])) == Some(ns[i]) {
        ParseIntOfNatToString(ns[i]);
      }
    }
    TextsRead(texts, ns);
  }

  /** Text parts that `parseInt` reads as `ns` are corrected, under best
      guess, to the numbers `ns`. */
  lemma TextsRead(texts: seq<Value>, ns: seq<nat>)
    requires |texts| == |ns| && forall i :: 0 <= i < |texts| ==> texts[i].Str?
    requires forall i :: 0 <= i < |ns| ==> ParseInt(ToJsString(texts[i])) == Some(ns[i])
    ensures CorrectDateParts(texts, true) == Arr(seq(|ns|, i requires 0 <= i < |ns| => Num(ns[i])))
  {
    var nums := seq(|ns|, i requires 0 <= i < |ns| => Num(ns[i]));
    if ns == [] {
      assert texts == [] && nums == [];
    } else {
      assert !AllNumbers(texts) by {
        assert !texts[0].Num?;
      }
      assert ParsedParts(texts) == nums;
    }
  }

  /** The ranges `correctDate` keeps are the corrections of its ranges that
      are arrays. */
  lemma RangesKept(ranges: seq<Value>, bg: bool, x: Value)
    requires AllArrays(ranges)
    ensures x in KeptRanges(ranges, bg) <==>
      x.Arr? && exists i :: 0 <= i < |ranges| && CorrectDateParts(ranges[i].items, bg) == x
  {
    var cs := Corrections(ranges, bg);
    KeptAmongCorrections(ranges, bg, x);
    if x in cs {
      var i :| 0 <= i < |cs| && cs[i] == x;
      assert CorrectDateParts(ranges[i].items, bg) == x;
    }
  }

  /** The correction of each range, in order. */
  function Corrections(ranges: seq<Value>, bg: bool): (r: seq<Value>)
    requires AllArrays(ranges)
    ensures |r| == |ranges| && forall i :: 0 <= i < |ranges| ==> r[i] == CorrectDateParts(ranges[i].items, bg)
  {
    seq(|ranges|, i requires 0 <= i < |ranges| => CorrectDateParts(ranges[i].items, bg))
  }

  lemma {:induction false} KeptAmongCorrections(ranges: seq<Value>, bg: bool, x: Value)
    requires AllArrays(ranges)
    ensures x in KeptRanges(ranges, bg) <==> x.Arr? && x in Corrections(ranges, bg)
  {
    if ranges != [] {
      var n := |ranges| - 1;
      var init := ranges[..n];
      assert AllArrays(init) by {
        forall i | 0 <= i < n ensures init[i].Arr? {
          assert init[i] == ranges[i];
        }
      }
      KeptAmongCorrections(init, bg, x);
      var c := CorrectDateParts(ranges[n].items, bg);
      CorrectionsSnoc(ranges, init, bg);
      MemberSnoc(KeptRanges(init, bg), Corrections(init, bg), c, x);
    }
  }

  lemma CorrectionsSnoc(ranges: seq<Value>, init: seq<Value>, bg: bool)
    requires AllArrays(ranges) && ranges != [] && init == ranges[..|ranges| - 1] && AllArrays(init)
    ensures Corrections(ranges, bg) == Corrections(init, bg) + [CorrectDateParts(ranges[|ranges| - 1].items, bg)]
  {
  }

  lemma MemberSnoc(kept: seq<Value>, cs: seq<Value>, c: Value, x: Value)
    requires x in kept <==> x.Arr? && x in cs
    ensures x in kept + (if c.Arr? then [c] else []) <==> x.Arr? && x in cs + [c]
  {
  }

  /** Ranges already made of numbers are all kept as they are. */
  lemma {:induction false} NumericRangesKept(ranges: seq<Value>, bg: bool)
    requires NumericRanges(ranges)
    ensures AllArrays(ranges) && KeptRanges(ranges, bg) == ranges
  {
    if ranges != [] {
      var n := |ranges| - 1;
      assert NumericRanges(ranges[..n]);
      NumericRangesKept(ranges[..n], bg);
      assert ranges[..n] + [ranges[n]] == ranges;
    }
  }

  /** A date made only of usable ranges is corrected to itself. */
  lemma RangesDateSettled(props: Props<Value>, range: seq<Value>, bg: bool)
    requires Distinct(props) && Get(props, DatePartsKey) == Some(Arr(range))
    requires range != [] && NumericRanges(range)
    ensures CorrectDate(Obj(props), bg) == Ok(Obj(props))
  {
    LookupIsGet(props, DatePartsKey);
    NumericRangesKept(range, bg);
    DateFromRanges(Obj(props), bg, range);
    AssignFresh([], props);
    assert [] + props == props;
    SetSame(props, DatePartsKey, Arr(range));
  }

  /** An object whose ranges are all usable keeps its fields and those ranges. */
  lemma DateFromRanges(v: Value, bg: bool, range: seq<Value>)
    requires v.Obj? && Member(v, DatePartsKey) == Arr(range)
    requires range != [] && AllArrays(range) && KeptRanges(range, bg) == range
    ensures CorrectDate(v, bg) == Ok(Obj(Set(Assign([], ForIn(v)), DatePartsKey, Arr(range))))
  {
  }

  /** The object a date with a list of ranges is corrected to. */
  lemma RangesObject(v: Value, range: seq<Value>)
    ensures var props := Set(Assign([], ForIn(v)), DatePartsKey, Arr(range));
      Distinct(props) && Get(props, DatePartsKey) == Some(Arr(range))
  {
    AssignDistinct([], ForIn(v));
    SetGet(Assign([], ForIn(v)), DatePartsKey, Arr(range), DatePartsKey);
  }

  /** `correctDate` is idempotent: a corrected date is corrected to itself. */
  lemma DateIdempotent(v: Value, bg: bool)
    requires CorrectDate(v, bg).Ok?
    ensures var w := CorrectDate(v, bg).value; CorrectDate(w, bg) == Ok(w)
  {
    var w := CorrectDate(v, bg).value;
    var dp := Member(v, DatePartsKey);
    if w != Undefined && w != v {
      if IsObject(v) && dp.Arr? && AllArrays(dp.items) {
        var range := KeptRanges(dp.items, bg);
        RangesObject(v, range);
        RangesDateSettled(w.props, range, bg);
      } else if v.Arr? && EveryHasDateParts(v.items) == Ok(true) {
        var range := KeptRanges(DatePartsOfEach(v.items), bg);
        RangesDateSettled(w.props, range, bg);
      } else {
        RangesDateSettled(w.props, [CorrectDateParts(dp.items, bg)], bg);
      }
    }
  }

  /** A date made from ranges holds a non-empty list of numeric ranges. */
  lemma DateShape(v: Value, bg: bool)
    requires CorrectDate(v, bg).Ok?
    ensures var w := CorrectDate(v, bg).value;
      w != Undefined && w != v ==>
        w.Obj? && Distinct(w.props) && Get(w.props, DatePartsKey).Some? &&
        var range := Get(w.props, DatePartsKey).value;
        range.Arr? && range.items != [] && NumericRanges(range.items)
  {
    var w := CorrectDate(v, bg).value;
    var dp := Member(v, DatePartsKey);
    if w != Undefined && w != v && IsObject(v) && dp.Arr? && AllArrays(dp.items) {
      RangesObject(v, KeptRanges(dp.items, bg));
    }
  }

  /** A date object with a list of ranges keeps its other fields. */
  lemma DateKeepsFields(v: Value, bg: bool, k: string)
    requires IsObject(v) && Member(v, DatePartsKey).Arr? && AllArrays(Member(v, DatePartsKey).items)
    requires Distinct(ForIn(v)) && k != DatePartsKey
    requires CorrectDate(v, bg) != Ok(Undefined)
    ensures CorrectDate(v, bg).Ok? && CorrectDate(v, bg).value.Obj?
    ensures Get(CorrectDate(v, bg).value.props, k) == Get(ForIn(v), k)
  {
    var range := KeptRanges(Member(v, DatePartsKey).items, bg);
    SetGet(Assign([], ForIn(v)), DatePartsKey, Arr(range), k);
    AssignGet([], ForIn(v), k);
  }

  /** A date object with a list of ranges is dropped exactly when none of
      its ranges can be used. */
  lemma RangesDateDropped(v: Value, bg: bool)
    requires IsObject(v) && Member(v, DatePartsKey).Arr? && AllArrays(Member(v, DatePartsKey).items)
    ensures var ranges := Member(v, DatePartsKey).items;
      CorrectDate(v, bg) == Ok(Undefined) <==> forall i :: 0 <= i < |ranges| ==> !CorrectDateParts(ranges[i].items, bg).Arr?
  {
    var ranges := Member(v, DatePartsKey).items;
    var kept := KeptRanges(ranges, bg);
    if kept != [] {
      RangesKept(ranges, bg, kept[0]);
    }
    forall i | 0 <= i < |ranges| && CorrectDateParts(ranges[i].items, bg).Arr?
      ensures CorrectDateParts(ranges[i].items, bg) in kept
    {
      RangesKept(ranges, bg, CorrectDateParts(ranges[i].items, bg));
    }
  }

  /** A literal or raw date passes through. */
  lemma LiteralDateKept(v: Value, bg: bool)
    requires IsObject(v) && !v.Arr? && !Member(v, DatePartsKey).Arr?
    requires Has(ForIn(v), "literal") || Has(ForIn(v), "raw")
    ensures CorrectDate(v, bg) == Ok(v)
  {
  }

  /** An array of dates with a `null` among them, before any element
      without ranges, throws. */
  lemma NullDateThrows(bg: bool)
    ensures CorrectDate(Arr([Null]), bg) == Err("TypeError: Cannot read properties of null (reading 'date-parts')")
  {
    assert ForIn(Arr([Null]))[0] == (NatToString(0), Null);
    assert NatToString(0) == "0";
    assert Member(Arr([Null]), DatePartsKey) == Undefined;
  }

  // ---------------------------------------------------------------------
  // The item type

  /** A CSL type is kept as it is. */
  lemma CanonicalTypeKept(t: string, bg: bool, reading: Reading)
    requires t in CanonicalTypes
    ensures CorrectType(Str(t), bg, reading) == Ok(Str(t))
  {
  }

  /** A string is cleaned as a language to itself. */
  lemma StringLanguage(s: string, bg: bool, reading: Reading)
    ensures CorrectPlain(LanguageTypes, Str(s), bg, reading) == Str(s)
  {
  }

  /** The retry in lower case, and that it is the last one. */
  lemma TypeRetry(v: Value, bg: bool, reading: Reading)
    requires var t := CorrectPlain(LanguageTypes, v, bg, reading);
      bg && t.Str? && t.s !in CanonicalTypes && t.s !in TypeAliases && ToLower(t.s) != t.s
    ensures var t := CorrectPlain(LanguageTypes, v, bg, reading);
      CorrectType(v, bg, reading) == CorrectType(Str(ToLower(t.s)), bg, reading) &&
      Retries(Str(ToLower(t.s)), bg, reading) < Retries(v, bg, reading)
  {
    var t := CorrectPlain(LanguageTypes, v, bg, reading);
    ToLowerTwice(t.s);
  }

  /** `correctType` gives a CSL type or `undefined`. */
  lemma {:induction false} TypeIsCanonical(v: Value, bg: bool, reading: Reading)
    requires CorrectType(v, bg, reading).Ok?
    ensures var w := CorrectType(v, bg, reading).value; w == Undefined || (w.Str? && w.s in CanonicalTypes)
    decreases Retries(v, bg, reading)
  {
    var t := CorrectPlain(LanguageTypes, v, bg, reading);
    if bg && t.Str? && t.s !in CanonicalTypes {
      if t.s in TypeAliases {
        AliasResolves(t.s);
      } else if ToLower(t.s) != t.s {
        TypeRetry(v, bg, reading);
        TypeIsCanonical(Str(ToLower(t.s)), bg, reading);
      }
    }
  }

  /** `correctType` does not throw without best guess, on a type that is
      cleaned to a string, or read as intended. */
  lemma {:induction false} TypeOk(v: Value, bg: bool, reading: Reading)
    requires !bg || CorrectPlain(LanguageTypes, v, bg, reading).Str? || reading.Intended?
    ensures CorrectType(v, bg, reading).Ok?
    decreases Retries(v, bg, reading)
  {
    var t := CorrectPlain(LanguageTypes, v, bg, reading);
    if bg && t.Str? && t.s !in CanonicalTypes && t.s !in TypeAliases && ToLower(t.s) != t.s {
      TypeRetry(v, bg, reading);
      StringLanguage(ToLower(t.s), bg, reading);
      TypeOk(Str(ToLower(t.s)), bg, reading);
    }
  }

  /** Read as intended, `correctType` never throws. */
  lemma TypeNeverThrows(v: Value, bg: bool)
    ensures CorrectType(v, bg, Intended).Ok?
  {
    TypeOk(v, bg, Intended);
  }

  /** As written, `correctType` throws exactly when best guess is on and
      cleaning the type as a language leaves no string. */
  lemma TypeThrowsWhen(v: Value, bg: bool)
    ensures CorrectType(v, bg, AsWritten).Err? <==> bg && !CorrectPlain(LanguageTypes, v, bg, AsWritten).Str?
  {
    if !bg || CorrectPlain(LanguageTypes, v, bg, AsWritten).Str? {
      TypeOk(v, bg, AsWritten);
    }
  }

  /** Under best guess an alias is replaced by the type it names. */
  lemma AliasReplaced(a: string, reading: Reading)
    requires a in TypeAliases
    ensures CorrectType(Str(a), true, reading) == Ok(Str(TypeAliases[a]))
  {
    StringLanguage(a, true, reading);
    AliasResolves(a);
  }

  /** Under best guess a type written with capitals is read in lower case. */
  lemma CapitalsIgnored(s: string, reading: Reading)
    requires ToLower(s) in CanonicalTypes && s !in CanonicalTypes && s !in TypeAliases
    ensures CorrectType(Str(s), true, reading) == Ok(Str(ToLower(s)))
  {
    StringLanguage(s, true, reading);
    ToLowerTwice(s);
    StringLanguage(ToLower(s), true, reading);
  }

  /** A corrected type is its own correction. */
  lemma TypeIdempotent(v: Value, bg: bool, reading: Reading)
    requires CorrectType(v, bg, reading).Ok? && CorrectType(v, bg, reading).value != Undefined
    ensures var w := CorrectType(v, bg, reading).value; CorrectType(w, bg, reading) == Ok(w)
  {
    TypeIsCanonical(v, bg, reading);
    var w := CorrectType(v, bg, reading).value;
    CanonicalTypeKept(w.s, bg, reading);
  }

  /** Without best guess only a CSL type written as such is kept. */
  lemma StrictType(v: Value, reading: Reading)
    ensures CorrectType(v, false, reading) == Ok(if v.Str? && v.s in CanonicalTypes then v else Undefined)
  {
  }

  // ---------------------------------------------------------------------
  // Fields and entries

  /** A field `fieldTypes` does not list is dropped. */
  lemma UnknownFieldDropped(field: string, v: Value, bg: bool, reading: Reading, parseName: string -> Value)
    requires FieldTypeOf(field).None?
    ensures CorrectField(field, v, bg, reading, parseName) == Ok(Undefined)
  {
  }

  /** What a corrected field can hold, by the kind of the field. */
  predicate Fits(ft: FieldType, c: Value) {
    c == Undefined ||
    match ft
    case Name => true
    case NameList => c.Arr? && c.items != [] && forall i :: 0 <= i < |c.items| ==> Truthy(c.items[i])
    case Date => IsObject(c)
    case TypeField => c.Str? && c.s in CanonicalTypes
    case Types(ts) => TypeOf(c) in ts
  }

  /** A corrected field holds a value of the kind the field takes. */
  lemma FieldFits(field: string, v: Value, bg: bool, reading: Reading, parseName: string -> Value)
    requires FieldTypeOf(field).Some? && CorrectField(field, v, bg, reading, parseName).Ok?
    ensures Fits(FieldTypeOf(field).value, CorrectField(field, v, bg, reading, parseName).value)
  {
    match FieldTypeOf(field).value {
      case TypeField => TypeIsCanonical(v, bg, reading);
      case Date =>
        var c := CorrectDate(v, bg).value;
        if c != Undefined && c != v {
          DateShape(v, bg);
        }
      case _ =>
    }
  }

  /** One key after the field loop: a field of `fields` whose correction is
      defined holds it, any other key holds what it held in `clean`. */
  lemma CleanFromGet(fields: Props<Value>, clean: Props<Value>, bg: bool, reading: Reading, parseName: string -> Value, k: string)
    requires Distinct(fields) && CleanFrom(fields, clean, bg, reading, parseName).Ok?
    ensures Distinct(clean) ==> Distinct(CleanFrom(fields, clean, bg, reading, parseName).value)
    ensures Has(fields, k) ==> CorrectField(k, Get(fields, k).value, bg, reading, parseName).Ok?
    ensures Get(CleanFrom(fields, clean, bg, reading, parseName).value, k) ==
      if Has(fields, k) && CorrectField(k, Get(fields, k).value, bg, reading, parseName).value != Undefined
      then Some(CorrectField(k, Get(fields, k).value, bg, reading, parseName).value)
      else Get(clean, k)
  {
    KeptGet(fields, clean, Corrector(bg, reading, parseName), k);
  }

  lemma {:induction false} KeptGet(fields: Props<Value>, clean: Props<Value>, correct: (string, Value) -> Result<Value, string>, k: string)
    requires Distinct(fields) && KeepCorrections(fields, clean, correct).Ok?
    ensures Distinct(clean) ==> Distinct(KeepCorrections(fields, clean, correct).value)
    ensures Has(fields, k) ==> correct(k, Get(fields, k).value).Ok?
    ensures Get(KeepCorrections(fields, clean, correct).value, k) ==
      if Has(fields, k) && correct(k, Get(fields, k).value).value != Undefined
      then Some(correct(k, Get(fields, k).value).value)
      else Get(clean, k)
    decreases |fields|
  {
    if fields != [] {
      var (f, v) := fields[0];
      var c := correct(f, v).value;
      var next := if c != Undefined then Set(clean, f, c) else clean;
      assert Distinct(fields[1..]);
      KeptGet(fields[1..], next, correct, k);
      SetGet(clean, f, c, k);
      if k == f {
        assert forall i :: 0 <= i < |fields[1..]| ==> fields[1..][i].0 == fields[i + 1].0 != f;
        assert !Has(fields[1..], k);
      } else {
        GetTail(fields, k);
      }
    }
  }

  /** A cleaned entry holds exactly the fields of the input whose
      correction is defined, each with its correction. */
  lemma CleanEntryGet(entry: Value, bg: bool, reading: Reading, parseName: string -> Value, k: string)
    requires Distinct(ForIn(entry)) && CleanEntry(entry, bg, reading, parseName).Ok?
    ensures var w := CleanEntry(entry, bg, reading, parseName).value; w.Obj? && Distinct(w.props)
    ensures Has(ForIn(entry), k) ==> CorrectField(k, Member(entry, k), bg, reading, parseName).Ok?
    ensures Get(CleanEntry(entry, bg, reading, parseName).value.props, k) ==
      if Has(ForIn(entry), k) && CorrectField(k, Member(entry, k), bg, reading, parseName).value != Undefined
      then Some(CorrectField(k, Member(entry, k), bg, reading, parseName).value)
      else None
  {
    CleanFromGet(ForIn(entry), [], bg, reading, parseName, k);
    LookupIsGet(ForIn(entry), k);
  }

  /** Every key of a cleaned entry is a key of the input that `fieldTypes`
      lists. */
  lemma CleanEntryKeys(entry: Value, bg: bool, reading: Reading, parseName: string -> Value, k: string)
    requires Distinct(ForIn(entry)) && CleanEntry(entry, bg, reading, parseName).Ok?
    requires Has(CleanEntry(entry, bg, reading, parseName).value.props, k)
    ensures Has(ForIn(entry), k) && FieldTypeOf(k).Some?
  {
    CleanEntryGet(entry, bg, reading, parseName, k);
  }

  /** An entry with one field is cleaned to that field's correction. */
  lemma SingleFieldEntry(f: string, v: Value, bg: bool, reading: Reading, parseName: string -> Value)
    ensures CleanEntry(Obj([(f, v)]), bg, reading, parseName) ==
      match CorrectField(f, v, bg, reading, parseName)
      case Err(e) => Err(e)
      case Ok(c) => Ok(Obj(if c != Undefined then [(f, c)] else []))
  {
    var fields := [(f, v)];
    assert ForIn(Obj(fields)) == fields && fields[0] == (f, v) && fields[1..] == [];
    var c := CorrectField(f, v, bg, reading, parseName);
    if c.Ok? {
      var next := if c.value != Undefined then Set([], f, c.value) else [];
      assert next == if c.value != Undefined then [(f, c.value)] else [];
      assert CleanFrom(fields, [], bg, reading, parseName) == CleanFrom([], next, bg, reading, parseName);
    }
  }

  /** The field loop throws exactly when the correction of one of the
      fields does. */
  lemma CleanFromThrows(fields: Props<Value>, clean: Props<Value>, bg: bool, reading: Reading, parseName: string -> Value)
    ensures CleanFrom(fields, clean, bg, reading, parseName).Err? <==>
      exists i :: 0 <= i < |fields| && CorrectField(fields[i].0, fields[i].1, bg, reading, parseName).Err?
  {
    KeptThrows(fields, clean, Corrector(bg, reading, parseName));
  }

  lemma {:induction false} KeptThrows(fields: Props<Value>, clean: Props<Value>, correct: (string, Value) -> Result<Value, string>)
    ensures KeepCorrections(fields, clean, correct).Err? <==>
      exists i :: 0 <= i < |fields| && correct(fields[i].0, fields[i].1).Err?
    decreases |fields|
  {
    if fields != [] {
      var c := correct(fields[0].0, fields[0].1);
      if c.Ok? {
        var next := if c.value != Undefined then Set(clean, fields[0].0, c.value) else clean;
        KeptThrows(fields[1..], next, correct);
        assert forall i :: 1 <= i < |fields| ==> fields[i] == fields[1..][i - 1];
      }
    }
  }

  /** `parseCsl` succeeds when every entry does, each entry cleaned in its place. */
  lemma CleanedPointwise(data: seq<Value>, bg: bool, reading: Reading, parseName: string -> Value)
    ensures Cleaned(data, bg, reading, parseName).Ok? <==> forall i :: 0 <= i < |data| ==> CleanEntry(data[i], bg, reading, parseName).Ok?
    ensures Cleaned(data, bg, reading, parseName).Ok? ==>
      var ws := Cleaned(data, bg, reading, parseName).value;
      |ws| == |data| && forall i :: 0 <= i < |data| ==> ws[i] == CleanEntry(data[i], bg, reading, parseName).value
  {
    var rs := seq(|data|, i requires 0 <= i < |data| => Cleaner(bg, reading, parseName)(data[i]));
    RunEachCollects(data, Cleaner(bg, reading, parseName), rs);
    CollectPointwise(rs);
  }
}
