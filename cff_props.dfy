// Properties of the CFF converters and of `parse` / `format`: proceedings
// survive the type tables when they carry an event title, the documented place
// forms, identifiers, keywords, pages and year-month dates survive the trip
// to CSL and back, `addId` strips the URL scheme, and `format` after
// `parse` takes the main entry back out and keeps every other entry as a
// reference.

module CffProps {
  import opened Base
  import opened JsValue
  import opened JsObject
  import opened Cff

  // ---------------------------------------------------------------------
  // Types

  /** Proceedings are books in CSL, and come back as proceedings when they
      carry an event title. */
  lemma ProceedingsRoundTrip(eventTitle: Value)
    ensures TypeToTarget(Str("proceedings")) == "book"
    ensures TypeToSource(Str(TypeToTarget(Str("proceedings"))), eventTitle) == if Truthy(eventTitle) then "proceedings" else "book"
  {
    assert ToJsString(Str("proceedings")) == "proceedings";
    assert TypesToTarget["proceedings"] == "book";
    assert ToJsString(Str("book")) == "book";
    assert TypesToSource["book"] == "book";
  }

  // ---------------------------------------------------------------------
  // Splitting on a separator

  /** A separator whose first character a piece lacks does not occur in it. */
  lemma AbsentSeparator(p: string, sep: string)
    requires |sep| > 0 && sep[0] !in p
    ensures IndexOf(p, sep) == -1
  {
    forall i: nat | i + |sep| <= |p| ensures !OccursAt(p, sep, i) {
      assert p[i..i + |sep|][0] == p[i];
    }
  }

  /** The first separator after a piece that lacks its first character is
      the one right after the piece. */
  lemma SeparatorAfter(p: string, sep: string, x: string)
    requires |sep| > 0 && sep[0] !in p
    ensures IndexOf(p + sep + x, sep) == |p|
  {
    var s := p + sep + x;
    assert s[|p|..|p| + |sep|] == sep;
    forall i: nat | i < |p| ensures !OccursAt(s, sep, i) {
      if i + |sep| <= |s| {
        assert s[i..i + |sep|][0] == s[i] == p[i];
      }
    }
    IndexOfAt(s, sep, |p|);
  }

  /** Splitting undoes joining when no part holds the separator's first
      character. */
  lemma {:induction false} SplitJoin(parts: seq<string>, sep: string)
    requires |sep| > 0 && |parts| >= 1
    requires forall i :: 0 <= i < |parts| ==> sep[0] !in parts[i]
    ensures Split(Join(parts, sep), sep) == parts
    decreases |parts|
  {
    var p := parts[0];
    if |parts| == 1 {
      AbsentSeparator(p, sep);
    } else {
      var rest := parts[1..];
      assert [p] + rest == parts;
      JoinCons(p, rest, sep);
      var x := Join(rest, sep);
      SeparatorAfter(p, sep, x);
      var s := p + sep + x;
      assert s[..|p|] == p && s[|p| + |sep|..] == x;
      SplitJoin(rest, sep);
    }
  }

  // ---------------------------------------------------------------------
  // Publisher and place

  /** A publisher entity with the given parts. */
  /** A CFF entity with a name, an optional city and region, and a country. */
  function EntityOf(name: Value, city: Option<string>, region: Option<string>, country: string): Value {
    Obj([("name", name)] + (if city.Some? then [("city", Str(city.value))] else []) +
        (if region.Some? then [("region", Str(region.value))] else []) + [("country", Str(country))])
  }

  /** The entity `publisher.toSource` builds for those parts: the country
      first, then the region, then the city. */
  function SourceEntity(name: Value, city: Option<string>, region: Option<string>, country: string): Props<Value> {
    [("name", name), ("country", Str(country))] + (if region.Some? then [("region", Str(region.value))] else []) +
      (if city.Some? then [("city", Str(city.value))] else [])
  }

  /** A part of a place that survives the split on `, `. */
  predicate PlacePart(p: string) {
    p != "" && ',' !in p
  }

  lemma {:induction false} TruthyOnlyAppend(a: seq<Value>, b: seq<Value>)
    ensures TruthyOnly(a + b) == TruthyOnly(a) + TruthyOnly(b)
    decreases |a|
  {
    if a == [] {
      assert a + b == b;
    } else {
      assert (a + b)[0] == a[0] && (a + b)[1..] == a[1..] + b;
      TruthyOnlyAppend(a[1..], b);
    }
  }

  /** The members of such an entity. */
  lemma EntityMembers(name: Value, city: Option<string>, region: Option<string>, country: string)
    ensures var e := EntityOf(name, city, region, country);
      Member(e, "name") == name && Member(e, "country") == Str(country) &&
      Member(e, "city") == (if city.Some? then Str(city.value) else Undefined) &&
      Member(e, "region") == (if region.Some? then Str(region.value) else Undefined)
  {
    EntityMember(name, city, region, country, "name");
    EntityMember(name, city, region, country, "city");
    EntityMember(name, city, region, country, "region");
    EntityMember(name, city, region, country, "country");
  }

  lemma EntityMember(name: Value, city: Option<string>, region: Option<string>, country: string, key: string)
    ensures var n := [("name", name)];
      var c := if city.Some? then [("city", Str(city.value))] else [];
      var r := if region.Some? then [("region", Str(region.value))] else [];
      var k := [("country", Str(country))];
      Member(EntityOf(name, city, region, country), key) == Lookup(n + c + r + k, key).GetOr(Undefined) &&
      Lookup(n + c + r + k, key) == (if key == "name" then Some(name) else if Lookup(c, key).Some? then Lookup(c, key)
        else if Lookup(r, key).Some? then Lookup(r, key) else Lookup(k, key))
  {
    var n := [("name", name)];
    var c := if city.Some? then [("city", Str(city.value))] else [];
    var r := if region.Some? then [("region", Str(region.value))] else [];
    var k := [("country", Str(country))];
    LookupAppend(n + c + r, k, key);
    LookupAppend(n + c, r, key);
    LookupAppend(n, c, key);
  }

  lemma PresentParts(x: Value, y: Value, z: Value)
    ensures TruthyOnly([x, y, z]) == TruthyOnly([x]) + TruthyOnly([y]) + TruthyOnly([z])
  {
    assert [x, y, z] == [x] + [y] + [z];
    TruthyOnlyAppend([x] + [y], [z]);
    TruthyOnlyAppend([x], [y]);
  }

  /** The texts of string values are their strings. */
  lemma TextsOfStrings(vs: seq<Value>, ss: seq<string>)
    requires |vs| == |ss| && forall i :: 0 <= i < |vs| ==> vs[i] == Str(ss[i])
    ensures seq(|vs|, i requires 0 <= i < |vs| => ToJsString(vs[i])) == ss
  {
  }

  lemma PlaceOfCountry(country: string)
    requires PlacePart(country)
    ensures PlaceOf(Undefined, Undefined, Str(country)) == Str(Join([country], ", "))
  {
    PresentParts(Undefined, Undefined, Str(country));
    assert TruthyOnly([Undefined]) == [];
    assert TruthyOnly([Str(country)]) == [Str(country)];
    var present := TruthyOnly([Undefined, Undefined, Str(country)]);
    assert present == [Str(country)];
    TextsOfStrings(present, [country]);
  }

  lemma PlaceOfCity(city: string, country: string)
    requires PlacePart(city) && PlacePart(country)
    ensures PlaceOf(Str(city), Undefined, Str(country)) == Str(Join([city, country], ", "))
  {
    PresentParts(Str(city), Undefined, Str(country));
    var present := TruthyOnly([Str(city), Undefined, Str(country)]);
    assert present == [Str(city), Str(country)];
    TextsOfStrings(present, [city, country]);
    PartsJoinNonEmpty([city, country]);
  }

  lemma PlaceOfAll(city: string, region: string, country: string)
    requires PlacePart(city) && PlacePart(region) && PlacePart(country)
    ensures PlaceOf(Str(city), Str(region), Str(country)) == Str(Join([city, region, country], ", "))
  {
    PresentParts(Str(city), Str(region), Str(country));
    assert TruthyOnly([Str(city)]) == [Str(city)];
    assert TruthyOnly([Str(region)]) == [Str(region)];
    assert TruthyOnly([Str(country)]) == [Str(country)];
    var present := TruthyOnly([Str(city), Str(region), Str(country)]);
    assert present == [Str(city), Str(region), Str(country)];
    TextsOfStrings(present, [city, region, country]);
    PartsJoinNonEmpty([city, region, country]);
  }

  /** The parts of a place, in the order they are written. */
  function PlaceParts(city: Option<string>, region: Option<string>, country: string): seq<string> {
    (if city.Some? then [city.value] else []) + (if region.Some? then [region.value] else []) + [country]
  }

  lemma PartsJoinNonEmpty(parts: seq<string>)
    requires |parts| >= 1 && parts[|parts| - 1] != ""
    ensures Join(parts, ", ") != ""
  {
    if |parts| > 1 {
      JoinCons(parts[0], parts[1..], ", ");
      assert [parts[0]] + parts[1..] == parts;
    }
  }

  /** `publisher.toTarget` writes the truthy parts of the place, joined. */
  lemma PublisherText(name: Value, city: Option<string>, region: Option<string>, country: string)
    requires PlacePart(country) && (city.Some? ==> PlacePart(city.value)) && (region.Some? ==> PlacePart(region.value))
    requires region.Some? ==> city.Some?
    ensures PublisherToTarget(EntityOf(name, city, region, country)) == Ok([name, Str(Join(PlaceParts(city, region, country), ", "))])
  {
    EntityMembers(name, city, region, country);
    if city.Some? && region.Some? {
      PlaceOfAll(city.value, region.value, country);
      assert PlaceParts(city, region, country) == [city.value, region.value, country];
    } else if city.Some? {
      PlaceOfCity(city.value, country);
      assert PlaceParts(city, region, country) == [city.value, country];
    } else {
      PlaceOfCountry(country);
      assert PlaceParts(city, region, country) == [country];
    }
  }

  lemma SourceOfCountry(name: Value, country: string)
    requires PlacePart(country)
    ensures PublisherEntity(name, Str(Join([country], ", "))) == Ok([("name", name), ("country", Str(country))])
  {
    SplitJoin([country], ", ");
  }

  lemma SourceOfCity(name: Value, city: string, country: string)
    requires PlacePart(city) && PlacePart(country)
    ensures PublisherEntity(name, Str(Join([city, country], ", "))) == Ok([("name", name), ("country", Str(country)), ("city", Str(city))])
  {
    PartsJoinNonEmpty([city, country]);
    SplitJoin([city, country], ", ");
  }

  lemma SourceOfAll(name: Value, city: string, region: string, country: string)
    requires PlacePart(city) && PlacePart(region) && PlacePart(country)
    ensures PublisherEntity(name, Str(Join([city, region, country], ", ")))
      == Ok([("name", name), ("country", Str(country)), ("region", Str(region)), ("city", Str(city))])
  {
    PartsJoinNonEmpty([city, region, country]);
    SplitJoin([city, region, country], ", ");
  }

  /** `publisher.toSource` reads the parts back from the joined text. */
  lemma PublisherParts(name: Value, city: Option<string>, region: Option<string>, country: string)
    requires PlacePart(country) && (city.Some? ==> PlacePart(city.value)) && (region.Some? ==> PlacePart(region.value))
    requires region.Some? ==> city.Some?
    ensures PublisherEntity(name, Str(Join(PlaceParts(city, region, country), ", "))) == Ok(SourceEntity(name, city, region, country))
  {
    if region.Some? {
      SourceOfAll(name, city.value, region.value, country);
      assert SourceEntity(name, city, region, country) == [("name", name), ("country", Str(country)), ("region", Str(region.value)), ("city", Str(city.value))];
      assert PlaceParts(city, region, country) == [city.value, region.value, country];
    } else if city.Some? {
      SourceOfCity(name, city.value, country);
      assert SourceEntity(name, city, region, country) == [("name", name), ("country", Str(country)), ("city", Str(city.value))];
      assert PlaceParts(city, region, country) == [city.value, country];
    } else {
      SourceOfCountry(name, country);
      assert SourceEntity(name, city, region, country) == [("name", name), ("country", Str(country))];
      assert PlaceParts(city, region, country) == [country];
    }
  }

  /** A place of the form `Country`, `City, Country` or
      `City, Region, Country` is read back into the parts it came from,
      when no part holds a comma. */
  lemma PublisherRoundTrip(name: Value, city: Option<string>, region: Option<string>, country: string)
    requires PlacePart(country)
    requires city.Some? ==> PlacePart(city.value)
    requires region.Some? ==> PlacePart(region.value)
    requires region.Some? ==> city.Some?
    ensures var t := PublisherToTarget(EntityOf(name, city, region, country));
      t.Ok? && PublisherEntity(t.value[0], t.value[1]) == Ok(SourceEntity(name, city, region, country))
  {
    PublisherText(name, city, region, country);
    PublisherParts(name, city, region, country);
  }

  /** A place of two parts reads as city and country, so a region given
      without a city comes back as the city. */
  lemma RegionWithoutCity(name: Value)
    ensures PublisherEntity(name, Str("Bavaria, Germany")) == Ok([("name", name), ("country", Str("Germany")), ("city", Str("Bavaria"))])
  {
    BavariaGermany();
    SourceOfCity(name, "Bavaria", "Germany");
  }

  lemma BavariaGermany()
    ensures PlacePart("Bavaria") && PlacePart("Germany")
    ensures Join(["Bavaria", "Germany"], ", ") == "Bavaria, Germany"
  {
    JoinCons("Bavaria", ["Germany"], ", ");
  }

  // ---------------------------------------------------------------------
  // Identifiers

  /** A value kept only when truthy. */
  function Present(v: Value): Value {
    if Truthy(v) then v else Undefined
  }

  /** A string identifier value, or nothing. */
  predicate Textual(v: Value) {
    !Truthy(v) || v.Str?
  }

  lemma LastWriteSnoc(ids: seq<Identifier>, x: Identifier, k: nat, doi: Value, url: Value)
    ensures LastWrite(ids + [x], k, doi, url) == match WriteOf(x, k, doi, url) case Some(v) => v case None => LastWrite(ids, k, doi, url)
  {
    assert (ids + [x])[..|ids|] == ids;
  }

  /** A value written with one of the four prefixes starts with that
      prefix and with none of the other three. */
  lemma PrefixStarts(prefix: string, s: string, q: string)
    requires prefix in [TypeIsbn, TypeIssn, TypePmcid, TypePmid] && q in [TypeIsbn, TypeIssn, TypePmcid, TypePmid]
    ensures StartsWith(prefix + s, q) <==> prefix == q
  {
    var v := prefix + s;
    if prefix == q {
      assert v[..|prefix|] == prefix;
    } else {
      var d := if prefix[0] != q[0] then 0 else if prefix[0] == 'u' then 6 else 2;
      assert d < |prefix| && d < |q| && prefix[d] != q[d];
      assert v[d] == prefix[d];
      assert |q| <= |v| ==> v[..|q|][d] == v[d];
    }
  }

  /** A prefixed `other` identifier writes its own slot only, without the
      prefix. */
  lemma PrefixedWrite(prefix: string, s: string, k: nat, doi: Value, url: Value)
    requires prefix in [TypeIsbn, TypeIssn, TypePmcid, TypePmid]
    ensures var slot := if prefix == TypeIsbn then 1 else if prefix == TypeIssn then 2 else if prefix == TypePmcid then 3 else 4;
      WriteOf((Str("other"), Str(prefix + s)), k, doi, url) == if k == slot then Some(Str(s)) else None
  {
    var v := prefix + s;
    assert v[|prefix|..] == s;
    PrefixStarts(prefix, s, TypeIsbn);
    PrefixStarts(prefix, s, TypeIssn);
    PrefixStarts(prefix, s, TypePmcid);
    PrefixStarts(prefix, s, TypePmid);
  }

  /** The kinds of block `IdentifiersToSource` is made of: a DOI or URL as
      it is, or a string after one of the four prefixes. */
  predicate Block(t: string, prefix: string, v: Value) {
    ((t == "doi" || t == "url") && prefix == "") ||
    (t == "other" && prefix in [TypeIsbn, TypeIssn, TypePmcid, TypePmid] && Textual(v))
  }

  /** What one block of `IdentifiersToSource` writes into slot `k`. */
  lemma BlockWrite(v: Value, t: string, prefix: string, k: nat, doi: Value, url: Value)
    requires Block(t, prefix, v)
    requires Truthy(v)
    ensures var slot := if t == "doi" then 0 else if t == "url" then 5 else if prefix == TypeIsbn then 1 else if prefix == TypeIssn then 2 else if prefix == TypePmcid then 3 else 4;
      var guard := if t == "doi" then !Truthy(doi) else if t == "url" then !Truthy(url) else true;
      |IdentifierIf(v, t, prefix)| == 1 &&
      WriteOf(IdentifierIf(v, t, prefix)[0], k, doi, url) == if k == slot && guard then Some(v) else None
  {
    if t == "other" {
      PrefixedWrite(prefix, v.s, k, doi, url);
    }
  }

  /** Slot `k` after one more block: the block's value when it writes
      there, else what was there. */
  lemma BlockStep(ids: seq<Identifier>, v: Value, t: string, prefix: string, k: nat, doi: Value, url: Value)
    requires Block(t, prefix, v)
    ensures var slot := if t == "doi" then 0 else if t == "url" then 5 else if prefix == TypeIsbn then 1 else if prefix == TypeIssn then 2 else if prefix == TypePmcid then 3 else 4;
      var guard := if t == "doi" then !Truthy(doi) else if t == "url" then !Truthy(url) else true;
      LastWrite(ids + IdentifierIf(v, t, prefix), k, doi, url) ==
        if k == slot && guard && Truthy(v) then v else LastWrite(ids, k, doi, url)
  {
    if Truthy(v) {
      BlockWrite(v, t, prefix, k, doi, url);
      LastWriteSnoc(ids, IdentifierIf(v, t, prefix)[0], k, doi, url);
      assert IdentifierIf(v, t, prefix) == [IdentifierIf(v, t, prefix)[0]];
    } else {
      assert ids + IdentifierIf(v, t, prefix) == ids;
    }
  }

  /** No identifier `IdentifiersToSource` writes makes `startsWith` throw. */
  lemma SourceReadable(doi: Value, isbn: Value, issn: Value, pmcid: Value, pmid: Value, url: Value)
    ensures forall i :: 0 <= i < |IdentifiersToSource(doi, isbn, issn, pmcid, pmid, url)| ==>
      !Unreadable(IdentifiersToSource(doi, isbn, issn, pmcid, pmid, url)[i])
  {
  }

  /** The slot `k` identifiers written from these fields are read back
      into: DOI, ISBN, ISSN, PMCID, PMID, URL. */
  function ExpectedSlot(doi: Value, isbn: Value, issn: Value, pmcid: Value, pmid: Value, url: Value, doiField: Value, urlField: Value, k: nat): Value {
    if k == 0 then (if Truthy(doiField) then Undefined else Present(doi))
    else if k == 1 then Present(isbn)
    else if k == 2 then Present(issn)
    else if k == 3 then Present(pmcid)
    else if k == 4 then Present(pmid)
    else if k == 5 then (if Truthy(urlField) then Undefined else Present(url))
    else Undefined
  }

  /** `IdentifiersToSource` is its six blocks, one after the other. */
  lemma SourceBlocks(doi: Value, isbn: Value, issn: Value, pmcid: Value, pmid: Value, url: Value)
    ensures IdentifiersToSource(doi, isbn, issn, pmcid, pmid, url) ==
      IdentifierIf(doi, "doi", "") + IdentifierIf(url, "url", "") + IdentifierIf(isbn, "other", TypeIsbn) +
      IdentifierIf(issn, "other", TypeIssn) + IdentifierIf(pmcid, "other", TypePmcid) + IdentifierIf(pmid, "other", TypePmid)
  {
  }

  /** The six block steps of `IdentifiersToSource` for slot `k`. */
  lemma Blocks(doi: Value, isbn: Value, issn: Value, pmcid: Value, pmid: Value, url: Value, doiField: Value, urlField: Value, k: nat)
    requires Textual(isbn) && Textual(issn) && Textual(pmcid) && Textual(pmid)
    ensures var b1 := IdentifierIf(doi, "doi", "");
      var b2 := b1 + IdentifierIf(url, "url", "");
      var b3 := b2 + IdentifierIf(isbn, "other", TypeIsbn);
      var b4 := b3 + IdentifierIf(issn, "other", TypeIssn);
      var b5 := b4 + IdentifierIf(pmcid, "other", TypePmcid);
      var b6 := b5 + IdentifierIf(pmid, "other", TypePmid);
      LastWrite(b1, k, doiField, urlField) == (if k == 0 && !Truthy(doiField) && Truthy(doi) then doi else Undefined) &&
      LastWrite(b2, k, doiField, urlField) == (if k == 5 && !Truthy(urlField) && Truthy(url) then url else LastWrite(b1, k, doiField, urlField)) &&
      LastWrite(b3, k, doiField, urlField) == (if k == 1 && Truthy(isbn) then isbn else LastWrite(b2, k, doiField, urlField)) &&
      LastWrite(b4, k, doiField, urlField) == (if k == 2 && Truthy(issn) then issn else LastWrite(b3, k, doiField, urlField)) &&
      LastWrite(b5, k, doiField, urlField) == (if k == 3 && Truthy(pmcid) then pmcid else LastWrite(b4, k, doiField, urlField)) &&
      LastWrite(b6, k, doiField, urlField) == (if k == 4 && Truthy(pmid) then pmid else LastWrite(b5, k, doiField, urlField))
  {
    var b1 := IdentifierIf(doi, "doi", "");
    var b2 := b1 + IdentifierIf(url, "url", "");
    var b3 := b2 + IdentifierIf(isbn, "other", TypeIsbn);
    var b4 := b3 + IdentifierIf(issn, "other", TypeIssn);
    var b5 := b4 + IdentifierIf(pmcid, "other", TypePmcid);
    BlockStep([], doi, "doi", "", k, doiField, urlField);
    assert [] + IdentifierIf(doi, "doi", "") == b1;
    BlockStep(b1, url, "url", "", k, doiField, urlField);
    BlockStep(b2, isbn, "other", TypeIsbn, k, doiField, urlField);
    BlockStep(b3, issn, "other", TypeIssn, k, doiField, urlField);
    BlockStep(b4, pmcid, "other", TypePmcid, k, doiField, urlField);
    BlockStep(b5, pmid, "other", TypePmid, k, doiField, urlField);
  }

  /** Slot 0: the DOI comes back in its slot unless the entry has its own doi field. */
  lemma DoiSlotRoundTrip(doi: Value, isbn: Value, issn: Value, pmcid: Value, pmid: Value, url: Value, doiField: Value, urlField: Value)
    requires Textual(isbn) && Textual(issn) && Textual(pmcid) && Textual(pmid)
    ensures LastWrite(IdentifiersToSource(doi, isbn, issn, pmcid, pmid, url), 0, doiField, urlField) ==
      ExpectedSlot(doi, isbn, issn, pmcid, pmid, url, doiField, urlField, 0)
  {
    SourceBlocks(doi, isbn, issn, pmcid, pmid, url);
    Blocks(doi, isbn, issn, pmcid, pmid, url, doiField, urlField, 0);
  }

  /** Slot 1: the ISBN comes back without its prefix. */
  lemma IsbnSlotRoundTrip(doi: Value, isbn: Value, issn: Value, pmcid: Value, pmid: Value, url: Value, doiField: Value, urlField: Value)
    requires Textual(isbn) && Textual(issn) && Textual(pmcid) && Textual(pmid)
    ensures LastWrite(IdentifiersToSource(doi, isbn, issn, pmcid, pmid, url), 1, doiField, urlField) ==
      ExpectedSlot(doi, isbn, issn, pmcid, pmid, url, doiField, urlField, 1)
  {
    SourceBlocks(doi, isbn, issn, pmcid, pmid, url);
    Blocks(doi, isbn, issn, pmcid, pmid, url, doiField, urlField, 1);
  }

  /** Slot 2: the ISSN comes back without its prefix. */
  lemma IssnSlotRoundTrip(doi: Value, isbn: Value, issn: Value, pmcid: Value, pmid: Value, url: Value, doiField: Value, urlField: Value)
    requires Textual(isbn) && Textual(issn) && Textual(pmcid) && Textual(pmid)
    ensures LastWrite(IdentifiersToSource(doi, isbn, issn, pmcid, pmid, url), 2, doiField, urlField) ==
      ExpectedSlot(doi, isbn, issn, pmcid, pmid, url, doiField, urlField, 2)
  {
    SourceBlocks(doi, isbn, issn, pmcid, pmid, url);
    Blocks(doi, isbn, issn, pmcid, pmid, url, doiField, urlField, 2);
  }

  /** Slot 3: the PMCID comes back without its prefix. */
  lemma PmcidSlotRoundTrip(doi: Value, isbn: Value, issn: Value, pmcid: Value, pmid: Value, url: Value, doiField: Value, urlField: Value)
    requires Textual(isbn) && Textual(issn) && Textual(pmcid) && Textual(pmid)
    ensures LastWrite(IdentifiersToSource(doi, isbn, issn, pmcid, pmid, url), 3, doiField, urlField) ==
      ExpectedSlot(doi, isbn, issn, pmcid, pmid, url, doiField, urlField, 3)
  {
    SourceBlocks(doi, isbn, issn, pmcid, pmid, url);
    Blocks(doi, isbn, issn, pmcid, pmid, url, doiField, urlField, 3);
  }

  /** Slot 4: the PMID comes back without its prefix. */
  lemma PmidSlotRoundTrip(doi: Value, isbn: Value, issn: Value, pmcid: Value, pmid: Value, url: Value, doiField: Value, urlField: Value)
    requires Textual(isbn) && Textual(issn) && Textual(pmcid) && Textual(pmid)
    ensures LastWrite(IdentifiersToSource(doi, isbn, issn, pmcid, pmid, url), 4, doiField, urlField) ==
      ExpectedSlot(doi, isbn, issn, pmcid, pmid, url, doiField, urlField, 4)
  {
    SourceBlocks(doi, isbn, issn, pmcid, pmid, url);
    Blocks(doi, isbn, issn, pmcid, pmid, url, doiField, urlField, 4);
  }

  /** Slot 5: the URL comes back in its slot unless the entry has its own url field. */
  lemma UrlSlotRoundTrip(doi: Value, isbn: Value, issn: Value, pmcid: Value, pmid: Value, url: Value, doiField: Value, urlField: Value)
    requires Textual(isbn) && Textual(issn) && Textual(pmcid) && Textual(pmid)
    ensures LastWrite(IdentifiersToSource(doi, isbn, issn, pmcid, pmid, url), 5, doiField, urlField) ==
      ExpectedSlot(doi, isbn, issn, pmcid, pmid, url, doiField, urlField, 5)
  {
    SourceBlocks(doi, isbn, issn, pmcid, pmid, url);
    Blocks(doi, isbn, issn, pmcid, pmid, url, doiField, urlField, 5);
  }

  /** Identifiers written to CFF and read back fill the slots they came
      from, the DOI and URL slots only when the entry has no `doi` or `url`
      field of its own. */
  lemma IdentifiersRoundTrip(doi: Value, isbn: Value, issn: Value, pmcid: Value, pmid: Value, url: Value, doiField: Value, urlField: Value)
    requires Textual(isbn) && Textual(issn) && Textual(pmcid) && Textual(pmid)
    ensures var slots := Slots(IdentifiersToSource(doi, isbn, issn, pmcid, pmid, url), doiField, urlField);
      forall k :: 0 <= k < 6 ==> slots[k] == ExpectedSlot(doi, isbn, issn, pmcid, pmid, url, doiField, urlField, k)
  {
    forall k | 0 <= k < 6
      ensures LastWrite(IdentifiersToSource(doi, isbn, issn, pmcid, pmid, url), k, doiField, urlField) ==
        ExpectedSlot(doi, isbn, issn, pmcid, pmid, url, doiField, urlField, k)
    {
      if k == 0 {
        DoiSlotRoundTrip(doi, isbn, issn, pmcid, pmid, url, doiField, urlField);
      } else if k == 1 {
        IsbnSlotRoundTrip(doi, isbn, issn, pmcid, pmid, url, doiField, urlField);
      } else if k == 2 {
        IssnSlotRoundTrip(doi, isbn, issn, pmcid, pmid, url, doiField, urlField);
      } else if k == 3 {
        PmcidSlotRoundTrip(doi, isbn, issn, pmcid, pmid, url, doiField, urlField);
      } else if k == 4 {
        PmidSlotRoundTrip(doi, isbn, issn, pmcid, pmid, url, doiField, urlField);
      } else {
        UrlSlotRoundTrip(doi, isbn, issn, pmcid, pmid, url, doiField, urlField);
      }
    }
  }

  // ---------------------------------------------------------------------
  // Keywords

  /** Keywords joined for CSL and split again are the same keywords when
      none holds a comma and none after the first starts with white space. */
  lemma {:induction false} KeywordsRoundTrip(keywords: seq<string>)
    requires |keywords| >= 1
    requires forall i :: 0 <= i < |keywords| ==> ',' !in keywords[i]
    requires forall i :: 1 <= i < |keywords| ==> keywords[i] == [] || !IsSpace(keywords[i][0])
    ensures KeywordsToSource(KeywordsToTarget(keywords)) == keywords
    decreases |keywords|
  {
    var p := keywords[0];
    if |keywords| == 1 {
      assert IndexOfChar(p, ',') == -1;
    } else {
      var rest := keywords[1..];
      assert [p] + rest == keywords;
      JoinCons(p, rest, ",");
      var x := Join(rest, ",");
      FirstSeparator(p, ',', x);
      var s := p + [','] + x;
      assert s[..|p|] == p;
      KeywordsRoundTrip(rest);
      assert x == [] || !IsSpace(x[0]) by {
        if |rest| == 1 {
          assert x == rest[0];
        } else {
          JoinCons(rest[0], rest[1..], ",");
          assert [rest[0]] + rest[1..] == rest;
          if rest[0] == [] {
            assert x[0] == ',';
          } else {
            assert x[0] == rest[0][0];
          }
        }
      }
      assert SpaceEndFrom(s, |p| + 1) == |p| + 1;
      assert s[|p| + 1..] == x;
    }
  }

  /** The keyword list of any text is already in the form that survives a
      trip to CSL and back. */
  lemma KeywordsStable(text: string)
    ensures KeywordsToSource(KeywordsToTarget(KeywordsToSource(text))) == KeywordsToSource(text)
  {
    KeywordsRoundTrip(KeywordsToSource(text));
  }

  // ---------------------------------------------------------------------
  // Pages

  /** A start and an end page go to `start-end` and back, when neither holds
      a dash. */
  lemma PagesRoundTrip(start: string, end: string)
    requires '-' !in start && '-' !in end && end != ""
    ensures PagesToTarget(Str(start), Str(end)) == Str(start + "-" + end)
    ensures PagesToSource(start + "-" + end) == [start, end]
  {
    SplitJoinChar([start, end], '-');
    assert Join([start, end], "-") == start + "-" + end;
  }

  /** A start page without an end stays as it is, and comes back alone. */
  lemma StartPageRoundTrip(start: string, end: Value)
    requires '-' !in start && !Truthy(end)
    ensures PagesToTarget(Str(start), end) == Str(start)
    ensures PagesToSource(start) == [start]
  {
    SplitJoinChar([start], '-');
  }

  // ---------------------------------------------------------------------
  // Year and month

  /** A year and month read into CSL and written back are the same, a
      missing month coming back as `undefined`. */
  lemma YearMonthRoundTrip(year: Value, month: Value)
    ensures YearMonthToSource(YearMonthToTarget(year, month)) == Ok((year, Present(month)))
  {
  }

  /** An original year goes to CSL and back unchanged. */
  lemma OriginalYearRoundTrip(year: Value)
    ensures OriginalYearToSource(OriginalYearToTarget(year)) == Ok(year)
  {
  }

  // ---------------------------------------------------------------------
  // addId

  /** No occurrence of `sub` in `p + x` starts inside `p` when `p` holds
      no `h` after its first character and `sub` starts with `h` and does
      not occur at 0. */
  lemma NoSchemeAt(p: string, x: string, sub: string)
    requires |sub| > 0 && sub[0] == 'h' && |p| >= 1
    requires forall i :: 1 <= i < |p| ==> p[i] != 'h'
    requires !OccursAt(p + x, sub, 0)
    requires IndexOf(x, sub) == -1
    ensures IndexOf(p + x, sub) == -1
  {
    var s := p + x;
    IndexOfFirst(x, sub);
    forall i: nat ensures !OccursAt(s, sub, i) {
      if i + |sub| <= |s| {
        if i < |p| {
          assert s[i..i + |sub|][0] == s[i] == p[i];
        } else {
          assert s[i..i + |sub|] == x[i - |p|..i - |p| + |sub|];
          assert !OccursAt(x, sub, i - |p|);
        }
      }
    }
    IndexOfFirst(s, sub);
  }

  /** The id of a web address is the address without its `https://` or
      `http://` scheme. */
  lemma UrlIdStripsScheme(rest: string)
    requires IndexOf(rest, "http://") == -1 && IndexOf(rest, "https://") == -1
    ensures UrlId("https://" + rest) == rest
    ensures UrlId("http://" + rest) == rest
  {
    var s := "https://" + rest;
    assert s[0..7][4] == 's' && "http://"[4] == ':';
    NoSchemeAt("https://", rest, "http://");
    assert ReplaceFirst(s, "http://", "") == s;
    assert OccursAt(s, "https://", 0) by { assert s[..8] == "https://"; }
    IndexOfAt(s, "https://", 0);
    assert s[8..] == rest;
    var h := "http://" + rest;
    assert OccursAt(h, "http://", 0) by { assert h[..7] == "http://"; }
    IndexOfAt(h, "http://", 0);
    assert h[7..] == rest;
  }

  // ---------------------------------------------------------------------
  // parse

  /** What `parse` gives: the main entry first, flagged as the main
      reference and of type `software` for CFF 1.1.0 and earlier, then the
      preferred citation when there is one, then one entry per reference,
      in order. */
  lemma ParseShape(input: Value, mainToTarget: Value -> Props<Value>, refToTarget: Value -> Props<Value>)
    requires Parse(input, mainToTarget, refToTarget).Ok?
    ensures var out := Parse(input, mainToTarget, refToTarget).value;
      var refs := References(input, refToTarget);
      var pc := if Truthy(Member(input, "preferred-citation")) then 1 else 0;
      |out| == 1 + pc + |refs| &&
      Get(out[0], "_cff_mainReference") == Some(Bool(true)) &&
      (OldVersion(Member(input, "cff-version")) ==> Get(out[0], "type") == Some(Str("software"))) &&
      out[1 + pc..] == refs
  {
    var out := Parse(input, mainToTarget, refToTarget).value;
    var main := AddId(MainEntry(input, mainToTarget)).value;
    assert out[0] == main;
    var refs := References(input, refToTarget);
    if Truthy(Member(input, "preferred-citation")) {
      var p := AddId(refToTarget(Member(input, "preferred-citation"))).value;
      assert out == [main, p] + refs;
      assert out[2..] == refs;
    } else {
      assert out == [main] + refs;
      assert out[1..] == refs;
    }
  }

  /** `parse` throws exactly when `addId` throws on the main entry or on the
      preferred citation. */
  lemma ParseThrows(input: Value, mainToTarget: Value -> Props<Value>, refToTarget: Value -> Props<Value>)
    ensures Parse(input, mainToTarget, refToTarget).Err? <==>
      AddId(MainEntry(input, mainToTarget)).Err? ||
      (Truthy(Member(input, "preferred-citation")) && AddId(refToTarget(Member(input, "preferred-citation"))).Err?)
  {
  }

  /** The main entry of a document with a DOI is cited by its DOI. */
  lemma ParseMainId(input: Value, mainToTarget: Value -> Props<Value>, refToTarget: Value -> Props<Value>)
    requires Has(mainToTarget(input), "DOI")
    requires Parse(input, mainToTarget, refToTarget).Ok?
    ensures Get(Parse(input, mainToTarget, refToTarget).value[0], "id") == Get(mainToTarget(input), "DOI")
  {
    var main := MainEntry(input, mainToTarget);
    assert Get(main, "DOI") == Get(mainToTarget(input), "DOI");
    assert Parse(input, mainToTarget, refToTarget).value[0] == AddId(main).value;
  }

  // ---------------------------------------------------------------------
  // format

  /** Every entry is either the preferred citation, the main reference or
      one of the references: none is lost and none is doubled. */
  lemma FormatKeepsEntries(input: seq<Props<Value>>, options: Options)
    ensures var p := PreferredAt(input, options);
      var rest := AfterPreferred(input, options);
      var taken := (if p >= 0 then [input[p]] else []) + (if rest != [] then [rest[MainAt(rest, options)]] else []);
      multiset(Leftover(input, options)) + multiset(taken) == multiset(input)
  {
  }

  /** The version rules: a preferred citation is taken out only from CFF
      1.2.0 on, and before that the type is removed from the document. */
  lemma FormatVersionRules(input: seq<Props<Value>>, options: Options,
                           mainToSource: Props<Value> -> Props<Value>, refToSource: Props<Value> -> Props<Value>)
    requires forall e :: Distinct(mainToSource(e))
    requires StrLess(options.cffVersion, "1.2.0")
    ensures PreferredAt(input, options) == -1
    ensures !Has(Formatted(input, options, mainToSource, refToSource), "type")
  {
    var rest := AfterPreferred(input, options);
    var mainRef := if rest != [] then mainToSource(rest[MainAt(rest, options)]) else [];
    var noType := Delete(mainRef, "type");
    DeleteGet(mainRef, "type", "type");
    var head: Props<Value> := [("cff-version", Str(options.cffVersion)), ("message", Str(options.message))];
    AssignGet(head, noType, "type");
    var cff := Assign(head, noType);
    var left := Leftover(input, options);
    var refs := Converted(left, refToSource);
    SetAllGet(cff, "references", Arr(seq(|refs|, i requires 0 <= i < |refs| => Obj(refs[i]))));
  }

  /** The preferred citation and the references of a document built from
      its parts. */
  lemma DocumentGet(options: Options, mainRef: Props<Value>, preferred: Option<Props<Value>>, refs: seq<Props<Value>>)
    ensures refs != [] ==> Get(Document(options, mainRef, preferred, refs), "references") == Some(Arr(seq(|refs|, i requires 0 <= i < |refs| => Obj(refs[i]))))
    ensures preferred.Some? ==> Get(Document(options, mainRef, preferred, refs), "preferred-citation") == Some(Obj(preferred.value))
  {
    var cff := Assign([("cff-version", Str(options.cffVersion)), ("message", Str(options.message))], mainRef);
    if preferred.Some? {
      SetAllGet(cff, "preferred-citation", Obj(preferred.value));
    }
    var cff2 := if preferred.Some? then Set(cff, "preferred-citation", Obj(preferred.value)) else cff;
    SetAllGet(cff2, "references", Arr(seq(|refs|, i requires 0 <= i < |refs| => Obj(refs[i]))));
  }

  /** The preferred citation and the references of the document. */
  lemma FormatParts(input: seq<Props<Value>>, options: Options,
                    mainToSource: Props<Value> -> Props<Value>, refToSource: Props<Value> -> Props<Value>)
    ensures var cff := Formatted(input, options, mainToSource, refToSource);
      var p := PreferredAt(input, options);
      var left := Leftover(input, options);
      (left != [] ==> Get(cff, "references") == Some(Arr(seq(|left|, i requires 0 <= i < |left| => Obj(refToSource(left[i])))))) &&
      (p >= 0 ==> Get(cff, "preferred-citation") == Some(Obj(refToSource(input[p]))))
  {
    var p := PreferredAt(input, options);
    var rest := AfterPreferred(input, options);
    var mainRef := if rest != [] then mainToSource(rest[MainAt(rest, options)]) else [];
    var mainRef2 := if StrLess(options.cffVersion, "1.2.0") then Delete(mainRef, "type") else mainRef;
    var left := Leftover(input, options);
    var refs := Converted(left, refToSource);
    var preferred := if p >= 0 then Some(refToSource(input[p])) else None;
    assert Formatted(input, options, mainToSource, refToSource) == Document(options, mainRef2, preferred, refs);
    DocumentGet(options, mainRef2, preferred, refs);
    ConvertedObjects(left, refToSource);
  }

  lemma ConvertedObjects(es: seq<Props<Value>>, convert: Props<Value> -> Props<Value>)
    ensures var refs := Converted(es, convert);
      seq(|refs|, i requires 0 <= i < |refs| => Obj(refs[i])) == seq(|es|, i requires 0 <= i < |es| => Obj(convert(es[i])))
  {
  }

  /** `format` with no options after `parse`: the main entry is the first
      one again, nothing is taken as preferred, and every other entry, the
      preferred citation included, becomes a reference in order. */
  lemma ParseThenFormat(input: Value, mainToTarget: Value -> Props<Value>, refToTarget: Value -> Props<Value>)
    requires Parse(input, mainToTarget, refToTarget).Ok?
    ensures var out := Parse(input, mainToTarget, refToTarget).value;
      PreferredAt(out, DefaultOptions()) == -1 &&
      AfterPreferred(out, DefaultOptions()) == out &&
      MainAt(out, DefaultOptions()) == 0 &&
      Leftover(out, DefaultOptions()) == out[1..]
  {
    ParseShape(input, mainToTarget, refToTarget);
    var out := Parse(input, mainToTarget, refToTarget).value;
    NoPreferredByDefault(out);
    MainFirstByDefault(out);
  }

  /** With no options nothing is taken as the preferred citation. */
  lemma NoPreferredByDefault(es: seq<Props<Value>>)
    ensures PreferredAt(es, DefaultOptions()) == -1 && AfterPreferred(es, DefaultOptions()) == es
  {
    assert !Truthy(DefaultOptions().preferred);
  }

  /** With no options an entry flagged as the main reference is the main
      entry when it comes first, and the rest become the references. */
  lemma MainFirstByDefault(es: seq<Props<Value>>)
    requires es != [] && Get(es[0], "_cff_mainReference") == Some(Bool(true))
    ensures MainAt(es, DefaultOptions()) == 0
    ensures AfterPreferred(es, DefaultOptions()) == es ==> Leftover(es, DefaultOptions()) == es[1..]
  {
    assert IsMain(Undefined)(es[0]);
    assert es[..0] + es[1..] == es[1..];
  }
}
