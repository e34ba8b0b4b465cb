// Properties of validation and of value parsing: `validate` throws exactly
// when some entry has an unknown type or lacks a required field, one line
// per such entry in entry order; non-strict parsing ignores the
// requirements; empty values are dropped, every field is parsed with the
// language parsed before the loop or re-parsed in it, and annotations land
// under their `field+an:name` keys.

module BibtexEntriesProps {
  import opened Base
  import opened JsObject
  import opened JsValue
  import opened BibtexFile
  import opened BibtexEntries

  // ---------------------------------------------------------------------
  // validate

  /** An entry `validate` accepts: its type has requirements and it meets
      every one of them. */
  predicate Valid(e: BibEntry, requirements: Props<seq<Requirement>>) {
    Has(requirements, e.entryType) &&
    var reqs := Get(requirements, e.entryType).value;
    forall i :: 0 <= i < |reqs| ==> Met(reqs[i], e.properties)
  }

  /** Nothing is missing exactly when every requirement is met. */
  lemma {:induction false} MissingEmpty(reqs: seq<Requirement>, props: Props<Value>)
    ensures Missing(reqs, props) == [] <==> forall i :: 0 <= i < |reqs| ==> Met(reqs[i], props)
    decreases |reqs|
  {
    if reqs != [] {
      var n := |reqs| - 1;
      var init := reqs[..n];
      MissingEmpty(init, props);
      var last := if Met(reqs[n], props) then [] else [RequirementName(reqs[n])];
      assert Missing(reqs, props) == Missing(init, props) + last;
      assert Missing(reqs, props) == [] <==> Missing(init, props) == [] && Met(reqs[n], props);
      assert forall i :: 0 <= i < n ==> init[i] == reqs[i];
    }
  }

  /** An entry has no problem exactly when it is valid. */
  lemma ProblemOfValid(e: BibEntry, requirements: Props<seq<Requirement>>)
    ensures ProblemOf(e, requirements).None? <==> Valid(e, requirements)
  {
    if Has(requirements, e.entryType) {
      MissingEmpty(Get(requirements, e.entryType).value, e.properties);
    }
  }

  /** There is no problem exactly when every entry is valid. */
  lemma {:induction false} ProblemsEmpty(es: seq<BibEntry>, requirements: Props<seq<Requirement>>)
    ensures Problems(es, requirements) == [] <==> forall i :: 0 <= i < |es| ==> Valid(es[i], requirements)
    decreases |es|
  {
    if es != [] {
      var n := |es| - 1;
      var init := es[..n];
      ProblemsEmpty(init, requirements);
      ProblemOfValid(es[n], requirements);
      var last := match ProblemOf(es[n], requirements) case None => [] case Some(p) => [p];
      assert Problems(es, requirements) == Problems(init, requirements) + last;
      assert Problems(es, requirements) == [] <==> Problems(init, requirements) == [] && Valid(es[n], requirements);
      assert forall i :: 0 <= i < n ==> init[i] == es[i];
    }
  }

  /** `validate` throws exactly when some entry is not valid. */
  lemma ValidateThrows(es: seq<BibEntry>, requirements: Props<seq<Requirement>>)
    ensures ValidationError(es, requirements).Some? <==> exists i :: 0 <= i < |es| && !Valid(es[i], requirements)
  {
    ProblemsEmpty(es, requirements);
  }

  /** The problems of two runs of entries are those of the first, then
      those of the second. */
  lemma {:induction false} ProblemsAppend(a: seq<BibEntry>, b: seq<BibEntry>, requirements: Props<seq<Requirement>>)
    ensures Problems(a + b, requirements) == Problems(a, requirements) + Problems(b, requirements)
    decreases |b|
  {
    if b != [] {
      var n := |b| - 1;
      var ab := a + b;
      assert ab[..|ab| - 1] == a + b[..n];
      assert ab[|ab| - 1] == b[n];
      ProblemsAppend(a, b[..n], requirements);
      var last := match ProblemOf(b[n], requirements) case None => [] case Some(p) => [p];
      assert Problems(ab, requirements) == Problems(a + b[..n], requirements) + last;
      assert Problems(b, requirements) == Problems(b[..n], requirements) + last;
    } else {
      assert a + b == a;
    }
  }

  /** The problem of an entry is reported after those of the entries before
      it and before those of the entries after it. */
  lemma ProblemInOrder(es: seq<BibEntry>, requirements: Props<seq<Requirement>>, i: nat)
    requires i < |es| && ProblemOf(es[i], requirements).Some?
    ensures Problems(es, requirements) ==
      Problems(es[..i], requirements) + [ProblemOf(es[i], requirements).value] + Problems(es[i + 1..], requirements)
  {
    assert es == es[..i] + [es[i]] + es[i + 1..];
    ProblemsAppend(es[..i] + [es[i]], es[i + 1..], requirements);
    ProblemsAppend(es[..i], [es[i]], requirements);
    assert [es[i]][..0] == [];
  }

  /** An entry whose type has no requirements is reported as such. */
  lemma InvalidType(es: seq<BibEntry>, requirements: Props<seq<Requirement>>, i: nat)
    requires i < |es| && !Has(requirements, es[i].entryType)
    ensures (es[i].entryLabel, "invalid type: \"" + es[i].entryType + "\"") in Problems(es, requirements)
  {
    ProblemInOrder(es, requirements, i);
  }

  /** One missing alternative is reported with its names joined by `/`. */
  lemma MissingAlternatives(fs: seq<string>, props: Props<Value>)
    requires forall i :: 0 <= i < |fs| ==> !Has(props, fs[i])
    ensures Missing([AnyOf(fs)], props) == [Join(fs, "/")]
  {
    assert [AnyOf(fs)][..0] == [];
  }

  /** The message is the heading, then one line per problem, when no label
      or problem holds a line break. */
  lemma MessageLines(problems: seq<(string, string)>)
    requires forall i :: 0 <= i < |problems| ==> '\n' !in problems[i].0 && '\n' !in problems[i].1
    ensures Split(Message(problems), "\n") == ["Invalid entries:"] + Lines(problems)
  {
    var lines := ["Invalid entries:"] + Lines(problems);
    forall k | 0 <= k < |lines| ensures '\n' !in lines[k] {
      if k > 0 {
        assert lines[k] == "  - " + problems[k - 1].0 + " has " + problems[k - 1].1;
      }
    }
    SplitJoinChar(lines, '\n');
  }

  /** Without strict mode the requirements play no part. */
  lemma NonStrictIgnoresRequirements(es: seq<BibEntry>, r1: Props<seq<Requirement>>, r2: Props<seq<Requirement>>,
                                     parseValue: (Value, string, Value) -> Value, parseAnnotation: Value -> Value,
                                     reading: Reading, toTarget: Props<Value> -> Value)
    ensures Parse(es, false, r1, parseValue, parseAnnotation, reading, toTarget) == Parse(es, false, r2, parseValue, parseAnnotation, reading, toTarget)
  {
  }

  /** In strict mode an entry that is not valid stops the parse with the
      validation error; when every entry is valid the parse is the
      non-strict one. */
  lemma StrictGate(es: seq<BibEntry>, requirements: Props<seq<Requirement>>,
                   parseValue: (Value, string, Value) -> Value, parseAnnotation: Value -> Value,
                   reading: Reading, toTarget: Props<Value> -> Value)
    ensures (exists i :: 0 <= i < |es| && !Valid(es[i], requirements)) ==>
      Parse(es, true, requirements, parseValue, parseAnnotation, reading, toTarget) == Err("RangeError: " + Message(Problems(es, requirements)))
    ensures (forall i :: 0 <= i < |es| ==> Valid(es[i], requirements)) ==>
      Parse(es, true, requirements, parseValue, parseAnnotation, reading, toTarget) == Parse(es, false, requirements, parseValue, parseAnnotation, reading, toTarget)
  {
    ValidateThrows(es, requirements);
  }

  // ---------------------------------------------------------------------
  // parseEntryValues: the field loop

  /** A run of distinct fields holds a key only at its own index. */
  lemma SliceLacks(props: Props<Value>, k: string, lo: nat, hi: nat)
    requires lo <= hi <= |props|
    requires forall j :: lo <= j < hi ==> props[j].0 != k
    ensures !Has(props[lo..hi], k)
  {
    var s := props[lo..hi];
    forall j | 0 <= j < |s| ensures s[j].0 != k {
      assert s[j] == props[lo + j];
    }
  }

  /** The loop over two runs of fields is the loop over the first, then over
      the second. */
  lemma {:induction false} FieldsAppend(a: Props<Value>, b: Props<Value>, out: Props<Value>, parseValue: (Value, string, Value) -> Value)
    ensures FieldsFrom(a + b, out, parseValue) == FieldsFrom(b, FieldsFrom(a, out, parseValue), parseValue)
    decreases |a|
  {
    if a != [] {
      assert (a + b)[1..] == a[1..] + b;
      FieldsAppend(a[1..], b, FieldStep(out, a[0], parseValue), parseValue);
    } else {
      assert a + b == b;
    }
  }

  /** A key none of the fields has keeps what it held. */
  lemma {:induction false} FieldsOther(props: Props<Value>, out: Props<Value>, parseValue: (Value, string, Value) -> Value, k: string)
    requires !Has(props, k)
    ensures Get(FieldsFrom(props, out, parseValue), k) == Get(out, k)
    decreases |props|
  {
    if props != [] {
      var f := props[0];
      assert f.0 != k;
      if f.1 != Str("") {
        SetGet(out, f.0, parseValue(Str(ToJsString(f.1)), f.0, LanguageOf(out)), k);
      }
      SliceLacks(props, k, 1, |props|);
      assert props[1..|props|] == props[1..];
      FieldsOther(props[1..], FieldStep(out, f, parseValue), parseValue, k);
    }
  }

  /** Field `i`: an empty value leaves the key as it was; any other value is
      parsed with the language the fields before it left. */
  lemma FieldAt(props: Props<Value>, out: Props<Value>, parseValue: (Value, string, Value) -> Value, i: nat)
    requires Distinct(props) && i < |props|
    ensures var (k, v) := props[i];
      Get(FieldsFrom(props, out, parseValue), k) ==
        if v == Str("") then Get(out, k)
        else Some(parseValue(Str(ToJsString(v)), k, LanguageOf(FieldsFrom(props[..i], out, parseValue))))
  {
    var (k, v) := props[i];
    var before := FieldsFrom(props[..i], out, parseValue);
    assert props == props[..i] + ([props[i]] + props[i + 1..]);
    FieldsAppend(props[..i], [props[i]] + props[i + 1..], out, parseValue);
    assert ([props[i]] + props[i + 1..])[1..] == props[i + 1..];
    var mid := FieldStep(before, props[i], parseValue);
    if v != Str("") {
      SetGet(before, k, parseValue(Str(ToJsString(v)), k, LanguageOf(before)), k);
    } else {
      SliceLacks(props, k, 0, i);
      assert props[0..i] == props[..i];
      FieldsOther(props[..i], out, parseValue, k);
    }
    SliceLacks(props, k, i + 1, |props|);
    assert props[i + 1..|props|] == props[i + 1..];
    FieldsOther(props[i + 1..], mid, parseValue, k);
  }

  /** The language in effect after a run of fields without a `language`
      field is the one before it. */
  lemma LanguageKept(props: Props<Value>, out: Props<Value>, parseValue: (Value, string, Value) -> Value)
    requires !Has(props, "language")
    ensures LanguageOf(FieldsFrom(props, out, parseValue)) == LanguageOf(out)
  {
    FieldsOther(props, out, parseValue, "language");
  }

  /** Without a `language` field every non-empty field is parsed with the
      language `undefined`. */
  lemma NoLanguage(e: BibEntry, parseValue: (Value, string, Value) -> Value, i: nat)
    requires Distinct(e.properties) && i < |e.properties| && !Has(e.properties, "language")
    requires e.properties[i].1 != Str("")
    ensures var (k, v) := e.properties[i];
      Get(FieldsFrom(e.properties, LanguageStart(e.properties, parseValue), parseValue), k) ==
        Some(parseValue(Str(ToJsString(v)), k, Undefined))
  {
    var props := e.properties;
    FieldAt(props, [], parseValue, i);
    SliceLacks(props, "language", 0, i);
    assert props[0..i] == props[..i];
    LanguageKept(props[..i], [], parseValue);
  }

  /** The language is parsed first: a field before the `language` field is
      parsed with the language parsed ahead of the loop, a field after it
      with the language as the loop re-parsed it (the one parsed ahead when
      the field is empty). */
  lemma LanguageFirst(e: BibEntry, parseValue: (Value, string, Value) -> Value, i: nat, li: nat)
    requires Distinct(e.properties) && i < |e.properties| && li < |e.properties| && i != li
    requires e.properties[li].0 == "language" && e.properties[i].1 != Str("")
    ensures var (k, v) := e.properties[i];
      var lv := e.properties[li].1;
      var first := parseValue(lv, "language", Undefined);
      var again := if lv == Str("") then first else parseValue(Str(ToJsString(lv)), "language", first);
      Get(FieldsFrom(e.properties, LanguageStart(e.properties, parseValue), parseValue), k) ==
        Some(parseValue(Str(ToJsString(v)), k, if i < li then first else again))
  {
    var props := e.properties;
    var lv := props[li].1;
    var first := parseValue(lv, "language", Undefined);
    var start := Set([], "language", first);
    assert IndexOfKey(props, "language") == li;
    assert LanguageStart(props, parseValue) == start;
    SetGet([], "language", first, "language");
    FieldAt(props, start, parseValue, i);
    if i < li {
      SliceLacks(props, "language", 0, i);
      assert props[0..i] == props[..i];
      LanguageKept(props[..i], start, parseValue);
    } else {
      var a := props[..li];
      var mid := props[li..i];
      assert props[..i] == a + mid;
      FieldsAppend(a, mid, start, parseValue);
      SliceLacks(props, "language", 0, li);
      assert props[0..li] == a;
      LanguageKept(a, start, parseValue);
      var atLang := FieldsFrom(a, start, parseValue);
      assert mid == [props[li]] + props[li + 1..i];
      assert mid[1..] == props[li + 1..i];
      var after := FieldStep(atLang, props[li], parseValue);
      if lv != Str("") {
        SetGet(atLang, "language", parseValue(Str(ToJsString(lv)), "language", LanguageOf(atLang)), "language");
      }
      assert LanguageOf(after) == (if lv == Str("") then first else parseValue(Str(ToJsString(lv)), "language", first));
      SliceLacks(props, "language", li + 1, i);
      LanguageKept(props[li + 1..i], after, parseValue);
    }
  }

  /** An empty field other than `language` is dropped. */
  lemma EmptyDropped(e: BibEntry, parseValue: (Value, string, Value) -> Value, i: nat)
    requires Distinct(e.properties) && i < |e.properties|
    requires e.properties[i].1 == Str("") && e.properties[i].0 != "language"
    ensures !Has(FieldsFrom(e.properties, LanguageStart(e.properties, parseValue), parseValue), e.properties[i].0)
  {
    var k := e.properties[i].0;
    FieldAt(e.properties, LanguageStart(e.properties, parseValue), parseValue, i);
    if Has(e.properties, "language") {
      SetGet([], "language", parseValue(Get(e.properties, "language").value, "language", Undefined), k);
    }
  }

  // ---------------------------------------------------------------------
  // parseEntryValues: the annotation loop

  /** The keys the annotations of one field are stored under, in order. */
  function FieldAnnotationKeys(field: string, named: Props<Value>): (r: seq<string>)
    ensures |r| == |named| && forall j :: 0 <= j < |named| ==> r[j] == AnnotationKey(field, named[j].0)
  {
    seq(|named|, j requires 0 <= j < |named| => AnnotationKey(field, named[j].0))
  }

  /** A key no annotation of the field is stored under keeps what it held. */
  lemma {:induction false} AnnotateFieldOther(out: Props<Value>, field: string, named: Props<Value>, parseAnnotation: Value -> Value, k: string)
    requires k !in FieldAnnotationKeys(field, named)
    ensures Get(AnnotateField(out, field, named, parseAnnotation), k) == Get(out, k)
    decreases |named|
  {
    if named != [] {
      assert FieldAnnotationKeys(field, named)[0] == AnnotationKey(field, named[0].0);
      SetGet(out, AnnotationKey(field, named[0].0), parseAnnotation(named[0].1), k);
      assert FieldAnnotationKeys(field, named[1..]) == FieldAnnotationKeys(field, named)[1..];
      AnnotateFieldOther(Set(out, AnnotationKey(field, named[0].0), parseAnnotation(named[0].1)), field, named[1..], parseAnnotation, k);
    }
  }

  /** An annotation of a field is stored, parsed, under `field+an:name`,
      unless a later annotation of the field is stored under the same key. */
  lemma {:induction false} AnnotateFieldAt(out: Props<Value>, field: string, named: Props<Value>, parseAnnotation: Value -> Value, j: nat)
    requires j < |named|
    requires AnnotationKey(field, named[j].0) !in FieldAnnotationKeys(field, named[j + 1..])
    ensures Get(AnnotateField(out, field, named, parseAnnotation), AnnotationKey(field, named[j].0)) == Some(parseAnnotation(named[j].1))
    decreases j
  {
    var next := Set(out, AnnotationKey(field, named[0].0), parseAnnotation(named[0].1));
    if j == 0 {
      SetGet(out, AnnotationKey(field, named[0].0), parseAnnotation(named[0].1), AnnotationKey(field, named[0].0));
      AnnotateFieldOther(next, field, named[1..], parseAnnotation, AnnotationKey(field, named[0].0));
    } else {
      assert named[1..][j - 1] == named[j];
      assert named[1..][j - 1 + 1..] == named[j + 1..];
      AnnotateFieldAt(next, field, named[1..], parseAnnotation, j - 1);
    }
  }

  /** Every key the annotations are stored under. */
  function AnnotationKeys(anns: Props<Props<Value>>): seq<string>
    decreases |anns|
  {
    if anns == [] then [] else FieldAnnotationKeys(anns[0].0, anns[0].1) + AnnotationKeys(anns[1..])
  }

  /** A key no annotation is stored under keeps what it held. */
  lemma {:induction false} AnnotateOther(out: Props<Value>, anns: Props<Props<Value>>, parseAnnotation: Value -> Value, k: string)
    requires k !in AnnotationKeys(anns)
    ensures Get(Annotate(out, anns, parseAnnotation), k) == Get(out, k)
    decreases |anns|
  {
    if anns != [] {
      AnnotateFieldOther(out, anns[0].0, anns[0].1, parseAnnotation, k);
      AnnotateOther(AnnotateField(out, anns[0].0, anns[0].1, parseAnnotation), anns[1..], parseAnnotation, k);
    }
  }

  /** Annotation `j` of annotated field `i` is stored, parsed, under
      `field+an:name`, unless a later annotation is stored under the same
      key. */
  lemma {:induction false} AnnotationAt(out: Props<Value>, anns: Props<Props<Value>>, parseAnnotation: Value -> Value, i: nat, j: nat)
    requires i < |anns| && j < |anns[i].1|
    requires var k := AnnotationKey(anns[i].0, anns[i].1[j].0);
      k !in FieldAnnotationKeys(anns[i].0, anns[i].1[j + 1..]) && k !in AnnotationKeys(anns[i + 1..])
    ensures Get(Annotate(out, anns, parseAnnotation), AnnotationKey(anns[i].0, anns[i].1[j].0)) == Some(parseAnnotation(anns[i].1[j].1))
    decreases i
  {
    var next := AnnotateField(out, anns[0].0, anns[0].1, parseAnnotation);
    if i == 0 {
      AnnotateFieldAt(out, anns[0].0, anns[0].1, parseAnnotation, j);
      AnnotateOther(next, anns[1..], parseAnnotation, AnnotationKey(anns[0].0, anns[0].1[j].0));
    } else {
      assert anns[1..][i - 1] == anns[i];
      assert anns[1..][i - 1 + 1..] == anns[i + 1..];
      AnnotationAt(next, anns[1..], parseAnnotation, i - 1, j);
    }
  }
}
