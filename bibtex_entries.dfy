// The step between the BibTeX file grammar and the field mapping: in strict
// mode every entry is checked against the fields its type requires, then
// every field value is parsed (the language first, empty values dropped)
// and every annotation is stored under a `field+an:name` key, before the
// entries go through the mapping.

module BibtexEntries {
  import opened Base
  import opened JsObject
  import opened JsValue
  import opened BibtexFile
  import BibtexMapping

  // ---------------------------------------------------------------------
  // validate

  /** One requirement of a type: a field, or a list of alternatives of
      which one is enough. */
  datatype Requirement = Field(name: string) | AnyOf(names: seq<string>)

  /** The requirement is met by the fields `props`. */
  predicate Met(r: Requirement, props: Props<Value>) {
    match r
    case Field(f) => Has(props, f)
    case AnyOf(fs) => exists i :: 0 <= i < |fs| && Has(props, fs[i])
  }

  /** How a requirement is named in the message: alternatives joined by `/`. */
  function RequirementName(r: Requirement): string {
    match r
    case Field(f) => f
    case AnyOf(fs) => Join(fs, "/")
  }

  /** The names of the requirements `props` does not meet, in order. */
  function Missing(reqs: seq<Requirement>, props: Props<Value>): (r: seq<string>)
    ensures |r| <= |reqs|
  {
    if reqs == [] then []
    else
      var n := |reqs| - 1;
      Missing(reqs[..n], props) + (if Met(reqs[n], props) then [] else [RequirementName(reqs[n])])
  }

  /** The problem an entry has, with its label: an unknown type, or the
      required fields it lacks. */
  function ProblemOf(e: BibEntry, requirements: Props<seq<Requirement>>): (r: Option<(string, string)>)
    ensures r.Some? ==> r.value.0 == e.entryLabel
  {
    match Get(requirements, e.entryType)
    case None => Some((e.entryLabel, "invalid type: \"" + e.entryType + "\""))
    case Some(reqs) =>
      var missing := Missing(reqs, e.properties);
      if missing != [] then Some((e.entryLabel, "missing fields: " + Join(missing, ", "))) else None
  }

  /** The problems of the entries, in entry order. */
  function Problems(es: seq<BibEntry>, requirements: Props<seq<Requirement>>): (r: seq<(string, string)>)
    ensures |r| <= |es|
  {
    if es == [] then []
    else
      var n := |es| - 1;
      Problems(es[..n], requirements) + (match ProblemOf(es[n], requirements) case None => [] case Some(p) => [p])
  }

  /** The lines of the message, one per problem. */
  function Lines(problems: seq<(string, string)>): (r: seq<string>)
    ensures |r| == |problems|
    ensures forall i :: 0 <= i < |problems| ==> r[i] == "  - " + problems[i].0 + " has " + problems[i].1
  {
    seq(|problems|, i requires 0 <= i < |problems| => "  - " + problems[i].0 + " has " + problems[i].1)
  }

  /** The message of the `RangeError`. */
  function Message(problems: seq<(string, string)>): string {
    Join(["Invalid entries:"] + Lines(problems), "\n")
  }

  /** What `validate` throws, if it throws. */
  function ValidationError(es: seq<BibEntry>, requirements: Props<seq<Requirement>>): (r: Option<string>)
    ensures r.Some? <==> Problems(es, requirements) != []
  {
    var ps := Problems(es, requirements);
    if ps == [] then None else Some("RangeError: " + Message(ps))
  }

  /** The missing names of one entry, its inner loop. */
  method MissingFields(reqs: seq<Requirement>, props: Props<Value>) returns (missing: seq<string>)
    ensures missing == Missing(reqs, props)
  {
    missing := [];
    var j := 0;
    while j < |reqs|
      invariant j <= |reqs|
      invariant missing == Missing(reqs[..j], props)
    {
      assert reqs[..j + 1][..j] == reqs[..j];
      match reqs[j] {
        case AnyOf(fs) =>
          if !(exists i :: 0 <= i < |fs| && Has(props, fs[i])) {
            missing := missing + [Join(fs, "/")];
          }
        case Field(f) =>
          if !Has(props, f) {
            missing := missing + [f];
          }
      }
      j := j + 1;
    }
    assert reqs[..|reqs|] == reqs;
  }

  /** `validate(entries, requirements)`: the problems collected entry by
      entry, thrown together when there is one. */
  method Validate(es: seq<BibEntry>, requirements: Props<seq<Requirement>>) returns (err: Option<string>)
    ensures err == ValidationError(es, requirements)
  {
    var problems: seq<(string, string)> := [];
    var i := 0;
    while i < |es|
      invariant i <= |es|
      invariant problems == Problems(es[..i], requirements)
    {
      assert es[..i + 1][..i] == es[..i];
      var e := es[i];
      if Has(requirements, e.entryType) {
        var missing := MissingFields(Get(requirements, e.entryType).value, e.properties);
        if |missing| > 0 {
          problems := problems + [(e.entryLabel, "missing fields: " + Join(missing, ", "))];
        }
      } else {
        problems := problems + [(e.entryLabel, "invalid type: \"" + e.entryType + "\"")];
      }
      i := i + 1;
    }
    assert es[..|es|] == es;
    if |problems| > 0 {
      return Some("RangeError: " + Join(["Invalid entries:"] + Lines(problems), "\n"));
    }
    return None;
  }

  // ---------------------------------------------------------------------
  // parseEntryValues

  /** `output.language`: the parsed language so far, or `undefined`. */
  function LanguageOf(out: Props<Value>): Value {
    Get(out, "language").GetOr(Undefined)
  }

  /** One turn of the field loop: an empty value is skipped, any other is
      parsed as text, with the field's name and the language so far. */
  function FieldStep(out: Props<Value>, field: (string, Value), parseValue: (Value, string, Value) -> Value): Props<Value> {
    if field.1 == Str("") then out
    else Set(out, field.0, parseValue(Str(ToJsString(field.1)), field.0, LanguageOf(out)))
  }

  /** The field loop over `props`, in the order they were added, from `out`. */
  function FieldsFrom(props: Props<Value>, out: Props<Value>, parseValue: (Value, string, Value) -> Value): Props<Value>
    decreases |props|
  {
    if props == [] then out else FieldsFrom(props[1..], FieldStep(out, props[0], parseValue), parseValue)
  }

  /** The key an annotation is stored under. */
  function AnnotationKey(field: string, name: string): string {
    field + "+an:" + name
  }

  /** The annotation loop over the annotations of one field. */
  function AnnotateField(out: Props<Value>, field: string, anns: Props<Value>, parseAnnotation: Value -> Value): Props<Value>
    decreases |anns|
  {
    if anns == [] then out
    else AnnotateField(Set(out, AnnotationKey(field, anns[0].0), parseAnnotation(anns[0].1)), field, anns[1..], parseAnnotation)
  }

  /** The annotation loop over every annotated field. */
  function Annotate(out: Props<Value>, anns: Props<Props<Value>>, parseAnnotation: Value -> Value): Props<Value>
    decreases |anns|
  {
    if anns == [] then out
    else Annotate(AnnotateField(out, anns[0].0, anns[0].1, parseAnnotation), anns[1..], parseAnnotation)
  }

  /** The language parsed before the loop, when the entry has one. */
  function LanguageStart(props: Props<Value>, parseValue: (Value, string, Value) -> Value): Props<Value> {
    match Get(props, "language")
    case None => []
    case Some(l) => Set([], "language", parseValue(l, "language", Undefined))
  }

  /** The parsed fields of an entry. */
  function EntryValues(e: BibEntry, parseValue: (Value, string, Value) -> Value, parseAnnotation: Value -> Value): Props<Value> {
    var out := FieldsFrom(e.properties, LanguageStart(e.properties, parseValue), parseValue);
    match e.annotations
    case None => out
    case Some(anns) => Annotate(out, anns, parseAnnotation)
  }

  /** `parseEntryValues(entry)`: the entry with its fields parsed. */
  method ParseEntryValues(e: BibEntry, parseValue: (Value, string, Value) -> Value, parseAnnotation: Value -> Value) returns (r: BibEntry)
    ensures r == e.(properties := EntryValues(e, parseValue, parseAnnotation))
  {
    var props := e.properties;
    var output: Props<Value> := [];
    if Has(props, "language") {
      output := Set(output, "language", parseValue(Get(props, "language").value, "language", Undefined));
    }
    var i := 0;
    while i < |props|
      invariant i <= |props|
      invariant FieldsFrom(props[i..], output, parseValue) == FieldsFrom(props, LanguageStart(props, parseValue), parseValue)
    {
      assert props[i..][1..] == props[i + 1..];
      var (property, value) := props[i];
      if value != Str("") {
        output := Set(output, property, parseValue(Str(ToJsString(value)), property, LanguageOf(output)));
      }
      i := i + 1;
    }
    if e.annotations.Some? {
      var anns := e.annotations.value;
      var k := 0;
      while k < |anns|
        invariant k <= |anns|
        invariant Annotate(output, anns[k..], parseAnnotation) == EntryValues(e, parseValue, parseAnnotation)
      {
        assert anns[k..][1..] == anns[k + 1..];
        var property := anns[k].0;
        var named: Props<Value> := anns[k].1;
        ghost var before := output;
        var j := 0;
        while j < |named|
          invariant j <= |named|
          invariant AnnotateField(output, property, named[j..], parseAnnotation) == AnnotateField(before, property, named, parseAnnotation)
        {
          assert named[j..][1..] == named[j + 1..];
          output := Set(output, property + "+an:" + named[j].0, parseAnnotation(named[j].1));
          j := j + 1;
        }
        k := k + 1;
      }
    }
    r := e.(properties := output);
  }

  /** `entries.map(parseEntryValues)`. */
  function AllEntryValues(es: seq<BibEntry>, parseValue: (Value, string, Value) -> Value, parseAnnotation: Value -> Value): (r: seq<BibEntry>)
    ensures |r| == |es|
    ensures forall i :: 0 <= i < |es| ==> r[i] == es[i].(properties := EntryValues(es[i], parseValue, parseAnnotation))
  {
    seq(|es|, i requires 0 <= i < |es| => es[i].(properties := EntryValues(es[i], parseValue, parseAnnotation)))
  }

  // ---------------------------------------------------------------------
  // parse and parseBibtex

  /** `parse(entries)` and `parseBibtex(entries)`, which differ only in the
      requirements and the mapping they are given: in strict mode the
      entries are validated first, then parsed and mapped. */
  function Parse(es: seq<BibEntry>, strict: bool, requirements: Props<seq<Requirement>>,
                 parseValue: (Value, string, Value) -> Value, parseAnnotation: Value -> Value,
                 reading: Reading, toTarget: Props<Value> -> Value): Result<seq<Value>, string>
  {
    if strict && ValidationError(es, requirements).Some? then Err(ValidationError(es, requirements).value)
    else BibtexMapping.ParseWith(AllEntryValues(es, parseValue, parseAnnotation), reading, toTarget)
  }
}
