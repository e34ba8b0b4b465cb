// The dictionaries that output formatters wrap entries in: a register from a
// dictionary name to an object whose every entry is a pair (or list) of
// strings, checked before it is stored.

module PluginDict {
  import opened Base
  import opened JsObject
  import opened JsValue
  import opened JsRegister

  /** A dictionary entry is an array of strings. */
  predicate StringArray(v: Value) {
    v.Arr? && forall i :: 0 <= i < |v.items| ==> v.items[i].Str?
  }

  /** The first of the listed entries that is not an array of strings. */
  function FirstBadEntry(entries: seq<(string, Value)>): (r: Option<string>)
    ensures r.None? <==> forall i :: 0 <= i < |entries| ==> StringArray(entries[i].1)
    ensures r.Some? ==> exists i :: 0 <= i < |entries| && entries[i].0 == r.value && !StringArray(entries[i].1)
  {
    if entries == [] then None
    else if !StringArray(entries[0].1) then Some(entries[0].0)
    else FirstBadEntry(entries[1..])
  }

  /** The error thrown for an entry that is not an array of strings. */
  function BadEntry(k: string): string {
    "TypeError: Invalid dict entry \"" + k + "\", expected array of strings"
  }

  /** What `validate(name, dict)` throws, if anything: a name that is not a
      string, a dictionary that is not of type `object` (`null` is), or the
      first entry that is not an array of strings. */
  function Validation(name: Value, dict: Value): Result<(), string> {
    if !name.Str? then Err("TypeError: Invalid dict name, expected string, got " + TypeOf(name))
    else if TypeOf(dict) != "object" then Err("TypeError: Invalid dict, expected object, got " + TypeOf(dict))
    else match FirstBadEntry(Enumerated(ForIn(dict)))
      case Some(k) => Err(BadEntry(k))
      case None => Ok(())
  }

  /** A dictionary passes exactly when its name is a string, it is an object
      and each of its entries is an array of strings. */
  lemma ValidationAccepts(name: Value, dict: Value)
    ensures Validation(name, dict).Ok? <==>
      name.Str? && TypeOf(dict) == "object" && forall i :: 0 <= i < |ForIn(dict)| ==> StringArray(ForIn(dict)[i].1)
  {
    if name.Str? && TypeOf(dict) == "object" {
      var listed := Enumerated(ForIn(dict));
      assert Validation(name, dict).Ok? <==> FirstBadEntry(listed).None?;
      EnumeratedAll(ForIn(dict), (p: (string, Value)) => StringArray(p.1));
    }
  }

  /** `for ... in` visits array-index keys first: of the two bad entries of
      `{a: null, 1: null}` the one reported is `1`. */
  lemma IndexEntryReportedFirst()
    ensures Validation(Str("d"), Obj([("a", Null), ("1", Null)]))
      == Err(BadEntry("1"))
  {
    var ps := [("a", Null), ("1", Null)];
    assert !IsIndexKey("a") by { assert DigitRun("a") == 0; }
    assert IsIndexKey("1") by { assert DigitRun("1") == 1; assert DigitsValue("1") == 1; }
    assert IndexedProps(ps) == [("1", Null)] by {
      assert ps[1..] == [("1", Null)];
      assert ps[1..][1..] == [];
    }
    assert NamedProps(ps) == [("a", Null)] by {
      assert ps[1..] == [("1", Null)];
      assert ps[1..][1..] == [];
    }
    assert SortIndexed([("1", Null)]) == [("1", Null)];
    var listed := Enumerated(ps);
    assert listed == [("1", Null), ("a", Null)];
    assert !StringArray(Null);
    assert FirstBadEntry(listed) == Some("1");
    assert ForIn(Obj(ps)) == ps;
    assert TypeOf(Obj(ps)) == "object";
  }

  /** The loop of `validate` over the listed entries: the first that is not
      an array of strings. */
  method FindBadEntry(entries: seq<(string, Value)>) returns (r: Option<string>)
    ensures r == FirstBadEntry(entries)
  {
    for i := 0 to |entries|
      invariant FirstBadEntry(entries) == FirstBadEntry(entries[i..])
    {
      assert entries[i..][1..] == entries[i + 1..];
      if !StringArray(entries[i].1) {
        return Some(entries[i].0);
      }
    }
    r := None;
  }

  /** `validate`: the two type checks, then the loop that throws at the first
      bad entry in `for ... in` order. */
  method Validate(name: Value, dict: Value) returns (r: Result<(), string>)
    ensures r == Validation(name, dict)
  {
    if !name.Str? {
      return Err("TypeError: Invalid dict name, expected string, got " + TypeOf(name));
    } else if TypeOf(dict) != "object" {
      return Err("TypeError: Invalid dict, expected object, got " + TypeOf(dict));
    }
    var listed := Enumerated(ForIn(dict));
    var bad := FindBadEntry(listed);
    if bad.Some? {
      r := Err(BadEntry(bad.value));
    } else {
      r := Ok(());
    }
  }

  /** A start and an end string. */
  function Pair(start: string, end: string): Value { Arr([Str(start), Str(end)]) }

  /** The entries of the HTML dictionary: name, start, end. */
  function HtmlEntries(): seq<(string, string, string)> {
    [("bibliographyContainer", "<div class=\"csl-bib-body\">", "</div>"),
     ("entry", "<div class=\"csl-entry\">", "</div>"),
     ("list", "<ul style=\"list-style-type:none\">", "</ul>"),
     ("listItem", "<li>", "</li>")]
  }

  /** The entries of the plain-text dictionary. */
  function TextEntries(): seq<(string, string, string)> {
    [("bibliographyContainer", "", "\n"),
     ("entry", "", "\n"),
     ("list", "\n", ""),
     ("listItem", "\t", "\n")]
  }

  /** A dictionary object from its entries. */
  function DictOf(entries: seq<(string, string, string)>): Value {
    Obj(seq(|entries|, i requires 0 <= i < |entries| => (entries[i].0, Pair(entries[i].1, entries[i].2))))
  }

  /** The HTML dictionary. */
  function HtmlDict(): Value { DictOf(HtmlEntries()) }

  /** The plain-text dictionary. */
  function TextDict(): Value { DictOf(TextEntries()) }

  /** The dictionaries registered from the start. */
  function Defaults(): Props<Value> {
    [("html", HtmlDict()), ("text", TextDict())]
  }

  /** An object of start/end pairs passes `validate` under any string name. */
  lemma PairsValid(name: string, entries: seq<(string, string, string)>)
    ensures Validation(Str(name), DictOf(entries)).Ok?
  {
    var ps := seq(|entries|, i requires 0 <= i < |entries| => (entries[i].0, Pair(entries[i].1, entries[i].2)));
    forall i | 0 <= i < |ps| ensures StringArray(ps[i].1) {
      assert ps[i].1 == Pair(entries[i].1, entries[i].2);
    }
    assert DictOf(entries) == Obj(ps);
    ValidationAccepts(Str(name), DictOf(entries));
  }

  /** Both built-in dictionaries would pass `validate` under their names. */
  lemma DefaultsValid()
    ensures Distinct(Defaults())
    ensures forall i :: 0 <= i < |Defaults()| ==> Validation(Str(Defaults()[i].0), Defaults()[i].1).Ok?
    ensures Keys(Defaults()) == ["html", "text"]
  {
    assert "html" != "text" by { assert "html"[0] != "text"[0]; }
    PairsValid("html", HtmlEntries());
    PairsValid("text", TextEntries());
    TwoKeys(Defaults(), "html", "text", HtmlDict(), TextDict());
    TwoHold(Defaults(), "html", "text", HtmlDict(), TextDict(), (n, v) => Validation(Str(n), v).Ok?);
  }

  /** What holds of two properties holds of each of them as listed. */
  lemma TwoHold<V>(d: Props<V>, a: string, b: string, first: V, second: V, P: (string, V) -> bool)
    requires d == [(a, first), (b, second)]
    requires P(a, first) && P(b, second)
    ensures forall i :: 0 <= i < |d| ==> P(d[i].0, d[i].1)
  {
    assert d[0].0 == a && d[0].1 == first;
    assert d[1].0 == b && d[1].1 == second;
  }

  /** Two properties under different names. */
  lemma TwoKeys<V>(d: Props<V>, a: string, b: string, first: V, second: V)
    requires a != b && d == [(a, first), (b, second)]
    ensures Distinct(d) && Keys(d) == [a, b]
  {
    assert |Keys(d)| == 2 && Keys(d)[0] == a && Keys(d)[1] == b;
  }

  /** The register the module creates. */
  method DefaultRegister() returns (register: Register<Value>)
    ensures fresh(register) && register.Valid() && register.data == Defaults()
  {
    DefaultsValid();
    register := new Register(Defaults());
  }

  /** `add(name, dict)`: stored under its name once it passes `validate`;
      nothing changes when it does not. */
  method Add(register: Register<Value>, name: Value, dict: Value) returns (r: Result<(), string>)
    requires register.Valid()
    modifies register
    ensures register.Valid()
    ensures r == Validation(name, dict)
    ensures r.Ok? ==> register.data == JsObject.Set(old(register.data), name.s, dict)
    ensures r.Err? ==> register.data == old(register.data)
  {
    r := Validate(name, dict);
    if r.Ok? {
      var _ := register.Set(name.s, dict);
    }
  }

  /** `remove(name)`. */
  method Remove(register: Register<Value>, name: string)
    requires register.Valid()
    modifies register
    ensures register.Valid() && register.data == JsObject.Delete(old(register.data), name)
    ensures !JsObject.Has(register.data, name)
  {
    var _ := register.Remove(name);
    DeleteGet(old(register.data), name, name);
  }

  /** `has(name)`. */
  method Has(register: Register<Value>, name: string) returns (b: bool)
    ensures b <==> name in Keys(register.data)
  {
    b := register.Has(name);
  }

  /** `list()`. */
  method List(register: Register<Value>) returns (names: seq<string>)
    ensures names == ObjectKeys(register.data)
  {
    names := register.List();
  }

  /** `get(name)`: the stored dictionary; an unregistered name throws. */
  method Get(register: Register<Value>, name: string) returns (r: Result<Value, string>)
    ensures r.Ok? <==> JsObject.Has(register.data, name)
    ensures r.Ok? ==> JsObject.Get(register.data, name) == Some(r.value)
    ensures r.Err? ==> r.error == "Error: Dict \"" + name + "\" unavailable"
  {
    var has := register.Has(name);
    HasIffKey(register.data, name);
    if !has {
      return Err("Error: Dict \"" + name + "\" unavailable");
    }
    var v := register.Get(name);
    r := Ok(v.value);
  }

  /** Once added, a dictionary can be read back under its name. */
  lemma AddThenGet(data: Props<Value>, name: string, dict: Value)
    requires Distinct(data) && Validation(Str(name), dict).Ok?
    ensures JsObject.Has(JsObject.Set(data, name, dict), name)
    ensures JsObject.Get(JsObject.Set(data, name, dict), name) == Some(dict)
  {
    SetGet(data, name, dict, name);
  }
}
