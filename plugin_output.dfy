// The output formats: a register from a format name to its formatter
// function, and `format`, which runs the formatter registered under a name.

module PluginOutput {
  import opened Base
  import opened JsObject
  import opened JsValue
  import opened JsRegister

  /** What `validate(name, formatter)` throws, if anything. */
  function Validation(name: Value, formatter: Value): Result<(), string> {
    if !name.Str? then Err("TypeError: Invalid output format name, expected string, got " + TypeOf(name))
    else if !formatter.Fn? then Err("TypeError: Invalid formatter, expected function, got " + TypeOf(formatter))
    else Ok(())
  }

  /** A format is accepted exactly when its name is a string and its formatter
      a function. */
  lemma ValidationAccepts(name: Value, formatter: Value)
    ensures Validation(name, formatter).Ok? <==> TypeOf(name) == "string" && TypeOf(formatter) == "function"
  {
    var nameType, formatterType := TypeOf(name), TypeOf(formatter);
    assert nameType == "string" <==> name.Str?;
    assert formatterType == "function" <==> formatter.Fn?;
  }

  /** `add(name, formatter)`: stored once it passes `validate`. */
  method Add(register: Register<Value>, name: Value, formatter: Value) returns (r: Result<(), string>)
    requires register.Valid()
    modifies register
    ensures register.Valid()
    ensures r == Validation(name, formatter)
    ensures r.Ok? ==> register.data == JsObject.Set(old(register.data), name.s, formatter)
    ensures r.Ok? ==> JsObject.Get(register.data, name.s) == Some(formatter)
    ensures r.Err? ==> register.data == old(register.data)
  {
    r := Validation(name, formatter);
    if r.Ok? {
      var _ := register.Set(name.s, formatter);
    }
  }

  /** `remove(name)`: the format is no longer there. */
  method Remove(register: Register<Value>, name: string)
    requires register.Valid()
    modifies register
    ensures register.Valid() && register.data == JsObject.Delete(old(register.data), name)
    ensures !JsObject.Has(register.data, name)
  {
    var _ := register.Remove(name);
    DeleteGet(old(register.data), name, name);
  }

  /** `has(name)`. */
  method Has(register: Register<Value>, name: string) returns (b: bool)
    ensures b <==> name in Keys(register.data)
  {
    b := register.Has(name);
  }

  /** `list()`: the registered names. */
  method List(register: Register<Value>) returns (names: seq<string>)
    ensures names == ObjectKeys(register.data)
  {
    names := register.List();
  }

  /** `format(name, data, ...options)`: the formatter under that name applied
      to the data and options; an unregistered name throws. Running a
      formatter is `apply`, which may throw in turn. */
  method Format<R>(register: Register<Value>, name: string, data: Value, options: seq<Value>,
                   apply: (Value, Value, seq<Value>) -> Result<R, string>)
    returns (r: Result<R, string>)
    ensures !JsObject.Has(register.data, name) ==> r == Err("Error: Output format \"" + name + "\" unavailable")
    ensures JsObject.Has(register.data, name) ==> r == apply(JsObject.Get(register.data, name).value, data, options)
  {
    var has := register.Has(name);
    HasIffKey(register.data, name);
    if !has {
      return Err("Error: Output format \"" + name + "\" unavailable");
    }
    var formatter := register.Get(name);
    r := apply(formatter.value, data, options);
  }
}
