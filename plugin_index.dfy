// The plugin index: `add(ref, plugins)` registers every plugin a package
// brings with the register of its kind (input, output, dict, config) and
// remembers the names under the package's reference, so that `remove(ref)`
// can take all of them out again.

module PluginIndex {
  import opened Base
  import opened JsObject
  import opened JsValue
  import opened JsRegister
  import PluginOutput
  import PluginDict
  import opened PluginConfig

  /** The contents of the four registers. */
  datatype Regs = Regs(input: Props<Value>, output: Props<Value>, dict: Props<Value>, config: Props<Value>)

  predicate RegsValid(g: Regs) {
    Distinct(g.input) && Distinct(g.output) && Distinct(g.dict) && Distinct(g.config)
  }

  /** The register of a kind, as a value; `None` for a kind there is no register for. */
  function RegOf(g: Regs, kind: string): Option<Props<Value>> {
    if kind == "input" then Some(g.input)
    else if kind == "output" then Some(g.output)
    else if kind == "dict" then Some(g.dict)
    else if kind == "config" then Some(g.config)
    else None
  }

  /** `registers[kind].add(name, plugin)`: output formatters and dictionaries
      are validated first; a kind without a register throws. */
  function RegisterOne(g: Regs, kind: string, name: string, plugin: Value): Result<Regs, string> {
    if kind == "input" then Ok(g.(input := JsObject.Set(g.input, name, plugin)))
    else if kind == "output" then
      match PluginOutput.Validation(Str(name), plugin)
      case Err(e) => Err(e)
      case Ok(_) => Ok(g.(output := JsObject.Set(g.output, name, plugin)))
    else if kind == "dict" then
      match PluginDict.Validation(Str(name), plugin)
      case Err(e) => Err(e)
      case Ok(_) => Ok(g.(dict := JsObject.Set(g.dict, name, plugin)))
    else if kind == "config" then Ok(g.(config := JsObject.Set(g.config, name, plugin)))
    else Err("TypeError: Cannot read properties of undefined (reading 'add')")
  }

  /** Where `add` stops: the error it throws (if any), the registers, and the
      package's index so far (kind to names, each name to `true`; for
      `config`, the reference to the configuration). */
  datatype Outcome = Outcome(error: Option<string>, regs: Regs, main: Props<Props<Value>>)

  /** The names recorded for a kind so far. */
  function KindIndex(main: Props<Props<Value>>, kind: string): Props<Value> {
    match JsObject.Get(main, kind)
    case Some(t) => t
    case None => []
  }

  /** The inner loop: record each name, then register its plugin. */
  function AddNames(g: Regs, main: Props<Props<Value>>, kind: string, names: seq<(string, Value)>): Outcome
    decreases |names|
  {
    if names == [] then Outcome(None, g, main)
    else
      var (name, plugin) := names[0];
      var main' := JsObject.Set(main, kind, JsObject.Set(KindIndex(main, kind), name, Bool(true)));
      match RegisterOne(g, kind, name, plugin)
      case Err(e) => Outcome(Some(e), g, main')
      case Ok(g') => AddNames(g', main', kind, names[1..])
  }

  /** One kind of plugin: a configuration is stored under the reference
      itself; any other kind gets a fresh index of its names. */
  function AddKind(g: Regs, main: Props<Props<Value>>, ref: string, kind: string, plugins: Value): Outcome {
    if kind == "config" then
      Outcome(None, g.(config := JsObject.Set(g.config, ref, plugins)), JsObject.Set(main, "config", [(ref, plugins)]))
    else AddNames(g, JsObject.Set(main, kind, []), kind, ForIn(plugins))
  }

  /** The outer loop over the kinds, stopping at the first throw. */
  function AddKinds(g: Regs, main: Props<Props<Value>>, ref: string, kinds: seq<(string, Value)>): Outcome
    decreases |kinds|
  {
    if kinds == [] then Outcome(None, g, main)
    else
      var o := AddKind(g, main, ref, kinds[0].0, kinds[0].1);
      if o.error.Some? then o else AddKinds(o.regs, o.main, ref, kinds[1..])
  }

  /** `registers[kind].remove(name)`; a kind without a register throws. */
  function RemoveOne(g: Regs, kind: string, name: string): Result<Regs, string> {
    if kind == "input" then Ok(g.(input := JsObject.Delete(g.input, name)))
    else if kind == "output" then Ok(g.(output := JsObject.Delete(g.output, name)))
    else if kind == "dict" then Ok(g.(dict := JsObject.Delete(g.dict, name)))
    else if kind == "config" then Ok(g.(config := JsObject.Delete(g.config, name)))
    else Err("TypeError: Cannot read properties of undefined (reading 'remove')")
  }

  function RemoveNames(g: Regs, kind: string, names: seq<string>): Result<Regs, string>
    decreases |names|
  {
    if names == [] then Ok(g)
    else match RemoveOne(g, kind, names[0])
      case Err(e) => Err(e)
      case Ok(g') => RemoveNames(g', kind, names[1..])
  }

  /** `remove`: every name recorded under every kind, kind by kind. */
  function RemoveKinds(g: Regs, main: Props<Props<Value>>): Result<Regs, string>
    decreases |main|
  {
    if main == [] then Ok(g)
    else match RemoveNames(g, main[0].0, Keys(main[0].1))
      case Err(e) => Err(e)
      case Ok(g') => RemoveKinds(g', main[1..])
  }

  /** The module-level `indices` object together with the registers. */
  class Plugins {
    var indices: Props<Props<Props<Value>>>
    const input: Register<Value>
    const output: Register<Value>
    const dict: Register<Value>
    const configs: Configs<Value>

    ghost function Stores(): Regs
      reads input, output, dict, configs
    {
      Regs(input.data, output.data, dict.data, configs.configs)
    }

    ghost predicate Valid()
      reads this, input, output, dict, configs
    {
      input != output && input != dict && output != dict &&
      input.Valid() && output.Valid() && dict.Valid() && configs.Valid() && Distinct(indices)
    }

    constructor(input: Register<Value>, output: Register<Value>, dict: Register<Value>, configs: Configs<Value>)
      requires input != output && input != dict && output != dict
      requires input.Valid() && output.Valid() && dict.Valid() && configs.Valid()
      ensures Valid() && indices == []
      ensures this.input == input && this.output == output && this.dict == dict && this.configs == configs
    {
      this.input := input;
      this.output := output;
      this.dict := dict;
      this.configs := configs;
      indices := [];
    }

    /** `registers[kind].add(name, plugin)` on the register objects. */
    method Register(kind: string, name: string, plugin: Value) returns (r: Result<(), string>)
      requires Valid()
      modifies input, output, dict, configs
      ensures Valid()
      ensures var o := RegisterOne(old(Stores()), kind, name, plugin);
        (o.Ok? ==> r.Ok? && Stores() == o.value) && (o.Err? ==> r == Err(o.error) && Stores() == old(Stores()))
    {
      ghost var g := Stores();
      if kind == "input" {
        var _ := input.Set(name, plugin);
        r := Ok(());
        assert Stores() == g.(input := JsObject.Set(g.input, name, plugin));
        assert RegisterOne(g, kind, name, plugin) == Ok(Stores());
      } else if kind == "output" {
        r := RegisterOutput(name, plugin);
      } else if kind == "dict" {
        r := RegisterDict(name, plugin);
      } else if kind == "config" {
        configs.Add(name, plugin);
        r := Ok(());
        assert Stores() == g.(config := JsObject.Set(g.config, name, plugin));
        assert RegisterOne(g, kind, name, plugin) == Ok(Stores());
      } else {
        r := Err("TypeError: Cannot read properties of undefined (reading 'add')");
      }
    }

    /** `register` for an output formatter, validated first. */
    method RegisterOutput(name: string, plugin: Value) returns (r: Result<(), string>)
      requires Valid()
      modifies output
      ensures Valid()
      ensures var o := RegisterOne(old(Stores()), "output", name, plugin);
        (o.Ok? ==> r.Ok? && Stores() == o.value) && (o.Err? ==> r == Err(o.error) && Stores() == old(Stores()))
    {
      ghost var g := Stores();
      ghost var o := RegisterOne(g, "output", name, plugin);
      r := PluginOutput.Add(output, Str(name), plugin);
      if r.Ok? {
        assert o == Ok(g.(output := JsObject.Set(g.output, name, plugin)));
        assert Stores() == o.value;
      } else {
        assert o == Err(r.error);
        assert Stores() == g;
      }
    }

    /** `register` for a dictionary, validated first. */
    method RegisterDict(name: string, plugin: Value) returns (r: Result<(), string>)
      requires Valid()
      modifies dict
      ensures Valid()
      ensures var o := RegisterOne(old(Stores()), "dict", name, plugin);
        (o.Ok? ==> r.Ok? && Stores() == o.value) && (o.Err? ==> r == Err(o.error) && Stores() == old(Stores()))
    {
      ghost var g := Stores();
      ghost var o := RegisterOne(g, "dict", name, plugin);
      r := PluginDict.Add(dict, Str(name), plugin);
      if r.Ok? {
        assert o == Ok(g.(dict := JsObject.Set(g.dict, name, plugin)));
        assert Stores() == o.value;
      } else {
        assert o == Err(r.error);
        assert Stores() == g;
      }
    }

    /** `registers[kind].remove(name)` on the register objects. */
    method Unregister(kind: string, name: string) returns (r: Result<(), string>)
      requires Valid()
      modifies input, output, dict, configs
      ensures Valid()
      ensures var o := RemoveOne(old(Stores()), kind, name);
        (o.Ok? ==> r.Ok? && Stores() == o.value) && (o.Err? ==> r == Err(o.error) && Stores() == old(Stores()))
    {
      if kind == "input" {
        var _ := input.Delete(name);
        r := Ok(());
      } else if kind == "output" {
        PluginOutput.Remove(output, name);
        r := Ok(());
      } else if kind == "dict" {
        PluginDict.Remove(dict, name);
        r := Ok(());
      } else if kind == "config" {
        configs.Remove(name);
        r := Ok(());
      } else {
        r := Err("TypeError: Cannot read properties of undefined (reading 'remove')");
      }
    }

    /** The inner loop of `add` over the plugins of one kind. */
    method AddNamesOf(main: Props<Props<Value>>, kind: string, names: seq<(string, Value)>)
      returns (main': Props<Props<Value>>, r: Result<(), string>)
      requires Valid()
      modifies input, output, dict, configs
      ensures Valid()
      ensures var o := AddNames(old(Stores()), main, kind, names);
        Stores() == o.regs && main' == o.main && (r.Err? <==> o.error.Some?) && (r.Err? ==> r.error == o.error.value)
    {
      main' := main;
      r := Ok(());
      var j := 0;
      while j < |names|
        invariant 0 <= j <= |names| && Valid() && r.Ok?
        invariant AddNames(old(Stores()), main, kind, names) == AddNames(Stores(), main', kind, names[j..])
      {
        assert names[j..][1..] == names[j + 1..];
        var (name, plugin) := names[j];
        main' := JsObject.Set(main', kind, JsObject.Set(KindIndex(main', kind), name, Bool(true)));
        r := Register(kind, name, plugin);
        if r.Err? {
          return;
        }
        j := j + 1;
      }
    }

    /** One round of the outer loop of `add`, over the plugins of one kind. */
    method AddKindOf(main: Props<Props<Value>>, ref: string, kind: string, plugins: Value)
      returns (main': Props<Props<Value>>, r: Result<(), string>)
      requires Valid()
      modifies input, output, dict, configs
      ensures Valid()
      ensures var o := AddKind(old(Stores()), main, ref, kind, plugins);
        Stores() == o.regs && main' == o.main && (r.Err? <==> o.error.Some?) && (r.Err? ==> r.error == o.error.value)
    {
      if kind == "config" {
        main' := JsObject.Set(main, "config", [(ref, plugins)]);
        configs.Add(ref, plugins);
        r := Ok(());
      } else {
        main', r := AddNamesOf(JsObject.Set(main, kind, []), kind, ForIn(plugins));
      }
    }

    /** `add(ref, plugins)`: the registers and the package's index end as
        the two loops leave them, also when a register throws half-way; the
        index is stored under the reference either way. */
    method Add(ref: string, plugins: Value) returns (r: Result<(), string>)
      requires Valid()
      modifies this, input, output, dict, configs
      ensures Valid()
      ensures var o := AddKinds(old(Stores()), [], ref, ForIn(plugins));
        Stores() == o.regs && indices == JsObject.Set(old(indices), ref, o.main) &&
        (r.Err? <==> o.error.Some?) && (r.Err? ==> r.error == o.error.value)
    {
      var kinds := ForIn(plugins);
      var main: Props<Props<Value>> := [];
      r := Ok(());
      var i := 0;
      while i < |kinds|
        invariant 0 <= i <= |kinds| && Valid() && r.Ok?
        invariant indices == old(indices)
        invariant AddKinds(Stores(), main, ref, kinds[i..]) == AddKinds(old(Stores()), [], ref, kinds)
      {
        assert kinds[i..][1..] == kinds[i + 1..];
        main, r := AddKindOf(main, ref, kinds[i].0, kinds[i].1);
        if r.Err? {
          SetGet(indices, ref, main, ref);
          indices := JsObject.Set(indices, ref, main);
          return;
        }
        i := i + 1;
      }
      SetGet(indices, ref, main, ref);
      indices := JsObject.Set(indices, ref, main);
    }

    /** The inner loop of `remove`: each name recorded under one kind, in
        order, stopping at the first failure. */
    method UnregisterAll(kind: string, names: seq<string>) returns (r: Result<(), string>)
      requires Valid()
      modifies input, output, dict, configs
      ensures Valid()
      ensures var o := RemoveNames(old(Stores()), kind, names);
        (o.Ok? ==> r.Ok? && Stores() == o.value) && (o.Err? ==> r == Err(o.error))
    {
      r := Ok(());
      var j := 0;
      while j < |names|
        invariant 0 <= j <= |names| && Valid() && r.Ok?
        invariant RemoveNames(old(Stores()), kind, names) == RemoveNames(Stores(), kind, names[j..])
      {
        assert names[j..][1..] == names[j + 1..];
        r := Unregister(kind, names[j]);
        if r.Err? {
          return;
        }
        j := j + 1;
      }
    }

    /** `remove(ref)`: every recorded name is taken out of its register, then
        the package's index is deleted; a reference never added removes
        nothing. */
    method Remove(ref: string) returns (r: Result<(), string>)
      requires Valid()
      modifies this, input, output, dict, configs
      ensures Valid()
      ensures var o := RemoveKinds(old(Stores()), match JsObject.Get(old(indices), ref) case Some(m) => m case None => []);
        (o.Ok? ==> r.Ok? && Stores() == o.value && indices == JsObject.Delete(old(indices), ref)) &&
        (o.Err? ==> r == Err(o.error) && indices == old(indices))
    {
      var main: Props<Props<Value>> := match JsObject.Get(indices, ref) case Some(m) => m case None => [];
      r := Ok(());
      var i := 0;
      while i < |main|
        invariant 0 <= i <= |main| && Valid() && r.Ok?
        invariant indices == old(indices)
        invariant RemoveKinds(Stores(), main[i..]) == RemoveKinds(old(Stores()), main)
      {
        assert main[i..][1..] == main[i + 1..];
        var (kind, kindIndex) := main[i];
        r := UnregisterAll(kind, Keys(kindIndex));
        if r.Err? {
          return;
        }
        i := i + 1;
      }
      DeleteGet(indices, ref, ref);
      indices := JsObject.Delete(indices, ref);
    }

    /** `has(ref)`. */
    method Has(ref: string) returns (b: bool)
      ensures b <==> ref in Keys(indices)
    {
      HasIffKey(indices, ref);
      b := JsObject.Has(indices, ref);
    }

    /** `list()`: the references of the added packages. */
    method List() returns (refs: seq<string>)
      ensures refs == ObjectKeys(indices)
    {
      refs := Keys(Enumerated(indices));
    }
  }
}
