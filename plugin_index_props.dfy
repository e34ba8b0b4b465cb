// What the plugin index keeps: after `add` every plugin is in the register of
// its kind and recorded under the package's reference; `remove` then takes
// every recorded name out of its register.

module PluginIndexProps {
  import opened Base
  import opened JsObject
  import opened JsValue
  import opened PluginIndex

  /** The register of a kind, empty for a kind there is no register for. */
  function Reg(g: Regs, kind: string): Props<Value> {
    match RegOf(g, kind)
    case Some(r) => r
    case None => []
  }

  /** Registering one plugin writes the register of its kind alone, and
      there only its name. */
  lemma RegisterOneFrame(g: Regs, kind: string, name: string, plugin: Value)
    requires RegisterOne(g, kind, name, plugin).Ok?
    ensures RegOf(g, kind).Some?
    ensures var g' := RegisterOne(g, kind, name, plugin).value;
      JsObject.Get(Reg(g', kind), name) == Some(plugin) &&
      (forall k :: k != name ==> JsObject.Get(Reg(g', kind), k) == JsObject.Get(Reg(g, kind), k)) &&
      (forall other :: other != kind ==> RegOf(g', other) == RegOf(g, other))
  {
    RegisterOneWrites(g, kind, name, plugin);
    forall k ensures JsObject.Get(JsObject.Set(Reg(g, kind), name, plugin), name) == Some(plugin)
      && (k != name ==> JsObject.Get(JsObject.Set(Reg(g, kind), name, plugin), k) == JsObject.Get(Reg(g, kind), k)) {
      SetGet(Reg(g, kind), name, plugin, k);
    }
  }

  lemma RegisterOneWrites(g: Regs, kind: string, name: string, plugin: Value)
    requires RegisterOne(g, kind, name, plugin).Ok?
    ensures RegOf(g, kind).Some?
    ensures var g' := RegisterOne(g, kind, name, plugin).value;
      Reg(g', kind) == JsObject.Set(Reg(g, kind), name, plugin) &&
      forall other :: other != kind ==> RegOf(g', other) == RegOf(g, other)
  {
    var g' := RegisterOne(g, kind, name, plugin).value;
    var reg := JsObject.Set(Reg(g, kind), name, plugin);
    assert RegOf(g, kind).Some? && g' == WithReg(g, kind, reg) by {
      if kind == "input" {
      } else if kind == "output" {
      } else if kind == "dict" {
      } else {
      }
    }
    WithRegFrame(g, kind, reg);
  }

  /** The registers with the one of `kind` replaced. */
  function WithReg(g: Regs, kind: string, reg: Props<Value>): Regs {
    if kind == "input" then g.(input := reg)
    else if kind == "output" then g.(output := reg)
    else if kind == "dict" then g.(dict := reg)
    else if kind == "config" then g.(config := reg)
    else g
  }

  lemma WithRegFrame(g: Regs, kind: string, reg: Props<Value>)
    requires RegOf(g, kind).Some?
    ensures Reg(WithReg(g, kind, reg), kind) == reg
    ensures forall other :: other != kind ==> RegOf(WithReg(g, kind, reg), other) == RegOf(g, other)
  {
  }

  /** Removing one name writes the register of its kind alone. */
  lemma RemoveOneFrame(g: Regs, kind: string, name: string)
    requires RemoveOne(g, kind, name).Ok?
    ensures RegOf(g, kind).Some?
    ensures var g' := RemoveOne(g, kind, name).value;
      Reg(g', kind) == JsObject.Delete(Reg(g, kind), name) &&
      (forall other :: other != kind ==> RegOf(g', other) == RegOf(g, other)) &&
      (RegsValid(g) ==> RegsValid(g'))
  {
    if kind == "input" {
      if RegsValid(g) { DeleteGet(g.input, name, name); }
    } else if kind == "output" {
      if RegsValid(g) { DeleteGet(g.output, name, name); }
    } else if kind == "dict" {
      if RegsValid(g) { DeleteGet(g.dict, name, name); }
    } else {
      if RegsValid(g) { DeleteGet(g.config, name, name); }
    }
  }

  /** The inner loop touches neither the registers of other kinds nor their
      indexes. */
  lemma {:induction false} AddNamesFrame(g: Regs, main: Props<Props<Value>>, kind: string, names: seq<(string, Value)>, other: string)
    requires other != kind
    ensures RegOf(AddNames(g, main, kind, names).regs, other) == RegOf(g, other)
    ensures JsObject.Get(AddNames(g, main, kind, names).main, other) == JsObject.Get(main, other)
    decreases |names|
  {
    if names != [] {
      var (name, plugin) := names[0];
      var main' := JsObject.Set(main, kind, JsObject.Set(KindIndex(main, kind), name, Bool(true)));
      SetGet(main, kind, JsObject.Set(KindIndex(main, kind), name, Bool(true)), other);
      if RegisterOne(g, kind, name, plugin).Ok? {
        RegisterOneFrame(g, kind, name, plugin);
        AddNamesFrame(RegisterOne(g, kind, name, plugin).value, main', kind, names[1..], other);
      }
    }
  }

  /** A key the inner loop does not visit keeps its value in the register
      and its entry in the index of that kind. */
  lemma {:induction false} AddNamesKeeps(g: Regs, main: Props<Props<Value>>, kind: string, names: seq<(string, Value)>, k: string)
    requires forall j :: 0 <= j < |names| ==> names[j].0 != k
    ensures JsObject.Get(Reg(AddNames(g, main, kind, names).regs, kind), k) == JsObject.Get(Reg(g, kind), k)
    ensures JsObject.Get(KindIndex(AddNames(g, main, kind, names).main, kind), k) == JsObject.Get(KindIndex(main, kind), k)
    decreases |names|
  {
    if names != [] {
      var (name, plugin) := names[0];
      var idx := JsObject.Set(KindIndex(main, kind), name, Bool(true));
      var main' := JsObject.Set(main, kind, idx);
      SetGet(main, kind, idx, kind);
      SetGet(KindIndex(main, kind), name, Bool(true), k);
      assert KindIndex(main', kind) == idx;
      if RegisterOne(g, kind, name, plugin).Ok? {
        RegisterOneFrame(g, kind, name, plugin);
        AddNamesKeeps(RegisterOne(g, kind, name, plugin).value, main', kind, names[1..], k);
      }
    }
  }

  /** An inner loop that does not throw leaves each plugin of the kind in its
      register and its name in the kind's index. */
  lemma {:induction false} AddNamesRegisters(g: Regs, main: Props<Props<Value>>, kind: string, names: seq<(string, Value)>)
    requires Distinct(names)
    requires AddNames(g, main, kind, names).error.None?
    ensures var o := AddNames(g, main, kind, names);
      forall j :: 0 <= j < |names| ==>
        JsObject.Get(Reg(o.regs, kind), names[j].0) == Some(names[j].1) &&
        JsObject.Get(KindIndex(o.main, kind), names[j].0) == Some(Bool(true))
    decreases |names|
  {
    if names != [] {
      var (name, plugin) := names[0];
      var idx := JsObject.Set(KindIndex(main, kind), name, Bool(true));
      var main' := JsObject.Set(main, kind, idx);
      var g' := RegisterOne(g, kind, name, plugin).value;
      var rest := names[1..];
      assert forall j :: 0 <= j < |rest| ==> rest[j].0 != name by {
        forall j | 0 <= j < |rest| ensures rest[j].0 != name { assert rest[j] == names[j + 1]; }
      }
      assert Distinct(rest) by {
        forall i, j | 0 <= i < j < |rest| ensures rest[i].0 != rest[j].0 { assert rest[i] == names[i + 1] && rest[j] == names[j + 1]; }
      }
      RegisterOneFrame(g, kind, name, plugin);
      SetGet(main, kind, idx, kind);
      SetGet(KindIndex(main, kind), name, Bool(true), name);
      assert KindIndex(main', kind) == idx;
      AddNamesKeeps(g', main', kind, rest, name);
      AddNamesRegisters(g', main', kind, rest);
      forall j | 1 <= j < |names|
        ensures JsObject.Get(Reg(AddNames(g, main, kind, names).regs, kind), names[j].0) == Some(names[j].1)
        ensures JsObject.Get(KindIndex(AddNames(g, main, kind, names).main, kind), names[j].0) == Some(Bool(true))
      {
        assert names[j] == rest[j - 1];
      }
    }
  }

  /** The outer loop leaves the register and the index entry of a kind it
      does not visit as they were. */
  lemma {:induction false} AddKindsFrame(g: Regs, main: Props<Props<Value>>, ref: string, kinds: seq<(string, Value)>, k: string)
    requires forall i :: 0 <= i < |kinds| ==> kinds[i].0 != k
    ensures RegOf(AddKinds(g, main, ref, kinds).regs, k) == RegOf(g, k)
    ensures JsObject.Get(AddKinds(g, main, ref, kinds).main, k) == JsObject.Get(main, k)
    decreases |kinds|
  {
    if kinds != [] {
      var (kind, plugins) := kinds[0];
      var o := AddKind(g, main, ref, kind, plugins);
      if kind == "config" {
        SetGet(main, "config", [(ref, plugins)], k);
      } else {
        SetGet(main, kind, [], k);
        AddNamesFrame(g, JsObject.Set(main, kind, []), kind, ForIn(plugins), k);
      }
      if o.error.None? {
        assert forall i :: 0 <= i < |kinds[1..]| ==> kinds[1..][i].0 != k by {
          forall i | 0 <= i < |kinds[1..]| ensures kinds[1..][i].0 != k { assert kinds[1..][i] == kinds[i + 1]; }
        }
        AddKindsFrame(o.regs, o.main, ref, kinds[1..], k);
      }
    }
  }

  /** One kind, when it does not throw: a configuration is stored under the
      reference and indexed under it; the plugins of another kind are each in
      its register and in its index. */
  predicate KindAdded(o: Outcome, ref: string, kind: string, plugins: Value) {
    if kind == "config" then
      JsObject.Get(o.regs.config, ref) == Some(plugins) && JsObject.Get(o.main, "config") == Some([(ref, plugins)])
    else
      Distinct(ForIn(plugins)) ==>
        forall j :: 0 <= j < |ForIn(plugins)| ==>
          JsObject.Get(Reg(o.regs, kind), ForIn(plugins)[j].0) == Some(ForIn(plugins)[j].1) &&
          JsObject.Get(KindIndex(o.main, kind), ForIn(plugins)[j].0) == Some(Bool(true))
  }

  /** `KindAdded` survives the kinds after it. */
  lemma KindAddedKept(o: Outcome, o': Outcome, ref: string, kind: string, plugins: Value)
    requires KindAdded(o, ref, kind, plugins)
    requires RegOf(o'.regs, kind) == RegOf(o.regs, kind) && JsObject.Get(o'.main, kind) == JsObject.Get(o.main, kind)
    ensures KindAdded(o', ref, kind, plugins)
  {
    assert KindIndex(o'.main, kind) == KindIndex(o.main, kind);
  }

  /** One kind on its own, when it does not throw. */
  lemma AddKindAdds(g: Regs, main: Props<Props<Value>>, ref: string, kind: string, plugins: Value)
    requires AddKind(g, main, ref, kind, plugins).error.None?
    ensures KindAdded(AddKind(g, main, ref, kind, plugins), ref, kind, plugins)
  {
    if kind == "config" {
      SetGet(g.config, ref, plugins, ref);
      SetGet(main, "config", [(ref, plugins)], "config");
    } else if Distinct(ForIn(plugins)) {
      AddNamesRegisters(g, JsObject.Set(main, kind, []), kind, ForIn(plugins));
    }
  }

  /** `add(ref, plugins)` without a throw: every kind is added. */
  lemma {:induction false} AddKindsAdds(g: Regs, main: Props<Props<Value>>, ref: string, kinds: seq<(string, Value)>)
    requires Distinct(kinds)
    requires AddKinds(g, main, ref, kinds).error.None?
    ensures forall i :: 0 <= i < |kinds| ==> KindAdded(AddKinds(g, main, ref, kinds), ref, kinds[i].0, kinds[i].1)
    decreases |kinds|
  {
    if kinds != [] {
      var (kind, plugins) := kinds[0];
      var o := AddKind(g, main, ref, kind, plugins);
      var rest := kinds[1..];
      var whole := AddKinds(g, main, ref, kinds);
      assert whole == AddKinds(o.regs, o.main, ref, rest);
      assert forall i :: 0 <= i < |rest| ==> rest[i].0 != kind by {
        forall i | 0 <= i < |rest| ensures rest[i].0 != kind { assert rest[i] == kinds[i + 1]; }
      }
      assert Distinct(rest) by {
        forall i, j | 0 <= i < j < |rest| ensures rest[i].0 != rest[j].0 { assert rest[i] == kinds[i + 1] && rest[j] == kinds[j + 1]; }
      }
      AddKindAdds(g, main, ref, kind, plugins);
      AddKindsFrame(o.regs, o.main, ref, rest, kind);
      KindAddedKept(o, whole, ref, kind, plugins);
      AddKindsAdds(o.regs, o.main, ref, rest);
      forall i | 1 <= i < |kinds| ensures KindAdded(whole, ref, kinds[i].0, kinds[i].1) {
        assert kinds[i] == rest[i - 1];
      }
    }
  }

  // ---------------------------------------------------------------------
  // Removal

  /** Removing one name: the name is gone from its register, names that were
      gone stay gone, and the registers keep each key once. */
  lemma RemoveOneClears(g: Regs, kind: string, name: string)
    requires RegsValid(g) && RemoveOne(g, kind, name).Ok?
    ensures var g' := RemoveOne(g, kind, name).value;
      RegsValid(g') && !JsObject.Has(Reg(g', kind), name) &&
      forall kd, k :: !JsObject.Has(Reg(g, kd), k) ==> !JsObject.Has(Reg(g', kd), k)
  {
    var g' := RemoveOne(g, kind, name).value;
    RemoveOneFrame(g, kind, name);
    RegDistinct(g, kind);
    DeleteGet(Reg(g, kind), name, name);
    forall kd, k | !JsObject.Has(Reg(g, kd), k) ensures !JsObject.Has(Reg(g', kd), k) {
      if kd == kind {
        DeleteGet(Reg(g, kind), name, k);
      } else {
        assert RegOf(g', kd) == RegOf(g, kd);
      }
    }
  }

  lemma RegDistinct(g: Regs, kind: string)
    requires RegsValid(g)
    ensures Distinct(Reg(g, kind))
  {
  }

  /** Removing a run of names from one register. */
  lemma {:induction false} RemoveNamesClears(g: Regs, kind: string, names: seq<string>)
    requires RegsValid(g) && RemoveNames(g, kind, names).Ok?
    ensures var g' := RemoveNames(g, kind, names).value;
      RegsValid(g') &&
      (forall j :: 0 <= j < |names| ==> !JsObject.Has(Reg(g', kind), names[j])) &&
      (forall kd, k :: !JsObject.Has(Reg(g, kd), k) ==> !JsObject.Has(Reg(g', kd), k))
    decreases |names|
  {
    if names != [] {
      RemoveOneClears(g, kind, names[0]);
      var g1 := RemoveOne(g, kind, names[0]).value;
      RemoveNamesClears(g1, kind, names[1..]);
      forall j | 1 <= j < |names| ensures !JsObject.Has(Reg(RemoveNames(g, kind, names).value, kind), names[j]) {
        assert names[j] == names[1..][j - 1];
      }
    }
  }

  /** `remove(ref)` without a throw: no name recorded in the package's index
      is left in the register of its kind. */
  lemma {:induction false} RemoveKindsClears(g: Regs, main: Props<Props<Value>>)
    requires RegsValid(g) && RemoveKinds(g, main).Ok?
    ensures var g' := RemoveKinds(g, main).value;
      RegsValid(g') &&
      (forall i, n :: 0 <= i < |main| && n in Keys(main[i].1) ==> !JsObject.Has(Reg(g', main[i].0), n)) &&
      (forall kd, k :: !JsObject.Has(Reg(g, kd), k) ==> !JsObject.Has(Reg(g', kd), k))
    decreases |main|
  {
    if main != [] {
      var names := Keys(main[0].1);
      RemoveNamesClears(g, main[0].0, names);
      var g1 := RemoveNames(g, main[0].0, names).value;
      RemoveKindsClears(g1, main[1..]);
      var g' := RemoveKinds(g, main).value;
      forall i, n | 0 <= i < |main| && n in Keys(main[i].1) ensures !JsObject.Has(Reg(g', main[i].0), n) {
        if i == 0 {
          var j :| 0 <= j < |names| && names[j] == n;
        } else {
          assert main[i] == main[1..][i - 1];
        }
      }
    }
  }

  // ---------------------------------------------------------------------
  // Adding, then removing

  /** Every kind named in an index either has a register or no names. */
  predicate IndexSound(main: Props<Props<Value>>) {
    forall i :: 0 <= i < |main| ==> RegOf(Regs([], [], [], []), main[i].0).Some? || main[i].1 == []
  }

  lemma {:induction false} RemoveNamesOk(g: Regs, kind: string, names: seq<string>)
    requires RegOf(g, kind).Some? || names == []
    ensures RemoveNames(g, kind, names).Ok?
    decreases |names|
  {
    if names != [] {
      RemoveNamesOk(RemoveOne(g, kind, names[0]).value, kind, names[1..]);
    }
  }

  /** An index in which every kind has a register is removed without a throw. */
  lemma {:induction false} RemoveKindsOk(g: Regs, main: Props<Props<Value>>)
    requires IndexSound(main)
    ensures RemoveKinds(g, main).Ok?
    decreases |main|
  {
    if main != [] {
      RemoveNamesOk(g, main[0].0, Keys(main[0].1));
      assert IndexSound(main[1..]) by {
        forall i | 0 <= i < |main[1..]| ensures RegOf(Regs([], [], [], []), main[1..][i].0).Some? || main[1..][i].1 == [] {
          assert main[1..][i] == main[i + 1];
        }
      }
      RemoveKindsOk(RemoveNames(g, main[0].0, Keys(main[0].1)).value, main[1..]);
    }
  }

  /** The inner loop, when it does not throw, adds only names of kinds that
      have a register. */
  lemma {:induction false} AddNamesSound(g: Regs, main: Props<Props<Value>>, kind: string, names: seq<(string, Value)>)
    requires IndexSound(main) && AddNames(g, main, kind, names).error.None?
    requires RegOf(g, kind).Some? || KindIndex(main, kind) == []
    ensures IndexSound(AddNames(g, main, kind, names).main)
    decreases |names|
  {
    if names != [] {
      var (name, plugin) := names[0];
      var idx := JsObject.Set(KindIndex(main, kind), name, Bool(true));
      RegisterOneFrame(g, kind, name, plugin);
      SetSound(main, kind, idx);
      AddNamesSound(RegisterOne(g, kind, name, plugin).value, JsObject.Set(main, kind, idx), kind, names[1..]);
    }
  }

  /** An assignment of a kind that has a register, or of no names, keeps an
      index sound. */
  lemma SetSound(main: Props<Props<Value>>, kind: string, idx: Props<Value>)
    requires IndexSound(main) && (RegOf(Regs([], [], [], []), kind).Some? || idx == [])
    ensures IndexSound(JsObject.Set(main, kind, idx))
  {
    var r := JsObject.Set(main, kind, idx);
    forall i | 0 <= i < |r| ensures RegOf(Regs([], [], [], []), r[i].0).Some? || r[i].1 == [] {
      if i < |main| && r[i] == main[i] {
      } else {
        assert r[i] == (kind, idx);
      }
    }
  }

  /** The outer loop, when it does not throw, leaves a sound index. */
  lemma {:induction false} AddKindsSound(g: Regs, main: Props<Props<Value>>, ref: string, kinds: seq<(string, Value)>)
    requires IndexSound(main) && AddKinds(g, main, ref, kinds).error.None?
    ensures IndexSound(AddKinds(g, main, ref, kinds).main)
    decreases |kinds|
  {
    if kinds != [] {
      var (kind, plugins) := kinds[0];
      if kind == "config" {
        SetSound(main, "config", [(ref, plugins)]);
      } else {
        SetSound(main, kind, []);
        SetGet(main, kind, [], kind);
        AddNamesSound(g, JsObject.Set(main, kind, []), kind, ForIn(plugins));
      }
      var o := AddKind(g, main, ref, kind, plugins);
      AddKindsSound(o.regs, o.main, ref, kinds[1..]);
    }
  }

  /** The inner loop keeps the registers' keys distinct. */
  lemma {:induction false} AddNamesValid(g: Regs, main: Props<Props<Value>>, kind: string, names: seq<(string, Value)>)
    requires RegsValid(g)
    ensures RegsValid(AddNames(g, main, kind, names).regs)
    decreases |names|
  {
    if names != [] {
      var (name, plugin) := names[0];
      if RegisterOne(g, kind, name, plugin).Ok? {
        SetGet(Reg(g, kind), name, plugin, name);
        var main' := JsObject.Set(main, kind, JsObject.Set(KindIndex(main, kind), name, Bool(true)));
        AddNamesValid(RegisterOne(g, kind, name, plugin).value, main', kind, names[1..]);
      }
    }
  }

  /** The outer loop keeps the registers' keys distinct. */
  lemma {:induction false} AddKindsValid(g: Regs, main: Props<Props<Value>>, ref: string, kinds: seq<(string, Value)>)
    requires RegsValid(g)
    ensures RegsValid(AddKinds(g, main, ref, kinds).regs)
    decreases |kinds|
  {
    if kinds != [] {
      var (kind, plugins) := kinds[0];
      if kind == "config" {
        SetGet(g.config, ref, plugins, ref);
      } else {
        AddNamesValid(g, JsObject.Set(main, kind, []), kind, ForIn(plugins));
      }
      var o := AddKind(g, main, ref, kind, plugins);
      if o.error.None? {
        AddKindsValid(o.regs, o.main, ref, kinds[1..]);
      }
    }
  }

  /** A name in the index of a kind is among the keys of that index entry. */
  lemma IndexedName(main: Props<Props<Value>>, kind: string, n: string)
    requires JsObject.Get(KindIndex(main, kind), n).Some?
    ensures exists i :: 0 <= i < |main| && main[i].0 == kind && n in Keys(main[i].1)
  {
    var i := IndexOfKey(main, kind);
    assert i >= 0;
    HasIffKey(main[i].1, n);
  }

  /** `remove(ref)` right after an `add(ref, plugins)` that did not throw
      takes every plugin it added back out of its register, the
      configuration included. */
  lemma AddThenRemoveClears(g: Regs, ref: string, kinds: seq<(string, Value)>)
    requires RegsValid(g) && Distinct(kinds)
    requires AddKinds(g, [], ref, kinds).error.None?
    ensures var o := AddKinds(g, [], ref, kinds);
      var removed := RemoveKinds(o.regs, o.main);
      removed.Ok? &&
      forall i :: 0 <= i < |kinds| ==>
        (kinds[i].0 == "config" ==> !JsObject.Has(removed.value.config, ref)) &&
        (kinds[i].0 != "config" && Distinct(ForIn(kinds[i].1)) ==>
          forall j :: 0 <= j < |ForIn(kinds[i].1)| ==> !JsObject.Has(Reg(removed.value, kinds[i].0), ForIn(kinds[i].1)[j].0))
  {
    var o := AddKinds(g, [], ref, kinds);
    AddKindsSound(g, [], ref, kinds);
    AddKindsValid(g, [], ref, kinds);
    RemoveKindsOk(o.regs, o.main);
    RemoveKindsClears(o.regs, o.main);
    AddKindsAdds(g, [], ref, kinds);
    var g' := RemoveKinds(o.regs, o.main).value;
    forall i | 0 <= i < |kinds|
      ensures kinds[i].0 == "config" ==> !JsObject.Has(g'.config, ref)
      ensures kinds[i].0 != "config" && Distinct(ForIn(kinds[i].1)) ==>
          forall j :: 0 <= j < |ForIn(kinds[i].1)| ==> !JsObject.Has(Reg(g', kinds[i].0), ForIn(kinds[i].1)[j].0)
    {
      assert KindAdded(o, ref, kinds[i].0, kinds[i].1);
      if kinds[i].0 == "config" {
        assert KindIndex(o.main, "config") == [(ref, kinds[i].1)];
        IndexedName(o.main, "config", ref);
        assert Reg(g', "config") == g'.config;
      } else if Distinct(ForIn(kinds[i].1)) {
        forall j | 0 <= j < |ForIn(kinds[i].1)| ensures !JsObject.Has(Reg(g', kinds[i].0), ForIn(kinds[i].1)[j].0) {
          IndexedName(o.main, kinds[i].0, ForIn(kinds[i].1)[j].0);
        }
      }
    }
  }
}
