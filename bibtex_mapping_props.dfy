// Properties of crossref inheritance and of `_parse`: the registry keeps the
// last entry of each label, an entry's own fields win over inherited ones,
// inheritance runs through the parent's own parent, a cycle of two entries
// overflows the stack, and every entry is converted once, in order.

module BibtexMappingProps {
  import opened Base
  import opened JsObject
  import opened JsValue
  import opened BibtexFile
  import opened BibtexMapping

  /** Registering an entry of another label leaves a label's entry alone. */
  lemma {:induction false} RegistryOther(es: seq<BibEntry>, l: string)
    requires es != [] && es[|es| - 1].entryLabel != l
    ensures Get(Registry(es), l) == Get(Registry(es[..|es| - 1]), l)
  {
    var n := |es| - 1;
    SetGet(Registry(es[..n]), es[n].entryLabel, n, l);
  }

  /** A label some entry has is registered. */
  lemma {:induction false} RegistryHas(es: seq<BibEntry>, l: string, i: nat)
    requires i < |es| && es[i].entryLabel == l
    ensures Get(Registry(es), l).Some?
    decreases |es|
  {
    var n := |es| - 1;
    if es[n].entryLabel == l {
      SetGet(Registry(es[..n]), l, n, l);
    } else {
      RegistryOther(es, l);
      RegistryHas(es[..n], l, i);
    }
  }

  /** A registered label stands for an entry with that label, and no later
      entry has it. */
  lemma {:induction false} RegistryLast(es: seq<BibEntry>, l: string, k: nat)
    requires Get(Registry(es), l).Some?
    ensures var j := Get(Registry(es), l).value;
      j < |es| && es[j].entryLabel == l && (j < k < |es| ==> es[k].entryLabel != l)
    decreases |es|
  {
    var n := |es| - 1;
    if es[n].entryLabel == l {
      SetGet(Registry(es[..n]), l, n, l);
    } else {
      RegistryOther(es, l);
      RegistryLast(es[..n], l, k);
      if k < n {
        assert es[..n][k] == es[k];
      }
    }
  }

  /** A longer chain of waiting calls can only turn a result into the stack
      overflow: a result reached with more calls waiting is the result. */
  lemma {:induction false} StackIrrelevant(es: seq<BibEntry>, reg: Props<nat>, i: nat, big: set<nat>, small: set<nat>, reading: Reading)
    requires i < |es| && Indexes(reg, |es|) && i !in big && small <= big
    requires Inherit(es, reg, i, big, reading).Ok?
    ensures Inherit(es, reg, i, small, reading) == Inherit(es, reg, i, big, reading)
    decreases |Positions(|es|) - big|
  {
    match Parent(es, reg, i, reading)
    case None =>
    case Some(j) =>
      if j != i {
        Shrinks(|es|, big, i);
        StackIrrelevant(es, reg, j, big + {i}, small + {i}, reading);
      }
  }

  /** Resolved fields have distinct keys when the entries' fields do. */
  lemma {:induction false} InheritDistinct(es: seq<BibEntry>, reg: Props<nat>, i: nat, stack: set<nat>, reading: Reading)
    requires i < |es| && Indexes(reg, |es|) && i !in stack && AllDistinct(es)
    requires Inherit(es, reg, i, stack, reading).Ok?
    ensures Distinct(Inherit(es, reg, i, stack, reading).value)
    decreases |Positions(|es|) - stack|
  {
    match Parent(es, reg, i, reading)
    case None =>
    case Some(j) =>
      if j != i {
        Shrinks(|es|, stack, i);
        InheritDistinct(es, reg, j, stack + {i}, reading);
        var p := Inherit(es, reg, j, stack + {i}, reading).value;
        AssignGet([], p, "");
        AssignGet(Assign([], p), es[i].properties, "");
      }
  }

  /** Without a registered parent, or as its own parent, an entry keeps
      exactly its own fields. */
  lemma {:induction false} Unchanged(es: seq<BibEntry>, reg: Props<nat>, i: nat, reading: Reading)
    requires i < |es| && Indexes(reg, |es|)
    requires Parent(es, reg, i, reading).None? || Parent(es, reg, i, reading) == Some(i)
    ensures Crossref(es, reg, i, reading) == Ok(es[i].properties)
  {
  }

  /** With a parent, every field the entry has is its own and every other
      field is the parent's, with the parent's own parent resolved first. */
  lemma {:induction false} InheritedFields(es: seq<BibEntry>, reg: Props<nat>, i: nat, reading: Reading, key: string)
    requires i < |es| && Indexes(reg, |es|) && AllDistinct(es)
    requires Crossref(es, reg, i, reading).Ok?
    requires Parent(es, reg, i, reading).Some? && Parent(es, reg, i, reading) != Some(i)
    ensures var j := Parent(es, reg, i, reading).value;
      Crossref(es, reg, j, reading).Ok? &&
      Get(Crossref(es, reg, i, reading).value, key) ==
        if Has(es[i].properties, key) then Get(es[i].properties, key)
        else Get(Crossref(es, reg, j, reading).value, key)
  {
    var j := Parent(es, reg, i, reading).value;
    Shrinks(|es|, {}, i);
    StackIrrelevant(es, reg, j, {i}, {}, reading);
    var p := Inherit(es, reg, j, {i}, reading).value;
    InheritDistinct(es, reg, j, {i}, reading);
    AssignGet([], p, key);
    AssignGet(Assign([], p), es[i].properties, key);
  }

  /** An entry resolves when its parent resolves with it waiting. */
  lemma {:induction false} StepOk(es: seq<BibEntry>, reg: Props<nat>, i: nat, j: nat, stack: set<nat>, reading: Reading)
    requires i < |es| && j < |es| && Indexes(reg, |es|) && i !in stack && j !in stack && i != j
    requires Parent(es, reg, i, reading) == Some(j)
    requires Inherit(es, reg, j, stack + {i}, reading).Ok?
    ensures Inherit(es, reg, i, stack, reading).Ok?
  {
    Shrinks(|es|, stack, i);
  }

  /** Inheritance is transitive: a field only the grandparent has reaches
      the entry through its parent. */
  lemma {:induction false} Grandparent(es: seq<BibEntry>, reg: Props<nat>, i: nat, j: nat, g: nat, reading: Reading, key: string)
    requires i < |es| && j < |es| && g < |es| && Indexes(reg, |es|)
    requires i != j && j != g && i != g
    requires AllDistinct(es)
    requires Parent(es, reg, i, reading) == Some(j) && Parent(es, reg, j, reading) == Some(g)
    requires Parent(es, reg, g, reading).None?
    requires !Has(es[i].properties, key) && !Has(es[j].properties, key)
    ensures Crossref(es, reg, i, reading).Ok?
    ensures Get(Crossref(es, reg, i, reading).value, key) == Get(es[g].properties, key)
  {
    assert {} + {i} == {i};
    StepOk(es, reg, j, g, {i}, reading);
    StepOk(es, reg, i, j, {}, reading);
    InheritedFields(es, reg, i, reading, key);
    InheritedFields(es, reg, j, reading, key);
  }

  /** Two entries naming each other never finish resolving. */
  lemma {:induction false} TwoCycle(es: seq<BibEntry>, reg: Props<nat>, i: nat, j: nat, reading: Reading)
    requires i < |es| && j < |es| && Indexes(reg, |es|) && i != j
    requires Parent(es, reg, i, reading) == Some(j) && Parent(es, reg, j, reading) == Some(i)
    ensures Crossref(es, reg, i, reading) == Err(StackOverflow)
  {
    Shrinks(|es|, {}, i);
    assert Inherit(es, reg, j, {i}, reading) == Err(StackOverflow);
  }

  /** `_parse` succeeds when every entry resolves, with one output per
      entry, in order: the mapping of the entry's type, label and resolved
      fields. */
  lemma {:induction false} ParseOk(es: seq<BibEntry>, reading: Reading, toTarget: Props<Value> -> Value)
    requires forall i :: 0 <= i < |es| ==> Crossref(es, Registry(es), i, reading).Ok?
    ensures var r := ParseWith(es, reading, toTarget);
      r.Ok? && |r.value| == |es| && forall i :: 0 <= i < |es| ==>
        r.value[i] == toTarget(Assign([(TypeKey, Str(es[i].entryType)), (LabelKey, Str(es[i].entryLabel))], Crossref(es, Registry(es), i, reading).value))
  {
    var rs := Converted(es, Registry(es), reading, toTarget);
    CollectPointwise(rs);
  }

  /** `_parse` throws when some entry's inheritance does. */
  lemma {:induction false} ParseErr(es: seq<BibEntry>, reading: Reading, toTarget: Props<Value> -> Value, i: nat)
    requires i < |es| && Crossref(es, Registry(es), i, reading).Err?
    ensures ParseWith(es, reading, toTarget) == Err(StackOverflow)
  {
    var rs := Converted(es, Registry(es), reading, toTarget);
    CollectPointwise(rs);
    assert !rs[i].Ok?;
    CollectErr(rs);
    var k :| 0 <= k < |rs| && rs[k] == Err(Collect(rs).error);
    assert rs[k] == Convert(es, Registry(es), k, reading, toTarget);
  }

  /** As written: an entry without a `crossref` field has the last entry
      labelled `undefined`, if there is one, as its parent. */
  lemma {:induction false} UndefinedAdopts(es: seq<BibEntry>, i: nat, k: nat)
    requires i < |es| && !Has(es[i].properties, "crossref")
    requires k < |es| && es[k].entryLabel == "undefined"
    ensures var j := Parent(es, Registry(es), i, AsWritten);
      j.Some? && es[j.value].entryLabel == "undefined"
  {
    RegistryHas(es, "undefined", k);
    RegistryLast(es, "undefined", 0);
  }

  /** As written, an entry labelled `undefined` hands its fields to an
      unrelated entry that names no parent. */
  lemma UndefinedExample()
    ensures var es := [BibEntry("book", "a", [], None), BibEntry("book", "undefined", [("title", Str("T"))], None)];
      Crossref(es, Registry(es), 0, AsWritten) == Ok([("title", Str("T"))]) &&
      Crossref(es, Registry(es), 0, Intended) == Ok([])
  {
    var es := [BibEntry("book", "a", [], None), BibEntry("book", "undefined", [("title", Str("T"))], None)];
    assert es[..1][..0] == [];
    assert es[..1] == [es[0]];
    assert Registry(es[..1]) == [("a", 0)];
    assert Registry(es) == [("a", 0), ("undefined", 1)];
    assert "a" != "undefined" by { assert "a"[0] != "undefined"[0]; }
    assert CrossrefKey(es[0].properties, AsWritten) == Some("undefined");
    assert IndexOfKey(Registry(es), "undefined") == 1;
    assert Parent(es, Registry(es), 0, AsWritten) == Some(1);
    assert Parent(es, Registry(es), 1, AsWritten) == Some(1);
    Shrinks(|es|, {}, 0);
    assert Inherit(es, Registry(es), 1, {0}, AsWritten) == Ok([("title", Str("T"))]);
    assert Set([], "title", Str("T")) == [("title", Str("T"))];
    assert Assign(Assign([], [("title", Str("T"))]), []) == [("title", Str("T"))];
  }

  /** As intended: an entry without a `crossref` field keeps exactly its own
      fields. */
  lemma {:induction false} NoCrossrefKeeps(es: seq<BibEntry>, reg: Props<nat>, i: nat)
    requires i < |es| && Indexes(reg, |es|) && !Has(es[i].properties, "crossref")
    ensures Crossref(es, reg, i, Intended) == Ok(es[i].properties)
  {
    Unchanged(es, reg, i, Intended);
  }
}
