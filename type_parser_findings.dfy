// `removeTypeParser(t)` takes out only the first occurrence of `t` from each
// list and does not look at the lists of formats waiting for a parent. A
// format registered twice without a parent is listed twice under its data
// type, and a format removed while it waits for its parent is still queued;
// either way a name is left behind whose parser is gone, and `type()` then
// throws when it reaches that name. The corrected removal takes `t` out of
// every list.

module TypeParserFindings {
  import opened Base
  import opened JsObject
  import opened JsValue
  import opened TypeParser
  import opened TypeParserProps

  /** The list without any occurrence of `t`, the others in their order. */
  function Without(l: seq<string>, t: string): (r: seq<string>)
    ensures t !in r
    ensures forall x :: x != t ==> (x in r <==> x in l)
    ensures t !in l ==> r == l
  {
    if l == [] then [] else (if l[0] == t then [] else [l[0]]) + Without(l[1..], t)
  }

  function WithoutInLists(d: Props<seq<string>>, t: string): (r: Props<seq<string>>)
    ensures |r| == |d| && forall k :: 0 <= k < |d| ==> r[k] == (d[k].0, Without(d[k].1, t))
  {
    if d == [] then [] else [(d[0].0, Without(d[0].1, t))] + WithoutInLists(d[1..], t)
  }

  function WithoutInExtensions(types: Props<Parser>, t: string): (r: Props<Parser>)
    ensures |r| == |types| && forall k :: 0 <= k < |types| ==>
      r[k] == (types[k].0, types[k].1.(extensions := Without(types[k].1.extensions, t)))
  {
    if types == [] then []
    else [(types[0].0, types[0].1.(extensions := Without(types[0].1.extensions, t)))] + WithoutInExtensions(types[1..], t)
  }

  /** The intended `removeTypeParser(t)`: the parser deleted and `t` taken
      out of every data type list, extension list and waiting list. */
  function RemovedAll(tb: Tables, t: string): Tables {
    Tables(WithoutInExtensions(Delete(tb.types, t), t), WithoutInLists(tb.dataTypes, t), WithoutInLists(tb.unregExts, t))
  }

  /** `Get` on a list whose values were mapped key by key. */
  lemma GetMappedLists(d: Props<seq<string>>, t: string, key: string)
    ensures Has(WithoutInLists(d, t), key) <==> Has(d, key)
    ensures Has(d, key) ==> ListOf(WithoutInLists(d, t), key) == Without(ListOf(d, key), t)
  {
    SameKeysSameIndex(WithoutInLists(d, t), d, key);
  }

  lemma GetMappedExtensions(types: Props<Parser>, t: string, key: string)
    ensures Has(WithoutInExtensions(types, t), key) <==> Has(types, key)
    ensures Has(types, key) ==> (Get(WithoutInExtensions(types, t), key).value.extensions ==
      Without(Get(types, key).value.extensions, t))
  {
    SameKeysSameIndex(WithoutInExtensions(types, t), types, key);
  }

  /** After the intended removal `t` is not registered and no list names it. */
  lemma RemovedAllClears(tb: Tables, t: string, key: string)
    requires Distinct(tb.types)
    ensures var r := RemovedAll(tb, t);
      !Has(r.types, t) && t !in ListOf(r.dataTypes, key) && t !in ListOf(r.unregExts, key) &&
      (Has(r.types, key) ==> t !in Get(r.types, key).value.extensions)
  {
    var deleted := Delete(tb.types, t);
    DeleteGet(tb.types, t, t);
    GetMappedExtensions(deleted, t, t);
    GetMappedExtensions(deleted, t, key);
    GetMappedLists(tb.dataTypes, t, key);
    GetMappedLists(tb.unregExts, t, key);
  }

  /** The intended removal keeps the tables closed: every listed name still
      has its parser. */
  lemma RemovedAllClosed(tb: Tables, t: string)
    requires Closed(tb) && Distinct(tb.types)
    ensures Closed(RemovedAll(tb, t))
  {
    var r := RemovedAll(tb, t);
    var deleted := Delete(tb.types, t);
    forall x | Has(tb.types, x) && x != t ensures Has(r.types, x) {
      DeleteGet(tb.types, t, x);
      GetMappedExtensions(deleted, t, x);
    }
    forall l: seq<string> | AllRegistered(tb.types, l) ensures AllRegistered(r.types, Without(l, t)) {
      forall i | 0 <= i < |Without(l, t)| ensures Has(r.types, Without(l, t)[i]) {
        var x := Without(l, t)[i];
        assert x in Without(l, t);
        assert x in l && x != t;
        var j :| 0 <= j < |l| && l[j] == x;
      }
    }
    forall d | Has(r.dataTypes, d) ensures AllRegistered(r.types, ListOf(r.dataTypes, d)) {
      GetMappedLists(tb.dataTypes, t, d);
    }
    forall p | Has(r.unregExts, p) ensures AllRegistered(r.types, ListOf(r.unregExts, p)) {
      GetMappedLists(tb.unregExts, t, p);
    }
    forall x | Has(r.types, x) ensures AllRegistered(r.types, Get(r.types, x).value.extensions) {
      GetMappedExtensions(deleted, t, x);
      DeleteGet(tb.types, t, x);
    }
  }

  lemma SetEmpty<V>(k: string, v: V)
    ensures Set([], k, v) == [(k, v)] && Get([(k, v)], k) == Some(v)
  {
  }

  lemma SetOne<V>(k: string, v: V, w: V)
    ensures Set([(k, v)], k, w) == [(k, w)] && Delete([(k, v)], k) == []
  {
    assert IndexOfKey([(k, v)], k) == 0;
  }

  lemma GetOneOther<V>(k: string, v: V, other: string)
    requires other != k
    ensures Get([(k, v)], other) == None
  {
    assert IndexOfKey([(k, v)][1..], other) == -1;
  }

  /** The tables after registering `a` for strings twice, without a parent. */
  function TwiceAdded(): Tables {
    Added(Added(Tables([], [], []), "a", "String", "isA", None), "a", "String", "isA", None)
  }

  lemma TwiceAddedTables()
    ensures TwiceAdded() == Tables([("a", Parser("isA", []))], [("String", ["a", "a"])], [])
  {
    var empty := Tables([], [], []);
    SetEmpty("a", Parser("isA", []));
    SetEmpty("String", ["a"]);
    assert ListOf(empty.dataTypes, "String") == [];
    assert !Has(empty.unregExts, "a");
    var none: seq<string> := [];
    assert none + ["a"] == ["a"];
    assert Set(empty.types, "a", Parser("isA", none)) == [("a", Parser("isA", none))];
    assert Set(empty.dataTypes, "String", ListOf(empty.dataTypes, "String") + ["a"]) == [("String", ["a"])];
    var once := Added(empty, "a", "String", "isA", None);
    assert once == Tables([("a", Parser("isA", []))], [("String", ["a"])], []);
    SetOne("a", Parser("isA", []), Parser("isA", []));
    SetOne("String", ["a"], ["a", "a"]);
    assert ListOf(once.dataTypes, "String") == ["a"];
    assert !Has(once.unregExts, "a");
    assert ["a"] + ["a"] == ["a", "a"];
    assert Set(once.dataTypes, "String", ListOf(once.dataTypes, "String") + ["a"]) == [("String", ["a", "a"])];
    assert TwiceAdded() == Added(once, "a", "String", "isA", None);
  }

  /** As written, removing `a` leaves one `a` in the string list with no
      parser behind it, and `type()` of a string that no earlier format
      claims throws. */
  lemma TwiceAddedRemovedThrows(input: Value, kindOf: Kind, holds: Holds, fuel: nat)
    requires ArraysAreArrays(kindOf) && kindOf(input) == "String" && fuel > 0
    ensures Closed(TwiceAdded())
    ensures Removed(TwiceAdded(), "a") == Tables([], [("String", ["a"])], [])
    ensures !Closed(Removed(TwiceAdded(), "a"))
    ensures TypeOfInput(Removed(TwiceAdded(), "a"), input, kindOf, holds, fuel) == Err(NoPredicate)
  {
    TwiceAddedTables();
    TwiceAddedClosed(TwiceAdded());
    TwiceAddedRemovedTables();
    DanglingStringList(Removed(TwiceAdded(), "a"), input, kindOf, holds, fuel);
  }

  lemma TwiceAddedRemovedTables()
    requires TwiceAdded() == Tables([("a", Parser("isA", []))], [("String", ["a", "a"])], [])
    ensures Removed(TwiceAdded(), "a") == Tables([], [("String", ["a"])], [])
  {
    SetOne("a", Parser("isA", []), Parser("isA", []));
    assert RemoveFirst(["a", "a"], "a") == ["a"] by {
      assert Position(["a", "a"], "a") == 0;
    }
  }

  /** A string list naming a format that is not registered: not closed, and
      `type()` of a string reaches the missing predicate. */
  lemma DanglingStringList(r: Tables, input: Value, kindOf: Kind, holds: Holds, fuel: nat)
    requires r == Tables([], [("String", ["a"])], [])
    requires ArraysAreArrays(kindOf) && kindOf(input) == "String" && fuel > 0
    ensures !Closed(r) && TypeOfInput(r, input, kindOf, holds, fuel) == Err(NoPredicate)
  {
    var strings: seq<string> := ["a"];
    assert r.types == [] && r.dataTypes == [("String", strings)];
    SetEmpty("String", strings);
    assert ListOf(r.dataTypes, "String") == strings;
    assert !Has(r.types, strings[0]) by {
      assert IndexOfKey(r.types, strings[0]) == -1;
    }
    assert !AllRegistered(r.types, ListOf(r.dataTypes, "String"));
  }

  lemma TwiceAddedClosed(tb: Tables)
    requires tb == Tables([("a", Parser("isA", []))], [("String", ["a", "a"])], [])
    ensures Closed(tb)
  {
    SetEmpty("a", Parser("isA", []));
    SetEmpty("String", ["a", "a"]);
    assert AllRegistered(tb.types, ["a", "a"]);
    forall d | Has(tb.dataTypes, d) ensures AllRegistered(tb.types, ListOf(tb.dataTypes, d)) {
      if d != "String" { GetOneOther("String", ["a", "a"], d); }
    }
    forall x | Has(tb.types, x) ensures AllRegistered(tb.types, Get(tb.types, x).value.extensions) {
      if x != "a" { GetOneOther("a", Parser("isA", []), x); }
    }
  }

  /** With the intended removal the string list is empty and `type()` falls
      back on the native types. */
  lemma TwiceAddedRemovedAll(input: Value, kindOf: Kind, holds: Holds, fuel: nat)
    requires ArraysAreArrays(kindOf) && kindOf(input) == "String" && fuel > 0
    ensures RemovedAll(TwiceAdded(), "a") == Tables([], [("String", [])], [])
    ensures TypeOfInput(RemovedAll(TwiceAdded(), "a"), input, kindOf, holds, fuel) == Ok("@invalid")
  {
    TwiceAddedTables();
    TwiceAddedRemovedAllTables();
    EmptyStringList(RemovedAll(TwiceAdded(), "a"), input, kindOf, holds, fuel);
  }

  lemma TwiceAddedRemovedAllTables()
    requires TwiceAdded() == Tables([("a", Parser("isA", []))], [("String", ["a", "a"])], [])
    ensures RemovedAll(TwiceAdded(), "a") == Tables([], [("String", [])], [])
  {
    SetOne("a", Parser("isA", []), Parser("isA", []));
    assert Without(["a", "a"], "a") == [] by {
      assert ["a", "a"][1..] == ["a"];
      assert ["a"][1..] == [];
    }
  }

  /** An empty string list: `type()` of a string falls through to the
      native types. */
  lemma EmptyStringList(r: Tables, input: Value, kindOf: Kind, holds: Holds, fuel: nat)
    requires r == Tables([], [("String", [])], [])
    requires ArraysAreArrays(kindOf) && kindOf(input) == "String" && fuel > 0
    ensures TypeOfInput(r, input, kindOf, holds, fuel) == Ok("@invalid")
  {
    var none: seq<string> := [];
    assert r.dataTypes == [("String", none)];
    SetEmpty("String", none);
    assert ListOf(r.dataTypes, "String") == [];
  }

  /** The tables after `child` (extending `parent`) was registered and
      removed while waiting, and `parent` was registered afterwards. */
  function ParentAfterRemovedChild(remove: (Tables, string) -> Tables): Tables {
    var waiting := Added(Tables([], [], []), "child", "Object", "isChild", Some("parent"));
    Added(remove(waiting, "child"), "parent", "String", "isParent", None)
  }

  lemma WaitingTables()
    ensures Added(Tables([], [], []), "child", "Object", "isChild", Some("parent")) ==
      Tables([("child", Parser("isChild", []))], [], [("parent", ["child"])])
  {
    var empty := Tables([], [], []);
    SetEmpty("child", Parser("isChild", []));
    GetOneOther("child", Parser("isChild", []), "parent");
    assert ListOf(empty.unregExts, "parent") == [];
    SetEmpty("parent", ["child"]);
    assert !Has(empty.unregExts, "child");
    var none: seq<string> := [];
    assert none + ["child"] == ["child"];
    assert Set(empty.types, "child", Parser("isChild", none)) == [("child", Parser("isChild", none))];
    assert Set(empty.unregExts, "parent", ListOf(empty.unregExts, "parent") + ["child"]) == [("parent", ["child"])];
  }

  /** As written, `parent` adopts the removed `child`, and `type()` of a string
      that `parent` accepts throws. */
  lemma RemovedWaitingChildThrows(input: Value, kindOf: Kind, holds: Holds, fuel: nat)
    requires ArraysAreArrays(kindOf) && kindOf(input) == "String" && fuel > 1 && holds("isParent", input)
    ensures ParentAfterRemovedChild(Removed) ==
      Tables([("parent", Parser("isParent", ["child"]))], [("String", ["parent"])], [])
    ensures TypeOfInput(ParentAfterRemovedChild(Removed), input, kindOf, holds, fuel) == Err(NoPredicate)
  {
    WaitingTables();
    var waiting := Tables([("child", Parser("isChild", []))], [], [("parent", ["child"])]);
    SetOne("child", Parser("isChild", []), Parser("isChild", []));
    var removed := Removed(waiting, "child");
    assert removed == Tables([], [], [("parent", ["child"])]);
    SetEmpty("parent", ["child"]);
    SetOne("parent", ["child"], ["child"]);
    SetEmpty("parent", Parser("isParent", ["child"]));
    SetEmpty("String", ["parent"]);
    assert ListOf(removed.dataTypes, "String") == [];
    assert Has(removed.unregExts, "parent") && Get(removed.unregExts, "parent").value == ["child"];
    assert Set(removed.types, "parent", Parser("isParent", ["child"])) == [("parent", Parser("isParent", ["child"]))];
    var none: seq<string> := [];
    assert none + ["parent"] == ["parent"];
    assert Set(removed.dataTypes, "String", ListOf(removed.dataTypes, "String") + ["parent"]) == [("String", ["parent"])];
    var r := ParentAfterRemovedChild(Removed);
    assert r == Added(removed, "parent", "String", "isParent", None);
    assert r == Tables([("parent", Parser("isParent", ["child"]))], [("String", ["parent"])], []);
    GetOneOther("parent", Parser("isParent", ["child"]), "child");
    assert Match(r.types, ["child"], input, holds, fuel - 1) == Err(NoPredicate);
    assert ListOf(r.dataTypes, "String") == ["parent"];
  }

  /** With the intended removal `parent` has no extensions left and is the
      type of that string. */
  lemma RemovedAllWaitingChild(input: Value, kindOf: Kind, holds: Holds, fuel: nat)
    requires ArraysAreArrays(kindOf) && kindOf(input) == "String" && fuel > 1 && holds("isParent", input)
    ensures ParentAfterRemovedChild(RemovedAll) ==
      Tables([("parent", Parser("isParent", []))], [("String", ["parent"])], [])
    ensures TypeOfInput(ParentAfterRemovedChild(RemovedAll), input, kindOf, holds, fuel) == Ok("parent")
  {
    WaitingTables();
    var waiting := Tables([("child", Parser("isChild", []))], [], [("parent", ["child"])]);
    SetOne("child", Parser("isChild", []), Parser("isChild", []));
    assert Without(["child"], "child") == [];
    var removed := RemovedAll(waiting, "child");
    var none: seq<string> := [];
    assert removed == Tables([], [], [("parent", none)]);
    SetEmpty("parent", none);
    SetOne("parent", none, none);
    SetEmpty("parent", Parser("isParent", none));
    SetEmpty("String", ["parent"]);
    assert ListOf(removed.dataTypes, "String") == [];
    assert Has(removed.unregExts, "parent") && Get(removed.unregExts, "parent").value == none;
    assert Set(removed.types, "parent", Parser("isParent", none)) == [("parent", Parser("isParent", none))];
    assert none + ["parent"] == ["parent"];
    assert Set(removed.dataTypes, "String", ListOf(removed.dataTypes, "String") + ["parent"]) == [("String", ["parent"])];
    var r := ParentAfterRemovedChild(RemovedAll);
    assert r == Added(removed, "parent", "String", "isParent", None);
    assert r == Tables([("parent", Parser("isParent", none))], [("String", ["parent"])], []);
    assert Match(r.types, none, input, holds, fuel - 1) == Ok(None);
    assert ListOf(r.dataTypes, "String") == ["parent"];
  }
}
