// What registering, removing and matching type parsers guarantee.

module TypeParserProps {
  import opened Base
  import opened JsObject
  import opened JsValue
  import opened TypeParser

  /** An assignment adds its key and keeps every other one. */
  lemma HasAfterSet<V>(o: Props<V>, key: string, value: V, x: string)
    ensures Has(Set(o, key, value), x) <==> Has(o, x) || x == key
  {
    SetGet(o, key, value, x);
  }

  /** Two property lists with the same keys at the same places find a key at
      the same place. */
  lemma {:induction false} SameKeysSameIndex<V, W>(a: Props<V>, b: Props<W>, key: string)
    requires |a| == |b| && forall k :: 0 <= k < |a| ==> a[k].0 == b[k].0
    ensures IndexOfKey(a, key) == IndexOfKey(b, key)
  {
    if a != [] {
      SameKeysSameIndex(a[1..], b[1..], key);
    }
  }

  /** Every registered format keeps its predicate; the new one holds the
      given predicate; the registered names are the old ones and the new one. */
  lemma AddedRegisters(tb: Tables, f: string, dt: string, test: string, extend: Option<string>, x: string)
    ensures Get(Added(tb, f, dt, test, extend).types, f).Some?
    ensures Get(Added(tb, f, dt, test, extend).types, f).value.test == test
    ensures Has(Added(tb, f, dt, test, extend).types, x) <==> Has(tb.types, x) || x == f
    ensures x != f ==> Has(tb.types, x) ==> Get(Added(tb, f, dt, test, extend).types, x).value.test == Get(tb.types, x).value.test
  {
    var queued := Has(tb.unregExts, f);
    var ext := if queued then Get(tb.unregExts, f).value else [];
    var types := Set(tb.types, f, Parser(test, ext));
    SetGet(tb.types, f, Parser(test, ext), x);
    SetGet(tb.types, f, Parser(test, ext), f);
    HasAfterSet(tb.types, f, Parser(test, ext), x);
    if extend.Some? && extend.value != "" {
      var parent := extend.value;
      if Get(types, parent).Some? {
        var p := Get(types, parent).value;
        SetGet(types, parent, p.(extensions := p.extensions + [f]), x);
        SetGet(types, parent, p.(extensions := p.extensions + [f]), f);
        HasAfterSet(types, parent, p.(extensions := p.extensions + [f]), x);
        HasAfterSet(types, parent, p.(extensions := p.extensions + [f]), f);
        assert Has(types, parent);
      }
    }
  }

  /** A format without a parent goes last in its data type's list, adopting
      the formats that were waiting for it; no other list changes. */
  lemma AddedTopLevel(tb: Tables, f: string, dt: string, test: string, other: string)
    requires Distinct(tb.unregExts)
    ensures var r := Added(tb, f, dt, test, None);
      ListOf(r.dataTypes, dt) == ListOf(tb.dataTypes, dt) + [f] &&
      (other != dt ==> ListOf(r.dataTypes, other) == ListOf(tb.dataTypes, other)) &&
      Get(r.types, f) == Some(Parser(test, ListOf(tb.unregExts, f))) &&
      !Has(r.unregExts, f)
  {
    var r := Added(tb, f, dt, test, None);
    SetGet(tb.dataTypes, dt, ListOf(tb.dataTypes, dt) + [f], other);
    var queued := Has(tb.unregExts, f);
    var ext := if queued then Get(tb.unregExts, f).value else [];
    SetGet(tb.types, f, Parser(test, ext), f);
    if queued {
      DeleteGet(tb.unregExts, f, f);
    }
    assert Get(r.dataTypes, other) == Get(tb.dataTypes, other) || other == dt;
    if other != dt {
      assert Has(r.dataTypes, other) <==> Has(tb.dataTypes, other);
    }
  }

  /** A format whose parent is registered goes last in the parent's
      extensions; no data type list changes. */
  lemma AddedUnderParent(tb: Tables, f: string, dt: string, test: string, parent: string)
    requires Has(tb.types, parent) && parent != f && parent != ""
    ensures var r := Added(tb, f, dt, test, Some(parent));
      Get(r.types, parent).Some? &&
      Get(r.types, parent).value.extensions == Get(tb.types, parent).value.extensions + [f] &&
      Get(r.types, f) == Some(Parser(test, ListOf(tb.unregExts, f))) &&
      r.dataTypes == tb.dataTypes
  {
    var queued := Has(tb.unregExts, f);
    var ext := if queued then Get(tb.unregExts, f).value else [];
    var types := Set(tb.types, f, Parser(test, ext));
    SetGet(tb.types, f, Parser(test, ext), parent);
    var p := Get(types, parent).value;
    SetGet(types, parent, p.(extensions := p.extensions + [f]), f);
    SetGet(tb.types, f, Parser(test, ext), f);
  }

  /** A format whose parent is not registered yet waits in the parent's queue. */
  lemma AddedWaiting(tb: Tables, f: string, dt: string, test: string, parent: string)
    requires Distinct(tb.unregExts)
    requires !Has(tb.types, parent) && parent != f && parent != ""
    ensures var r := Added(tb, f, dt, test, Some(parent));
      ListOf(r.unregExts, parent) == ListOf(tb.unregExts, parent) + [f] &&
      !Has(r.types, parent) && r.dataTypes == tb.dataTypes
  {
    var queued := Has(tb.unregExts, f);
    var ext := if queued then Get(tb.unregExts, f).value else [];
    var unreg := if queued then Delete(tb.unregExts, f) else tb.unregExts;
    HasAfterSet(tb.types, f, Parser(test, ext), parent);
    if queued {
      DeleteGet(tb.unregExts, f, parent);
    }
    assert ListOf(unreg, parent) == ListOf(tb.unregExts, parent);
    SetGet(unreg, parent, ListOf(unreg, parent) + [f], parent);
  }

  /** The format `matchType` returns is one whose predicate holds, with every
      format before it registered and rejecting the input; `undefined` means
      every format was registered and rejected it. */
  lemma {:induction false} MatchFirst(types: Props<Parser>, list: seq<string>, data: Value, holds: Holds, fuel: nat)
    requires Match(types, list, data, holds, fuel).Ok?
    ensures var r := Match(types, list, data, holds, fuel);
      (r.value.None? ==> forall k :: 0 <= k < |list| ==> Has(types, list[k]) && !Matches(types, list[k], data, holds)) &&
      (r.value.Some? ==> exists i :: (0 <= i < |list| && Matches(types, list[i], data, holds) &&
        forall k :: 0 <= k < i ==> Has(types, list[k]) && !Matches(types, list[k], data, holds)))
    decreases |list|
  {
    if list != [] {
      var p := Get(types, list[0]);
      if !holds(p.value.test, data) {
        MatchFirst(types, list[1..], data, holds, fuel);
        var r := Match(types, list[1..], data, holds, fuel);
        assert Has(types, list[0]) && !Matches(types, list[0], data, holds);
        if r.value.Some? {
          var i :| 0 <= i < |list[1..]| && Matches(types, list[1..][i], data, holds) &&
            forall k :: 0 <= k < i ==> Has(types, list[1..][k]) && !Matches(types, list[1..][k], data, holds);
          RejectedCons(types, list, data, holds, i);
          assert Matches(types, list[i + 1], data, holds);
        } else {
          RejectedCons(types, list, data, holds, |list| - 1);
        }
      }
    }
  }

  /** A rejected first format followed by `n` rejected formats. */
  lemma RejectedCons(types: Props<Parser>, list: seq<string>, data: Value, holds: Holds, n: nat)
    requires n < |list| && Has(types, list[0]) && !Matches(types, list[0], data, holds)
    requires forall k :: 0 <= k < n ==> Has(types, list[1..][k]) && !Matches(types, list[1..][k], data, holds)
    ensures forall k :: 0 <= k < n + 1 ==> Has(types, list[k]) && !Matches(types, list[k], data, holds)
  {
    forall k | 0 <= k < n + 1 ensures Has(types, list[k]) && !Matches(types, list[k], data, holds) {
      if k > 0 { assert list[k] == list[1..][k - 1]; }
    }
  }

  /** A result that did not run out of stack stays the same with more stack. */
  lemma {:induction false} MatchFuelMonotone(types: Props<Parser>, list: seq<string>, data: Value, holds: Holds, fuel: nat, more: nat)
    requires Match(types, list, data, holds, fuel) != Err(RangeError) && fuel <= more
    ensures Match(types, list, data, holds, more) == Match(types, list, data, holds, fuel)
    decreases fuel, |list|
  {
    if list != [] {
      var p := Get(types, list[0]);
      if p.Some? {
        if holds(p.value.test, data) {
          MatchFuelMonotone(types, p.value.extensions, data, holds, fuel - 1, more - 1);
        } else {
          MatchFuelMonotone(types, list[1..], data, holds, fuel, more);
        }
      }
    }
  }

  /** When every format outranks its extensions and every name of the list
      ranks below the stack left, `matchType` does not run out of stack. */
  lemma {:induction false} RankedMatchReturns(types: Props<Parser>, list: seq<string>, data: Value, holds: Holds,
                                              fuel: nat, rank: string -> nat)
    requires forall t :: Has(types, t) ==> forall e :: e in Get(types, t).value.extensions ==> rank(e) < rank(t)
    requires 0 < fuel && forall t :: t in list ==> rank(t) + 1 < fuel
    ensures Match(types, list, data, holds, fuel) != Err(RangeError)
    decreases fuel, |list|
  {
    if list != [] {
      assert list[0] in list;
      var p := Get(types, list[0]);
      if p.Some? {
        if holds(p.value.test, data) {
          forall e | e in p.value.extensions ensures rank(e) + 1 < fuel - 1 {
            assert rank(e) < rank(list[0]);
          }
          RankedMatchReturns(types, p.value.extensions, data, holds, fuel - 1, rank);
        } else {
          forall t | t in list[1..] ensures rank(t) + 1 < fuel { assert t in list; }
          RankedMatchReturns(types, list[1..], data, holds, fuel, rank);
        }
      }
    }
  }

  /** Every name in the list is a registered format. */
  predicate AllRegistered(types: Props<Parser>, l: seq<string>) {
    forall i :: 0 <= i < |l| ==> Has(types, l[i])
  }

  /** Every name in every list of the tables is a registered format. */
  ghost predicate Closed(tb: Tables) {
    (forall d :: Has(tb.dataTypes, d) ==> AllRegistered(tb.types, ListOf(tb.dataTypes, d))) &&
    (forall t :: Has(tb.types, t) ==> AllRegistered(tb.types, Get(tb.types, t).value.extensions)) &&
    (forall p :: Has(tb.unregExts, p) ==> AllRegistered(tb.types, ListOf(tb.unregExts, p)))
  }

  /** Over closed tables `matchType` never reads the predicate of a missing
      format. */
  lemma {:induction false} ClosedMatchNoMissing(types: Props<Parser>, list: seq<string>, data: Value, holds: Holds, fuel: nat)
    requires forall t :: Has(types, t) ==> AllRegistered(types, Get(types, t).value.extensions)
    requires AllRegistered(types, list)
    ensures Match(types, list, data, holds, fuel) != Err(NoPredicate)
    decreases fuel, |list|
  {
    if fuel > 0 && list != [] {
      assert Has(types, list[0]);
      var p := Get(types, list[0]).value;
      if holds(p.test, data) {
        ClosedMatchNoMissing(types, p.extensions, data, holds, fuel - 1);
      } else {
        assert AllRegistered(types, list[1..]) by {
          forall i | 0 <= i < |list[1..]| ensures Has(types, list[1..][i]) { assert list[1..][i] == list[i + 1]; }
        }
        ClosedMatchNoMissing(types, list[1..], data, holds, fuel);
      }
    }
  }

  /** A list stays all registered when names are only added. */
  lemma AllRegisteredGrow(types: Props<Parser>, types': Props<Parser>, l: seq<string>, f: string)
    requires AllRegistered(types, l) && forall x :: Has(types, x) ==> Has(types', x)
    requires Has(types', f)
    ensures AllRegistered(types', l) && AllRegistered(types', l + [f])
  {
    assert forall i :: 0 <= i < |l| ==> (l + [f])[i] == l[i];
  }

  /** Registering a format keeps the tables closed. */
  lemma AddedClosed(tb: Tables, f: string, dt: string, test: string, extend: Option<string>)
    requires Closed(tb) && Distinct(tb.unregExts)
    ensures Closed(Added(tb, f, dt, test, extend))
  {
    var r := Added(tb, f, dt, test, extend);
    forall x | Has(tb.types, x) ensures Has(r.types, x) {
      AddedRegisters(tb, f, dt, test, extend, x);
    }
    AddedRegisters(tb, f, dt, test, extend, f);
    var queued := Has(tb.unregExts, f);
    var ext := if queued then Get(tb.unregExts, f).value else [];
    var unreg := if queued then Delete(tb.unregExts, f) else tb.unregExts;
    var types := Set(tb.types, f, Parser(test, ext));
    assert AllRegistered(r.types, ext) by {
      if queued { AllRegisteredGrow(tb.types, r.types, ext, f); }
    }
    forall x | Has(types, x) ensures AllRegistered(r.types, Get(types, x).value.extensions) {
      SetGet(tb.types, f, Parser(test, ext), x);
      if x != f {
        HasAfterSet(tb.types, f, Parser(test, ext), x);
        AllRegisteredGrow(tb.types, r.types, Get(tb.types, x).value.extensions, f);
      }
    }
    forall p | Has(unreg, p) ensures AllRegistered(r.types, ListOf(unreg, p)) {
      if queued {
        DeleteGet(tb.unregExts, f, p);
      }
      AllRegisteredGrow(tb.types, r.types, ListOf(tb.unregExts, p), f);
    }
    forall d | Has(tb.dataTypes, d) ensures AllRegistered(r.types, ListOf(tb.dataTypes, d)) {
      AllRegisteredGrow(tb.types, r.types, ListOf(tb.dataTypes, d), f);
    }
    if extend.Some? && extend.value != "" {
      AddedClosedChild(tb, f, test, extend.value, queued, ext, unreg, types, r);
    } else {
      AddedClosedTop(tb, f, dt, unreg, types, r);
    }
  }

  lemma AddedClosedTop(tb: Tables, f: string, dt: string, unreg: Props<seq<string>>, types: Props<Parser>, r: Tables)
    requires r == Tables(types, Set(tb.dataTypes, dt, ListOf(tb.dataTypes, dt) + [f]), unreg)
    requires forall x :: Has(tb.types, x) ==> Has(r.types, x)
    requires Has(r.types, f)
    requires forall x :: Has(types, x) ==> AllRegistered(r.types, Get(types, x).value.extensions)
    requires forall p :: Has(unreg, p) ==> AllRegistered(r.types, ListOf(unreg, p))
    requires forall d :: Has(tb.dataTypes, d) ==> AllRegistered(r.types, ListOf(tb.dataTypes, d))
    ensures Closed(r)
  {
    forall d | Has(r.dataTypes, d) ensures AllRegistered(r.types, ListOf(r.dataTypes, d)) {
      SetGet(tb.dataTypes, dt, ListOf(tb.dataTypes, dt) + [f], d);
      HasAfterSet(tb.dataTypes, dt, ListOf(tb.dataTypes, dt) + [f], d);
      if d == dt {
        if Has(tb.dataTypes, dt) {
          AllRegisteredGrow(r.types, r.types, ListOf(tb.dataTypes, dt), f);
        } else {
          assert ListOf(r.dataTypes, d) == [f];
        }
      }
    }
  }

  lemma AddedClosedChild(tb: Tables, f: string, test: string, parent: string, queued: bool, ext: seq<string>,
                         unreg: Props<seq<string>>, types: Props<Parser>, r: Tables)
    requires types == Set(tb.types, f, Parser(test, ext))
    requires r == (match Get(types, parent)
      case Some(p) => Tables(Set(types, parent, p.(extensions := p.extensions + [f])), tb.dataTypes, unreg)
      case None => Tables(types, tb.dataTypes, Set(unreg, parent, ListOf(unreg, parent) + [f])))
    requires forall x :: Has(tb.types, x) ==> Has(r.types, x)
    requires Has(r.types, f)
    requires forall x :: Has(types, x) ==> AllRegistered(r.types, Get(types, x).value.extensions)
    requires forall p :: Has(unreg, p) ==> AllRegistered(r.types, ListOf(unreg, p))
    requires forall d :: Has(tb.dataTypes, d) ==> AllRegistered(r.types, ListOf(tb.dataTypes, d))
    ensures Closed(r)
  {
    if Get(types, parent).Some? {
      var p := Get(types, parent).value;
      var p' := p.(extensions := p.extensions + [f]);
      forall x | Has(r.types, x) ensures AllRegistered(r.types, Get(r.types, x).value.extensions) {
        SetGet(types, parent, p', x);
        HasAfterSet(types, parent, p', x);
        if x == parent {
          AllRegisteredGrow(r.types, r.types, p.extensions, f);
        }
      }
    } else {
      forall q | Has(r.unregExts, q) ensures AllRegistered(r.types, ListOf(r.unregExts, q)) {
        SetGet(unreg, parent, ListOf(unreg, parent) + [f], q);
        HasAfterSet(unreg, parent, ListOf(unreg, parent) + [f], q);
        if q == parent {
          if Has(unreg, parent) {
            AllRegisteredGrow(r.types, r.types, ListOf(unreg, parent), f);
          } else {
            assert ListOf(r.unregExts, q) == [f];
          }
        }
      }
    }
  }

  /** After removal the format is no longer registered, and every other
      format still is. */
  lemma RemovedUnregisters(tb: Tables, t: string, x: string)
    requires Distinct(tb.types)
    ensures !Has(Removed(tb, t).types, t)
    ensures x != t ==> (Has(Removed(tb, t).types, x) <==> Has(tb.types, x))
  {
    var deleted := Delete(tb.types, t);
    DeleteGet(tb.types, t, x);
    SameKeysSameIndex(RemoveFromExtensions(deleted, t), deleted, t);
    SameKeysSameIndex(RemoveFromExtensions(deleted, t), deleted, x);
  }

  /** `t` occurs at most once in the list. */
  predicate AtMostOnce(l: seq<string>, t: string) {
    forall i, j :: 0 <= i < j < |l| ==> !(l[i] == t && l[j] == t)
  }

  /** Taking out the first occurrence removes one `t` and nothing else. */
  lemma RemoveFirstOne(l: seq<string>, t: string)
    ensures multiset(RemoveFirst(l, t)) == multiset(l) - multiset{t}
  {
    var i := Position(l, t);
    if i >= 0 {
      assert l == l[..i] + [t] + l[i + 1..];
      calc {
        multiset(l);
        multiset(l[..i] + [t] + l[i + 1..]);
        multiset(l[..i]) + multiset{t} + multiset(l[i + 1..]);
        multiset(RemoveFirst(l, t)) + multiset{t};
      }
    } else {
      assert t !in multiset(l);
    }
  }

  /** So a list that held `t` at most once no longer holds it. */
  lemma RemoveFirstClears(l: seq<string>, t: string)
    requires AtMostOnce(l, t)
    ensures t !in RemoveFirst(l, t)
  {
    var i := Position(l, t);
    if i >= 0 {
      var r := RemoveFirst(l, t);
      forall k | 0 <= k < |r| ensures r[k] != t {
        if k >= i { assert r[k] == l[k + 1]; }
      }
    }
  }

  /** An empty array is a list of CSL objects whatever is registered. */
  lemma EmptyArrayIsCslList(tb: Tables, kindOf: Kind, holds: Holds, fuel: nat)
    requires ArraysAreArrays(kindOf)
    ensures TypeOfInput(tb, Arr([]), kindOf, holds, fuel) == Ok("@csl/list+object")
  {
  }

  /** Without a match the native types apply: objects are CSL objects,
      anything that is not an array is invalid. */
  lemma NativeFallback(tb: Tables, input: Value, kindOf: Kind, holds: Holds, fuel: nat)
    requires ArraysAreArrays(kindOf) && !input.Arr?
    requires Match(tb.types, ListOf(tb.dataTypes, kindOf(input)), input, holds, fuel) == Ok(None)
    ensures kindOf(input) == "SimpleObject" || kindOf(input) == "ComplexObject" ==>
      TypeOfInput(tb, input, kindOf, holds, fuel) == Ok("@csl/object")
    ensures !(kindOf(input) == "SimpleObject" || kindOf(input) == "ComplexObject") ==>
      TypeOfInput(tb, input, kindOf, holds, fuel) == Ok("@invalid")
  {
  }

  /** An array is a list of CSL objects when each of its entries is a CSL
      object, and a list of other inputs when one entry is something else. */
  lemma {:induction false} ArrayEntries(tb: Tables, items: seq<Value>, kindOf: Kind, holds: Holds, fuel: nat)
    requires ArraysAreArrays(kindOf)
    requires forall i :: 0 <= i < |items| ==> TypeOfInput(tb, items[i], kindOf, holds, fuel).Ok?
    ensures AllCslObjects(tb, items, kindOf, holds, fuel) ==
      Ok(forall i :: 0 <= i < |items| ==> TypeOfInput(tb, items[i], kindOf, holds, fuel) == Ok("@csl/object"))
  {
    if items != [] {
      assert TypeOfInput(tb, items[0], kindOf, holds, fuel).Ok?;
      if TypeOfInput(tb, items[0], kindOf, holds, fuel) == Ok("@csl/object") {
        ArrayEntries(tb, items[1..], kindOf, holds, fuel);
        assert forall i :: 1 <= i < |items| ==> items[i] == items[1..][i - 1];
      }
    }
  }
}
