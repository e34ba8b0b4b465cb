// A plain JavaScript object used as a dictionary: its own properties, each
// key once, in the order they were added. Assigning a new key adds it at the
// end, assigning an existing key keeps its place, `delete` takes it out.
// `Enumerated` gives the order in which `Object.keys`, `Object.entries` and
// `for ... in` list them: array-index keys first, in ascending numeric order,
// then the other keys in the order they were added.

module JsObject {
  import opened Base

  /** The own properties of an object, in the order they were added. */
  type Props<V> = seq<(string, V)>

  /** No key appears twice, as in every object. */
  predicate Distinct<V>(o: Props<V>) {
    forall i, j :: 0 <= i < j < |o| ==> o[i].0 != o[j].0
  }

  /** The keys in the order they were added; `Object.keys(o)` is
      `Keys(Enumerated(o))`. */
  function Keys<V>(o: Props<V>): (r: seq<string>)
    ensures |r| == |o|
    ensures forall i :: 0 <= i < |o| ==> r[i] == o[i].0
  {
    if o == [] then [] else [o[0].0] + Keys(o[1..])
  }

  /** The position of `key` among the properties, or -1. */
  function IndexOfKey<V>(o: Props<V>, key: string): (r: int)
    ensures -1 <= r < |o|
    ensures r >= 0 ==> o[r].0 == key && forall i :: 0 <= i < r ==> o[i].0 != key
    ensures r == -1 <==> forall i :: 0 <= i < |o| ==> o[i].0 != key
  {
    if o == [] then -1
    else if o[0].0 == key then 0
    else
      var r := IndexOfKey(o[1..], key);
      if r == -1 then -1 else r + 1
  }

  /** `Object.prototype.hasOwnProperty.call(o, key)`. */
  predicate Has<V>(o: Props<V>, key: string) {
    IndexOfKey(o, key) >= 0
  }

  /** `o[key]`: the value, or `undefined` as `None`. */
  function Get<V>(o: Props<V>, key: string): (r: Option<V>)
    ensures r.Some? <==> Has(o, key)
  {
    var i := IndexOfKey(o, key);
    if i >= 0 then Some(o[i].1) else None
  }

  /** `o[key] = value`. */
  function Set<V>(o: Props<V>, key: string, value: V): (r: Props<V>)
  {
    var i := IndexOfKey(o, key);
    if i >= 0 then o[i := (key, value)] else o + [(key, value)]
  }

  /** `delete o[key]`. */
  function Delete<V>(o: Props<V>, key: string): (r: Props<V>)
  {
    var i := IndexOfKey(o, key);
    if i >= 0 then o[..i] + o[i + 1..] else o
  }

  /** A key is there exactly when it is one of the keys. */
  lemma HasIffKey<V>(o: Props<V>, key: string)
    ensures Has(o, key) <==> key in Keys(o)
  {
    if key in Keys(o) {
      var i :| 0 <= i < |Keys(o)| && Keys(o)[i] == key;
      assert o[i].0 == key;
    }
  }

  /** After an assignment the key holds the value, every other key what it
      held, and the object still has each key once. */
  lemma SetGet<V>(o: Props<V>, key: string, value: V, other: string)
    ensures Distinct(o) ==> Distinct(Set(o, key, value))
    ensures Get(Set(o, key, value), key) == Some(value)
    ensures other != key ==> Get(Set(o, key, value), other) == Get(o, other)
  {
    SetShape(o, key, value);
    if Distinct(o) {
      SetDistinct(o, key, value);
    }
    if other != key {
      SetOther(o, key, value, other);
    }
  }

  lemma SetDistinct<V>(o: Props<V>, key: string, value: V)
    requires Distinct(o)
    ensures Distinct(Set(o, key, value))
  {
    SetShape(o, key, value);
    var r := Set(o, key, value);
    forall x, y | 0 <= x < y < |r| ensures r[x].0 != r[y].0 {
      if y == |o| {
        assert o[x].0 != key;
      } else {
        assert r[x].0 == o[x].0 && r[y].0 == o[y].0;
      }
    }
  }

  lemma SetOther<V>(o: Props<V>, key: string, value: V, other: string)
    requires other != key
    ensures Get(Set(o, key, value), other) == Get(o, other)
  {
    SetShape(o, key, value);
    var r := Set(o, key, value);
    var j := IndexOfKey(o, other);
    if j >= 0 {
      assert r[j] == o[j];
      IndexOfKeyAt(r, other, j);
    } else {
      forall x | 0 <= x < |r| ensures r[x].0 != other {
        if x < |o| {
          assert r[x].0 == o[x].0;
        }
      }
    }
  }

  /** An assignment keeps every key in place and writes the value at the
      key's own place, or at the end when it was not there. */
  lemma SetShape<V>(o: Props<V>, key: string, value: V)
    ensures var r := Set(o, key, value);
      |r| == if Has(o, key) then |o| else |o| + 1
    ensures var r := Set(o, key, value);
      forall x :: 0 <= x < |o| ==> r[x].0 == o[x].0 && (x != IndexOfKey(o, key) ==> r[x] == o[x])
    ensures var r := Set(o, key, value); var i := IndexOfKey(r, key);
      i >= 0 && r[i] == (key, value) && (Has(o, key) ==> i == IndexOfKey(o, key))
    ensures !Has(o, key) ==> Set(o, key, value)[|o|] == (key, value) && forall x :: 0 <= x < |o| ==> o[x].0 != key
  {
    var r := Set(o, key, value);
    var i := IndexOfKey(o, key);
    if i >= 0 {
      assert r[i] == (key, value);
      assert IndexOfKey(r, key) == i;
    } else {
      assert r[|o|] == (key, value);
      assert forall x :: 0 <= x < |o| ==> r[x].0 != key;
      assert IndexOfKey(r, key) == |o|;
    }
  }

  /** After `delete` the key is gone, every other key holds what it held,
      and the object still has each key once. */
  lemma DeleteGet<V>(o: Props<V>, key: string, other: string)
    requires Distinct(o)
    ensures Distinct(Delete(o, key))
    ensures !Has(Delete(o, key), key)
    ensures other != key ==> Get(Delete(o, key), other) == Get(o, other)
  {
    var r := Delete(o, key);
    var i := IndexOfKey(o, key);
    if i >= 0 {
      DeleteShape(o, key);
      assert forall x :: 0 <= x < |r| ==> r[x].0 != key;
      if other != key {
        DeleteOther(o, key, other);
      }
    }
  }

  /** `delete` of a key that is there closes the gap it leaves. */
  lemma DeleteShape<V>(o: Props<V>, key: string)
    requires Has(o, key)
    ensures var r := Delete(o, key); var i := IndexOfKey(o, key);
      |r| == |o| - 1 && forall x :: 0 <= x < |r| ==> r[x] == if x < i then o[x] else o[x + 1]
  {
  }

  /** The first place that holds a key is its index. */
  lemma IndexOfKeyAt<V>(o: Props<V>, key: string, k: int)
    requires 0 <= k < |o| && o[k].0 == key && forall x :: 0 <= x < k ==> o[x].0 != key
    ensures IndexOfKey(o, key) == k
  {
  }

  lemma DeleteOther<V>(o: Props<V>, key: string, other: string)
    requires Has(o, key) && other != key
    ensures Get(Delete(o, key), other) == Get(o, other)
  {
    DeleteShape(o, key);
    var r := Delete(o, key);
    var i := IndexOfKey(o, key);
    var j := IndexOfKey(o, other);
    if j >= 0 {
      assert i != j;
      var j' := if j < i then j else j - 1;
      assert r[j'] == o[j];
      forall x | 0 <= x < j' ensures r[x].0 != other {
        if x < i {
          assert r[x] == o[x] && x < j;
        } else {
          assert r[x] == o[x + 1] && x + 1 < j;
        }
      }
      IndexOfKeyAt(r, other, j');
    } else {
      forall x | 0 <= x < |r| ensures r[x].0 != other {
        assert r[x] == if x < i then o[x] else o[x + 1];
      }
    }
  }

  /** `Object.keys` after an assignment: unchanged for a key that was there,
      the new key last otherwise. */
  lemma SetKeys<V>(o: Props<V>, key: string, value: V)
    ensures Keys(Set(o, key, value)) == if Has(o, key) then Keys(o) else Keys(o) + [key]
  {
    var r := Set(o, key, value);
    if Has(o, key) {
      assert forall x :: 0 <= x < |r| ==> Keys(r)[x] == Keys(o)[x];
    } else {
      assert forall x :: 0 <= x < |r| ==> Keys(r)[x] == (Keys(o) + [key])[x];
    }
  }

  /** `Object.keys` after `delete`: the others in their order. */
  lemma DeleteKeys<V>(o: Props<V>, key: string)
    ensures Has(o, key) ==>
      var i := IndexOfKey(o, key); Keys(Delete(o, key)) == Keys(o)[..i] + Keys(o)[i + 1..]
    ensures !Has(o, key) ==> Keys(Delete(o, key)) == Keys(o)
  {
    var r := Delete(o, key);
    if Has(o, key) {
      var i := IndexOfKey(o, key);
      var ks := Keys(o)[..i] + Keys(o)[i + 1..];
      assert forall x :: 0 <= x < |r| ==> Keys(r)[x] == ks[x];
    }
  }

  /** A second assignment to a key wins over the first, leaving the object as
      one assignment of the second value would. */
  lemma {:induction false} SetTwice<V>(o: Props<V>, key: string, a: V, b: V)
    ensures Set(Set(o, key, a), key, b) == Set(o, key, b)
  {
    var i := IndexOfKey(o, key);
    var once := Set(o, key, a);
    if i >= 0 {
      assert once[i] == (key, a);
      assert forall x :: 0 <= x < i ==> once[x] == o[x];
      assert IndexOfKey(once, key) == i;
    } else {
      assert once[|o|] == (key, a);
      assert forall x :: 0 <= x < |o| ==> once[x] == o[x];
      assert IndexOfKey(once, key) == |o|;
      assert once[|o| := (key, b)] == o + [(key, b)];
    }
  }

  /** `Object.assign(o, src)`: each property of `src` assigned in turn. */
  function Assign<V>(o: Props<V>, src: Props<V>): (r: Props<V>)
    decreases |src|
  {
    if src == [] then o else Assign(Set(o, src[0].0, src[0].1), src[1..])
  }

  lemma GetTail<V>(o: Props<V>, key: string)
    requires o != [] && o[0].0 != key
    ensures Get(o, key) == Get(o[1..], key) && (Has(o, key) <==> Has(o[1..], key))
  {
  }

  /** After `Object.assign(o, src)` a key holds the value `src` gives it, or
      else what it held in `o`; each key is still there once. */
  lemma {:induction false} AssignGet<V>(o: Props<V>, src: Props<V>, key: string)
    requires Distinct(src)
    ensures Distinct(o) ==> Distinct(Assign(o, src))
    ensures Get(Assign(o, src), key) == if Has(src, key) then Get(src, key) else Get(o, key)
    decreases |src|
  {
    if src != [] {
      var (k0, v0) := src[0];
      var rest := src[1..];
      assert Distinct(rest);
      SetGet(o, k0, v0, key);
      AssignGet(Set(o, k0, v0), rest, key);
      if key == k0 {
        assert forall i :: 0 <= i < |rest| ==> rest[i].0 == src[i + 1].0 != k0;
        assert !Has(rest, key);
      } else {
        GetTail(src, key);
      }
    }
  }

  /** `Object.assign` into an object keeps each key once, whatever `src` holds. */
  lemma {:induction false} AssignDistinct<V>(o: Props<V>, src: Props<V>)
    requires Distinct(o)
    ensures Distinct(Assign(o, src))
    decreases |src|
  {
    if src != [] {
      SetGet(o, src[0].0, src[0].1, src[0].0);
      AssignDistinct(Set(o, src[0].0, src[0].1), src[1..]);
    }
  }

  /** Assigning properties whose keys are all new appends them in order. */
  lemma {:induction false} AssignFresh<V>(o: Props<V>, src: Props<V>)
    requires Distinct(o + src)
    ensures Assign(o, src) == o + src
    decreases |src|
  {
    if src != [] {
      var all := o + src;
      assert forall x :: 0 <= x < |o| ==> o[x].0 == all[x].0 != all[|o|].0 == src[0].0;
      assert IndexOfKey(o, src[0].0) == -1;
      assert o + [src[0]] + src[1..] == all;
      AssignFresh(o + [src[0]], src[1..]);
    }
  }

  /** Assigning a key the value it holds changes nothing. */
  lemma SetSame<V>(o: Props<V>, key: string, value: V)
    requires Get(o, key) == Some(value)
    ensures Set(o, key, value) == o
  {
  }

  /** Reading an object as a lookup table finds what `Get` finds. */
  lemma {:induction false} LookupIsGet<V>(o: Props<V>, key: string)
    ensures Lookup(o, key) == Get(o, key)
    decreases |o|
  {
    if o != [] && o[0].0 != key {
      LookupIsGet(o[1..], key);
      GetTail(o, key);
    }
  }

  /** Deleting each of `keys` in turn. */
  function DeleteAll<V>(o: Props<V>, keys: seq<string>): (r: Props<V>)
    decreases |keys|
  {
    if keys == [] then o else DeleteAll(Delete(o, keys[0]), keys[1..])
  }

  /** After deleting `keys` none of them is left and every other key holds
      what it held. */
  lemma {:induction false} DeleteAllGet<V>(o: Props<V>, keys: seq<string>, key: string)
    requires Distinct(o)
    ensures Distinct(DeleteAll(o, keys))
    ensures Get(DeleteAll(o, keys), key) == if key in keys then None else Get(o, key)
    decreases |keys|
  {
    if keys != [] {
      DeleteGet(o, keys[0], key);
      DeleteAllGet(Delete(o, keys[0]), keys[1..], key);
      if key == keys[0] {
        DeleteGone(Delete(o, keys[0]), keys[1..], key);
      }
    }
  }

  lemma {:induction false} DeleteGone<V>(o: Props<V>, keys: seq<string>, key: string)
    requires Distinct(o) && !Has(o, key)
    ensures !Has(DeleteAll(o, keys), key)
    decreases |keys|
  {
    if keys != [] {
      DeleteGet(o, keys[0], key);
      DeleteGone(Delete(o, keys[0]), keys[1..], key);
    }
  }

  /** The own properties of `o` whose keys are not among `excluded`, in order. */
  function Without<V>(o: Props<V>, excluded: seq<string>): (r: Props<V>)
    ensures |r| <= |o|
    ensures forall i :: 0 <= i < |r| ==> r[i] in o && r[i].0 !in excluded
    ensures forall i :: 0 <= i < |o| && o[i].0 !in excluded ==> o[i] in r
  {
    if o == [] then []
    else if o[0].0 in excluded then Without(o[1..], excluded)
    else [o[0]] + Without(o[1..], excluded)
  }

  /** An array index written as a property key: the canonical decimal text of
      an integer below 2^32 - 1, such as `"0"` or `"42"` but not `"07"`. */
  predicate IsIndexKey(k: string) {
    k != [] && DigitRun(k) == |k| && (k[0] != '0' || |k| == 1) && DigitsValue(k) < 0xFFFF_FFFF
  }

  /** The index an index key stands for. */
  function KeyIndex(k: string): nat
    requires IsIndexKey(k)
  {
    DigitsValue(k)
  }

  /** Every key is an index key. */
  predicate AllIndexed<V>(s: Props<V>) {
    forall i :: 0 <= i < |s| ==> IsIndexKey(s[i].0)
  }

  /** Index keys in ascending order. */
  predicate Ascending<V>(s: Props<V>)
    requires AllIndexed(s)
  {
    forall i, j :: 0 <= i < j < |s| ==> KeyIndex(s[i].0) <= KeyIndex(s[j].0)
  }

  /** The properties whose keys are array indices, in insertion order. */
  function IndexedProps<V>(o: Props<V>): (r: Props<V>)
    ensures AllIndexed(r)
  {
    if o == [] then []
    else if IsIndexKey(o[0].0) then [o[0]] + IndexedProps(o[1..])
    else IndexedProps(o[1..])
  }

  /** The other properties, in insertion order. */
  function NamedProps<V>(o: Props<V>): (r: Props<V>)
    ensures forall i :: 0 <= i < |r| ==> !IsIndexKey(r[i].0)
  {
    if o == [] then []
    else if IsIndexKey(o[0].0) then NamedProps(o[1..])
    else [o[0]] + NamedProps(o[1..])
  }

  lemma {:induction false} SplitMultiset<V>(o: Props<V>)
    ensures multiset(IndexedProps(o)) + multiset(NamedProps(o)) == multiset(o)
  {
    if o != [] {
      SplitMultiset(o[1..]);
      assert o == [o[0]] + o[1..];
    }
  }

  lemma {:induction false} NamedAppend<V>(a: Props<V>, b: Props<V>)
    ensures NamedProps(a + b) == NamedProps(a) + NamedProps(b)
  {
    if a == [] {
      assert a + b == b;
    } else {
      assert (a + b)[1..] == a[1..] + b;
      NamedAppend(a[1..], b);
    }
  }

  lemma {:induction false} NamedOfIndexed<V>(s: Props<V>)
    requires AllIndexed(s)
    ensures NamedProps(s) == []
  {
    if s != [] {
      NamedOfIndexed(s[1..]);
    }
  }

  lemma {:induction false} NamedOfNamed<V>(s: Props<V>)
    requires forall i :: 0 <= i < |s| ==> !IsIndexKey(s[i].0)
    ensures NamedProps(s) == s
  {
    if s != [] {
      NamedOfNamed(s[1..]);
    }
  }

  /** `p` put into `s` before the first entry of a greater index. */
  function InsertIndexed<V>(p: (string, V), s: Props<V>): (r: Props<V>)
    requires IsIndexKey(p.0) && AllIndexed(s)
    ensures AllIndexed(r)
    ensures multiset(r) == multiset(s) + multiset{p}
  {
    if s == [] then [p]
    else if KeyIndex(p.0) < KeyIndex(s[0].0) then [p] + s
    else
      assert s == [s[0]] + s[1..];
      [s[0]] + InsertIndexed(p, s[1..])
  }

  /** A lower bound of `p` and of every index in `s` bounds every index
      after the insertion. */
  lemma {:induction false} InsertLowerBound<V>(p: (string, V), s: Props<V>, m: nat)
    requires IsIndexKey(p.0) && AllIndexed(s) && m <= KeyIndex(p.0)
    requires forall i :: 0 <= i < |s| ==> m <= KeyIndex(s[i].0)
    ensures forall i :: 0 <= i < |InsertIndexed(p, s)| ==> m <= KeyIndex(InsertIndexed(p, s)[i].0)
  {
    if s != [] && KeyIndex(p.0) >= KeyIndex(s[0].0) {
      InsertLowerBound(p, s[1..], m);
    }
  }

  /** Inserting into an ascending list keeps it ascending. */
  lemma {:induction false} InsertAscending<V>(p: (string, V), s: Props<V>)
    requires IsIndexKey(p.0) && AllIndexed(s) && Ascending(s)
    ensures Ascending(InsertIndexed(p, s))
  {
    if s != [] && KeyIndex(p.0) >= KeyIndex(s[0].0) {
      InsertAscending(p, s[1..]);
      InsertLowerBound(p, s[1..], KeyIndex(s[0].0));
    }
  }

  /** The index-keyed properties in ascending order of their indices. */
  function SortIndexed<V>(s: Props<V>): (r: Props<V>)
    requires AllIndexed(s)
    ensures AllIndexed(r) && Ascending(r)
    ensures multiset(r) == multiset(s)
  {
    if s == [] then []
    else
      assert s == [s[0]] + s[1..];
      InsertAscending(s[0], SortIndexed(s[1..]));
      InsertIndexed(s[0], SortIndexed(s[1..]))
  }

  /** The order in which `Object.keys`, `Object.entries` and `for ... in` visit
      the own properties: array-index keys first, in ascending numeric order,
      then the other keys in the order they were added. */
  function Enumerated<V>(o: Props<V>): (r: Props<V>)
    ensures |r| == |o|
  {
    SplitMultiset(o);
    assert |multiset(SortIndexed(IndexedProps(o)) + NamedProps(o))| == |multiset(o)|;
    SortIndexed(IndexedProps(o)) + NamedProps(o)
  }

  /** Enumeration lists each property of the object, as often as it occurs. */
  lemma EnumeratedPermutation<V>(o: Props<V>)
    ensures multiset(Enumerated(o)) == multiset(o)
  {
    SplitMultiset(o);
  }

  /** In enumeration order an array-index key comes only after smaller ones,
      and the other keys keep the order they were added in. */
  lemma EnumeratedOrder<V>(o: Props<V>)
    ensures var r := Enumerated(o);
      forall i, j :: 0 <= i < j < |r| && IsIndexKey(r[j].0) ==> IsIndexKey(r[i].0) && KeyIndex(r[i].0) <= KeyIndex(r[j].0)
    ensures NamedProps(Enumerated(o)) == NamedProps(o)
  {
    var sorted := SortIndexed(IndexedProps(o));
    NamedAppend(sorted, NamedProps(o));
    NamedOfIndexed(sorted);
    NamedOfNamed(NamedProps(o));
  }

  /** Each property listed is one of the object's. */
  lemma EnumeratedMembers<V>(o: Props<V>)
    ensures forall i :: 0 <= i < |Enumerated(o)| ==> Enumerated(o)[i] in o
  {
    var r := Enumerated(o);
    EnumeratedPermutation(o);
    forall i | 0 <= i < |r| ensures r[i] in o {
      assert r[i] in multiset(r);
    }
  }

  /** A property holds of every listed property exactly when it holds of
      every property of the object. */
  lemma EnumeratedAll<V>(o: Props<V>, P: ((string, V)) -> bool)
    ensures (forall i :: 0 <= i < |Enumerated(o)| ==> P(Enumerated(o)[i])) <==> (forall i :: 0 <= i < |o| ==> P(o[i]))
  {
    var r := Enumerated(o);
    EnumeratedPermutation(o);
    EnumeratedMembers(o);
    if forall i :: 0 <= i < |o| ==> P(o[i]) {
      forall i | 0 <= i < |r| ensures P(r[i]) {
        var j :| 0 <= j < |o| && o[j] == r[i];
      }
    } else {
      var j :| 0 <= j < |o| && !P(o[j]);
      assert o[j] in multiset(r);
    }
  }

  /** Listing an object's properties in enumeration order keeps each key once. */
  lemma EnumeratedDistinct<V>(o: Props<V>)
    requires Distinct(o)
    ensures Distinct(Enumerated(o))
  {
    EnumeratedPermutation(o);
    DistinctPermutation(o, Enumerated(o));
  }

  /** Without index keys, the enumeration order is the insertion order. */
  lemma {:induction false} EnumeratedWithoutIndexKeys<V>(o: Props<V>)
    requires forall i :: 0 <= i < |o| ==> !IsIndexKey(o[i].0)
    ensures Enumerated(o) == o
  {
    NoIndexed(o);
    NamedOfNamed(o);
  }

  lemma {:induction false} NoIndexed<V>(o: Props<V>)
    requires forall i :: 0 <= i < |o| ==> !IsIndexKey(o[i].0)
    ensures IndexedProps(o) == []
  {
    if o != [] {
      NoIndexed(o[1..]);
    }
  }

  /** Dropping one property keeps the keys distinct. */
  lemma DropDistinct<V>(a: Props<V>, m: nat)
    requires m < |a| && Distinct(a)
    ensures Distinct(a[..m] + a[m + 1..])
    ensures forall x :: x in a[..m] + a[m + 1..] ==> x.0 != a[m].0
  {
    var d := a[..m] + a[m + 1..];
    assert forall i :: 0 <= i < |d| ==> d[i] == if i < m then a[i] else a[i + 1];
  }

  /** Taking one element out of two equal multisets. */
  lemma TakeOutMultiset<V>(a: Props<V>, b: Props<V>, m: nat)
    requires m < |a| && b != [] && a[m] == b[0] && multiset(a) == multiset(b)
    ensures multiset(a[..m] + a[m + 1..]) == multiset(b[1..])
  {
    var x := multiset(a[..m] + a[m + 1..]);
    var y := multiset(b[1..]);
    assert a == a[..m] + [a[m]] + a[m + 1..];
    assert multiset(a) == x + multiset{a[m]};
    assert b == [b[0]] + b[1..];
    assert multiset(b) == y + multiset{b[0]};
    forall e ensures x[e] == y[e] {
      assert (x + multiset{a[m]})[e] == (y + multiset{a[m]})[e];
    }
  }

  /** Reordering the properties keeps the keys distinct. */
  lemma {:induction false} DistinctPermutation<V>(a: Props<V>, b: Props<V>)
    requires multiset(a) == multiset(b) && Distinct(a)
    ensures Distinct(b)
    decreases |b|
  {
    if b != [] {
      assert b[0] in multiset(a);
      var m :| 0 <= m < |a| && a[m] == b[0];
      var rest := a[..m] + a[m + 1..];
      TakeOutMultiset(a, b, m);
      DropDistinct(a, m);
      DistinctPermutation(rest, b[1..]);
      forall j | 1 <= j < |b| ensures b[0].0 != b[j].0 {
        assert b[j] == b[1..][j - 1];
        assert b[j] in multiset(rest);
      }
    }
  }

  /** The keys that are not array indices, in order. */
  function NamedKeys(ks: seq<string>): (r: seq<string>)
  {
    if ks == [] then []
    else if IsIndexKey(ks[0]) then NamedKeys(ks[1..])
    else [ks[0]] + NamedKeys(ks[1..])
  }

  lemma {:induction false} NamedKeysOf<V>(o: Props<V>)
    ensures NamedKeys(Keys(o)) == Keys(NamedProps(o))
  {
    if o != [] {
      assert Keys(o)[1..] == Keys(o[1..]);
      NamedKeysOf(o[1..]);
    }
  }

  /** `Object.keys(o)`: every key once, the array-index keys first in
      ascending numeric order, then the others in the order they were added;
      the order they were added when no key is an array index. */
  function ObjectKeys<V>(o: Props<V>): (r: seq<string>)
    ensures |r| == |o|
    ensures forall k :: k in r <==> k in Keys(o)
    ensures Distinct(o) ==> forall i, j :: 0 <= i < j < |r| ==> r[i] != r[j]
    ensures forall i, j :: 0 <= i < j < |r| && IsIndexKey(r[j]) ==> IsIndexKey(r[i]) && KeyIndex(r[i]) <= KeyIndex(r[j])
    ensures NamedKeys(r) == NamedKeys(Keys(o))
    ensures (forall i :: 0 <= i < |o| ==> !IsIndexKey(o[i].0)) ==> r == Keys(o)
  {
    KeysOfEnumerated(o);
    EnumeratedOrder(o);
    Keys(Enumerated(o))
  }

  lemma KeysOfEnumerated<V>(o: Props<V>)
    ensures |Enumerated(o)| == |o|
    ensures forall k :: k in Keys(Enumerated(o)) <==> k in Keys(o)
    ensures Distinct(o) ==> Distinct(Enumerated(o))
    ensures NamedKeys(Keys(Enumerated(o))) == NamedKeys(Keys(o))
    ensures (forall i :: 0 <= i < |o| ==> !IsIndexKey(o[i].0)) ==> Enumerated(o) == o
  {
    EnumeratedKeySet(o);
    if Distinct(o) {
      EnumeratedDistinct(o);
    }
    EnumeratedOrder(o);
    NamedKeysOf(o);
    NamedKeysOf(Enumerated(o));
    if forall i :: 0 <= i < |o| ==> !IsIndexKey(o[i].0) {
      EnumeratedWithoutIndexKeys(o);
    }
  }

  lemma EnumeratedKeySet<V>(o: Props<V>)
    ensures forall k :: k in Keys(Enumerated(o)) <==> k in Keys(o)
  {
    var e := Enumerated(o);
    EnumeratedPermutation(o);
    EnumeratedMembers(o);
    forall k | k in Keys(e) ensures k in Keys(o) {
      var j :| 0 <= j < |e| && e[j].0 == k;
      var i :| 0 <= i < |o| && o[i] == e[j];
      assert Keys(o)[i] == k;
    }
    forall k | k in Keys(o) ensures k in Keys(e) {
      var i :| 0 <= i < |o| && o[i].0 == k;
      assert o[i] in multiset(e);
      var j :| 0 <= j < |e| && e[j] == o[i];
      assert Keys(e)[j] == k;
    }
  }
}
