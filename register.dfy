// `Register`: a keyed store over a plain object. `add` and `remove` are the
// same operations as `set` and `delete`, and every update returns the register
// itself so that calls chain.

module JsRegister {
  import opened Base
  import opened JsObject

  class Register<V> {
    var data: Props<V>

    ghost predicate Valid()
      reads this
    {
      Distinct(data)
    }

    /** `new Register(data)` keeps the object it is given. */
    constructor(data: Props<V>)
      requires Distinct(data)
      ensures Valid() && this.data == data
    {
      this.data := data;
    }

    /** `set(key, value)`: the key now holds the value, all other keys keep
        theirs. */
    method Set(key: string, value: V) returns (r: Register<V>)
      requires Valid()
      modifies this
      ensures Valid() && r == this
      ensures data == JsObject.Set(old(data), key, value)
      ensures JsObject.Get(data, key) == Some(value)
      ensures forall k :: k != key ==> JsObject.Get(data, k) == JsObject.Get(old(data), k)
    {
      forall k | true ensures Distinct(JsObject.Set(data, key, value)) && JsObject.Get(JsObject.Set(data, key, value), key) == Some(value)
        && (k != key ==> JsObject.Get(JsObject.Set(data, key, value), k) == JsObject.Get(data, k)) {
        SetGet(data, key, value, k);
      }
      data := JsObject.Set(data, key, value);
      r := this;
    }

    /** `add` is `set`. */
    method Add(key: string, value: V) returns (r: Register<V>)
      requires Valid()
      modifies this
      ensures Valid() && r == this
      ensures data == JsObject.Set(old(data), key, value)
    {
      r := Set(key, value);
    }

    /** `delete(key)`: the key is gone, all other keys keep their values. */
    method Delete(key: string) returns (r: Register<V>)
      requires Valid()
      modifies this
      ensures Valid() && r == this
      ensures data == JsObject.Delete(old(data), key)
      ensures !JsObject.Has(data, key)
      ensures forall k :: k != key ==> JsObject.Get(data, k) == JsObject.Get(old(data), k)
    {
      forall k | true ensures Distinct(JsObject.Delete(data, key)) && !JsObject.Has(JsObject.Delete(data, key), key)
        && (k != key ==> JsObject.Get(JsObject.Delete(data, key), k) == JsObject.Get(data, k)) {
        DeleteGet(data, key, k);
      }
      data := JsObject.Delete(data, key);
      r := this;
    }

    /** `remove` is `delete`. */
    method Remove(key: string) returns (r: Register<V>)
      requires Valid()
      modifies this
      ensures Valid() && r == this
      ensures data == JsObject.Delete(old(data), key)
    {
      r := Delete(key);
    }

    /** `get(key)`: the value stored under the key, `undefined` as `None`. */
    method Get(key: string) returns (r: Option<V>)
      ensures r.Some? <==> JsObject.Has(data, key)
      ensures r.Some? ==> exists i :: 0 <= i < |data| && data[i] == (key, r.value)
      ensures r == JsObject.Get(data, key)
    {
      r := JsObject.Get(data, key);
    }

    /** `has(key)`: an own property of that name exists. */
    method Has(key: string) returns (b: bool)
      ensures b <==> key in Keys(data)
    {
      HasIffKey(data, key);
      b := JsObject.Has(data, key);
    }

    /** `list()`: the keys, as `Object.keys` lists them. */
    method List() returns (ks: seq<string>)
      ensures ks == ObjectKeys(data)
    {
      ks := Keys(Enumerated(data));
    }
  }
}
