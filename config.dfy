// The configuration store of the plugin system: one plain object from a
// plugin's reference to its configuration.

module PluginConfig {
  import opened Base
  import opened JsObject

  /** The module-level `configs` object. */
  class Configs<C> {
    var configs: Props<C>

    ghost predicate Valid()
      reads this
    {
      Distinct(configs)
    }

    /** The store starts empty. */
    constructor()
      ensures Valid() && configs == []
    {
      configs := [];
    }

    /** `add(ref, config)`: the reference now gives this configuration; the
        other references keep theirs. */
    method Add(ref: string, config: C)
      requires Valid()
      modifies this
      ensures Valid() && configs == JsObject.Set(old(configs), ref, config)
      ensures JsObject.Get(configs, ref) == Some(config)
      ensures forall k :: k != ref ==> JsObject.Get(configs, k) == JsObject.Get(old(configs), k)
    {
      forall k | true ensures Distinct(JsObject.Set(configs, ref, config)) && JsObject.Get(JsObject.Set(configs, ref, config), ref) == Some(config)
        && (k != ref ==> JsObject.Get(JsObject.Set(configs, ref, config), k) == JsObject.Get(configs, k)) {
        SetGet(configs, ref, config, k);
      }
      configs := JsObject.Set(configs, ref, config);
    }

    /** `get(ref)`: the stored configuration, `undefined` as `None`. */
    method Get(ref: string) returns (r: Option<C>)
      ensures r.Some? <==> JsObject.Has(configs, ref)
      ensures r.Some? ==> exists i :: 0 <= i < |configs| && configs[i] == (ref, r.value)
    {
      r := JsObject.Get(configs, ref);
    }

    /** `has(ref)`. */
    method Has(ref: string) returns (b: bool)
      ensures b <==> ref in Keys(configs)
    {
      HasIffKey(configs, ref);
      b := JsObject.Has(configs, ref);
    }

    /** `remove(ref)`: the reference is gone, the others stay. */
    method Remove(ref: string)
      requires Valid()
      modifies this
      ensures Valid() && configs == JsObject.Delete(old(configs), ref)
      ensures !JsObject.Has(configs, ref)
      ensures forall k :: k != ref ==> JsObject.Get(configs, k) == JsObject.Get(old(configs), k)
    {
      forall k | true ensures Distinct(JsObject.Delete(configs, ref)) && !JsObject.Has(JsObject.Delete(configs, ref), ref)
        && (k != ref ==> JsObject.Get(JsObject.Delete(configs, ref), k) == JsObject.Get(configs, k)) {
        DeleteGet(configs, ref, k);
      }
      configs := JsObject.Delete(configs, ref);
    }

    /** `list()`: the stored references, as `Object.keys` lists them. */
    method List() returns (refs: seq<string>)
      ensures refs == ObjectKeys(configs)
    {
      refs := Keys(Enumerated(configs));
    }
  }

  /** Adding twice under one reference leaves what one add of the second
      configuration leaves. */
  lemma AddTwiceOverwrites<C>(configs: Props<C>, ref: string, first: C, second: C)
    requires Distinct(configs)
    ensures JsObject.Set(JsObject.Set(configs, ref, first), ref, second) == JsObject.Set(configs, ref, second)
    ensures JsObject.Get(JsObject.Set(JsObject.Set(configs, ref, first), ref, second), ref) == Some(second)
  {
    SetTwice(configs, ref, first, second);
    SetGet(configs, ref, second, ref);
  }
}
