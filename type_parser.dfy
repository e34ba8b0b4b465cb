// The type parsers: for each input format, a predicate that recognises it,
// filed under the data type it applies to or under a parent format it
// refines. `type(input)` finds the format of an input by trying the
// formats of its data type in registration order and refining the match
// through its extensions.

module TypeParser {
  import opened Base
  import opened JsObject
  import opened JsValue

  /** A registered format: its predicate (`test`, by name) and the formats that
      extend it, in registration order. */
  datatype Parser = Parser(test: string, extensions: seq<string>)

  /** The three tables: `types`, `dataTypes` (data type to its list of
      formats) and `unregExts` (parent format to the formats waiting for it). */
  datatype Tables = Tables(types: Props<Parser>, dataTypes: Props<seq<string>>, unregExts: Props<seq<string>>)

  /** Evaluating a predicate on an input (what the predicate does is outside
      the model). */
  type Holds = (string, Value) -> bool

  /** The data type of an input: `Array` exactly for arrays; the other
      classes come from `dataTypeOf`, which is not part of this model. */
  type Kind = Value -> string

  ghost predicate ArraysAreArrays(kindOf: Kind) {
    forall v :: kindOf(v) == "Array" <==> v.Arr?
  }

  const RangeError := "RangeError: Maximum call stack size exceeded"
  const NoPredicate := "TypeError: Cannot read properties of undefined (reading 'predicate')"

  /** `table[key] || []`. */
  function ListOf(table: Props<seq<string>>, key: string): (r: seq<string>)
    ensures Has(table, key) ==> r == Get(table, key).value
    ensures !Has(table, key) ==> r == []
  {
    match Get(table, key)
    case Some(l) => l
    case None => []
  }

  /** The format `t` is registered and its predicate holds on `data`. */
  predicate Matches(types: Props<Parser>, t: string, data: Value, holds: Holds) {
    Get(types, t).Some? && holds(Get(types, t).value.test, data)
  }

  /** `matchType(typeList, data)`: the first format of the list whose
      predicate holds, refined by `matchType` on its extensions; `None` for
      `undefined`. A name that is no longer registered throws at
      `types[type].predicate`; each nested call uses one unit of `fuel`, the
      stack depth left, and running out of it is a `RangeError`. */
  function Match(types: Props<Parser>, list: seq<string>, data: Value, holds: Holds, fuel: nat): Result<Option<string>, string>
    decreases fuel, |list|
  {
    if fuel == 0 then Err(RangeError)
    else if list == [] then Ok(None)
    else match Get(types, list[0])
      case None => Err(NoPredicate)
      case Some(p) =>
        if holds(p.test, data) then
          match Match(types, p.extensions, data, holds, fuel - 1)
          case Err(e) => Err(e)
          case Ok(sub) => Ok(Some(if sub.Some? && sub.value != "" then sub.value else list[0]))
        else Match(types, list[1..], data, holds, fuel)
  }

  /** `type(input)`. */
  function TypeOfInput(tb: Tables, input: Value, kindOf: Kind, holds: Holds, fuel: nat): Result<string, string>
    requires ArraysAreArrays(kindOf)
    decreases input, 2
  {
    var kind := kindOf(input);
    if kind == "Array" && |input.items| == 0 then Ok("@csl/list+object")
    else match Match(tb.types, ListOf(tb.dataTypes, kind), input, holds, fuel)
      case Err(e) => Err(e)
      case Ok(m) => if m.Some? && m.value != "" then Ok(m.value) else NativeType(tb, input, kind, kindOf, holds, fuel)
  }

  /** `parseNativeTypes(input, dataType)`. */
  function NativeType(tb: Tables, input: Value, kind: string, kindOf: Kind, holds: Holds, fuel: nat): Result<string, string>
    requires ArraysAreArrays(kindOf) && (kind == "Array" <==> input.Arr?)
    decreases input, 1
  {
    if kind == "Array" then
      if |input.items| == 0 then Ok("@csl/list+object")
      else match AllCslObjects(tb, input.items, kindOf, holds, fuel)
        case Err(e) => Err(e)
        case Ok(all) => Ok(if all then "@csl/list+object" else "@else/list+object")
    else if kind == "SimpleObject" || kind == "ComplexObject" then Ok("@csl/object")
    else Ok("@invalid")
  }

  /** `input.every((entry) => type(entry) === '@csl/object')`, stopping at the
      first entry that is not. */
  function AllCslObjects(tb: Tables, items: seq<Value>, kindOf: Kind, holds: Holds, fuel: nat): Result<bool, string>
    requires ArraysAreArrays(kindOf)
    decreases items, 0
  {
    if items == [] then Ok(true)
    else match TypeOfInput(tb, items[0], kindOf, holds, fuel)
      case Err(e) => Err(e)
      case Ok(t) => if t != "@csl/object" then Ok(false) else AllCslObjects(tb, items[1..], kindOf, holds, fuel)
  }

  /** The tables after `addTypeParser(format, { dataType, predicate, extends })`;
      `extend` is the parent format, `None` when absent (an empty name counts
      as absent too). */
  function Added(tb: Tables, format: string, dataType: string, test: string, extend: Option<string>): Tables {
    var queued := Has(tb.unregExts, format);
    var extensions := if queued then Get(tb.unregExts, format).value else [];
    var unreg := if queued then Delete(tb.unregExts, format) else tb.unregExts;
    var types := Set(tb.types, format, Parser(test, extensions));
    if extend.Some? && extend.value != "" then
      var parent := extend.value;
      match Get(types, parent)
      case Some(p) => Tables(Set(types, parent, p.(extensions := p.extensions + [format])), tb.dataTypes, unreg)
      case None => Tables(types, tb.dataTypes, Set(unreg, parent, ListOf(unreg, parent) + [format]))
    else
      Tables(types, Set(tb.dataTypes, dataType, ListOf(tb.dataTypes, dataType) + [format]), unreg)
  }

  /** The position of `t` in a list of names, or -1 (`indexOf`). */
  function Position(l: seq<string>, t: string): (r: int)
    ensures -1 <= r < |l|
    ensures r >= 0 ==> l[r] == t && forall k :: 0 <= k < r ==> l[k] != t
    ensures r == -1 <==> t !in l
  {
    if l == [] then -1
    else if l[0] == t then 0
    else var r := Position(l[1..], t); if r == -1 then -1 else r + 1
  }

  /** `indexOf` then `splice(index, 1)`: the first occurrence taken out. */
  function RemoveFirst(l: seq<string>, t: string): (r: seq<string>)
    ensures t in l ==> |r| == |l| - 1
    ensures t !in l ==> r == l
  {
    var i := Position(l, t);
    if i >= 0 then l[..i] + l[i + 1..] else l
  }

  /** `RemoveFirst` on the list under every key. */
  function RemoveFromLists(d: Props<seq<string>>, t: string): (r: Props<seq<string>>)
    ensures |r| == |d| && forall k :: 0 <= k < |d| ==> r[k] == (d[k].0, RemoveFirst(d[k].1, t))
  {
    if d == [] then [] else [(d[0].0, RemoveFirst(d[0].1, t))] + RemoveFromLists(d[1..], t)
  }

  /** `RemoveFirst` on the extensions of every format. */
  function RemoveFromExtensions(types: Props<Parser>, t: string): (r: Props<Parser>)
    ensures |r| == |types| && forall k :: 0 <= k < |types| ==>
      r[k] == (types[k].0, types[k].1.(extensions := RemoveFirst(types[k].1.extensions, t)))
  {
    if types == [] then []
    else [(types[0].0, types[0].1.(extensions := RemoveFirst(types[0].1.extensions, t)))] + RemoveFromExtensions(types[1..], t)
  }

  /** The tables after `removeTypeParser(t)` as written: the parser deleted,
      then the first occurrence of `t` taken out of each data type list and
      each remaining extension list; the waiting lists are not touched. */
  function Removed(tb: Tables, t: string): Tables {
    Tables(RemoveFromExtensions(Delete(tb.types, t), t), RemoveFromLists(tb.dataTypes, t), tb.unregExts)
  }

  /** The module's three tables, which the functions above update in place. */
  class TypeParsers {
    var types: Props<Parser>
    var dataTypes: Props<seq<string>>
    var unregExts: Props<seq<string>>

    function State(): Tables reads this {
      Tables(types, dataTypes, unregExts)
    }

    constructor()
      ensures State() == Tables([], [], [])
    {
      types := [];
      dataTypes := [];
      unregExts := [];
    }

    /** `addTypeParser(format, { dataType, predicate, extends })`. */
    method AddTypeParser(format: string, dataType: string, test: string, extend: Option<string>)
      modifies this
      ensures State() == Added(old(State()), format, dataType, test, extend)
    {
      var extensions := [];
      if Has(unregExts, format) {
        extensions := Get(unregExts, format).value;
        unregExts := Delete(unregExts, format);
      }
      types := Set(types, format, Parser(test, extensions));
      if extend.Some? && extend.value != "" {
        var parent := Get(types, extend.value);
        if parent.Some? {
          types := Set(types, extend.value, parent.value.(extensions := parent.value.extensions + [format]));
        } else {
          unregExts := Set(unregExts, extend.value, ListOf(unregExts, extend.value) + [format]);
        }
      } else {
        dataTypes := Set(dataTypes, dataType, ListOf(dataTypes, dataType) + [format]);
      }
    }

    /** `hasTypeParser(type)`. */
    method HasTypeParser(t: string) returns (b: bool)
      ensures b <==> t in Keys(types)
    {
      b := Has(types, t);
      HasIffKey(types, t);
    }

    /** `listTypeParser()`. */
    method ListTypeParser() returns (names: seq<string>)
      ensures names == ObjectKeys(types)
    {
      names := Keys(Enumerated(types));
    }

    /** `removeTypeParser(t)`: one pass over the data type lists, one over
      the extension lists. */
    method RemoveTypeParser(t: string)
      modifies this
      ensures State() == Removed(old(State()), t)
    {
      types := Delete(types, t);
      var lists := RemoveEach(dataTypes, t);
      var parsers := RemoveEachExtension(types, t);
      dataTypes, types := lists, parsers;
    }

    /** `matchType(typeList, data)`: the `for ... of` loop over the list. */
    method MatchType(list: seq<string>, data: Value, holds: Holds, fuel: nat) returns (r: Result<Option<string>, string>)
      ensures r == Match(types, list, data, holds, fuel)
      decreases fuel
    {
      if fuel == 0 {
        return Err(RangeError);
      }
      var i := 0;
      while i < |list|
        invariant i <= |list|
        invariant Match(types, list, data, holds, fuel) == Match(types, list[i..], data, holds, fuel)
      {
        var p := Get(types, list[i]);
        if p.None? {
          return Err(NoPredicate);
        }
        if holds(p.value.test, data) {
          var sub := MatchType(p.value.extensions, data, holds, fuel - 1);
          if sub.Err? {
            return Err(sub.error);
          }
          return Ok(Some(if sub.value.Some? && sub.value.value != "" then sub.value.value else list[i]));
        }
        assert list[i..][1..] == list[i + 1..];
        i := i + 1;
      }
      r := Ok(None);
    }

    /** `type(input)` on the current tables. */
    method Type(input: Value, kindOf: Kind, holds: Holds, fuel: nat) returns (r: Result<string, string>)
      requires ArraysAreArrays(kindOf)
      ensures r == TypeOfInput(State(), input, kindOf, holds, fuel)
    {
      var kind := kindOf(input);
      if kind == "Array" && |input.items| == 0 {
        return Ok("@csl/list+object");
      }
      var m := MatchType(ListOf(dataTypes, kind), input, holds, fuel);
      if m.Err? {
        return Err(m.error);
      }
      if m.value.Some? && m.value.value != "" {
        return Ok(m.value.value);
      }
      r := NativeType(State(), input, kind, kindOf, holds, fuel);
    }
  }

  /** The loop over the data type lists. */
  method RemoveEach(d: Props<seq<string>>, t: string) returns (r: Props<seq<string>>)
    ensures r == RemoveFromLists(d, t)
  {
    r := d;
    var i := 0;
    while i < |r|
      invariant i <= |r| == |d|
      invariant forall k :: 0 <= k < i ==> r[k] == (d[k].0, RemoveFirst(d[k].1, t))
      invariant forall k :: i <= k < |r| ==> r[k] == d[k]
    {
      r := r[i := (r[i].0, RemoveFirst(r[i].1, t))];
      i := i + 1;
    }
    assert forall k :: 0 <= k < |d| ==> r[k] == RemoveFromLists(d, t)[k];
  }

  /** The loop over the extension lists. */
  method RemoveEachExtension(types: Props<Parser>, t: string) returns (r: Props<Parser>)
    ensures r == RemoveFromExtensions(types, t)
  {
    r := types;
    var j := 0;
    while j < |r|
      invariant j <= |r| == |types|
      invariant forall k :: 0 <= k < j ==>
        r[k] == (types[k].0, types[k].1.(extensions := RemoveFirst(types[k].1.extensions, t)))
      invariant forall k :: j <= k < |r| ==> r[k] == types[k]
    {
      r := r[j := (r[j].0, r[j].1.(extensions := RemoveFirst(r[j].1.extensions, t)))];
      j := j + 1;
    }
    assert forall k :: 0 <= k < |types| ==> r[k] == RemoveFromExtensions(types, t)[k];
  }
}
