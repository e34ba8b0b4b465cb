// The data parsers: for each input type, the function that turns input of
// that type into the next input (or into CSL-JSON). Registered parsers come
// first, then four native ones; synchronous and asynchronous parsers are kept
// in two tables.

module InputData {
  import opened Base
  import opened JsObject
  import opened JsValue

  /** Running a parser function on an input (what the function does is
      outside the model). */
  type Runner = (Value, Value) -> Result<Value, string>

  /** `chain` (or `chainAsync`) on one element of a list. */
  type Chain = Value -> Result<Value, string>

  /** The types with a native synchronous parser. */
  predicate NativeSync(typ: string) {
    typ == "@csl/object" || typ == "@csl/list+object" || typ == "@else/list+object" || typ == "@invalid"
  }

  /** The one type with a native asynchronous parser. */
  predicate NativeAsync(typ: string) {
    typ == "@else/list+object"
  }

  /** `[].concat(...array)`: each array element spread, anything else kept. */
  function Flatten(items: seq<Value>): (r: seq<Value>)
    ensures (forall i :: 0 <= i < |items| ==> !items[i].Arr?) ==> r == items
  {
    if items == [] then []
    else (if items[0].Arr? then items[0].items else [items[0]]) + Flatten(items[1..])
  }

  /** `input.map(chain)`, stopping at the first element that throws. */
  function MapChain(items: seq<Value>, chain: Chain): (r: Result<seq<Value>, string>)
    ensures r.Ok? ==> |r.value| == |items| && forall i :: 0 <= i < |items| ==> chain(items[i]) == Ok(r.value[i])
    ensures r.Err? ==> exists i :: 0 <= i < |items| && chain(items[i]) == Err(r.error)
  {
    if items == [] then Ok([])
    else match chain(items[0])
      case Err(e) => Err(e)
      case Ok(x) =>
        match MapChain(items[1..], chain)
        case Err(e) => Err(e)
        case Ok(xs) => Ok([x] + xs)
  }

  /** The native parser of `typ`, for the element parser `chain`. */
  function Native(input: Value, typ: string, chain: Chain): Result<Value, string>
    requires NativeSync(typ)
  {
    if typ == "@csl/object" then Ok(Arr([input]))
    else if typ == "@csl/list+object" then Ok(input)
    else if typ == "@else/list+object" then
      if !input.Arr? then Err("TypeError: input.map is not a function")
      else match MapChain(input.items, chain)
        case Err(e) => Err(e)
        case Ok(xs) => Ok(Arr(Flatten(xs)))
    else Err("Error: This format is not supported or recognized")
  }

  /** `typeof table[typ] === 'function'`. */
  predicate HasFunction(table: Props<Value>, typ: string) {
    Get(table, typ).Some? && Get(table, typ).value.Fn?
  }

  /** `data(input, type)` over the table of synchronous parsers. */
  function Data(parsers: Props<Value>, input: Value, typ: string, run: Runner, chain: Chain): Result<Value, string> {
    if HasFunction(parsers, typ) then run(Get(parsers, typ).value, input)
    else if NativeSync(typ) then Native(input, typ, chain)
    else Err("TypeError: No synchronous parser found for " + typ)
  }

  /** `hasDataParser(type, async)`: a truthy registered value or a native parser. */
  predicate HasParser(parsers: Props<Value>, asyncParsers: Props<Value>, typ: string, async: bool) {
    if async then (Get(asyncParsers, typ).Some? && Truthy(Get(asyncParsers, typ).value)) || NativeAsync(typ)
    else (Get(parsers, typ).Some? && Truthy(Get(parsers, typ).value)) || NativeSync(typ)
  }

  /** `dataAsync(input, type)`: a registered asynchronous parser, the native
      asynchronous one, then the synchronous path; a rejected promise is an
      error. */
  function DataAsync(parsers: Props<Value>, asyncParsers: Props<Value>, input: Value, typ: string,
                     run: Runner, chain: Chain, chainAsync: Chain): Result<Value, string> {
    if HasFunction(asyncParsers, typ) then run(Get(asyncParsers, typ).value, input)
    else if NativeAsync(typ) then Native(input, typ, chainAsync)
    else if HasParser(parsers, asyncParsers, typ, false) then Data(parsers, input, typ, run, chain)
    else Err("TypeError: No parser found for " + typ)
  }

  /** The module's two parser tables. */
  class DataParsers {
    var parsers: Props<Value>
    var asyncParsers: Props<Value>

    ghost predicate Valid() reads this {
      Distinct(parsers) && Distinct(asyncParsers)
    }

    constructor()
      ensures Valid() && parsers == [] && asyncParsers == []
    {
      parsers := [];
      asyncParsers := [];
    }

    /** `addDataParser(format, { parser, async })`: only the chosen table changes. */
    method AddDataParser(format: string, parser: Value, async: bool)
      requires Valid()
      modifies this
      ensures Valid()
      ensures async ==> asyncParsers == Set(old(asyncParsers), format, parser) && parsers == old(parsers)
      ensures !async ==> parsers == Set(old(parsers), format, parser) && asyncParsers == old(asyncParsers)
    {
      if async {
        asyncParsers := Set(asyncParsers, format, parser);
        SetGet(old(asyncParsers), format, parser, format);
      } else {
        parsers := Set(parsers, format, parser);
        SetGet(old(parsers), format, parser, format);
      }
    }

    /** `removeDataParser(type, async)`: only the chosen table changes. */
    method RemoveDataParser(typ: string, async: bool)
      requires Valid()
      modifies this
      ensures Valid()
      ensures async ==> asyncParsers == Delete(old(asyncParsers), typ) && parsers == old(parsers)
      ensures !async ==> parsers == Delete(old(parsers), typ) && asyncParsers == old(asyncParsers)
    {
      if async {
        asyncParsers := Delete(asyncParsers, typ);
        DeleteGet(old(asyncParsers), typ, typ);
      } else {
        parsers := Delete(parsers, typ);
        DeleteGet(old(parsers), typ, typ);
      }
    }

    /** `hasDataParser(type, async)`. */
    method HasDataParser(typ: string, async: bool) returns (b: bool)
      ensures b == HasParser(parsers, asyncParsers, typ, async)
    {
      var table := if async then asyncParsers else parsers;
      var v := Get(table, typ);
      b := (v.Some? && Truthy(v.value)) || (if async then NativeAsync(typ) else NativeSync(typ));
    }

    /** `listDataParser(async)`: the registered names of the chosen table. */
    method ListDataParser(async: bool) returns (names: seq<string>)
      ensures names == ObjectKeys(if async then asyncParsers else parsers)
    {
      names := Keys(Enumerated(if async then asyncParsers else parsers));
    }

    /** `data(input, type)`. */
    method ParseData(input: Value, typ: string, run: Runner, chain: Chain) returns (r: Result<Value, string>)
      ensures r == Data(parsers, input, typ, run, chain)
    {
      var p := Get(parsers, typ);
      if p.Some? && p.value.Fn? {
        r := run(p.value, input);
      } else if NativeSync(typ) {
        r := Native(input, typ, chain);
      } else {
        r := Err("TypeError: No synchronous parser found for " + typ);
      }
    }

    /** `dataAsync(input, type)`. */
    method ParseDataAsync(input: Value, typ: string, run: Runner, chain: Chain, chainAsync: Chain)
      returns (r: Result<Value, string>)
      ensures r == DataAsync(parsers, asyncParsers, input, typ, run, chain, chainAsync)
    {
      var p := Get(asyncParsers, typ);
      if p.Some? && p.value.Fn? {
        r := run(p.value, input);
      } else if NativeAsync(typ) {
        r := Native(input, typ, chainAsync);
      } else {
        var has := HasDataParser(typ, false);
        if has {
          r := ParseData(input, typ, run, chain);
        } else {
          r := Err("TypeError: No parser found for " + typ);
        }
      }
    }
  }

  /** A registered synchronous parser wins over the native one of the same type. */
  lemma RegisteredFirst(parsers: Props<Value>, format: string, name: string, input: Value, run: Runner, chain: Chain)
    ensures Data(Set(parsers, format, Fn(name)), input, format, run, chain) == run(Fn(name), input)
  {
    SetGet(parsers, format, Fn(name), format);
  }

  /** The native parsers: one-element list, identity, and a throw. */
  lemma NativeParsers(parsers: Props<Value>, input: Value, run: Runner, chain: Chain)
    ensures !HasFunction(parsers, "@csl/object") ==> Data(parsers, input, "@csl/object", run, chain) == Ok(Arr([input]))
    ensures !HasFunction(parsers, "@csl/list+object") ==> Data(parsers, input, "@csl/list+object", run, chain) == Ok(input)
    ensures !HasFunction(parsers, "@invalid") ==> Data(parsers, input, "@invalid", run, chain).Err?
  {
  }

  /** Every element of a list goes through `chain`, and the results are
      concatenated one level deep. */
  lemma ElseListFlattens(parsers: Props<Value>, items: seq<Value>, outs: seq<Value>, run: Runner, chain: Chain)
    requires !HasFunction(parsers, "@else/list+object")
    requires |outs| == |items| && forall i :: 0 <= i < |items| ==> chain(items[i]) == Ok(outs[i])
    ensures Data(parsers, Arr(items), "@else/list+object", run, chain) == Ok(Arr(Flatten(outs)))
  {
    MapChainOk(items, outs, chain);
  }

  lemma {:induction false} MapChainOk(items: seq<Value>, outs: seq<Value>, chain: Chain)
    requires |outs| == |items| && forall i :: 0 <= i < |items| ==> chain(items[i]) == Ok(outs[i])
    ensures MapChain(items, chain) == Ok(outs)
  {
    if items != [] {
      assert chain(items[0]) == Ok(outs[0]);
      MapChainOk(items[1..], outs[1..], chain);
      assert outs == [outs[0]] + outs[1..];
    }
  }

  /** Flattening keeps every element of every list, in order. */
  lemma {:induction false} FlattenAppend(a: seq<Value>, b: seq<Value>)
    ensures Flatten(a + b) == Flatten(a) + Flatten(b)
  {
    if a == [] {
      assert a + b == b;
    } else {
      assert (a + b)[0] == a[0] && (a + b)[1..] == a[1..] + b;
      FlattenAppend(a[1..], b);
    }
  }

  /** `data` dispatches to a registered function, else to a native parser,
      else throws `TypeError`. */
  lemma DataDispatch(parsers: Props<Value>, input: Value, typ: string, run: Runner, chain: Chain)
    ensures HasFunction(parsers, typ) ==> Data(parsers, input, typ, run, chain) == run(Get(parsers, typ).value, input)
    ensures !HasFunction(parsers, typ) && NativeSync(typ) ==> Data(parsers, input, typ, run, chain) == Native(input, typ, chain)
    ensures !HasFunction(parsers, typ) && !NativeSync(typ) ==>
      Data(parsers, input, typ, run, chain) == Err("TypeError: No synchronous parser found for " + typ)
  {
  }

  /** Under a type with no asynchronous parser, `dataAsync` falls back on `data`. */
  lemma AsyncFallsBack(parsers: Props<Value>, asyncParsers: Props<Value>, input: Value, typ: string,
                       run: Runner, chain: Chain, chainAsync: Chain)
    requires !HasFunction(asyncParsers, typ) && !NativeAsync(typ) && HasParser(parsers, asyncParsers, typ, false)
    ensures DataAsync(parsers, asyncParsers, input, typ, run, chain, chainAsync) == Data(parsers, input, typ, run, chain)
  {
  }

  /** Removing a synchronous parser leaves the asynchronous table's answers alone. */
  lemma RemoveSyncKeepsAsync(parsers: Props<Value>, asyncParsers: Props<Value>, typ: string, other: string)
    requires Distinct(parsers)
    ensures !HasParser(Delete(parsers, typ), asyncParsers, typ, false) <==> !NativeSync(typ)
    ensures HasParser(Delete(parsers, typ), asyncParsers, other, true) == HasParser(parsers, asyncParsers, other, true)
  {
    DeleteGet(parsers, typ, typ);
  }

  /** The native types count as present without being listed: with no
      registered parser, `hasDataParser` holds for them and `listDataParser`
      is empty. */
  lemma NativesNotListed(typ: string)
    requires NativeSync(typ)
    ensures HasParser([], [], typ, false) && Keys<Value>([]) == []
  {
  }

  /** After adding a truthy parser, `hasDataParser` holds for it in its table,
      and the other table answers as before. */
  lemma AddThenHas(parsers: Props<Value>, asyncParsers: Props<Value>, format: string, parser: Value, other: string)
    requires Truthy(parser)
    ensures HasParser(Set(parsers, format, parser), asyncParsers, format, false)
    ensures HasParser(parsers, Set(asyncParsers, format, parser), format, true)
    ensures HasParser(Set(parsers, format, parser), asyncParsers, other, true) == HasParser(parsers, asyncParsers, other, true)
  {
    SetGet(parsers, format, parser, format);
    SetGet(asyncParsers, format, parser, format);
  }
}
