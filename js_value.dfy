// JavaScript values as the registries, the input parsers and the CSL cleaner
// see them: primitives, arrays, plain objects, functions, and objects made by
// some other constructor.

module JsValue {
  import opened Base

  datatype Value =
    | Undefined
    | Null
    | Bool(b: bool)
    | Num(n: int)
    | Str(s: string)
    | Arr(items: seq<Value>)
    /** A plain object (`constructor === Object`), its own properties in the order they were added. */
    | Obj(props: seq<(string, Value)>)
    /** A function, known by its name. */
    | Fn(name: string)
    /** An object made by another constructor (a `Date`, a class instance). */
    | Other(ctor: string, props: seq<(string, Value)>)

  /** `typeof v`. */
  function TypeOf(v: Value): (r: string)
    ensures r == "object" <==> v.Null? || v.Arr? || v.Obj? || v.Other?
    ensures r == "string" <==> v.Str?
    ensures r == "function" <==> v.Fn?
  {
    match v
    case Undefined => "undefined"
    case Null => "object"
    case Bool(_) => "boolean"
    case Num(_) => "number"
    case Str(_) => "string"
    case Arr(_) => "object"
    case Obj(_) => "object"
    case Fn(_) => "function"
    case Other(_, _) => "object"
  }

  /** JavaScript truthiness. */
  predicate Truthy(v: Value) {
    match v
    case Undefined => false
    case Null => false
    case Bool(b) => b
    case Num(n) => n != 0
    case Str(s) => s != ""
    case _ => true
  }

  /** The keys and values a `for (const k in v)` loop visits with `v[k]`:
      the properties of an object, the indices of an array or of a string's
      characters, nothing for the other primitives and functions. */
  function ForIn(v: Value): (r: seq<(string, Value)>)
    ensures v.Obj? || v.Other? ==> r == v.props
    ensures v.Arr? ==> |r| == |v.items| && forall i :: 0 <= i < |r| ==> r[i] == (NatToString(i), v.items[i])
    ensures v.Str? ==> |r| == |v.s|
    ensures !(v.Obj? || v.Other? || v.Arr? || v.Str?) ==> r == []
  {
    match v
    case Obj(ps) => ps
    case Other(_, ps) => ps
    case Arr(items) => seq(|items|, i requires 0 <= i < |items| => (NatToString(i), items[i]))
    case Str(s) => seq(|s|, i requires 0 <= i < |s| => (NatToString(i), Str([s[i]])))
    case _ => []
  }

  /** `v[key]` on an object: the first property of that name, else `undefined`. */
  function Member(v: Value, key: string): Value {
    match Lookup(ForIn(v), key)
    case Some(x) => x
    case None => Undefined
  }

  /** `String(v)`, which is also the key `v` stands for in `key in object`
      and `object[key]`: array elements that are `null` or `undefined` print
      as nothing, plain objects and other instances as `[object Object]`. */
  function ToJsString(v: Value): (r: string)
    ensures v.Str? ==> r == v.s
    decreases v
  {
    match v
    case Undefined => "undefined"
    case Null => "null"
    case Bool(b) => if b then "true" else "false"
    case Num(n) => IntToString(n)
    case Str(s) => s
    case Arr(items) =>
      Join(seq(|items|, i requires 0 <= i < |items| =>
        if items[i].Undefined? || items[i].Null? then "" else ToJsString(items[i])), ",")
    case Obj(_) => "[object Object]"
    case Fn(name) => "function " + name + "() { [native code] }"
    case Other(_, _) => "[object Object]"
  }
}
