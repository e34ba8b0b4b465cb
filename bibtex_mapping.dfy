// The entry-level half of the BibTeX mapping: an entry names its parent
// entry by label in its `crossref` field and inherits the parent's fields;
// `_parse` converts every entry, with what it inherits, through a field
// mapping, and `_format` splits a mapped-back entry into its type, its label
// and its fields.

module BibtexMapping {
  import opened Base
  import opened JsObject
  import opened JsValue
  import opened BibtexFile

  /** The keys under which the type and the label travel through the mapping. */
  const TypeKey := "BibTeX type"
  const LabelKey := "BibTeX label"

  const StackOverflow := "RangeError: Maximum call stack size exceeded"

  // How the parent is looked up (`Reading`): as the code does it, where an
  // entry with no `crossref` field looks up the label `undefined`, or as
  // intended, where it has no parent.

  /** Every entry's fields have distinct keys, as an object's do. */
  predicate AllDistinct(es: seq<BibEntry>) {
    forall i :: 0 <= i < |es| ==> Distinct(es[i].properties)
  }

  /** Every value of the registry is an entry position. */
  predicate Indexes(reg: Props<nat>, n: nat) {
    forall i :: 0 <= i < |reg| ==> reg[i].1 < n
  }

  /** The registry `{[entry.label]: entry}` filled in entry order; an entry
      is known by its position. */
  function Registry(es: seq<BibEntry>): (r: Props<nat>)
    ensures Indexes(r, |es|)
    decreases |es|
  {
    if es == [] then []
    else
      var n := |es| - 1;
      Set(Registry(es[..n]), es[n].entryLabel, n)
  }

  /** The `for (const entry of input)` loop of `_parse`. */
  method BuildRegistry(es: seq<BibEntry>) returns (reg: Props<nat>)
    ensures reg == Registry(es)
  {
    reg := [];
    var i := 0;
    while i < |es|
      invariant i <= |es|
      invariant reg == Registry(es[..i])
    {
      assert es[..i + 1][..i] == es[..i];
      reg := Set(reg, es[i].entryLabel, i);
      i := i + 1;
    }
    assert es[..|es|] == es;
  }

  /** The key `entry.crossref in registry` looks up. */
  function CrossrefKey(props: Props<Value>, reading: Reading): (r: Option<string>)
    ensures Has(props, "crossref") ==> r == Some(ToJsString(Get(props, "crossref").value))
    ensures !Has(props, "crossref") ==> (r.Some? <==> reading == AsWritten)
  {
    match Get(props, "crossref")
    case Some(v) => Some(ToJsString(v))
    case None => if reading == AsWritten then Some("undefined") else None
  }

  /** The position of the parent of entry `i`, if its key is registered. */
  function Parent(es: seq<BibEntry>, reg: Props<nat>, i: nat, reading: Reading): (r: Option<nat>)
    requires i < |es| && Indexes(reg, |es|)
    ensures r.Some? ==> r.value < |es|
  {
    match CrossrefKey(es[i].properties, reading)
    case None => None
    case Some(k) => Get(reg, k)
  }

  /** The positions of `n` entries. */
  function Positions(n: nat): (r: set<nat>)
    ensures forall i: nat :: i in r <==> i < n
  {
    if n == 0 then {} else Positions(n - 1) + {n - 1}
  }

  lemma Shrinks(n: nat, stack: set<nat>, i: nat)
    requires i < n && i !in stack
    ensures |Positions(n) - (stack + {i})| < |Positions(n) - stack|
  {
    assert Positions(n) - stack == (Positions(n) - (stack + {i})) + {i};
  }

  /** `crossref(entry, registry)` of `index.js` for entry `i`, while the
      calls for the entries in `stack` are waiting on it: the entry itself
      when it has no registered parent or is its own parent, else the
      parent's resolved fields overwritten by its own. A parent already
      waiting means the recursion never ends, which JavaScript reports as a
      stack overflow. */
  function Inherit(es: seq<BibEntry>, reg: Props<nat>, i: nat, stack: set<nat>, reading: Reading): (r: Result<Props<Value>, string>)
    requires i < |es| && Indexes(reg, |es|) && i !in stack
    ensures r.Err? ==> r.error == StackOverflow
    decreases |Positions(|es|) - stack|
  {
    match Parent(es, reg, i, reading)
    case None => Ok(es[i].properties)
    case Some(j) =>
      if j == i then Ok(es[i].properties)
      else if j in stack then Err(StackOverflow)
      else
        Shrinks(|es|, stack, i);
        match Inherit(es, reg, j, stack + {i}, reading)
        case Err(e) => Err(e)
        case Ok(p) => Ok(Assign(Assign([], p), es[i].properties))
  }

  /** The fields of entry `i` with what it inherits. */
  function Crossref(es: seq<BibEntry>, reg: Props<nat>, i: nat, reading: Reading): Result<Props<Value>, string>
    requires i < |es| && Indexes(reg, |es|)
  {
    Inherit(es, reg, i, {}, reading)
  }

  /** One output of `_parse`: the type, the label and the resolved fields,
      in that key order, converted by the mapping. */
  function Convert(es: seq<BibEntry>, reg: Props<nat>, i: nat, reading: Reading, toTarget: Props<Value> -> Value): (r: Result<Value, string>)
    requires i < |es| && Indexes(reg, |es|)
    ensures r.Ok? <==> Crossref(es, reg, i, reading).Ok?
  {
    match Crossref(es, reg, i, reading)
    case Err(e) => Err(e)
    case Ok(p) => Ok(toTarget(Assign([(TypeKey, Str(es[i].entryType)), (LabelKey, Str(es[i].entryLabel))], p)))
  }

  /** `input.map(...)` of `_parse`: every entry converted, in order. */
  function Converted(es: seq<BibEntry>, reg: Props<nat>, reading: Reading, toTarget: Props<Value> -> Value): (r: seq<Result<Value, string>>)
    requires Indexes(reg, |es|)
    ensures |r| == |es|
    ensures forall i :: 0 <= i < |es| ==> r[i] == Convert(es, reg, i, reading, toTarget)
  {
    seq(|es|, i requires 0 <= i < |es| => Convert(es, reg, i, reading, toTarget))
  }

  /** `_parse(input, spec)`: every entry converted with the registry of all
      entries; the first throw ends it. */
  function ParseWith(es: seq<BibEntry>, reading: Reading, toTarget: Props<Value> -> Value): Result<seq<Value>, string> {
    Collect(Converted(es, Registry(es), reading, toTarget))
  }

  /** `_parse`, filling the registry first. */
  method Parse(es: seq<BibEntry>, reading: Reading, toTarget: Props<Value> -> Value) returns (r: Result<seq<Value>, string>)
    ensures r == ParseWith(es, reading, toTarget)
  {
    var reg := BuildRegistry(es);
    r := Collect(Converted(es, reg, reading, toTarget));
  }

  /** An entry as `_format` gives it back. */
  datatype Formatted = Formatted(entryType: Value, entryLabel: Value, properties: Props<Value>)

  /** One entry of `_format`: the mapped-back fields, with the type and the
      label taken out of them. */
  function FormatEntry(v: Value, toSource: Value -> Props<Value>): (r: Formatted)
    ensures r.entryType == Get(toSource(v), TypeKey).GetOr(Undefined)
    ensures r.entryLabel == Get(toSource(v), LabelKey).GetOr(Undefined)
    ensures forall k :: k in Keys(r.properties) ==> k != TypeKey && k != LabelKey
    ensures forall i :: 0 <= i < |toSource(v)| && toSource(v)[i].0 != TypeKey && toSource(v)[i].0 != LabelKey ==>
      toSource(v)[i] in r.properties
    ensures forall i :: 0 <= i < |r.properties| ==> r.properties[i] in toSource(v)
  {
    var src := toSource(v);
    Formatted(Get(src, TypeKey).GetOr(Undefined), Get(src, LabelKey).GetOr(Undefined), Without(src, [TypeKey, LabelKey]))
  }

  /** `_format(input, spec)`: one entry per input, in order. */
  function Format(input: seq<Value>, toSource: Value -> Props<Value>): (r: seq<Formatted>)
    ensures |r| == |input|
    ensures forall i :: 0 <= i < |input| ==> r[i] == FormatEntry(input[i], toSource)
  {
    seq(|input|, i requires 0 <= i < |input| => FormatEntry(input[i], toSource))
  }
}
