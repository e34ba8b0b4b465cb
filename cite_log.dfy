// The version log of a `Cite` instance: `save` records a snapshot of the data
// and options as JSON text, and `retrieveVersion(n)` builds a new instance
// from the n-th snapshot, parsed back, whose log is the first n snapshots.

module CiteLog {
  import opened Base
  import opened JsValue

  /** A value that `JSON.parse` can produce: no `undefined`, no function and
      no instance of a class other than `Object` and `Array`, at any depth. */
  predicate Plain(v: Value)
    decreases v
  {
    match v
    case Undefined => false
    case Fn(_) => false
    case Other(_, _) => false
    case Arr(items) => forall i :: 0 <= i < |items| ==> Plain(items[i])
    case Obj(ps) => forall i :: 0 <= i < |ps| ==> Plain(ps[i].1)
    case _ => true
  }

  /** What `JSON.parse(JSON.stringify(v))` gives back, or `None` where
      `JSON.stringify` returns `undefined` (for `undefined` and functions) and
      there is no text to parse. In an array such an element becomes `null`;
      in an object the property is dropped; an instance of another class is
      written as a plain object of its properties. */
  function Revived(v: Value): (r: Option<Value>)
    ensures r.None? <==> v.Undefined? || v.Fn?
    ensures r.Some? ==> Plain(r.value)
    decreases v, 0
  {
    match v
    case Undefined => None
    case Fn(_) => None
    case Arr(items) => Some(Arr(RevivedItems(items)))
    case Obj(ps) => Some(Obj(RevivedProps(ps)))
    case Other(_, ps) => Some(Obj(RevivedProps(ps)))
    case _ => Some(v)
  }

  /** The elements of a revived array: one for each element, `null` for those
      that have no JSON text. */
  function RevivedItems(items: seq<Value>): (r: seq<Value>)
    ensures |r| == |items|
    ensures forall i :: 0 <= i < |r| ==> Plain(r[i])
    ensures forall i :: 0 <= i < |r| ==> r[i] == Revived(items[i]).GetOr(Null)
    decreases items, 1
  {
    if items == [] then []
    else [Revived(items[0]).GetOr(Null)] + RevivedItems(items[1..])
  }

  /** The properties of a revived object, in order, without those whose value
      has no JSON text. */
  function RevivedProps(ps: seq<(string, Value)>): (r: seq<(string, Value)>)
    ensures |r| <= |ps|
    ensures forall i :: 0 <= i < |r| ==> Plain(r[i].1)
    decreases ps, 1
  {
    if ps == [] then []
    else
      var (key, value) := ps[0];
      assert value < ps[0];
      match Revived(value)
      case Some(x) => [(key, x)] + RevivedProps(ps[1..])
      case None => RevivedProps(ps[1..])
  }

  /** A value `JSON.parse` could have produced survives the round trip. */
  lemma {:induction false} PlainRevived(v: Value)
    requires Plain(v)
    ensures Revived(v) == Some(v)
    decreases v, 0
  {
    match v
    case Arr(items) =>
      forall i | 0 <= i < |items|
        ensures Revived(items[i]) == Some(items[i])
      {
        PlainRevived(items[i]);
      }
      assert RevivedItems(items) == items;
    case Obj(ps) => PlainRevivedProps(ps);
    case _ =>
  }

  lemma {:induction false} PlainRevivedProps(ps: seq<(string, Value)>)
    requires forall i :: 0 <= i < |ps| ==> Plain(ps[i].1)
    ensures RevivedProps(ps) == ps
    decreases ps, 1
  {
    if ps != [] {
      var (key, value) := ps[0];
      assert value < ps[0];
      PlainRevived(value);
      PlainRevivedProps(ps[1..]);
    }
  }

  /** Saving and retrieving twice gives what saving and retrieving once gives. */
  lemma RevivedTwice(v: Value)
    requires Revived(v).Some?
    ensures Revived(Revived(v).value) == Revived(v)
  {
    PlainRevived(Revived(v).value);
  }

  /** Data and options that JSON can hold are saved as themselves: their
      snapshot parses back without error to the same values. */
  lemma PlainSnapshotRestores(data: Value, options: Value)
    requires Plain(data) && Plain(options)
    ensures Snapshot(Revived(data), Revived(options)) == Snapshot(Some(data), Some(options))
    ensures !Unparsable(Snapshot(Revived(data), Revived(options)))
  {
    PlainRevived(data);
    PlainRevived(options);
  }

  /** A saved state: what the JSON texts of the data and the options parse
      back to, `None` for a text that is `undefined`. */
  datatype Snapshot = Snapshot(data: Option<Value>, options: Option<Value>)

  /** The snapshot a version number names and the log of the image built from
      it; `null` as `None` unless 1 <= n <= the number of versions. */
  function Version(log: seq<Snapshot>, n: int): (r: Option<(Snapshot, seq<Snapshot>)>)
    ensures r.Some? <==> 1 <= n <= |log|
    ensures r.Some? ==> |r.value.1| == n && r.value.1 == log[..n] && r.value.0 == log[n - 1]
  {
    if n <= 0 || n > |log| then None else Some((log[n - 1], log[..n]))
  }

  /** Whether `JSON.parse` throws on the texts of a snapshot: it does on
      `undefined`, which is not JSON. */
  predicate Unparsable(s: Snapshot) {
    s.data.None? || s.options.None?
  }

  class Cite {
    var data: Value
    var options: Value
    var log: seq<Snapshot>

    /** A fresh instance with an empty log. */
    constructor(data: Value, options: Value)
      ensures this.data == data && this.options == options && log == []
    {
      this.data := data;
      this.options := options;
      log := [];
    }

    /** `currentVersion()`: the number of snapshots. */
    method CurrentVersion() returns (n: nat)
      ensures n == |log|
    {
      n := |log|;
    }

    /** `save()`: one more snapshot, of the JSON texts of the current data
        and options. */
    method Save() returns (r: Cite)
      modifies this
      ensures r == this && data == old(data) && options == old(options)
      ensures log == old(log) + [Snapshot(Revived(data), Revived(options))]
    {
      log := log + [Snapshot(Revived(data), Revived(options))];
      r := this;
    }

    /** `retrieveVersion(n)`, n defaulting to 1: `null` outside the versions;
        a `SyntaxError` when a text of snapshot n is `undefined`; otherwise a
        new instance holding snapshot n parsed back, whose log is the first n
        snapshots. This instance is not changed. */
    method RetrieveVersion(n: int := 1) returns (r: Result<Option<Cite>, string>)
      ensures Version(log, n).None? ==> r == Ok(None)
      ensures r.Err? <==> Version(log, n).Some? && Unparsable(Version(log, n).value.0)
      ensures r.Ok? && Version(log, n).Some? ==> r.value.Some?
      ensures r.Ok? && r.value.Some? ==> (fresh(r.value.value) &&
        Some(r.value.value.data) == Version(log, n).value.0.data &&
        Some(r.value.value.options) == Version(log, n).value.0.options &&
        r.value.value.log == Version(log, n).value.1)
    {
      if n <= 0 || n > |log| {
        return Ok(None);
      }
      var snap := log[n - 1];
      if snap.data.None? || snap.options.None? {
        return Err("SyntaxError");
      }
      var c := new Cite(snap.data.value, snap.options.value);
      c.log := log[..n];
      r := Ok(Some(c));
    }

    /** `undo(k)`, k defaulting to 1: the version k steps before the current one. */
    method Undo(k: int := 1) returns (r: Result<Option<Cite>, string>)
      ensures Version(log, |log| - k).None? ==> r == Ok(None)
      ensures r.Err? <==> Version(log, |log| - k).Some? && Unparsable(Version(log, |log| - k).value.0)
      ensures r.Ok? && Version(log, |log| - k).Some? ==> r.value.Some?
      ensures r.Ok? && r.value.Some? ==> (fresh(r.value.value) &&
        Some(r.value.value.data) == Version(log, |log| - k).value.0.data &&
        Some(r.value.value.options) == Version(log, |log| - k).value.0.options &&
        r.value.value.log == Version(log, |log| - k).value.1)
    {
      var current := CurrentVersion();
      r := RetrieveVersion(current - k);
    }

    /** `retrieveLastVersion()`: the current version. */
    method RetrieveLastVersion() returns (r: Result<Option<Cite>, string>)
      ensures log == [] ==> r == Ok(None)
      ensures r.Err? <==> log != [] && Unparsable(log[|log| - 1])
      ensures r.Ok? && log != [] ==> r.value.Some?
      ensures r.Ok? && r.value.Some? ==> (fresh(r.value.value) &&
        Some(r.value.value.data) == log[|log| - 1].data &&
        Some(r.value.value.options) == log[|log| - 1].options &&
        r.value.value.log == log)
    {
      var current := CurrentVersion();
      r := RetrieveVersion(current);
      assert log[..|log|] == log;
    }
  }

  /** The image of version n is itself at version n, and retrieving any
      earlier version from it gives what the original log gives. */
  lemma VersionOfImage(log: seq<Snapshot>, n: int, m: int)
    requires Version(log, n).Some?
    ensures |Version(log, n).value.1| == n
    ensures m <= n ==> Version(Version(log, n).value.1, m) == Version(log, m)
  {
    var image := log[..n];
    if 1 <= m <= n {
      assert image[..m] == log[..m];
    }
  }

  /** After a save, the last version is the state just saved. */
  lemma SaveThenLast(log: seq<Snapshot>, s: Snapshot)
    ensures Version(log + [s], |log| + 1) == Some((s, log + [s]))
  {
    assert (log + [s])[..|log| + 1] == log + [s];
  }

  /** After a save, `undo(1)` gives the version that was current before it. */
  lemma SaveThenUndo(log: seq<Snapshot>, s: Snapshot)
    requires |log| > 0
    ensures Version(log + [s], |log| + 1 - 1) == Some((log[|log| - 1], log))
  {
    assert (log + [s])[..|log|] == log;
  }

  /** Undoing nothing is the current version, undoing everything has no version. */
  lemma UndoBounds(log: seq<Snapshot>)
    ensures Version(log, |log| - 0) == (if log == [] then None else Some((log[|log| - 1], log)))
    ensures Version(log, |log| - |log|) == None
  {
    assert log[..|log|] == log;
  }
}
