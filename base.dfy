/**
 * Shared vocabulary of the model: optional values and results, and the
 * JavaScript string operations the source relies on (trim, \s, slice,
 * substr, indexOf, split, join, toLowerCase, number formatting and
 * parsing), each with the JavaScript edge cases written out.
 */
module Base {

  datatype Option<+T> = None | Some(value: T) {
    function GetOr(default: T): T {
      match this
      case Some(v) => v
      case None => default
    }
  }

  /** How a model reads code with a defect in it: as the code is written,
      or as it is evidently meant. */
  datatype Reading = AsWritten | Intended

  /** A success value or the error a JavaScript function would throw. */
  datatype Result<+T, +E> = Ok(value: T) | Err(error: E)

  // ---------------------------------------------------------------------
  // Character classes

  /** JavaScript's LineTerminator: what `.` in a regular expression never matches. */
  predicate IsLineTerminator(c: char) {
    c == '\n' || c == '\r' || c == '\U{2028}' || c == '\U{2029}'
  }

  /** JavaScript's WhiteSpace and LineTerminator: the class `\s` and what `trim` removes. */
  predicate IsSpace(c: char) {
    c == '\t' || c == '\n' || c == '\U{000B}' || c == '\U{000C}' || c == '\r' || c == ' '
    || c == '\U{00A0}' || c == '\U{1680}' || ('\U{2000}' <= c <= '\U{200A}')
    || c == '\U{2028}' || c == '\U{2029}' || c == '\U{202F}' || c == '\U{205F}'
    || c == '\U{3000}' || c == '\U{FEFF}'
  }

  predicate IsDigit(c: char) { '0' <= c <= '9' }

  predicate IsAsciiLetter(c: char) { ('a' <= c <= 'z') || ('A' <= c <= 'Z') }

  /** The class `\w`: ASCII letters, digits and `_`. */
  predicate IsWordChar(c: char) { IsAsciiLetter(c) || IsDigit(c) || c == '_' }

  predicate NoneSpace(s: string) { forall i :: 0 <= i < |s| ==> !IsSpace(s[i]) }

  predicate AllSpace(s: string) { forall i :: 0 <= i < |s| ==> IsSpace(s[i]) }

  // ---------------------------------------------------------------------
  // Trimming

  /** Index of the first character at or after `i` that is not white space, or `|s|`. */
  function SpaceEndFrom(s: string, i: nat): (r: nat)
    requires i <= |s|
    ensures i <= r <= |s| && (r < |s| ==> !IsSpace(s[r]))
    ensures forall k :: i <= k < r ==> IsSpace(s[k])
    decreases |s| - i
  {
    if i < |s| && IsSpace(s[i]) then SpaceEndFrom(s, i + 1) else i
  }

  /** Index just after the last character before `j` and not before `lo` that is not white space, or `lo`. */
  function SpaceStartBefore(s: string, lo: nat, j: nat): (r: nat)
    requires lo <= j <= |s|
    ensures lo <= r <= j && (r > lo ==> !IsSpace(s[r - 1]))
    ensures forall k :: r <= k < j ==> IsSpace(s[k])
    decreases j - lo
  {
    if j > lo && IsSpace(s[j - 1]) then SpaceStartBefore(s, lo, j - 1) else j
  }

  /** Where the text of `s` starts once its leading white space is removed. */
  function TrimLo(s: string): nat { SpaceEndFrom(s, 0) }

  /** Where the text of `s` ends once its trailing white space is removed. */
  function TrimHi(s: string): nat { SpaceStartBefore(s, TrimLo(s), |s|) }

  /** `String.prototype.trimStart`. */
  function TrimStart(s: string): (r: string)
    ensures r == [] || !IsSpace(r[0])
  {
    s[TrimLo(s)..]
  }

  /** `String.prototype.trim`: the text between the leading and the trailing white space. */
  function Trim(s: string): (r: string)
    ensures r == [] || (!IsSpace(r[0]) && !IsSpace(r[|r| - 1]))
    ensures |r| <= |s|
  {
    s[TrimLo(s)..TrimHi(s)]
  }

  /**
   * Trimming is determined by its shape: white space, then text that starts
   * and ends with something other than white space, then white space.
   */
  lemma TrimUnique(s: string, lo: nat, hi: nat)
    requires lo <= hi <= |s|
    requires forall k :: 0 <= k < lo ==> IsSpace(s[k])
    requires forall k :: hi <= k < |s| ==> IsSpace(s[k])
    requires lo < hi ==> !IsSpace(s[lo]) && !IsSpace(s[hi - 1])
    ensures Trim(s) == s[lo..hi]
  {
    if lo == hi {
      assert TrimLo(s) == |s|;
    } else {
      assert TrimLo(s) == lo;
    }
  }

  /** A text with nothing to trim is its own trimmed text. */
  lemma TrimOfTrimmed(s: string)
    requires s == [] || (!IsSpace(s[0]) && !IsSpace(s[|s| - 1]))
    ensures Trim(s) == s
  {
    TrimUnique(s, 0, |s|);
  }

  /** Trimming twice is trimming once. */
  lemma TrimIdempotent(s: string)
    ensures Trim(Trim(s)) == Trim(s)
  {
    TrimOfTrimmed(Trim(s));
  }

  /** White space around a text does not change its trimmed text. */
  lemma TrimIgnoresSurroundingSpaces(y: string, x: string, z: string)
    requires AllSpace(y) && AllSpace(z)
    ensures Trim(y + x + z) == Trim(x)
  {
    var s := y + x + z;
    var lo := |y| + TrimLo(x);
    var hi := |y| + TrimHi(x);
    forall k | 0 <= k < lo ensures IsSpace(s[k]) {
      if k >= |y| { assert s[k] == x[k - |y|]; }
    }
    forall k | hi <= k < |s| ensures IsSpace(s[k]) {
      if k < |y| + |x| { assert s[k] == x[k - |y|]; }
    }
    if lo < hi {
      assert s[lo] == x[TrimLo(x)];
      assert s[hi - 1] == x[TrimHi(x) - 1];
    }
    TrimUnique(s, lo, hi);
    assert s[lo..hi] == x[TrimLo(x)..TrimHi(x)];
  }

  lemma TrimIgnoresTrailingSpaces(x: string, y: string)
    requires AllSpace(y)
    ensures Trim(x + y) == Trim(x)
  {
    TrimIgnoresSurroundingSpaces([], x, y);
    assert [] + x + y == x + y;
  }

  lemma TrimIgnoresLeadingSpaces(y: string, x: string)
    requires AllSpace(y)
    ensures Trim(y + x) == Trim(x)
  {
    TrimIgnoresSurroundingSpaces(y, x, []);
    assert y + x + [] == y + x;
  }

  /** Text that is all white space trims to nothing, and only such text does. */
  lemma TrimEmpty(s: string)
    ensures Trim(s) == [] <==> AllSpace(s)
  {
    if AllSpace(s) { TrimUnique(s, |s|, |s|); }
  }

  // ---------------------------------------------------------------------
  // Case and prefixes

  /** `toLowerCase` on one character, for the ASCII letters. */
  function LowerChar(c: char): (r: char)
    ensures IsAsciiLetter(c) ==> IsAsciiLetter(r) && 'a' <= r <= 'z'
    ensures !('A' <= c <= 'Z') ==> r == c
  {
    if 'A' <= c <= 'Z' then (c as int - 'A' as int + 'a' as int) as char else c
  }

  /** `String.prototype.toLowerCase`, ASCII letters only. */
  function ToLower(s: string): (r: string)
    ensures |r| == |s|
    ensures forall i :: 0 <= i < |s| ==> r[i] == LowerChar(s[i])
  {
    seq(|s|, i requires 0 <= i < |s| => LowerChar(s[i]))
  }

  lemma ToLowerAppend(a: string, b: string)
    ensures ToLower(a + b) == ToLower(a) + ToLower(b)
  {
    assert forall i :: 0 <= i < |a + b| ==> ToLower(a + b)[i] == (ToLower(a) + ToLower(b))[i];
  }

  lemma ToLowerSlice(s: string, i: nat, j: nat)
    requires i <= j <= |s|
    ensures ToLower(s[i..j]) == ToLower(s)[i..j]
  {
  }

  predicate StartsWith(s: string, p: string) {
    |p| <= |s| && s[..|p|] == p
  }

  predicate EndsWith(s: string, p: string) {
    |p| <= |s| && s[|s| - |p|..] == p
  }

  // ---------------------------------------------------------------------
  // Searching, splitting, joining

  /** `sub` occurs in `s` at index `i`. */
  predicate OccursAt(s: string, sub: string, i: nat) {
    i + |sub| <= |s| && s[i..i + |sub|] == sub
  }

  /** `s.indexOf(sub, from)`: the first occurrence of `sub` at or after `from`, or -1. */
  function IndexOfFrom(s: string, sub: string, from: nat): (r: int)
    ensures r == -1 || (from <= r && OccursAt(s, sub, r))
    decreases |s| - from
  {
    if from + |sub| > |s| then -1
    else if s[from..from + |sub|] == sub then from
    else IndexOfFrom(s, sub, from + 1)
  }

  /** `s.indexOf(sub)`. */
  function IndexOf(s: string, sub: string): (r: int)
    ensures r == -1 || (0 <= r && OccursAt(s, sub, r))
  {
    IndexOfFrom(s, sub, 0)
  }

  /** Nothing between `from` and the index found is an occurrence; -1 means there is none at all. */
  lemma {:induction false} IndexOfFromFirst(s: string, sub: string, from: nat)
    ensures IndexOfFrom(s, sub, from) == -1 ==> forall i: nat :: from <= i ==> !OccursAt(s, sub, i)
    ensures forall i: nat :: from <= i < IndexOfFrom(s, sub, from) ==> !OccursAt(s, sub, i)
    decreases |s| - from
  {
    if from + |sub| <= |s| && s[from..from + |sub|] != sub {
      IndexOfFromFirst(s, sub, from + 1);
    }
  }

  /** `indexOf` finds the first occurrence, and -1 means there is none. */
  lemma IndexOfFirst(s: string, sub: string)
    ensures IndexOf(s, sub) == -1 <==> forall i: nat :: !OccursAt(s, sub, i)
    ensures forall i: nat :: i < IndexOf(s, sub) ==> !OccursAt(s, sub, i)
  {
    IndexOfFromFirst(s, sub, 0);
  }

  /** An occurrence with none before it is what `indexOf` finds. */
  lemma IndexOfAt(s: string, sub: string, p: nat)
    requires OccursAt(s, sub, p)
    requires forall i: nat :: i < p ==> !OccursAt(s, sub, i)
    ensures IndexOf(s, sub) == p
  {
    IndexOfFirst(s, sub);
  }

  /** `indexOf` of a single character. */
  function IndexOfChar(s: string, c: char): (r: int)
    ensures r == -1 <==> c !in s
    ensures r >= 0 ==> r < |s| && s[r] == c && c !in s[..r]
  {
    var r := IndexOf(s, [c]);
    IndexOfFirst(s, [c]);
    assert forall i: nat :: i < |s| ==> (OccursAt(s, [c], i) <==> s[i] == c) by {
      forall i: nat | i < |s| ensures OccursAt(s, [c], i) <==> s[i] == c {
        assert s[i..i + 1] == [s[i]];
      }
    }
    r
  }

  /** `String.prototype.includes`. */
  predicate Includes(s: string, sub: string) {
    IndexOf(s, sub) >= 0
  }

  /** An occurrence anywhere makes `includes` hold. */
  lemma IncludesAt(s: string, sub: string, i: nat)
    requires OccursAt(s, sub, i)
    ensures Includes(s, sub)
  {
    IndexOfFirst(s, sub);
  }

  /** `s.split(sep)` for a non-empty separator string. */
  function Split(s: string, sep: string): (parts: seq<string>)
    requires |sep| > 0
    ensures |parts| >= 1
    decreases |s|
  {
    var i := IndexOf(s, sep);
    if i < 0 then [s] else [s[..i]] + Split(s[i + |sep|..], sep)
  }

  /** `parts.join(sep)`. */
  function Join(parts: seq<string>, sep: string): string {
    if |parts| == 0 then []
    else if |parts| == 1 then parts[0]
    else parts[0] + sep + Join(parts[1..], sep)
  }

  lemma JoinCons(p: string, rest: seq<string>, sep: string)
    requires |rest| >= 1
    ensures Join([p] + rest, sep) == p + sep + Join(rest, sep)
  {
    assert ([p] + rest)[1..] == rest;
  }

  /** Splitting and joining on the same separator gives back the text. */
  lemma {:induction false} JoinSplit(s: string, sep: string)
    requires |sep| > 0
    ensures Join(Split(s, sep), sep) == s
    decreases |s|
  {
    var i := IndexOf(s, sep);
    if i >= 0 {
      var rest := s[i + |sep|..];
      JoinSplit(rest, sep);
      JoinCons(s[..i], Split(rest, sep), sep);
      assert s == s[..i] + sep + rest;
    }
  }

  /** No piece of a split contains the separator. */
  lemma {:induction false} SplitPiecesLackSeparator(s: string, sep: string, k: nat)
    requires |sep| > 0 && k < |Split(s, sep)|
    ensures IndexOf(Split(s, sep)[k], sep) == -1
    decreases |s|
  {
    var i := IndexOf(s, sep);
    IndexOfFirst(s, sep);
    if i >= 0 {
      if k == 0 {
        var p := s[..i];
        IndexOfFirst(p, sep);
        forall j: nat ensures !OccursAt(p, sep, j) {
          if j + |sep| <= |p| {
            assert !OccursAt(s, sep, j);
            assert p[j..j + |sep|] == s[j..j + |sep|];
          }
        }
      } else {
        SplitPiecesLackSeparator(s[i + |sep|..], sep, k - 1);
      }
    }
  }

  /** A separator that occurs once splits the text into what comes before it and what comes after. */
  lemma SplitOnce(s: string, sep: string, pos: nat, end: nat)
    requires |sep| > 0 && IndexOf(s, sep) == pos && end == pos + |sep|
    requires IndexOf(s[end..], sep) == -1
    ensures Split(s, sep) == [s[..pos], s[end..]]
  {
    assert Split(s[end..], sep) == [s[end..]];
  }

  /** Split pieces joined back: the first piece ends where the separator first occurs. */
  lemma SplitFirstPiece(s: string, sep: string)
    requires |sep| > 0 && IndexOf(s, sep) >= 0
    ensures Split(s, sep) == [s[..IndexOf(s, sep)]] + Split(s[IndexOf(s, sep) + |sep|..], sep)
  {
  }

  /** The second piece of a split ends where the separator occurs for the second time. */
  lemma SecondPiece(s: string, sep: string, pos: nat, end: nat, q: nat)
    requires |sep| > 0 && IndexOf(s, sep) == pos && end == pos + |sep| && IndexOf(s[end..], sep) == q
    ensures end + q + |sep| <= |s| && Split(s, sep)[1] == s[end..end + q]
  {
    var rest := s[end..];
    SplitFirstPiece(s, sep);
    SplitFirstPiece(rest, sep);
    SuffixPrefix(s, end, q);
  }

  lemma SuffixPrefix(s: string, i: nat, n: nat)
    requires i + n <= |s|
    ensures s[i..][..n] == s[i..i + n]
  {
  }

  /** The pieces of a split on a character that does not occur are just the text. */
  lemma SplitAbsent(s: string, sep: string)
    requires |sep| > 0 && IndexOf(s, sep) == -1
    ensures Split(s, sep) == [s]
  {
  }

  /** The first occurrence of a character is the one after a piece that
      lacks it. */
  lemma FirstSeparator(p: string, c: char, x: string)
    requires c !in p
    ensures IndexOf(p + [c] + x, [c]) == |p|
  {
    var s := p + [c] + x;
    assert s[|p|..|p| + 1] == [c];
    forall i: nat | i < |p| ensures !OccursAt(s, [c], i) {
      assert s[i..i + 1] == [p[i]];
    }
    IndexOfAt(s, [c], |p|);
  }

  /** Splitting on a character undoes joining with it when no part holds it. */
  lemma {:induction false} SplitJoinChar(parts: seq<string>, c: char)
    requires |parts| >= 1 && forall i :: 0 <= i < |parts| ==> c !in parts[i]
    ensures Split(Join(parts, [c]), [c]) == parts
    decreases |parts|
  {
    var p := parts[0];
    if |parts| == 1 {
      assert IndexOfChar(p, c) == -1;
    } else {
      var rest := parts[1..];
      assert [p] + rest == parts;
      JoinCons(p, rest, [c]);
      var x := Join(rest, [c]);
      FirstSeparator(p, c, x);
      var s := p + [c] + x;
      assert s[..|p|] == p && s[|p| + 1..] == x;
      SplitJoinChar(rest, c);
    }
  }

  // ---------------------------------------------------------------------
  // Lookup tables

  /** The value of the first entry of `table` whose key is `key`: an object literal read as `table[key]`. */
  function Lookup<V>(table: seq<(string, V)>, key: string): (r: Option<V>)
    ensures r.None? <==> forall i :: 0 <= i < |table| ==> table[i].0 != key
    ensures r.Some? ==> exists i :: 0 <= i < |table| && table[i] == (key, r.value)
  {
    if table == [] then None
    else if table[0].0 == key then Some(table[0].1)
    else Lookup(table[1..], key)
  }

  /** Looking a key up in two tables one after the other: the first wins. */
  lemma {:induction false} LookupAppend<V>(a: seq<(string, V)>, b: seq<(string, V)>, key: string)
    ensures Lookup(a + b, key) == if Lookup(a, key).Some? then Lookup(a, key) else Lookup(b, key)
    decreases |a|
  {
    if a == [] {
      assert a + b == b;
    } else {
      assert (a + b)[0] == a[0] && (a + b)[1..] == a[1..] + b;
      LookupAppend(a[1..], b, key);
    }
  }

  /** The entry found for a key no earlier entry has is that entry. */
  lemma {:induction false} LookupAt<V>(table: seq<(string, V)>, i: nat)
    requires i < |table| && forall j :: 0 <= j < i ==> table[j].0 != table[i].0
    ensures Lookup(table, table[i].0) == Some(table[i].1)
    decreases i
  {
    if i > 0 {
      var rest := table[1..];
      forall j | 0 <= j < i - 1 ensures rest[j].0 != rest[i - 1].0 {
        assert rest[j] == table[j + 1];
      }
      LookupAt(rest, i - 1);
    }
  }

  // ---------------------------------------------------------------------
  // Running steps that may throw

  /** The values of a run of results in order, or the first error: a loop that stops at the first throw. */
  function Collect<T, E>(rs: seq<Result<T, E>>): (r: Result<seq<T>, E>)
    ensures r.Ok? ==> |r.value| == |rs|
  {
    if rs == [] then Ok([])
    else match rs[0]
      case Err(e) => Err(e)
      case Ok(v) =>
        match Collect(rs[1..])
        case Err(e) => Err(e)
        case Ok(vs) => Ok([v] + vs)
  }

  /** The run succeeds when every step does, each value at its step's position. */
  lemma {:induction false} CollectPointwise<T, E>(rs: seq<Result<T, E>>)
    ensures Collect(rs).Ok? <==> forall i :: 0 <= i < |rs| ==> rs[i].Ok?
    ensures Collect(rs).Ok? ==> forall i :: 0 <= i < |rs| ==> Collect(rs).value[i] == rs[i].value
  {
    if rs != [] {
      CollectPointwise(rs[1..]);
      assert forall i :: 1 <= i < |rs| ==> rs[i] == rs[1..][i - 1];
    }
  }

  /** A failed run reports the error of one of its steps. */
  lemma {:induction false} CollectErr<T, E>(rs: seq<Result<T, E>>)
    requires Collect(rs).Err?
    ensures exists k :: 0 <= k < |rs| && rs[k] == Err(Collect(rs).error)
  {
    if rs[0].Ok? {
      CollectErr(rs[1..]);
      var k :| 0 <= k < |rs[1..]| && rs[1..][k] == Err(Collect(rs[1..]).error);
      assert rs[k + 1] == rs[1..][k];
    }
  }

  /** One more step extends the values or reports that step's error. */
  lemma {:induction false} CollectSnoc<T, E>(rs: seq<Result<T, E>>, x: Result<T, E>)
    ensures Collect(rs + [x]) ==
      match Collect(rs)
      case Err(e) => Err(e)
      case Ok(vs) => (match x case Err(e) => Err(e) case Ok(v) => Ok(vs + [v]))
  {
    if rs == [] {
      assert rs + [x] == [x];
      assert [x][1..] == [];
      if x.Ok? {
        assert [x.value] + [] == [] + [x.value];
      }
    } else {
      assert (rs + [x])[0] == rs[0];
      assert (rs + [x])[1..] == rs[1..] + [x];
      CollectSnoc(rs[1..], x);
      if rs[0].Ok? && Collect(rs[1..]).Ok? && x.Ok? {
        var vs := Collect(rs[1..]).value;
        assert [rs[0].value] + (vs + [x.value]) == ([rs[0].value] + vs) + [x.value];
      }
    }
  }

  /** Steps after the first error do not matter. */
  lemma {:induction false} CollectAppendErr<T, E>(rs: seq<Result<T, E>>, more: seq<Result<T, E>>)
    requires Collect(rs).Err?
    ensures Collect(rs + more) == Collect(rs)
  {
    assert (rs + more)[0] == rs[0];
    if rs[0].Ok? {
      assert (rs + more)[1..] == rs[1..] + more;
      CollectAppendErr(rs[1..], more);
    }
  }

  /** One more step of a loop over `rs`: the prefix grows by `rs[i]`. */
  lemma CollectPrefix<T, E>(rs: seq<Result<T, E>>, i: nat)
    requires i < |rs|
    ensures Collect(rs[..i + 1]) ==
      match Collect(rs[..i])
      case Err(e) => Err(e)
      case Ok(vs) => (match rs[i] case Err(e) => Err(e) case Ok(v) => Ok(vs + [v]))
  {
    assert rs[..i + 1] == rs[..i] + [rs[i]];
    CollectSnoc(rs[..i], rs[i]);
  }

  /** A loop over `rs` that stops at an error in the prefix has the whole
      sequence's result. */
  lemma CollectPrefixErr<T, E>(rs: seq<Result<T, E>>, i: nat)
    requires i <= |rs| && Collect(rs[..i]).Err?
    ensures Collect(rs) == Collect(rs[..i])
  {
    assert rs[..i] + rs[i..] == rs;
    CollectAppendErr(rs[..i], rs[i..]);
  }

  /** A loop that applies `f` to each element in order and stops at the
      first error: the values so far, or that error. */
  function RunEach<T, U, E>(data: seq<T>, f: T -> Result<U, E>): Result<seq<U>, E> {
    if data == [] then Ok([])
    else
      var n := |data| - 1;
      match RunEach(data[..n], f)
      case Err(e) => Err(e)
      case Ok(vs) =>
        match f(data[n])
        case Err(e) => Err(e)
        case Ok(w) => Ok(vs + [w])
  }

  /** The loop is the run of its steps' results. */
  lemma {:induction false} RunEachCollects<T, U, E>(data: seq<T>, f: T -> Result<U, E>, rs: seq<Result<U, E>>)
    requires |rs| == |data| && forall i :: 0 <= i < |data| ==> rs[i] == f(data[i])
    ensures RunEach(data, f) == Collect(rs)
  {
    if data != [] {
      var n := |data| - 1;
      RunEachCollects(data[..n], f, rs[..n]);
      CollectSnoc(rs[..n], rs[n]);
      assert rs[..n] + [rs[n]] == rs;
    }
  }

  /** Elements after the first error do not matter. */
  lemma {:induction false} RunEachErr<T, U, E>(data: seq<T>, more: seq<T>, f: T -> Result<U, E>)
    requires RunEach(data, f).Err?
    ensures RunEach(data + more, f) == RunEach(data, f)
    decreases |more|
  {
    if more != [] {
      var n := |more| - 1;
      assert (data + more)[..|data + more| - 1] == data + more[..n];
      RunEachErr(data, more[..n], f);
    } else {
      assert data + more == data;
    }
  }

  /** One more step of the loop over a prefix of `data`: its result is
      kept, or its error is the run's. */
  lemma RunEachPrefixStep<T, U, E>(data: seq<T>, i: nat, f: T -> Result<U, E>, vs: seq<U>)
    requires i < |data| && RunEach(data[..i], f) == Ok(vs)
    ensures f(data[i]).Ok? ==> RunEach(data[..i + 1], f) == Ok(vs + [f(data[i]).value])
    ensures f(data[i]).Err? ==> RunEach(data, f) == Err(f(data[i]).error)
  {
    assert data[..i + 1][..i] == data[..i];
    if f(data[i]).Err? {
      RunEachErr(data[..i + 1], data[i + 1..], f);
      assert data[..i + 1] + data[i + 1..] == data;
    }
  }

  /** The loop over all of `data`. */
  lemma RunEachWhole<T, U, E>(data: seq<T>, f: T -> Result<U, E>)
    ensures RunEach(data[..|data|], f) == RunEach(data, f)
  {
    assert data[..|data|] == data;
  }

  /** The loop over all of `rs`. */
  lemma CollectWhole<T, E>(rs: seq<Result<T, E>>)
    ensures Collect(rs[..|rs|]) == Collect(rs)
  {
    assert rs[..|rs|] == rs;
  }

  // ---------------------------------------------------------------------
  // Slicing with JavaScript index rules

  /** Index normalisation of `slice` and `substr`: negative counts from the end; clamped to [0, len]. */
  function ClampIndex(i: int, len: nat): (r: nat)
    ensures r <= len
    ensures 0 <= i <= len ==> r == i
    ensures i < 0 ==> r == if len + i < 0 then 0 else len + i
  {
    if i < 0 then (if len + i < 0 then 0 else len + i) else if i > len then len else i
  }

  /** `s.slice(start, end)`. */
  function Slice(s: string, start: int, end: int): (r: string)
    ensures |r| <= |s|
  {
    var a := ClampIndex(start, |s|);
    var b := ClampIndex(end, |s|);
    if a < b then s[a..b] else []
  }

  /** `s.slice(start)`. */
  function SliceFrom(s: string, start: int): (r: string)
    ensures 0 <= start <= |s| ==> r == s[start..]
  {
    Slice(s, start, |s|)
  }

  /** `s.substr(start)`. */
  function SubstrFrom(s: string, start: int): (r: string)
    ensures 0 <= start <= |s| ==> r == s[start..]
  {
    s[ClampIndex(start, |s|)..]
  }

  /** `s.substr(start, length)`. */
  function Substr(s: string, start: int, length: int): (r: string)
    ensures |r| <= |s|
    ensures 0 <= start && 0 <= length && start + length <= |s| ==> r == s[start..start + length]
  {
    var a := ClampIndex(start, |s|);
    var n := if length < 0 then 0 else if length > |s| - a then |s| - a else length;
    s[a..a + n]
  }

  /** `s.substring(start, end)`: both ends clamped to the string, and swapped
      when the start lies after the end. */
  function Substring(s: string, start: int, end: int): (r: string)
    ensures 0 <= start <= end <= |s| ==> r == s[start..end]
  {
    var a := if start < 0 then 0 else if start > |s| then |s| else start;
    var b := if end < 0 then 0 else if end > |s| then |s| else end;
    if a <= b then s[a..b] else s[b..a]
  }

  /** `s.substring(start)`. */
  function SubstringFrom(s: string, start: int): (r: string)
    ensures 0 <= start <= |s| ==> r == s[start..]
  {
    Substring(s, start, |s|)
  }

  /** Taking a prefix with `substring` and the rest after it gives back the text. */
  lemma SubstringRejoins(s: string, n: nat)
    ensures Substring(s, 0, n) + SubstringFrom(s, n) == s
  {
    var c := if n > |s| then |s| else n;
    assert Substring(s, 0, n) == s[..c];
    assert SubstringFrom(s, n) == s[c..];
    assert s[..c] + s[c..] == s;
  }

  /** `s.replace(/c/g, with)`: every occurrence of the character `c` replaced by `with`. */
  function ReplaceChar(s: string, c: char, with: string): (r: string)
    ensures c !in with ==> c !in r
    ensures forall d :: d in r ==> d in s || d in with
  {
    if s == [] then [] else (if s[0] == c then with else [s[0]]) + ReplaceChar(s[1..], c, with)
  }

  lemma ReplaceCharAppend(a: string, b: string, c: char, with: string)
    ensures ReplaceChar(a + b, c, with) == ReplaceChar(a, c, with) + ReplaceChar(b, c, with)
  {
    if a != [] {
      assert (a + b)[1..] == a[1..] + b;
      ReplaceCharAppend(a[1..], b, c, with);
    } else {
      assert a + b == b;
    }
  }

  // ---------------------------------------------------------------------
  // Numbers as text

  function DigitChar(d: nat): (c: char)
    requires d < 10
    ensures IsDigit(c)
  {
    ('0' as int + d) as char
  }

  function DigitValue(c: char): (d: nat)
    requires IsDigit(c)
    ensures d < 10 && DigitChar(d) == c
  {
    c as int - '0' as int
  }

  /** `n.toString()` for a natural number. */
  function NatToString(n: nat): (r: string)
    ensures |r| >= 1 && forall i :: 0 <= i < |r| ==> IsDigit(r[i])
    decreases n
  {
    if n < 10 then [DigitChar(n)] else NatToString(n / 10) + [DigitChar(n % 10)]
  }

  /** `n.toString()` for an integer. */
  function IntToString(n: int): (r: string)
    ensures |r| >= 1
  {
    if n < 0 then "-" + NatToString(-n) else NatToString(n)
  }

  /** The value of a run of decimal digits. */
  function DigitsValue(s: string): (n: nat)
    requires forall i :: 0 <= i < |s| ==> IsDigit(s[i])
    decreases |s|
  {
    if s == [] then 0 else DigitsValue(s[..|s| - 1]) * 10 + DigitValue(s[|s| - 1])
  }

  /** Reading back the text of a natural number gives the number. */
  lemma {:induction false} DigitsValueOfNatToString(n: nat)
    ensures DigitsValue(NatToString(n)) == n
    decreases n
  {
    if n >= 10 {
      var s := NatToString(n);
      DigitsValueOfNatToString(n / 10);
      assert s[..|s| - 1] == NatToString(n / 10);
    }
  }

  /** Distinct numbers have distinct texts. */
  lemma NatToStringInjective(m: nat, n: nat)
    requires NatToString(m) == NatToString(n)
    ensures m == n
  {
    DigitsValueOfNatToString(m);
    DigitsValueOfNatToString(n);
  }

  /** The length of the longest prefix of `s` made of decimal digits. */
  function DigitRun(s: string): (k: nat)
    ensures k <= |s| && (forall i :: 0 <= i < k ==> IsDigit(s[i])) && (k < |s| ==> !IsDigit(s[k]))
  {
    if s != [] && IsDigit(s[0]) then 1 + DigitRun(s[1..]) else 0
  }

  /**
   * `parseInt(s, 10)`: leading white space and one sign are skipped and the
   * longest run of decimal digits is read; `None` is NaN.
   */
  function ParseInt(s: string): (r: Option<int>)
    ensures r.Some? <==> (var t := TrimStart(s);
                          var u := if t != [] && (t[0] == '-' || t[0] == '+') then t[1..] else t;
                          u != [] && IsDigit(u[0]))
  {
    var t := TrimStart(s);
    var neg := t != [] && t[0] == '-';
    var u := if t != [] && (t[0] == '-' || t[0] == '+') then t[1..] else t;
    var k := DigitRun(u);
    if k == 0 then None
    else
      var v: int := DigitsValue(u[..k]);
      Some(if neg then -v else v)
  }

  lemma ParseIntOfNatToString(n: nat)
    ensures ParseInt(NatToString(n)) == Some(n)
  {
    var s := NatToString(n);
    assert TrimLo(s) == 0;
    assert DigitRun(s) == |s| by {
      DigitRunAll(s);
    }
    assert s[..|s|] == s;
    DigitsValueOfNatToString(n);
  }

  lemma {:induction false} DigitRunAll(s: string)
    requires forall i :: 0 <= i < |s| ==> IsDigit(s[i])
    ensures DigitRun(s) == |s|
  {
    if s != [] {
      DigitRunAll(s[1..]);
    }
  }

  /**
   * Unary `+` (Number) on a string whose trimmed text is empty or an optionally
   * signed run of decimal digits; every other text is NaN (`None`) here.
   */
  function ToNumber(s: string): (r: Option<int>)
    ensures Trim(s) == [] ==> r == Some(0)
  {
    var t := Trim(s);
    if t == [] then Some(0)
    else
      var neg := t[0] == '-';
      var u := if t[0] == '-' || t[0] == '+' then t[1..] else t;
      if u != [] && DigitRun(u) == |u| then
        var v: int := DigitsValue(u);
        Some(if neg then -v else v)
      else None
  }

  lemma ToNumberOfNatToString(n: nat)
    ensures ToNumber(NatToString(n)) == Some(n)
  {
    var s := NatToString(n);
    TrimOfTrimmed(s);
    DigitRunAll(s);
    DigitsValueOfNatToString(n);
  }

  /** `String(n).padStart(2, '0')` for a natural number. */
  function Pad2(n: nat): (r: string)
    ensures |r| >= 2
    ensures n >= 10 ==> r == NatToString(n)
  {
    var s := NatToString(n);
    if |s| < 2 then "0" + s else s
  }
}
