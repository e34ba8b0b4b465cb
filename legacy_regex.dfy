/**
 * The key and marker patterns of regex.js, modelled exactly:
 *  - `citeKeyRe`   `@` followed by a key start `[a-zA-Z0-9_]` and key characters
 *                  `[a-zA-Z0-9_:.#$%&\-+?<>~]*` (greedy);
 *  - `citeBracketRe` `\[.*\]`, a `[` followed later on the same line by `]`;
 *  - `citeExtractorRe` the leftmost match of either a bracketed marker with no
 *                  nested brackets that contains `@` followed by something, or an
 *                  in-text key whose `@` is not preceded by a word character.
 */
module LegacyRegex {
  import opened Base

  predicate IsKeyStart(c: char) { IsWordChar(c) }

  predicate IsKeyChar(c: char) {
    IsWordChar(c) || c == ':' || c == '.' || c == '#' || c == '$' || c == '%' || c == '&'
    || c == '-' || c == '+' || c == '?' || c == '<' || c == '>' || c == '~'
  }

  /** Length of the longest run of key characters starting at `i`. */
  function KeyRun(s: string, i: nat): (k: nat)
    requires i <= |s|
    ensures i + k <= |s|
    ensures forall j :: i <= j < i + k ==> IsKeyChar(s[j])
    ensures i + k < |s| ==> !IsKeyChar(s[i + k])
    decreases |s| - i
  {
    if i < |s| && IsKeyChar(s[i]) then 1 + KeyRun(s, i + 1) else 0
  }

  /** End of the `citeKeyRe` match that starts at `i`, if one does. */
  function KeyAt(s: string, i: nat): (r: Option<nat>)
    ensures r.Some? <==> i + 1 < |s| && s[i] == '@' && IsKeyStart(s[i + 1])
    ensures r.Some? ==> i + 2 <= r.value <= |s| && (r.value < |s| ==> !IsKeyChar(s[r.value]))
  {
    if i + 1 < |s| && s[i] == '@' && IsKeyStart(s[i + 1]) then Some(i + 2 + KeyRun(s, i + 2)) else None
  }

  /** A match of `citeKeyRe`: its text and the key it captures (without `@`). */
  datatype KeyMatch = KeyMatch(start: nat, end: nat)

  /** The first `citeKeyRe` match at or after `from`. */
  function FirstKeyFrom(s: string, from: nat): (r: Option<KeyMatch>)
    ensures r.Some? ==> from <= r.value.start && KeyAt(s, r.value.start) == Some(r.value.end)
    ensures r.Some? ==> forall j :: from <= j < r.value.start ==> KeyAt(s, j).None?
    ensures r.None? ==> forall j :: from <= j ==> KeyAt(s, j).None?
    decreases |s| - from
  {
    if from >= |s| then None
    else match KeyAt(s, from)
      case Some(e) => Some(KeyMatch(from, e))
      case None => FirstKeyFrom(s, from + 1)
  }

  function FirstKey(s: string): (r: Option<KeyMatch>)
    ensures r.Some? ==> r.value.start + 2 <= r.value.end <= |s|
  {
    FirstKeyFrom(s, 0)
  }

  /** A key that `citeKeyRe` captures starts with `[a-zA-Z0-9_]` and has only key characters. */
  lemma KeyShape(s: string)
    requires FirstKey(s).Some?
    ensures var m := FirstKey(s).value;
      var key := s[m.start + 1..m.end];
      s[m.start] == '@' && |key| >= 1 && IsKeyStart(key[0]) && forall j :: 0 <= j < |key| ==> IsKeyChar(key[j])
  {
  }

  // ---------------------------------------------------------------------
  // citeBracketRe

  /** `[` at `i` is closed by `]` at `j` with no line break in between. */
  predicate BracketPair(s: string, i: nat, j: nat) {
    i < j < |s| && s[i] == '[' && s[j] == ']'
    && forall k :: i < k < j ==> !IsLineTerminator(s[k])
  }

  /** Some `]` follows position `from` on the same line. */
  function CloserOnLine(s: string, from: nat): (r: bool)
    requires from <= |s|
    ensures r <==> exists j :: from <= j < |s| && s[j] == ']' && forall k :: from <= k < j ==> !IsLineTerminator(s[k])
    decreases |s| - from
  {
    if from == |s| then false
    else if s[from] == ']' then true
    else if IsLineTerminator(s[from]) then false
    else CloserOnLine(s, from + 1)
  }

  /** `citeBracketRe.test(s)`, scanning from `from`. */
  function BracketTestFrom(s: string, from: nat): bool
    requires from <= |s|
    decreases |s| - from
  {
    if from == |s| then false
    else (s[from] == '[' && CloserOnLine(s, from + 1)) || BracketTestFrom(s, from + 1)
  }

  function BracketTest(s: string): bool {
    BracketTestFrom(s, 0)
  }

  lemma {:induction false} BracketTestFromSound(s: string, from: nat)
    requires from <= |s|
    ensures BracketTestFrom(s, from) <==> exists i, j :: from <= i && BracketPair(s, i, j)
    decreases |s| - from
  {
    if from < |s| {
      BracketTestFromSound(s, from + 1);
      if s[from] == '[' && CloserOnLine(s, from + 1) {
        var j :| from + 1 <= j < |s| && s[j] == ']' && forall k :: from + 1 <= k < j ==> !IsLineTerminator(s[k]);
        assert BracketPair(s, from, j);
      }
      if exists i, j :: from <= i && BracketPair(s, i, j) {
        var i, j :| from <= i && BracketPair(s, i, j);
        if i == from {
          assert CloserOnLine(s, from + 1);
        } else {
          assert exists i', j' :: from + 1 <= i' && BracketPair(s, i', j');
        }
      }
    }
  }

  /** `citeBracketRe` holds iff a `[` is followed later on the same line by `]`. */
  lemma BracketTestSound(s: string)
    ensures BracketTest(s) <==> exists i, j :: BracketPair(s, i, j)
  {
    BracketTestFromSound(s, 0);
  }

  // ---------------------------------------------------------------------
  // citeExtractorRe

  /** A match of `citeExtractorRe`: the matched span and the group that matched. */
  datatype Extracted = Extracted(start: nat, end: nat, bracketed: Option<string>, inText: Option<string>)

  predicate IsBracket(c: char) { c == '[' || c == ']' }

  /** Index of the first `[` or `]` at or after `from`, or `|s|`. */
  function NextBracket(s: string, from: nat): (q: nat)
    requires from <= |s|
    ensures from <= q <= |s| && (q < |s| ==> IsBracket(s[q]))
    ensures forall k :: from <= k < q ==> !IsBracket(s[k])
    decreases |s| - from
  {
    if from == |s| || IsBracket(s[from]) then from else NextBracket(s, from + 1)
  }

  /** Some `@` in `c` has at least one character after it. */
  predicate AtWithTail(c: string) {
    exists k :: 0 <= k < |c| - 1 && c[k] == '@'
  }

  function HasAtWithTail(c: string): (r: bool)
    ensures r <==> AtWithTail(c)
  {
    var i := IndexOfChar(c, '@');
    if 0 <= i < |c| - 1 then true
    else
      assert forall k :: 0 <= k < |c| - 1 ==> c[k] != '@' by {
        if i == -1 {
        } else {
          forall k | 0 <= k < |c| - 1 ensures c[k] != '@' {
            assert k < i ==> c[..i][k] == c[k];
          }
        }
      }
      false
  }

  /** `\b` at position `p`: exactly one side is a word character. */
  predicate WordBoundary(s: string, p: nat)
    requires p <= |s|
  {
    (p > 0 && IsWordChar(s[p - 1])) != (p < |s| && IsWordChar(s[p]))
  }

  /** The match of `citeExtractorRe` that starts exactly at `p`, if any. */
  function ExtractAt(s: string, p: nat): (r: Option<Extracted>)
    requires p <= |s|
    ensures r.Some? ==> r.value.start == p && p < r.value.end <= |s|
  {
    if p < |s| && s[p] == '[' then
      var q := NextBracket(s, p + 1);
      if q < |s| && s[q] == ']' && HasAtWithTail(s[p + 1..q])
      then Some(Extracted(p, q + 1, Some(s[p + 1..q]), None))
      else None
    else if !WordBoundary(s, p) && KeyAt(s, p).Some? then
      var e := KeyAt(s, p).value;
      Some(Extracted(p, e, None, Some(s[p..e])))
    else None
  }

  /** `s.match(citeExtractorRe)` searching from `from`: the leftmost match. */
  function ExtractFrom(s: string, from: nat): (r: Option<Extracted>)
    requires from <= |s|
    ensures r.Some? ==> from <= r.value.start <= |s| && ExtractAt(s, r.value.start) == r
    ensures r.Some? ==> forall p :: from <= p < r.value.start ==> ExtractAt(s, p).None?
    ensures r.None? ==> forall p :: from <= p <= |s| ==> ExtractAt(s, p).None?
    decreases |s| - from
  {
    var here := ExtractAt(s, from);
    if here.Some? then here
    else if from == |s| then None
    else ExtractFrom(s, from + 1)
  }

  function Extract(s: string): Option<Extracted> {
    ExtractFrom(s, 0)
  }

  /** The bracketed alternative spans `[`, a content without brackets holding `@` and more, and `]`. */
  lemma ExtractBracketShape(s: string)
    requires Extract(s).Some? && Extract(s).value.bracketed.Some?
    ensures var m := Extract(s).value; var c := m.bracketed.value;
      s[m.start..m.end] == "[" + c + "]"
      && (forall k :: 0 <= k < |c| ==> !IsBracket(c[k]))
      && AtWithTail(c)
  {
    BracketShapeAt(s, Extract(s).value.start);
  }

  lemma BracketShapeAt(s: string, p: nat)
    requires p <= |s| && ExtractAt(s, p).Some? && ExtractAt(s, p).value.bracketed.Some?
    ensures var m := ExtractAt(s, p).value; var c := m.bracketed.value;
      s[m.start..m.end] == "[" + c + "]"
      && (forall k :: 0 <= k < |c| ==> !IsBracket(c[k]))
      && AtWithTail(c)
  {
    var q := NextBracket(s, p + 1);
    assert s[p..q + 1] == [s[p]] + s[p + 1..q] + [s[q]];
  }

  /** The in-text alternative never takes an `@` preceded by a word character (an e-mail address). */
  lemma ExtractInTextNotAfterWord(s: string)
    requires Extract(s).Some? && Extract(s).value.inText.Some?
    ensures var m := Extract(s).value;
      s[m.start] == '@' && (m.start == 0 || !IsWordChar(s[m.start - 1]))
      && m.inText.value == s[m.start..m.end]
  {
  }

  /** An `@` directly after a word character is never where a match starts. */
  lemma NoMatchAfterWordChar(s: string, p: nat)
    requires 0 < p < |s| && s[p] == '@' && IsWordChar(s[p - 1])
    ensures ExtractAt(s, p).None?
  {
  }
}
