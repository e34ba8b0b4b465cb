/**
 * The patterns of src/regex.js.
 *  - `locatorRE` `^(?:[\d, -]*\d|[ivxlcdm, -]*[ivxlcdm])` with the `i` flag,
 *                modelled exactly: the first alternative is tried first, and
 *                each takes the longest prefix its greedy star allows.
 *  - `citationRE` and `fullCitationRE` are modelled by the groups they
 *                capture, together with the shape those groups are
 *                guaranteed to have.
 */
module CitationRegex {
  import opened Base

  // ---------------------------------------------------------------------
  // locatorRE

  predicate IsRomanLetter(c: char) {
    c == 'i' || c == 'v' || c == 'x' || c == 'l' || c == 'c' || c == 'd' || c == 'm'
    || c == 'I' || c == 'V' || c == 'X' || c == 'L' || c == 'C' || c == 'D' || c == 'M'
  }

  /** The character that ends a match of one alternative: a digit, or a roman letter when `roman`. */
  predicate IsTail(c: char, roman: bool) {
    if roman then IsRomanLetter(c) else IsDigit(c)
  }

  /** The starred class of one alternative: its tail characters, `,`, space and `-`. */
  predicate IsBody(c: char, roman: bool) {
    IsTail(c, roman) || c == ',' || c == ' ' || c == '-'
  }

  /** One alternative matches exactly the first `e` characters. */
  predicate AltMatches(s: string, e: nat, roman: bool) {
    0 < e <= |s| && (forall j :: 0 <= j < e ==> IsBody(s[j], roman)) && IsTail(s[e - 1], roman)
  }

  /** Length of the run of body characters starting at `i`: what the greedy star consumes. */
  function BodyRun(s: string, i: nat, roman: bool): (k: nat)
    requires i <= |s|
    ensures i + k <= |s| && (forall j :: i <= j < i + k ==> IsBody(s[j], roman))
    ensures i + k < |s| ==> !IsBody(s[i + k], roman)
    decreases |s| - i
  {
    if i < |s| && IsBody(s[i], roman) then 1 + BodyRun(s, i + 1, roman) else 0
  }

  /** Backtracking from `n` to just after the last tail character, or 0 when there is none. */
  function TailEnd(s: string, n: nat, roman: bool): (e: nat)
    requires n <= |s|
    ensures e <= n && (e > 0 ==> IsTail(s[e - 1], roman))
    ensures forall j :: e <= j < n ==> !IsTail(s[j], roman)
  {
    if n == 0 || IsTail(s[n - 1], roman) then n else TailEnd(s, n - 1, roman)
  }

  /** End of the match of one alternative, 0 when it fails. */
  function AltEnd(s: string, roman: bool): nat {
    TailEnd(s, BodyRun(s, 0, roman), roman)
  }

  /** `locatorRE.exec(s)?.[0]`. */
  function LocatorMatch(s: string): (r: Option<string>)
    ensures r.Some? ==> |r.value| > 0 && StartsWith(s, r.value)
    ensures r.Some? ==> IsDigit(r.value[|r.value| - 1]) || IsRomanLetter(r.value[|r.value| - 1])
  {
    var d := AltEnd(s, false);
    if d > 0 then Some(s[..d])
    else
      var m := AltEnd(s, true);
      if m > 0 then Some(s[..m]) else None
  }

  /** One alternative's end is the longest prefix it matches, and 0 exactly when it matches none. */
  lemma AltEndGreatest(s: string, roman: bool)
    ensures AltEnd(s, roman) > 0 ==> AltMatches(s, AltEnd(s, roman), roman)
    ensures forall e: nat :: AltMatches(s, e, roman) ==> e <= AltEnd(s, roman)
  {
    var n := BodyRun(s, 0, roman);
    forall e: nat | AltMatches(s, e, roman) ensures e <= AltEnd(s, roman) {
      assert e <= n;
    }
  }

  /**
   * The digit alternative is tried first: whenever some prefix is a run of
   * digits, commas, spaces and dashes ending in a digit, the match is the
   * longest such prefix.
   */
  lemma DigitAlternativeFirst(s: string, e: nat)
    requires AltMatches(s, e, false)
    ensures LocatorMatch(s).Some?
    ensures var m := LocatorMatch(s).value;
      AltMatches(s, |m|, false) && e <= |m| && m == s[..|m|]
  {
    AltEndGreatest(s, false);
  }

  /**
   * The roman alternative applies only when no digit-ended prefix exists;
   * then the match is the longest prefix of roman letters, commas, spaces
   * and dashes ending in a roman letter, if there is one.
   */
  lemma RomanAlternativeOnly(s: string)
    requires forall e: nat :: !AltMatches(s, e, false)
    ensures LocatorMatch(s).Some? <==> exists e: nat :: AltMatches(s, e, true)
    ensures LocatorMatch(s).Some? ==> var m := LocatorMatch(s).value;
      AltMatches(s, |m|, true) && forall e: nat :: AltMatches(s, e, true) ==> e <= |m|
  {
    AltEndGreatest(s, false);
    AltEndGreatest(s, true);
  }

  /** A match comes from one of the two alternatives. */
  lemma LocatorMatchAlternatives(s: string)
    ensures LocatorMatch(s).Some? ==> var m := LocatorMatch(s).value;
      AltMatches(s, |m|, false) || AltMatches(s, |m|, true)
    ensures LocatorMatch(s).None? ==> forall e: nat :: !AltMatches(s, e, false) && !AltMatches(s, e, true)
  {
    AltEndGreatest(s, false);
    AltEndGreatest(s, true);
  }

  /**
   * The roman alternative has no word boundary after it, so the first letters
   * of an ordinary word are read as a roman numeral: in `in particular` the
   * locator is `i`.
   */
  lemma RomanTakesWordStart()
    ensures LocatorMatch("in particular") == Some("i")
  {
    var s := "in particular";
    assert s[0] == 'i' && s[1] == 'n';
    assert BodyRun(s, 0, false) == 0;
    assert BodyRun(s, 1, true) == 0;
    assert TailEnd(s, 1, true) == 1;
    assert s[..1] == "i";
  }

  /** The last end at or below `n` of a roman-letter prefix that is not followed by a letter, or 0. */
  function BoundedRomanEnd(s: string, n: nat): (e: nat)
    requires n <= |s|
    ensures e <= n && (e > 0 ==> IsRomanLetter(s[e - 1]) && (e == |s| || !IsAsciiLetter(s[e])))
    ensures forall j :: e < j <= n ==> !(IsRomanLetter(s[j - 1]) && (j == |s| || !IsAsciiLetter(s[j])))
  {
    if n == 0 then 0
    else if IsRomanLetter(s[n - 1]) && (n == |s| || !IsAsciiLetter(s[n])) then n
    else BoundedRomanEnd(s, n - 1)
  }

  /**
   * `locatorRE` with the roman alternative required to end the word, as in
   * `^(?:[\d, -]*\d|[ivxlcdm, -]*[ivxlcdm](?![a-z]))` with the `i` flag.
   */
  function IntendedLocatorMatch(s: string): (r: Option<string>)
    ensures r.Some? ==> |r.value| > 0 && StartsWith(s, r.value)
  {
    var d := AltEnd(s, false);
    if d > 0 then Some(s[..d])
    else
      var m := BoundedRomanEnd(s, BodyRun(s, 0, true));
      if m > 0 then Some(s[..m]) else None
  }

  /** Where the digit alternative matches, the corrected pattern agrees with `locatorRE`. */
  lemma IntendedAgreesOnDigits(s: string)
    requires AltEnd(s, false) > 0
    ensures IntendedLocatorMatch(s) == LocatorMatch(s)
  {
  }

  /**
   * A roman locator of the corrected pattern is the longest prefix of roman
   * letters, commas, spaces and dashes that ends in a roman letter and is
   * not followed by a letter.
   */
  lemma IntendedRomanEndsWord(s: string)
    requires AltEnd(s, false) == 0 && IntendedLocatorMatch(s).Some?
    ensures var m := IntendedLocatorMatch(s).value;
      AltMatches(s, |m|, true) && (|m| == |s| || !IsAsciiLetter(s[|m|]))
      && forall e: nat :: |m| < e && AltMatches(s, e, true) ==> e < |s| && IsAsciiLetter(s[e])
  {
    var n := BodyRun(s, 0, true);
    var m := BoundedRomanEnd(s, n);
    assert |IntendedLocatorMatch(s).value| == m;
    assert AltMatches(s, m, true);
    AltEndGreatest(s, true);
  }

  /** The corrected pattern finds no locator in `in particular`. */
  lemma InParticularIntended()
    ensures IntendedLocatorMatch("in particular").None?
  {
    var s := "in particular";
    assert BodyRun(s, 0, false) == 0;
    assert BodyRun(s, 1, true) == 0;
    assert BoundedRomanEnd(s, 1) == 0;
  }

  // ---------------------------------------------------------------------
  // citationRE and fullCitationRE, by their groups

  /** The class `[\p{L}\d_]` that starts and ends an unbraced key (letters read as ASCII letters). */
  predicate IsKeyEdge(c: char) { IsAsciiLetter(c) || IsDigit(c) || c == '_' }

  /** `\{.+\}`: braces around one or more characters that are not line terminators. */
  predicate BracedKey(k: string) {
    |k| >= 3 && k[0] == '{' && k[|k| - 1] == '}'
    && forall j :: 1 <= j < |k| - 1 ==> !IsLineTerminator(k[j])
  }

  /** `[\p{L}\d_][^\s]*[\p{L}\d_]`: the unbraced in-text key. */
  predicate InTextKey(k: string) {
    |k| >= 2 && IsKeyEdge(k[0]) && IsKeyEdge(k[|k| - 1]) && NoneSpace(k)
  }

  /** `[\p{L}\d_][^\s{]*[\p{L}\d_]`: the unbraced key inside a bracketed item. */
  predicate FullKey(k: string) {
    InTextKey(k) && forall j :: 0 <= j < |k| ==> k[j] != '{'
  }

  /** `[^[\]]*@[^[\]]+`: no brackets, and an `@` with at least one character after it. */
  predicate BracketedBody(c: string) {
    (forall j :: 0 <= j < |c| ==> c[j] != '[' && c[j] != ']')
    && exists k :: 0 <= k < |c| - 1 && c[k] == '@'
  }

  /**
   * A match of `citationRE` inside `text`, by its groups: group 1 the body of
   * a bracketed marker; for the in-text alternative, group 2 the captured
   * `-` of the look-behind, group 3 the key and group 4 the optional
   * bracketed suffix; `at` is where the in-text `@` stands.
   */
  datatype MarkerGroups = MarkerGroups(
    full: Option<string>,
    suppress: Option<string>,
    key: Option<string>,
    optionalSuffix: Option<string>,
    at: nat)

  /**
   * The groups a match can have: either a bracketed body, or an in-text key
   * preceded by white space, the start of the text or a `-`, the `-` being
   * exactly what group 2 captures.
   */
  predicate MarkerShape(text: string, g: MarkerGroups) {
    if g.full.Some? then
      BracketedBody(g.full.value) && g.suppress.None? && g.key.None? && g.optionalSuffix.None?
    else
      g.key.Some? && (InTextKey(g.key.value) || BracedKey(g.key.value))
      && g.at < |text| && text[g.at] == '@'
      && (g.at == 0 || IsSpace(text[g.at - 1]) || text[g.at - 1] == '-')
      && (g.suppress.Some? <==> g.at > 0 && text[g.at - 1] == '-')
      && (g.suppress.Some? ==> g.suppress.value == "-")
  }

  /** An unbraced in-text key has two or more characters and never ends in punctuation or white space. */
  lemma InTextKeyEnds(k: string)
    requires InTextKey(k)
    ensures |k| >= 2 && !IsSpace(k[|k| - 1]) && k[|k| - 1] != '.' && k[|k| - 1] != ',' && k[|k| - 1] != ';'
  {
  }

  /** An in-text marker never takes an `@` directly after a letter, digit or `_`. */
  lemma InTextNotAfterWord(text: string, g: MarkerGroups)
    requires MarkerShape(text, g) && g.full.None? && g.at > 0
    ensures !IsWordChar(text[g.at - 1])
  {
  }

  /**
   * A match of `fullCitationRE` on one item, by its named groups: the prefix,
   * the key, a locator in braces right after the key, a locator in braces
   * at the start of the text after a comma, and the suffix.
   */
  datatype ItemGroups = ItemGroups(
    prefix: Option<string>,
    citekey: string,
    explicitLocator: Option<string>,
    explicitLocatorInSuffix: Option<string>,
    suffix: Option<string>)

  /** The shapes of the groups: a key of either form, and an in-suffix locator only with a suffix group. */
  predicate ItemShape(g: ItemGroups) {
    (FullKey(g.citekey) || BracedKey(g.citekey))
    && (g.explicitLocatorInSuffix.Some? ==> g.suffix.Some?)
    && (g.prefix.Some? ==> |g.prefix.value| > 0)
  }

  /** An unbraced item key holds no `{`, so a locator in braces right after it is never part of the key. */
  lemma UnbracedKeyStopsAtBrace(g: ItemGroups)
    requires ItemShape(g) && !BracedKey(g.citekey)
    ensures forall j :: 0 <= j < |g.citekey| ==> g.citekey[j] != '{'
  {
  }

  // ---------------------------------------------------------------------
  // .replace(/{(.+)}/, '$1')

  /** Index of the first line terminator at or after `i`, or `|s|`. */
  function LineEnd(s: string, i: nat): (e: nat)
    requires i <= |s|
    ensures i <= e <= |s| && (e < |s| ==> IsLineTerminator(s[e]))
    ensures forall j :: i <= j < e ==> !IsLineTerminator(s[j])
    decreases |s| - i
  {
    if i == |s| || IsLineTerminator(s[i]) then i else LineEnd(s, i + 1)
  }

  /** The last `}` in `[lo, hi)`, or `-1`. */
  function LastCloseIn(s: string, lo: nat, hi: nat): (j: int)
    requires lo <= hi <= |s|
    ensures j == -1 || (lo <= j < hi && s[j] == '}')
    ensures forall k :: (if j < 0 then lo else j + 1) <= k < hi ==> s[k] != '}'
    decreases hi - lo
  {
    if hi == lo then -1 else if s[hi - 1] == '}' then hi - 1 else LastCloseIn(s, lo, hi - 1)
  }

  /** Where `{(.+)}` matches at `i`: the closing `}` chosen by the greedy `.+`, if any. */
  function CloseFor(s: string, i: nat): (j: int)
    requires i < |s|
    ensures j == -1 || (i + 2 <= j < |s| && s[j] == '}')
  {
    if s[i] != '{' || i + 2 > |s| then -1
    else
      var e := LineEnd(s, i + 1);
      if e < i + 2 then -1 else LastCloseIn(s, i + 2, e)
  }

  /** The first replacement: the leftmost `{` that has a closing `}` on its line. */
  function UnbraceFrom(s: string, i: nat): (r: string)
    requires i <= |s|
    decreases |s| - i
  {
    if i == |s| then s
    else
      var j := CloseFor(s, i);
      if j >= 0 then s[..i] + s[i + 1..j] + s[j + 1..] else UnbraceFrom(s, i + 1)
  }

  /** `key.replace(/{(.+)}/, '$1')`. */
  function Unbrace(s: string): string {
    UnbraceFrom(s, 0)
  }

  /** A key without `{` is left as it is. */
  lemma {:induction false} NoBraceUnchanged(s: string, i: nat)
    requires i <= |s| && forall j :: 0 <= j < |s| ==> s[j] != '{'
    ensures UnbraceFrom(s, i) == s
    decreases |s| - i
  {
    if i < |s| {
      NoBraceUnchanged(s, i + 1);
    }
  }

  /** A braced key `{k}` yields `k`. */
  lemma UnbraceBraced(k: string)
    requires BracedKey(k)
    ensures Unbrace(k) == k[1..|k| - 1]
  {
    assert LineEnd(k, 1) == |k|;
    assert CloseFor(k, 0) == |k| - 1;
    assert k[..0] + k[1..|k| - 1] + k[|k|..] == k[1..|k| - 1];
  }
}
