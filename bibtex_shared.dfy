// The shared pieces of the BibTeX mapping: reading EDTF dates and month
// fields, building a label from the first author, the year and the title,
// and the field converters (DATE, YEAR_MONTH, KEYWORDS, LABEL, TITLE, PICK,
// STATUS), each a pair of a conversion to CSL and one back.

module BibtexShared {
  import opened Base
  import opened JsValue

  // ---------------------------------------------------------------------
  // Characters a label may not hold

  /** The character class of `unsafeChars`: space and ASCII punctuation. */
  predicate Unsafe(c: char) {
    (' ' <= c <= '/') || (':' <= c <= '@') || ('[' <= c <= '^')
    || c == '`' || ('{' <= c <= '\U{7F}')
  }

  predicate Safe(s: string) {
    forall i :: 0 <= i < |s| ==> !Unsafe(s[i])
  }

  /** Where the shortest `>` after `j`, on the same line, ends. */
  function CloseFrom(s: string, j: nat): (r: Option<nat>)
    requires j <= |s|
    ensures r.Some? ==> j < r.value <= |s| && s[r.value - 1] == '>'
    decreases |s| - j
  {
    if j == |s| then None
    else if s[j] == '>' then Some(j + 1)
    else if IsLineTerminator(s[j]) then None
    else CloseFrom(s, j + 1)
  }

  /** The end of the tag `<\/?.*?>` that starts at `i`, if one does. */
  function TagEnd(s: string, i: nat): (r: Option<nat>)
    requires i < |s|
    ensures r.Some? ==> s[i] == '<' && i + 1 < r.value <= |s|
  {
    if s[i] == '<' then CloseFrom(s, i + 1) else None
  }

  /** The end of the longest run of tags and unsafe characters that
      `unsafeChars` matches at `i`: `i` itself when none starts there. */
  function RunEnd(s: string, i: nat): (r: nat)
    requires i <= |s|
    ensures i <= r <= |s|
    ensures r == i <==> i == |s| || !Unsafe(s[i])
    decreases |s| - i
  {
    if i == |s| then i
    else match TagEnd(s, i)
      case Some(e) => RunEnd(s, e)
      case None => if Unsafe(s[i]) then RunEnd(s, i + 1) else i
  }

  /** The `split` algorithm with `unsafeChars` as separator: a piece runs
      from `p`, matches are tried from `q` on. */
  function Pieces(s: string, p: nat, q: nat): (r: seq<string>)
    requires p <= q <= |s| && Safe(s[p..q])
    ensures |r| >= 1
    ensures forall k :: 0 <= k < |r| ==> Safe(r[k])
    decreases |s| - q
  {
    if q == |s| then [s[p..]]
    else
      var e := RunEnd(s, q);
      if e == q then
        assert s[p..q + 1] == s[p..q] + [s[q]];
        Pieces(s, p, q + 1)
      else [s[p..q]] + Pieces(s, e, e)
  }

  /** `s.split(unsafeChars)`. */
  function SplitUnsafe(s: string): (r: seq<string>)
    ensures |r| >= 1 && forall k :: 0 <= k < |r| ==> Safe(r[k])
  {
    Pieces(s, 0, 0)
  }

  /** `s.replace(unsafeChars, '')`: the global replace takes out the same
      runs the split cuts at. */
  function StripUnsafe(s: string): string {
    Join(SplitUnsafe(s), "")
  }

  // ---------------------------------------------------------------------
  // firstWord and formatLabel

  const StopWords: set<string> := {"the", "a", "an"}

  /** `s.replace(unicode, '')`: only the characters U+0020 to U+007F stay. */
  function KeepAscii(s: string): (r: string)
    ensures forall i :: 0 <= i < |r| ==> ' ' <= r[i] <= '\U{7F}'
  {
    if s == [] then []
    else (if ' ' <= s[0] <= '\U{7F}' then [s[0]] else []) + KeepAscii(s[1..])
  }

  /** A word `firstWord` accepts. */
  predicate Kept(w: string) {
    w != "" && ToLower(w) !in StopWords
  }

  /** `words.find(word => word.length && !stopWords.has(word.toLowerCase()))`. */
  function FindWord(words: seq<string>): (r: Option<string>)
    ensures r.None? <==> forall k :: 0 <= k < |words| ==> !Kept(words[k])
    ensures r.Some? ==> Kept(r.value)
  {
    if words == [] then None
    else if Kept(words[0]) then Some(words[0])
    else FindWord(words[1..])
  }

  /** The first word of a text, if it has one. */
  function FirstWordOf(s: string): Option<string> {
    FindWord(SplitUnsafe(KeepAscii(s)))
  }

  const NormalizeError := "TypeError: text.normalize is not a function"

  /** `firstWord(text)`: `''` for a falsy text; a text that is not a string
      has no `normalize`. As written a text with no word gives `undefined`;
      as intended it gives nothing. */
  function FirstWord(text: Value, reading: Reading): (r: Result<Value, string>)
    ensures !Truthy(text) ==> r == Ok(Str(""))
    ensures Truthy(text) && !text.Str? ==> r == Err(NormalizeError)
    ensures text.Str? && Truthy(text) ==>
      r == Ok(match FirstWordOf(text.s)
              case Some(w) => Str(w)
              case None => if reading == AsWritten then Undefined else Str(""))
  {
    if !Truthy(text) then Ok(Str(""))
    else if !text.Str? then Err(NormalizeError)
    else match FirstWordOf(text.s)
      case Some(w) => Ok(Str(w))
      case None => Ok(if reading == AsWritten then Undefined else Str(""))
  }

  /** The name `firstWord` is given: the first author's family name, or
      their literal name when the family name is falsy. */
  function AuthorName(author: Value): Value {
    var first := Member(author, "0");
    if Truthy(Member(first, "family")) then Member(first, "family") else Member(first, "literal")
  }

  /** What the first author adds to the label. */
  function AuthorPart(author: Value, reading: Reading): Result<string, string> {
    if Truthy(author) && Truthy(Member(author, "0")) then
      match FirstWord(AuthorName(author), reading)
      case Err(e) => Err(e)
      case Ok(w) => Ok(ToJsString(w))
    else Ok("")
  }

  /** What the first date adds to the label: its first part. */
  function YearPart(issued: Value): string {
    var dp := Member(issued, "date-parts");
    if Truthy(issued) && Truthy(dp) && Truthy(Member(dp, "0")) then ToJsString(Member(Member(dp, "0"), "0"))
    else ""
  }

  /** What the suffix, or else the title, adds to the label. */
  function TitlePart(suffix: Value, title: Value, reading: Reading): Result<string, string> {
    if Truthy(suffix) then Ok(ToJsString(suffix))
    else if Truthy(title) then
      match FirstWord(title, reading)
      case Err(e) => Err(e)
      case Ok(w) => Ok(ToJsString(w))
    else Ok("")
  }

  /** `formatLabel(author, issued, suffix, title)`: the label built from the
      author word, the year and the suffix or title word, in that order. */
  function LabelOf(author: Value, issued: Value, suffix: Value, title: Value, reading: Reading): Result<string, string> {
    match AuthorPart(author, reading)
    case Err(e) => Err(e)
    case Ok(a) =>
      match TitlePart(suffix, title, reading)
      case Err(e) => Err(e)
      case Ok(t) => Ok(a + YearPart(issued) + t)
  }

  // ---------------------------------------------------------------------
  // LABEL

  /** `LABEL.toTarget(label)`. */
  function LabelToTarget(given: Value): (r: seq<Value>)
    ensures |r| == 2 && r[0] == given && r[1] == given
  {
    [given, given]
  }

  /** The id with the unsafe characters taken out. */
  function SafeId(id: Value): string {
    if id.Null? then "null" else if id.Undefined? then "undefined" else StripUnsafe(ToJsString(id))
  }

  /** `LABEL.toSource(id, label, author, issued, suffix, title)` with the
      `useIdAsLabel` setting: the safe id, else a given label without unsafe
      characters, else the built label or, when that is empty, the safe id. */
  function LabelToSource(id: Value, given: Value, author: Value, issued: Value, suffix: Value, title: Value,
                         useIdAsLabel: bool, reading: Reading): Result<Value, string> {
    var safeId := SafeId(id);
    if useIdAsLabel then Ok(Str(safeId))
    else if Truthy(given) && Safe(ToJsString(given)) then Ok(given)
    else
      match LabelOf(author, issued, suffix, title, reading)
      case Err(e) => Err(e)
      case Ok(l) => Ok(Str(if l != "" then l else safeId))
  }

  // ---------------------------------------------------------------------
  // Dates

  /** `.replace(/[?~%]$/, '')`: one trailing qualifier goes. */
  function DropQualifier(s: string): (r: string)
    ensures s == [] || s[|s| - 1] !in {'?', '~', '%'} ==> r == s
  {
    if s != [] && s[|s| - 1] in {'?', '~', '%'} then s[..|s| - 1] else s
  }

  /** The lookahead `(?=-?\d{4}\d+)`: a sign, then five digits or more. */
  predicate LongYear(s: string) {
    var u := if s != [] && s[0] == '-' then s[1..] else s;
    DigitRun(u) >= 5
  }

  /** `.replace(/^Y(?=-?\d{4}\d+)/, '').replace(/X/g, '0')` on the year. */
  function YearText(s: string): string {
    var t := if s != [] && s[0] == 'Y' && LongYear(s[1..]) then s[1..] else s;
    ReplaceChar(t, 'X', "0")
  }

  /** `!n` on a number: NaN and 0 are falsy. */
  predicate Falsy(n: Option<int>) {
    n.None? || n.value == 0
  }

  /** `parseDate(date)`: the year, with the month when it is truthy and at
      most 20, and the day when it is truthy too; `None` is NaN. */
  function ParseDate(date: string): (r: seq<Option<int>>)
    ensures 1 <= |r| <= 3
    ensures |r| >= 2 ==> r[1].Some? && r[1].value != 0 && r[1].value <= 20
    ensures |r| == 3 ==> r[2].Some? && r[2].value != 0
  {
    var parts := Split(DropQualifier(Split(date, "T")[0]), "-");
    var year := ToNumber(YearText(parts[0]));
    var month := if |parts| > 1 then ToNumber(parts[1]) else None;
    var day := if |parts| > 2 then ToNumber(parts[2]) else None;
    if Falsy(month) || month.value > 20 then [year]
    else if Falsy(day) then [year, month]
    else [year, month, day]
  }

  /** A CSL date: a literal, or the ranges of `date-parts`, an open end
      being `undefined`. */
  datatype CslDate = Literal(text: Option<string>) | Parts(ranges: seq<Option<seq<Option<int>>>>)

  const UndefinedIndex := "TypeError: Cannot read properties of undefined (reading '0')"

  /** `DATE.toTarget(date)`: each `/`-separated end parsed, an empty or `..`
      end left open; a start whose year is NaN makes a literal. As written
      an open start is read as an array and throws; as intended it makes a
      literal too. */
  function DateToTarget(date: string, reading: Reading): (r: Result<CslDate, string>)
    ensures r.Err? ==> reading == AsWritten && r.error == UndefinedIndex
  {
    var ends := Split(date, "/");
    var parts := seq(|ends|, i requires 0 <= i < |ends| =>
      if ends[i] != "" && ends[i] != ".." then Some(ParseDate(ends[i])) else None);
    match parts[0]
    case None => if reading == AsWritten then Err(UndefinedIndex) else Ok(Literal(Some(date)))
    case Some(start) => if start[0].None? then Ok(Literal(Some(date))) else Ok(Parts(parts))
  }

  /** `String(n).padStart(2, '0')`. */
  function PadStart2(s: string): (r: string)
    ensures |s| >= 2 ==> r == s
    ensures |r| >= 2
  {
    if |s| >= 2 then s else if |s| == 1 then "0" + s else "00"
  }

  /** One part as `DATE.toSource` prints it; NaN prints as `NaN`. */
  function PartText(n: Option<int>): string {
    match n
    case None => "NaN"
    case Some(v) => PadStart2(IntToString(v))
  }

  /** One range as `DATE.toSource` prints it. */
  function RangeText(range: seq<Option<int>>): (r: string) {
    Join(seq(|range|, i requires 0 <= i < |range| => PartText(range[i])), "-")
  }

  const UndefinedMap := "TypeError: Cannot read properties of undefined (reading 'map')"

  /** `DATE.toSource(date)`: the ranges printed and joined with `/`; a
      literal gives `undefined`, an open end throws. */
  function DateToSource(date: CslDate): (r: Result<Option<string>, string>)
    ensures date.Literal? ==> r == Ok(None)
    ensures date.Parts? ==> (r.Ok? <==> forall i :: 0 <= i < |date.ranges| ==> date.ranges[i].Some?)
  {
    match date
    case Literal(_) => Ok(None)
    case Parts(rs) =>
      if forall i :: 0 <= i < |rs| ==> rs[i].Some? then
        Ok(Some(Join(seq(|rs|, i requires 0 <= i < |rs| => RangeText(rs[i].value)), "/")))
      else Err(UndefinedMap)
  }

  // ---------------------------------------------------------------------
  // Months

  /** `MONTHS`: the abbreviations, then the full names. */
  const Months: seq<(string, int)> := [
    ("jan", 1), ("feb", 2), ("mar", 3), ("apr", 4), ("may", 5), ("jun", 6),
    ("jul", 7), ("aug", 8), ("sep", 9), ("oct", 10), ("nov", 11), ("dec", 12),
    ("january", 1), ("february", 2), ("march", 3), ("april", 4), ("may", 5), ("june", 6),
    ("july", 7), ("august", 8), ("september", 9), ("october", 10), ("november", 11), ("december", 12)]

  /** `months`: the abbreviations by month number less one. */
  const ShortMonths: seq<string> := ["jan", "feb", "mar", "apr", "may", "jun", "jul", "aug", "sep", "oct", "nov", "dec"]

  /** Index of the first white space character at or after `i`, or `|s|`. */
  function SpaceFrom(s: string, i: nat): (r: nat)
    requires i <= |s|
    ensures i <= r <= |s| && (r < |s| ==> IsSpace(s[r]))
    ensures forall k :: i <= k < r ==> !IsSpace(s[k])
    decreases |s| - i
  {
    if i < |s| && !IsSpace(s[i]) then SpaceFrom(s, i + 1) else i
  }

  /** `s.split(/\s+/)`. */
  function SplitSpaces(s: string): (r: seq<string>)
    ensures |r| >= 1
    decreases |s|
  {
    var k := SpaceFrom(s, 0);
    if k == |s| then [s] else [s[..k]] + SplitSpaces(s[SpaceEndFrom(s, k)..])
  }

  /** Unary `+` on a field that may be `undefined`. */
  function Plus(v: Option<string>): Option<int> {
    match v
    case None => None
    case Some(s) => ToNumber(s)
  }

  /** `parseMonth(value)`: nothing for `null`; a truthy number as it reads;
      a month name or abbreviation, in any case, as its number; a month and
      a day in either order as both; else nothing. */
  function ParseMonth(value: Option<string>): (r: seq<Option<int>>)
    ensures value.None? ==> r == []
    ensures |r| <= 2
  {
    match value
    case None => []
    case Some(v) =>
      if !Falsy(ToNumber(v)) then [ParseInt(v)]
      else
        var t := ToLower(Trim(v));
        match Lookup(Months, t)
        case Some(m) => [Some(m)]
        case None =>
          var parts := SplitSpaces(t);
          var (month, day) :=
            match Lookup(Months, parts[0])
            case Some(m) => (Some(m), if |parts| > 1 then ParseInt(parts[1]) else None)
            case None =>
              if |parts| > 1 && Lookup(Months, parts[1]).Some? then (Lookup(Months, parts[1]), ParseInt(parts[0]))
              else (None, None);
          if !Falsy(day) then [month, day] else if month.Some? then [month] else []
  }

  /** `YEAR_MONTH.toTarget(year, month, day)`: a literal when the year is
      NaN, the three numbers when the day and the month are numbers, else the
      year and what `parseMonth` reads in the month. */
  function YearMonthToTarget(year: Option<string>, month: Option<string>, day: Option<string>): CslDate {
    if Plus(year).None? then Literal(year)
    else if Plus(day).Some? && Plus(month).Some? then Parts([Some([Plus(year), Plus(month), Plus(day)])])
    else Parts([Some([Plus(year)] + ParseMonth(month))])
  }

  const UndefinedYear := "TypeError: Cannot read properties of undefined (reading 'toString')"

  /** The month as `YEAR_MONTH.toSource` prints it with a day. */
  function MonthName(m: int): string {
    if 1 <= m <= 12 then ShortMonths[m - 1] else "undefined"
  }

  /** `YEAR_MONTH.toSource(date)`: the year as text and the month, written
      with its abbreviation and the day when there is a day, as its number
      when not, `undefined` when it is falsy; a literal gives `undefined`. */
  function YearMonthToSource(date: CslDate): (r: Result<Option<seq<Value>>, string>)
    ensures date.Literal? ==> r == Ok(None)
    ensures r.Ok? && r.value.Some? ==> |r.value.value| == 2 && r.value.value[0].Str?
  {
    match date
    case Literal(_) => Ok(None)
    case Parts(rs) =>
      if rs == [] || rs[0].None? || rs[0].value == [] then Err(UndefinedYear)
      else
        var r := rs[0].value;
        var year := match r[0] case None => "NaN" case Some(y) => IntToString(y);
        var month := if |r| > 1 then r[1] else None;
        var day := if |r| > 2 then r[2] else None;
        var m: Value :=
          if Falsy(month) then Undefined
          else if !Falsy(day) then Str(MonthName(month.value) + " " + IntToString(day.value))
          else Num(month.value);
        Ok(Some([Str(year), m]))
  }

  // ---------------------------------------------------------------------
  // KEYWORDS, TITLE, PICK, STATUS

  /** `KEYWORDS.toTarget(list)`. */
  function KeywordsToTarget(list: seq<string>): string {
    Join(list, ",")
  }

  /** `KEYWORDS.toSource(list)`. */
  function KeywordsToSource(text: string): seq<string> {
    Split(text, ",")
  }

  /** `TITLE.toTarget(title, subtitle)`: the subtitle after `: ` when there
      is one. */
  function TitleToTarget(title: Option<string>, subtitle: Option<string>): (r: Option<string>)
    ensures subtitle.None? || subtitle.value == "" ==> r == title
  {
    match subtitle
    case Some(sub) =>
      if sub != "" then Some(ToJsString(match title case None => Undefined case Some(t) => Str(t)) + ": " + sub)
      else title
    case None => title
  }

  /** `TITLE.toSource(title)`. */
  function TitleToSource(title: Option<string>): seq<Option<string>> {
    [title]
  }

  /** `PICK.toTarget(...args)`: the first truthy argument, else `undefined`. */
  function PickToTarget(args: seq<Value>): (r: Value)
    ensures r.Undefined? <==> forall i :: 0 <= i < |args| ==> !Truthy(args[i])
    ensures !r.Undefined? ==> Truthy(r)
  {
    if args == [] then Undefined
    else if Truthy(args[0]) then args[0]
    else PickToTarget(args[1..])
  }

  /** `PICK.toSource(value)`. */
  function PickToSource(v: Value): seq<Value> {
    [v]
  }

  const StatusWords: set<string> := {"inpreparation", "submitted", "forthcoming", "inpress", "prepublished"}

  /** `STATUS.toSource(state)`: the state when it is one of the publication
      states, in any case; else `undefined`. */
  function StatusToSource(state: Value): Option<Value> {
    if ToLower(ToJsString(state)) in StatusWords then Some(state) else None
  }
}
