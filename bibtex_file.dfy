// The BibTeX grammar: the rules of `bibtexGrammar` as functions of the
// token cursor. Each rule takes the position of the current token and the
// log of the rules it is called from, and gives its value and the position
// after it, or the error it throws. `@string` entries add to the table of
// macros, entries closed by the other kind of brace add a warning.

module BibtexFile {
  import opened Base
  import opened JsObject
  import opened JsValue
  import opened BibtexLexer
  import opened GrammarUtil

  /** `config.biber`: a field name ending in `annotation` annotates the field
      before it; `annotation + named + name` gives the annotation a name. */
  datatype Markers = Markers(annotation: string, named: string)

  /** The output of `EntryBody`: the fields, and the annotations by field and
      by name (absent while the entry has none). */
  datatype Fields = Fields(properties: Props<Value>, annotations: Option<Props<Props<Value>>>)

  /** An entry as `Entry` returns it: its type in lower case, its label and its body. */
  datatype BibEntry = BibEntry(entryType: string, entryLabel: string, properties: Props<Value>, annotations: Option<Props<Props<Value>>>)

  /** The parser between entries: the position, the macros, the warnings given. */
  datatype St = St(pos: nat, strings: Props<Value>, warnings: seq<string>)

  /** The default state: month abbreviations and the journal macros of BibTeX's
      standard styles. */
  const DefaultStrings: Props<Value> := [
    ("jan", Str("01")), ("feb", Str("02")), ("mar", Str("03")), ("apr", Str("04")),
    ("may", Str("05")), ("jun", Str("06")), ("jul", Str("07")), ("aug", Str("08")),
    ("sep", Str("09")), ("oct", Str("10")), ("nov", Str("11")), ("dec", Str("12")),
    ("acmcs", Str("ACM Computing Surveys")),
    ("acta", Str("Acta Informatica")),
    ("cacm", Str("Communications of the ACM")),
    ("ibmjrd", Str("IBM Journal of Research and Development")),
    ("ibmsj", Str("IBM Systems Journal")),
    ("ieeese", Str("IEEE Transactions on Software Engineering")),
    ("ieeetc", Str("IEEE Transactions on Computers")),
    ("ieeetcad", Str("IEEE Transactions on Computer-Aided Design of Integrated Circuits")),
    ("ipl", Str("Information Processing Letters")),
    ("jacm", Str("Journal of the ACM")),
    ("jcss", Str("Journal of Computer and System Sciences")),
    ("scp", Str("Science of Computer Programming")),
    ("sicomp", Str("SIAM Journal on Computing")),
    ("tocs", Str("ACM Transactions on Computer Systems")),
    ("tods", Str("ACM Transactions on Database Systems")),
    ("tog", Str("ACM Transactions on Graphics")),
    ("toms", Str("ACM Transactions on Mathematical Software")),
    ("toois", Str("ACM Transactions on Office Information Systems")),
    ("toplas", Str("ACM Transactions on Programming Languages and Systems")),
    ("tcs", Str("Theoretical Computer Science"))
  ]

  /** `value.toString()` of a field value: only strings and numbers occur. */
  function ToStr(v: Value): string {
    match v
    case Str(s) => s
    case Num(n) => IntToString(n)
    case _ => ""
  }

  /** The closing brace that matches an opening one (`delimiters[openBrace]`). */
  function CloseOf(open: string): Option<string> {
    if open == "(" then Some(")") else if open == "{" then Some("}") else None
  }

  function Mismatch(open: string, close: string): string {
    "[plugin-bibtex] entry started with \"" + open + "\", but ends with \"" + close + "\""
  }

  /** A required `consumeToken(type)`. */
  function Need(c: Cursor, p: nat, k: Kind, log: seq<string>): (r: Result<(Token, nat), string>)
    requires p <= |c.toks|
    ensures r.Ok? ==> p < |c.toks| && c.toks[p].kind == k && r.value == (c.toks[p], p + 1)
    ensures r.Err? && MatchAt(c, p, k) ==> r.error == LexError
  {
    match Take(c, p, Some(k), false, log)
    case Err(e) => Err(e)
    case Ok((t, q)) => Ok((t.value, q))
  }

  /** `_`: white space and comments are passed over. */
  function Skip(c: Cursor, p: nat): (r: Result<nat, string>)
    requires p <= |c.toks|
    ensures r.Ok? ==> p <= r.value <= |c.toks|
    ensures r.Ok? ==> !MatchAt(c, r.value, Whitespace) && !MatchAt(c, r.value, Comment)
    ensures r.Ok? ==> forall i :: p <= i < r.value ==> c.toks[i].kind in {Whitespace, Comment}
    ensures r.Err? ==> r.error == LexError
    decreases |c.toks| - p
  {
    if MatchAt(c, p, Whitespace) || MatchAt(c, p, Comment) then
      match Advance(c, p)
      case Err(e) => Err(e)
      case Ok(q) => Skip(c, q)
    else Ok(p)
  }

  /** `Text`: a braced group with its braces, or the text of a text token. */
  function Text(c: Cursor, p: nat, log: seq<string>): (r: Result<(string, nat), string>)
    requires p <= |c.toks|
    ensures r.Ok? ==> p < r.value.1 <= |c.toks|
    decreases |c.toks| - p, 3
  {
    var lg := log + ["Text"];
    if MatchAt(c, p, LBrace) then
      match Bracket(c, p, lg)
      case Err(e) => Err(e)
      case Ok((s, q)) => Ok(("{" + s + "}", q))
    else
      match Need(c, p, BibtexLexer.Text, lg)
      case Err(e) => Err(e)
      case Ok((t, q)) => Ok((t.value, q))
  }

  /** `BracketString`: the texts between a brace and its closing brace. */
  function Bracket(c: Cursor, p: nat, log: seq<string>): (r: Result<(string, nat), string>)
    requires p <= |c.toks|
    ensures r.Ok? ==> p < r.value.1 <= |c.toks|
    decreases |c.toks| - p, 2
  {
    var lg := log + ["BracketString"];
    match Need(c, p, LBrace, lg)
    case Err(e) => Err(e)
    case Ok((_, p1)) =>
      match BracketLoop(c, p1, "", lg)
      case Err(e) => Err(e)
      case Ok((s, p2)) =>
        match Need(c, p2, RBrace, lg)
        case Err(e) => Err(e)
        case Ok((_, p3)) => Ok((s, p3))
  }

  /** The loop of `BracketString`: texts up to a closing brace, which is left in place. */
  function BracketLoop(c: Cursor, p: nat, acc: string, log: seq<string>): (r: Result<(string, nat), string>)
    requires p <= |c.toks|
    ensures r.Ok? ==> p <= r.value.1 <= |c.toks| && MatchAt(c, r.value.1, RBrace)
    decreases |c.toks| - p, 4
  {
    if MatchAt(c, p, RBrace) then Ok((acc, p))
    else
      match Text(c, p, log)
      case Err(e) => Err(e)
      case Ok((t, q)) => BracketLoop(c, q, acc + t, log)
  }

  /** `QuoteString`: the texts between two quotes. */
  function Quote(c: Cursor, p: nat, log: seq<string>): (r: Result<(string, nat), string>)
    requires p <= |c.toks|
    ensures r.Ok? ==> p < r.value.1 <= |c.toks|
    decreases |c.toks| - p, 2
  {
    var lg := log + ["QuoteString"];
    match Need(c, p, BibtexLexer.Quote, lg)
    case Err(e) => Err(e)
    case Ok((_, p1)) =>
      match QuoteLoop(c, p1, "", lg)
      case Err(e) => Err(e)
      case Ok((s, p2)) =>
        match Need(c, p2, BibtexLexer.Quote, lg)
        case Err(e) => Err(e)
        case Ok((_, p3)) => Ok((s, p3))
  }

  /** The loop of `QuoteString`: texts up to a quote, which is left in place. */
  function QuoteLoop(c: Cursor, p: nat, acc: string, log: seq<string>): (r: Result<(string, nat), string>)
    requires p <= |c.toks|
    ensures r.Ok? ==> p <= r.value.1 <= |c.toks| && MatchAt(c, r.value.1, BibtexLexer.Quote)
    decreases |c.toks| - p, 4
  {
    if MatchAt(c, p, BibtexLexer.Quote) then Ok((acc, p))
    else
      match Text(c, p, log)
      case Err(e) => Err(e)
      case Ok((t, q)) => QuoteLoop(c, q, acc + t, log)
  }

  /** `this.state.strings[name.toLowerCase()] || ''`. */
  function Macro(strings: Props<Value>, name: string): (v: Value)
    ensures (var d := Get(strings, ToLower(name)); if d.Some? && Truthy(d.value) then v == d.value else v == Str(""))
  {
    var d := Get(strings, ToLower(name));
    if d.Some? && Truthy(d.value) then d.value else Str("")
  }

  /** `ExpressionPart`: a macro, a number, a quoted or a braced string. A
      number token is always `-?\d+`, so `parseInt` reads a number from it. */
  function Part(c: Cursor, p: nat, strings: Props<Value>, log: seq<string>): (r: Result<(Value, nat), string>)
    requires p <= |c.toks|
    ensures r.Ok? ==> p < r.value.1 <= |c.toks|
    ensures r.Ok? && MatchAt(c, p, Identifier) ==> r.value == (Macro(strings, c.toks[p].value), p + 1)
    ensures r.Ok? && MatchAt(c, p, Number) ==> r.value == (Num(ParseInt(c.toks[p].value).GetOr(0)), p + 1)
    ensures r.Ok? && !MatchAt(c, p, Identifier) && !MatchAt(c, p, Number) ==> r.value.0.Str?
    decreases |c.toks| - p, 5
  {
    var lg := log + ["ExpressionPart"];
    if MatchAt(c, p, Identifier) then
      match Need(c, p, Identifier, lg)
      case Err(e) => Err(e)
      case Ok((t, q)) => Ok((Macro(strings, t.value), q))
    else if MatchAt(c, p, Number) then
      match Need(c, p, Number, lg)
      case Err(e) => Err(e)
      case Ok((t, q)) => Ok((Num(ParseInt(t.value).GetOr(0)), q))
    else if MatchAt(c, p, BibtexLexer.Quote) then
      match Quote(c, p, lg)
      case Err(e) => Err(e)
      case Ok((s, q)) => Ok((Str(s), q))
    else
      match Bracket(c, p, lg)
      case Err(e) => Err(e)
      case Ok((s, q)) => Ok((Str(s), q))
  }

  /** `Expression`: parts joined by `#`, concatenated as strings once there are two. */
  function Expr(c: Cursor, p: nat, strings: Props<Value>, log: seq<string>): (r: Result<(Value, nat), string>)
    requires p <= |c.toks|
    ensures r.Ok? ==> p < r.value.1 <= |c.toks|
    decreases |c.toks| - p, 6
  {
    var lg := log + ["Expression"];
    match Part(c, p, strings, lg)
    case Err(e) => Err(e)
    case Ok((v, p1)) =>
      match Skip(c, p1)
      case Err(e) => Err(e)
      case Ok(p2) => ExprLoop(c, p2, strings, v, lg)
  }

  /** The `#` loop of `Expression`. */
  function ExprLoop(c: Cursor, p: nat, strings: Props<Value>, acc: Value, log: seq<string>): (r: Result<(Value, nat), string>)
    requires p <= |c.toks|
    ensures r.Ok? ==> p <= r.value.1 <= |c.toks| && !MatchAt(c, r.value.1, Hash)
    ensures r.Ok? && r.value.1 > p ==> r.value.0.Str?
    decreases |c.toks| - p, 6
  {
    if MatchAt(c, p, Hash) then
      match Need(c, p, Hash, log)
      case Err(e) => Err(e)
      case Ok((_, p1)) =>
        match Skip(c, p1)
        case Err(e) => Err(e)
        case Ok(p2) =>
          match Part(c, p2, strings, log)
          case Err(e) => Err(e)
          case Ok((v, p3)) =>
            match Skip(c, p3)
            case Err(e) => Err(e)
            case Ok(p4) => ExprLoop(c, p4, strings, Str(ToStr(acc) + ToStr(v)), log)
    else Ok((acc, p))
  }

  /** `Field`: a field name in lower case and its value. */
  function Field(c: Cursor, p: nat, strings: Props<Value>, log: seq<string>): (r: Result<((string, Value), nat), string>)
    requires p <= |c.toks|
    ensures r.Ok? ==> p < r.value.1 <= |c.toks|
    ensures r.Ok? ==> MatchAt(c, p, Identifier) && r.value.0.0 == ToLower(c.toks[p].value)
    decreases |c.toks| - p, 7
  {
    var lg := log + ["Field"];
    match Need(c, p, Identifier, lg)
    case Err(e) => Err(e)
    case Ok((t, p1)) =>
      match Skip(c, p1)
      case Err(e) => Err(e)
      case Ok(p2) =>
        match Need(c, p2, Equals, lg)
        case Err(e) => Err(e)
        case Ok((_, p3)) =>
          match Skip(c, p3)
          case Err(e) => Err(e)
          case Ok(p4) =>
            match Expr(c, p4, strings, lg)
            case Err(e) => Err(e)
            case Ok((v, p5)) => Ok(((ToLower(t.value), v), p5))
  }

  /** The first piece of a split is where the text starts, and when the
      separator occurs the second piece follows it. */
  lemma SplitPrefix(s: string, sep: string)
    requires |sep| > 0
    ensures StartsWith(s, Split(s, sep)[0])
    ensures Includes(s, sep) ==> |Split(s, sep)| >= 2 && StartsWith(s, Split(s, sep)[0] + sep + Split(s, sep)[1])
  {
    var i := IndexOf(s, sep);
    if i >= 0 {
      var rest := s[i + |sep|..];
      var q := Split(rest, sep)[0];
      SplitPrefix(rest, sep);
      assert s == s[..i] + sep + rest;
      assert rest == q + rest[|q|..];
      assert s == (s[..i] + sep + q) + rest[|q|..];
    }
  }

  /** The annotation a field name stands for: the annotated field and the
      annotation's name, or `None` for a plain field. */
  function AnnotationOf(field: string, m: Markers): (r: Option<(string, string)>)
    ensures r.Some? ==> r.value.0 != ""
    ensures r.Some? && EndsWith(field, m.annotation) ==> field == r.value.0 + m.annotation && r.value.1 == "default"
    ensures r.Some? && !EndsWith(field, m.annotation) ==>
      Includes(field, m.annotation + m.named) && StartsWith(field, r.value.0 + m.annotation + m.named + r.value.1)
  {
    if EndsWith(field, m.annotation) then MarkedAtEnd(field, m.annotation)
    else if Includes(field, m.annotation + m.named) then
      assert m.annotation != "" by {
        assert EndsWith(field, "");
      }
      var r := NamedAnnotation(field, m.annotation + m.named);
      assert r.Some? ==> r.value.0 + m.annotation + m.named == r.value.0 + (m.annotation + m.named);
      r
    else None
  }

  /** A field name ending in the annotation marker: the field before it,
      under the name `default`. */
  function MarkedAtEnd(field: string, marker: string): (r: Option<(string, string)>)
    requires EndsWith(field, marker)
    ensures r.Some? ==> r.value.0 != "" && field == r.value.0 + marker && r.value.1 == "default"
  {
    var f := if marker == "" then "" else field[..|field| - |marker|];
    assert marker != "" ==> field == f + marker;
    if f != "" then Some((f, "default")) else None
  }

  /** A field name holding the annotation and name markers: the field
      before them and the name after them, up to any further marker. */
  function NamedAnnotation(field: string, sep: string): (r: Option<(string, string)>)
    requires sep != "" && Includes(field, sep)
    ensures r.Some? ==> r.value.0 != "" && StartsWith(field, r.value.0 + sep + r.value.1)
  {
    SplitPrefix(field, sep);
    var parts := Split(field, sep);
    if parts[0] != "" then Some((parts[0], parts[1])) else None
  }

  /** A field name with the annotation marker at its end annotates the field
      before the marker, under the name `default`. */
  lemma AnnotationOfMarked(f: string, m: Markers)
    requires f != "" && m.annotation != ""
    ensures AnnotationOf(f + m.annotation, m) == Some((f, "default"))
  {
    var field := f + m.annotation;
    assert field[|field| - |m.annotation|..] == m.annotation;
    assert field[..|field| - |m.annotation|] == f;
  }

  /** One field of `EntryBody` stored: as an annotation or as a property. */
  function Place(out: Fields, field: string, value: Value, m: Markers): (r: Fields)
    ensures AnnotationOf(field, m).None? ==> r.annotations == out.annotations && Get(r.properties, field) == Some(value)
    ensures AnnotationOf(field, m).Some? ==> (r.properties == out.properties && r.annotations.Some? &&
      var (f, n) := AnnotationOf(field, m).value;
      Get(r.annotations.value, f).Some? && Get(Get(r.annotations.value, f).value, n) == Some(value))
  {
    match AnnotationOf(field, m)
    case None =>
      SetGet(out.properties, field, value, field);
      out.(properties := Set(out.properties, field, value))
    case Some((f, n)) =>
      var annots := out.annotations.GetOr([]);
      var inner := Get(annots, f).GetOr([]);
      SetGet(inner, n, value, n);
      SetGet(annots, f, Set(inner, n, value), f);
      Fields(out.properties, Some(Set(annots, f, Set(inner, n, value))))
  }

  /** The loop of `EntryBody`: fields separated by commas. */
  function BodyLoop(c: Cursor, p: nat, strings: Props<Value>, out: Fields, log: seq<string>, m: Markers): (r: Result<(Fields, nat), string>)
    requires p <= |c.toks|
    ensures r.Ok? ==> p <= r.value.1 <= |c.toks|
    decreases |c.toks| - p, 8
  {
    if MatchAt(c, p, Identifier) then
      match Field(c, p, strings, log)
      case Err(e) => Err(e)
      case Ok(((field, value), p1)) =>
        var out' := Place(out, field, value, m);
        match Skip(c, p1)
        case Err(e) => Err(e)
        case Ok(p2) =>
          match Take(c, p2, Some(Comma), true, log)
          case Err(e) => Err(e)
          case Ok((t, p3)) =>
            if t.Some? then
              match Skip(c, p3)
              case Err(e) => Err(e)
              case Ok(p4) => BodyLoop(c, p4, strings, out', log, m)
            else Ok((out', p3))
    else Ok((out, p))
  }

  /** The start of `Entry`: `@`, the type in lower case and the opening
      brace, with the space between them passed over. */
  function EntryHead(c: Cursor, p: nat, lg: seq<string>): (r: Result<(string, string, nat), string>)
    requires p <= |c.toks|
    ensures r.Ok? ==> p < r.value.2 <= |c.toks| && MatchAt(c, p, At)
    decreases |c.toks| - p
  {
    match Need(c, p, At, lg)
    case Err(e) => Err(e)
    case Ok((_, p1)) =>
      match Skip(c, p1)
      case Err(e) => Err(e)
      case Ok(p2) =>
        match Need(c, p2, if MatchAt(c, p2, OtherEntryType) then OtherEntryType else DataEntryType, lg)
        case Err(e) => Err(e)
        case Ok((t, p3)) =>
          match Skip(c, p3)
          case Err(e) => Err(e)
          case Ok(p4) =>
            match Need(c, p4, LBrace, lg)
            case Err(e) => Err(e)
            case Ok((ob, p5)) =>
              match Skip(c, p5)
              case Err(e) => Err(e)
              case Ok(p6) => Ok((ToLower(t.value), ob.value, p6))
  }

  /** The end of `Entry`: the closing brace after any space, and the
      warning when it is not the one that matches the opening brace. */
  function EntryClose(c: Cursor, p: nat, open: string, warnings: seq<string>, lg: seq<string>): (r: Result<(seq<string>, nat), string>)
    requires p <= |c.toks|
    ensures r.Ok? ==> p < r.value.1 <= |c.toks| && MatchAt(c, r.value.1 - 1, RBrace)
    ensures r.Ok? ==> var close := c.toks[r.value.1 - 1].value;
      r.value.0 == if CloseOf(open) == Some(close) then warnings else warnings + [Mismatch(open, close)]
  {
    match Skip(c, p)
    case Err(e) => Err(e)
    case Ok(p1) =>
      match Need(c, p1, RBrace, lg)
      case Err(e) => Err(e)
      case Ok((cb, p2)) =>
        Ok((if CloseOf(open) != Some(cb.value) then warnings + [Mismatch(open, cb.value)] else warnings, p2))
  }

  /** `Entry`: `@type{label, fields}`, an `@string` macro or an `@preamble`. */
  function Entry(c: Cursor, st: St, log: seq<string>, m: Markers): (r: Result<(Option<BibEntry>, St), string>)
    requires st.pos <= |c.toks|
    ensures r.Ok? ==> st.pos < r.value.1.pos <= |c.toks| && MatchAt(c, st.pos, At)
    ensures r.Ok? && r.value.0.Some? ==>
      r.value.0.value.entryType != "string" && r.value.0.value.entryType != "preamble" && r.value.1.strings == st.strings
    ensures r.Ok? ==> r.value.1.warnings == st.warnings || exists w :: r.value.1.warnings == st.warnings + [w]
    decreases |c.toks| - st.pos, 9
  {
    var lg := log + ["Entry"];
    match EntryHead(c, st.pos, lg)
    case Err(e) => Err(e)
    case Ok((ty, open, p1)) =>
      match EntryContent(c, p1, st.strings, ty, lg, m)
      case Err(e) => Err(e)
      case Ok((res, strings, p2)) =>
        match EntryClose(c, p2, open, st.warnings, lg)
        case Err(e) => Err(e)
        case Ok((warnings, p3)) => Ok((res, St(p3, strings, warnings)))
  }

  /** What follows the opening brace of an entry of type `ty`: a macro
      definition, a preamble, or a label and the fields. */
  function EntryContent(c: Cursor, p: nat, strings: Props<Value>, ty: string, lg: seq<string>, m: Markers): (r: Result<(Option<BibEntry>, Props<Value>, nat), string>)
    requires p <= |c.toks|
    ensures r.Ok? ==> p <= r.value.2 <= |c.toks|
    ensures r.Ok? && ty == "string" ==> (r.value.0.None? && MatchAt(c, p, Identifier) &&
      exists v :: r.value.1 == Set(strings, ToLower(c.toks[p].value), v))
    ensures r.Ok? && ty != "string" ==> r.value.1 == strings
    ensures r.Ok? && (ty == "string" || ty == "preamble") ==> r.value.0.None?
    ensures r.Ok? && ty != "string" && ty != "preamble" ==> r.value.0.Some? && r.value.0.value.entryType == ty
    decreases |c.toks| - p, 8
  {
    if ty == "string" then
      match Field(c, p, strings, lg)
      case Err(e) => Err(e)
      case Ok(((key, value), q)) => Ok((None, Set(strings, key, value), q))
    else if ty == "preamble" then
      match Expr(c, p, strings, lg)
      case Err(e) => Err(e)
      case Ok((_, q)) => Ok((None, strings, q))
    else
      match Need(c, p, Label, lg)
      case Err(e) => Err(e)
      case Ok((lb, p1)) =>
        match Skip(c, p1)
        case Err(e) => Err(e)
        case Ok(p2) =>
          match Need(c, p2, Comma, lg)
          case Err(e) => Err(e)
          case Ok((_, p3)) =>
            match Skip(c, p3)
            case Err(e) => Err(e)
            case Ok(p4) =>
              match BodyLoop(c, p4, strings, Fields([], None), lg + ["EntryBody"], m)
              case Err(e) => Err(e)
              case Ok((b, q)) => Ok((Some(BibEntry(ty, lb.value, b.properties, b.annotations)), strings, q))
  }

  /** The `junk` loop of `Main`. */
  function SkipJunk(c: Cursor, p: nat): (r: Result<nat, string>)
    requires p <= |c.toks|
    ensures r.Ok? ==> p <= r.value <= |c.toks| && !MatchAt(c, r.value, Junk)
    ensures r.Ok? ==> forall i :: p <= i < r.value ==> c.toks[i].kind == Junk
    decreases |c.toks| - p
  {
    if MatchAt(c, p, Junk) then
      match Advance(c, p)
      case Err(e) => Err(e)
      case Ok(q) => SkipJunk(c, q)
    else Ok(p)
  }

  /** The loop of `Main`: entries up to the end of the file, junk between them. */
  function MainLoop(c: Cursor, st: St, acc: seq<Option<BibEntry>>, log: seq<string>, m: Markers): (r: Result<(seq<Option<BibEntry>>, St), string>)
    requires st.pos <= |c.toks|
    ensures r.Ok? ==> r.value.1.pos == |c.toks| && |acc| <= |r.value.0| && r.value.0[..|acc|] == acc
    decreases |c.toks| - st.pos, 10
  {
    match SkipJunk(c, st.pos)
    case Err(e) => Err(e)
    case Ok(q) =>
      if q >= |c.toks| then Ok((acc, st.(pos := q)))
      else
        match Entry(c, st.(pos := q), log + ["Main"], m)
        case Err(e) => Err(e)
        case Ok((e, st2)) =>
          var r := MainLoop(c, st2, acc + [e], log, m);
          assert r.Ok? ==> r.value.0[..|acc|] == (acc + [e])[..|acc|] by {
            if r.Ok? {
              assert r.value.0[..|acc|] == r.value.0[..|acc + [e]|][..|acc|];
            }
          }
          r
  }

  /** `entries.filter(Boolean)`: the entries that are not macros or preambles. */
  function Present(es: seq<Option<BibEntry>>): (r: seq<BibEntry>)
    ensures |r| <= |es|
    ensures forall i :: 0 <= i < |es| && es[i].Some? ==> es[i].value in r
    ensures forall e :: e in r ==> Some(e) in es
  {
    if es == [] then []
    else (if es[0].Some? then [es[0].value] else []) + Present(es[1..])
  }

  /** `parse(text)`: the entries of a BibTeX file and the warnings it gives. */
  function ParseFile(text: string, m: Markers): Result<(seq<BibEntry>, seq<string>), string> {
    var lx := Tokenize(text);
    if lx.tokens == [] && !lx.complete then Err(LexError)
    else
      match MainLoop(Cursor(lx.tokens, lx.complete), St(0, DefaultStrings, []), [], [], m)
      case Err(e) => Err(e)
      case Ok((es, st)) => Ok((Present(es), st.warnings))
  }
}
