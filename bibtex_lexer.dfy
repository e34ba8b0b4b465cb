// The lexer state table of the BibTeX file parser: in each state the rules
// are tried in their order at the current position and the first that matches
// gives the next token; some tokens switch state (`next`), push the current
// state and enter another (`push`), or return to the pushed state (`pop`).

module BibtexLexer {
  import opened Base

  datatype LexState =
    | MainS           // between entries
    | EntryS          // after `@`
    | OtherContents   // after `@string` / `@preamble`
    | DataContents    // after a data entry type
    | FieldsS         // inside an entry's braces
    | QuotedS         // inside `"..."`
    | BracedS         // inside `{...}`

  datatype Kind =
    | Junk | At | Comment | Whitespace | OtherEntryType | DataEntryType
    | LBrace | Label | Comma | Identifier | Number | Hash | Equals | Quote
    | RBrace | Text

  /** A token: its type and the text it covers. */
  datatype Token = Token(kind: Kind, value: string)

  /** What the lexer yields: its tokens, and whether it reached the end of
      the text (`complete`) or stopped where no rule matches. */
  datatype Lexed = Lexed(tokens: seq<Token>, complete: bool)

  /** The type names the parser's messages use. */
  function KindName(k: Kind): string {
    match k
    case Junk => "junk"
    case At => "at"
    case Comment => "comment"
    case Whitespace => "whitespace"
    case OtherEntryType => "otherEntryType"
    case DataEntryType => "dataEntryType"
    case LBrace => "lbrace"
    case Label => "label"
    case Comma => "comma"
    case Identifier => "identifier"
    case Number => "number"
    case Hash => "hash"
    case Equals => "equals"
    case Quote => "quote"
    case RBrace => "rbrace"
    case Text => "text"
  }

  // ---------------------------------------------------------------------
  // Runs of characters

  /** The length of the longest run from `i` of characters that `p` accepts. */
  function RunFrom(s: string, i: nat, p: char -> bool): (n: nat)
    requires i <= |s|
    ensures i + n <= |s|
    ensures forall k :: i <= k < i + n ==> p(s[k])
    ensures i + n < |s| ==> !p(s[i + n])
    decreases |s| - i
  {
    if i < |s| && p(s[i]) then 1 + RunFrom(s, i + 1, p) else 0
  }

  /** `.` : anything but a line terminator. */
  predicate NotLineEnd(c: char) { !IsLineTerminator(c) }

  predicate IsIdentStart(c: char) { IsAsciiLetter(c) || c == '_' }

  /** `[a-zA-Z0-9_:+-]` */
  predicate IsIdentChar(c: char) { IsAsciiLetter(c) || IsDigit(c) || c == '_' || c == ':' || c == '+' || c == '-' }

  /** `[^,\s]` */
  predicate IsLabelChar(c: char) { c != ',' && !IsSpace(c) }

  /** `w` (lower-case letters) occurs at `i` in any letter case. */
  predicate CaselessAt(s: string, i: nat, w: string) {
    i + |w| <= |s| && ToLower(s[i..i + |w|]) == w
  }

  /** `(?:\\[\\{]|[^{"])+` : a backslash before a backslash or `{` is taken
      with it; otherwise any character but `{` and `"`. */
  function QuotedRun(s: string, i: nat): (n: nat)
    requires i <= |s|
    ensures i + n <= |s|
    decreases |s| - i
  {
    if i + 1 < |s| && s[i] == '\\' && (s[i + 1] == '\\' || s[i + 1] == '{') then 2 + QuotedRun(s, i + 2)
    else if i < |s| && s[i] != '{' && s[i] != '"' then 1 + QuotedRun(s, i + 1)
    else 0
  }

  /** `(?:\\[\\{}]|[^{}])+` */
  function BracedRun(s: string, i: nat): (n: nat)
    requires i <= |s|
    ensures i + n <= |s|
    decreases |s| - i
  {
    if i + 1 < |s| && s[i] == '\\' && (s[i + 1] == '\\' || s[i + 1] == '{' || s[i + 1] == '}') then 2 + BracedRun(s, i + 2)
    else if i < |s| && s[i] != '{' && s[i] != '}' then 1 + BracedRun(s, i + 1)
    else 0
  }

  // ---------------------------------------------------------------------
  // The rules of each state

  /** `junk`: `@comment` and the rest of its line (at least one character),
      or a run of anything but `@`. */
  function JunkLen(s: string, i: nat): (n: nat)
    requires i < |s|
    ensures i + n <= |s|
    ensures n == 0 <==> s[i] == '@' && !(CaselessAt(s, i + 1, "comment") && i + 8 < |s| && NotLineEnd(s[i + 8]))
  {
    if s[i] == '@' && CaselessAt(s, i + 1, "comment") && i + 8 < |s| && NotLineEnd(s[i + 8]) then
      8 + RunFrom(s, i + 8, NotLineEnd)
    else RunFrom(s, i, c => c != '@')
  }

  /** `comment` (`%` to the end of the line) and `whitespace`, shared by the
      states inside an entry head. */
  function Layout(s: string, i: nat): (r: Option<(Kind, nat)>)
    requires i < |s|
    ensures r.Some? ==> r.value.1 >= 1 && i + r.value.1 <= |s|
  {
    if s[i] == '%' then Some((Comment, 1 + RunFrom(s, i + 1, NotLineEnd)))
    else if IsSpace(s[i]) then Some((Whitespace, RunFrom(s, i, IsSpace)))
    else None
  }

  /** `-?\d+` */
  function NumberLen(s: string, i: nat): (n: nat)
    requires i < |s|
    ensures i + n <= |s|
  {
    if s[i] == '-' && i + 1 < |s| && IsDigit(s[i + 1]) then 1 + RunFrom(s, i + 1, IsDigit)
    else RunFrom(s, i, IsDigit)
  }

  /** The first rule of state `st` that matches at `i`: its token type and
      the length of its match. */
  function Match(st: LexState, s: string, i: nat): (r: Option<(Kind, nat)>)
    requires i < |s|
    ensures r.Some? ==> r.value.1 >= 1 && i + r.value.1 <= |s|
  {
    match st
    case MainS =>
      var j := JunkLen(s, i);
      if j > 0 then Some((Junk, j)) else Some((At, 1))
    case EntryS =>
      if Layout(s, i).Some? then Layout(s, i)
      else if CaselessAt(s, i, "string") then Some((OtherEntryType, 6))
      else if CaselessAt(s, i, "preamble") then Some((OtherEntryType, 8))
      else if IsIdentStart(s[i]) then Some((DataEntryType, 1 + RunFrom(s, i + 1, IsIdentChar)))
      else None
    case OtherContents =>
      if Layout(s, i).Some? then Layout(s, i)
      else if s[i] == '{' || s[i] == '(' then Some((LBrace, 1))
      else None
    case DataContents =>
      if Layout(s, i).Some? then Layout(s, i)
      else if s[i] == '{' || s[i] == '(' then Some((LBrace, 1))
      else if IsLabelChar(s[i]) then Some((Label, RunFrom(s, i, IsLabelChar)))
      else if s[i] == ',' then Some((Comma, 1))
      else None
    case FieldsS =>
      if Layout(s, i).Some? then Layout(s, i)
      else if IsIdentStart(s[i]) then Some((Identifier, 1 + RunFrom(s, i + 1, IsIdentChar)))
      else if NumberLen(s, i) > 0 then Some((Number, NumberLen(s, i)))
      else if s[i] == '#' then Some((Hash, 1))
      else if s[i] == '=' then Some((Equals, 1))
      else if s[i] == ',' then Some((Comma, 1))
      else if s[i] == '"' then Some((Quote, 1))
      else if s[i] == '{' then Some((LBrace, 1))
      else if s[i] == '}' || s[i] == ')' then Some((RBrace, 1))
      else None
    case QuotedS =>
      if s[i] == '{' then Some((LBrace, 1))
      else if s[i] == '"' then Some((Quote, 1))
      else if QuotedRun(s, i) > 0 then Some((Text, QuotedRun(s, i)))
      else None
    case BracedS =>
      if s[i] == '{' then Some((LBrace, 1))
      else if s[i] == '}' then Some((RBrace, 1))
      else if BracedRun(s, i) > 0 then Some((Text, BracedRun(s, i)))
      else None
  }

  /** The state change a token makes: the new state and stack, or `None` for
      a `pop` with nothing pushed. */
  function Move(st: LexState, k: Kind, stack: seq<LexState>): Option<(LexState, seq<LexState>)> {
    match (st, k)
    case (MainS, At) => Some((EntryS, stack + [MainS]))
    case (EntryS, OtherEntryType) => Some((OtherContents, stack))
    case (EntryS, DataEntryType) => Some((DataContents, stack))
    case (OtherContents, LBrace) => Some((FieldsS, stack))
    case (DataContents, Comma) => Some((FieldsS, stack))
    case (FieldsS, Quote) => Some((QuotedS, stack + [FieldsS]))
    case (FieldsS, LBrace) => Some((BracedS, stack + [FieldsS]))
    case (QuotedS, LBrace) => Some((BracedS, stack + [QuotedS]))
    case (BracedS, LBrace) => Some((BracedS, stack + [BracedS]))
    case (FieldsS, RBrace) => Pop(stack)
    case (QuotedS, Quote) => Pop(stack)
    case (BracedS, RBrace) => Pop(stack)
    case _ => Some((st, stack))
  }

  function Pop(stack: seq<LexState>): Option<(LexState, seq<LexState>)> {
    if stack == [] then None else Some((stack[|stack| - 1], stack[..|stack| - 1]))
  }

  /** The tokens from `i` on, in state `st` with the pushed states `stack`.
      No token is empty, and the tokens cover the text from `i` without gap
      or overlap: all of it when the lexer reaches the end, a prefix of it
      when it stops at a character no rule of the state matches. */
  function Lex(s: string, i: nat, st: LexState, stack: seq<LexState>): (r: Lexed)
    requires i <= |s|
    ensures forall k :: 0 <= k < |r.tokens| ==> r.tokens[k].value != []
    ensures Covers(s, i, r)
    decreases |s| - i
  {
    if i == |s| then Lexed([], true)
    else match Match(st, s, i)
      case None => Lexed([], false)
      case Some((k, n)) =>
        var tok := Token(k, s[i..i + n]);
        match Move(st, k, stack)
        case None =>
          CoverCons(s, i, n, tok, Lexed([], false), Lexed([tok], false));
          Lexed([tok], false)
        case Some((st', stack')) =>
          var rest := Lex(s, i + n, st', stack');
          CoverCons(s, i, n, tok, rest, Lexed([tok] + rest.tokens, rest.complete));
          Lexed([tok] + rest.tokens, rest.complete)
  }

  /** `lexer.reset(text)` and its tokens. */
  function Tokenize(s: string): Lexed {
    Lex(s, 0, MainS, [])
  }

  /** The text the tokens cover, end to end. */
  function Covered(ts: seq<Token>): string {
    if ts == [] then [] else ts[0].value + Covered(ts[1..])
  }

  lemma CoveredCons(tok: Token, rest: seq<Token>)
    ensures Covered([tok] + rest) == tok.value + Covered(rest)
  {
    assert ([tok] + rest)[1..] == rest;
  }

  lemma CoverStep(s: string, i: nat, n: nat, c: string, whole: bool)
    requires i + n <= |s|
    requires StartsWith(s[i + n..], c) && (whole ==> c == s[i + n..])
    ensures StartsWith(s[i..], s[i..i + n] + c) && (whole ==> s[i..i + n] + c == s[i..])
  {
    assert s[i..] == s[i..i + n] + s[i + n..];
    assert s[i..][..n + |c|] == s[i..i + n] + s[i + n..][..|c|];
  }

  /** `r` covers the text from `i` without gap or overlap: all of it when
      `r` is complete, a prefix of it otherwise. */
  predicate Covers(s: string, i: nat, r: Lexed)
    requires i <= |s|
  {
    StartsWith(s[i..], Covered(r.tokens)) && (r.complete ==> Covered(r.tokens) == s[i..])
  }

  /** One token in front of a covering run still covers the text, from one
      position earlier. */
  lemma CoverCons(s: string, i: nat, n: nat, tok: Token, rest: Lexed, r: Lexed)
    requires i + n <= |s| && tok.value == s[i..i + n]
    requires r == Lexed([tok] + rest.tokens, rest.complete)
    requires Covers(s, i + n, rest)
    ensures Covers(s, i, r)
  {
    CoveredCons(tok, rest.tokens);
    CoverStep(s, i, n, Covered(rest.tokens), rest.complete);
  }
}
