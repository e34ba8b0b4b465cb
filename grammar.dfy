// `Grammar`: a recursive-descent parser's cursor over a lexer's tokens. It
// holds the current token, the parser's state (here the table of `@string`
// macros) and the log of the rules being applied, which a syntax error
// reports.

module GrammarUtil {
  import opened Base
  import opened JsObject
  import opened JsValue
  import opened BibtexLexer

  /** The lexer's output as the parser pulls it: `toks[p]` is the current
      token at position `p`; after the last token either the text ended or
      the lexer throws. */
  datatype Cursor = Cursor(toks: seq<Token>, complete: bool)

  const LexError := "Error: invalid syntax"

  /** `this.token` at position `p`: `undefined` past the last token. */
  function TokenAt(c: Cursor, p: nat): Option<Token> {
    if p < |c.toks| then Some(c.toks[p]) else None
  }

  /** `matchToken(type)`. */
  predicate MatchAt(c: Cursor, p: nat, k: Kind) {
    p < |c.toks| && c.toks[p].kind == k
  }

  /** `this.token = this.lexer.next()`: the next position, or the lexer's
      error when no rule matches there. */
  function Advance(c: Cursor, p: nat): (r: Result<nat, string>)
    requires p < |c.toks|
    ensures r.Ok? ==> r.value == p + 1
    ensures r.Err? <==> p + 1 == |c.toks| && !c.complete
  {
    if p + 1 == |c.toks| && !c.complete then Err(LexError) else Ok(p + 1)
  }

  /** The message of a failed `consumeToken(type)`: the expected and the
      actual token type, and the rules being applied. */
  function Expected(k: Kind, c: Cursor, p: nat, log: seq<string>): string {
    var got := if p < |c.toks| then "\"" + KindName(c.toks[p].kind) + "\"" else "EOF";
    "SyntaxError: expected \"" + KindName(k) + "\", got " + got + " (" + Join(log, "->") + ")"
  }

  /** `consumeToken(type, optional)` from position `p`: the consumed token and
      the new position; an optional consume that does not match takes
      nothing; a required one throws. With no type any token is taken. */
  function Take(c: Cursor, p: nat, k: Option<Kind>, optional: bool, log: seq<string>): (r: Result<(Option<Token>, nat), string>)
    requires p <= |c.toks|
    ensures r.Ok? ==> r.value.1 <= |c.toks|
    ensures r.Ok? && r.value.0.Some? ==> p < |c.toks| && r.value == (Some(c.toks[p]), p + 1)
    ensures r.Ok? && r.value.0.None? ==> r.value.1 == p
    ensures r.Ok? && !optional ==> r.value.0.Some?
  {
    if p < |c.toks| && (k.None? || c.toks[p].kind == k.value) then
      match Advance(c, p)
      case Err(e) => Err(e)
      case Ok(q) => Ok((Some(c.toks[p]), q))
    else if optional then Ok((None, p))
    else Err(Expected(k.GetOr(Junk), c, p, log))
  }

  /** A matching token is consumed and the cursor moves on by one; a token
      that does not match is left in place by an optional consume and is a
      syntax error for a required one. */
  lemma TakeCases(c: Cursor, p: nat, k: Kind, optional: bool, log: seq<string>)
    requires p <= |c.toks|
    ensures MatchAt(c, p, k) && !(p + 1 == |c.toks| && !c.complete) ==>
      Take(c, p, Some(k), optional, log) == Ok((Some(c.toks[p]), p + 1))
    ensures MatchAt(c, p, k) && p + 1 == |c.toks| && !c.complete ==>
      Take(c, p, Some(k), optional, log) == Err(LexError)
    ensures !MatchAt(c, p, k) && optional ==> Take(c, p, Some(k), optional, log) == Ok((None, p))
    ensures !MatchAt(c, p, k) && !optional ==> Take(c, p, Some(k), optional, log) == Err(Expected(k, c, p, log))
  {
  }

  /** The cursor object. `strings` is the parser state (`this.state.strings`),
      `warnings` what the parser sent to the logger during this parse. */
  class Grammar {
    var toks: seq<Token>
    var complete: bool
    var pos: nat
    var strings: Props<Value>
    var log: seq<string>
    var warnings: seq<string>

    ghost predicate Valid()
      reads this
    {
      pos <= |toks|
    }

    function Cur(): Cursor
      reads this
    {
      Cursor(toks, complete)
    }

    constructor()
      ensures Valid() && toks == [] && complete && pos == 0 && log == [] && warnings == []
    {
      toks := [];
      complete := true;
      pos := 0;
      strings := [];
      log := [];
      warnings := [];
    }

    /** The start of `parse(iterator)`: the first token is read, the state
        is a copy of the default state and the log is cleared. */
    method Start(lexed: Lexed, defaultStrings: Props<Value>) returns (r: Result<(), string>)
      modifies this
      ensures Valid() && toks == lexed.tokens && complete == lexed.complete && pos == 0
      ensures strings == defaultStrings && log == [] && warnings == []
      ensures r.Err? <==> lexed.tokens == [] && !lexed.complete
      ensures r.Err? ==> r.error == LexError
    {
      toks := lexed.tokens;
      complete := lexed.complete;
      pos := 0;
      strings := defaultStrings;
      log := [];
      warnings := [];
      if toks == [] && !complete {
        return Err(LexError);
      }
      r := Ok(());
    }

    /** `matchEndOfFile()`. */
    predicate MatchEndOfFile()
      reads this
    {
      pos >= |toks|
    }

    /** `matchToken(type)`. */
    predicate MatchToken(k: Kind)
      reads this
    {
      MatchAt(Cur(), pos, k)
    }

    /** `consumeToken(type, optional)`. */
    method ConsumeToken(k: Option<Kind>, optional: bool) returns (r: Result<Option<Token>, string>)
      requires Valid()
      modifies this
      ensures Valid() && toks == old(toks) && complete == old(complete)
      ensures strings == old(strings) && log == old(log) && warnings == old(warnings)
      ensures var t := Take(Cur(), old(pos), k, optional, log);
        (t.Ok? ==> r == Ok(t.value.0) && pos == t.value.1) && (t.Err? ==> r == Err(t.error))
    {
      if pos < |toks| && (k.None? || toks[pos].kind == k.value) {
        var tok := toks[pos];
        if pos + 1 == |toks| && !complete {
          return Err(LexError);
        }
        pos := pos + 1;
        return Ok(Some(tok));
      } else if optional {
        return Ok(None);
      } else {
        return Err(Expected(k.GetOr(Junk), Cur(), pos, log));
      }
    }

    /** The `this.log.push(rule)` half of `consumeRule(rule)`. */
    method Enter(rule: string)
      modifies this
      ensures toks == old(toks) && complete == old(complete) && pos == old(pos)
      ensures strings == old(strings) && warnings == old(warnings)
      ensures log == old(log) + [rule]
    {
      log := log + [rule];
    }

    /** The `this.log.pop()` half of `consumeRule(rule)`. */
    method Leave()
      requires |log| >= 1
      modifies this
      ensures toks == old(toks) && complete == old(complete) && pos == old(pos)
      ensures strings == old(strings) && warnings == old(warnings)
      ensures log == old(log)[..|old(log)| - 1]
    {
      log := log[..|log| - 1];
    }
  }
}
