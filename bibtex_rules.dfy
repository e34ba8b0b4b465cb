// The rules of `bibtexGrammar` as the parser runs them: methods that move
// the shared `Grammar` cursor, push and pop the rule log, assign the macro
// table and send warnings. Each is proved to do what the rule's function
// in `BibtexFile` gives.

module BibtexRules {
  import opened Base
  import opened JsObject
  import opened JsValue
  import opened BibtexLexer
  import opened GrammarUtil
  import F = BibtexFile

  /** A required `consumeToken(type)`. */
  method Need(g: Grammar, k: Kind) returns (r: Result<Token, string>)
    requires g.Valid()
    modifies g
    ensures g.Valid() && g.toks == old(g.toks) && g.complete == old(g.complete)
    ensures g.strings == old(g.strings) && g.warnings == old(g.warnings) && g.log == old(g.log)
    ensures var f := F.Need(g.Cur(), old(g.pos), k, g.log);
      (f.Ok? ==> r == Ok(f.value.0) && g.pos == f.value.1) && (f.Err? ==> r == Err(f.error))
  {
    var t := g.ConsumeToken(Some(k), false);
    if t.Err? {
      return Err(t.error);
    }
    r := Ok(t.value.value);
  }

  /** `_`: white space and comments are consumed until a round consumes nothing. */
  method Layout(g: Grammar) returns (r: Result<(), string>)
    requires g.Valid()
    modifies g
    ensures g.Valid() && g.toks == old(g.toks) && g.complete == old(g.complete)
    ensures g.strings == old(g.strings) && g.warnings == old(g.warnings)
    ensures var f := F.Skip(g.Cur(), old(g.pos));
      (f.Ok? ==> r.Ok? && g.pos == f.value && g.log == old(g.log)) && (f.Err? ==> r == Err(f.error))
  {
    g.Enter("_");
    var moved := true;
    while moved
      invariant g.Valid() && g.toks == old(g.toks) && g.complete == old(g.complete)
      invariant g.strings == old(g.strings) && g.warnings == old(g.warnings) && g.log == old(g.log) + ["_"]
      invariant F.Skip(g.Cur(), old(g.pos)) == F.Skip(g.Cur(), g.pos)
      invariant !moved ==> !g.MatchToken(Whitespace) && !g.MatchToken(Comment)
      decreases |g.toks| - g.pos, if moved then 1 else 0
    {
      var start := g.pos;
      var a := g.ConsumeToken(Some(Whitespace), true);
      if a.Err? {
        return Err(a.error);
      }
      var b := g.ConsumeToken(Some(Comment), true);
      if b.Err? {
        return Err(b.error);
      }
      moved := g.pos != start;
    }
    g.Leave();
    r := Ok(());
  }

  /** `Text`. */
  method Text(g: Grammar) returns (r: Result<string, string>)
    requires g.Valid()
    modifies g
    ensures g.Valid() && g.toks == old(g.toks) && g.complete == old(g.complete)
    ensures g.strings == old(g.strings) && g.warnings == old(g.warnings)
    ensures var f := F.Text(g.Cur(), old(g.pos), old(g.log));
      (f.Ok? ==> r == Ok(f.value.0) && g.pos == f.value.1 && g.log == old(g.log)) && (f.Err? ==> r == Err(f.error))
    decreases |g.toks| - g.pos, 3
  {
    g.Enter("Text");
    if g.MatchToken(LBrace) {
      var b := BracketString(g);
      if b.Err? {
        return Err(b.error);
      }
      r := Ok("{" + b.value + "}");
    } else {
      var t := Need(g, BibtexLexer.Text);
      if t.Err? {
        return Err(t.error);
      }
      r := Ok(t.value.value);
    }
    g.Leave();
  }

  /** `BracketString`. */
  method BracketString(g: Grammar) returns (r: Result<string, string>)
    requires g.Valid()
    modifies g
    ensures g.Valid() && g.toks == old(g.toks) && g.complete == old(g.complete)
    ensures g.strings == old(g.strings) && g.warnings == old(g.warnings)
    ensures var f := F.Bracket(g.Cur(), old(g.pos), old(g.log));
      (f.Ok? ==> r == Ok(f.value.0) && g.pos == f.value.1 && g.log == old(g.log)) && (f.Err? ==> r == Err(f.error))
    decreases |g.toks| - g.pos, 2
  {
    g.Enter("BracketString");
    var output := "";
    var open := Need(g, LBrace);
    if open.Err? {
      return Err(open.error);
    }
    ghost var p1 := g.pos;
    while !g.MatchToken(RBrace)
      invariant g.Valid() && g.toks == old(g.toks) && g.complete == old(g.complete)
      invariant g.strings == old(g.strings) && g.warnings == old(g.warnings) && g.log == old(g.log) + ["BracketString"]
      invariant old(g.pos) < p1 <= g.pos
      invariant F.BracketLoop(g.Cur(), p1, "", g.log) == F.BracketLoop(g.Cur(), g.pos, output, g.log)
      decreases |g.toks| - g.pos
    {
      var t := Text(g);
      if t.Err? {
        return Err(t.error);
      }
      output := output + t.value;
    }
    var close := Need(g, RBrace);
    if close.Err? {
      return Err(close.error);
    }
    g.Leave();
    r := Ok(output);
  }

  /** `QuoteString`. */
  method QuoteString(g: Grammar) returns (r: Result<string, string>)
    requires g.Valid()
    modifies g
    ensures g.Valid() && g.toks == old(g.toks) && g.complete == old(g.complete)
    ensures g.strings == old(g.strings) && g.warnings == old(g.warnings)
    ensures var f := F.Quote(g.Cur(), old(g.pos), old(g.log));
      (f.Ok? ==> r == Ok(f.value.0) && g.pos == f.value.1 && g.log == old(g.log)) && (f.Err? ==> r == Err(f.error))
  {
    g.Enter("QuoteString");
    var output := "";
    var open := Need(g, BibtexLexer.Quote);
    if open.Err? {
      return Err(open.error);
    }
    ghost var p1 := g.pos;
    while !g.MatchToken(BibtexLexer.Quote)
      invariant g.Valid() && g.toks == old(g.toks) && g.complete == old(g.complete)
      invariant g.strings == old(g.strings) && g.warnings == old(g.warnings) && g.log == old(g.log) + ["QuoteString"]
      invariant p1 <= g.pos
      invariant F.QuoteLoop(g.Cur(), p1, "", g.log) == F.QuoteLoop(g.Cur(), g.pos, output, g.log)
      decreases |g.toks| - g.pos
    {
      var t := Text(g);
      if t.Err? {
        return Err(t.error);
      }
      output := output + t.value;
    }
    var close := Need(g, BibtexLexer.Quote);
    if close.Err? {
      return Err(close.error);
    }
    g.Leave();
    r := Ok(output);
  }

  /** `ExpressionPart`. */
  method ExpressionPart(g: Grammar) returns (r: Result<Value, string>)
    requires g.Valid()
    modifies g
    ensures g.Valid() && g.toks == old(g.toks) && g.complete == old(g.complete)
    ensures g.strings == old(g.strings) && g.warnings == old(g.warnings)
    ensures var f := F.Part(g.Cur(), old(g.pos), g.strings, old(g.log));
      (f.Ok? ==> r == Ok(f.value.0) && g.pos == f.value.1 && g.log == old(g.log)) && (f.Err? ==> r == Err(f.error))
  {
    g.Enter("ExpressionPart");
    if g.MatchToken(Identifier) {
      var t := Need(g, Identifier);
      if t.Err? {
        return Err(t.error);
      }
      r := Ok(F.Macro(g.strings, t.value.value));
    } else if g.MatchToken(Number) {
      var t := Need(g, Number);
      if t.Err? {
        return Err(t.error);
      }
      r := Ok(Num(ParseInt(t.value.value).GetOr(0)));
    } else if g.MatchToken(BibtexLexer.Quote) {
      var s := QuoteString(g);
      if s.Err? {
        return Err(s.error);
      }
      r := Ok(Str(s.value));
    } else {
      var s := BracketString(g);
      if s.Err? {
        return Err(s.error);
      }
      r := Ok(Str(s.value));
    }
    g.Leave();
  }

  /** `Expression`. */
  method Expression(g: Grammar) returns (r: Result<Value, string>)
    requires g.Valid()
    modifies g
    ensures g.Valid() && g.toks == old(g.toks) && g.complete == old(g.complete)
    ensures g.strings == old(g.strings) && g.warnings == old(g.warnings)
    ensures var f := F.Expr(g.Cur(), old(g.pos), g.strings, old(g.log));
      (f.Ok? ==> r == Ok(f.value.0) && g.pos == f.value.1 && g.log == old(g.log)) && (f.Err? ==> r == Err(f.error))
  {
    g.Enter("Expression");
    var first := ExpressionPart(g);
    if first.Err? {
      return Err(first.error);
    }
    var s := Layout(g);
    if s.Err? {
      return Err(s.error);
    }
    var output := first.value;
    ghost var p2 := g.pos;
    ghost var v0 := output;
    while g.MatchToken(Hash)
      invariant g.Valid() && g.toks == old(g.toks) && g.complete == old(g.complete)
      invariant g.strings == old(g.strings) && g.warnings == old(g.warnings) && g.log == old(g.log) + ["Expression"]
      invariant p2 <= g.pos
      invariant F.ExprLoop(g.Cur(), p2, g.strings, v0, g.log) == F.ExprLoop(g.Cur(), g.pos, g.strings, output, g.log)
      decreases |g.toks| - g.pos
    {
      var h := Need(g, Hash);
      if h.Err? {
        return Err(h.error);
      }
      s := Layout(g);
      if s.Err? {
        return Err(s.error);
      }
      var part := ExpressionPart(g);
      if part.Err? {
        return Err(part.error);
      }
      output := Str(F.ToStr(output) + F.ToStr(part.value));
      s := Layout(g);
      if s.Err? {
        return Err(s.error);
      }
    }
    g.Leave();
    r := Ok(output);
  }

  /** `Field`. */
  method Field(g: Grammar) returns (r: Result<(string, Value), string>)
    requires g.Valid()
    modifies g
    ensures g.Valid() && g.toks == old(g.toks) && g.complete == old(g.complete)
    ensures g.strings == old(g.strings) && g.warnings == old(g.warnings)
    ensures var f := F.Field(g.Cur(), old(g.pos), g.strings, old(g.log));
      (f.Ok? ==> r == Ok(f.value.0) && g.pos == f.value.1 && g.log == old(g.log)) && (f.Err? ==> r == Err(f.error))
  {
    g.Enter("Field");
    var name := Need(g, Identifier);
    if name.Err? {
      return Err(name.error);
    }
    var s := Layout(g);
    if s.Err? {
      return Err(s.error);
    }
    var eq := Need(g, Equals);
    if eq.Err? {
      return Err(eq.error);
    }
    s := Layout(g);
    if s.Err? {
      return Err(s.error);
    }
    var value := Expression(g);
    if value.Err? {
      return Err(value.error);
    }
    g.Leave();
    r := Ok((ToLower(name.value.value), value.value));
  }

  /** `EntryBody`: each field goes to the properties or, by its name, to the annotations. */
  method EntryBody(g: Grammar, m: F.Markers) returns (r: Result<F.Fields, string>)
    requires g.Valid()
    modifies g
    ensures g.Valid() && g.toks == old(g.toks) && g.complete == old(g.complete)
    ensures g.strings == old(g.strings) && g.warnings == old(g.warnings)
    ensures var f := F.BodyLoop(g.Cur(), old(g.pos), g.strings, F.Fields([], None), old(g.log) + ["EntryBody"], m);
      (f.Ok? ==> r == Ok(f.value.0) && g.pos == f.value.1 && g.log == old(g.log)) && (f.Err? ==> r == Err(f.error))
  {
    g.Enter("EntryBody");
    var output := F.Fields([], None);
    while g.MatchToken(Identifier)
      invariant g.Valid() && g.toks == old(g.toks) && g.complete == old(g.complete)
      invariant g.strings == old(g.strings) && g.warnings == old(g.warnings) && g.log == old(g.log) + ["EntryBody"]
      invariant old(g.pos) <= g.pos
      invariant F.BodyLoop(g.Cur(), old(g.pos), g.strings, F.Fields([], None), g.log, m) ==
        F.BodyLoop(g.Cur(), g.pos, g.strings, output, g.log, m)
      decreases |g.toks| - g.pos
    {
      var fv := Field(g);
      if fv.Err? {
        return Err(fv.error);
      }
      output := F.Place(output, fv.value.0, fv.value.1, m);
      var s := Layout(g);
      if s.Err? {
        return Err(s.error);
      }
      var comma := g.ConsumeToken(Some(Comma), true);
      if comma.Err? {
        return Err(comma.error);
      }
      if comma.value.Some? {
        s := Layout(g);
        if s.Err? {
          return Err(s.error);
        }
      } else {
        break;
      }
    }
    g.Leave();
    r := Ok(output);
  }

  /** The start of `Entry`: `@`, the type in lower case and the opening brace. */
  method EntryHead(g: Grammar) returns (r: Result<(string, string), string>)
    requires g.Valid()
    modifies g
    ensures g.Valid() && g.toks == old(g.toks) && g.complete == old(g.complete)
    ensures g.strings == old(g.strings) && g.warnings == old(g.warnings)
    ensures var f := F.EntryHead(g.Cur(), old(g.pos), old(g.log));
      (f.Ok? ==> r == Ok((f.value.0, f.value.1)) && g.pos == f.value.2 && g.log == old(g.log)) && (f.Err? ==> r == Err(f.error))
  {
    var at := Need(g, At);
    if at.Err? {
      return Err(at.error);
    }
    var s := Layout(g);
    if s.Err? {
      return Err(s.error);
    }
    var t;
    if g.MatchToken(OtherEntryType) {
      t := Need(g, OtherEntryType);
    } else {
      t := Need(g, DataEntryType);
    }
    if t.Err? {
      return Err(t.error);
    }
    var ty := ToLower(t.value.value);
    s := Layout(g);
    if s.Err? {
      return Err(s.error);
    }
    var open := Need(g, LBrace);
    if open.Err? {
      return Err(open.error);
    }
    s := Layout(g);
    if s.Err? {
      return Err(s.error);
    }
    r := Ok((ty, open.value.value));
  }

  /** The end of `Entry`: the closing brace, and the warning when it does
      not match the opening one. */
  method EntryClose(g: Grammar, open: string) returns (r: Result<(), string>)
    requires g.Valid()
    modifies g
    ensures g.Valid() && g.toks == old(g.toks) && g.complete == old(g.complete) && g.strings == old(g.strings)
    ensures var f := F.EntryClose(g.Cur(), old(g.pos), open, old(g.warnings), old(g.log));
      (f.Ok? ==> r.Ok? && g.warnings == f.value.0 && g.pos == f.value.1 && g.log == old(g.log)) && (f.Err? ==> r == Err(f.error))
  {
    var s := Layout(g);
    if s.Err? {
      return Err(s.error);
    }
    var close := Need(g, RBrace);
    if close.Err? {
      return Err(close.error);
    }
    if F.CloseOf(open) != Some(close.value.value) {
      g.warnings := g.warnings + [F.Mismatch(open, close.value.value)];
    }
    r := Ok(());
  }

  /** `Entry`: an `@string` entry assigns the macro table, a closing brace
      of the other kind sends a warning. */
  method Entry(g: Grammar, m: F.Markers) returns (r: Result<Option<F.BibEntry>, string>)
    requires g.Valid()
    modifies g
    ensures g.Valid() && g.toks == old(g.toks) && g.complete == old(g.complete)
    ensures var f := F.Entry(g.Cur(), F.St(old(g.pos), old(g.strings), old(g.warnings)), old(g.log), m);
      (f.Ok? ==> r == Ok(f.value.0) && g.pos == f.value.1.pos && g.strings == f.value.1.strings &&
                 g.warnings == f.value.1.warnings && g.log == old(g.log)) &&
      (f.Err? ==> r == Err(f.error))
  {
    g.Enter("Entry");
    var head := EntryHead(g);
    if head.Err? {
      return Err(head.error);
    }
    var (ty, open) := head.value;
    var result := Content(g, ty, m);
    if result.Err? {
      return Err(result.error);
    }
    var close := EntryClose(g, open);
    if close.Err? {
      return Err(close.error);
    }
    g.Leave();
    r := Ok(result.value);
  }

  /** The three kinds of entry between the braces of `Entry`. */
  method Content(g: Grammar, ty: string, m: F.Markers) returns (r: Result<Option<F.BibEntry>, string>)
    requires g.Valid()
    modifies g
    ensures g.Valid() && g.toks == old(g.toks) && g.complete == old(g.complete) && g.warnings == old(g.warnings)
    ensures var f := F.EntryContent(g.Cur(), old(g.pos), old(g.strings), ty, old(g.log), m);
      (f.Ok? ==> r == Ok(f.value.0) && g.strings == f.value.1 && g.pos == f.value.2 && g.log == old(g.log)) &&
      (f.Err? ==> r == Err(f.error))
  {
    if ty == "string" {
      var kv := Field(g);
      if kv.Err? {
        return Err(kv.error);
      }
      g.strings := Set(g.strings, kv.value.0, kv.value.1);
      r := Ok(None);
    } else if ty == "preamble" {
      var e := Expression(g);
      if e.Err? {
        return Err(e.error);
      }
      r := Ok(None);
    } else {
      var key := Need(g, Label);
      if key.Err? {
        return Err(key.error);
      }
      var s := Layout(g);
      if s.Err? {
        return Err(s.error);
      }
      var comma := Need(g, Comma);
      if comma.Err? {
        return Err(comma.error);
      }
      s := Layout(g);
      if s.Err? {
        return Err(s.error);
      }
      var body := EntryBody(g, m);
      if body.Err? {
        return Err(body.error);
      }
      r := Ok(Some(F.BibEntry(ty, key.value.value, body.value.properties, body.value.annotations)));
    }
  }

  /** Rule `Main`: entries up to the end of the file, without the macros and preambles. */
  method MainRule(g: Grammar, m: F.Markers) returns (r: Result<seq<F.BibEntry>, string>)
    requires g.Valid()
    modifies g
    ensures g.Valid() && g.toks == old(g.toks) && g.complete == old(g.complete)
    ensures var f := F.MainLoop(g.Cur(), F.St(old(g.pos), old(g.strings), old(g.warnings)), [], old(g.log), m);
      (f.Ok? ==> r == Ok(F.Present(f.value.0)) && g.pos == f.value.1.pos && g.strings == f.value.1.strings &&
                 g.warnings == f.value.1.warnings && g.log == old(g.log)) &&
      (f.Err? ==> r == Err(f.error))
  {
    g.Enter("Main");
    var entries: seq<Option<F.BibEntry>> := [];
    while true
      invariant g.Valid() && g.toks == old(g.toks) && g.complete == old(g.complete) && g.log == old(g.log) + ["Main"]
      invariant F.MainLoop(g.Cur(), F.St(old(g.pos), old(g.strings), old(g.warnings)), [], old(g.log), m) ==
        F.MainLoop(g.Cur(), F.St(g.pos, g.strings, g.warnings), entries, old(g.log), m)
      decreases |g.toks| - g.pos
    {
      ghost var q0, s0, w0 := g.pos, g.strings, g.warnings;
      while g.MatchToken(Junk)
        invariant g.Valid() && g.toks == old(g.toks) && g.complete == old(g.complete) && g.log == old(g.log) + ["Main"]
        invariant q0 <= g.pos && F.SkipJunk(g.Cur(), q0) == F.SkipJunk(g.Cur(), g.pos)
        invariant g.strings == s0 && g.warnings == w0
        decreases |g.toks| - g.pos
      {
        var j := g.ConsumeToken(Some(Junk), false);
        if j.Err? {
          return Err(j.error);
        }
      }
      if g.MatchEndOfFile() {
        break;
      }
      var e := Entry(g, m);
      if e.Err? {
        return Err(e.error);
      }
      entries := entries + [e.value];
    }
    g.Leave();
    r := Ok(F.Present(entries));
  }

  /** `parse(text)`: the lexer is reset to the text and `Main` is applied
      from its first token. */
  method Parse(g: Grammar, text: string, m: F.Markers) returns (r: Result<seq<F.BibEntry>, string>)
    modifies g
    ensures var f := F.ParseFile(text, m);
      (f.Ok? ==> r == Ok(f.value.0) && g.warnings == f.value.1) && (f.Err? ==> r == Err(f.error))
  {
    var started := g.Start(Tokenize(text), F.DefaultStrings);
    if started.Err? {
      return Err(started.error);
    }
    r := MainRule(g, m);
  }
}
