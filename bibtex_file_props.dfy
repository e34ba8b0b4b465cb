// Properties of the BibTeX grammar: braced and quoted values keep the text
// between their delimiters exactly as written, nested braces included;
// `@string` macros are stored in lower case and read back by any spelling
// of their name; entry types and field names are lower-cased while labels
// are kept; a closing brace of the other kind is warned about.

module BibtexFileProps {
  import opened Base
  import opened JsObject
  import opened JsValue
  import opened BibtexLexer
  import opened GrammarUtil
  import opened BibtexFile

  // ---------------------------------------------------------------------
  // The text a run of tokens covers

  lemma {:induction false} CoveredAppend(a: seq<Token>, b: seq<Token>)
    ensures Covered(a + b) == Covered(a) + Covered(b)
  {
    if a == [] {
      assert a + b == b;
    } else {
      var t, rest := a[0], a[1..];
      assert a == [t] + rest;
      assert a + b == [t] + (rest + b);
      CoveredCons(t, rest + b);
      CoveredCons(t, rest);
      CoveredAppend(rest, b);
      Regroup(t.value, Covered(rest), Covered(b));
    }
  }

  lemma CoveredSplit(ts: seq<Token>, i: nat, j: nat, k: nat)
    requires i <= j <= k <= |ts|
    ensures Covered(ts[i..k]) == Covered(ts[i..j]) + Covered(ts[j..k])
  {
    assert ts[i..k] == ts[i..j] + ts[j..k];
    CoveredAppend(ts[i..j], ts[j..k]);
  }

  lemma Regroup(a: string, b: string, c: string)
    ensures (a + b) + c == a + (b + c)
  {
  }

  lemma CoveredOne(ts: seq<Token>, i: nat)
    requires i < |ts|
    ensures Covered(ts[i..i + 1]) == ts[i].value
  {
    assert ts[i..i + 1] == [ts[i]] + [];
    CoveredCons(ts[i], []);
  }

  /** Between `p` and `q` every brace and quote token is the character it
      stands for, as the lexer makes them inside a field value. */
  ghost predicate Literal(c: Cursor, p: nat, q: nat) {
    forall i :: p <= i < q && i < |c.toks| ==>
      (c.toks[i].kind == LBrace ==> c.toks[i].value == "{") &&
      (c.toks[i].kind == RBrace ==> c.toks[i].value == "}") &&
      (c.toks[i].kind == BibtexLexer.Quote ==> c.toks[i].value == "\"")
  }

  // ---------------------------------------------------------------------
  // Values keep their text

  /** A text is the text of the tokens it consumed. */
  lemma {:induction false} TextCovers(c: Cursor, p: nat, log: seq<string>, s: string, q: nat)
    requires p <= |c.toks| && BibtexFile.Text(c, p, log) == Ok((s, q)) && Literal(c, p, q)
    ensures s == Covered(c.toks[p..q])
    decreases |c.toks| - p, 3
  {
    var lg := log + ["Text"];
    if MatchAt(c, p, LBrace) {
      var b := Bracket(c, p, lg).value.0;
      BracketCovers(c, p, lg, b, q);
    } else {
      CoveredOne(c.toks, p);
    }
  }

  /** A braced string: an opening brace, the loop, a closing brace. */
  lemma BracketSteps(c: Cursor, p: nat, log: seq<string>, s: string, q: nat)
    requires p <= |c.toks| && Bracket(c, p, log) == Ok((s, q))
    ensures p + 1 < q && MatchAt(c, p, LBrace) && MatchAt(c, q - 1, RBrace)
    ensures BracketLoop(c, p + 1, "", log + ["BracketString"]) == Ok((s, q - 1))
  {
  }

  /** A quoted string: a quote, the loop, a quote. */
  lemma QuoteSteps(c: Cursor, p: nat, log: seq<string>, s: string, q: nat)
    requires p <= |c.toks| && BibtexFile.Quote(c, p, log) == Ok((s, q))
    ensures p + 1 < q && MatchAt(c, p, BibtexLexer.Quote) && MatchAt(c, q - 1, BibtexLexer.Quote)
    ensures QuoteLoop(c, p + 1, "", log + ["QuoteString"]) == Ok((s, q - 1))
  {
    var lg := log + ["QuoteString"];
    var (_, p1) := Need(c, p, BibtexLexer.Quote, lg).value;
    var (s2, p2) := QuoteLoop(c, p1, "", lg).value;
    assert Need(c, p2, BibtexLexer.Quote, lg).Ok?;
  }

  /** A loop step: a text, then the rest of the loop. */
  lemma BracketLoopStep(c: Cursor, p: nat, acc: string, log: seq<string>, s: string, q: nat)
    requires p <= |c.toks| && BracketLoop(c, p, acc, log) == Ok((s, q)) && !MatchAt(c, p, RBrace)
    ensures BibtexFile.Text(c, p, log).Ok? && var (t, p1) := BibtexFile.Text(c, p, log).value;
      p1 <= q && BracketLoop(c, p1, acc + t, log) == Ok((s, q))
  {
  }

  lemma QuoteLoopStep(c: Cursor, p: nat, acc: string, log: seq<string>, s: string, q: nat)
    requires p <= |c.toks| && QuoteLoop(c, p, acc, log) == Ok((s, q)) && !MatchAt(c, p, BibtexLexer.Quote)
    ensures BibtexFile.Text(c, p, log).Ok? && var (t, p1) := BibtexFile.Text(c, p, log).value;
      p1 <= q && QuoteLoop(c, p1, acc + t, log) == Ok((s, q))
  {
  }

  lemma Delimited(c: Cursor, p: nat, q: nat, inner: string, open: string, close: string)
    requires p + 1 < q <= |c.toks| && c.toks[p].value == open && c.toks[q - 1].value == close
    requires inner == Covered(c.toks[p + 1..q - 1])
    ensures open + inner + close == Covered(c.toks[p..q])
  {
    CoveredSplit(c.toks, p, p + 1, q);
    CoveredSplit(c.toks, p + 1, q - 1, q);
    CoveredOne(c.toks, p);
    CoveredOne(c.toks, q - 1);
  }

  /** A braced string with its braces is exactly the text of its tokens. */
  lemma {:induction false} BracketCovers(c: Cursor, p: nat, log: seq<string>, s: string, q: nat)
    requires p <= |c.toks| && Bracket(c, p, log) == Ok((s, q)) && Literal(c, p, q)
    ensures "{" + s + "}" == Covered(c.toks[p..q])
    decreases |c.toks| - p, 2
  {
    BracketSteps(c, p, log, s, q);
    BracketLoopCovers(c, p + 1, "", log + ["BracketString"], s, q - 1);
    assert "" + Covered(c.toks[p + 1..q - 1]) == Covered(c.toks[p + 1..q - 1]);
    Delimited(c, p, q, s, "{", "}");
  }

  lemma {:induction false} BracketLoopCovers(c: Cursor, p: nat, acc: string, log: seq<string>, s: string, q: nat)
    requires p <= |c.toks| && BracketLoop(c, p, acc, log) == Ok((s, q)) && Literal(c, p, q)
    ensures s == acc + Covered(c.toks[p..q])
    decreases |c.toks| - p, 4
  {
    if MatchAt(c, p, RBrace) {
      assert c.toks[p..q] == [];
    } else {
      BracketLoopStep(c, p, acc, log, s, q);
      var (tx, p1) := BibtexFile.Text(c, p, log).value;
      TextCovers(c, p, log, tx, p1);
      BracketLoopCovers(c, p1, acc + tx, log, s, q);
      CoveredSplit(c.toks, p, p1, q);
      Regroup(acc, tx, Covered(c.toks[p1..q]));
    }
  }

  lemma {:induction false} QuoteLoopCovers(c: Cursor, p: nat, acc: string, log: seq<string>, s: string, q: nat)
    requires p <= |c.toks| && QuoteLoop(c, p, acc, log) == Ok((s, q)) && Literal(c, p, q)
    ensures s == acc + Covered(c.toks[p..q])
    decreases |c.toks| - p
  {
    if MatchAt(c, p, BibtexLexer.Quote) {
      assert c.toks[p..q] == [];
    } else {
      QuoteLoopStep(c, p, acc, log, s, q);
      var (tx, p1) := BibtexFile.Text(c, p, log).value;
      TextCovers(c, p, log, tx, p1);
      QuoteLoopCovers(c, p1, acc + tx, log, s, q);
      CoveredSplit(c.toks, p, p1, q);
      Regroup(acc, tx, Covered(c.toks[p1..q]));
    }
  }

  /** A quoted string with its quotes is exactly the text of its tokens. */
  lemma QuoteCovers(c: Cursor, p: nat, log: seq<string>, s: string, q: nat)
    requires p <= |c.toks| && BibtexFile.Quote(c, p, log) == Ok((s, q)) && Literal(c, p, q)
    ensures "\"" + s + "\"" == Covered(c.toks[p..q])
  {
    QuoteSteps(c, p, log, s, q);
    QuoteLoopCovers(c, p + 1, "", log + ["QuoteString"], s, q - 1);
    assert "" + Covered(c.toks[p + 1..q - 1]) == Covered(c.toks[p + 1..q - 1]);
    Delimited(c, p, q, s, "\"", "\"");
  }

  // ---------------------------------------------------------------------
  // Macros

  /** A macro defined with a non-empty string is read back by any spelling
      of its name that lower-cases to the same key, and defining it leaves
      every other macro as it was. */
  lemma MacroDefinedThenUsed(strings: Props<Value>, key: string, v: string, name: string, other: string)
    requires v != "" && ToLower(name) == ToLower(key) && ToLower(other) != ToLower(key)
    ensures Macro(Set(strings, ToLower(key), Str(v)), name) == Str(v)
    ensures Macro(Set(strings, ToLower(key), Str(v)), other) == Macro(strings, other)
  {
    SetGet(strings, ToLower(key), Str(v), ToLower(other));
  }

  /** An undefined macro reads as the empty string. */
  lemma UndefinedMacro(strings: Props<Value>, name: string)
    requires !Has(strings, ToLower(name))
    ensures Macro(strings, name) == Str("")
  {
  }

  // ---------------------------------------------------------------------
  // The rules one step at a time, on tokens the lexer read to the end

  /** A required token that is there is taken. */
  lemma NeedHere(c: Cursor, p: nat, k: Kind, lg: seq<string>)
    requires c.complete && p < |c.toks| && c.toks[p].kind == k
    ensures Need(c, p, k, lg) == Ok((c.toks[p], p + 1))
  {
  }

  /** A required token that is not there is a syntax error naming it, the
      token found or the end of the file, and the rules being applied. */
  lemma NeedMissing(c: Cursor, p: nat, k: Kind, lg: seq<string>)
    requires p <= |c.toks| && !MatchAt(c, p, k)
    ensures Need(c, p, k, lg) == Err(Expected(k, c, p, lg))
  {
  }

  /** `"text"`: a quoted string of one text token. */
  lemma QuotedText(c: Cursor, p: nat, lg: seq<string>, t: string)
    requires c.complete && p + 3 <= |c.toks|
    requires c.toks[p].kind == BibtexLexer.Quote && c.toks[p + 1] == Token(BibtexLexer.Text, t)
    requires c.toks[p + 2].kind == BibtexLexer.Quote
    ensures BibtexFile.Quote(c, p, lg) == Ok((t, p + 3))
  {
    var ql := lg + ["QuoteString"];
    assert BibtexFile.Text(c, p + 1, ql) == Ok((t, p + 2));
    assert QuoteLoop(c, p + 2, "" + t, ql) == Ok((t, p + 2)) by {
      assert "" + t == t;
    }
  }

  /** A number token is read as its number. */
  lemma NumberPart(c: Cursor, p: nat, strings: Props<Value>, lg: seq<string>, n: nat)
    requires c.complete && p < |c.toks| && c.toks[p] == Token(Number, NatToString(n))
    ensures Part(c, p, strings, lg) == Ok((Num(n), p + 1))
  {
    ParseIntOfNatToString(n);
  }

  /** A quoted part is its text. */
  lemma QuotedPart(c: Cursor, p: nat, strings: Props<Value>, lg: seq<string>, t: string)
    requires c.complete && p + 3 <= |c.toks|
    requires c.toks[p].kind == BibtexLexer.Quote && c.toks[p + 1] == Token(BibtexLexer.Text, t)
    requires c.toks[p + 2].kind == BibtexLexer.Quote
    ensures Part(c, p, strings, lg) == Ok((Str(t), p + 3))
  {
    QuotedText(c, p, lg + ["ExpressionPart"], t);
  }

  /** An expression of one part is that part's value. */
  lemma SinglePart(c: Cursor, p: nat, strings: Props<Value>, log: seq<string>, v: Value, q: nat)
    requires p <= |c.toks| && Part(c, p, strings, log + ["Expression"]) == Ok((v, q))
    requires !MatchAt(c, q, Whitespace) && !MatchAt(c, q, Comment) && !MatchAt(c, q, Hash)
    ensures Expr(c, p, strings, log) == Ok((v, q))
  {
  }

  /** `a # b`: the second part is appended to the first as a string. */
  lemma HashStep(c: Cursor, p: nat, strings: Props<Value>, lg: seq<string>, acc: Value, v: Value, q: nat)
    requires c.complete && p < |c.toks| && c.toks[p].kind == Hash
    requires p + 1 <= |c.toks| && Part(c, p + 1, strings, lg) == Ok((v, q))
    requires !MatchAt(c, q, Whitespace) && !MatchAt(c, q, Comment) && !MatchAt(c, q, Hash)
    ensures ExprLoop(c, p, strings, acc, lg) == Ok((Str(ToStr(acc) + ToStr(v)), q))
  {
    assert ExprLoop(c, q, strings, Str(ToStr(acc) + ToStr(v)), lg) == Ok((Str(ToStr(acc) + ToStr(v)), q));
  }

  /** `name = value`: a field is its name in lower case and the value of its expression. */
  lemma FieldOf(c: Cursor, p: nat, strings: Props<Value>, log: seq<string>, v: Value, q: nat)
    requires c.complete && p + 2 <= |c.toks| && c.toks[p].kind == Identifier && c.toks[p + 1].kind == Equals
    requires !MatchAt(c, p + 2, Whitespace) && !MatchAt(c, p + 2, Comment)
    requires Expr(c, p + 2, strings, log + ["Field"]) == Ok((v, q))
    ensures Field(c, p, strings, log) == Ok(((ToLower(c.toks[p].value), v), q))
  {
    var lg := log + ["Field"];
    NeedHere(c, p, Identifier, lg);
    assert Skip(c, p + 1) == Ok(p + 1);
    NeedHere(c, p + 1, Equals, lg);
    assert Skip(c, p + 2) == Ok(p + 2);
  }

  /** `@type{`: the start of an entry with no space in it. */
  lemma HeadOf(c: Cursor, p: nat, lg: seq<string>)
    requires c.complete && p + 3 <= |c.toks| && c.toks[p].kind == At
    requires c.toks[p + 1].kind in {OtherEntryType, DataEntryType} && c.toks[p + 2].kind == LBrace
    requires !MatchAt(c, p + 3, Whitespace) && !MatchAt(c, p + 3, Comment)
    ensures EntryHead(c, p, lg) == Ok((ToLower(c.toks[p + 1].value), c.toks[p + 2].value, p + 3))
  {
    assert Need(c, p + 1, c.toks[p + 1].kind, lg) == Ok((c.toks[p + 1], p + 2));
  }

  /** `}` closing an entry, with the warning when it does not match `open`. */
  lemma CloseOf(c: Cursor, p: nat, open: string, ws: seq<string>, lg: seq<string>)
    requires c.complete && p < |c.toks| && c.toks[p].kind == RBrace
    ensures var close := c.toks[p].value;
      EntryClose(c, p, open, ws, lg) ==
        Ok((if BibtexFile.CloseOf(open) == Some(close) then ws else ws + [Mismatch(open, close)], p + 1))
  {
  }

  // ---------------------------------------------------------------------
  // Whole entries

  /** `@string{key = "value"}` stores the value under the key in lower case
      and is not an entry of the output. */
  lemma StringEntry(c: Cursor, p: nat, key: string, v: string, strings: Props<Value>, ws: seq<string>, log: seq<string>, m: Markers)
    requires c.complete && p + 9 <= |c.toks|
    requires c.toks[p] == Token(At, "@") && c.toks[p + 1].kind == OtherEntryType && ToLower(c.toks[p + 1].value) == "string"
    requires c.toks[p + 2] == Token(LBrace, "{") && c.toks[p + 3] == Token(Identifier, key)
    requires c.toks[p + 4].kind == Equals && c.toks[p + 5].kind == BibtexLexer.Quote
    requires c.toks[p + 6] == Token(BibtexLexer.Text, v) && c.toks[p + 7].kind == BibtexLexer.Quote
    requires c.toks[p + 8] == Token(RBrace, "}")
    ensures Entry(c, St(p, strings, ws), log, m) == Ok((None, St(p + 9, Set(strings, ToLower(key), Str(v)), ws)))
  {
    var lg := log + ["Entry"];
    HeadOf(c, p, lg);
    QuotedPart(c, p + 5, strings, lg + ["Field", "Expression"], v);
    assert lg + ["Field", "Expression"] == lg + ["Field"] + ["Expression"];
    SinglePart(c, p + 5, strings, lg + ["Field"], Str(v), p + 8);
    FieldOf(c, p + 3, strings, lg, Str(v), p + 8);
    assert EntryContent(c, p + 3, strings, "string", lg, m) == Ok((None, Set(strings, ToLower(key), Str(v)), p + 8));
    CloseOf(c, p + 8, "{", ws, lg);
  }

  /** The last field of an entry body, followed directly by the closing
      brace, is placed and ends the body. */
  lemma LastField(c: Cursor, p: nat, strings: Props<Value>, out: Fields, lg: seq<string>, m: Markers, field: string, v: Value, q: nat)
    requires c.complete && p < |c.toks| && c.toks[p].kind == Identifier
    requires Field(c, p, strings, lg) == Ok(((field, v), q))
    requires q < |c.toks| && c.toks[q].kind == RBrace
    ensures BodyLoop(c, p, strings, out, lg, m) == Ok((Place(out, field, v, m), q))
  {
    assert Skip(c, q) == Ok(q);
    TakeCases(c, q, Comma, true, lg);
  }

  /** `label,` directly followed by a body: the entry is the label and the
      body's fields. */
  lemma LabelledContent(c: Cursor, p: nat, strings: Props<Value>, ty: string, lg: seq<string>, m: Markers, b: Fields, q: nat)
    requires c.complete && p + 2 <= |c.toks| && ty != "string" && ty != "preamble"
    requires c.toks[p].kind == Label && c.toks[p + 1].kind == Comma
    requires !MatchAt(c, p + 2, Whitespace) && !MatchAt(c, p + 2, Comment)
    requires BodyLoop(c, p + 2, strings, Fields([], None), lg + ["EntryBody"], m) == Ok((b, q))
    ensures EntryContent(c, p, strings, ty, lg, m) == Ok((Some(BibEntry(ty, c.toks[p].value, b.properties, b.annotations)), strings, q))
  {
    NeedHere(c, p, Label, lg);
    assert Skip(c, p + 1) == Ok(p + 1);
    NeedHere(c, p + 1, Comma, lg);
    assert Skip(c, p + 2) == Ok(p + 2);
  }

  /** `@Type(label, Field = 2024}`: the type is lower-cased, the label kept,
      the field name lower-cased and the number read; the parenthesis
      closed by a brace is warned about. */
  lemma DataEntry(c: Cursor, p: nat, lbl: string, n: nat, strings: Props<Value>, ws: seq<string>, log: seq<string>, m: Markers)
    requires c.complete && p + 9 <= |c.toks|
    requires c.toks[p].kind == At && c.toks[p + 1].kind == DataEntryType
    requires ToLower(c.toks[p + 1].value) != "string" && ToLower(c.toks[p + 1].value) != "preamble"
    requires c.toks[p + 2] == Token(LBrace, "(") && c.toks[p + 3] == Token(Label, lbl)
    requires c.toks[p + 4].kind == Comma && c.toks[p + 5].kind == Identifier && c.toks[p + 6].kind == Equals
    requires c.toks[p + 7] == Token(Number, NatToString(n)) && c.toks[p + 8] == Token(RBrace, "}")
    requires AnnotationOf(ToLower(c.toks[p + 5].value), m).None?
    ensures var ty, field := ToLower(c.toks[p + 1].value), ToLower(c.toks[p + 5].value);
      Entry(c, St(p, strings, ws), log, m) ==
        Ok((Some(BibEntry(ty, lbl, [(field, Num(n))], None)), St(p + 9, strings, ws + [Mismatch("(", "}")])))
  {
    var ty, field := ToLower(c.toks[p + 1].value), ToLower(c.toks[p + 5].value);
    var lg := log + ["Entry"];
    var bl := lg + ["EntryBody"];
    HeadOf(c, p, lg);
    NumberPart(c, p + 7, strings, bl + ["Field", "Expression"], n);
    assert bl + ["Field", "Expression"] == bl + ["Field"] + ["Expression"];
    SinglePart(c, p + 7, strings, bl + ["Field"], Num(n), p + 8);
    FieldOf(c, p + 5, strings, bl, Num(n), p + 8);
    LastField(c, p + 5, strings, Fields([], None), bl, m, field, Num(n), p + 8);
    assert Place(Fields([], None), field, Num(n), m) == Fields([(field, Num(n))], None);
    LabelledContent(c, p + 3, strings, ty, lg, m, Fields([(field, Num(n))], None), p + 8);
    CloseOf(c, p + 8, "(", ws, lg);
  }

  /** `"text" # 42`: the parts are concatenated as strings. */
  lemma Concatenation(c: Cursor, p: nat, a: string, n: nat, strings: Props<Value>, log: seq<string>)
    requires c.complete && p + 5 <= |c.toks|
    requires c.toks[p].kind == BibtexLexer.Quote && c.toks[p + 1] == Token(BibtexLexer.Text, a)
    requires c.toks[p + 2].kind == BibtexLexer.Quote && c.toks[p + 3].kind == Hash
    requires c.toks[p + 4] == Token(Number, NatToString(n))
    requires !MatchAt(c, p + 5, Whitespace) && !MatchAt(c, p + 5, Comment) && !MatchAt(c, p + 5, Hash)
    ensures Expr(c, p, strings, log) == Ok((Str(a + NatToString(n)), p + 5))
  {
    var el := log + ["Expression"];
    QuotedPart(c, p, strings, el, a);
    NumberPart(c, p + 4, strings, el, n);
    HashStep(c, p + 3, strings, el, Str(a), Num(n), p + 5);
  }

  /** An entry that is not closed is a syntax error naming the rules being applied. */
  lemma UnclosedEntry(c: Cursor, p: nat, strings: Props<Value>, ws: seq<string>, m: Markers)
    requires c.complete && p + 5 == |c.toks|
    requires c.toks[p].kind == At && c.toks[p + 1].kind == DataEntryType
    requires ToLower(c.toks[p + 1].value) != "string" && ToLower(c.toks[p + 1].value) != "preamble"
    requires c.toks[p + 2].kind == LBrace && c.toks[p + 3].kind == Label && c.toks[p + 4].kind == Comma
    ensures Entry(c, St(p, strings, ws), ["Main"], m) == Err(Expected(RBrace, c, p + 5, ["Main", "Entry"]))
  {
    var lg := ["Main"] + ["Entry"];
    var ty := ToLower(c.toks[p + 1].value);
    HeadOf(c, p, lg);
    assert EntryContent(c, p + 3, strings, ty, lg, m) == Ok((Some(BibEntry(ty, c.toks[p + 3].value, [], None)), strings, p + 5));
    NeedMissing(c, p + 5, RBrace, lg);
  }
}
