// The tooltip escaping of a citation: as written it escapes quotes before
// ampersands, so the ampersand of every `&quot;` it produces is escaped again.

module GenCitationFindings {
  import opened Base
  import opened GenCitation

  /** Reads the two entities the escaping produces back as characters. */
  function Unescape(t: string): string
    decreases |t|
  {
    if t == [] then []
    else if StartsWith(t, "&amp;") then "&" + Unescape(t[5..])
    else if StartsWith(t, "&quot;") then "\"" + Unescape(t[6..])
    else [t[0]] + Unescape(t[1..])
  }

  lemma NotEntity(t: string)
    requires t != [] && t[0] != '&'
    ensures !StartsWith(t, "&amp;") && !StartsWith(t, "&quot;")
  {
    assert "&amp;"[0] == '&' && "&quot;"[0] == '&';
  }

  /** Text without ampersands reads back as itself. */
  lemma {:induction false} UnescapePlain(t: string)
    requires '&' !in t
    ensures Unescape(t) == t
    decreases |t|
  {
    if t != [] {
      NotEntity(t);
      assert '&' !in t[1..] by { assert forall x :: x in t[1..] ==> x in t; }
      UnescapePlain(t[1..]);
      assert t == [t[0]] + t[1..];
    }
  }

  /** As written, a quote comes out as `&amp;quot;`, which reads back as the
      text `&quot;` rather than as a quote. */
  lemma QuoteEscapedTwice()
    ensures EscapeAsWritten("\"") == "&amp;quot;"
    ensures Unescape(EscapeAsWritten("\"")) == "&quot;"
  {
    var q := "\"";
    var t := "&quot;";
    var u := "&amp;quot;";
    assert q[1..] == [];
    assert ReplaceChar(q, '"', "&quot;") == t by {
      assert ReplaceChar([], '"', "&quot;") == [];
      assert t + [] == t;
    }
    assert EscapeAsWritten(q) == ReplaceChar(t, '&', "&amp;");
    assert t[0] == '&' && t[1..] == "quot;";
    ReplaceCharAbsent("quot;", '&', "&amp;");
    assert ReplaceChar(t, '&', "&amp;") == "&amp;" + "quot;";
    assert "&amp;" + "quot;" == u;
    assert StartsWith(u, "&amp;") && u[5..] == "quot;";
    UnescapePlain("quot;");
  }

  /** Replacing a character that does not occur changes nothing. */
  lemma {:induction false} ReplaceCharAbsent(s: string, c: char, with: string)
    requires c !in s
    ensures ReplaceChar(s, c, with) == s
    decreases |s|
  {
    if s != [] {
      assert c !in s[1..] by { assert forall x :: x in s[1..] ==> x in s; }
      ReplaceCharAbsent(s[1..], c, with);
      assert s == [s[0]] + s[1..];
    }
  }

  /** The corrected escaping: ampersands first, then quotes. */
  function EscapeAttr(s: string): string {
    ReplaceChar(ReplaceChar(s, '&', "&amp;"), '"', "&quot;")
  }

  /** The escaped form of one character. */
  function EscapeChar(c: char): string {
    if c == '&' then "&amp;" else if c == '"' then "&quot;" else [c]
  }

  lemma EscapeAttrCons(c: char, rest: string)
    ensures EscapeAttr([c] + rest) == EscapeChar(c) + EscapeAttr(rest)
  {
    var s := [c] + rest;
    assert s[1..] == rest;
    var first := if c == '&' then "&amp;" else [c];
    assert ReplaceChar(s, '&', "&amp;") == first + ReplaceChar(rest, '&', "&amp;");
    ReplaceCharAppend(first, ReplaceChar(rest, '&', "&amp;"), '"', "&quot;");
    if c == '&' {
      assert ReplaceChar("&amp;", '"', "&quot;") == "&amp;" by {
        var t := "&amp;";
        assert t[1..] == "amp;" && "amp;"[1..] == "mp;" && "mp;"[1..] == "p;" && "p;"[1..] == ";" && ";"[1..] == [];
      }
    } else {
      assert [c][1..] == [];
    }
  }

  /** The corrected escaping keeps quotes out of the attribute value as well. */
  lemma EscapeAttrHasNoQuote(s: string)
    ensures '"' !in EscapeAttr(s)
  {
    assert '"' !in "&quot;";
  }

  lemma UnescapeCons(c: char, rest: string)
    ensures Unescape(EscapeChar(c) + rest) == [c] + Unescape(rest)
  {
    var t := EscapeChar(c) + rest;
    if c == '&' {
      assert t == "&amp;" + rest;
      assert t[..5] == "&amp;" && t[5..] == rest;
    } else if c == '"' {
      assert t == "&quot;" + rest;
      assert t[..6] == "&quot;" && t[6..] == rest;
      assert !StartsWith(t, "&amp;") by { assert t[1] == 'q' && "&amp;"[1] == 'a'; }
    } else {
      assert t == [c] + rest;
      NotEntity(t);
      assert t[1..] == rest;
    }
  }

  /** Reading the corrected attribute value gives back the bibliography text. */
  lemma {:induction false} UnescapeEscapeAttr(s: string)
    ensures Unescape(EscapeAttr(s)) == s
    decreases |s|
  {
    if s != [] {
      assert s == [s[0]] + s[1..];
      EscapeAttrCons(s[0], s[1..]);
      UnescapeCons(s[0], EscapeAttr(s[1..]));
      UnescapeEscapeAttr(s[1..]);
    } else {
      assert ReplaceChar([], '&', "&amp;") == [];
    }
  }

  /** On a quote the corrected escaping reads back as the quote. */
  lemma QuoteEscapedOnce()
    ensures EscapeAttr("\"") == "&quot;"
    ensures Unescape(EscapeAttr("\"")) == "\""
  {
    EscapeAttrCons('"', []);
    assert "\"" == ['"'] + [];
    assert EscapeAttr([]) == [];
    UnescapeEscapeAttr("\"");
  }
}
