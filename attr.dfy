// Adding a `data-*` attribute to the first tag of an HTML string, as the CSL
// plugin does to tag each bibliography entry with its id. The insertion is a
// regular-expression replace whose replacement text is a template, so `$`
// sequences in the name or the value are read as substitution patterns.

module CslAttr {
  import opened Base

  /** The end of the text matched by `/^\s*<[a-z]+/i`: leading white space,
      `<` and the longest run of letters after it; `None` when the string
      does not start that way. */
  function TagNameEnd(s: string): (r: Option<nat>)
    ensures r.Some? ==> r.value <= |s|
    ensures r.Some? ==> var i := SpaceEndFrom(s, 0);
      i < |s| && s[i] == '<' && i + 1 < r.value &&
      (forall k :: i + 1 <= k < r.value ==> IsAsciiLetter(s[k])) &&
      (r.value < |s| ==> !IsAsciiLetter(s[r.value]))
    ensures r.None? <==> var i := SpaceEndFrom(s, 0); !(i + 1 < |s| && s[i] == '<' && IsAsciiLetter(s[i + 1]))
  {
    var i := SpaceEndFrom(s, 0);
    if i + 1 < |s| && s[i] == '<' && IsAsciiLetter(s[i + 1]) then Some(LetterRunEnd(s, i + 1)) else None
  }

  /** The end of the run of letters starting at `i`. */
  function LetterRunEnd(s: string, i: nat): (r: nat)
    requires i <= |s|
    ensures i <= r <= |s| && (forall k :: i <= k < r ==> IsAsciiLetter(s[k])) && (r < |s| ==> !IsAsciiLetter(s[r]))
    decreases |s| - i
  {
    if i < |s| && IsAsciiLetter(s[i]) then LetterRunEnd(s, i + 1) else i
  }

  /** A replacement template expanded for a match without capture groups:
      `$$` is `$`, `$&` the match, `` $` `` the text before it, `$'` the text
      after it; any other `$` stands for itself. */
  function Expand(t: string, matched: string, before: string, after: string): string
    decreases |t|
  {
    if t == [] then []
    else if t[0] == '$' && |t| >= 2 && t[1] == '$' then "$" + Expand(t[2..], matched, before, after)
    else if t[0] == '$' && |t| >= 2 && t[1] == '&' then matched + Expand(t[2..], matched, before, after)
    else if t[0] == '$' && |t| >= 2 && t[1] == '`' then before + Expand(t[2..], matched, before, after)
    else if t[0] == '$' && |t| >= 2 && t[1] == '\'' then after + Expand(t[2..], matched, before, after)
    else [t[0]] + Expand(t[1..], matched, before, after)
  }

  /** The attribute text ` data-{name}="{value}"`. */
  function Attribute(name: string, value: string): string {
    " data-" + name + "=\"" + value + "\""
  }

  /** `getAttributedEntry(string, name, value)` as written: the match
      replaced by the template `$& data-{name}="{value}"`. */
  function AttributedEntry(s: string, name: string, value: string): string {
    match TagNameEnd(s)
    case None => s
    case Some(j) => Expand("$&" + Attribute(name, value), s[..j], "", s[j..]) + s[j..]
  }

  /** `getPrefixedEntry(value, id)`: the attribute `data-csl-entry-id`. */
  function PrefixedEntry(s: string, id: string): string {
    AttributedEntry(s, "csl-entry-id", id)
  }

  /** The attribute inserted as literal text right after the first tag name. */
  function AttributedEntryLiteral(s: string, name: string, value: string): (r: string)
    ensures TagNameEnd(s).None? ==> r == s
    ensures TagNameEnd(s).Some? ==> (
      var j := TagNameEnd(s).value; var n := |Attribute(name, value)|;
      |r| == |s| + n && r[..j] == s[..j] && r[j..j + n] == Attribute(name, value) && r[j + n..] == s[j..])
  {
    match TagNameEnd(s)
    case None => s
    case Some(j) => s[..j] + Attribute(name, value) + s[j..]
  }

  /** `getPrefixedEntry` with the attribute inserted literally. */
  function PrefixedEntryLiteral(s: string, id: string): string {
    AttributedEntryLiteral(s, "csl-entry-id", id)
  }

  predicate NoDollar(t: string) { forall k :: 0 <= k < |t| ==> t[k] != '$' }

  /** A template without `$` expands to itself in front of whatever follows. */
  lemma {:induction false} ExpandPlainPrefix(p: string, rest: string, matched: string, before: string, after: string)
    requires NoDollar(p)
    ensures Expand(p + rest, matched, before, after) == p + Expand(rest, matched, before, after)
    decreases |p|
  {
    if p != [] {
      assert (p + rest)[0] == p[0] && (p + rest)[1..] == p[1..] + rest;
      assert p[0] != '$';
      assert NoDollar(p[1..]) by {
        forall k | 0 <= k < |p[1..]| ensures p[1..][k] != '$' { assert p[1..][k] == p[k + 1]; }
      }
      ExpandPlainPrefix(p[1..], rest, matched, before, after);
      var t := p + rest;
      assert t != [] && t[0] != '$';
      assert Expand(t, matched, before, after) == [t[0]] + Expand(t[1..], matched, before, after);
      assert p == [p[0]] + p[1..];
    } else {
      assert p + rest == rest;
    }
  }

  lemma ExpandPlain(p: string, matched: string, before: string, after: string)
    requires NoDollar(p)
    ensures Expand(p, matched, before, after) == p
  {
    ExpandPlainPrefix(p, [], matched, before, after);
    assert p + [] == p;
  }

  lemma ExpandMatch(rest: string, matched: string, before: string, after: string)
    ensures Expand("$&" + rest, matched, before, after) == matched + Expand(rest, matched, before, after)
  {
    assert ("$&" + rest)[2..] == rest;
  }

  lemma AttributeNoDollar(name: string, value: string)
    requires NoDollar(name) && NoDollar(value)
    ensures NoDollar(Attribute(name, value))
  {
    var a := Attribute(name, value);
    forall k | 0 <= k < |a| ensures a[k] != '$' {
      if k < 6 { assert a[k] == " data-"[k]; }
      else if k < 6 + |name| { assert a[k] == name[k - 6]; }
      else if k < 8 + |name| { assert a[k] == "=\""[k - 6 - |name|]; }
      else if k < 8 + |name| + |value| { assert a[k] == value[k - 8 - |name|]; }
      else { assert a[k] == '"'; }
    }
  }

  /** Without `$` in the name or the value, the written replace inserts the
      attribute literally; a string without a leading tag is unchanged. */
  lemma PlainAttributeInserted(s: string, name: string, value: string)
    requires NoDollar(name) && NoDollar(value)
    ensures AttributedEntry(s, name, value) == AttributedEntryLiteral(s, name, value)
  {
    if TagNameEnd(s).Some? {
      var j := TagNameEnd(s).value;
      AttributeNoDollar(name, value);
      ExpandMatch(Attribute(name, value), s[..j], "", s[j..]);
      ExpandPlain(Attribute(name, value), s[..j], "", s[j..]);
      assert s[..j] + Attribute(name, value) + s[j..] == s[..j] + (Attribute(name, value) + s[j..]);
    }
  }

  /** As written, a `$&` inside the value puts a copy of the matched tag into
      the attribute: an id `k1$&k2` gives `data-…="k1<tag k2"`. */
  lemma DollarAmpCopiesTag(s: string, name: string, k1: string, k2: string)
    requires TagNameEnd(s).Some? && NoDollar(name) && NoDollar(k1) && NoDollar(k2)
    ensures var j := TagNameEnd(s).value;
      AttributedEntry(s, name, k1 + "$&" + k2) == s[..j] + Attribute(name, k1 + s[..j] + k2) + s[j..]
  {
    var j := TagNameEnd(s).value;
    var m, after := s[..j], s[j..];
    var head := " data-" + name + "=\"" + k1;
    var tail := k2 + "\"";
    var t := head + ("$&" + tail);
    assert Attribute(name, k1 + "$&" + k2) == t && Attribute(name, k1 + m + k2) == head + m + tail by {
      AttributeAround(name, k1, "$&", k2);
      AttributeAround(name, k1, m, k2);
    }
    assert NoDollar(head) by {
      AttributeNoDollar(name, k1);
      assert head == Attribute(name, k1)[..|head|];
    }
    assert NoDollar(tail) by {
      QuoteNoDollar(k2);
    }
    assert Expand("$&" + t, m, "", after) == m + (head + (m + tail)) by {
      ExpandMatch(t, m, "", after);
      ExpandPlainPrefix(head, "$&" + tail, m, "", after);
      ExpandMatch(tail, m, "", after);
      ExpandPlain(tail, m, "", after);
    }
    assert m + (head + (m + tail)) + after == m + (head + m + tail) + after;
  }

  lemma AttributeAround(name: string, k1: string, x: string, k2: string)
    ensures Attribute(name, k1 + x + k2) == " data-" + name + "=\"" + k1 + x + (k2 + "\"")
  {
  }

  lemma QuoteNoDollar(k: string)
    requires NoDollar(k)
    ensures NoDollar(k + "\"")
  {
    var q := k + "\"";
    assert q[|k|] == '"';
  }

  /** The instance: `getPrefixedEntry("<div>", "a$&b")` yields
      `<div data-csl-entry-id="a<divb">` instead of the id `a$&b`. */
  lemma PrefixedDollarId()
    ensures PrefixedEntry("<div>", "a$&b") == "<div" + Attribute("csl-entry-id", "a<divb") + ">"
    ensures PrefixedEntryLiteral("<div>", "a$&b") == "<div" + Attribute("csl-entry-id", "a$&b") + ">"
  {
    var s := "<div>";
    assert SpaceEndFrom(s, 0) == 0;
    assert LetterRunEnd(s, 1) == 4 by {
      assert LetterRunEnd(s, 4) == 4;
    }
    assert TagNameEnd(s) == Some(4);
    assert s[..4] == "<div" && s[4..] == ">";
    assert NoDollar("csl-entry-id");
    DollarAmpCopiesTag(s, "csl-entry-id", "a", "b");
    assert "a" + "$&" + "b" == "a$&b";
    assert "a" + "<div" + "b" == "a<divb";
  }

  /** The literal insertion is undone by cutting the attribute out again. */
  lemma LiteralRoundTrip(s: string, name: string, value: string)
    requires TagNameEnd(s).Some?
    ensures var j := TagNameEnd(s).value; var r := AttributedEntryLiteral(s, name, value);
      r[..j] + r[j + |Attribute(name, value)|..] == s
  {
    var j := TagNameEnd(s).value;
    assert s[..j] + s[j..] == s;
  }
}
