// Properties of the label helpers and of the simple converters: what the
// unsafe-character split leaves is safe, a safe text passes unchanged, the
// first word is the first acceptable piece, a safe label survives the trip
// to CSL and back, and keyword lists and picks round-trip.

module BibtexSharedProps {
  import opened Base
  import opened JsValue
  import opened BibtexShared

  /** A safe text has no cut in it from position `q` on. */
  lemma {:induction false} SafePieces(s: string, q: nat)
    requires Safe(s) && q <= |s|
    ensures Pieces(s, 0, q) == [s]
    decreases |s| - q
  {
    assert Safe(s[0..q]);
    if q < |s| {
      assert RunEnd(s, q) == q;
      SafePieces(s, q + 1);
    } else {
      assert s[0..] == s;
    }
  }

  /** A safe text is one piece. */
  lemma SafeSplit(s: string)
    requires Safe(s)
    ensures SplitUnsafe(s) == [s] && StripUnsafe(s) == s
  {
    SafePieces(s, 0);
  }

  /** Safe texts joined with nothing between them stay safe. */
  lemma {:induction false} JoinSafe(parts: seq<string>)
    requires forall k :: 0 <= k < |parts| ==> Safe(parts[k])
    ensures Safe(Join(parts, ""))
    decreases |parts|
  {
    if |parts| >= 2 {
      JoinSafe(parts[1..]);
      var rest := Join(parts[1..], "");
      assert Join(parts, "") == parts[0] + rest;
      forall i | 0 <= i < |parts[0] + rest| ensures !Unsafe((parts[0] + rest)[i]) {
        if i < |parts[0]| {
          assert (parts[0] + rest)[i] == parts[0][i];
        } else {
          assert (parts[0] + rest)[i] == rest[i - |parts[0]|];
        }
      }
    }
  }

  /** Taking out the unsafe runs leaves a safe text. */
  lemma StripSafe(s: string)
    ensures Safe(StripUnsafe(s))
  {
    JoinSafe(SplitUnsafe(s));
  }

  /** Taking out the unsafe runs twice is taking them out once. */
  lemma StripIdempotent(s: string)
    ensures StripUnsafe(StripUnsafe(s)) == StripUnsafe(s)
  {
    StripSafe(s);
    SafeSplit(StripUnsafe(s));
  }

  /** The word `firstWord` finds is the first acceptable one. */
  lemma {:induction false} FindWordFirst(words: seq<string>)
    requires FindWord(words).Some?
    ensures exists k :: (0 <= k < |words| && words[k] == FindWord(words).value &&
                         forall j :: 0 <= j < k ==> !Kept(words[j]))
    decreases |words|
  {
    if !Kept(words[0]) {
      var rest := words[1..];
      FindWordFirst(rest);
      var k :| 0 <= k < |rest| && rest[k] == FindWord(rest).value && forall j :: 0 <= j < k ==> !Kept(rest[j]);
      assert words[k + 1] == rest[k];
      forall j | 0 <= j < k + 1 ensures !Kept(words[j]) {
        if j > 0 {
          assert words[j] == rest[j - 1];
        }
      }
    }
  }

  /** A first word is a non-empty safe piece that is no stop word. */
  lemma FirstWordSafe(s: string)
    requires FirstWordOf(s).Some?
    ensures var w := FirstWordOf(s).value;
      w != "" && Safe(w) && ToLower(w) !in StopWords
  {
    var words := SplitUnsafe(KeepAscii(s));
    FindWordFirst(words);
  }

  /** The picked value is the first truthy argument. */
  lemma {:induction false} PickFirst(args: seq<Value>)
    requires !PickToTarget(args).Undefined?
    ensures exists k :: (0 <= k < |args| && args[k] == PickToTarget(args) &&
                         forall j :: 0 <= j < k ==> !Truthy(args[j]))
    decreases |args|
  {
    if !Truthy(args[0]) {
      var rest := args[1..];
      PickFirst(rest);
      var k :| 0 <= k < |rest| && rest[k] == PickToTarget(rest) && forall j :: 0 <= j < k ==> !Truthy(rest[j]);
      assert args[k + 1] == rest[k];
      forall j | 0 <= j < k + 1 ensures !Truthy(args[j]) {
        if j > 0 {
          assert args[j] == rest[j - 1];
        }
      }
    }
  }

  /** A value mapped back and picked again is itself when truthy. */
  lemma PickRoundTrip(v: Value)
    ensures PickToTarget(PickToSource(v)) == if Truthy(v) then v else Undefined
  {
  }

  /** The safe id is safe, whatever the id. */
  lemma SafeIdSafe(id: Value)
    ensures Safe(SafeId(id))
  {
    if !id.Null? && !id.Undefined? {
      StripSafe(ToJsString(id));
    }
  }

  /** With `useIdAsLabel` the label is the safe id. */
  lemma IdAsLabel(id: Value, given: Value, author: Value, issued: Value, suffix: Value, title: Value, reading: Reading)
    ensures var r := LabelToSource(id, given, author, issued, suffix, title, true, reading);
      r.Ok? && r.value.Str? && Safe(r.value.s) && r.value.s == SafeId(id)
  {
    SafeIdSafe(id);
  }

  /** A safe label read from BibTeX into CSL and written back is the same
      label, with or without `useIdAsLabel`. */
  lemma LabelRoundTrip(l: string, author: Value, issued: Value, suffix: Value, title: Value, useIdAsLabel: bool, reading: Reading)
    requires l != "" && Safe(l)
    ensures var ids := LabelToTarget(Str(l));
      LabelToSource(ids[0], ids[1], author, issued, suffix, title, useIdAsLabel, reading) == Ok(Str(l))
  {
    SafeSplit(l);
  }

  /** Keywords joined for BibTeX and split again are the same keywords. */
  lemma KeywordsRoundTrip(list: seq<string>)
    requires |list| >= 1 && forall i :: 0 <= i < |list| ==> ',' !in list[i]
    ensures KeywordsToSource(KeywordsToTarget(list)) == list
  {
    SplitJoinChar(list, ',');
  }

  /** A keyword field split and joined again is the same text. */
  lemma KeywordsTextRoundTrip(text: string)
    ensures KeywordsToTarget(KeywordsToSource(text)) == text
  {
    JoinSplit(text, ",");
  }

  /** A title without a subtitle goes back and forth unchanged. */
  lemma TitleRoundTrip(title: Option<string>)
    ensures TitleToTarget(TitleToSource(title)[0], None) == title
  {
  }

  // ---------------------------------------------------------------------
  // A title of stop words only

  lemma TheHasNoWord()
    ensures FirstWordOf("The").None?
  {
    assert KeepAscii("The") == "The";
    assert Safe("The");
    SafeSplit("The");
    assert ToLower("The") == "the";
  }

  /** The parts of a label with only a stop-word title: the title adds
      `undefined` as written and nothing as intended. */
  lemma StopWordTitleParts()
    ensures LabelOf(Undefined, Undefined, Undefined, Str("The"), AsWritten) == Ok("undefined")
    ensures LabelOf(Undefined, Undefined, Undefined, Str("The"), Intended) == Ok("")
  {
    TheHasNoWord();
    assert YearPart(Undefined) == "";
    assert TitlePart(Undefined, Str("The"), AsWritten) == Ok("undefined");
    assert TitlePart(Undefined, Str("The"), Intended) == Ok("");
    assert "" + "" + "undefined" == "undefined";
  }

  /** As written, a title made of stop words gives the label `undefined`
      instead of the id; as intended the id stays the label. */
  lemma StopWordTitleLabel()
    ensures LabelToSource(Str("x1"), Undefined, Undefined, Undefined, Undefined, Str("The"), false, AsWritten) == Ok(Str("undefined"))
    ensures LabelToSource(Str("x1"), Undefined, Undefined, Undefined, Undefined, Str("The"), false, Intended) == Ok(Str("x1"))
  {
    StopWordTitleParts();
    assert Safe("x1");
    SafeSplit("x1");
    assert "undefined" != "";
  }

  /** As intended, a label built from nothing usable falls back to the id. */
  lemma EmptyLabelFallsBack(id: Value, author: Value, issued: Value, suffix: Value, title: Value)
    requires LabelOf(author, issued, suffix, title, Intended) == Ok("")
    ensures LabelToSource(id, Undefined, author, issued, suffix, title, false, Intended) == Ok(Str(SafeId(id)))
  {
  }
}
