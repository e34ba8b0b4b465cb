// Properties of the date and month converters: a date written by
// `DATE.toSource` is read back by `DATE.toTarget` as the same ranges, the
// time and a trailing qualifier of an EDTF date are ignored, unspecified
// digits read as zeros, an interval with an open start throws, and months
// written by `YEAR_MONTH.toSource` are read back by `YEAR_MONTH.toTarget`.

module BibtexDateProps {
  import opened Base
  import opened BibtexShared
  import JsValue

  predicate AllDigits(s: string) {
    forall i :: 0 <= i < |s| ==> IsDigit(s[i])
  }

  /** A range `DATE.toSource` writes so that it reads back: a year, with a
      month from 1 to 20 and a positive day, none of them negative. */
  predicate Writable(range: seq<Option<int>>) {
    1 <= |range| <= 3 && (forall i :: 0 <= i < |range| ==> range[i].Some? && range[i].value >= 0)
    && (|range| >= 2 ==> 1 <= range[1].value <= 20)
    && (|range| == 3 ==> range[2].value >= 1)
  }

  // ---------------------------------------------------------------------
  // One part

  /** A part of a range is written with at least two digits. */
  lemma PartDigits(n: nat)
    ensures AllDigits(PartText(Some(n))) && |PartText(Some(n))| >= 2
  {
  }

  /** A zero in front does not change the value of digits. */
  lemma LeadingZero(d: char)
    requires IsDigit(d)
    ensures DigitsValue("0" + [d]) == DigitValue(d)
  {
    assert ("0" + [d])[..1] == "0";
    assert "0"[..0] == [];
  }

  /** The text of a part reads back as the part. */
  lemma PartReads(n: nat)
    ensures ToNumber(PartText(Some(n))) == Some(n)
  {
    if n >= 10 {
      ToNumberOfNatToString(n);
    } else {
      var s := PartText(Some(n));
      assert s == "0" + NatToString(n);
      TrimOfTrimmed(s);
      DigitRunAll(s);
      LeadingZero(NatToString(n)[0]);
    }
  }

  // ---------------------------------------------------------------------
  // One range

  /** The texts of the parts of a range. */
  function PartTexts(range: seq<Option<int>>): (r: seq<string>)
    ensures |r| == |range| && forall i :: 0 <= i < |range| ==> r[i] == PartText(range[i])
  {
    seq(|range|, i requires 0 <= i < |range| => PartText(range[i]))
  }

  /** Every character of a join is the separator or a character of a part. */
  lemma {:induction false} JoinChars(parts: seq<string>, c: char, x: char)
    requires |parts| >= 1 && x in Join(parts, [c])
    ensures x == c || exists k :: 0 <= k < |parts| && x in parts[k]
    decreases |parts|
  {
    if |parts| >= 2 {
      JoinCons(parts[0], parts[1..], [c]);
      assert [parts[0]] + parts[1..] == parts;
      if x !in parts[0] && x != c {
        JoinChars(parts[1..], c, x);
        var k :| 0 <= k < |parts[1..]| && x in parts[1..][k];
        assert parts[k + 1] == parts[1..][k];
      }
    }
  }

  /** The last character of a join is the last character of the last part,
      when that part is not empty. */
  lemma {:induction false} JoinLast(parts: seq<string>, c: char)
    requires |parts| >= 1 && parts[|parts| - 1] != []
    ensures var s := Join(parts, [c]); s != [] && s[|s| - 1] == parts[|parts| - 1][|parts[|parts| - 1]| - 1]
    decreases |parts|
  {
    if |parts| >= 2 {
      JoinCons(parts[0], parts[1..], [c]);
      assert [parts[0]] + parts[1..] == parts;
      JoinLast(parts[1..], c);
    }
  }

  /** Characters `c` not in a text stay out of its replacement. */
  lemma {:induction false} ReplaceAbsent(s: string, c: char, with: string)
    requires c !in s
    ensures ReplaceChar(s, c, with) == s
    decreases |s|
  {
    if s != [] {
      ReplaceAbsent(s[1..], c, with);
      assert [s[0]] + s[1..] == s;
    }
  }

  /** The text of a writable range holds digits and dashes only, with a
      digit at the start and at the end. */
  lemma RangeShape(range: seq<Option<int>>)
    requires Writable(range)
    ensures var t := RangeText(range);
      t != [] && IsDigit(t[0]) && IsDigit(t[|t| - 1]) && forall x :: x in t ==> IsDigit(x) || x == '-'
  {
    var texts := PartTexts(range);
    assert RangeText(range) == Join(texts, "-");
    forall k | 0 <= k < |texts| ensures AllDigits(texts[k]) && |texts[k]| >= 2 {
      PartDigits(range[k].value);
    }
    forall x | x in Join(texts, "-") ensures IsDigit(x) || x == '-' {
      JoinChars(texts, '-', x);
    }
    JoinLast(texts, '-');
    if |texts| >= 2 {
      JoinCons(texts[0], texts[1..], "-");
      assert [texts[0]] + texts[1..] == texts;
    }
  }

  /** The text of a writable range has no time and no qualifier, and its
      dashes fall between the texts of its parts. */
  lemma RangeSplits(range: seq<Option<int>>)
    requires Writable(range)
    ensures var t := RangeText(range);
      DropQualifier(Split(t, "T")[0]) == t && Split(t, "-") == PartTexts(range)
  {
    var t := RangeText(range);
    var texts := PartTexts(range);
    RangeShape(range);
    assert 'T' !in t;
    assert IndexOfChar(t, 'T') == -1;
    SplitAbsent(t, "T");
    forall k | 0 <= k < |texts| ensures '-' !in texts[k] {
      PartDigits(range[k].value);
    }
    SplitJoinChar(texts, '-');
  }

  /** A text whose dash-separated pieces read as the parts of a writable
      range is read by `parseDate` as that range. */
  lemma PiecesRead(t: string, parts: seq<string>, range: seq<Option<int>>)
    requires Writable(range) && |parts| == |range|
    requires DropQualifier(Split(t, "T")[0]) == t && Split(t, "-") == parts
    requires YearText(parts[0]) == parts[0]
    requires forall i :: 0 <= i < |parts| ==> ToNumber(parts[i]) == range[i]
    ensures ParseDate(t) == range
  {
  }

  /** `parseDate` reads the text of a writable range as the range. */
  lemma RangeReads(range: seq<Option<int>>)
    requires Writable(range)
    ensures ParseDate(RangeText(range)) == range
  {
    var texts := PartTexts(range);
    RangeSplits(range);
    PartDigits(range[0].value);
    ReplaceAbsent(texts[0], 'X', "0");
    forall i | 0 <= i < |texts| ensures ToNumber(texts[i]) == range[i] {
      PartReads(range[i].value);
    }
    PiecesRead(RangeText(range), texts, range);
  }

  // ---------------------------------------------------------------------
  // Whole dates

  /** The texts of the ranges of a date. */
  function RangeTexts(ranges: seq<Option<seq<Option<int>>>>): (r: seq<string>)
    requires forall i :: 0 <= i < |ranges| ==> ranges[i].Some?
    ensures |r| == |ranges| && forall i :: 0 <= i < |ranges| ==> r[i] == RangeText(ranges[i].value)
  {
    seq(|ranges|, i requires 0 <= i < |ranges| => RangeText(ranges[i].value))
  }

  /** A date whose ranges are all writable is written by `DATE.toSource` and
      read back by `DATE.toTarget` as the same date, on either reading. */
  lemma DateRoundTrip(ranges: seq<Option<seq<Option<int>>>>, reading: Reading)
    requires |ranges| >= 1 && forall i :: 0 <= i < |ranges| ==> ranges[i].Some? && Writable(ranges[i].value)
    ensures var s := DateToSource(Parts(ranges));
      s.Ok? && s.value.Some? && DateToTarget(s.value.value, reading) == Ok(Parts(ranges))
  {
    var texts := RangeTexts(ranges);
    var text := Join(texts, "/");
    assert DateToSource(Parts(ranges)) == Ok(Some(text));
    forall k | 0 <= k < |texts| ensures '/' !in texts[k] && texts[k] != "" && texts[k] != ".." && ParseDate(texts[k]) == ranges[k].value {
      RangeShape(ranges[k].value);
      RangeReads(ranges[k].value);
      assert texts[k][0] != '.';
    }
    SplitJoinChar(texts, '/');
    var ends := Split(text, "/");
    assert ends == texts;
    var parts := seq(|ends|, i requires 0 <= i < |ends| =>
      if ends[i] != "" && ends[i] != ".." then Some(ParseDate(ends[i])) else None);
    assert parts == ranges;
  }

  // ---------------------------------------------------------------------
  // The text of an EDTF date

  /** The time of a date-time is ignored. */
  lemma TimeIgnored(date: string, time: string)
    requires 'T' !in date
    ensures ParseDate(date + "T" + time) == ParseDate(date)
  {
    FirstSeparator(date, 'T', time);
    var s := date + "T" + time;
    assert s[..|date|] == date;
    SplitFirstPiece(s, "T");
    assert IndexOfChar(date, 'T') == -1;
    SplitAbsent(date, "T");
  }

  /** A trailing qualifier for an uncertain or approximate date is ignored. */
  lemma QualifierIgnored(date: string, q: char)
    requires q in {'?', '~', '%'} && 'T' !in date
    requires date == [] || date[|date| - 1] !in {'?', '~', '%'}
    ensures ParseDate(date + [q]) == ParseDate(date)
  {
    assert 'T' !in date + [q];
    assert IndexOfChar(date + [q], 'T') == -1;
    assert IndexOfChar(date, 'T') == -1;
    SplitAbsent(date + [q], "T");
    SplitAbsent(date, "T");
    assert (date + [q])[..|date|] == date;
    assert DropQualifier(Split(date + [q], "T")[0]) == DropQualifier(Split(date, "T")[0]);
  }

  lemma YearOfUnspecified()
    ensures YearText("19XX") == "1900"
  {
    assert !LongYear("9XX");
    assert ReplaceChar("19XX", 'X', "0") == "1900";
  }

  lemma NineteenHundred()
    ensures ToNumber("1900") == Some(1900)
  {
    TrimOfTrimmed("1900");
    DigitRunAll("1900");
    assert "1900"[..3] == "190" && "190"[..2] == "19" && "19"[..1] == "1" && "1"[..0] == "";
    assert DigitsValue("1900") == 1900;
  }

  /** Unspecified digits of a year read as zeros. */
  lemma UnspecifiedDigits()
    ensures ParseDate("19XX") == [Some(1900)]
  {
    var d := "19XX";
    assert IndexOfChar(d, 'T') == -1;
    SplitAbsent(d, "T");
    assert DropQualifier(Split(d, "T")[0]) == d;
    assert IndexOfChar(d, '-') == -1;
    SplitAbsent(d, "-");
    YearOfUnspecified();
    NineteenHundred();
  }

  /** As written an interval with an open start, `../2020`, throws; as
      intended it is kept as a literal. */
  lemma OpenStart()
    ensures DateToTarget("../2020", AsWritten) == Err(UndefinedIndex)
    ensures DateToTarget("../2020", Intended) == Ok(Literal(Some("../2020")))
  {
    SplitJoinChar(["..", "2020"], '/');
    assert Join(["..", "2020"], "/") == "../2020";
  }

  // ---------------------------------------------------------------------
  // Months

  predicate LowerLetters(s: string) {
    forall i :: 0 <= i < |s| ==> 'a' <= s[i] <= 'z'
  }

  /** Every key of `MONTHS` is made of lower-case letters. */
  lemma MonthKeysLetters()
    ensures forall i :: 0 <= i < |Months| ==> LowerLetters(Months[i].0)
  {
  }

  /** The abbreviation of month `m` is the key of the `m`-th entry, which
      no earlier entry has. */
  lemma ShortMonthKey(m: int)
    requires 1 <= m <= 12
    ensures Months[m - 1] == (ShortMonths[m - 1], m)
    ensures forall j :: 0 <= j < m - 1 ==> Months[j].0 != Months[m - 1].0
  {
    forall j | 0 <= j < m - 1 ensures Months[j].0 != Months[m - 1].0 {
      assert ShortMonths[j] != ShortMonths[m - 1];
    }
  }

  /** `MONTHS[abbreviation]` is the month's number. */
  lemma ShortMonthLookup(m: int)
    requires 1 <= m <= 12
    ensures Lookup(Months, ShortMonths[m - 1]) == Some(m)
  {
    ShortMonthKey(m);
    LookupAt(Months, m - 1);
  }

  /** A text with a space in it is no key of `MONTHS`. */
  lemma SpacedNotMonth(t: string, k: nat)
    requires k < |t| && t[k] == ' '
    ensures Lookup(Months, t).None?
  {
    MonthKeysLetters();
    assert !LowerLetters(t);
  }

  /** The first white space from `i` on is the first one counted from `i`. */
  lemma {:induction false} SpaceFromAt(s: string, i: nat, k: nat)
    requires i <= k < |s| && IsSpace(s[k]) && forall j :: i <= j < k ==> !IsSpace(s[j])
    ensures SpaceFrom(s, i) == k
    decreases k - i
  {
    if i < k {
      SpaceFromAt(s, i + 1, k);
    }
  }

  /** Two words with one space between them split into the two words. */
  lemma SplitTwoWords(a: string, b: string)
    requires NoneSpace(a) && NoneSpace(b) && b != []
    ensures SplitSpaces(a + " " + b) == [a, b]
  {
    var s := a + " " + b;
    SpaceFromAt(s, 0, |a|);
    assert SpaceEndFrom(s, |a|) == |a| + 1 by {
      assert s[|a| + 1] == b[0];
    }
    assert s[..|a|] == a && s[|a| + 1..] == b;
    assert SpaceFrom(b, 0) == |b|;
  }

  lemma DigitsNoSpace(s: string)
    requires forall i :: 0 <= i < |s| ==> IsDigit(s[i])
    ensures NoneSpace(s)
  {
  }

  /** `parseMonth` on a text that is no number and whose trimmed lower-case
      text is a key of `MONTHS`. */
  lemma ParseMonthName(v: string, m: int)
    requires Falsy(ToNumber(v)) && Lookup(Months, ToLower(Trim(v))) == Some(m)
    ensures ParseMonth(Some(v)) == [Some(m)]
  {
  }

  /** `parseMonth` on a text that is no number, no key of `MONTHS`, and two
      words: a month and a day. */
  lemma ParseMonthDay(v: string, a: string, b: string, m: int, d: int)
    requires Falsy(ToNumber(v))
    requires Lookup(Months, ToLower(Trim(v))).None? && SplitSpaces(ToLower(Trim(v))) == [a, b]
    requires Lookup(Months, a) == Some(m) && ParseInt(b) == Some(d) && d != 0
    ensures ParseMonth(Some(v)) == [Some(m), Some(d)]
  {
  }

  /** A text of lower-case letters, digits and single inner spaces is its own
      trimmed lower-case text. */
  lemma LowerTrimmed(v: string)
    requires v != [] && !IsSpace(v[0]) && !IsSpace(v[|v| - 1])
    requires forall i :: 0 <= i < |v| ==> !('A' <= v[i] <= 'Z')
    ensures ToLower(Trim(v)) == v
  {
    TrimOfTrimmed(v);
  }

  /** The month and the day as `YEAR_MONTH.toSource` writes them start
      with a lower-case letter, end with a digit and hold no upper-case
      letter. */
  lemma MonthDayChars(m: int, d: nat)
    requires 1 <= m <= 12
    ensures NoneSpace(ShortMonths[m - 1])
    ensures var v := ShortMonths[m - 1] + " " + NatToString(d);
      'a' <= v[0] <= 'z' && IsDigit(v[|v| - 1]) && forall i :: 0 <= i < |v| ==> !('A' <= v[i] <= 'Z')
  {
    var a := ShortMonths[m - 1];
    var b := NatToString(d);
    var v := a + " " + b;
    ShortMonthKey(m);
    MonthKeysLetters();
    assert LowerLetters(a);
    assert v[0] == a[0] && v[|v| - 1] == b[|b| - 1];
    forall i | 0 <= i < |v| ensures !('A' <= v[i] <= 'Z') {
      if i < |a| {
        assert v[i] == a[i];
      } else if i > |a| {
        assert v[i] == b[i - |a| - 1];
      }
    }
  }

  /** The month and the day as `YEAR_MONTH.toSource` writes them are no
      number and their own trimmed lower-case text. */
  lemma MonthDayText(m: int, d: nat)
    requires 1 <= m <= 12
    ensures NoneSpace(ShortMonths[m - 1])
    ensures var v := ShortMonths[m - 1] + " " + NatToString(d);
      ToNumber(v).None? && ToLower(Trim(v)) == v
  {
    var v := ShortMonths[m - 1] + " " + NatToString(d);
    MonthDayChars(m, d);
    TrimOfTrimmed(v);
    LowerTrimmed(v);
  }

  /** The month and the day as `YEAR_MONTH.toSource` writes them, read back
      by `parseMonth`. */
  lemma MonthDayReads(m: int, d: nat)
    requires 1 <= m <= 12 && d >= 1
    ensures ParseMonth(Some(ShortMonths[m - 1] + " " + NatToString(d))) == [Some(m), Some(d)]
  {
    var a := ShortMonths[m - 1];
    var b := NatToString(d);
    var v := a + " " + b;
    MonthDayText(m, d);
    SpacedNotMonth(v, |a|);
    DigitsNoSpace(b);
    SplitTwoWords(a, b);
    ShortMonthLookup(m);
    ParseIntOfNatToString(d);
    ParseMonthDay(v, a, b, m, d);
  }

  /** What `YEAR_MONTH.toSource` writes for a year, a month and a day. */
  lemma WriteYearMonthDay(y: nat, m: int, d: nat)
    requires 1 <= m <= 12 && d >= 1
    ensures YearMonthToSource(Parts([Some([Some(y), Some(m), Some(d)])])) ==
      Ok(Some([JsValue.Str(NatToString(y)), JsValue.Str(ShortMonths[m - 1] + " " + NatToString(d))]))
  {
  }

  /** `YEAR_MONTH.toTarget` without a day, on a year that is a number. */
  lemma ReadYearMonth(year: string, y: int, month: string)
    requires ToNumber(year) == Some(y)
    ensures YearMonthToTarget(Some(year), Some(month), None) == Parts([Some([Some(y)] + ParseMonth(Some(month)))])
  {
  }

  /** A year, a month and a day written by `YEAR_MONTH.toSource` as the
      year field and a month field naming the month and the day are read
      back by `YEAR_MONTH.toTarget` as the same date. */
  lemma YearMonthDayRoundTrip(y: nat, m: int, d: nat)
    requires 1 <= m <= 12 && d >= 1
    ensures var month := ShortMonths[m - 1] + " " + NatToString(d);
      YearMonthToSource(Parts([Some([Some(y), Some(m), Some(d)])])) == Ok(Some([JsValue.Str(NatToString(y)), JsValue.Str(month)])) &&
      YearMonthToTarget(Some(NatToString(y)), Some(month), None) == Parts([Some([Some(y), Some(m), Some(d)])])
  {
    var month := ShortMonths[m - 1] + " " + NatToString(d);
    WriteYearMonthDay(y, m, d);
    ToNumberOfNatToString(y);
    MonthDayReads(m, d);
    ReadYearMonth(NatToString(y), y, month);
    assert [Some(y)] + [Some(m), Some(d)] == [Some(y), Some(m), Some(d)];
  }

  /** `parseMonth` on a text that is a number other than 0. */
  lemma ParseMonthNumber(v: string)
    requires !Falsy(ToNumber(v))
    ensures ParseMonth(Some(v)) == [ParseInt(v)]
  {
  }

  /** A year and a month without a day, written by `YEAR_MONTH.toSource`
      with the month as its number, are read back as the same date. */
  lemma YearMonthRoundTrip(y: nat, m: nat)
    requires m >= 1
    ensures YearMonthToSource(Parts([Some([Some(y), Some(m)])])) == Ok(Some([JsValue.Str(NatToString(y)), JsValue.Num(m)]))
    ensures YearMonthToTarget(Some(NatToString(y)), Some(NatToString(m)), None) == Parts([Some([Some(y), Some(m)])])
  {
    ToNumberOfNatToString(y);
    ToNumberOfNatToString(m);
    ParseIntOfNatToString(m);
    ParseMonthNumber(NatToString(m));
    ReadYearMonth(NatToString(y), y, NatToString(m));
    assert [Some(y)] + [Some(m)] == [Some(y), Some(m)];
  }

  lemma TrimMarch()
    ensures Trim(" March ") == "March"
  {
    TrimUnique(" March ", 1, 6);
    assert " March "[1..6] == "March";
  }

  lemma MarchKey()
    ensures Lookup(Months, "march") == Some(3)
  {
    assert Months[14] == ("march", 3);
    forall j | 0 <= j < 14 ensures Months[j].0 != Months[14].0 {
    }
    LookupAt(Months, 14);
  }

  /** A month written out in full, in any case and with spaces around it,
      reads as its number. */
  lemma MonthNameReads()
    ensures ParseMonth(Some(" March ")) == [Some(3)]
  {
    TrimMarch();
    assert ToNumber(" March ").None?;
    assert ToLower("March") == "march";
    MarchKey();
    ParseMonthName(" March ", 3);
  }
}
