/** Reading the delivery date out of a file name such as
    `NOV25.xlsx - NOV 29.csv`: the month word and day number after the last
    hyphen, placed in the operating year. */
module FilenameDate {
  import opened Wrappers
  import opened Text
  import opened Dates
  import opened Numbers

  /** The month keys in the order the month dictionary iterates them. Python
      keeps a repeated key at the position of its first occurrence, so the
      second OCT, NOV and DEC entries change nothing and SEPT comes last. */
  const MonthTable: seq<(string, int)> :=
    [("JAN", 1), ("FEB", 2), ("MAR", 3), ("APR", 4), ("MAY", 5), ("JUN", 6),
     ("JUL", 7), ("AUG", 8), ("SEP", 9), ("OCT", 10), ("NOV", 11), ("DEC", 12),
     ("SEPT", 9)]

  /** Index of the first key, from position `i` of the table on, that
      `word` starts with. */
  function FirstMonthKey(word: string, i: nat): (r: Option<nat>)
    requires i <= |MonthTable|
    ensures r.Some? ==> i <= r.value < |MonthTable|
    decreases |MonthTable| - i
  {
    if i == |MonthTable| then None
    else if StartsWith(word, MonthTable[i].0) then Some(i)
    else FirstMonthKey(word, i + 1)
  }

  /** `FirstMonthKey` is a first-match search: the key it picks is a prefix
      of the word and no earlier key is; `None` means no key is. */
  lemma {:induction false} FirstMonthKeySpec(word: string, i: nat)
    requires i <= |MonthTable|
    ensures var r := FirstMonthKey(word, i);
            (r.Some? ==> StartsWith(word, MonthTable[r.value].0)
                         && forall j :: i <= j < r.value ==> !StartsWith(word, MonthTable[j].0))
            && (r.None? ==> forall j :: i <= j < |MonthTable| ==> !StartsWith(word, MonthTable[j].0))
    decreases |MonthTable| - i
  {
    if i < |MonthTable| && !StartsWith(word, MonthTable[i].0) {
      FirstMonthKeySpec(word, i + 1);
    }
  }

  /** The two groups of the pattern `([A-Z]+)\s*(\d{1,2})`. */
  datatype Token = Token(word: string, digits: string)

  /** End of the run of upper-case letters starting at `i`. */
  function LetterRunEnd(s: string, i: nat): (j: nat)
    requires i <= |s|
    ensures i <= j <= |s|
    decreases |s| - i
  {
    if i < |s| && IsUpperLetter(s[i]) then LetterRunEnd(s, i + 1) else i
  }

  lemma {:induction false} LetterRunEndSpec(s: string, i: nat)
    requires i <= |s|
    ensures var j := LetterRunEnd(s, i);
            (forall k :: i <= k < j ==> IsUpperLetter(s[k])) && (j < |s| ==> !IsUpperLetter(s[j]))
    decreases |s| - i
  {
    if i < |s| && IsUpperLetter(s[i]) {
      LetterRunEndSpec(s, i + 1);
    }
  }

  /** The match of the pattern that starts at position `i`, if any. The
      letter group is greedy, and giving letters back cannot help (the next
      character would be a letter, neither space nor digit), so a match
      takes the whole letter run, the whole space run after it, and one
      digit or two. */
  function MatchAt(s: string, i: nat): Option<Token>
    requires i <= |s|
  {
    if i < |s| && IsUpperLetter(s[i]) then
      var j := LetterRunEnd(s, i);
      var k := FirstNonSpace(s, j);
      if k < |s| && IsDigit(s[k]) then
        var e := if k + 1 < |s| && IsDigit(s[k + 1]) then k + 2 else k + 1;
        Some(Token(s[i..j], s[k..e]))
      else None
    else None
  }

  /** A match is a maximal run of capital letters, then whitespace, then one
      or two digits, all read at position `i` of `s`. */
  lemma MatchAtFound(s: string, i: nat, t: Token)
    requires i <= |s| && MatchAt(s, i) == Some(t)
    ensures var k := FirstNonSpace(s, i + |t.word|);
            |t.word| > 0 && i + |t.word| <= |s| && s[i..i + |t.word|] == t.word
            && (forall m :: 0 <= m < |t.word| ==> IsUpperLetter(t.word[m]))
            && (i + |t.word| < |s| ==> !IsUpperLetter(s[i + |t.word|]))
            && (forall m :: i + |t.word| <= m < k ==> IsSpace(s[m]))
            && 1 <= |t.digits| <= 2 && k + |t.digits| <= |s| && s[k..k + |t.digits|] == t.digits
            && (forall m :: 0 <= m < |t.digits| ==> IsDigit(t.digits[m]))
            && (|t.digits| == 1 && k + 1 < |s| ==> !IsDigit(s[k + 1]))
  {
    LetterRunEndSpec(s, i);
    FirstNonSpaceSpec(s, LetterRunEnd(s, i));
  }

  /** A match exists exactly where a capital letter starts a run followed
      by whitespace and a digit. */
  lemma MatchAtNone(s: string, i: nat)
    requires i <= |s|
    ensures MatchAt(s, i).None? <==>
            (i == |s| || !IsUpperLetter(s[i])
             || var k := FirstNonSpace(s, LetterRunEnd(s, i)); k == |s| || !IsDigit(s[k]))
  {
  }

  /** `re.search`: the leftmost match at or after position `i`. */
  function SearchFrom(s: string, i: nat): Option<Token>
    requires i <= |s|
    decreases |s| - i
  {
    if i == |s| then None
    else if MatchAt(s, i).Some? then MatchAt(s, i)
    else SearchFrom(s, i + 1)
  }

  /** `SearchFrom` returns the match at the first position that has one. */
  lemma {:induction false} SearchFromSpec(s: string, i: nat)
    requires i <= |s|
    ensures SearchFrom(s, i).None? ==> forall j :: i <= j <= |s| ==> MatchAt(s, j).None?
    ensures SearchFrom(s, i).Some? ==>
              exists j :: i <= j < |s| && MatchAt(s, j) == SearchFrom(s, i)
                && forall k :: i <= k < j ==> MatchAt(s, k).None?
    decreases |s| - i
  {
    if i < |s| && MatchAt(s, i).None? {
      SearchFromSpec(s, i + 1);
    }
  }

  /** The part of the name the pattern is searched in: the base name,
      upper-cased, without `.CSV` and `.XLSX`, after the last hyphen,
      stripped. */
  function DayPart(filename: string): string
  {
    var base := Upper(AfterLast(filename, '/'));
    var bare := RemoveAll(RemoveAll(base, ".CSV"), ".XLSX");
    Strip(AfterLast(bare, '-'))
  }

  /** `parse_date_from_filename`: `None` when the pattern is not found, when
      the word starts with no month key, or when the day does not exist in
      that month of 2025 (`datetime` raises and the handler returns `None`). */
  function ParseDateFromFilename(filename: string): (r: Option<Date>)
    ensures r.Some? ==> Valid(r.value)
  {
    match SearchFrom(DayPart(filename), 0)
    case None => None
    case Some(t) =>
      match FirstMonthKey(t.word, 0)
      case None => None
      case Some(k) =>
        var d := Date(MonthTable[k].1, DigitsValue(t.digits));
        if Valid(d) then Some(d) else None
  }

  /** A successful parse comes from a token whose word starts with the table
      key of the resulting month, no earlier key matching, and whose digits
      are the day. */
  lemma ParseDateMeans(filename: string)
    requires ParseDateFromFilename(filename).Some?
    ensures var d := ParseDateFromFilename(filename).value;
            var t := SearchFrom(DayPart(filename), 0);
            t.Some? && DigitsValue(t.value.digits) == d.day
            && exists k :: 0 <= k < |MonthTable| && MonthTable[k].1 == d.month
                 && StartsWith(t.value.word, MonthTable[k].0)
                 && forall j :: 0 <= j < k ==> !StartsWith(t.value.word, MonthTable[j].0)
  {
    var t := SearchFrom(DayPart(filename), 0);
    var k := FirstMonthKey(t.value.word, 0).value;
    FirstMonthKeySpec(t.value.word, 0);
    assert MonthTable[k].1 == ParseDateFromFilename(filename).value.month;
  }

  /** A word starting with no month key, or a day the month does not have,
      gives `None`. */
  lemma ParseDateRejects(filename: string)
    requires SearchFrom(DayPart(filename), 0).Some?
    ensures var w := SearchFrom(DayPart(filename), 0).value.word;
            (forall j :: 0 <= j < |MonthTable| ==> !StartsWith(w, MonthTable[j].0))
            ==> ParseDateFromFilename(filename).None?
    ensures var t := SearchFrom(DayPart(filename), 0).value;
            var k := FirstMonthKey(t.word, 0);
            k.Some? && !Valid(Date(MonthTable[k.value].1, DigitsValue(t.digits)))
            ==> ParseDateFromFilename(filename).None?
  {
    var w := SearchFrom(DayPart(filename), 0).value.word;
    FirstMonthKeySpec(w, 0);
  }

  /** A name with no path, hyphen, dot, lower-case letter or surrounding
      whitespace is its own day part. */
  lemma DayPartPlain(s: string)
    requires '/' !in s && '-' !in s && '.' !in s && Upper(s) == s
    requires |s| > 0 && !IsSpace(s[0]) && !IsSpace(s[|s| - 1])
    ensures DayPart(s) == s
  {
    AfterLastAbsent(s, '/');
    if Contains(s, ".CSV") {
      ContainsCharOf(s, ".CSV", 0);
    }
    RemoveAbsent(s, ".CSV", 0);
    if Contains(s, ".XLSX") {
      ContainsCharOf(s, ".XLSX", 0);
    }
    RemoveAbsent(s, ".XLSX", 0);
    AfterLastAbsent(s, '-');
    StripAt(s, 0, |s|);
  }

  /** The steps of `DayPart` for the example name, one lemma each: the
      upper-cased base name, the removal of `.CSV`, the removal of `.XLSX`,
      and the stripped text after the last hyphen. */
  lemma ExampleBase(n: string)
    requires n == "NOV25.xlsx - NOV 29.csv"
    ensures Upper(AfterLast(n, '/')) == "NOV25.XLSX - NOV 29.CSV"
  {
    AfterLastAbsent(n, '/');
  }

  lemma ExampleRemoveCsv(up: string)
    requires up == "NOV25.XLSX - NOV 29.CSV"
    ensures RemoveAll(up, ".CSV") == "NOV25.XLSX - NOV 29"
  {
    CsvBeforeDot(up);
    CsvAtDot(up);
    CsvAfterDot(up);
    CsvAtEnd(up);
    assert up[0..5] + [up[5]] + up[6..19] == up[..19];
  }

  lemma CsvBeforeDot(up: string)
    requires up == "NOV25.XLSX - NOV 29.CSV"
    ensures RemoveFrom(up, ".CSV", 0) == up[0..5] + RemoveFrom(up, ".CSV", 5)
  {
    RemoveFromSkip(up, ".CSV", 0, 5);
  }

  lemma CsvAtDot(up: string)
    requires up == "NOV25.XLSX - NOV 29.CSV"
    ensures RemoveFrom(up, ".CSV", 5) == [up[5]] + RemoveFrom(up, ".CSV", 6)
  {
    assert !OccursAt(up, ".CSV", 5);
  }

  lemma CsvAfterDot(up: string)
    requires up == "NOV25.XLSX - NOV 29.CSV"
    ensures RemoveFrom(up, ".CSV", 6) == up[6..19] + RemoveFrom(up, ".CSV", 19)
  {
    RemoveFromSkip(up, ".CSV", 6, 19);
  }

  lemma CsvAtEnd(up: string)
    requires up == "NOV25.XLSX - NOV 29.CSV"
    ensures RemoveFrom(up, ".CSV", 19) == ""
  {
    assert OccursAt(up, ".CSV", 19);
    assert RemoveFrom(up, ".CSV", 23) == "";
  }

  lemma ExampleRemoveXlsx(b: string)
    requires b == "NOV25.XLSX - NOV 29"
    ensures RemoveAll(b, ".XLSX") == "NOV25 - NOV 29"
  {
    RemoveFromSkip(b, ".XLSX", 0, 5);
    XlsxAtDot(b);
    RemoveFromSkip(b, ".XLSX", 10, 19);
    assert RemoveFrom(b, ".XLSX", 19) == "";
    assert b[0..5] == "NOV25" && b[10..19] == " - NOV 29";
  }

  lemma XlsxAtDot(b: string)
    requires b == "NOV25.XLSX - NOV 29"
    ensures RemoveFrom(b, ".XLSX", 5) == RemoveFrom(b, ".XLSX", 10)
  {
    assert OccursAt(b, ".XLSX", 5);
  }

  lemma ExampleLastPart(c: string)
    requires c == "NOV25 - NOV 29"
    ensures Strip(AfterLast(c, '-')) == "NOV 29"
  {
    ExampleLastHyphen(c);
    StripNov29(" NOV 29");
  }

  lemma ExampleLastHyphen(c: string)
    requires c == "NOV25 - NOV 29"
    ensures AfterLast(c, '-') == " NOV 29"
  {
    assert c[7..] == " NOV 29";
    AfterLastAt(c, '-', 6);
  }

  lemma StripNov29(t: string)
    requires t == " NOV 29"
    ensures Strip(t) == "NOV 29"
  {
    assert !IsSpace(t[1]) && !IsSpace(t[6]);
    StripAt(t, 1, 7);
  }

  /** The day part of the example name. */
  lemma DayPartExample(n: string)
    requires n == "NOV25.xlsx - NOV 29.csv"
    ensures DayPart(n) == "NOV 29"
  {
    ExampleBase(n);
    ExampleRemoveCsv("NOV25.XLSX - NOV 29.CSV");
    ExampleRemoveXlsx("NOV25.XLSX - NOV 29");
    ExampleLastPart("NOV25 - NOV 29");
  }

  /** The token of a word of three capitals, a space and digits. */
  lemma MatchThreeLetters(s: string)
    requires 5 <= |s| <= 6 && IsUpperLetter(s[0]) && IsUpperLetter(s[1]) && IsUpperLetter(s[2])
    requires s[3] == ' ' && IsDigit(s[4]) && (|s| == 6 ==> IsDigit(s[5]))
    ensures SearchFrom(s, 0) == Some(Token(s[..3], s[4..]))
  {
    assert LetterRunEnd(s, 3) == 3;
    assert LetterRunEnd(s, 2) == 3;
    assert LetterRunEnd(s, 1) == 3;
    assert LetterRunEnd(s, 0) == 3;
    assert FirstNonSpace(s, 4) == 4;
    assert FirstNonSpace(s, 3) == 4;
    assert MatchAt(s, 0) == Some(Token(s[0..3], s[4..|s|]));
    assert s[0..3] == s[..3] && s[4..|s|] == s[4..];
    assert SearchFrom(s, 0) == MatchAt(s, 0);
  }

  /** The token of a word of four capitals, a space and one digit. */
  lemma MatchFourLetters(s: string)
    requires 6 <= |s| && IsUpperLetter(s[0]) && IsUpperLetter(s[1]) && IsUpperLetter(s[2])
    requires IsUpperLetter(s[3]) && s[4] == ' ' && IsDigit(s[5]) && (|s| > 6 ==> !IsDigit(s[6]))
    ensures SearchFrom(s, 0) == Some(Token(s[..4], s[5..6]))
  {
    assert LetterRunEnd(s, 4) == 4;
    assert LetterRunEnd(s, 3) == 4;
    assert LetterRunEnd(s, 2) == 4;
    assert LetterRunEnd(s, 1) == 4;
    assert LetterRunEnd(s, 0) == 4;
    assert FirstNonSpace(s, 5) == 5;
    assert FirstNonSpace(s, 4) == 5;
    assert MatchAt(s, 0) == Some(Token(s[0..4], s[5..6]));
    assert s[0..4] == s[..4];
    assert SearchFrom(s, 0) == MatchAt(s, 0);
  }

  lemma MonthKeyNov()
    ensures FirstMonthKey("NOV", 0) == Some(10)
  {
    assert FirstMonthKey("NOV", 10) == Some(10);
    assert FirstMonthKey("NOV", 8) == Some(10);
    assert FirstMonthKey("NOV", 6) == Some(10);
    assert FirstMonthKey("NOV", 4) == Some(10);
    assert FirstMonthKey("NOV", 2) == Some(10);
  }

  lemma MonthKeySept()
    ensures FirstMonthKey("SEPT", 0) == Some(8)
  {
    assert FirstMonthKey("SEPT", 8) == Some(8);
    assert FirstMonthKey("SEPT", 6) == Some(8);
    assert FirstMonthKey("SEPT", 4) == Some(8);
    assert FirstMonthKey("SEPT", 2) == Some(8);
  }

  lemma MonthKeyWeek()
    ensures FirstMonthKey("WEEK", 0) == None
  {
    assert FirstMonthKey("WEEK", 12) == None;
    assert FirstMonthKey("WEEK", 10) == None;
    assert FirstMonthKey("WEEK", 8) == None;
    assert FirstMonthKey("WEEK", 6) == None;
    assert FirstMonthKey("WEEK", 4) == None;
    assert FirstMonthKey("WEEK", 2) == None;
  }

  /** The parse, given the token and the month key it selects. */
  lemma ParseFromParts(name: string, t: Token, k: nat)
    requires SearchFrom(DayPart(name), 0) == Some(t)
    requires k < |MonthTable| && FirstMonthKey(t.word, 0) == Some(k)
    ensures var d := Date(MonthTable[k].1, DigitsValue(t.digits));
            ParseDateFromFilename(name) == if Valid(d) then Some(d) else None
  {
  }

  /** A name whose token's word starts with month key `k` and with no
      earlier key is dated that month and the token's day, when that day
      exists. */
  lemma ParseDateComplete(name: string, t: Token, k: nat)
    requires SearchFrom(DayPart(name), 0) == Some(t)
    requires k < |MonthTable| && StartsWith(t.word, MonthTable[k].0)
    requires forall j :: 0 <= j < k ==> !StartsWith(t.word, MonthTable[j].0)
    ensures var d := Date(MonthTable[k].1, DigitsValue(t.digits));
            (Valid(d) ==> ParseDateFromFilename(name) == Some(d))
            && (!Valid(d) ==> ParseDateFromFilename(name).None?)
  {
    FirstMonthKeySpec(t.word, 0);
    assert FirstMonthKey(t.word, 0) == Some(k);
    ParseFromParts(name, t, k);
  }

  /** Any name whose token is `NOV 29` is dated 29 November. */
  lemma TokenNov29Parses(name: string)
    requires SearchFrom(DayPart(name), 0) == Some(Token("NOV", "29"))
    ensures ParseDateFromFilename(name) == Some(Date(11, 29))
  {
    MonthKeyNov();
    assert DigitsValue("29") == 29;
    ParseFromParts(name, Token("NOV", "29"), 10);
  }

  /** A word `SEPT` is matched by the earlier key `SEP`, so it means
      September. */
  lemma TokenSeptParses(name: string)
    requires SearchFrom(DayPart(name), 0) == Some(Token("SEPT", "5"))
    ensures ParseDateFromFilename(name) == Some(Date(9, 5))
  {
    MonthKeySept();
    assert DigitsValue("5") == 5;
    ParseFromParts(name, Token("SEPT", "5"), 8);
  }

  /** 29 February does not exist in 2025. */
  lemma TokenFeb29Rejected(name: string)
    requires SearchFrom(DayPart(name), 0) == Some(Token("FEB", "29"))
    ensures ParseDateFromFilename(name) == None
  {
    assert FirstMonthKey("FEB", 0) == Some(1);
    assert DigitsValue("29") == 29;
    ParseFromParts(name, Token("FEB", "29"), 1);
  }

  /** Day 0 and 31 November do not exist. */
  lemma TokenNovDayRejected(name: string, ds: string)
    requires ds == "0" || ds == "00" || ds == "31"
    requires SearchFrom(DayPart(name), 0) == Some(Token("NOV", ds))
    ensures ParseDateFromFilename(name) == None
  {
    MonthKeyNov();
    assert DigitsValue(ds) == 0 || DigitsValue(ds) == 31;
    ParseFromParts(name, Token("NOV", ds), 10);
  }

  /** A word starting with no month key gives `None`. */
  lemma TokenWeekRejected(name: string, ds: string)
    requires SearchFrom(DayPart(name), 0) == Some(Token("WEEK", ds))
    ensures ParseDateFromFilename(name) == None
  {
    MonthKeyWeek();
  }

  lemma ExampleSearch()
    ensures SearchFrom("NOV 29", 0) == Some(Token("NOV", "29"))
  {
    MatchThreeLetters("NOV 29");
    assert "NOV 29"[..3] == "NOV" && "NOV 29"[4..] == "29";
  }

  lemma ExampleToken()
    ensures SearchFrom(DayPart("NOV25.xlsx - NOV 29.csv"), 0) == Some(Token("NOV", "29"))
  {
    DayPartExample("NOV25.xlsx - NOV 29.csv");
    ExampleSearch();
  }

  /** The example name the function was written for. */
  lemma ParseExampleName()
    ensures ParseDateFromFilename("NOV25.xlsx - NOV 29.csv") == Some(Date(11, 29))
  {
    ExampleToken();
    TokenNov29Parses("NOV25.xlsx - NOV 29.csv");
  }

  lemma SeptemberDayPart()
    ensures DayPart("SEPT 5") == "SEPT 5"
  {
    DayPartPlain("SEPT 5");
  }

  lemma SeptemberSearch()
    ensures SearchFrom("SEPT 5", 0) == Some(Token("SEPT", "5"))
  {
    MatchFourLetters("SEPT 5");
    assert "SEPT 5"[..4] == "SEPT" && "SEPT 5"[5..6] == "5";
  }

  lemma ParseSeptember()
    ensures ParseDateFromFilename("SEPT 5") == Some(Date(9, 5))
  {
    SeptemberDayPart();
    SeptemberSearch();
    TokenSeptParses("SEPT 5");
  }

  lemma LeapDayDayPart()
    ensures DayPart("FEB 29") == "FEB 29"
  {
    DayPartPlain("FEB 29");
  }

  lemma LeapDaySearch(s: string)
    requires s == "FEB 29"
    ensures SearchFrom(s, 0) == Some(Token("FEB", "29"))
  {
    MatchThreeLetters(s);
    assert s[..3] == "FEB" && s[4..] == "29";
  }

  lemma ParseNoLeapDay(name: string)
    requires name == "FEB 29"
    ensures ParseDateFromFilename(name) == None
  {
    LeapDayDayPart();
    LeapDaySearch(name);
    TokenFeb29Rejected(name);
  }

  lemma UnknownMonthDayPart()
    ensures DayPart("WEEK 3 NOV 4") == "WEEK 3 NOV 4"
  {
    DayPartPlain("WEEK 3 NOV 4");
  }

  /** The search stops at the first word, `WEEK`, although a month follows. */
  lemma UnknownMonthSearch(s: string)
    requires s == "WEEK 3 NOV 4"
    ensures SearchFrom(s, 0) == Some(Token("WEEK", "3"))
  {
    MatchFourLetters(s);
    assert s[..4] == "WEEK";
    assert s[5..6] == "3";
  }

  lemma ParseUnknownMonth()
    ensures ParseDateFromFilename("WEEK 3 NOV 4") == None
  {
    UnknownMonthDayPart();
    UnknownMonthSearch("WEEK 3 NOV 4");
    TokenWeekRejected("WEEK 3 NOV 4", "3");
  }
}
