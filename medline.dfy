/** The anchored patterns the MedlineDate strategies search a free-text date
    with (pubmed_mapper.py:191-467), each written out as a matcher over the
    string. A matcher returns the named groups it captures, or None.

    Two facts about Python's `re` fix how each pattern is written here:
    - `$` without MULTILINE also matches just before a final newline. Every
      pattern ends in a digit or letter class, so a pattern matches `s` exactly
      when it matches `EndBody(s)`, `s` without that newline.
    - Where a `[a-zA-Z]{3,}` or `[a-zA-Z]+` group is followed by a space, a
      dash or the end, or by `(.*)-(.*)[a-zA-Z]{3}`, giving letters back
      never lets the rest match, so the group is the longest letter run at
      that point (`LetterRun`). */
module Medline {
  import opened Wrappers
  import opened PyBuiltins

  /** Captured groups: `year` (four digits), `word` (the month or season
      text, or the month number of the numeric range pattern) and `day`;
      a group a pattern does not have is "". */
  datatype Groups = Groups(year: string, word: string, day: string)

  function EndBody(s: string): (b: string)
    ensures b == s || (s == b + "\n")
  {
    if |s| > 0 && s[|s| - 1] == '\n' then s[..|s| - 1] else s
  }

  /** `\d{4}` */
  predicate Year4(s: string) {
    |s| == 4 && AllDigits(s)
  }

  /** `\d{1,2}` */
  predicate ShortNumber(s: string) {
    1 <= |s| <= 2 && AllDigits(s)
  }

  /** `[a-zA-Z]{min,}` */
  predicate Word(s: string, min: nat) {
    |s| >= min && AllLetters(s)
  }

  /** The length of the longest run of letters starting at `i`. */
  function LetterRun(s: string, i: nat): (n: nat)
    requires i <= |s|
    ensures i + n <= |s|
    ensures forall k :: i <= k < i + n ==> IsLetter(s[k])
    ensures i + n == |s| || !IsLetter(s[i + n])
    decreases |s| - i
  {
    if i < |s| && IsLetter(s[i]) then 1 + LetterRun(s, i + 1) else 0
  }

  /** A word followed by text that does not start with a letter is the
      whole letter run. */
  lemma {:induction false} LetterRunOfWord(s: string, w: string, rest: string, i: nat)
    requires i <= |s| && s[i..] == w + rest && AllLetters(w)
    requires rest == [] || !IsLetter(rest[0])
    ensures LetterRun(s, i) == |w|
    decreases |w|
  {
    if w == [] {
      if i < |s| {
        assert s[i] == rest[0];
      }
    } else {
      assert s[i] == w[0];
      assert s[i + 1..] == w[1..] + rest;
      LetterRunOfWord(s, w[1..], rest, i + 1);
    }
  }

  /** `^(?P<year>\d{4}) ` */
  predicate YearSpace(b: string) {
    |b| >= 5 && Year4(b[..4]) && b[4] == ' '
  }

  /** `^(?P<year>\d{4})-\d{4} ` */
  predicate YearRangeSpace(b: string) {
    |b| >= 10 && Year4(b[..4]) && b[4] == '-' && Year4(b[5..9]) && b[9] == ' '
  }

  /** `(.*)<sep>(.*)[a-zA-Z]{3}$`: no newline, three letters at the end and
      the separator somewhere before them. */
  predicate RangeTail(r: string, sep: char) {
    && |r| >= 4
    && AllLetters(r[|r| - 3..])
    && (forall k :: 0 <= k < |r| ==> r[k] != '\n')
    && sep in r[..|r| - 3]
  }

  /** `(?P<day>\d{1,2})-\d{1,2}$`: the first number of the pair. */
  function NumberDashNumber(s: string): Option<string>
  {
    if |s| >= 3 && IsDigit(s[0]) && s[1] == '-' && ShortNumber(s[2..]) then Some(s[..1])
    else if |s| >= 4 && IsDigit(s[0]) && IsDigit(s[1]) && s[2] == '-' && ShortNumber(s[3..]) then Some(s[..2])
    else None
  }

  /** What a pair of numbers captures: the first number, and the second
      after the dash. */
  lemma NumberDashNumberCaptures(s: string)
    ensures NumberDashNumber(s).Some? ==>
      var r := NumberDashNumber(s).value;
      && ShortNumber(r) && |r| + 1 < |s| && s[..|r|] == r
      && s[|r|] == '-' && ShortNumber(s[|r| + 1..])
  {
  }

  lemma NumberDashNumberOf(d1: string, d2: string)
    requires ShortNumber(d1) && ShortNumber(d2)
    ensures NumberDashNumber(d1 + "-" + d2) == Some(d1)
  {
    var s := d1 + "-" + d2;
    if |d1| == 1 {
      assert s[..1] == d1 && s[2..] == d2;
    } else {
      assert s[..2] == d1 && s[3..] == d2;
      assert !IsDigit(s[1]) ==> false;
    }
  }

  /** `(?P<day>\d{1,2})-[a-zA-Z]{3} \d{1,2}$`: the first day. */
  function DayDashMonthDay(s: string): Option<string>
  {
    if |s| >= 7 && IsDigit(s[0]) && s[1] == '-' && Word(s[2..5], 3) && s[5] == ' ' && ShortNumber(s[6..]) then
      Some(s[..1])
    else if |s| >= 8 && IsDigit(s[0]) && IsDigit(s[1]) && s[2] == '-' && Word(s[3..6], 3) && s[6] == ' ' && ShortNumber(s[7..]) then
      Some(s[..2])
    else None
  }

  /** What a day-dash-month-day part captures: the first day, then a dash,
      a three-letter month, a space and the last day. */
  lemma DayDashMonthDayCaptures(s: string)
    ensures DayDashMonthDay(s).Some? ==>
      var r := DayDashMonthDay(s).value;
      && ShortNumber(r) && |r| + 5 < |s| && s[..|r|] == r && s[|r|] == '-'
      && Word(s[|r| + 1..|r| + 4], 3) && s[|r| + 4] == ' ' && ShortNumber(s[|r| + 5..])
  {
  }

  /** `^(?P<year>\d{4}$)` */
  function MatchYearOnly(b: string): Option<Groups>
  {
    if Year4(b) then Some(Groups(b, "", "")) else None
  }

  /** `^(?P<year>\d{4}) (?P<month_text>[a-zA-Z]{3,})(.*)<sep>(.*)[a-zA-Z]{3}$` */
  function MatchMonthRange(b: string, sep: char): Option<Groups>
  {
    if !YearSpace(b) then None
    else
      var n := LetterRun(b, 5);
      if n >= 3 && RangeTail(b[5 + n..], sep) then Some(Groups(b[..4], b[5..5 + n], "")) else None
  }

  /** `^(?P<year>\d{4}) (?P<month_text>[a-zA-Z]{3,}) (?P<day>\d{1,2})-\d{1,2}$` */
  function MatchDayRange(b: string): Option<Groups>
  {
    if !YearSpace(b) then None
    else
      var n := LetterRun(b, 5);
      var p := 5 + n;
      if n >= 3 && p < |b| && b[p] == ' ' then
        match NumberDashNumber(b[p + 1..])
        case None => None
        case Some(d1) => Some(Groups(b[..4], b[5..p], d1))
      else None
  }

  /** `^(?P<year>\d{4}) (?P<month_text>[a-zA-Z]{3,})$` */
  function MatchYearMonth(b: string): Option<Groups>
  {
    if YearSpace(b) && Word(b[5..], 3) then Some(Groups(b[..4], b[5..], "")) else None
  }

  /** `^(?P<year>\d{4}) (?P<month_text>[a-zA-Z]{3,})-\d{4} [a-zA-Z]{3}$` */
  function MatchCrossYearMonthRange(b: string): Option<Groups>
  {
    if !YearSpace(b) then None
    else
      var n := LetterRun(b, 5);
      var rest := b[5 + n..];
      if n >= 3 && |rest| == 9 && rest[0] == '-' && Year4(rest[1..5]) && rest[5] == ' ' && Word(rest[6..], 3) then
        Some(Groups(b[..4], b[5..5 + n], ""))
      else None
  }

  /** `^(?P<year>\d{4}) (?P<month_text>\d{1,2})-\d{1,2}$` */
  function MatchNumericMonthRange(b: string): Option<Groups>
  {
    if !YearSpace(b) then None
    else
      match NumberDashNumber(b[5..])
      case None => None
      case Some(m) => Some(Groups(b[..4], m, ""))
  }

  /** `^(?P<year>\d{4})-\d{4}$` */
  function MatchYearRange(b: string): Option<Groups>
  {
    if |b| == 9 && Year4(b[..4]) && b[4] == '-' && Year4(b[5..]) then Some(Groups(b[..4], "", "")) else None
  }

  /** `^(?P<year>\d{4}) (?P<month_text>[a-zA-Z]{3,}) (?P<day>\d{1,2})$` */
  function MatchMonthDay(b: string): Option<Groups>
  {
    if !YearSpace(b) then None
    else
      var n := LetterRun(b, 5);
      var p := 5 + n;
      if n >= 3 && p < |b| && b[p] == ' ' && ShortNumber(b[p + 1..]) then
        Some(Groups(b[..4], b[5..p], b[p + 1..]))
      else None
  }

  /** `^(?P<year>\d{4}) (?P<month_text>[a-zA-Z]{3,}) (?P<day>\d{1,2})-[a-zA-Z]{3} \d{1,2}$` */
  function MatchMonthDayRange(b: string): Option<Groups>
  {
    if !YearSpace(b) then None
    else
      var n := LetterRun(b, 5);
      var p := 5 + n;
      if n >= 3 && p < |b| && b[p] == ' ' then
        match DayDashMonthDay(b[p + 1..])
        case None => None
        case Some(d) =>
          assert b[p + 1..][..|d|] == b[6 + n..6 + n + |d|];
          Some(Groups(b[..4], b[5..p], d))
      else None
  }

  /** `^(?P<year>\d{4}) (?P<season_text>[a-zA-Z]+)$` */
  function MatchYearSeason(b: string): Option<Groups>
  {
    if YearSpace(b) && Word(b[5..], 1) then Some(Groups(b[..4], b[5..], "")) else None
  }

  /** `^(?P<season_text>[a-zA-Z]+) (?P<year>\d{4})$` */
  function MatchSeasonYear(b: string): Option<Groups>
  {
    if |b| >= 6 && Word(b[..|b| - 5], 1) && b[|b| - 5] == ' ' && Year4(b[|b| - 4..]) then
      Some(Groups(b[|b| - 4..], b[..|b| - 5], ""))
    else None
  }

  /** `^(?P<year>\d{4})-\d{4} (?P<season_text>[a-zA-Z]+)$` */
  function MatchYearRangeSeason(b: string): Option<Groups>
  {
    if YearRangeSpace(b) && Word(b[10..], 1) then Some(Groups(b[..4], b[10..], "")) else None
  }

  /** `^(?P<year>\d{4})-\d{4} (?P<season_text>[a-zA-Z]+)-[a-zA-Z]+$` */
  function MatchYearRangeSeasonRange(b: string): Option<Groups>
  {
    if !YearRangeSpace(b) then None
    else
      var n := LetterRun(b, 10);
      var rest := b[10 + n..];
      if n >= 1 && |rest| >= 2 && rest[0] == '-' && Word(rest[1..], 1) then
        Some(Groups(b[..4], b[10..10 + n], ""))
      else None
  }

  /* What each pattern captures: where a pattern matches, the text is the
     captured groups, in the pattern's classes, with the pattern's literal
     parts between them. */

  lemma YearOnlyCaptures(b: string)
    ensures MatchYearOnly(b).Some? ==> Year4(b) && MatchYearOnly(b).value.year == b
  {
  }

  lemma MonthRangeCaptures(b: string, sep: char)
    ensures MatchMonthRange(b, sep).Some? ==>
      var g := MatchMonthRange(b, sep).value;
      var p := 5 + |g.word|;
      && p <= |b| && Year4(g.year) && Word(g.word, 3)
      && b[..4] == g.year && b[4] == ' ' && b[5..p] == g.word && RangeTail(b[p..], sep)
  {
  }

  lemma DayRangeCaptures(b: string)
    ensures MatchDayRange(b).Some? ==>
      var g := MatchDayRange(b).value;
      var p := 5 + |g.word|;
      var q := p + 1 + |g.day|;
      && q < |b| && Year4(g.year) && Word(g.word, 3) && ShortNumber(g.day)
      && b[..4] == g.year && b[4] == ' ' && b[5..p] == g.word && b[p] == ' '
      && b[p + 1..q] == g.day && b[q] == '-' && ShortNumber(b[q + 1..])
  {
    if MatchDayRange(b).Some? {
      var p := 5 + LetterRun(b, 5);
      var s := b[p + 1..];
      NumberDashNumberCaptures(s);
      var n := |NumberDashNumber(s).value|;
      assert b[p + 1..p + 1 + n] == s[..n];
      assert b[p + 2 + n..] == s[n + 1..];
    }
  }

  lemma YearMonthCaptures(b: string)
    ensures MatchYearMonth(b).Some? ==>
      var g := MatchYearMonth(b).value;
      Year4(g.year) && Word(g.word, 3) && b[..4] == g.year && b[4] == ' ' && b[5..] == g.word
  {
  }

  lemma CrossYearCaptures(b: string)
    ensures MatchCrossYearMonthRange(b).Some? ==>
      var g := MatchCrossYearMonthRange(b).value;
      var p := 5 + |g.word|;
      && |b| == p + 9 && Year4(g.year) && Word(g.word, 3)
      && b[..4] == g.year && b[4] == ' ' && b[5..p] == g.word && b[p] == '-'
      && Year4(b[p + 1..p + 5]) && b[p + 5] == ' ' && Word(b[p + 6..], 3)
  {
    if MatchCrossYearMonthRange(b).Some? {
      var p := 5 + LetterRun(b, 5);
      var rest := b[p..];
      assert b[p + 1..p + 5] == rest[1..5] && b[p + 6..] == rest[6..];
    }
  }

  lemma NumericMonthRangeCaptures(b: string)
    ensures MatchNumericMonthRange(b).Some? ==>
      var g := MatchNumericMonthRange(b).value;
      var p := 5 + |g.word|;
      && p < |b| && Year4(g.year) && ShortNumber(g.word)
      && b[..4] == g.year && b[4] == ' ' && b[5..p] == g.word && b[p] == '-' && ShortNumber(b[p + 1..])
  {
    if MatchNumericMonthRange(b).Some? {
      var s := b[5..];
      NumberDashNumberCaptures(s);
      var n := |NumberDashNumber(s).value|;
      assert b[5..5 + n] == s[..n];
      assert b[6 + n..] == s[n + 1..];
    }
  }

  lemma YearRangeCaptures(b: string)
    ensures MatchYearRange(b).Some? ==>
      var g := MatchYearRange(b).value;
      |b| == 9 && Year4(g.year) && b[..4] == g.year && b[4] == '-' && Year4(b[5..])
  {
  }

  lemma MonthDayCaptures(b: string)
    ensures MatchMonthDay(b).Some? ==>
      var g := MatchMonthDay(b).value;
      var p := 5 + |g.word|;
      && p < |b| && Year4(g.year) && Word(g.word, 3) && ShortNumber(g.day)
      && b[..4] == g.year && b[4] == ' ' && b[5..p] == g.word && b[p] == ' ' && b[p + 1..] == g.day
  {
  }

  lemma MonthDayRangeCaptures(b: string)
    ensures MatchMonthDayRange(b).Some? ==>
      var g := MatchMonthDayRange(b).value;
      var p := 5 + |g.word|;
      var q := p + 1 + |g.day|;
      && q + 5 < |b| && Year4(g.year) && Word(g.word, 3) && ShortNumber(g.day)
      && b[..4] == g.year && b[4] == ' ' && b[5..p] == g.word && b[p] == ' '
      && b[p + 1..q] == g.day && b[q] == '-' && Word(b[q + 1..q + 4], 3) && b[q + 4] == ' ' && ShortNumber(b[q + 5..])
  {
    if MatchMonthDayRange(b).Some? {
      var p := 5 + LetterRun(b, 5);
      var s := b[p + 1..];
      DayDashMonthDayCaptures(s);
      var n := |DayDashMonthDay(s).value|;
      var q := p + 1 + n;
      assert b[p + 1..q] == s[..n];
      assert b[q + 1..q + 4] == s[n + 1..n + 4];
      assert b[q + 5..] == s[n + 5..];
    }
  }

  lemma YearSeasonCaptures(b: string)
    ensures MatchYearSeason(b).Some? ==>
      var g := MatchYearSeason(b).value;
      Year4(g.year) && Word(g.word, 1) && b[..4] == g.year && b[4] == ' ' && b[5..] == g.word
  {
  }

  lemma SeasonYearCaptures(b: string)
    ensures MatchSeasonYear(b).Some? ==>
      var g := MatchSeasonYear(b).value;
      && |b| >= 6 && Word(g.word, 1) && Year4(g.year)
      && b[..|b| - 5] == g.word && b[|b| - 5] == ' ' && b[|b| - 4..] == g.year
  {
  }

  lemma YearRangeSeasonCaptures(b: string)
    ensures MatchYearRangeSeason(b).Some? ==>
      var g := MatchYearRangeSeason(b).value;
      && |b| >= 10 && Year4(g.year) && Word(g.word, 1)
      && b[..4] == g.year && b[4] == '-' && Year4(b[5..9]) && b[9] == ' ' && b[10..] == g.word
  {
  }

  lemma YearRangeSeasonRangeCaptures(b: string)
    ensures MatchYearRangeSeasonRange(b).Some? ==>
      var g := MatchYearRangeSeasonRange(b).value;
      var p := 10 + |g.word|;
      && p < |b| && Year4(g.year) && Word(g.word, 1)
      && b[..4] == g.year && b[4] == '-' && Year4(b[5..9]) && b[9] == ' '
      && b[10..p] == g.word && b[p] == '-' && Word(b[p + 1..], 1)
  {
  }

  /** The groups every pattern captures are short where `int()` reads
      them: four digits of year, at most two of day, and a month group of at
      most two digits or of letters only. */
  predicate Narrow(g: Groups) {
    |g.year| <= 4 && |g.day| <= 2 && (|g.word| <= 2 || AllLetters(g.word))
  }

  lemma CapturesNarrowEarly(b: string)
    ensures MatchYearOnly(b).Some? ==> Narrow(MatchYearOnly(b).value)
    ensures MatchMonthRange(b, '-').Some? ==> Narrow(MatchMonthRange(b, '-').value)
    ensures MatchMonthRange(b, '/').Some? ==> Narrow(MatchMonthRange(b, '/').value)
    ensures MatchDayRange(b).Some? ==> Narrow(MatchDayRange(b).value)
    ensures MatchYearMonth(b).Some? ==> Narrow(MatchYearMonth(b).value)
    ensures MatchCrossYearMonthRange(b).Some? ==> Narrow(MatchCrossYearMonthRange(b).value)
    ensures MatchNumericMonthRange(b).Some? ==> Narrow(MatchNumericMonthRange(b).value)
  {
    MonthRangeCaptures(b, '-');
    MonthRangeCaptures(b, '/');
    DayRangeCaptures(b);
    YearMonthCaptures(b);
    CrossYearCaptures(b);
    NumericMonthRangeCaptures(b);
  }

  lemma CapturesNarrowLate(b: string)
    ensures MatchYearRange(b).Some? ==> Narrow(MatchYearRange(b).value)
    ensures MatchMonthDay(b).Some? ==> Narrow(MatchMonthDay(b).value)
    ensures MatchMonthDayRange(b).Some? ==> Narrow(MatchMonthDayRange(b).value)
    ensures MatchYearSeason(b).Some? ==> Narrow(MatchYearSeason(b).value)
    ensures MatchSeasonYear(b).Some? ==> Narrow(MatchSeasonYear(b).value)
    ensures MatchYearRangeSeason(b).Some? ==> Narrow(MatchYearRangeSeason(b).value)
    ensures MatchYearRangeSeasonRange(b).Some? ==> Narrow(MatchYearRangeSeasonRange(b).value)
  {
    MonthDayCaptures(b);
    MonthDayRangeCaptures(b);
    YearSeasonCaptures(b);
    SeasonYearCaptures(b);
    YearRangeSeasonCaptures(b);
    YearRangeSeasonRangeCaptures(b);
  }

  /** "1976": only the bare-year pattern matches. */
  lemma YearShape(y: string)
    requires Year4(y)
    ensures MatchYearOnly(y) == Some(Groups(y, "", ""))
  {
  }

  /** A separator followed by a word of three or more letters ends a month
      range. */
  lemma RangeTailOf(sep: char, w: string)
    requires sep != '\n' && !IsLetter(sep) && Word(w, 3)
    ensures RangeTail([sep] + w, sep)
  {
    var r := [sep] + w;
    assert r[|r| - 3..] == w[|w| - 3..];
    assert r[..|r| - 3][0] == sep;
    forall k | 0 <= k < |r|
      ensures r[k] != '\n'
    {
      if k > 0 {
        assert r[k] == w[k - 1];
      }
    }
  }

  /** Text ending in a digit never ends a month range. */
  lemma NoRangeTailAtDigit(r: string, sep: char)
    requires |r| > 0 && IsDigit(r[|r| - 1])
    ensures !RangeTail(r, sep)
  {
    if |r| >= 4 {
      assert r[|r| - 3..][2] == r[|r| - 1];
    }
  }

  /** "1976 Jan-Feb": the month range pattern takes the first month. */
  lemma MonthRangeShape(y: string, w1: string, w2: string)
    requires Year4(y) && Word(w1, 3) && Word(w2, 3)
    ensures var b := y + " " + w1 + "-" + w2;
      && MatchYearOnly(b).None?
      && MatchMonthRange(b, '-') == Some(Groups(y, w1, ""))
  {
    var b := y + " " + w1 + "-" + w2;
    assert b[5..] == w1 + ("-" + w2);
    LetterRunOfWord(b, w1, "-" + w2, 5);
    assert b[5 + |w1|..] == ['-'] + w2;
    RangeTailOf('-', w2);
    assert b[..4] == y && b[5..5 + |w1|] == w1;
  }

  /** How "1976 Jan 12-18" splits at the positions the patterns look at. */
  lemma DayRangeParts(y: string, w: string, d1: string, d2: string)
    requires Year4(y) && Word(w, 3) && ShortNumber(d1) && ShortNumber(d2)
    ensures var b := y + " " + w + " " + d1 + "-" + d2;
      var p := 5 + LetterRun(b, 5);
      && YearSpace(b) && !Year4(b) && b[..4] == y && LetterRun(b, 5) == |w| && b[5..p] == w
      && p < |b| && b[p] == ' ' && NumberDashNumber(b[p + 1..]) == Some(d1)
      && IsDigit(b[|b| - 1])
  {
    var b := y + " " + w + " " + d1 + "-" + d2;
    var tail := " " + d1 + "-" + d2;
    assert b[5..] == w + tail;
    LetterRunOfWord(b, w, tail, 5);
    var p := 5 + |w|;
    assert b[p..] == tail;
    assert b[|b| - 1] == d2[|d2| - 1];
    assert b[p] == ' ' && b[p + 1..] == d1 + "-" + d2;
    NumberDashNumberOf(d1, d2);
    assert b[..4] == y && b[4] == ' ' && b[5..p] == w;
  }

  /** A text ending in a digit matches neither month range pattern. */
  lemma NoMonthRangeAtDigitEnd(b: string)
    requires |b| >= 5 && IsDigit(b[|b| - 1])
    ensures MatchMonthRange(b, '-').None? && MatchMonthRange(b, '/').None?
  {
    if YearSpace(b) {
      var p := 5 + LetterRun(b, 5);
      if p < |b| {
        assert b[p..][|b[p..]| - 1] == b[|b| - 1];
        NoRangeTailAtDigit(b[p..], '-');
        NoRangeTailAtDigit(b[p..], '/');
      }
    }
  }

  /** A text with a letter where the month number would start does not
      match the numeric month range pattern. */
  lemma NoNumericMonthRangeAtLetter(b: string)
    requires |b| > 5 && IsLetter(b[5])
    ensures MatchNumericMonthRange(b).None?
  {
    assert b[5..][0] == b[5];
  }

  /** The day range pattern on a text whose parts are known: a year, a
      word, a space and a pair of numbers. */
  lemma DayRangeAt(b: string, y: string, w: string, d: string)
    requires |w| >= 3
    requires YearSpace(b) && b[..4] == y && LetterRun(b, 5) == |w| && b[5..5 + LetterRun(b, 5)] == w
    requires 5 + LetterRun(b, 5) < |b| && b[5 + LetterRun(b, 5)] == ' '
    requires NumberDashNumber(b[5 + LetterRun(b, 5) + 1..]) == Some(d)
    ensures MatchDayRange(b) == Some(Groups(y, w, d))
  {
  }

  /** "1976 Jan 12-18": the day range pattern takes the first day. */
  lemma DayRangeShape(y: string, w: string, d1: string, d2: string)
    requires Year4(y) && Word(w, 3) && ShortNumber(d1) && ShortNumber(d2)
    ensures var b := y + " " + w + " " + d1 + "-" + d2;
      && MatchYearOnly(b).None?
      && MatchMonthRange(b, '-').None? && MatchMonthRange(b, '/').None?
      && MatchDayRange(b) == Some(Groups(y, w, d1))
  {
    var b := y + " " + w + " " + d1 + "-" + d2;
    DayRangeParts(y, w, d1, d2);
    NoMonthRangeAtDigitEnd(b);
    DayRangeAt(b, y, w, d1);
  }

  /** "1976 January": the year-month pattern. */
  lemma YearMonthShape(y: string, w: string)
    requires Year4(y) && Word(w, 3)
    ensures var b := y + " " + w;
      && MatchYearOnly(b).None?
      && MatchMonthRange(b, '-').None? && MatchMonthRange(b, '/').None?
      && MatchDayRange(b).None?
      && MatchYearMonth(b) == Some(Groups(y, w, ""))
  {
    var b := y + " " + w;
    LetterRunOfWord(b, w, "", 5);
    assert b[..4] == y && b[5..] == w;
  }

  /** "1976 11-12": the numeric month range pattern takes the first month. */
  lemma NumericMonthRangeShape(y: string, m1: string, m2: string)
    requires Year4(y) && ShortNumber(m1) && ShortNumber(m2)
    ensures var b := y + " " + m1 + "-" + m2;
      && MatchYearOnly(b).None?
      && MatchMonthRange(b, '-').None? && MatchMonthRange(b, '/').None?
      && MatchDayRange(b).None?
      && MatchYearMonth(b).None?
      && MatchCrossYearMonthRange(b).None?
      && MatchNumericMonthRange(b) == Some(Groups(y, m1, ""))
  {
    var b := y + " " + m1 + "-" + m2;
    assert b[5..] == m1 + "-" + m2;
    assert !IsLetter(b[5]);
    NumberDashNumberOf(m1, m2);
    assert b[..4] == y;
  }

  /** The patterns that start with a year and a space fail on a text that
      does not. */
  lemma NoYearSpace(b: string)
    requires !YearSpace(b)
    ensures && MatchMonthRange(b, '-').None? && MatchMonthRange(b, '/').None?
            && MatchDayRange(b).None? && MatchYearMonth(b).None?
            && MatchCrossYearMonthRange(b).None? && MatchNumericMonthRange(b).None?
            && MatchMonthDay(b).None? && MatchMonthDayRange(b).None?
            && MatchYearSeason(b).None?
  {
  }

  /** "1976-1977": the year range pattern takes the first year. */
  lemma YearRangeShape(y1: string, y2: string)
    requires Year4(y1) && Year4(y2)
    ensures var b := y1 + "-" + y2;
      && MatchYearOnly(b).None?
      && MatchMonthRange(b, '-').None? && MatchMonthRange(b, '/').None?
      && MatchDayRange(b).None?
      && MatchYearMonth(b).None?
      && MatchCrossYearMonthRange(b).None? && MatchNumericMonthRange(b).None?
      && MatchYearRange(b) == Some(Groups(y1, "", ""))
  {
    var b := y1 + "-" + y2;
    assert b[4] == '-' && b[..4] == y1 && b[5..] == y2;
    NoYearSpace(b);
  }

  /** "1976 Jan 12": the month-day pattern, after every earlier pattern
      fails. */
  lemma MonthDayShape(y: string, w: string, d: string)
    requires Year4(y) && Word(w, 3) && ShortNumber(d)
    ensures var b := y + " " + w + " " + d;
      && MatchYearOnly(b).None?
      && MatchMonthRange(b, '-').None? && MatchMonthRange(b, '/').None?
      && MatchDayRange(b).None?
      && MatchYearMonth(b).None?
      && MatchCrossYearMonthRange(b).None? && MatchNumericMonthRange(b).None?
      && MatchYearRange(b).None?
      && MatchMonthDay(b) == Some(Groups(y, w, d))
  {
    var b := y + " " + w + " " + d;
    MonthDayParts(y, w, d);
    NoMonthRangeAtDigitEnd(b);
    NoNumericMonthRangeAtLetter(b);
    MonthDayAt(b, y, w, d);
  }

  /** How "1976 Jan 12" splits at the positions the patterns look at. */
  lemma MonthDayParts(y: string, w: string, d: string)
    requires Year4(y) && Word(w, 3) && ShortNumber(d)
    ensures var b := y + " " + w + " " + d;
      var p := 5 + LetterRun(b, 5);
      && YearSpace(b) && !Year4(b) && |b| != 9 && b[..4] == y && LetterRun(b, 5) == |w| && b[5..p] == w
      && p < |b| && b[p] == ' ' && b[p + 1..] == d && IsLetter(b[5]) && IsDigit(b[|b| - 1])
  {
    var b := y + " " + w + " " + d;
    var tail := " " + d;
    assert b[5..] == w + tail;
    LetterRunOfWord(b, w, tail, 5);
    var p := 5 + |w|;
    assert b[p..] == tail && b[p] == ' ' && b[p + 1..] == d;
    assert b[5] == w[0] && b[|b| - 1] == d[|d| - 1];
    assert b[..4] == y && b[4] == ' ' && b[5..p] == w;
  }

  /** The patterns that start with a year, a word and what follows it, on
      a year, a word, a space and a short number. */
  lemma MonthDayAt(b: string, y: string, w: string, d: string)
    requires |w| >= 3 && ShortNumber(d)
    requires YearSpace(b) && b[..4] == y && LetterRun(b, 5) == |w| && b[5..5 + LetterRun(b, 5)] == w
    requires 5 + LetterRun(b, 5) < |b| && b[5 + LetterRun(b, 5)] == ' ' && b[5 + LetterRun(b, 5) + 1..] == d
    ensures && MatchDayRange(b).None? && MatchYearMonth(b).None? && MatchCrossYearMonthRange(b).None?
            && MatchMonthDay(b) == Some(Groups(y, w, d))
  {
    var p := 5 + LetterRun(b, 5);
    assert b[5..][p - 5] == b[p];
  }

  /** "1976 Winter": the year-season pattern; the earlier patterns fail,
      except the year-month one for a word of three letters or more. */
  lemma YearSeasonShape(y: string, w: string)
    requires Year4(y) && Word(w, 1)
    ensures var b := y + " " + w;
      && MatchYearOnly(b).None?
      && MatchMonthRange(b, '-').None? && MatchMonthRange(b, '/').None?
      && MatchDayRange(b).None?
      && MatchCrossYearMonthRange(b).None? && MatchNumericMonthRange(b).None?
      && MatchYearRange(b).None?
      && MatchMonthDay(b).None? && MatchMonthDayRange(b).None?
      && MatchYearSeason(b) == Some(Groups(y, w, ""))
  {
    var b := y + " " + w;
    assert b[5..] == w + "";
    LetterRunOfWord(b, w, "", 5);
    assert !IsDigit(b[5]);
    assert b[..4] == y && b[4] == ' ' && b[5..] == w;
  }

  /** "Winter 1976": only the season-year pattern matches. */
  lemma SeasonYearShape(w: string, y: string)
    requires Word(w, 1) && Year4(y)
    ensures var b := w + " " + y;
      && MatchYearOnly(b).None?
      && MatchMonthRange(b, '-').None? && MatchMonthRange(b, '/').None?
      && MatchDayRange(b).None?
      && MatchYearMonth(b).None?
      && MatchCrossYearMonthRange(b).None? && MatchNumericMonthRange(b).None?
      && MatchYearRange(b).None?
      && MatchMonthDay(b).None? && MatchMonthDayRange(b).None?
      && MatchYearSeason(b).None?
      && MatchSeasonYear(b) == Some(Groups(y, w, ""))
  {
    var b := w + " " + y;
    assert b[0] == w[0] && !IsDigit(b[0]);
    assert !Year4(b[..4]) by {
      assert b[..4][0] == b[0];
    }
    NoYearSpace(b);
    assert b[..|b| - 5] == w && b[|b| - 5] == ' ' && b[|b| - 4..] == y;
  }

  /** "1976-1977 Winter": the year-range season pattern takes the first
      year. */
  lemma YearRangeSeasonShape(y1: string, y2: string, w: string)
    requires Year4(y1) && Year4(y2) && Word(w, 1)
    ensures var b := y1 + "-" + y2 + " " + w;
      && MatchYearOnly(b).None?
      && MatchMonthRange(b, '-').None? && MatchMonthRange(b, '/').None?
      && MatchDayRange(b).None?
      && MatchYearMonth(b).None?
      && MatchCrossYearMonthRange(b).None? && MatchNumericMonthRange(b).None?
      && MatchYearRange(b).None?
      && MatchMonthDay(b).None? && MatchMonthDayRange(b).None?
      && MatchYearSeason(b).None? && MatchSeasonYear(b).None?
      && MatchYearRangeSeason(b) == Some(Groups(y1, w, ""))
  {
    var b := y1 + "-" + y2 + " " + w;
    assert b[4] == '-' && b[0] == y1[0];
    NoYearSpace(b);
    assert b[..|b| - 5][0] == b[0];
    assert b[..4] == y1 && b[5..9] == y2 && b[9] == ' ' && b[10..] == w;
  }

  /** How "1977-1978 Fall-Winter" splits at the positions the patterns look
      at. */
  lemma YearSeasonRangeParts(y1: string, y2: string, w1: string, w2: string)
    requires Year4(y1) && Year4(y2) && Word(w1, 1) && Word(w2, 1)
    ensures var b := y1 + "-" + y2 + " " + w1 + "-" + w2;
      && YearRangeSpace(b) && !YearSpace(b) && b[..4] == y1
      && LetterRun(b, 10) == |w1| && b[10..10 + |w1|] == w1 && b[10 + |w1|..] == "-" + w2
      && IsDigit(b[..|b| - 5][0]) && b[10..][|w1|] == '-'
  {
    var b := y1 + "-" + y2 + " " + w1 + "-" + w2;
    assert b[4] == '-' && b[0] == y1[0];
    assert b[..|b| - 5][0] == b[0];
    assert b[10..] == w1 + ("-" + w2);
    assert b[10..][|w1|] == '-';
    LetterRunOfWord(b, w1, "-" + w2, 10);
    assert b[10 + |w1|..] == "-" + w2;
    assert b[..4] == y1 && b[5..9] == y2 && b[9] == ' ' && b[10..10 + |w1|] == w1;
  }

  /** "1977-1978 Fall-Winter": the season range pattern takes the first
      year and the first season. */
  lemma YearSeasonRangeShape(y1: string, y2: string, w1: string, w2: string)
    requires Year4(y1) && Year4(y2) && Word(w1, 1) && Word(w2, 1)
    ensures var b := y1 + "-" + y2 + " " + w1 + "-" + w2;
      && MatchYearOnly(b).None?
      && MatchMonthRange(b, '-').None? && MatchMonthRange(b, '/').None?
      && MatchDayRange(b).None?
      && MatchYearMonth(b).None?
      && MatchCrossYearMonthRange(b).None? && MatchNumericMonthRange(b).None?
      && MatchYearRange(b).None?
      && MatchMonthDay(b).None? && MatchMonthDayRange(b).None?
      && MatchYearSeason(b).None? && MatchSeasonYear(b).None?
      && MatchYearRangeSeason(b).None?
      && MatchYearRangeSeasonRange(b) == Some(Groups(y1, w1, ""))
  {
    var b := y1 + "-" + y2 + " " + w1 + "-" + w2;
    YearSeasonRangeParts(y1, y2, w1, w2);
    NoYearSpace(b);
  }

  /** How "1976 Xyz-1977 Jan" splits: the year, the first word up to the
      letter run's end, then a tail that ends a range. */
  lemma CrossYearParts(y1: string, w1: string, y2: string, w2: string)
    requires Year4(y1) && Word(w1, 3) && Year4(y2) && |w2| == 3 && AllLetters(w2)
    ensures var b := y1 + " " + w1 + "-" + y2 + " " + w2;
      var rest := b[5 + |w1|..];
      && YearSpace(b) && b[..4] == y1 && LetterRun(b, 5) == |w1| && b[5..5 + |w1|] == w1
      && RangeTail(rest, '-')
      && |rest| == 9 && rest[0] == '-' && Year4(rest[1..5]) && rest[5] == ' ' && Word(rest[6..], 3)
  {
    var b := y1 + " " + w1 + "-" + y2 + " " + w2;
    var rest := "-" + y2 + " " + w2;
    assert b[5..] == w1 + rest;
    LetterRunOfWord(b, w1, rest, 5);
    var p := 5 + |w1|;
    assert b[p..] == rest;
    assert rest[|rest| - 3..] == w2;
    assert rest[..|rest| - 3][0] == '-';
    assert forall k :: 0 <= k < |rest| ==> rest[k] != '\n' by {
      forall k | 0 <= k < |rest|
        ensures rest[k] != '\n'
      {
        if k >= 6 {
          assert rest[k] == w2[k - 6];
        } else if k >= 1 && k < 5 {
          assert rest[k] == y2[k - 1];
        }
      }
    }
    assert rest[1..5] == y2 && rest[6..] == w2;
    assert b[..4] == y1 && b[5..p] == w1;
  }

  /** "1976 Xyz-1977 Jan": the month range pattern and the cross-year
      pattern both match, each taking the first word. */
  lemma CrossYearShape(y1: string, w1: string, y2: string, w2: string)
    requires Year4(y1) && Word(w1, 3) && Year4(y2) && |w2| == 3 && AllLetters(w2)
    ensures var b := y1 + " " + w1 + "-" + y2 + " " + w2;
      && MatchYearOnly(b).None?
      && MatchMonthRange(b, '-') == Some(Groups(y1, w1, ""))
      && MatchDayRange(b).None?
      && MatchYearMonth(b).None?
      && MatchCrossYearMonthRange(b) == Some(Groups(y1, w1, ""))
  {
    CrossYearParts(y1, w1, y2, w2);
  }

  /** "12-Feb 3" is a day, a dash and a month-day, and not a pair of
      numbers. */
  lemma DayDashMonthDayOf(d1: string, w2: string, d2: string)
    requires ShortNumber(d1) && Word(w2, 3) && |w2| == 3 && ShortNumber(d2)
    ensures var s := d1 + "-" + w2 + " " + d2;
      && DayDashMonthDay(s) == Some(d1)
      && NumberDashNumber(s).None?
  {
    var s := d1 + "-" + w2 + " " + d2;
    if |d1| == 1 {
      assert s[..1] == d1 && s[2..5] == w2 && s[5] == ' ' && s[6..] == d2;
      assert IsLetter(s[2]);
    } else {
      assert s[..2] == d1 && s[3..6] == w2 && s[6] == ' ' && s[7..] == d2;
      assert IsDigit(s[1]);
    }
  }

  /** How "1976 Jan 12-Feb 3" splits: the year, the month word up to the
      letter run's end, then a space and the day part. */
  lemma MonthDayRangeParts(y: string, w1: string, d1: string, w2: string, d2: string)
    requires Year4(y) && Word(w1, 3) && ShortNumber(d1) && Word(w2, 3) && |w2| == 3 && ShortNumber(d2)
    ensures var b := y + " " + w1 + " " + d1 + "-" + w2 + " " + d2;
      var p := 5 + LetterRun(b, 5);
      && YearSpace(b) && !Year4(b) && |b| != 9 && b[..4] == y && LetterRun(b, 5) == |w1| && b[5..p] == w1
      && p < |b| && b[p] == ' ' && IsLetter(b[5]) && IsDigit(b[|b| - 1])
      && DayDashMonthDay(b[p + 1..]) == Some(d1) && NumberDashNumber(b[p + 1..]).None? && |b[p + 1..]| > 2
  {
    var b := y + " " + w1 + " " + d1 + "-" + w2 + " " + d2;
    var s := d1 + "-" + w2 + " " + d2;
    var tail := " " + s;
    assert b[5..] == w1 + tail;
    LetterRunOfWord(b, w1, tail, 5);
    var p := 5 + |w1|;
    assert b[p..] == tail && b[p] == ' ' && b[p + 1..] == s;
    assert b[5] == w1[0] && b[|b| - 1] == d2[|d2| - 1];
    DayDashMonthDayOf(d1, w2, d2);
    assert b[..4] == y && b[4] == ' ' && b[5..p] == w1;
  }

  /** The patterns that start with a year, a word and what follows it, on
      a year, a word, a space and a day-dash-month-day part. */
  lemma MonthDayRangeAt(b: string, y: string, w: string, d: string)
    requires |w| >= 3
    requires YearSpace(b) && b[..4] == y && LetterRun(b, 5) == |w| && b[5..5 + LetterRun(b, 5)] == w
    requires 5 + LetterRun(b, 5) < |b| && b[5 + LetterRun(b, 5)] == ' '
    requires DayDashMonthDay(b[5 + LetterRun(b, 5) + 1..]) == Some(d)
    requires NumberDashNumber(b[5 + LetterRun(b, 5) + 1..]).None? && |b[5 + LetterRun(b, 5) + 1..]| > 2
    ensures && MatchDayRange(b).None? && MatchYearMonth(b).None? && MatchCrossYearMonthRange(b).None?
            && MatchMonthDay(b).None? && MatchMonthDayRange(b) == Some(Groups(y, w, d))
  {
    var p := 5 + LetterRun(b, 5);
    assert b[5..][p - 5] == b[p];
  }

  /** Every pattern up to the month-day range one, on a text split as
      "1976 Jan 12-Feb 3" is. */
  lemma MonthDayRangeAll(b: string, y: string, w: string, d: string)
    requires YearSpace(b) && b[..4] == y && LetterRun(b, 5) == |w| && b[5..5 + LetterRun(b, 5)] == w
    requires 5 + LetterRun(b, 5) < |b| && b[5 + LetterRun(b, 5)] == ' '
    requires |w| >= 3 && !Year4(b) && |b| != 9 && IsLetter(b[5]) && IsDigit(b[|b| - 1])
    requires DayDashMonthDay(b[5 + LetterRun(b, 5) + 1..]) == Some(d)
    requires NumberDashNumber(b[5 + LetterRun(b, 5) + 1..]).None? && |b[5 + LetterRun(b, 5) + 1..]| > 2
    ensures && MatchYearOnly(b).None?
            && MatchMonthRange(b, '-').None? && MatchMonthRange(b, '/').None?
            && MatchDayRange(b).None?
            && MatchYearMonth(b).None?
            && MatchCrossYearMonthRange(b).None? && MatchNumericMonthRange(b).None?
            && MatchYearRange(b).None?
            && MatchMonthDay(b).None?
            && MatchMonthDayRange(b) == Some(Groups(y, w, d))
  {
    NoMonthRangeAtDigitEnd(b);
    NoNumericMonthRangeAtLetter(b);
    MonthDayRangeAt(b, y, w, d);
  }

  /** "1976 Jan 12-Feb 3": the patterns before the month-day range one all
      fail on it, and the month-day range pattern takes the year, the first
      month and the first day. */
  lemma MonthDayRangeShape(y: string, w1: string, d1: string, w2: string, d2: string)
    requires Year4(y) && Word(w1, 3) && ShortNumber(d1) && Word(w2, 3) && |w2| == 3 && ShortNumber(d2)
    ensures var b := y + " " + w1 + " " + d1 + "-" + w2 + " " + d2;
      && MatchYearOnly(b).None?
      && MatchMonthRange(b, '-').None? && MatchMonthRange(b, '/').None?
      && MatchDayRange(b).None?
      && MatchYearMonth(b).None?
      && MatchCrossYearMonthRange(b).None? && MatchNumericMonthRange(b).None?
      && MatchYearRange(b).None?
      && MatchMonthDay(b).None?
      && MatchMonthDayRange(b) == Some(Groups(y, w1, d1))
  {
    var b := y + " " + w1 + " " + d1 + "-" + w2 + " " + d2;
    MonthDayRangeParts(y, w1, d1, w2, d2);
    MonthDayRangeAll(b, y, w1, d1);
  }
}
