/** What `parse_pubdate` does with the common shapes of `<PubDate>`:
    structured Year/Month/Day/Season children first, then the MedlineDate
    free text, ranges resolving to their earliest bound. */
module PubdateProperties {
  import opened Wrappers
  import opened PyBuiltins
  import opened Calendar
  import opened Xml
  import opened Medline
  import opened Pubdate

  /** Texts as extraction yields them: a text that is present is not empty. */
  predicate Extracted(t: PubDateTexts) {
    && (t.year.Some? ==> t.year.value != "")
    && (t.month.Some? ==> t.month.value != "")
    && (t.day.Some? ==> t.day.value != "")
    && (t.season.Some? ==> t.season.value != "")
    && (t.medlineDate.Some? ==> t.medlineDate.value != "")
  }

  lemma TextsOfExtracted(e: Element)
    ensures Extracted(TextsOf(e))
  {
    if Text(e, "Year").Some? { TextIsTruthy(e, "Year"); }
    if Text(e, "Month").Some? { TextIsTruthy(e, "Month"); }
    if Text(e, "Day").Some? { TextIsTruthy(e, "Day"); }
    if Text(e, "Season").Some? { TextIsTruthy(e, "Season"); }
    if Text(e, "MedlineDate").Some? { TextIsTruthy(e, "MedlineDate"); }
  }

  /** The date for a structured month and the given year and day. */
  function WithMonth(month: Result<int, PyError>, y: int, d: int): Result<Date, PyError> {
    match month
    case Err(x) => Err(x)
    case Ok(m) => DateResult(y, m, d)
  }

  /** Year, Month and Day give exactly that date, `KeyError` for a month
      name MONTHS lacks, `OverflowError` for a number beyond a C int and
      `ValueError` for a date out of range. */
  lemma StructuredYearMonthDay(t: PubDateTexts, ys: string, ms: string, ds: string)
    requires Extracted(t)
    requires t.year == Some(ys) && t.month == Some(ms) && t.day == Some(ds)
    requires IsDigitString(ys) && IsDigitString(ds)
    ensures Normalize(t) == WithMonth(MonthOfText(ms), DigitsValue(ys), DigitsValue(ds))
  {
    NormalizeAt(t, 0);
  }

  /** Year and Month without a Day give the first of that month. */
  lemma StructuredYearMonth(t: PubDateTexts, ys: string, ms: string)
    requires Extracted(t)
    requires t.year == Some(ys) && t.month == Some(ms) && t.day == None
    requires IsDigitString(ys)
    ensures Normalize(t) == WithMonth(MonthOfText(ms), DigitsValue(ys), 1)
  {
    NormalizeAt(t, 1);
  }

  /** Year and Season without a Month give the first day of the season's
      month; the season is looked up exactly as written, so any spelling
      SEASONS lacks (lower case included) raises `KeyError`. */
  lemma StructuredYearSeason(t: PubDateTexts, ys: string, ss: string)
    requires Extracted(t)
    requires t.year == Some(ys) && t.month == None && t.season == Some(ss)
    requires IsDigitString(ys)
    ensures ss in SEASONS ==> Normalize(t) == DateResult(DigitsValue(ys), SEASONS[ss], 1)
    ensures ss !in SEASONS ==> Normalize(t) == Err(KeyError)
  {
    NormalizeAt(t, 2);
  }

  /** A Year alone gives January 1st of that year (or the exception
      `date()` raises for it). */
  lemma StructuredYearOnly(t: PubDateTexts, ys: string)
    requires Extracted(t)
    requires t.year == Some(ys) && t.month == None && t.season == None
    requires IsDigitString(ys)
    ensures Normalize(t) == DateResult(DigitsValue(ys), 1, 1)
  {
    assert DeclinesBefore(t, 2);
    NormalizeAt(t, 3);
  }

  /** A Year beyond the range of a C int raises `OverflowError`; one
      inside it but past 9999 raises `ValueError`. */
  lemma StructuredYearOutOfRange(t: PubDateTexts, ys: string)
    requires Extracted(t)
    requires t.year == Some(ys) && t.month == None && t.season == None
    requires IsDigitString(ys)
    ensures DigitsValue(ys) >= 0x8000_0000 ==> Normalize(t) == Err(OverflowError)
    ensures 9999 < DigitsValue(ys) < 0x8000_0000 ==> Normalize(t) == Err(ValueError)
  {
    StructuredYearOnly(t, ys);
  }

  /** With a Year present one of the four structured strategies decides:
      the cascade gives what those four give, so no MedlineDate strategy is
      reached, and it never ends in `PubmedMapperError`. */
  lemma YearPresentDecidesEarly(t: PubDateTexts)
    requires Truthy(t.year)
    ensures Normalize(t) == Outcome(FirstDecisive(Outcomes(t)[..4]))
    ensures Normalize(t) != Err(PubmedMapperError)
  {
    var outcomes := Outcomes(t);
    assert outcomes[3] == ParseYearOnly(t);
    ParserDeclared(t, 0);
    ParserDeclared(t, 1);
    ParserDeclared(t, 2);
    ParserDeclared(t, 3);
    DecidedWithin(outcomes, 4);
  }

  /** A cascade whose `k`-th outcome is decisive is decided by its first
      `k` outcomes. */
  lemma DecidedWithin(steps: seq<Step>, k: nat)
    requires 0 < k <= |steps| && !steps[k - 1].NoMatch?
    ensures FirstDecisive(steps) == FirstDecisive(steps[..k])
    ensures !FirstDecisive(steps).NoMatch?
    ensures (forall j :: 0 <= j < k ==> Declared(steps[j])) ==> Declared(FirstDecisive(steps))
  {
    var head := steps[..k];
    assert head[k - 1] == steps[k - 1];
    FirstDecisiveDeclines(head);
    FirstDecisiveIgnoresLater(head, steps[k..]);
    assert head + steps[k..] == steps;
  }

  /** The texts of a `<PubDate>` holding Year, Month and Day written as
      numbers. */
  function NumericTexts(d: Date): PubDateTexts
    requires d.year >= 0 && d.month >= 0 && d.day >= 0
  {
    PubDateTexts(Some(NatToString(d.year)), Some(NatToString(d.month)), Some(NatToString(d.day)), None, None)
  }

  /** Writing a valid date as numeric Year/Month/Day and normalising it
      gives the date back. */
  lemma {:induction false} NumericRoundTrip(d: Date)
    requires ValidDate(d.year, d.month, d.day)
    ensures Normalize(NumericTexts(d)) == Ok(d)
  {
    var t := NumericTexts(d);
    DigitsValueOfNatToString(d.year);
    DigitsValueOfNatToString(d.month);
    DigitsValueOfNatToString(d.day);
    StructuredYearMonthDay(t, NatToString(d.year), NatToString(d.month), NatToString(d.day));
  }

  /** A MedlineDate ending in a letter or a digit is what the patterns
      see. */
  lemma MedlineBodyOf(t: PubDateTexts, b: string)
    requires t.medlineDate == Some(b) && |b| > 0
    requires IsDigit(b[|b| - 1]) || IsLetter(b[|b| - 1])
    ensures MedlineBody(t) == Some(b)
  {
  }

  /** The first six MedlineDate strategies decline when their patterns do
      not match. */
  lemma DeclinesEarly(t: PubDateTexts, b: string)
    requires MedlineBody(t) == Some(b)
    ensures MatchYearOnly(b).None? ==> ParseMedlineYearOnly(t).NoMatch?
    ensures MatchMonthRange(b, '-').None? && MatchMonthRange(b, '/').None? ==> ParseMedlineMonthRange(t).NoMatch?
    ensures MatchDayRange(b).None? ==> ParseMedlineDayRange(t).NoMatch?
    ensures MatchYearMonth(b).None? ==> ParseMedlineFullMonthYear(t).NoMatch?
    ensures MatchCrossYearMonthRange(b).None? && MatchNumericMonthRange(b).None? ==>
      ParseMedlineMonthRangeCrossYear(t).NoMatch?
    ensures MatchYearRange(b).None? ==> ParseMedlineRangeYear(t).NoMatch?
  {
  }

  /** The last four MedlineDate strategies decline when their patterns do
      not match. */
  lemma DeclinesLate(t: PubDateTexts, b: string)
    requires MedlineBody(t) == Some(b)
    ensures MatchMonthDay(b).None? ==> ParseMedlineMonthDay(t).NoMatch?
    ensures MatchMonthDayRange(b).None? ==> ParseMedlineMonthDayRange(t).NoMatch?
    ensures MatchYearSeason(b).None? && MatchSeasonYear(b).None? ==> ParseMedlineYearWithSeason(t).NoMatch?
    ensures MatchYearRangeSeason(b).None? ==> ParseMedlineYearRangeWithSeason(t).NoMatch?
  {
  }

  /** Each MedlineDate strategy declines when its patterns do not match
      the text the patterns see. */
  lemma Declines(t: PubDateTexts, b: string)
    requires MedlineBody(t) == Some(b)
    ensures MatchYearOnly(b).None? ==> ParseMedlineYearOnly(t).NoMatch?
    ensures MatchMonthRange(b, '-').None? && MatchMonthRange(b, '/').None? ==> ParseMedlineMonthRange(t).NoMatch?
    ensures MatchDayRange(b).None? ==> ParseMedlineDayRange(t).NoMatch?
    ensures MatchYearMonth(b).None? ==> ParseMedlineFullMonthYear(t).NoMatch?
    ensures MatchCrossYearMonthRange(b).None? && MatchNumericMonthRange(b).None? ==>
      ParseMedlineMonthRangeCrossYear(t).NoMatch?
    ensures MatchYearRange(b).None? ==> ParseMedlineRangeYear(t).NoMatch?
    ensures MatchMonthDay(b).None? ==> ParseMedlineMonthDay(t).NoMatch?
    ensures MatchMonthDayRange(b).None? ==> ParseMedlineMonthDayRange(t).NoMatch?
    ensures MatchYearSeason(b).None? && MatchSeasonYear(b).None? ==> ParseMedlineYearWithSeason(t).NoMatch?
    ensures MatchYearRangeSeason(b).None? ==> ParseMedlineYearRangeWithSeason(t).NoMatch?
  {
    DeclinesEarly(t, b);
    DeclinesLate(t, b);
  }

  /** What the first six MedlineDate strategies do with the groups their
      patterns capture. */
  lemma TakesEarly(t: PubDateTexts, b: string, g: Groups)
    requires MedlineBody(t) == Some(b)
    ensures MatchYearOnly(b) == Some(g) ==> ParseMedlineYearOnly(t) == FirstOfYear(g)
    ensures MatchMonthRange(b, '-') == Some(g) ==> ParseMedlineMonthRange(t) == FirstOfNamedMonth(g, MONTHS)
    ensures MatchDayRange(b) == Some(g) ==> ParseMedlineDayRange(t) == DayOfNamedMonth(g)
    ensures MatchYearMonth(b) == Some(g) ==> ParseMedlineFullMonthYear(t) == FirstOfNamedMonth(g, MONTHS)
    ensures MatchCrossYearMonthRange(b) == Some(g) ==> ParseMedlineMonthRangeCrossYear(t) == FirstOfNumberedMonth(g)
    ensures MatchCrossYearMonthRange(b).None? && MatchNumericMonthRange(b) == Some(g) ==>
      ParseMedlineMonthRangeCrossYear(t) == FirstOfNumberedMonth(g)
    ensures MatchYearRange(b) == Some(g) ==> ParseMedlineRangeYear(t) == FirstOfYear(g)
  {
  }

  /** What the last five MedlineDate strategies do with the groups their
      patterns capture. */
  lemma TakesLate(t: PubDateTexts, b: string, g: Groups)
    requires MedlineBody(t) == Some(b)
    ensures MatchMonthDay(b) == Some(g) ==> ParseMedlineMonthDay(t) == MonthDayOrRaise(g)
    ensures MatchMonthDayRange(b) == Some(g) ==> ParseMedlineMonthDayRange(t) == MonthDayOrRaise(g)
    ensures MatchYearSeason(b) == Some(g) ==> ParseMedlineYearWithSeason(t) == FirstOfNamedMonth(g, SEASONS)
    ensures MatchYearSeason(b).None? && MatchSeasonYear(b) == Some(g) ==>
      ParseMedlineYearWithSeason(t) == FirstOfNamedMonth(g, SEASONS)
    ensures MatchYearRangeSeason(b) == Some(g) ==> ParseMedlineYearRangeWithSeason(t) == FirstOfNamedMonth(g, SEASONS)
    ensures MatchYearRangeSeasonRange(b) == Some(g) ==> ParseMedlineYearSeasonRange(t) == FirstOfNamedMonth(g, SEASONS)
  {
  }

  /** What a MedlineDate strategy does with the groups its pattern
      captures. */
  lemma Takes(t: PubDateTexts, b: string, g: Groups)
    requires MedlineBody(t) == Some(b)
    ensures MatchYearOnly(b) == Some(g) ==> ParseMedlineYearOnly(t) == FirstOfYear(g)
    ensures MatchMonthRange(b, '-') == Some(g) ==> ParseMedlineMonthRange(t) == FirstOfNamedMonth(g, MONTHS)
    ensures MatchDayRange(b) == Some(g) ==> ParseMedlineDayRange(t) == DayOfNamedMonth(g)
    ensures MatchYearMonth(b) == Some(g) ==> ParseMedlineFullMonthYear(t) == FirstOfNamedMonth(g, MONTHS)
    ensures MatchCrossYearMonthRange(b) == Some(g) ==> ParseMedlineMonthRangeCrossYear(t) == FirstOfNumberedMonth(g)
    ensures MatchCrossYearMonthRange(b).None? && MatchNumericMonthRange(b) == Some(g) ==>
      ParseMedlineMonthRangeCrossYear(t) == FirstOfNumberedMonth(g)
    ensures MatchYearRange(b) == Some(g) ==> ParseMedlineRangeYear(t) == FirstOfYear(g)
    ensures MatchMonthDay(b) == Some(g) ==> ParseMedlineMonthDay(t) == MonthDayOrRaise(g)
    ensures MatchMonthDayRange(b) == Some(g) ==> ParseMedlineMonthDayRange(t) == MonthDayOrRaise(g)
    ensures MatchYearSeason(b) == Some(g) ==> ParseMedlineYearWithSeason(t) == FirstOfNamedMonth(g, SEASONS)
    ensures MatchYearSeason(b).None? && MatchSeasonYear(b) == Some(g) ==>
      ParseMedlineYearWithSeason(t) == FirstOfNamedMonth(g, SEASONS)
    ensures MatchYearRangeSeason(b) == Some(g) ==> ParseMedlineYearRangeWithSeason(t) == FirstOfNamedMonth(g, SEASONS)
    ensures MatchYearRangeSeasonRange(b) == Some(g) ==> ParseMedlineYearSeasonRange(t) == FirstOfNamedMonth(g, SEASONS)
  {
    TakesEarly(t, b, g);
    TakesLate(t, b, g);
  }

  /** The day-range step on well-formed groups: the named day of a month
      MONTHS names, and no match for any other word. */
  lemma DayOfNamedMonthValue(g: Groups)
    requires Year4(g.year) && ShortNumber(g.day)
    ensures Capitalize(g.word) in MONTHS ==>
      DayOfNamedMonth(g) == MakeDate(DigitsValue(g.year), MONTHS[Capitalize(g.word)], DigitsValue(g.day))
    ensures Capitalize(g.word) !in MONTHS ==> DayOfNamedMonth(g) == NoMatch
  {
    assert Int(g.year) == Ok(DigitsValue(g.year));
    assert Int(g.day) == Ok(DigitsValue(g.day));
  }

  /** "1976-1977" without a Year child: January 1st of the first year. */
  lemma MedlineYearRange(t: PubDateTexts, y1: string, y2: string)
    requires !Truthy(t.year) && t.medlineDate == Some(y1 + "-" + y2)
    requires Year4(y1) && Year4(y2)
    ensures Normalize(t) == DateResult(DigitsValue(y1), 1, 1)
  {
    var b := y1 + "-" + y2;
    YearRangeShape(y1, y2);
    MedlineBodyOf(t, b);
    Declines(t, b);
    Takes(t, b, Groups(y1, "", ""));
    ReachesRangeYear(t);
    NormalizeAt(t, 9);
  }

  /** "1976" without a Year child: January 1st of that year. */
  lemma MedlineYearOnly(t: PubDateTexts, y: string)
    requires !Truthy(t.year) && t.medlineDate == Some(y)
    requires Year4(y)
    ensures Normalize(t) == DateResult(DigitsValue(y), 1, 1)
  {
    YearShape(y);
    MedlineBodyOf(t, y);
    Declines(t, y);
    ReachesYearOnly(t);
    NormalizeAt(t, 4);
  }

  /** "1976 Jan-Feb": the first day of the first month. */
  lemma MedlineMonthRange(t: PubDateTexts, y: string, w1: string, w2: string)
    requires !Truthy(t.year) && t.medlineDate == Some(y + " " + w1 + "-" + w2)
    requires Year4(y) && Word(w1, 3) && Word(w2, 3) && Capitalize(w1) in MONTHS
    ensures Normalize(t) == DateResult(DigitsValue(y), MONTHS[Capitalize(w1)], 1)
  {
    MonthRangeShape(y, w1, w2);
    MedlineBodyOf(t, y + " " + w1 + "-" + w2);
    Declines(t, y + " " + w1 + "-" + w2);
    Takes(t, y + " " + w1 + "-" + w2, Groups(y, w1, ""));
    ReachesMonthRange(t);
    NormalizeAt(t, 5);
  }

  /** "1976 Jan 12-18": the first day of the range. */
  lemma MedlineDayRange(t: PubDateTexts, y: string, w: string, d1: string, d2: string)
    requires !Truthy(t.year) && t.medlineDate == Some(y + " " + w + " " + d1 + "-" + d2)
    requires Year4(y) && Word(w, 3) && ShortNumber(d1) && ShortNumber(d2) && Capitalize(w) in MONTHS
    ensures Normalize(t) == DateResult(DigitsValue(y), MONTHS[Capitalize(w)], DigitsValue(d1))
  {
    DayRangeShape(y, w, d1, d2);
    MedlineBodyOf(t, y + " " + w + " " + d1 + "-" + d2);
    Declines(t, y + " " + w + " " + d1 + "-" + d2);
    Takes(t, y + " " + w + " " + d1 + "-" + d2, Groups(y, w, d1));
    DayOfNamedMonthValue(Groups(y, w, d1));
    ReachesDayRange(t);
    NormalizeAt(t, 6);
  }

  /** "1976 January": the first day of that month. */
  lemma MedlineFullMonth(t: PubDateTexts, y: string, w: string)
    requires !Truthy(t.year) && t.medlineDate == Some(y + " " + w)
    requires Year4(y) && Word(w, 3) && Capitalize(w) in MONTHS
    ensures Normalize(t) == DateResult(DigitsValue(y), MONTHS[Capitalize(w)], 1)
  {
    YearMonthShape(y, w);
    MedlineBodyOf(t, y + " " + w);
    Declines(t, y + " " + w);
    Takes(t, y + " " + w, Groups(y, w, ""));
    ReachesFullMonthYear(t);
    NormalizeAt(t, 7);
  }

  /** "1976 11-12": the first day of the first month number. */
  lemma MedlineNumericMonthRange(t: PubDateTexts, y: string, m1: string, m2: string)
    requires !Truthy(t.year) && t.medlineDate == Some(y + " " + m1 + "-" + m2)
    requires Year4(y) && ShortNumber(m1) && ShortNumber(m2)
    ensures Normalize(t) == DateResult(DigitsValue(y), DigitsValue(m1), 1)
  {
    NumericMonthRangeShape(y, m1, m2);
    MedlineBodyOf(t, y + " " + m1 + "-" + m2);
    Declines(t, y + " " + m1 + "-" + m2);
    Takes(t, y + " " + m1 + "-" + m2, Groups(y, m1, ""));
    CapitalizeKeepsDigits(m1);
    ReachesMonthRangeCrossYear(t);
    NormalizeAt(t, 8);
  }

  /** "1976 Dec-1977 Jan": the month range pattern reads it first, giving
      the first day of the first month. */
  lemma MedlineCrossYear(t: PubDateTexts, y1: string, w1: string, y2: string, w2: string)
    requires !Truthy(t.year) && t.medlineDate == Some(y1 + " " + w1 + "-" + y2 + " " + w2)
    requires Year4(y1) && Word(w1, 3) && Year4(y2) && |w2| == 3 && AllLetters(w2)
    requires Capitalize(w1) in MONTHS
    ensures Normalize(t) == DateResult(DigitsValue(y1), MONTHS[Capitalize(w1)], 1)
  {
    CrossYearShape(y1, w1, y2, w2);
    MedlineBodyOf(t, y1 + " " + w1 + "-" + y2 + " " + w2);
    Declines(t, y1 + " " + w1 + "-" + y2 + " " + w2);
    Takes(t, y1 + " " + w1 + "-" + y2 + " " + w2, Groups(y1, w1, ""));
    ReachesMonthRange(t);
    NormalizeAt(t, 5);
  }

  /** The same shape with a first word MONTHS lacks reaches the cross-year
      pattern, whose `int()` of the word raises `ValueError`. */
  lemma MedlineCrossYearRaises(t: PubDateTexts, y1: string, w1: string, y2: string, w2: string)
    requires !Truthy(t.year) && t.medlineDate == Some(y1 + " " + w1 + "-" + y2 + " " + w2)
    requires Year4(y1) && Word(w1, 3) && Year4(y2) && |w2| == 3 && AllLetters(w2)
    requires Capitalize(w1) !in MONTHS
    ensures Normalize(t) == Err(ValueError)
  {
    CrossYearRaisesSteps(t, y1, w1, y2, w2);
    ReachesMonthRangeCrossYear(t);
    NormalizeAt(t, 8);
  }

  lemma CrossYearRaisesSteps(t: PubDateTexts, y1: string, w1: string, y2: string, w2: string)
    requires !Truthy(t.year) && t.medlineDate == Some(y1 + " " + w1 + "-" + y2 + " " + w2)
    requires Year4(y1) && Word(w1, 3) && Year4(y2) && |w2| == 3 && AllLetters(w2)
    requires Capitalize(w1) !in MONTHS
    ensures && ParseMedlineYearOnly(t).NoMatch? && ParseMedlineMonthRange(t).NoMatch?
            && ParseMedlineDayRange(t).NoMatch? && ParseMedlineFullMonthYear(t).NoMatch?
            && ParseMedlineMonthRangeCrossYear(t) == Raised(ValueError)
  {
    CrossYearShape(y1, w1, y2, w2);
    MedlineBodyOf(t, y1 + " " + w1 + "-" + y2 + " " + w2);
    Declines(t, y1 + " " + w1 + "-" + y2 + " " + w2);
    Takes(t, y1 + " " + w1 + "-" + y2 + " " + w2, Groups(y1, w1, ""));
    CapitalizeKeepsLetters(w1);
    ParseIntOfWord(Capitalize(w1));
    assert Int(y1) == Ok(DigitsValue(y1));
    assert Int(Capitalize(w1)) == Err(ValueError);
  }

  /** "1976 Jan 12": that day, or `KeyError` for a month name MONTHS
      lacks. */
  lemma MedlineMonthDay(t: PubDateTexts, y: string, w: string, d: string)
    requires !Truthy(t.year) && t.medlineDate == Some(y + " " + w + " " + d)
    requires Year4(y) && Word(w, 3) && ShortNumber(d)
    ensures Capitalize(w) in MONTHS ==> Normalize(t) == DateResult(DigitsValue(y), MONTHS[Capitalize(w)], DigitsValue(d))
    ensures Capitalize(w) !in MONTHS ==> Normalize(t) == Err(KeyError)
  {
    MonthDayDeclines(t, y, w, d);
    MonthDayValue(t, y, w, d);
    ReachesMonthDay(t);
    NormalizeAt(t, 10);
  }

  lemma MonthDayDeclines(t: PubDateTexts, y: string, w: string, d: string)
    requires t.medlineDate == Some(y + " " + w + " " + d)
    requires Year4(y) && Word(w, 3) && ShortNumber(d)
    ensures && ParseMedlineYearOnly(t).NoMatch? && ParseMedlineMonthRange(t).NoMatch?
            && ParseMedlineDayRange(t).NoMatch? && ParseMedlineFullMonthYear(t).NoMatch?
            && ParseMedlineMonthRangeCrossYear(t).NoMatch? && ParseMedlineRangeYear(t).NoMatch?
  {
    MonthDayShape(y, w, d);
    MedlineBodyOf(t, y + " " + w + " " + d);
    Declines(t, y + " " + w + " " + d);
  }

  lemma MonthDayValue(t: PubDateTexts, y: string, w: string, d: string)
    requires t.medlineDate == Some(y + " " + w + " " + d)
    requires Year4(y) && Word(w, 3) && ShortNumber(d)
    ensures Capitalize(w) in MONTHS ==>
      ParseMedlineMonthDay(t) == MakeDate(DigitsValue(y), MONTHS[Capitalize(w)], DigitsValue(d))
    ensures Capitalize(w) !in MONTHS ==> ParseMedlineMonthDay(t) == Raised(KeyError)
  {
    MonthDayShape(y, w, d);
    MedlineBodyOf(t, y + " " + w + " " + d);
    Takes(t, y + " " + w + " " + d, Groups(y, w, d));
    assert Int(y) == Ok(DigitsValue(y));
    assert Int(d) == Ok(DigitsValue(d));
  }

  /** "1976 Winter": the first day of the season's month. */
  lemma MedlineYearSeason(t: PubDateTexts, y: string, w: string)
    requires !Truthy(t.year) && t.medlineDate == Some(y + " " + w)
    requires Year4(y) && Word(w, 1) && Capitalize(w) in SEASONS
    ensures Normalize(t) == DateResult(DigitsValue(y), SEASONS[Capitalize(w)], 1)
  {
    YearSeasonSteps(t, y, w);
    ReachesYearWithSeason(t);
    NormalizeAt(t, 12);
  }

  lemma YearSeasonSteps(t: PubDateTexts, y: string, w: string)
    requires t.medlineDate == Some(y + " " + w)
    requires Year4(y) && Word(w, 1) && Capitalize(w) in SEASONS
    ensures && ParseMedlineYearOnly(t).NoMatch? && ParseMedlineMonthRange(t).NoMatch?
            && ParseMedlineDayRange(t).NoMatch? && ParseMedlineFullMonthYear(t).NoMatch?
            && ParseMedlineMonthRangeCrossYear(t).NoMatch? && ParseMedlineRangeYear(t).NoMatch?
            && ParseMedlineMonthDay(t).NoMatch? && ParseMedlineMonthDayRange(t).NoMatch?
    ensures ParseMedlineYearWithSeason(t) == MakeDate(DigitsValue(y), SEASONS[Capitalize(w)], 1)
  {
    YearSeasonShape(y, w);
    MedlineBodyOf(t, y + " " + w);
    Declines(t, y + " " + w);
    Takes(t, y + " " + w, Groups(y, w, ""));
    SeasonsAreNotMonths(Capitalize(w));
    assert Int(y) == Ok(DigitsValue(y));
  }

  /** "Winter 1976": the same date. */
  lemma MedlineSeasonYear(t: PubDateTexts, w: string, y: string)
    requires !Truthy(t.year) && t.medlineDate == Some(w + " " + y)
    requires Word(w, 1) && Year4(y) && Capitalize(w) in SEASONS
    ensures Normalize(t) == DateResult(DigitsValue(y), SEASONS[Capitalize(w)], 1)
  {
    SeasonYearSteps(t, w, y);
    ReachesYearWithSeason(t);
    NormalizeAt(t, 12);
  }

  lemma SeasonYearSteps(t: PubDateTexts, w: string, y: string)
    requires t.medlineDate == Some(w + " " + y)
    requires Word(w, 1) && Year4(y) && Capitalize(w) in SEASONS
    ensures && ParseMedlineYearOnly(t).NoMatch? && ParseMedlineMonthRange(t).NoMatch?
            && ParseMedlineDayRange(t).NoMatch? && ParseMedlineFullMonthYear(t).NoMatch?
            && ParseMedlineMonthRangeCrossYear(t).NoMatch? && ParseMedlineRangeYear(t).NoMatch?
            && ParseMedlineMonthDay(t).NoMatch? && ParseMedlineMonthDayRange(t).NoMatch?
    ensures ParseMedlineYearWithSeason(t) == MakeDate(DigitsValue(y), SEASONS[Capitalize(w)], 1)
  {
    SeasonYearShape(w, y);
    MedlineBodyOf(t, w + " " + y);
    Declines(t, w + " " + y);
    Takes(t, w + " " + y, Groups(y, w, ""));
    assert Int(y) == Ok(DigitsValue(y));
  }

  /** "1976-1977 Winter": the season's first day in the first year. */
  lemma MedlineYearRangeSeason(t: PubDateTexts, y1: string, y2: string, w: string)
    requires !Truthy(t.year) && t.medlineDate == Some(y1 + "-" + y2 + " " + w)
    requires Year4(y1) && Year4(y2) && Word(w, 1) && Capitalize(w) in SEASONS
    ensures Normalize(t) == DateResult(DigitsValue(y1), SEASONS[Capitalize(w)], 1)
  {
    YearRangeSeasonSteps(t, y1, y2, w);
    ReachesYearRangeWithSeason(t);
    NormalizeAt(t, 13);
  }

  lemma YearRangeSeasonSteps(t: PubDateTexts, y1: string, y2: string, w: string)
    requires t.medlineDate == Some(y1 + "-" + y2 + " " + w)
    requires Year4(y1) && Year4(y2) && Word(w, 1) && Capitalize(w) in SEASONS
    ensures && ParseMedlineYearOnly(t).NoMatch? && ParseMedlineMonthRange(t).NoMatch?
            && ParseMedlineDayRange(t).NoMatch? && ParseMedlineFullMonthYear(t).NoMatch?
            && ParseMedlineMonthRangeCrossYear(t).NoMatch? && ParseMedlineRangeYear(t).NoMatch?
            && ParseMedlineMonthDay(t).NoMatch? && ParseMedlineMonthDayRange(t).NoMatch?
            && ParseMedlineYearWithSeason(t).NoMatch?
    ensures ParseMedlineYearRangeWithSeason(t) == MakeDate(DigitsValue(y1), SEASONS[Capitalize(w)], 1)
  {
    YearRangeSeasonShape(y1, y2, w);
    MedlineBodyOf(t, y1 + "-" + y2 + " " + w);
    Declines(t, y1 + "-" + y2 + " " + w);
    Takes(t, y1 + "-" + y2 + " " + w, Groups(y1, w, ""));
    assert Int(y1) == Ok(DigitsValue(y1));
  }

  /** "1977-1978 Fall-Winter": the first season's first day in the first
      year. */
  lemma MedlineYearSeasonRange(t: PubDateTexts, y1: string, y2: string, w1: string, w2: string)
    requires !Truthy(t.year) && t.medlineDate == Some(y1 + "-" + y2 + " " + w1 + "-" + w2)
    requires Year4(y1) && Year4(y2) && Word(w1, 1) && Word(w2, 1) && Capitalize(w1) in SEASONS
    ensures Normalize(t) == DateResult(DigitsValue(y1), SEASONS[Capitalize(w1)], 1)
  {
    YearSeasonRangeSteps(t, y1, y2, w1, w2);
    ReachesYearSeasonRange(t);
    NormalizeAt(t, 14);
  }

  lemma YearSeasonRangeSteps(t: PubDateTexts, y1: string, y2: string, w1: string, w2: string)
    requires t.medlineDate == Some(y1 + "-" + y2 + " " + w1 + "-" + w2)
    requires Year4(y1) && Year4(y2) && Word(w1, 1) && Word(w2, 1) && Capitalize(w1) in SEASONS
    ensures && ParseMedlineYearOnly(t).NoMatch? && ParseMedlineMonthRange(t).NoMatch?
            && ParseMedlineDayRange(t).NoMatch? && ParseMedlineFullMonthYear(t).NoMatch?
            && ParseMedlineMonthRangeCrossYear(t).NoMatch? && ParseMedlineRangeYear(t).NoMatch?
            && ParseMedlineMonthDay(t).NoMatch? && ParseMedlineMonthDayRange(t).NoMatch?
            && ParseMedlineYearWithSeason(t).NoMatch? && ParseMedlineYearRangeWithSeason(t).NoMatch?
    ensures ParseMedlineYearSeasonRange(t) == MakeDate(DigitsValue(y1), SEASONS[Capitalize(w1)], 1)
  {
    YearSeasonRangeShape(y1, y2, w1, w2);
    MedlineBodyOf(t, y1 + "-" + y2 + " " + w1 + "-" + w2);
    Declines(t, y1 + "-" + y2 + " " + w1 + "-" + w2);
    Takes(t, y1 + "-" + y2 + " " + w1 + "-" + w2, Groups(y1, w1, ""));
    assert Int(y1) == Ok(DigitsValue(y1));
  }

  /** "1976 Jan 12-Feb 3": the first day, or `KeyError` for a first month
      name MONTHS lacks. */
  lemma MedlineMonthDayRange(t: PubDateTexts, y: string, w1: string, d1: string, w2: string, d2: string)
    requires !Truthy(t.year) && t.medlineDate == Some(y + " " + w1 + " " + d1 + "-" + w2 + " " + d2)
    requires Year4(y) && Word(w1, 3) && ShortNumber(d1) && Word(w2, 3) && |w2| == 3 && ShortNumber(d2)
    ensures Capitalize(w1) in MONTHS ==> Normalize(t) == DateResult(DigitsValue(y), MONTHS[Capitalize(w1)], DigitsValue(d1))
    ensures Capitalize(w1) !in MONTHS ==> Normalize(t) == Err(KeyError)
  {
    MonthDayRangeSteps(t, y, w1, d1, w2, d2);
    ReachesMonthDayRange(t);
    NormalizeAt(t, 11);
  }

  lemma MonthDayRangeSteps(t: PubDateTexts, y: string, w1: string, d1: string, w2: string, d2: string)
    requires t.medlineDate == Some(y + " " + w1 + " " + d1 + "-" + w2 + " " + d2)
    requires Year4(y) && Word(w1, 3) && ShortNumber(d1) && Word(w2, 3) && |w2| == 3 && ShortNumber(d2)
    ensures && ParseMedlineYearOnly(t).NoMatch? && ParseMedlineMonthRange(t).NoMatch?
            && ParseMedlineDayRange(t).NoMatch? && ParseMedlineFullMonthYear(t).NoMatch?
            && ParseMedlineMonthRangeCrossYear(t).NoMatch? && ParseMedlineRangeYear(t).NoMatch?
            && ParseMedlineMonthDay(t).NoMatch?
    ensures ParseMedlineMonthDayRange(t) == MonthDayOrRaise(Groups(y, w1, d1))
  {
    MonthDayRangeShape(y, w1, d1, w2, d2);
    MedlineBodyOf(t, y + " " + w1 + " " + d1 + "-" + w2 + " " + d2);
    Declines(t, y + " " + w1 + " " + d1 + "-" + w2 + " " + d2);
    Takes(t, y + " " + w1 + " " + d1 + "-" + w2 + " " + d2, Groups(y, w1, d1));
  }
}
