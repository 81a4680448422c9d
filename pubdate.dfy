/** Normalising a `<PubDate>` element to a calendar date: the fifteen date
    strategies (pubmed_mapper.py:126-467), their fixed order
    `PUBDATE_PARSERS` (pubmed_mapper.py:470-486) and `parse_pubdate`, which
    takes the first strategy that recognises the element
    (pubmed_mapper.py:745-759).

    A strategy either declines (returns None, here `NoMatch`), returns a
    date, or raises. Nothing in `parse_pubdate` catches, so a strategy that
    raises ends the cascade with that exception. */
module Pubdate {
  import opened Wrappers
  import opened PyBuiltins
  import opened Calendar
  import opened Xml
  import opened Medline

  /** What one strategy does with a `<PubDate>` element. */
  datatype Step = NoMatch | Found(date: Date) | Raised(error: PyError)

  const DEFAULT_MONTH := 1
  const DEFAULT_DAY := 1

  /** A strategy raises only `KeyError` (a name missing from a table),
      `ValueError` (`int()` or `date()`) or `OverflowError` (`date()`). */
  predicate Declared(r: Step) {
    r.Raised? ==> r.error == KeyError || r.error == ValueError || r.error == OverflowError
  }

  /** A MedlineDate strategy raises only `KeyError` or `ValueError`: its
      patterns capture too few digits for `date()` to overflow. */
  predicate MedlineDeclared(r: Step) {
    r.Raised? ==> r.error == KeyError || r.error == ValueError
  }

  /** `date()` reads each argument as a C `int`. */
  predicate FitsCInt(n: int) {
    -0x8000_0000 <= n < 0x8000_0000
  }

  /** `date(year, month, day)`: `OverflowError` when an argument does not
      fit a C int, otherwise a date, or `ValueError` out of range. */
  function MakeDate(y: int, m: int, d: int): (r: Step)
    ensures r.Found? <==> ValidDate(y, m, d)
    ensures r.Found? ==> r.date == Date(y, m, d)
    ensures r.Raised? ==>
      r.error == (if FitsCInt(y) && FitsCInt(m) && FitsCInt(d) then ValueError else OverflowError)
    ensures !r.NoMatch?
  {
    if !(FitsCInt(y) && FitsCInt(m) && FitsCInt(d)) then Raised(OverflowError)
    else if ValidDate(y, m, d) then Found(Date(y, m, d))
    else Raised(ValueError)
  }

  /** The same, as the value `parse_pubdate` returns or raises. */
  function DateResult(y: int, m: int, d: int): Result<Date, PyError> {
    Outcome(MakeDate(y, m, d))
  }

  /** `int(s)` */
  function Int(s: string): (r: Result<int, PyError>)
    ensures IsDigitString(s) ==> r == Ok(DigitsValue(s))
    ensures r.Err? ==> r.error == ValueError
  {
    match ParseInt(s)
    case None => Err(ValueError)
    case Some(v) => Ok(v)
  }

  /** `extract_first(element.xpath('./<tag>/text()'))` */
  function Text(e: Element, tag: string): Option<string> {
    FirstTextAt(e, [tag])
  }

  /** A text node is never empty, so an extracted text is always truthy. */
  lemma TextIsTruthy(e: Element, tag: string)
    requires Text(e, tag).Some?
    ensures Text(e, tag).value != ""
  {
    TextNodesNonEmpty(Select(e, [tag]));
    assert Text(e, tag).value in TextAt(e, [tag]);
  }

  /** The texts the strategies read from a `<PubDate>` element; each
      strategy extracts the ones it needs, and extraction has no effects, so
      reading them once changes nothing. */
  datatype PubDateTexts = PubDateTexts(
    year: Option<string>,
    month: Option<string>,
    day: Option<string>,
    season: Option<string>,
    medlineDate: Option<string>)

  function TextsOf(e: Element): PubDateTexts {
    PubDateTexts(Text(e, "Year"), Text(e, "Month"), Text(e, "Day"), Text(e, "Season"), Text(e, "MedlineDate"))
  }

  /** The month of a structured `<Month>`: a number when the text is all
      digits, otherwise `MONTHS[month_text.capitalize()]`. */
  function MonthOfText(m: string): (r: Result<int, PyError>)
    ensures IsDigitString(m) ==> r == Ok(DigitsValue(m))
    ensures !IsDigitString(m) && Capitalize(m) in MONTHS ==> r == Ok(MONTHS[Capitalize(m)])
    ensures !IsDigitString(m) && Capitalize(m) !in MONTHS ==> r == Err(KeyError)
  {
    if IsDigitString(m) then Int(m)
    else if Capitalize(m) in MONTHS then Ok(MONTHS[Capitalize(m)])
    else Err(KeyError)
  }

  /** Year, Month and Day children (pubmed_mapper.py:133-149). */
  function ParseYearMonthDay(t: PubDateTexts): (r: Step)
    ensures Declared(r)
  {
    var y, m, d := t.year, t.month, t.day;
    if !(Truthy(y) && Truthy(m) && Truthy(d)) then NoMatch
    else
      match MonthOfText(m.value)
      case Err(x) => Raised(x)
      case Ok(month) =>
        match Int(y.value)
        case Err(x) => Raised(x)
        case Ok(year) =>
          match Int(d.value)
          case Err(x) => Raised(x)
          case Ok(day) => MakeDate(year, month, day)
  }

  /** Year and Month children, day 1 (pubmed_mapper.py:152-163). */
  function ParseYearMonth(t: PubDateTexts): (r: Step)
    ensures Declared(r)
  {
    var y, m := t.year, t.month;
    if !(Truthy(y) && Truthy(m)) then NoMatch
    else
      match MonthOfText(m.value)
      case Err(x) => Raised(x)
      case Ok(month) =>
        match Int(y.value)
        case Err(x) => Raised(x)
        case Ok(year) => MakeDate(year, month, DEFAULT_DAY)
  }

  /** Year and Season children: the season text is looked up as it is,
      without capitalising, and only after the year is read
      (pubmed_mapper.py:166-175). */
  function ParseYearSeason(t: PubDateTexts): (r: Step)
    ensures Declared(r)
  {
    var y, s := t.year, t.season;
    if !(Truthy(y) && Truthy(s)) then NoMatch
    else
      match Int(y.value)
      case Err(x) => Raised(x)
      case Ok(year) =>
        if s.value in SEASONS then MakeDate(year, SEASONS[s.value], DEFAULT_DAY)
        else Raised(KeyError)
  }

  /** A Year child alone, January 1st (pubmed_mapper.py:178-188). */
  function ParseYearOnly(t: PubDateTexts): (r: Step)
    ensures Declared(r)
  {
    var y := t.year;
    if !Truthy(y) then NoMatch
    else
      match Int(y.value)
      case Err(x) => Raised(x)
      case Ok(year) => MakeDate(year, DEFAULT_MONTH, DEFAULT_DAY)
  }

  /** The MedlineDate text as the patterns see it, if it is truthy. */
  function MedlineBody(t: PubDateTexts): Option<string> {
    if Truthy(t.medlineDate) then Some(EndBody(t.medlineDate.value)) else None
  }

  /** `int(year)`, then the first day of the month a table gives for the
      capitalised word, or None when the table does not have it. */
  function FirstOfNamedMonth(g: Groups, table: map<string, int>): Step {
    match Int(g.year)
    case Err(x) => Raised(x)
    case Ok(year) =>
      var name := Capitalize(g.word);
      if name in table then MakeDate(year, table[name], DEFAULT_DAY) else NoMatch
  }

  /** `int(year)`, then January 1st of that year. */
  function FirstOfYear(g: Groups): Step {
    match Int(g.year)
    case Err(x) => Raised(x)
    case Ok(year) => MakeDate(year, DEFAULT_MONTH, DEFAULT_DAY)
  }

  /** `int(year)`, then the day of a month MONTHS names; None when it does
      not name the month. */
  function DayOfNamedMonth(g: Groups): Step {
    match Int(g.year)
    case Err(x) => Raised(x)
    case Ok(year) =>
      var name := Capitalize(g.word);
      if name !in MONTHS then NoMatch
      else
        match Int(g.day)
        case Err(x) => Raised(x)
        case Ok(day) => MakeDate(year, MONTHS[name], day)
  }

  /** `int(year)`, then `int(month.capitalize())`, which raises for a month
      name, then the first day of that month. */
  function FirstOfNumberedMonth(g: Groups): Step {
    match Int(g.year)
    case Err(x) => Raised(x)
    case Ok(year) =>
      match Int(Capitalize(g.word))
      case Err(x) => Raised(x)
      case Ok(month) => MakeDate(year, month, DEFAULT_DAY)
  }

  /** `int(year)`, then `MONTHS[word.capitalize()]`, raising `KeyError` for
      a word it does not have, then `int(day)`. */
  function MonthDayOrRaise(g: Groups): Step {
    match Int(g.year)
    case Err(x) => Raised(x)
    case Ok(year) =>
      var name := Capitalize(g.word);
      if name !in MONTHS then Raised(KeyError)
      else
        match Int(g.day)
        case Err(x) => Raised(x)
        case Ok(day) => MakeDate(year, MONTHS[name], day)
  }

  /** `int()` of at most four characters fits a C int. */
  lemma IntFits(s: string)
    requires |s| <= 4
    ensures Int(s).Ok? ==> FitsCInt(Int(s).value)
  {
    ParseIntBound(s);
    Pow10Monotone(|s|, 4);
    assert Pow10(4) == 10000;
  }

  /** On groups the patterns capture, the MedlineDate helpers never make
      `date()` overflow. */
  lemma NarrowDeclared(g: Groups)
    requires Narrow(g)
    ensures MedlineDeclared(FirstOfYear(g))
    ensures MedlineDeclared(FirstOfNamedMonth(g, MONTHS)) && MedlineDeclared(FirstOfNamedMonth(g, SEASONS))
    ensures MedlineDeclared(DayOfNamedMonth(g)) && MedlineDeclared(MonthDayOrRaise(g))
    ensures MedlineDeclared(FirstOfNumberedMonth(g))
  {
    IntFits(g.year);
    IntFits(g.day);
    var name := Capitalize(g.word);
    TablesGiveMonths(name);
    if |g.word| <= 2 {
      IntFits(name);
    } else {
      CapitalizeKeepsLetters(g.word);
      ParseIntOfWord(name);
    }
  }

  /** "1976" (pubmed_mapper.py:191-207). */
  function ParseMedlineYearOnly(t: PubDateTexts): (r: Step)
    ensures MedlineDeclared(r)
  {
    match MedlineBody(t)
    case None => NoMatch
    case Some(b) =>
      match MatchYearOnly(b)
      case None => NoMatch
      case Some(g) => CapturesNarrowEarly(b); NarrowDeclared(g); FirstOfYear(g)
  }

  /** "1976 Jan-Feb", or with `/` (pubmed_mapper.py:210-238). */
  function ParseMedlineMonthRange(t: PubDateTexts): (r: Step)
    ensures MedlineDeclared(r)
  {
    match MedlineBody(t)
    case None => NoMatch
    case Some(b) =>
      var found := if MatchMonthRange(b, '-').Some? then MatchMonthRange(b, '-') else MatchMonthRange(b, '/');
      match found
      case None => NoMatch
      case Some(g) => CapturesNarrowEarly(b); NarrowDeclared(g); FirstOfNamedMonth(g, MONTHS)
  }

  /** "1976 Jan 12-18" (pubmed_mapper.py:241-265). */
  function ParseMedlineDayRange(t: PubDateTexts): (r: Step)
    ensures MedlineDeclared(r)
  {
    match MedlineBody(t)
    case None => NoMatch
    case Some(b) =>
      match MatchDayRange(b)
      case None => NoMatch
      case Some(g) => CapturesNarrowEarly(b); NarrowDeclared(g); DayOfNamedMonth(g)
  }

  /** "1976 January" (pubmed_mapper.py:268-291). */
  function ParseMedlineFullMonthYear(t: PubDateTexts): (r: Step)
    ensures MedlineDeclared(r)
  {
    match MedlineBody(t)
    case None => NoMatch
    case Some(b) =>
      match MatchYearMonth(b)
      case None => NoMatch
      case Some(g) => CapturesNarrowEarly(b); NarrowDeclared(g); FirstOfNamedMonth(g, MONTHS)
  }

  /** "1976 Dec-1977 Jan", or "1976 11-12"; the month group goes through
      `int()`, which raises for a month name (pubmed_mapper.py:294-318). */
  function ParseMedlineMonthRangeCrossYear(t: PubDateTexts): (r: Step)
    ensures MedlineDeclared(r)
  {
    match MedlineBody(t)
    case None => NoMatch
    case Some(b) =>
      var found := if MatchCrossYearMonthRange(b).Some? then MatchCrossYearMonthRange(b) else MatchNumericMonthRange(b);
      match found
      case None => NoMatch
      case Some(g) => CapturesNarrowEarly(b); NarrowDeclared(g); FirstOfNumberedMonth(g)
  }

  /** "1976-1977" (pubmed_mapper.py:321-339). */
  function ParseMedlineRangeYear(t: PubDateTexts): (r: Step)
    ensures MedlineDeclared(r)
  {
    match MedlineBody(t)
    case None => NoMatch
    case Some(b) =>
      match MatchYearRange(b)
      case None => NoMatch
      case Some(g) => CapturesNarrowLate(b); NarrowDeclared(g); FirstOfYear(g)
  }

  /** "1976 Jan 12-Feb 3" (pubmed_mapper.py:342-362). */
  function ParseMedlineMonthDayRange(t: PubDateTexts): (r: Step)
    ensures MedlineDeclared(r)
  {
    match MedlineBody(t)
    case None => NoMatch
    case Some(b) =>
      match MatchMonthDayRange(b)
      case None => NoMatch
      case Some(g) => CapturesNarrowLate(b); NarrowDeclared(g); MonthDayOrRaise(g)
  }

  /** "1976 Jan 12" (pubmed_mapper.py:365-385). */
  function ParseMedlineMonthDay(t: PubDateTexts): (r: Step)
    ensures MedlineDeclared(r)
  {
    match MedlineBody(t)
    case None => NoMatch
    case Some(b) =>
      match MatchMonthDay(b)
      case None => NoMatch
      case Some(g) => CapturesNarrowLate(b); NarrowDeclared(g); MonthDayOrRaise(g)
  }

  /** "1976-1977 Winter" (pubmed_mapper.py:388-411). */
  function ParseMedlineYearRangeWithSeason(t: PubDateTexts): (r: Step)
    ensures MedlineDeclared(r)
  {
    match MedlineBody(t)
    case None => NoMatch
    case Some(b) =>
      match MatchYearRangeSeason(b)
      case None => NoMatch
      case Some(g) => CapturesNarrowLate(b); NarrowDeclared(g); FirstOfNamedMonth(g, SEASONS)
  }

  /** "1976 Winter" or "Winter 1976" (pubmed_mapper.py:414-441). */
  function ParseMedlineYearWithSeason(t: PubDateTexts): (r: Step)
    ensures MedlineDeclared(r)
  {
    match MedlineBody(t)
    case None => NoMatch
    case Some(b) =>
      var found := if MatchYearSeason(b).Some? then MatchYearSeason(b) else MatchSeasonYear(b);
      match found
      case None => NoMatch
      case Some(g) => CapturesNarrowLate(b); NarrowDeclared(g); FirstOfNamedMonth(g, SEASONS)
  }

  /** "1977-1978 Fall-Winter" (pubmed_mapper.py:444-467). */
  function ParseMedlineYearSeasonRange(t: PubDateTexts): (r: Step)
    ensures MedlineDeclared(r)
  {
    match MedlineBody(t)
    case None => NoMatch
    case Some(b) =>
      match MatchYearRangeSeasonRange(b)
      case None => NoMatch
      case Some(g) => CapturesNarrowLate(b); NarrowDeclared(g); FirstOfNamedMonth(g, SEASONS)
  }

  /** How many strategies `PUBDATE_PARSERS` lists. */
  const PARSER_COUNT := 15

  /** `PubdateParser(k)`: the strategies in the order `parse_pubdate`
      consults them. */
  function PubdateParser(k: nat): PubDateTexts -> Step
    requires k < PARSER_COUNT
  {
    if k == 0 then ParseYearMonthDay
    else if k == 1 then ParseYearMonth
    else if k == 2 then ParseYearSeason
    else if k == 3 then ParseYearOnly
    else if k == 4 then ParseMedlineYearOnly
    else if k == 5 then ParseMedlineMonthRange
    else if k == 6 then ParseMedlineDayRange
    else if k == 7 then ParseMedlineFullMonthYear
    else if k == 8 then ParseMedlineMonthRangeCrossYear
    else if k == 9 then ParseMedlineRangeYear
    else if k == 10 then ParseMedlineMonthDay
    else if k == 11 then ParseMedlineMonthDayRange
    else if k == 12 then ParseMedlineYearWithSeason
    else if k == 13 then ParseMedlineYearRangeWithSeason
    else ParseMedlineYearSeasonRange
  }

  /** Every strategy raises only `KeyError`, `ValueError` or
      `OverflowError`, and the MedlineDate ones never `OverflowError`. */
  lemma ParserDeclared(t: PubDateTexts, k: nat)
    requires k < PARSER_COUNT
    ensures Declared(PubdateParser(k)(t))
    ensures 4 <= k ==> MedlineDeclared(PubdateParser(k)(t))
  {
  }

  /** What each strategy does with the texts, in `PUBDATE_PARSERS` order. */
  function Outcomes(t: PubDateTexts): (r: seq<Step>)
    ensures |r| == PARSER_COUNT
    ensures forall j :: 0 <= j < PARSER_COUNT ==> r[j] == PubdateParser(j)(t)
  {
    seq(PARSER_COUNT, j requires 0 <= j < PARSER_COUNT => PubdateParser(j)(t))
  }

  /** The first outcome that is not a decline; NoMatch when every one is. */
  function FirstDecisive(steps: seq<Step>): Step
    decreases |steps|
  {
    if steps == [] then NoMatch
    else if !steps[0].NoMatch? then steps[0]
    else FirstDecisive(steps[1..])
  }

  /** The cascade declines exactly when every outcome does, and raises only
      what its outcomes raise. */
  lemma {:induction false} FirstDecisiveDeclines(steps: seq<Step>)
    ensures FirstDecisive(steps).NoMatch? <==> forall j :: 0 <= j < |steps| ==> steps[j].NoMatch?
    ensures (forall j :: 0 <= j < |steps| ==> Declared(steps[j])) ==> Declared(FirstDecisive(steps))
    ensures (forall j :: 0 <= j < |steps| ==> MedlineDeclared(steps[j])) ==> MedlineDeclared(FirstDecisive(steps))
    decreases |steps|
  {
    if steps != [] {
      FirstDecisiveDeclines(steps[1..]);
      assert forall j :: 1 <= j < |steps| ==> steps[j] == steps[1..][j - 1];
    }
  }

  /** First match wins: the first outcome that is not a decline is the
      result, whatever comes after it. */
  lemma {:induction false} FirstDecisiveAt(steps: seq<Step>, k: nat)
    requires k < |steps|
    requires forall j :: 0 <= j < k ==> steps[j].NoMatch?
    requires !steps[k].NoMatch?
    ensures FirstDecisive(steps) == steps[k]
    decreases k
  {
    if k > 0 {
      FirstDecisiveAt(steps[1..], k - 1);
    }
  }

  /** Outcomes after a decisive one are never consulted: appending more
      does not change the result. */
  lemma {:induction false} FirstDecisiveIgnoresLater(steps: seq<Step>, more: seq<Step>)
    requires !FirstDecisive(steps).NoMatch?
    ensures FirstDecisive(steps + more) == FirstDecisive(steps)
    decreases |steps|
  {
    assert (steps + more)[0] == steps[0];
    if steps[0].NoMatch? {
      assert (steps + more)[1..] == steps[1..] + more;
      FirstDecisiveIgnoresLater(steps[1..], more);
    }
  }

  /** What `parse_pubdate` returns or raises for the outcome of the
      cascade: a date, the strategy's exception, or `PubmedMapperError` when
      every strategy declined. */
  function Outcome(s: Step): Result<Date, PyError> {
    match s
    case NoMatch => Err(PubmedMapperError)
    case Found(d) => Ok(d)
    case Raised(x) => Err(x)
  }

  /** `parse_pubdate` on the element's texts. */
  function Normalize(t: PubDateTexts): Result<Date, PyError> {
    Outcome(FirstDecisive(Outcomes(t)))
  }

  /** `parse_pubdate` never defaults: it raises `PubmedMapperError`
      exactly when every strategy declines. */
  lemma NeverDefaults(t: PubDateTexts)
    ensures Normalize(t) == Err(PubmedMapperError) <==>
      forall j :: 0 <= j < PARSER_COUNT ==> PubdateParser(j)(t).NoMatch?
  {
    var outcomes := Outcomes(t);
    forall j | 0 <= j < PARSER_COUNT
      ensures Declared(outcomes[j])
    {
      ParserDeclared(t, j);
    }
    FirstDecisiveDeclines(outcomes);
  }

  /** `parse_pubdate` raises only what a strategy raises or
      `PubmedMapperError`; `OverflowError` only from a Year text. */
  lemma NormalizeRaises(t: PubDateTexts)
    ensures Normalize(t).Err? ==> Normalize(t).error in {KeyError, ValueError, OverflowError, PubmedMapperError}
    ensures !Truthy(t.year) ==> Normalize(t) != Err(OverflowError)
  {
    var outcomes := Outcomes(t);
    forall j | 0 <= j < PARSER_COUNT
      ensures Declared(outcomes[j])
    {
      ParserDeclared(t, j);
    }
    if !Truthy(t.year) {
      StructuredDecline(t);
      DeclinesBeforeEach(t, 4);
      forall j | 0 <= j < PARSER_COUNT
        ensures MedlineDeclared(outcomes[j])
      {
        ParserDeclared(t, j);
      }
    }
    FirstDecisiveDeclines(outcomes);
  }

  /** Each of the first `k` strategies declines. */
  predicate DeclinesBefore(t: PubDateTexts, k: nat)
    requires k <= PARSER_COUNT
  {
    k == 0 || (DeclinesBefore(t, k - 1) && PubdateParser(k - 1)(t).NoMatch?)
  }

  /** Without a truthy Year the MedlineDate strategies are consulted in
      `PUBDATE_PARSERS` order: each of the following says that a strategy
      is reached when the ones before it decline. */
  lemma ReachesYearOnly(t: PubDateTexts)
    requires !Truthy(t.year)
    ensures DeclinesBefore(t, 4) && PubdateParser(4)(t) == ParseMedlineYearOnly(t)
  {
    StructuredDecline(t);
    assert PubdateParser(4) == ParseMedlineYearOnly;
  }

  lemma ReachesMonthRange(t: PubDateTexts)
    requires !Truthy(t.year)
    requires ParseMedlineYearOnly(t).NoMatch?
    ensures DeclinesBefore(t, 5) && PubdateParser(5)(t) == ParseMedlineMonthRange(t)
  {
    StructuredDecline(t);
    assert DeclinesBefore(t, 5);
  }

  lemma ReachesDayRange(t: PubDateTexts)
    requires !Truthy(t.year)
    requires ParseMedlineYearOnly(t).NoMatch?
    requires ParseMedlineMonthRange(t).NoMatch?
    ensures DeclinesBefore(t, 6) && PubdateParser(6)(t) == ParseMedlineDayRange(t)
  {
    StructuredDecline(t);
    assert DeclinesBefore(t, 5);
    assert DeclinesBefore(t, 6);
  }

  lemma ReachesFullMonthYear(t: PubDateTexts)
    requires !Truthy(t.year)
    requires ParseMedlineYearOnly(t).NoMatch?
    requires ParseMedlineMonthRange(t).NoMatch?
    requires ParseMedlineDayRange(t).NoMatch?
    ensures DeclinesBefore(t, 7) && PubdateParser(7)(t) == ParseMedlineFullMonthYear(t)
  {
    StructuredDecline(t);
    assert DeclinesBefore(t, 5);
    assert DeclinesBefore(t, 6);
    assert DeclinesBefore(t, 7);
  }

  lemma ReachesMonthRangeCrossYear(t: PubDateTexts)
    requires !Truthy(t.year)
    requires ParseMedlineYearOnly(t).NoMatch?
    requires ParseMedlineMonthRange(t).NoMatch?
    requires ParseMedlineDayRange(t).NoMatch?
    requires ParseMedlineFullMonthYear(t).NoMatch?
    ensures DeclinesBefore(t, 8) && PubdateParser(8)(t) == ParseMedlineMonthRangeCrossYear(t)
  {
    StructuredDecline(t);
    assert DeclinesBefore(t, 5);
    assert DeclinesBefore(t, 6);
    assert DeclinesBefore(t, 7);
    assert DeclinesBefore(t, 8);
  }

  lemma ReachesRangeYear(t: PubDateTexts)
    requires !Truthy(t.year)
    requires ParseMedlineYearOnly(t).NoMatch?
    requires ParseMedlineMonthRange(t).NoMatch?
    requires ParseMedlineDayRange(t).NoMatch?
    requires ParseMedlineFullMonthYear(t).NoMatch?
    requires ParseMedlineMonthRangeCrossYear(t).NoMatch?
    ensures DeclinesBefore(t, 9) && PubdateParser(9)(t) == ParseMedlineRangeYear(t)
  {
    StructuredDecline(t);
    assert DeclinesBefore(t, 5);
    assert DeclinesBefore(t, 6);
    assert DeclinesBefore(t, 7);
    assert DeclinesBefore(t, 8);
    assert DeclinesBefore(t, 9);
  }

  lemma ReachesMonthDay(t: PubDateTexts)
    requires !Truthy(t.year)
    requires ParseMedlineYearOnly(t).NoMatch?
    requires ParseMedlineMonthRange(t).NoMatch?
    requires ParseMedlineDayRange(t).NoMatch?
    requires ParseMedlineFullMonthYear(t).NoMatch?
    requires ParseMedlineMonthRangeCrossYear(t).NoMatch?
    requires ParseMedlineRangeYear(t).NoMatch?
    ensures DeclinesBefore(t, 10) && PubdateParser(10)(t) == ParseMedlineMonthDay(t)
  {
    StructuredDecline(t);
    assert DeclinesBefore(t, 5);
    assert DeclinesBefore(t, 6);
    assert DeclinesBefore(t, 7);
    assert DeclinesBefore(t, 8);
    assert DeclinesBefore(t, 9);
    assert DeclinesBefore(t, 10);
  }

  lemma ReachesMonthDayRange(t: PubDateTexts)
    requires !Truthy(t.year)
    requires ParseMedlineYearOnly(t).NoMatch?
    requires ParseMedlineMonthRange(t).NoMatch?
    requires ParseMedlineDayRange(t).NoMatch?
    requires ParseMedlineFullMonthYear(t).NoMatch?
    requires ParseMedlineMonthRangeCrossYear(t).NoMatch?
    requires ParseMedlineRangeYear(t).NoMatch?
    requires ParseMedlineMonthDay(t).NoMatch?
    ensures DeclinesBefore(t, 11) && PubdateParser(11)(t) == ParseMedlineMonthDayRange(t)
  {
    StructuredDecline(t);
    assert DeclinesBefore(t, 5);
    assert DeclinesBefore(t, 6);
    assert DeclinesBefore(t, 7);
    assert DeclinesBefore(t, 8);
    assert DeclinesBefore(t, 9);
    assert DeclinesBefore(t, 10);
    assert DeclinesBefore(t, 11);
  }

  lemma ReachesYearWithSeason(t: PubDateTexts)
    requires !Truthy(t.year)
    requires ParseMedlineYearOnly(t).NoMatch?
    requires ParseMedlineMonthRange(t).NoMatch?
    requires ParseMedlineDayRange(t).NoMatch?
    requires ParseMedlineFullMonthYear(t).NoMatch?
    requires ParseMedlineMonthRangeCrossYear(t).NoMatch?
    requires ParseMedlineRangeYear(t).NoMatch?
    requires ParseMedlineMonthDay(t).NoMatch?
    requires ParseMedlineMonthDayRange(t).NoMatch?
    ensures DeclinesBefore(t, 12) && PubdateParser(12)(t) == ParseMedlineYearWithSeason(t)
  {
    StructuredDecline(t);
    assert DeclinesBefore(t, 5);
    assert DeclinesBefore(t, 6);
    assert DeclinesBefore(t, 7);
    assert DeclinesBefore(t, 8);
    assert DeclinesBefore(t, 9);
    assert DeclinesBefore(t, 10);
    assert DeclinesBefore(t, 11);
    assert DeclinesBefore(t, 12);
  }

  lemma ReachesYearRangeWithSeason(t: PubDateTexts)
    requires !Truthy(t.year)
    requires ParseMedlineYearOnly(t).NoMatch?
    requires ParseMedlineMonthRange(t).NoMatch?
    requires ParseMedlineDayRange(t).NoMatch?
    requires ParseMedlineFullMonthYear(t).NoMatch?
    requires ParseMedlineMonthRangeCrossYear(t).NoMatch?
    requires ParseMedlineRangeYear(t).NoMatch?
    requires ParseMedlineMonthDay(t).NoMatch?
    requires ParseMedlineMonthDayRange(t).NoMatch?
    requires ParseMedlineYearWithSeason(t).NoMatch?
    ensures DeclinesBefore(t, 13) && PubdateParser(13)(t) == ParseMedlineYearRangeWithSeason(t)
  {
    StructuredDecline(t);
    assert DeclinesBefore(t, 5);
    assert DeclinesBefore(t, 6);
    assert DeclinesBefore(t, 7);
    assert DeclinesBefore(t, 8);
    assert DeclinesBefore(t, 9);
    assert DeclinesBefore(t, 10);
    assert DeclinesBefore(t, 11);
    assert DeclinesBefore(t, 12);
    assert DeclinesBefore(t, 13);
  }

  lemma ReachesYearSeasonRange(t: PubDateTexts)
    requires !Truthy(t.year)
    requires ParseMedlineYearOnly(t).NoMatch?
    requires ParseMedlineMonthRange(t).NoMatch?
    requires ParseMedlineDayRange(t).NoMatch?
    requires ParseMedlineFullMonthYear(t).NoMatch?
    requires ParseMedlineMonthRangeCrossYear(t).NoMatch?
    requires ParseMedlineRangeYear(t).NoMatch?
    requires ParseMedlineMonthDay(t).NoMatch?
    requires ParseMedlineMonthDayRange(t).NoMatch?
    requires ParseMedlineYearWithSeason(t).NoMatch?
    requires ParseMedlineYearRangeWithSeason(t).NoMatch?
    ensures DeclinesBefore(t, 14) && PubdateParser(14)(t) == ParseMedlineYearSeasonRange(t)
  {
    StructuredDecline(t);
    assert DeclinesBefore(t, 5);
    assert DeclinesBefore(t, 6);
    assert DeclinesBefore(t, 7);
    assert DeclinesBefore(t, 8);
    assert DeclinesBefore(t, 9);
    assert DeclinesBefore(t, 10);
    assert DeclinesBefore(t, 11);
    assert DeclinesBefore(t, 12);
    assert DeclinesBefore(t, 13);
    assert DeclinesBefore(t, 14);
  }

  /** Without a truthy Year none of the structured strategies applies. */
  lemma StructuredDecline(t: PubDateTexts)
    requires !Truthy(t.year)
    ensures DeclinesBefore(t, 4)
  {
    assert DeclinesBefore(t, 1);
    assert DeclinesBefore(t, 2);
    assert DeclinesBefore(t, 3);
  }

  lemma {:induction false} DeclinesBeforeEach(t: PubDateTexts, k: nat)
    requires k <= PARSER_COUNT && DeclinesBefore(t, k)
    ensures forall j :: 0 <= j < k ==> PubdateParser(j)(t).NoMatch?
  {
    if k > 0 {
      DeclinesBeforeEach(t, k - 1);
    }
  }

  /** The strategy at `k` decides when every strategy before it declines
      and it does not. */
  lemma NormalizeAt(t: PubDateTexts, k: nat)
    requires k < PARSER_COUNT
    requires DeclinesBefore(t, k)
    requires !PubdateParser(k)(t).NoMatch?
    ensures Normalize(t) == Outcome(PubdateParser(k)(t))
  {
    DeclinesBeforeEach(t, k);
    FirstDecisiveAt(Outcomes(t), k);
  }

  /** Where `parse_pubdate` looks for the `<PubDate>` element. */
  const PUBDATE_PATH := ["MedlineCitation", "Article", "Journal", "JournalIssue", "PubDate"]

  /** `parse_pubdate(element)`: `IndexError` without a `<PubDate>`. */
  function PubdateOf(article: Element): (r: Result<Date, PyError>)
    ensures Select(article, PUBDATE_PATH) == [] ==> r == Err(IndexError)
    ensures Select(article, PUBDATE_PATH) != [] ==> r == Normalize(TextsOf(Select(article, PUBDATE_PATH)[0]))
  {
    var pubdate :- Index0(Select(article, PUBDATE_PATH));
    Normalize(TextsOf(pubdate))
  }

  /** The loop of `parse_pubdate`, stopping at the first strategy that
      returns a date; an exception leaves the loop as well. */
  method ParsePubdate(article: Element) returns (r: Result<Date, PyError>)
    ensures r == PubdateOf(article)
  {
    var elements := Select(article, PUBDATE_PATH);
    if |elements| == 0 {
      return Err(IndexError);
    }
    var texts := TextsOf(elements[0]);
    ghost var outcomes := Outcomes(texts);
    var pubdate := NoMatch;
    for i := 0 to PARSER_COUNT
      invariant pubdate.NoMatch?
      invariant forall j :: 0 <= j < i ==> outcomes[j].NoMatch?
    {
      pubdate := PubdateParser(i)(texts);
      if !pubdate.NoMatch? {
        FirstDecisiveAt(outcomes, i);
        break;
      }
    }
    if pubdate.NoMatch? {
      FirstDecisiveDeclines(outcomes);
    }
    match pubdate
    case NoMatch => r := Err(PubmedMapperError);
    case Found(d) => r := Ok(d);
    case Raised(x) => r := Err(x);
  }
}
