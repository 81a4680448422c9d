/** Calendar dates as `datetime.date` accepts them, and the two lookup
    tables the date strategies use (pubmed_mapper.py, MONTHS and SEASONS). */
module Calendar {

  datatype Date = Date(year: int, month: int, day: int)

  const MIN_YEAR := 1
  const MAX_YEAR := 9999

  /** Proleptic Gregorian leap years. */
  predicate IsLeapYear(y: int) {
    y % 4 == 0 && (y % 100 != 0 || y % 400 == 0)
  }

  function DaysInMonth(y: int, m: int): (n: int)
    requires 1 <= m <= 12
    ensures 28 <= n <= 31
    ensures n == 29 <==> m == 2 && IsLeapYear(y)
    ensures n == 28 <==> m == 2 && !IsLeapYear(y)
    ensures n == 30 <==> m == 4 || m == 6 || m == 9 || m == 11
  {
    if m == 2 then (if IsLeapYear(y) then 29 else 28)
    else if m == 4 || m == 6 || m == 9 || m == 11 then 30
    else 31
  }

  /** `date(y, m, d)` returns instead of raising `ValueError`. */
  predicate ValidDate(y: int, m: int, d: int) {
    MIN_YEAR <= y <= MAX_YEAR && 1 <= m <= 12 && 1 <= d <= DaysInMonth(y, m)
  }

  /** Month names and abbreviations, with the misspelling `Novembre`; the
      full name `May` coincides with its abbreviation. */
  const MONTHS: map<string, int> := map[
    "Jan" := 1, "Feb" := 2, "Mar" := 3,
    "Apr" := 4, "May" := 5, "Jun" := 6,
    "Jul" := 7, "Aug" := 8, "Sep" := 9,
    "Sept" := 9, "Oct" := 10, "Nov" := 11,
    "Dec" := 12,
    "January" := 1, "February" := 2, "March" := 3,
    "April" := 4,
    "June" := 6, "July" := 7, "August" := 8, "September" := 9,
    "October" := 10, "November" := 11, "Novembre" := 11, "December" := 12
  ]

  /** Each season stands for the month it starts in. */
  const SEASONS: map<string, int> := map[
    "Spring" := 4, "Summer" := 7,
    "Fall" := 10, "Autumn" := 10, "Winter" := 1
  ]

  /** No season is spelt like a month, so a season name is never taken
      for a month. */
  lemma SeasonsAreNotMonths(s: string)
    requires s in SEASONS
    ensures s !in MONTHS
  {
  }

  /** Every month and season the tables give is a month number. */
  lemma TablesGiveMonths(s: string)
    ensures s in MONTHS ==> 1 <= MONTHS[s] <= 12
    ensures s in SEASONS ==> 1 <= SEASONS[s] <= 12
  {
  }
}
