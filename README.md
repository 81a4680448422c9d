# pubmed_download in Dafny

A model of the two working parts of `pubmed_download`:

- **The PubMed record mapper** (`pubmed_download/pubmed_mapper.py`). It projects a `<PubmedArticle>` XML element into an `Article` record. The date of publication comes from an ordered cascade of fifteen strategies (`PUBDATE_PARSERS`). Each strategy reads either the structured `Year`/`Month`/`Day`/`Season` children of `<PubDate>` or the free-text `MedlineDate` matched against an anchored regular expression. The first strategy that returns a date wins. An exception raised by a strategy leaves the cascade at once. If every strategy declines, `PubmedMapperError` is raised.
- **The PDF downloader** (`pubmed_download/pubmed_download.py`, class `DownloadPdf`). For each PMID it does the following:
  - skips the PMID when the PDF is already on disk;
  - fetches and maps the record;
  - builds an identifier map;
  - tries the DOI, PII and PMC routes in that order, each over a fixed list of candidate URLs;
  - reports the PMIDs it did not download.

Modules, one per file:

| module | file | contents |
|---|---|---|
| `Wrappers` | wrappers.dfy | `Option` and `Result`, with the `:-` failure propagation |
| `PyBuiltins` | py_builtins.dfy | Python exceptions, character classes, `str.capitalize`, `str.lower`, `str.strip`, substring `in`, `int(str)` |
| `Calendar` | calendar.dfy | the `datetime.date` validity rule, and the `MONTHS` and `SEASONS` tables |
| `Xml` | xml.dfy | an element tree, child-path selection (`./A/B`), `text()`, `extract_first` and `get_inner_html` |
| `Medline` | medline.dfy | the fifteen anchored `MedlineDate` patterns as matchers, and what each one captures |
| `Pubdate` | pubdate.dfy | the fifteen strategies, the cascade and `parse_pubdate` |
| `PubdateProperties` | pubdate_properties.dfy | what the cascade returns for each date shape |
| `Mapper` | mapper.dfy | the entity builders, `parse_abstract`, `Article.parse_element` and `Article.parse_pmid` |
| `Downloader` | downloader.dfy | the class `DownloadPdf`, with `download`, `check_downloaded`, the three `search_by_*` routes and `run` |

How the model is built:

- Exceptions are the `PyError` cases of a `Result`. The first exception in evaluation order is the one that escapes.
- A date strategy returns a `Step`: `NoMatch` for `None`, `Found(date)`, or `Raised(error)`.
- `Normalize` takes the first `Step` that is not `NoMatch`.
- The methods `ParsePubdate`, `GetInnerHtml`, `ParseAbstract` and the `DownloadPdf` methods carry the source's loops. Each one is proved equal to a function, and the lemmas are about those functions.
- The network is a set of oracles (`Downloader.Web`):
  - `get` answers `requests.get`, including how PyPDF2 takes the body;
  - `link` gives the link scraped from a page;
  - `efetch` answers the registry.
- The disk is a set of paths (`Downloader.World.files`), each spelled as it was written. A lookup (`Downloader.OnDisk`) resolves spellings first: a run of '/' names what a single '/' names (`Downloader.Canon`). `World.requests` records the URLs handed to `download`, in order. It exists only so that the order of attempts and the short-circuits can be stated.

Where the documented behaviour and the code disagree, the model follows the code:

- `search_by_doi` never assigns the result of the candidate downloads to `download_status` (pubmed_download.py:158-163). So after a failed scrape all 13 candidates are tried, and the route reports the scrape's result alone. See `Downloader.DoiStatusIsScrapeOnly`.
- A PMID whose PDF is already on disk is appended to `failed_list` (pubmed_download.py:91-94). It is not treated as a success. See `Downloader.VisitCases` and `Downloader.RepeatedPmidReportedFailed`.
- `check_downloaded` tests only that the path exists and is a file. It does not test that the file is non-empty.
- The cross-year pattern `^(\d{4}) ([a-zA-Z]{3,})-\d{4} [a-zA-Z]{3}$` feeds a month name to `int()`, which raises `ValueError` (pubmed_mapper.py:313). Month names never get there: the month-range pattern, earlier in the cascade, already matches any such text. Only non-month words reach it, and they raise. Both facts are proved: `PubdateProperties.MedlineCrossYear` and `PubdateProperties.MedlineCrossYearRaises`.
- A Python `$` without `re.MULTILINE` also matches before one trailing newline. `Medline.EndBody` drops that newline before matching.

## Model

| member | source | states |
|---|---|---|
| Calendar.DaysInMonth | pubmed_download/pubmed_mapper.py:145-149 | the month length that `date()` checks the day against: between 28 and 31; 29 exactly for February of a leap year; 28 exactly for February of other years; 30 exactly for April, June, September and November |
| Calendar.TablesGiveMonths | pubmed_download/pubmed_mapper.py:12-27 | every entry of `MONTHS` and `SEASONS` is a month number from 1 to 12 |
| Calendar.SeasonsAreNotMonths | pubmed_download/pubmed_mapper.py:12-27 | no season name is a key of `MONTHS`, so the year-month strategy declines a season word |
| PyBuiltins.Lower | pubmed_download/pubmed_download.py:199 | `pmc.lower()` keeps the length and lower-cases each character |
| PyBuiltins.Capitalize | pubmed_download/pubmed_mapper.py:144 | `capitalize()` keeps the length, upper-cases the first character and lower-cases the rest |
| PyBuiltins.CapitalizeKeepsLetters | pubmed_download/pubmed_mapper.py:229 | a capitalised run of letters is still a run of letters |
| PyBuiltins.CapitalizeKeepsDigits | pubmed_download/pubmed_mapper.py:313 | capitalising a number leaves it unchanged, so `int(month_text.capitalize())` reads the captured digits |
| PyBuiltins.StripLeftKeepsSuffix | pubmed_download/pubmed_mapper.py:55-56 | the left half of `strip()` keeps a suffix of the text that does not start with whitespace |
| PyBuiltins.StripLeftDropsSpace | pubmed_download/pubmed_mapper.py:55-56 | what the left half of `strip()` drops is all whitespace |
| PyBuiltins.StripRightKeepsPrefix | pubmed_download/pubmed_mapper.py:55-56 | the right half of `strip()` keeps a prefix of the text that does not end with whitespace |
| PyBuiltins.StripRightDropsSpace | pubmed_download/pubmed_mapper.py:55-56 | what the right half of `strip()` drops is all whitespace |
| PyBuiltins.Strip | pubmed_download/pubmed_mapper.py:55-56 | the result of `strip()` neither starts nor ends with whitespace |
| PyBuiltins.StripShape | pubmed_download/pubmed_mapper.py:55-56 | `strip()` returns a contiguous slice of its input, with only whitespace before it and only whitespace after it |
| PyBuiltins.StripUnchanged | pubmed_download/pubmed_mapper.py:55-56 | a text that neither starts nor ends with whitespace is returned unchanged |
| PyBuiltins.ContainsPrefix | pubmed_download/pubmed_download.py:136-137 | a text that starts with `t` contains `t` |
| PyBuiltins.ParseInt | pubmed_download/pubmed_mapper.py:146 | `int()` of a string of digits is the number those digits write |
| PyBuiltins.ParseIntBound | pubmed_download/pubmed_mapper.py:146 | `int()` of a string of n characters is less than 10 to the n in absolute value |
| PyBuiltins.ParseIntOfWord | pubmed_download/pubmed_mapper.py:313 | `int()` of a word of letters raises (`None` here) |
| PyBuiltins.NatToString | pubmed_download/pubmed_mapper.py:141-142 | `str(n)` of a natural number passes `isdigit()` |
| PyBuiltins.ParseIntOfNatToString | pubmed_download/pubmed_mapper.py:141-146 | `int(str(n)) == n` |
| PyBuiltins.DigitsValueOfNatToString | pubmed_download/pubmed_mapper.py:141-146 | the digits of `str(n)` write `n` |
| Xml.Tagged | pubmed_download/pubmed_mapper.py:136 | the child step of an XPath keeps at most as many elements as there are children |
| Xml.TaggedMembers | pubmed_download/pubmed_mapper.py:136 | an element is selected by the child step `./tag` exactly when it is a child with that tag |
| Xml.TaggedFirst | pubmed_download/pubmed_mapper.py:634 | the child step keeps document order: it is empty exactly when no child has the tag, and otherwise starts with the first child that has it |
| Xml.Select | pubmed_download/pubmed_mapper.py:641-643 | `xpath('./A/B')`, step by step in document order; no contract of its own: `TaggedMembers` and `TaggedFirst` state each step |
| Xml.TextAt | pubmed_download/pubmed_mapper.py:578 | `xpath('./A/text()')`; no contract of its own: `TextNodesNonEmpty` and `ChildText` state what it yields |
| Xml.FirstTextAt | pubmed_download/pubmed_mapper.py:578 | `extract_first(xpath('./A/text()'))`; no contract of its own: `ChildText` and `AffiliationText` state what it reads |
| Xml.ExtractFirst | pubmed_download/pubmed_mapper.py:35-38 | `extract_first` is `None` exactly for an empty list, and otherwise the list's first item |
| Xml.Index0 | pubmed_download/pubmed_mapper.py:503 | `xs[0]` raises `IndexError` exactly when `xs` is empty, and otherwise is the first item |
| Xml.TextNodesNonEmpty | pubmed_download/pubmed_mapper.py:136 | `text()` never yields an empty string, so a selected text passes `if text:` |
| Xml.JoinAppend | pubmed_download/pubmed_mapper.py:54 | `''.join` of two lists concatenated is the concatenation of the two joins |
| Xml.InnerHtml | pubmed_download/pubmed_mapper.py:41-57 | `get_inner_html(None)` is `""`; with `strip` the result has no whitespace at either end |
| Xml.AppendIfTruthy | pubmed_download/pubmed_mapper.py:45-46 | `if s: texts.append(s)` appends exactly the non-empty texts |
| Xml.GetInnerHtml | pubmed_download/pubmed_mapper.py:41-57 | the loop returns the join of the element's text, then each child's text and tail, then the element's tail, stripped when asked |
| Xml.InnerHtmlIgnoresGrandchildren | pubmed_download/pubmed_mapper.py:47-51 | two elements whose own text and tail agree, and whose children's texts and tails agree, flatten alike, whatever their grandchildren are |
| Xml.ChildPiecesAgree | pubmed_download/pubmed_mapper.py:47-51 | only the children's text and tail enter the flattened text |
| Xml.InnerHtmlOfLeaf | pubmed_download/pubmed_mapper.py:41-57 | a childless element with no tail flattens to its own text when that text has no whitespace at either end |
| Medline.EndBody | pubmed_download/pubmed_mapper.py:193 | the text a `$` anchor ends on is the whole string, or the string minus one trailing newline |
| Medline.LetterRun | pubmed_download/pubmed_mapper.py:213 | `[a-zA-Z]+` at a position takes the maximal run of letters there |
| Medline.LetterRunOfWord | pubmed_download/pubmed_mapper.py:213 | a word followed by a non-letter is exactly the letter run at its start |
| Medline.NumberDashNumberCaptures | pubmed_download/pubmed_mapper.py:244 | `(\d{1,2})-\d{1,2}$` captures one or two digits, followed by a dash and one or two digits |
| Medline.NumberDashNumberOf | pubmed_download/pubmed_mapper.py:244 | on `d1-d2` that pattern captures `d1` |
| Medline.DayDashMonthDayCaptures | pubmed_download/pubmed_mapper.py:345 | `(\d{1,2})-[a-zA-Z]{3} \d{1,2}$` captures the first day, followed by a dash, three letters, a space and a day |
| Medline.DayDashMonthDayOf | pubmed_download/pubmed_mapper.py:345 | on `d1-Mon d2` that pattern captures `d1`, and the pair-of-numbers pattern does not match |
| Medline.YearOnlyCaptures | pubmed_download/pubmed_mapper.py:193 | the year-only pattern matches only four digits and captures them |
| Medline.MonthRangeCaptures | pubmed_download/pubmed_mapper.py:212-217 | the month-range pattern captures the year and the first letter run of three or more, and the rest ends in three letters after a separator |
| Medline.DayRangeCaptures | pubmed_download/pubmed_mapper.py:243-245 | the day-range pattern captures the year, the month word and the first day of `d1-d2` |
| Medline.YearMonthCaptures | pubmed_download/pubmed_mapper.py:270-272 | the year-month pattern captures the year and a final word of three or more letters |
| Medline.CrossYearCaptures | pubmed_download/pubmed_mapper.py:296-298 | the cross-year pattern captures the first year and the first word, followed by `-YYYY Mon` |
| Medline.NumericMonthRangeCaptures | pubmed_download/pubmed_mapper.py:299-301 | the numeric month-range pattern captures the year and the first month number |
| Medline.YearRangeCaptures | pubmed_download/pubmed_mapper.py:323-325 | the year-range pattern captures the first of two years |
| Medline.MonthDayCaptures | pubmed_download/pubmed_mapper.py:367-369 | the month-day pattern captures the year, the month word and the day |
| Medline.MonthDayRangeCaptures | pubmed_download/pubmed_mapper.py:344-346 | the month-day-range pattern captures the year, the first month and the first day |
| Medline.YearSeasonCaptures | pubmed_download/pubmed_mapper.py:416-418 | `YYYY Season` captures the year and the season word |
| Medline.SeasonYearCaptures | pubmed_download/pubmed_mapper.py:419-421 | `Season YYYY` captures the season word and the year |
| Medline.YearRangeSeasonCaptures | pubmed_download/pubmed_mapper.py:390-392 | `YYYY-YYYY Season` captures the first year and the season |
| Medline.YearRangeSeasonRangeCaptures | pubmed_download/pubmed_mapper.py:446-448 | `YYYY-YYYY S1-S2` captures the first year and the first season |
| Medline.YearShape | pubmed_download/pubmed_mapper.py:193 | four digits match the year-only pattern |
| Medline.RangeTailOf | pubmed_download/pubmed_mapper.py:213 | a separator followed by a word of three or more letters ends a month range |
| Medline.NoRangeTailAtDigit | pubmed_download/pubmed_mapper.py:213-217 | a text ending in a digit does not end a month range |
| Medline.NoMonthRangeAtDigitEnd | pubmed_download/pubmed_mapper.py:212-217 | neither month-range pattern matches a text that ends in a digit |
| Medline.MonthRangeShape | pubmed_download/pubmed_mapper.py:212-217 | `YYYY Mon1-Mon2` is not a year alone, and the month-range pattern takes the year and `Mon1` |
| Medline.DayRangeShape | pubmed_download/pubmed_mapper.py:243-245 | `YYYY Mon D1-D2` fails the earlier patterns, and the day-range pattern takes the year, `Mon` and `D1` |
| Medline.YearMonthShape | pubmed_download/pubmed_mapper.py:270-272 | `YYYY Word` fails every earlier pattern, and the year-month pattern takes the year and the word |
| Medline.NumericMonthRangeShape | pubmed_download/pubmed_mapper.py:299-301 | `YYYY M1-M2` fails every earlier pattern, and the second cross-year pattern takes the year and `M1` |
| Medline.YearRangeShape | pubmed_download/pubmed_mapper.py:323-325 | `YYYY-YYYY` fails every earlier pattern, and the year-range pattern takes the first year |
| Medline.MonthDayShape | pubmed_download/pubmed_mapper.py:367-369 | `YYYY Mon D` fails every earlier pattern, and the month-day pattern takes the year, `Mon` and `D` |
| Medline.MonthDayRangeShape | pubmed_download/pubmed_mapper.py:344-346 | `YYYY Mon1 D1-Mon2 D2` fails every earlier pattern, and the month-day-range pattern takes the year, `Mon1` and `D1` |
| Medline.YearSeasonShape | pubmed_download/pubmed_mapper.py:416-418 | `YYYY Season` fails every earlier pattern except the year-month one (whose strategy declines a season word), and the year-season pattern takes the year and the season |
| Medline.SeasonYearShape | pubmed_download/pubmed_mapper.py:419-421 | `Season YYYY` fails every earlier pattern, and the season-year pattern takes both parts |
| Medline.YearRangeSeasonShape | pubmed_download/pubmed_mapper.py:390-392 | `YYYY-YYYY Season` fails every earlier pattern, and its own pattern takes the first year and the season |
| Medline.YearSeasonRangeShape | pubmed_download/pubmed_mapper.py:446-448 | `YYYY-YYYY S1-S2` fails every earlier pattern, and the last pattern takes the first year and `S1` |
| Medline.CrossYearShape | pubmed_download/pubmed_mapper.py:294-309 | `YYYY Mon1-YYYY Mon2` matches both the month-range pattern and the cross-year pattern, each taking `Mon1` |
| Medline.CapturesNarrowEarly | pubmed_download/pubmed_mapper.py:191-318 | the first six `MedlineDate` patterns capture at most four year digits, at most two day digits, and a month of at most two characters or of letters |
| Medline.CapturesNarrowLate | pubmed_download/pubmed_mapper.py:321-467 | the same for the last seven patterns |
| Pubdate.MakeDate | pubmed_download/pubmed_mapper.py:145-149 | `date(y, m, d)` is that date exactly when it is valid; it raises `OverflowError` when an argument lies outside the C `int` range, and `ValueError` for any other invalid date |
| Pubdate.Int | pubmed_download/pubmed_mapper.py:146 | `int()` of digits is their value; any failure is `ValueError` |
| Pubdate.TextIsTruthy | pubmed_download/pubmed_mapper.py:136-139 | a selected text is never empty |
| Pubdate.MonthOfText | pubmed_download/pubmed_mapper.py:141-144 | an all-digit month is read as a number; any other month is looked up capitalised in `MONTHS` and raises `KeyError` when missing |
| Pubdate.ParseYearMonthDay | pubmed_download/pubmed_mapper.py:133-149 | the strategy declines, gives a date, or raises `KeyError`, `ValueError` or `OverflowError`, and nothing else |
| Pubdate.ParseYearMonth | pubmed_download/pubmed_mapper.py:152-163 | as for the year-month-day strategy |
| Pubdate.ParseYearSeason | pubmed_download/pubmed_mapper.py:166-175 | as for the year-month-day strategy |
| Pubdate.ParseYearOnly | pubmed_download/pubmed_mapper.py:178-188 | as for the year-month-day strategy |
| Pubdate.ParseMedlineYearOnly | pubmed_download/pubmed_mapper.py:191-207 | declines, gives a date, or raises only `KeyError` or `ValueError`: its captures are too short to overflow a C `int` |
| Pubdate.ParseMedlineMonthRange | pubmed_download/pubmed_mapper.py:210-238 | declines, gives a date, or raises only `KeyError` or `ValueError`: its captures are too short to overflow a C `int` |
| Pubdate.ParseMedlineDayRange | pubmed_download/pubmed_mapper.py:241-265 | declines, gives a date, or raises only `KeyError` or `ValueError`: its captures are too short to overflow a C `int` |
| Pubdate.ParseMedlineFullMonthYear | pubmed_download/pubmed_mapper.py:268-291 | declines, gives a date, or raises only `KeyError` or `ValueError`: its captures are too short to overflow a C `int` |
| Pubdate.ParseMedlineMonthRangeCrossYear | pubmed_download/pubmed_mapper.py:294-318 | declines, gives a date, or raises only `KeyError` or `ValueError`: its captures are too short to overflow a C `int` |
| Pubdate.ParseMedlineRangeYear | pubmed_download/pubmed_mapper.py:321-339 | declines, gives a date, or raises only `KeyError` or `ValueError`: its captures are too short to overflow a C `int` |
| Pubdate.ParseMedlineMonthDayRange | pubmed_download/pubmed_mapper.py:342-362 | declines, gives a date, or raises only `KeyError` or `ValueError`: its captures are too short to overflow a C `int` |
| Pubdate.ParseMedlineMonthDay | pubmed_download/pubmed_mapper.py:365-385 | declines, gives a date, or raises only `KeyError` or `ValueError`: its captures are too short to overflow a C `int` |
| Pubdate.ParseMedlineYearRangeWithSeason | pubmed_download/pubmed_mapper.py:388-411 | declines, gives a date, or raises only `KeyError` or `ValueError`: its captures are too short to overflow a C `int` |
| Pubdate.ParseMedlineYearWithSeason | pubmed_download/pubmed_mapper.py:414-441 | declines, gives a date, or raises only `KeyError` or `ValueError`: its captures are too short to overflow a C `int` |
| Pubdate.ParseMedlineYearSeasonRange | pubmed_download/pubmed_mapper.py:444-467 | declines, gives a date, or raises only `KeyError` or `ValueError`: its captures are too short to overflow a C `int` |
| Pubdate.ParserDeclared | pubmed_download/pubmed_mapper.py:470-486 | every strategy of `PUBDATE_PARSERS` raises only `KeyError`, `ValueError` or `OverflowError`, and the eleven `MedlineDate` strategies only `KeyError` or `ValueError` |
| Pubdate.NarrowDeclared | pubmed_download/pubmed_mapper.py:191-467 | from captures of at most four year digits and two day digits, the `MedlineDate` date builders raise only `KeyError` or `ValueError` |
| Pubdate.PubdateParser | pubmed_download/pubmed_mapper.py:470-486 | the list `PUBDATE_PARSERS`, in order; no contract of its own: `Outcomes` and `ParserDeclared` state what it holds |
| Pubdate.Outcomes | pubmed_download/pubmed_mapper.py:470-486 | there are fifteen outcomes, the k-th from the k-th strategy of the list |
| Pubdate.FirstDecisiveDeclines | pubmed_download/pubmed_mapper.py:751-755 | the loop ends with `None` exactly when every strategy returned `None`; when every strategy raises only `KeyError`, `ValueError` or `OverflowError`, so does the loop, and likewise when none raises `OverflowError` |
| Pubdate.FirstDecisiveAt | pubmed_download/pubmed_mapper.py:751-754 | when strategies 0..k-1 decline and strategy k does not, the loop's outcome is strategy k's |
| Pubdate.FirstDecisiveIgnoresLater | pubmed_download/pubmed_mapper.py:751-754 | once a strategy has decided, the strategies after it do not change the outcome |
| Pubdate.NeverDefaults | pubmed_download/pubmed_mapper.py:755-758 | `parse_pubdate` raises `PubmedMapperError` exactly when all fifteen strategies return `None` |
| Pubdate.NormalizeRaises | pubmed_download/pubmed_mapper.py:746-759 | the cascade raises only `KeyError`, `ValueError`, `OverflowError` or `PubmedMapperError`, and never `OverflowError` without a `Year` text |
| Pubdate.StructuredDecline | pubmed_download/pubmed_mapper.py:133-188 | without a `Year` text the four structured strategies all decline |
| Pubdate.ReachesYearOnly | pubmed_download/pubmed_mapper.py:470-475 | without a `Year` text the cascade reaches the `MedlineDate` year-only strategy |
| Pubdate.ReachesMonthRange | pubmed_download/pubmed_mapper.py:470-476 | when every earlier strategy declines, the month-range strategy is the next one consulted |
| Pubdate.ReachesDayRange | pubmed_download/pubmed_mapper.py:470-477 | the same for the day-range strategy |
| Pubdate.ReachesFullMonthYear | pubmed_download/pubmed_mapper.py:470-478 | the same for the year-month strategy |
| Pubdate.ReachesMonthRangeCrossYear | pubmed_download/pubmed_mapper.py:470-479 | the same for the cross-year strategy |
| Pubdate.ReachesRangeYear | pubmed_download/pubmed_mapper.py:470-480 | the same for the year-range strategy |
| Pubdate.ReachesMonthDay | pubmed_download/pubmed_mapper.py:470-481 | the same for the month-day strategy |
| Pubdate.ReachesMonthDayRange | pubmed_download/pubmed_mapper.py:470-482 | the same for the month-day-range strategy |
| Pubdate.ReachesYearWithSeason | pubmed_download/pubmed_mapper.py:470-483 | the same for the season strategy |
| Pubdate.ReachesYearRangeWithSeason | pubmed_download/pubmed_mapper.py:470-484 | the same for the year-range-season strategy |
| Pubdate.ReachesYearSeasonRange | pubmed_download/pubmed_mapper.py:470-485 | the same for the last strategy |
| Pubdate.NormalizeAt | pubmed_download/pubmed_mapper.py:751-759 | when strategies 0..k-1 decline and strategy k does not, `parse_pubdate` returns or raises what strategy k does |
| Pubdate.Normalize | pubmed_download/pubmed_mapper.py:751-759 | the loop of `parse_pubdate` on the texts; no contract of its own: `NormalizeAt`, `NeverDefaults` and `NormalizeRaises` state what it returns |
| Pubdate.PubdateOf | pubmed_download/pubmed_mapper.py:746-759 | a missing `PubDate` raises `IndexError`; otherwise the result is the cascade's on the first `PubDate` |
| Pubdate.ParsePubdate | pubmed_download/pubmed_mapper.py:746-759 | the loop with `break` computes that result |
| PubdateProperties.TextsOfExtracted | pubmed_download/pubmed_mapper.py:136-138 | every text the strategies read from a `PubDate` is absent or non-empty |
| PubdateProperties.StructuredYearMonthDay | pubmed_download/pubmed_mapper.py:133-149 | numeric `Year`, `Month` or month name, and numeric `Day` give exactly that date, or the `KeyError`, `ValueError` or `OverflowError` it raises |
| PubdateProperties.StructuredYearMonth | pubmed_download/pubmed_mapper.py:152-163 | `Year` and `Month` without `Day` give day 1 |
| PubdateProperties.StructuredYearSeason | pubmed_download/pubmed_mapper.py:166-175 | `Year` and `Season` give the season's month and day 1; an unknown season raises `KeyError` |
| PubdateProperties.StructuredYearOnly | pubmed_download/pubmed_mapper.py:178-188 | `Year` alone gives 1 January of that year, or the exception `date()` raises for it |
| PubdateProperties.StructuredYearOutOfRange | pubmed_download/pubmed_mapper.py:178-188 | a `Year` of digits beyond the C `int` range raises `OverflowError`; one above 9999 but within it raises `ValueError` |
| PubdateProperties.YearPresentDecidesEarly | pubmed_download/pubmed_mapper.py:470-474 | with a `Year` text the four structured strategies decide, no `MedlineDate` strategy is consulted, and `PubmedMapperError` is never raised |
| PubdateProperties.DecidedWithin | pubmed_download/pubmed_mapper.py:751-754 | a decision within the first k outcomes fixes the cascade's result |
| PubdateProperties.NumericRoundTrip | pubmed_download/pubmed_mapper.py:133-149 | writing a valid date as numeric `Year`/`Month`/`Day` texts and normalising gives the date back |
| PubdateProperties.MedlineBodyOf | pubmed_download/pubmed_mapper.py:196-199 | a `MedlineDate` ending in a digit or letter is matched as it is |
| PubdateProperties.Declines | pubmed_download/pubmed_mapper.py:191-467 | a strategy whose pattern fails on the `MedlineDate` returns `None` |
| PubdateProperties.Takes | pubmed_download/pubmed_mapper.py:191-467 | a strategy whose pattern matches computes its date from the captured groups: year; name looked up in `MONTHS` or `SEASONS`; `int()` of the month or day; the defaults 1 |
| PubdateProperties.DayOfNamedMonthValue | pubmed_download/pubmed_mapper.py:254-265 | the day-range strategy gives the named month and the captured day, and declines a word that is not a month |
| PubdateProperties.MedlineYearOnly | pubmed_download/pubmed_mapper.py:191-207 | `"YYYY"` gives 1 January of that year |
| PubdateProperties.MedlineMonthRange | pubmed_download/pubmed_mapper.py:210-238 | `"YYYY Mon1-Mon2"` gives day 1 of the first month |
| PubdateProperties.MedlineDayRange | pubmed_download/pubmed_mapper.py:241-265 | `"YYYY Mon D1-D2"` gives day D1 |
| PubdateProperties.MedlineFullMonth | pubmed_download/pubmed_mapper.py:268-291 | `"YYYY Month"` gives day 1 of that month |
| PubdateProperties.MedlineNumericMonthRange | pubmed_download/pubmed_mapper.py:299-318 | `"YYYY M1-M2"` gives day 1 of month M1 |
| PubdateProperties.MedlineCrossYear | pubmed_download/pubmed_mapper.py:210-238 | `"YYYY Mon1-YYYY Mon2"` with a month name is decided by the month-range strategy: day 1 of `Mon1` of the first year |
| PubdateProperties.MedlineCrossYearRaises | pubmed_download/pubmed_mapper.py:312-313 | with a word that is not a month, the cross-year strategy is reached and `int()` of the word raises `ValueError` |
| PubdateProperties.CrossYearRaisesSteps | pubmed_download/pubmed_mapper.py:303-313 | the strategies before it decline that text, and the cross-year strategy raises |
| PubdateProperties.MedlineYearRange | pubmed_download/pubmed_mapper.py:321-339 | `"YYYY-YYYY"` gives 1 January of the first year |
| PubdateProperties.MedlineMonthDay | pubmed_download/pubmed_mapper.py:365-385 | `"YYYY Mon D"` gives that date; an unknown month raises `KeyError` instead of falling through |
| PubdateProperties.MonthDayDeclines | pubmed_download/pubmed_mapper.py:191-339 | every strategy before the month-day one declines `"YYYY Mon D"` |
| PubdateProperties.MonthDayValue | pubmed_download/pubmed_mapper.py:371-385 | the month-day strategy's own result: the date, or `KeyError` |
| PubdateProperties.MedlineMonthDayRange | pubmed_download/pubmed_mapper.py:342-362 | `"YYYY Mon1 D1-Mon2 D2"` gives day D1 of `Mon1`; an unknown month raises `KeyError` |
| PubdateProperties.MonthDayRangeSteps | pubmed_download/pubmed_mapper.py:342-362 | the strategies before it decline that text, and the month-day-range strategy takes the first month and day |
| PubdateProperties.MedlineYearSeason | pubmed_download/pubmed_mapper.py:414-441 | `"YYYY Season"` gives day 1 of the season's month |
| PubdateProperties.YearSeasonSteps | pubmed_download/pubmed_mapper.py:268-291 | the year-month strategy declines a season word, so the season strategy is reached |
| PubdateProperties.MedlineSeasonYear | pubmed_download/pubmed_mapper.py:414-441 | `"Season YYYY"` gives the same date as `"YYYY Season"` |
| PubdateProperties.SeasonYearSteps | pubmed_download/pubmed_mapper.py:414-441 | the strategies before the season one decline `"Season YYYY"`, and the season strategy takes it |
| PubdateProperties.MedlineYearRangeSeason | pubmed_download/pubmed_mapper.py:388-411 | `"YYYY-YYYY Season"` gives day 1 of the season's month in the first year |
| PubdateProperties.YearRangeSeasonSteps | pubmed_download/pubmed_mapper.py:388-411 | the strategies before it decline that text, and its own strategy takes it |
| PubdateProperties.MedlineYearSeasonRange | pubmed_download/pubmed_mapper.py:444-467 | `"YYYY-YYYY S1-S2"` gives day 1 of the first season's month in the first year |
| PubdateProperties.YearSeasonRangeSteps | pubmed_download/pubmed_mapper.py:444-467 | all fourteen earlier strategies decline that text, and the last one takes it |
| Mapper.ArticleIdsOf | pubmed_download/pubmed_mapper.py:636-644 | one `ArticleId` per selected element, in document order, built from its `IdType` attribute and its text |
| Mapper.DescriptorsOf | pubmed_download/pubmed_mapper.py:646-660 | one `Mesh` or `Publication` per selected element, in order, built from its `UI` attribute and its text |
| Mapper.JournalOf | pubmed_download/pubmed_mapper.py:489-536 | a journal parses exactly when it has a `Title` text and an `ISOAbbreviation` text; otherwise it raises `IndexError`; an ISSN type is present only when an `ISSN` element is |
| Mapper.ReferenceOf | pubmed_download/pubmed_mapper.py:553-572 | a reference parses exactly when it has a `Citation` text, which becomes its citation; otherwise it raises `IndexError` |
| Mapper.ReferencesOf | pubmed_download/pubmed_mapper.py:735-743 | the list parses exactly when every reference does, and then holds each one's record in order; otherwise it raises `IndexError` |
| Mapper.AuthorsOf | pubmed_download/pubmed_mapper.py:709-715 | one `Author` per `Author` element, in order |
| Mapper.RenderParagraph | pubmed_download/pubmed_mapper.py:696-701 | one paragraph: the optional capitalised label and a colon, then the element's inner text |
| Mapper.ParseAbstract | pubmed_download/pubmed_mapper.py:690-703 | the loop joins the paragraphs of the `AbstractText` elements, in document order, with no separator |
| Mapper.RenderParagraphs | pubmed_download/pubmed_mapper.py:692-703 | the loop over any list of paragraph elements computes the join of their paragraphs |
| Mapper.ParagraphsAppend | pubmed_download/pubmed_mapper.py:693-702 | the paragraphs of two lists of elements are the paragraphs of the first, then those of the second |
| Mapper.AbstractSplits | pubmed_download/pubmed_mapper.py:690-703 | the abstract of two runs of paragraphs is the first run's abstract followed by the second's |
| Mapper.ParagraphHead | pubmed_download/pubmed_mapper.py:696-701 | a labelled paragraph starts with the capitalised label and a colon; an unlabelled one is just the inner text |
| Mapper.ArticleParses | pubmed_download/pubmed_mapper.py:822-857 | `Article.parse_element` succeeds exactly when the PMID, the journal, every reference and the date parse; a missing PMID raises `IndexError`; the only exceptions are `IndexError`, `KeyError`, `ValueError`, `OverflowError` and `PubmedMapperError` |
| Mapper.ParsePmid | pubmed_download/pubmed_mapper.py:859-875 | an unreachable registry gives `None`; a malformed reply raises; a reply without `PubmedArticle` gives `None`; otherwise the first article is parsed, and its exception escapes |
| Mapper.ArticleIdRoundTrip | pubmed_download/pubmed_mapper.py:74-79 | an `ArticleId` written as an element and read back is unchanged |
| Mapper.ArticleIdOf | pubmed_download/pubmed_mapper.py:74-79 | `ArticleId.parse_element` reads `IdType` and the text; no contract of its own: `ArticleIdRoundTrip` is its partner |
| Mapper.DescriptorOf | pubmed_download/pubmed_mapper.py:96-101 | `Mesh.parse_element` and `Publication.parse_element` read `UI` and the text; no contract of its own: `DescriptorRoundTrip` is its partner |
| Mapper.DescriptorRoundTrip | pubmed_download/pubmed_mapper.py:96-101 | a heading or publication type written as an element, under any tag, and read back is unchanged |
| Mapper.LeafText | pubmed_download/pubmed_mapper.py:578 | the first text of a leaf element is its text |
| Mapper.ChildText | pubmed_download/pubmed_mapper.py:577-586 | `extract_first(./Tag/text())` of an element with one such leaf child is that child's text |
| Mapper.AffiliationText | pubmed_download/pubmed_mapper.py:589-590 | the two-step path `./AffiliationInfo/Affiliation/text()` reads the nested text |
| Mapper.AuthorRoundTrip | pubmed_download/pubmed_mapper.py:617-628 | an author written as its four child elements is read back unchanged |
| Mapper.AuthorFromFields | pubmed_download/pubmed_mapper.py:617-628 | `Author.parse_element` takes each field from its own path and nothing else |
| Mapper.AuthorOf | pubmed_download/pubmed_mapper.py:617-628 | `Author.parse_element`; no contract of its own: `AuthorRoundTrip` and `AuthorFromFields` state what it reads |
| Mapper.SubTitle | pubmed_download/pubmed_mapper.py:696-700 | the sub-title is empty exactly when the label is missing or empty; otherwise it is one character longer than the label, starts with the label's first letter in upper case and ends with a colon |
| Mapper.AbstractOf | pubmed_download/pubmed_mapper.py:690-703 | `parse_abstract`; no contract of its own: `ParseAbstract` computes it and `AbstractSplits` and `ParagraphHead` state its shape |
| Mapper.ArticleOf | pubmed_download/pubmed_mapper.py:823-857 | `Article.parse_element`; no contract of its own: `ArticleParses` states when it succeeds and what it raises |
| Downloader.BaseName | pubmed_download/pubmed_download.py:58 | `os.path.basename` is a suffix without '/', and the whole path when it has no '/' |
| Downloader.BaseNameAfterSlash | pubmed_download/pubmed_download.py:58 | the base name is the whole path or starts right after a '/', so with `BaseName` it is exactly the part after the last '/' |
| Downloader.PathJoin | pubmed_download/pubmed_download.py:79 | `os.path.join(a, b)` ends with `b`, and starts with `a` unless `b` is absolute |
| Downloader.DownloadPath | pubmed_download/pubmed_download.py:58 | where `download` writes; no contract of its own: `SamePath` relates it to `CheckPath` |
| Downloader.CheckPath | pubmed_download/pubmed_download.py:79 | where `check_downloaded` looks; no contract of its own: `SamePath` relates it to `DownloadPath` |
| Downloader.SamePath | pubmed_download/pubmed_download.py:58-79 | for a PMID without '/' and a store path that is not empty and does not end in '/', `check_downloaded` looks at the very spelling `download` writes |
| Downloader.Canon | pubmed_download/pubmed_download.py:79-80 | the spelling the file system resolves a path to keeps the last character and never grows |
| Downloader.CanonShape | pubmed_download/pubmed_download.py:79-80 | a resolved spelling has no run of '/', and a spelling without one is its own resolution |
| Downloader.CanonDropsSlash | pubmed_download/pubmed_download.py:58 | after a '/', one more '/' resolves to nothing |
| Downloader.SameFile | pubmed_download/pubmed_download.py:58-80 | for a PMID without '/' and a non-empty store path, with or without a trailing '/', `check_downloaded` finds the file `download` writes |
| Downloader.OnDisk | pubmed_download/pubmed_download.py:80 | `os.path.exists` and `os.path.isfile`: some file on disk resolves to where the path does; no contract of its own: `SameFile` and `RepeatedPmidReportedFailed` use it |
| Downloader.Fetch | pubmed_download/pubmed_download.py:43-75 | `download` reports success exactly for a 200 response whose body PyPDF2 reads or rejects with `ValueError`; after a 200 the file is on disk exactly when it succeeded, and no other file changes |
| Downloader.FetchRecords | pubmed_download/pubmed_download.py:55 | every call of `download` requests its URL once |
| Downloader.Tried | pubmed_download/pubmed_download.py:176-181 | a loop that stops after the first success hands `download` a prefix of the candidates, all rejected except possibly the last, which ends it early only by succeeding |
| Downloader.TryInOrderSpec | pubmed_download/pubmed_download.py:176-181 | the loop succeeds exactly when some candidate is accepted, and it requests exactly the candidates up to the first accepted one |
| Downloader.TryInOrderKeepsFile | pubmed_download/pubmed_download.py:176-181 | when the loop reports success, the PDF is on disk |
| Downloader.SweepSpec | pubmed_download/pubmed_download.py:158-163 | the DOI candidate loop leaves the disk and the requests untouched once the status is true; otherwise it requests every stripped candidate, in order |
| Downloader.Stripped | pubmed_download/pubmed_download.py:161 | each candidate is stripped before `download` |
| Downloader.TryInOrder | pubmed_download/pubmed_download.py:176-181 | the candidate loop with `break`; no contract of its own: `TryInOrderSpec` and `TryInOrderKeepsFile` state it |
| Downloader.TryInOrderTouches | pubmed_download/pubmed_download.py:176-181 | the candidate loop changes no file but the PMID's and only appends requests |
| Downloader.Sweep | pubmed_download/pubmed_download.py:158-163 | the DOI candidate loop; no contract of its own: `SweepSpec` states it |
| Downloader.SweepTouches | pubmed_download/pubmed_download.py:158-163 | the DOI candidate loop changes no file but the PMID's and only appends requests |
| Downloader.DoiUrls | pubmed_download/pubmed_download.py:143-157 | thirteen DOI candidates, the fourth repeated as the eighth |
| Downloader.PiiUrls | pubmed_download/pubmed_download.py:171-175 | three PII candidates |
| Downloader.PmcUrls | pubmed_download/pubmed_download.py:198-200 | one Europe PMC candidate |
| Downloader.WithScheme | pubmed_download/pubmed_download.py:136-137 | the scraped link always contains `https:` after the fix-up |
| Downloader.DoiStatusIsScrapeOnly | pubmed_download/pubmed_download.py:120-165 | `search_by_doi` succeeds exactly when the scraped link is accepted; when the scrape fails, all 13 candidates are requested and their results are ignored |
| Downloader.PiiInOrder | pubmed_download/pubmed_download.py:167-183 | `search_by_pii` succeeds exactly when one of its three URLs is accepted; it requests them in order up to the first success, and success leaves the PDF on disk |
| Downloader.PmcFallback | pubmed_download/pubmed_download.py:185-208 | `search_by_pmc` tries the scraped link first; only when there is none or it fails does it request the Europe PMC URL built from the lower-cased accession, whose result decides |
| Downloader.SearchDoi | pubmed_download/pubmed_download.py:120-165 | `search_by_doi`; no contract of its own: `DoiStatusIsScrapeOnly` and `DoiTouches` state it |
| Downloader.SearchPii | pubmed_download/pubmed_download.py:167-183 | `search_by_pii`; no contract of its own: `PiiInOrder` states it |
| Downloader.SearchPmc | pubmed_download/pubmed_download.py:185-208 | `search_by_pmc`; no contract of its own: `PmcFallback` and `PmcTouches` state it |
| Downloader.DoiTouches | pubmed_download/pubmed_download.py:120-165 | `search_by_doi` changes no file but the PMID's and only appends requests |
| Downloader.PmcTouches | pubmed_download/pubmed_download.py:185-208 | `search_by_pmc` changes no file but the PMID's and only appends requests |
| Downloader.RoutesTouchOnlyPath | pubmed_download/pubmed_download.py:103-111 | the search over the three routes changes no file but the PMID's and only appends requests |
| Downloader.IdMapKeys | pubmed_download/pubmed_download.py:101-102 | an identifier kind is in the map exactly when some identifier has that kind |
| Downloader.IdMapLast | pubmed_download/pubmed_download.py:101-102 | the map holds the value of the last identifier of each kind |
| Downloader.LastIdWins | pubmed_download/pubmed_download.py:101-105 | both facts for all kinds at once: the key set, and the last identifier of a kind wins |
| Downloader.BuildIdMap | pubmed_download/pubmed_download.py:101-102 | the loop of `dict.update` calls builds that map |
| Downloader.IdMap | pubmed_download/pubmed_download.py:101-102 | `ids_dict`; no contract of its own: `IdMapKeys`, `IdMapLast` and `LastIdWins` state it |
| Downloader.IdOf | pubmed_download/pubmed_download.py:103-105 | `ids_dict.get(kind, None)`; its uses are stated by `RoutesInOrder` |
| Downloader.SearchIds | pubmed_download/pubmed_download.py:103-111 | the three `if ... and search: continue` tests; no contract of its own: `RoutesInOrder`, `FoundOnDisk` and `RoutesTouchOnlyPath` state it |
| Downloader.RoutesInOrder | pubmed_download/pubmed_download.py:103-111 | a successful DOI route ends the search; otherwise a successful PII route does; when both fail or are skipped, the PMC route decides from the state they left, and with no PMC the search fails there; with no usable identifier nothing is requested; a reported success leaves the PDF on disk |
| Downloader.FoundOnDisk | pubmed_download/pubmed_download.py:106-111 | whenever the identifier search reports success, the PDF is on disk |
| Downloader.VisitCases | pubmed_download/pubmed_download.py:87-113 | a PDF already on disk adds the PMID to `failed_list` and requests nothing; a parse exception adds it; `None` from the parse aborts the batch; otherwise the PMID is added exactly when the identifier search fails, the disk and requests are what the search leaves, and success means the PDF is on disk |
| Downloader.Visit | pubmed_download/pubmed_download.py:87-113 | one turn of `run`; no contract of its own: `VisitCases` states it |
| Downloader.WalkFailed | pubmed_download/pubmed_download.py:87-113 | `failed_list` only grows, by at most one entry per position of the PMID list, and only by PMIDs of the batch |
| Downloader.Walk | pubmed_download/pubmed_download.py:87-113 | the loop of `run`; no contract of its own: `WalkFailed` and `RepeatedPmidReportedFailed` state it |
| Downloader.RepeatedPmidReportedFailed | pubmed_download/pubmed_download.py:87-94 | a PMID without '/' listed twice, with a non-empty store path (a trailing '/' included), whose first visit downloaded it is reported failed on its second visit |
| Downloader.DownloadPdf.constructor | pubmed_download/pubmed_download.py:37-41 | a new downloader has an empty `failed_list` |
| Downloader.DownloadPdf.Download | pubmed_download/pubmed_download.py:43-75 | `download` does what `Fetch` states, to the file `store_path/basename(pmid).pdf` |
| Downloader.DownloadPdf.CheckDownloaded | pubmed_download/pubmed_download.py:77-82 | `check_downloaded` is true exactly when a file on disk resolves to `CheckPath`, as `OnDisk` says; no contract of its own |
| Downloader.DownloadPdf.TryUrls | pubmed_download/pubmed_download.py:176-181 | the candidate loop with `break` computes the loop function `TryInOrder` |
| Downloader.DownloadPdf.SearchByDoi | pubmed_download/pubmed_download.py:120-165 | the method computes the DOI route's status and new disk state |
| Downloader.DownloadPdf.SearchByPii | pubmed_download/pubmed_download.py:167-183 | the method computes the PII route's status and new disk state |
| Downloader.DownloadPdf.SearchByPmc | pubmed_download/pubmed_download.py:185-208 | the method computes the PMC route's status and new disk state |
| Downloader.DownloadPdf.SearchRoutes | pubmed_download/pubmed_download.py:103-111 | the three `if ... and search: continue` tests compute the identifier search |
| Downloader.DownloadPdf.SearchParsed | pubmed_download/pubmed_download.py:95-113 | the body of one turn of `run` after the on-disk check, as `VisitCases` describes it |
| Downloader.DownloadPdf.Run | pubmed_download/pubmed_download.py:84-118 | `run` leaves `failed_list` and the disk as the walk over the PMIDs says; it returns the batch's PMIDs minus the failed ones, or raises `AttributeError` when a record fetch returned `None` |

## Left out

- HTTP is an oracle: `urlopen` for the registry, the Sci-Hub page and the PMC page; `requests.get` for the PDFs. Timeouts, headers and cookies are not modelled. An exception from `requests.get` is one `Unanswered` reply.
- Scraping a page with BeautifulSoup is an oracle that gives the link or nothing. When the scrape raises, it counts as giving nothing, which is what the `except` clauses make of it.
- PyPDF2's validation is an oracle answer: parsed, `ValueError`, or another exception.
- The oracles are deterministic: asking the same URL twice gets the same answer.
- Path resolution covers runs of '/' only. `.` and `..` components, symbolic links and a directory named like the PDF are not modelled. With an empty store path `download` writes `/<pmid>.pdf` at the root and `check_downloaded` looks in the working directory; the model keeps those two apart, as the file system does.
- Exceptions while writing the file in the middle of a download are not modelled. Nor is a failure to remove it afterwards.
- The lxml XPath engine, `etree.parse` and `etree.tostring` are replaced by the element datatype and child-path selection. The text of `PubmedMapperError` is not modelled. A malformed registry reply is one `XMLSyntaxError`.
- The full regular-expression engine is not modelled. Each anchored pattern is a hand-written matcher. `month_text` is the maximal letter run, and backtracking cannot change that capture for these patterns.
- `datetime.date` is its validity rule and its argument check only: an argument outside the C `int` range raises `OverflowError`; otherwise year 1 to 9999, month 1 to 12, day within the month, with leap years, or `ValueError`.
- The `MedlineDate` matchers read `\d` as an ASCII digit. In a `str` pattern Python's `\d` also matches other Unicode decimal digits (such as the Arabic-Indic `١٩٩٩`), and `int()` reads them, so the source dates such texts where the model's strategies decline.
- Logging, the pandas CSV write of `failed_list`, `__repr__`, `to_dict`, and `setup.py` are not modelled.
- Case mapping is ASCII only. Python's `capitalize` and `lower` also map non-ASCII letters, and `isdigit` accepts non-ASCII digits.
- PyBuiltins.ParseInt: does not model non-ASCII digits. Its stated contract covers only strings of ASCII digits.
- The registry request made by `Article.parse_pmid` is not recorded in `World.requests`. Only calls of `download` are recorded.
- Medline.MatchYearOnly and the other `Match*` functions carry no postcondition. What each one captures is stated in the `*Captures` lemma beside it.
- The cascade is reached with the texts read from `<PubDate>` once (`Pubdate.PubDateTexts`). In the source each strategy reads them again, but the reads are pure.
