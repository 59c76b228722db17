# Job-offer scrapers: a verified model of the core

The repository scrapes Python job offers from two Mexican job boards, Computrabajo and
OCC. For each listing page it fetches the overview of offers with a CSS extraction schema.
It then clicks every offer and reads the detail view that renders, and stamps the offer
with the time of the visit. Several pages are scraped concurrently, and the results are
folded into one list, stopping at the first page that reports no next page. Two helper
classes normalise the offers' fields. A date converter turns relative dates ("hace 3
horas", "ayer", "15 marzo") into date-times. A salary converter turns salary texts ("$15,000
mensual") into a base amount and a commission flag.

This project models that core in Dafny and proves what it does:

- `wrappers.dfy`: `Option`, `Result`, and the Python exception kinds the code can raise.
- `text.dfy`: the string built-ins the code relies on (`lower`, `strip`, `split`, `isdigit`,
  `int`, `str`, `join`).
- `calendar.dfy`: the part of `datetime` the converters use. Date-times are in the proleptic
  Gregorian calendar and are identified with the seconds since 0001-01-01. It covers
  `timedelta` subtraction, `datetime(y, m, d)` and `strftime("%Y-%m-%d %H:%M:%S")`.
- `common_utils.dfy`: `DateConverter` and `SalaryConverter` of `src/job/common/utils.py`.
- `legacy_utils.dfy`: the older `DateConverter` of `src/utils.py`, with its month table.
- `dom.dfy`: the parsed pages, reduced to the elements and attributes the scrapers look at.
  It also holds the JSON values the scrapers produce.
- `compu_trabajo.dfy`: the Computrabajo scraper. It covers the schema, the detail extractor
  with its icon table, the offer id, the next-page check and the page URL pattern.
- `occ.dfy`: the OCC scraper. It is a class whose detail extractor stores the
  `#job-detail-container` it found; the helpers that follow read the stored container.
- `mixins.dfy`: the shared machinery. It covers the session id, the per-offer enrichment, the
  loop over the offers, the per-page decision table, the task list and the result fold.

Network fetches are not performed. Their outcomes are inputs: a `DetailFetch` per clicked
offer, an `Overview` per page, a `PageRun` per page task, and the list of gathered task
results. The clock `datetime.now()` is a parameter. The converters' constants
`DECIMAL_PLACES` and `MONTHS` live in a constants module that is not part of this model, so
they are parameters too.

Behaviours of the code worth noting, which the model keeps:

- The newer date converter checks its markers in the order "ayer", "hora(s)", "días",
  "minuto(s)". The minutes marker comes last, not second.
- A text with no marker and no month name raises `IndexError` from the `[0]`. The
  `if not month_name` guard after it can never fire.
- The hourly salary branch raises `TypeError` instead of dividing (see Findings).
- A page whose overview fetch fails yields `[]`, not "no more pages". Only the next-page
  check, made for pages after the first, yields `None`.
- Closing the crawler happens inside the `try` of `scrape_page`, so an exception on close
  turns a `None` or a list of offers into `[]`.
- `int()` refuses a digit string longer than 4300 characters with `ValueError` (CPython's
  default limit), so a date text with that many digits fails the same way as one with none.
- OCC's detail extractor raises `AttributeError` when the "requisitos" paragraph has no
  next sibling. It does not omit the field.
- An offer whose enrichment fails stays exactly as it was.
- Computrabajo's next-page check counts `article.box_offer` elements on the whole page, not
  only inside the offers container.

## Model

| member | source | states |
|---|---|---|
| CommonUtils.Digit | src/job/common/utils.py:13-14 | `_digit` consists of digits only, and they are the digits of the input in order |
| Text.DigitsKeepsEveryDigitInOrder | src/job/common/utils.py:13-14 | the digits of a text form a subsequence of it that holds every digit of it |
| CommonUtils.Ago | src/job/common/utils.py:32-42 | `now - timedelta(...)`: `ValueError` without digits or with more than the 4300 digits `int()` converts, otherwise exactly magnitude × unit seconds earlier, or `OverflowError` before year 1 |
| Calendar.Minus | src/job/common/utils.py:32-42 | subtracting a `timedelta` gives a valid date-time exactly that many seconds earlier, or `OverflowError` when it would fall before year 1 |
| Calendar.FromToSeconds | src/job/common/utils.py:32-42 | date-times and second counts correspond one to one, so "exactly N seconds earlier" determines the date-time |
| Calendar.ToSecondsInjective | src/job/common/utils.py:32-42 | two valid date-times with the same second count are equal |
| CommonUtils.MonthTokens | src/job/common/utils.py:45 | every token the month filter keeps is a word of the text and a key of `MONTHS` |
| CommonUtils.MonthTokensFirst | src/job/common/utils.py:45 | the filter's `[0]` is the first word that is a month name |
| CommonUtils.MonthTokensEmpty | src/job/common/utils.py:45 | with no month-name word the filter is empty |
| CommonUtils.MonthDefault | src/job/common/utils.py:44-52 | a successful default is a valid date at midnight in `now`'s year |
| Calendar.Midnight | src/job/common/utils.py:52 | `datetime(y, m, d)` succeeds exactly for a date that exists, giving its midnight; an argument beyond a C `int` raises `OverflowError`, any other impossible date `ValueError` |
| CommonUtils.ConvertDate | src/job/common/utils.py:54-70 | every relative result lies at or before `now`; every month-name result is midnight in `now`'s year |
| CommonUtils.YesterdayWins | src/job/common/utils.py:58-59 | "ayer" overrides every other marker: exactly one day before `now`, or `OverflowError` on the first day |
| CommonUtils.HourBranch | src/job/common/utils.py:60-61 | without "ayer", "hora"/"horas" gives `now` minus that many hours; no digits, or more than 4300, give `ValueError` |
| CommonUtils.DaysBranch | src/job/common/utils.py:62-63 | without "ayer" or "hora", "días" gives `now` minus that many days; no digits, or more than 4300, give `ValueError` |
| CommonUtils.MinutesBranch | src/job/common/utils.py:64-65 | "minuto(s)" counts only when no earlier marker occurs, and gives `now` minus that many minutes; no digits, or more than 4300, give `ValueError` |
| CommonUtils.HugeDayOverflows | src/job/common/utils.py:51-52 | with no marker, a month word and at most 4300 digits whose value is beyond a C `int` (a year and a time after the day), the converter raises `OverflowError` |
| CommonUtils.MonthDefaultBranch | src/job/common/utils.py:66-68 | with no marker: no month word gives `IndexError`, no digits or more than 4300 give `ValueError`, otherwise midnight of (`now`'s year, month of the first month word, digits) |
| Calendar.Format | src/job/common/utils.py:70 | the stamp is 19 characters long |
| Calendar.ParseFormat | src/job/common/utils.py:70 | formatting loses nothing: the stamp reads back as the same date-time |
| Calendar.FieldsOfStamp | src/utils.py:18 | the stamp puts year, month, day, hour, minute and second at fixed positions between "-", " " and ":" |
| CommonUtils.RawSalary | src/job/common/utils.py:75-77 | a missing text counts as "", then it is stripped and lower-cased |
| Text.Strip | src/job/common/utils.py:77 | the stripped text is no longer than the input and neither begins nor ends with whitespace |
| Text.StripEmpty | src/job/common/utils.py:77 | a text strips to "" exactly when it is all whitespace |
| CommonUtils.DigitsOver | src/job/common/utils.py:94-95 | `float(digits) / DECIMAL_PLACES`: `ValueError` without digits, the quotient when the divisor is not zero |
| CommonUtils.ConvertSalary | src/job/common/utils.py:103-116 | the commission flag is always the "comisión" test; monthly texts get digits over the divisor; a text with neither "mensual" nor "horas" always succeeds with base 0.0 |
| CommonUtils.DefaultSalary | src/job/common/utils.py:110-114 | a text with neither "mensual" nor "horas" gives base 0.0 and the commission flag of "comisión" |
| CommonUtils.BlankSalary | src/job/common/utils.py:75-77 | a missing or blank salary gives base 0.0 and no commission |
| CommonUtils.MonthlyBeforeHourly | src/job/common/utils.py:106-109 | "mensual" is checked first: without digits it raises `ValueError`, with digits and a divisor it succeeds |
| CommonUtils.HourlySalaryAlwaysRaises | src/job/common/utils.py:97-98 | an hourly text (without "mensual") always raises `TypeError` |
| CommonUtils.ConvertSalaryFixed | src/job/common/utils.py:103-116 | with the hourly branch repaired, hourly and monthly texts both give digits over the divisor, exactly when there are digits and a non-zero divisor; other texts are unchanged |
| CommonUtils.MagnitudeExample | src/job/common/utils.py:13-14 | "hace 1 día 2" reads as the magnitude 12: all digits are concatenated |
| CommonUtils.MonthlyExample | src/job/common/utils.py:94-95 | "$15,000 mensual" with divisor 100 is a base of 150.0 without commission |
| CommonUtils.HourSingularWithCommission | src/job/common/utils.py:86-92 | "$20 por hora más comisión": the singular "hora" is no hourly marker, so the base is 0.0, with commission |
| CommonUtils.TwentyPerHourAsWritten | src/job/common/utils.py:98 | "$20 por horas" raises `TypeError` |
| CommonUtils.TwentyPerHourFixed | src/job/common/utils.py:98 | "$20 por horas" with the repair and divisor 100 is a base of 0.2 |
| Text.Split | src/job/common/utils.py:45 | `split()` yields non-empty words without whitespace, and none at all exactly when the text is blank |
| Text.SplitWordFirst | src/job/common/utils.py:45 | a text that starts with a whole word splits into that word followed by the split of the rest |
| Text.SplitSpaceFirst | src/job/common/utils.py:45 | leading whitespace does not change a split |
| Text.SplitCharsOccur | src/utils.py:53 | every character of every word of `split()` occurs in the text |
| LegacyUtils.MonthsNumberTheYear | src/utils.py:3-16 | the n-th month name maps to n |
| LegacyUtils.MonthsAreNamed | src/utils.py:3-16 | every key of `MONTHS` is the name of the month it numbers |
| LegacyUtils.ConvertWith | src/utils.py:62-73 | every successful result is a valid date-time |
| LegacyUtils.Convert | src/utils.py:62-75 | succeeds exactly when the decision does, and the returned stamp reads back as the chosen date-time |
| LegacyUtils.ConvertFixed | src/utils.py:62-75 | the same converter with the marker "días": the stamp reads back as the chosen date-time |
| LegacyUtils.DaysBranchUnreachable | src/utils.py:40-41 | as written, for every input, the converter equals one with no days branch at all |
| Text.LowerNeverContainsUpper | src/utils.py:41 | a lower-cased text never contains a marker with an upper-case character |
| LegacyUtils.FixedDaysBranch | src/utils.py:70-71 | with the intended marker, "días" gives `now` minus that many days; no digits, or more than 4300, give `ValueError` |
| LegacyUtils.NoMonthNameRaises | src/utils.py:52-60 | with no recognised marker and no word of the split that is a month name, the converter raises `IndexError` |
| LegacyUtils.NoMonthLetterRaises | src/utils.py:52-60 | a text without a marker that lacks a letter of every month name raises `IndexError` |
| LegacyUtils.AgreesWithCommonConverter | src/utils.py:62-75 | on texts without "hora", "días" or "minuto", the legacy and newer converters agree |
| LegacyUtils.MonthNamesNeedALetter | src/utils.py:3-16 | every month name has one of b, g, j, m, n |
| LegacyUtils.ThreeDaysAgoAsWritten | src/utils.py:41 | "hace 3 días" raises `IndexError` |
| LegacyUtils.ThreeDaysAgoFixed | src/utils.py:41 | with the intended marker, "hace 3 días" is exactly three days before `now` |
| LegacyUtils.OneHourAsWritten | src/utils.py:35-37 | "hace 1 hora" is not an hour marker here and raises `IndexError` |
| LegacyUtils.OneHourNewerConverter | src/job/common/utils.py:20-22 | the newer converter reads "hace 1 hora" as exactly one hour before `now` |
| CompuTrabajo.OutputSchema | src/job/compu_trabajo/scraper.py:48-71 | the schema is named after the service, iterates `article.box_offer`, and reads title, company, location, relative_date and description as text |
| CompuTrabajo.IconKeyFromIsFirstMatch | src/job/compu_trabajo/scraper.py:115-118 | the icon loop assigns the key of the first table entry whose name occurs in the joined classes, and nothing when none occurs |
| CompuTrabajo.IconKeyIsTableKey | src/job/compu_trabajo/scraper.py:12-18 | an icon only ever fills time, location, place or salary |
| CompuTrabajo.CompanyAndHomeShareKey | src/job/compu_trabajo/scraper.py:15-17 | `i_company` and `i_home` both fill "place" |
| CompuTrabajo.ContributionKey | src/job/compu_trabajo/scraper.py:107-118 | a paragraph only ever writes one of the icon keys |
| CompuTrabajo.FoldSnoc | src/job/compu_trabajo/scraper.py:107-118 | one more paragraph is one more step of the loop |
| CompuTrabajo.UntouchedKey | src/job/compu_trabajo/scraper.py:107-118 | a key that no paragraph writes keeps its initial value, or stays absent |
| CompuTrabajo.LastWriterWins | src/job/compu_trabajo/scraper.py:117 | a key holds the text of the last paragraph that writes it |
| CompuTrabajo.FoldWritesKeys | src/job/compu_trabajo/scraper.py:107-118 | the loop keeps every initial key and adds only contributed keys |
| CompuTrabajo.Description | src/job/compu_trabajo/scraper.py:94 | the description is the stripped text with each line break turned into a space |
| CompuTrabajo.JobDetails | src/job/compu_trabajo/scraper.py:73-120 | no `box_detail` or no `fs14` gives `{}`; it raises exactly when both divs exist and the `opt_bubble` has no `data-url`, and then `KeyError` |
| CompuTrabajo.DetailKeysOnly | src/job/compu_trabajo/scraper.py:101-118 | the result has only description, requirements, job_url and icon keys |
| CompuTrabajo.FixedKeys | src/job/compu_trabajo/scraper.py:86-105 | description, requirements and job_url are always present with their documented values, whatever the paragraphs say |
| CompuTrabajo.LastIconParagraphWins | src/job/compu_trabajo/scraper.py:107-118 | an icon key holds the stripped text of the last paragraph whose icon selects it |
| CompuTrabajo.ApplyIcons | src/job/compu_trabajo/scraper.py:115-118 | the inner loop with its `break` makes exactly the first-match step |
| CompuTrabajo.ScanParagraphs | src/job/compu_trabajo/scraper.py:107-118 | the loop with its `continue` equals the fold of the paragraphs' contributions |
| CompuTrabajo.GetJobDetails | src/job/compu_trabajo/scraper.py:73-120 | the imperative extractor returns exactly `JobDetails` |
| CompuTrabajo.OfferId | src/job/compu_trabajo/scraper.py:122-127 | the id is present exactly when `#IdOffer` and its `value` are, and it is that value |
| Occ.OutputSchema | src/job/occ/scraper.py:48-75 | the schema is named after the service, iterates `div.bg-bg-surface-default`, and reads the five common fields as text |
| Occ.FirstMoney | src/job/occ/scraper.py:79-80 | the first span with attributes whose class list has "i_money", and none exactly when no span qualifies |
| Occ.FirstMentioning | src/job/occ/scraper.py:88 | the first paragraph whose lower-cased text has the word, and none exactly when no paragraph has it |
| Occ.OccScraper.constructor | src/job/occ/scraper.py:23 | a new scraper has no stored container |
| Occ.OccScraper.GetSalary | src/job/occ/scraper.py:77-81 | the span loop with its early return gives the stripped parent text of the first money span, `None` without one, `AttributeError` without a container |
| Occ.SalaryIsFirstMoneySpan | src/job/occ/scraper.py:77-81 | the salary comes from the first money span |
| Occ.DescriptionOf | src/job/occ/scraper.py:83-94 | raises exactly without a container; `{}` exactly when no paragraph mentions "descripción", else the stripped parent text of the first that does |
| Occ.MentionedIdHasAToken | src/job/occ/scraper.py:101-106 | a paragraph that mentions "id:" splits into at least one word |
| Occ.OfferIdIsLastToken | src/job/occ/scraper.py:96-106 | with a container the id lookup never raises; it is `None` exactly when no paragraph mentions "id:", else the last word of the first one that does |
| Occ.RequirementsOf | src/job/occ/scraper.py:108-119 | `None` when no paragraph mentions "requisitos", else the unstripped text of the first such paragraph's next sibling; `AttributeError` without a container or a sibling |
| Occ.OnlyMissingSiblingRaises | src/job/occ/scraper.py:108-131 | with a container, the extractor raises exactly when the first "requisitos" paragraph has no next sibling |
| Occ.JobUrlOf | src/job/occ/scraper.py:133-134 | job_url is the offer URL exactly when the id is truthy |
| Occ.JobUrlIffIdParagraph | src/job/occ/scraper.py:130-134 | job_url is a URL exactly when some paragraph mentions "id:", and it embeds the id |
| Occ.JobDetailsOf | src/job/occ/scraper.py:121-143 | a result has exactly the keys description, job_url, salary, requirements; no container gives `AttributeError` |
| Occ.OccScraper.GetJobDetails | src/job/occ/scraper.py:121-143 | stores the page's container and returns what the helpers compute from it |
| Mixins.SessionIdInjective | src/job/mixins.py:180-182 | two crawlers of one service never share a session id |
| Mixins.SitesNeverShareSessionId | src/job/mixins.py:180-182 | the two services never share a session id |
| Mixins.EnrichKeepsOtherKeys | src/job/mixins.py:124-129 | enrichment touches only details, offer_id and current_datetime |
| Mixins.EnrichWritesThreeKeys | src/job/mixins.py:124-129 | a fetched page without exception sets the details, the offer id and a 19-character timestamp |
| Mixins.OfferIdAfterDetails | src/job/mixins.py:127-128 | once the details were extracted, the id lookup never raises |
| Mixins.FailedEnrichmentLeavesOffer | src/job/mixins.py:124-131 | a failed or unsuccessful enrichment leaves the offer exactly as it was |
| Mixins.GetDetails | src/job/mixins.py:102-131 | the offer object ends as `Enrich` says; OCC's scraper stores the fetched container |
| Mixins.NewOffers | src/job/mixins.py:100 | the overview's offers become distinct new objects holding the extracted fields |
| Mixins.GetData | src/job/mixins.py:133-149 | `None` exactly for a failed or empty overview; otherwise every offer is enriched in order, one failure not stopping the rest |
| Mixins.ScrapePage | src/job/mixins.py:193-231 | `None` exactly when a later page's check says unavailable and closing the crawler does not raise; offers exactly when the page runs, finds some and the crawler closes cleanly; `[]` otherwise |
| Mixins.FirstPageNeverNone | src/job/mixins.py:217 | page 1 is never reported missing |
| Mixins.PageUrlsDistinct | src/job/mixins.py:276 | different page numbers give different URLs |
| Mixins.PatternNeverBase | src/job/compu_trabajo/scraper.py:159 | page n is `JOB_URL?p=n` (OCC: `?page=n`), never the base URL |
| Mixins.PlanTasks | src/job/mixins.py:267-279 | the base URL is page 1, then the pattern for pages 2 to `max_pages`, at least one task |
| Mixins.TaskUrlsDistinct | src/job/mixins.py:267-279 | every task gets its own URL when the pattern never yields the base URL |
| Mixins.SiteTaskUrlsDistinct | src/job/occ/scraper.py:171-177 | for both runners' URLs and patterns, every task of the plan gets its own URL |
| Mixins.Aggregate | src/job/mixins.py:286-309 | the loop collects and counts exactly `Collected` and `CountedPages`, and writes a file exactly when offers were found |
| Mixins.NoneStopsTheFold | src/job/mixins.py:294-297 | nothing after the first `None` is collected or counted |
| Mixins.RaisedAddsNothing | src/job/mixins.py:292-293 | an exception adds nothing and does not stop the walk |
| Mixins.CollectedConcat | src/job/mixins.py:289-301 | before any `None`, the fold is the concatenation of the halves' folds |
| Mixins.PageInFold | src/job/mixins.py:289-301 | a page's `scrape_page` result in the fold: unavailable ends the collection there, otherwise its offers are added in place and the page is counted |
| Mixins.StopsAtMissingPage | src/job/mixins.py:286-301 | [page 1 offers, exception, `None`, page 4 offers] collects page 1's offers and counts one page |
| Mixins.MembershipVersusSubstring | src/job/occ/scraper.py:80 | a span whose only class is "i_moneybag" is a salary for Computrabajo and not for OCC |

## Left out

- The browser, network and crawler library: page fetches, JavaScript clicks, waits and timeouts are inputs (`DetailFetch`, `Overview`, `PageRun`, gathered results).
- The HTML parser: pages are records holding only the elements and attributes the code reads.
- Concurrency: the semaphore, `asyncio.gather` and completion order. The gathered results are a sequence in page order.
- The JSON output file, its time-stamped name and its encoding: `Aggregate` only says whether the file is written.
- Every `print`.
- The dummy crawler `main_scraper` opens to read the service name: the service name is a parameter.
- `BaseScraperSetup.session_id`, which returns `None`: only the `BaseScraper` override is modelled.
- `id(crawler)` is a natural number.
- The crawler configuration objects.
- Floating point: amounts are exact reals.
- Sub-second precision of `datetime.now()`.
- Dictionary key order: dictionaries are maps.
- `str.lower` is modelled for ASCII and Latin-1 letters, and `isdigit` for ASCII digits; other Unicode letters and digits are not modelled.
- An overview that decodes to something other than a list of offers.
- `DECIMAL_PLACES` and `MONTHS` of the constants module, which is not part of this model: both are parameters.
- CommonUtils.ConvertDate: stops before the final `strftime`. The formatting step is `Calendar.Format`, proved lossless by `Calendar.ParseFormat`.
- Mixins.GetDetails: a detail page that never came back is `Raised` or `Unsuccessful`; the JavaScript click index is not modelled.
- Occ.OccScraper: an unset `box_detail` is modelled as `None`. Reading it raises `AttributeError` just as reading the unset attribute does.
- Text.Strip: specified by its ends and its length, not as a slice of its input.
- Mixins.NextPageAvailable, CompuTrabajo.NextPageAvailable, Occ.NextPageAvailable: the checks themselves are predicates on the fetched listing page, stated through `Mixins.ScrapePage`.

## Findings

| source | as written | input that shows it | evidently intended | confidence | as-written member | corrected member |
|---|---|---|---|---|---|---|
| src/utils.py:41 | the days marker is "dÃ­as" (UTF-8 read as Latin-1), which holds an upper-case letter and so never occurs in the lower-cased text | "hace 3 días" raises `IndexError` | "días": three days before `now` | high, not executed | LegacyUtils.ThreeDaysAgoAsWritten | LegacyUtils.ThreeDaysAgoFixed |
| src/job/common/utils.py:98 | `_convert_from_hourly` divides the digit string by a number, which raises `TypeError` | "$20 por horas" raises `TypeError` | `float(digits) / DECIMAL_PLACES`: 0.2 with a divisor of 100 | high, not executed | CommonUtils.TwentyPerHourAsWritten | CommonUtils.TwentyPerHourFixed |
