/** `src/job/mixins.py`: what happens between the network calls. The session id, the
    per-offer enrichment of `_get_details`, the overview handling and the loop of `get_data`,
    the decision table of `scrape_page`, and `main_scraper`'s task list and result fold.
    Fetches are not performed here: their outcomes are inputs. */
module Mixins {
  import opened Wrappers
  import opened Text
  import opened Dom
  import opened Calendar
  import CompuTrabajo
  import Occ

  // ---------------------------------------------------------------- the sites

  /** The two concrete scrapers. Only OCC's keeps state between calls: its stored
      `box_detail`. */
  datatype Site = ComputrabajoSite | OccSite(scraper: Occ.OccScraper)

  /** `service_name` of each scraper. */
  function ServiceName(isOcc: bool): string {
    if isOcc then Occ.ServiceName else CompuTrabajo.ServiceName
  }

  /** `BaseScraper.session_id`: the service name, "_scraper_" and the identity of the
      crawler, written in decimal. */
  function SessionId(serviceName: string, crawlerId: nat): string {
    serviceName + "_scraper_" + NatToString(crawlerId)
  }

  /** Two crawlers of one service never share a session id. */
  lemma SessionIdInjective(serviceName: string, a: nat, b: nat)
    requires SessionId(serviceName, a) == SessionId(serviceName, b)
    ensures a == b
  {
    var n := |serviceName + "_scraper_"|;
    assert NatToString(a) == SessionId(serviceName, a)[n..];
    assert NatToString(b) == SessionId(serviceName, b)[n..];
    NatToStringInjective(a, b);
  }

  /** The two services never share a session id, whatever the crawlers. */
  lemma SitesNeverShareSessionId(a: nat, b: nat)
    ensures SessionId(ServiceName(false), a) != SessionId(ServiceName(true), b)
  {
    assert SessionId(ServiceName(false), a)[0] == 'c';
    assert SessionId(ServiceName(true), b)[0] == 'o';
  }

  // ---------------------------------------------------------------- _get_details

  /** A JSON object the scraper enriches in place: one offer of the overview. */
  class Offer {
    var fields: map<string, Json>

    constructor(fields0: map<string, Json>)
      ensures fields == fields0
    {
      fields := fields0;
    }
  }

  /** A `datetime.now()` value: always a valid date-time. */
  type Moment = t: DateTime | Valid(t) witness DateTime(2000, 1, 1, 0, 0, 0)

  /** The outcome of the click on one offer: the crawler raised, the result was not
      successful, or the detail page came back (at the moment the clock then showed). */
  datatype DetailFetch = Raised | Unsuccessful | Fetched(page: DetailPage, now: Moment)

  /** The site's `get_job_details` on a detail page. */
  function DetailsOf(isOcc: bool, page: DetailPage): Result<map<string, Json>> {
    if isOcc then Occ.JobDetailsOf(page.jobDetailContainer) else CompuTrabajo.JobDetails(page)
  }

  /** The site's `_get_offer_id` on a detail page, read after `get_job_details` (so OCC's
      reads the container `get_job_details` stored). */
  function OfferIdOf(isOcc: bool, page: DetailPage): Result<Json> {
    if isOcc then
      match Occ.OfferIdOf(page.jobDetailContainer)
      case Err(e) => Err(e)
      case Ok(id) => Ok(OptionalString(id))
    else Ok(OptionalString(CompuTrabajo.OfferId(page)))
  }

  /** The offer's dictionary after `_get_details`, and the exception it raised, if any. */
  datatype Enrichment = Enrichment(fields: map<string, Json>, raised: Option<Error>)

  /** `_get_details(idx, offer)`: on a detail page, `details`, then `offer_id`, then
      `current_datetime` are written; an exception stops the writes where it happens. */
  function Enrich(isOcc: bool, fields: map<string, Json>, fetch: DetailFetch): Enrichment {
    match fetch
    case Raised => Enrichment(fields, Some(CrawlerError))
    case Unsuccessful => Enrichment(fields, None)
    case Fetched(page, now) =>
      match DetailsOf(isOcc, page)
      case Err(e) => Enrichment(fields, Some(e))
      case Ok(details) =>
        var withDetails := fields["details" := JObject(details)];
        match OfferIdOf(isOcc, page)
        case Err(e) => Enrichment(withDetails, Some(e))
        case Ok(id) => Enrichment(withDetails["offer_id" := id]["current_datetime" := JStr(Format(now))], None)
  }

  /** Keys other than the three `_get_details` writes are never touched. */
  lemma EnrichKeepsOtherKeys(isOcc: bool, fields: map<string, Json>, fetch: DetailFetch, key: string)
    requires key !in {"details", "offer_id", "current_datetime"}
    ensures key in Enrich(isOcc, fields, fetch).fields <==> key in fields
    ensures key in fields ==> Enrich(isOcc, fields, fetch).fields[key] == fields[key]
  {
  }

  /** A fetched detail page without an exception sets the three keys to the details, the
      offer id and the formatted clock. */
  lemma EnrichWritesThreeKeys(isOcc: bool, fields: map<string, Json>, page: DetailPage, now: Moment)
    requires Enrich(isOcc, fields, Fetched(page, now)).raised.None?
    ensures var e := Enrich(isOcc, fields, Fetched(page, now)).fields;
      && e.Keys == fields.Keys + {"details", "offer_id", "current_datetime"}
      && DetailsOf(isOcc, page).Ok? && e["details"] == JObject(DetailsOf(isOcc, page).value)
      && OfferIdOf(isOcc, page).Ok? && e["offer_id"] == OfferIdOf(isOcc, page).value
      && e["current_datetime"] == JStr(Format(now)) && |e["current_datetime"].s| == 19
  {
  }

  /** The offer id lookup never raises once the details were extracted: for OCC, because
      `get_job_details` already made the same lookup on the same container. */
  lemma OfferIdAfterDetails(isOcc: bool, page: DetailPage)
    requires DetailsOf(isOcc, page).Ok?
    ensures OfferIdOf(isOcc, page).Ok?
  {
    if isOcc {
      var box := page.jobDetailContainer;
      assert Occ.SalaryOf(box).Ok?;
      assert Occ.DescriptionOf(box).Ok?;
    }
  }

  /** An offer whose enrichment raised, or whose fetch was unsuccessful, stays exactly as it
      was: no partial write survives. */
  lemma FailedEnrichmentLeavesOffer(isOcc: bool, fields: map<string, Json>, fetch: DetailFetch)
    requires Enrich(isOcc, fields, fetch).raised.Some? || fetch.Unsuccessful?
    ensures Enrich(isOcc, fields, fetch).fields == fields
  {
    if fetch.Fetched? && DetailsOf(isOcc, fetch.page).Ok? {
      OfferIdAfterDetails(isOcc, fetch.page);
    }
  }

  /** `_get_details(idx, offer)` on the offer object: the site's detail extractor first
      (storing OCC's container), the id lookup second, the clock last. */
  method GetDetails(site: Site, offer: Offer, fetch: DetailFetch) returns (raised: Option<Error>)
    modifies offer, if site.OccSite? then {site.scraper} else {}
    ensures Enrichment(offer.fields, raised) == Enrich(site.OccSite?, old(offer.fields), fetch)
    ensures site.OccSite? && fetch.Fetched? ==> site.scraper.boxDetail == fetch.page.jobDetailContainer
    ensures site.OccSite? && !fetch.Fetched? ==> site.scraper.boxDetail == old(site.scraper.boxDetail)
  {
    if fetch.Raised? {
      return Some(CrawlerError);
    }
    if fetch.Unsuccessful? {
      return None;
    }
    var page := fetch.page;
    var details: Result<map<string, Json>>;
    if site.OccSite? {
      details := site.scraper.GetJobDetails(page);
    } else {
      details := CompuTrabajo.GetJobDetails(page);
    }
    if details.Err? {
      return Some(details.error);
    }
    offer.fields := offer.fields["details" := JObject(details.value)];
    var id: Json;
    if site.OccSite? {
      var lookup := Occ.OfferIdOf(site.scraper.boxDetail);
      if lookup.Err? {
        return Some(lookup.error);
      }
      id := OptionalString(lookup.value);
    } else {
      id := OptionalString(CompuTrabajo.OfferId(page));
    }
    offer.fields := offer.fields["offer_id" := id];
    offer.fields := offer.fields["current_datetime" := JStr(Format(fetch.now))];
    return None;
  }

  // ---------------------------------------------------------------- get_data

  /** What `_get_overview` returns: `False` after an unsuccessful fetch, or the offers the
      extraction schema produced. */
  datatype Overview = FetchFailed | Extracted(items: seq<map<string, Json>>)

  /** The offers of the overview as fresh, distinct dictionary objects. */
  method NewOffers(items: seq<map<string, Json>>) returns (list: seq<Offer>)
    ensures |list| == |items|
    ensures forall i :: 0 <= i < |list| ==> fresh(list[i]) && list[i].fields == items[i]
    ensures forall i, j :: 0 <= i < j < |list| ==> list[i] != list[j]
  {
    list := [];
    while |list| < |items|
      invariant |list| <= |items|
      invariant forall i :: 0 <= i < |list| ==> fresh(list[i]) && list[i].fields == items[i]
      invariant forall i, j :: 0 <= i < j < |list| ==> list[i] != list[j]
    {
      var offer := new Offer(items[|list|]);
      list := list + [offer];
    }
  }

  /** `get_data()`: `None` for a falsy overview, otherwise every offer enriched in place, in
      order, one failure at a time (`fetch(idx)` is the click on offer `idx`). */
  method GetData(site: Site, overview: Overview, fetch: nat -> DetailFetch) returns (offers: Option<seq<Offer>>)
    modifies if site.OccSite? then {site.scraper} else {}
    ensures offers.None? <==> overview.FetchFailed? || overview.items == []
    ensures offers.Some? ==> |offers.value| == |overview.items|
    ensures offers.Some? ==> forall i :: 0 <= i < |offers.value| ==>
      fresh(offers.value[i]) && offers.value[i].fields == Enrich(site.OccSite?, overview.items[i], fetch(i)).fields
    ensures offers.Some? ==> forall i, j :: 0 <= i < j < |offers.value| ==> offers.value[i] != offers.value[j]
  {
    if overview.FetchFailed? || overview.items == [] {
      return None;
    }
    var items := overview.items;
    var list := NewOffers(items);
    assert forall i, j :: 0 <= i < |list| && 0 <= j < |list| && i != j ==> list[i] != list[j] by {
      forall i, j | 0 <= i < |list| && 0 <= j < |list| && i != j
        ensures list[i] != list[j]
      {
        if i > j {
          assert list[j] != list[i];
        }
      }
    }
    var idx := 0;
    while idx < |list|
      invariant 0 <= idx <= |list|
      invariant forall i :: 0 <= i < |list| ==> fresh(list[i])
      invariant forall i, j :: 0 <= i < |list| && 0 <= j < |list| && i != j ==> list[i] != list[j]
      invariant forall i :: 0 <= i < idx ==> list[i].fields == Enrich(site.OccSite?, items[i], fetch(i)).fields
      invariant forall i :: idx <= i < |list| ==> list[i].fields == items[i]
    {
      var _ := GetDetails(site, list[idx], fetch(idx));
      idx := idx + 1;
    }
    return Some(list);
  }

  // ---------------------------------------------------------------- scrape_page

  /** One run of `scrape_page` as its awaited calls turned out: opening the crawler raised,
      or it opened and then the next-page check (made only after page 1) and `get_data`
      returned or raised, and closing the crawler on the way out of the `async with`
      raised (`closeRaised`) or not. */
  datatype PageRun<T> =
    | SetupRaised
    | Started(nextPage: Result<ListingPage>, data: Result<Option<seq<T>>>, closeRaised: bool)

  /** The site's `is_next_page_available` test on the fetched listing page. */
  predicate NextPageAvailable(isOcc: bool, page: ListingPage) {
    if isOcc then Occ.NextPageAvailable(page) else CompuTrabajo.NextPageAvailable(page)
  }

  /** `scrape_page(...)`: `None` when a later page is unavailable, the offers when there
      are some, and `[]` after no offers or any exception. Closing the crawler happens inside
      the `try`, so an exception it raises replaces a `return None` or a `return offers`
      that was already under way with `[]`. */
  function ScrapePage<T>(isOcc: bool, pageNum: int, run: PageRun<T>): (r: Option<seq<T>>)
    ensures r.None? <==>
      && pageNum > 1 && run.Started? && !run.closeRaised
      && run.nextPage.Ok? && !NextPageAvailable(isOcc, run.nextPage.value)
    ensures r.Some? && r.value != [] <==>
      && run.Started? && !run.closeRaised
      && (pageNum <= 1 || (run.nextPage.Ok? && NextPageAvailable(isOcc, run.nextPage.value)))
      && run.data.Ok? && run.data.value.Some? && run.data.value.value != []
    ensures r.Some? && r.value != [] ==> r.value == run.data.value.value
  {
    match run
    case SetupRaised => Some([])
    case Started(nextPage, data, closeRaised) =>
      if closeRaised then Some([])
      else if pageNum > 1 && nextPage.Err? then Some([])
      else if pageNum > 1 && !NextPageAvailable(isOcc, nextPage.value) then None
      else match data
        case Err(_) => Some([])
        case Ok(offers) => if offers.Some? && offers.value != [] then Some(offers.value) else Some([])
  }

  /** The first page is never reported as missing. */
  lemma FirstPageNeverNone<T>(isOcc: bool, run: PageRun<T>)
    ensures ScrapePage(isOcc, 1, run).Some?
  {
  }

  // ---------------------------------------------------------------- main_scraper: tasks

  /** A URL pattern with one `{page_num}` field: the text before and after it. */
  datatype UrlPattern = UrlPattern(prefix: string, suffix: string)

  /** `url_pattern.format(page_num=n)`. */
  function FormatPage(p: UrlPattern, n: nat): string {
    p.prefix + NatToString(n) + p.suffix
  }

  /** The patterns the two runners pass: `JOB_URL?p={page_num}` and `JOB_URL?page={page_num}`. */
  const ComputrabajoPattern := UrlPattern(CompuTrabajo.PagePrefix, "")
  const OccPattern := UrlPattern(Occ.PagePrefix, "")

  /** Different page numbers give different page URLs. */
  lemma PageUrlsDistinct(p: UrlPattern, a: nat, b: nat)
    requires FormatPage(p, a) == FormatPage(p, b)
    ensures a == b
  {
    var s := FormatPage(p, a);
    assert |NatToString(a)| == |NatToString(b)|;
    var n := |p.prefix|;
    assert NatToString(a) == s[n..n + |NatToString(a)|];
    assert NatToString(b) == FormatPage(p, b)[n..n + |NatToString(b)|];
    NatToStringInjective(a, b);
  }

  /** Neither site's pattern ever produces its base URL, so `TaskUrlsDistinct` applies to
      both runners: page n is `JOB_URL?p=n` or `JOB_URL?page=n`, longer than `JOB_URL`. */
  lemma PatternNeverBase(isOcc: bool, n: nat)
    ensures isOcc ==> FormatPage(OccPattern, n) == Occ.JobUrl + "?page=" + NatToString(n)
    ensures !isOcc ==> FormatPage(ComputrabajoPattern, n) == CompuTrabajo.JobUrl + "?p=" + NatToString(n)
    ensures FormatPage(if isOcc then OccPattern else ComputrabajoPattern, n)
      != (if isOcc then Occ.JobUrl else CompuTrabajo.JobUrl)
  {
    var p := if isOcc then OccPattern else ComputrabajoPattern;
    var base := if isOcc then Occ.JobUrl else CompuTrabajo.JobUrl;
    assert |p.prefix| > |base|;
  }

  /** One entry of the task list: the URL to scrape and its page number. */
  datatype Task = Task(url: string, pageNum: nat)

  /** The task list of `main_scraper`: the base URL as page 1, then the pattern for pages
      2 to `max_pages`. */
  method PlanTasks(baseJobUrl: string, pattern: UrlPattern, maxPages: int) returns (tasks: seq<Task>)
    ensures |tasks| == if maxPages > 1 then maxPages else 1
    ensures tasks[0] == Task(baseJobUrl, 1)
    ensures forall i :: 1 <= i < |tasks| ==> tasks[i] == Task(FormatPage(pattern, i + 1), i + 1)
  {
    tasks := [Task(baseJobUrl, 1)];
    var pageNum := 2;
    while pageNum <= maxPages
      invariant 2 <= pageNum && (pageNum <= maxPages + 1 || pageNum == 2)
      invariant |tasks| == pageNum - 1
      invariant tasks[0] == Task(baseJobUrl, 1)
      invariant forall i :: 1 <= i < |tasks| ==> tasks[i] == Task(FormatPage(pattern, i + 1), i + 1)
    {
      tasks := tasks + [Task(FormatPage(pattern, pageNum), pageNum)];
      pageNum := pageNum + 1;
    }
  }

  /** Every task has its own URL when the base URL is not a pattern page. */
  lemma TaskUrlsDistinct(tasks: seq<Task>, baseJobUrl: string, pattern: UrlPattern, i: nat, j: nat)
    requires |tasks| > 0 && tasks[0] == Task(baseJobUrl, 1)
    requires forall k :: 1 <= k < |tasks| ==> tasks[k] == Task(FormatPage(pattern, k + 1), k + 1)
    requires forall n: nat :: FormatPage(pattern, n) != baseJobUrl
    requires i < j < |tasks|
    ensures tasks[i].url != tasks[j].url
  {
    if i > 0 && tasks[i].url == tasks[j].url {
      PageUrlsDistinct(pattern, i + 1, j + 1);
    }
  }

  /** For both runners, every task of the plan gets its own URL. */
  lemma SiteTaskUrlsDistinct(isOcc: bool, tasks: seq<Task>, i: nat, j: nat)
    requires var base := if isOcc then Occ.JobUrl else CompuTrabajo.JobUrl;
      |tasks| > 0 && tasks[0] == Task(base, 1)
    requires var pattern := if isOcc then OccPattern else ComputrabajoPattern;
      forall k :: 1 <= k < |tasks| ==> tasks[k] == Task(FormatPage(pattern, k + 1), k + 1)
    requires i < j < |tasks|
    ensures tasks[i].url != tasks[j].url
  {
    var base := if isOcc then Occ.JobUrl else CompuTrabajo.JobUrl;
    var pattern := if isOcc then OccPattern else ComputrabajoPattern;
    forall n: nat
      ensures FormatPage(pattern, n) != base
    {
      PatternNeverBase(isOcc, n);
    }
    TaskUrlsDistinct(tasks, base, pattern, i, j);
  }

  // ---------------------------------------------------------------- main_scraper: the fold

  /** One entry of `gather(..., return_exceptions=True)`: an exception, `None`, or a list. */
  datatype TaskResult<T> = TaskRaised | TaskNone | TaskList(items: seq<T>)

  /** What `scrape_page` returned, as a gathered result. */
  function AsTaskResult<T>(r: Option<seq<T>>): TaskResult<T> {
    if r.None? then TaskNone else TaskList(r.value)
  }

  /** The offers the fold collects: the lists before the first `None`, in order. */
  function Collected<T>(results: seq<TaskResult<T>>): seq<T> {
    if results == [] then []
    else match results[0]
      case TaskRaised => Collected(results[1..])
      case TaskNone => []
      case TaskList(items) => items + Collected(results[1..])
  }

  /** The pages the fold counts: the lists, empty ones included, before the first `None`. */
  function CountedPages<T>(results: seq<TaskResult<T>>): nat {
    if results == [] then 0
    else match results[0]
      case TaskRaised => CountedPages(results[1..])
      case TaskNone => 0
      case TaskList(_) => 1 + CountedPages(results[1..])
  }

  /** The fold of `main_scraper` over the gathered results, and whether it goes on to write
      the output file. */
  method Aggregate<T>(results: seq<TaskResult<T>>) returns (allOffers: seq<T>, successfulPages: nat, writesFile: bool)
    ensures allOffers == Collected(results)
    ensures successfulPages == CountedPages(results)
    ensures writesFile <==> allOffers != []
  {
    allOffers := [];
    successfulPages := 0;
    var i := 0;
    while i < |results|
      invariant 0 <= i <= |results|
      invariant allOffers + Collected(results[i..]) == Collected(results)
      invariant successfulPages + CountedPages(results[i..]) == CountedPages(results)
    {
      assert results[i..][1..] == results[i + 1..];
      match results[i] {
        case TaskRaised =>
        case TaskNone =>
          break;
        case TaskList(items) =>
          allOffers := allOffers + items;
          successfulPages := successfulPages + 1;
      }
      i := i + 1;
    }
    assert allOffers == Collected(results) by {
      if i == |results| {
        assert results[i..] == [];
      }
    }
    assert successfulPages == CountedPages(results) by {
      if i == |results| {
        assert results[i..] == [];
      }
    }
    writesFile := allOffers != [];
  }

  /** Nothing after the first `None` is collected or counted. */
  lemma {:induction false} NoneStopsTheFold<T>(a: seq<TaskResult<T>>, b: seq<TaskResult<T>>)
    ensures Collected(a + [TaskNone] + b) == Collected(a)
    ensures CountedPages(a + [TaskNone] + b) == CountedPages(a)
  {
    if a != [] {
      assert (a + [TaskNone] + b)[1..] == a[1..] + [TaskNone] + b;
      NoneStopsTheFold(a[1..], b);
    }
  }

  /** An exception adds nothing and does not stop the walk. */
  lemma {:induction false} RaisedAddsNothing<T>(a: seq<TaskResult<T>>, b: seq<TaskResult<T>>)
    ensures Collected(a + [TaskRaised] + b) == Collected(a + b)
    ensures CountedPages(a + [TaskRaised] + b) == CountedPages(a + b)
  {
    if a == [] {
      assert a + [TaskRaised] + b == [TaskRaised] + b && a + b == b;
      assert ([TaskRaised] + b)[1..] == b;
    } else {
      assert (a + [TaskRaised] + b)[0] == (a + b)[0] == a[0];
      assert (a + [TaskRaised] + b)[1..] == a[1..] + [TaskRaised] + b;
      assert (a + b)[1..] == a[1..] + b;
      RaisedAddsNothing(a[1..], b);
    }
  }

  /** Before any `None`, the fold is the concatenation of the two halves' folds. */
  lemma {:induction false} CollectedConcat<T>(a: seq<TaskResult<T>>, b: seq<TaskResult<T>>)
    requires forall i :: 0 <= i < |a| ==> !a[i].TaskNone?
    ensures Collected(a + b) == Collected(a) + Collected(b)
    ensures CountedPages(a + b) == CountedPages(a) + CountedPages(b)
  {
    if a == [] {
      assert a + b == b;
    } else {
      assert (a + b)[0] == a[0];
      assert (a + b)[1..] == a[1..] + b;
      CollectedConcat(a[1..], b);
    }
  }

  /** How one page's `scrape_page` result enters the fold, when no earlier page returned
      `None`: a page reported unavailable ends the collection there; a page that ran and
      found offers contributes exactly those offers, in place; any other run adds nothing
      but is counted. */
  lemma PageInFold<T>(isOcc: bool, pageNum: int, run: PageRun<T>, before: seq<TaskResult<T>>, after: seq<TaskResult<T>>)
    requires forall i :: 0 <= i < |before| ==> !before[i].TaskNone?
    ensures var results := before + [AsTaskResult(ScrapePage(isOcc, pageNum, run))] + after;
      var r := ScrapePage(isOcc, pageNum, run);
      && (r.None? ==> Collected(results) == Collected(before) && CountedPages(results) == CountedPages(before))
      && (r.Some? ==> Collected(results) == Collected(before) + r.value + Collected(after))
      && (r.Some? ==> CountedPages(results) == CountedPages(before) + 1 + CountedPages(after))
  {
    var r := ScrapePage(isOcc, pageNum, run);
    var t := AsTaskResult(r);
    if r.None? {
      NoneStopsTheFold(before, after);
    } else {
      assert before + [t] + after == before + ([t] + after);
      CollectedConcat(before, [t] + after);
      assert ([t] + after)[0] == t && ([t] + after)[1..] == after;
    }
  }

  /** A run where page 3 of 4 reports no next page: page 4's offers are dropped, the
      exception on page 2 adds nothing, and one page is counted. */
  lemma StopsAtMissingPage<T>(o1: T, o2: T, o4: T)
    ensures Collected([TaskList([o1, o2]), TaskRaised, TaskNone, TaskList([o4])]) == [o1, o2]
    ensures CountedPages([TaskList([o1, o2]), TaskRaised, TaskNone, TaskList([o4])]) == 1
  {
    var rs := [TaskList([o1, o2]), TaskRaised, TaskNone, TaskList([o4])];
    var tail := [TaskRaised, TaskNone, TaskList([o4])];
    assert rs[1..] == tail;
    assert tail[1..] == [TaskNone, TaskList([o4])];
    assert Collected(tail) == [];
    assert CountedPages(tail) == 0;
  }

  // ---------------------------------------------------------------- the two sites compared

  /** OCC's salary test is class-list membership, Computrabajo's icon test is a substring
      test on the joined classes: a span whose only class is "i_moneybag" is a salary icon
      for Computrabajo and not for OCC. */
  lemma MembershipVersusSubstring(cls: string)
    requires cls == "i_moneybag"
    ensures !Occ.IsMoney(SpanNode(Span(Some([cls]), false), ""))
    ensures CompuTrabajo.IconKey(Join("__", [cls])) == Some("salary")
  {
    assert [cls][0] != "i_money";
    assert Join("__", [cls]) == cls;
    MoneyBagIsSalaryIcon(cls);
  }

  /** The substring test finds "i_money" in "i_moneybag" and no earlier icon name. */
  lemma MoneyBagIsSalaryIcon(cls: string)
    requires cls == "i_moneybag"
    ensures CompuTrabajo.IconKey(cls) == Some("salary")
  {
    assert cls[..7] == "i_money";
    ContainsAt(cls, "i_money", 0);
    assert 'c' !in cls && 'f' !in cls;
    MissingCharRulesOut(cls, "i_clock", 2);
    MissingCharRulesOut(cls, "i_find", 2);
    MissingCharRulesOut(cls, "i_company", 2);
  }
}
