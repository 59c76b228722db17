/** `src/job/occ/scraper.py`: the OCC scraper's constants, its extraction schema, the detail
    helpers that read the stored `#job-detail-container`, the detail extractor, the next-page
    check and the page-URL pattern. */
module Occ {
  import opened Wrappers
  import opened Text
  import opened Dom

  const ServiceName := "occ"
  const BaseUrl := "https://www.occ.com.mx"
  const JobUrl := BaseUrl + "/empleos/de-python/"
  const BaseSelector := "div.bg-bg-surface-default"

  /** The keywords the paragraph filters look for in the lower-cased paragraph text. */
  const DescriptionWord := "descripci\U{f3}n"
  const JobIdWord := "id:"
  const RequirementsWord := "requisitos"

  /** The four keys of `get_job_details`. */
  const DetailKeys: set<string> := {"description", "job_url", "salary", "requirements"}

  /** `_output_schema()`. */
  function OutputSchema(): (s: Schema)
    ensures s.name == ServiceName + " Job Scraper" && s.baseSelector == BaseSelector
    ensures |s.fields| == |SchemaFieldNames|
    ensures forall i :: 0 <= i < |s.fields| ==> s.fields[i].name == SchemaFieldNames[i] && s.fields[i].kind == "text"
  {
    Schema(ServiceName + " Job Scraper", BaseSelector, [
      Field("title", "h2.text-grey-900", "text"),
      Field("company", "span.line-clamp-title", "text"),
      Field("location", "div.no-alter-loc-text.mt-1 > p", "text"),
      Field("relative_date", "div > div.flex.items-center.justify-between.mb-2 > div > span", "text"),
      Field("description", "div.fs16.t_word_wrap", "text")])
  }

  // ---------------------------------------------------------------- first matches

  /** The `_get_salary` test on one span: it has attributes and "i_money" is one of its
      classes (list membership, not a substring test). */
  predicate IsMoney(s: SpanNode) {
    s.span.HasAttrs() && "i_money" in s.span.ClassList()
  }

  /** The index of the first money span, if any. */
  function FirstMoney(spans: seq<SpanNode>): (k: Option<nat>)
    ensures k.Some? ==> k.value < |spans| && IsMoney(spans[k.value])
    ensures k.Some? ==> forall j :: 0 <= j < k.value ==> !IsMoney(spans[j])
    ensures k.None? <==> forall j :: 0 <= j < |spans| ==> !IsMoney(spans[j])
  {
    if spans == [] then None
    else if IsMoney(spans[0]) then Some(0)
    else match FirstMoney(spans[1..])
      case None => None
      case Some(k) => Some(k + 1)
  }

  /** The comprehension filter: the lower-cased paragraph text contains `word`. */
  predicate Mentions(p: Paragraph, word: string) {
    Contains(Lower(p.text), word)
  }

  /** `[el for el in all_ps if word in el.text.lower()][0]`, as an index, when the list is
      not empty. */
  function FirstMentioning(ps: seq<Paragraph>, word: string): (k: Option<nat>)
    ensures k.Some? ==> k.value < |ps| && Mentions(ps[k.value], word)
    ensures k.Some? ==> forall j :: 0 <= j < k.value ==> !Mentions(ps[j], word)
    ensures k.None? <==> forall j :: 0 <= j < |ps| ==> !Mentions(ps[j], word)
  {
    if ps == [] then None
    else if Mentions(ps[0], word) then Some(0)
    else match FirstMentioning(ps[1..], word)
      case None => None
      case Some(k) => Some(k + 1)
  }

  // ---------------------------------------------------------------- the helpers

  /** What `_get_salary` returns for a stored container: `AttributeError` when nothing was
      found, the stripped parent text of the first money span, or `None`. */
  function SalaryOf(box: Option<OccContainer>): Result<Option<string>> {
    if box.None? then Err(AttributeError)
    else match FirstMoney(box.value.spans)
      case None => Ok(None)
      case Some(k) => Ok(Some(Strip(box.value.spans[k].parentText)))
  }

  /** `_get_description()`: the stripped parent text of the first paragraph mentioning
      "descripción", or an empty dictionary when there is none. */
  function DescriptionOf(box: Option<OccContainer>): (r: Result<Json>)
    ensures r.Err? <==> box.None?
    ensures r.Ok? ==> (r.value == JObject(map[]) <==>
      forall j :: 0 <= j < |box.value.paragraphs| ==> !Mentions(box.value.paragraphs[j], DescriptionWord))
    ensures box.Some? ==>
      var ps := box.value.paragraphs;
      var k := FirstMentioning(ps, DescriptionWord);
      && (k.None? ==> r == Ok(JObject(map[])))
      && (k.Some? ==> r == Ok(JStr(Strip(ps[k.value].parentText))))
  {
    if box.None? then Err(AttributeError)
    else match FirstMentioning(box.value.paragraphs, DescriptionWord)
      case None => Ok(JObject(map[]))
      case Some(k) => Ok(JStr(Strip(box.value.paragraphs[k].parentText)))
  }

  /** `_get_offer_id(soup)`: the last whitespace-separated token of the first paragraph
      mentioning "id:", or `None`; `[-1]` on an empty split would raise `IndexError`. */
  function OfferIdOf(box: Option<OccContainer>): Result<Option<string>> {
    if box.None? then Err(AttributeError)
    else match FirstMentioning(box.value.paragraphs, JobIdWord)
      case None => Ok(None)
      case Some(k) =>
        var words := Split(box.value.paragraphs[k].text);
        if words == [] then Err(IndexError) else Ok(Some(words[|words| - 1]))
  }

  /** `_get_requirements()`: the unstripped text of the next sibling of the first paragraph
      mentioning "requisitos", or `None`; a missing sibling makes `.text` raise. */
  function RequirementsOf(box: Option<OccContainer>): (r: Result<Option<string>>)
    ensures r.Err? ==> r.error == AttributeError
    ensures box.None? ==> r.Err?
    ensures box.Some? ==>
      var ps := box.value.paragraphs;
      var k := FirstMentioning(ps, RequirementsWord);
      && (k.None? ==> r == Ok(None))
      && (k.Some? && ps[k.value].nextSibling.Some? ==> r == Ok(ps[k.value].nextSibling))
      && (k.Some? && ps[k.value].nextSibling.None? ==> r.Err?)
  {
    if box.None? then Err(AttributeError)
    else match FirstMentioning(box.value.paragraphs, RequirementsWord)
      case None => Ok(None)
      case Some(k) =>
        var sibling := box.value.paragraphs[k].nextSibling;
        if sibling.None? then Err(AttributeError) else Ok(Some(sibling.value))
  }

  /** The `job_url` entry: the offer page when the id is truthy, `None` otherwise. */
  function JobUrlOf(id: Option<string>): (j: Json)
    ensures j.JStr? <==> id.Some? && id.value != []
    ensures j.JStr? ==> j.s == BaseUrl + "/empleo/oferta/" + id.value + "/"
  {
    if id.Some? && id.value != [] then JStr(BaseUrl + "/empleo/oferta/" + id.value + "/") else JNull
  }

  /** What `get_job_details` returns once the container is stored: the first error of the
      four helpers in call order, or the four-key dictionary. */
  function JobDetailsOf(box: Option<OccContainer>): (r: Result<map<string, Json>>)
    ensures r.Ok? ==> r.value.Keys == DetailKeys
    ensures box.None? ==> r == Err(AttributeError)
  {
    match SalaryOf(box)
    case Err(e) => Err(e)
    case Ok(salary) =>
      match DescriptionOf(box)
      case Err(e) => Err(e)
      case Ok(description) =>
        match OfferIdOf(box)
        case Err(e) => Err(e)
        case Ok(id) =>
          match RequirementsOf(box)
          case Err(e) => Err(e)
          case Ok(requirements) =>
            Ok(map["description" := description, "job_url" := JobUrlOf(id),
                   "salary" := OptionalString(salary), "requirements" := OptionalString(requirements)])
  }

  // ---------------------------------------------------------------- the scraper object

  /** `OCCScraper`, reduced to the state its detail helpers share: the container found by
      the last `get_job_details` call (`None` when the page had none). */
  class OccScraper {
    var boxDetail: Option<OccContainer>

    constructor()
      ensures boxDetail == None
    {
      boxDetail := None;
    }

    /** `_get_salary()`: the loop over the container's spans with its early return. */
    method GetSalary() returns (r: Result<Option<string>>)
      ensures r == SalaryOf(boxDetail)
    {
      if boxDetail.None? {
        return Err(AttributeError);
      }
      var spans := boxDetail.value.spans;
      var i := 0;
      while i < |spans|
        invariant 0 <= i <= |spans|
        invariant forall j :: 0 <= j < i ==> !IsMoney(spans[j])
      {
        if spans[i].span.HasAttrs() && "i_money" in spans[i].span.ClassList() {
          return Ok(Some(Strip(spans[i].parentText)));
        }
        i := i + 1;
      }
      return Ok(None);
    }

    /** `get_job_details(soup)`: stores the page's container, then reads it through the
      helpers. */
    method GetJobDetails(page: DetailPage) returns (r: Result<map<string, Json>>)
      modifies this
      ensures boxDetail == page.jobDetailContainer
      ensures r == JobDetailsOf(boxDetail)
    {
      boxDetail := page.jobDetailContainer;
      var salary := GetSalary();
      if salary.Err? {
        return Err(salary.error);
      }
      var description := DescriptionOf(boxDetail);
      var id := OfferIdOf(boxDetail);
      if id.Err? {
        return Err(id.error);
      }
      var requirements := RequirementsOf(boxDetail);
      if requirements.Err? {
        return Err(requirements.error);
      }
      var jobUrl := JNull;
      if id.value.Some? && id.value.value != [] {
        jobUrl := JStr(BaseUrl + "/empleo/oferta/" + id.value.value + "/");
      }
      r := Ok(map["description" := description.value, "job_url" := jobUrl,
                  "salary" := OptionalString(salary.value), "requirements" := OptionalString(requirements.value)]);
    }
  }

  // ---------------------------------------------------------------- properties

  /** `_get_salary` picks the first span whose class list has "i_money"; without one it
      gives `None`. */
  lemma SalaryIsFirstMoneySpan(c: OccContainer, k: nat)
    requires k < |c.spans| && IsMoney(c.spans[k])
    requires forall j :: 0 <= j < k ==> !IsMoney(c.spans[j])
    ensures SalaryOf(Some(c)) == Ok(Some(Strip(c.spans[k].parentText)))
  {
    var f := FirstMoney(c.spans);
    assert f.Some?;
    assert !(f.value < k) && !(k < f.value);
  }

  /** A lower-cased text that contains "id:" has a non-space character, so splitting the
      original text gives at least one token: the `[-1]` never fails. */
  lemma MentionedIdHasAToken(t: string)
    requires Contains(Lower(t), JobIdWord)
    ensures Split(t) != []
  {
    ContainedCharOccurs(Lower(t), JobIdWord, 0);
    var j :| 0 <= j < |Lower(t)| && Lower(t)[j] == 'i';
    assert !IsSpace(t[j]);
  }

  /** The offer id is the last token of the first paragraph mentioning "id:": never empty,
      without whitespace, and `None` only when no paragraph mentions "id:". */
  lemma OfferIdIsLastToken(c: OccContainer)
    ensures OfferIdOf(Some(c)).Ok?
    ensures OfferIdOf(Some(c)).value.None? <==>
      forall j :: 0 <= j < |c.paragraphs| ==> !Mentions(c.paragraphs[j], JobIdWord)
    ensures OfferIdOf(Some(c)).value.Some? ==>
      var k := FirstMentioning(c.paragraphs, JobIdWord).value;
      var words := Split(c.paragraphs[k].text);
      && words != []
      && OfferIdOf(Some(c)).value.value == words[|words| - 1]
      && OfferIdOf(Some(c)).value.value != []
      && NoSpace(OfferIdOf(Some(c)).value.value)
  {
    var f := FirstMentioning(c.paragraphs, JobIdWord);
    if f.Some? {
      MentionedIdHasAToken(c.paragraphs[f.value].text);
    }
  }

  /** On a page with a container, `job_url` is an offer URL exactly when some paragraph
      mentions "id:", and it ends with that paragraph's last token. */
  lemma JobUrlIffIdParagraph(c: OccContainer)
    requires JobDetailsOf(Some(c)).Ok?
    ensures JobDetailsOf(Some(c)).value["job_url"].JStr? <==>
      exists j :: 0 <= j < |c.paragraphs| && Mentions(c.paragraphs[j], JobIdWord)
    ensures JobDetailsOf(Some(c)).value["job_url"].JStr? ==>
      JobDetailsOf(Some(c)).value["job_url"].s == BaseUrl + "/empleo/oferta/" + OfferIdOf(Some(c)).value.value + "/"
  {
    OfferIdIsLastToken(c);
    var id := OfferIdOf(Some(c)).value;
    assert JobDetailsOf(Some(c)).value["job_url"] == JobUrlOf(id);
    var f := FirstMentioning(c.paragraphs, JobIdWord);
    if f.Some? {
      assert Mentions(c.paragraphs[f.value], JobIdWord);
    }
  }

  /** The errors `get_job_details` can raise on a page with a container: a paragraph
      mentioning "requisitos" first with no next sibling is the only one. */
  lemma OnlyMissingSiblingRaises(c: OccContainer)
    ensures JobDetailsOf(Some(c)).Err? <==> RequirementsOf(Some(c)).Err?
    ensures RequirementsOf(Some(c)).Err? <==>
      var k := FirstMentioning(c.paragraphs, RequirementsWord);
      k.Some? && c.paragraphs[k.value].nextSibling.None?
  {
    OfferIdIsLastToken(c);
  }

  /** The `is_next_page_available` test on the fetched listing page. */
  predicate NextPageAvailable(page: ListingPage) {
    page.nextOfferButton
  }

  /** The page-URL pattern handed to the concurrent runner: `JOB_URL?page={page_num}`. */
  const PagePrefix := JobUrl + "?page="
}
