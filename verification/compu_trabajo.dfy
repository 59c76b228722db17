/** `src/job/compu_trabajo/scraper.py`: the Computrabajo scraper's constants, its extraction
    schema, the detail extractor `get_job_details`, the offer-id lookup, the next-page
    check and the page-URL pattern. */
module CompuTrabajo {
  import opened Wrappers
  import opened Text
  import opened Dom

  const ServiceName := "compu_trabajo"
  const BaseUrl := "https://mx.computrabajo.com"
  const JobUrl := BaseUrl + "/trabajo-de-python"
  const BaseSelector := "article.box_offer"

  /** `DETAIL_ICONS`, in its insertion order: icon class name and the key it fills. */
  const DetailIcons: seq<(string, string)> := [
    ("i_clock", "time"), ("i_find", "location"), ("i_company", "place"),
    ("i_money", "salary"), ("i_home", "place")]

  /** The keys `get_job_details` can produce. */
  const DetailKeys: set<string> :=
    {"description", "requirements", "job_url", "time", "location", "place", "salary"}

  /** `_output_schema()`. */
  function OutputSchema(): (s: Schema)
    ensures s.name == ServiceName + " Job Scraper" && s.baseSelector == BaseSelector
    ensures |s.fields| == |SchemaFieldNames|
    ensures forall i :: 0 <= i < |s.fields| ==> s.fields[i].name == SchemaFieldNames[i] && s.fields[i].kind == "text"
  {
    Schema(ServiceName + " Job Scraper", BaseSelector, [
      Field("title", "a.js-o-link", "text"),
      Field("company", "p.dFlex", "text"),
      Field("location", "p:nth-child(3)", "text"),
      Field("relative_date", "p.fs13.fc_aux.mt15", "text"),
      Field("description", "div.fs16.t_word_wrap", "text")])
  }

  // ---------------------------------------------------------------- icon lookup

  /** The inner loop from entry `i` on: the key of the first entry whose icon name occurs in
      the joined class string. */
  function IconKeyFrom(spanClass: string, i: nat): (k: Option<string>)
    requires i <= |DetailIcons|
    decreases |DetailIcons| - i
  {
    if i == |DetailIcons| then None
    else if Contains(spanClass, DetailIcons[i].0) then Some(DetailIcons[i].1)
    else IconKeyFrom(spanClass, i + 1)
  }

  /** The key the icon loop assigns for a joined class string, if any. */
  function IconKey(spanClass: string): Option<string> {
    IconKeyFrom(spanClass, 0)
  }

  /** The first table entry wins: `IconKey` gives entry `i`'s key exactly when entry `i`'s
      icon name occurs and no earlier one does, and nothing when no icon name occurs. */
  lemma {:induction false} IconKeyFromIsFirstMatch(spanClass: string, i: nat)
    requires i <= |DetailIcons|
    ensures IconKeyFrom(spanClass, i).None? <==>
      forall j :: i <= j < |DetailIcons| ==> !Contains(spanClass, DetailIcons[j].0)
    ensures forall j ::
      (i <= j < |DetailIcons| && Contains(spanClass, DetailIcons[j].0) &&
       (forall l :: i <= l < j ==> !Contains(spanClass, DetailIcons[l].0))) ==>
        IconKeyFrom(spanClass, i) == Some(DetailIcons[j].1)
    decreases |DetailIcons| - i
  {
    if i < |DetailIcons| {
      IconKeyFromIsFirstMatch(spanClass, i + 1);
    }
  }

  /** Every key the icon loop assigns is one of the table's keys. */
  lemma {:induction false} IconKeyIsTableKey(spanClass: string, i: nat)
    requires i <= |DetailIcons|
    ensures IconKeyFrom(spanClass, i).Some? ==> IconKeyFrom(spanClass, i).value in {"time", "location", "place", "salary"}
    decreases |DetailIcons| - i
  {
    if i < |DetailIcons| {
      IconKeyIsTableKey(spanClass, i + 1);
    }
  }

  /** What one paragraph contributes: nothing when it has no span or the span has no
      attributes, otherwise the icon key of its joined classes with its stripped text. */
  function Contribution(p: Paragraph): Option<(string, string)> {
    if p.span.None? || !p.span.value.HasAttrs() then None
    else IconContribution(Join("__", p.span.value.ClassList()), Strip(p.text))
  }

  /** The icon key of a joined class string, paired with the paragraph's text. */
  function IconContribution(spanClass: string, text: string): Option<(string, string)> {
    match IconKey(spanClass)
    case None => None
    case Some(key) => Some((key, text))
  }

  /** The contributions of the paragraphs, in document order. */
  function Contributions(ps: seq<Paragraph>): (cs: seq<Option<(string, string)>>)
    ensures |cs| == |ps|
    ensures forall i :: 0 <= i < |ps| ==> cs[i] == Contribution(ps[i])
  {
    seq(|ps|, i requires 0 <= i < |ps| => Contribution(ps[i]))
  }

  /** Every key a paragraph contributes is one of the table's keys. */
  lemma ContributionKey(p: Paragraph)
    ensures Contribution(p).Some? ==> Contribution(p).value.0 in {"time", "location", "place", "salary"}
  {
    if Contribution(p).Some? {
      IconKeyIsTableKey(Join("__", p.span.value.ClassList()), 0);
    }
  }

  /** One pass of the outer loop: the contributed key, if any, is set to the text. */
  function Step(d: map<string, Json>, c: Option<(string, string)>): map<string, Json> {
    match c
    case None => d
    case Some(kv) => d[kv.0 := JStr(kv.1)]
  }

  /** The outer loop over the contributions, in order. */
  function Fold(d: map<string, Json>, cs: seq<Option<(string, string)>>): map<string, Json>
    decreases |cs|
  {
    if cs == [] then d else Step(Fold(d, cs[..|cs| - 1]), cs[|cs| - 1])
  }

  /** The prefix of full length is the whole sequence. */
  lemma WholePrefix<T>(s: seq<T>)
    ensures s[..|s|] == s
  {
  }

  /** One more paragraph is one more step. */
  lemma FoldSnoc(d: map<string, Json>, cs: seq<Option<(string, string)>>, n: nat)
    requires n < |cs|
    ensures Fold(d, cs[..n + 1]) == Step(Fold(d, cs[..n]), cs[n])
  {
    assert cs[..n + 1][..n] == cs[..n];
  }

  /** Whether a contribution assigns `key`. */
  predicate Writes(c: Option<(string, string)>, key: string) {
    c.Some? && c.value.0 == key
  }

  /** A key no paragraph assigns keeps its initial value, or stays absent. */
  lemma {:induction false} UntouchedKey(d: map<string, Json>, cs: seq<Option<(string, string)>>, key: string)
    requires forall i :: 0 <= i < |cs| ==> !Writes(cs[i], key)
    ensures key in Fold(d, cs) <==> key in d
    ensures key in d ==> Fold(d, cs)[key] == d[key]
    decreases |cs|
  {
    if cs != [] {
      var init := cs[..|cs| - 1];
      assert forall i :: 0 <= i < |init| ==> init[i] == cs[i];
      UntouchedKey(d, init, key);
    }
  }

  /** The later paragraph wins: a key holds the text of the last paragraph that assigns it. */
  lemma {:induction false} LastWriterWins(d: map<string, Json>, cs: seq<Option<(string, string)>>, key: string, i: nat)
    requires i < |cs| && Writes(cs[i], key)
    requires forall j :: i < j < |cs| ==> !Writes(cs[j], key)
    ensures key in Fold(d, cs) && Fold(d, cs)[key] == JStr(cs[i].value.1)
    decreases |cs|
  {
    var init := cs[..|cs| - 1];
    if i < |cs| - 1 {
      assert forall j :: 0 <= j < |init| ==> init[j] == cs[j];
      LastWriterWins(d, init, key, i);
    }
  }

  /** The loop only writes contributed keys: the keys of the result are those of the
      initial dictionary and some of `keys`. */
  lemma {:induction false} FoldWritesKeys(d: map<string, Json>, cs: seq<Option<(string, string)>>, keys: set<string>)
    requires forall i :: 0 <= i < |cs| && cs[i].Some? ==> cs[i].value.0 in keys
    ensures d.Keys <= Fold(d, cs).Keys <= d.Keys + keys
    decreases |cs|
  {
    if cs != [] {
      FoldWritesKeys(d, cs[..|cs| - 1], keys);
    }
  }

  // ---------------------------------------------------------------- get_job_details

  /** `" ".join(text.strip().split("\n"))`. */
  function Description(text: string): (r: string)
    ensures r == Replace(Strip(text), '\n', ' ')
  {
    JoinSplitOnReplaces(Strip(text), '\n', ' ');
    Join(" ", SplitOn(Strip(text), '\n'))
  }

  /** The dictionary before the icon loop, or `KeyError` when the bubble has no `data-url`. */
  function Initial(box: CompuBox): Result<map<string, Json>> {
    if box.bubble.Some? && box.bubble.value.None? then Err(KeyError)
    else
      var jobUrl := if box.bubble.Some? then JStr(BaseUrl + box.bubble.value.value) else JNull;
      var description := if box.wordWrap.Some? then Description(box.wordWrap.value) else "";
      var requirements := if box.disc.Some? then Strip(box.disc.value) else "";
      Ok(map["description" := JStr(description), "requirements" := JStr(requirements), "job_url" := jobUrl])
  }

  /** What `get_job_details` returns for a page. */
  function JobDetails(page: DetailPage): (r: Result<map<string, Json>>)
    ensures page.boxDetail.None? || page.boxDetail.value.fs14.None? ==> r == Ok(map[])
    ensures r.Err? ==> r.error == KeyError
    ensures r.Err? <==>
      page.boxDetail.Some? && page.boxDetail.value.fs14.Some? && page.boxDetail.value.bubble == Some(None)
  {
    if page.boxDetail.None? || page.boxDetail.value.fs14.None? then Ok(map[])
    else
      var box := page.boxDetail.value;
      match Initial(box)
      case Err(e) => Err(e)
      case Ok(d) => Ok(Fold(d, Contributions(box.fs14.value)))
  }

  /** The result only ever has the documented keys. */
  lemma DetailKeysOnly(page: DetailPage)
    ensures JobDetails(page).Ok? ==> JobDetails(page).value.Keys <= DetailKeys
  {
    if JobDetails(page).Ok? && page.boxDetail.Some? && page.boxDetail.value.fs14.Some? {
      var box := page.boxDetail.value;
      var cs := Contributions(box.fs14.value);
      forall i | 0 <= i < |cs| && cs[i].Some?
        ensures cs[i].value.0 in {"time", "location", "place", "salary"}
      {
        ContributionKey(box.fs14.value[i]);
      }
      FoldWritesKeys(Initial(box).value, cs, {"time", "location", "place", "salary"});
    }
  }

  /** The inner loop of `get_job_details`: the first table entry whose icon name occurs in
      `spanClass` sets its key to `text`; without one, nothing changes. */
  method ApplyIcons(d: map<string, Json>, spanClass: string, text: string) returns (d': map<string, Json>)
    ensures d' == Step(d, IconContribution(spanClass, text))
  {
    d' := d;
    var i := 0;
    while i < |DetailIcons|
      invariant 0 <= i <= |DetailIcons|
      invariant IconKeyFrom(spanClass, i) == IconKey(spanClass)
      invariant d' == d
    {
      if Contains(spanClass, DetailIcons[i].0) {
        d' := d'[DetailIcons[i].1 := JStr(text)];
        return;
      }
      i := i + 1;
    }
  }

  /** The loop over the paragraphs of `get_job_details`: paragraphs without a span with
      attributes are skipped, the others go through the icon table. */
  method ScanParagraphs(d: map<string, Json>, allPs: seq<Paragraph>) returns (dictData: map<string, Json>)
    ensures dictData == Fold(d, Contributions(allPs))
  {
    dictData := d;
    ghost var cs := Contributions(allPs);
    var n := 0;
    while n < |allPs|
      invariant 0 <= n <= |allPs|
      invariant dictData == Fold(d, cs[..n])
    {
      var p := allPs[n];
      FoldSnoc(d, cs, n);
      n := n + 1;
      if p.span.None? || !p.span.value.HasAttrs() {
        continue;
      }
      var spanClass := Join("__", p.span.value.ClassList());
      var text := Strip(p.text);
      dictData := ApplyIcons(dictData, spanClass, text);
    }
    WholePrefix(cs);
  }

  /** `get_job_details(soup)`: the loop over the paragraphs, with the icon table inside. */
  method GetJobDetails(page: DetailPage) returns (r: Result<map<string, Json>>)
    ensures r == JobDetails(page)
  {
    if page.boxDetail.None? {
      return Ok(map[]);
    }
    var box := page.boxDetail.value;
    if box.fs14.None? {
      return Ok(map[]);
    }
    var jobUrl := JNull;
    if box.bubble.Some? {
      if box.bubble.value.None? {
        return Err(KeyError);
      }
      jobUrl := JStr(BaseUrl + box.bubble.value.value);
    }
    var allPs := box.fs14.value;
    var description := "";
    if box.wordWrap.Some? {
      description := Join(" ", SplitOn(Strip(box.wordWrap.value), '\n'));
    }
    var requirements := "";
    if box.disc.Some? {
      requirements := Strip(box.disc.value);
    }
    var dictData := map["description" := JStr(description), "requirements" := JStr(requirements), "job_url" := jobUrl];
    assert Initial(box) == Ok(dictData);
    dictData := ScanParagraphs(dictData, allPs);
    return Ok(dictData);
  }

  /** When the page has both divs, the three fixed keys are always present with their
      documented values: the stripped description with line breaks turned into spaces (""
      without the div), the stripped requirements ("" without the list), and `BASE_URL`
      followed by the bubble's `data-url` (`None` without a bubble). */
  lemma FixedKeys(page: DetailPage)
    requires page.boxDetail.Some? && page.boxDetail.value.fs14.Some?
    requires JobDetails(page).Ok?
    ensures var box := page.boxDetail.value;
      var d := JobDetails(page).value;
      && {"description", "requirements", "job_url"} <= d.Keys
      && d["description"] == JStr(if box.wordWrap.Some? then Replace(Strip(box.wordWrap.value), '\n', ' ') else "")
      && d["requirements"] == JStr(if box.disc.Some? then Strip(box.disc.value) else "")
      && d["job_url"] == (if box.bubble.Some? then JStr(BaseUrl + box.bubble.value.value) else JNull)
  {
    var box := page.boxDetail.value;
    var d := Initial(box).value;
    var cs := Contributions(box.fs14.value);
    forall i | 0 <= i < |cs|
      ensures !Writes(cs[i], "description") && !Writes(cs[i], "requirements") && !Writes(cs[i], "job_url")
    {
      ContributionKey(box.fs14.value[i]);
    }
    UntouchedKey(d, cs, "description");
    UntouchedKey(d, cs, "requirements");
    UntouchedKey(d, cs, "job_url");
  }

  /** On a page with both divs, an icon key holds the stripped text of the last paragraph
      whose icon selects it. */
  lemma LastIconParagraphWins(page: DetailPage, key: string, i: nat)
    requires page.boxDetail.Some? && page.boxDetail.value.fs14.Some?
    requires JobDetails(page).Ok?
    requires var ps := page.boxDetail.value.fs14.value;
      && i < |ps| && Writes(Contribution(ps[i]), key)
      && forall j :: i < j < |ps| ==> !Writes(Contribution(ps[j]), key)
    ensures var ps := page.boxDetail.value.fs14.value;
      key in JobDetails(page).value && JobDetails(page).value[key] == JStr(Strip(ps[i].text))
  {
    var box := page.boxDetail.value;
    LastWriterWins(Initial(box).value, Contributions(box.fs14.value), key, i);
  }

  /** `i_company` and `i_home` both fill "place". */
  lemma CompanyAndHomeShareKey()
    ensures DetailIcons[2].0 == "i_company" && DetailIcons[4].0 == "i_home"
    ensures DetailIcons[2].1 == DetailIcons[4].1 == "place"
  {
  }

  // ---------------------------------------------------------------- the rest of the page

  /** `_get_offer_id(soup)`: the `value` attribute of `#IdOffer`, or `None` when the element
      or the attribute is missing. */
  function OfferId(page: DetailPage): (r: Option<string>)
    ensures r.Some? <==> page.idOffer.Some? && page.idOffer.value.Some?
    ensures r.Some? ==> page.idOffer == Some(r)
  {
    if page.idOffer.Some? then page.idOffer.value else None
  }

  /** The `is_next_page_available` test on the fetched listing page. */
  predicate NextPageAvailable(page: ListingPage) {
    page.offersGridContainer && page.boxOffers > 0
  }

  /** The page-URL pattern handed to the concurrent runner: `JOB_URL?p={page_num}`. */
  const PagePrefix := JobUrl + "?p="
}
