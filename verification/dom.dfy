/** The parsed pages the scrapers read, reduced to the elements and attributes they look at,
    and the JSON-like values they produce.

    A BeautifulSoup `find` either returns the first matching element or `None`; an element is
    always truthy, so "found" is `Some`. An attribute read with `attrs[...]` or `attrs.get(...)`
    may be missing, hence the nested options. */
module Dom {
  import opened Wrappers

  /** The values the scrapers put in their dictionaries: `None`, strings, and dictionaries. */
  datatype Json = JNull | JStr(s: string) | JObject(fields: map<string, Json>)

  /** A `str | None` as a JSON value. */
  function OptionalString(s: Option<string>): Json {
    if s.Some? then JStr(s.value) else JNull
  }

  /** A `<span>`: its `class` attribute as a list when it has one, and whether it has any
      other attribute. */
  datatype Span = Span(classes: Option<seq<string>>, otherAttrs: bool)
  {
    /** `bool(span.attrs)`. */
    predicate HasAttrs() { classes.Some? || otherAttrs }

    /** `span.attrs.get("class", [])`. */
    function ClassList(): seq<string> { if classes.Some? then classes.value else [] }
  }

  /** A `<p>`: its text, its first `<span>` descendant, the text of its parent element and
      the text of its next sibling element, if any. */
  datatype Paragraph = Paragraph(text: string, span: Option<Span>, parentText: string, nextSibling: Option<string>)

  /** A `<span>` together with its parent element's text. */
  datatype SpanNode = SpanNode(span: Span, parentText: string)

  /** Computrabajo's `div.box_detail`:
      - `fs14`: the paragraphs of its first `div.fs14`, if there is one;
      - `bubble`: its `div.opt_bubble`, if there is one, with that element's `data-url`;
      - `wordWrap`: the text of its `div.t_word_wrap`, if there is one;
      - `disc`: the text of its `ul.disc`, if there is one. */
  datatype CompuBox = CompuBox(
    fs14: Option<seq<Paragraph>>,
    bubble: Option<Option<string>>,
    wordWrap: Option<string>,
    disc: Option<string>)

  /** OCC's `#job-detail-container`: all its `<span>` and all its `<p>` descendants, in
      document order. */
  datatype OccContainer = OccContainer(spans: seq<SpanNode>, paragraphs: seq<Paragraph>)

  /** A detail page after a click on an offer:
      - `boxDetail`: Computrabajo's `div.box_detail`, if present;
      - `idOffer`: the element with id `IdOffer`, if present, with its `value` attribute;
      - `jobDetailContainer`: OCC's `#job-detail-container`, if present. */
  datatype DetailPage = DetailPage(
    boxDetail: Option<CompuBox>,
    idOffer: Option<Option<string>>,
    jobDetailContainer: Option<OccContainer>)

  /** A listing page as the next-page checks see it: whether `#offersGridOfferContainer`
      is present, how many `article.box_offer` elements the page has, and whether
      `#btn-next-offer` is present. */
  datatype ListingPage = ListingPage(offersGridContainer: bool, boxOffers: nat, nextOfferButton: bool)

  /** One field of the CSS extraction schema. */
  datatype Field = Field(name: string, selector: string, kind: string)

  /** The CSS extraction schema handed to the crawler: a name, the selector of one offer
      card and the fields read from each card. */
  datatype Schema = Schema(name: string, baseSelector: string, fields: seq<Field>)

  /** The fields both sites' schemas read from an offer card, in order. */
  const SchemaFieldNames: seq<string> := ["title", "company", "location", "relative_date", "description"]
}
