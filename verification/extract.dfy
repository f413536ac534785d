/** What one crawled page yields: the content-region cascade, the cleanup of
    the region's text, the minimum-length rule and the title rule. HTML
    parsing itself is abstracted: a page arrives as the regions the selectors
    found. */
module Extract {
  import opened Wrappers
  import opened TextRules

  /** An HTML region as the crawler sees it: the length of its whitespace-free
      text (the key for ranking fallback divs), its text joined with newlines
      once navigation, header, footer, script, style, aside and button
      elements are removed, and the hrefs of the anchors left in it. */
  datatype Region = Region(strippedLength: nat, text: string, links: seq<string>)

  /** The page's `<title>`: absent, holding one string, or present without a
      single string (its `.string` is `None`). */
  datatype TitleTag = NoTitleTag | TitleString(s: string) | TitleWithoutString

  /** A parsed page: what each content selector found, in priority order
      (article, main, div.content, div[role=main], div.markdown, div#content,
      div.docs-content, div.page-content, section.content), every div of the
      page in document order, and the title element. */
  datatype Page = Page(candidates: seq<Option<Region>>, divs: seq<Region>, titleTag: TitleTag)

  /** The result of the HTTP GET: any network error, timeout or non-2xx status
      is `FetchFailed`. */
  datatype Fetch = FetchFailed | Fetched(page: Page)

  /** What the crawler makes of one visited page. `Raised` is any exception
      the page's processing throws, `NoRegion` a page where no content region
      was chosen, `TooShort` a region whose cleaned text is too short. */
  datatype Outcome =
    | Raised
    | NoRegion
    | TooShort(length: nat)
    | Accepted(text: string, title: string, links: seq<string>)

  /** A fallback div shorter than this is taken for a layout wrapper. */
  const MinFallbackLength: nat := 500

  /** A page whose cleaned text is not longer than this is rejected. */
  const MinTextLength: nat := 300

  /** The position of the first selector that found something (`|cands|` if none did). */
  function FirstPresent(cands: seq<Option<Region>>): (k: nat)
    ensures k <= |cands|
    ensures forall j :: 0 <= j < k ==> cands[j].None?
    ensures k < |cands| ==> cands[k].Some?
  {
    if cands == [] || cands[0].Some? then 0 else 1 + FirstPresent(cands[1..])
  }

  /** Python's `max(divs, key=...)`: the first div whose stripped text is longest. */
  function LongestDiv(divs: seq<Region>): (k: nat)
    requires divs != []
    ensures k < |divs|
    ensures forall j :: 0 <= j < |divs| ==> divs[j].strippedLength <= divs[k].strippedLength
    ensures forall j :: 0 <= j < k ==> divs[j].strippedLength < divs[k].strippedLength
  {
    if |divs| == 1 then 0
    else
      var k := LongestDiv(divs[..|divs| - 1]);
      if divs[|divs| - 1].strippedLength > divs[k].strippedLength then |divs| - 1 else k
  }

  /** The content-region cascade: the first selector that found something
      wins; failing all of them, the longest div, unless it is shorter than
      the fallback threshold. */
  function SelectRegion(page: Page): (r: Option<Region>)
    ensures FirstPresent(page.candidates) < |page.candidates| ==>
      r == page.candidates[FirstPresent(page.candidates)]
    ensures FirstPresent(page.candidates) == |page.candidates| ==>
      (r.Some? <==> exists d :: d in page.divs && d.strippedLength >= MinFallbackLength)
    ensures FirstPresent(page.candidates) == |page.candidates| && r.Some? ==>
      r.value in page.divs && forall d :: d in page.divs ==> d.strippedLength <= r.value.strippedLength
    ensures FirstPresent(page.candidates) == |page.candidates| && r.Some? ==>
      r == Some(page.divs[LongestDiv(page.divs)])
  {
    var k := FirstPresent(page.candidates);
    if k < |page.candidates| then page.candidates[k]
    else if page.divs == [] then None
    else
      var d := page.divs[LongestDiv(page.divs)];
      if d.strippedLength < MinFallbackLength then None else Some(d)
  }

  /** The title a page gets: its title element's string, or else the last
      segment of its URL, after the title rule. `None` when the title element
      has no single string, where the source raises. */
  function PageTitle(tag: TitleTag, url: string): (t: Option<string>)
    ensures t.None? <==> tag.TitleWithoutString?
    ensures t.Some? ==> IsStripped(t.value)
    ensures tag.NoTitleTag? ==> t == Some(Title(LastSegment(url)))
    ensures tag.TitleString? ==> t == Some(Title(tag.s))
  {
    match tag
    case NoTitleTag => Some(Title(LastSegment(url)))
    case TitleString(s) => Some(Title(s))
    case TitleWithoutString => None
  }

  /** The processing of one fetched page at `url`. */
  function PageOutcome(fetch: Fetch, url: string): (o: Outcome)
    ensures o.Accepted? ==> |o.text| > MinTextLength && IsNormal(o.text)
    ensures o.Accepted? ==> IsStripped(o.title)
    ensures o.NoRegion? <==> fetch.Fetched? && SelectRegion(fetch.page).None?
    ensures o.Raised? <==>
      || fetch.FetchFailed?
      || (&& fetch.Fetched?
          && SelectRegion(fetch.page).Some?
          && |Normalise(SelectRegion(fetch.page).value.text)| > MinTextLength
          && fetch.page.titleTag.TitleWithoutString?)
    ensures o.TooShort? ==> o.length <= MinTextLength
    ensures o.Accepted? ==> o.links == SelectRegion(fetch.page).value.links
    ensures o.Accepted? ==>
      PageTitle(fetch.page.titleTag, url).Some? && o.title == PageTitle(fetch.page.titleTag, url).value
  {
    match fetch
    case FetchFailed => Raised
    case Fetched(page) =>
      match SelectRegion(page)
      case None => NoRegion
      case Some(region) =>
        var text := Normalise(region.text);
        NormaliseSpec(region.text);
        if |text| <= MinTextLength then TooShort(|text|)
        else
          match PageTitle(page.titleTag, url)
          case None => Raised
          case Some(title) => Accepted(text, title, region.links)
  }

  /** A page is accepted exactly when it was fetched, a region was chosen,
      its cleaned text is longer than the threshold and its title could be
      read; the accepted text is the cleaned region text. */
  lemma AcceptedExactly(fetch: Fetch, url: string)
    ensures PageOutcome(fetch, url).Accepted? <==>
      && fetch.Fetched?
      && SelectRegion(fetch.page).Some?
      && |Normalise(SelectRegion(fetch.page).value.text)| > MinTextLength
      && !fetch.page.titleTag.TitleWithoutString?
    ensures PageOutcome(fetch, url).Accepted? ==>
      PageOutcome(fetch, url).text == Normalise(SelectRegion(fetch.page).value.text)
  {
  }
}
