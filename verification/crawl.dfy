/** `get_candidate` and `get_candidate_from_targeted_company`: one search,
    the result pages its first page links to, and the profile links of every
    page fed to an extractor. */
module Crawl {
  import opened Wrappers
  import opened Text
  import opened Urls
  import opened Dates
  import opened Profiles
  import opened Pagination
  import opened Normalizer
  import opened Tenure
  import opened Seqs

  /** An entry of a crawled page's external links. */
  datatype ExternalLink = ExternalLink(href: string, baseDomain: Option<string>)

  /** A crawled page: its internal and its external links. */
  datatype Page = Page(internal: seq<LinkItem>, external: seq<ExternalLink>)

  /** The page crawler: a page for a URL, or the exception the crawl raised. */
  type PageSource = string -> Result<Page, Exception>

  /** The search query both crawls send (main.py:158 and main.py:252). */
  function SearchQuery(position: string, city: string, state: string, country: string, skills: seq<string>): string {
    "site:linkedin.com/in/ \"" + position + "\" \"" + city + ", " + state + ", " + country + "\" \""
      + Join(skills, ",") + "\""
  }

  /** The query opens with `site:linkedin.com/in/` and the quoted position,
      and ends with the quoted comma-joined skills, each of which occurs in
      that last quoted part. */
  lemma SearchQueryHoldsSkills(position: string, city: string, state: string, country: string,
                               skills: seq<string>, i: int) returns (k: int)
    requires 0 <= i < |skills|
    ensures OccursAt(SearchQuery(position, city, state, country, skills), "site:linkedin.com/in/ \"" + position + "\"", 0)
    ensures EndsWith(SearchQuery(position, city, state, country, skills), "\"" + Join(skills, ",") + "\"")
    ensures |SearchQuery(position, city, state, country, skills)| - |Join(skills, ",")| - 1 <= k
    ensures k + |skills[i]| < |SearchQuery(position, city, state, country, skills)|
    ensures OccursAt(SearchQuery(position, city, state, country, skills), skills[i], k)
  {
    var joined := Join(skills, ",");
    var head := "site:linkedin.com/in/ \"" + position + "\" \"" + city + ", " + state + ", " + country + "\" \"";
    var q := SearchQuery(position, city, state, country, skills);
    assert q == head + joined + "\"";
    var j := JoinHoldsParts(skills, ",", i);
    k := |head| + j;
    assert q[k..k + |skills[i]|] == joined[j..j + |skills[i]|];
    assert q[|q| - |joined| - 2..] == "\"" + joined + "\"";
    var opening := "site:linkedin.com/in/ \"" + position + "\"";
    assert q == opening + (q[|opening|..]);
  }

  /** The search URL: `https://www.google.com/search` with the query string
      `q=` followed by `encode(query)`, where `encode` is the form encoding
      `urlencode` applies. */
  function SearchUrl(encode: string -> string, query: string): string {
    "https://www.google.com/search" + "?q=" + encode(query)
  }

  /** Whatever the encoding produces, the search URL points at Google's
      search path, so its own host qualifies as a Google domain. */
  lemma SearchUrlTargetsGoogle(encode: string -> string, query: string, url: string)
    requires url == SearchUrl(encode, query)
    ensures Netloc(url) == "www.google.com"
    ensures Path(url) == "/search"
    ensures EndsWith(Netloc(url), "google.com")
  {
    var suffix := SearchUrlSplits(encode, query, url);
    SearchUrlParts();
    ParseAssembled(url, "https", "www.google.com", "/search", suffix);
    GoogleHostIsGoogle();
  }

  /** The search URL is its scheme, host and path followed by the query string. */
  lemma SearchUrlSplits(encode: string -> string, query: string, url: string) returns (suffix: string)
    requires url == SearchUrl(encode, query)
    ensures url == "https" + "://" + "www.google.com" + "/search" + suffix
    ensures suffix[0] == '?'
  {
    suffix := "?q=" + encode(query);
  }

  /** The fixed parts of the search URL are a scheme, a host and a path. */
  lemma SearchUrlParts()
    ensures IsScheme("https")
    ensures forall i :: 0 <= i < |"www.google.com"| ==> "www.google.com"[i] !in NetlocEnd
    ensures forall i :: 0 <= i < |"/search"| ==> "/search"[i] !in PathEnd
  {
  }

  /** Google's search host ends with `google.com`. */
  lemma GoogleHostIsGoogle()
    ensures EndsWith("www.google.com", "google.com")
  {
    assert "www.google.com" == "www." + "google.com";
  }

  /** A link whose base domain contains `linkedin.com`. */
  predicate IsLinkedinLink(link: ExternalLink) {
    link.baseDomain.Some? && Contains(link.baseDomain.value, "linkedin.com")
  }

  /** A link's `href` when it is a LinkedIn link. */
  function LinkedinHref(link: ExternalLink): Option<string> {
    if IsLinkedinLink(link) then Some(link.href) else None
  }

  /** The profile links of a page (main.py:169-170, repeated at main.py:179-180,
      main.py:263-264 and main.py:273-274): the `href` of every
      external link whose base domain contains `linkedin.com`, in page order.
      A missing base domain makes the containment test raise `TypeError`. */
  function ProfileLinks(links: seq<ExternalLink>): (r: Result<seq<string>, Exception>)
    ensures r.Failure? <==> exists i :: 0 <= i < |links| && links[i].baseDomain.None?
    ensures r.Failure? ==> r.error == TypeError
    ensures r.Success? ==> r.value == Collect(links, LinkedinHref)
  {
    if |links| == 0 then Success([])
    else
      match ProfileLinks(links[..|links| - 1])
      case Failure(err) => Failure(err)
      case Success(earlier) =>
        var link := links[|links| - 1];
        if link.baseDomain.None? then Failure(TypeError)
        else if IsLinkedinLink(link) then Success(earlier + [link.href])
        else Success(earlier)
  }

  /** Every kept link is a LinkedIn link of the page, and every LinkedIn link of the page is kept. */
  lemma ProfileLinksExact(links: seq<ExternalLink>, href: string)
    requires ProfileLinks(links).Success?
    ensures href in ProfileLinks(links).value <==>
              exists i :: 0 <= i < |links| && links[i].href == href && IsLinkedinLink(links[i])
  {
    var kept := ProfileLinks(links).value;
    if href in kept {
      var k :| 0 <= k < |kept| && kept[k] == href;
      var i :| 0 <= i < |links| && LinkedinHref(links[i]) == Some(kept[k]);
    }
    if exists i :: 0 <= i < |links| && links[i].href == href && IsLinkedinLink(links[i]) {
      var i :| 0 <= i < |links| && links[i].href == href && IsLinkedinLink(links[i]);
      CollectComplete(links, LinkedinHref, i);
    }
  }

  /** A page that cannot be fetched, whose external links cannot be
      filtered, or whose internal links make the pagination parse raise. The
      known URLs passed along do not decide whether that parse raises. */
  predicate PageFails(fetch: PageSource, url: string) {
    || fetch(url).Failure?
    || ProfileLinks(fetch(url).value.external).Failure?
    || ExtractPaginationUrls(fetch(url).value.internal, {}).Failure?
  }

  /** What a page contributes when it does not fail: the extractor's output
      for its profile links. */
  function PageYield<T>(fetch: PageSource, extract: seq<string> -> seq<T>, url: string): seq<T> {
    if PageFails(fetch, url) then [] else extract(ProfileLinks(fetch(url).value.external).value)
  }

  /** The first exception a page raises. */
  function PageError(fetch: PageSource, url: string): Exception
    requires PageFails(fetch, url)
  {
    if fetch(url).Failure? then fetch(url).error
    else if ProfileLinks(fetch(url).value.external).Failure? then ProfileLinks(fetch(url).value.external).error
    else ExtractPaginationUrls(fetch(url).value.internal, {}).error
  }

  /** `found` extended by a later harvest, or that harvest's exception. */
  function Extend<T>(found: seq<T>, later: Result<seq<T>, Exception>): Result<seq<T>, Exception> {
    match later
    case Failure(err) => Failure(err)
    case Success(rest) => Success(found + rest)
  }

  /** Extending in two steps is extending by the concatenation. */
  lemma ExtendTwice<T>(found: seq<T>, more: seq<T>, later: Result<seq<T>, Exception>)
    ensures Extend(found, Extend(more, later)) == Extend(found + more, later)
  {
    if later.Success? {
      assert found + (more + later.value) == (found + more) + later.value;
    }
  }

  /** The pages visited in order, each extended onto the output; the first
      exception ends the crawl. */
  function HarvestPages<T>(fetch: PageSource, pages: seq<string>, extract: seq<string> -> seq<T>): (r: Result<seq<T>, Exception>)
    ensures r.Failure? <==> exists i :: 0 <= i < |pages| && PageFails(fetch, pages[i])
    ensures r.Success? ==> r.value == Flatten(pages, url => PageYield(fetch, extract, url))
    decreases |pages|
  {
    if |pages| == 0 then Success([])
    else if PageFails(fetch, pages[0]) then Failure(PageError(fetch, pages[0]))
    else
      FlattenCons(pages, url => PageYield(fetch, extract, url));
      Extend(PageYield(fetch, extract, pages[0]), HarvestPages(fetch, pages[1..], extract))
  }

  /** One step of the harvest from position `i`. */
  lemma HarvestStep<T>(fetch: PageSource, pages: seq<string>, extract: seq<string> -> seq<T>, i: int)
    requires 0 <= i < |pages|
    ensures HarvestPages(fetch, pages[i..], extract)
         == if PageFails(fetch, pages[i]) then Failure(PageError(fetch, pages[i]))
            else Extend(PageYield(fetch, extract, pages[i]), HarvestPages(fetch, pages[i + 1..], extract))
  {
    assert pages[i..][1..] == pages[i + 1..];
  }

  /** The result pages fetched after the search page: the pagination links
      of the first page only, in the order `listing` gives the set. */
  function PlannedPages(first: Page, listing: set<string> -> seq<string>): seq<string>
    requires ExtractPaginationUrls(first.internal, {}).Success?
  {
    listing(ExtractPaginationUrls(first.internal, {}).value)
  }

  /** `listing` lists every element of a set and nothing else, as `list(...)`
      of a set does. */
  ghost predicate ListsExactly(listing: set<string> -> seq<string>) {
    forall s: set<string>, v: string :: v in listing(s) <==> v in s
  }

  /** When `listing` lists exactly the set, the planned pages are the `href`s
      of the first page's pagination links. */
  lemma PlannedPagesArePagination(first: Page, listing: set<string> -> seq<string>, u: string)
    requires ExtractPaginationUrls(first.internal, {}).Success?
    requires ListsExactly(listing)
    ensures u in PlannedPages(first, listing) <==>
              exists k :: 0 <= k < |first.internal| && first.internal[k].href == Some(u)
                          && IsPaginationLink(first.internal[k])
  {
    if u in PlannedPages(first, listing) {
      AddedUrlsQualify(first.internal, {}, u);
    }
  }

  /** The reference crawl: the search page, then the planned pages. */
  function CrawlResult<T>(fetch: PageSource, searchUrl: string, listing: set<string> -> seq<string>,
                          extract: seq<string> -> seq<T>): (r: Result<seq<T>, Exception>)
    ensures r.Failure? <==>
              || PageFails(fetch, searchUrl)
              || exists i :: 0 <= i < |PlannedPages(fetch(searchUrl).value, listing)|
                               && PageFails(fetch, PlannedPages(fetch(searchUrl).value, listing)[i])
    ensures r.Success? ==>
              r.value == Flatten([searchUrl] + PlannedPages(fetch(searchUrl).value, listing),
                                 url => PageYield(fetch, extract, url))
  {
    if PageFails(fetch, searchUrl) then Failure(PageError(fetch, searchUrl))
    else
      var pages := PlannedPages(fetch(searchUrl).value, listing);
      FlattenCons([searchUrl] + pages, url => PageYield(fetch, extract, url));
      assert ([searchUrl] + pages)[1..] == pages;
      Extend(PageYield(fetch, extract, searchUrl), HarvestPages(fetch, pages, extract))
  }

  /** The crawl loop shared by both entry points (main.py:167-185 and main.py:261-277):
      the list of result pages is fixed from the first page, and rebinding
      `paginationUrls` inside the loop does not change what is iterated;
      only an exception from that call is felt. */
  method RunCrawl<T>(fetch: PageSource, searchUrl: string, listing: set<string> -> seq<string>,
                     extract: seq<string> -> seq<T>) returns (r: Result<seq<T>, Exception>)
    ensures r == CrawlResult(fetch, searchUrl, listing, extract)
  {
    var queryResult := fetch(searchUrl);
    if queryResult.Failure? {
      return Failure(queryResult.error);
    }
    var links := ProfileLinks(queryResult.value.external);
    if links.Failure? {
      return Failure(links.error);
    }
    var pagination := ExtractPaginationUrls(queryResult.value.internal, {});
    if pagination.Failure? {
      return Failure(pagination.error);
    }
    var paginationUrls := pagination.value;
    var pages := listing(paginationUrls);
    var found := extract(links.value);
    var i := 0;
    while i < |pages|
      invariant 0 <= i <= |pages|
      invariant CrawlResult(fetch, searchUrl, listing, extract) == Extend(found, HarvestPages(fetch, pages[i..], extract))
    {
      HarvestStep(fetch, pages, extract, i);
      var result := fetch(pages[i]);
      if result.Failure? {
        return Failure(result.error);
      }
      var pageLinks := ProfileLinks(result.value.external);
      if pageLinks.Failure? {
        return Failure(pageLinks.error);
      }
      var next := ExtractPaginationUrls(result.value.internal, paginationUrls);
      if next.Failure? {
        return Failure(next.error);
      }
      paginationUrls := next.value;
      ExtendTwice(found, extract(pageLinks.value), HarvestPages(fetch, pages[i + 1..], extract));
      found := found + extract(pageLinks.value);
      i := i + 1;
    }
    assert pages[i..] == [];
    assert found + [] == found;
    return Success(found);
  }

  /** `get_candidate`: the candidate records of every crawled page, or
      `None` when anything raised, since the whole body sits in a `try`. */
  method GetCandidate(fetch: PageSource, source: ProfileSource, listing: set<string> -> seq<string>,
                      encode: string -> string, position: string, city: string, state: string,
                      country: string, skills: seq<string>) returns (r: Option<seq<Candidate>>)
    ensures r == CrawlResult(fetch, SearchUrl(encode, SearchQuery(position, city, state, country, skills)),
                             listing, urls => ExtractCandidateData(source, urls)).ToOption()
  {
    var url := SearchUrl(encode, SearchQuery(position, city, state, country, skills));
    var crawled := RunCrawl(fetch, url, listing, urls => ExtractCandidateData(source, urls));
    r := crawled.ToOption();
  }

  /** `get_candidate_from_targeted_company`: it builds the list of
      past-organisation records but has no `return`, so it yields `None`;
      with no `try`, an exception reaches the caller. */
  method GetCandidateFromTargetedCompany(fetch: PageSource, source: ProfileSource, listing: set<string> -> seq<string>,
                                         encode: string -> string, now: YearMonth, parent: Option<string>,
                                         position: string, city: string, state: string, country: string,
                                         skills: seq<string>) returns (r: Result<Option<seq<Experience>>, Exception>)
    ensures r.Success? ==> r.value == None
    ensures var crawl := CrawlResult(fetch, SearchUrl(encode, SearchQuery(position, city, state, country, skills)),
                                     listing, urls => ExtractPastOrganizations(source, parent, position, urls, now));
            && (r.Failure? <==> crawl.Failure?)
            && (r.Failure? ==> r.error == crawl.error)
  {
    var url := SearchUrl(encode, SearchQuery(position, city, state, country, skills));
    var companies := RunCrawl(fetch, url, listing, urls => ExtractPastOrganizations(source, parent, position, urls, now));
    if companies.Failure? {
      return Failure(companies.error);
    }
    return Success(None);
  }

  /** Two crawlers that agree on whether each page can be fetched, on its
      external links, and on whether its internal links make the parse raise. */
  predicate SameExternalView(fetch1: PageSource, fetch2: PageSource, url: string) {
    && fetch1(url).Success? == fetch2(url).Success?
    && (fetch1(url).Failure? ==> fetch1(url).error == fetch2(url).error)
    && (fetch1(url).Success? ==> fetch1(url).value.external == fetch2(url).value.external)
    && (fetch1(url).Success? ==>
          ExtractPaginationUrls(fetch1(url).value.internal, {}).Failure?
          == ExtractPaginationUrls(fetch2(url).value.internal, {}).Failure?)
  }

  /** Harvesting reads nothing of a page but its outcome, its external links
      and whether its internal links raise. */
  lemma {:induction false} HarvestReadsExternalLinks<T>(fetch1: PageSource, fetch2: PageSource,
                                                       pages: seq<string>, extract: seq<string> -> seq<T>)
    requires forall i :: 0 <= i < |pages| ==> SameExternalView(fetch1, fetch2, pages[i])
    ensures HarvestPages(fetch1, pages, extract) == HarvestPages(fetch2, pages, extract)
    decreases |pages|
  {
    if |pages| > 0 {
      HarvestReadsExternalLinks(fetch1, fetch2, pages[1..], extract);
    }
  }

  /** Only the search page and the first page's pagination links are ever
      fetched, and only the search page's pagination links are used: pages
      outside that plan do not change the result, and of a later page's
      internal links only whether they raise matters. */
  lemma CrawlReadsOnlyPlannedPages<T>(fetch1: PageSource, fetch2: PageSource, searchUrl: string,
                                      listing: set<string> -> seq<string>, extract: seq<string> -> seq<T>)
    requires fetch1(searchUrl) == fetch2(searchUrl)
    requires !PageFails(fetch1, searchUrl) ==>
               forall u :: u in PlannedPages(fetch1(searchUrl).value, listing) ==> SameExternalView(fetch1, fetch2, u)
    ensures CrawlResult(fetch1, searchUrl, listing, extract) == CrawlResult(fetch2, searchUrl, listing, extract)
  {
    if !PageFails(fetch1, searchUrl) {
      var pages := PlannedPages(fetch1(searchUrl).value, listing);
      assert forall i :: 0 <= i < |pages| ==> SameExternalView(fetch1, fetch2, pages[i]) by {
        forall i | 0 <= i < |pages| ensures SameExternalView(fetch1, fetch2, pages[i]) {
          assert pages[i] in pages;
        }
      }
      HarvestReadsExternalLinks(fetch1, fetch2, pages, extract);
    }
  }

  /** When `listing` enumerates the pagination set without repeats, the crawl
      fetches at most one page per internal link of the first page, besides
      the search page itself. */
  lemma PagesBoundedByFirstPage(first: Page, listing: set<string> -> seq<string>)
    requires ExtractPaginationUrls(first.internal, {}).Success?
    requires |listing(ExtractPaginationUrls(first.internal, {}).value)| == |ExtractPaginationUrls(first.internal, {}).value|
    ensures |PlannedPages(first, listing)| <= |first.internal|
  {
    PaginationBoundedByLinks(first.internal);
  }

  /** A first page without pagination links means a single fetched page. */
  lemma NoPaginationSinglePage<T>(fetch: PageSource, searchUrl: string, listing: set<string> -> seq<string>,
                                  extract: seq<string> -> seq<T>)
    requires !PageFails(fetch, searchUrl)
    requires forall k :: 0 <= k < |fetch(searchUrl).value.internal| ==> !IsPaginationLink(fetch(searchUrl).value.internal[k])
    requires listing({}) == []
    ensures CrawlResult(fetch, searchUrl, listing, extract)
         == Success(extract(ProfileLinks(fetch(searchUrl).value.external).value))
  {
    var first := fetch(searchUrl).value;
    assert ExtractPaginationUrls(first.internal, {}).value == {} by {
      forall u | u in ExtractPaginationUrls(first.internal, {}).value ensures false {
        AddedUrlsQualify(first.internal, {}, u);
      }
    }
    assert Flatten([searchUrl], url => PageYield(fetch, extract, url))
        == PageYield(fetch, extract, searchUrl) by {
      assert [searchUrl][..0] == [];
    }
  }

  /** Everything a successful crawl returns was extracted from the profile
      links of a planned page that did not fail. */
  lemma CrawlOutputOrigin<T>(fetch: PageSource, searchUrl: string, listing: set<string> -> seq<string>,
                             extract: seq<string> -> seq<T>, y: T) returns (u: string)
    requires CrawlResult(fetch, searchUrl, listing, extract).Success?
    requires y in CrawlResult(fetch, searchUrl, listing, extract).value
    ensures u in [searchUrl] + PlannedPages(fetch(searchUrl).value, listing)
    ensures !PageFails(fetch, u) && y in extract(ProfileLinks(fetch(u).value.external).value)
  {
    var pages := [searchUrl] + PlannedPages(fetch(searchUrl).value, listing);
    FlattenMember(pages, url => PageYield(fetch, extract, url), y);
    var i :| 0 <= i < |pages| && y in PageYield(fetch, extract, pages[i]);
    u := pages[i];
  }

  /** Every candidate `get_candidate` returns came from one of the crawled
      profile links and has no current company, email or phone. */
  lemma CandidatesAreEmittable(fetch: PageSource, source: ProfileSource, searchUrl: string,
                               listing: set<string> -> seq<string>, c: Candidate)
    requires CrawlResult(fetch, searchUrl, listing, urls => ExtractCandidateData(source, urls)).Success?
    requires c in CrawlResult(fetch, searchUrl, listing, urls => ExtractCandidateData(source, urls)).value
    ensures IsEmittable(c)
    ensures exists u :: u in [searchUrl] + PlannedPages(fetch(searchUrl).value, listing)
              && !PageFails(fetch, u) && c.linkedinUrl in ProfileLinks(fetch(u).value.external).value
  {
    var u := CrawlOutputOrigin(fetch, searchUrl, listing, urls => ExtractCandidateData(source, urls), c);
    var found := ExtractCandidateData(source, ProfileLinks(fetch(u).value.external).value);
    var k :| 0 <= k < |found| && found[k] == c;
  }
}
