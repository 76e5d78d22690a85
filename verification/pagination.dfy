/** Selection and merging of numbered result-page links
    (`extract_pagination_urls`). */
module Pagination {
  import opened Wrappers
  import opened Text
  import opened Urls
  import opened Seqs

  /** One internal link of a crawled page: the `href` and `text` keys, either of
      which may be missing. */
  datatype LinkItem = LinkItem(href: Option<string>, text: Option<string>)

  /** A link to a numbered page of Google results: a truthy `href` and `text`,
      a network location ending in `google.com`, and an all-digit label. */
  predicate IsPaginationLink(item: LinkItem) {
    && StrTruthy(item.href)
    && StrTruthy(item.text)
    && EndsWith(Netloc(item.href.value), "google.com")
    && IsAllDigits(item.text.value)
  }

  /** An item whose `href` reaches `urlparse` (both `href` and `text` are
      truthy) and whose network location has an unmatched bracket: the parse
      raises `ValueError`. */
  predicate RaisesOnParse(item: LinkItem) {
    && StrTruthy(item.href)
    && StrTruthy(item.text)
    && HasUnmatchedBracket(item.href.value)
  }

  /** The `href`s of the items of `data` that `keep` selects. */
  function SelectedHrefs(data: seq<LinkItem>, keep: LinkItem -> bool): set<string>
  {
    set i | 0 <= i < |data| && data[i].href.Some? && keep(data[i]) :: data[i].href.value
  }

  /** Every `href` on `data` that passes the pagination filter. */
  function PaginationHrefs(data: seq<LinkItem>): set<string>
  {
    SelectedHrefs(data, IsPaginationLink)
  }

  /** `extract_pagination_urls(data, existing_urls)`: walks the items in order,
      keeps the qualifying `href`s not already known, and merges them into the
      known URLs. The result is a set: Python's `list(set(...))` removes
      duplicates and gives no order. An `href` that `urlparse` rejects raises
      out of the call, whatever the known URLs are. */
  function ExtractPaginationUrls(data: seq<LinkItem>, existing: set<string>): (r: Result<set<string>, Exception>)
    ensures r.Failure? <==> Exists(data, RaisesOnParse)
    ensures r.Failure? ==> r.error == ValueError
    ensures r.Success? ==> r.value == existing + PaginationHrefs(data)
  {
    if |data| == 0 then Success(existing)
    else
      var item := data[|data| - 1];
      ExistsSnoc(data, RaisesOnParse);
      match ExtractPaginationUrls(data[..|data| - 1], existing)
      case Failure(err) => Failure(err)
      case Success(earlier) =>
        SelectedHrefsSnoc(data, IsPaginationLink);
        if RaisesOnParse(item) then Failure(ValueError)
        else if IsPaginationLink(item) && item.href.value !in existing then Success(earlier + {item.href.value})
          else Success(earlier)
  }

  /** The selected hrefs of a sequence are those of all but its last item
      plus, when it is selected, the last item's. */
  lemma SelectedHrefsSnoc(data: seq<LinkItem>, keep: LinkItem -> bool)
    requires |data| > 0
    ensures var item := data[|data| - 1];
            SelectedHrefs(data, keep) == SelectedHrefs(data[..|data| - 1], keep)
              + (if item.href.Some? && keep(item) then {item.href.value} else {})
  {
    var front := data[..|data| - 1];
    var item := data[|data| - 1];
    var last := if item.href.Some? && keep(item) then {item.href.value} else {};
    forall u | u in SelectedHrefs(data, keep)
      ensures u in SelectedHrefs(front, keep) + last
    {
      var i :| 0 <= i < |data| && data[i].href.Some? && keep(data[i]) && data[i].href.value == u;
      if i < |data| - 1 {
        assert front[i] == data[i];
      }
    }
    forall u | u in SelectedHrefs(front, keep)
      ensures u in SelectedHrefs(data, keep)
    {
      var i :| 0 <= i < |front| && front[i].href.Some? && keep(front[i]) && front[i].href.value == u;
      assert data[i] == front[i];
    }
  }

  /** The known URLs are never lost. */
  lemma ExtractKeepsExisting(data: seq<LinkItem>, existing: set<string>)
    ensures ExtractPaginationUrls(data, existing).Success? ==>
              existing <= ExtractPaginationUrls(data, existing).value
  {
  }

  /** Feeding the result back in as the known URLs changes nothing. */
  lemma ExtractIdempotent(data: seq<LinkItem>, existing: set<string>)
    ensures var r := ExtractPaginationUrls(data, existing);
            r.Success? ==> ExtractPaginationUrls(data, r.value) == r
  {
  }

  /** Whether the call raises depends on the page's items alone, never on
      the known URLs. */
  lemma RaisingIgnoresKnown(data: seq<LinkItem>, a: set<string>, b: set<string>)
    ensures ExtractPaginationUrls(data, a).Failure? <==> ExtractPaginationUrls(data, b).Failure?
    ensures ExtractPaginationUrls(data, a).Failure? ==>
              ExtractPaginationUrls(data, a) == ExtractPaginationUrls(data, b)
  {
  }

  /** A numbered Google link whose host has an unmatched `[` makes the call
      raise `ValueError`. */
  lemma UnmatchedBracketRaises(existing: set<string>)
    ensures ExtractPaginationUrls([LinkItem(Some("https://www.google.com[/x"), Some("2"))], existing)
         == Failure(ValueError)
  {
    var item := LinkItem(Some("https://www.google.com[/x"), Some("2"));
    BracketedHostUnmatched();
    assert RaisesOnParse([item][0]);
  }

  /** `https://www.google.com[/x` has the network location `www.google.com[`. */
  lemma BracketedHostUnmatched()
    ensures HasUnmatchedBracket("https://www.google.com[/x")
  {
    var url := "https://www.google.com[/x";
    BracketedHostSplits(url);
    BracketedHostParts();
    BracketedHostHasNoClose();
    ParseAssembled(url, "https", "www.google.com[", "/x", "");
    assert "www.google.com["[14] == '[';
  }

  /** The parts of `https://www.google.com[/x`. */
  lemma BracketedHostSplits(url: string)
    requires url == "https://www.google.com[/x"
    ensures url == "https" + "://" + "www.google.com[" + "/x" + ""
  {
  }

  /** The scheme, host and path of `https://www.google.com[/x` are well formed. */
  lemma BracketedHostParts()
    ensures IsScheme("https")
    ensures forall i :: 0 <= i < |"www.google.com["| ==> "www.google.com["[i] !in NetlocEnd
    ensures forall i :: 0 <= i < |"/x"| ==> "/x"[i] !in PathEnd
  {
  }

  /** The host `www.google.com[` has no closing bracket. */
  lemma BracketedHostHasNoClose()
    ensures ']' !in "www.google.com["
  {
  }

  /** A URL the call adds comes from an item that passes every test: truthy
      `href` and `text`, a Google host, an all-digit label. */
  lemma AddedUrlsQualify(data: seq<LinkItem>, existing: set<string>, url: string)
    requires ExtractPaginationUrls(data, existing).Success?
    requires url in ExtractPaginationUrls(data, existing).value && url !in existing
    ensures exists i :: 0 <= i < |data| && data[i].href == Some(url) && IsPaginationLink(data[i])
  {
  }

  /** A URL whose every item is labelled with something other than digits
      (`"Next"`, `"Previous"`) or points off Google is never added. */
  lemma NonNumericOrForeignNeverAdded(data: seq<LinkItem>, existing: set<string>, url: string)
    requires url !in existing
    requires forall i :: 0 <= i < |data| && data[i].href == Some(url) ==>
               data[i].text.None? || !IsAllDigits(data[i].text.value)
               || !EndsWith(Netloc(url), "google.com")
    ensures ExtractPaginationUrls(data, existing).Success? ==> url !in ExtractPaginationUrls(data, existing).value
  {
  }

  /** The merge is a union: extending the known URLs extends the result the same way. */
  lemma ExtractDistributesOverKnown(data: seq<LinkItem>, a: set<string>, b: set<string>)
    ensures ExtractPaginationUrls(data, a + b).Success? <==> ExtractPaginationUrls(data, a).Success?
    ensures ExtractPaginationUrls(data, a).Success? ==>
              ExtractPaginationUrls(data, a + b).value == ExtractPaginationUrls(data, a).value + b
  {
  }

  /** Starting from nothing, a page yields at most one URL per internal link. */
  lemma {:induction false} PaginationBoundedByLinks(data: seq<LinkItem>)
    ensures ExtractPaginationUrls(data, {}).Success? ==> |ExtractPaginationUrls(data, {}).value| <= |data|
  {
    if |data| > 0 {
      PaginationBoundedByLinks(data[..|data| - 1]);
    }
  }
}
