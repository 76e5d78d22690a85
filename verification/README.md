# linkedin-scraper core, modelled in Dafny

This project models the data-transformation core of the LinkedIn candidate
scraper in `main.py`:

- the Google result-page link filter and merge (`extract_pagination_urls`);
- the profile username taken from a profile URL;
- the month arithmetic on experience dates;
- profile normalisation (`extract_candidate_data`);
- prior-employer inference (`extract_company_employee_past_organization`);
- the crawl loops of `get_candidate` and `get_candidate_from_targeted_company`.

The model follows the code as written. Python exceptions are `Failure`
values of a `Result`, and the `try` blocks become matches on those values.
The page crawler, the profile client and the clock are parameters:

- `PageSource` is a function from URL to page or exception;
- `ProfileSource` is a function from username to an optional raw profile or exception;
- `now` is a `YearMonth`.

`list(set(...))` has no defined order. The crawl therefore takes a `listing`
parameter that turns the pagination set into the list it iterates. The
crawl's properties hold for any `listing`. Where they need `listing` to list
exactly the elements of the set, as `list(...)` does, they say so through
`Crawl.ListsExactly`.

Modules, one per file:

| module | file | what it holds |
|---|---|---|
| `Wrappers` | wrappers.dfy | `Option`, `Result`, exception kinds, Python truthiness |
| `Text` | text.dfy | `strip`, `split(...)[-1]`, `lower`, digit tests, substring |
| `Urls` | urls.dfy | the `urlparse` network location and path; the username |
| `Dates` | dates.dfy | `datetime(y, m, 1)` validity, month differences |
| `Profiles` | profiles.dfy | raw profile records (`DateDict` for `startDate`/`endDate`) and output records |
| `Seqs` | seqs.dfy | generic map, collect (filter-map) and flatten over sequences |
| `Pagination` | pagination.dfy | `extract_pagination_urls` |
| `Normalizer` | normalizer.dfy | `extract_candidate_data` |
| `Tenure` | tenure.dfy | `extract_company_employee_past_organization` |
| `Crawl` | crawl.dfy | query and search URL, profile-link filter, both crawl loops |

### Behaviour of the code as written

The model proves these behaviours of the code.

- **Ongoing jobs drop the profile.** An experience entry with a missing or
  empty `endDate` reads `end_date.get` on `None` (main.py:71-75). The whole
  profile is dropped, so no candidate ever has a `current_company` or a
  current job.
- **A missing start year or month drops the profile.** `datetime(None, ...)`
  raises `TypeError` (main.py:78).
- **Prior-employer lookback:**
  - A recent target match at index 0 raises `TypeError` (`None >= 0`), which
    ends that profile.
  - A match at index 1 emits nothing, because index `0` is falsy.
  - Only a match at index 2 or later emits the entry at `index - 1`.
  - The loop does not stop after a match.
  - Records appended before a later exception in the same profile stay in the
    output, since the list lives outside the `try`.
- **The emitted record's duration is the previous entry's own recorded span.**
  Its `end` is now (main.py:232-241).
- **Only the first page's pagination links are fetched.** `for url in
  pagination_urls` iterates the list bound before the loop (main.py:177 and
  main.py:271). Rebinding the name inside the loop does not extend it.
- **The targeted crawl never returns its list.** `get_candidate_from_targeted_company`
  has no `return`, so it yields `None`. Having no `try`, it passes exceptions
  through.
- **An unparsable link aborts a crawl.** `urlparse` raises `ValueError` when
  a network location has an unmatched `[` or `]`. In `extract_pagination_urls`
  the call sits outside any `try` (main.py:31), and it runs on every internal
  link with a truthy `href` and `text`, before the Google and digit tests. So
  one such link ends the crawl, on the search page or on any later page, even though the
  later pages' pagination result is otherwise discarded. In the two profile
  loops the same error only skips that URL (main.py:51, main.py:196).
- **`get_candidate` swallows exceptions.** It returns `None` on any exception,
  rather than failing the request.

## Model

| member | source | states |
|---|---|---|
| Pagination.ExtractPaginationUrls | main.py:24-43 | the call raises `ValueError` exactly when some item with truthy `href` and `text` has a network location with an unmatched bracket; otherwise the result is exactly the known URLs plus the `href` of every item with truthy `href` and `text`, a network location ending in `google.com` and an all-digit label |
| Pagination.ExtractKeepsExisting | main.py:43 | every known URL is in the result |
| Pagination.ExtractIdempotent | main.py:38-43 | running again with its own result as the known URLs returns the same set |
| Pagination.RaisingIgnoresKnown | main.py:27-31 | whether the call raises, and with what, does not depend on the known URLs |
| Pagination.UnmatchedBracketRaises | main.py:28-31 | a numbered link `https://www.google.com[/x` makes the call raise `ValueError` |
| Pagination.AddedUrlsQualify | main.py:27-40 | every URL that was not already known comes from an item that passes all four tests |
| Pagination.NonNumericOrForeignNeverAdded | main.py:34-40 | a URL whose items are labelled with non-digits (e.g. `Next`) or point off Google is never added |
| Pagination.ExtractDistributesOverKnown | main.py:43 | the merge is a set union: adding URLs to the known set adds exactly those URLs to the result, and raises exactly when the call without them does |
| Pagination.PaginationBoundedByLinks | main.py:27-43 | starting from no known URLs, a page yields at most one URL per link item |
| Text.StripShape | main.py:52 | `strip("/")` keeps an infix that neither starts nor ends with `/` and drops only `/` around it |
| Text.LastSegmentShape | main.py:52 | `split("/")[-1]` has no `/`, ends the string, and follows a `/` unless it is the whole string |
| Urls.ParseAssembled | main.py:30-34 | for `scheme://host path ?query-or-fragment`, the parsed network location is `host` and the path is `path` |
| Urls.LastPathSegmentShape | main.py:52 | the username has no `/`, ends the stripped path, and follows a `/` unless it is the whole stripped path |
| Urls.LastPathSegmentEmptyIff | main.py:52 | the username is empty exactly when the path consists only of slashes |
| Urls.UsernameOfProfileLink | main.py:51-53 | a link `scheme://host/dir/name`, with an optional trailing slash and query, yields `name` |
| Dates.MakeDate | main.py:78-80 | `datetime(y, m, 1)` succeeds exactly for years 1-9999 and months 1-12; a missing field is a `TypeError`, an out-of-range one a `ValueError` |
| Dates.MonthsBetweenIsDistance | main.py:81 | `(ey-sy)*12 + em-sm` is the distance between the two months on a month-by-month time line |
| Dates.MonthsBetweenAntisymmetric | main.py:81 | swapping start and end negates the month difference |
| Dates.MonthsBetweenAdditive | main.py:81 | month differences add up along a chain of dates |
| Dates.MonthsBetweenOrders | main.py:81 | between valid dates, the difference is zero exactly for the same month and positive exactly when the end is later |
| Normalizer.NormalizeExperience | main.py:69-99 | a missing or empty end date raises `AttributeError`; success requires a valid start and, when end year and month are truthy, a valid end; the end and duration exist exactly when end year and month are truthy, and the duration is the time-line distance from start to end; a successful record is never current |
| Normalizer.NormalizeExperiences | main.py:67-99 | the loop succeeds exactly when every entry does; the records are the entries' records in order; `current_company` is then always `None` |
| Normalizer.NormalizeProfile | main.py:55-142 | a profile normalises exactly when its experience loop does; the URL, names, student flag, skills, education, certificates (active exactly when the end year is falsy) and `geo + ", " + location` come from the profile with defaults; email, phone and current company are `None`; each experience record is the normalised record of the entry at the same position, and none is current |
| Normalizer.CandidateFor | main.py:50-144 | a URL yields at most its own candidate, with that URL and no current company, current job or contact details; an unparsable URL yields nothing |
| Normalizer.ExtractCandidateData | main.py:45-146 | at most one candidate per URL, each carrying one of the input URLs, none with a current company, current job or contact details |
| Normalizer.ExtractCandidateDataAppend | main.py:48-144 | the candidates of a concatenation of URL lists are those of each part, in order |
| Normalizer.ExtractCandidateDataComplete | main.py:48-144 | a URL whose profile is fetched and normalises contributes that candidate |
| Normalizer.ExtractCandidateDataSingle | main.py:48-144 | a single URL yields its own candidate or nothing |
| Normalizer.UnparsableUrlSkipped | main.py:50-53 | a URL whose network location has an unmatched bracket contributes no candidate |
| Normalizer.OngoingJobDiscardsProfile | main.py:71-75 | a profile with any job that has no end date never normalises |
| Normalizer.MissingStartMonthDiscardsProfile | main.py:73-78 | a profile with a job missing its start month never normalises |
| Normalizer.EmptyProfileNormalises | main.py:127-142 | a profile with none of the keys gives empty names, `", "` as location, empty lists and `None` for the optional fields |
| Tenure.MonthsSinceStart | main.py:214-216 | the tenure is the time-line distance from the entry's start to now; a missing start field is a `TypeError` |
| Tenure.PriorEmployerRecord | main.py:222-243 | the previous entry yields a record exactly when it has an end mapping with a year and month and a valid start; that record has the previous entry's fields, end now, not current, and the previous entry's own span; a missing end raises `AttributeError` |
| Tenure.InspectEntry | main.py:202-243 | an entry that has ended emits nothing; an ongoing entry with no target company raises; an ongoing entry whose company or title differs from the target emits nothing; a match with a missing start year or month raises `TypeError`; a match that started four or more months ago emits nothing; an emitted record follows a recent ongoing match at index 2 or later and describes the entry before it; for a recent match, index 0 raises `TypeError`, index 1 emits nothing, an ongoing previous entry raises `AttributeError`, and a closed previous entry emits its record |
| Tenure.ScanFrom | main.py:200-243 | the loop emits at most one record per entry |
| Tenure.ScanSound | main.py:207-243 | every emitted record describes the entry before a recent ongoing target match at index 2 or later, closed at now |
| Tenure.ScanFromOrigin | main.py:200-243 | every record of the scan was emitted by one of the entries the scan passed |
| Tenure.ScanComplete | main.py:200-243 | when no entry raises, every recent match at index 2 or later with a closed previous entry contributes that entry's record, however many matches precede it |
| Tenure.MatchAtIndexZeroAborts | main.py:218-221 | a recent match at the head of the list ends the profile with `TypeError` and no records |
| Tenure.MatchAtIndexOneIsSkipped | main.py:218-221 | a recent match right after a closed head emits nothing and the scan continues |
| Tenure.OngoingPreviousEntryAborts | main.py:225-229 | a recent match whose previous entry has no end date raises `AttributeError` |
| Tenure.NoRaiseNoError | main.py:202-243 | when no entry from a position on raises, the loop from there ends without an exception |
| Tenure.FirstExceptionEndsScan | main.py:193-245 | the first entry that raises ends the profile's loop with that exception |
| Tenure.EarlierRecordsKept | main.py:191-245 | a record emitted before the first raising entry stays in the output |
| Tenure.NewestFirstListContributesNothing | main.py:200-221 | a newest-first list `[Google (ongoing, since 2024-09), Acme]` searched for Google in 2024-12 raises at index 0 and contributes nothing |
| Tenure.RecordsFor | main.py:191-245 | every record of one URL is not current and ends now |
| Tenure.ExtractPastOrganizations | main.py:188-247 | every record is not current and ends now |
| Tenure.PastOrganizationOrigin | main.py:191-245 | every record belongs to the records of one of the input URLs |
| Tenure.RecordsForOrigin | main.py:193-243 | a record of one URL means that URL parsed, its profile was fetched and the record describes the entry before a recent ongoing target match at index 2 or later |
| Tenure.ExtractPastOrganizationsAppend | main.py:191-245 | the records of a concatenation of URL lists are those of each part, in order |
| Text.JoinHoldsParts | main.py:158 | each part occurs in `sep.join(parts)`, right after a separator unless it is the first part |
| Crawl.SearchQueryHoldsSkills | main.py:158 | the query opens with `site:linkedin.com/in/ "<position>"` and ends with the quoted comma-joined skills, and each skill occurs inside that last quoted part |
| Crawl.SearchUrlTargetsGoogle | main.py:163-165 | whatever the query encoding produces, the search URL's host is `www.google.com`, its path is `/search`, and its host ends with `google.com` |
| Crawl.ProfileLinks | main.py:169-170 | filtering raises `TypeError` exactly when some external link has no base domain; otherwise it keeps, in page order, the `href`s of links whose base domain contains `linkedin.com` |
| Crawl.ProfileLinksExact | main.py:169-170 | a URL is kept exactly when some external link with a LinkedIn base domain carries it |
| Crawl.HarvestPages | main.py:177-183 | visiting pages fails exactly when one of them fails to fetch, to filter its external links, or to parse its internal links; otherwise it returns each page's extracted output, in page order |
| Crawl.CrawlResult | main.py:167-185 | the crawl fails exactly when the search page or a pagination page of the first page fails to fetch, filter or parse; otherwise it returns the output of the search page followed by that of those pagination pages |
| Crawl.RunCrawl | main.py:167-185 | the loop, which rebinds the pagination list while iterating the list bound before it, computes the reference crawl |
| Crawl.GetCandidate | main.py:155-187 | `get_candidate` returns the crawl's candidates, or `None` when anything raised |
| Crawl.GetCandidateFromTargetedCompany | main.py:250-277 | the targeted crawl never returns records: it yields `None`, or raises exactly when the crawl raises |
| Crawl.HarvestReadsExternalLinks | main.py:177-183 | visiting pages depends only on each page's outcome, its external links and whether its internal links raise |
| Crawl.CrawlReadsOnlyPlannedPages | main.py:167-183 | pages outside the search page and the first page's pagination links do not affect the result, and of a later page's internal links only whether they raise does |
| Crawl.PlannedPagesArePagination | main.py:171-177 | when the set is listed exactly, a URL is fetched after the search page exactly when it is the `href` of a pagination link of the first page |
| Crawl.PagesBoundedByFirstPage | main.py:171-177 | when the set is listed without repeats, the crawl visits at most one pagination page per internal link of the first page |
| Crawl.NoPaginationSinglePage | main.py:171-185 | a first page without pagination links gives just that page's output |
| Crawl.CrawlOutputOrigin | main.py:167-183 | everything the crawl returns was extracted from a planned page that did not fail |
| Crawl.CandidatesAreEmittable | main.py:155-185 | every candidate a crawl returns comes from a profile link of a crawled page and has no current company, current job or contact details |

## Left out

- The FastAPI endpoint, `FlagEnum`, `DataScraperInput` and the JSON responses (main.py:281-311) are HTTP plumbing and are not modelled.
- The page crawler `call_crawl4ai` (main.py:148-153) and the LinkedIn client with its login (main.py:15, main.py:18) are network I/O. They are the `PageSource` and `ProfileSource` parameters. The profile source is a pure function, so repeated lookups of one username give the same answer.
- `async`/`await` is not modelled; the flow is sequential.
- `datetime.now()` is the `now` parameter. The `str(datetime(...))` formatting of dates is replaced by `YearMonth` pairs.
- The percent-encoding `urlencode` applies is not modelled. It is the `encode` parameter of `SearchUrl`.
- `urlparse` is modelled only for the scheme, the `//` network location, the path up to `?` or `#`, and the `ValueError` for an unmatched bracket in the network location. Its `;params` split, the removal of leading C0 control characters and spaces and of tab, CR and LF anywhere in the URL, the handling of non-ASCII text and the validation of a bracketed IPv6 host that recent Python versions add are left out.
- `str.isdigit` is modelled as ASCII `0`-`9` only. `str.lower` lowers ASCII letters only. Unicode digits and case mappings are left out.
- The `print` loops over languages, honors, projects and volunteer work (main.py:114-125) and the log `print`s have no effect on results and are left out.
- `all_elements_included` (main.py:21-22) is unused and left out.
- test.py is a client script with no logic and is not part of this model.
- JSON `null` values stored under a key are not distinguished from missing keys. The source's `.get(key, default)` returns `null` in that case. A missing `timePeriod` is folded into missing start and end dates, which the source treats the same way.
- External links are assumed to carry a string `href`. A missing `href` would reach the per-URL `try` and be skipped there. Page link lists are assumed present under `internal` and `external`.
- `extract_pagination_urls` is modelled on sets of known URLs. The Python list it receives on later calls is itself built by `list(set(...))` and has no duplicates.
- Pagination.ExtractPaginationUrls: the result is a set. The order of the list the source returns is not modelled, since `set` iteration order is unspecified.
- Normalizer.NormalizeProfile: its contract states only some copied fields: the school and end year of each education entry and the active flag of each certificate. The degree, start years, headline, bio, certificate name, platform and URL are copied with `""` or `None` defaults by the definitions but not restated in the contract.
