/** `extract_company_employee_past_organization`: for profiles whose holder
    recently started the target role at the target company, the entry
    recorded just before that role. */
module Tenure {
  import opened Wrappers
  import opened Text
  import opened Dates
  import opened Profiles
  import opened Urls
  import opened Seqs

  /** The source's tenure threshold: fewer months than this count as recent. */
  const RecentMonths: int := 4

  /** An entry with a missing or empty end date (`endDate or None` is `None`). */
  predicate IsOngoing(e: RawExperience) {
    !e.endDate.IsTruthy()
  }

  /** Company and title both equal the targets, ignoring case. */
  predicate MatchesTarget(e: RawExperience, parent: string, position: string) {
    EqualsIgnoringCase(e.companyName.GetOr(""), parent) && EqualsIgnoringCase(e.title.GetOr(""), position)
  }

  /** Months from an entry's start month to `now`; a missing start field is a
      `TypeError` (arithmetic on `None`). */
  function MonthsSinceStart(e: RawExperience, now: YearMonth): (r: Result<int, Exception>)
    ensures r.Success? <==> e.startDate.Year().Some? && e.startDate.Month().Some?
    ensures r.Success? ==>
              r.value == MonthIndex(now) - MonthIndex(YearMonth(e.startDate.Year().value, e.startDate.Month().value))
    ensures r.Failure? ==> r.error == TypeError
  {
    if e.startDate.Year().None? || e.startDate.Month().None? then Failure(TypeError)
    else Success(MonthsBetween(YearMonth(e.startDate.Year().value, e.startDate.Month().value), now))
  }

  /** The entry at `index` is an ongoing match that started fewer than four months before `now`. */
  predicate IsRecentMatch(entries: seq<RawExperience>, index: int, parent: string, position: string, now: YearMonth)
    requires 0 <= index < |entries|
  {
    var e := entries[index];
    && IsOngoing(e)
    && MatchesTarget(e, parent, position)
    && MonthsSinceStart(e, now).Success?
    && MonthsSinceStart(e, now).value < RecentMonths
  }

  /** A previous entry the record can be built from: an end mapping with a year
      and a month, and a valid start date. */
  predicate IsClosedEntry(prev: RawExperience) {
    && prev.endDate.IsTruthy()
    && prev.startDate.Year().Some? && prev.startDate.Month().Some?
    && prev.endDate.Year().Some? && prev.endDate.Month().Some?
    && IsValidDate(YearMonth(prev.startDate.Year().value, prev.startDate.Month().value))
  }

  /** `rec` reports `prev` as the employer left at `now`: its own company,
      title, location, logo and start, closed at `now`, not current, with the
      duration `prev` itself records. */
  predicate DescribesPrior(rec: Experience, prev: RawExperience, now: YearMonth)
    requires IsClosedEntry(prev)
  {
    var start := YearMonth(prev.startDate.Year().value, prev.startDate.Month().value);
    var recordedEnd := YearMonth(prev.endDate.Year().value, prev.endDate.Month().value);
    && rec.company == prev.companyName.GetOr("")
    && rec.title == prev.title.GetOr("")
    && rec.location == prev.locationName.GetOr("")
    && rec.companyLogo == prev.companyLogoUrl.GetOr("")
    && rec.start == start
    && rec.end == Some(now)
    && !rec.isCurrent
    && rec.totalMonths == Some(MonthIndex(recordedEnd) - MonthIndex(start))
  }

  /** The record built from the previous entry (main.py:222-243). */
  function PriorEmployerRecord(prev: RawExperience, now: YearMonth): (r: Result<Experience, Exception>)
    ensures r.Success? <==> IsClosedEntry(prev)
    ensures r.Success? ==> DescribesPrior(r.value, prev, now)
    ensures !prev.endDate.IsTruthy() ==> r == Failure(AttributeError)
  {
    var endDate := prev.endDate;
    if !endDate.IsTruthy() then Failure(AttributeError)
    else
      var startYear, startMonth := prev.startDate.Year(), prev.startDate.Month();
      var endYear, endMonth := endDate.year, endDate.month;
      if startYear.None? || startMonth.None? || endYear.None? || endMonth.None? then Failure(TypeError)
      else
        var start := YearMonth(startYear.value, startMonth.value);
        var totalMonths := MonthsBetween(start, YearMonth(endYear.value, endMonth.value));
        if !IsValidDate(start) then Failure(ValueError)
        else Success(Experience(
          prev.companyName.GetOr(""), prev.title.GetOr(""), prev.locationName.GetOr(""),
          start, Some(now), false, prev.companyLogoUrl.GetOr(""), Some(totalMonths)))
  }

  /** One pass of the loop over the experience list (main.py:203-243). The
      previous index is `index - 1 if index > 0 else None`, then checked with
      `>= 0 and` its truthiness: at index 0 the comparison with `None` raises,
      at index 1 the index `0` is falsy and nothing is emitted, and only from
      index 2 on is the previous entry used. A missing `parent` raises as
      soon as an ongoing entry is compared with it. */
  function InspectEntry(entries: seq<RawExperience>, index: int, parent: Option<string>,
                        position: string, now: YearMonth): (r: Result<Option<Experience>, Exception>)
    requires 0 <= index < |entries|
    ensures !IsOngoing(entries[index]) ==> r == Success(None)
    ensures IsOngoing(entries[index]) && parent.None? ==> r == Failure(AttributeError)
    ensures IsOngoing(entries[index]) && parent.Some? && !MatchesTarget(entries[index], parent.value, position) ==>
              r == Success(None)
    ensures IsOngoing(entries[index]) && parent.Some? && MatchesTarget(entries[index], parent.value, position) ==>
              && (MonthsSinceStart(entries[index], now).Failure? ==> r == Failure(TypeError))
              && (MonthsSinceStart(entries[index], now).Success? ==>
                    (MonthsSinceStart(entries[index], now).value >= RecentMonths ==> r == Success(None)))
    ensures r.Success? && r.value.Some? ==>
              && parent.Some?
              && index >= 2
              && IsRecentMatch(entries, index, parent.value, position, now)
              && IsClosedEntry(entries[index - 1])
              && DescribesPrior(r.value.value, entries[index - 1], now)
    ensures parent.Some? && IsRecentMatch(entries, index, parent.value, position, now) ==>
              && (index == 0 ==> r == Failure(TypeError))
              && (index == 1 ==> r == Success(None))
              && (index >= 2 && !entries[index - 1].endDate.IsTruthy() ==> r == Failure(AttributeError))
              && (index >= 2 && IsClosedEntry(entries[index - 1]) ==> r.Success? && r.value.Some?)
  {
    var e := entries[index];
    if !IsOngoing(e) then Success(None)
    else if parent.None? then Failure(AttributeError)
    else if !MatchesTarget(e, parent.value, position) then Success(None)
    else
      match MonthsSinceStart(e, now)
      case Failure(err) => Failure(err)
      case Success(months) =>
        if months >= RecentMonths then Success(None)
        else
          var previousIndex: Option<int> := if index > 0 then Some(index - 1) else None;
          if previousIndex.None? then Failure(TypeError)
          else if previousIndex.value == 0 then Success(None)
          else
            match PriorEmployerRecord(entries[previousIndex.value], now)
            case Failure(err) => Failure(err)
            case Success(rec) => Success(Some(rec))
  }

  /** What the loop over one profile's experience list leaves: the records it
      appended and, when an entry raised, the exception that ended it. */
  datatype Scan = Scan(found: seq<Experience>, error: Option<Exception>)

  /** The loop from `index` on. Records appended before an exception stay in
      the output: the list lives outside the `try`. */
  function ScanFrom(entries: seq<RawExperience>, index: int, parent: Option<string>,
                    position: string, now: YearMonth): (r: Scan)
    requires 0 <= index <= |entries|
    ensures |r.found| <= |entries| - index
    decreases |entries| - index
  {
    if index == |entries| then Scan([], None)
    else
      match InspectEntry(entries, index, parent, position, now)
      case Failure(err) => Scan([], Some(err))
      case Success(emitted) =>
        var rest := ScanFrom(entries, index + 1, parent, position, now);
        Scan((if emitted.Some? then [emitted.value] else []) + rest.found, rest.error)
  }

  /** The loop over a whole experience list. */
  function ScanExperiences(entries: seq<RawExperience>, parent: Option<string>,
                           position: string, now: YearMonth): Scan
  {
    ScanFrom(entries, 0, parent, position, now)
  }

  /** Every emitted record is the entry before a recent ongoing match at
      index 2 or later, closed at `now`. */
  lemma ScanSound(entries: seq<RawExperience>, parent: Option<string>, position: string,
                  now: YearMonth, rec: Experience)
    requires rec in ScanExperiences(entries, parent, position, now).found
    ensures parent.Some?
    ensures exists i :: 2 <= i < |entries|
              && IsRecentMatch(entries, i, parent.value, position, now)
              && IsClosedEntry(entries[i - 1])
              && DescribesPrior(rec, entries[i - 1], now)
  {
    var i := ScanFromOrigin(entries, 0, parent, position, now, rec);
  }

  /** Every record of a scan was emitted by one of the entries it passed. */
  lemma {:induction false} ScanFromOrigin(entries: seq<RawExperience>, index: int, parent: Option<string>,
                                          position: string, now: YearMonth, rec: Experience) returns (i: int)
    requires 0 <= index <= |entries|
    requires rec in ScanFrom(entries, index, parent, position, now).found
    ensures index <= i < |entries| && InspectEntry(entries, i, parent, position, now) == Success(Some(rec))
    decreases |entries| - index
  {
    var head := InspectEntry(entries, index, parent, position, now);
    var rest := ScanFrom(entries, index + 1, parent, position, now);
    if head == Success(Some(rec)) {
      i := index;
    } else {
      assert rec in rest.found;
      i := ScanFromOrigin(entries, index + 1, parent, position, now, rec);
    }
  }

  /** When no entry raises, every recent ongoing match at index 2 or later
      whose previous entry is closed contributes that entry: the loop does not
      stop at the first match. */
  lemma {:induction false} ScanComplete(entries: seq<RawExperience>, index: int, parent: string,
                                        position: string, now: YearMonth, i: int)
    requires 0 <= index <= i < |entries|
    requires ScanFrom(entries, index, Some(parent), position, now).error.None?
    requires i >= 2 && IsRecentMatch(entries, i, parent, position, now) && IsClosedEntry(entries[i - 1])
    ensures InspectEntry(entries, i, Some(parent), position, now).Success?
    ensures InspectEntry(entries, i, Some(parent), position, now).value.value
            in ScanFrom(entries, index, Some(parent), position, now).found
    decreases i - index
  {
    if index < i {
      match InspectEntry(entries, index, Some(parent), position, now)
      case Failure(_) =>
      case Success(_) => ScanComplete(entries, index + 1, parent, position, now, i);
    }
  }

  /** A recent match at the head of the list raises: nothing is emitted for
      that profile and the rest of its list is never looked at. */
  lemma MatchAtIndexZeroAborts(entries: seq<RawExperience>, parent: string, position: string, now: YearMonth)
    requires |entries| > 0 && IsRecentMatch(entries, 0, parent, position, now)
    ensures ScanExperiences(entries, Some(parent), position, now) == Scan([], Some(TypeError))
  {
  }

  /** A recent match right after the head contributes nothing and does not stop the loop. */
  lemma MatchAtIndexOneIsSkipped(entries: seq<RawExperience>, parent: string, position: string, now: YearMonth)
    requires |entries| > 1 && !IsOngoing(entries[0]) && IsRecentMatch(entries, 1, parent, position, now)
    ensures ScanExperiences(entries, Some(parent), position, now) == ScanFrom(entries, 2, Some(parent), position, now)
  {
    assert ScanFrom(entries, 1, Some(parent), position, now) == ScanFrom(entries, 2, Some(parent), position, now);
  }

  /** A recent match whose previous entry is itself ongoing raises. */
  lemma OngoingPreviousEntryAborts(entries: seq<RawExperience>, i: int, parent: string,
                                   position: string, now: YearMonth)
    requires 2 <= i < |entries| && IsRecentMatch(entries, i, parent, position, now)
    requires IsOngoing(entries[i - 1])
    ensures ScanFrom(entries, i, Some(parent), position, now) == Scan([], Some(AttributeError))
  {
  }

  /** When no entry from `index` on raises, the loop runs to the end of the list. */
  lemma {:induction false} NoRaiseNoError(entries: seq<RawExperience>, index: int, parent: Option<string>,
                                          position: string, now: YearMonth)
    requires 0 <= index <= |entries|
    requires forall j :: index <= j < |entries| ==> InspectEntry(entries, j, parent, position, now).Success?
    ensures ScanFrom(entries, index, parent, position, now).error.None?
    decreases |entries| - index
  {
    if index < |entries| {
      NoRaiseNoError(entries, index + 1, parent, position, now);
    }
  }

  /** The first entry that raises ends the loop with its exception. */
  lemma {:induction false} FirstExceptionEndsScan(entries: seq<RawExperience>, index: int, i: int,
                                                  parent: Option<string>, position: string, now: YearMonth)
    requires 0 <= index <= i < |entries|
    requires forall j :: index <= j < i ==> InspectEntry(entries, j, parent, position, now).Success?
    requires InspectEntry(entries, i, parent, position, now).Failure?
    ensures ScanFrom(entries, index, parent, position, now).error == Some(InspectEntry(entries, i, parent, position, now).error)
    decreases i - index
  {
    if index < i {
      FirstExceptionEndsScan(entries, index + 1, i, parent, position, now);
    }
  }

  /** A record appended before a later entry raises stays in the output:
      the scan from `index` contains the scan from every later position. */
  lemma {:induction false} EarlierRecordsKept(entries: seq<RawExperience>, index: int, j: int,
                                              parent: Option<string>, position: string, now: YearMonth, rec: Experience)
    requires 0 <= index <= j < |entries|
    requires InspectEntry(entries, j, parent, position, now) == Success(Some(rec))
    requires forall k :: index <= k < j ==> InspectEntry(entries, k, parent, position, now).Success?
    ensures rec in ScanFrom(entries, index, parent, position, now).found
    decreases j - index
  {
    if index < j {
      EarlierRecordsKept(entries, index + 1, j, parent, position, now, rec);
      ScanStepKeepsRest(entries, index, parent, position, now);
    } else {
      ScanHeadEmitted(entries, j, parent, position, now, rec);
    }
  }

  /** An entry that emits a record puts it in the scan starting there. */
  lemma ScanHeadEmitted(entries: seq<RawExperience>, index: int, parent: Option<string>,
                        position: string, now: YearMonth, rec: Experience)
    requires 0 <= index < |entries|
    requires InspectEntry(entries, index, parent, position, now) == Success(Some(rec))
    ensures rec in ScanFrom(entries, index, parent, position, now).found
  {
    assert ScanFrom(entries, index, parent, position, now).found
        == [rec] + ScanFrom(entries, index + 1, parent, position, now).found;
  }

  /** An entry that does not raise keeps everything the rest of the scan finds. */
  lemma ScanStepKeepsRest(entries: seq<RawExperience>, index: int, parent: Option<string>,
                          position: string, now: YearMonth)
    requires 0 <= index < |entries|
    requires InspectEntry(entries, index, parent, position, now).Success?
    ensures forall x :: x in ScanFrom(entries, index + 1, parent, position, now).found ==>
              x in ScanFrom(entries, index, parent, position, now).found
  {
  }

  /** A newest-first list that starts with the ongoing Google role raises
      at index 0, so the profile contributes nothing, although the Acme
      entry follows it. */
  lemma NewestFirstListContributesNothing()
    ensures var google := RawExperience(Some("Google"), Some("Engineer"), None, None, Fields(Some(2024), Some(9)), Absent);
            var acme := RawExperience(Some("Acme"), Some("Developer"), None, None, Fields(Some(2020), Some(1)), Fields(Some(2024), Some(8)));
            ScanExperiences([google, acme], Some("Google"), "Engineer", YearMonth(2024, 12)) == Scan([], Some(TypeError))
  {
    var google := RawExperience(Some("Google"), Some("Engineer"), None, None, Fields(Some(2024), Some(9)), Absent);
    var acme := RawExperience(Some("Acme"), Some("Developer"), None, None, Fields(Some(2020), Some(1)), Fields(Some(2024), Some(8)));
    MatchAtIndexZeroAborts([google, acme], "Google", "Engineer", YearMonth(2024, 12));
  }

  /** The records one URL contributes: an exception in the URL parse or the
      profile fetch, or a falsy profile, contributes none. */
  function RecordsFor(source: ProfileSource, parent: Option<string>, position: string,
                      now: YearMonth, url: string): (r: seq<Experience>)
    ensures forall k :: 0 <= k < |r| ==> !r[k].isCurrent && r[k].end == Some(now)
  {
    if HasUnmatchedBracket(url) then []
    else match source(Username(url))
    case Failure(_) => []
    case Success(None) => []
    case Success(Some(p)) =>
      var found := ScanExperiences(p.experience.GetOr([]), parent, position, now).found;
      assert forall k :: 0 <= k < |found| ==> !found[k].isCurrent && found[k].end == Some(now) by {
        forall k | 0 <= k < |found| ensures !found[k].isCurrent && found[k].end == Some(now) {
          ScanSound(p.experience.GetOr([]), parent, position, now, found[k]);
        }
      }
      found
  }

  /** `RecordsFor` as a function of the URL alone. */
  function RecordsPerUrl(source: ProfileSource, parent: Option<string>, position: string,
                         now: YearMonth): string -> seq<Experience>
  {
    url => RecordsFor(source, parent, position, now, url)
  }

  /** `extract_company_employee_past_organization(parent, position, urls)`
      with the clock read as `now`: the records of every URL, in URL order. */
  function ExtractPastOrganizations(source: ProfileSource, parent: Option<string>, position: string,
                                    urls: seq<string>, now: YearMonth): (r: seq<Experience>)
    ensures forall k :: 0 <= k < |r| ==> !r[k].isCurrent && r[k].end == Some(now)
  {
    var r := Flatten(urls, RecordsPerUrl(source, parent, position, now));
    assert forall k :: 0 <= k < |r| ==> !r[k].isCurrent && r[k].end == Some(now) by {
      forall k | 0 <= k < |r| ensures !r[k].isCurrent && r[k].end == Some(now) {
        FlattenMember(urls, RecordsPerUrl(source, parent, position, now), r[k]);
      }
    }
    r
  }

  /** Every record is one of the records of some input URL. */
  lemma PastOrganizationOrigin(source: ProfileSource, parent: Option<string>, position: string,
                               urls: seq<string>, now: YearMonth, rec: Experience) returns (url: string)
    requires rec in ExtractPastOrganizations(source, parent, position, urls, now)
    ensures url in urls && rec in RecordsFor(source, parent, position, now, url)
  {
    FlattenMember(urls, RecordsPerUrl(source, parent, position, now), rec);
    var k :| 0 <= k < |urls| && rec in RecordsPerUrl(source, parent, position, now)(urls[k]);
    url := urls[k];
  }

  /** A record of one URL describes the entry before a recent ongoing target
      match at index 2 or later of that URL's profile. */
  lemma RecordsForOrigin(source: ProfileSource, parent: Option<string>, position: string,
                         now: YearMonth, url: string, rec: Experience) returns (p: RawProfile, i: int)
    requires rec in RecordsFor(source, parent, position, now, url)
    ensures !HasUnmatchedBracket(url)
    ensures source(Username(url)) == Success(Some(p)) && parent.Some?
    ensures var entries := p.experience.GetOr([]);
            && 2 <= i < |entries|
            && IsRecentMatch(entries, i, parent.value, position, now)
            && IsClosedEntry(entries[i - 1])
            && DescribesPrior(rec, entries[i - 1], now)
  {
    p := source(Username(url)).value.value;
    var entries := p.experience.GetOr([]);
    ScanSound(entries, parent, position, now, rec);
    i :| 2 <= i < |entries|
         && IsRecentMatch(entries, i, parent.value, position, now)
         && IsClosedEntry(entries[i - 1])
         && DescribesPrior(rec, entries[i - 1], now);
  }

  /** The records of a concatenation are those of each part, in order. */
  lemma ExtractPastOrganizationsAppend(source: ProfileSource, parent: Option<string>, position: string,
                                       a: seq<string>, b: seq<string>, now: YearMonth)
    ensures ExtractPastOrganizations(source, parent, position, a + b, now)
         == ExtractPastOrganizations(source, parent, position, a, now)
          + ExtractPastOrganizations(source, parent, position, b, now)
  {
    FlattenAppend(a, b, RecordsPerUrl(source, parent, position, now));
  }
}
