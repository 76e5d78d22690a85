/** `extract_candidate_data`: raw profiles to candidate records. */
module Normalizer {
  import opened Wrappers
  import opened Dates
  import opened Profiles
  import opened Urls
  import opened Seqs

  /** Whether an entry's end date carries a truthy year and a truthy month,
      the only case in which an end and a duration are recorded. */
  predicate HasEndMonth(e: RawExperience) {
    IntTruthy(e.endDate.Year()) && IntTruthy(e.endDate.Month())
  }

  /** The record for an entry once its dates are known; text fields default to `""`. */
  function ExperienceRecord(e: RawExperience, start: YearMonth, end: Option<YearMonth>,
                            isCurrent: bool, totalMonths: Option<int>): Experience
  {
    Experience(
      e.companyName.GetOr(""), e.title.GetOr(""), e.locationName.GetOr(""),
      start, end, isCurrent, e.companyLogoUrl.GetOr(""), totalMonths)
  }

  /** One pass of the experience loop. The end date is read through
      `endDate or None`, so a missing or empty one makes `end_date.get` raise;
      the start must be a valid date; the end and the duration are recorded
      only when the end has a truthy year and month. */
  function NormalizeExperience(e: RawExperience): (r: Result<Experience, Exception>)
    ensures !e.endDate.IsTruthy() ==> r == Failure(AttributeError)
    ensures r.Success? <==>
              && e.endDate.IsTruthy()
              && e.startDate.Year().Some? && e.startDate.Month().Some?
              && IsValidDate(YearMonth(e.startDate.Year().value, e.startDate.Month().value))
              && (HasEndMonth(e) ==> IsValidDate(YearMonth(e.endDate.Year().value, e.endDate.Month().value)))
    ensures r.Success? ==>
              && !r.value.isCurrent
              && r.value.start == YearMonth(e.startDate.Year().value, e.startDate.Month().value)
              && (r.value.end.Some? <==> HasEndMonth(e))
              && (r.value.totalMonths.Some? <==> HasEndMonth(e))
              && (HasEndMonth(e) ==>
                    && r.value.end.value == YearMonth(e.endDate.Year().value, e.endDate.Month().value)
                    && r.value.totalMonths.value == MonthIndex(r.value.end.value) - MonthIndex(r.value.start))
              && r.value.company == e.companyName.GetOr("")
              && r.value.title == e.title.GetOr("")
  {
    var endDate := e.endDate;
    if !endDate.IsTruthy() then Failure(AttributeError)
    else
      match MakeDate(e.startDate.Year(), e.startDate.Month())
      case Failure(err) => Failure(err)
      case Success(start) =>
        if IntTruthy(endDate.year) && IntTruthy(endDate.month) then
          match MakeDate(endDate.year, endDate.month)
          case Failure(err) => Failure(err)
          case Success(end) =>
            Success(ExperienceRecord(e, start, Some(end), !endDate.IsTruthy(), Some(MonthsBetween(start, end))))
        else
          Success(ExperienceRecord(e, start, None, !endDate.IsTruthy(), None))
  }

  /** The experience list and the `current_company` the loop leaves behind. */
  datatype ExperienceHistory = ExperienceHistory(records: seq<Experience>, current: Option<Experience>)

  /** The experience loop over a whole profile: records in source order; an
      entry with no end date becomes `current_company` (the last one wins);
      the first entry that raises aborts the loop. */
  function NormalizeExperiences(entries: seq<RawExperience>): (r: Result<ExperienceHistory, Exception>)
    ensures r.Success? <==> forall i :: 0 <= i < |entries| ==> NormalizeExperience(entries[i]).Success?
    ensures r.Success? ==>
              && |r.value.records| == |entries|
              && forall i :: 0 <= i < |entries| ==> r.value.records[i] == NormalizeExperience(entries[i]).value
    ensures r.Success? ==> r.value.current == None
  {
    if |entries| == 0 then Success(ExperienceHistory([], None))
    else
      var last := entries[|entries| - 1];
      match NormalizeExperiences(entries[..|entries| - 1])
      case Failure(err) => Failure(err)
      case Success(history) =>
        match NormalizeExperience(last)
        case Failure(err) => Failure(err)
        case Success(record) =>
          var current := if !last.endDate.IsTruthy() then Some(record) else history.current;
          Success(ExperienceHistory(history.records + [record], current))
  }

  function NormalizeEducation(e: RawEducation): Education
  {
    Education(e.schoolName.GetOr(""), e.degreeName.GetOr(""), e.startDate.Year(), e.endDate.Year())
  }

  /** A certificate is active when its end year is missing or falsy. */
  function NormalizeCertificate(c: RawCertification): Certificate
  {
    var endYear := c.endDate.Year();
    Certificate(c.name.GetOr(""), c.authority.GetOr(""), c.startDate.Year(), endYear,
                !IntTruthy(endYear), c.url.GetOr(""))
  }

  /** The candidate record for a fetched profile, or the exception that
      discards it. Only the experience loop can raise. */
  function NormalizeProfile(url: string, p: RawProfile): (r: Result<Candidate, Exception>)
    ensures r.Success? <==> NormalizeExperiences(p.experience.GetOr([])).Success?
    ensures r.Success? ==>
              && r.value.linkedinUrl == url
              && r.value.currentCompany == None
              && r.value.email == None && r.value.phone == None
              && |r.value.experience| == |p.experience.GetOr([])|
              && (forall i :: 0 <= i < |r.value.experience| ==>
                    r.value.experience[i] == NormalizeExperience(p.experience.GetOr([])[i]).value)
              && (forall i :: 0 <= i < |r.value.experience| ==> !r.value.experience[i].isCurrent)
              && |r.value.skills| == |p.skills.GetOr([])|
              && (forall i :: 0 <= i < |r.value.skills| ==> r.value.skills[i] == p.skills.GetOr([])[i].name.GetOr(""))
              && |r.value.education| == |p.education.GetOr([])|
              && (forall i :: 0 <= i < |r.value.education| ==>
                    r.value.education[i].school == p.education.GetOr([])[i].schoolName.GetOr("")
                    && r.value.education[i].endYear == p.education.GetOr([])[i].endDate.Year())
              && |r.value.certificates| == |p.certifications.GetOr([])|
              && (forall i :: 0 <= i < |r.value.certificates| ==>
                    r.value.certificates[i].isActive == !IntTruthy(p.certifications.GetOr([])[i].endDate.Year()))
              && r.value.firstName == p.firstName.GetOr("") && r.value.lastName == p.lastName.GetOr("")
              && r.value.isStudent == p.student.GetOr(false)
              && r.value.location == p.geoLocationName.GetOr("") + ", " + p.locationName.GetOr("")
  {
    match NormalizeExperiences(p.experience.GetOr([]))
    case Failure(err) => Failure(err)
    case Success(history) =>
      Success(Candidate(
        p.firstName.GetOr(""),
        p.lastName.GetOr(""),
        p.headline.GetOr(""),
        p.summary.GetOr(""),
        p.geoLocationName.GetOr("") + ", " + p.locationName.GetOr(""),
        Map(p.skills.GetOr([]), (s: RawSkill) => s.name.GetOr("")),
        Map(p.education.GetOr([]), NormalizeEducation),
        history.records,
        url,
        history.current,
        Map(p.certifications.GetOr([]), NormalizeCertificate),
        p.student.GetOr(false),
        None,
        None))
  }

  /** What every emitted candidate satisfies: no current company, no
      current job, no contact details. */
  predicate IsEmittable(c: Candidate) {
    && c.currentCompany.None?
    && c.email.None? && c.phone.None?
    && forall j :: 0 <= j < |c.experience| ==> !c.experience[j].isCurrent
  }

  /** One iteration of the URL loop: parse the URL and fetch the profile by
      username; an exception, a falsy answer or a failed normalisation yields
      nothing. */
  function CandidateFor(source: ProfileSource, url: string): (r: Option<Candidate>)
    ensures r.Some? ==> r.value.linkedinUrl == url && IsEmittable(r.value)
    ensures HasUnmatchedBracket(url) ==> r.None?
  {
    if HasUnmatchedBracket(url) then None
    else match source(Username(url))
    case Failure(_) => None
    case Success(None) => None
    case Success(Some(p)) => NormalizeProfile(url, p).ToOption()
  }

  /** `extract_candidate_data(urls)`: the candidates of the URLs whose profile
      could be fetched and normalised, in the order of the URLs. */
  function ExtractCandidateData(source: ProfileSource, urls: seq<string>): (r: seq<Candidate>)
    ensures |r| <= |urls|
    ensures forall k :: 0 <= k < |r| ==> r[k].linkedinUrl in urls
    ensures forall k :: 0 <= k < |r| ==> IsEmittable(r[k])
  {
    Collect(urls, url => CandidateFor(source, url))
  }

  /** The candidates of a concatenation are those of each part, in order. */
  lemma ExtractCandidateDataAppend(source: ProfileSource, a: seq<string>, b: seq<string>)
    ensures ExtractCandidateData(source, a + b) == ExtractCandidateData(source, a) + ExtractCandidateData(source, b)
  {
    CollectAppend(a, b, url => CandidateFor(source, url));
  }

  /** A URL whose profile is fetched and normalises contributes its candidate. */
  lemma ExtractCandidateDataComplete(source: ProfileSource, urls: seq<string>, i: int, p: RawProfile)
    requires 0 <= i < |urls|
    requires !HasUnmatchedBracket(urls[i])
    requires source(Username(urls[i])) == Success(Some(p))
    requires NormalizeProfile(urls[i], p).Success?
    ensures NormalizeProfile(urls[i], p).value in ExtractCandidateData(source, urls)
  {
    CollectComplete(urls, url => CandidateFor(source, url), i);
  }

  /** A single URL yields its own candidate or nothing. */
  lemma ExtractCandidateDataSingle(source: ProfileSource, url: string)
    ensures ExtractCandidateData(source, [url]) ==
              if CandidateFor(source, url).Some? then [CandidateFor(source, url).value] else []
  {
    CollectSingle(url, u => CandidateFor(source, u));
  }

  /** A URL that `urlparse` rejects is skipped without a fetch. */
  lemma UnparsableUrlSkipped(source: ProfileSource, url: string)
    requires HasUnmatchedBracket(url)
    ensures ExtractCandidateData(source, [url]) == []
  {
    ExtractCandidateDataSingle(source, url);
  }

  /** A profile with a job that has no end date never yields a candidate. */
  lemma OngoingJobDiscardsProfile(url: string, p: RawProfile, i: int)
    requires p.experience.Some? && 0 <= i < |p.experience.value|
    requires !p.experience.value[i].endDate.IsTruthy()
    ensures NormalizeProfile(url, p).Failure?
  {
  }

  /** A job without a start month discards the profile too. */
  lemma MissingStartMonthDiscardsProfile(url: string, p: RawProfile, i: int)
    requires p.experience.Some? && 0 <= i < |p.experience.value|
    requires p.experience.value[i].startDate.Month().None?
    ensures NormalizeProfile(url, p).Failure?
  {
  }

  /** A profile that has none of the keys read here normalises to empty fields. */
  lemma EmptyProfileNormalises(url: string)
    ensures var empty := RawProfile(None, None, None, None, None, None, None, None, None, None, None);
            NormalizeProfile(url, empty) == Success(Candidate(
              "", "", "", "", ", ", [], [], [], url, None, [], false, None, None))
  {
    var empty := RawProfile(None, None, None, None, None, None, None, None, None, None, None);
    assert "" + ", " + "" == ", ";
    var r := NormalizeProfile(url, empty);
    assert r.Success?;
    assert r.value.skills == [] && r.value.education == [] && r.value.certificates == [];
  }
}
