/** The raw profile records the profile source returns and the normalised
    records the core emits. */
module Profiles {
  import opened Wrappers
  import opened Dates

  /** A `startDate`/`endDate` entry of a `timePeriod`: missing, present but
      empty (`{}`, falsy like a missing one), or a non-empty mapping whose
      `year` and `month` may each be missing. A missing `timePeriod` reads as
      both dates missing. */
  datatype DateDict = Absent | Empty | Fields(year: Option<int>, month: Option<int>) {

    /** Python truthiness of the mapping: only a non-empty one is truthy. */
    predicate IsTruthy() {
      Fields?
    }

    /** `d.get("year")`, with a missing mapping read as `{}`. */
    function Year(): Option<int> {
      if Fields? then year else None
    }

    /** `d.get("month")`, with a missing mapping read as `{}`. */
    function Month(): Option<int> {
      if Fields? then month else None
    }
  }

  datatype RawSkill = RawSkill(name: Option<string>)

  datatype RawEducation = RawEducation(
    schoolName: Option<string>,
    degreeName: Option<string>,
    startDate: DateDict,
    endDate: DateDict)

  datatype RawExperience = RawExperience(
    companyName: Option<string>,
    title: Option<string>,
    locationName: Option<string>,
    companyLogoUrl: Option<string>,
    startDate: DateDict,
    endDate: DateDict)

  datatype RawCertification = RawCertification(
    name: Option<string>,
    authority: Option<string>,
    url: Option<string>,
    startDate: DateDict,
    endDate: DateDict)

  /** A profile as the profile source returns it: every key may be missing. */
  datatype RawProfile = RawProfile(
    firstName: Option<string>,
    lastName: Option<string>,
    headline: Option<string>,
    summary: Option<string>,
    geoLocationName: Option<string>,
    locationName: Option<string>,
    student: Option<bool>,
    skills: Option<seq<RawSkill>>,
    education: Option<seq<RawEducation>>,
    experience: Option<seq<RawExperience>>,
    certifications: Option<seq<RawCertification>>)

  /** The profile source (`api.get_profile`): for a username, either an
      exception, a falsy answer (`None` or `{}`), or a profile. */
  type ProfileSource = string -> Result<Option<RawProfile>, Exception>

  datatype Education = Education(
    school: string,
    degree: string,
    startYear: Option<int>,
    endYear: Option<int>)

  /** A normalised experience entry; dates are the first days of months. */
  datatype Experience = Experience(
    company: string,
    title: string,
    location: string,
    start: YearMonth,
    end: Option<YearMonth>,
    isCurrent: bool,
    companyLogo: string,
    totalMonths: Option<int>)

  datatype Certificate = Certificate(
    name: string,
    platform: string,
    startYear: Option<int>,
    endYear: Option<int>,
    isActive: bool,
    certificateUrl: string)

  /** The candidate record emitted for one profile URL. */
  datatype Candidate = Candidate(
    firstName: string,
    lastName: string,
    headline: string,
    bio: string,
    location: string,
    skills: seq<string>,
    education: seq<Education>,
    experience: seq<Experience>,
    linkedinUrl: string,
    currentCompany: Option<Experience>,
    certificates: seq<Certificate>,
    isStudent: bool,
    email: Option<string>,
    phone: Option<string>)
}
