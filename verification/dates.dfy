/** Year-and-month dates and the month arithmetic of the experience entries. */
module Dates {
  import opened Wrappers

  /** The first day of a month, as `datetime(year, month, 1)` stands for it. */
  datatype YearMonth = YearMonth(year: int, month: int)

  /** The dates `datetime` accepts: years 1 to 9999, months 1 to 12. */
  predicate IsValidDate(d: YearMonth) {
    1 <= d.year <= 9999 && 1 <= d.month <= 12
  }

  /** `datetime(year, month, 1)` with fields read from a profile: a missing field
      is a `TypeError`, an out-of-range one a `ValueError`. */
  function MakeDate(year: Option<int>, month: Option<int>): (r: Result<YearMonth, Exception>)
    ensures r.Success? <==> year.Some? && month.Some? && IsValidDate(YearMonth(year.value, month.value))
    ensures r.Success? ==> r.value.year == year.value && r.value.month == month.value
    ensures r.Failure? ==> (r.error == TypeError <==> year.None? || month.None?)
    ensures r.Failure? ==> r.error in {TypeError, ValueError}
  {
    if year.None? || month.None? then Failure(TypeError)
    else if !IsValidDate(YearMonth(year.value, month.value)) then Failure(ValueError)
    else Success(YearMonth(year.value, month.value))
  }

  /** `(end.year - start.year) * 12 + end.month - start.month`: the months from
      `start` to `end`, negative when `end` comes first. */
  function MonthsBetween(start: YearMonth, end: YearMonth): int
  {
    (end.year - start.year) * 12 + end.month - start.month
  }

  /** The position of a month on a single month-by-month time line. */
  function MonthIndex(d: YearMonth): int
  {
    d.year * 12 + (d.month - 1)
  }

  /** The month difference is the distance between the two months on the time line. */
  lemma MonthsBetweenIsDistance(start: YearMonth, end: YearMonth)
    ensures MonthsBetween(start, end) == MonthIndex(end) - MonthIndex(start)
  {
  }

  /** Swapping start and end negates the difference. */
  lemma MonthsBetweenAntisymmetric(a: YearMonth, b: YearMonth)
    ensures MonthsBetween(a, b) == -MonthsBetween(b, a)
  {
  }

  /** Differences add up along a chain of dates. */
  lemma MonthsBetweenAdditive(a: YearMonth, b: YearMonth, c: YearMonth)
    ensures MonthsBetween(a, b) + MonthsBetween(b, c) == MonthsBetween(a, c)
  {
  }

  /** Between valid dates, the difference is zero exactly for the same month
      and positive exactly when `end` is the later month. */
  lemma MonthsBetweenOrders(start: YearMonth, end: YearMonth)
    requires IsValidDate(start) && IsValidDate(end)
    ensures MonthsBetween(start, end) == 0 <==> start == end
    ensures MonthsBetween(start, end) > 0 <==>
              start.year < end.year || (start.year == end.year && start.month < end.month)
  {
  }
}
