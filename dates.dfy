/** An abstract calendar instant. The database extracts `$year` and `$month`
    from a stored date, and the services compare dates with `$gte`, `$lte`
    and sort on them; time zones are not modelled. */
module Dates {

  /** `millis` is the time of day in milliseconds. */
  datatype Date = Date(year: int, month: int, day: int, millis: int)

  /** Chronological order: `a` is not later than `b`. */
  predicate Le(a: Date, b: Date)
  {
    || a.year < b.year
    || (a.year == b.year && a.month < b.month)
    || (a.year == b.year && a.month == b.month && a.day < b.day)
    || (a.year == b.year && a.month == b.month && a.day == b.day && a.millis <= b.millis)
  }

  lemma LeTotal(a: Date, b: Date)
    ensures Le(a, b) || Le(b, a)
  {
  }

  lemma LeTransitive(a: Date, b: Date, c: Date)
    requires Le(a, b) && Le(b, c)
    ensures Le(a, c)
  {
  }
}
