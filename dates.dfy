/** Calendar dates as the readers hold them: a (year, month, day) triple in calendar order,
  * within the range the date library represents. */
module Dates {
  datatype Date = Date(year: int, month: nat, day: nat)

  /** Calendar order of dates. */
  predicate DateLe(a: Date, b: Date)
  {
    a.year < b.year || (a.year == b.year && (a.month < b.month || (a.month == b.month && a.day <= b.day)))
  }

  function MinDate(a: Date, b: Date): (r: Date)
    ensures DateLe(r, a) && DateLe(r, b) && (r == a || r == b)
  {
    if DateLe(a, b) then a else b
  }

  function MaxDate(a: Date, b: Date): (r: Date)
    ensures DateLe(a, r) && DateLe(b, r) && (r == a || r == b)
  {
    if DateLe(a, b) then b else a
  }

  /** The first and last dates the date library represents. */
  const MinimumDate := Date(-262144, 1, 1)
  const MaximumDate := Date(262143, 12, 31)

  predicate Representable(d: Date)
  {
    DateLe(MinimumDate, d) && DateLe(d, MaximumDate)
  }
}
