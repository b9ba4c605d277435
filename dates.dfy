/** `yeardiff` of dougerino.py: the number of whole years from one date to
    another. Dates are given as values; the parsing of `m/d/Y` text by
    `strptime` is not part of this model. */
module Dates {
  import opened Values

  datatype Date = Date(year: int, month: int, day: int)

  /** `(m1, d1) < (m2, d2)` on Python tuples: by month, then by day. */
  predicate TupleLess(m1: int, d1: int, m2: int, d2: int)
  {
    m1 < m2 || (m1 == m2 && d1 < d2)
  }

  /** Calendar order: by year, then month, then day. */
  predicate OnOrBefore(a: Date, b: Date)
  {
    a.year < b.year || (a.year == b.year && (TupleLess(a.month, a.day, b.month, b.day) || (a.month, a.day) == (b.month, b.day)))
  }

  /** What `yeardiff(fromdate, todate)` returns for date values: reading
      `.year` of a missing date is an AttributeError. */
  function YearDiff(fromDate: Option<Date>, toDate: Option<Date>): (r: Result<int>)
    ensures r.Err? <==> fromDate.None? || toDate.None?
    ensures r.Err? ==> r.error == AttributeError
  {
    match (fromDate, toDate)
    case (Some(start), Some(end)) =>
      Ok(end.year - start.year - (if TupleLess(end.month, end.day, start.month, start.day) then 1 else 0))
    case _ => Err(AttributeError)
  }

  /** The anniversary `k` years after a date: same month and day. */
  function Anniversary(start: Date, k: int): Date
  {
    Date(start.year + k, start.month, start.day)
  }

  /** The difference is the number of anniversaries of the start that fall
      on or before the end: anniversary `k` is on or before the end exactly
      when `k` is at most the difference. */
  lemma YearDiffCountsAnniversaries(start: Date, end: Date, k: int)
    ensures YearDiff(Some(start), Some(end)).Ok?
    ensures k <= YearDiff(Some(start), Some(end)).value <==> OnOrBefore(Anniversary(start, k), end)
  {
  }

  /** The difference is never more than the difference of the years, and
      at most one less. */
  lemma YearDiffBounds(start: Date, end: Date)
    ensures YearDiff(Some(start), Some(end)).Ok?
    ensures end.year - start.year - 1 <= YearDiff(Some(start), Some(end)).value <= end.year - start.year
  {
  }
}
