/** Calendar dates as java.time.LocalDate compares them. */
module Dates {

  /** A date given as year, month of the year and day of the month. */
  datatype Date = Date(year: int, month: int, day: int)

  /** `a` comes strictly before `b`: LocalDate.isBefore compares the year,
      then the month, then the day. */
  predicate IsBefore(a: Date, b: Date)
    ensures IsBefore(a, b) ==> a != b && a.year <= b.year
    ensures a.year != b.year ==> (IsBefore(a, b) <==> a.year < b.year)
  {
    || a.year < b.year
    || (a.year == b.year && a.month < b.month)
    || (a.year == b.year && a.month == b.month && a.day < b.day)
  }

  /** Month and day in the ranges a LocalDate allows. */
  ghost predicate WellFormed(d: Date)
  {
    1 <= d.month <= 12 && 1 <= d.day <= 31
  }

  /** A day count that leaves room for 31 days in every month: it grows with
      the date, so it is an independent measure to compare dates by. */
  function DayIndex(d: Date): int
  {
    (d.year * 12 + (d.month - 1)) * 31 + (d.day - 1)
  }

  /** Comparing field by field is the same as comparing day counts. */
  lemma IsBeforeIsDayOrder(a: Date, b: Date)
    requires WellFormed(a) && WellFormed(b)
    ensures IsBefore(a, b) <==> DayIndex(a) < DayIndex(b)
  {
    var ma := a.year * 12 + (a.month - 1);
    var mb := b.year * 12 + (b.month - 1);
    assert a.year < b.year ==> ma < mb;
    assert a.year > b.year ==> ma > mb;
    assert DayIndex(a) == ma * 31 + (a.day - 1);
    assert DayIndex(b) == mb * 31 + (b.day - 1);
    if ma < mb {
      assert ma * 31 + 31 <= mb * 31;
    } else if ma > mb {
      assert mb * 31 + 31 <= ma * 31;
    }
  }

  /** IsBefore is a strict total order on dates. */
  lemma IsBeforeStrictTotal(a: Date, b: Date, c: Date)
    ensures !IsBefore(a, a)
    ensures IsBefore(a, b) ==> !IsBefore(b, a)
    ensures IsBefore(a, b) && IsBefore(b, c) ==> IsBefore(a, c)
    ensures a != b ==> IsBefore(a, b) || IsBefore(b, a)
  {
  }
}
