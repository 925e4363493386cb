/** The proleptic Gregorian calendar that java.time.YearMonth and Joda-Time's
    ISO chronology use to decide month lengths and reject impossible dates. */
module Calendar {

  /** Joda-Time's supported year range (ISOChronology). */
  const JodaMinYear := -292275054
  const JodaMaxYear := 292278993

  /** java.time.Year's supported range, checked by YearMonth.of. */
  const YearMonthMinYear := -999999999
  const YearMonthMaxYear := 999999999

  /** Gregorian leap year: divisible by 4, except centuries not divisible by 400.
      Dafny's `%` is Euclidean, which agrees with Java's `%` on whether a
      remainder is zero, so negative years follow the same rule. */
  predicate IsLeapYear(y: int) {
    y % 4 == 0 && (y % 100 != 0 || y % 400 == 0)
  }

  predicate IsMonth(m: int) {
    1 <= m <= 12
  }

  /** `YearMonth.of(y, m).lengthOfMonth()`. */
  function DaysInMonth(y: int, m: int): (d: int)
    requires IsMonth(m)
    ensures 28 <= d <= 31
    ensures m == 2 ==> (d == 29 <==> IsLeapYear(y))
    ensures m != 2 ==> (d == 30 <==> m in {4, 6, 9, 11})
  {
    if m == 2 then (if IsLeapYear(y) then 29 else 28)
    else if m == 4 || m == 6 || m == 9 || m == 11 then 30
    else 31
  }

  /** The calendar date of a parsed `DateTime` (its time of day is midnight). */
  datatype Date = Date(year: int, month: int, day: int)

  /** A (year, month, day) that Joda's `new DateTime(y, m, d, 0, 0)` accepts. */
  predicate IsValidDate(y: int, m: int, d: int) {
    JodaMinYear <= y <= JodaMaxYear && IsMonth(m) && 1 <= d <= DaysInMonth(y, m)
  }
}
