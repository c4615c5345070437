/** Calendar dates as used by the ledger: java.time.LocalDate and java.time.YearMonth. */
module Calendar {

  /** A LocalDate, as its (year, month, day) fields. */
  datatype Date = Date(year: int, month: int, day: int)

  /** A YearMonth, as its (year, month) fields. */
  datatype YearMonth = YearMonth(year: int, month: int)

  /** `YearMonth.from(d)`. */
  function MonthOf(d: Date): YearMonth {
    YearMonth(d.year, d.month)
  }

  /** `a.isEqual(b) || a.isBefore(b)`: LocalDate's chronological order is lexicographic on its fields. */
  predicate OnOrBefore(a: Date, b: Date) {
    a.year < b.year ||
    (a.year == b.year && (a.month < b.month || (a.month == b.month && a.day <= b.day)))
  }
}
