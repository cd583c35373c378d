/** Dates and times of day, as java.time's LocalDate and LocalTime. */
module Calendar {

  /** A proleptic Gregorian date: month in 1..12, day of the month. */
  datatype Date = Date(year: int, month: int, day: int)

  /** A time of day, as its nanosecond of the day. */
  type Time = nat

  /** Chronological order on dates (`a.compareTo(b) <= 0`). */
  predicate DateLe(a: Date, b: Date) {
    || a.year < b.year
    || (a.year == b.year && (a.month < b.month || (a.month == b.month && a.day <= b.day)))
  }

  predicate IsLeapYear(year: int) {
    year % 4 == 0 && (year % 100 != 0 || year % 400 == 0)
  }

  /** LocalDate.lengthOfMonth. */
  function LengthOfMonth(year: int, month: int): (n: int)
    requires 1 <= month <= 12
    ensures 28 <= n <= 31
  {
    if month == 2 then (if IsLeapYear(year) then 29 else 28)
    else if month == 4 || month == 6 || month == 9 || month == 11 then 30
    else 31
  }

  /** The dates LocalDate can represent. */
  predicate ValidDate(d: Date) {
    1 <= d.month <= 12 && 1 <= d.day <= LengthOfMonth(d.year, d.month)
  }

  /** `today.withDayOfMonth(1)`. */
  function FirstOfMonth(today: Date): Date {
    Date(today.year, today.month, 1)
  }

  /** `today.withDayOfMonth(today.lengthOfMonth())`. */
  function LastOfMonth(today: Date): Date
    requires ValidDate(today)
  {
    Date(today.year, today.month, LengthOfMonth(today.year, today.month))
  }

  /**
   * Whether `d` lies in the inclusive window [first, last day] of the month
   * of `today`: for every real date this is "same year and same month".
   */
  function InMonthOf(d: Date, today: Date): (b: bool)
    requires ValidDate(today)
    ensures ValidDate(d) ==> (b <==> d.year == today.year && d.month == today.month)
  {
    DateLe(FirstOfMonth(today), d) && DateLe(d, LastOfMonth(today))
  }

  lemma DateLeTotal(a: Date, b: Date)
    ensures DateLe(a, b) || DateLe(b, a)
  {
  }

  lemma DateLeTransitive(a: Date, b: Date, c: Date)
    requires DateLe(a, b) && DateLe(b, c)
    ensures DateLe(a, c)
  {
  }

  lemma DateLeAntisymmetric(a: Date, b: Date)
    requires DateLe(a, b) && DateLe(b, a)
    ensures a == b
  {
  }
}
