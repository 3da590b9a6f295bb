/**
 * Dates of the proleptic Gregorian calendar as Python's `datetime.date` counts
 * them: month lengths, leap years, and stepping one day back or forward.
 */
module Calendar {
  datatype Date = Date(year: int, month: int, day: int)

  predicate IsLeap(y: int) {
    y % 4 == 0 && (y % 100 != 0 || y % 400 == 0)
  }

  /** The number of days in month `m` of year `y` (31 for a month out of range). */
  function DaysInMonth(y: int, m: int): (n: int)
    ensures 28 <= n <= 31
    ensures n == 29 <==> m == 2 && IsLeap(y)
    ensures n == 28 <==> m == 2 && !IsLeap(y)
  {
    if m == 2 then (if IsLeap(y) then 29 else 28)
    else if m == 4 || m == 6 || m == 9 || m == 11 then 30
    else 31
  }

  /** Every month has at most as many days as the same month of a leap year. */
  lemma LeapMonthLongest(y: int, m: int)
    ensures DaysInMonth(y, m) <= DaysInMonth(2000, m)
  {
    assert IsLeap(2000);
  }

  predicate ValidDate(dt: Date) {
    1 <= dt.month <= 12 && 1 <= dt.day <= DaysInMonth(dt.year, dt.month)
  }

  /** `dt - timedelta(days=1)`. */
  function PrevDay(dt: Date): (r: Date)
    ensures ValidDate(dt) ==> ValidDate(r)
  {
    if dt.day > 1 then Date(dt.year, dt.month, dt.day - 1)
    else if dt.month > 1 then Date(dt.year, dt.month - 1, DaysInMonth(dt.year, dt.month - 1))
    else Date(dt.year - 1, 12, 31)
  }

  /** `dt + timedelta(days=1)`. */
  function NextDay(dt: Date): (r: Date)
    ensures ValidDate(dt) ==> ValidDate(r)
  {
    if dt.day < DaysInMonth(dt.year, dt.month) then Date(dt.year, dt.month, dt.day + 1)
    else if dt.month < 12 then Date(dt.year, dt.month + 1, 1)
    else Date(dt.year + 1, 1, 1)
  }

  /** Stepping back and then forward, or forward and then back, returns to the same date. */
  lemma PrevNextInverse(dt: Date)
    requires ValidDate(dt)
    ensures NextDay(PrevDay(dt)) == dt
    ensures PrevDay(NextDay(dt)) == dt
  {
  }

  /** The day before is always a different date, and a different day-and-month. */
  lemma PrevDayDiffers(dt: Date)
    requires ValidDate(dt)
    ensures (PrevDay(dt).day, PrevDay(dt).month) != (dt.day, dt.month)
  {
  }
}
