/**
 * The proleptic Gregorian calendar behind JavaScript's `Date` getters (sections 21.4.1.3
 * to 21.4.1.12 of ECMA-262), at a fixed offset from UTC. Days count from 1 January 1970.
 */
module Calendar {
  predicate IsLeap(y: int) { y % 4 == 0 && (y % 100 != 0 || y % 400 == 0) }

  function DaysInYear(y: int): int { if IsLeap(y) then 366 else 365 }

  /** Day number of 1 January of year `y`. */
  function YearStart(y: int): int {
    365 * (y - 1970) + (y - 1969) / 4 - (y - 1901) / 100 + (y - 1601) / 400
  }

  /** Days of the year before month `m`; month 13 stands for the end of the year. */
  function DaysBefore(leap: bool, m: int): int
    requires 1 <= m <= 13
  {
    [0, 31, 59, 90, 120, 151, 181, 212, 243, 273, 304, 334, 365][m - 1] + (if leap && m > 2 then 1 else 0)
  }

  function MonthLength(leap: bool, m: int): int
    requires 1 <= m <= 12
  {
    DaysBefore(leap, m + 1) - DaysBefore(leap, m)
  }

  lemma CountFours(y: int)
    ensures (y - 1968) / 4 == (y - 1969) / 4 + if y % 4 == 0 then 1 else 0
  {
  }

  lemma CountHundreds(y: int)
    ensures (y - 1900) / 100 == (y - 1901) / 100 + if y % 100 == 0 then 1 else 0
  {
  }

  lemma CountFourHundreds(y: int)
    ensures (y - 1600) / 400 == (y - 1601) / 400 + if y % 400 == 0 then 1 else 0
    ensures y % 400 == 0 ==> y % 100 == 0
    ensures y % 100 == 0 ==> y % 4 == 0
  {
  }

  lemma YearStartNext(y: int)
    ensures YearStart(y + 1) == YearStart(y) + DaysInYear(y)
  {
    CountFours(y);
    CountHundreds(y);
    CountFourHundreds(y);
  }

  lemma {:induction false} YearStartMonotone(y: int, z: int)
    requires y <= z
    ensures YearStart(y) + 365 * (z - y) <= YearStart(z)
    decreases z - y
  {
    if y < z {
      YearStartMonotone(y, z - 1);
      YearStartNext(z - 1);
    }
  }

  /** The last year from `y` on that starts at or before the day. */
  function SearchYear(day: int, y: int): (r: int)
    requires YearStart(y) <= day
    ensures YearStart(r) <= day < YearStart(r + 1)
    decreases day - YearStart(y)
  {
    YearStartNext(y);
    if day < YearStart(y + 1) then y else SearchYear(day, y + 1)
  }

  function YearOf(day: int): (y: int)
    ensures YearStart(y) <= day < YearStart(y + 1)
  {
    if day >= 0 then SearchYear(day, 1970)
    else
      YearStartMonotone(1970 + day, 1970);
      SearchYear(day, 1970 + day)
  }

  function DayInYear(day: int): (d: int)
    ensures 0 <= d < DaysInYear(YearOf(day))
  {
    YearStartNext(YearOf(day));
    day - YearStart(YearOf(day))
  }

  /** The last month from `m` on that starts at or before a day of the year. */
  function SearchMonth(leap: bool, d: int, m: int): (r: int)
    requires 1 <= m <= 12 && DaysBefore(leap, m) <= d < (if leap then 366 else 365)
    ensures 1 <= r <= 12 && DaysBefore(leap, r) <= d < DaysBefore(leap, r + 1)
    decreases 12 - m
  {
    if m == 12 || d < DaysBefore(leap, m + 1) then m else SearchMonth(leap, d, m + 1)
  }

  function MonthOf(day: int): (m: int)
    ensures 1 <= m <= 12
  {
    SearchMonth(IsLeap(YearOf(day)), DayInYear(day), 1)
  }

  lemma MonthLengthBound(leap: bool, m: int)
    requires 1 <= m <= 12
    ensures 28 <= MonthLength(leap, m) <= 31
  {
  }

  function DateOf(day: int): (d: int)
    ensures 1 <= d <= MonthLength(IsLeap(YearOf(day)), MonthOf(day))
  {
    DayInYear(day) - DaysBefore(IsLeap(YearOf(day)), MonthOf(day)) + 1
  }

  /** 0 is Sunday. */
  function WeekdayOf(day: int): (w: int)
    ensures 0 <= w <= 6
  {
    (day + 4) % 7
  }

  predicate ValidDate(y: int, m: int, d: int) {
    1 <= m <= 12 && 1 <= d <= MonthLength(IsLeap(y), m)
  }

  function DayNumber(y: int, m: int, d: int): int
    requires ValidDate(y, m, d)
  {
    YearStart(y) + DaysBefore(IsLeap(y), m) + d - 1
  }

  lemma YearIsUnique(day: int, y: int)
    requires YearStart(y) <= day < YearStart(y + 1)
    ensures YearOf(day) == y
  {
    hide YearStart, YearOf;
    var z := YearOf(day);
    if z < y {
      YearStartMonotone(z + 1, y);
    } else if y < z {
      YearStartMonotone(y + 1, z);
    }
  }

  lemma DaysBeforeMonotone(leap: bool, m: int, n: int)
    requires 1 <= m <= n <= 13
    ensures DaysBefore(leap, m) + 28 * (n - m) <= DaysBefore(leap, n)
  {
  }

  lemma MonthIsUnique(leap: bool, d: int, m: int)
    requires 1 <= m <= 12 && DaysBefore(leap, m) <= d < DaysBefore(leap, m + 1) && 0 <= d < (if leap then 366 else 365)
    ensures SearchMonth(leap, d, 1) == m
  {
    hide DaysBefore;
    assert DaysBefore(leap, 1) == 0 by { FirstMonth(leap); }
    var r := SearchMonth(leap, d, 1);
    if r < m {
      DaysBeforeMonotone(leap, r + 1, m);
    } else if m < r {
      DaysBeforeMonotone(leap, m + 1, r);
    }
  }

  lemma FirstMonth(leap: bool)
    ensures DaysBefore(leap, 1) == 0 && DaysBefore(leap, 13) == if leap then 366 else 365
  {
  }

  /** Reading a date back from its day number. */
  lemma DateOfDayNumber(y: int, m: int, d: int)
    requires ValidDate(y, m, d)
    ensures var day := DayNumber(y, m, d); YearOf(day) == y && MonthOf(day) == m && DateOf(day) == d
  {
    hide DaysBefore, YearStart;
    var day := DayNumber(y, m, d);
    var leap := IsLeap(y);
    FirstMonth(leap);
    DaysBeforeMonotone(leap, 1, m);
    DaysBeforeMonotone(leap, m + 1, 13);
    YearStartNext(y);
    YearIsUnique(day, y);
    MonthIsUnique(leap, DayInYear(day), m);
  }

  /** Every day has exactly one date, and it is a valid one. */
  lemma DayNumberOfDate(day: int)
    ensures ValidDate(YearOf(day), MonthOf(day), DateOf(day))
    ensures DayNumber(YearOf(day), MonthOf(day), DateOf(day)) == day
  {
  }

  /** The dates that exist in every year. */
  predicate EveryYear(m: int, d: int) {
    1 <= m <= 12 && 1 <= d <= MonthLength(false, m)
  }

  lemma EveryYearIsValid(y: int, m: int, d: int)
    requires EveryYear(m, d)
    ensures ValidDate(y, m, d)
  {
  }

  /** Any other date is 29 February or does not exist at all. */
  lemma NotEveryYear(day: int)
    requires !EveryYear(MonthOf(day), DateOf(day))
    ensures MonthOf(day) == 2 && DateOf(day) == 29 && IsLeap(YearOf(day))
  {
    DayNumberOfDate(day);
  }

  // ----- The calendar as one reads it -------------------------------------------------------------

  /** Thirty days hath September. */
  function CivilLength(y: int, m: int): int
    requires 1 <= m <= 12
  {
    if m == 2 then (if y % 400 == 0 || (y % 4 == 0 && y % 100 != 0) then 29 else 28)
    else if m == 4 || m == 6 || m == 9 || m == 11 then 30
    else 31
  }

  datatype Date = Date(year: int, month: int, day: int)

  /** The date of the following day. */
  function Tomorrow(a: Date): Date
    requires 1 <= a.month <= 12
  {
    if a.day < CivilLength(a.year, a.month) then Date(a.year, a.month, a.day + 1)
    else if a.month < 12 then Date(a.year, a.month + 1, 1)
    else Date(a.year + 1, 1, 1)
  }

  lemma LengthIsCivil(y: int, m: int)
    requires 1 <= m <= 12
    ensures MonthLength(IsLeap(y), m) == CivilLength(y, m)
  {
  }

  /**
   * Day 0 is 1 January 1970, a date is valid if its month has that many days, and each day has the
   * number after its predecessor's. So every date has the number of days from that one.
   */
  lemma DaysAreCounted(a: Date)
    ensures ValidDate(1970, 1, 1) && DayNumber(1970, 1, 1) == 0
    ensures ValidDate(a.year, a.month, a.day) <==> 1 <= a.month <= 12 && 1 <= a.day <= CivilLength(a.year, a.month)
    ensures ValidDate(a.year, a.month, a.day) ==>
              var b := Tomorrow(a);
              ValidDate(b.year, b.month, b.day) && DayNumber(b.year, b.month, b.day) == DayNumber(a.year, a.month, a.day) + 1
  {
    assert ValidDate(1970, 1, 1) && DayNumber(1970, 1, 1) == 0;
    if 1 <= a.month <= 12 {
      LengthIsCivil(a.year, a.month);
      if ValidDate(a.year, a.month, a.day) {
        hide CivilLength;
        NextDay(a);
      }
    }
  }

  lemma NextDay(a: Date)
    requires ValidDate(a.year, a.month, a.day)
    ensures var b := Tomorrow(a);
            ValidDate(b.year, b.month, b.day) && DayNumber(b.year, b.month, b.day) == DayNumber(a.year, a.month, a.day) + 1
  {
    LengthIsCivil(a.year, a.month);
    hide CivilLength, DaysBefore, YearStart, IsLeap;
    FirstMonth(IsLeap(a.year));
    FirstMonth(IsLeap(a.year + 1));
    YearStartNext(a.year);
    if a.day == CivilLength(a.year, a.month) {
      MonthLengthBound(IsLeap(a.year), if a.month < 12 then a.month + 1 else 1);
      MonthLengthBound(IsLeap(a.year + 1), 1);
    }
  }

  /** Day 0 was a Thursday, and the weekdays follow each other. */
  lemma WeekdaysAreCounted(day: int)
    ensures WeekdayOf(DayNumber(1970, 1, 1)) == 4
    ensures WeekdayOf(day + 1) == if WeekdayOf(day) == 6 then 0 else WeekdayOf(day) + 1
  {
  }

  /** The weekday is the number of days since a Sunday, 4 January 1970, whole weeks left out. */
  lemma DaysSinceSunday(day: int)
    ensures WeekdayOf(day) == (day - DayNumber(1970, 1, 4)) % 7
  {
  }
}
