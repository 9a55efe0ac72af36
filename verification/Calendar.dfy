/** Proleptic Gregorian dates, as java.time.LocalDate counts them.

    `EpochDay` numbers the days from 1970-01-01 (day 0). The next-day lemmas
    check it against the calendar itself: each valid date is followed, one
    epoch day later, by the next day of its month, the first of the next month
    or New Year's Day. Day counts between dates (ChronoUnit.DAYS.between) are
    differences of epoch days. */
module Calendar {

  datatype Date = Date(year: int, month: int, day: int)

  predicate IsLeapYear(y: int)
  {
    y % 4 == 0 && (y % 100 != 0 || y % 400 == 0)
  }

  function DaysInMonth(y: int, m: int): (n: int)
    requires 1 <= m <= 12
    ensures 28 <= n <= 31
    ensures n == 29 <==> m == 2 && IsLeapYear(y)
  {
    if m == 2 then (if IsLeapYear(y) then 29 else 28)
    else if m == 4 || m == 6 || m == 9 || m == 11 then 30
    else 31
  }

  predicate Valid(d: Date)
  {
    1 <= d.month <= 12 && 1 <= d.day <= DaysInMonth(d.year, d.month)
  }

  /** The days from 1 March of year 0 to 1 March of year `y` (a year here runs
      from March to February, so that the leap day ends it). */
  function MarchYears(y: int): int
  {
    var era := y / 400;
    var yoe := y % 400;
    era * 146097 + yoe * 365 + yoe / 4 - yoe / 100
  }

  /** The days from 1 March to the first of month `m`, for the months of a
      March-to-February year. */
  function DaysBeforeMonth(m: int): int
  {
    var mp := if m > 2 then m - 3 else m + 9;
    (153 * mp + 2) / 5
  }

  /** LocalDate.toEpochDay. */
  function EpochDay(d: Date): int
  {
    var y := if d.month <= 2 then d.year - 1 else d.year;
    MarchYears(y) + DaysBeforeMonth(d.month) + d.day - 1 - 719468
  }

  /** ChronoUnit.DAYS.between(from, to). */
  function DaysBetween(from: Date, to: Date): int
  {
    EpochDay(to) - EpochDay(from)
  }

  /** A March-to-February year has 366 days exactly when the February it ends
      with has a 29th. */
  lemma MarchYearLength(y: int)
    ensures MarchYears(y) - MarchYears(y - 1) == (if IsLeapYear(y) then 366 else 365)
  {
    var era, yoe := y / 400, y % 400;
    assert y == 400 * era + yoe && 0 <= yoe < 400;
    LeapWithinEra(y, era, yoe);
    if yoe == 0 {
      EraSplit(y - 1, era - 1, 399);
      assert MarchYears(y - 1) == era * 146097 - 366;
    } else {
      EraSplit(y - 1, era, yoe - 1);
      YearOfEraStep(yoe);
    }
  }

  /** Quotient and remainder by 400 are the era and the year within it. */
  lemma EraSplit(x: int, era: int, yoe: int)
    requires x == 400 * era + yoe && 0 <= yoe < 400
    ensures x / 400 == era && x % 400 == yoe
  {
  }

  /** Within an era, a year adds a day for every fourth year and takes one back
      for every hundredth. */
  lemma YearOfEraStep(yoe: int)
    requires 1 <= yoe < 400
    ensures (yoe / 4 - (yoe - 1) / 4) == (if yoe % 4 == 0 then 1 else 0)
    ensures (yoe / 100 - (yoe - 1) / 100) == (if yoe % 100 == 0 then 1 else 0)
    ensures yoe % 100 == 0 ==> yoe % 4 == 0
  {
    var c := yoe / 100;
    assert yoe == 100 * c + yoe % 100;
    assert yoe % 100 == 0 ==> yoe == 4 * (25 * c);
  }

  /** Removing whole eras leaves the year's remainders by 4 and by 100, so
      whether it is a leap year is read off the year within the era. */
  lemma LeapWithinEra(y: int, era: int, yoe: int)
    requires y == 400 * era + yoe && 0 <= yoe < 400
    ensures y % 400 == yoe
    ensures IsLeapYear(y) <==> (yoe == 0 || (yoe % 4 == 0 && yoe % 100 != 0))
  {
    EraSplit(y, era, yoe);
    ShiftByFours(100 * era, yoe);
    ShiftByHundreds(4 * era, yoe);
  }

  lemma ShiftByFours(k: int, a: int)
    ensures (4 * k + a) % 4 == a % 4
  {
  }

  lemma ShiftByHundreds(k: int, a: int)
    ensures (100 * k + a) % 100 == a % 100
  {
  }

  lemma DayAfterWithinMonth(d: Date)
    requires Valid(d) && d.day < DaysInMonth(d.year, d.month)
    ensures Valid(Date(d.year, d.month, d.day + 1))
    ensures EpochDay(Date(d.year, d.month, d.day + 1)) == EpochDay(d) + 1
  {
  }

  lemma DayAfterMonthEnd(y: int, m: int)
    requires 1 <= m < 12
    ensures Valid(Date(y, m + 1, 1))
    ensures EpochDay(Date(y, m + 1, 1)) == EpochDay(Date(y, m, DaysInMonth(y, m))) + 1
  {
    if m == 2 {
      MarchYearLength(y);
    }
  }

  lemma DayAfterYearEnd(y: int)
    ensures Valid(Date(y + 1, 1, 1)) && Valid(Date(y, 12, 31))
    ensures EpochDay(Date(y + 1, 1, 1)) == EpochDay(Date(y, 12, 31)) + 1
  {
  }

  /** The day after a valid date, by the calendar's rules. */
  function NextDay(d: Date): (n: Date)
    requires Valid(d)
    ensures Valid(n)
    ensures n.year == d.year || (n.year == d.year + 1 && n.month == 1 && n.day == 1)
  {
    if d.day < DaysInMonth(d.year, d.month) then Date(d.year, d.month, d.day + 1)
    else if d.month < 12 then Date(d.year, d.month + 1, 1)
    else Date(d.year + 1, 1, 1)
  }

  /** The epoch-day count agrees with the calendar: the next day is one epoch day later. */
  lemma NextDayIsOneLater(d: Date)
    requires Valid(d)
    ensures EpochDay(NextDay(d)) == EpochDay(d) + 1
  {
    if d.day < DaysInMonth(d.year, d.month) {
      DayAfterWithinMonth(d);
    } else if d.month < 12 {
      DayAfterMonthEnd(d.year, d.month);
    } else {
      DayAfterYearEnd(d.year);
    }
  }

  /** The epoch begins on 1 January 1970. */
  lemma EpochStart()
    ensures EpochDay(Date(1970, 1, 1)) == 0
  {
  }

  /** Java's narrowing cast from long to int: the value modulo 2^32, read as
      a signed 32-bit number. */
  function ToInt32(x: int): (r: int)
    ensures -0x8000_0000 <= r < 0x8000_0000
    ensures (r - x) % 0x1_0000_0000 == 0
    ensures -0x8000_0000 <= x < 0x8000_0000 ==> r == x
  {
    (x + 0x8000_0000) % 0x1_0000_0000 - 0x8000_0000
  }
}
