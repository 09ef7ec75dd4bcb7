/** Instants of Go's `time.Time`, as integers. */
module Time {

  /** Nanoseconds since 1970-01-01T00:00:00Z; comparisons are Go's `Before` and `After`. */
  type Instant = int

  const NanosPerDay: int := 86_400_000_000_000

  /** Days from 0000-03-01 to 1 March of year `y` of the proleptic Gregorian calendar: the
      calendar counted from March, so that 29 February is the last day of its year. */
  function MarchYearStart(y: int): int {
    var era := y / 400;
    var yearOfEra := y - era * 400;
    era * 146097 + yearOfEra * 365 + yearOfEra / 4 - yearOfEra / 100
  }

  /** Days from 1970-01-01 to the proleptic Gregorian date (year, month, day). The day is not
      limited to the month's length: day 31 of a 30-day month is the 1st of the next month,
      which is how `time.Date` normalises it. */
  function DaysFromCivil(year: int, month: int, day: int): int
    requires 1 <= month <= 12
  {
    var y := if month <= 2 then year - 1 else year;
    MarchYearStart(y) + DaysBeforeMonth(month) + day - 1 - 719468
  }

  /** Days from 1 March to the first of `month` in the March-based year. */
  function DaysBeforeMonth(month: int): int
    requires 1 <= month <= 12
  {
    if month == 3 then 0 else if month == 4 then 31 else if month == 5 then 61
    else if month == 6 then 92 else if month == 7 then 122 else if month == 8 then 153
    else if month == 9 then 184 else if month == 10 then 214 else if month == 11 then 245
    else if month == 12 then 275 else if month == 1 then 306 else 337
  }

  /** `time.Date(year, month, day, 0, 0, 0, 0, time.UTC)`. */
  function MidnightUTC(year: int, month: int, day: int): (t: Instant)
    requires 1 <= month <= 12
    ensures t % NanosPerDay == 0
  {
    DaysFromCivil(year, month, day) * NanosPerDay
  }

  /** Go's zero `time.Time{}`: 0001-01-01T00:00:00Z. */
  const ZeroTime: Instant := MidnightUTC(1, 1, 1)

  /** The Gregorian leap-year rule, the reference for the calendar lemmas below. */
  predicate IsLeapYear(y: int) {
    y % 4 == 0 && (y % 100 != 0 || y % 400 == 0)
  }

  function DaysInMonth(year: int, month: int): (n: int)
    requires 1 <= month <= 12
    ensures 28 <= n <= 31
  {
    if month == 2 then (if IsLeapYear(year) then 29 else 28)
    else if month == 4 || month == 6 || month == 9 || month == 11 then 30
    else 31
  }

  /** Day numbers of a few dates: the epoch, 2024-09-30, and 29 February of a common year,
      which `time.Date` turns into 1 March, next to that of a leap year, which it keeps. */
  lemma MidnightExamples()
    ensures MidnightUTC(1970, 1, 1) == 0
    ensures MidnightUTC(2024, 9, 30) == 19996 * NanosPerDay
    ensures DaysFromCivil(2023, 2, 29) == DaysFromCivil(2023, 3, 1)
    ensures DaysFromCivil(2024, 2, 29) + 1 == DaysFromCivil(2024, 3, 1)
  {
    assert DaysFromCivil(1970, 1, 1) == 0;
    assert DaysFromCivil(2024, 9, 30) == 19996;
    assert DaysFromCivil(2023, 2, 29) == 19417;
    assert DaysFromCivil(2023, 3, 1) == 19417;
    assert DaysFromCivil(2024, 2, 29) == 19782;
    assert DaysFromCivil(2024, 3, 1) == 19783;
  }

  /** Midnights of successive days of one month are one day apart. */
  lemma MidnightNextDay(year: int, month: int, day: int)
    requires 1 <= month <= 12
    ensures MidnightUTC(year, month, day + 1) == MidnightUTC(year, month, day) + NanosPerDay
  {
  }

  /** Day `day` of a month is `day - 1` days after its first, whatever the month's length. */
  lemma MidnightDayOfMonth(year: int, month: int, day: int)
    requires 1 <= month <= 12
    ensures MidnightUTC(year, month, day) == MidnightUTC(year, month, 1) + (day - 1) * NanosPerDay
  {
    assert DaysFromCivil(year, month, day) == DaysFromCivil(year, month, 1) + (day - 1);
  }

  lemma StepQuarter(x: int)
    ensures (x + 1) / 4 - x / 4 == if (x + 1) % 4 == 0 then 1 else 0
  {
  }

  lemma StepCentury(x: int)
    ensures (x + 1) / 100 - x / 100 == if (x + 1) % 100 == 0 then 1 else 0
  {
  }

  /** Adding whole eras keeps the year's place in the leap-year cycle. */
  lemma LeapOfEra(era: int, k: int)
    requires 0 <= k < 400
    ensures IsLeapYear(era * 400 + k) == IsLeapYear(k)
  {
    ShiftMod4(era * 100, k);
    ShiftMod100(era * 4, k);
    ShiftMod400(era, k);
  }

  lemma ShiftMod4(q: int, k: int)
    ensures (4 * q + k) % 4 == k % 4
  {
  }

  lemma ShiftMod100(q: int, k: int)
    ensures (100 * q + k) % 100 == k % 100
  {
  }

  lemma ShiftMod400(q: int, k: int)
    requires 0 <= k < 400
    ensures (400 * q + k) % 400 == k
  {
  }

  /** The March-based year that ends in February of `y + 1` has 366 days iff `y + 1` is a leap year. */
  lemma {:induction false} MarchYearLength(y: int)
    ensures MarchYearStart(y + 1) - MarchYearStart(y) == if IsLeapYear(y + 1) then 366 else 365
  {
    var era := y / 400;
    var yoe := y - era * 400;
    if yoe == 399 {
      assert (y + 1) / 400 == era + 1 && (y + 1) - (era + 1) * 400 == 0;
      LeapOfEra(era + 1, 0);
    } else {
      assert (y + 1) / 400 == era && (y + 1) - era * 400 == yoe + 1;
      StepQuarter(yoe);
      StepCentury(yoe);
      LeapOfEra(era, yoe + 1);
    }
  }

  /** The first of the next month is `DaysInMonth(year, month)` days after the first of this one. */
  lemma MidnightNextMonth(year: int, month: int)
    requires 1 <= month <= 12
    ensures var (y, m) := if month == 12 then (year + 1, 1) else (year, month + 1);
            MidnightUTC(y, m, 1) == MidnightUTC(year, month, 1) + DaysInMonth(year, month) * NanosPerDay
  {
    if month == 2 {
      MarchYearLength(year - 1);
    }
  }

  /** 1 January of the next year is 366 days after this year's if it is a leap year, else 365. */
  lemma MidnightNextYear(year: int)
    ensures MidnightUTC(year + 1, 1, 1) == MidnightUTC(year, 1, 1) + (if IsLeapYear(year) then 366 else 365) * NanosPerDay
  {
    MarchYearLength(year - 1);
  }
}
