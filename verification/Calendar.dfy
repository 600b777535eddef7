/**
  The proleptic Gregorian calendar on millisecond instants, as section 21.4.1 of ECMA-262
  defines it: splitting an instant into fields and making an instant from fields.
  */
module Calendar {

  const MS_PER_DAY: int := 86_400_000
  const MS_PER_HOUR: int := 3_600_000
  const MS_PER_MINUTE: int := 60_000

  /** Months count from 0, dates from 1. */
  datatype DateFields = DateFields(year: int, month: int, date: int, hour: int, minute: int, second: int, ms: int)

  predicate Leap(y: int)
  {
    y % 4 == 0 && (y % 100 != 0 || y % 400 == 0)
  }

  /** The number of the first day of year y, counted from 1 January 1970. */
  function DayFromYear(y: int): int
  {
    365 * (y - 1970) + (y - 1969) / 4 - (y - 1901) / 100 + (y - 1601) / 400
  }

  function DaysInYear(y: int): int
  {
    if Leap(y) then 366 else 365
  }

  lemma EveryFourth(y: int)
    ensures (y - 1968) / 4 - (y - 1969) / 4 == if y % 4 == 0 then 1 else 0
  {}

  lemma EveryHundredth(y: int)
    ensures (y - 1900) / 100 - (y - 1901) / 100 == if y % 100 == 0 then 1 else 0
  {}

  lemma EveryFourHundredth(y: int)
    ensures (y - 1600) / 400 - (y - 1601) / 400 == if y % 400 == 0 then 1 else 0
  {}

  lemma FourHundreds(y: int)
    requires y % 400 == 0
    ensures y % 100 == 0
  {}

  lemma Hundreds(y: int)
    requires y % 100 == 0
    ensures y % 4 == 0
  {}

  /** Consecutive years start as many days apart as the leap rule says. */
  lemma YearLength(y: int)
    ensures DayFromYear(y + 1) - DayFromYear(y) == DaysInYear(y)
  {
    EveryFourth(y);
    EveryHundredth(y);
    EveryFourHundredth(y);
    if y % 400 == 0 {
      FourHundreds(y);
    }
    if y % 100 == 0 {
      Hundreds(y);
    }
  }

  lemma {:induction false} YearsGrow(y: int, z: int)
    requires y <= z
    ensures DayFromYear(y) + 365 * (z - y) <= DayFromYear(z)
    decreases z - y
  {
    if y < z {
      YearsGrow(y, z - 1);
      YearLength(z - 1);
    }
  }

  /** The year a day lies in, searched for from year `from`. */
  function SearchYear(day: int, from: int): (y: int)
    ensures DayFromYear(y) <= day < DayFromYear(y + 1)
    decreases day < DayFromYear(from),
              if day < DayFromYear(from) then DayFromYear(from) - day else day - DayFromYear(from)
  {
    YearLength(from);
    YearLength(from - 1);
    if day < DayFromYear(from) then SearchYear(day, from - 1)
    else if DayFromYear(from + 1) <= day then SearchYear(day, from + 1)
    else from
  }

  function YearFromDay(day: int): int
  {
    SearchYear(day, 1970)
  }

  /** No other year starts on or before the day and ends after it. */
  lemma YearIsUnique(day: int, y: int)
    requires DayFromYear(y) <= day < DayFromYear(y + 1)
    ensures YearFromDay(day) == y
  {
    var z := YearFromDay(day);
    if z < y {
      YearsGrow(z + 1, y);
    } else if y < z {
      YearsGrow(y + 1, z);
    }
  }

  /** Days of the year before month m; month 12 is the end of the year. */
  function MonthStart(m: int, leap: bool): int
    requires 0 <= m <= 12
  {
    var extra := if leap then 1 else 0;
    match m
    case 0 => 0
    case 1 => 31
    case 2 => 59 + extra
    case 3 => 90 + extra
    case 4 => 120 + extra
    case 5 => 151 + extra
    case 6 => 181 + extra
    case 7 => 212 + extra
    case 8 => 243 + extra
    case 9 => 273 + extra
    case 10 => 304 + extra
    case 11 => 334 + extra
    case _ => 365 + extra
  }

  /** The month that day `d` of a year lies in. */
  function MonthFromDay(d: int, leap: bool): (m: int)
    requires 0 <= d < MonthStart(12, leap)
    ensures 0 <= m <= 11 && MonthStart(m, leap) <= d < MonthStart(m + 1, leap)
  {
    if d < MonthStart(1, leap) then 0
    else if d < MonthStart(2, leap) then 1
    else if d < MonthStart(3, leap) then 2
    else if d < MonthStart(4, leap) then 3
    else if d < MonthStart(5, leap) then 4
    else if d < MonthStart(6, leap) then 5
    else if d < MonthStart(7, leap) then 6
    else if d < MonthStart(8, leap) then 7
    else if d < MonthStart(9, leap) then 8
    else if d < MonthStart(10, leap) then 9
    else if d < MonthStart(11, leap) then 10
    else 11
  }

  /** The year, month and date of a day number. */
  function DateFromDay(day: int): (int, int, int)
  {
    var year := YearFromDay(day);
    YearLength(year);
    var month := MonthFromDay(day - DayFromYear(year), Leap(year));
    (year, month, day - DayFromYear(year) - MonthStart(month, Leap(year)) + 1)
  }

  function FieldsFrom(date: (int, int, int), rest: int): DateFields
  {
    DateFields(date.0, date.1, date.2, rest / MS_PER_HOUR, rest / MS_PER_MINUTE % 60, rest / 1000 % 60, rest % 1000)
  }

  /** The UTC fields of an instant. */
  function FieldsOf(t: int): DateFields
  {
    FieldsFrom(DateFromDay(t / MS_PER_DAY), t % MS_PER_DAY)
  }

  lemma FieldsAreValid(t: int)
    ensures ValidFields(FieldsOf(t))
  {
    DateIsValid(t / MS_PER_DAY);
  }

  lemma DateIsValid(day: int)
    ensures var (year, month, date) := DateFromDay(day);
            0 <= month <= 11 && 1 <= date <= MonthStart(month + 1, Leap(year)) - MonthStart(month, Leap(year))
  {}

  predicate IsDate(year: int, month: int, date: int)
    requires 0 <= month <= 11
  {
    1 <= date <= MonthStart(month + 1, Leap(year)) - MonthStart(month, Leap(year))
  }

  /** DateFields that name a date and a time of day that exist. */
  predicate ValidFields(f: DateFields)
  {
    && 0 <= f.month <= 11 && 1 <= f.date <= 31 && IsDate(f.year, f.month, f.date)
    && 0 <= f.hour <= 23 && 0 <= f.minute <= 59 && 0 <= f.second <= 59 && 0 <= f.ms <= 999
  }

  /** The day number of a year, month and date; months and dates out of range carry over. */
  function MakeDay(year: int, month: int, date: int): int
  {
    var y, m := year + month / 12, month % 12;
    DayFromYear(y) + MonthStart(m, Leap(y)) + date - 1
  }

  function MakeInstant(f: DateFields): int
  {
    MakeDay(f.year, f.month, f.date) * MS_PER_DAY
    + TimeOfDay(f.hour, f.minute, f.second, f.ms)
  }

  function TimeOfDay(hour: int, minute: int, second: int, ms: int): int
  {
    hour * MS_PER_HOUR + minute * MS_PER_MINUTE + second * 1000 + ms
  }

  lemma TimeSplits(rest: int)
    requires 0 <= rest < MS_PER_DAY
    ensures TimeOfDay(rest / MS_PER_HOUR, rest / MS_PER_MINUTE % 60, rest / 1000 % 60, rest % 1000) == rest
  {}

  /** The lengths of the months, by the rule every calendar gives. */
  lemma MonthLengths(m: int, leap: bool)
    requires 0 <= m <= 11
    ensures MonthStart(m + 1, leap) - MonthStart(m, leap) ==
              if m == 1 then (if leap then 29 else 28) else if m in {3, 5, 8, 10} then 30 else 31
    ensures MonthStart(0, leap) == 0
  {}

  /** The count of days begins on 1 January 1970; 2000 is a leap year and 1900 is not. */
  lemma EpochDay()
    ensures MakeDay(1970, 0, 1) == 0 && Leap(2000) && Leap(2024) && !Leap(1900) && !Leap(2023)
  {}

  /** Putting a day's year, month and date together gives the day back. */
  lemma MakeOfDate(day: int)
    ensures var (year, month, date) := DateFromDay(day); MakeDay(year, month, date) == day
  {
    var (year, month, date) := DateFromDay(day);
    MonthInYear(year, month, date);
  }

  /** Putting the fields of an instant together gives the instant back. */
  lemma MakeOfFields(t: int)
    ensures MakeInstant(FieldsOf(t)) == t
  {
    MakeOfDate(t / MS_PER_DAY);
    TimeSplits(t % MS_PER_DAY);
  }

  /** The year, month and date of a day that lies in them. */
  lemma DayLiesIn(day: int, year: int, month: int)
    requires 0 <= month <= 11
    requires DayFromYear(year) + MonthStart(month, Leap(year)) <= day
          && day < DayFromYear(year) + MonthStart(month + 1, Leap(year))
    ensures DateFromDay(day) == (year, month, day - DayFromYear(year) - MonthStart(month, Leap(year)) + 1)
  {
    YearLength(year);
    MonthsGrow(0, month, Leap(year));
    MonthsGrow(month + 1, 12, Leap(year));
    YearIsUnique(day, year);
    MonthIsUnique(day - DayFromYear(year), month, Leap(year));
  }

  lemma MonthInYear(year: int, month: int, date: int)
    requires 0 <= month <= 11
    ensures MakeDay(year, month, date) == DayFromYear(year) + MonthStart(month, Leap(year)) + date - 1
  {}

  /** A date that exists is the date of the day it makes. */
  lemma DateOfMake(year: int, month: int, date: int)
    requires 0 <= month <= 11 && 1 <= date <= MonthStart(month + 1, Leap(year)) - MonthStart(month, Leap(year))
    ensures DateFromDay(MakeDay(year, month, date)) == (year, month, date)
  {
    hide DayFromYear, YearFromDay, DateFromDay, MakeDay;
    MonthInYear(year, month, date);
    DayLiesIn(MakeDay(year, month, date), year, month);
  }

  lemma {:induction false} MonthsGrow(m: int, n: int, leap: bool)
    requires 0 <= m <= n <= 12
    ensures 0 <= MonthStart(m, leap) <= MonthStart(n, leap)
    decreases n - m
  {}

  lemma MonthIsUnique(d: int, m: int, leap: bool)
    requires 0 <= m <= 11 && 0 <= d < MonthStart(12, leap) && MonthStart(m, leap) <= d < MonthStart(m + 1, leap)
    ensures MonthFromDay(d, leap) == m
  {}

  /** The first and last millisecond of a year. */
  lemma YearBounds(t: int)
    ensures var y := FieldsOf(t).year;
            DayFromYear(y) * MS_PER_DAY <= t < DayFromYear(y + 1) * MS_PER_DAY
  {}

  // ----- Month windows -----

  /**
    The instants a month query covers on a server whose local time is `offset` ahead of UTC:
    from local midnight on the 1st up to local midnight on the next 1st.  Years 0 to 99 stand
    for 1900 to 1999 here.
    */
  function MonthWindow(year: int, month: int, offset: int): (int, int)
  {
    var y := if 0 <= year <= 99 then 1900 + year else year;
    (MakeDay(y, month - 1, 1) * MS_PER_DAY - offset, MakeDay(y, month, 1) * MS_PER_DAY - offset)
  }

  /** A day lies in one month of one year. */
  lemma DayInMonth(day: int, year: int, month: int)
    requires 0 <= month <= 11
    ensures MakeDay(year, month, 1) <= day < DayFromYear(year) + MonthStart(month + 1, Leap(year)) <==>
            DateFromDay(day).0 == year && DateFromDay(day).1 == month
  {
    MonthInYear(year, month, 1);
    if MakeDay(year, month, 1) <= day < DayFromYear(year) + MonthStart(month + 1, Leap(year)) {
      DayLiesIn(day, year, month);
    } else {
      DayLiesInItsMonth(day);
    }
  }

  /** An instant lies in the window of exactly one month from year 100 on: its local month. */
  lemma WindowIsLocalMonth(t: int, year: int, month: int, offset: int)
    requires 1 <= month <= 12 && 100 <= year
    ensures var (start, end) := MonthWindow(year, month, offset);
            var local := FieldsOf(t + offset);
            start <= t < end <==> local.year == year && local.month == month - 1
  {
    hide MakeDay, DateFromDay, DayFromYear;
    DayBetween(t + offset, MakeDay(year, month - 1, 1), MakeDay(year, month, 1));
    NextMonth(year, month);
    DayInMonth((t + offset) / MS_PER_DAY, year, month - 1);
  }

  lemma DayLiesInItsMonth(day: int)
    ensures var (year, month, _) := DateFromDay(day);
            && 0 <= month <= 11
            && DayFromYear(year) + MonthStart(month, Leap(year)) <= day
            && day < DayFromYear(year) + MonthStart(month + 1, Leap(year))
  {}

  lemma DayBetween(t: int, first: int, next: int)
    ensures first * MS_PER_DAY <= t < next * MS_PER_DAY <==> first <= t / MS_PER_DAY < next
  {}

  /** The window's end is the end of its month, also in December. */
  lemma NextMonth(year: int, month: int)
    requires 1 <= month <= 12
    ensures MakeDay(year, month, 1) == DayFromYear(year) + MonthStart(month, Leap(year))
  {
    if month < 12 {
      MonthInYear(year, month, 1);
    } else {
      assert month / 12 == 1 && month % 12 == 0;
      YearLength(year);
      assert MonthStart(12, Leap(year)) == DaysInYear(year);
    }
  }
}
