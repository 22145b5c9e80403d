/**
 The proleptic Gregorian calendar as JavaScript dates compute with it: whole days and
 milliseconds counted from 1 January 1970, unbounded in both directions.

 Days are counted plainly, year by year and month by month. `DateUtc` is `Date.UTC`;
 `CivilOf` reads an instant as calendar and clock fields. The two are proved to be
 inverses of each other wherever they can be.
 */
module Calendar {

  /** Milliseconds in so many days. */
  function Days(n: int): int { n * 86_400_000 }

  /** The Gregorian rule. */
  predicate IsLeapYear(year: int) {
    (year % 4 == 0 && year % 100 != 0) || year % 400 == 0
  }

  function DaysInYear(year: int): (days: int)
    ensures days == 365 || days == 366
  {
    if IsLeapYear(year) then 366 else 365
  }

  /** The day, counted from the epoch, on which `year` begins. */
  function DayFromYear(year: int): int
    decreases if year < 1970 then 1970 - year else year - 1970
  {
    if year == 1970 then 0
    else if year > 1970 then DayFromYear(year - 1) + DaysInYear(year - 1)
    else DayFromYear(year + 1) - DaysInYear(year)
  }

  /** January is month 0. */
  function DaysInMonth(leap: bool, month0: int): (days: int)
    requires 0 <= month0 < 12
    ensures 28 <= days <= 31
  {
    if month0 == 1 then if leap then 29 else 28
    else if month0 == 3 || month0 == 5 || month0 == 8 || month0 == 10 then 30
    else 31
  }

  /** Days of a year that come before its `month0`-th month. */
  function DaysBeforeMonth(leap: bool, month0: int): int
    requires 0 <= month0 <= 12
  {
    if month0 == 0 then 0 else DaysBeforeMonth(leap, month0 - 1) + DaysInMonth(leap, month0 - 1)
  }

  /** The day a year, month and day of the month name; months and days out of range roll over. */
  function MakeDay(year: int, month0: int, date: int): int
    decreases if month0 < 0 then -month0 else if month0 >= 12 then month0 else 0
  {
    if month0 < 0 then MakeDay(year - 1, month0 + 12, date)
    else if month0 >= 12 then MakeDay(year + 1, month0 - 12, date)
    else DayFromYear(year) + DaysBeforeMonth(IsLeapYear(year), month0) + date - 1
  }

  function MakeTime(hour: int, minute: int, second: int): int {
    hour * 3_600_000 + minute * 60_000 + second * 1_000
  }

  /** The instant so many milliseconds into a day. */
  function At(day: int, time: int): int {
    Days(day) + time
  }

  /** `Date.UTC` takes a year from 0 to 99 to mean one of the twentieth century. */
  function FullYear(year: int): int {
    if 0 <= year <= 99 then 1900 + year else year
  }

  /** `Date.UTC(year, month0, date, hour, minute, second)`, in milliseconds. */
  function DateUtc(year: int, month0: int, date: int, hour: int, minute: int, second: int): int {
    At(MakeDay(FullYear(year), month0, date), MakeTime(hour, minute, second))
  }

  /** What a calendar and a clock read; `month` is 1 to 12. */
  datatype Civil = Civil(year: int, month: int, day: int, hour: int, minute: int, second: int) {
    predicate Valid() {
      && Date(year, month, day).Valid()
      && 0 <= hour < 24 && 0 <= minute < 60 && 0 <= second < 60
    }

    /** The instant, in milliseconds, these fields name. */
    function Instant(): int {
      At(MakeDay(year, month - 1, day), MakeTime(hour, minute, second))
    }
  }

  /** A day of the calendar; `month` is 1 to 12. */
  datatype Date = Date(year: int, month: int, day: int) {
    predicate Valid() {
      1 <= month <= 12 && 1 <= day <= DaysInMonth(IsLeapYear(year), month - 1)
    }
  }

  /** The year a day falls in, looked for from `year` on or back. */
  function YearNear(year: int, day: int): (y: int)
    ensures DayFromYear(y) <= day < DayFromYear(y + 1)
    decreases if day < DayFromYear(year) then DayFromYear(year) - day
              else if DayFromYear(year + 1) <= day then day + 1 - DayFromYear(year) else 0
  {
    YearLength(year - 1);
    YearLength(year);
    YearLength(year + 1);
    if day < DayFromYear(year) then YearNear(year - 1, day)
    else if DayFromYear(year + 1) <= day then YearNear(year + 1, day)
    else year
  }

  function YearFromDay(day: int): (y: int)
    ensures DayFromYear(y) <= day < DayFromYear(y + 1)
  {
    YearNear(1970, day)
  }

  /** The month the `dayOfYear`-th day (from 0) falls in, looked for from `month0` on. */
  function MonthNear(leap: bool, month0: int, dayOfYear: int): (m: int)
    requires 0 <= month0 < 12
    requires DaysBeforeMonth(leap, month0) <= dayOfYear < DaysBeforeMonth(leap, 12)
    ensures 0 <= m < 12
    ensures DaysBeforeMonth(leap, m) <= dayOfYear < DaysBeforeMonth(leap, m) + DaysInMonth(leap, m)
    decreases 12 - month0
  {
    if dayOfYear < DaysBeforeMonth(leap, month0 + 1) then month0 else MonthNear(leap, month0 + 1, dayOfYear)
  }

  /** The date of a day that lies in `year`. */
  function DateInYear(year: int, day: int): Date
    requires DayFromYear(year) <= day < DayFromYear(year + 1)
  {
    var leap, dayOfYear := IsLeapYear(year), day - DayFromYear(year);
    var month0 := (YearLength(year); TwelveMonths(leap); MonthNear(leap, 0, dayOfYear));
    Date(year, month0 + 1, dayOfYear - DaysBeforeMonth(leap, month0) + 1)
  }

  /** The date that is so many days after 1 January 1970. */
  function DateOf(day: int): Date {
    DateInYear(YearFromDay(day), day)
  }

  /** The year an instant falls in. */
  function YearOf(ms: int): int {
    YearFromDay(ms / 86_400_000)
  }

  /** Reads an instant as calendar and clock fields; what is left of the second is dropped. */
  function CivilOf(ms: int): Civil {
    var date, time := DateOf(ms / 86_400_000), ms % 86_400_000;
    Civil(date.year, date.month, date.day, time / 3_600_000, time / 60_000 % 60, time / 1_000 % 60)
  }

  // ---------------------------------------------------------------------------
  // Lengths of years and months
  // ---------------------------------------------------------------------------

  lemma YearLength(year: int)
    ensures DayFromYear(year + 1) == DayFromYear(year) + DaysInYear(year)
  {
  }

  lemma TwelveMonths(leap: bool)
    ensures DaysBeforeMonth(leap, 12) == if leap then 366 else 365
  {
    MonthsClosedForm(leap, 11);
  }

  /** The closed form for the days before a month: 367 twelfths of a day a month, less what February is short of. */
  lemma {:induction false} MonthsClosedForm(leap: bool, month0: int)
    requires 0 <= month0 < 12
    ensures DaysBeforeMonth(leap, month0) == (367 * (month0 + 1) - 362) / 12 - if month0 < 2 then 0 else if leap then 1 else 2
    decreases month0
  {
    if month0 > 0 {
      MonthsClosedForm(leap, month0 - 1);
    }
  }

  lemma {:induction false} YearsAreOrdered(y1: int, y2: int)
    requires y1 <= y2
    ensures DayFromYear(y1) + 365 * (y2 - y1) <= DayFromYear(y2)
    decreases y2 - y1
  {
    if y1 < y2 {
      YearLength(y2 - 1);
      YearsAreOrdered(y1, y2 - 1);
    }
  }

  lemma {:induction false} MonthsAreOrdered(leap: bool, m1: int, m2: int)
    requires 0 <= m1 <= m2 <= 12
    ensures DaysBeforeMonth(leap, m1) <= DaysBeforeMonth(leap, m2)
    decreases m2 - m1
  {
    if m1 < m2 {
      MonthsAreOrdered(leap, m1, m2 - 1);
    }
  }

  /** The closed form that ECMAScript gives for the first day of a year. */
  lemma {:induction false} DayFromYearClosedForm(year: int)
    ensures DayFromYear(year) == 365 * (year - 1970) + (year - 1969) / 4 - (year - 1901) / 100 + (year - 1601) / 400
    decreases if year < 1970 then 1970 - year else year - 1970
  {
    if year > 1970 {
      DayFromYearClosedForm(year - 1);
      LeapDays(year - 1);
    } else if year < 1970 {
      DayFromYearClosedForm(year + 1);
      LeapDays(year);
    }
  }

  /** A year of two digits is the one of the twentieth century that ends in them; any other is itself. */
  lemma TwoDigitYears(year: int)
    ensures FullYear(year) == year <==> !(0 <= year <= 99)
    ensures 0 <= year <= 99 ==> 1900 <= FullYear(year) < 2000 && FullYear(year) % 100 == year
  {
  }

  /** A month out of range is a month of another year. */
  lemma {:induction false} MonthsRollOver(year: int, month0: int, date: int)
    ensures MakeDay(year, month0, date) == MakeDay(year + month0 / 12, month0 % 12, date)
    decreases if month0 < 0 then -month0 else if month0 >= 12 then month0 else 0
  {
    if month0 < 0 {
      TwelveMonthsOn(month0);
      MonthsRollOver(year - 1, month0 + 12, date);
    } else if month0 >= 12 {
      TwelveMonthsOn(month0 - 12);
      MonthsRollOver(year + 1, month0 - 12, date);
    }
  }

  lemma TwelveMonthsOn(month0: int)
    ensures (month0 + 12) / 12 == month0 / 12 + 1 && (month0 + 12) % 12 == month0 % 12
  {
  }

  /** The day a year, month and day of the month name, in closed form. */
  lemma MakeDayClosedForm(year: int, month0: int, date: int)
    requires 0 <= month0 < 12
    ensures MakeDay(year, month0, date) ==
              365 * (year - 1970) + (year - 1969) / 4 - (year - 1901) / 100 + (year - 1601) / 400
              + (367 * (month0 + 1) - 362) / 12 - (if month0 < 2 then 0 else if IsLeapYear(year) then 1 else 2)
              + date - 1
  {
    DayFromYearClosedForm(year);
    MonthsClosedForm(IsLeapYear(year), month0);
  }

  lemma LeapDays(year: int)
    ensures (year - 1968) / 4 - (year - 1900) / 100 + (year - 1600) / 400
         == (year - 1969) / 4 - (year - 1901) / 100 + (year - 1601) / 400 + One(IsLeapYear(year))
  {
    EveryFourth(year);
    EveryHundredth(year);
    EveryFourHundredth(year);
    LeapByResidue(year, year % 4 == 0, year % 100 == 0, year % 400 == 0);
  }

  function One(yes: bool): int {
    if yes then 1 else 0
  }

  lemma LeapByResidue(year: int, fourth: bool, hundredth: bool, fourHundredth: bool)
    requires fourth == (year % 4 == 0) && hundredth == (year % 100 == 0) && fourHundredth == (year % 400 == 0)
    ensures One(IsLeapYear(year)) == One(fourth) - One(hundredth) + One(fourHundredth)
  {
    if hundredth {
      HundredthIsFourth(year);
    }
    if fourHundredth {
      FourHundredthIsHundredth(year);
    }
  }

  lemma HundredthIsFourth(year: int)
    requires year % 100 == 0
    ensures year % 4 == 0
  {
    assert year == 4 * (25 * (year / 100));
  }

  lemma FourHundredthIsHundredth(year: int)
    requires year % 400 == 0
    ensures year % 100 == 0
  {
    assert year == 100 * (4 * (year / 400));
  }

  lemma EveryFourth(year: int)
    ensures (year - 1968) / 4 == (year - 1969) / 4 + One(year % 4 == 0)
  {
  }

  lemma EveryHundredth(year: int)
    ensures (year - 1900) / 100 == (year - 1901) / 100 + One(year % 100 == 0)
  {
  }

  lemma EveryFourHundredth(year: int)
    ensures (year - 1600) / 400 == (year - 1601) / 400 + One(year % 400 == 0)
  {
  }

  // ---------------------------------------------------------------------------
  // Reading an instant and naming it again
  // ---------------------------------------------------------------------------

  lemma DateOfIsExact(day: int)
    ensures var d := DateOf(day); d.Valid() && MakeDay(d.year, d.month - 1, d.day) == day
  {
  }

  lemma ClockFields(time: int)
    requires 0 <= time < 86_400_000
    ensures 0 <= time / 3_600_000 < 24
    ensures MakeTime(time / 3_600_000, time / 60_000 % 60, time / 1_000 % 60) == time - time % 1_000
  {
    var s := time / 1_000;
    var m := s / 60;
    assert time / 60_000 == m;
    assert time / 3_600_000 == m / 60;
  }

  lemma SplitMillis(ms: int)
    ensures Days(ms / 86_400_000) + ms % 86_400_000 == ms
    ensures ms % 86_400_000 % 1_000 == ms % 1_000
  {
    assert ms == 86_400_000 * (ms / 86_400_000) + ms % 86_400_000;
  }

  lemma ReadingIsExact(d: Date, day: int, time: int)
    requires d.Valid() && MakeDay(d.year, d.month - 1, d.day) == day
    requires 0 <= time < 86_400_000
    ensures var c := Civil(d.year, d.month, d.day, time / 3_600_000, time / 60_000 % 60, time / 1_000 % 60);
            c.Valid() && c.Instant() == Days(day) + time - time % 1_000
  {
    ClockFields(time);
  }

  /** What an instant reads is a real date and time, and names the instant again but for its milliseconds. */
  lemma CivilOfIsExact(ms: int)
    ensures CivilOf(ms).Valid()
    ensures CivilOf(ms).Instant() == ms - ms % 1_000
  {
    var day, time := ms / 86_400_000, ms % 86_400_000;
    DateOfIsExact(day);
    ReadingIsExact(DateOf(day), day, time);
    SplitMillis(ms);
  }

  /** A day lies in exactly one year. */
  lemma YearIsUnique(day: int, year: int)
    requires DayFromYear(year) <= day < DayFromYear(year + 1)
    ensures YearFromDay(day) == year
  {
    var y := YearFromDay(day);
    if y < year {
      YearsAreOrdered(y + 1, year);
    } else if year < y {
      YearsAreOrdered(year + 1, y);
    }
  }

  lemma MonthIsUnique(leap: bool, dayOfYear: int, month0: int)
    requires 0 <= month0 < 12
    requires DaysBeforeMonth(leap, month0) <= dayOfYear < DaysBeforeMonth(leap, month0 + 1)
    ensures 0 <= dayOfYear < DaysBeforeMonth(leap, 12)
    ensures MonthNear(leap, 0, dayOfYear) == month0
  {
    MonthsAreOrdered(leap, 0, month0);
    MonthsAreOrdered(leap, month0 + 1, 12);
    SameMonth(leap, dayOfYear, month0, MonthNear(leap, 0, dayOfYear));
  }

  lemma SameMonth(leap: bool, dayOfYear: int, m1: int, m2: int)
    requires 0 <= m1 < 12 && 0 <= m2 < 12
    requires DaysBeforeMonth(leap, m1) <= dayOfYear < DaysBeforeMonth(leap, m1 + 1)
    requires DaysBeforeMonth(leap, m2) <= dayOfYear < DaysBeforeMonth(leap, m2 + 1)
    ensures m1 == m2
  {
    if m1 < m2 {
      MonthsAreOrdered(leap, m1 + 1, m2);
    } else if m2 < m1 {
      MonthsAreOrdered(leap, m2 + 1, m1);
    }
  }

  /** A month and a day up to the 31st name a day of the year they are in, even where they roll into the next month. */
  lemma StaysInYear(year: int, month: int, day: int)
    requires 1 <= month <= 12 && 1 <= day <= 31
    ensures DayFromYear(year) <= MakeDay(year, month - 1, day) < DayFromYear(year + 1)
  {
    var leap := IsLeapYear(year);
    YearLength(year);
    TwelveMonths(leap);
    MonthsAreOrdered(leap, 0, month - 1);
    if month < 12 {
      MonthsAreOrdered(leap, month, 11);
    }
  }

  lemma DateInYearIsUnique(year: int, month0: int, date: int, day: int)
    requires 0 <= month0 < 12 && 1 <= date <= DaysInMonth(IsLeapYear(year), month0)
    requires day - DayFromYear(year) == DaysBeforeMonth(IsLeapYear(year), month0) + date - 1
    requires DayFromYear(year) <= day < DayFromYear(year + 1)
    ensures DateInYear(year, day) == Date(year, month0 + 1, date)
  {
    YearLength(year);
    TwelveMonths(IsLeapYear(year));
    MonthIsUnique(IsLeapYear(year), day - DayFromYear(year), month0);
    assert MonthNear(IsLeapYear(year), 0, day - DayFromYear(year)) == month0;
  }

  lemma DateOfMakeDay(d: Date)
    requires d.Valid()
    ensures DateOf(MakeDay(d.year, d.month - 1, d.day)) == d
  {
    var day := MakeDay(d.year, d.month - 1, d.day);
    StaysInYear(d.year, d.month, d.day);
    YearIsUnique(day, d.year);
    DateInYearIsUnique(d.year, d.month - 1, d.day, day);
  }

  lemma SplitDay(day: int, time: int)
    requires 0 <= time < 86_400_000
    ensures At(day, time) / 86_400_000 == day && At(day, time) % 86_400_000 == time
  {
  }

  lemma SplitTime(hour: int, minute: int, second: int)
    requires 0 <= hour < 24 && 0 <= minute < 60 && 0 <= second < 60
    ensures var time := MakeTime(hour, minute, second);
            0 <= time < 86_400_000 &&
            time / 3_600_000 == hour && time / 60_000 % 60 == minute && time / 1_000 % 60 == second
  {
    var time := MakeTime(hour, minute, second);
    assert time / 1_000 == hour * 3_600 + minute * 60 + second;
    assert time / 60_000 == hour * 60 + minute;
  }

  lemma FieldsFromParts(c: Civil, ms: int, day: int, time: int)
    requires 0 <= c.hour < 24 && 0 <= c.minute < 60 && 0 <= c.second < 60
    requires DateOf(day) == Date(c.year, c.month, c.day) && time == MakeTime(c.hour, c.minute, c.second)
    requires ms == At(day, time)
    ensures CivilOf(ms) == c
  {
    SplitTime(c.hour, c.minute, c.second);
    SplitDay(day, time);
  }

  /** Reading back the instant that valid fields name gives those fields. */
  lemma FieldsRoundTrip(c: Civil)
    requires c.Valid()
    ensures CivilOf(c.Instant()) == c
  {
    DateOfMakeDay(Date(c.year, c.month, c.day));
    FieldsFromParts(c, c.Instant(), MakeDay(c.year, c.month - 1, c.day), MakeTime(c.hour, c.minute, c.second));
  }

  /** The same month, day and time in two different years are two different instants. */
  lemma DifferentYears(c: Civil, year: int)
    requires c.Valid() && year != c.year
    ensures c.(year := year).Instant() != c.Instant()
  {
    StaysInYear(c.year, c.month, c.day);
    StaysInYear(year, c.month, c.day);
    YearsAreOrdered(if c.year < year then c.year + 1 else year + 1, if c.year < year then year else c.year);
  }

  /** Reading an instant and naming it again with `Date.UTC` loses its milliseconds and nothing else, except in the years 0 to 99. */
  lemma DateUtcRoundTrip(ms: int)
    ensures var c := CivilOf(ms);
            DateUtc(c.year, c.month - 1, c.day, c.hour, c.minute, c.second) == ms - ms % 1_000
            <==> !(0 <= c.year <= 99)
  {
    CivilOfIsExact(ms);
    var c := CivilOf(ms);
    if 0 <= c.year <= 99 {
      DifferentYears(c, FullYear(c.year));
    }
  }

  lemma RollsToMarch(year: int)
    requires !IsLeapYear(year)
    ensures MakeDay(year, 1, 29) == MakeDay(year, 2, 1)
  {
  }

  /** 29 February is itself in a leap year and rolls to 1 March in any other. */
  lemma TwentyNinthOfFebruary(year: int)
    ensures DateOf(MakeDay(year, 1, 29)) == if IsLeapYear(year) then Date(year, 2, 29) else Date(year, 3, 1)
  {
    if IsLeapYear(year) {
      DateOfMakeDay(Date(year, 2, 29));
    } else {
      RollsToMarch(year);
      DateOfMakeDay(Date(year, 3, 1));
    }
  }

  // ---------------------------------------------------------------------------
  // Instants and years
  // ---------------------------------------------------------------------------

  lemma FromYear(year: int, ms: int)
    requires Days(DayFromYear(year)) <= ms
    ensures year <= YearOf(ms)
  {
    DayAtLeast(DayFromYear(year), ms);
    var y := YearFromDay(ms / 86_400_000);
    if y < year {
      YearsAreOrdered(y + 1, year);
    }
  }

  lemma DayAtLeast(day: int, ms: int)
    requires Days(day) <= ms
    ensures day <= ms / 86_400_000
  {
  }

  lemma {:induction false} LeapDayShift(month0: int)
    requires 0 <= month0 <= 12
    ensures DaysBeforeMonth(false, month0) <= DaysBeforeMonth(true, month0) <= DaysBeforeMonth(false, month0) + if month0 >= 2 then 1 else 0
    decreases month0
  {
    if month0 > 0 {
      LeapDayShift(month0 - 1);
    }
  }

  /** The same month and day come round again after a year or a year and a day. */
  lemma NextYearsDay(year: int, month: int, day: int)
    requires 1 <= month <= 12
    ensures MakeDay(year, month - 1, day) + 365 <= MakeDay(year + 1, month - 1, day)
  {
    YearLength(year);
    LeapDayShift(month - 1);
  }
}
