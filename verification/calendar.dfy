/** gmtime and timegm in UTC: "Seconds Since the Epoch" of IEEE Std 1003.1-2017,
    Base Definitions, section 4.16. timegm accepts fields outside their ranges,
    which both the graph axes and the news log rely on. */
module Calendar {

  /** struct tm: mon counts from 0, year from 1900. */
  datatype Tm = Tm(sec: int, min: int, hour: int, mday: int, mon: int, year: int)

  const DAY: int := 86400

  predicate IsLeap(year: int)
  {
    year % 4 == 0 && (year % 100 != 0 || (year + 300) % 400 == 0)
  }

  /** Leap days from the Epoch to the first of January. */
  function LeapDays(year: int): int
  {
    (year - 69) / 4 - (year - 1) / 100 + (year + 299) / 400
  }

  /** Days from the Epoch to the first of January: the POSIX expression. */
  function YearStart(year: int): int
  {
    365 * (year - 70) + LeapDays(year)
  }

  /** Days from the first of January to the first of a month. */
  function MonthStart(leap: bool, mon: int): (d: int)
    requires 0 <= mon <= 12
    ensures 28 * mon <= d <= 31 * mon
  {
    var l := if leap then 1 else 0;
    if mon == 0 then 0
    else if mon == 1 then 31
    else if mon == 2 then 59 + l
    else if mon == 3 then 90 + l
    else if mon == 4 then 120 + l
    else if mon == 5 then 151 + l
    else if mon == 6 then 181 + l
    else if mon == 7 then 212 + l
    else if mon == 8 then 243 + l
    else if mon == 9 then 273 + l
    else if mon == 10 then 304 + l
    else if mon == 11 then 334 + l
    else 365 + l
  }

  function MonthLength(leap: bool, mon: int): (n: int)
    requires 0 <= mon < 12
    ensures 28 <= n <= 31
  {
    MonthStart(leap, mon + 1) - MonthStart(leap, mon)
  }

  function YearLength(year: int): int
  {
    MonthStart(IsLeap(year), 12)
  }

  /** The day a date falls on, counted from the Epoch; any mon and mday. */
  function DayNumber(year: int, mon: int, mday: int): int
  {
    var y := year + mon / 12;
    YearStart(y) + MonthStart(IsLeap(y), mon % 12) + mday - 1
  }

  function TimeGm(tm: Tm): int
  {
    DAY * DayNumber(tm.year, tm.mon, tm.mday) + 3600 * tm.hour + 60 * tm.min + tm.sec
  }

  // ----- from days to years ---------------------------------------------------------

  lemma QuotientStep4(a: int)
    ensures (a + 1) / 4 == a / 4 + (if (a + 1) % 4 == 0 then 1 else 0)
  {
  }

  lemma QuotientStep100(a: int)
    ensures (a + 1) / 100 == a / 100 + (if (a + 1) % 100 == 0 then 1 else 0)
  {
  }

  lemma QuotientStep400(a: int)
    ensures (a + 1) / 400 == a / 400 + (if (a + 1) % 400 == 0 then 1 else 0)
  {
  }

  lemma FourthYear(year: int)
    ensures (year - 69 + 1) % 4 == 0 <==> year % 4 == 0
  {
  }

  lemma Century(year: int)
    ensures year % 100 == 0 ==> year % 4 == 0
  {
  }

  lemma FourthCentury(year: int)
    ensures (year + 300) % 400 == 0 ==> year % 100 == 0
  {
  }

  lemma LeapDaysStep(year: int)
    ensures LeapDays(year + 1) == LeapDays(year) + (if IsLeap(year) then 1 else 0)
  {
    QuotientStep4(year - 69);
    QuotientStep100(year - 1);
    QuotientStep400(year + 299);
    FourthYear(year);
    Century(year);
    FourthCentury(year);
  }

  lemma YearLengthIs(year: int)
    ensures YearLength(year) == 365 + (if IsLeap(year) then 1 else 0)
  {
    hide IsLeap;
  }

  /** Consecutive years are exactly one year's length apart. */
  lemma YearStep(year: int)
    ensures YearStart(year + 1) == YearStart(year) + YearLength(year)
  {
    hide LeapDays, IsLeap, MonthStart, YearLength;
    LeapDaysStep(year);
    YearLengthIs(year);
  }

  lemma {:induction false} YearsApart(a: int, b: int)
    requires a <= b
    ensures YearStart(a) + 365 * (b - a) <= YearStart(b)
    decreases b - a
  {
    if a < b {
      YearsApart(a, b - 1);
      YearStep(b - 1);
    }
  }

  /** The year a day falls in, searched upwards from year. */
  function YearUp(days: int, year: int): (y: int)
    requires YearStart(year) <= days
    ensures YearStart(y) <= days < YearStart(y + 1)
    decreases days - YearStart(year)
  {
    YearStep(year);
    if days < YearStart(year + 1) then year else YearUp(days, year + 1)
  }

  function YearDown(days: int, year: int): (y: int)
    requires days < YearStart(year + 1)
    ensures YearStart(y) <= days < YearStart(y + 1)
    decreases YearStart(year + 1) - days
  {
    YearStep(year);
    if YearStart(year) <= days then year else YearDown(days, year - 1)
  }

  function YearOf(days: int): (y: int)
    ensures YearStart(y) <= days < YearStart(y + 1)
  {
    if YearStart(70) <= days then YearUp(days, 70) else YearDown(days, 69)
  }

  lemma YearOfIsUnique(days: int, year: int)
    requires YearStart(year) <= days < YearStart(year + 1)
    ensures YearOf(days) == year
  {
    hide YearStart, YearUp, YearDown;
    var y := YearOf(days);
    if y < year {
      YearsApart(y + 1, year);
    } else if year < y {
      YearsApart(year + 1, y);
    }
  }

  /** The month a day of the year falls in. */
  function MonthOf(leap: bool, yday: int): (mon: int)
    requires 0 <= yday < MonthStart(leap, 12)
    ensures 0 <= mon < 12 && MonthStart(leap, mon) <= yday < MonthStart(leap, mon + 1)
  {
    MonthFrom(leap, yday, 0)
  }

  function MonthFrom(leap: bool, yday: int, mon: int): (m: int)
    requires 0 <= mon < 12 && MonthStart(leap, mon) <= yday < MonthStart(leap, 12)
    ensures mon <= m < 12 && MonthStart(leap, m) <= yday < MonthStart(leap, m + 1)
    decreases 12 - mon
  {
    if yday < MonthStart(leap, mon + 1) then mon else MonthFrom(leap, yday, mon + 1)
  }

  lemma {:induction false} MonthsApart(leap: bool, a: int, b: int)
    requires 0 <= a <= b <= 12
    ensures MonthStart(leap, a) + 28 * (b - a) <= MonthStart(leap, b)
    decreases b - a
  {
    if a < b {
      MonthsApart(leap, a, b - 1);
      assert MonthLength(leap, b - 1) >= 28;
    }
  }

  lemma NoMonths(leap: bool)
    ensures MonthStart(leap, 0) == 0
  {
  }

  lemma MonthOfIsUnique(leap: bool, yday: int, mon: int)
    requires 0 <= mon < 12 && MonthStart(leap, mon) <= yday < MonthStart(leap, mon + 1)
    ensures 0 <= yday < MonthStart(leap, 12) && MonthOf(leap, yday) == mon
  {
    hide MonthFrom, MonthStart;
    MonthsApart(leap, 0, mon);
    MonthsApart(leap, mon + 1, 12);
    NoMonths(leap);
    var m := MonthOf(leap, yday);
    if m < mon {
      MonthsApart(leap, m + 1, mon);
    } else if mon < m {
      MonthsApart(leap, mon + 1, m);
    }
  }

  // ----- gmtime ----------------------------------------------------------------------

  datatype Date = Date(year: int, mon: int, mday: int)

  predicate InMonth(d: Date)
  {
    0 <= d.mon < 12 && 1 <= d.mday <= MonthLength(IsLeap(d.year), d.mon)
  }

  /** The day of the year, from 0. */
  function YearDay(d: Date): int
    requires 0 <= d.mon < 12
  {
    MonthStart(IsLeap(d.year), d.mon) + d.mday - 1
  }

  function DateInYear(year: int, yday: int): (d: Date)
    requires 0 <= yday < YearLength(year)
    ensures InMonth(d) && d.year == year && YearDay(d) == yday
  {
    var mon := MonthOf(IsLeap(year), yday);
    Date(year, mon, yday - MonthStart(IsLeap(year), mon) + 1)
  }

  lemma DateInYearIsUnique(d: Date)
    requires InMonth(d)
    ensures 0 <= YearDay(d) < YearLength(d.year) && DateInYear(d.year, YearDay(d)) == d
  {
    MonthOfIsUnique(IsLeap(d.year), YearDay(d), d.mon);
  }

  lemma DayNumberOf(d: Date)
    requires 0 <= d.mon < 12
    ensures DayNumber(d.year, d.mon, d.mday) == YearStart(d.year) + YearDay(d)
  {
    hide YearStart, MonthStart, IsLeap;
  }

  lemma InYear(days: int)
    ensures 0 <= days - YearStart(YearOf(days)) < YearLength(YearOf(days))
  {
    hide YearStart, YearLength, YearUp, YearDown;
    YearStep(YearOf(days));
  }

  function DateOf(days: int): (d: Date)
    ensures InMonth(d)
  {
    var year := YearOf(days);
    InYear(days);
    DateInYear(year, days - YearStart(year))
  }

  lemma DateOfDay(days: int)
    ensures var d := DateOf(days); DayNumber(d.year, d.mon, d.mday) == days
  {
    DayNumberOf(DateOf(days));
  }

  lemma DateOfYearDay(year: int, yday: int)
    requires 0 <= yday < YearLength(year)
    ensures DateOf(YearStart(year) + yday) == DateInYear(year, yday)
  {
    YearStep(year);
    hide YearStart, YearLength, IsLeap, MonthStart, YearOf, DateInYear;
    YearOfIsUnique(YearStart(year) + yday, year);
  }

  lemma DateOfIsUnique(d: Date)
    requires InMonth(d)
    ensures DateOf(DayNumber(d.year, d.mon, d.mday)) == d
  {
    DateInYearIsUnique(d);
    DateOfYearDay(d.year, YearDay(d));
    DayNumberOf(d);
  }

  datatype Clock = Clock(hour: int, min: int, sec: int)

  predicate InDay(c: Clock)
  {
    0 <= c.sec < 60 && 0 <= c.min < 60 && 0 <= c.hour < 24
  }

  function Seconds(c: Clock): int
  {
    3600 * c.hour + 60 * c.min + c.sec
  }

  function ClockOf(s: int): (c: Clock)
    requires 0 <= s < DAY
    ensures InDay(c) && Seconds(c) == s
  {
    Clock(s / 3600, s / 60 % 60, s % 60)
  }

  lemma ClockOfIsUnique(c: Clock)
    requires InDay(c)
    ensures 0 <= Seconds(c) < DAY && ClockOf(Seconds(c)) == c
  {
    var d := ClockOf(Seconds(c));
    assert 3600 * (d.hour - c.hour) == 60 * (c.min - d.min) + (c.sec - d.sec);
  }

  function GmTime(t: int): Tm
  {
    var d, c := DateOf(t / DAY), ClockOf(t % DAY);
    Tm(c.sec, c.min, c.hour, d.mday, d.mon, d.year)
  }

  /** Days since the Sunday before. */
  function Weekday(t: int): (d: int)
    ensures 0 <= d < 7
  {
    (t / DAY + 4) % 7
  }

  /** The Epoch is a Thursday, and the days of the week follow one another. */
  lemma WeekdaysFollow(t: int)
    ensures Weekday(0) == 4
    ensures Weekday(t + DAY) == (Weekday(t) + 1) % 7
    ensures Weekday(t) == Weekday(t - t % DAY)
  {
    var d := t / DAY;
    assert (t + DAY) / DAY == d + 1 && (t - t % DAY) / DAY == d;
    NextOfSeven(d + 4);
  }

  lemma NextOfSeven(d: int)
    ensures (d + 1) % 7 == (d % 7 + 1) % 7
  {
  }

  /** Thirty days have September, April, June and November. */
  lemma MonthLengths(year: int, mon: int)
    requires 0 <= mon < 12
    ensures MonthLength(IsLeap(year), mon) ==
            if mon == 1 then (if IsLeap(year) then 29 else 28)
            else if mon in {3, 5, 8, 10} then 30
            else 31
  {
    hide IsLeap;
  }

  /** The Gregorian rule, in years as they are written. */
  lemma LeapYears(year: int)
    ensures
      var y := year + 1900;
      IsLeap(year) <==> y % 4 == 0 && (y % 100 == 0 ==> y % 400 == 0)
  {
    SameBy4(year);
    SameBy100(year);
    SameBy400(year);
  }

  lemma SameBy4(year: int)
    ensures (year + 1900) % 4 == 0 <==> year % 4 == 0
  {
  }

  lemma SameBy100(year: int)
    ensures (year + 1900) % 100 == 0 <==> year % 100 == 0
  {
  }

  lemma SameBy400(year: int)
    ensures (year + 1900) % 400 == 0 <==> (year + 300) % 400 == 0
  {
  }

  lemma EpochIs()
    ensures GmTime(0) == Tm(0, 0, 0, 1, 0, 70)
  {
    var epoch := Tm(0, 0, 0, 1, 0, 70);
    hide GmTime;
    assert TimeGm(epoch) == 0;
    GmTimeOfTimeGm(epoch);
  }

  function DateIn(tm: Tm): Date { Date(tm.year, tm.mon, tm.mday) }

  function ClockIn(tm: Tm): Clock { Clock(tm.hour, tm.min, tm.sec) }

  /** Every field within its range: a broken-down time as gmtime gives it. */
  predicate InRange(tm: Tm)
  {
    InMonth(DateIn(tm)) && InDay(ClockIn(tm))
  }

  /** timegm undoes gmtime, and gmtime only gives fields in range. */
  lemma TimeGmOfGmTime(t: int)
    ensures InRange(GmTime(t))
    ensures TimeGm(GmTime(t)) == t
    ensures DayNumber(GmTime(t).year, GmTime(t).mon, GmTime(t).mday) == t / DAY
    ensures Seconds(ClockIn(GmTime(t))) == t % DAY
  {
    DateOfDay(t / DAY);
    assert DateIn(GmTime(t)) == DateOf(t / DAY);
    assert ClockIn(GmTime(t)) == ClockOf(t % DAY);
  }

  /** gmtime undoes timegm on fields in range. */
  lemma GmTimeOfTimeGm(tm: Tm)
    requires InRange(tm)
    ensures GmTime(TimeGm(tm)) == tm
  {
    ClockOfIsUnique(ClockIn(tm));
    DateOfIsUnique(DateIn(tm));
    assert TimeGm(tm) / DAY == DayNumber(tm.year, tm.mon, tm.mday);
    assert TimeGm(tm) % DAY == Seconds(ClockIn(tm));
  }

  /** Month 12 is January of the next year, and the end of December. */
  lemma MonthTwelve(year: int, mday: int)
    ensures DayNumber(year, 12, mday) == DayNumber(year + 1, 0, mday)
    ensures DayNumber(year, 12, mday) == YearStart(year) + MonthStart(IsLeap(year), 12) + mday - 1
  {
    YearStep(year);
  }

  /** The first of a month, for months 0 to 12 of the year. */
  lemma FirstOfMonth(year: int, mon: int)
    requires 0 <= mon <= 12
    ensures DayNumber(year, mon, 1) == YearStart(year) + MonthStart(IsLeap(year), mon)
  {
    if mon == 12 {
      MonthTwelve(year, 1);
    } else {
      hide YearStart, IsLeap;
      DayNumberOf(Date(year, mon, 1));
    }
  }
}
