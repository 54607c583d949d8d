/** The time axis of graph/TimeGraph.cc: calendar units packed into numbers and
    unpacked with one added, relying on timegm to carry. */
module TimeCodes {
  import opened Calendar

  /** C and C++ division: rounds towards zero. */
  function TruncDiv(a: int, b: int): int
    requires b > 0
  {
    if a >= 0 then a / b else -((-a) / b)
  }

  /** C and C++ remainder: has the sign of the dividend. */
  function TruncMod(a: int, b: int): int
    requires b > 0
  {
    a - b * TruncDiv(a, b)
  }

  // ----- packing --------------------------------------------------------------------

  function HourCode(t: int): int
  {
    var dc := GmTime(t);
    dc.hour + 32 * (dc.mday - 1 + 32 * (dc.mon + 16 * dc.year))
  }

  function DayCode(t: int): int
  {
    var dc := GmTime(t);
    dc.mday - 1 + 32 * (dc.mon + 16 * dc.year)
  }

  function MonthCode(t: int): int
  {
    var dc := GmTime(t);
    dc.mon + 16 * dc.year
  }

  function YearCode(t: int): int
  {
    GmTime(t).year
  }

  function HourTime(h: int): int
  {
    var h1 := TruncDiv(h, 32);
    var h2 := TruncDiv(h1, 32);
    TimeGm(Tm(0, 0, TruncMod(h, 32), 1 + TruncMod(h1, 32), TruncMod(h2, 16), TruncDiv(h2, 16)))
  }

  function DayTime(d: int): int
  {
    var d1 := TruncDiv(d, 32);
    TimeGm(Tm(0, 0, 0, 1 + TruncMod(d, 32), TruncMod(d1, 16), TruncDiv(d1, 16)))
  }

  function MonthTime(m: int): int
  {
    TimeGm(Tm(0, 0, 0, 1, TruncMod(m, 16), TruncDiv(m, 16)))
  }

  function YearTime(y: int): int
  {
    TimeGm(Tm(0, 0, 0, 1, 0, y))
  }

  function NextHour(t: int): int { HourTime(HourCode(t) + 1) }

  function NextDay(t: int): int { DayTime(DayCode(t) + 1) }

  function NextMonth(t: int): int { MonthTime(MonthCode(t) + 1) }

  function NextYear(t: int): int { YearTime(YearCode(t) + 1) }

  /** Not before 1900, where the packed numbers turn negative. */
  predicate From1900(t: int)
  {
    GmTime(t).year >= 0
  }

  // ----- order ------------------------------------------------------------------------

  lemma YearsInOrder(d1: int, d2: int)
    requires d1 <= d2
    ensures DateOf(d1).year <= DateOf(d2).year
  {
    hide YearStart, DateInYear;
    var y1, y2 := YearOf(d1), YearOf(d2);
    if y2 < y1 {
      YearsApart(y2 + 1, y1);
    }
  }

  function DateCode(d: Date): int
  {
    d.mday - 1 + 32 * (d.mon + 16 * d.year)
  }

  /** Dates and their codes are ordered alike. */
  lemma DatesInOrder(d1: int, d2: int)
    requires d1 < d2
    ensures DateCode(DateOf(d1)) < DateCode(DateOf(d2))
    ensures DateOf(d1).mon + 16 * DateOf(d1).year <= DateOf(d2).mon + 16 * DateOf(d2).year
    ensures DateOf(d1).year <= DateOf(d2).year
  {
    hide DateOf, YearStart, IsLeap, DayNumber, MonthStart;
    var a, b := DateOf(d1), DateOf(d2);
    YearsInOrder(d1, d2);
    DateOfDay(d1);
    DateOfDay(d2);
    DayNumberOf(a);
    DayNumberOf(b);
    if a.year == b.year && b.mon < a.mon {
      MonthsApart(IsLeap(a.year), b.mon + 1, a.mon);
    }
  }

  /** The codes never decrease with time, and two times share an hour or day
      code exactly if they are in the same hour or day. */
  lemma CodesInOrder(t1: int, t2: int)
    requires t1 <= t2
    ensures HourCode(t1) <= HourCode(t2) && DayCode(t1) <= DayCode(t2)
    ensures MonthCode(t1) <= MonthCode(t2) && YearCode(t1) <= YearCode(t2)
    ensures HourCode(t1) == HourCode(t2) <==> t1 / 3600 == t2 / 3600
    ensures DayCode(t1) == DayCode(t2) <==> t1 / DAY == t2 / DAY
  {
    hide DateOf, ClockOf, IsLeap, MonthStart;
    var d1, d2 := t1 / DAY, t2 / DAY;
    HourOfDay(t1);
    HourOfDay(t2);
    if d1 < d2 {
      DatesInOrder(d1, d2);
    }
  }

  lemma HourOfDay(t: int)
    ensures GmTime(t).hour == t % DAY / 3600 == t / 3600 - 24 * (t / DAY)
  {
    hide DateOf;
  }

  lemma HourStart(t: int)
    ensures DAY * (t / DAY) + 3600 * GmTime(t).hour == t - t % 3600
  {
    hide GmTime;
    HourOfDay(t);
  }

  // ----- unpacking --------------------------------------------------------------------

  lemma TwoDigits(lo: int, hi: int)
    requires 0 <= lo < 32 && hi >= 0
    ensures TruncMod(lo + 32 * hi, 32) == lo && TruncDiv(lo + 32 * hi, 32) == hi
  {
  }

  lemma MonthDigits(mon: int, year: int)
    requires 0 <= mon < 16 && year >= 0
    ensures TruncMod(mon + 16 * year, 16) == mon && TruncDiv(mon + 16 * year, 16) == year
  {
  }

  /** Unpacking a code whose digits are within their radix, in range for the
      calendar or not. */
  lemma UnpackHour(hour: int, mday: int, mon: int, year: int)
    requires 0 <= hour < 32 && 1 <= mday <= 32 && 0 <= mon < 16 && year >= 0
    ensures HourTime(hour + 32 * (mday - 1 + 32 * (mon + 16 * year)))
         == DAY * DayNumber(year, mon, mday) + 3600 * hour
  {
    hide DayNumber, TruncDiv, TruncMod;
    TwoDigits(hour, mday - 1 + 32 * (mon + 16 * year));
    TwoDigits(mday - 1, mon + 16 * year);
    MonthDigits(mon, year);
  }

  lemma UnpackDay(mday: int, mon: int, year: int)
    requires 1 <= mday <= 32 && 0 <= mon < 16 && year >= 0
    ensures DayTime(mday - 1 + 32 * (mon + 16 * year)) == DAY * DayNumber(year, mon, mday)
  {
    hide DayNumber, TruncDiv, TruncMod;
    TwoDigits(mday - 1, mon + 16 * year);
    MonthDigits(mon, year);
  }

  /** Hour 24 carries into the day. */
  lemma HourBounds(t: int)
    requires From1900(t)
    ensures HourTime(HourCode(t)) == t - t % 3600
    ensures NextHour(t) == t - t % 3600 + 3600
  {
    hide GmTime, DayNumber, HourTime, MonthLength, TimeGm, Seconds;
    var dc := GmTime(t);
    TimeGmOfGmTime(t);
    HourStart(t);
    UnpackHour(dc.hour, dc.mday, dc.mon, dc.year);
    UnpackHour(dc.hour + 1, dc.mday, dc.mon, dc.year);
  }

  lemma DayAfter(year: int, mon: int, mday: int)
    ensures DayNumber(year, mon, mday + 1) == DayNumber(year, mon, mday) + 1
  {
  }

  /** Day 32 carries into the month. */
  lemma DayBounds(t: int)
    requires From1900(t)
    ensures DayTime(DayCode(t)) == t - t % DAY
    ensures NextDay(t) == t - t % DAY + DAY
  {
    hide GmTime, DayNumber, DayTime, MonthLength;
    var dc := GmTime(t);
    TimeGmOfGmTime(t);
    DayAfter(dc.year, dc.mon, dc.mday);
    UnpackDay(dc.mday, dc.mon, dc.year);
    UnpackDay(dc.mday + 1, dc.mon, dc.year);
  }

  /** Midnight before the first of a month; month 12 is the next January. */
  function MonthSecond(year: int, mon: int): int
    requires 0 <= mon <= 12
  {
    DAY * (YearStart(year) + MonthStart(IsLeap(year), mon))
  }

  lemma MonthSecondIs(year: int, mon: int)
    requires 0 <= mon <= 12
    ensures MonthSecond(year, mon) == DAY * (YearStart(year) + MonthStart(IsLeap(year), mon))
  {
  }

  lemma UnpackMonth(mon: int, year: int)
    requires 0 <= mon <= 12 && year >= 0
    ensures MonthTime(mon + 16 * year) == MonthSecond(year, mon)
  {
    hide DayNumber, MonthSecond;
    MonthDigits(mon, year);
    FirstOfMonth(year, mon);
    MonthSecondIs(year, mon);
  }

  /** A date lies between the first of its month and the first of the next. */
  lemma InMonthSpan(d: Date)
    requires InMonth(d)
    ensures MonthSecond(d.year, d.mon) <= DAY * DayNumber(d.year, d.mon, d.mday)
    ensures DAY * DayNumber(d.year, d.mon, d.mday) + DAY <= MonthSecond(d.year, d.mon + 1)
  {
    hide YearStart, IsLeap, DayNumber, MonthStart;
    DayNumberOf(d);
  }

  lemma UnpackYear(year: int)
    ensures YearTime(year) == MonthSecond(year, 0) == DAY * YearStart(year)
  {
    hide YearStart, IsLeap, DayNumber;
    FirstOfMonth(year, 0);
  }

  /** Month 12 carries into the year. */
  lemma MonthBounds(t: int)
    requires From1900(t)
    ensures
      var dc := GmTime(t);
      0 <= dc.mon < 12
      && MonthTime(MonthCode(t)) == MonthSecond(dc.year, dc.mon) <= t
      && t < NextMonth(t) == MonthSecond(dc.year, dc.mon + 1)
  {
    hide GmTime, DayNumber, MonthTime, MonthSecond, MonthStart, IsLeap;
    var dc := GmTime(t);
    TimeGmOfGmTime(t);
    UnpackMonth(dc.mon, dc.year);
    UnpackMonth(dc.mon + 1, dc.year);
    InMonthSpan(DateIn(dc));
  }

  lemma YearBounds(t: int)
    ensures
      var y := YearCode(t);
      YearTime(y) == MonthSecond(y, 0) <= t && t < NextYear(t) == MonthSecond(y + 1, 0)
  {
    hide GmTime, DayNumber, YearTime, MonthSecond, MonthStart, IsLeap, YearStart;
    var dc := GmTime(t);
    TimeGmOfGmTime(t);
    DayNumberRange(DateIn(dc));
    UnpackYear(dc.year);
    UnpackYear(dc.year + 1);
  }

  lemma DayNumberRange(d: Date)
    requires InMonth(d)
    ensures YearStart(d.year) <= DayNumber(d.year, d.mon, d.mday) < YearStart(d.year + 1)
  {
    hide YearStart, IsLeap, DayNumber, MonthStart;
    DayNumberOf(d);
    DateInYearIsUnique(d);
    YearStep(d.year);
  }

  // ----- before 1900 --------------------------------------------------------------------

  /** A negative number with a digit that is not zero: the remainder is negative
      and the quotient one too high. */
  lemma BorrowedDigit(lo: int, hi: int, radix: int)
    requires radix in {16, 32} && 0 < lo < radix && hi < 0
    ensures TruncMod(lo + radix * hi, radix) == lo - radix && TruncDiv(lo + radix * hi, radix) == hi + 1
  {
  }

  /** With one added every digit borrows. */
  lemma NextBorrows(t: int)
    requires !From1900(t)
    ensures
      var dc := GmTime(t);
      && NextHour(t) == TimeGm(Tm(0, 0, dc.hour - 31, dc.mday - 31, dc.mon - 15, dc.year + 1))
      && NextDay(t) == TimeGm(Tm(0, 0, 0, dc.mday - 31, dc.mon - 15, dc.year + 1))
      && NextMonth(t) == TimeGm(Tm(0, 0, 0, 1, dc.mon - 15, dc.year + 1))
  {
    hide GmTime, TimeGm, TruncMod, TruncDiv, MonthLength;
    var dc := GmTime(t);
    TimeGmOfGmTime(t);
    var months := dc.mon + 16 * dc.year;
    var days := dc.mday - 1 + 32 * months;
    BorrowedDigit(dc.hour + 1, days, 32);
    BorrowedDigit(dc.mday, months, 32);
    BorrowedDigit(dc.mon + 1, dc.year, 16);
  }

  /** Fifteen months back from the year after is three months back. */
  lemma ThreeMonthsBack(year: int, mon: int, mday: int)
    requires 0 <= mon < 12
    ensures DayNumber(year + 1, mon - 15, mday) <= DayNumber(year, mon, mday) - 84
  {
    hide YearStart, IsLeap, MonthStart;
    if mon >= 3 {
      MonthsApart(IsLeap(year), mon - 3, mon);
    } else {
      YearStep(year - 1);
      MonthsApart(IsLeap(year - 1), mon + 9, 12);
    }
  }

  lemma NextGoesBack(t: int)
    requires !From1900(t)
    ensures NextHour(t) <= t - 84 * DAY && NextDay(t) <= t - 84 * DAY && NextMonth(t) <= t - 84 * DAY
  {
    hide GmTime, DayNumber, NextHour, NextDay, NextMonth, MonthLength, MonthSecond;
    var dc := GmTime(t);
    TimeGmOfGmTime(t);
    NextBorrows(t);
    ThreeMonthsBack(dc.year, dc.mon, dc.mday - 31);
    ThreeMonthsBack(dc.year, dc.mon, 1);
    DaysOfMonth(dc.year, dc.mon, dc.mday);
  }

  lemma DaysOfMonth(year: int, mon: int, mday: int)
    ensures DayNumber(year, mon, mday) == DayNumber(year, mon, 1) + mday - 1
    ensures DayNumber(year, mon, mday - 31) == DayNumber(year, mon, mday) - 31
  {
  }

  /** The next hour, day and month are later exactly from 1900 on; before that
      each is at least 84 days earlier. The next year is always later. */
  lemma NextIsLater(t: int)
    ensures From1900(t) <==> t < NextHour(t)
    ensures From1900(t) <==> t < NextDay(t)
    ensures From1900(t) <==> t < NextMonth(t)
    ensures !From1900(t) ==>
              NextHour(t) <= t - 84 * DAY && NextDay(t) <= t - 84 * DAY && NextMonth(t) <= t - 84 * DAY
    ensures t < NextYear(t)
  {
    hide From1900, NextHour, NextDay, NextMonth, NextYear, MonthSecond;
    YearBounds(t);
    if From1900(t) {
      HourBounds(t);
      DayBounds(t);
      MonthBounds(t);
    } else {
      NextGoesBack(t);
    }
  }

  datatype Unit = Hour | Day | Month

  function Next(unit: Unit, t: int): int
  {
    match unit
    case Hour => NextHour(t)
    case Day => NextDay(t)
    case Month => NextMonth(t)
  }

  /** Where a drawing loop is after n turns. */
  function After(unit: Unit, t: int, n: nat): int
  {
    if n == 0 then t else Next(unit, After(unit, t, n - 1))
  }

  lemma EarlierBefore1900(t1: int, t2: int)
    requires t1 <= t2 && !From1900(t2)
    ensures !From1900(t1)
  {
    hide DateOf, ClockOf;
    YearsInOrder(t1 / DAY, t2 / DAY);
  }

  lemma StepBack(unit: Unit, t: int)
    requires !From1900(t)
    ensures Next(unit, t) <= t - 84 * DAY && !From1900(Next(unit, t))
  {
    hide From1900, NextHour, NextDay, NextMonth;
    NextGoesBack(t);
    EarlierBefore1900(Next(unit, t), t);
  }

  /** So a loop that starts before 1900 goes back for ever: it never reaches an
      end that is later than its start. */
  lemma {:induction false} LoopNeverEnds(unit: Unit, t: int, n: nat)
    requires !From1900(t)
    ensures After(unit, t, n) <= t - 84 * DAY * n && !From1900(After(unit, t, n))
  {
    hide From1900, Next;
    if n > 0 {
      LoopNeverEnds(unit, t, n - 1);
      StepBack(unit, After(unit, t, n - 1));
    }
  }

  // ----- how far the arithmetic carries ----------------------------------------------

  predicate FitsInt(n: int)
  {
    -0x8000_0000 <= n < 0x8000_0000
  }

  /** The products are computed in int before they are widened to long, so the
      hour code is right up to the end of the year 132971 and overflows in
      every later year, whatever the size of long. */
  lemma HourCodeFitsInt(t: int)
    requires From1900(t)
    ensures FitsInt(HourCode(t)) <==> GmTime(t).year + 1900 <= 132971
    ensures FitsInt(HourCode(t)) ==> FitsInt(DayCode(t)) && FitsInt(MonthCode(t)) && FitsInt(HourCode(t) + 1)
  {
    hide GmTime, IsLeap, MonthStart;
    TimeGmOfGmTime(t);
  }

  /** The hour after the last one of 1899 comes out as an hour of the August
      before. */
  lemma FailsBefore1900() returns (t: int)
    ensures GmTime(t) == Tm(0, 0, 23, 31, 11, -1)
    ensures NextHour(t) == TimeGm(Tm(0, 0, -8, 0, -4, 0)) < t
  {
    hide GmTime, TimeGm, NextHour;
    var dc := Tm(0, 0, 23, 31, 11, -1);
    t := TimeGm(dc);
    assert InRange(dc);
    GmTimeOfTimeGm(dc);
    NextBorrows(t);
    NextGoesBack(t);
  }
}
