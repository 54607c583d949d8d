/** TimeGraph::define_x of graph/TimeGraph.cc: the axis limits and the ranges
    drawn between them. */
module TimeAxis {
  import opened Calendar
  import opened TimeCodes

  type Range = (int, int)

  /** The ranges follow one another without gap or overlap from a to b, and none
      is empty. */
  predicate Covers(ranges: seq<Range>, a: int, b: int)
  {
    if ranges == [] then a == b
    else
      var last := ranges[|ranges| - 1];
      last.1 == b && last.0 < b && Covers(ranges[..|ranges| - 1], a, last.0)
  }

  predicate Contains(r: Range, x: int)
  {
    r.0 <= x < r.1
  }

  lemma CoversNothing(a: int)
    ensures Covers([], a, a)
  {
  }

  lemma CoversExtend(ranges: seq<Range>, a: int, b: int, c: int)
    requires Covers(ranges, a, b) && b < c
    ensures Covers(ranges + [(b, c)], a, c)
  {
    assert (ranges + [(b, c)])[..|ranges|] == ranges;
  }

  /** Exactly the times from a up to b lie in a range, each in exactly one. */
  lemma {:induction false} CoversEachOnce(ranges: seq<Range>, a: int, b: int, x: int)
    requires Covers(ranges, a, b)
    ensures a <= b
    ensures a <= x < b <==> exists i :: 0 <= i < |ranges| && Contains(ranges[i], x)
    ensures forall i, j :: 0 <= i < j < |ranges| && Contains(ranges[i], x) ==> !Contains(ranges[j], x)
  {
    if ranges != [] {
      var m := |ranges| - 1;
      CoversEachOnce(ranges[..m], a, ranges[m].0, x);
      assert forall i :: 0 <= i < m ==> ranges[..m][i] == ranges[i];
      if a <= x < ranges[m].0 {
        var i :| 0 <= i < m && Contains(ranges[..m][i], x);
        assert Contains(ranges[i], x);
      } else if a <= x < b {
        assert Contains(ranges[m], x);
      }
    }
  }

  /** Every range is width seconds long. */
  predicate Even(ranges: seq<Range>, width: int)
  {
    forall r :: r in ranges ==> r.1 - r.0 == width
  }

  predicate MonthsOf(y: int, ranges: seq<Range>)
  {
    |ranges| <= 12 && forall m :: 0 <= m < |ranges| ==> ranges[m] == (MonthSecond(y, m), MonthSecond(y, m + 1))
  }

  predicate YearsFrom(y: int, ranges: seq<Range>)
  {
    forall k :: 0 <= k < |ranges| ==> ranges[k] == (MonthSecond(y + k, 0), MonthSecond(y + k + 1, 0))
  }

  class TimeGraph {
    var start: int
    var end: int
    var ranges: seq<Range>

    /** Graph::define_x */
    method Limits(start: int, end: int)
      modifies this`start, this`end
      ensures this.start == start && this.end == end
    {
      this.start, this.end := start, end;
    }

    /** Graph::range_x */
    method RangeX(xmin: int, xmax: int)
      modifies this`ranges
      ensures ranges == old(ranges) + [(xmin, xmax)]
    {
      ranges := ranges + [(xmin, xmax)];
    }

    /** The axis of one hour, in ten minutes. */
    method HourAxis(h: int, ghost t0: int)
      requires From1900(t0) && h == HourCode(t0)
      modifies this
      ensures start == t0 - t0 % 3600 && end == start + 3600
      ensures old(ranges) <= ranges && Covers(ranges[|old(ranges)|..], start, end)
      ensures Even(ranges[|old(ranges)|..], 600)
    {
      hide HourCode, HourTime, From1900;
      HourBounds(t0);
      var ts, te := HourTime(h), HourTime(h + 1);
      Limits(ts, te);
      var t := ts;
      ghost var added: seq<Range> := [];
      while t < te
        invariant start == ts && end == te
        invariant ts <= t <= te && (te - t) % 600 == 0
        invariant ranges == old(ranges) + added && Covers(added, ts, t) && Even(added, 600)
      {
        CoversExtend(added, ts, t, t + 600);
        RangeX(t, t + 600);
        added := added + [(t, t + 600)];
        t := t + 600;
      }
      assert ranges[|old(ranges)|..] == added;
    }

    /** The axis of one day, in hours. */
    method DayAxis(d: int, ghost t0: int)
      requires From1900(t0) && d == DayCode(t0)
      modifies this
      ensures start == t0 - t0 % DAY && end == start + DAY
      ensures old(ranges) <= ranges && Covers(ranges[|old(ranges)|..], start, end)
      ensures Even(ranges[|old(ranges)|..], 3600)
    {
      hide DayCode, DayTime, NextHour, From1900, OnTheHour;
      DayBounds(t0);
      MidnightIsOnTheHour(t0);
      var ts, te := DayTime(d), DayTime(d + 1);
      Limits(ts, te);
      assert From1900(ts) by { DayFrom1900(t0); }
      var t := ts;
      ghost var added: seq<Range> := [];
      while t < te
        invariant start == ts && end == te
        invariant ts <= t <= te && OnTheHour(t)
        invariant ranges == old(ranges) + added && Covers(added, ts, t) && Even(added, 3600)
      {
        HourStepsForward(ts, te, t);
        CoversExtend(added, ts, t, NextHour(t));
        RangeX(t, NextHour(t));
        added := added + [(t, NextHour(t))];
        t := NextHour(t);
      }
      assert ranges[|old(ranges)|..] == added;
    }

    /** The axis of one month, in days. */
    method MonthAxis(m: int, ghost t0: int)
      requires From1900(t0) && m == MonthCode(t0)
      modifies this
      ensures
        var dc := GmTime(t0);
        0 <= dc.mon < 12 && start == MonthSecond(dc.year, dc.mon) && end == MonthSecond(dc.year, dc.mon + 1)
      ensures old(ranges) <= ranges && Covers(ranges[|old(ranges)|..], start, end)
      ensures Even(ranges[|old(ranges)|..], DAY)
    {
      hide GmTime, MonthCode, MonthTime, NextDay, From1900, MonthSecond, AtMidnight;
      MonthBounds(t0);
      var ts, te := MonthTime(m), MonthTime(m + 1);
      Limits(ts, te);
      MonthStartsDay(GmTime(t0).year, GmTime(t0).mon);
      MonthStartsDay(GmTime(t0).year, GmTime(t0).mon + 1);
      assert From1900(ts) by { MonthFrom1900(t0); }
      var t := ts;
      ghost var added: seq<Range> := [];
      while t < te
        invariant start == ts && end == te
        invariant ts <= t <= te && AtMidnight(t)
        invariant ranges == old(ranges) + added && Covers(added, ts, t) && Even(added, DAY)
      {
        DayStepsForward(ts, te, t);
        CoversExtend(added, ts, t, NextDay(t));
        RangeX(t, NextDay(t));
        added := added + [(t, NextDay(t))];
        t := NextDay(t);
      }
      assert ranges[|old(ranges)|..] == added;
    }

    /** The axis of one year, in months. */
    method YearAxis(y: int)
      requires y >= 0
      modifies this
      ensures start == MonthSecond(y, 0) && end == MonthSecond(y + 1, 0)
      ensures old(ranges) <= ranges && Covers(ranges[|old(ranges)|..], start, end)
      ensures MonthsOf(y, ranges[|old(ranges)|..]) && |ranges| == |old(ranges)| + 12
    {
      hide YearTime, NextMonth, MonthSecond;
      UnpackYear(y);
      UnpackYear(y + 1);
      DecemberEnds(y);
      var ts, te := YearTime(y), YearTime(y + 1);
      Limits(ts, te);
      var t := ts;
      ghost var added: seq<Range> := [];
      while t < te
        invariant start == ts && end == te
        invariant |added| <= 12 && t == MonthSecond(y, |added|)
        invariant ranges == old(ranges) + added && Covers(added, ts, t)
        invariant MonthsOf(y, added)
        decreases te - t
      {
        MonthStepsForward(y, |added|);
        CoversExtend(added, ts, t, NextMonth(t));
        RangeX(t, NextMonth(t));
        added := added + [(t, NextMonth(t))];
        t := NextMonth(t);
      }
      assert ranges[|old(ranges)|..] == added;
      MonthsBeforeEnd(y, |added|);
    }

    /** An axis of whole years. */
    method YearsAxis(ys: int, ye: int)
      requires 0 <= ys < ye
      modifies this
      ensures start == MonthSecond(ys, 0) && end == MonthSecond(ye, 0)
      ensures old(ranges) <= ranges && Covers(ranges[|old(ranges)|..], start, end)
      ensures YearsFrom(ys, ranges[|old(ranges)|..]) && |ranges| == |old(ranges)| + ye - ys
    {
      hide YearTime, NextYear, MonthSecond, YearStart, Covers;
      CoversNothing(YearTime(ys));
      UnpackYear(ys);
      UnpackYear(ye);
      var ts, te := YearTime(ys), YearTime(ye);
      Limits(ts, te);
      YearsInOrderStrictly(ys, ye);
      var t := ts;
      ghost var added: seq<Range> := [];
      while t < te
        invariant start == ts && end == te
        invariant |added| <= ye - ys && t == MonthSecond(ys + |added|, 0)
        invariant ranges == old(ranges) + added && Covers(added, ts, t)
        invariant YearsFrom(ys, added)
        decreases te - t
      {
        YearStepsForward(ys + |added|);
        CoversExtend(added, ts, t, NextYear(t));
        RangeX(t, NextYear(t));
        added := added + [(t, NextYear(t))];
        t := NextYear(t);
      }
      assert ranges[|old(ranges)|..] == added;
      if ys + |added| < ye {
        YearsInOrderStrictly(ys + |added|, ye);
      }
    }

    /** The axis is the hour, day or month that holds both times, or else the
        years that hold them; the ranges cover it exactly. */
    method DefineX(t0: int, t1: int)
      requires t0 <= t1 && From1900(t0)
      modifies this
      ensures start <= t0 && t1 < end
      ensures HourCode(t0) == HourCode(t1) ==> end == start + 3600
      ensures HourCode(t0) != HourCode(t1) && DayCode(t0) == DayCode(t1) ==> end == start + DAY
      ensures HourCode(t0) != HourCode(t1) && DayCode(t0) != DayCode(t1) ==>
                if MonthCode(t0) == MonthCode(t1) then
                  var dc := GmTime(t0);
                  0 <= dc.mon < 12 && start == MonthSecond(dc.year, dc.mon) && end == MonthSecond(dc.year, dc.mon + 1)
                else
                  start == MonthSecond(YearCode(t0), 0) && end == MonthSecond(YearCode(t1) + 1, 0)
      ensures old(ranges) <= ranges && Covers(ranges[|old(ranges)|..], start, end)
    {
      hide HourCode, DayCode, MonthCode, YearCode, GmTime, MonthSecond, Covers, From1900, MonthTime, YearTime, NextMonth, NextYear;
      SameHourOrDay(t0, t1);
      LaterFrom1900(t0, t1);
      if HourCode(t0) == HourCode(t1) {
        HourAxis(HourCode(t0), t0);
      } else if DayCode(t0) == DayCode(t1) {
        DayAxis(DayCode(t0), t0);
      } else if MonthCode(t0) == MonthCode(t1) {
        MonthBounds(t0);
        MonthBounds(t1);
        SameMonth(t0, t1);
        MonthAxis(MonthCode(t0), t0);
      } else {
        YearBounds(t0);
        YearBounds(t1);
        YearFrom1900(t0);
        if YearCode(t0) == YearCode(t1) {
          YearAxis(YearCode(t0));
        } else {
          YearsAxis(YearCode(t0), YearCode(t1) + 1);
        }
      }
    }
  }

  // ----- lemmas for the loops ------------------------------------------------------

  predicate OnTheHour(t: int) { t % 3600 == 0 }

  predicate AtMidnight(t: int) { t % DAY == 0 }

  lemma MidnightIsOnTheHour(t: int)
    ensures OnTheHour(t - t % DAY) && OnTheHour(t - t % DAY + DAY)
  {
    assert t - t % DAY == DAY * (t / DAY);
  }

  lemma HourAfter(te: int, t: int)
    requires t < te && OnTheHour(t) && OnTheHour(te)
    ensures t - t % 3600 == t && t + 3600 <= te && OnTheHour(t + 3600)
  {
  }

  lemma MidnightAfter(te: int, t: int)
    requires t < te && AtMidnight(t) && AtMidnight(te)
    ensures t - t % DAY == t && t + DAY <= te && AtMidnight(t + DAY)
  {
  }

  lemma HourStepsForward(ts: int, te: int, t: int)
    requires From1900(ts) && ts <= t < te && OnTheHour(t) && OnTheHour(te)
    ensures NextHour(t) == t + 3600 <= te && OnTheHour(t + 3600)
  {
    hide NextHour, From1900, OnTheHour;
    LaterFrom1900(ts, t);
    HourBounds(t);
    HourAfter(te, t);
  }

  lemma DayStepsForward(ts: int, te: int, t: int)
    requires From1900(ts) && ts <= t < te && AtMidnight(t) && AtMidnight(te)
    ensures NextDay(t) == t + DAY <= te && AtMidnight(t + DAY)
  {
    hide NextDay, From1900, AtMidnight;
    LaterFrom1900(ts, t);
    DayBounds(t);
    MidnightAfter(te, t);
  }

  lemma YearFrom1900(t: int)
    requires From1900(t)
    ensures YearCode(t) >= 0
  {
  }

  lemma LaterFrom1900(t0: int, t: int)
    requires From1900(t0) && t0 <= t
    ensures From1900(t)
  {
    hide GmTime;
    CodesInOrder(t0, t);
  }

  /** The first second of 1900 and everything after it is from 1900. */
  lemma SecondFrom1900(t: int)
    requires DAY * YearStart(0) <= t
    ensures From1900(t)
  {
    hide YearStart, GmTime;
    YearBounds(t);
    UnpackYear(YearCode(t) + 1);
    if YearCode(t) + 1 <= 0 {
      YearsApart(YearCode(t) + 1, 0);
    }
    YearCodeIs(t);
  }

  lemma YearCodeIs(t: int)
    ensures YearCode(t) == GmTime(t).year
  {
  }

  lemma From1900Means(t: int)
    requires From1900(t)
    ensures DAY * YearStart(0) <= t
  {
    hide YearStart, GmTime;
    YearBounds(t);
    UnpackYear(YearCode(t));
    YearCodeIs(t);
    YearsApart(0, YearCode(t));
  }

  lemma DayFrom1900(t: int)
    requires From1900(t)
    ensures From1900(t - t % DAY)
  {
    hide YearStart, From1900;
    From1900Means(t);
    SecondFrom1900(t - t % DAY);
  }

  lemma MonthFrom1900(t: int)
    requires From1900(t)
    ensures From1900(MonthTime(MonthCode(t)))
  {
    hide GmTime, MonthTime;
    MonthBounds(t);
    MonthSecondFrom1900(GmTime(t).year, GmTime(t).mon);
  }

  lemma MonthSecondFrom1900(year: int, mon: int)
    requires year >= 0 && 0 <= mon <= 12
    ensures From1900(MonthSecond(year, mon))
  {
    hide YearStart, IsLeap, From1900;
    YearsApart(0, year);
    SecondFrom1900(MonthSecond(year, mon));
  }

  lemma MonthStartsDay(year: int, mon: int)
    requires 0 <= mon <= 12
    ensures AtMidnight(MonthSecond(year, mon))
  {
    hide YearStart, IsLeap, MonthStart;
  }

  lemma DecemberEnds(y: int)
    ensures MonthSecond(y, 12) == MonthSecond(y + 1, 0)
  {
    YearStep(y);
    hide YearStart;
  }

  lemma MonthSecondsInOrder(y: int, a: int, b: int)
    requires 0 <= a < b <= 12
    ensures MonthSecond(y, a) < MonthSecond(y, b)
  {
    hide YearStart, IsLeap, MonthStart;
    MonthsApart(IsLeap(y), a, b);
  }

  lemma GmTimeOfMonth(y: int, m: int)
    requires 0 <= m < 12
    ensures GmTime(MonthSecond(y, m)) == Tm(0, 0, 0, 1, m, y)
  {
    var tm := Tm(0, 0, 0, 1, m, y);
    hide GmTime, YearStart;
    GmTimeOfTimeGm(tm);
    DayNumberOf(Date(y, m, 1));
  }

  lemma MonthStepsForward(y: int, m: int)
    requires y >= 0 && 0 <= m <= 12 && MonthSecond(y, m) < MonthSecond(y + 1, 0)
    ensures m < 12 && NextMonth(MonthSecond(y, m)) == MonthSecond(y, m + 1)
    ensures MonthSecond(y, m) < MonthSecond(y, m + 1) <= MonthSecond(y + 1, 0)
  {
    hide GmTime, MonthSecond, MonthTime;
    DecemberEnds(y);
    GmTimeOfMonth(y, m);
    UnpackMonth(m + 1, y);
    MonthSecondsInOrder(y, m, m + 1);
    if m + 1 < 12 {
      MonthSecondsInOrder(y, m + 1, 12);
    }
  }

  lemma MonthsBeforeEnd(y: int, m: int)
    requires 0 <= m <= 12 && MonthSecond(y, m) >= MonthSecond(y + 1, 0)
    ensures m == 12
  {
    hide MonthSecond;
    DecemberEnds(y);
    if m < 12 {
      MonthSecondsInOrder(y, m, 12);
    }
  }

  lemma YearsInOrderStrictly(a: int, b: int)
    requires a < b
    ensures MonthSecond(a, 0) < MonthSecond(b, 0)
  {
    hide YearStart, IsLeap;
    YearsApart(a, b);
  }

  lemma YearStepsForward(y: int)
    ensures NextYear(MonthSecond(y, 0)) == MonthSecond(y + 1, 0)
    ensures MonthSecond(y, 0) < MonthSecond(y + 1, 0)
  {
    hide GmTime, MonthSecond, YearTime;
    GmTimeOfMonth(y, 0);
    UnpackYear(y + 1);
    YearsInOrderStrictly(y, y + 1);
  }

  /** Equal hour or day codes mean that the hour or day has not ended. */
  lemma SameHourOrDay(t0: int, t1: int)
    requires t0 <= t1
    ensures HourCode(t0) == HourCode(t1) ==> t1 < t0 - t0 % 3600 + 3600
    ensures DayCode(t0) == DayCode(t1) ==> t1 < t0 - t0 % DAY + DAY
    ensures YearCode(t0) <= YearCode(t1)
  {
    hide HourCode, DayCode, MonthCode, YearCode;
    CodesInOrder(t0, t1);
  }

  /** Equal month codes mean the same month of the same year. */
  lemma SameMonth(t0: int, t1: int)
    requires MonthCode(t0) == MonthCode(t1)
    ensures GmTime(t0).mon == GmTime(t1).mon && GmTime(t0).year == GmTime(t1).year
  {
    hide GmTime;
    TimeGmOfGmTime(t0);
    TimeGmOfGmTime(t1);
  }
}
