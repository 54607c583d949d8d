/** The date printer of lib/utils.c and the date parser of lib/parse_date.cc. */
module DateText {
  import opened Text
  import opened Calendar

  const INT_MAX: int := 0x7FFF_FFFF

  // ----- printing: strftime "%a, %d %b %Y %H:%M:%S GMT" -------------------------------

  function DayName(d: int): string
    requires 0 <= d < 7
  {
    ["Sun", "Mon", "Tue", "Wed", "Thu", "Fri", "Sat"][d]
  }

  function MonthName(mon: int): string
    requires 0 <= mon < 12
  {
    ["Jan", "Feb", "Mar", "Apr", "May", "Jun", "Jul", "Aug", "Sep", "Oct", "Nov", "Dec"][mon]
  }

  function YearText(year: int): string
  {
    if year >= 0 then Decimal(year) else "-" + Decimal(-year)
  }

  function ClockText(c: Clock): string
    requires InDay(c)
  {
    TwoDigits(c.hour) + ":" + TwoDigits(c.min) + ":" + TwoDigits(c.sec)
  }

  function DateText(t: int): string
  {
    var utc := GmTime(t);
    TimeGmOfGmTime(t);
    DayName(Weekday(t)) + "," + DateTail(utc)
  }

  function DateTail(utc: Tm): string
    requires InRange(utc)
  {
    " " + TwoDigits(utc.mday) + (" " + MonthName(utc.mon) + (" " + YearText(utc.year + 1900)
    + (" " + ClockText(ClockIn(utc)) + " GMT")))
  }

  // ----- parsing, on what is left of the text -----------------------------------------

  function TakeInt(s: string): Option<(int, string)>
  {
    var n := DigitRun(s);
    if n == 0 then None else Some((DecimalValue(s[..n]), s[n..]))
  }

  function TakeWord(s: string): Option<(string, string)>
  {
    var n := AlphaRun(s);
    if n == 0 then None else Some((s[..n], s[n..]))
  }

  /** Past "day,", if there is one. */
  function SkipDay(s: string): string
  {
    match TakeWord(s)
    case Some((_, rest)) => if rest != [] && rest[0] == ',' then rest[1..] else s
    case None => s
  }

  function TakeMday(s: string): Option<(int, string)>
  {
    var (mday, rest) :- TakeInt(SkipWs(s));
    if mday <= 0 || mday > 31 then None else Some((mday, rest))
  }

  function MonthNumber(word: string): Option<int>
  {
    if word == "jan" then Some(0) else if word == "feb" then Some(1)
    else if word == "mar" then Some(2) else if word == "apr" then Some(3)
    else if word == "may" then Some(4) else if word == "jun" then Some(5)
    else if word == "jul" then Some(6) else if word == "aug" then Some(7)
    else if word == "sep" then Some(8) else if word == "oct" then Some(9)
    else if word == "nov" then Some(10) else if word == "dec" then Some(11)
    else None
  }

  function TakeMonth(s: string): Option<(int, string)>
  {
    var (word, rest) :- TakeWord(SkipWs(s));
    var mon :- MonthNumber(Lower(word));
    Some((mon, rest))
  }

  /** Years from 1900 are rebased; earlier ones are taken to count from 1900. */
  function TakeYear(s: string): Option<(int, string)>
  {
    var (year, rest) :- TakeInt(SkipWs(s));
    Some((if year >= 1900 then year - 1900 else year, rest))
  }

  /** Hours, minutes and, if there is another colon, seconds. */
  function TakeClock(s: string): Option<(Clock, string)>
  {
    var (hour, s1) :- TakeInt(SkipWs(s));
    if s1 == [] || s1[0] != ':' then None
    else
      var (min, s2) :- TakeInt(s1[1..]);
      if s2 == [] || s2[0] != ':' then Some((Clock(hour, min, 0), s2))
      else
        var (sec, s3) :- TakeInt(s2[1..]);
        Some((Clock(hour, min, sec), s3))
  }

  /** The zone's offset in seconds; nothing at all means UTC. */
  function TakeZone(zones: map<string, int>, s: string): Option<int>
  {
    var z := SkipWs(s);
    if z == [] then Some(0)
    else if z[0] == '+' || z[0] == '-' then
      if |z| < 5 || !IsDigit(z[1]) || !IsDigit(z[2]) || !IsDigit(z[3]) || !IsDigit(z[4]) then None
      else
        var zh := 10 * DigitValue(z[1]) + DigitValue(z[2]);
        var zm := 10 * DigitValue(z[3]) + DigitValue(z[4]);
        var offset := 3600 * zh + 60 * zm;
        Some(if z[0] == '-' then -offset else offset)
    else
      var (word, _) :- TakeWord(z);
      if Upper(word) in zones then Some(zones[Upper(word)]) else None
  }

  function ParseStd(zones: map<string, int>, s: string): Option<(Tm, int)>
  {
    var (mday, s1) :- TakeMday(SkipDay(s));
    var (mon, s2) :- TakeMonth(s1);
    var (year, s3) :- TakeYear(s2);
    var (c, s4) :- TakeClock(s3);
    var zone :- TakeZone(zones, s4);
    Some((Tm(c.sec, c.min, c.hour, mday, mon, year), zone))
  }

  /** parse_date: the time, or 0 if the text makes no sense. */
  function ParseDate(zones: map<string, int>, s: string): int
  {
    match ParseStd(zones, s)
    case None => 0
    case Some((tm, zone)) => TimeGm(tm) - zone
  }

  // ----- what the parser makes of the printer's text ------------------------------------

  lemma SkipOneSpace(s: string)
    requires s == [] || (s[0] != ' ' && s[0] != '\t')
    ensures SkipWs(" " + s) == s && SkipWs(s) == s
  {
    assert (" " + s)[1..] == s;
  }

  lemma TakeIntOf(digits: string, rest: string)
    requires digits != [] && AllDigits(digits) && (rest == [] || !IsDigit(rest[0]))
    ensures TakeInt(digits + rest) == Some((DecimalValue(digits), rest))
  {
    DigitRunOf(digits, rest);
    assert (digits + rest)[..|digits|] == digits;
    assert (digits + rest)[|digits|..] == rest;
  }

  lemma TakeWordOf(word: string, rest: string)
    requires word != [] && AllAlpha(word) && (rest == [] || !IsAlpha(rest[0]))
    ensures TakeWord(word + rest) == Some((word, rest))
  {
    AlphaRunOf(word, rest);
    assert (word + rest)[..|word|] == word;
    assert (word + rest)[|word|..] == rest;
  }

  lemma SkipDayName(d: int, rest: string)
    requires 0 <= d < 7
    ensures SkipDay(DayName(d) + "," + rest) == rest
  {
    TakeWordOf(DayName(d), "," + rest);
    assert DayName(d) + "," + rest == DayName(d) + ("," + rest);
    assert ("," + rest)[1..] == rest;
  }

  lemma TakePrintedMday(mday: int, rest: string)
    requires 1 <= mday <= 31 && rest != [] && rest[0] == ' '
    ensures TakeMday(" " + TwoDigits(mday) + rest) == Some((mday, rest))
  {
    var d := TwoDigits(mday);
    assert " " + d + rest == " " + (d + rest);
    SkipOneSpace(d + rest);
    TakeIntOf(d, rest);
    DecimalValueOfTwoDigits(mday);
  }

  lemma MonthNumberOfName(mon: int)
    requires 0 <= mon < 12
    ensures AllAlpha(MonthName(mon)) && |MonthName(mon)| == 3
    ensures MonthNumber(Lower(MonthName(mon))) == Some(mon)
  {
    var name, low := MonthName(mon), Lower(MonthName(mon));
    assert low == [ToLower(name[0]), ToLower(name[1]), ToLower(name[2])];
  }

  lemma TakePrintedMonth(mon: int, rest: string)
    requires 0 <= mon < 12 && rest != [] && rest[0] == ' '
    ensures TakeMonth(" " + MonthName(mon) + rest) == Some((mon, rest))
  {
    hide MonthName, MonthNumber;
    var name := MonthName(mon);
    MonthNumberOfName(mon);
    assert " " + name + rest == " " + (name + rest);
    assert IsAlpha(name[0]);
    SkipOneSpace(name + rest);
    TakeWordOf(name, rest);
  }

  lemma TakePrintedYear(year: int, rest: string)
    requires year >= 0 && rest != [] && rest[0] == ' '
    ensures TakeYear(" " + YearText(year) + rest) == Some((if year >= 1900 then year - 1900 else year, rest))
  {
    var d := Decimal(year);
    assert " " + d + rest == " " + (d + rest);
    assert IsDigit(d[0]);
    SkipOneSpace(d + rest);
    TakeIntOf(d, rest);
    DecimalValueOfDecimal(year);
  }

  /** The sign of a negative year is not understood. */
  lemma TakeNegativeYear(year: int, rest: string)
    requires year < 0
    ensures TakeYear(" " + YearText(year) + rest) == None
  {
    var s := YearText(year) + rest;
    assert " " + YearText(year) + rest == " " + s;
    assert s[0] == '-';
    SkipOneSpace(s);
  }

  lemma TakePrintedClock(c: Clock, rest: string)
    requires InDay(c) && rest != [] && rest[0] == ' '
    ensures TakeClock(" " + ClockText(c) + rest) == Some((c, rest))
  {
    var h, m, s := TwoDigits(c.hour), TwoDigits(c.min), TwoDigits(c.sec);
    var s2 := ":" + (s + rest);
    var s1 := ":" + (m + s2);
    assert " " + ClockText(c) + rest == " " + (h + s1);
    assert IsDigit(h[0]);
    SkipOneSpace(h + s1);
    TakeIntOf(h, s1);
    TakeIntOf(m, s2);
    TakeIntOf(s, rest);
    assert s1[1..] == m + s2 && s2[1..] == s + rest;
    DecimalValueOfTwoDigits(c.hour);
    DecimalValueOfTwoDigits(c.min);
    DecimalValueOfTwoDigits(c.sec);
  }

  lemma TakePrintedZone(zones: map<string, int>)
    requires "GMT" in zones
    ensures TakeZone(zones, " GMT") == Some(zones["GMT"])
  {
    assert " GMT" == " " + "GMT";
    SkipOneSpace("GMT");
    TakeWordOf("GMT", "");
    assert "GMT" + "" == "GMT";
    assert Upper("GMT") == "GMT";
  }

  /** The whole date, field by field; the year comes back as it was, or 1900
      too large if it is before 1900, or not at all. */
  lemma ParsePrinted(zones: map<string, int>, t: int)
    requires "GMT" in zones
    ensures
      var tm := GmTime(t);
      var year := tm.year + 1900;
      ParseStd(zones, DateText(t)) ==
      if year < 0 then None
      else Some((tm.(year := if year >= 1900 then year - 1900 else year), zones["GMT"]))
  {
    hide GmTime, TimeGm, DayNumber, Weekday, DayName, MonthName, YearText, ClockText, TwoDigits, DateText, DateTail,
         ParseStd, TakeMday, TakeMonth, TakeYear, TakeClock, TakeZone, SkipDay, IsLeap, MonthStart, Seconds;
    var tm := GmTime(t);
    TimeGmOfGmTime(t);
    var c := ClockIn(tm);
    var s5 := " GMT";
    var s4 := " " + ClockText(c) + s5;
    var s3 := " " + YearText(tm.year + 1900) + s4;
    var s2 := " " + MonthName(tm.mon) + s3;
    var s1 := " " + TwoDigits(tm.mday) + s2;
    DateTextParts(t);
    SkipDayName(Weekday(t), s1);
    TakePrintedMday(tm.mday, s2);
    TakePrintedMonth(tm.mon, s3);
    if tm.year + 1900 < 0 {
      TakeNegativeYear(tm.year + 1900, s4);
    } else {
      TakePrintedYear(tm.year + 1900, s4);
      TakePrintedClock(c, s5);
      TakePrintedZone(zones);
    }
    ParseStdSteps(zones, DateText(t));
  }

  lemma DateTextParts(t: int)
    ensures InRange(GmTime(t))
    ensures
      var tm := GmTime(t);
      var s4 := " " + ClockText(ClockIn(tm)) + " GMT";
      var s3 := " " + YearText(tm.year + 1900) + s4;
      var s2 := " " + MonthName(tm.mon) + s3;
      DateText(t) == DayName(Weekday(t)) + "," + (" " + TwoDigits(tm.mday) + s2)
  {
    TimeGmOfGmTime(t);
    hide GmTime, TimeGm, DayNumber, Weekday, DayName, MonthName, YearText, ClockText, TwoDigits, MonthLength;
  }

  /** The parser, one field after the other. */
  lemma ParseStdSteps(zones: map<string, int>, s: string)
    ensures
      ParseStd(zones, s) ==
      match TakeMday(SkipDay(s))
      case None => None
      case Some((mday, s1)) =>
        match TakeMonth(s1)
        case None => None
        case Some((mon, s2)) =>
          match TakeYear(s2)
          case None => None
          case Some((year, s3)) =>
            match TakeClock(s3)
            case None => None
            case Some((c, s4)) =>
              match TakeZone(zones, s4)
              case None => None
              case Some(zone) => Some((Tm(c.sec, c.min, c.hour, mday, mon, year), zone))
  {
    hide TakeMday, TakeMonth, TakeYear, TakeClock, TakeZone, SkipDay;
  }

  lemma WrongYearWrongTime(tm: Tm)
    requires InRange(tm)
    ensures TimeGm(tm.(year := tm.year + 1900)) > TimeGm(tm)
  {
    hide YearStart, IsLeap;
    YearsApart(tm.year, tm.year + 1900);
    DayNumberOf(DateIn(tm));
    DayNumberOf(DateIn(tm).(year := tm.year + 1900));
    MonthStartLeap(tm.mon);
  }

  lemma MonthStartLeap(mon: int)
    requires 0 <= mon < 12
    ensures MonthStart(false, mon) <= MonthStart(true, mon) <= MonthStart(false, mon) + 1
  {
  }

  /** Printing a time and parsing the text gives the time back exactly when its
      year is 1900 or later. */
  lemma DateRoundTrip(zones: map<string, int>, t: int)
    requires "GMT" in zones && zones["GMT"] == 0
    requires GmTime(t).year + 1900 <= INT_MAX
    ensures ParseDate(zones, DateText(t)) == t <==> GmTime(t).year + 1900 >= 1900
  {
    hide GmTime, DateText, ParseStd, TimeGm, InRange;
    ParsePrinted(zones, t);
    TimeGmOfGmTime(t);
    var tm := GmTime(t);
    if -1900 <= tm.year < 0 {
      WrongYearWrongTime(tm);
    }
    if t == 0 {
      EpochIs();
    }
  }

  /** The names of the days as they come round from the Epoch, a Thursday. */
  lemma DayNames(k: int)
    ensures
      var name := DayName(Weekday(k * DAY));
      && (k == 0 ==> name == "Thu") && (k == 1 ==> name == "Fri") && (k == 2 ==> name == "Sat")
      && (k == 3 ==> name == "Sun") && (k == 4 ==> name == "Mon") && (k == 5 ==> name == "Tue")
      && (k == 6 ==> name == "Wed")
      && name == DayName(Weekday((k + 7) * DAY))
  {
    assert k * DAY / DAY == k && (k + 7) * DAY / DAY == k + 7;
    assert (k + 7 + 4) % 7 == (k + 4) % 7;
  }

  lemma EpochText()
    ensures DateText(0) == "Thu, 01 Jan 1970 00:00:00 GMT"
  {
    hide GmTime, Weekday, DateText, YearText, ClockText, TwoDigits;
    EpochIs();
    WeekdaysFollow(0);
    DateTextParts(0);
    EpochParts();
  }

  lemma EpochParts()
    ensures YearText(1970) == "1970" && TwoDigits(1) == "01" && ClockText(Clock(0, 0, 0)) == "00:00:00"
  {
    Decimal1970();
    assert TwoDigits(0) == "00";
  }

  lemma Decimal1970()
    ensures Decimal(1970) == "1970"
  {
    assert Decimal(1) == "1" && Decimal(19) == Decimal(1) + "9" && Decimal(197) == Decimal(19) + "7";
  }

  // ----- the parser as written: a position that moves along the text ---------------------

  /** find_first_not_of(" \t", pos), with the end of the text for npos. */
  method SkipWsAt(s: string, pos0: nat) returns (pos: nat)
    requires pos0 <= |s|
    ensures pos0 <= pos <= |s| && s[pos..] == SkipWs(s[pos0..])
  {
    pos := pos0;
    while pos < |s| && (s[pos] == ' ' || s[pos] == '\t')
      invariant pos0 <= pos <= |s| && SkipWs(s[pos..]) == SkipWs(s[pos0..])
    {
      pos := pos + 1;
    }
  }

  method ParseWordAt(s: string, pos0: nat) returns (good: bool, pos: nat, word: string)
    requires pos0 <= |s|
    ensures pos0 <= pos <= |s|
    ensures good ==> TakeWord(s[pos0..]) == Some((word, s[pos..]))
    ensures !good ==> TakeWord(s[pos0..]) == None && pos == pos0
  {
    pos, word, good := pos0, "", false;
    while pos < |s| && IsAlpha(s[pos])
      invariant pos0 <= pos <= |s| && word == s[pos0..pos] && AllAlpha(word)
      invariant good == (pos > pos0)
    {
      word := word + [s[pos]];
      pos := pos + 1;
      good := true;
    }
    assert s[pos0..] == word + s[pos..];
    AlphaRunOf(word, s[pos..]);
  }

  method ParseIntAt(s: string, pos0: nat) returns (good: bool, pos: nat, n: int)
    requires pos0 <= |s|
    ensures pos0 <= pos <= |s|
    ensures good ==> TakeInt(s[pos0..]) == Some((n, s[pos..]))
    ensures !good ==> TakeInt(s[pos0..]) == None && pos == pos0
  {
    pos, n, good := pos0, 0, false;
    assert DecimalValue([]) == 0;
    hide DecimalValue, DigitValue, IsDigit, TakeInt, AllDigits;
    NoDigits();
    while pos < |s| && IsDigit(s[pos])
      invariant pos0 <= pos <= |s| && AllDigits(s[pos0..pos])
      invariant n == DecimalValue(s[pos0..pos])
      invariant good == (pos > pos0)
    {
      DigitAt(s, pos0, pos);
      n := 10 * n + DigitValue(s[pos]);
      pos := pos + 1;
      good := true;
    }
    TakeIntAt(s, pos0, pos);
  }

  lemma NoDigits()
    ensures AllDigits([])
  {
  }

  lemma DigitAt(s: string, pos0: nat, pos: nat)
    requires pos0 <= pos < |s| && AllDigits(s[pos0..pos]) && IsDigit(s[pos])
    ensures AllDigits(s[pos0..pos + 1])
    ensures DecimalValue(s[pos0..pos + 1]) == 10 * DecimalValue(s[pos0..pos]) + DigitValue(s[pos])
  {
    hide DecimalValue, AllDigits;
    OneMoreDigit(s[pos0..pos], s[pos]);
    assert s[pos0..pos + 1] == s[pos0..pos] + [s[pos]];
  }

  lemma TakeIntAt(s: string, pos0: nat, pos: nat)
    requires pos0 <= pos <= |s| && AllDigits(s[pos0..pos]) && (pos < |s| ==> !IsDigit(s[pos]))
    ensures TakeInt(s[pos0..]) == if pos == pos0 then None else Some((DecimalValue(s[pos0..pos]), s[pos..]))
  {
    var digits, rest := s[pos0..pos], s[pos..];
    assert s[pos0..] == digits + rest;
    DigitRunOf(digits, rest);
    assert (digits + rest)[..|digits|] == digits && (digits + rest)[|digits|..] == rest;
  }

  lemma OneMoreDigit(digits: string, c: char)
    requires AllDigits(digits) && IsDigit(c)
    ensures AllDigits(digits + [c])
    ensures DecimalValue(digits + [c]) == 10 * DecimalValue(digits) + DigitValue(c)
  {
    assert (digits + [c])[..|digits|] == digits;
  }

  /** parse_date_std: the same answer as the reading above, whatever the text. */
  method ParseDateStd(zones: map<string, int>, d: string) returns (good: bool, bdt: Tm, zone: int)
    ensures good ==> ParseStd(zones, d) == Some((bdt, zone))
    ensures !good ==> ParseStd(zones, d) == None
  {
    hide MonthNumber, SkipWs, TakeWord, TakeInt;
    bdt, zone := Tm(0, 0, 0, 0, 0, 0), 0;
    var pos, mday, mon, year, clock;
    pos := SkipDayAt(d);
    good, pos, mday := MdayAt(d, pos);
    if !good { return; }
    good, pos, mon := MonthAt(d, pos);
    if !good { return; }
    good, pos, year := YearAt(d, pos);
    if !good { return; }
    good, pos, clock := ClockAt(d, pos);
    if !good { return; }
    good, zone := ZoneAt(zones, d, pos);
    bdt := Tm(clock.sec, clock.min, clock.hour, mday, mon, year);
  }

  method SkipDayAt(d: string) returns (pos: nat)
    ensures pos <= |d| && d[pos..] == SkipDay(d)
  {
    var good, word;
    good, pos, word := ParseWordAt(d, 0);
    assert d[0..] == d;
    if good && pos < |d| && d[pos] == ',' {
      assert d[pos..][1..] == d[pos + 1..];
      pos := pos + 1;
    } else {
      pos := 0;
    }
  }

  method MdayAt(d: string, pos0: nat) returns (good: bool, pos: nat, mday: int)
    requires pos0 <= |d|
    ensures pos <= |d|
    ensures good ==> TakeMday(d[pos0..]) == Some((mday, d[pos..]))
    ensures !good ==> TakeMday(d[pos0..]) == None
  {
    hide SkipWs, TakeInt;
    pos := SkipWsAt(d, pos0);
    good, pos, mday := ParseIntAt(d, pos);
    good := good && 0 < mday <= 31;
  }

  const MONTHS: seq<string> :=
    ["jan", "feb", "mar", "apr", "may", "jun", "jul", "aug", "sep", "oct", "nov", "dec"]

  lemma MonthNumberIsIndex(word: string)
    ensures forall n :: 0 <= n < 12 && word == MONTHS[n] ==> MonthNumber(word) == Some(n)
    ensures MonthNumber(word).Some? ==> exists n :: 0 <= n < 12 && word == MONTHS[n]
  {
    forall n | 0 <= n < 12 && word == MONTHS[n]
      ensures MonthNumber(word) == Some(n)
    {
      assert n in {0, 1, 2, 3, 4, 5, 6, 7, 8, 9, 10, 11};
    }
    var m := MonthNumber(word);
    assert m.Some? ==> 0 <= m.value < 12 && word == MONTHS[m.value];
  }

  method MonthAt(d: string, pos0: nat) returns (good: bool, pos: nat, mon: int)
    requires pos0 <= |d|
    ensures pos <= |d|
    ensures good ==> TakeMonth(d[pos0..]) == Some((mon, d[pos..]))
    ensures !good ==> TakeMonth(d[pos0..]) == None
  {
    hide SkipWs, TakeWord, Lower, MonthNumber;
    mon := -1;
    pos := SkipWsAt(d, pos0);
    var word;
    good, pos, word := ParseWordAt(d, pos);
    if good {
      MonthNumberIsIndex(Lower(word));
      for n := 0 to 12
        invariant mon == -1 ==> forall k :: 0 <= k < n ==> Lower(word) != MONTHS[k]
        invariant mon != -1 ==> 0 <= mon < n && Lower(word) == MONTHS[mon]
      {
        if Lower(word) == MONTHS[n] {
          mon := n;
        }
      }
      good := mon != -1;
    }
  }

  method YearAt(d: string, pos0: nat) returns (good: bool, pos: nat, year: int)
    requires pos0 <= |d|
    ensures pos <= |d|
    ensures good ==> TakeYear(d[pos0..]) == Some((year, d[pos..]))
    ensures !good ==> TakeYear(d[pos0..]) == None
  {
    hide SkipWs, TakeInt;
    pos := SkipWsAt(d, pos0);
    good, pos, year := ParseIntAt(d, pos);
    if year >= 1900 {
      year := year - 1900;
    }
  }

  method ClockAt(d: string, pos0: nat) returns (good: bool, pos: nat, c: Clock)
    requires pos0 <= |d|
    ensures pos <= |d|
    ensures good ==> TakeClock(d[pos0..]) == Some((c, d[pos..]))
    ensures !good ==> TakeClock(d[pos0..]) == None
  {
    hide SkipWs, TakeInt;
    var hour, min, sec := 0, 0, 0;
    c := Clock(0, 0, 0);
    pos := SkipWsAt(d, pos0);
    good, pos, hour := ParseIntAt(d, pos);
    good := good && pos < |d| && d[pos] == ':';
    if good {
      assert d[pos..][1..] == d[pos + 1..];
      good, pos, min := ParseIntAt(d, pos + 1);
      if good && pos < |d| && d[pos] == ':' {
        assert d[pos..][1..] == d[pos + 1..];
        good, pos, sec := ParseIntAt(d, pos + 1);
      }
      c := Clock(hour, min, sec);
    }
  }

  method ZoneAt(zones: map<string, int>, d: string, pos0: nat) returns (good: bool, zone: int)
    requires pos0 <= |d|
    ensures good ==> TakeZone(zones, d[pos0..]) == Some(zone)
    ensures !good ==> TakeZone(zones, d[pos0..]) == None
  {
    hide SkipWs, TakeWord;
    zone := 0;
    var pos := SkipWsAt(d, pos0);
    if pos == |d| {
      return true, 0;
    }
    if d[pos] == '+' || d[pos] == '-' {
      good := pos + 4 < |d| && IsDigit(d[pos + 1]) && IsDigit(d[pos + 2])
              && IsDigit(d[pos + 3]) && IsDigit(d[pos + 4]);
      if good {
        var zh := 10 * DigitValue(d[pos + 1]) + DigitValue(d[pos + 2]);
        var zm := 10 * DigitValue(d[pos + 3]) + DigitValue(d[pos + 4]);
        zone := zh * 3600 + zm * 60;
        if d[pos] == '-' {
          zone := -zone;
        }
      }
    } else {
      var word;
      good, pos, word := ParseWordAt(d, pos);
      good := good && Upper(word) in zones;
      if good {
        zone := zones[Upper(word)];
      }
    }
  }

  /** parse_date on the text of time_t_to_822date. */
  method ParseDateText(zones: map<string, int>, d: string) returns (t: int)
    ensures t == ParseDate(zones, d)
  {
    hide ParseStd, TimeGm;
    var good, bdt, zone := ParseDateStd(zones, d);
    t := if good then TimeGm(bdt) - zone else 0;
  }
}
