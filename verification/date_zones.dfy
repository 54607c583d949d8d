/** What lib/parse_date.cc makes of any date written field by field: with or without
    the day and the seconds, and with every kind of zone. */
module DateZones {
  import opened Text
  import opened Calendar
  import opened DateText

  datatype Zone =
    | Missing
    | Ahead(zh: nat, zm: nat)    // "+hhmm": local time is ahead of UTC
    | Behind(zh: nat, zm: nat)   // "-hhmm"
    | Named(name: string)

  /** Numbers as their digits; an empty day or sec is left out. */
  datatype Fields = Fields(
    day: string, mday: string, month: string, year: string, hour: string, min: string, sec: string, zone: Zone)

  predicate Number(s: string) { s != "" && AllDigits(s) }

  predicate Letters(s: string) { s != "" && AllAlpha(s) }

  predicate GoodZone(z: Zone)
  {
    match z
    case Missing => true
    case Ahead(zh, zm) => zh < 100 && zm < 100
    case Behind(zh, zm) => zh < 100 && zm < 100
    case Named(name) => Letters(name)
  }

  predicate Good(f: Fields)
  {
    && (f.day == "" || Letters(f.day)) && Letters(f.month)
    && Number(f.mday) && Number(f.year) && Number(f.hour) && Number(f.min) && (f.sec == "" || Number(f.sec))
    && GoodZone(f.zone)
  }

  function ZoneText(z: Zone): string
    requires GoodZone(z)
  {
    match z
    case Missing => ""
    case Ahead(zh, zm) => " " + ("+" + (TwoDigits(zh) + TwoDigits(zm)))
    case Behind(zh, zm) => " " + ("-" + (TwoDigits(zh) + TwoDigits(zm)))
    case Named(name) => " " + (name + "")
  }

  function SecText(sec: string, rest: string): string { if sec == "" then rest else ":" + (sec + rest) }

  function ClockPart(f: Fields, rest: string): string
  {
    " " + (f.hour + (":" + (f.min + SecText(f.sec, rest))))
  }

  function DayPart(day: string, rest: string): string { if day == "" then rest else day + ("," + rest) }

  function FieldsText(f: Fields): string
    requires Good(f)
  {
    DayPart(f.day, " " + (f.mday + (" " + (f.month + (" " + (f.year + ClockPart(f, ZoneText(f.zone))))))))
  }

  // ----- what it stands for -------------------------------------------------------------

  /** Seconds to be taken off local time to get UTC; none for an unknown name. */
  function Offset(zones: map<string, int>, z: Zone): Option<int>
  {
    match z
    case Missing => Some(0)
    case Ahead(zh, zm) => Some(3600 * zh + 60 * zm)
    case Behind(zh, zm) => Some(-(3600 * zh + 60 * zm))
    case Named(name) => if Upper(name) in zones then Some(zones[Upper(name)]) else None
  }

  function Value(s: string): nat
    requires AllDigits(s)
  {
    DecimalValue(s)
  }

  /** Which month a word names, in upper or lower case, if any. */
  ghost predicate IsMonth(word: string, mon: int)
  {
    0 <= mon < 12 && Lower(word) == Lower(MonthName(mon))
  }

  function TmOf(f: Fields, mon: int): Tm
    requires Good(f)
  {
    var year := Value(f.year);
    Tm(Value(f.sec), Value(f.min), Value(f.hour), Value(f.mday), mon, if year >= 1900 then year - 1900 else year)
  }

  // ----- one field after the other --------------------------------------------------------

  predicate Stops(rest: string) { rest == "" || rest[0] == ' ' || rest[0] == ':' || rest[0] == ',' }

  lemma NumberTaken(digits: string, rest: string)
    requires Number(digits) && Stops(rest)
    ensures TakeInt(digits + rest) == Some((Value(digits), rest))
    ensures SkipWs(" " + (digits + rest)) == digits + rest
  {
    TakeIntOf(digits, rest);
    assert IsDigit((digits + rest)[0]);
    SkipOneSpace(digits + rest);
  }

  lemma WordTaken(word: string, rest: string)
    requires Letters(word) && Stops(rest)
    ensures TakeWord(word + rest) == Some((word, rest))
    ensures SkipWs(" " + (word + rest)) == word + rest
  {
    TakeWordOf(word, rest);
    assert IsAlpha((word + rest)[0]);
    SkipOneSpace(word + rest);
  }

  lemma DayTaken(day: string, rest: string)
    requires (day == "" || Letters(day)) && rest != "" && rest[0] == ' '
    ensures SkipDay(DayPart(day, rest)) == rest
  {
    hide Letters;
    if day == "" {
      assert AlphaRun(rest) == 0;
    } else {
      WordTaken(day, "," + rest);
      assert ("," + rest)[1..] == rest;
    }
  }

  lemma MdayTaken(digits: string, rest: string)
    requires Number(digits) && Stops(rest)
    ensures TakeMday(" " + (digits + rest))
         == if 1 <= Value(digits) <= 31 then Some((Value(digits), rest)) else None
  {
    hide DecimalValue, TakeInt, SkipWs, Number;
    NumberTaken(digits, rest);
  }

  lemma MonthTaken(word: string, rest: string, mon: int)
    requires Letters(word) && Stops(rest)
    ensures IsMonth(word, mon) ==> TakeMonth(" " + (word + rest)) == Some((mon, rest))
    ensures (forall k :: !IsMonth(word, k)) ==> TakeMonth(" " + (word + rest)) == None
    ensures TakeMonth(" " + (word + rest)).Some? ==> TakeMonth(" " + (word + rest)).value.1 == rest
  {
    hide TakeWord, SkipWs, Letters, Lower, MonthName, MonthNumber;
    WordTaken(word, rest);
    if IsMonth(word, mon) {
      MonthNumberOfName(mon);
    }
    KnownMonth(word);
  }

  lemma KnownMonth(word: string)
    ensures MonthNumber(Lower(word)).Some? ==> exists k :: IsMonth(word, k)
  {
    hide Lower, MonthName, MonthNumber;
    MonthNumberIsIndex(Lower(word));
    if MonthNumber(Lower(word)).Some? {
      var n :| 0 <= n < 12 && Lower(word) == MONTHS[n];
      LowerNames(n);
      assert IsMonth(word, n);
    }
  }

  lemma LowerNames(n: int)
    requires 0 <= n < 12
    ensures Lower(MonthName(n)) == MONTHS[n]
  {
    var name, low := MonthName(n), Lower(MonthName(n));
    assert |name| == 3;
    assert low == [ToLower(name[0]), ToLower(name[1]), ToLower(name[2])];
  }

  lemma YearTaken(digits: string, rest: string)
    requires Number(digits) && Stops(rest)
    ensures TakeYear(" " + (digits + rest))
         == Some((if Value(digits) >= 1900 then Value(digits) - 1900 else Value(digits), rest))
  {
    hide DecimalValue, TakeInt, SkipWs, Number;
    NumberTaken(digits, rest);
  }

  lemma ClockTaken(f: Fields, rest: string)
    requires Number(f.hour) && Number(f.min) && (f.sec == "" || Number(f.sec)) && (rest == "" || rest[0] == ' ')
    ensures AllDigits(f.sec)
    ensures TakeClock(ClockPart(f, rest)) == Some((Clock(Value(f.hour), Value(f.min), Value(f.sec)), rest))
  {
    hide DecimalValue, TakeInt, SkipWs, Number;
    var s2 := SecText(f.sec, rest);
    var s1 := ":" + (f.min + s2);
    NumberTaken(f.hour, s1);
    assert s1[1..] == f.min + s2;
    NumberTaken(f.min, s2);
    NoSeconds(f.sec);
    if f.sec != "" {
      assert s2[1..] == f.sec + rest;
      NumberTaken(f.sec, rest);
    }
  }

  lemma NoSeconds(sec: string)
    requires sec == "" || Number(sec)
    ensures AllDigits(sec) && (sec == "" ==> DecimalValue(sec) == 0)
  {
  }

  lemma ZoneTaken(zones: map<string, int>, z: Zone)
    requires GoodZone(z)
    ensures TakeZone(zones, ZoneText(z)) == Offset(zones, z)
  {
    hide TakeZone, TwoDigits, Letters, Upper;
    match z {
      case Missing => NoZone(zones);
      case Ahead(zh, zm) =>
        SignedZone(zones, '+', zh, zm);
        assert ['+'] == "+";
      case Behind(zh, zm) =>
        SignedZone(zones, '-', zh, zm);
        assert ['-'] == "-";
      case Named(name) => NamedZone(zones, name);
    }
  }

  lemma NamedZone(zones: map<string, int>, name: string)
    requires Letters(name)
    ensures TakeZone(zones, " " + (name + "")) == if Upper(name) in zones then Some(zones[Upper(name)]) else None
  {
    hide Letters, Upper, SkipWs, TakeWord;
    WordTaken(name, "");
    FirstLetter(name);
  }

  lemma NoZone(zones: map<string, int>)
    ensures TakeZone(zones, "") == Some(0)
  {
  }

  lemma FirstLetter(name: string)
    requires Letters(name)
    ensures name != "" && IsAlpha((name + "")[0])
  {
  }

  lemma SignedZone(zones: map<string, int>, sign: char, zh: nat, zm: nat)
    requires sign in {'+', '-'} && zh < 100 && zm < 100
    ensures TakeZone(zones, " " + ([sign] + (TwoDigits(zh) + TwoDigits(zm))))
         == Some(if sign == '-' then -(3600 * zh + 60 * zm) else 3600 * zh + 60 * zm)
  {
    hide TwoDigits, DigitValue, TakeZone;
    var h, m := TwoDigits(zh), TwoDigits(zm);
    var z := [sign] + (h + m);
    assert z[1] == h[0] && z[2] == h[1] && z[3] == m[0] && z[4] == m[1];
    TensAndUnits(zh);
    TensAndUnits(zm);
    SignedText(zones, z);
  }

  lemma SignedText(zones: map<string, int>, z: string)
    requires |z| == 5 && z[0] in {'+', '-'}
    requires IsDigit(z[1]) && IsDigit(z[2]) && IsDigit(z[3]) && IsDigit(z[4])
    ensures
      var zh, zm := 10 * DigitValue(z[1]) + DigitValue(z[2]), 10 * DigitValue(z[3]) + DigitValue(z[4]);
      TakeZone(zones, " " + z) == Some(if z[0] == '-' then -(3600 * zh + 60 * zm) else 3600 * zh + 60 * zm)
  {
    hide DigitValue;
    SkipOneSpace(z);
  }

  lemma TensAndUnits(n: nat)
    requires n < 100
    ensures 10 * DigitValue(TwoDigits(n)[0]) + DigitValue(TwoDigits(n)[1]) == n
  {
  }

  // ----- the whole date -----------------------------------------------------------------------

  /** Every date written field by field is read as the time it stands for: its fields
      less its zone; or as 0 if the day of the month is out of range, or the month or
      the zone unknown. */
  lemma ParseFields(zones: map<string, int>, f: Fields, mon: int)
    requires Good(f)
    ensures AllDigits(f.mday)
    ensures 1 <= Value(f.mday) <= 31 && IsMonth(f.month, mon) && Offset(zones, f.zone).Some? ==>
              ParseDate(zones, FieldsText(f)) == TimeGm(TmOf(f, mon)) - Offset(zones, f.zone).value
    ensures !(1 <= Value(f.mday) <= 31) || (forall k :: !IsMonth(f.month, k)) || Offset(zones, f.zone).None? ==>
              ParseDate(zones, FieldsText(f)) == 0
  {
    hide DecimalValue, TakeMday, TakeMonth, TakeYear, TakeClock, TakeZone, SkipDay, ParseStd, TimeGm, Letters, IsMonth,
         Offset, Number, ZoneText, Lower;
    var s5 := ZoneText(f.zone);
    var s4 := ClockPart(f, s5);
    var s3 := " " + (f.year + s4);
    var s2 := " " + (f.month + s3);
    var s1 := " " + (f.mday + s2);
    assert AllDigits(f.mday) && AllDigits(f.year) by { NumbersAreDigits(f); }
    ZoneStarts(f.zone);
    DayTaken(f.day, s1);
    MdayTaken(f.mday, s2);
    MonthTaken(f.month, s3, mon);
    YearTaken(f.year, s4);
    ClockTaken(f, s5);
    ZoneTaken(zones, f.zone);
    ParseStdSteps(zones, FieldsText(f));
  }

  lemma NumbersAreDigits(f: Fields)
    requires Good(f)
    ensures AllDigits(f.mday) && AllDigits(f.year)
  {
  }

  lemma ZoneStarts(z: Zone)
    requires GoodZone(z)
    ensures ZoneText(z) == "" || ZoneText(z)[0] == ' '
  {
  }

  predicate From1900(t: int) { GmTime(t).year >= 0 }

  /** The local time of t in a zone, as it is printed. */
  function LocalFields(t: int, offset: int, z: Zone): Fields
  {
    TimeGmOfGmTime(t + offset);
    var tm := GmTime(t + offset);
    Fields(DayName(Weekday(t + offset)), TwoDigits(tm.mday), MonthName(tm.mon), YearText(tm.year + 1900),
           TwoDigits(tm.hour), TwoDigits(tm.min), TwoDigits(tm.sec), z)
  }

  /** Local time in any zone, printed with that zone, is read back as the time it is:
      "+hhmm" is ahead of UTC, "-hhmm" behind, and a name what the table says. */
  lemma ZonedRoundTrip(zones: map<string, int>, t: int, z: Zone, offset: int)
    requires GoodZone(z) && Offset(zones, z) == Some(offset) && From1900(t + offset)
    ensures Good(LocalFields(t, offset, z))
    ensures ParseDate(zones, FieldsText(LocalFields(t, offset, z))) == t
  {
    hide GmTime, DecimalValue, ParseDate, TimeGm, FieldsText, Offset, LocalFields, Good, GoodZone, TmOf, IsMonth, InRange;
    LocalFieldsStand(t, offset, z);
    TimeGmOfGmTime(t + offset);
    ParseFields(zones, LocalFields(t, offset, z), GmTime(t + offset).mon);
  }

  lemma LocalFieldsStand(t: int, offset: int, z: Zone)
    requires GoodZone(z) && From1900(t + offset)
    ensures
      var f, tm := LocalFields(t, offset, z), GmTime(t + offset);
      && Good(f) && f.zone == z && TmOf(f, tm.mon) == tm
      && IsMonth(f.month, tm.mon) && AllDigits(f.mday) && 1 <= Value(f.mday) <= 31
  {
    hide GmTime, TimeGm, DecimalValue, Decimal, TwoDigits, MonthName, DayName, Weekday, Lower, GoodZone, DayNumber, Seconds,
         IsLeap, MonthStart;
    var tm := GmTime(t + offset);
    TimeGmOfGmTime(t + offset);
    DecimalValueOfTwoDigits(tm.mday);
    DecimalValueOfTwoDigits(tm.hour);
    DecimalValueOfTwoDigits(tm.min);
    DecimalValueOfTwoDigits(tm.sec);
    DecimalValueOfDecimal(tm.year + 1900);
    MonthNumberOfName(tm.mon);
    DayNameIsWord(Weekday(t + offset));
  }

  lemma DayNameIsWord(d: int)
    requires 0 <= d < 7
    ensures Letters(DayName(d))
  {
  }
}
