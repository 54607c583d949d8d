/** The per-minute counters of sources/sources.cc: which lines of the news log
    are counted, the timestamp that keeps later runs from counting them again,
    and the map files the counts go to. */
module NewsSources {
  import opened Text
  import opened Calendar

  // ----- one line of the log -----------------------------------------------------------

  datatype TimeVal = TimeVal(sec: int, usec: int)

  predicate Before(a: TimeVal, b: TimeVal)
  {
    a.sec < b.sec || (a.sec == b.sec && a.usec < b.usec)
  }

  datatype Details = Details(when: Tm, time: TimeVal, code: char, peer: string, size: int)

  const ART_ACCEPT: char := '+'
  const ART_JUNK: char := 'j'

  predicate Countable(d: Details) { d.code == ART_ACCEPT || d.code == ART_JUNK }

  function GetInt(s: string): Option<(int, string)>
  {
    var t := LTrim(s);
    var n := DigitRun(t);
    if n == 0 then None else Some((DecimalValue(t[..n]), t[n..]))
  }

  function Is(s: string, c: char): Option<string>
  {
    if s != "" && s[0] == c then Some(s[1..]) else None
  }

  function WordRun(s: string): (n: nat)
    ensures n <= |s|
  {
    if s == "" || IsSpace(s[0]) then 0 else 1 + WordRun(s[1..])
  }

  function GetString(s: string): Option<(string, string)>
  {
    var t := LTrim(s);
    if t == "" then None else Some((t[..WordRun(t)], t[WordRun(t)..]))
  }

  const MONTHS: seq<string> :=
    ["Jan", "Feb", "Mar", "Apr", "May", "Jun", "Jul", "Aug", "Sep", "Oct", "Nov", "Dec"]

  function MonthFrom(line: string, n: nat): Option<nat>
    requires n <= 12
    decreases 12 - n
  {
    if n == 12 then None
    else if MONTHS[n] <= line then Some(n)
    else MonthFrom(line, n + 1)
  }

  /** mktime: the time, and the fields brought back into range. */
  function Normalised(tm: Tm): Tm { GmTime(TimeGm(tm)) }

  /** details::parse. today is the time of the run; a later month than today's
      must be last year's. */
  function Parse(today: Tm, line: string): Option<Details>
  {
    var mon :- MonthFrom(line, 0);
    if |line| < 3 then None
    else
      var (mday, s1) :- GetInt(line[3..]);
      var (hour, s2) :- GetInt(s1);
      var s3 :- Is(s2, ':');
      var (min, s4) :- GetInt(s3);
      var s5 :- Is(s4, ':');
      var (sec, s6) :- GetInt(s5);
      var s7 :- Is(s6, '.');
      var (msec, s8) :- GetInt(s7);
      var s9 := LTrim(s8);
      if s9 == "" then None
      else
        var code := s9[0];
        var (peer, s10) :- GetString(s9[1..]);
        var (message, s11) :- GetString(s10);
        var (size, s12) :- if code == ART_ACCEPT || code == ART_JUNK then GetInt(s11) else Some((0, s11));
        var year := if mon > today.mon then today.year - 1 else today.year;
        var tm := Tm(sec, min, hour, mday, mon, year);
        Some(Details(Normalised(tm), TimeVal(TimeGm(tm), 1000 * msec), code, peer, size))
  }

  const MAP_BUCKETS: nat := 1440

  function Minute(d: Details): int { 60 * d.when.hour + d.when.min }

  /** Whatever numbers a line holds, the index it is counted under is within the
      map, because mktime has normalised the fields. */
  lemma MinuteInMap(today: Tm, line: string)
    ensures
      var d := Parse(today, line);
      d.Some? ==>
        && InRange(d.value.when)
        && 0 <= Minute(d.value) < MAP_BUCKETS
        && TimeGm(d.value.when) == d.value.time.sec
  {
    hide TimeGm, GmTime, LTrim, DigitRun, DecimalValue, MonthFrom, WordRun;
    var d := Parse(today, line);
    if d.Some? {
      TimeGmOfGmTime(d.value.time.sec);
    }
  }

  // ----- which lines are counted -----------------------------------------------------------

  const COMMIT_EVERY: nat := 32

  /** latest_time, time_counter and the contents of the timestamp file; no file
      reads as zero. */
  datatype Progress = Progress(latest: TimeVal, counter: nat, saved: TimeVal)

  predicate Counts(c: Progress, d: Details)
  {
    !Before(d.time, c.latest) && Countable(d)
  }

  /** process_line as far as the timestamp is concerned. */
  function Tick(c: Progress, d: Details): Progress
  {
    if !Counts(c, d) then c
    else
      var latest := if d.time.sec >= 0 && Before(c.latest, d.time) then d.time else c.latest;
      if c.counter + 1 >= COMMIT_EVERY then Progress(latest, 0, latest)
      else Progress(latest, c.counter + 1, c.saved)
  }

  /** Whole files. */
  function TickAll(c: Progress, ds: seq<Details>): Progress
  {
    if ds == [] then c else Tick(TickAll(c, ds[..|ds| - 1]), ds[|ds| - 1])
  }

  function CountedOf(c: Progress, ds: seq<Details>): seq<Details>
  {
    if ds == [] then []
    else
      var m := |ds| - 1;
      CountedOf(c, ds[..m]) + (if Counts(TickAll(c, ds[..m]), ds[m]) then [ds[m]] else [])
  }

  /** The lines that make sense. */
  function ParseAll(today: Tm, lines: seq<string>): seq<Details>
  {
    if lines == [] then []
    else
      var m := |lines| - 1;
      match Parse(today, lines[m])
      case None => ParseAll(today, lines[..m])
      case Some(d) => ParseAll(today, lines[..m]) + [d]
  }

  /** A new process reads the timestamp. */
  function Reread(c: Progress): Progress { Progress(c.saved, 0, c.saved) }

  /** The end of main writes it. */
  function Commit(c: Progress): Progress { Progress(c.latest, 0, c.latest) }

  /** Within one process latest_time never goes back, from any line to any later
      one. */
  lemma {:induction false} LatestNeverDecreases(c: Progress, ds: seq<Details>, i: nat, j: nat)
    requires i <= j <= |ds|
    ensures !Before(TickAll(c, ds[..j]).latest, TickAll(c, ds[..i]).latest)
  {
    if i < j {
      LatestNeverDecreases(c, ds, i, j - 1);
      assert ds[..j][..j - 1] == ds[..j - 1];
    }
  }

  // ----- the timestamp file ----------------------------------------------------------------

  function Zeros(n: int): string
    decreases n
  {
    if n <= 0 then "" else "0" + Zeros(n - 1)
  }

  /** printf("%0*d") */
  function Padded(n: int, width: nat): string
  {
    if n < 0 then "-" + Decimal(-n) else Zeros(width - |Decimal(n)|) + Decimal(n)
  }

  function StampText(t: TimeVal): string
    requires t.sec >= 0
  {
    Decimal(t.sec) + "." + Padded(t.usec, 6) + "\n"
  }

  function ReadStamp(text: string): Option<TimeVal>
  {
    var (sec, s1) :- GetInt(text);
    var s2 :- Is(s1, '.');
    var (usec, _) :- GetInt(s2);
    Some(TimeVal(sec, usec))
  }

  lemma {:induction false} ZerosAddNothing(k: int, s: string)
    requires AllDigits(s)
    ensures AllDigits(Zeros(k) + s) && DecimalValue(Zeros(k) + s) == DecimalValue(s)
    decreases k
  {
    hide DecimalValue, AllDigits;
    if k > 0 {
      ZerosAddNothing(k - 1, s);
      LeadingZero(Zeros(k - 1) + s);
      ConcatAssociative("0", Zeros(k - 1), s);
    } else {
      assert "" + s == s;
    }
  }

  lemma {:induction false} LeadingZero(s: string)
    requires AllDigits(s)
    ensures AllDigits("0" + s) && DecimalValue("0" + s) == DecimalValue(s)
  {
    var z := "0" + s;
    if s == "" {
      assert z[..0] == "";
    } else {
      assert z[..|z| - 1] == "0" + s[..|s| - 1];
      LeadingZero(s[..|s| - 1]);
    }
  }

  lemma GetIntOf(digits: string, rest: string)
    requires digits != "" && AllDigits(digits) && (rest == "" || !IsDigit(rest[0]))
    ensures GetInt(digits + rest) == Some((DecimalValue(digits), rest))
  {
    var s := digits + rest;
    DigitRunOf(digits, rest);
    assert IsDigit(s[0]);
    assert s[..|digits|] == digits && s[|digits|..] == rest;
  }

  /** What is written to the timestamp file is what the next process reads. */
  lemma StampRoundTrip(t: TimeVal)
    requires t.sec >= 0 && t.usec >= 0
    ensures ReadStamp(StampText(t)) == Some(t)
  {
    hide GetInt, Zeros, DecimalValue;
    var sec, usec := Decimal(t.sec), Padded(t.usec, 6);
    ZerosAddNothing(6 - |Decimal(t.usec)|, Decimal(t.usec));
    DecimalValueOfDecimal(t.sec);
    DecimalValueOfDecimal(t.usec);
    var s1 := "." + (usec + "\n");
    assert StampText(t) == sec + s1;
    GetIntOf(sec, s1);
    assert s1[1..] == usec + "\n";
    GetIntOf(usec, "\n");
  }

  // ----- a printed line ----------------------------------------------------------------------

  /** The fields of a log line; numbers as their digits. */
  datatype Fields = Fields(
    mon: nat, mday: string, hour: string, min: string, sec: string, msec: string, code: char, peer: string, message: string)

  predicate Number(s: string) { s != "" && AllDigits(s) }

  predicate Word(s: string) { s != "" && forall i :: 0 <= i < |s| ==> !IsSpace(s[i]) }

  predicate Printable(f: Fields)
  {
    && f.mon < 12
    && Number(f.mday) && Number(f.hour) && Number(f.min) && Number(f.sec) && Number(f.msec)
    && !IsSpace(f.code) && Word(f.peer) && Word(f.message)
  }

  /** "Mon dd hh:mm:ss.mmm c peer message" and whatever follows. */
  function LineText(f: Fields, tail: string): string
    requires f.mon < 12
  {
    MONTHS[f.mon] + (" " + (f.mday + (" " + (f.hour + (":" + (f.min + (":" + (f.sec + ("." + (f.msec + (" " + ([f.code]
      + (" " + (f.peer + (" " + (f.message + tail))))))))))))))))
  }

  lemma NumberAfterSpace(digits: string, rest: string)
    requires Number(digits) && (rest == "" || !IsDigit(rest[0]))
    ensures GetInt(" " + (digits + rest)) == GetInt(digits + rest) == Some((DecimalValue(digits), rest))
  {
    GetIntOf(digits, rest);
    SpaceSkipped(digits + rest);
  }

  lemma SpaceSkipped(s: string)
    requires s != "" && !IsSpace(s[0])
    ensures LTrim(" " + s) == LTrim(s) == s
  {
    assert (" " + s)[1..] == s;
  }

  lemma IsOf(c: char, rest: string)
    ensures Is([c] + rest, c) == Some(rest)
  {
  }

  lemma {:induction false} WordRunOf(word: string, rest: string)
    requires (forall i :: 0 <= i < |word| ==> !IsSpace(word[i])) && (rest == "" || IsSpace(rest[0]))
    ensures WordRun(word + rest) == |word|
  {
    if word == "" {
      assert word + rest == rest;
    } else {
      assert (word + rest)[1..] == word[1..] + rest;
      WordRunOf(word[1..], rest);
    }
  }

  lemma WordAfterSpace(word: string, rest: string)
    requires Word(word) && (rest == "" || IsSpace(rest[0]))
    ensures GetString(" " + (word + rest)) == Some((word, rest))
  {
    WordRunOf(word, rest);
    SpaceSkipped(word + rest);
    assert (word + rest)[..|word|] == word && (word + rest)[|word|..] == rest;
  }

  lemma MonthOfText(n: nat, rest: string)
    requires n < 12
    ensures MonthFrom(MONTHS[n] + rest, 0) == Some(n) && (MONTHS[n] + rest)[3..] == rest
  {
    var line := MONTHS[n] + rest;
    assert line[..3] == MONTHS[n];
    MonthSearch(n, line, 0);
  }

  lemma {:induction false} MonthSearch(n: nat, line: string, k: nat)
    requires k <= n < 12 && |line| >= 3 && line[..3] == MONTHS[n]
    ensures MonthFrom(line, k) == Some(n)
    decreases n - k
  {
    if k < n {
      MonthsDiffer(k, n);
      NotPrefix(MONTHS[k], line);
      MonthSearch(n, line, k + 1);
    }
  }

  lemma NotPrefix(x: string, line: string)
    requires |x| <= |line| && line[..|x|] != x
    ensures !(x <= line)
  {
  }

  lemma MonthsDiffer(k: nat, n: nat)
    requires k < n < 12
    ensures |MONTHS[k]| == |MONTHS[n]| == 3 && MONTHS[k] != MONTHS[n]
  {
    assert MONTHS[k][0] != MONTHS[n][0] || MONTHS[k][1] != MONTHS[n][1] || MONTHS[k][2] != MONTHS[n][2];
  }

  /** What the size of the article is read from, if there is one. */
  function SizeOf(code: char, tail: string): Option<(int, string)>
  {
    if code == '+' || code == 'j' then GetInt(tail) else Some((0, tail))
  }

  /** The year of the run, or the one before for a month still to come. */
  function YearOfLine(today: Tm, mon: nat): int
  {
    if mon > today.mon then today.year - 1 else today.year
  }

  function WhenOf(today: Tm, f: Fields): Tm
    requires Printable(f)
  {
    Tm(DecimalValue(f.sec), DecimalValue(f.min), DecimalValue(f.hour), DecimalValue(f.mday), f.mon, YearOfLine(today, f.mon))
  }

  /** Every field of a line is read as what it stands for. */
  lemma ParsePrinted(today: Tm, f: Fields, tail: string)
    requires Printable(f) && (tail == "" || IsSpace(tail[0]))
    ensures
      Parse(today, LineText(f, tail)) ==
      match SizeOf(f.code, tail)
      case None => None
      case Some((size, _)) =>
        var tm := WhenOf(today, f);
        Some(Details(GmTime(TimeGm(tm)), TimeVal(TimeGm(tm), 1000 * DecimalValue(f.msec)), f.code, f.peer, size))
  {
    hide GetInt, GetString, LTrim, DecimalValue, MonthFrom, GmTime, TimeGm, Is, Word, Number;
    var r := f.message + tail;
    var r1 := " " + r;
    var r2 := " " + (f.peer + r1);
    var r3 := " " + ([f.code] + r2);
    var r4 := "." + (f.msec + r3);
    var r5 := ":" + (f.sec + r4);
    var r6 := ":" + (f.min + r5);
    var r7 := " " + (f.hour + r6);
    var r8 := " " + (f.mday + r7);
    MonthOfText(f.mon, r8);
    NumberAfterSpace(f.mday, r7);
    NumberAfterSpace(f.hour, r6);
    IsOf(':', f.min + r5);
    NumberAfterSpace(f.min, r5);
    IsOf(':', f.sec + r4);
    NumberAfterSpace(f.sec, r4);
    IsOf('.', f.msec + r3);
    NumberAfterSpace(f.msec, r3);
    SpaceSkipped([f.code] + r2);
    assert ([f.code] + r2)[1..] == r2;
    WordAfterSpace(f.peer, r1);
    WordAfterSpace(f.message, tail);
  }

  /** A line as it is logged for a time. */
  function FieldsOf(tm: Tm, msec: nat, code: char, peer: string, message: string): Fields
    requires InRange(tm)
  {
    Fields(tm.mon, Decimal(tm.mday), TwoDigits(tm.hour), TwoDigits(tm.min), TwoDigits(tm.sec), Padded(msec, 3), code, peer, message)
  }

  /** What is printed of a time within the last year is read back: the time to the
      millisecond, the code, the peer and the size; and the line is counted under the
      hour and minute it shows. */
  lemma LineRoundTrip(today: Tm, tm: Tm, msec: nat, code: char, peer: string, message: string, size: nat)
    requires InRange(tm) && tm.year == YearOfLine(today, tm.mon)
    requires code in {'+', 'j'} && Word(peer) && Word(message)
    ensures Printable(FieldsOf(tm, msec, code, peer, message))
    ensures
      var d := Parse(today, LineText(FieldsOf(tm, msec, code, peer, message), " " + Decimal(size)));
      && d == Some(Details(tm, TimeVal(TimeGm(tm), 1000 * msec), code, peer, size))
      && Minute(d.value) == 60 * tm.hour + tm.min
  {
    hide GetInt, DecimalValue, GmTime, TimeGm, Decimal, TwoDigits, Padded, Word, Parse, LineText;
    var f := FieldsOf(tm, msec, code, peer, message);
    DecimalValueOfDecimal(tm.mday);
    DecimalValueOfTwoDigits(tm.hour);
    DecimalValueOfTwoDigits(tm.min);
    DecimalValueOfTwoDigits(tm.sec);
    PaddedValue(msec, 3);
    DecimalValueOfDecimal(size);
    assert Decimal(size) + "" == Decimal(size);
    NumberAfterSpace(Decimal(size), "");
    GmTimeOfTimeGm(tm);
    ParsePrinted(today, f, " " + Decimal(size));
  }

  lemma PaddedValue(n: nat, width: nat)
    ensures Number(Padded(n, width)) && DecimalValue(Padded(n, width)) == n
  {
    hide DecimalValue, Zeros;
    ZerosAddNothing(width - |Decimal(n)|, Decimal(n));
    DecimalValueOfDecimal(n);
  }

  // ----- crashes and reruns ------------------------------------------------------------------

  /** Runs over one log: the line the current run is at, the furthest any run
      got, the progress made, and how often each line has been counted. */
  datatype World = World(pos: nat, extent: nat, progress: Progress, counts: seq<nat>)

  datatype Event =
    | Line       // the next line is processed
    | Crash      // the process dies between two lines and is run again
    | Exit       // the process ends in good order and is run again

  predicate Possible(log: seq<Details>, w: World, e: Event)
  {
    match e
    case Line => w.pos < |log| && |w.counts| == |log|
    case Crash => true
    case Exit => w.pos == |log|
  }

  function Max(a: nat, b: nat): nat { if a < b then b else a }

  function Next(log: seq<Details>, w: World, e: Event): World
    requires Possible(log, w, e)
  {
    match e
    case Line =>
      var d := log[w.pos];
      World(w.pos + 1, Max(w.extent, w.pos + 1), Tick(w.progress, d),
            if Counts(w.progress, d) then w.counts[w.pos := w.counts[w.pos] + 1] else w.counts)
    case Crash => World(0, w.extent, Reread(w.progress), w.counts)
    case Exit => World(0, w.extent, Reread(Commit(w.progress)), w.counts)
  }

  ghost predicate Increasing(log: seq<Details>)
  {
    forall i, j :: 0 <= i < j < |log| ==> Before(log[i].time, log[j].time)
  }

  ghost predicate Start(log: seq<Details>, w: World)
  {
    && w.pos == 0 && w.extent == 0
    && w.progress == Progress(w.progress.saved, 0, w.progress.saved)
    && !Before(w.progress.saved, TimeVal(0, 0))
    && |w.counts| == |log| && forall i :: 0 <= i < |log| ==> w.counts[i] == 0
  }

  ghost predicate Run(log: seq<Details>, trace: seq<World>, events: seq<Event>)
  {
    && |trace| == |events| + 1
    && Start(log, trace[0])
    && forall i {:trigger events[i]} :: 0 <= i < |events| ==>
         Possible(log, trace[i], events[i]) && trace[i + 1] == Next(log, trace[i], events[i])
  }

  /** A process that starts with this timestamp counts the line. */
  predicate Due(d: Details, saved: TimeVal)
  {
    (d.code == '+' || d.code == 'j') && !Before(d.time, saved)
  }

  function One(b: bool): nat { if b then 1 else 0 }

  /** How many of the first n lines are due. */
  function Eligible(log: seq<Details>, n: nat, saved: TimeVal): nat
    requires n <= |log|
  {
    if n == 0 then 0 else Eligible(log, n - 1, saved) + One(Due(log[n - 1], saved))
  }

  /** How many of the first n lines have been counted and would be counted again
      if the process were started now. */
  function Exposed(log: seq<Details>, w: World, n: nat): nat
    requires n <= |log| == |w.counts|
  {
    if n == 0 then 0
    else Exposed(log, w, n - 1) + One(w.counts[n - 1] > 0 && Due(log[n - 1], w.progress.saved))
  }

  lemma {:induction false} EligibleMonotone(log: seq<Details>, n: nat, a: TimeVal, b: TimeVal)
    requires n <= |log| && !Before(b, a)
    ensures Eligible(log, n, b) <= Eligible(log, n, a)
  {
    if n > 0 {
      EligibleMonotone(log, n - 1, a, b);
    }
  }

  /** In a strictly increasing log only the last of the first n lines can be due
      at its own time or later. */
  lemma {:induction false} EligibleAtLast(log: seq<Details>, n: nat, t: TimeVal)
    requires Increasing(log) && n <= |log|
    requires n > 0 ==> !Before(t, log[n - 1].time)
    ensures Eligible(log, n, t) <= 1
    ensures n > 0 && Before(log[n - 1].time, t) ==> Eligible(log, n, t) == 0
  {
    if n > 1 {
      assert Before(log[n - 2].time, log[n - 1].time);
      EligibleAtLast(log, n - 1, t);
    }
  }

  // ----- the invariant -------------------------------------------------------------------------

  ghost predicate Bounds(log: seq<Details>, origin: TimeVal, w: World)
  {
    var p := w.progress;
    && w.pos <= w.extent <= |log| == |w.counts|
    && p.counter < COMMIT_EVERY
    && !Before(p.latest, p.saved) && !Before(p.saved, origin) && !Before(origin, TimeVal(0, 0))
    // What moved latest, or saved, is a line already passed.
    && (p.latest != p.saved ==> w.pos > 0 && !Before(log[w.pos - 1].time, p.latest))
    && (p.saved != origin ==> w.extent > 0 && !Before(log[w.extent - 1].time, p.saved))
  }

  ghost predicate FewEligible(log: seq<Details>, w: World)
    requires w.pos <= w.extent <= |log|
  {
    var p := w.progress;
    && Eligible(log, w.pos, p.saved) <= p.counter + 1
    && Eligible(log, w.pos, p.latest) <= 1
    && Eligible(log, w.extent, p.saved) <= COMMIT_EVERY
  }

  ghost predicate CountsRight(log: seq<Details>, origin: TimeVal, w: World)
    requires w.extent <= |log| == |w.counts|
  {
    forall i :: 0 <= i < |log| ==> (w.counts[i] > 0 <==> i < w.extent && Due(log[i], origin))
  }

  ghost predicate Inv(log: seq<Details>, origin: TimeVal, w: World)
  {
    Bounds(log, origin, w) && FewEligible(log, w) && CountsRight(log, origin, w)
  }

  lemma LineKeepsBounds(log: seq<Details>, origin: TimeVal, w: World)
    requires Increasing(log) && Bounds(log, origin, w) && w.pos < |log|
    ensures Bounds(log, origin, Next(log, w, Line))
  {
    assert w.pos > 0 ==> Before(log[w.pos - 1].time, log[w.pos].time);
    assert w.pos < w.extent ==> log[w.pos] == log[w.extent - 1] || Before(log[w.pos].time, log[w.extent - 1].time);
    assert w.pos == w.extent > 0 ==> Before(log[w.extent - 1].time, log[w.pos].time);
  }

  /** A line that is passed over because it is before latest is not due. */
  lemma PassedOver(log: seq<Details>, origin: TimeVal, w: World)
    requires Increasing(log) && Bounds(log, origin, w) && w.pos < |log|
    requires Before(log[w.pos].time, w.progress.latest)
    ensures !Due(log[w.pos], w.progress.saved)
  {
    assert w.pos > 0 ==> Before(log[w.pos - 1].time, log[w.pos].time);
  }

  lemma LineKeepsFewEligible(log: seq<Details>, origin: TimeVal, w: World)
    requires Increasing(log) && Bounds(log, origin, w) && FewEligible(log, w) && w.pos < |log|
    ensures FewEligible(log, Next(log, w, Line))
  {
    var d := log[w.pos];
    if Counts(w.progress, d) {
      EligibleAtLast(log, w.pos + 1, d.time);
      EligibleMonotone(log, w.extent, w.progress.saved, d.time);
    } else if Countable(d) {
      PassedOver(log, origin, w);
    }
  }

  lemma LineKeepsCountsRight(log: seq<Details>, origin: TimeVal, w: World)
    requires Increasing(log) && Bounds(log, origin, w) && CountsRight(log, origin, w) && w.pos < |log|
    ensures CountsRight(log, origin, Next(log, w, Line))
  {
    var d := log[w.pos];
    if !Counts(w.progress, d) && Countable(d) {
      PassedOver(log, origin, w);
      assert w.pos == w.extent > 0 ==> Before(log[w.extent - 1].time, d.time);
    }
  }

  lemma StepKeepsInv(log: seq<Details>, origin: TimeVal, w: World, e: Event, u: World)
    requires Increasing(log) && Inv(log, origin, w) && Possible(log, w, e) && u == Next(log, w, e)
    ensures Inv(log, origin, u)
    ensures e == Exit ==> Eligible(log, u.extent, u.progress.saved) <= 1
  {
    hide Tick, Counts, Due;
    if e == Line {
      LineKeepsBounds(log, origin, w);
      LineKeepsFewEligible(log, origin, w);
      LineKeepsCountsRight(log, origin, w);
    } else if e == Exit {
      EligibleMonotone(log, w.extent, w.progress.saved, w.progress.latest);
    }
  }

  lemma {:induction false} RunKeepsInv(log: seq<Details>, trace: seq<World>, events: seq<Event>, i: nat)
    requires Increasing(log) && Run(log, trace, events) && i < |trace|
    ensures Inv(log, trace[0].progress.saved, trace[i])
    decreases i
  {
    hide Next, Increasing;
    if i == 0 {
      StartIsInv(log, trace[0]);
    } else {
      RunKeepsInv(log, trace, events, i - 1);
      StepKeepsInv(log, trace[0].progress.saved, trace[i - 1], events[i - 1], trace[i]);
    }
  }

  lemma StartIsInv(log: seq<Details>, w: World)
    requires Start(log, w)
    ensures Inv(log, w.progress.saved, w)
  {
  }

  lemma {:induction false} ExposedIsEligible(log: seq<Details>, w: World, n: nat)
    requires w.extent <= n <= |log| == |w.counts|
    requires forall i :: w.extent <= i < |log| ==> w.counts[i] == 0
    ensures Exposed(log, w, n) <= Eligible(log, w.extent, w.progress.saved)
  {
    hide Due;
    if n > w.extent {
      ExposedIsEligible(log, w, n - 1);
    } else {
      ExposedWithin(log, w, n);
    }
  }

  lemma {:induction false} ExposedWithin(log: seq<Details>, w: World, n: nat)
    requires n <= |log| == |w.counts|
    ensures Exposed(log, w, n) <= Eligible(log, n, w.progress.saved)
  {
    hide Due;
    if n > 0 {
      ExposedWithin(log, w, n - 1);
    }
  }

  /** However often the process has died between two lines and been run again on
      the same log, never more than 32 lines (those since the last commit and
      the one the commit names) stand to be counted a second time; and after a
      run that ended in good order at most one does. */
  lemma FewCountedTwice(log: seq<Details>, trace: seq<World>, events: seq<Event>)
    requires Increasing(log) && Run(log, trace, events)
    ensures var w := trace[|events|]; |w.counts| == |log| && Exposed(log, w, |log|) <= COMMIT_EVERY
    ensures events != [] && events[|events| - 1] == Exit ==>
              Exposed(log, trace[|events|], |log|) <= 1
  {
    hide Next, Increasing, Due;
    var n := |events|;
    RunKeepsInv(log, trace, events, n);
    ExposedIsEligible(log, trace[n], |log|);
    if n > 0 {
      RunKeepsInv(log, trace, events, n - 1);
      StepKeepsInv(log, trace[0].progress.saved, trace[n - 1], events[n - 1], trace[n]);
    }
  }

  /** Nothing is missed: of the lines that some run has reached, exactly those
      due when the first run started have been counted. */
  lemma NoneMissed(log: seq<Details>, trace: seq<World>, events: seq<Event>, i: nat)
    requires Increasing(log) && Run(log, trace, events) && i < |log|
    ensures
      var w := trace[|events|];
      |w.counts| == |log| && (w.counts[i] > 0 <==> i < w.extent && Due(log[i], trace[0].progress.saved))
  {
    hide Next, Increasing, Due;
    RunKeepsInv(log, trace, events, |events|);
  }

  // ----- the map files --------------------------------------------------------------------------

  datatype Bucket = Bucket(articles: nat, bytes: int)

  function DayText(tm: Tm): string
  {
    Padded(tm.year + 1900, 4) + "-" + Padded(tm.mon + 1, 2) + "-" + Padded(tm.mday, 2)
  }

  /** The peer's name with anything that is not a visible ASCII character
      replaced. */
  function SafeName(peer: string): (r: string)
    ensures |r| == |peer|
    ensures forall i :: 0 <= i < |r| ==> r[i] == if ' ' < peer[i] <= '~' then peer[i] else 'X'
  {
    if peer == "" then ""
    else [if ' ' < peer[0] <= '~' then peer[0] else 'X'] + SafeName(peer[1..])
  }

  function MapPath(state: string, d: Details): (path: string)
    ensures path != ""
  {
    state + "/" + DayText(d.when) + "-" + SafeName(d.peer) + ".nsdat"
  }

  /** Digits up to a dash tell where the dash is. */
  lemma DigitsEndAtDash(a: string, r: string, b: string, s: string)
    requires AllDigits(a) && AllDigits(b) && a + ("-" + r) == b + ("-" + s)
    ensures a == b && r == s
  {
    DigitRunOf(a, "-" + r);
    DigitRunOf(b, "-" + s);
    var whole := a + ("-" + r);
    assert whole[..|a|] == a && whole[..|b|] == b;
    assert whole[|a| + 1..] == r && whole[|b| + 1..] == s;
  }

  lemma DashesApart(y: string, m: string, d: string, r: string)
    ensures y + "-" + m + "-" + d + ("-" + r) == y + ("-" + (m + ("-" + (d + ("-" + r)))))
  {
  }

  lemma SameDay(a: Tm, r: string, b: Tm, s: string)
    requires InRange(a) && a.year >= -1900 && InRange(b) && b.year >= -1900
    requires DayText(a) + ("-" + r) == DayText(b) + ("-" + s)
    ensures DateIn(a) == DateIn(b) && r == s
  {
    hide Padded, DecimalValue, AllDigits;
    var ya, ma, da := Padded(a.year + 1900, 4), Padded(a.mon + 1, 2), Padded(a.mday, 2);
    var yb, mb, db := Padded(b.year + 1900, 4), Padded(b.mon + 1, 2), Padded(b.mday, 2);
    PaddedValue(a.year + 1900, 4);
    PaddedValue(a.mon + 1, 2);
    PaddedValue(a.mday, 2);
    PaddedValue(b.year + 1900, 4);
    PaddedValue(b.mon + 1, 2);
    PaddedValue(b.mday, 2);
    DashesApart(ya, ma, da, r);
    DashesApart(yb, mb, db, s);
    DigitsEndAtDash(ya, ma + ("-" + (da + ("-" + r))), yb, mb + ("-" + (db + ("-" + s))));
    DigitsEndAtDash(ma, da + ("-" + r), mb, db + ("-" + s));
    DigitsEndAtDash(da, r, db, s);
  }

  /** Two lines are counted in the same file exactly if they are of the same day and
      of peers that look the same. */
  lemma SameFileIs(state: string, a: Details, b: Details)
    requires InRange(a.when) && a.when.year >= -1900 && InRange(b.when) && b.when.year >= -1900
    ensures MapPath(state, a) == MapPath(state, b) <==>
              DateIn(a.when) == DateIn(b.when) && SafeName(a.peer) == SafeName(b.peer)
  {
    hide DayText, SafeName;
    var r, s := SafeName(a.peer) + ".nsdat", SafeName(b.peer) + ".nsdat";
    PathParts(state, a);
    PathParts(state, b);
    if MapPath(state, a) == MapPath(state, b) {
      AfterPrefix(state + "/", DayText(a.when) + ("-" + r), DayText(b.when) + ("-" + s));
      SameDay(a.when, r, b.when, s);
      assert r[..|r| - 6] == SafeName(a.peer) && s[..|s| - 6] == SafeName(b.peer);
    }
    if DateIn(a.when) == DateIn(b.when) {
      DayTextIs(a.when, b.when);
    }
  }

  lemma PathParts(state: string, d: Details)
    ensures MapPath(state, d) == (state + "/") + (DayText(d.when) + ("-" + (SafeName(d.peer) + ".nsdat")))
  {
    hide DayText, SafeName;
  }

  lemma AfterPrefix(p: string, x: string, y: string)
    requires p + x == p + y
    ensures x == y
  {
    assert (p + x)[|p|..] == x && (p + y)[|p|..] == y;
  }

  lemma DayTextIs(a: Tm, b: Tm)
    requires DateIn(a) == DateIn(b)
    ensures DayText(a) == DayText(b)
  {
  }

  /** Articles and bytes counted under one map and minute. */
  function Tally(state: string, counted: seq<Details>, path: string, minute: int): Bucket
  {
    if counted == [] then Bucket(0, 0)
    else
      var d := counted[|counted| - 1];
      var t := Tally(state, counted[..|counted| - 1], path, minute);
      if MapPath(state, d) == path && Minute(d) == minute then Bucket(t.articles + 1, t.bytes + d.size) else t
  }

  class Sources {
    const state: string
    var currentPath: string
    var currentMap: Option<string>           // the file that is mapped
    var progress: Progress                   // latest_time, time_counter, and the timestamp file
    var disk: map<string, seq<Bucket>>       // the map files
    var daysChanged: set<string>
    ghost var counted: seq<Details>          // every line counted since the map files were empty

    /** The open map is that of currentPath, and every counter of every file is
        the number of lines counted under it. */
    ghost predicate Valid()
      reads this
    {
      && currentMap == (if currentPath == "" then None else Some(currentPath))
      && (currentPath != "" ==> currentPath in disk)
      && (forall path :: path in disk ==> |disk[path]| == MAP_BUCKETS)
      && (forall path, minute {:trigger Tally(state, counted, path, minute)} :: 0 <= minute < MAP_BUCKETS ==>
            Tally(state, counted, path, minute)
            == if path in disk then disk[path][minute] else Bucket(0, 0))
    }

    constructor (state: string)
      ensures Valid() && counted == [] && progress == Progress(TimeVal(0, 0), 0, TimeVal(0, 0))
      ensures this.state == state
    {
      this.state := state;
      currentPath, currentMap, disk, daysChanged, counted := "", None, map[], {}, [];
      progress := Progress(TimeVal(0, 0), 0, TimeVal(0, 0));
    }

    /** open_map: a file that does not exist appears full of zeroes. */
    method OpenMap(path: string)
      requires Valid() && path != ""
      modifies this`disk, this`currentMap, this`currentPath
      ensures Valid() && currentPath == path
    {
      if path !in disk {
        disk := disk[path := Zeroed(MAP_BUCKETS)];
      }
      currentMap := Some(path);
      currentPath := path;
    }

    /** update_timestamp */
    method UpdateTimestamp()
      modifies this`progress
      ensures progress == Commit(old(progress))
      ensures progress.saved == old(progress.latest) && progress.counter == 0
    {
      progress := Progress(progress.latest, 0, progress.latest);
    }

    /** read_timestamp, in a new process: nothing is open. */
    method ReadTimestamp()
      requires Valid()
      modifies this
      ensures Valid() && progress == Reread(old(progress)) && counted == old(counted)
      ensures progress.latest == old(progress.saved) && currentMap == None
    {
      currentPath, currentMap, daysChanged := "", None, {};
      progress := Progress(progress.saved, 0, progress.saved);
    }

    /** process_file */
    method ProcessFile(today: Tm, lines: seq<string>)
      requires Valid()
      modifies this
      ensures Valid()
      ensures progress == TickAll(old(progress), ParseAll(today, lines))
      ensures counted == old(counted) + CountedOf(old(progress), ParseAll(today, lines))
    {
      hide Tick, Counts, Parse, InRange, TimeGm, Valid, ParseAll, TickAll, CountedOf;
      var n := 0;
      assert lines[..0] == [];
      NoLines(today, progress);
      while n < |lines|
        invariant n <= |lines| && Valid()
        invariant progress == TickAll(old(progress), ParseAll(today, lines[..n]))
        invariant counted == old(counted) + CountedOf(old(progress), ParseAll(today, lines[..n]))
      {
        ParseOneMore(today, lines, n);
        var d := Parse(today, lines[n]);
        if d.Some? {
          MinuteInMap(today, lines[n]);
          CountOneMore(old(progress), ParseAll(today, lines[..n]), d.value);
          ProcessLine(d.value);
        }
        n := n + 1;
      }
      assert lines[..n] == lines;
    }

    /** process_line */
    method ProcessLine(d: Details)
      requires Valid() && InRange(d.when)
      modifies this
      ensures Valid()
      ensures progress == Tick(old(progress), d)
      ensures counted == if Counts(old(progress), d) then old(counted) + [d] else old(counted)
      ensures daysChanged == old(daysChanged) + if Counts(old(progress), d) then {DayText(d.when)} else {}
    {
      if Before(d.time, progress.latest) {
        return;
      }
      if d.code == ART_ACCEPT || d.code == ART_JUNK {
        ProcessAccepted(d);
      }
    }

    method ProcessAccepted(d: Details)
      requires Valid() && InRange(d.when) && Counts(progress, d)
      modifies this
      ensures Valid()
      ensures progress == Tick(old(progress), d)
      ensures counted == old(counted) + [d]
      ensures daysChanged == old(daysChanged) + {DayText(d.when)}
    {
      hide MapPath, DayText, TimeGm, Tally, InMonth, InDay;
      var path := MapPath(state, d);
      if path != currentPath {
        OpenMap(path);
      }
      AddToMap(d);
      if d.time.sec >= 0 {
        if Before(progress.latest, d.time) {
          progress := progress.(latest := d.time);
        }
      }
      progress := progress.(counter := progress.counter + 1);
      if progress.counter >= COMMIT_EVERY {
        UpdateTimestamp();
      }
      daysChanged := daysChanged + {DayText(d.when)};
    }

    /** The two increments, through the mapped file. */
    method AddToMap(d: Details)
      requires Valid() && InRange(d.when) && currentPath == MapPath(state, d)
      modifies this`disk, this`counted
      ensures Valid() && counted == old(counted) + [d]
    {
      hide MapPath, InMonth, Tally;
      var index := Minute(d);
      var buckets := disk[currentMap.value];
      var b := buckets[index];
      disk := disk[currentMap.value := buckets[index := Bucket(b.articles + 1, b.bytes + d.size)]];
      counted := counted + [d];
      forall path, minute | 0 <= minute < MAP_BUCKETS
        ensures Tally(state, counted, path, minute)
             == if path in disk then disk[path][minute] else Bucket(0, 0)
      {
        TallyAppend(state, old(counted), d, path, minute);
      }
    }
  }

  lemma NoLines(today: Tm, c: Progress)
    ensures ParseAll(today, []) == [] && TickAll(c, []) == c && CountedOf(c, []) == []
  {
  }

  lemma ParseOneMore(today: Tm, lines: seq<string>, n: nat)
    requires n < |lines|
    ensures
      ParseAll(today, lines[..n + 1])
        == match Parse(today, lines[n])
           case None => ParseAll(today, lines[..n])
           case Some(d) => ParseAll(today, lines[..n]) + [d]
  {
    hide Parse;
    assert lines[..n + 1][..n] == lines[..n];
  }

  lemma CountOneMore(c: Progress, ds: seq<Details>, d: Details)
    ensures TickAll(c, ds + [d]) == Tick(TickAll(c, ds), d)
    ensures CountedOf(c, ds + [d]) == CountedOf(c, ds) + (if Counts(TickAll(c, ds), d) then [d] else [])
  {
    hide Tick, Counts;
    assert (ds + [d])[..|ds|] == ds;
  }

  lemma TallyAppend(state: string, counted: seq<Details>, d: Details, path: string, minute: int)
    ensures
      var t := Tally(state, counted, path, minute);
      Tally(state, counted + [d], path, minute) ==
      if MapPath(state, d) == path && Minute(d) == minute then Bucket(t.articles + 1, t.bytes + d.size) else t
  {
    hide MapPath;
    assert (counted + [d])[..|counted|] == counted;
  }

  function Zeroed(n: nat): (z: seq<Bucket>)
    ensures |z| == n && forall i :: 0 <= i < n ==> z[i] == Bucket(0, 0)
  {
    seq(n, i => Bucket(0, 0))
  }
}
