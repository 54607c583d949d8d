/** The reader of `git log --date=raw` in gateways/bzr2news.c: a three-state
    machine over lines, and the log format it is meant to undo. */
module GitLog {
  import opened Text

  // ----- trimming -----------------------------------------------------------------------

  function RTrim(s: string): (r: string)
    ensures r <= s && (r != "" ==> !IsSpace(r[|r| - 1]))
  {
    if s != "" && IsSpace(s[|s| - 1]) then RTrim(s[..|s| - 1]) else s
  }

  predicate Blank(s: string) { RTrim(s) == "" }

  /** Trimming the end looks at the last part first. */
  lemma {:induction false} RTrimConcat(a: string, b: string)
    ensures RTrim(a + b) == if Blank(b) then RTrim(a) else a + RTrim(b)
    decreases |b|
  {
    if b == "" {
      assert a + b == a;
    } else {
      var m := |b| - 1;
      assert (a + b)[..|a + b| - 1] == a + b[..m];
      assert a + b == a + b[..m] + [b[m]];
      RTrimConcat(a, b[..m]);
    }
  }

  // ----- one log entry --------------------------------------------------------------------

  datatype Entry = Entry(
    revno: int,
    commitId: Option<string>,
    timestamp: int,
    branch: Option<string>,
    committer: Option<string>,
    message: Option<string>,
    added: Option<string>,
    removed: Option<string>,
    modified: Option<string>,
    renamed: Option<string>)

  const NO_ENTRY: Entry := Entry(0, None, 0, None, None, None, None, None, None, None)

  function Digits(s: string): int
  {
    DecimalValue(s[..DigitRun(s)])
  }

  /** atoll and atoi: blanks, a sign, digits; anything after is ignored. */
  function Atoll(text: string): int
  {
    var s := LTrim(text);
    if s != "" && s[0] == '-' then -Digits(s[1..])
    else if s != "" && s[0] == '+' then Digits(s[1..])
    else Digits(s)
  }

  /** header */
  function Header(name: string, text: string, l: Entry): Entry
  {
    var t := RTrim(text);
    if name == "message" then l.(message := Some(t))
    else if name == "branch nick" then l.(branch := Some(t))
    else if name == "committer" || name == "Author" then l.(committer := Some(t))
    else if name == "added" then l.(added := Some(t))
    else if name == "removed" then l.(removed := Some(t))
    else if name == "modified" then l.(modified := Some(t))
    else if name == "renamed" then l.(renamed := Some(t))
    else if name == "revno" then l.(revno := Atoll(t))
    else if name == "Date" then l.(timestamp := Atoll(t))
    else if name == "commit" then l.(commitId := Some(t))
    else l
  }

  // ----- the machine ------------------------------------------------------------------------

  datatype Mode = Initial | Headers | Comment

  /** aborted: an assert has failed. */
  datatype Machine = Machine(
    mode: Mode,
    message: Option<string>,
    l: Entry,
    delivered: seq<Entry>,
    aborted: bool)

  const START: Machine := Machine(Initial, None, NO_ENTRY, [], false)

  /** What is the same for the whole run: the repository's name, the age limit
      (0 for none) and the time. */
  datatype Setting = Setting(stem: string, maxAge: int, now: int)

  predicate Recent(setting: Setting, timestamp: int)
  {
    setting.maxAge == 0 || setting.now - timestamp <= setting.maxAge
  }

  /** strcspn(line, ": ") */
  function NameLength(line: string): (n: nat)
    ensures n <= |line|
  {
    if line == "" || line[0] == ':' || line[0] == ' ' then 0 else 1 + NameLength(line[1..])
  }

  predicate AtMargin(line: string) { line != "" && !IsSpace(line[0]) }

  function HeaderLine(m: Machine, line: string): Machine
  {
    var n := NameLength(line);
    var text := if n < |line| then LTrim(line[n + 1..]) else "";
    m.(mode := Headers, l := Header(line[..n], text, m.l))
  }

  /** complete_git_commit, then the reset of its caller. */
  function Complete(setting: Setting, m: Machine): Machine
  {
    if m.message == None then m.(aborted := true)
    else
      var l := Header("message", m.message.value, Header("branch nick", setting.stem, m.l));
      var done := Recent(setting, m.l.timestamp) && m.l.commitId.Some?;
      m.(message := None, l := NO_ENTRY,
         delivered := if done then m.delivered + [l.(revno := -1)] else m.delivered)
  }

  function CommentLine(setting: Setting, m: Machine, line: string): Machine
  {
    if AtMargin(line) then
      var d := Complete(setting, m);
      if d.aborted then d else HeaderLine(d, line)
    else if m.message.Some? then m.(mode := Comment, message := Some(m.message.value + line + "\n"))
    else if line != "" then m.(mode := Comment, message := Some(line + "\n"))
    else m.(mode := Comment)
  }

  /** One line as getline returns it. */
  function Step(setting: Setting, m: Machine, raw: string): Machine
  {
    var line := RTrim(raw);
    if m.aborted then m
    else if m.mode == Comment then CommentLine(setting, m, line)
    else if AtMargin(line) then HeaderLine(m, line)
    else if m.mode == Initial then m
    else CommentLine(setting, m, line)
  }

  function Feed(setting: Setting, m: Machine, lines: seq<string>): Machine
    decreases |lines|
  {
    if lines == [] then m else Feed(setting, Step(setting, m, lines[0]), lines[1..])
  }

  /** The end of the log. */
  function Finish(setting: Setting, m: Machine): Machine
  {
    if !m.aborted && m.l.commitId.Some? then Complete(setting, m) else m
  }

  function Run(setting: Setting, lines: seq<string>): Machine
  {
    Finish(setting, Feed(setting, START, lines))
  }

  // ----- the format ---------------------------------------------------------------------------

  datatype Extra = Extra(name: string, value: string)

  datatype Commit = Commit(
    id: string,
    extras: seq<Extra>,
    author: string,
    date: int,
    zone: string,
    message: seq<string>)

  const KNOWN: set<string> :=
    {"message", "branch nick", "committer", "Author", "added", "removed", "modified", "renamed",
     "revno", "timestamp", "Date", "commit", "revision-id"}

  predicate GoodName(name: string)
  {
    AtMargin(name) && ':' !in name && ' ' !in name
  }

  /** A commit as git can print it. */
  predicate GoodCommit(c: Commit)
  {
    && AtMargin(c.id)
    && forall e :: e in c.extras ==> GoodName(e.name) && e.name !in KNOWN
  }

  function SignedDecimal(n: int): string
  {
    if n < 0 then "-" + Decimal(-n) else Decimal(n)
  }

  function ExtraLines(extras: seq<Extra>): seq<string>
  {
    if extras == [] then [] else [extras[0].name + ": " + extras[0].value + "\n"] + ExtraLines(extras[1..])
  }

  function Indented(message: seq<string>): seq<string>
  {
    if message == [] then [] else ["    " + message[0] + "\n"] + Indented(message[1..])
  }

  function CommitLines(c: Commit): seq<string>
  {
    ["commit" + " " + c.id + "\n"]
    + (ExtraLines(c.extras)
    + (["Author" + ": " + c.author + "\n"]
    + (["Date" + ": " + ("  " + SignedDecimal(c.date) + " " + c.zone) + "\n"]
    + (["\n"] + Indented(c.message)))))
  }

  /** git puts an empty line between commits. */
  function LogLines(commits: seq<Commit>): seq<string>
  {
    if commits == [] then []
    else if |commits| == 1 then CommitLines(commits[0])
    else LogLines(commits[..|commits| - 1]) + (["\n"] + CommitLines(commits[|commits| - 1]))
  }

  // ----- what should be delivered ----------------------------------------------------------------

  function Trim(s: string): string { LTrim(RTrim(s)) }

  /** The message as indented, without trailing blanks on each line. */
  function Body(message: seq<string>): string
  {
    if message == [] then "" else RTrim("    " + message[0]) + "\n" + Body(message[1..])
  }

  /** A message of blank lines only. */
  predicate BlankMessage(message: seq<string>)
  {
    forall i :: 0 <= i < |message| ==> Blank(message[i])
  }

  function DropBlankLines(message: seq<string>): seq<string>
  {
    if message != [] && Blank(message[0]) then DropBlankLines(message[1..]) else message
  }

  function HeaderEntry(c: Commit): Entry
  {
    NO_ENTRY.(commitId := Some(RTrim(c.id)), committer := Some(Trim(c.author)), timestamp := c.date)
  }

  function Expected(setting: Setting, c: Commit): Entry
  {
    HeaderEntry(c).(
      branch := Some(RTrim(setting.stem)),
      message := Some(RTrim(Body(DropBlankLines(c.message)))),
      revno := -1)
  }

  function ExpectedAll(setting: Setting, commits: seq<Commit>): seq<Entry>
  {
    if commits == [] then []
    else
      var c := commits[|commits| - 1];
      ExpectedAll(setting, commits[..|commits| - 1])
      + (if setting.maxAge == 0 || setting.now - c.date <= setting.maxAge then [Expected(setting, c)] else [])
  }

  // ----- header lines ------------------------------------------------------------------------------

  lemma {:induction false} NameLengthOf(name: string, rest: string)
    requires ':' !in name && ' ' !in name && rest != "" && (rest[0] == ':' || rest[0] == ' ')
    ensures NameLength(name + rest) == |name|
  {
    if name == "" {
      assert name + rest == rest;
    } else {
      assert (name + rest)[1..] == name[1..] + rest;
      NameLengthOf(name[1..], rest);
    }
  }

  lemma RTrimNewline(s: string)
    ensures RTrim(s + "\n") == RTrim(s)
  {
    RTrimConcat(s, "\n");
    assert "\n"[..0] == "";
  }

  lemma LTrimSpace(s: string)
    ensures LTrim(" " + s) == LTrim(s)
  {
    assert (" " + s)[1..] == s;
  }

  lemma LTrimTwoSpaces(s: string)
    ensures LTrim("  " + s) == LTrim(s)
  {
    assert "  " + s == " " + (" " + s);
    LTrimSpace(" " + s);
    LTrimSpace(s);
  }

  /** Any header line: a name, a separator, and the text. */
  lemma HeaderLineOf(m: Machine, name: string, sep: char, text: string)
    requires GoodName(name) && (sep == ':' || sep == ' ')
    ensures
      var line := name + ([sep] + text);
      AtMargin(line) && HeaderLine(m, line) == m.(mode := Headers, l := Header(name, LTrim(text), m.l))
  {
    hide Header, LTrim;
    var rest := [sep] + text;
    NameLengthOf(name, rest);
    var line := name + rest;
    assert line[..|name|] == name;
    assert line[|name| + 1..] == rest[1..] == text;
  }

  lemma ColonLineTrimmed(name: string, value: string)
    ensures RTrim(name + ": " + value + "\n")
         == name + ([':'] + if Blank(value) then "" else " " + RTrim(value))
  {
    hide RTrim;
    RTrimNewline(name + ": " + value);
    assert name + ": " + value == name + (":" + (" " + value));
    RTrimConcat(name, ":" + (" " + value));
    RTrimConcat(":", " " + value);
    RTrimConcat(" ", value);
    RTrimSingles();
  }

  lemma RTrimSingles()
    ensures Blank(" ") && RTrim(":") == ":" && RTrim("") == ""
  {
    assert " "[..0] == "";
  }

  /** The header line "name: value". */
  lemma ColonLine(m: Machine, name: string, value: string)
    requires GoodName(name)
    ensures
      var line := RTrim(name + ": " + value + "\n");
      AtMargin(line) && HeaderLine(m, line) == m.(mode := Headers, l := Header(name, Trim(value), m.l))
  {
    hide RTrim, LTrim, HeaderLine, Header, AtMargin;
    ColonLineTrimmed(name, value);
    HeaderLineOf(m, name, ':', if Blank(value) then "" else " " + RTrim(value));
    LTrimSpace(RTrim(value));
    LTrimEmpty();
  }

  lemma LTrimEmpty()
    ensures LTrim("") == ""
  {
  }

  lemma {:induction false} NotBlank(s: string)
    requires AtMargin(s)
    ensures AtMargin(RTrim(s)) && LTrim(RTrim(s)) == RTrim(s)
  {
    if IsSpace(s[|s| - 1]) {
      NotBlank(s[..|s| - 1]);
    }
  }

  lemma RTrimTwice(s: string)
    ensures RTrim(RTrim(s)) == RTrim(s)
  {
  }

  /** The line "commit id". */
  lemma CommitLine(m: Machine, id: string)
    requires AtMargin(id)
    ensures
      var line := RTrim("commit" + " " + id + "\n");
      AtMargin(line) && HeaderLine(m, line) == m.(mode := Headers, l := m.l.(commitId := Some(RTrim(id))))
  {
    hide RTrim, LTrim, HeaderLine, Header, AtMargin;
    CommitLineTrimmed(id);
    NotBlank(id);
    CommitIsName();
    HeaderLineOf(m, "commit", ' ', RTrim(id));
    HeaderCommit(m.l, RTrim(id));
    RTrimTwice(id);
  }

  lemma CommitIsName()
    ensures GoodName("commit") && AtMargin("commit")
  {
  }

  lemma HeaderCommit(l: Entry, text: string)
    ensures Header("commit", text, l) == l.(commitId := Some(RTrim(text)))
  {
    hide RTrim;
  }

  lemma CommitLineTrimmed(id: string)
    requires AtMargin(id)
    ensures RTrim("commit" + " " + id + "\n") == "commit" + (" " + RTrim(id))
  {
    hide RTrim;
    RTrimNewline("commit" + " " + id);
    ConcatAssociative("commit", " ", id);
    RTrimConcat("commit", " " + id);
    RTrimConcat(" ", id);
    NotBlank(id);
  }

  lemma TrimTwice(s: string)
    ensures RTrim(Trim(s)) == Trim(s)
  {
  }

  // ----- the date ---------------------------------------------------------------------------------

  lemma DigitsOf(n: nat, rest: string)
    requires rest == "" || !IsDigit(rest[0])
    ensures Digits(Decimal(n) + rest) == n
  {
    var d := Decimal(n);
    DigitRunOf(d, rest);
    assert (d + rest)[..|d|] == d;
    DecimalValueOfDecimal(n);
  }

  lemma AtollOf(n: int, rest: string)
    requires rest == "" || rest[0] == ' '
    ensures AtMargin(SignedDecimal(n) + rest) && Atoll(SignedDecimal(n) + rest) == n
  {
    if n < 0 {
      hide Digits, Decimal;
      DigitsOf(-n, rest);
      assert (SignedDecimal(n) + rest)[1..] == Decimal(-n) + rest;
    } else {
      hide Digits, Decimal;
      DigitsOf(n, rest);
      assert IsDigit((Decimal(n) + rest)[0]);
    }
  }

  lemma TrimDate(d: string, zone: string)
    requires AtMargin(d)
    ensures
      Trim("  " + d + " " + zone) == RTrim(d + " " + zone)
      && (Blank(zone) ==> RTrim(d + " " + zone) == RTrim(d))
      && (!Blank(zone) ==> RTrim(d + " " + zone) == d + (" " + RTrim(zone)))
  {
    hide RTrim, LTrim;
    var t := d + (" " + zone);
    assert d + " " + zone == t;
    RTrimConcat(d, " " + zone);
    RTrimConcat(" ", zone);
    RTrimSingles();
    assert "  " + d + " " + zone == "  " + t;
    NotBlank(t);
    RTrimConcat("  ", t);
    LTrimTwoSpaces(RTrim(t));
  }

  lemma DecimalKept(n: int)
    ensures RTrim(SignedDecimal(n)) == SignedDecimal(n)
  {
    var s := SignedDecimal(n);
    var d := if n < 0 then Decimal(-n) else Decimal(n);
    assert s[|s| - 1] == d[|d| - 1];
    assert IsDigit(d[|d| - 1]);
  }

  lemma DateOfLine(l: Entry, n: int, zone: string)
    ensures Header("Date", Trim("  " + SignedDecimal(n) + " " + zone), l) == l.(timestamp := n)
  {
    hide RTrim, LTrim, Atoll, SignedDecimal;
    AtollOf(n, "");
    assert SignedDecimal(n) + "" == SignedDecimal(n);
    TrimDate(SignedDecimal(n), zone);
    DecimalKept(n);
    RTrimTwice(SignedDecimal(n) + " " + zone);
    if !Blank(zone) {
      AtollOf(n, " " + RTrim(zone));
    }
  }

  // ----- whole blocks -------------------------------------------------------------------------------

  lemma {:induction false} FeedConcat(setting: Setting, m: Machine, a: seq<string>, b: seq<string>)
    ensures Feed(setting, m, a + b) == Feed(setting, Feed(setting, m, a), b)
    decreases |a|
  {
    hide Step;
    if a == [] {
      assert a + b == b;
    } else {
      assert (a + b)[1..] == a[1..] + b;
      FeedConcat(setting, Step(setting, m, a[0]), a[1..], b);
    }
  }

  lemma FeedOne(setting: Setting, m: Machine, line: string)
    ensures Feed(setting, m, [line]) == Step(setting, m, line)
  {
    assert Feed(setting, Step(setting, m, line), [line][1..]) == Step(setting, m, line);
  }

  lemma StepColonLine(setting: Setting, m: Machine, name: string, value: string)
    requires GoodName(name) && m.mode == Headers && !m.aborted
    ensures Step(setting, m, name + ": " + value + "\n") == m.(l := Header(name, Trim(value), m.l))
  {
    hide RTrim, LTrim, HeaderLine, Header, GoodName;
    ColonLine(m, name, value);
  }

  lemma {:induction false} FeedExtras(setting: Setting, m: Machine, extras: seq<Extra>)
    requires m.mode == Headers && !m.aborted
    requires forall e :: e in extras ==> GoodName(e.name) && e.name !in KNOWN
    ensures Feed(setting, m, ExtraLines(extras)) == m
    decreases |extras|
  {
    hide Step, Trim, GoodName;
    if extras != [] {
      var e := extras[0];
      StepColonLine(setting, m, e.name, e.value);
      assert Header(e.name, Trim(e.value), m.l) == m.l;
      FeedExtras(setting, m, extras[1..]);
    }
  }

  /** What the message becomes over indented lines. */
  function Accumulate(message: Option<string>, lines: seq<string>): Option<string>
    decreases |lines|
  {
    if lines == [] then message
    else
      var t := RTrim("    " + lines[0]);
      Accumulate(if message.Some? then Some(message.value + t + "\n")
                 else if t != "" then Some(t + "\n") else None,
                 lines[1..])
  }

  lemma IndentedLine(line: string)
    ensures RTrim("    " + line) == if Blank(line) then "" else "    " + RTrim(line)
    ensures !AtMargin(RTrim("    " + line))
  {
    RTrimConcat("    ", line);
    assert RTrim("    ") == "" by {
      assert "    "[..3] == "   " && "   "[..2] == "  " && "  "[..1] == " " && " "[..0] == "";
      assert RTrim(" ") == "" && RTrim("  ") == RTrim(" ") && RTrim("   ") == RTrim("  ");
    }
  }

  lemma {:induction false} FeedIndented(setting: Setting, m: Machine, lines: seq<string>)
    requires m.mode == Comment && !m.aborted
    ensures Feed(setting, m, Indented(lines)) == m.(message := Accumulate(m.message, lines))
    decreases |lines|
  {
    hide RTrim, AtMargin, Complete, HeaderLine;
    if lines != [] {
      var raw := "    " + lines[0] + "\n";
      RTrimNewline("    " + lines[0]);
      IndentedLine(lines[0]);
      FeedIndented(setting, Step(setting, m, raw), lines[1..]);
    }
  }

  lemma {:induction false} AccumulateSome(x: string, lines: seq<string>)
    ensures Accumulate(Some(x), lines) == Some(x + Body(lines))
    decreases |lines|
  {
    hide RTrim;
    if lines == [] {
      assert x + "" == x;
    } else {
      var t := RTrim("    " + lines[0]);
      AccumulateSome(x + t + "\n", lines[1..]);
      assert x + t + "\n" + Body(lines[1..]) == x + (t + "\n" + Body(lines[1..]));
    }
  }

  /** Nothing for a message of blank lines, else the body from its first line
      that is not blank. */
  lemma {:induction false} AccumulateNone(lines: seq<string>)
    ensures BlankMessage(lines) ==> Accumulate(None, lines) == None
    ensures !BlankMessage(lines) ==> Accumulate(None, lines) == Some(Body(DropBlankLines(lines)))
    decreases |lines|
  {
    hide RTrim;
    if lines != [] {
      IndentedLine(lines[0]);
      if Blank(lines[0]) {
        AccumulateNone(lines[1..]);
        if !BlankMessage(lines) {
          var i :| 0 <= i < |lines| && !Blank(lines[i]);
          assert lines[1..][i - 1] == lines[i];
        }
      } else {
        AccumulateSome(RTrim("    " + lines[0]) + "\n", lines[1..]);
      }
    }
  }

  /** The machine after a whole commit: its header fields and message are
      pending. */
  function After(c: Commit, delivered: seq<Entry>): Machine
  {
    Machine(Comment, Accumulate(None, c.message), HeaderEntry(c), delivered, false)
  }

  function AfterFirstLine(c: Commit, delivered: seq<Entry>): Machine
  {
    Machine(Headers, None, NO_ENTRY.(commitId := Some(RTrim(c.id))), delivered, false)
  }

  function LaterLines(c: Commit): seq<string>
  {
    ExtraLines(c.extras)
    + (["Author" + ": " + c.author + "\n"]
    + (["Date" + ": " + ("  " + SignedDecimal(c.date) + " " + c.zone) + "\n"]
    + (["\n"] + Indented(c.message))))
  }

  lemma StepBlankLine(setting: Setting, m: Machine)
    requires !m.aborted && m.mode != Initial
    ensures Step(setting, m, "\n") ==
      m.(mode := Comment, message := if m.message.Some? then Some(m.message.value + "\n") else None)
  {
    hide Complete, HeaderLine;
    RTrimNewline("");
    RTrimSingles();
    assert "" + "\n" == "\n";
    assert m.message.Some? ==> m.message.value + "" + "\n" == m.message.value + "\n";
  }

  lemma FeedLaterLines(setting: Setting, c: Commit, delivered: seq<Entry>)
    requires GoodCommit(c)
    ensures Feed(setting, AfterFirstLine(c, delivered), LaterLines(c)) == After(c, delivered)
  {
    hide Step, RTrim, LTrim, SignedDecimal, Accumulate, ExtraLines, Indented, Feed, Trim;
    var m := AfterFirstLine(c, delivered);
    var author := "Author" + ": " + c.author + "\n";
    var dateText := "  " + SignedDecimal(c.date) + " " + c.zone;
    var date := "Date" + ": " + dateText + "\n";
    FeedConcat(setting, m, ExtraLines(c.extras), [author] + ([date] + (["\n"] + Indented(c.message))));
    FeedExtras(setting, m, c.extras);
    FeedConcat(setting, m, [author], [date] + (["\n"] + Indented(c.message)));
    FeedOne(setting, m, author);
    StepColonLine(setting, m, "Author", c.author);
    TrimTwice(c.author);
    var m1 := Step(setting, m, author);
    FeedConcat(setting, m1, [date], ["\n"] + Indented(c.message));
    FeedOne(setting, m1, date);
    StepColonLine(setting, m1, "Date", dateText);
    DateOfLine(m1.l, c.date, c.zone);
    var m2 := Step(setting, m1, date);
    FeedConcat(setting, m2, ["\n"], Indented(c.message));
    FeedOne(setting, m2, "\n");
    StepBlankLine(setting, m2);
    FeedIndented(setting, Step(setting, m2, "\n"), c.message);
  }

  /** The first commit of the log. */
  lemma FeedFirstCommit(setting: Setting, c: Commit)
    requires GoodCommit(c)
    ensures Feed(setting, START, CommitLines(c)) == After(c, [])
  {
    hide Feed, RTrim, LaterLines, HeaderLine, AtMargin, After;
    var line := "commit" + " " + c.id + "\n";
    CommitLine(START, c.id);
    FeedConcat(setting, START, [line], LaterLines(c));
    FeedOne(setting, START, line);
    FeedLaterLines(setting, c, []);
    CommitLinesSplit(c);
  }

  lemma CommitLinesSplit(c: Commit)
    ensures CommitLines(c) == ["commit" + " " + c.id + "\n"] + LaterLines(c)
  {
  }

  /** What completing a pending commit delivers. */
  function Delivery(setting: Setting, c: Commit): seq<Entry>
  {
    if Recent(setting, c.date) then [Expected(setting, c)] else []
  }

  lemma CompleteDelivers(setting: Setting, c: Commit, m: Machine)
    requires m.l == HeaderEntry(c) && !m.aborted
    requires m.message.Some? && RTrim(m.message.value) == RTrim(Body(DropBlankLines(c.message)))
    ensures Complete(setting, m) ==
      Machine(m.mode, None, NO_ENTRY, m.delivered + Delivery(setting, c), false)
  {
    hide RTrim, Body, DropBlankLines, Trim;
    assert m.delivered + [] == m.delivered;
  }

  /** A further commit: its first line completes the one before, if that has a
      message, and fails the assert if not. */
  lemma FeedNextCommit(setting: Setting, before: Commit, c: Commit, delivered: seq<Entry>)
    requires GoodCommit(c)
    ensures
      var m := Feed(setting, After(before, delivered), ["\n"] + CommitLines(c));
      if BlankMessage(before.message) then m.aborted
      else m == After(c, delivered + Delivery(setting, before))
  {
    hide Feed, RTrim, LaterLines, HeaderLine, AtMargin, Accumulate, BlankMessage, Complete, Body, DropBlankLines,
         HeaderEntry, Delivery;
    var p := After(before, delivered);
    var line := "commit" + " " + c.id + "\n";
    CommitLinesSplit(c);
    FeedConcat(setting, p, ["\n"], [line] + LaterLines(c));
    FeedOne(setting, p, "\n");
    StepBlankLine(setting, p);
    var q := Step(setting, p, "\n");
    FeedConcat(setting, q, [line], LaterLines(c));
    FeedOne(setting, q, line);
    AccumulateNone(before.message);
    CommitLine(q, c.id);
    if BlankMessage(before.message) {
      CompleteWithout(setting, q);
      FeedAborted(setting, Step(setting, q, line), LaterLines(c));
    } else {
      RTrimNewline(Body(DropBlankLines(before.message)));
      CompleteDelivers(setting, before, q);
      CommitLine(Complete(setting, q), c.id);
      FeedLaterLines(setting, c, delivered + Delivery(setting, before));
    }
  }

  lemma CompleteWithout(setting: Setting, m: Machine)
    requires m.message == None
    ensures Complete(setting, m).aborted
  {
  }

  lemma {:induction false} FeedAborted(setting: Setting, m: Machine, lines: seq<string>)
    requires m.aborted
    ensures Feed(setting, m, lines) == m
    decreases |lines|
  {
    if lines != [] {
      FeedAborted(setting, m, lines[1..]);
    }
  }

  /** After a whole log: the last commit is pending and the others have been
      delivered, unless one of those has a blank message. */
  lemma {:induction false} FeedLog(setting: Setting, commits: seq<Commit>)
    requires commits != [] && forall c :: c in commits ==> GoodCommit(c)
    ensures
      var m := Feed(setting, START, LogLines(commits));
      var last := |commits| - 1;
      if forall i :: 0 <= i < last ==> !BlankMessage(commits[i].message)
      then m == After(commits[last], ExpectedAll(setting, commits[..last]))
      else m.aborted
    decreases |commits|
  {
    hide Feed, After, BlankMessage, CommitLines, GoodCommit, Expected;
    var last := |commits| - 1;
    if last == 0 {
      FeedFirstCommit(setting, commits[0]);
    } else {
      var earlier := commits[..last];
      FeedLog(setting, earlier);
      var more := ["\n"] + CommitLines(commits[last]);
      FeedConcat(setting, START, LogLines(earlier), more);
      assert forall i :: 0 <= i < last - 1 ==> earlier[i] == commits[i];
      if forall i :: 0 <= i < last - 1 ==> !BlankMessage(commits[i].message) {
        FeedNextCommit(setting, earlier[last - 1], commits[last], ExpectedAll(setting, earlier[..last - 1]));
      } else {
        FeedAborted(setting, Feed(setting, START, LogLines(earlier)), more);
      }
    }
  }

  /** The machine undoes the format: it delivers exactly the recent commits, in
      order and with their fields, and no assert fails, if every commit has a
      message that is not blank; otherwise an assert fails. */
  lemma LogRoundTrip(setting: Setting, commits: seq<Commit>)
    requires forall c :: c in commits ==> GoodCommit(c)
    ensures
      var m := Run(setting, LogLines(commits));
      && (!m.aborted <==> forall c :: c in commits ==> !BlankMessage(c.message))
      && (!m.aborted ==> m.delivered == ExpectedAll(setting, commits))
  {
    hide Feed, BlankMessage, CommitLines, GoodCommit, Expected, HeaderEntry, Accumulate, Complete, Body,
         DropBlankLines, RTrim, Trim;
    if commits == [] {
      FeedNothing(setting);
    } else {
      var last := |commits| - 1;
      FeedLog(setting, commits);
      var m := Feed(setting, START, LogLines(commits));
      AccumulateNone(commits[last].message);
      HasId(commits[last]);
      if !m.aborted {
        if BlankMessage(commits[last].message) {
          CompleteWithout(setting, m);
        } else {
          CompleteDelivers(setting, commits[last], m);
        }
      }
    }
  }

  predicate Noise(lines: seq<string>)
  {
    forall i :: 0 <= i < |lines| ==> !AtMargin(RTrim(lines[i]))
  }

  /** Blank and indented lines before the first commit are ignored. */
  lemma {:induction false} NoiseIsIgnored(setting: Setting, noise: seq<string>, lines: seq<string>)
    requires Noise(noise)
    ensures Feed(setting, START, noise + lines) == Feed(setting, START, lines)
  {
    hide RTrim;
    FeedConcat(setting, START, noise, lines);
    NoiseLines(setting, noise);
  }

  lemma {:induction false} NoiseLines(setting: Setting, noise: seq<string>)
    requires Noise(noise)
    ensures Feed(setting, START, noise) == START
  {
    hide RTrim;
    if noise != [] {
      NoiseLines(setting, noise[1..]);
    }
  }

  lemma FeedNothing(setting: Setting)
    ensures Feed(setting, START, LogLines([])) == START
  {
  }

  lemma HasId(c: Commit)
    ensures HeaderEntry(c).commitId.Some?
  {
  }

  // ----- the reader as written ------------------------------------------------------------------------

  /** Strip the newline and any other trailing whitespace. */
  method StripLine(raw: string) returns (line: string)
    ensures line == RTrim(raw)
  {
    var rc := |raw|;
    assert raw[..rc] == raw;
    while rc > 0 && IsSpace(raw[rc - 1])
      invariant rc <= |raw| && RTrim(raw[..rc]) == RTrim(raw)
    {
      assert raw[..rc][..rc - 1] == raw[..rc - 1];
      rc := rc - 1;
    }
    line := raw[..rc];
  }

  /** strcspn(line, ": ") as a loop. */
  method NameEnd(line: string) returns (n: nat)
    ensures n == NameLength(line)
  {
    n := 0;
    assert line[0..] == line;
    while n < |line| && line[n] != ':' && line[n] != ' '
      invariant n <= |line| && NameLength(line) == n + NameLength(line[n..])
    {
      assert line[n..][1..] == line[n + 1..];
      n := n + 1;
    }
  }

  method SkipSpaces(line: string, from: nat) returns (n: nat)
    requires from <= |line|
    ensures n <= |line| && line[n..] == LTrim(line[from..])
  {
    n := from;
    while n < |line| && IsSpace(line[n])
      invariant n <= |line| && LTrim(line[n..]) == LTrim(line[from..])
    {
      assert line[n..][1..] == line[n + 1..];
      n := n + 1;
    }
  }

  /** collect_header: delimit the name, skip to the text, store the field. */
  method CollectHeader(line: string, l: Entry) returns (l': Entry)
    ensures
      var m := Machine(Headers, None, l, [], false);
      l' == HeaderLine(m, line).l
  {
    hide Header, NameLength, LTrim;
    var n := NameEnd(line);
    var name := line[..n];
    if n < |line| {
      n := n + 1;
    }
    n := SkipSpaces(line, n);
    assert |name| == |line| ==> line[n..] == "" by {
      LTrimEmpty();
    }
    l' := Header(name, line[n..], l);
  }

  /** complete_git_commit: what it posts, if anything. */
  method CompleteGitCommit(setting: Setting, message: string, l: Entry) returns (posted: seq<Entry>)
    ensures
      var m := Machine(Comment, Some(message), l, [], false);
      posted == Complete(setting, m).delivered
  {
    hide Header, RTrim;
    posted := [];
    if setting.maxAge == 0 || setting.now - l.timestamp <= setting.maxAge {
      var e := Header("branch nick", setting.stem, l);
      e := Header("message", message, e);
      HeaderKeepsId("branch nick", setting.stem, l);
      HeaderKeepsId("message", message, Header("branch nick", setting.stem, l));
      if e.commitId.Some? {
        posted := [e.(revno := -1)];
      }
    }
  }

  lemma HeaderKeepsId(name: string, text: string, l: Entry)
    requires name != "commit"
    ensures Header(name, text, l).commitId == l.commitId
  {
    hide RTrim;
  }

  /** process_git_archive: what it hands to post_log, and whether an assert
      failed. */
  method ProcessGitArchive(setting: Setting, lines: seq<string>) returns (delivered: seq<Entry>, aborted: bool)
    ensures delivered == Run(setting, lines).delivered && aborted == Run(setting, lines).aborted
  {
    hide Header, RTrim, LTrim, HeaderLine, Complete;
    var mode, message, l := Initial, None, NO_ENTRY;
    delivered, aborted := [], false;
    var i := 0;
    assert lines[0..] == lines;
    while i < |lines|
      invariant i <= |lines| && !aborted
      invariant Feed(setting, START, lines)
             == Feed(setting, Machine(mode, message, l, delivered, aborted), lines[i..])
    {
      ghost var before := Machine(mode, message, l, delivered, aborted);
      var line := StripLine(lines[i]);
      assert lines[i..][1..] == lines[i + 1..];
      if AtMargin(line) {
        if mode == Comment {
          CompleteParts(setting, before);
          if message == None {
            aborted := true;
            FeedAborted(setting, Step(setting, before, lines[i]), lines[i + 1..]);
            return;
          }
          var posted := CompleteGitCommit(setting, message.value, l);
          delivered := delivered + posted;
          message, l := None, NO_ENTRY;
        }
        HeaderLineParts(Machine(mode, message, l, delivered, aborted), line);
        l := CollectHeader(line, l);
        mode := Headers;
      } else if mode != Initial {
        mode := Comment;
        if message.Some? {
          message := Some(message.value + line + "\n");
        } else if line != "" {
          message := Some(line + "\n");
        }
      }
      i := i + 1;
    }
    if l.commitId.Some? {
      CompleteParts(setting, Machine(mode, message, l, delivered, aborted));
      if message == None {
        aborted := true;
      } else {
        var posted := CompleteGitCommit(setting, message.value, l);
        delivered := delivered + posted;
      }
    }
  }

  /** The parts of a machine that completing a commit looks at. */
  lemma CompleteParts(setting: Setting, m: Machine)
    requires !m.aborted
    ensures m.message == None ==> Complete(setting, m) == m.(aborted := true)
    ensures m.message.Some? ==>
      Complete(setting, m) ==
      Machine(m.mode, None, NO_ENTRY,
              m.delivered + Complete(setting, Machine(Comment, m.message, m.l, [], false)).delivered, false)
  {
    hide Header;
  }

  lemma HeaderLineParts(m: Machine, line: string)
    ensures HeaderLine(m, line) == m.(mode := Headers, l := HeaderLine(Machine(Headers, None, m.l, [], false), line).l)
  {
    hide Header;
  }
}
