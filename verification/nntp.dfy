/** The posting side of lib/nntp.c: what goes over the wire for one article
    and how a server that follows RFC 3977 section 3.1.1 reads it back. */
module Nntp {
  import opened Text

  // ----- sending a multi-line block ---------------------------------------------

  /** The bytes the sending loop writes for the rest of an article; sol says
      whether the next byte starts a line. */
  function Stuff(article: string, sol: bool): string
  {
    if article == [] then (if sol then "" else "\r\n")
    else if article[0] == '\n' then "\r\n" + Stuff(article[1..], true)
    else if article[0] == '.' && sol then ".." + Stuff(article[1..], false)
    else [article[0]] + Stuff(article[1..], false)
  }

  /** A whole block: the stuffed article and the terminating line. */
  function Block(article: string): string
  {
    Stuff(article, true) + ".\r\n"
  }

  /** What the receiver can get back: the last line gains a newline if it
      lacked one. */
  function Completed(article: string): string
  {
    if article == [] || article[|article| - 1] == '\n' then article else article + "\n"
  }

  // ----- receiving it (RFC 3977 section 3.1.1) ----------------------------------

  /** Where the first CRLF starts; |s| if there is none. */
  function FirstCrlf(s: string): (n: nat)
    ensures n <= |s| && (n < |s| ==> n + 1 < |s| && s[n] == '\r' && s[n + 1] == '\n')
  {
    if |s| < 2 then |s|
    else if s[0] == '\r' && s[1] == '\n' then 0
    else 1 + FirstCrlf(s[1..])
  }

  /** Lines up to the one that is "." alone, leading dots removed. */
  function ReadBlock(wire: string): Option<(string, string)>
    decreases |wire|
  {
    var n := FirstCrlf(wire);
    if n == |wire| then None
    else
      var line, rest := wire[..n], wire[n + 2..];
      if line == "." then Some(("", rest))
      else
        var body := if line != [] && line[0] == '.' then line[1..] else line;
        match ReadBlock(rest)
        case None => None
        case Some(more) => Some((body + "\n" + more.0, more.1))
  }

  // ----- the round trip -----------------------------------------------------------

  lemma {:induction false} CrlfAfterLine(x: string, rest: string)
    requires '\n' !in x
    ensures FirstCrlf(x + "\r\n" + rest) == |x|
  {
    var s := x + "\r\n" + rest;
    if x != [] {
      CrlfAfterLine(x[1..], rest);
      assert s[1..] == x[1..] + "\r\n" + rest;
      assert s[1] != '\n';
    }
  }

  /** Inside a line the sender copies. */
  lemma {:induction false} StuffCopies(x: string, rest: string)
    requires '\n' !in x
    ensures Stuff(x + rest, false) == x + Stuff(rest, false)
  {
    if x == [] {
      assert x + rest == rest;
    } else {
      assert (x + rest)[1..] == x[1..] + rest;
      StuffCopies(x[1..], rest);
    }
  }

  /** The first line of an article, without its newline. */
  function LineLength(article: string): (n: nat)
    ensures n <= |article| && '\n' !in article[..n]
    ensures n < |article| ==> article[n] == '\n'
  {
    if article == [] || article[0] == '\n' then 0 else 1 + LineLength(article[1..])
  }

  /** A line as it is sent, without its CRLF. */
  function Dotted(line: string): string
  {
    if line != [] && line[0] == '.' then "." + line else line
  }

  function RestAfterLine(article: string): string
  {
    var n := LineLength(article);
    if n < |article| then article[n + 1..] else ""
  }

  lemma StuffAtLineEnd(article: string)
    ensures Stuff(article[LineLength(article)..], false) == "\r\n" + Stuff(RestAfterLine(article), true)
  {
    var n := LineLength(article);
    if n == |article| {
      assert article[n..] == "";
    } else {
      assert article[n..][1..] == RestAfterLine(article);
    }
  }

  /** A line goes out as itself, with a dot before a leading dot, and CRLF. */
  lemma StuffLine(article: string)
    requires article != []
    ensures
      var line := article[..LineLength(article)];
      Stuff(article, true) == Dotted(line) + ("\r\n" + Stuff(RestAfterLine(article), true))
  {
    hide Stuff, Dotted, RestAfterLine, LineLength;
    var n := LineLength(article);
    StuffAtLineEnd(article);
    if n == 0 {
      assert article[0..] == article;
      EmptyLine(article);
    } else {
      var x, tail := article[1..n], article[n..];
      LineParts(article, n);
      StuffCopies(x, tail);
      StuffStart(article[0], x, tail);
    }
  }

  /** An empty line starts no differently. */
  lemma EmptyLine(article: string)
    requires article != [] && LineLength(article) == 0
    ensures Dotted(article[..0]) == [] && Stuff(article, true) == Stuff(article, false)
  {
  }

  lemma LineParts(article: string, n: nat)
    requires 0 < n <= |article| && '\n' !in article[..n]
    ensures article == [article[0]] + (article[1..n] + article[n..])
    ensures article[..n] == [article[0]] + article[1..n]
    ensures article[0] != '\n' && '\n' !in article[1..n]
  {
    assert forall i :: 0 <= i < n ==> article[i] == article[..n][i];
  }

  lemma StuffStart(c: char, x: string, tail: string)
    requires c != '\n' && Stuff(x + tail, false) == x + Stuff(tail, false)
    ensures Stuff([c] + (x + tail), true) == Dotted([c] + x) + Stuff(tail, false)
  {
    var head := if c == '.' then ".." else [c];
    StuffFirst(c, x + tail);
    hide Stuff;
    ConcatAssociative(head, x, Stuff(tail, false));
    DottedFirst(c, x);
  }

  lemma StuffFirst(c: char, rest: string)
    requires c != '\n'
    ensures Stuff([c] + rest, true) == (if c == '.' then ".." else [c]) + Stuff(rest, false)
  {
    assert ([c] + rest)[1..] == rest;
  }

  lemma DottedFirst(c: char, x: string)
    ensures Dotted([c] + x) == (if c == '.' then ".." else [c]) + x
  {
    if c == '.' {
      assert "." + ([c] + x) == ".." + x;
    }
  }

  /** What the receiver does with one line that is not the terminator. */
  lemma ReadLine(line: string, rest: string)
    requires '\n' !in line
    ensures
      ReadBlock(Dotted(line) + "\r\n" + rest) ==
      match ReadBlock(rest)
      case None => None
      case Some(more) => Some((line + "\n" + more.0, more.1))
  {
    var sent := Dotted(line);
    var wire := sent + "\r\n" + rest;
    CrlfAfterLine(sent, rest);
    assert wire[..|sent|] == sent;
    assert wire[|sent| + 2..] == rest;
    assert sent != ".";
    assert (if sent != [] && sent[0] == '.' then sent[1..] else sent) == line;
  }

  lemma ReadTerminator(tail: string)
    ensures ReadBlock(".\r\n" + tail) == Some(("", tail))
  {
    var wire := ".\r\n" + tail;
    CrlfAfterLine(".", tail);
    assert wire == "." + "\r\n" + tail;
    assert wire[..1] == ".";
    assert wire[3..] == tail;
  }

  lemma EmptyBlock()
    ensures Block([]) == ".\r\n" && Completed([]) == []
  {
  }

  lemma RestIsShorter(article: string)
    requires article != []
    ensures |RestAfterLine(article)| < |article|
  {
  }

  lemma BlockLine(article: string, tail: string)
    requires article != []
    ensures
      var line := article[..LineLength(article)];
      Block(article) + tail == Dotted(line) + "\r\n" + (Block(RestAfterLine(article)) + tail)
  {
    StuffLine(article);
    hide Stuff, Dotted, RestAfterLine;
    var sent, rest := Dotted(article[..LineLength(article)]), Stuff(RestAfterLine(article), true);
    JoinLine(sent, rest, tail);
  }

  lemma JoinLine(sent: string, rest: string, tail: string)
    ensures sent + ("\r\n" + rest) + ".\r\n" + tail == sent + "\r\n" + (rest + ".\r\n" + tail)
  {
  }

  /** Un-stuffing the bytes sent gives back the article, plus a final newline
      if it lacked one, and leaves exactly what follows the terminator: so no
      line of the article can pass for the terminator. */
  lemma {:induction false} BlockRoundTrip(article: string, tail: string)
    ensures ReadBlock(Block(article) + tail) == Some((Completed(article), tail))
    decreases |article|
  {
    hide Block, ReadBlock, Completed, Dotted, RestAfterLine;
    if article == [] {
      ReadTerminator(tail);
      EmptyBlock();
    } else {
      var line, rest := article[..LineLength(article)], RestAfterLine(article);
      RestIsShorter(article);
      BlockLine(article, tail);
      BlockRoundTrip(rest, tail);
      ReadLine(line, Block(rest) + tail);
      CompletedLine(article);
    }
  }

  lemma CompletedLine(article: string)
    requires article != []
    ensures Completed(article) == article[..LineLength(article)] + "\n" + Completed(RestAfterLine(article))
  {
    var n := LineLength(article);
    var line := article[..n];
    if n == |article| {
      assert article == line;
    } else {
      var rest := article[n + 1..];
      hide LineLength;
      assert article == line + "\n" + rest;
      CompletedRest(line, rest);
    }
  }

  lemma CompletedRest(line: string, rest: string)
    ensures Completed(line + "\n" + rest) == line + "\n" + Completed(rest)
  {
    var article := line + "\n" + rest;
    if rest != "" {
      assert article[|article| - 1] == rest[|rest| - 1];
      assert article + "\n" == line + "\n" + (rest + "\n");
    }
  }

  /** Two articles with the same bytes on the wire differ at most in whether
      the last line has its newline. */
  lemma BlockInjective(a: string, b: string)
    requires Block(a) == Block(b)
    ensures Completed(a) == Completed(b)
  {
    BlockRoundTrip(a, "");
    BlockRoundTrip(b, "");
  }

  lemma {:induction false} EveryLfHasCr(article: string, sol: bool)
    ensures forall i :: 0 <= i < |Stuff(article, sol)| && Stuff(article, sol)[i] == '\n' ==>
                          i > 0 && Stuff(article, sol)[i - 1] == '\r'
  {
    if article != [] {
      EveryLfHasCr(article[1..], article[0] == '\n');
    }
  }

  // ----- responses -----------------------------------------------------------------

  /** pts_response on a line as io_getline delivers it; None is a fatal error. */
  function ResponseCode(line: string): Option<nat>
  {
    var n := |line|;
    if n < 2 || line[n - 2..] != "\r\n" then None
    else if n < 5 || !IsDigit(line[0]) || !IsDigit(line[1]) || !IsDigit(line[2]) then None
    else if IsDigit(line[3]) then None
    else Some(100 * DigitValue(line[0]) + 10 * DigitValue(line[1]) + DigitValue(line[2]))
  }

  /** A three-digit code, text that does not go on with a digit, and CRLF. */
  function ResponseLine(code: nat, text: string): string
    requires code < 1000
  {
    [DigitChar(code / 100), DigitChar(code / 10 % 10), DigitChar(code % 10)] + text + "\r\n"
  }

  /** Every such line is understood as its code ... */
  lemma ResponseCodeOfLine(code: nat, text: string)
    requires code < 1000 && (text == [] || !IsDigit(text[0]))
    ensures ResponseCode(ResponseLine(code, text)) == Some(code)
  {
    var line := ResponseLine(code, text);
    var a, b, c := code / 100, code / 10 % 10, code % 10;
    assert line == [DigitChar(a), DigitChar(b), DigitChar(c)] + text + "\r\n";
    assert line[|line| - 2..] == "\r\n";
    assert line[0] == DigitChar(a) && line[1] == DigitChar(b) && line[2] == DigitChar(c);
    assert line[3] == if text == [] then '\r' else text[0];
    assert code == 100 * a + 10 * b + c;
  }

  /** ... and every line that is understood is one. */
  lemma ResponseLineOfCode(line: string)
    requires ResponseCode(line).Some?
    ensures ResponseCode(line).value < 1000
    ensures
      var text := line[3..|line| - 2];
      (text == [] || !IsDigit(text[0])) && line == ResponseLine(ResponseCode(line).value, text)
  {
    var code := ResponseCode(line).value;
    var a, b, c := DigitValue(line[0]), DigitValue(line[1]), DigitValue(line[2]);
    ThreeDigits(a, b, c);
    DigitCharOfValue(line[0]);
    DigitCharOfValue(line[1]);
    DigitCharOfValue(line[2]);
    hide DigitChar, DigitValue, ResponseCode;
    InThreeParts(line);
  }

  lemma ThreeDigits(a: nat, b: nat, c: nat)
    requires a < 10 && b < 10 && c < 10
    ensures var code := 100 * a + 10 * b + c; code / 100 == a && code / 10 % 10 == b && code % 10 == c
  {
  }

  lemma InThreeParts(line: string)
    requires |line| >= 5
    ensures line == [line[0], line[1], line[2]] + line[3..|line| - 2] + line[|line| - 2..]
  {
  }

  lemma DigitCharOfValue(c: char)
    requires IsDigit(c)
    ensures DigitChar(DigitValue(c)) == c
  {
  }

  // ----- the POST exchange ------------------------------------------------------------

  const POST_COMMAND: string := "POST\r\n"

  datatype PostResult = Answered(code: nat) | Died

  /** The bytes of all the tries that answering the given codes brings about:
      a command per try and the article whenever it is asked for. */
  function Sent(article: string, codes: seq<nat>): string
  {
    if codes == [] then POST_COMMAND
    else if codes[0] == 340 then
      POST_COMMAND + Block(article) + (if |codes| > 1 && codes[1] == 480 then Sent(article, codes[2..]) else "")
    else if codes[0] == 480 then POST_COMMAND + Sent(article, codes[1..])
    else POST_COMMAND
  }

  /** The articles a server reads from such a byte stream when it gives those
      answers; None if the stream does not parse. */
  function ServerReads(wire: string, codes: seq<nat>): Option<seq<string>>
    decreases |wire|
  {
    if !(POST_COMMAND <= wire) then (if wire == "" then Some([]) else None)
    else if codes == [] then (if wire == POST_COMMAND then Some([]) else None)
    else
      var rest := wire[|POST_COMMAND|..];
      if codes[0] == 480 then ServerReads(rest, codes[1..])
      else if codes[0] != 340 then (if rest == "" then Some([]) else None)
      else
        match ReadBlock(rest)
        case None => None
        case Some(got) =>
          if |got.1| >= |wire| then None
          else match ServerReads(got.1, if |codes| > 1 then codes[2..] else [])
            case None => None
            case Some(more) => Some([got.0] + more)
  }

  /** How many answers invite the article. */
  function Invitations(codes: seq<nat>): nat
  {
    if codes == [] then 0
    else if codes[0] == 480 then Invitations(codes[1..])
    else if codes[0] != 340 then 0
    else 1 + (if |codes| > 1 && codes[1] == 480 then Invitations(codes[2..]) else 0)
  }

  function Copies(article: string, n: nat): seq<string>
  {
    if n == 0 then [] else [article] + Copies(article, n - 1)
  }

  lemma NothingMore(article: string, codes: seq<nat>)
    ensures ServerReads("", codes) == Some(Copies(article, 0))
  {
  }

  lemma SentInvited(article: string, codes: seq<nat>)
    requires codes != [] && codes[0] == 340
    ensures
      var again := |codes| > 1 && codes[1] == 480;
      && Sent(article, codes) == POST_COMMAND + Block(article) + (if again then Sent(article, codes[2..]) else "")
      && Invitations(codes) == (if again then Invitations(codes[2..]) else 0) + 1
  {
    hide Block;
  }

  lemma NotInvited(article: string, codes: seq<nat>)
    requires codes == [] || (codes[0] != 480 && codes[0] != 340)
    ensures ServerReads(Sent(article, codes), codes) == Some(Copies(Completed(article), Invitations(codes)))
  {
  }

  lemma ServerReadsRefused(rest: string, codes: seq<nat>)
    requires codes != [] && codes[0] == 480
    ensures ServerReads(POST_COMMAND + rest, codes) == ServerReads(rest, codes[1..])
  {
    assert (POST_COMMAND + rest)[|POST_COMMAND|..] == rest;
  }

  lemma SentRefused(article: string, codes: seq<nat>)
    requires codes != [] && codes[0] == 480
    ensures Sent(article, codes) == POST_COMMAND + Sent(article, codes[1..])
    ensures Invitations(codes) == Invitations(codes[1..])
  {
  }

  /** The server gets a whole copy of the article for each invitation and
      nothing else, however often authentication interrupts. */
  lemma {:induction false} ServerReadsWholeArticles(article: string, codes: seq<nat>)
    ensures ServerReads(Sent(article, codes), codes) == Some(Copies(Completed(article), Invitations(codes)))
    decreases |codes|
  {
    hide Sent, ServerReads, Invitations, Copies, Block, Completed;
    if codes != [] && codes[0] == 480 {
      ServerReadsWholeArticles(article, codes[1..]);
      SentRefused(article, codes);
      ServerReadsRefused(Sent(article, codes[1..]), codes);
    } else if codes != [] && codes[0] == 340 {
      var again := |codes| > 1 && codes[1] == 480;
      if again {
        ServerReadsWholeArticles(article, codes[2..]);
      }
      var tail := if again then Sent(article, codes[2..]) else "";
      var n := if again then Invitations(codes[2..]) else 0;
      if !again {
        NothingMore(Completed(article), if |codes| > 1 then codes[2..] else []);
      }
      SentInvited(article, codes);
      ServerReadsInvited(article, codes, tail, n);
    } else {
      NotInvited(article, codes);
    }
  }

  lemma ServerReadsInvited(article: string, codes: seq<nat>, tail: string, n: nat)
    requires codes != [] && codes[0] == 340
    requires ServerReads(tail, if |codes| > 1 then codes[2..] else []) == Some(Copies(Completed(article), n))
    ensures ServerReads(POST_COMMAND + Block(article) + tail, codes) == Some(Copies(Completed(article), n + 1))
  {
    hide Block, Completed, ReadBlock;
    var wire := POST_COMMAND + Block(article) + tail;
    AfterCommand(Block(article), tail);
    BlockRoundTrip(article, tail);
    CopiesOneMore(Completed(article), n);
    hide Copies;
  }

  lemma AfterCommand(block: string, tail: string)
    ensures
      var wire := POST_COMMAND + block + tail;
      POST_COMMAND <= wire && wire[|POST_COMMAND|..] == block + tail && |tail| < |wire|
  {
  }

  lemma CopiesOneMore(article: string, n: nat)
    ensures Copies(article, n + 1) == [article] + Copies(article, n)
  {
  }

  /** The last two answers were the invitation and the verdict on the article. */
  predicate EndsAnswered(used: seq<nat>, code: nat)
  {
    |used| >= 2 && used[|used| - 2] == 340 && used[|used| - 1] == code != 480
  }

  /** The answers end after a demand to authenticate, after an invitation or at the
      start; or else the last one refused the command. A final answer to a complete
      article is never fatal. */
  predicate RightlyDied(used: seq<nat>, left: seq<nat>)
  {
    && (left == [] || (used != [] && used[|used| - 1] != 340 && used[|used| - 1] != 480))
    && (|used| >= 2 ==> !EndsAnswered(used, used[|used| - 1]))
  }

  /** A retry after the command was refused, or after the article was. */
  lemma SentAgain(article: string, all: seq<nat>, used: nat, w: string)
    requires 1 <= used <= |all| && all[0] == 480
    ensures w + POST_COMMAND + Sent(article, all[1..][..used - 1]) == w + Sent(article, all[..used])
  {
    assert all[..used][1..] == all[1..][..used - 1];
  }

  lemma SentOnInvitation(article: string, all: seq<nat>)
    requires all != [] && all[0] == 340
    ensures Sent(article, all[..1])[|POST_COMMAND|..] == Block(article)
    ensures |all| > 1 && all[1] != 480 ==> Sent(article, all[..2])[|POST_COMMAND|..] == Block(article)
    ensures RightlyDied(all[..1], [])
  {
    hide Block;
    assert POST_COMMAND + Block(article) + "" == POST_COMMAND + Block(article);
  }

  lemma DiedAgain(all: seq<nat>, used: nat, left: seq<nat>)
    requires 2 <= used <= |all| && all[0] == 340 && all[1] == 480 && RightlyDied(all[2..][..used - 2], left)
    ensures RightlyDied(all[..used], left)
  {
    assert all[..used] == [340, 480] + all[2..][..used - 2];
  }

  lemma SentTwice(article: string, all: seq<nat>, used: nat, w: string)
    requires 2 <= used <= |all| && all[0] == 340 && all[1] == 480
    ensures w + Block(article) + Sent(article, all[2..][..used - 2])
         == w + Sent(article, all[..used])[|POST_COMMAND|..]
  {
    assert all[..used][2..] == all[2..][..used - 2];
  }

  lemma SentStartsWithCommand(article: string, codes: seq<nat>, w: string)
    ensures POST_COMMAND <= Sent(article, codes)
    ensures w + POST_COMMAND + Sent(article, codes)[|POST_COMMAND|..] == w + Sent(article, codes)
  {
  }

  // ----- the STAT exchange -------------------------------------------------------------------

  function StatCommand(msgid: string): string { "STAT " + msgid + "\r\n" }

  function Commands(command: string, n: nat): string
  {
    if n == 0 then "" else command + Commands(command, n - 1)
  }

  lemma NoCommands(command: string)
    ensures Commands(command, 0) == "" && Commands(command, 1) == command
  {
    assert Commands(command, 0) == "" && command + "" == command;
  }

  /** All answers but the last demand authentication, and the last is the result,
      unless it does so too. */
  predicate StatEnds(used: seq<nat>, r: PostResult)
  {
    && (forall i :: 0 <= i < |used| - 1 ==> used[i] == 480)
    && (r.Answered? <==> used != [] && used[|used| - 1] != 480)
    && (r.Answered? ==> r.code == used[|used| - 1])
  }

  lemma StatAgain(all: seq<nat>, used: nat, r: PostResult)
    requires 1 <= used <= |all| && all[0] == 480 && StatEnds(all[1..][..used - 1], r)
    ensures StatEnds(all[..used], r)
  {
    assert all[..used] == [480] + all[1..][..used - 1];
  }

  /** One connection: bytes written so far and answers still to come. */
  class Session {
    var wire: string
    var answers: seq<nat>

    constructor (answers: seq<nat>)
      ensures wire == "" && this.answers == answers
    {
      wire, this.answers := "", answers;
    }

    /** pts_stat: asked again whenever authentication is demanded; the first other
        answer is the result. */
    method Stat(msgid: string) returns (r: PostResult)
      modifies this
      decreases |answers|
      ensures |answers| <= |old(answers)|
      ensures
        var used := old(answers)[..|old(answers)| - |answers|];
        && answers == old(answers)[|used|..]
        && StatEnds(used, r)
        && (r.Died? ==> answers == [])
        && wire == old(wire) + Commands(StatCommand(msgid), if r.Died? then |used| + 1 else |used|)
    {
      wire := wire + StatCommand(msgid);
      r := Died;
      NoCommands(StatCommand(msgid));
      if answers != [] {
        ghost var all := answers;
        var code := answers[0];
        answers := answers[1..];
        if code == 480 {
          r := Stat(msgid);
          StatAgain(all, |all| - |answers|, r);
          ConcatAssociative(old(wire), StatCommand(msgid),
                            Commands(StatCommand(msgid), |all| - |answers| - (if r.Died? then 0 else 1)));
        } else {
          r := Answered(code);
          assert all[..1] == [code];
        }
      }
    }

    /** What the posting thread does with one job: STAT, and unless the server says
        that it has the article, POST. asked and posted are the answers to each. */
    method Handle(msgid: string, article: string)
      returns (known: bool, r: PostResult, ghost asked: seq<nat>, ghost posted: seq<nat>)
      requires '\0' !in article
      modifies this
      ensures asked + posted + answers == old(answers)
      ensures known ==>
                && StatEnds(asked, Answered(223)) && posted == []
                && wire == old(wire) + Commands(StatCommand(msgid), |asked|)
      ensures !known && r.Answered? ==>
                && asked != [] && asked[|asked| - 1] != 223 && StatEnds(asked, Answered(asked[|asked| - 1]))
                && EndsAnswered(posted, r.code)
                && wire == old(wire) + Commands(StatCommand(msgid), |asked|) + Sent(article, posted)
    {
      hide Sent, Commands, StatCommand, RightlyDied;
      r := Stat(msgid);
      asked, posted := old(answers)[..|old(answers)| - |answers|], [];
      known := r == Answered(223);
      if r.Answered? && !known {
        ghost var left := answers;
        r := Post(article);
        posted := left[..|left| - |answers|];
      }
    }

    /** The sending loop of pts_post. */
    method SendBlock(article: string)
      requires '\0' !in article
      modifies this`wire
      ensures wire == old(wire) + Block(article)
    {
      var s := 0;
      var sol := true;
      while s < |article|
        invariant s <= |article|
        invariant wire + Stuff(article[s..], sol) == old(wire) + Stuff(article, true)
      {
        var c := article[s];
        if c == '\n' {
          wire := wire + "\r\n";
          sol := true;
        } else {
          if c == '.' && sol {
            wire := wire + ".";
          }
          wire := wire + [c];
          sol := false;
        }
        assert article[s..][1..] == article[s + 1..];
        s := s + 1;
      }
      assert article[s..] == [];
      if !sol {
        wire := wire + "\r\n";
      }
      assert wire == old(wire) + Stuff(article, true);
      wire := wire + ".\r\n";
    }

    /** pts_post: retried from the start whenever authentication is asked for.
        It returns only when the server has answered a complete article. */
    method Post(article: string) returns (r: PostResult)
      requires '\0' !in article
      modifies this
      decreases |answers|, 1
      ensures |answers| <= |old(answers)|
      ensures
        var used := old(answers)[..|old(answers)| - |answers|];
        && wire == old(wire) + Sent(article, used)
        && answers == old(answers)[|used|..]
        && (r.Answered? ==> EndsAnswered(used, r.code))
        && (r.Died? ==> RightlyDied(used, answers))
    {
      wire := wire + POST_COMMAND;
      r := Died;
      if answers != [] {
        var code := answers[0];
        ghost var all := answers;
        answers := answers[1..];
        if code == 480 {
          r := Post(article);
          SentAgain(article, all, |all| - |answers|, old(wire));
        } else if code == 340 {
          r := SendAndWait(article, all);
          SentStartsWithCommand(article, all[..|all| - |answers|], old(wire));
        }
      }
    }

    /** The rest of a try once the article has been asked for. */
    method SendAndWait(article: string, ghost all: seq<nat>) returns (r: PostResult)
      requires '\0' !in article
      requires all != [] && all[0] == 340 && answers == all[1..]
      modifies this
      decreases |answers| + 1, 0
      ensures |answers| < |all|
      ensures
        var used := all[..|all| - |answers|];
        && old(wire) + Sent(article, used)[|POST_COMMAND|..] == wire
        && answers == all[|used|..]
        && (r.Answered? ==> EndsAnswered(used, r.code))
        && (r.Died? ==> RightlyDied(used, answers))
    {
      hide Sent, Block, RightlyDied;
      SentOnInvitation(article, all);
      SendBlock(article);
      r := Died;
      if answers != [] {
        var code := answers[0];
        answers := answers[1..];
        if code == 480 {
          r := Post(article);
          SentTwice(article, all, |all| - |answers|, old(wire));
          if r.Died? {
            DiedAgain(all, |all| - |answers|, answers);
          }
        } else {
          r := Answered(code);
        }
      }
    }
  }
}
