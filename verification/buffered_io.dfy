/** The buffered connection of lib/io.c over an adversarial kernel: every wait,
    read and write may fail, be interrupted, or move fewer bytes than asked. */
module BufferedIO {
  import opened Text

  const BUFFER_SIZE: nat := 4096
  const END_OF_FILE: int := -1
  const TIMED_OUT: int := 110

  type ErrorNumber = e: int | e > 0 witness 1

  /** What one turn of io__wait and read(2) or write(2) does. A script that has
      run out stands for a wait that times out. */
  datatype Turn =
    | WaitFails(error: ErrorNumber)
    | Interrupted                     // EINTR or EAGAIN
    | Fails(error: ErrorNumber)
    | Moves(count: nat)               // at most this many bytes

  // ----- whose fault an error is ---------------------------------------------------------

  predicate Calm(turn: Turn) { turn.Interrupted? || turn.Moves? }

  predicate FailsWith(turn: Turn, error: int)
  {
    (turn.WaitFails? || turn.Fails?) && turn.error == error
  }

  /** From one point of the script to a later one: an error is what the kernel's last
      turn gave, or a time-out after the last turn there was; every other turn, an
      interruption among them, is got over. */
  ghost predicate Accounts(before: seq<Turn>, after: seq<Turn>, error: int)
  {
    && |after| <= |before|
    && var n := |before| - |after|;
       && after == before[n..]
       && (error <= 0 || (error == TIMED_OUT && after == []) ||
           (n > 0 && FailsWith(before[n - 1], error)))
       && forall i :: 0 <= i < n ==>
            Calm(before[i]) || (i == n - 1 && error > 0 && FailsWith(before[i], error))
  }

  lemma NothingUsed(turns: seq<Turn>)
    ensures Accounts(turns, turns, 0)
  {
  }

  lemma OneMoreTurn(before: seq<Turn>, now: seq<Turn>)
    requires Accounts(before, now, 0)
    ensures now == [] ==> Accounts(before, [], TIMED_OUT)
    ensures now != [] && Calm(now[0]) ==> Accounts(before, now[1..], 0) && Accounts(before, now[1..], END_OF_FILE)
    ensures now != [] && !Calm(now[0]) ==> Accounts(before, now[1..], now[0].error)
  {
    if now != [] {
      var n := |before| - |now|;
      assert now[0] == before[n] && now[1..] == before[n + 1..];
    }
  }

  lemma OneAfterAnother(a: seq<Turn>, b: seq<Turn>, c: seq<Turn>, error: int)
    requires Accounts(a, b, 0) && Accounts(b, c, error)
    ensures Accounts(a, c, error)
  {
    var n, m := |a| - |b|, |b| - |c|;
    assert forall i :: 0 <= i < |b| ==> b[i] == a[n + i];
    assert c == a[n + m..];
    forall i | n <= i < n + m
      ensures Calm(a[i]) || (i == n + m - 1 && error > 0 && FailsWith(a[i], error))
    {
      assert a[i] == b[i - n];
    }
  }

  /** At the end of the stream what has been read is a line all the same. */
  lemma EndIsNoError(before: seq<Turn>, after: seq<Turn>)
    requires Accounts(before, after, END_OF_FILE)
    ensures Accounts(before, after, 0)
  {
  }

  // ----- what the calls amount to ------------------------------------------------------

  /** Bytes the kernel has taken, and bytes waiting in the output buffer. */
  datatype Out = Out(wire: string, waiting: string)

  datatype Call = Wrote(data: string, wrote: nat, error: int) | Flushed(error: int)

  /** The bytes a call made the connection responsible for. */
  function Accepted(call: Call): string
  {
    if call.Wrote? && call.wrote <= |call.data| then call.data[..call.wrote] else ""
  }

  /** One call: nothing lost, repeated or reordered; the wire only grows; the
      buffer does not overflow; and success means success. */
  predicate OutStep(before: Out, call: Call, after: Out)
  {
    && after.wire + after.waiting == before.wire + before.waiting + Accepted(call)
    && before.wire <= after.wire
    && |after.waiting| <= BUFFER_SIZE
    && call.error >= 0
    && match call
       case Wrote(data, wrote, error) => wrote <= |data| && (error == 0 <==> wrote == |data|)
       case Flushed(error) => error == 0 <==> after.waiting == ""
  }

  function AllAccepted(calls: seq<Call>): string
  {
    if calls == [] then ""
    else AllAccepted(calls[..|calls| - 1]) + Accepted(calls[|calls| - 1])
  }

  ghost predicate OutRun(states: seq<Out>, calls: seq<Call>)
  {
    && |states| == |calls| + 1
    && forall i {:trigger calls[i]} :: 0 <= i < |calls| ==> OutStep(states[i], calls[i], states[i + 1])
  }

  /** Over any sequence of calls the bytes on the wire followed by those in the
      buffer are all the bytes accepted, in order; and no more than a buffer
      waits. */
  lemma {:induction false} WritesAreConserved(states: seq<Out>, calls: seq<Call>)
    requires OutRun(states, calls)
    ensures
      var first, last := states[0], states[|calls|];
      && last.wire + last.waiting == first.wire + first.waiting + AllAccepted(calls)
      && first.wire <= last.wire
      && (|first.waiting| <= BUFFER_SIZE || calls != [] ==> |last.waiting| <= BUFFER_SIZE)
  {
    if calls != [] {
      var m := |calls| - 1;
      var first := states[0];
      WritesAreConserved(states[..m + 1], calls[..m]);
      assert OutStep(states[m], calls[m], states[m + 1]);
      ConcatAssociative(first.wire + first.waiting, AllAccepted(calls[..m]), Accepted(calls[m]));
      hide Accepted;
    }
  }

  /** So if every write succeeded and the last flush did, the wire holds
      exactly what was written. */
  lemma FlushDeliversAll(states: seq<Out>, calls: seq<Call>)
    requires OutRun(states, calls) && calls != []
    requires states[0] == Out("", "") && calls[|calls| - 1] == Flushed(0)
    ensures states[|calls|].wire == AllAccepted(calls)
  {
    WritesAreConserved(states, calls);
    var m := |calls| - 1;
    var last := states[|calls|];
    assert OutStep(states[m], calls[m], last);
    assert last.wire + last.waiting == last.wire;
    assert "" + "" + AllAccepted(calls) == AllAccepted(calls);
  }

  // ----- lines -----------------------------------------------------------------------------

  /** How long the first line of a stream is, with its newline if it has one. */
  function LineLength(stream: string): (n: nat)
    ensures n <= |stream| && (stream != "" ==> n > 0)
    ensures forall i :: 0 <= i < n - 1 ==> stream[i] != '\n'
    ensures n < |stream| ==> n > 0 && stream[n - 1] == '\n'
  {
    if stream == "" then 0
    else if stream[0] == '\n' then 1
    else 1 + LineLength(stream[1..])
  }

  /** The lines of a stream: the only reading that successive successful calls
      can give. */
  function Lines(stream: string): seq<string>
  {
    if stream == "" then []
    else
      var n := LineLength(stream);
      [stream[..n]] + Lines(stream[n..])
  }

  function Concat(lines: seq<string>): string
  {
    if lines == [] then "" else lines[0] + Concat(lines[1..])
  }

  predicate IsLine(line: string)
  {
    line != "" && forall i :: 0 <= i < |line| - 1 ==> line[i] != '\n'
  }

  predicate EndsInNewline(line: string)
  {
    line != "" && line[|line| - 1] == '\n'
  }

  lemma FirstLine(stream: string)
    requires stream != ""
    ensures
      var n := LineLength(stream);
      0 < n <= |stream| && Lines(stream) == [stream[..n]] + Lines(stream[n..])
  {
  }

  lemma FirstIsLine(stream: string)
    requires stream != ""
    ensures
      var line := stream[..LineLength(stream)];
      IsLine(line) && (LineLength(stream) < |stream| ==> EndsInNewline(line))
  {
  }

  lemma NoLines()
    ensures Lines("") == []
  {
  }

  lemma {:induction false} LinesConcatenate(stream: string)
    ensures Concat(Lines(stream)) == stream
    decreases |stream|
  {
    hide Lines, LineLength;
    if stream == "" {
      NoLines();
    } else {
      FirstLine(stream);
      var n := LineLength(stream);
      LinesConcatenate(stream[n..]);
      ConcatFirst(stream[..n], Lines(stream[n..]));
    }
  }

  lemma ConcatFirst(line: string, lines: seq<string>)
    ensures Concat([line] + lines) == line + Concat(lines)
  {
    assert ([line] + lines)[1..] == lines;
  }

  lemma {:induction false} LinesAreLines(stream: string, i: nat)
    requires i < |Lines(stream)|
    ensures IsLine(Lines(stream)[i])
    ensures i < |Lines(stream)| - 1 ==> EndsInNewline(Lines(stream)[i])
    decreases |stream|
  {
    hide Lines, LineLength, IsLine, EndsInNewline;
    NoLines();
    FirstLine(stream);
    var n := LineLength(stream);
    if i == 0 {
      FirstIsLine(stream);
      assert stream[|stream|..] == "";
    } else {
      LinesAreLines(stream[n..], i - 1);
    }
  }

  /** The lines make up the stream, a newline comes only last in a line, and
      only the last line may lack it. */
  lemma LinesMakeUpStream(stream: string)
    ensures Concat(Lines(stream)) == stream
    ensures forall l :: l in Lines(stream) ==> IsLine(l)
    ensures forall i :: 0 <= i < |Lines(stream)| - 1 ==> EndsInNewline(Lines(stream)[i])
  {
    hide Lines, Concat, IsLine, EndsInNewline;
    LinesConcatenate(stream);
    forall i | 0 <= i < |Lines(stream)|
      ensures IsLine(Lines(stream)[i])
      ensures i < |Lines(stream)| - 1 ==> EndsInNewline(Lines(stream)[i])
    {
      LinesAreLines(stream, i);
    }
  }

  /** What one successful call sees: the bytes not yet consumed, the line it
      returns, and the bytes left. */
  predicate GotLine(before: string, line: string, after: string)
  {
    before != "" && line == before[..LineLength(before)] && after == before[LineLength(before)..]
  }

  ghost predicate LineRun(streams: seq<string>, lines: seq<string>)
  {
    && |streams| == |lines| + 1
    && forall i {:trigger lines[i]} :: 0 <= i < |lines| ==> GotLine(streams[i], lines[i], streams[i + 1])
  }

  lemma LinesStep(before: string, line: string, after: string)
    requires GotLine(before, line, after)
    ensures Lines(before) == [line] + Lines(after) && before == line + after
  {
  }

  /** However the kernel splits the stream, successive successful calls return
      its lines in order and consume exactly those; at its end they have
      returned them all. */
  lemma {:induction false} SuccessiveLines(streams: seq<string>, lines: seq<string>)
    requires LineRun(streams, lines)
    ensures Lines(streams[0]) == lines + Lines(streams[|lines|])
    ensures streams[0] == Concat(lines) + streams[|lines|]
  {
    if lines != [] {
      assert GotLine(streams[0], lines[0], streams[1]);
      LinesStep(streams[0], lines[0], streams[1]);
      hide Lines, GotLine;
      LaterLines(streams, lines);
      SuccessiveLines(streams[1..], lines[1..]);
      AddFirst(lines, Lines(streams[|lines|]), streams[|lines|]);
    }
  }

  lemma AddFirst(lines: seq<string>, more: seq<string>, rest: string)
    requires lines != []
    ensures [lines[0]] + (lines[1..] + more) == lines + more
    ensures lines[0] + (Concat(lines[1..]) + rest) == Concat(lines) + rest
  {
    HeadAndTail(lines, more);
    ConcatAssociative(lines[0], Concat(lines[1..]), rest);
  }

  lemma HeadAndTail(lines: seq<string>, more: seq<string>)
    requires lines != []
    ensures [lines[0]] + (lines[1..] + more) == lines + more
  {
    assert lines == [lines[0]] + lines[1..];
  }

  lemma LaterLines(streams: seq<string>, lines: seq<string>)
    requires LineRun(streams, lines) && lines != []
    ensures LineRun(streams[1..], lines[1..])
  {
    hide GotLine;
    forall i {:trigger lines[1..][i]} | 0 <= i < |lines| - 1
      ensures GotLine(streams[1..][i], lines[1..][i], streams[1..][i + 1])
    {
      assert GotLine(streams[i + 1], lines[i + 1], streams[i + 2]);
    }
  }

  // ----- the connection ----------------------------------------------------------------------

  /** What the caller of io_getline must pass: the capacity is the real one. */
  predicate RealCapacity(line: array?<char>, linesize: nat)
  {
    if line == null then linesize == 0 else line.Length == linesize
  }

  lemma FlushConserves(before: Out, error: int, after: Out)
    requires error >= 0 && (error == 0 <==> after.waiting == "")
    requires after.wire + after.waiting == before.wire + before.waiting
    requires before.wire <= after.wire && |after.waiting| <= BUFFER_SIZE
    ensures OutStep(before, Flushed(error), after)
  {
    assert before.wire + before.waiting + "" == before.wire + before.waiting;
  }

  lemma WriteConserves(before: Out, data: string, wrote: nat, error: int, after: Out)
    requires wrote <= |data| && error >= 0 && (error == 0 <==> wrote == |data|)
    requires after.wire + after.waiting == before.wire + before.waiting + data[..wrote]
    requires before.wire <= after.wire && |after.waiting| <= BUFFER_SIZE
    ensures OutStep(before, Wrote(data, wrote, error), after)
  {
  }

  lemma SliceHead(a: array<char>, i: nat, j: nat)
    requires i < j <= a.Length
    ensures a[i..j] == [a[i]] + a[i + 1..j]
  {
  }

  lemma TakeByte(taken: string, c: char, left: string)
    ensures taken + ([c] + left) == (taken + [c]) + left
    ensures '\n' !in taken && c == '\n' ==> IsLine(taken + [c]) && EndsInNewline(taken + [c])
    ensures '\n' !in taken && c != '\n' ==> '\n' !in taken + [c]
  {
  }

  ghost function Held(line: array?<char>, used: nat): string
    requires if line == null then used == 0 else used <= line.Length
    reads if line == null then {} else {line}
  {
    if line == null then "" else line[..used]
  }

  class IO {
    const input: array<char>
    const output: array<char>
    var available: nat
    var inptr: nat
    var written: nat
    // The other end and the kernel.
    var wire: string          // bytes taken by write
    var stream: string        // bytes read has yet to deliver
    var turns: seq<Turn>      // what the kernel will do

    ghost predicate Valid()
      reads this
    {
      && input.Length == BUFFER_SIZE && output.Length == BUFFER_SIZE && input != output
      && inptr <= available <= BUFFER_SIZE && written <= BUFFER_SIZE
    }

    ghost function Output(): Out
      requires Valid()
      reads this, output
    {
      Out(wire, output[..written])
    }

    /** All bytes accepted so far. */
    ghost function Total(): string
      requires Valid()
      reads this, output
    {
      wire + output[..written]
    }

    /** Everything that has not been read by the caller. */
    ghost function Unread(): string
      requires Valid()
      reads this, input
    {
      input[inptr..available] + stream
    }

    constructor (stream: string, turns: seq<Turn>)
      ensures Valid() && fresh(input) && fresh(output)
      ensures Output() == Out("", "") && Unread() == stream && this.turns == turns
    {
      input, output := new char[BUFFER_SIZE], new char[BUFFER_SIZE];
      available, inptr, written := 0, 0, 0;
      this.wire, this.stream, this.turns := "", stream, turns;
    }

    method NextTurn() returns (turn: Turn)
      modifies this`turns
      ensures old(turns) == [] ==> turns == [] && turn == WaitFails(TIMED_OUT)
      ensures old(turns) != [] ==> turn == old(turns)[0] && turns == old(turns)[1..]
    {
      if turns == [] {
        turn := WaitFails(TIMED_OUT);
      } else {
        turn := turns[0];
        turns := turns[1..];
      }
    }

    /** io__flush */
    method Flush() returns (error: int)
      requires Valid()
      modifies this`written, this`wire, this`turns, output
      ensures Valid() && OutStep(old(Output()), Flushed(error), Output())
      ensures Total() == old(Total()) && old(wire) <= wire && error >= 0
      ensures error == 0 ==> written == 0
      ensures Accounts(old(turns), turns, error)
    {
      hide OutStep, Accounts;
      NothingUsed(turns);
      error := 0;
      var sofar: nat := 0;
      assert output[..written] == output[0..written];
      while sofar < written
        invariant sofar <= written
        invariant wire + output[sofar..written] == old(Total())
        invariant old(wire) <= wire
        invariant Accounts(old(turns), turns, error)
        invariant error == 0
        modifies this`wire, this`turns
        decreases |turns|
      {
        OneMoreTurn(old(turns), turns);
        var turn := NextTurn();
        match turn
        case WaitFails(e) =>
          error := e;
          break;
        case Fails(e) =>
          error := e;
          break;
        case Interrupted =>
        case Moves(n) =>
          var count := if n < written - sofar then n else written - sofar;
          ghost var sent, rest := output[sofar..sofar + count], output[sofar + count..written];
          assert output[sofar..written] == sent + rest;
          ConcatAssociative(wire, sent, rest);
          wire := wire + output[sofar..sofar + count];
          sofar := sofar + count;
      }
      ShiftOutput(sofar);
      FlushConserves(old(Output()), error, Output());
    }

    /** The memmove of io__flush. */
    method ShiftOutput(count: nat)
      requires Valid() && count <= written
      modifies this`written, output
      ensures Valid() && written == old(written) - count
      ensures output[..written] == old(output[count..written])
    {
      forall i | 0 <= i < written - count {
        output[i] := output[i + count];
      }
      written := written - count;
    }

    /** io_write: error is 0 exactly when all of data was accepted. */
    method Write(data: string) returns (error: int, wrote: nat)
      requires Valid()
      modifies this`written, this`wire, this`turns, output
      ensures Valid() && OutStep(old(Output()), Wrote(data, wrote, error), Output())
      ensures Accounts(old(turns), turns, error)
    {
      hide OutStep, Accounts;
      NothingUsed(turns);
      error, wrote := 0, 0;
      while wrote < |data|
        invariant Valid() && wrote <= |data| && error == 0
        invariant Total() == old(Total()) + data[..wrote]
        invariant old(wire) <= wire
        invariant Accounts(old(turns), turns, 0)
        decreases |data| - wrote
      {
        if written == BUFFER_SIZE {
          ghost var now := turns;
          error := Flush();
          OneAfterAnother(old(turns), now, turns, error);
          if error != 0 {
            break;
          }
        }
        var now := |data| - wrote;
        if now > BUFFER_SIZE - written {
          now := BUFFER_SIZE - written;
        }
        PutBytes(data, wrote, now);
        assert data[..wrote + now] == data[..wrote] + data[wrote..wrote + now];
        ConcatAssociative(old(Total()), data[..wrote], data[wrote..wrote + now]);
        wrote := wrote + now;
      }
      WriteConserves(old(Output()), data, wrote, error, Output());
    }

    /** The memcpy of io_write. */
    method PutBytes(data: string, from: nat, count: nat)
      requires Valid() && from + count <= |data| && written + count <= BUFFER_SIZE
      modifies this`written, output
      ensures Valid() && written == old(written) + count
      ensures Total() == old(Total()) + data[from..from + count]
    {
      forall i | 0 <= i < count {
        output[written + i] := data[from + i];
      }
      written := written + count;
      assert output[..written] == old(output[..written]) + data[from..from + count];
    }

    /** io__fill, on an exhausted input buffer. */
    method Fill() returns (error: int)
      requires Valid() && inptr == available
      modifies this`inptr, this`available, this`stream, this`turns, input
      ensures Valid() && Unread() == old(Unread())
      ensures error == 0 ==> inptr < available
      ensures error == END_OF_FILE ==> Unread() == ""
      ensures error >= END_OF_FILE && Accounts(old(turns), turns, error)
    {
      hide Accounts;
      NothingUsed(turns);
      inptr, available := 0, 0;
      while true
        invariant Valid() && inptr == available == 0 && stream == old(stream)
        invariant Accounts(old(turns), turns, 0)
        decreases |turns|
      {
        OneMoreTurn(old(turns), turns);
        var turn := NextTurn();
        match turn
        case WaitFails(e) =>
          return e;
        case Fails(e) =>
          return e;
        case Interrupted =>
        case Moves(n) =>
          if stream == "" {
            return END_OF_FILE;
          }
          var limit := if |stream| < BUFFER_SIZE then |stream| else BUFFER_SIZE;
          var count := if n == 0 then 1 else if n < limit then n else limit;
          forall i | 0 <= i < count {
            input[i] := stream[i];
          }
          stream := stream[count..];
          available := count;
          assert input[..count] == old(stream)[..count];
          return 0;
      }
    }

    /** io__readbyte */
    method ReadByte() returns (error: int, c: char)
      requires Valid()
      modifies this`inptr, this`available, this`stream, this`turns, input
      ensures Valid() && error >= END_OF_FILE
      ensures error == 0 ==> old(Unread()) == [c] + Unread()
      ensures error != 0 ==> Unread() == old(Unread())
      ensures error == END_OF_FILE ==> Unread() == ""
      ensures Accounts(old(turns), turns, error)
    {
      hide Accounts;
      NothingUsed(turns);
      error, c := 0, '\0';
      if inptr == available {
        error := Fill();
        if error != 0 {
          return;
        }
      }
      c := input[inptr];
      SliceHead(input, inptr, available);
      inptr := inptr + 1;
    }

    /** Store one byte at used, doubling a buffer that is full: the two places
        where io_getline writes to its buffer. */
    method Store(line: array?<char>, linesize: nat, used: nat, c: char)
      returns (line': array<char>, linesize': nat)
      requires RealCapacity(line, linesize) && used <= linesize
      modifies if line == null then {} else {line}
      ensures line' == line || fresh(line')
      ensures RealCapacity(line', linesize') && used < linesize' && linesize <= linesize'
      ensures line'[..used] == old(Held(line, used)) && line'[used] == c
    {
      if used >= linesize {
        linesize' := if linesize != 0 then 2 * linesize else 64;
        line' := new char[linesize'];
        if line != null {
          forall i | 0 <= i < used {
            line'[i] := line[i];
          }
        }
      } else {
        line', linesize' := line, linesize;
      }
      line'[used] := c;
    }

    /** io_getline. On success the buffer holds the next line of the stream and
        a terminator, whatever the kernel did; at the end of the stream -1. On an
        error the bytes of an unfinished line are gone, and the buffer with
        them, but not its recorded capacity: the pair must not be passed again
        unless that is 0. */
    method GetLine(line: array?<char>, linesize: nat)
      returns (error: int, line': array?<char>, linesize': nat, used: nat)
      requires Valid() && RealCapacity(line, linesize)
      requires line != input && line != output
      modifies this`inptr, this`available, this`stream, this`turns, input
      modifies if line == null then {} else {line}
      ensures Valid()
      ensures error == 0 ==>
                && line' != null && RealCapacity(line', linesize') && used < linesize'
                && line'[used] == '\0'
                && GotLine(old(Unread()), line'[..used], Unread())
      ensures error == END_OF_FILE ==> old(Unread()) == ""
      ensures error != 0 ==>
                && line' == null && (RealCapacity(line', linesize') <==> linesize' == 0)
                && linesize' >= linesize
                && exists lost: string :: '\n' !in lost && old(Unread()) == lost + Unread()
      ensures Accounts(old(turns), turns, error)
    {
      hide GotLine, Accounts;
      error, line', linesize', used := ReadLine(line, linesize);
      if error == 0 || (error < 0 && used > 0) {
        FirstLineIs(Held(line', used), Unread());
        line', linesize' := Store(line', linesize', used, '\0');
        if error < 0 {
          EndIsNoError(old(turns), turns);
        }
        error := 0;
      } else {
        line' := null;
      }
    }

    /** The loop of io_getline: bytes up to a newline, the end or an error. */
    method ReadLine(line: array?<char>, linesize: nat)
      returns (error: int, line': array?<char>, linesize': nat, used: nat)
      requires Valid() && RealCapacity(line, linesize)
      requires line != input && line != output
      modifies this`inptr, this`available, this`stream, this`turns, input
      modifies if line == null then {} else {line}
      ensures Valid() && error >= END_OF_FILE
      ensures RealCapacity(line', linesize') && used <= linesize' && linesize <= linesize'
      ensures line' == line || fresh(line')
      ensures old(Unread()) == Held(line', used) + Unread()
      ensures error == 0 ==> IsLine(Held(line', used)) && EndsInNewline(Held(line', used))
      ensures error != 0 ==> '\n' !in Held(line', used)
      ensures error == END_OF_FILE ==> Unread() == ""
      ensures Accounts(old(turns), turns, error)
    {
      hide IsLine, EndsInNewline, Accounts;
      NothingUsed(turns);
      line', linesize', used := line, linesize, 0;
      ghost var all := Unread();
      ghost var taken: string := "";
      error := 0;
      while true
        invariant Valid() && error == 0
        invariant RealCapacity(line', linesize') && used <= linesize' && linesize <= linesize'
        invariant line' == line || fresh(line')
        invariant taken == Held(line', used) && '\n' !in taken
        invariant all == taken + Unread()
        invariant Accounts(old(turns), turns, 0)
        decreases |Unread()|
      {
        var c;
        ghost var now := turns;
        error, c := ReadByte();
        OneAfterAnother(old(turns), now, turns, error);
        assert Held(line', used) == taken;
        if error != 0 {
          break;
        }
        ghost var left := Unread();
        line', linesize' := Store(line', linesize', used, c);
        used := used + 1;
        assert Held(line', used) == taken + [c];
        TakeByte(taken, c, left);
        taken := taken + [c];
        if c == '\n' {
          break;
        }
      }
    }
  }

  /** A line that ends in its only newline, or at the end of the stream. */
  lemma {:induction false} FirstLineIs(line: string, rest: string)
    requires IsLine(line) && (EndsInNewline(line) || rest == "")
    ensures GotLine(line + rest, line, rest)
  {
    if |line| > 1 {
      assert (line + rest)[1..] == line[1..] + rest;
      FirstLineIs(line[1..], rest);
    }
    assert LineLength(line + rest) == |line|;
  }
}
