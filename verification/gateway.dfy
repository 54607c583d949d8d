/** git2news as a whole: the main thread walks the log, asks the tracking file,
    queues articles and remembers commits (gateways/bzr2news.c); the posting
    thread talks to the server (lib/nntp.c); the process can die at any moment
    and be run again on any log of the same repository. The tracking file and
    the server outlive it. */
module Gateway {
  import Q = PostQueue
  import opened SearchTree

  type Commit = string

  /** The hash of salt, repository and commit, as an injective function of the
      commit. */
  datatype MessageId = MessageId(commit: Commit)

  datatype MainPc =
    | Reading                  // at the next commit of the log
    | Posting(c: Commit)       // in post
    | Remembering(c: Commit)   // post has returned, nothing written yet
    | Linking(c: Commit)       // node appended, parent not yet rewritten
    | Ended                    // log exhausted, in or after join_postthread
    | Dying                    // fatal was called

  /** The exchange about the first job of the queue. */
  datatype Talk =
    | Silent
    | Asking(job: Commit)      // STAT to be sent
    | Offering(job: Commit)    // POST to be sent
    | Sending(job: Commit)     // invited, the article to be sent
    | Settled(job: Commit)

  datatype State = State(
    q: Q.State,
    main: MainPc,
    talk: Talk,
    given: set<Commit>,          // the commits of this run's log
    log: seq<Commit>,            // those still to come
    startFile: seq<Node>,        // the tracking file when this run started
    remembered: set<Commit>,     // commits this run has recorded
    found: set<Commit>,          // STAT answered 223 in this run
    answered: set<Commit>,       // a complete POST was answered in this run
    file: seq<Node>,
    torn: bool,                  // the file ends in an incomplete node
    server: seq<MessageId>)      // every article ever accepted, in order

  const MAIN: Q.Id := 0

  /** What `seen` answers. */
  predicate Known(file: seq<Node>, c: Commit)
  {
    Forward(file) && file != [] && file[Descend(file, c, 0)].key == c
  }

  function FreshQueue(): Q.State
  {
    Q.State(Q.Nobody, [], false, false, Q.Starting, Q.NotYet, map[MAIN := Q.Outside], [], [])
  }

  function Start(s: State, log: seq<Commit>): State
  {
    State(FreshQueue(), Reading, Silent, (set c | c in log), log, s.file, {}, {}, {}, s.file, s.torn, s.server)
  }

  datatype Step =
    | Skip                              // already seen
    | Queue(step: Q.Step)               // a step of the job queue
    | AppendNode | LinkNode | TearFile | Refuse
    | Stat(code: nat) | Offer(code: nat) | Send(accepted: bool, code: nat)
    | Restart(newLog: seq<Commit>)      // the process ends, one way or another, and a new one starts

  /** The posting-thread steps that have a meaning beyond the queue are tied to
      the talk; those of the callers to the main thread. */
  predicate QueueEnabled(s: State, step: Q.Step)
  {
    && Q.Enabled(s.q, step)
    && (match step
        case PostLock(p, c) => p == MAIN && s.main == Reading && s.log != [] && s.log[0] == c && !Known(s.file, c)
        case PostAppend(p, c) => s.main == Posting(c)
        case PostSignal(_) => s.main.Posting?
        case PostUnlock(_) => s.main.Posting?
        case JoinLock => s.main == Reading && s.log == []
        case Finish(job) => s.talk == Settled(job)
        case _ => true)
  }

  /** The server: it knows the articles it has accepted, and a demand to
      authenticate means that it has not taken the article. */
  predicate Enabled(s: State, step: Step)
  {
    match step
    case Skip => s.main == Reading && s.log != [] && Known(s.file, s.log[0])
    case Queue(qs) => QueueEnabled(s, qs)
    case AppendNode => s.main.Remembering? && s.log != [] && !s.torn && Forward(s.file)
    case LinkNode => s.main.Linking? && s.log != [] && Forward(s.file) && s.file != []
    case TearFile => s.main.Remembering? && !s.torn
    case Refuse => s.main.Remembering? && s.torn
    case Stat(code) => s.talk.Asking? && (MessageId(s.talk.job) in s.server ==> code == 223 || code == 480)
    case Offer(code) => s.talk.Offering? && (code == 340 || code == 480)
    case Send(accepted, code) => s.talk.Sending? && (accepted ==> code != 480)
    case Restart(_) => true
  }

  function DoQueue(s: State, step: Q.Step): State
    requires QueueEnabled(s, step)
  {
    var u := s.(q := Q.Do(s.q, step));
    match step
    case PostLock(_, c) => u.(main := Posting(c))
    case PostUnlock(_) => u.(main := Remembering(s.main.c))
    case JoinLock => u.(main := Ended)
    case Take => u.(talk := Asking(s.q.queue[0]))
    case Finish(_) => u.(talk := Silent)
    case _ => u
  }

  function Recorded(s: State, c: Commit): State
    requires s.log != []
  {
    s.(main := Reading, log := s.log[1..], remembered := s.remembered + {c})
  }

  function Do(s: State, step: Step): State
    requires Enabled(s, step)
  {
    match step
    case Skip => s.(log := s.log[1..])
    case Queue(qs) => DoQueue(s, qs)
    case AppendNode =>
      var c := s.main.c;
      var u := s.(file := Append(s.file, c));
      if s.file == [] then Recorded(u, c) else u.(main := Linking(c))
    case LinkNode => Recorded(s.(file := Link(s.file, s.main.c)), s.main.c)
    case TearFile => s.(main := Dying, torn := true)
    case Refuse => s.(main := Dying)
    case Stat(code) =>
      if code == 480 then s
      else if code == 223 then s.(talk := Settled(s.talk.job), found := s.found + {s.talk.job})
      else s.(talk := Offering(s.talk.job))
    case Offer(code) => if code == 480 then s else s.(talk := Sending(s.talk.job))
    case Send(accepted, code) =>
      var u := if accepted then s.(server := s.server + [MessageId(s.talk.job)]) else s;
      if code == 480 then u.(talk := Offering(s.talk.job))
      else u.(talk := Settled(s.talk.job), answered := s.answered + {s.talk.job})
    case Restart(log) => Start(s, log)
  }

  // ----- the invariant ---------------------------------------------------------------

  ghost predicate NoRepeats<T(!new)>(s: seq<T>)
  {
    forall i, j :: 0 <= i < j < |s| ==> s[i] != s[j]
  }

  predicate Busy(main: MainPc)
  {
    main.Posting? || main.Remembering? || main.Linking?
  }

  ghost predicate MainInv(s: State)
  {
    && s.q.callers.Keys == {MAIN}
    && (match s.q.callers[MAIN]
        case Outside => !s.main.Posting?
        case HasLock(c) => s.main == Posting(c)
        case Queued => s.main.Posting? && s.main.c in s.q.added
        case Signalled => s.main.Posting? && s.main.c in s.q.added)
    && (s.main.Remembering? || s.main.Linking? ==> s.main.c in s.q.added)
    && (s.q.closer != Q.NotYet <==> s.main == Ended)
    && (s.main == Ended ==> s.log == [])
    && (Busy(s.main) ==> s.log != [] && s.log[0] == s.main.c)
    && forall c :: c in s.remembered ==> c in s.q.added
  }

  ghost predicate FileInv(s: State)
  {
    && IsTree(s.file)
    && (s.main.Posting? || s.main.Remembering? ==> s.main.c !in Contents(s.file))
    && (s.main.Linking? ==>
          var m := |s.file| - 1;
          m > 0 && IsTree(s.file[..m]) && s.file == Append(s.file[..m], s.main.c))
    && Forward(s.startFile)
    && Contents(s.file) == Contents(s.startFile) + s.remembered
    && (forall c :: c in s.given ==> c in s.log || c in Contents(s.file))
  }

  ghost predicate TalkInv(s: State)
  {
    && (s.talk == Silent <==> s.q.poster != Q.Handling)
    && (s.talk != Silent ==> s.q.queue != [] && s.q.queue[0] == s.talk.job)
    && (s.talk.Offering? || s.talk.Sending? ==> MessageId(s.talk.job) !in s.server)
    && (s.talk.Settled? ==> s.talk.job in s.found + s.answered)
    && (forall c :: c in s.q.handled ==> c in s.found + s.answered)
  }

  ghost predicate Inv(s: State)
  {
    && Q.Inv(s.q)
    && MainInv(s)
    && FileInv(s)
    && TalkInv(s)
    && NoRepeats(s.server)
  }

  /** A first run on any tracking file that is a tree and any server. */
  ghost predicate Init(s: State)
  {
    && s == Start(s, s.log)
    && IsTree(s.file)
    && NoRepeats(s.server)
  }

  lemma StartKeepsInv(s: State, log: seq<Commit>)
    requires IsTree(s.file) && NoRepeats(s.server)
    ensures Inv(Start(s, log))
  {
    Q.InitEstablishesInv(FreshQueue());
  }

  lemma KnownIsContents(file: seq<Node>, c: Commit)
    requires IsTree(file)
    ensures Known(file, c) <==> c in Contents(file)
  {
    if file != [] {
      DescendFinds(file, c, 0);
    }
  }

  lemma AppendNodeKeepsInv(s: State)
    requires Inv(s) && Enabled(s, AppendNode)
    ensures Inv(Do(s, AppendNode)) && Contents(s.file) <= Contents(Do(s, AppendNode).file)
  {
    hide FileInv, TalkInv, Q.Inv, NoRepeats, Contents, IsTree, Append, Known;
    AppendNodeKeepsFile(s);
    SameTalk(s, Do(s, AppendNode));
  }

  lemma AppendNodeKeepsFile(s: State)
    requires FileInv(s) && MainInv(s) && Enabled(s, AppendNode)
    ensures FileInv(Do(s, AppendNode)) && Contents(s.file) <= Contents(Do(s, AppendNode).file)
  {
    hide Contents, Ordered, Known, Q.AllOutside;
    EmptyFile();
    AppendKeepsSet(s.file, s.main.c);
    assert Append(s.file, s.main.c)[..|s.file|] == s.file;
  }

  lemma LinkLastNode(t: seq<Node>, c: Commit)
    requires IsTree(t) && t != []
    ensures IsTree(Append(t, c)) && IsTree(Link(Append(t, c), c))
    ensures Contents(Link(Append(t, c), c)) == Contents(Append(t, c)) + {c}
  {
    AppendKeepsSet(t, c);
    LinkAddsKey(t, c);
  }

  // What each part of the invariant depends on.

  lemma SameMain(s: State, u: State)
    requires MainInv(s) && u.main == s.main && u.log == s.log && u.remembered == s.remembered
    requires u.q.callers == s.q.callers && u.q.closer == s.q.closer && u.q.added == s.q.added
    ensures MainInv(u)
  {
  }

  lemma SameFile(s: State, u: State)
    requires FileInv(s) && u.main == s.main && u.log == s.log && u.remembered == s.remembered
    requires u.file == s.file && u.startFile == s.startFile && u.given == s.given
    ensures FileInv(u)
  {
    hide Contents, IsTree, Forward, Append;
  }

  lemma SameTalk(s: State, u: State)
    requires TalkInv(s) && u.talk == s.talk && u.server == s.server && u.found == s.found && u.answered == s.answered
    requires u.q.poster == s.q.poster && u.q.queue == s.q.queue && u.q.handled == s.q.handled
    ensures TalkInv(u)
  {
  }

  lemma LinkNodeKeepsFile(s: State)
    requires Inv(s) && Enabled(s, LinkNode)
    ensures FileInv(Do(s, LinkNode)) && Contents(s.file) <= Contents(Do(s, LinkNode).file)
  {
    hide MainInv, TalkInv, Q.Inv, NoRepeats, Contents, Ordered, Link, Append, Known;
    assert s.log != [] && s.log[0] == s.main.c by { BusyWithFirst(s); }
    LinkLastNode(s.file[..|s.file| - 1], s.main.c);
  }

  lemma BusyWithFirst(s: State)
    requires MainInv(s) && Busy(s.main)
    ensures s.log != [] && s.log[0] == s.main.c
  {
  }

  lemma LinkNodeKeepsInv(s: State)
    requires Inv(s) && Enabled(s, LinkNode)
    ensures Inv(Do(s, LinkNode)) && Contents(s.file) <= Contents(Do(s, LinkNode).file)
  {
    hide FileInv, TalkInv, Q.Inv, NoRepeats, Contents, IsTree, Link, Append, Known;
    LinkNodeKeepsFile(s);
    SameTalk(s, Do(s, LinkNode));
  }

  lemma OtherMainStepKeepsInv(s: State, step: Step)
    requires Inv(s) && Enabled(s, step)
    requires step.Skip? || step.TearFile? || step.Refuse?
    ensures Inv(Do(s, step))
  {
    if step.Skip? {
      KnownIsContents(s.file, s.log[0]);
    }
  }

  lemma ServerStepKeepsInv(s: State, step: Step)
    requires Inv(s) && Enabled(s, step)
    requires step.Stat? || step.Offer? || step.Send?
    ensures Inv(Do(s, step))
  {
    hide MainInv, FileInv, Q.Inv, NoRepeats;
    SameMain(s, Do(s, step));
    SameFile(s, Do(s, step));
    if step.Send? && step.accepted {
      OneMoreIsNew(s.server, MessageId(s.talk.job));
    }
  }

  lemma OneMoreIsNew(server: seq<MessageId>, m: MessageId)
    requires NoRepeats(server) && m !in server
    ensures NoRepeats(server + [m])
  {
  }

  lemma CallerStepKeepsMain(s: State, step: Q.Step)
    requires MainInv(s) && QueueEnabled(s, step) && !Q.IsPosterStep(step)
    ensures MainInv(DoQueue(s, step))
  {
    hide Known, Q.AllOutside;
  }

  lemma CallerStepKeepsFile(s: State, step: Q.Step)
    requires MainInv(s) && FileInv(s) && QueueEnabled(s, step) && !Q.IsPosterStep(step)
    ensures FileInv(DoQueue(s, step))
  {
    hide Contents, Ordered, Append, Known, Q.AllOutside;
    if step.PostLock? {
      KnownIsContents(s.file, step.job);
    }
  }

  lemma CallerStepKeepsTalk(s: State, step: Q.Step)
    requires TalkInv(s) && QueueEnabled(s, step) && !Q.IsPosterStep(step)
    ensures TalkInv(DoQueue(s, step))
  {
    hide Known, Q.AllOutside;
  }

  lemma CallerStepKeepsInv(s: State, step: Q.Step)
    requires Inv(s) && QueueEnabled(s, step) && !Q.IsPosterStep(step)
    ensures Inv(DoQueue(s, step))
  {
    hide MainInv, FileInv, TalkInv, Q.Inv, NoRepeats, Q.Do, Q.Enabled;
    Q.StepKeepsInv(s.q, step);
    CallerStepKeepsMain(s, step);
    CallerStepKeepsFile(s, step);
    CallerStepKeepsTalk(s, step);
  }

  lemma PosterKeepsCallers(q: Q.State, step: Q.Step)
    requires Q.Enabled(q, step) && Q.IsPosterStep(step)
    ensures var r := Q.Do(q, step); r.callers == q.callers && r.closer == q.closer && r.added == q.added
  {
  }

  lemma PosterStepKeepsTalk(s: State, step: Q.Step)
    requires TalkInv(s) && QueueEnabled(s, step) && Q.IsPosterStep(step)
    ensures TalkInv(DoQueue(s, step))
  {
    hide Known, Q.AllOutside;
  }

  lemma PosterStepKeepsInv(s: State, step: Q.Step)
    requires Inv(s) && QueueEnabled(s, step) && Q.IsPosterStep(step)
    ensures Inv(DoQueue(s, step))
  {
    hide MainInv, FileInv, TalkInv, Q.Inv, NoRepeats, Q.Do, Q.Enabled;
    Q.StepKeepsInv(s.q, step);
    PosterKeepsCallers(s.q, step);
    SameMain(s, DoQueue(s, step));
    SameFile(s, DoQueue(s, step));
    PosterStepKeepsTalk(s, step);
  }

  lemma QueueStepKeepsFile(s: State, step: Q.Step)
    requires QueueEnabled(s, step)
    ensures DoQueue(s, step).file == s.file
  {
    hide Q.Do, Q.Enabled;
  }

  lemma InvHasTree(s: State)
    requires Inv(s)
    ensures IsTree(s.file) && Forward(s.file)
  {
  }

  lemma StepKeepsInv(s: State, step: Step, u: State)
    requires Inv(s) && Enabled(s, step) && u == Do(s, step)
    ensures Inv(u)
    ensures Contents(s.file) <= Contents(u.file)
  {
    hide MainInv, FileInv, TalkInv, Q.Inv, NoRepeats, Q.Do, Q.Enabled, DoQueue, QueueEnabled, Contents, Ordered, Known;
    InvHasTree(s);
    match step {
      case Queue(qs) => QueueStepKeepsFile(s, qs); if Q.IsPosterStep(qs) { PosterStepKeepsInv(s, qs); } else { CallerStepKeepsInv(s, qs); }
      case Stat(_) => ServerStepKeepsInv(s, step);
      case Offer(_) => ServerStepKeepsInv(s, step);
      case Send(_, _) => ServerStepKeepsInv(s, step);
      case Restart(log) => StartKeepsInv(s, log);
      case AppendNode => AppendNodeKeepsInv(s);
      case LinkNode => LinkNodeKeepsInv(s);
      case _ => OtherMainStepKeepsInv(s, step);
    }
  }

  // ----- whole runs, with any number of restarts ---------------------------------------

  ghost predicate Run(trace: seq<State>, steps: seq<Step>)
  {
    && |trace| == |steps| + 1
    && Init(trace[0])
    && forall i {:trigger steps[i]} :: 0 <= i < |steps| ==> Enabled(trace[i], steps[i]) && trace[i + 1] == Do(trace[i], steps[i])
  }

  lemma {:induction false} RunKeepsInv(trace: seq<State>, steps: seq<Step>, i: nat)
    requires Run(trace, steps) && i < |trace|
    ensures Inv(trace[i])
  {
    if i == 0 {
      StartKeepsInv(trace[0], trace[0].log);
    } else {
      RunKeepsInv(trace, steps, i - 1);
      StepKeepsInv(trace[i - 1], steps[i - 1], trace[i]);
    }
  }

  lemma RunLength(trace: seq<State>, steps: seq<Step>)
    requires Run(trace, steps)
    ensures |trace| == |steps| + 1
  {
  }

  lemma RunStep(trace: seq<State>, steps: seq<Step>, i: nat)
    requires Run(trace, steps) && i < |steps|
    ensures |trace| == |steps| + 1 && Enabled(trace[i], steps[i]) && trace[i + 1] == Do(trace[i], steps[i])
  {
    hide Enabled, Do, Init;
  }

  lemma RunStepGrowsFile(trace: seq<State>, steps: seq<Step>, i: nat)
    requires Run(trace, steps) && i < |steps|
    ensures IsTree(trace[i].file) && IsTree(trace[i + 1].file)
    ensures Contents(trace[i].file) <= Contents(trace[i + 1].file)
  {
    RunKeepsInv(trace, steps, i);
    StepKeepsInv(trace[i], steps[i], trace[i + 1]);
  }

  lemma {:induction false} FileOnlyGrows(trace: seq<State>, steps: seq<Step>, i: nat, j: nat)
    requires Run(trace, steps) && i <= j < |trace|
    requires IsTree(trace[i].file)
    ensures IsTree(trace[j].file)
    ensures Contents(trace[i].file) <= Contents(trace[j].file)
  {
    hide Run, IsTree, Contents;
    if i < j {
      FileOnlyGrows(trace, steps, i, j - 1);
      RunLength(trace, steps);
      RunStepGrowsFile(trace, steps, j - 1);
    }
  }

  /** No article is accepted twice, wherever the process died: not even when it
      died between queueing a commit and remembering it. */
  lemma AcceptedAtMostOnce(trace: seq<State>, steps: seq<Step>)
    requires Run(trace, steps)
    ensures NoRepeats(trace[|steps|].server)
  {
    RunKeepsInv(trace, steps, |steps|);
  }

  /** A commit that the tracking file holds is never queued again, in this run
      or a later one. */
  lemma SeenIsNeverQueuedAgain(trace: seq<State>, steps: seq<Step>, i: nat, j: nat, c: Commit)
    requires Run(trace, steps) && i <= j < |steps|
    requires IsTree(trace[i].file) && c in Contents(trace[i].file)
    ensures steps[j] != Queue(Q.PostAppend(MAIN, c))
  {
    FileOnlyGrows(trace, steps, i, j);
    RunKeepsInv(trace, steps, j);
  }

  /** When join_postthread has returned, every commit that this run recorded
      was found on the server or had its POST answered; so every commit of the
      log was, unless an earlier run had recorded it. */
  lemma JoinSettlesEverything(trace: seq<State>, steps: seq<Step>)
    requires Run(trace, steps)
    requires trace[|steps|].q.closer == Q.Joined
    ensures
      var s := trace[|steps|];
      && s.remembered <= s.found + s.answered
      && Forward(s.startFile)
      && s.given <= Contents(s.startFile) + s.found + s.answered
  {
    RunKeepsInv(trace, steps, |steps|);
  }

  // ----- which commits are lost --------------------------------------------------------

  /** Recorded, and not queued by the present run. */
  ghost predicate Abandoned(s: State, c: Commit)
    requires Forward(s.file)
  {
    c in Contents(s.file) && c !in s.q.added
  }

  predicate Holds(s: State, c: Commit) { MessageId(c) in s.server }

  lemma AddedBy(s: State, step: Step)
    requires Enabled(s, step)
    ensures
      var u := Do(s, step);
      || u.q.added == s.q.added
      || u.q.added == []
      || (s.main.Posting? && u.q.added == s.q.added + [s.main.c])
  {
    if step.Queue? {
      Q.StepHistory(s.q, step.step);
    }
  }

  /** The server can only gain the job that is being sent. */
  lemma ServerGains(s: State, step: Step, c: Commit)
    requires Enabled(s, step)
    ensures Holds(s, c) ==> Holds(Do(s, step), c)
    ensures Holds(Do(s, step), c) ==> Holds(s, c) || s.talk == Sending(c)
  {
  }

  lemma SentWasAdded(s: State, c: Commit)
    requires Inv(s) && s.talk == Sending(c)
    ensures c in s.q.added
  {
    hide Contents, IsTree, NoRepeats;
    assert s.q.queue[0] in s.q.handled + s.q.queue;
  }

  lemma AbandonedStep(s: State, step: Step, u: State, c: Commit)
    requires Inv(s) && Enabled(s, step) && u == Do(s, step) && Abandoned(s, c)
    ensures Inv(u) && Forward(u.file) && Abandoned(u, c)
    ensures Holds(u, c) <==> Holds(s, c)
  {
    hide Contents, IsTree, Forward, Do, Q.Inv, MainInv, TalkInv, Enabled, NoRepeats, Holds;
    StepKeepsInv(s, step, u);
    InvHasTree(u);
    AddedBy(s, step);
    ServerGains(s, step, c);
    if s.talk == Sending(c) {
      SentWasAdded(s, c);
    }
  }

  lemma {:induction false} AbandonedForever(trace: seq<State>, steps: seq<Step>, i: nat, j: nat, c: Commit)
    requires Run(trace, steps) && i <= j < |trace|
    requires Forward(trace[i].file) && Abandoned(trace[i], c)
    ensures Forward(trace[j].file) && Abandoned(trace[j], c)
    ensures Holds(trace[j], c) <==> Holds(trace[i], c)
  {
    hide Abandoned, Holds, Do, Run, Inv, Enabled, Forward;
    if i < j {
      AbandonedForever(trace, steps, i, j - 1, c);
      RunLength(trace, steps);
      RunStep(trace, steps, j - 1);
      RunKeepsInv(trace, steps, j - 1);
      AbandonedStep(trace[j - 1], steps[j - 1], trace[j], c);
    }
  }

  /** When the process ends, the fate of every recorded commit is decided: in no
      later run, however it goes, does the server come to hold one that it does not
      hold by then. */
  lemma RecordedIsFinal(trace: seq<State>, steps: seq<Step>, i: nat, j: nat, c: Commit)
    requires Run(trace, steps) && i < j < |trace| && steps[i].Restart?
    requires Forward(trace[i].file) && c in Contents(trace[i].file)
    ensures Holds(trace[j], c) <==> Holds(trace[i], c)
  {
    hide Holds, Do, Enabled, Init, Contents;
    RestartAbandons(trace, steps, i, c);
    AbandonedForever(trace, steps, i + 1, j, c);
  }

  lemma RestartAbandons(trace: seq<State>, steps: seq<Step>, i: nat, c: Commit)
    requires Run(trace, steps) && i < |steps| && steps[i].Restart?
    requires Forward(trace[i].file) && c in Contents(trace[i].file)
    ensures Forward(trace[i + 1].file) && Abandoned(trace[i + 1], c)
    ensures Holds(trace[i + 1], c) <==> Holds(trace[i], c)
  {
    assert Enabled(trace[i], steps[i]) && trace[i + 1] == Do(trace[i], steps[i]);
  }

  /** The server says that it has an article only if it has, and takes every
      article that it is sent. */
  predicate Willing(s: State, step: Step)
    requires Enabled(s, step)
  {
    match step
    case Stat(code) => code == 223 ==> Holds(s, s.talk.job)
    case Send(accepted, code) => code != 480 ==> accepted
    case _ => true
  }

  ghost predicate WillingRun(trace: seq<State>, steps: seq<Step>)
    requires Run(trace, steps)
  {
    forall i {:trigger steps[i]} :: 0 <= i < |steps| ==> Willing(trace[i], steps[i])
  }

  predicate SettledIsHeld(s: State)
  {
    forall c :: c in s.found + s.answered ==> Holds(s, c)
  }

  lemma WillingStepHolds(s: State, step: Step)
    requires Enabled(s, step) && Willing(s, step) && SettledIsHeld(s)
    ensures SettledIsHeld(Do(s, step))
  {
    forall c
      ensures Holds(s, c) ==> Holds(Do(s, step), c)
    {
      ServerGains(s, step, c);
    }
  }

  lemma {:induction false} WillingRunHolds(trace: seq<State>, steps: seq<Step>, i: nat)
    requires Run(trace, steps) && WillingRun(trace, steps) && i < |trace|
    ensures SettledIsHeld(trace[i])
  {
    hide Do, Enabled, Willing, SettledIsHeld;
    if i == 0 {
      StartIsSettled(trace[0]);
    } else {
      WillingRunHolds(trace, steps, i - 1);
      assert Willing(trace[i - 1], steps[i - 1]);
      WillingStepHolds(trace[i - 1], steps[i - 1]);
    }
  }

  lemma StartIsSettled(s: State)
    requires Init(s)
    ensures SettledIsHeld(s)
  {
  }

  /** The guard: once join_postthread has returned, a willing server holds every
      commit of the log that no earlier run had recorded, so ending the process
      loses none of them. */
  lemma JoinLosesNothing(trace: seq<State>, steps: seq<Step>)
    requires Run(trace, steps) && WillingRun(trace, steps)
    requires trace[|steps|].q.closer == Q.Joined
    ensures
      var s := trace[|steps|];
      Forward(s.startFile) && forall c :: c in s.given - Contents(s.startFile) ==> Holds(s, c)
  {
    hide Holds, Contents, Do;
    JoinSettlesEverything(trace, steps);
    WillingRunHolds(trace, steps, |steps|);
  }

  /** Before it has returned, only recorded commits that are still in the queue can
      be unsettled. */
  lemma UnsettledIsQueued(trace: seq<State>, steps: seq<Step>, c: Commit)
    requires Run(trace, steps)
    requires c in trace[|steps|].remembered
    ensures
      var s := trace[|steps|];
      c in s.found + s.answered || c in s.q.queue
  {
    hide Contents, NoRepeats;
    RunKeepsInv(trace, steps, |steps|);
  }

  lemma Extend(trace: seq<State>, steps: seq<Step>, step: Step) returns (trace': seq<State>, steps': seq<Step>)
    requires Run(trace, steps) && Enabled(trace[|steps|], step)
    ensures Run(trace', steps') && trace'[|steps'|] == Do(trace[|steps|], step)
  {
    trace', steps' := trace + [Do(trace[|steps|], step)], steps + [step];
  }

  ghost predicate OnlyCommit(s: State, c: Commit, main: MainPc, pc: Q.CallerPc)
  {
    && s.main == main && s.q.callers == map[MAIN := pc]
    && s.log == [c] && s.file == [] && s.server == [] && !s.torn
  }

  /** A first run, up to where the only commit has been queued ... */
  lemma QueueOnlyCommit(c: Commit) returns (trace: seq<State>, steps: seq<Step>)
    ensures Run(trace, steps)
    ensures OnlyCommit(trace[|steps|], c, Posting(c), Q.Queued)
  {
    var s0 := State(FreshQueue(), Reading, Silent, {c}, [c], [], {}, {}, {}, [], false, []);
    assert s0 == Start(s0, [c]);
    trace, steps := [s0], [];
    assert Run(trace, steps);
    hide Run;
    trace, steps := Extend(trace, steps, Queue(Q.PostLock(MAIN, c)));
    trace, steps := Extend(trace, steps, Queue(Q.PostAppend(MAIN, c)));
  }

  /** ... and up to where post has returned. */
  lemma ReturnFromPost(c: Commit) returns (trace: seq<State>, steps: seq<Step>)
    ensures Run(trace, steps)
    ensures OnlyCommit(trace[|steps|], c, Remembering(c), Q.Outside)
  {
    hide Run;
    trace, steps := QueueOnlyCommit(c);
    trace, steps := Extend(trace, steps, Queue(Q.PostSignal(MAIN)));
    trace, steps := Extend(trace, steps, Queue(Q.PostUnlock(MAIN)));
  }

  /** The price of remembering at once: a commit is recorded as soon as it is
      queued, so if the process dies before the posting thread gets to it, the
      tracking file holds it and the server will not hold it after any run that
      follows, whatever the logs, however often the process is run again. */
  lemma RecordedButNeverPosted(c: Commit) returns (trace: seq<State>, steps: seq<Step>)
    ensures Run(trace, steps)
    ensures
      var s := trace[|steps|];
      IsTree(s.file) && c in Contents(s.file) && s.server == [] && s.q.added == [] && s.log == [c]
    ensures forall trace', steps' :: Run(trace', steps') && trace <= trace' && steps <= steps' ==>
              !Holds(trace'[|steps'|], c)
  {
    trace, steps := ReturnFromPost(c);
    trace, steps := Extend(trace, steps, AppendNode);
    ghost var recorded := trace[|steps|];
    AppendKeepsSet([], c);
    assert c in Contents(recorded.file) && recorded.server == [];
    trace, steps := Extend(trace, steps, Restart([c]));
    hide Run, Holds;
    assert !Holds(trace[|steps|], c) by { HoldsNothing(trace[|steps|], c); }
    forall trace', steps' | Run(trace', steps') && trace <= trace' && steps <= steps'
      ensures !Holds(trace'[|steps'|], c)
    {
      NeverAfter(trace, steps, trace', steps', c);
    }
  }

  lemma HoldsNothing(s: State, c: Commit)
    requires s.server == []
    ensures !Holds(s, c)
  {
  }

  /** In every continuation of a run that ends with a new process. */
  lemma NeverAfter(trace: seq<State>, steps: seq<Step>, trace': seq<State>, steps': seq<Step>, c: Commit)
    requires Run(trace, steps) && Run(trace', steps') && trace <= trace' && steps <= steps'
    requires trace[|steps|].q.added == [] && IsTree(trace[|steps|].file) && c in Contents(trace[|steps|].file)
    ensures Holds(trace'[|steps'|], c) <==> Holds(trace[|steps|], c)
  {
    hide Holds, Do, Enabled, Init, Contents;
    assert trace'[|steps|] == trace[|steps|];
    AbandonedForever(trace', steps', |steps|, |steps'|, c);
  }
}
