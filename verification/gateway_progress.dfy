/** That git2news can always finish: from every state it can get into, short of
    fatal, there is a way to where join_postthread has returned, given a server
    that takes what it is sent. What the other theorems say about that moment is
    therefore not said of nothing. */
module GatewayProgress {
  import Q = PostQueue
  import opened Gateway
  import opened SearchTree

  /** fatal has not been called and will not be for a torn tracking file. */
  predicate Alive(s: State) { !s.torn && s.main != Dying }

  // ----- who goes next ----------------------------------------------------------------

  /** What the posting thread does next while it holds the lock, or when everyone
      else is done: the server answers each command as it should. */
  function PosterNext(s: State): Step
  {
    match s.talk
    case Asking(job) => Stat(if Holds(s, job) then 223 else 430)
    case Offering(_) => Offer(340)
    case Sending(_) => Send(true, 240)
    case Settled(job) => Queue(Q.Finish(job))
    case Silent => Queue(Q.NextPosterStep(s.q))
  }

  function PostNext(c: Commit, pc: Q.CallerPc): Q.Step
  {
    match pc
    case Outside => Q.PostLock(MAIN, c)
    case HasLock(_) => Q.PostAppend(MAIN, c)
    case Queued => Q.PostSignal(MAIN)
    case Signalled => Q.PostUnlock(MAIN)
  }

  function JoinNext(pc: Q.CloserPc): Q.Step
  {
    match pc
    case Closing => Q.JoinFlag
    case Flagged => Q.JoinSignal
    case CloseSignalled => Q.JoinUnlock
    case _ => Q.JoinReturn
  }

  function MainNext(s: State): Step
    requires MAIN in s.q.callers
  {
    match s.main
    case Reading =>
      if s.log == [] then Queue(Q.JoinLock)
      else if Known(s.file, s.log[0]) then Skip
      else Queue(Q.PostLock(MAIN, s.log[0]))
    case Posting(c) => Queue(PostNext(c, s.q.callers[MAIN]))
    case Remembering(_) => AppendNode
    case Linking(_) => LinkNode
    case Ended => Queue(JoinNext(s.q.closer))
    case Dying => Refuse
  }

  predicate PosterGoes(s: State)
  {
    s.q.owner == Q.Poster || (s.q.closer == Q.Joining && s.q.poster != Q.Exited)
  }

  function Next(s: State): Step
    requires MAIN in s.q.callers
  {
    if PosterGoes(s) then PosterNext(s) else MainNext(s)
  }

  // ----- how much is left ------------------------------------------------------------------

  function CallerRank(pc: Q.CallerPc): nat
  {
    match pc
    case Outside => 8
    case HasLock(_) => 7
    case Queued => 6
    case Signalled => 5
  }

  function CloserRank(pc: Q.CloserPc): nat
  {
    match pc
    case NotYet => 5
    case Closing => 4
    case Flagged => 3
    case CloseSignalled => 2
    case Joining => 1
    case Joined => 0
  }

  /** What is left for the main thread. */
  function MainLeft(s: State): nat
    requires MAIN in s.q.callers
  {
    10 * |s.log| +
    match s.main
    case Reading => 9
    case Posting(_) => CallerRank(s.q.callers[MAIN])
    case Remembering(_) => 4
    case Linking(_) => 3
    case Ended => CloserRank(s.q.closer)
    case Dying => 0
  }

  /** What is left for the posting thread until it lets go of the lock, or until it
      exits. */
  function PosterLeft(s: State): nat
  {
    if s.q.closer == Q.Joining || Q.PosterHolds(s.q.poster) then Q.Remaining(s.q) else 0
  }

  function TalkLeft(s: State): nat
  {
    match s.talk
    case Asking(_) => 3
    case Offering(_) => 2
    case Sending(_) => 1
    case _ => 0
  }

  predicate Nearer(s: State, u: State)
    requires MAIN in s.q.callers && MAIN in u.q.callers
  {
    || MainLeft(u) < MainLeft(s)
    || (MainLeft(u) == MainLeft(s) && PosterLeft(u) < PosterLeft(s))
    || (MainLeft(u) == MainLeft(s) && PosterLeft(u) == PosterLeft(s) && TalkLeft(u) < TalkLeft(s))
  }

  /** A step that is possible, serves the purpose and disturbs nothing. */
  ghost predicate Good(s: State, step: Step)
    requires MAIN in s.q.callers
  {
    && Enabled(s, step) && !step.Restart? && Willing(s, step)
    && var u := Do(s, step);
       && MAIN in u.q.callers && Nearer(s, u) && Alive(u)
       && u.given == s.given && u.startFile == s.startFile
  }

  // ----- one step ----------------------------------------------------------------------------

  lemma TalkStepIsGood(s: State)
    requires MAIN in s.q.callers && Alive(s) && (s.talk.Asking? || s.talk.Offering? || s.talk.Sending?)
    ensures Good(s, PosterNext(s))
  {
    hide Known;
  }

  lemma FinishIsGood(s: State)
    requires MAIN in s.q.callers && Alive(s) && TalkInv(s) && s.talk.Settled?
    ensures Good(s, PosterNext(s))
  {
    hide Known;
  }

  /** Each step of the posting thread with the lock held lets go of it or gets on. */
  lemma LockedStepGetsOn(q: Q.State)
    requires Q.LockDiscipline(q) && Q.PosterDiscipline(q) && q.owner == Q.Poster && q.poster != Q.Handling
    ensures
      var step := Q.NextPosterStep(q);
      && Q.Enabled(q, step) && Q.IsPosterStep(step) && !step.Finish?
      && (Q.PosterHolds(Q.Do(q, step).poster) ==> Q.Remaining(Q.Do(q, step)) < Q.Remaining(q))
      && Q.PosterHolds(q.poster) && Q.Remaining(q) > 0
  {
    hide Q.AllOutside;
  }

  /** The posting thread while it holds the lock. */
  lemma LockedStepIsGood(s: State)
    requires MAIN in s.q.callers && Alive(s) && TalkInv(s) && Q.LockDiscipline(s.q) && Q.PosterDiscipline(s.q)
    requires s.talk == Silent && s.q.owner == Q.Poster && s.q.closer != Q.Joining
    ensures Good(s, PosterNext(s))
  {
    hide Known, Q.Do, Q.Enabled, Q.Remaining, Q.PosterHolds, Q.NextPosterStep, Q.LockDiscipline, Q.PosterDiscipline;
    LockedStepGetsOn(s.q);
    PosterKeepsCallers(s.q, Q.NextPosterStep(s.q));
  }

  /** The posting thread when only it and the caller of join are left. */
  lemma LastStepIsGood(s: State)
    requires MAIN in s.q.callers && Alive(s) && TalkInv(s) && Q.Inv(s.q)
    requires s.talk == Silent && s.q.closer == Q.Joining && s.q.poster != Q.Exited
    ensures Good(s, PosterNext(s))
  {
    hide Known, Q.Inv;
    Q.JoinIsNotStuck(s.q);
  }

  lemma PosterStepIsGood(s: State)
    requires Inv(s) && MAIN in s.q.callers && Alive(s) && PosterGoes(s)
    ensures Good(s, PosterNext(s))
  {
    hide Good, PosterNext, MainInv, FileInv, TalkInv, Q.PosterDiscipline, Q.JoinDiscipline, NoRepeats;
    match s.talk {
      case Settled(_) => FinishIsGood(s);
      case Silent => if s.q.closer == Q.Joining { LastStepIsGood(s); } else { LockedStepIsGood(s); }
      case _ => TalkStepIsGood(s);
    }
  }

  lemma PostStepIsGood(s: State)
    requires MainInv(s) && MAIN in s.q.callers && Alive(s) && Q.LockDiscipline(s.q) && Q.JoinDiscipline(s.q)
    requires s.q.owner != Q.Poster && s.main.Posting?
    ensures Good(s, MainNext(s))
  {
    hide Known;
  }

  lemma ReadStepIsGood(s: State)
    requires MainInv(s) && MAIN in s.q.callers && Alive(s) && Q.LockDiscipline(s.q) && Q.JoinDiscipline(s.q)
    requires s.q.owner != Q.Poster && s.main == Reading
    ensures Good(s, MainNext(s))
  {
    hide Known;
  }

  lemma RememberStepIsGood(s: State)
    requires MainInv(s) && FileInv(s) && MAIN in s.q.callers && Alive(s)
    requires s.main.Remembering? || s.main.Linking?
    ensures Good(s, MainNext(s))
  {
    hide Known, Contents, Ordered, Append, Link;
  }

  lemma EndStepIsGood(s: State)
    requires MainInv(s) && MAIN in s.q.callers && Alive(s) && Q.LockDiscipline(s.q) && Q.JoinDiscipline(s.q)
    requires s.q.owner != Q.Poster && s.main == Ended
    requires s.q.closer != Q.NotYet && s.q.closer != Q.Joined && (s.q.closer == Q.Joining ==> s.q.poster == Q.Exited)
    ensures Good(s, MainNext(s))
  {
    hide Known;
  }

  lemma NextIsGood(s: State)
    requires Inv(s) && Alive(s) && s.q.closer != Q.Joined
    ensures MAIN in s.q.callers && Good(s, Next(s))
  {
    hide Good, PosterNext, MainNext, FileInv, TalkInv, Q.LockDiscipline, Q.PosterDiscipline, Q.JoinDiscipline, NoRepeats;
    if PosterGoes(s) {
      PosterStepIsGood(s);
    } else {
      match s.main {
        case Reading => ReadStepIsGood(s);
        case Posting(_) => PostStepIsGood(s);
        case Ended => EndStepIsGood(s);
        case _ => RememberStepIsGood(s);
      }
    }
  }

  // ----- the whole way ---------------------------------------------------------------------------

  /** From i on nobody restarts the process, and the server is willing. */
  ghost predicate UndisturbedFrom(trace: seq<State>, steps: seq<Step>, i: nat)
    requires Run(trace, steps)
  {
    forall k {:trigger steps[k]} :: i <= k < |steps| ==> !steps[k].Restart? && Willing(trace[k], steps[k])
  }

  ghost predicate Continues(trace: seq<State>, steps: seq<Step>, trace': seq<State>, steps': seq<Step>)
    requires Run(trace, steps)
  {
    && Run(trace', steps') && trace <= trace' && steps <= steps'
    && UndisturbedFrom(trace', steps', |steps|)
    && trace'[|steps'|].given == trace[|steps|].given
    && trace'[|steps'|].startFile == trace[|steps|].startFile
  }

  lemma OneMoreStep(trace: seq<State>, steps: seq<Step>) returns (trace': seq<State>, steps': seq<Step>)
    requires Run(trace, steps) && Alive(trace[|steps|]) && trace[|steps|].q.closer != Q.Joined
    ensures Continues(trace, steps, trace', steps')
    ensures
      var s, u := trace[|steps|], trace'[|steps'|];
      Alive(u) && MAIN in s.q.callers && MAIN in u.q.callers && Nearer(s, u)
  {
    hide Alive, Nearer, Enabled, Do, Willing, Init;
    var s := trace[|steps|];
    RunKeepsInv(trace, steps, |steps|);
    NextIsGood(s);
    trace', steps' := trace + [Do(s, Next(s))], steps + [Next(s)];
  }

  lemma ContinuesOn(
      t0: seq<State>, p0: seq<Step>, t1: seq<State>, p1: seq<Step>, t2: seq<State>, p2: seq<Step>)
    requires Run(t0, p0) && Continues(t0, p0, t1, p1) && Continues(t1, p1, t2, p2)
    ensures Continues(t0, p0, t2, p2)
  {
    hide Enabled, Do, Willing, Init;
    forall k {:trigger p2[k]} | |p0| <= k < |p2|
      ensures !p2[k].Restart? && Willing(t2[k], p2[k])
    {
      if k < |p1| {
        assert p2[k] == p1[k] && t2[k] == t1[k];
      }
    }
  }

  /** Every run that has not been stopped by fatal goes on to where join_postthread
      has returned. */
  lemma {:induction false} Finish(trace: seq<State>, steps: seq<Step>) returns (trace': seq<State>, steps': seq<Step>)
    requires Run(trace, steps) && Alive(trace[|steps|]) && MAIN in trace[|steps|].q.callers
    ensures Continues(trace, steps, trace', steps') && trace'[|steps'|].q.closer == Q.Joined
    decreases MainLeft(trace[|steps|]), PosterLeft(trace[|steps|]), TalkLeft(trace[|steps|])
  {
    hide Run, Alive, Continues, MainLeft, PosterLeft, TalkLeft;
    RunLength(trace, steps);
    if trace[|steps|].q.closer == Q.Joined {
      trace', steps' := trace, steps;
      assert Continues(trace, steps, trace, steps) by { ContinuesItself(trace, steps); }
    } else {
      var t, p := OneMoreStep(trace, steps);
      ContinuationIsRun(trace, steps, t, p);
      trace', steps' := Finish(t, p);
      ContinuesOn(trace, steps, t, p, trace', steps');
    }
  }

  lemma ContinuesItself(trace: seq<State>, steps: seq<Step>)
    requires Run(trace, steps)
    ensures Continues(trace, steps, trace, steps)
  {
  }

  lemma ContinuationIsRun(trace: seq<State>, steps: seq<Step>, trace': seq<State>, steps': seq<Step>)
    requires Run(trace, steps) && Continues(trace, steps, trace', steps')
    ensures Run(trace', steps')
  {
  }

  /** From every state that a run can get into without fatal there is a way to finish,
      with nobody restarting the process and a server that is willing: join_postthread
      returns, and if the server has been willing all along, it then holds every commit
      of the log that no earlier run had recorded. */
  lemma CanAlwaysFinish(trace: seq<State>, steps: seq<Step>) returns (trace': seq<State>, steps': seq<Step>)
    requires Run(trace, steps) && Alive(trace[|steps|])
    ensures Continues(trace, steps, trace', steps') && trace'[|steps'|].q.closer == Q.Joined
    ensures WillingRun(trace, steps) ==>
              var s, u := trace[|steps|], trace'[|steps'|];
              Forward(s.startFile) && forall c :: c in s.given - Contents(s.startFile) ==> Holds(u, c)
  {
    hide Alive, Enabled, Do, Willing, Init, Holds, Contents;
    RunKeepsInv(trace, steps, |steps|);
    trace', steps' := Finish(trace, steps);
    if WillingRun(trace, steps) {
      forall k {:trigger steps'[k]} | 0 <= k < |steps'|
        ensures Willing(trace'[k], steps'[k])
      {
        if k < |steps| {
          assert steps'[k] == steps[k] && trace'[k] == trace[k];
        }
      }
      JoinLosesNothing(trace', steps');
    }
  }
}
