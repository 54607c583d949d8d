/** The job queue of lib/nntp.c: any number of threads call post, one calls
    join_postthread, and the posting thread takes jobs under a mutex and sleeps
    on a condition variable. Every step that another thread can observe is a
    step of the machine; the mutex is a field, so every interleaving that it
    permits is a run. */
module PostQueue {

  type Job = string
  type Id = nat

  datatype Owner = Nobody | Poster | Closer | Caller(id: Id)

  /** Where a thread that calls `post` is. */
  datatype CallerPc =
    | Outside
    | HasLock(job: Job)      // queue not yet changed
    | Queued                 // job appended, not yet signalled
    | Signalled              // about to unlock

  /** Where the one call of `join_postthread` is. */
  datatype CloserPc =
    | NotYet
    | Closing                // has the lock
    | Flagged                // postdone set, not yet signalled
    | CloseSignalled         // about to unlock
    | Joining                // in pthread_join
    | Joined

  /** Where the posting thread is. */
  datatype PosterPc =
    | Starting               // about to take the lock for the first time
    | Testing                // at the outer while test, has the lock
    | Connecting             // lock released
    | Relocking              // connected, about to retake the lock
    | Draining               // at the inner while test, has the lock
    | Handling               // STAT and POST for the first job, has the lock
    | Waiting                // in pthread_cond_wait, lock released
    | Woken                  // woken, about to retake the lock
    | Leaving                // out of the loop, has the lock
    | Exited

  datatype State = State(
    owner: Owner,
    queue: seq<Job>,
    done: bool,
    connected: bool,
    poster: PosterPc,
    closer: CloserPc,
    callers: map<Id, CallerPc>,
    added: seq<Job>,         // every job ever queued, in order
    handled: seq<Job>)       // every job ever dequeued, in order

  predicate Init(s: State)
  {
    && s.owner == Nobody && s.queue == [] && !s.done && !s.connected
    && s.poster == Starting && s.closer == NotYet && s.added == [] && s.handled == []
    && AllOutside(s)
  }

  predicate AllOutside(s: State)
  {
    forall p :: p in s.callers ==> s.callers[p] == Outside
  }

  predicate CloserHolds(pc: CloserPc)
  {
    pc.Closing? || pc.Flagged? || pc.CloseSignalled?
  }

  predicate PosterHolds(pc: PosterPc)
  {
    pc.Testing? || pc.Draining? || pc.Handling? || pc.Leaving?
  }

  function Wake(pc: PosterPc): PosterPc
  {
    if pc == Waiting then Woken else pc
  }

  // ----- steps --------------------------------------------------

  datatype Step =
    | PostLock(id: Id, job: Job) | PostAppend(id: Id, job: Job) | PostSignal(id: Id) | PostUnlock(id: Id)
    | JoinLock | JoinFlag | JoinSignal | JoinUnlock | JoinReturn
    | FirstLock | Test | Connect | Relock | Take | Finish(job: Job) | Drained | Spurious | Rewait | Leave

  predicate IsCallerStep(step: Step)
  {
    step.PostLock? || step.PostAppend? || step.PostSignal? || step.PostUnlock?
  }

  predicate IsCloserStep(step: Step)
  {
    step.JoinLock? || step.JoinFlag? || step.JoinSignal? || step.JoinUnlock? || step.JoinReturn?
  }

  predicate IsPosterStep(step: Step)
  {
    !IsCallerStep(step) && !IsCloserStep(step)
  }

  predicate At(s: State, id: Id, pc: CallerPc)
  {
    id in s.callers && s.callers[id] == pc
  }

  function Move(s: State, id: Id, pc: CallerPc): State
  {
    s.(callers := s.callers[id := pc])
  }

  /** When a step can happen. post must not be called once join has been, and
      join not before every post has returned: the header asks for both. */
  predicate Enabled(s: State, step: Step)
  {
    match step
    case PostLock(p, _) => At(s, p, Outside) && s.owner == Nobody && s.closer == NotYet
    case PostAppend(p, job) => At(s, p, HasLock(job))
    case PostSignal(p) => At(s, p, Queued)
    case PostUnlock(p) => At(s, p, Signalled)
    case JoinLock => s.closer == NotYet && s.owner == Nobody && AllOutside(s)
    case JoinFlag => s.closer == Closing
    case JoinSignal => s.closer == Flagged
    case JoinUnlock => s.closer == CloseSignalled
    case JoinReturn => s.closer == Joining && s.poster == Exited
    case FirstLock => s.poster == Starting && s.owner == Nobody
    case Test => s.poster == Testing
    case Connect => s.poster == Connecting
    case Relock => s.poster == Relocking && s.owner == Nobody
    case Take => s.poster == Draining && s.queue != []
    case Finish(job) => s.poster == Handling && s.queue != [] && s.queue[0] == job
    case Drained => s.poster == Draining && s.queue == []
    case Spurious => s.poster == Waiting
    case Rewait => s.poster == Woken && s.owner == Nobody
    case Leave => s.poster == Leaving
  }

  /** pthread_cond_wait gives the lock up as it goes to sleep. */
  function Sleep(s: State): State
  {
    s.(poster := Waiting, owner := Nobody)
  }

  function Do(s: State, step: Step): State
    requires Enabled(s, step)
  {
    match step
    case PostLock(p, job) => Move(s, p, HasLock(job)).(owner := Caller(p))
    case PostAppend(p, job) => Move(s, p, Queued).(queue := s.queue + [job], added := s.added + [job])
    case PostSignal(p) => Move(s, p, Signalled).(poster := Wake(s.poster))
    case PostUnlock(p) => Move(s, p, Outside).(owner := Nobody)
    case JoinLock => s.(closer := Closing, owner := Closer)
    case JoinFlag => s.(closer := Flagged, done := true)
    case JoinSignal => s.(closer := CloseSignalled, poster := Wake(s.poster))
    case JoinUnlock => s.(closer := Joining, owner := Nobody)
    case JoinReturn => s.(closer := Joined)
    case FirstLock => s.(poster := Testing, owner := Poster)
    case Test =>
      if s.queue == [] && s.done then s.(poster := Leaving)
      else if s.queue == [] then Sleep(s)
      else if !s.connected then s.(poster := Connecting, owner := Nobody)
      else s.(poster := Draining)
    case Connect => s.(poster := Relocking, connected := true)
    case Relock => s.(poster := Draining, owner := Poster)
    case Take => s.(poster := Handling)
    case Finish(job) => s.(poster := Draining, queue := s.queue[1..], handled := s.handled + [job])
    case Drained => if s.done then s.(poster := Leaving) else Sleep(s)
    case Spurious => s.(poster := Woken)
    case Rewait => s.(poster := Testing, owner := Poster)
    case Leave => s.(poster := Exited, owner := Nobody)
  }

  // ----- the invariant ------------------------------------------------------------------

  /** The mutex is held by exactly the thread that is in a locked section. */
  ghost predicate LockDiscipline(s: State)
  {
    && (PosterHolds(s.poster) <==> s.owner == Poster)
    && (CloserHolds(s.closer) <==> s.owner == Closer)
    && (forall p :: p in s.callers ==> (s.callers[p] != Outside <==> s.owner == Caller(p)))
    && (s.owner.Caller? ==> s.owner.id in s.callers)
  }

  /** Someone has changed the queue or the flag and has yet to signal. */
  ghost predicate SignalDue(s: State)
  {
    s.closer == Flagged || (s.owner.Caller? && At(s, s.owner.id, Queued))
  }

  ghost predicate JoinDiscipline(s: State)
  {
    && (s.closer != NotYet ==> AllOutside(s))
    && (s.done <==> s.closer != NotYet && s.closer != Closing)
    && (s.closer == Joined ==> s.poster == Exited)
  }

  ghost predicate PosterDiscipline(s: State)
  {
    && (s.poster == Handling ==> s.queue != [])
    && (s.poster.Draining? || s.poster.Handling? || s.poster.Relocking? ==> s.connected)
    && (s.poster == Waiting && !SignalDue(s) ==> s.queue == [] && !s.done)
    && (s.poster.Leaving? || s.poster.Exited? ==> s.queue == [] && s.done)
  }

  ghost predicate Inv(s: State)
  {
    && LockDiscipline(s)
    && JoinDiscipline(s)
    && PosterDiscipline(s)
    && s.added == s.handled + s.queue
  }

  lemma InitEstablishesInv(s: State)
    requires Init(s)
    ensures Inv(s)
  {
  }

  lemma CallerStepKeepsInv(s: State, step: Step)
    requires Inv(s) && Enabled(s, step) && IsCallerStep(step)
    ensures Inv(Do(s, step))
  {
    if step.PostAppend? {
      assert s.added + [step.job] == s.handled + (s.queue + [step.job]);
    }
  }

  lemma CloserStepKeepsInv(s: State, step: Step)
    requires Inv(s) && Enabled(s, step) && IsCloserStep(step)
    ensures Inv(Do(s, step))
  {
  }

  lemma PosterStepKeepsInv(s: State, step: Step)
    requires Inv(s) && Enabled(s, step) && IsPosterStep(step)
    ensures Inv(Do(s, step))
  {
    PosterStepKeepsOrder(s, step);
    hide AllOutside;
  }

  lemma PosterStepKeepsOrder(s: State, step: Step)
    requires Enabled(s, step) && IsPosterStep(step) && s.added == s.handled + s.queue
    ensures var u := Do(s, step); u.added == u.handled + u.queue
  {
    if step.Finish? {
      assert s.queue == [step.job] + s.queue[1..];
    }
  }

  lemma StepKeepsInv(s: State, step: Step)
    requires Inv(s) && Enabled(s, step)
    ensures Inv(Do(s, step))
  {
    if IsPosterStep(step) {
      PosterStepKeepsInv(s, step);
    } else if IsCloserStep(step) {
      CloserStepKeepsInv(s, step);
    } else {
      CallerStepKeepsInv(s, step);
    }
  }

  // ----- whole runs -----------------------------------------------------------------------

  ghost predicate Run(trace: seq<State>, steps: seq<Step>)
  {
    && |trace| == |steps| + 1
    && Init(trace[0])
    && forall i {:trigger steps[i]} :: 0 <= i < |steps| ==> Enabled(trace[i], steps[i]) && trace[i + 1] == Do(trace[i], steps[i])
  }

  lemma {:induction false} RunKeepsInv(trace: seq<State>, steps: seq<Step>, i: nat)
    requires Run(trace, steps) && i < |trace|
    ensures Inv(trace[i])
  {
    if i == 0 {
      InitEstablishesInv(trace[0]);
    } else {
      RunKeepsInv(trace, steps, i - 1);
      StepKeepsInv(trace[i - 1], steps[i - 1]);
    }
  }

  /** The jobs that PostAppend steps queued, in the order of the steps. */
  function Posted(steps: seq<Step>): seq<Job>
  {
    if steps == [] then []
    else
      var last := steps[|steps| - 1];
      Posted(steps[..|steps| - 1]) + (if last.PostAppend? then [last.job] else [])
  }

  /** The jobs that Finish steps took off the queue, in the order of the steps. */
  function Finished(steps: seq<Step>): seq<Job>
  {
    if steps == [] then []
    else
      var last := steps[|steps| - 1];
      Finished(steps[..|steps| - 1]) + (if last.Finish? then [last.job] else [])
  }

  lemma StepHistory(s: State, step: Step)
    requires Enabled(s, step)
    ensures Do(s, step).added == s.added + (if step.PostAppend? then [step.job] else [])
    ensures Do(s, step).handled == s.handled + (if step.Finish? then [step.job] else [])
  {
  }

  lemma {:induction false} HistoriesMatch(trace: seq<State>, steps: seq<Step>)
    requires Run(trace, steps)
    ensures trace[|steps|].added == Posted(steps)
    ensures trace[|steps|].handled == Finished(steps)
  {
    if steps != [] {
      var m := |steps| - 1;
      HistoriesMatch(trace[..m + 1], steps[..m]);
      StepHistory(trace[m], steps[m]);
    }
  }

  /** Jobs are handled in the order they were queued, each exactly once: what
      has been finished is a prefix of what has been posted and the queue is
      the rest. */
  lemma FirstInFirstOut(trace: seq<State>, steps: seq<Step>)
    requires Run(trace, steps)
    ensures Posted(steps) == Finished(steps) + trace[|steps|].queue
  {
    HistoriesMatch(trace, steps);
    RunKeepsInv(trace, steps, |steps|);
  }

  /** No lost wakeup: whenever the posting thread sleeps and the lock is free,
      there is no job and no request to stop; in particular when it has just
      gone to sleep. */
  lemma NoLostWakeup(trace: seq<State>, steps: seq<Step>, i: nat)
    requires Run(trace, steps) && i < |trace|
    requires trace[i].poster == Waiting
    ensures trace[i].owner == Nobody ==> trace[i].queue == [] && !trace[i].done
    ensures i > 0 && trace[i - 1].poster != Waiting ==> trace[i].queue == [] && !trace[i].done
  {
    RunKeepsInv(trace, steps, i);
    if i > 0 && trace[i - 1].poster != Waiting {
      RunKeepsInv(trace, steps, i - 1);
      assert trace[i] == Do(trace[i - 1], steps[i - 1]);
    }
  }

  /** The posting thread exits, and join returns, only after every posted job
      has been finished. */
  lemma ExitMeansAllFinished(trace: seq<State>, steps: seq<Step>)
    requires Run(trace, steps)
    requires trace[|steps|].poster == Exited || trace[|steps|].closer == Joined
    ensures trace[|steps|].queue == [] && trace[|steps|].done
    ensures Finished(steps) == Posted(steps)
  {
    FirstInFirstOut(trace, steps);
    RunKeepsInv(trace, steps, |steps|);
  }

  // ----- join returns --------------------------------------------------------------------

  function PosterRank(s: State): nat
  {
    match s.poster
    case Starting => 9
    case Waiting => 9
    case Woken => 8
    case Testing => 7
    case Connecting => 6
    case Relocking => 5
    case Draining => 4
    case Handling => 3
    case Leaving => 2
    case Exited => 0
  }

  /** What is left for the posting thread to do once it has been told to stop. */
  function Remaining(s: State): nat
  {
    10 * |s.queue| + PosterRank(s)
  }

  function NextPosterStep(s: State): Step
  {
    match s.poster
    case Starting => FirstLock
    case Waiting => Spurious
    case Woken => Rewait
    case Testing => Test
    case Connecting => Connect
    case Relocking => Relock
    case Draining => (if s.queue == [] then Drained else Take)
    case Handling => (if s.queue == [] then Drained else Finish(s.queue[0]))
    case Leaving => Leave
    case Exited => Leave
  }

  /** Once join has unlocked, the posting thread is awake, is never stuck, and
      each of its steps brings its exit nearer; nobody else can interfere; and
      join can return as soon as it has exited. So join returns if STAT and
      POST do. */
  lemma JoinIsNotStuck(s: State)
    requires Inv(s) && s.closer == Joining
    ensures s.poster != Waiting
    ensures s.poster == Exited ==> Enabled(s, JoinReturn)
    ensures s.poster != Exited ==> IsPosterStep(NextPosterStep(s)) && Enabled(s, NextPosterStep(s))
    ensures forall step :: Enabled(s, step) && !IsPosterStep(step) ==> step == JoinReturn
    ensures forall step :: Enabled(s, step) && IsPosterStep(step) ==> Remaining(Do(s, step)) < Remaining(s)
  {
    assert s.owner == Nobody || s.owner == Poster;
  }
}
