/** Threads that run the same phases, meeting at a reusable barrier after each and then counting
    themselves under a mutex.
    Line numbers refer to 05_jthread/jthread_demo.h. */
module Barrier {
  import opened Totals
  import Runs

  /** `threads` threads, `phases` phases each. */
  datatype Config = Config(threads: nat, phases: nat)

  /** Where a thread is in phase `p`: before line 98, blocked in it, past it, holding the mutex
      before and after line 101. A thread at `Working` of phase `phases` has left its loop. */
  datatype Pc = Working | Waiting | Released | Locked | Counted

  datatype Thread = Thread(pc: Pc, p: nat)

  datatype State = State(
    generation: nat,        // phases the barrier has completed
    arrived: nat,           // threads that have arrived in the current one
    holder: int,            // who holds the mutex, -1 for nobody
    phaseCount: seq<int>,
    threads: seq<Thread>)

  datatype Step =
    | Arrive(t: nat)     // line 98, arriving; the last arrival completes the phase
    | Leave(t: nat)      // line 98, returning
    | Lock(t: nat)       // line 100
    | Increment(t: nat)  // line 101
    | Unlock(t: nat)     // line 102

  predicate Init(c: Config, s: State) {
    && s.generation == 0 && s.arrived == 0 && s.holder == -1
    && s.phaseCount == seq(c.phases, _ => 0)
    && s.threads == seq(c.threads, _ => Thread(Working, 0))
  }

  predicate WellFormed(c: Config, s: State) {
    && |s.threads| == c.threads && |s.phaseCount| == c.phases
    && forall t :: 0 <= t < |s.threads| ==>
         s.threads[t].p <= c.phases && (s.threads[t].p == c.phases ==> s.threads[t].pc.Working?)
  }

  predicate Enabled(c: Config, s: State, step: Step) {
    && step.t < |s.threads|
    && var th := s.threads[step.t];
       match step
       case Arrive(_) => th.pc.Working? && th.p < c.phases
       case Leave(_) => th.pc.Waiting? && th.p < s.generation
       case Lock(_) => th.pc.Released? && s.holder == -1
       case Increment(_) => th.pc.Locked?
       case Unlock(_) => th.pc.Counted?
  }

  function Apply(c: Config, s: State, step: Step): State
    requires WellFormed(c, s) && Enabled(c, s, step)
  {
    var t := step.t;
    var th := s.threads[t];
    match step
    case Arrive(_) =>
      var s' := s.(threads := s.threads[t := th.(pc := Waiting)]);
      if s.arrived + 1 == c.threads then s'.(arrived := 0, generation := s.generation + 1)
      else s'.(arrived := s.arrived + 1)
    case Leave(_) => s.(threads := s.threads[t := th.(pc := Released)])
    case Lock(_) => s.(holder := t, threads := s.threads[t := th.(pc := Locked)])
    case Increment(_) =>
      s.(phaseCount := s.phaseCount[th.p := s.phaseCount[th.p] + 1], threads := s.threads[t := th.(pc := Counted)])
    case Unlock(_) => s.(holder := -1, threads := s.threads[t := Thread(Working, th.p + 1)])
  }

  predicate Next(c: Config, s: State, step: Step, s': State) {
    WellFormed(c, s) && Enabled(c, s, step) && s' == Apply(c, s, step)
  }

  // ---------------------------------------------------------------- invariant

  /** One for a thread blocked in the barrier's current generation. */
  function BlockedIn(g: nat): Thread -> nat {
    (th: Thread) => if th.pc.Waiting? && th.p == g then 1 else 0
  }

  /** Phases a thread has counted itself in. */
  function Done(th: Thread): nat {
    th.p + if th.pc.Counted? then 1 else 0
  }

  function CountedIn(q: nat): Thread -> nat {
    (th: Thread) => if Done(th) > q then 1 else 0
  }

  /** No thread is more than one barrier away from another. */
  predicate InStep(g: nat, th: Thread) {
    match th.pc
    case Working => th.p == g
    case Waiting => th.p == g || th.p + 1 == g
    case _ => th.p + 1 == g
  }

  predicate HoldsMutex(pc: Pc) {
    pc.Locked? || pc.Counted?
  }

  ghost predicate Inv(c: Config, s: State) {
    && WellFormed(c, s)
    && (forall t :: 0 <= t < |s.threads| ==> InStep(s.generation, s.threads[t]))
    && (forall t :: 0 <= t < |s.threads| ==> (HoldsMutex(s.threads[t].pc) <==> s.holder == t))
    && -1 <= s.holder < |s.threads|
    && s.arrived == Total(s.threads, BlockedIn(s.generation))
    && (c.threads > 0 ==> s.arrived < c.threads)
    && (forall q :: 0 <= q < |s.phaseCount| ==> s.phaseCount[q] == Total(s.threads, CountedIn(q)))
  }

  lemma InitEstablishes(c: Config, s: State)
    requires Init(c, s)
    ensures Inv(c, s)
  {
    TotalConstant(s.threads, BlockedIn(0), 0);
    forall q | 0 <= q < c.phases
      ensures s.phaseCount[q] == Total(s.threads, CountedIn(q))
    {
      TotalConstant(s.threads, CountedIn(q), 0);
    }
  }

  /** When the last thread arrives, everybody is blocked in the current generation, and nobody yet
      in the next. */
  lemma LastArrival(c: Config, s: State, t: nat)
    requires Inv(c, s) && Enabled(c, s, Arrive(t)) && s.arrived + 1 == c.threads
    ensures var s' := Apply(c, s, Arrive(t));
            && (forall u :: 0 <= u < |s.threads| ==> s'.threads[u] == Thread(Waiting, s.generation))
            && Total(s'.threads, BlockedIn(s.generation + 1)) == 0
  {
    var s' := Apply(c, s, Arrive(t));
    var g := s.generation;
    TotalUpdate(s.threads, t, s'.threads[t], BlockedIn(g));
    TotalBounded(s'.threads, BlockedIn(g), 1);
    TotalConstant(s'.threads, BlockedIn(g + 1), 0);
  }

  lemma CountsFollow(c: Config, s: State, step: Step)
    requires Inv(c, s) && Enabled(c, s, step)
    ensures var s' := Apply(c, s, step);
            forall q :: 0 <= q < |s'.phaseCount| ==> s'.phaseCount[q] == Total(s'.threads, CountedIn(q))
  {
    var s' := Apply(c, s, step);
    forall q | 0 <= q < |s'.phaseCount|
      ensures s'.phaseCount[q] == Total(s'.threads, CountedIn(q))
    {
      TotalUpdate(s.threads, step.t, s'.threads[step.t], CountedIn(q));
    }
  }

  lemma ArrivePreserves(c: Config, s: State, step: Step)
    requires Inv(c, s) && step.Arrive? && Enabled(c, s, step)
    ensures Inv(c, Apply(c, s, step))
  {
    CountsFollow(c, s, step);
    if s.arrived + 1 == c.threads {
      LastArrival(c, s, step.t);
    } else {
      TotalUpdate(s.threads, step.t, Apply(c, s, step).threads[step.t], BlockedIn(s.generation));
    }
  }

  lemma OtherStepPreserves(c: Config, s: State, step: Step)
    requires Inv(c, s) && !step.Arrive? && Enabled(c, s, step)
    ensures Inv(c, Apply(c, s, step))
  {
    CountsFollow(c, s, step);
    TotalUpdate(s.threads, step.t, Apply(c, s, step).threads[step.t], BlockedIn(s.generation));
  }

  lemma StepPreserves(c: Config, s: State, step: Step, s': State)
    requires Inv(c, s) && Next(c, s, step, s')
    ensures Inv(c, s')
  {
    if step.Arrive? {
      ArrivePreserves(c, s, step);
    } else {
      OtherStepPreserves(c, s, step);
    }
  }

  ghost predicate IsRun(c: Config, run: seq<State>, steps: seq<Step>) {
    Runs.IsRun(s => Init(c, s), (s, l, s') => Next(c, s, l, s'), run, steps)
  }

  lemma RunsKeepInv(c: Config, run: seq<State>, steps: seq<Step>)
    requires IsRun(c, run, steps)
    ensures forall i :: 0 <= i < |run| ==> Inv(c, run[i])
  {
    forall s | Init(c, s)
      ensures Inv(c, s)
    {
      InitEstablishes(c, s);
    }
    forall s, l, s' | Inv(c, s) && Next(c, s, l, s')
      ensures Inv(c, s')
    {
      StepPreserves(c, s, l, s');
    }
    Runs.Invariance(s => Init(c, s), (s, l, s') => Next(c, s, l, s'), s => Inv(c, s), run, steps);
  }

  /** On every run the phases fill one after the other: a phase has been counted by somebody only
      if the one before it has been counted by everybody, and no two threads' completed phases
      differ by more than one. */
  lemma PhasesFillInOrder(c: Config, run: seq<State>, steps: seq<Step>, i: nat, q: nat)
    requires IsRun(c, run, steps) && i < |run| && q + 1 < c.phases
    ensures |run[i].phaseCount| == c.phases
    ensures run[i].phaseCount[q + 1] > 0 ==> run[i].phaseCount[q] == c.threads
    ensures 0 <= run[i].phaseCount[q + 1] <= run[i].phaseCount[q] <= c.threads
    ensures forall t, u :: 0 <= t < |run[i].threads| && 0 <= u < |run[i].threads| ==>
              Done(run[i].threads[t]) <= Done(run[i].threads[u]) + 1
  {
    RunsKeepInv(c, run, steps);
    var s := run[i];
    assert Inv(c, s);
    TotalBounded(s.threads, CountedIn(q), 1);
    TotalBounded(s.threads, CountedIn(q + 1), 1);
    if s.phaseCount[q + 1] > 0 {
      var t := TotalPositive(s.threads, CountedIn(q + 1));
      TotalConstant(s.threads, CountedIn(q), 1);
    }
  }

  /** The thread has reached the barrier of phase `p`. */
  predicate Arrived(th: Thread, p: nat) {
    th.p > p || (th.p == p && !th.pc.Working?)
  }

  /** What thread `t` can be waiting for. */
  ghost predicate MustWait(s: State, t: nat)
    requires t < |s.threads|
  {
    var th := s.threads[t];
    || (th.pc.Waiting? && exists u :: 0 <= u < |s.threads| && !Arrived(s.threads[u], th.p))
    || (th.pc.Released? && exists u :: 0 <= u < |s.threads| && u != t && HoldsMutex(s.threads[u].pc))
  }

  ghost predicate CannotMove(c: Config, s: State, t: nat) {
    forall step: Step :: step.t == t ==> !Enabled(c, s, step)
  }

  /** Nobody waits without need: on every run a thread that still has a phase to run cannot move
      exactly when it is in the barrier and some thread has not arrived there, or wants the mutex and
      another thread has it. */
  lemma ThreadsWaitOnlyForOthers(c: Config, run: seq<State>, steps: seq<Step>, i: nat, t: nat)
    requires IsRun(c, run, steps) && i < |run| && t < |run[i].threads| && run[i].threads[t].p < c.phases
    ensures CannotMove(c, run[i], t) <==> MustWait(run[i], t)
  {
    RunsKeepInv(c, run, steps);
    var s := run[i];
    assert Inv(c, s);
    var th := s.threads[t];
    match th.pc
    case Working => assert Enabled(c, s, Arrive(t));
    case Waiting => WaitsInBarrier(c, s, t);
    case Released => WaitsForMutex(c, s, t);
    case Locked => assert Enabled(c, s, Increment(t));
    case Counted => assert Enabled(c, s, Unlock(t));
  }

  lemma WaitsInBarrier(c: Config, s: State, t: nat)
    requires Inv(c, s) && t < |s.threads| && s.threads[t].pc.Waiting?
    ensures CannotMove(c, s, t) <==> MustWait(s, t)
  {
    var g := s.generation;
    assert Enabled(c, s, Leave(t)) <==> s.threads[t].p < g;
    if s.threads[t].p == g && !MustWait(s, t) {
      forall u | 0 <= u < |s.threads|
        ensures BlockedIn(g)(s.threads[u]) == 1
      {
        assert Arrived(s.threads[u], g) && InStep(g, s.threads[u]);
      }
      TotalConstant(s.threads, BlockedIn(g), 1);
      assert false;
    }
  }

  lemma WaitsForMutex(c: Config, s: State, t: nat)
    requires Inv(c, s) && t < |s.threads| && s.threads[t].pc.Released?
    ensures CannotMove(c, s, t) <==> MustWait(s, t)
  {
    assert Enabled(c, s, Lock(t)) <==> s.holder == -1;
    if s.holder != -1 {
      assert HoldsMutex(s.threads[s.holder].pc);
    }
  }

  // ---------------------------------------------------------------- termination

  /** Steps thread `th` still has to take: exactly five a phase. */
  function Left(c: Config, th: Thread): nat {
    var rank := match th.pc case Working => 0 case Waiting => 1 case Released => 2 case Locked => 3 case Counted => 4;
    if th.p < c.phases then 5 * (c.phases - th.p) - rank else 0
  }

  function LeftOf(c: Config): Thread -> nat {
    th => Left(c, th)
  }

  predicate Finished(c: Config, s: State) {
    forall t :: 0 <= t < |s.threads| ==> s.threads[t] == Thread(Working, c.phases)
  }

  lemma StepDecreases(c: Config, s: State, step: Step, s': State)
    requires Next(c, s, step, s')
    ensures Total(s'.threads, LeftOf(c)) < Total(s.threads, LeftOf(c))
  {
    TotalUpdate(s.threads, step.t, s'.threads[step.t], LeftOf(c));
  }

  /** No deadlock: a state in which no step is possible is one where every thread has run all its
      phases. */
  lemma StuckMeansFinished(c: Config, s: State)
    requires Inv(c, s)
    requires forall step :: !Enabled(c, s, step)
    ensures Finished(c, s)
  {
    assert s.holder != -1 ==> HoldsMutex(s.threads[s.holder].pc);
    forall t | 0 <= t < |s.threads|
      ensures !HoldsMutex(s.threads[t].pc)
    {
      assert !Enabled(c, s, Increment(t)) && !Enabled(c, s, Unlock(t));
    }
    assert s.holder == -1;
    forall t | 0 <= t < |s.threads|
      ensures !s.threads[t].pc.Released?
      ensures s.threads[t].pc.Working? ==> s.threads[t].p == c.phases == s.generation
      ensures s.threads[t].pc.Waiting? ==> s.threads[t].p == s.generation < c.phases
    {
      assert !Enabled(c, s, Arrive(t)) && !Enabled(c, s, Leave(t)) && !Enabled(c, s, Lock(t));
    }
    if t :| 0 <= t < |s.threads| && s.threads[t].pc.Waiting? {
      TotalConstant(s.threads, BlockedIn(s.generation), 1);
      assert false;
    }
  }

  /** What a finished state has counted. */
  lemma FinishedCounts(c: Config, s: State)
    requires Inv(c, s) && Finished(c, s)
    ensures |s.phaseCount| == c.phases && forall q :: 0 <= q < c.phases ==> s.phaseCount[q] == c.threads
  {
    forall q | 0 <= q < c.phases
      ensures s.phaseCount[q] == c.threads
    {
      TotalConstant(s.threads, CountedIn(q), 1);
    }
  }

  /** Every run is finite, of at most five steps per thread and phase; and a run that can go no
      further has counted every thread in every phase. */
  lemma RunsTerminate(c: Config, run: seq<State>, steps: seq<Step>)
    requires IsRun(c, run, steps)
    ensures |steps| <= c.threads * (5 * c.phases)
    ensures var s := run[|steps|];
            (forall step :: !Enabled(c, s, step)) ==>
              |s.phaseCount| == c.phases && forall q :: 0 <= q < c.phases ==> s.phaseCount[q] == c.threads
  {
    RunsKeepInv(c, run, steps);
    forall s | Init(c, s)
      ensures Inv(c, s)
    {
      InitEstablishes(c, s);
    }
    forall s, l, s' | Inv(c, s) && Next(c, s, l, s')
      ensures Inv(c, s') && Total(s'.threads, LeftOf(c)) < Total(s.threads, LeftOf(c))
    {
      StepPreserves(c, s, l, s');
      StepDecreases(c, s, l, s');
    }
    Runs.Termination(s => Init(c, s), (s, l, s') => Next(c, s, l, s'), s => Inv(c, s),
                     (s: State) => Total(s.threads, LeftOf(c)), run, steps);
    TotalConstant(run[0].threads, LeftOf(c), 5 * c.phases);
    var s := run[|steps|];
    assert Inv(c, s);
    if forall step :: !Enabled(c, s, step) {
      StuckMeansFinished(c, s);
      FinishedCounts(c, s);
    }
  }
}
