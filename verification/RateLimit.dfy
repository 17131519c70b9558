/** The semaphore demo: `count` workers, each acquiring a permit, processing one item and releasing
    the permit.
    Line numbers refer to 05_jthread/jthread_demo.h. */
module RateLimit {
  import opened Totals
  import Runs

  /** The source's semaphore admits up to 128 permits. */
  const LEAST_MAX := 128

  datatype Config = Config(count: nat, maxConcurrent: nat) {
    predicate Valid() {
      maxConcurrent <= LEAST_MAX
    }
  }

  /** Before line 123, between 123 and 124, between 124 and 125, after 125. */
  datatype Worker = NotStarted | Wanting | InFlight | Processed | Ended

  datatype Coordinator = Spawning(i: nat) | Returned(result: int)

  datatype State = State(permits: int, processed: int, workers: seq<Worker>, main: Coordinator)

  datatype Step =
    | Spawn            // line 122
    | Acquire(t: nat)  // line 123
    | Process(t: nat)  // line 124
    | Release(t: nat)  // line 125
    | JoinAll          // lines 128-129

  predicate Init(c: Config, s: State) {
    && c.Valid()
    && s.permits == c.maxConcurrent && s.processed == 0 && s.main == Spawning(0)
    && s.workers == seq(c.count, _ => NotStarted)
  }

  predicate Enabled(s: State, step: Step) {
    match step
    case Spawn => s.main.Spawning? && s.main.i < |s.workers|
    case Acquire(t) => t < |s.workers| && s.workers[t].Wanting? && s.permits > 0
    case Process(t) => t < |s.workers| && s.workers[t].InFlight?
    case Release(t) => t < |s.workers| && s.workers[t].Processed?
    case JoinAll =>
      && s.main.Spawning? && s.main.i == |s.workers|
      && forall t :: 0 <= t < |s.workers| ==> s.workers[t].Ended?
  }

  function Apply(s: State, step: Step): State
    requires Enabled(s, step)
  {
    match step
    case Spawn => s.(workers := s.workers[s.main.i := Wanting], main := Spawning(s.main.i + 1))
    case Acquire(t) => s.(permits := s.permits - 1, workers := s.workers[t := InFlight])
    case Process(t) => s.(processed := s.processed + 1, workers := s.workers[t := Processed])
    case Release(t) => s.(permits := s.permits + 1, workers := s.workers[t := Ended])
    case JoinAll => s.(main := Returned(s.processed))
  }

  predicate Next(s: State, step: Step, s': State) {
    Enabled(s, step) && s' == Apply(s, step)
  }

  /** One for a worker that holds a permit. */
  function Flying(w: Worker): nat {
    if w.InFlight? || w.Processed? then 1 else 0
  }

  function Items(w: Worker): nat {
    if w.Processed? || w.Ended? then 1 else 0
  }

  ghost predicate Inv(c: Config, s: State) {
    && c.Valid() && |s.workers| == c.count
    && s.permits >= 0 && s.permits + Total(s.workers, Flying) == c.maxConcurrent
    && s.processed == Total(s.workers, Items)
    && (c.maxConcurrent == 0 ==> forall t :: 0 <= t < |s.workers| ==> s.workers[t].NotStarted? || s.workers[t].Wanting?)
    && (forall t :: 0 <= t < |s.workers| ==> (s.workers[t].NotStarted? <==> s.main.Spawning? && s.main.i <= t))
    && match s.main
       case Spawning(i) => i <= |s.workers|
       case Returned(result) => result == c.count && (c.maxConcurrent == 0 ==> c.count == 0)
  }

  lemma InitEstablishes(c: Config, s: State)
    requires Init(c, s)
    ensures Inv(c, s)
  {
    TotalConstant(s.workers, Flying, 0);
    TotalConstant(s.workers, Items, 0);
  }

  lemma StepPreserves(c: Config, s: State, step: Step, s': State)
    requires Inv(c, s) && Next(s, step, s')
    ensures Inv(c, s')
  {
    if step.JoinAll? {
      TotalConstant(s.workers, Items, 1);
      assert c.count > 0 ==> s.workers[0].Ended?;
    } else {
      var t := if step.Spawn? then s.main.i else step.t;
      TotalUpdate(s.workers, t, s'.workers[t], Flying);
      TotalUpdate(s.workers, t, s'.workers[t], Items);
    }
  }

  ghost predicate IsRun(c: Config, run: seq<State>, steps: seq<Step>) {
    Runs.IsRun(s => Init(c, s), (s, l, s') => Next(s, l, s'), run, steps)
  }

  lemma RunsKeepInv(c: Config, run: seq<State>, steps: seq<Step>)
    requires IsRun(c, run, steps)
    ensures forall i :: 0 <= i < |run| ==> Inv(c, run[i])
  {
    forall s | Init(c, s)
      ensures Inv(c, s)
    {
      InitEstablishes(c, s);
    }
    forall s, l, s' | Inv(c, s) && Next(s, l, s')
      ensures Inv(c, s')
    {
      StepPreserves(c, s, l, s');
    }
    Runs.Invariance(s => Init(c, s), (s, l, s') => Next(s, l, s'), s => Inv(c, s), run, steps);
  }

  /** Permits are conserved, so never more than the configured number of workers are in flight, and
      a release never pushes the semaphore past its bound. */
  lemma PermitsAreConserved(c: Config, run: seq<State>, steps: seq<Step>, i: nat)
    requires IsRun(c, run, steps) && i < |run|
    ensures run[i].permits + Total(run[i].workers, Flying) == c.maxConcurrent
    ensures Total(run[i].workers, Flying) <= c.maxConcurrent && 0 <= run[i].permits <= LEAST_MAX
    ensures forall t {:trigger run[i].workers[t]} :: 0 <= t < |run[i].workers| && Enabled(run[i], Release(t)) ==>
              run[i].permits + 1 <= LEAST_MAX
  {
    RunsKeepInv(c, run, steps);
    var s := run[i];
    assert Inv(c, s);
    forall t | 0 <= t < |s.workers| && Enabled(s, Release(t))
      ensures s.permits + 1 <= LEAST_MAX
    {
      TotalAtLeast(s.workers, t, Flying);
    }
  }

  /** Nobody waits without need: a worker at the semaphore can go on exactly while fewer than the
      configured number are in flight, a worker past it always can, and the coordinator waits only for
      workers that have not ended. */
  lemma WorkersWaitOnlyAtTheBound(c: Config, run: seq<State>, steps: seq<Step>, i: nat)
    requires IsRun(c, run, steps) && i < |run|
    ensures |run[i].workers| == c.count
    ensures forall t :: 0 <= t < c.count && run[i].workers[t].Wanting? ==>
              (Enabled(run[i], Acquire(t)) <==> Total(run[i].workers, Flying) < c.maxConcurrent)
    ensures forall t :: 0 <= t < c.count && Flying(run[i].workers[t]) == 1 ==>
              Enabled(run[i], Process(t)) || Enabled(run[i], Release(t))
    ensures run[i].main.Spawning? ==>
              || Enabled(run[i], Spawn)
              || (Enabled(run[i], JoinAll) <==> forall t :: 0 <= t < c.count ==> run[i].workers[t].Ended?)
  {
    PermitsAreConserved(c, run, steps, i);
    RunsKeepInv(c, run, steps);
    assert Inv(c, run[i]);
  }

  lemma ExtendRun(c: Config, run: seq<State>, steps: seq<Step>, l: Step) returns (run': seq<State>, steps': seq<Step>)
    requires IsRun(c, run, steps) && Enabled(run[|steps|], l)
    ensures IsRun(c, run', steps') && steps' == steps + [l]
    ensures run' == run + [Apply(run[|steps|], l)] && run'[|steps'|] == Apply(run[|steps|], l)
  {
    run', steps' := Runs.Extend(s => Init(c, s), (s, l, s') => Next(s, l, s'), run, steps, l, Apply(run[|steps|], l));
  }

  /** The bound is reached: any number of workers up to it can be in flight together. */
  lemma {:induction false} WorkersFlyTogether(c: Config, n: nat) returns (run: seq<State>, steps: seq<Step>)
    requires c.Valid() && n <= c.maxConcurrent && n <= c.count
    ensures IsRun(c, run, steps) && Total(run[|steps|].workers, Flying) == n
    ensures run[|steps|].permits == c.maxConcurrent - n
    ensures run[|steps|].main == Spawning(n) && |run[|steps|].workers| == c.count
  {
    if n == 0 {
      run, steps := [State(c.maxConcurrent, 0, seq(c.count, _ => NotStarted), Spawning(0))], [];
    } else {
      run, steps := WorkersFlyTogether(c, n - 1);
      run, steps := ExtendRun(c, run, steps, Spawn);
      run, steps := ExtendRun(c, run, steps, Acquire(n - 1));
    }
    PermitsAreConserved(c, run, steps, |steps|);
  }

  // ---------------------------------------------------------------- termination

  function Left(w: Worker): nat {
    match w
    case NotStarted => 4
    case Wanting => 3
    case InFlight => 2
    case Processed => 1
    case Ended => 0
  }

  function Measure(s: State): nat {
    Total(s.workers, Left) + if s.main.Spawning? then 1 else 0
  }

  lemma StepDecreases(s: State, step: Step, s': State)
    requires Next(s, step, s') && (step.Spawn? ==> s.workers[s.main.i].NotStarted?)
    ensures Measure(s') < Measure(s)
  {
    if !step.JoinAll? {
      var t := if step.Spawn? then s.main.i else step.t;
      TotalUpdate(s.workers, t, s'.workers[t], Left);
    }
  }

  /** Where no step is possible the coordinator has returned, unless there never was a permit for
      the workers to wait for. */
  lemma StuckMeansReturned(c: Config, s: State)
    requires Inv(c, s) && (c.maxConcurrent >= 1 || c.count == 0)
    requires forall step :: !Enabled(s, step)
    ensures s.main == Returned(c.count)
  {
    assert !Enabled(s, Spawn);
    forall t | 0 <= t < |s.workers|
      ensures Flying(s.workers[t]) == 0
    {
      assert !Enabled(s, Process(t)) && !Enabled(s, Release(t));
    }
    TotalConstant(s.workers, Flying, 0);
    forall t | 0 <= t < |s.workers|
      ensures s.workers[t].Ended?
    {
      assert !Enabled(s, Acquire(t));
    }
    assert !Enabled(s, JoinAll);
  }

  /** Every run is finite; one that can go no further has processed every item exactly when there is
      a permit or nothing to do, and otherwise is deadlocked with nothing processed. */
  lemma RunsTerminate(c: Config, run: seq<State>, steps: seq<Step>)
    requires IsRun(c, run, steps)
    ensures |steps| <= 4 * c.count + 1
    ensures var s := run[|steps|];
            (forall step :: !Enabled(s, step)) ==>
              && (s.main == Returned(c.count) <==> c.maxConcurrent >= 1 || c.count == 0)
              && (s.main != Returned(c.count) ==> s.main.Spawning? && s.processed == 0)
  {
    RunsKeepInv(c, run, steps);
    forall s | Init(c, s)
      ensures Inv(c, s)
    {
      InitEstablishes(c, s);
    }
    forall s, l, s' | Inv(c, s) && Next(s, l, s')
      ensures Inv(c, s') && Measure(s') < Measure(s)
    {
      StepPreserves(c, s, l, s');
      StepDecreases(s, l, s');
    }
    Runs.Termination(s => Init(c, s), (s, l, s') => Next(s, l, s'), s => Inv(c, s),
                     s => Measure(s), run, steps);
    TotalConstant(run[0].workers, Left, 4);
    var s := run[|steps|];
    assert Inv(c, s);
    if forall step :: !Enabled(s, step) {
      if c.maxConcurrent >= 1 || c.count == 0 {
        StuckMeansReturned(c, s);
      } else {
        TotalConstant(s.workers, Items, 0);
      }
    }
  }
}
