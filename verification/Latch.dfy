/** The latch demo: a coordinator starts workers, waits until each has counted down, joins them and
    returns the total they accumulated.
    Line numbers refer to 05_jthread/jthread_demo.h. */
module Latch {
  import opened Totals
  import Runs

  /** A negative number of iterations runs the loop no times, as in the source. */
  datatype Config = Config(workers: nat, iterations: int) {
    function Rounds(): nat {
      if iterations < 0 then 0 else iterations
    }
  }

  /** `Adding(j)`: past line 67, `j` rounds of line 69 done. */
  datatype Worker = NotStarted | Ready | Adding(j: nat) | Ended

  /** `Spawning(n)`, with all `n` workers started, is the coordinator blocked at line 73. */
  datatype Coordinator = Spawning(i: nat) | Joining | Returned(result: int)

  datatype State = State(latch: int, total: int, workers: seq<Worker>, main: Coordinator)

  datatype Step =
    | Spawn            // line 65
    | CountDown(t: nat)  // line 67
    | Add(t: nat)        // lines 69-70
    | End(t: nat)
    | PassLatch        // line 73
    | JoinAll          // lines 75-76

  predicate Init(c: Config, s: State) {
    && s.latch == c.workers && s.total == 0 && s.main == Spawning(0)
    && s.workers == seq(c.workers, _ => NotStarted)
  }

  predicate Enabled(c: Config, s: State, step: Step) {
    match step
    case Spawn => s.main.Spawning? && s.main.i < |s.workers|
    case CountDown(t) => t < |s.workers| && s.workers[t].Ready?
    case Add(t) => t < |s.workers| && s.workers[t].Adding? && s.workers[t].j < c.iterations
    case End(t) => t < |s.workers| && s.workers[t].Adding? && s.workers[t].j >= c.iterations
    case PassLatch => s.main.Spawning? && s.main.i == |s.workers| && s.latch == 0
    case JoinAll => s.main.Joining? && forall t :: 0 <= t < |s.workers| ==> s.workers[t].Ended?
  }

  function Apply(c: Config, s: State, step: Step): State
    requires Enabled(c, s, step)
  {
    match step
    case Spawn => s.(workers := s.workers[s.main.i := Ready], main := Spawning(s.main.i + 1))
    case CountDown(t) => s.(latch := s.latch - 1, workers := s.workers[t := Adding(0)])
    case Add(t) => s.(total := s.total + 1, workers := s.workers[t := Adding(s.workers[t].j + 1)])
    case End(t) => s.(workers := s.workers[t := Ended])
    case PassLatch => s.(main := Joining)
    case JoinAll => s.(main := Returned(s.total))
  }

  predicate Next(c: Config, s: State, step: Step, s': State) {
    Enabled(c, s, step) && s' == Apply(c, s, step)
  }

  /** One for a worker that has not counted down. */
  function Missing(w: Worker): nat {
    if w.NotStarted? || w.Ready? then 1 else 0
  }

  function Progress(w: Worker, rounds: nat): nat {
    match w
    case Adding(j) => j
    case Ended => rounds
    case _ => 0
  }

  function ProgressOf(c: Config): Worker -> nat {
    (w: Worker) => Progress(w, c.Rounds())
  }

  ghost predicate Inv(c: Config, s: State) {
    && |s.workers| == c.workers
    && s.latch == Total(s.workers, Missing)
    && s.total == Total(s.workers, ProgressOf(c))
    && (forall t :: 0 <= t < |s.workers| ==>
          && (s.workers[t].Adding? ==> s.workers[t].j <= c.Rounds())
          && (s.workers[t].NotStarted? <==> s.main.Spawning? && s.main.i <= t))
    && match s.main
       case Spawning(i) => i <= |s.workers|
       case Joining => s.latch == 0
       case Returned(result) => s.latch == 0 && result == c.workers * c.Rounds()
  }

  lemma InitEstablishes(c: Config, s: State)
    requires Init(c, s)
    ensures Inv(c, s)
  {
    TotalConstant(s.workers, Missing, 1);
    TotalConstant(s.workers, ProgressOf(c), 0);
  }

  lemma StepPreserves(c: Config, s: State, step: Step, s': State)
    requires Inv(c, s) && Next(c, s, step, s')
    ensures Inv(c, s')
  {
    if step.JoinAll? {
      TotalConstant(s.workers, ProgressOf(c), c.Rounds());
    } else if !step.PassLatch? {
      var t := if step.Spawn? then s.main.i else step.t;
      TotalUpdate(s.workers, t, s'.workers[t], Missing);
      TotalUpdate(s.workers, t, s'.workers[t], ProgressOf(c));
    }
  }

  ghost predicate IsRun(c: Config, run: seq<State>, steps: seq<Step>) {
    Runs.IsRun(s => Init(c, s), (s, l, s') => Next(c, s, l, s'), run, steps)
  }

  lemma RunsKeepInv(c: Config, run: seq<State>, steps: seq<Step>)
    requires IsRun(c, run, steps)
    ensures forall i :: 0 <= i < |run| ==> Inv(c, run[i])
  {
    forall s | Init(c, s)
      ensures Inv(c, s)
    {
      InitEstablishes(c, s);
    }
    forall s, l, s' | Inv(c, s) && Next(c, s, l, s')
      ensures Inv(c, s')
    {
      StepPreserves(c, s, l, s');
    }
    Runs.Invariance(s => Init(c, s), (s, l, s') => Next(c, s, l, s'), s => Inv(c, s), run, steps);
  }

  /** The coordinator is past the latch only when every worker has counted down; the total is always
      the sum of the workers' progress, and never exceeds what all of them will add. */
  lemma LatchHoldsCoordinator(c: Config, run: seq<State>, steps: seq<Step>, i: nat)
    requires IsRun(c, run, steps) && i < |run|
    ensures !run[i].main.Spawning? ==>
              forall t :: 0 <= t < |run[i].workers| ==> run[i].workers[t].Adding? || run[i].workers[t].Ended?
    ensures run[i].total == Total(run[i].workers, ProgressOf(c)) <= c.workers * c.Rounds()
  {
    RunsKeepInv(c, run, steps);
    var s := run[i];
    assert Inv(c, s);
    TotalBounded(s.workers, ProgressOf(c), c.Rounds());
    if !s.main.Spawning? {
      forall t | 0 <= t < |s.workers|
        ensures Missing(s.workers[t]) == 0
      {
        TotalAtLeast(s.workers, t, Missing);
      }
    }
  }

  /** Nobody waits without need: the coordinator, with every worker started, can pass the latch as soon
      as each has counted down, past it it waits only for workers that have not ended, and a worker under
      way always has a step. */
  lemma OnlyTheLatchBlocks(c: Config, run: seq<State>, steps: seq<Step>, i: nat)
    requires IsRun(c, run, steps) && i < |run|
    ensures |run[i].workers| == c.workers
    ensures run[i].main == Spawning(c.workers) ==>
              (Enabled(c, run[i], PassLatch) <==> forall t :: 0 <= t < c.workers ==> !run[i].workers[t].Ready?)
    ensures run[i].main.Spawning? && run[i].main.i < c.workers ==> Enabled(c, run[i], Spawn)
    ensures run[i].main.Joining? ==>
              (Enabled(c, run[i], JoinAll) <==> forall t :: 0 <= t < c.workers ==> run[i].workers[t].Ended?)
    ensures forall t :: 0 <= t < |run[i].workers| && (run[i].workers[t].Ready? || run[i].workers[t].Adding?) ==>
              Enabled(c, run[i], CountDown(t)) || Enabled(c, run[i], Add(t)) || Enabled(c, run[i], End(t))
  {
    RunsKeepInv(c, run, steps);
    var s := run[i];
    assert Inv(c, s);
    if s.main == Spawning(c.workers) {
      if forall t :: 0 <= t < c.workers ==> !s.workers[t].Ready? {
        TotalConstant(s.workers, Missing, 0);
      } else {
        var t: nat :| t < c.workers && s.workers[t].Ready?;
        TotalAtLeast(s.workers, t, Missing);
      }
    }
  }

  // ---------------------------------------------------------------- termination

  function Left(w: Worker, rounds: nat): nat {
    match w
    case NotStarted => rounds + 3
    case Ready => rounds + 2
    case Adding(j) => if j <= rounds then rounds - j + 1 else 0
    case Ended => 0
  }

  function LeftOf(c: Config): Worker -> nat {
    (w: Worker) => Left(w, c.Rounds())
  }

  function Measure(c: Config, s: State): nat {
    Total(s.workers, LeftOf(c)) + match s.main case Spawning(_) => 2 case Joining => 1 case Returned(_) => 0
  }

  lemma StepDecreases(c: Config, s: State, step: Step, s': State)
    requires Inv(c, s) && Next(c, s, step, s')
    ensures Measure(c, s') < Measure(c, s)
  {
    if !step.PassLatch? && !step.JoinAll? {
      var t := if step.Spawn? then s.main.i else step.t;
      TotalUpdate(s.workers, t, s'.workers[t], LeftOf(c));
    }
  }

  /** No deadlock: where no step is possible the coordinator has returned. */
  lemma StuckMeansReturned(c: Config, s: State)
    requires Inv(c, s)
    requires forall step :: !Enabled(c, s, step)
    ensures s.main == Returned(c.workers * c.Rounds())
  {
    assert !Enabled(c, s, Spawn);
    forall t | 0 <= t < |s.workers|
      ensures s.workers[t].Ended?
    {
      assert !Enabled(c, s, CountDown(t)) && !Enabled(c, s, Add(t)) && !Enabled(c, s, End(t));
    }
    TotalConstant(s.workers, Missing, 0);
    assert !Enabled(c, s, PassLatch) && !Enabled(c, s, JoinAll);
  }

  /** Every run is finite, and one that can go no further returns workers times iterations. */
  lemma RunsTerminate(c: Config, run: seq<State>, steps: seq<Step>)
    requires IsRun(c, run, steps)
    ensures |steps| <= c.workers * (c.Rounds() + 3) + 2
    ensures (forall step :: !Enabled(c, run[|steps|], step)) ==>
              run[|steps|].main == Returned(c.workers * c.Rounds())
  {
    RunsKeepInv(c, run, steps);
    forall s | Init(c, s)
      ensures Inv(c, s)
    {
      InitEstablishes(c, s);
    }
    forall s, l, s' | Inv(c, s) && Next(c, s, l, s')
      ensures Inv(c, s') && Measure(c, s') < Measure(c, s)
    {
      StepPreserves(c, s, l, s');
      StepDecreases(c, s, l, s');
    }
    Runs.Termination(s => Init(c, s), (s, l, s') => Next(c, s, l, s'), s => Inv(c, s),
                     s => Measure(c, s), run, steps);
    TotalConstant(run[0].workers, LeftOf(c), c.Rounds() + 3);
    if forall step :: !Enabled(c, run[|steps|], step) {
      StuckMeansReturned(c, run[|steps|]);
    }
  }
}
