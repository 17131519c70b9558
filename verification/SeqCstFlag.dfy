/** Dekker's flags: two threads looping over `try_enter` and `exit` around the critical section of
    the test. The orderings of the flag accesses are a parameter: one total order of all of them, in
    which every load returns the last store before it; store buffers that drain before the thread's
    next load; and store buffers without that rule, which show what it is for.
    Line numbers refer to 07_atomic_model/atomic_model.h, or to
    test_atomic_model.cpp beside it where they say so. */
module SeqCstFlag {
  import Runs

  /** `TotalOrder` is seq_cst as the standard states it (ISO C++20, section 31.4 [atomics.order]):
      the run itself is the single total order. `Drain` is how a machine with store buffers provides
      it, and `Buffered` is such a machine with nothing provided. */
  datatype Order = TotalOrder | Drain | Buffered

  datatype Config = Config(order: Order) {
    predicate IsSeqCst() {
      !order.Buffered?
    }
  }

  /** Where a thread is: in `try_enter` (lines 147, 150, 151), in the critical section of the test
      (its two updates of the shared counts), and at `exit` (line 156). */
  datatype Pc = Idle | Wants | Retreat | Inside | Counted(c: int) | Recorded | Leaving

  datatype State = State(
    memory: seq<bool>,          // the two flags
    buffers: seq<seq<bool>>,    // each thread's stores to its own flag, oldest first
    pcs: seq<Pc>,
    concurrent: int, max: int)  // the test's concurrent_count and max_concurrent

  datatype Step =
    | StoreTrue(t: nat)     // line 147
    | LoadOther(t: nat)     // line 150
    | StoreFalse(t: nat)    // line 151
    | FetchAdd(t: nat)      // test line 92
    | RecordMax(t: nat)     // test lines 93-97
    | FetchSub(t: nat)      // test line 98
    | Exit(t: nat)          // line 156
    | Flush(t: nat)         // the oldest buffered store of `t` reaches memory

  predicate WellFormed(s: State) {
    |s.memory| == |s.buffers| == |s.pcs| == 2
  }

  const INITIAL := State([false, false], [[], []], [Idle, Idle], 0, 0)

  predicate Enabled(c: Config, s: State, step: Step)
    requires WellFormed(s)
  {
    && step.t < 2
    && var pc := s.pcs[step.t];
       match step
       case StoreTrue(_) => pc.Idle?
       case LoadOther(t) => pc.Wants? && (c.order.Drain? ==> s.buffers[t] == [])
       case StoreFalse(_) => pc.Retreat?
       case FetchAdd(_) => pc.Inside?
       case RecordMax(_) => pc.Counted?
       case FetchSub(_) => pc.Recorded?
       case Exit(_) => pc.Leaving?
       case Flush(t) => s.buffers[t] != []
  }

  function Store(c: Config, s: State, t: nat, value: bool, pc: Pc): State
    requires WellFormed(s) && t < 2
  {
    if c.order.TotalOrder? then s.(memory := s.memory[t := value], pcs := s.pcs[t := pc])
    else s.(buffers := s.buffers[t := s.buffers[t] + [value]], pcs := s.pcs[t := pc])
  }

  function Apply(c: Config, s: State, step: Step): State
    requires WellFormed(s) && Enabled(c, s, step)
  {
    match step
    case StoreTrue(t) => Store(c, s, t, true, Wants)
    case LoadOther(t) => s.(pcs := s.pcs[t := if s.memory[1 - t] then Retreat else Inside])
    case StoreFalse(t) => Store(c, s, t, false, Idle)
    case FetchAdd(t) => s.(concurrent := s.concurrent + 1, pcs := s.pcs[t := Counted(s.concurrent + 1)])
    case RecordMax(t) =>
      var n := s.pcs[t].c;
      s.(max := if n > s.max then n else s.max, pcs := s.pcs[t := Recorded])
    case FetchSub(t) => s.(concurrent := s.concurrent - 1, pcs := s.pcs[t := Leaving])
    case Exit(t) => Store(c, s, t, false, Idle)
    case Flush(t) => s.(memory := s.memory[t := s.buffers[t][0]], buffers := s.buffers[t := s.buffers[t][1..]])
  }

  predicate Next(c: Config, s: State, step: Step, s': State) {
    WellFormed(s) && Enabled(c, s, step) && s' == Apply(c, s, step)
  }

  /** Between a successful `try_enter` and `exit`. */
  predicate Within(pc: Pc) {
    pc.Inside? || pc.Counted? || pc.Recorded? || pc.Leaving?
  }

  /** The value thread `t` last stored to its flag, whether or not it has reached memory. */
  predicate Latest(s: State, t: nat)
    requires WellFormed(s) && t < 2
  {
    if s.buffers[t] == [] then s.memory[t] else s.buffers[t][|s.buffers[t]| - 1]
  }

  predicate Counting(pc: Pc) {
    pc.Counted? || pc.Recorded?
  }

  /** A thread inside has its raised flag in memory; a thread outside last stored a lowered one. */
  predicate ThreadInv(s: State, t: nat)
    requires WellFormed(s) && t < 2
  {
    && (Within(s.pcs[t]) ==> s.memory[t] && s.buffers[t] == [])
    && (Latest(s, t) <==> !s.pcs[t].Idle?)
    && (s.pcs[t].Counted? ==> s.pcs[t].c == 1)
  }

  predicate SharedInv(s: State)
    requires WellFormed(s)
  {
    && !(Within(s.pcs[0]) && Within(s.pcs[1]))
    && s.concurrent == (if Counting(s.pcs[0]) || Counting(s.pcs[1]) then 1 else 0)
    && 0 <= s.max <= 1
    && (forall t :: 0 <= t < 2 && (s.pcs[t].Recorded? || s.pcs[t].Leaving?) ==> s.max == 1)
  }

  predicate Inv(c: Config, s: State) {
    && WellFormed(s) && ThreadInv(s, 0) && ThreadInv(s, 1) && SharedInv(s)
    && (c.order.TotalOrder? ==> s.buffers == [[], []])
  }

  lemma OwnThreadKeeps(c: Config, s: State, step: Step)
    requires c.IsSeqCst() && Inv(c, s) && Enabled(c, s, step)
    ensures ThreadInv(Apply(c, s, step), step.t)
  {
  }

  lemma OtherThreadKeeps(c: Config, s: State, step: Step)
    requires c.IsSeqCst() && Inv(c, s) && Enabled(c, s, step)
    ensures ThreadInv(Apply(c, s, step), 1 - step.t)
  {
  }

  lemma SharedKeeps(c: Config, s: State, step: Step)
    requires c.IsSeqCst() && Inv(c, s) && Enabled(c, s, step)
    ensures SharedInv(Apply(c, s, step))
  {
  }

  lemma StepPreserves(c: Config, s: State, step: Step, s': State)
    requires c.IsSeqCst() && Inv(c, s) && Next(c, s, step, s')
    ensures Inv(c, s')
  {
    OwnThreadKeeps(c, s, step);
    OtherThreadKeeps(c, s, step);
    SharedKeeps(c, s, step);
  }

  ghost predicate IsRun(c: Config, run: seq<State>, steps: seq<Step>) {
    Runs.IsRun(s => s == INITIAL, (s, l, s') => Next(c, s, l, s'), run, steps)
  }

  lemma RunsKeepInv(c: Config, run: seq<State>, steps: seq<Step>)
    requires c.IsSeqCst() && IsRun(c, run, steps)
    ensures forall i :: 0 <= i < |run| ==> Inv(c, run[i])
  {
    forall s, l, s' | Inv(c, s) && Next(c, s, l, s')
      ensures Inv(c, s')
    {
      StepPreserves(c, s, l, s');
    }
    Runs.Invariance(s => s == INITIAL, (s, l, s') => Next(c, s, l, s'), s => Inv(c, s), run, steps);
  }

  /** With seq_cst, in either form, the two threads are never inside together, and the maximum the
      test records never exceeds one. */
  lemma RunsExclude(c: Config, run: seq<State>, steps: seq<Step>, i: nat)
    requires c.IsSeqCst() && IsRun(c, run, steps) && i < |run|
    ensures WellFormed(run[i]) && !(Within(run[i].pcs[0]) && Within(run[i].pcs[1]))
    ensures 0 <= run[i].concurrent <= 1 && 0 <= run[i].max <= 1
  {
    RunsKeepInv(c, run, steps);
    assert Inv(c, run[i]);
  }

  /** And it is exactly one from the first record on. */
  lemma {:induction false} MaximumIsOne(c: Config, run: seq<State>, steps: seq<Step>, i: nat, j: nat)
    requires c.IsSeqCst() && IsRun(c, run, steps) && i < j < |run| && steps[i].RecordMax?
    ensures run[j].max == 1
    decreases j
  {
    RunsKeepInv(c, run, steps);
    assert Inv(c, run[j - 1]) && Inv(c, run[j]);
    assert Next(c, run[j - 1], steps[j - 1], run[j]);
    if i < j - 1 {
      MaximumIsOne(c, run, steps, i, j - 1);
    }
  }

  lemma ExtendRun(c: Config, run: seq<State>, steps: seq<Step>, l: Step) returns (run': seq<State>, steps': seq<Step>)
    requires IsRun(c, run, steps) && WellFormed(run[|steps|]) && Enabled(c, run[|steps|], l)
    ensures IsRun(c, run', steps') && steps' == steps + [l]
    ensures run' == run + [Apply(c, run[|steps|], l)] && WellFormed(run'[|steps'|])
  {
    var s' := Apply(c, run[|steps|], l);
    run', steps' := Runs.Extend(s => s == INITIAL, (s, l, s') => Next(c, s, l, s'), run, steps, l, s');
  }

  /** Without it the two stores can wait in their buffers while both loads miss them: both threads
      enter, and the test's maximum reaches two. */
  lemma BothEnterWithoutDrain() returns (run: seq<State>, steps: seq<Step>)
    ensures IsRun(Config(Buffered), run, steps)
    ensures WellFormed(run[|steps|])
    ensures Within(run[|steps|].pcs[0]) && Within(run[|steps|].pcs[1]) && run[|steps|].max == 2
  {
    var c := Config(Buffered);
    run, steps := [INITIAL], [];
    run, steps := ExtendRun(c, run, steps, StoreTrue(0));
    run, steps := ExtendRun(c, run, steps, StoreTrue(1));
    run, steps := ExtendRun(c, run, steps, LoadOther(0));
    run, steps := ExtendRun(c, run, steps, LoadOther(1));
    run, steps := ExtendRun(c, run, steps, FetchAdd(0));
    run, steps := ExtendRun(c, run, steps, FetchAdd(1));
    run, steps := ExtendRun(c, run, steps, RecordMax(1));
  }

  /** "BOTH see each other" is more than the code gives, or needs: with both flags raised in the end, the
      thread that read first has seen the other's flag down and is inside, and only the second has seen
      the first. That at least one sees the other is what keeps them apart. */
  lemma OnlyOneSeesTheOther() returns (run: seq<State>, steps: seq<Step>)
    ensures IsRun(Config(TotalOrder), run, steps)
    ensures steps == [StoreTrue(0), LoadOther(0), StoreTrue(1), LoadOther(1)]
    ensures run[4].memory == [true, true] && run[4].pcs == [Inside, Retreat]
  {
    var c := Config(TotalOrder);
    run, steps := [INITIAL], [];
    run, steps := ExtendRun(c, run, steps, StoreTrue(0));
    run, steps := ExtendRun(c, run, steps, LoadOther(0));
    run, steps := ExtendRun(c, run, steps, StoreTrue(1));
    run, steps := ExtendRun(c, run, steps, LoadOther(1));
  }

  // ---------------------------------------------------------------- entering alone

  /** Steps `t` needs to get inside when nobody else moves. */
  function Distance(s: State, t: nat): nat
    requires WellFormed(s) && t < 2
  {
    |s.buffers[0]| + |s.buffers[1]|
    + match s.pcs[t] case Retreat => 5 case Idle => 3 case Wants => 1 case _ => 0
  }

  /** Obstruction freedom: whenever the other thread is outside `try_enter` and its section, a thread
      that wants in gets in by its own steps, with nothing but buffered stores reaching memory. */
  lemma {:induction false} EntersAlone(c: Config, run: seq<State>, steps: seq<Step>, t: nat)
    returns (run': seq<State>, steps': seq<Step>)
    requires c.IsSeqCst() && IsRun(c, run, steps) && t < 2 && WellFormed(run[|steps|])
    requires run[|steps|].pcs[1 - t].Idle? && !Within(run[|steps|].pcs[t])
    ensures IsRun(c, run', steps') && steps <= steps' && run <= run'
    ensures forall i :: |steps| <= i < |steps'| ==> steps'[i].t == t || steps'[i].Flush?
    ensures WellFormed(run'[|steps'|]) && run'[|steps'|].pcs[t].Inside?
    decreases Distance(run[|steps|], t)
  {
    var s := run[|steps|];
    RunsKeepInv(c, run, steps);
    assert Inv(c, s);
    var step :=
      if s.buffers[0] != [] then Flush(0)
      else if s.buffers[1] != [] then Flush(1)
      else match s.pcs[t]
        case Idle => StoreTrue(t)
        case Retreat => StoreFalse(t)
        case _ => LoadOther(t);
    run', steps' := ExtendRun(c, run, steps, step);
    if step != LoadOther(t) {
      run', steps' := EntersAlone(c, run', steps', t);
    }
  }

  // ---------------------------------------------------------------- livelock

  /** Extend a run of outsiders by one step that lets nobody in. */
  lemma ExtendOutside(c: Config, run: seq<State>, steps: seq<Step>, l: Step) returns (run': seq<State>, steps': seq<Step>)
    requires IsRun(c, run, steps) && NobodyEnters(run) && Enabled(c, run[|steps|], l)
    requires NobodyWithin(Apply(c, run[|steps|], l))
    ensures IsRun(c, run', steps') && NobodyEnters(run') && steps' == steps + [l]
    ensures run'[|steps'|] == Apply(c, run[|steps|], l)
  {
    run', steps' := ExtendRun(c, run, steps, l);
  }

  predicate NobodyWithin(s: State) {
    WellFormed(s) && !Within(s.pcs[0]) && !Within(s.pcs[1])
  }

  predicate NobodyEnters(run: seq<State>) {
    forall i :: 0 <= i < |run| ==> NobodyWithin(run[i])
  }

  /** One round in lockstep: both raise their flags, both see the other's, both retreat. */
  lemma LockstepRound(c: Config, run: seq<State>, steps: seq<Step>) returns (run': seq<State>, steps': seq<Step>)
    requires c.order.TotalOrder? && IsRun(c, run, steps) && NobodyEnters(run) && run[|steps|] == INITIAL
    ensures IsRun(c, run', steps') && NobodyEnters(run') && run'[|steps'|] == INITIAL
    ensures |steps'| == |steps| + 6
  {
    run', steps' := ExtendOutside(c, run, steps, StoreTrue(0));
    run', steps' := ExtendOutside(c, run', steps', StoreTrue(1));
    run', steps' := ExtendOutside(c, run', steps', LoadOther(0));
    run', steps' := ExtendOutside(c, run', steps', LoadOther(1));
    run', steps' := ExtendOutside(c, run', steps', StoreFalse(0));
    run', steps' := ExtendOutside(c, run', steps', StoreFalse(1));
  }

  /** Livelock: even under the single total order, for any number of rounds there is a run in which
      both threads keep trying, always step back, and end where they began. */
  lemma {:induction false} MayLivelock(c: Config, rounds: nat) returns (run: seq<State>, steps: seq<Step>)
    requires c.order.TotalOrder?
    ensures IsRun(c, run, steps) && |steps| == 6 * rounds
    ensures NobodyEnters(run) && run[|steps|] == INITIAL
  {
    if rounds == 0 {
      run, steps := [INITIAL], [];
    } else {
      run, steps := MayLivelock(c, rounds - 1);
      run, steps := LockstepRound(c, run, steps);
    }
  }
}
