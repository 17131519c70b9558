/** How a machine with store buffers provides the single total order: if a buffer drains before its
    thread's next load, every run of the machine is a totally ordered run in which each store takes
    its place when it reaches memory, and every totally ordered run is one of the machine. */
module SeqCstDrain {
  import opened SeqCstFlag
  import Runs

  const ORDERED := Config(TotalOrder)
  const DRAINED := Config(Drain)

  /** A thread at `early`, with the stores of `buffer` still to be made, gets to `late`. */
  predicate Leads(early: Pc, buffer: seq<bool>, late: Pc)
    decreases |buffer|
  {
    if buffer == [] then early == late
    else if buffer[0] then early.Idle? && Leads(Wants, buffer[1..], late)
    else (early.Retreat? || early.Leaving?) && Leads(Idle, buffer[1..], late)
  }

  /** `o`, of the totally ordered machine, is `d` with its buffered stores not yet made. */
  predicate Behind(o: State, d: State) {
    && WellFormed(o) && WellFormed(d)
    && o.memory == d.memory && o.buffers == [[], []]
    && o.concurrent == d.concurrent && o.max == d.max
    && Leads(o.pcs[0], d.buffers[0], d.pcs[0]) && Leads(o.pcs[1], d.buffers[1], d.pcs[1])
  }

  /** With stores to be made a thread is where a store leaves it. */
  lemma {:induction false} StoresEndOutside(early: Pc, buffer: seq<bool>, late: Pc)
    requires Leads(early, buffer, late) && buffer != []
    ensures late.Idle? || late.Wants?
    decreases |buffer|
  {
    if |buffer| > 1 {
      StoresEndOutside(if buffer[0] then Wants else Idle, buffer[1..], late);
    }
  }

  /** One more store at the end. */
  lemma {:induction false} StoreIsAppended(early: Pc, buffer: seq<bool>, late: Pc, value: bool)
    requires Leads(early, buffer, late) && if value then late.Idle? else late.Retreat? || late.Leaving?
    ensures Leads(early, buffer + [value], if value then Wants else Idle)
    decreases |buffer|
  {
    if buffer != [] {
      assert (buffer + [value])[1..] == buffer[1..] + [value];
      StoreIsAppended(if buffer[0] then Wants else Idle, buffer[1..], late, value);
    }
  }

  /** The store of `t` that reaches memory, as a step of the thread that is behind. */
  function StoreOf(o: State, t: nat, value: bool): Step
    requires WellFormed(o) && t < 2
  {
    if value then StoreTrue(t) else if o.pcs[t].Retreat? then StoreFalse(t) else Exit(t)
  }

  predicate IsStore(step: Step) {
    step.StoreTrue? || step.StoreFalse? || step.Exit?
  }

  lemma BufferedStore(o: State, d: State, step: Step)
    requires Behind(o, d) && IsStore(step) && Enabled(DRAINED, d, step)
    ensures Behind(o, Apply(DRAINED, d, step))
  {
    StoreIsAppended(o.pcs[step.t], d.buffers[step.t], d.pcs[step.t], step.StoreTrue?);
  }

  lemma FlushedStore(o: State, d: State, t: nat)
    requires Behind(o, d) && Enabled(DRAINED, d, Flush(t))
    ensures Enabled(ORDERED, o, StoreOf(o, t, d.buffers[t][0]))
    ensures Behind(Apply(ORDERED, o, StoreOf(o, t, d.buffers[t][0])), Apply(DRAINED, d, Flush(t)))
  {
  }

  /** Everything else happens in both machines at once: such a thread has nothing buffered. */
  lemma CommonStep(o: State, d: State, step: Step)
    requires Behind(o, d) && !IsStore(step) && !step.Flush? && Enabled(DRAINED, d, step)
    ensures Enabled(ORDERED, o, step) && Behind(Apply(ORDERED, o, step), Apply(DRAINED, d, step))
  {
    if d.buffers[step.t] != [] {
      StoresEndOutside(o.pcs[step.t], d.buffers[step.t], d.pcs[step.t]);
      assert false;
    }
  }

  /** Every drained run has a totally ordered run behind it: a store counts when it is flushed. */
  lemma {:induction false} DrainedRunsAreOrdered(run: seq<State>, steps: seq<Step>)
    returns (run': seq<State>, steps': seq<Step>)
    requires IsRun(DRAINED, run, steps)
    ensures IsRun(ORDERED, run', steps') && Behind(run'[|steps'|], run[|steps|])
    decreases |steps|
  {
    var n := |steps|;
    if n == 0 {
      run', steps' := [INITIAL], [];
    } else {
      Runs.DropLast(s => s == INITIAL, (s, l, s') => Next(DRAINED, s, l, s'), run, steps);
      run', steps' := DrainedRunsAreOrdered(run[..n], steps[..n - 1]);
      var o, d, step := run'[|steps'|], run[n - 1], steps[n - 1];
      if IsStore(step) {
        BufferedStore(o, d, step);
      } else if step.Flush? {
        FlushedStore(o, d, step.t);
        run', steps' := ExtendRun(ORDERED, run', steps', StoreOf(o, step.t, d.buffers[step.t][0]));
      } else {
        CommonStep(o, d, step);
        run', steps' := ExtendRun(ORDERED, run', steps', step);
      }
    }
  }

  lemma StoreThenFlush(s: State, step: Step)
    requires WellFormed(s) && s.buffers == [[], []] && IsStore(step) && Enabled(DRAINED, s, step)
    ensures var stored := Apply(DRAINED, s, step);
            && WellFormed(stored) && Enabled(DRAINED, stored, Flush(step.t))
            && Apply(DRAINED, stored, Flush(step.t)) == Apply(ORDERED, s, step)
  {
    var stored := Apply(DRAINED, s, step);
    assert stored.buffers[step.t] == [step.StoreTrue?] && stored.buffers[step.t][1..] == [] == s.buffers[step.t];
    assert Apply(DRAINED, stored, Flush(step.t)).buffers == s.buffers;
  }

  /** And every totally ordered run is a drained one, if each store is flushed at once. */
  lemma {:induction false} OrderedRunsAreDrained(run: seq<State>, steps: seq<Step>)
    returns (run': seq<State>, steps': seq<Step>)
    requires IsRun(ORDERED, run, steps)
    ensures IsRun(DRAINED, run', steps') && run'[|steps'|] == run[|steps|]
    decreases |steps|
  {
    var n := |steps|;
    if n == 0 {
      run', steps' := [INITIAL], [];
    } else {
      Runs.DropLast(s => s == INITIAL, (s, l, s') => Next(ORDERED, s, l, s'), run, steps);
      run', steps' := OrderedRunsAreDrained(run[..n], steps[..n - 1]);
      NothingBuffered(run, steps, n - 1);
      var s, step := run[n - 1], steps[n - 1];
      assert run'[|steps'|] == s && Next(ORDERED, s, step, run[n]);
      run', steps' := ExtendRun(DRAINED, run', steps', step);
      if IsStore(step) {
        StoreThenFlush(s, step);
        run', steps' := ExtendRun(DRAINED, run', steps', Flush(step.t));
      }
    }
  }

  lemma NothingBuffered(run: seq<State>, steps: seq<Step>, i: nat)
    requires IsRun(ORDERED, run, steps) && i < |run|
    ensures WellFormed(run[i]) && run[i].buffers == [[], []]
  {
    RunsKeepInv(ORDERED, run, steps);
    assert Inv(ORDERED, run[i]);
  }

  /** The machine does delay stores: thread 1 has raised its flag before thread 0 looks, and thread 0
      still gets inside, for in the order of the flushes it looked first. */
  lemma StoreMayWait() returns (run: seq<State>, steps: seq<Step>)
    ensures IsRun(DRAINED, run, steps) && steps == [StoreTrue(0), Flush(0), StoreTrue(1), LoadOther(0), Flush(1)]
    ensures run[3].pcs == [Wants, Wants] && run[4].pcs == [Inside, Wants] && run[5].memory == [true, true]
  {
    run, steps := [INITIAL], [];
    run, steps := ExtendRun(DRAINED, run, steps, StoreTrue(0));
    run, steps := ExtendRun(DRAINED, run, steps, Flush(0));
    run, steps := ExtendRun(DRAINED, run, steps, StoreTrue(1));
    run, steps := ExtendRun(DRAINED, run, steps, LoadOther(0));
    run, steps := ExtendRun(DRAINED, run, steps, Flush(1));
  }

  /** So the two are the same to the threads: where no store is buffered, a state is reachable on one
      machine exactly when it is on the other. */
  ghost predicate Reachable(c: Config, s: State) {
    exists run: seq<State>, steps: seq<Step> :: IsRun(c, run, steps) && run[|steps|] == s
  }

  lemma SameReachableStates(s: State)
    requires s.buffers == [[], []]
    ensures Reachable(DRAINED, s) <==> Reachable(ORDERED, s)
  {
    if Reachable(DRAINED, s) {
      var run: seq<State>, steps: seq<Step> :| IsRun(DRAINED, run, steps) && run[|steps|] == s;
      var run', steps' := DrainedRunsAreOrdered(run, steps);
      var o := run'[|steps'|];
      assert o.pcs == s.pcs;
      assert o == s;
    }
    if Reachable(ORDERED, s) {
      var run: seq<State>, steps: seq<Step> :| IsRun(ORDERED, run, steps) && run[|steps|] == s;
      var run', steps' := OrderedRunsAreDrained(run, steps);
    }
  }
}
