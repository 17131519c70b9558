/** The spinlock and its client: any number of threads, each incrementing a plain counter under the
    lock a fixed number of times, on release/acquire memory.

    `test_and_set` is a read-modify-write: it reads the newest message of the flag and, not being a
    release, passes on the view it found (the release sequence of the last `clear`). Nothing can be
    ordered between it and the message it read, so `clear` too becomes the newest message.
    Line numbers refer to 07_atomic_model/atomic_model.h. */
module Spinlock {
  import opened WeakMemory
  import opened Totals
  import Runs

  const FLAG := 0

  /** `threads` threads, `rounds` critical sections each. */
  datatype Config = Config(threads: nat, rounds: nat)

  /** Where a thread is: at line 76, inside the guard before, between and after the load and the
      store of `++counter`. */
  datatype Pc = Outside | Entered | Loaded(value: int) | Incremented

  datatype Thread = Thread(pc: Pc, view: View, done: nat)

  datatype State = State(
    flag: seq<Message<bool>>, threads: seq<Thread>,
    counter: int, access: seq<nat>,  // each thread's latest access to the counter
    raced: bool)

  datatype Step =
    | TestAndSet(t: nat)    // line 76
    | ReadCounter(t: nat)   // the load of `++counter`
    | WriteCounter(t: nat)  // its store
    | Clear(t: nat)         // line 80, run by ~Guard

  predicate WellFormed(c: Config, s: State) {
    && |s.flag| > 0 && |s.threads| == c.threads == |s.access|
    && (forall t :: 0 <= t < |s.threads| ==> Shaped(s.threads[t].view, 1, c.threads))
    && (forall i :: 0 <= i < |s.flag| ==> Shaped(s.flag[i].view, 1, c.threads))
  }

  predicate Init(c: Config, s: State) {
    && s.flag == [Message(false, Bottom(1, c.threads))]
    && s.threads == seq(c.threads, _ => Thread(Outside, Bottom(1, c.threads), 0))
    && s.counter == 0 && s.access == Zeros(c.threads) && !s.raced
  }

  predicate Enabled(c: Config, s: State, step: Step) {
    && step.t < |s.threads|
    && var th := s.threads[step.t];
       match step
       case TestAndSet(_) => th.pc.Outside? && th.done < c.rounds
       case ReadCounter(_) => th.pc.Entered?
       case WriteCounter(_) => th.pc.Loaded?
       case Clear(_) => th.pc.Incremented?
  }

  function Newest(s: State): Message<bool>
    requires |s.flag| > 0
  {
    s.flag[|s.flag| - 1]
  }

  function Apply(c: Config, s: State, step: Step): State
    requires WellFormed(c, s) && Enabled(c, s, step)
  {
    var t := step.t;
    var th := s.threads[t];
    match step
    case TestAndSet(_) =>
      var m := Newest(s);
      var view := ReadRelaxed(ReadAcquire(th.view, FLAG, |s.flag| - 1, m.view), FLAG, |s.flag|);
      s.(flag := s.flag + [Message(true, m.view)],
         threads := s.threads[t := th.(pc := if m.value then Outside else Entered, view := view)])
    case ReadCounter(_) =>
      var view := Tick(th.view, t);
      s.(threads := s.threads[t := th.(pc := Loaded(s.counter), view := view)],
         access := s.access[t := view.clock[t]],
         raced := s.raced || !Covers(th.view, s.access))
    case WriteCounter(_) =>
      var view := Tick(th.view, t);
      s.(threads := s.threads[t := th.(pc := Incremented, view := view)],
         counter := th.pc.value + 1,
         access := s.access[t := view.clock[t]],
         raced := s.raced || !Covers(th.view, s.access))
    case Clear(_) =>
      var view := ReadRelaxed(th.view, FLAG, |s.flag|);
      s.(flag := s.flag + [Message(false, view)],
         threads := s.threads[t := th.(pc := Outside, view := view, done := th.done + 1)])
  }

  predicate Next(c: Config, s: State, step: Step, s': State) {
    WellFormed(c, s) && Enabled(c, s, step) && s' == Apply(c, s, step)
  }

  /** Thread `t` is between `lock` and `unlock`. */
  predicate Holding(s: State, t: int) {
    0 <= t < |s.threads| && !s.threads[t].pc.Outside?
  }

  /** Increments of the counter a thread has stored. */
  function Share(th: Thread): nat {
    th.done + if th.pc.Incremented? then 1 else 0
  }

  /** Accesses to the counter a thread has made: two for an increment, one for half of one. */
  function Accesses(th: Thread): nat {
    2 * Share(th) + if th.pc.Loaded? then 1 else 0
  }

  /** The view knows of no access that has not happened. */
  predicate Grounded(v: View, access: seq<nat>)
    requires |access| == |v.clock|
  {
    forall t :: 0 <= t < |access| ==> v.clock[t] <= access[t]
  }

  /** The record is exact, each thread knows its own accesses, and nobody knows of more. */
  predicate Recorded(c: Config, s: State)
    requires WellFormed(c, s)
  {
    && (forall t :: 0 <= t < |s.threads| ==>
          s.access[t] == Accesses(s.threads[t]) == s.threads[t].view.clock[t])
    && (forall t :: 0 <= t < |s.threads| ==> Grounded(s.threads[t].view, s.access))
    && (forall i :: 0 <= i < |s.flag| ==> Grounded(s.flag[i].view, s.access))
  }

  ghost predicate Safe(c: Config, s: State) {
    && WellFormed(c, s) && !s.raced
    && (forall t, u :: Holding(s, t) && Holding(s, u) ==> t == u)
    && (Newest(s).value <==> exists t :: Holding(s, t))
    // the lock hands over knowledge of every access to the counter
    && (forall t :: Holding(s, t) ==> Covers(s.threads[t].view, s.access))
    && (!Newest(s).value ==> Covers(Newest(s).view, s.access))
    && s.counter == Total(s.threads, Share)
    && (forall t :: 0 <= t < |s.threads| ==>
          && (s.threads[t].pc.Loaded? ==> s.threads[t].pc.value == s.counter)
          && s.threads[t].done <= c.rounds
          && (Holding(s, t) ==> s.threads[t].done < c.rounds))
  }

  ghost predicate Inv(c: Config, s: State) {
    Safe(c, s) && Recorded(c, s)
  }

  lemma InitEstablishes(c: Config, s: State)
    requires Init(c, s)
    ensures Inv(c, s)
  {
    TotalConstant(s.threads, Share, 0);
  }

  lemma TestAndSetKeepsSafe(c: Config, s: State, step: Step)
    requires Safe(c, s) && step.TestAndSet? && Enabled(c, s, step)
    ensures Safe(c, Apply(c, s, step))
  {
    var s' := Apply(c, s, step);
    TotalUpdate(s.threads, step.t, s'.threads[step.t], Share);
    assert Newest(s') == Message(true, Newest(s).view);
    if Newest(s).value {
      var u :| Holding(s, u);
      assert Holding(s', u);
    } else {
      assert Holding(s', step.t);
    }
    forall u | Holding(s', u)
      ensures u == step.t || Holding(s, u)
    {
    }
  }

  /** Only the holder moves, so the others still hold nothing. */
  lemma OthersAreOutside(c: Config, s: State, step: Step, u: int)
    requires Safe(c, s) && !step.TestAndSet? && Enabled(c, s, step) && Holding(Apply(c, s, step), u)
    ensures u == step.t
  {
    assert Holding(s, step.t);
    assert u != step.t ==> Holding(s, u);
  }

  /** A thread that knows of every access still does after one of its own. */
  lemma OwnAccessIsCovered(v: View, access: seq<nat>, t: nat)
    requires |access| == |v.clock| && t < |access| && Covers(v, access)
    ensures Covers(Tick(v, t), access[t := Tick(v, t).clock[t]])
  {
  }

  lemma CountKeepsSafe(c: Config, s: State, step: Step)
    requires Safe(c, s) && (step.ReadCounter? || step.WriteCounter?) && Enabled(c, s, step)
    ensures Safe(c, Apply(c, s, step))
  {
    var s' := Apply(c, s, step);
    var t := step.t;
    ApplyWellFormed(c, s, step);
    TotalUpdate(s.threads, t, s'.threads[t], Share);
    assert Holding(s, t) && Holding(s', t);
    OwnAccessIsCovered(s.threads[t].view, s.access, t);
    assert s'.flag == s.flag && Newest(s').value;
    forall u | Holding(s', u)
      ensures u == t
    {
      OthersAreOutside(c, s, step, u);
    }
    forall u | 0 <= u < |s'.threads| && s'.threads[u].pc.Loaded?
      ensures s'.threads[u].pc.value == s'.counter
    {
      assert Holding(s', u);
    }
  }

  lemma ClearKeepsSafe(c: Config, s: State, step: Step)
    requires Safe(c, s) && step.Clear? && Enabled(c, s, step)
    ensures Safe(c, Apply(c, s, step))
  {
    var s' := Apply(c, s, step);
    TotalUpdate(s.threads, step.t, s'.threads[step.t], Share);
    assert Holding(s, step.t);
    forall u
      ensures !Holding(s', u)
    {
      if Holding(s', u) {
        OthersAreOutside(c, s, step, u);
      }
    }
  }

  lemma ApplyWellFormed(c: Config, s: State, step: Step)
    requires WellFormed(c, s) && Enabled(c, s, step)
    ensures WellFormed(c, Apply(c, s, step))
  {
  }

  /** A step records what it does, and takes nothing back. */
  lemma StepRecords(c: Config, s: State, step: Step)
    requires WellFormed(c, s) && Recorded(c, s) && Enabled(c, s, step)
    ensures var s' := Apply(c, s, step);
            |s'.access| == |s.access| && forall t :: 0 <= t < |s.access| ==> s.access[t] <= s'.access[t]
    ensures var th := Apply(c, s, step).threads[step.t];
            Apply(c, s, step).access[step.t] == Accesses(th) == th.view.clock[step.t]
  {
  }

  /** Knowledge comes from one's own accesses and from the newest message. */
  lemma StepKeepsGrounded(c: Config, s: State, step: Step)
    requires WellFormed(c, s) && Recorded(c, s) && Enabled(c, s, step)
    ensures WellFormed(c, Apply(c, s, step))
    ensures Grounded(Apply(c, s, step).threads[step.t].view, Apply(c, s, step).access)
  {
    StepRecords(c, s, step);
    assert Grounded(s.threads[step.t].view, s.access) && Grounded(Newest(s).view, s.access);
  }

  lemma RecordPreserves(c: Config, s: State, step: Step)
    requires WellFormed(c, s) && Recorded(c, s) && Enabled(c, s, step)
    ensures WellFormed(c, Apply(c, s, step)) && Recorded(c, Apply(c, s, step))
  {
    var s' := Apply(c, s, step);
    ApplyWellFormed(c, s, step);
    StepRecords(c, s, step);
    StepKeepsGrounded(c, s, step);
    forall u | 0 <= u < |s'.threads|
      ensures Grounded(s'.threads[u].view, s'.access)
    {
      if u != step.t {
        assert Grounded(s.threads[u].view, s.access);
      }
    }
    forall i | 0 <= i < |s'.flag|
      ensures Grounded(s'.flag[i].view, s'.access)
    {
      if i < |s.flag| {
        assert Grounded(s.flag[i].view, s.access);
      } else {
        assert Grounded(Newest(s).view, s.access);
      }
    }
  }

  lemma StepPreserves(c: Config, s: State, step: Step, s': State)
    requires Inv(c, s) && Next(c, s, step, s')
    ensures Inv(c, s')
  {
    RecordPreserves(c, s, step);
    match step
    case TestAndSet(_) => TestAndSetKeepsSafe(c, s, step);
    case Clear(_) => ClearKeepsSafe(c, s, step);
    case _ => CountKeepsSafe(c, s, step);
  }

  ghost predicate IsRun(c: Config, run: seq<State>, steps: seq<Step>) {
    Runs.IsRun(s => Init(c, s), (s, l, s') => Next(c, s, l, s'), run, steps)
  }

  lemma RunsKeepInv(c: Config, run: seq<State>, steps: seq<Step>)
    requires IsRun(c, run, steps)
    ensures forall i :: 0 <= i < |run| ==> Inv(c, run[i])
  {
    forall s | Init(c, s)
      ensures Inv(c, s)
    {
      InitEstablishes(c, s);
    }
    forall s, l, s' | Inv(c, s) && Next(c, s, l, s')
      ensures Inv(c, s')
    {
      StepPreserves(c, s, l, s');
    }
    Runs.Invariance(s => Init(c, s), (s, l, s') => Next(c, s, l, s'), s => Inv(c, s), run, steps);
  }

  /** Every thread has left the lock for the last time. */
  predicate Finished(c: Config, s: State) {
    forall t :: 0 <= t < |s.threads| ==> s.threads[t].pc.Outside? && s.threads[t].done == c.rounds
  }

  /** A view that covers every access, and knows of no other, is the record itself. */
  lemma HolderKnowsAll(c: Config, s: State)
    requires Inv(c, s)
    ensures forall t :: Holding(s, t) ==> s.threads[t].view.clock == s.access
  {
    forall t | Holding(s, t)
      ensures s.threads[t].view.clock == s.access
    {
      assert Covers(s.threads[t].view, s.access) && Grounded(s.threads[t].view, s.access);
    }
  }

  /** On every run: mutual exclusion, the flag set exactly while some thread holds the lock, no data
      race on the counter, every earlier access to it, two for each increment of each thread, in the
      holder's view, and a final count of threads times rounds. */
  lemma RunsAreSafe(c: Config, run: seq<State>, steps: seq<Step>, i: nat)
    requires IsRun(c, run, steps) && i < |run|
    ensures forall t, u :: Holding(run[i], t) && Holding(run[i], u) ==> t == u
    ensures WellFormed(c, run[i]) && (Newest(run[i]).value <==> exists t :: Holding(run[i], t))
    ensures !run[i].raced && forall t :: Holding(run[i], t) ==> run[i].threads[t].view.clock == run[i].access
    ensures forall t :: 0 <= t < c.threads ==> run[i].access[t] == Accesses(run[i].threads[t])
    ensures Finished(c, run[i]) ==> run[i].counter == c.threads * c.rounds
  {
    RunsKeepInv(c, run, steps);
    var s := run[i];
    assert Inv(c, s);
    HolderKnowsAll(c, s);
    if Finished(c, s) {
      TotalConstant(s.threads, Share, c.rounds);
    }
  }

  // ---------------------------------------------------------------- what the orderings buy

  lemma ExtendRun(c: Config, run: seq<State>, steps: seq<Step>, l: Step) returns (run': seq<State>, steps': seq<Step>)
    requires IsRun(c, run, steps) && WellFormed(c, run[|steps|]) && Enabled(c, run[|steps|], l)
    ensures IsRun(c, run', steps') && steps' == steps + [l]
    ensures run' == run + [Apply(c, run[|steps|], l)] && WellFormed(c, run'[|steps'|])
  {
    var s' := Apply(c, run[|steps|], l);
    run', steps' := Runs.Extend(s => Init(c, s), (s, l, s') => Next(c, s, l, s'), run, steps, l, s');
  }

  /** The run in which thread 0 takes the lock. */
  lemma FirstLocks(c: Config) returns (run: seq<State>, steps: seq<Step>)
    requires c.threads >= 2 && c.rounds >= 1
    ensures IsRun(c, run, steps) && steps == [TestAndSet(0)] && WellFormed(c, run[1])
    ensures var s, b := run[1], Bottom(1, c.threads);
            && Newest(s).value && s.access == Zeros(c.threads)
            && s.threads[0].pc == Entered && s.threads[0].view.clock == Zeros(c.threads)
            && s.threads[1] == Thread(Outside, b, 0)
  {
    var b := Bottom(1, c.threads);
    run := [State([Message(false, b)], seq(c.threads, _ => Thread(Outside, b, 0)), 0, Zeros(c.threads), false)];
    steps := [];
    run, steps := ExtendRun(c, run, steps, TestAndSet(0));
  }

  /** The run in which thread 0 increments the counter once. */
  lemma FirstIncrements(c: Config) returns (run: seq<State>, steps: seq<Step>)
    requires c.threads >= 2 && c.rounds >= 1
    ensures IsRun(c, run, steps) && WellFormed(c, run[|steps|])
    ensures var s := run[|steps|];
            && !Newest(s).value && s.counter == 1 && s.access == Zeros(c.threads)[0 := 2]
            && Newest(s).view.clock == s.access && s.threads[1] == Thread(Outside, Bottom(1, c.threads), 0)
  {
    run, steps := FirstLocks(c);
    run, steps := ExtendRun(c, run, steps, ReadCounter(0));
    run, steps := ExtendRun(c, run, steps, WriteCounter(0));
    run, steps := ExtendRun(c, run, steps, Clear(0));
  }

  /** The orderings of the flag are what excludes the race: a second thread may find the lock free,
      and then its view contains the first one's increment because the `test_and_set` acquires what
      the `clear` released, and would not if either ordering were relaxed. */
  lemma AcquireAndReleaseAreNeeded(c: Config) returns (run: seq<State>, steps: seq<Step>)
    requires c.threads >= 2 && c.rounds >= 1
    ensures IsRun(c, run, steps)
    ensures var s := run[|steps|];
            && WellFormed(c, s) && Enabled(c, s, TestAndSet(1)) && !Newest(s).value && s.counter == 1
            && var view, ts := s.threads[1].view, |s.flag| - 1;
               && Covers(ReadAcquire(view, FLAG, ts, Newest(s).view), s.access)
               && !Covers(ReadRelaxed(view, FLAG, ts), s.access)
               && !Covers(ReadAcquire(view, FLAG, ts, Bottom(1, c.threads)), s.access)
  {
    run, steps := FirstIncrements(c);
    var s := run[|steps|];
    var view, ts, b := s.threads[1].view, |s.flag| - 1, Bottom(1, c.threads);
    assert s.access[0] == 2 && ReadRelaxed(view, FLAG, ts).clock[0] == 0 && ReadAcquire(view, FLAG, ts, b).clock[0] == 0;
  }

  /** `b` counts every access that `a` does. */
  predicate AtMost(a: seq<nat>, b: seq<nat>) {
    |a| == |b| && forall t :: 0 <= t < |a| ==> a[t] <= b[t]
  }

  /** The flag's newest message never publishes less than it did. */
  lemma FlagPassesOn(c: Config, s: State, step: Step, known: seq<nat>)
    requires Inv(c, s) && Enabled(c, s, step)
    requires AtMost(known, s.access) && AtMost(known, Newest(s).view.clock)
    ensures WellFormed(c, Apply(c, s, step))
    ensures AtMost(known, Apply(c, s, step).access) && AtMost(known, Newest(Apply(c, s, step)).view.clock)
  {
    ApplyWellFormed(c, s, step);
    StepRecords(c, s, step);
    if step.Clear? {
      assert Holding(s, step.t);
    }
  }

  lemma FlagPassesOnInRun(c: Config, run: seq<State>, steps: seq<Step>, i: nat, known: seq<nat>)
    requires IsRun(c, run, steps) && i < |steps| && WellFormed(c, run[i])
    requires AtMost(known, run[i].access) && AtMost(known, Newest(run[i]).view.clock)
    ensures WellFormed(c, run[i + 1])
    ensures AtMost(known, run[i + 1].access) && AtMost(known, Newest(run[i + 1]).view.clock)
  {
    RunsKeepInv(c, run, steps);
    assert Inv(c, run[i]) && Next(c, run[i], steps[i], run[i + 1]);
    FlagPassesOn(c, run[i], steps[i], known);
  }

  lemma UnlockPublishes(c: Config, run: seq<State>, steps: seq<Step>, k: nat)
    requires IsRun(c, run, steps) && k < |steps| && steps[k].Clear?
    ensures WellFormed(c, run[k + 1]) && run[k + 1].access == run[k].access
    ensures AtMost(run[k].access, Newest(run[k + 1]).view.clock)
  {
    RunsKeepInv(c, run, steps);
    assert Inv(c, run[k]) && Next(c, run[k], steps[k], run[k + 1]);
    ApplyWellFormed(c, run[k], steps[k]);
    assert Holding(run[k], steps[k].t);
  }

  lemma {:induction false} UnlockIsPassedOn(c: Config, run: seq<State>, steps: seq<Step>, k: nat, j: nat)
    requires IsRun(c, run, steps) && k < j < |run| && steps[k].Clear?
    ensures WellFormed(c, run[j]) && AtMost(run[k].access, run[j].access)
    ensures AtMost(run[k].access, Newest(run[j]).view.clock)
    decreases j
  {
    if k < j - 1 {
      UnlockIsPassedOn(c, run, steps, k, j - 1);
      FlagPassesOnInRun(c, run, steps, j - 1, run[k].access);
    } else {
      UnlockPublishes(c, run, steps, k);
    }
  }

  /** A try, successful or not, teaches its thread what the flag's newest message publishes; and no
      step makes a thread forget. */
  lemma StepTeaches(c: Config, s: State, step: Step, t: nat)
    requires WellFormed(c, s) && Enabled(c, s, step) && t < |s.threads|
    ensures AtMost(s.threads[t].view.clock, Apply(c, s, step).threads[t].view.clock)
    ensures step == TestAndSet(t) ==> AtMost(Newest(s).view.clock, Apply(c, s, step).threads[t].view.clock)
  {
  }

  /** `clear` synchronises with every later `test_and_set`: whatever was done to the counter before
      some unlock, a thread that has since tried for the lock knows of, whether or not it got it. */
  lemma {:induction false} EveryTryAcquires(c: Config, run: seq<State>, steps: seq<Step>, k: nat, i: nat, j: nat)
    requires IsRun(c, run, steps) && k < i < j < |run| && steps[k].Clear? && steps[i].TestAndSet?
    ensures steps[i].t < |run[j].threads| && AtMost(run[k].access, run[j].threads[steps[i].t].view.clock)
    decreases j
  {
    assert Next(c, run[j - 1], steps[j - 1], run[j]);
    if i < j - 1 {
      EveryTryAcquires(c, run, steps, k, i, j - 1);
    } else {
      UnlockIsPassedOn(c, run, steps, k, i);
    }
    StepTeaches(c, run[j - 1], steps[j - 1], steps[i].t);
  }

  /** A waiting thread is not blocked but spins: for any number of tries there is a run in which
      thread 1 makes them all, and fails, while thread 0 holds the lock. */
  lemma {:induction false} MaySpin(c: Config, tries: nat) returns (run: seq<State>, steps: seq<Step>)
    requires c.threads >= 2 && c.rounds >= 1
    ensures IsRun(c, run, steps) && WellFormed(c, run[|steps|])
    ensures steps == [TestAndSet(0)] + seq(tries, _ => TestAndSet(1))
    ensures Holding(run[|steps|], 0) && Newest(run[|steps|]).value && run[|steps|].threads[1].pc == Outside
    ensures run[|steps|].threads[1].done == 0
  {
    if tries == 0 {
      run, steps := FirstLocks(c);
    } else {
      run, steps := MaySpin(c, tries - 1);
      run, steps := ExtendRun(c, run, steps, TestAndSet(1));
    }
  }

  // ---------------------------------------------------------------- progress

  /** Steps a thread still needs if it never has to spin. */
  function Left(c: Config, th: Thread): nat {
    var rank := match th.pc case Outside => 0 case Entered => 1 case Loaded(_) => 2 case Incremented => 3;
    if th.done < c.rounds then 4 * (c.rounds - th.done) - rank else 0
  }

  function LeftOf(c: Config): Thread -> nat {
    th => Left(c, th)
  }

  /** What thread `t` does next, spinning excepted. */
  function Helpful(s: State, t: nat): Step
    requires t < |s.threads|
  {
    match s.threads[t].pc
    case Outside => TestAndSet(t)
    case Entered => ReadCounter(t)
    case Loaded(_) => WriteCounter(t)
    case Incremented => Clear(t)
  }

  /** The holder, or an unfinished thread that finds the lock free, can move towards its end. */
  lemma HelpfulMove(c: Config, s: State, t: nat)
    requires Inv(c, s) && t < |s.threads|
    requires Holding(s, t) || (s.threads[t].done < c.rounds && !Newest(s).value)
    ensures Enabled(c, s, Helpful(s, t))
    ensures var s' := Apply(c, s, Helpful(s, t));
            |s'.threads| == |s.threads| && s'.threads == s.threads[t := s'.threads[t]]
            && Left(c, s'.threads[t]) < Left(c, s.threads[t])
  {
  }

  /** No deadlock: in every unfinished state the holder, or some thread that finds the lock free,
      has a step towards the end. */
  lemma HelpfulStep(c: Config, s: State) returns (step: Step, s': State)
    requires Inv(c, s) && !Finished(c, s)
    ensures Next(c, s, step, s')
    ensures Total(s'.threads, LeftOf(c)) < Total(s.threads, LeftOf(c))
  {
    var t: nat;
    if exists u :: Holding(s, u) {
      t :| Holding(s, t);
    } else {
      t :| t < |s.threads| && !(s.threads[t].pc.Outside? && s.threads[t].done == c.rounds);
      assert !Holding(s, t);
    }
    HelpfulMove(c, s, t);
    step := Helpful(s, t);
    s' := Apply(c, s, step);
    TotalUpdate(s.threads, t, s'.threads[t], LeftOf(c));
  }

  /** Every run, however long it has spun, extends to a finished one. */
  lemma {:induction false} EveryRunCanFinish(c: Config, run: seq<State>, steps: seq<Step>)
    returns (run': seq<State>, steps': seq<Step>)
    requires IsRun(c, run, steps)
    ensures IsRun(c, run', steps') && run <= run' && steps <= steps'
    ensures Finished(c, run'[|steps'|])
    decreases Total(run[|steps|].threads, LeftOf(c))
  {
    var s := run[|steps|];
    RunsKeepInv(c, run, steps);
    if Finished(c, s) {
      run', steps' := run, steps;
    } else {
      var step, s' := HelpfulStep(c, s);
      run', steps' := Runs.Extend(s => Init(c, s), (s, l, s') => Next(c, s, l, s'), run, steps, step, s');
      run', steps' := EveryRunCanFinish(c, run', steps');
    }
  }
}
