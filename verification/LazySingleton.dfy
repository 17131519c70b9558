/** Double-checked locking on release/acquire memory, for any number of threads that call
    `instance` any number of times. Constructors may throw.
    Line numbers refer to 07_atomic_model/atomic_model.h. */
module LazySingleton {
  import opened WeakMemory
  import opened Totals
  import Runs

  const INSTANCE := 0

  /** `handOff`: a mutex passes the view of the last unlock on to the next lock, as the standard
      requires. The variant without it shows what that is for. */
  datatype Config = Config(threads: nat, handOff: bool)

  datatype Pointer = Null | At(id: nat)

  /** Where a thread is in `instance`. */
  datatype Pc =
    | Start                // before line 112
    | WantLock             // line 114
    | Locked               // line 115
    | MustBuild            // line 120
    | Built(id: nat)       // line 121
    | Unlocking(id: nat)   // the guard's destructor, on return
    | Unwinding            // the guard's destructor, on an exception
    | Returned(id: nat)    // line 124

  datatype Thread = Thread(pc: Pc, view: View)

  datatype State = State(
    instance: seq<Message<Pointer>>,
    objects: seq<seq<nat>>,        // per object constructed: the access that constructed it
    holder: int, mutexView: View,  // who holds the mutex (-1: nobody), and the view of its last unlock
    threads: seq<Thread>,
    raced: bool,                   // an object was used before its construction was visible
    results: seq<nat>)             // history: every pointer a call returned

  datatype Step =
    | FastLoad(t: nat, ts: nat)    // line 112, acquire
    | Lock(t: nat)                 // line 114
    | Recheck(t: nat, ts: nat)     // line 115, relaxed
    | Construct(t: nat)            // line 120
    | ConstructThrows(t: nat)      // line 120
    | Publish(t: nat)              // line 121, release
    | Unlock(t: nat)
    | Use(t: nat)                  // the caller reads the object
    | Again(t: nat)                // the caller calls once more

  predicate WellFormed(c: Config, s: State) {
    && |s.instance| > 0 && |s.threads| == c.threads
    && Shaped(s.mutexView, 1, c.threads)
    && (forall t :: 0 <= t < |s.threads| ==> Shaped(s.threads[t].view, 1, c.threads))
    && (forall i :: 0 <= i < |s.instance| ==> Shaped(s.instance[i].view, 1, c.threads))
    && (forall i :: 0 <= i < |s.objects| ==> |s.objects[i]| == c.threads)
  }

  predicate Init(c: Config, s: State) {
    && s.instance == [Message(Null, Bottom(1, c.threads))]
    && s.objects == [] && s.holder == -1 && s.mutexView == Bottom(1, c.threads)
    && s.threads == seq(c.threads, _ => Thread(Start, Bottom(1, c.threads)))
    && !s.raced && s.results == []
  }

  predicate Enabled(c: Config, s: State, step: Step)
    requires WellFormed(c, s)
  {
    && step.t < |s.threads|
    && var th := s.threads[step.t];
       match step
       case FastLoad(_, ts) => th.pc.Start? && MayRead(th.view, INSTANCE, s.instance, ts)
       case Lock(_) => th.pc.WantLock? && s.holder == -1
       case Recheck(_, ts) => th.pc.Locked? && MayRead(th.view, INSTANCE, s.instance, ts)
       case Construct(_) => th.pc.MustBuild?
       case ConstructThrows(_) => th.pc.MustBuild?
       case Publish(_) => th.pc.Built?
       case Unlock(_) => th.pc.Unlocking? || th.pc.Unwinding?
       case Use(_) => th.pc.Returned?
       case Again(_) => th.pc.Returned?
  }

  function Apply(c: Config, s: State, step: Step): State
    requires WellFormed(c, s) && Enabled(c, s, step)
  {
    var t := step.t;
    var th := s.threads[t];
    match step
    case FastLoad(_, ts) =>
      var m := s.instance[ts];
      var view := ReadAcquire(th.view, INSTANCE, ts, m.view);
      (match m.value
       case Null => s.(threads := s.threads[t := Thread(WantLock, view)])
       case At(id) => s.(threads := s.threads[t := Thread(Returned(id), view)], results := s.results + [id]))
    case Lock(_) =>
      var view := if c.handOff then Join(th.view, s.mutexView) else th.view;
      s.(holder := t, threads := s.threads[t := Thread(Locked, view)])
    case Recheck(_, ts) =>
      var view := ReadRelaxed(th.view, INSTANCE, ts);
      var pc := match s.instance[ts].value case Null => MustBuild case At(id) => Unlocking(id);
      s.(threads := s.threads[t := Thread(pc, view)])
    case Construct(_) =>
      var view := Tick(th.view, t);
      s.(objects := s.objects + [Zeros(c.threads)[t := view.clock[t]]],
         threads := s.threads[t := Thread(Built(|s.objects|), view)])
    case ConstructThrows(_) =>
      s.(threads := s.threads[t := th.(pc := Unwinding)])
    case Publish(_) =>
      var view := ReadRelaxed(th.view, INSTANCE, |s.instance|);
      s.(instance := s.instance + [Message(At(th.pc.id), view)],
         threads := s.threads[t := Thread(Unlocking(th.pc.id), view)])
    case Unlock(_) =>
      var s' := s.(holder := -1, mutexView := th.view);
      if th.pc.Unwinding? then s'.(threads := s.threads[t := th.(pc := Start)])
      else s'.(threads := s.threads[t := th.(pc := Returned(th.pc.id))], results := s.results + [th.pc.id])
    case Use(_) =>
      s.(raced := s.raced || th.pc.id >= |s.objects| || !Covers(th.view, s.objects[th.pc.id]))
    case Again(_) =>
      s.(threads := s.threads[t := th.(pc := Start)])
  }

  predicate Next(c: Config, s: State, step: Step, s': State) {
    WellFormed(c, s) && Enabled(c, s, step) && s' == Apply(c, s, step)
  }

  // ---------------------------------------------------------------- invariant

  predicate InLock(pc: Pc) {
    pc.Locked? || pc.MustBuild? || pc.Built? || pc.Unlocking? || pc.Unwinding?
  }

  /** The view contains the construction of the one object. */
  predicate Knows(s: State, v: View) {
    |s.objects| == 1 && |s.objects[0]| == |v.clock| && Covers(v, s.objects[0])
  }

  predicate Published(s: State) {
    |s.instance| == 2
  }

  /** What holds of one thread. */
  predicate ThreadInv(c: Config, s: State, t: int)
    requires WellFormed(c, s) && 0 <= t < |s.threads|
  {
    var th := s.threads[t];
    && th.view.seen[INSTANCE] < |s.instance|
    && (InLock(th.pc) <==> s.holder == t)
    && match th.pc
       case Locked => if Published(s) then th.view.seen[INSTANCE] == 1 && Knows(s, th.view) else s.objects == []
       case MustBuild => !Published(s) && s.objects == []
       case Built(id) => !Published(s) && id == 0 && Knows(s, th.view)
       case Unlocking(id) => Published(s) && id == 0 && Knows(s, th.view) && th.view.seen[INSTANCE] == 1
       case Unwinding => !Published(s) && s.objects == []
       case Returned(id) => Published(s) && id == 0 && Knows(s, th.view) && s.results != [] && th.view.seen[INSTANCE] == 1
       case _ => true
  }

  /** The instance is published at most once, with the construction in its message. */
  predicate GlobalInv(c: Config, s: State)
    requires WellFormed(c, s)
  {
    && !s.raced
    && 1 <= |s.instance| <= 2
    && s.instance[0].value == Null && s.instance[0].view.seen[INSTANCE] == 0
    && (Published(s) ==> s.instance[1].value == At(0) && s.instance[1].view.seen[INSTANCE] == 1
                         && Knows(s, s.instance[1].view))
    && -1 <= s.holder < |s.threads|
    // a free mutex remembers what its last holder knew
    && s.mutexView.seen[INSTANCE] < |s.instance|
    && (s.holder == -1 ==>
          if Published(s) then s.mutexView.seen[INSTANCE] == 1 && Knows(s, s.mutexView) else s.objects == [])
    && (forall i :: 0 <= i < |s.results| ==> s.results[i] == 0)
    && (s.results != [] ==> Published(s))
  }

  ghost predicate Inv(c: Config, s: State) {
    && WellFormed(c, s) && GlobalInv(c, s)
    && forall t :: 0 <= t < |s.threads| ==> ThreadInv(c, s, t)
  }

  lemma InitEstablishes(c: Config, s: State)
    requires Init(c, s)
    ensures Inv(c, s)
  {
  }

  /** The recheck under the lock cannot read a stale null: the mutex hand-over has already shown the
      thread the published pointer, although the load itself is relaxed. */
  lemma RecheckIsFresh(c: Config, s: State, t: nat, ts: nat)
    requires Inv(c, s) && t < |s.threads| && s.threads[t].pc.Locked? && Published(s)
    requires MayRead(s.threads[t].view, INSTANCE, s.instance, ts)
    ensures s.instance[ts].value == At(0) && Knows(s, s.threads[t].view)
  {
    assert ThreadInv(c, s, t);
  }

  /** Covering survives learning more. */
  lemma JoinKnows(s: State, v: View, w: View)
    requires |v.seen| == |w.seen| && |v.clock| == |w.clock|
    requires Knows(s, v) || Knows(s, w)
    ensures Knows(s, Join(v, w))
  {
  }

  lemma FastLoadPreserves(c: Config, s: State, step: Step)
    requires Inv(c, s) && step.FastLoad? && Enabled(c, s, step)
    ensures Inv(c, Apply(c, s, step))
  {
    var s' := Apply(c, s, step);
    var t := step.t;
    var m := s.instance[step.ts];
    assert ThreadInv(c, s, t);
    if Knows(s, m.view) {
      JoinKnows(s, ReadRelaxed(s.threads[t].view, INSTANCE, step.ts), m.view);
    }
    OthersKeep(c, s, s', t);
  }

  lemma LockPreserves(c: Config, s: State, step: Step)
    requires c.handOff && Inv(c, s) && step.Lock? && Enabled(c, s, step)
    ensures Inv(c, Apply(c, s, step))
  {
    var s' := Apply(c, s, step);
    var t := step.t;
    assert ThreadInv(c, s, t);
    if Published(s) {
      JoinKnows(s, s.threads[t].view, s.mutexView);
    }
    OthersKeep(c, s, s', t);
  }

  /** The steps of the mutex holder. */
  predicate IsHolderStep(step: Step) {
    step.Recheck? || step.Construct? || step.ConstructThrows? || step.Publish? || step.Unlock?
  }

  /** Nobody outside the lock depends on what the holder does there. */
  lemma HolderLeavesOthers(c: Config, s: State, step: Step, u: nat)
    requires Inv(c, s) && Enabled(c, s, step) && IsHolderStep(step)
    requires u < |s.threads| && u != step.t && WellFormed(c, Apply(c, s, step))
    ensures ThreadInv(c, Apply(c, s, step), u)
  {
    assert ThreadInv(c, s, step.t) && ThreadInv(c, s, u);
  }

  lemma HolderKeepsShared(c: Config, s: State, step: Step)
    requires Inv(c, s) && Enabled(c, s, step) && IsHolderStep(step)
    ensures WellFormed(c, Apply(c, s, step)) && GlobalInv(c, Apply(c, s, step))
  {
    assert ThreadInv(c, s, step.t);
  }

  lemma HolderPreserves(c: Config, s: State, step: Step)
    requires Inv(c, s) && Enabled(c, s, step) && IsHolderStep(step)
    ensures Inv(c, Apply(c, s, step))
  {
    HolderKeepsShared(c, s, step);
    var s' := Apply(c, s, step);
    assert ThreadInv(c, s, step.t);
    assert ThreadInv(c, s', step.t);
    forall u: nat | u < |s.threads| && u != step.t
      ensures ThreadInv(c, s', u)
    {
      HolderLeavesOthers(c, s, step, u);
    }
  }

  /** A step of `t` that leaves memory and, to the others, the mutex alone. */
  lemma OthersKeep(c: Config, s: State, s': State, t: nat)
    requires Inv(c, s) && WellFormed(c, s') && t < |s.threads|
    requires s'.instance == s.instance && s'.objects == s.objects && s.results <= s'.results
    requires s'.holder == s.holder || (s.holder == -1 && s'.holder == t)
    requires forall u :: 0 <= u < |s.threads| && u != t ==> s'.threads[u] == s.threads[u]
    ensures forall u :: 0 <= u < |s.threads| && u != t ==> ThreadInv(c, s', u)
  {
    forall u | 0 <= u < |s.threads| && u != t
      ensures ThreadInv(c, s', u)
    {
      assert ThreadInv(c, s, u);
    }
  }

  lemma CallerPreserves(c: Config, s: State, step: Step)
    requires Inv(c, s) && Enabled(c, s, step) && (step.Use? || step.Again?)
    ensures Inv(c, Apply(c, s, step))
  {
    assert ThreadInv(c, s, step.t);
    OthersKeep(c, s, Apply(c, s, step), step.t);
  }

  lemma StepPreserves(c: Config, s: State, step: Step, s': State)
    requires c.handOff && Inv(c, s) && Next(c, s, step, s')
    ensures Inv(c, s')
  {
    match step
    case FastLoad(_, _) => FastLoadPreserves(c, s, step);
    case Lock(_) => LockPreserves(c, s, step);
    case Use(_) => CallerPreserves(c, s, step);
    case Again(_) => CallerPreserves(c, s, step);
    case _ => HolderPreserves(c, s, step);
  }

  ghost predicate IsRun(c: Config, run: seq<State>, steps: seq<Step>) {
    Runs.IsRun(s => Init(c, s), (s, l, s') => Next(c, s, l, s'), run, steps)
  }

  lemma RunsKeepInv(c: Config, run: seq<State>, steps: seq<Step>)
    requires c.handOff && IsRun(c, run, steps)
    ensures forall i :: 0 <= i < |run| ==> Inv(c, run[i])
  {
    forall s | Init(c, s)
      ensures Inv(c, s)
    {
      InitEstablishes(c, s);
    }
    forall s, l, s' | Inv(c, s) && Next(c, s, l, s')
      ensures Inv(c, s')
    {
      StepPreserves(c, s, l, s');
    }
    Runs.Invariance(s => Init(c, s), (s, l, s') => Next(c, s, l, s'), s => Inv(c, s), run, steps);
  }

  /** On every run: at most one object is ever constructed, every call that has returned returned
      it, and wherever a thread holds the pointer its view contains the finished construction, so
      no use of it races. */
  lemma RunsAreSafe(c: Config, run: seq<State>, steps: seq<Step>, i: nat)
    requires c.handOff && IsRun(c, run, steps) && i < |run|
    ensures var s := run[i];
            && |s.objects| <= 1 && !s.raced
            && (s.results != [] ==> |s.objects| == 1)
            && (forall k :: 0 <= k < |s.results| ==> s.results[k] == 0)
            && (forall t :: 0 <= t < |s.threads| && s.threads[t].pc.Returned? ==>
                  s.threads[t].pc.id == 0 && Knows(s, s.threads[t].view) && s.results != [])
  {
    RunsKeepInv(c, run, steps);
    var s := run[i];
    assert Inv(c, s);
    assert s.holder >= 0 ==> ThreadInv(c, s, s.holder);
    forall t | 0 <= t < |s.threads| && s.threads[t].pc.Returned?
      ensures s.threads[t].pc.id == 0 && Knows(s, s.threads[t].view) && s.results != []
    {
      assert ThreadInv(c, s, t);
    }
  }

  /** The thread has the pointer, or is about to load it again. */
  predicate OnFastPath(c: Config, s: State, t: nat)
    requires WellFormed(c, s) && t < |s.threads|
  {
    Published(s) && s.threads[t].view.seen[INSTANCE] == 1 && (s.threads[t].pc.Start? || s.threads[t].pc.Returned?)
  }

  lemma FastPathKeeps(c: Config, s: State, step: Step, t: nat)
    requires Inv(c, s) && Enabled(c, s, step) && t < |s.threads| && OnFastPath(c, s, t)
    ensures WellFormed(c, Apply(c, s, step)) && OnFastPath(c, Apply(c, s, step), t)
  {
    assert ThreadInv(c, s, t) && ThreadInv(c, s, step.t);
  }

  /** A thread that has returned once never takes the mutex again: its later loads cannot go back to
      null. */
  lemma {:induction false} LaterCallsAreFast(c: Config, run: seq<State>, steps: seq<Step>, i: nat, j: nat, t: nat)
    requires c.handOff && IsRun(c, run, steps) && i <= j < |run|
    requires t < |run[i].threads| && run[i].threads[t].pc.Returned?
    ensures WellFormed(c, run[j]) && t < |run[j].threads| && OnFastPath(c, run[j], t)
    decreases j
  {
    RunsKeepInv(c, run, steps);
    if i == j {
      assert Inv(c, run[i]) && ThreadInv(c, run[i], t);
    } else {
      LaterCallsAreFast(c, run, steps, i, j - 1, t);
      assert Inv(c, run[j - 1]) && Next(c, run[j - 1], steps[j - 1], run[j]);
      FastPathKeeps(c, run[j - 1], steps[j - 1], t);
    }
  }

  // ---------------------------------------------------------------- what the orderings buy

  lemma ExtendRun(c: Config, run: seq<State>, steps: seq<Step>, l: Step) returns (run': seq<State>, steps': seq<Step>)
    requires IsRun(c, run, steps) && WellFormed(c, run[|steps|]) && Enabled(c, run[|steps|], l)
    ensures IsRun(c, run', steps') && steps' == steps + [l]
    ensures run' == run + [Apply(c, run[|steps|], l)] && WellFormed(c, run'[|steps'|])
  {
    var s' := Apply(c, run[|steps|], l);
    run', steps' := Runs.Extend(s => Init(c, s), (s, l, s') => Next(c, s, l, s'), run, steps, l, s');
  }

  /** Nothing has happened yet, except that thread 1 may have read the null pointer. */
  predicate Untouched(c: Config, s: State) {
    var b := Bottom(1, c.threads);
    && WellFormed(c, s) && c.threads >= 2
    && s.instance == [Message(Null, b)] && s.objects == [] && s.holder == -1 && s.mutexView == b
    && s.threads[0] == Thread(Start, b) && s.threads[1].view == b && s.results == [] && !s.raced
  }

  /** Thread 0 has taken the mutex, built the object and stored the pointer. */
  predicate FirstHasPublished(c: Config, s: State) {
    && WellFormed(c, s) && c.threads >= 2
    && |s.instance| == 2 && s.instance[0].value == Null && s.instance[1].value == At(0)
    && s.instance[0].view == Bottom(1, c.threads)
    && s.instance[1].view.clock[0] == 1 && s.instance[1].view.seen[INSTANCE] == 1
    && s.objects == [Zeros(c.threads)[0 := 1]]
    && s.threads[0].pc == Unlocking(0) && s.threads[0].view.seen[INSTANCE] == 1
    && s.threads[1].view == Bottom(1, c.threads) && s.results == [] && !s.raced
  }

  lemma FirstPublishes(c: Config, run: seq<State>, steps: seq<Step>) returns (run': seq<State>, steps': seq<Step>)
    requires IsRun(c, run, steps) && Untouched(c, run[|steps|])
    ensures IsRun(c, run', steps') && FirstHasPublished(c, run'[|steps'|])
    ensures run'[|steps'|].threads[1] == run[|steps|].threads[1]
    ensures run <= run' && steps <= steps'
  {
    run', steps' := ExtendRun(c, run, steps, FastLoad(0, 0));
    run', steps' := ExtendRun(c, run', steps', Lock(0));
    run', steps' := ExtendRun(c, run', steps', Recheck(0, 0));
    run', steps' := ExtendRun(c, run', steps', Construct(0));
    run', steps' := ExtendRun(c, run', steps', Publish(0));
  }

  lemma FreshRun(c: Config) returns (run: seq<State>, steps: seq<Step>)
    requires c.threads >= 2
    ensures IsRun(c, run, steps) && steps == [] && Untouched(c, run[0]) && run[0].threads[1].pc == Start
  {
    var b := Bottom(1, c.threads);
    run := [State([Message(Null, b)], [], -1, b, seq(c.threads, _ => Thread(Start, b)), false, [])];
    steps := [];
  }

  /** The fix the source names is the acquire/release pair: a second thread may read the pointer
      without the lock, and then its view contains the construction because the load acquires what
      the store released, and would not if either ordering were dropped. */
  lemma AcquireAndReleaseAreNeeded(c: Config) returns (run: seq<State>, steps: seq<Step>)
    requires c.threads >= 2
    ensures IsRun(c, run, steps)
    ensures var s := run[|steps|];
            && WellFormed(c, s) && Enabled(c, s, FastLoad(1, 1)) && s.instance[1].value == At(0)
            && |s.objects| == 1 && |s.objects[0]| == c.threads
            && var view := s.threads[1].view;
               && Covers(ReadAcquire(view, INSTANCE, 1, s.instance[1].view), s.objects[0])
               && !Covers(ReadRelaxed(view, INSTANCE, 1), s.objects[0])
               && !Covers(ReadAcquire(view, INSTANCE, 1, Bottom(1, c.threads)), s.objects[0])
  {
    run, steps := FreshRun(c);
    run, steps := FirstPublishes(c, run, steps);
    var s := run[|steps|];
    var acquired := ReadAcquire(s.threads[1].view, INSTANCE, 1, s.instance[1].view);
    assert acquired.clock[0] == 1 && s.objects[0][0] == 1;
    assert ReadAcquire(s.threads[1].view, INSTANCE, 1, Bottom(1, c.threads)).clock[0] == 0;
  }

  /** The hand-over is what makes the relaxed recheck sound: without it, two of any number of threads
      can each construct an object. */
  lemma TwoObjectsWithoutHandOff(c: Config) returns (run: seq<State>, steps: seq<Step>)
    requires !c.handOff && c.threads >= 2
    ensures IsRun(c, run, steps) && |run[|steps|].objects| == 2
  {
    run, steps := FreshRun(c);
    run, steps := ExtendRun(c, run, steps, FastLoad(1, 0));
    var b := Bottom(1, c.threads);
    assert ReadAcquire(b, INSTANCE, 0, b) == b;
    run, steps := FirstPublishes(c, run, steps);
    run, steps := ExtendRun(c, run, steps, Unlock(0));
    run, steps := ExtendRun(c, run, steps, Lock(1));
    run, steps := ExtendRun(c, run, steps, Recheck(1, 0));
    run, steps := ExtendRun(c, run, steps, Construct(1));
  }

  /** And it is what orders the construction before the use on the slow path, whose recheck is relaxed:
      without it a call can return the object to a thread that does not see it finished. */
  lemma UseRacesWithoutHandOff(c: Config) returns (run: seq<State>, steps: seq<Step>)
    requires !c.handOff && c.threads >= 2
    ensures IsRun(c, run, steps) && |steps| >= 1 && steps[|steps| - 1] == Use(1)
    ensures !run[|steps| - 1].raced && run[|steps|].raced && |run[|steps|].objects| == 1
  {
    run, steps := FreshRun(c);
    run, steps := ExtendRun(c, run, steps, FastLoad(1, 0));
    var b := Bottom(1, c.threads);
    assert ReadAcquire(b, INSTANCE, 0, b) == b;
    run, steps := FirstPublishes(c, run, steps);
    run, steps := ExtendRun(c, run, steps, Unlock(0));
    run, steps := ExtendRun(c, run, steps, Lock(1));
    run, steps := ExtendRun(c, run, steps, Recheck(1, 1));
    run, steps := ExtendRun(c, run, steps, Unlock(1));
    var s := run[|steps|];
    assert s.objects[0][0] == 1 && s.threads[1].view.clock[0] == 0;
    run, steps := ExtendRun(c, run, steps, Use(1));
  }

  // ---------------------------------------------------------------- the three ways through a call

  /** The slow path: for any number of threads a run in which a thread, after publication, still reads
      null without the lock, and the recheck under the lock gives it the one object all the same. */
  lemma StaleReadIsRechecked(c: Config) returns (run: seq<State>, steps: seq<Step>, k: nat)
    requires c.threads >= 2
    ensures IsRun(c, run, steps) && k < |steps| && steps[k] == FastLoad(1, 0)
    ensures Published(run[k]) && |run[k + 1].threads| >= 2 && run[k + 1].threads[1].pc == WantLock
    ensures |run[|steps|].threads| >= 2 && run[|steps|].threads[1].pc == Returned(0)
    ensures |run[|steps|].objects| == 1 && run[|steps|].results == [0, 0]
  {
    run, steps := FreshRun(c);
    run, steps := FirstPublishes(c, run, steps);
    run, steps := ExtendRun(c, run, steps, Unlock(0));
    k := |steps|;
    run, steps := ExtendRun(c, run, steps, FastLoad(1, 0));
    run, steps := ExtendRun(c, run, steps, Lock(1));
    run, steps := ExtendRun(c, run, steps, Recheck(1, 1));
    run, steps := ExtendRun(c, run, steps, Unlock(1));
  }

  /** The fast path: a thread that calls again gets the object without the mutex, even while another
      thread holds it. */
  lemma SecondCallIsFast(c: Config) returns (run: seq<State>, steps: seq<Step>)
    requires c.threads >= 2
    ensures IsRun(c, run, steps) && |steps| >= 2 && steps[|steps| - 2..] == [Again(0), FastLoad(0, 1)]
    ensures |run[|steps|].threads| >= 2 && run[|steps|].threads[0].pc == Returned(0)
    ensures run[|steps|].holder == 1 && run[|steps|].results == [0, 0]
  {
    run, steps := FreshRun(c);
    run, steps := FirstPublishes(c, run, steps);
    run, steps := ExtendRun(c, run, steps, Unlock(0));
    run, steps := ExtendRun(c, run, steps, FastLoad(1, 0));
    run, steps := ExtendRun(c, run, steps, Lock(1));
    run, steps := ExtendRun(c, run, steps, Again(0));
    run, steps := ExtendRun(c, run, steps, FastLoad(0, 1));
  }

  /** The exception: a constructor that throws leaves everything as if the call had not been made, and
      the next call constructs the object. */
  lemma NextCallBuilds(c: Config) returns (run: seq<State>, steps: seq<Step>)
    requires c.threads >= 2
    ensures IsRun(c, run, steps) && |steps| >= 5 && steps[3..5] == [ConstructThrows(0), Unlock(0)]
    ensures Untouched(c, run[5])
    ensures |run[|steps|].objects| == 1 && run[|steps|].results == [0]
  {
    run, steps := FirstThrows(c);
    run, steps := FirstPublishes(c, run, steps);
    run, steps := ExtendRun(c, run, steps, Unlock(0));
  }

  lemma FirstThrows(c: Config) returns (run: seq<State>, steps: seq<Step>)
    requires c.threads >= 2
    ensures steps == [FastLoad(0, 0), Lock(0), Recheck(0, 0), ConstructThrows(0), Unlock(0)]
    ensures IsRun(c, run, steps) && Untouched(c, run[5])
  {
    var b := Bottom(1, c.threads);
    assert ReadAcquire(b, INSTANCE, 0, b) == b == Join(b, b) == ReadRelaxed(b, INSTANCE, 0);
    run, steps := FreshRun(c);
    run, steps := ExtendRun(c, run, steps, FastLoad(0, 0));
    run, steps := ExtendRun(c, run, steps, Lock(0));
    run, steps := ExtendRun(c, run, steps, Recheck(0, 0));
    run, steps := ExtendRun(c, run, steps, ConstructThrows(0));
    run, steps := ExtendRun(c, run, steps, Unlock(0));
  }

  // ---------------------------------------------------------------- progress

  function Left(th: Thread): nat {
    match th.pc
    case Start => 6
    case WantLock => 5
    case Locked => 4
    case MustBuild => 3
    case Built(_) => 2
    case Unlocking(_) => 1
    case Unwinding => 7
    case Returned(_) => 0
  }

  predicate AllReturned(s: State) {
    forall t :: 0 <= t < |s.threads| ==> s.threads[t].pc.Returned?
  }

  /** What thread `t`, in the middle of a call, can do next. */
  function Helpful(s: State, t: nat): Step
    requires |s.instance| > 0 && t < |s.threads|
  {
    match s.threads[t].pc
    case Start => FastLoad(t, |s.instance| - 1)
    case WantLock => Lock(t)
    case Locked => Recheck(t, |s.instance| - 1)
    case MustBuild => Construct(t)
    case Built(_) => Publish(t)
    case _ => Unlock(t)
  }

  /** A thread that holds the mutex, or finds it free, can move towards its return. */
  lemma HelpfulMove(c: Config, s: State, t: nat)
    requires Inv(c, s) && t < |s.threads| && !s.threads[t].pc.Returned?
    requires s.holder == -1 || s.holder == t
    ensures Enabled(c, s, Helpful(s, t))
    ensures var s' := Apply(c, s, Helpful(s, t));
            |s'.threads| == |s.threads| && s'.threads == s.threads[t := s'.threads[t]]
            && Left(s'.threads[t]) < Left(s.threads[t])
  {
    assert ThreadInv(c, s, t);
  }

  /** No deadlock: while some call is under way, the holder of the mutex, or else some caller, has a
      step towards its return. */
  lemma HelpfulStep(c: Config, s: State) returns (step: Step, s': State)
    requires Inv(c, s) && !AllReturned(s)
    ensures Next(c, s, step, s')
    ensures Total(s'.threads, Left) < Total(s.threads, Left)
  {
    var t: nat;
    if s.holder >= 0 {
      t := s.holder;
      assert ThreadInv(c, s, t);
    } else {
      t :| t < |s.threads| && !s.threads[t].pc.Returned?;
    }
    HelpfulMove(c, s, t);
    step := Helpful(s, t);
    s' := Apply(c, s, step);
    TotalUpdate(s.threads, t, s'.threads[t], Left);
  }

  /** Every run extends to one in which every thread's call has returned. */
  lemma {:induction false} EveryRunCanReturn(c: Config, run: seq<State>, steps: seq<Step>)
    returns (run': seq<State>, steps': seq<Step>)
    requires c.handOff && IsRun(c, run, steps)
    ensures IsRun(c, run', steps') && run <= run' && steps <= steps'
    ensures AllReturned(run'[|steps'|])
    decreases Total(run[|steps|].threads, Left)
  {
    var s := run[|steps|];
    RunsKeepInv(c, run, steps);
    if AllReturned(s) {
      run', steps' := run, steps;
    } else {
      var step, s' := HelpfulStep(c, s);
      run', steps' := Runs.Extend(s => Init(c, s), (s, l, s') => Next(c, s, l, s'), run, steps, step, s');
      run', steps' := EveryRunCanReturn(c, run', steps');
    }
  }
}
