/** What a load teaches the thread that makes it: nothing is forgotten, later loads never return
    older messages, and a size read by the producer or the consumer is good for as many operations.
    Line numbers refer to 06_lockfree/spsc_queue.h. */
module SpscCoherence {
  import opened Words
  import opened WeakMemory
  import opened SpscWeak
  import opened SpscStale

  /** The producer's loads of the tail: line 104, and line 88 in `size_approx`. */
  predicate ReadsTail<T>(step: Step<T>, ts: nat) {
    step == LoadTail(ts) || step == PeekTail(ts)
  }

  /** The consumer's loads of the head: lines 62 and 76, and line 87 in `size_approx`. */
  predicate ReadsHead<T>(step: Step<T>, ts: nat) {
    step == LoadHead(ts) || step == PeekHead(ts)
  }

  /** Everything known in `v` is known in `w`. */
  predicate Below(v: View, w: View)
    requires Shaped(v, 2, 2) && Shaped(w, 2, 2)
  {
    && (forall l :: 0 <= l < 2 ==> v.seen[l] <= w.seen[l])
    && (forall t :: 0 <= t < 2 ==> v.clock[t] <= w.clock[t])
  }

  /** One step: both threads keep what they knew, and a thread that has read a message of the other's
      counter knows of it. */
  lemma StepTeaches<T(!new)>(c: Config, s: State<T>, step: Step<T>, s': State<T>)
    requires Inv(c, s) && Next(c, s, step, s')
    ensures WellFormed(c, s') && Below(s.pview, s'.pview) && Below(s.cview, s'.cview)
    ensures forall ts: nat :: ReadsTail(step, ts) ==> ts <= s'.pview.seen[TAIL]
    ensures forall ts: nat :: ReadsHead(step, ts) ==> ts <= s'.cview.seen[HEAD]
  {
    ApplyWellFormed(c, s, step);
    ProducerLearns(c, s, step);
    ConsumerLearns(c, s, step);
  }

  lemma ProducerLearns<T(!new)>(c: Config, s: State<T>, step: Step<T>)
    requires WellFormed(c, s) && Enabled(c, s, step) && s.pview.seen[HEAD] <= Heads(s)
    ensures Shaped(Apply(c, s, step).pview, 2, 2) && Below(s.pview, Apply(c, s, step).pview)
    ensures forall ts: nat :: ReadsTail(step, ts) ==> ts <= Apply(c, s, step).pview.seen[TAIL]
  {
  }

  lemma ConsumerLearns<T(!new)>(c: Config, s: State<T>, step: Step<T>)
    requires WellFormed(c, s) && Enabled(c, s, step) && s.cview.seen[TAIL] <= Tails(s)
    ensures Shaped(Apply(c, s, step).cview, 2, 2) && Below(s.cview, Apply(c, s, step).cview)
    ensures forall ts: nat :: ReadsHead(step, ts) ==> ts <= Apply(c, s, step).cview.seen[HEAD]
  {
  }

  /** Step `i` of a run. */
  lemma StepOfRunTeaches<T(!new)>(c: Config, run: seq<State<T>>, steps: seq<Step<T>>, i: nat)
    requires IsRun(c, run, steps) && i < |steps|
    ensures WellFormed(c, run[i]) && WellFormed(c, run[i + 1])
    ensures Below(run[i].pview, run[i + 1].pview) && Below(run[i].cview, run[i + 1].cview)
    ensures forall ts: nat :: ReadsTail(steps[i], ts) ==> ts <= run[i + 1].pview.seen[TAIL]
    ensures forall ts: nat :: ReadsHead(steps[i], ts) ==> ts <= run[i + 1].cview.seen[HEAD]
  {
    RunsKeepInv(c, run, steps);
    assert Inv(c, run[i]) && Next(c, run[i], steps[i], run[i + 1]);
    StepTeaches(c, run[i], steps[i], run[i + 1]);
  }

  lemma RunWellFormed<T(!new)>(c: Config, run: seq<State<T>>, steps: seq<Step<T>>, i: nat)
    requires IsRun(c, run, steps) && i < |run|
    ensures WellFormed(c, run[i])
  {
    RunsKeepInv(c, run, steps);
    assert Inv(c, run[i]);
  }

  /** No thread ever forgets. */
  lemma {:induction false} ViewsGrow<T(!new)>(c: Config, run: seq<State<T>>, steps: seq<Step<T>>, i: nat, j: nat)
    requires IsRun(c, run, steps) && i <= j < |run|
    ensures WellFormed(c, run[i]) && WellFormed(c, run[j])
    ensures Below(run[i].pview, run[j].pview) && Below(run[i].cview, run[j].cview)
    decreases j
  {
    if i == j {
      RunWellFormed(c, run, steps, i);
    } else {
      ViewsGrow(c, run, steps, i, j - 1);
      StepOfRunTeaches(c, run, steps, j - 1);
    }
  }

  /** What step `i` read, its thread knows in every later state. */
  lemma LoadIsRemembered<T(!new)>(c: Config, run: seq<State<T>>, steps: seq<Step<T>>, i: nat, ts: nat, j: nat)
    requires IsRun(c, run, steps) && i < j < |run|
    ensures WellFormed(c, run[j])
    ensures ReadsTail(steps[i], ts) ==> ts <= run[j].pview.seen[TAIL]
    ensures ReadsHead(steps[i], ts) ==> ts <= run[j].cview.seen[HEAD]
  {
    StepOfRunTeaches(c, run, steps, i);
    ViewsGrow(c, run, steps, i + 1, j);
  }

  /** Read-read coherence: of two loads of the tail by the producer, in `push` or `size_approx`, the
      later never returns an older message; likewise the consumer's loads of the head. */
  lemma LoadsAreCoherent<T(!new)>(c: Config, run: seq<State<T>>, steps: seq<Step<T>>, i: nat, ts: nat, j: nat, ts': nat)
    requires IsRun(c, run, steps) && i < j < |steps|
    ensures ReadsTail(steps[i], ts) && ReadsTail(steps[j], ts') ==> ts <= ts'
    ensures ReadsHead(steps[i], ts) && ReadsHead(steps[j], ts') ==> ts <= ts'
  {
    LoadIsRemembered(c, run, steps, i, ts, j);
    assert Next(c, run[j], steps[j], run[j + 1]);
  }

  // ---------------------------------------------------------------- what a size is good for

  /** A producer that has once read a tail leaving room for the present push is not refused, whatever
      tail it reads now. */
  lemma InformedPushIsAccepted<T(!new)>(c: Config, run: seq<State<T>>, steps: seq<Step<T>>, i: nat, ts: nat, j: nat)
    requires IsRun(c, run, steps) && i < j < |run| && ReadsTail(steps[i], ts)
    requires run[j].producer.PLoaded? && Heads(run[j]) - ts < c.Capacity() - 1
    ensures WellFormed(c, run[j]) && forall ts': nat :: !RefusesPush(c, run[j], ts')
  {
    LoadIsRemembered(c, run, steps, i, ts, j);
    RunsKeepInv(c, run, steps);
    assert Inv(c, run[j]);
    PushCanBeRefused(c, run[j]);
  }

  /** A consumer that has once read a head beyond its own count is not refused. */
  lemma InformedPopIsAccepted<T(!new)>(c: Config, run: seq<State<T>>, steps: seq<Step<T>>, i: nat, ts: nat, j: nat)
    requires IsRun(c, run, steps) && i < j < |run| && ReadsHead(steps[i], ts)
    requires run[j].consumer.CLoaded? && Tails(run[j]) < ts
    ensures WellFormed(c, run[j]) && forall ts': nat :: !RefusesPop(c, run[j], ts')
  {
    LoadIsRemembered(c, run, steps, i, ts, j);
    RunsKeepInv(c, run, steps);
    assert Inv(c, run[j]);
    PopCanBeRefused(c, run[j]);
  }

  /** The producer's size is a promise: after `size_approx` has told it `size`, the next
      Capacity - 1 - size pushes are not refused, whatever they read. */
  lemma SizeGrantsPushes<T(!new)>(c: Config, run: seq<State<T>>, steps: seq<Step<T>>, i: nat, headTs: nat, ts: nat, j: nat)
    requires IsRun(c, run, steps) && i < |steps| && i < j < |run| && steps[i] == PeekTail(ts)
    requires |run[i].pview.seen| == 2 && MayRead(run[i].pview, HEAD, run[i].head, headTs) && ts < |run[i].tail|
    requires run[j].producer.PLoaded?
    requires |run[j].accepted| - |run[i].accepted| < c.Capacity() - 1 - SizeApprox(c, run[i], headTs, run[i], ts)
    ensures WellFormed(c, run[j]) && forall ts': nat :: !RefusesPush(c, run[j], ts')
  {
    RunsKeepInv(c, run, steps);
    assert Inv(c, run[i]) && Inv(c, run[j]) && Next(c, run[i], steps[i], run[i + 1]);
    CapacityFits(c);
    DifferenceIsFaithful(c, headTs, ts);
    InformedPushIsAccepted(c, run, steps, i, ts, j);
  }

  /** And so is the consumer's: after it has been told `size`, its next `size` pops are not refused. */
  lemma SizeGrantsPops<T(!new)>(c: Config, run: seq<State<T>>, steps: seq<Step<T>>, i: nat, ts: nat, tailTs: nat, j: nat)
    requires IsRun(c, run, steps) && i < |steps| && i < j < |run| && steps[i] == PeekHead(ts)
    requires |run[i].cview.seen| == 2 && MayRead(run[i].cview, TAIL, run[i].tail, tailTs) && ts < |run[i].head|
    requires run[j].consumer.CLoaded?
    requires |run[j].delivered| - |run[i].delivered| < SizeApprox(c, run[i], ts, run[i], tailTs)
    ensures WellFormed(c, run[j]) && forall ts': nat :: !RefusesPop(c, run[j], ts')
  {
    RunsKeepInv(c, run, steps);
    assert Inv(c, run[i]) && Inv(c, run[j]) && Next(c, run[i], steps[i], run[i + 1]);
    CapacityFits(c);
    DifferenceIsFaithful(c, ts, tailTs);
    InformedPopIsAccepted(c, run, steps, i, ts, j);
  }

  // ---------------------------------------------------------------- sizes may be out of date

  /** For every capacity, the producer may be told that an empty queue is full: it still reads the
      tail from before everything was popped. */
  lemma ProducerSizeMayBeStale<T(!new)>(c: Config, buffer: seq<T>, x: T)
    returns (run: seq<State<T>>, steps: seq<Step<T>>)
    requires c.Valid() && |buffer| == c.Capacity()
    ensures IsRun(c, run, steps) && WellFormed(c, Last(run)) && Enabled(c, Last(run), PeekTail(0))
    ensures var s := Last(run);
            Queue(s) == [] && |s.head| > 0 && SizeApprox(c, s, |s.head| - 1, s, 0) == c.Capacity() - 1
  {
    CapacityFits(c);
    run, steps := Fill(c, buffer, x, c.Capacity() - 1);
    run, steps := Empty(c, run, steps, x);
    CountersOnRun(c, run, steps);
    ObserverSize(c, run, steps, |steps|, Heads(Last(run)), |steps|, 0);
  }

  /** And the consumer that a full queue is empty: it still reads the head from before everything was
      pushed. */
  lemma ConsumerSizeMayBeStale<T(!new)>(c: Config, buffer: seq<T>, x: T)
    returns (run: seq<State<T>>, steps: seq<Step<T>>)
    requires c.Valid() && |buffer| == c.Capacity()
    ensures IsRun(c, run, steps) && WellFormed(c, Last(run)) && Enabled(c, Last(run), PeekHead(0))
    ensures var s := Last(run);
            |Queue(s)| == c.Capacity() - 1 > 0 && SizeApprox(c, s, 0, s, 0) == 0
  {
    CapacityFits(c);
    run, steps := Fill(c, buffer, x, c.Capacity() - 1);
    CountersOnRun(c, run, steps);
    ObserverSize(c, run, steps, |steps|, 0, |steps|, 0);
  }
}
