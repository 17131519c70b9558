/** The queue under plain interleaving: the atomics hold one word each and every load returns it.
    This machine is SpscWeak with newest reads only, and it is the exact bounded FIFO. */
module SpscInterleaved {
  import opened Words
  import opened WeakMemory
  import opened BoundedFifo
  import W = SpscWeak
  import Runs

  datatype State<T> = State(
    head: nat, tail: nat, buffer: seq<T>,
    producer: W.Producer<T>, consumer: W.Consumer<T>,
    accepted: seq<T>, delivered: seq<T>)

  datatype Step<T> =
    | LoadOwnHead(item: T) | LoadTail | WriteSlot | StoreHead
    | LoadOwnTail | LoadHead | TakeSlot(residue: T) | StoreTail

  ghost predicate Init<T(!new)>(c: Config, s: State<T>) {
    && c.Valid() && |s.buffer| == c.Capacity()
    && s.head == 0 && s.tail == 0
    && s.producer == W.PIdle && s.consumer == W.CIdle
    && s.accepted == [] && s.delivered == []
  }

  predicate Enabled<T>(c: Config, s: State<T>, step: Step<T>) {
    && |s.buffer| == c.Capacity()
    && match step
       case LoadOwnHead(_) => s.producer.PIdle?
       case LoadTail => s.producer.PLoaded?
       case WriteSlot => s.producer.PRoom?
       case StoreHead => s.producer.PWritten?
       case LoadOwnTail => s.consumer.CIdle?
       case LoadHead => s.consumer.CLoaded?
       case TakeSlot(_) => s.consumer.CNonEmpty?
       case StoreTail => s.consumer.CTaken?
  }

  function Apply<T>(c: Config, s: State<T>, step: Step<T>): State<T>
    requires Enabled(c, s, step)
  {
    match step
    case LoadOwnHead(item) => s.(producer := W.PLoaded(item, s.head))
    case LoadTail =>
      var p := s.producer;
      s.(producer := if W.IsFull(c, p.head, s.tail) then W.PIdle else W.PRoom(p.item, p.head))
    case WriteSlot =>
      var p := s.producer;
      s.(producer := W.PWritten(p.item, p.head), buffer := s.buffer[c.Index(p.head) := p.item])
    case StoreHead =>
      s.(producer := W.PIdle, head := c.Successor(s.producer.head), accepted := s.accepted + [s.producer.item])
    case LoadOwnTail => s.(consumer := W.CLoaded(s.tail))
    case LoadHead =>
      var tail := s.consumer.tail;
      s.(consumer := if tail == s.head then W.CIdle else W.CNonEmpty(tail))
    case TakeSlot(residue) =>
      var j := c.Index(s.consumer.tail);
      s.(consumer := W.CTaken(s.buffer[j], s.consumer.tail), buffer := s.buffer[j := residue])
    case StoreTail =>
      s.(consumer := W.CIdle, tail := c.Successor(s.consumer.tail), delivered := s.delivered + [s.consumer.value])
  }

  predicate Next<T(==)>(c: Config, s: State<T>, step: Step<T>, s': State<T>) {
    Enabled(c, s, step) && s' == Apply(c, s, step)
  }

  function EventOf<T>(c: Config, s: State<T>, step: Step<T>): Event<T>
    requires Enabled(c, s, step)
  {
    match step
    case LoadTail => if W.IsFull(c, s.producer.head, s.tail) then PushFull else Internal
    case StoreHead => PushOk(s.producer.item)
    case LoadHead => if s.consumer.tail == s.head then PopEmpty else Internal
    case StoreTail => PopOk(s.consumer.value)
    case _ => Internal
  }

  function Queue<T>(s: State<T>): seq<T> {
    if |s.delivered| <= |s.accepted| then s.accepted[|s.delivered|..] else []
  }

  ghost predicate IsRun<T(!new)>(c: Config, run: seq<State<T>>, steps: seq<Step<T>>) {
    Runs.IsRun(s => Init(c, s), (s, l, s') => Next(c, s, l, s'), run, steps)
  }

  // ---------------------------------------------------------------- the two machines

  /** Forget the histories and the views; keep the newest word of each atomic. */
  function Project<T>(c: Config, s: W.State<T>): (p: State<T>)
    requires W.WellFormed(c, s)
  {
    State(s.head[|s.head| - 1].value, s.tail[|s.tail| - 1].value,
          seq(|s.slots|, j requires 0 <= j < |s.slots| => s.slots[j].value),
          s.producer, s.consumer, s.accepted, s.delivered)
  }

  function LastIndex(history: seq<Message<nat>>): nat {
    if history == [] then 0 else |history| - 1
  }

  /** The step of the weak machine that reads the newest messages. */
  function Newest<T>(s: W.State<T>, step: Step<T>): W.Step<T> {
    match step
    case LoadOwnHead(item) => W.LoadOwnHead(item, LastIndex(s.head))
    case LoadTail => W.LoadTail(LastIndex(s.tail))
    case WriteSlot => W.WriteSlot
    case StoreHead => W.StoreHead
    case LoadOwnTail => W.LoadOwnTail(LastIndex(s.tail))
    case LoadHead => W.LoadHead(LastIndex(s.head))
    case TakeSlot(residue) => W.TakeSlot(residue)
    case StoreTail => W.StoreTail
  }

  /** Reading the newest message is reading the one word. */
  lemma NewestStepProjects<T(!new)>(c: Config, s: W.State<T>, step: Step<T>)
    requires W.WellFormed(c, s) && W.Enabled(c, s, Newest(s, step))
    ensures Enabled(c, Project(c, s), step)
    ensures W.WellFormed(c, W.Apply(c, s, Newest(s, step)))
    ensures Project(c, W.Apply(c, s, Newest(s, step))) == Apply(c, Project(c, s), step)
    ensures W.EventOf(c, s, Newest(s, step)) == EventOf(c, Project(c, s), step)
  {
    W.ApplyWellFormed(c, s, Newest(s, step));
    var s' := W.Apply(c, s, Newest(s, step));
    assert Project(c, s').buffer == Apply(c, Project(c, s), step).buffer;
  }

  /** From a reachable weak state, the interleaved steps are exactly the newest-reading weak steps,
      with the same outcome. */
  lemma StepsCorrespond<T(!new)>(c: Config, s: W.State<T>, step: Step<T>)
    requires W.Inv(c, s)
    ensures Enabled(c, Project(c, s), step) <==> W.Enabled(c, s, Newest(s, step))
    ensures W.Enabled(c, s, Newest(s, step)) ==>
              && W.WellFormed(c, W.Apply(c, s, Newest(s, step)))
              && Project(c, W.Apply(c, s, Newest(s, step))) == Apply(c, Project(c, s), step)
              && W.EventOf(c, s, Newest(s, step)) == EventOf(c, Project(c, s), step)
  {
    if W.Enabled(c, s, Newest(s, step)) {
      NewestStepProjects(c, s, step);
    }
  }

  function Erase<T>(step: W.Step<T>): Step<T>
    requires !step.PeekTail? && !step.PeekHead?
  {
    match step
    case LoadOwnHead(item, _) => LoadOwnHead(item)
    case LoadTail(_) => LoadTail
    case WriteSlot => WriteSlot
    case StoreHead => StoreHead
    case LoadOwnTail(_) => LoadOwnTail
    case LoadHead(_) => LoadHead
    case TakeSlot(residue) => TakeSlot(residue)
    case StoreTail => StoreTail
  }

  /** And conversely: a weak step that reads the newest counter of the other side is an interleaved
      step. (A thread's own counter can only be read at its newest.) */
  lemma NewestStepsAreInterleaved<T(!new)>(c: Config, s: W.State<T>, step: W.Step<T>)
    requires W.Inv(c, s) && W.Enabled(c, s, step) && W.ReadsNewest(s, step)
    requires !step.PeekTail? && !step.PeekHead?
    ensures step == Newest(s, Erase(step))
    ensures W.WellFormed(c, W.Apply(c, s, step))
    ensures Next(c, Project(c, s), Erase(step), Project(c, W.Apply(c, s, step)))
  {
    NewestStepProjects(c, s, Erase(step));
  }

  /** Every interleaved run is the projection of a run on release/acquire memory. */
  lemma {:induction false} RunsLift<T(!new)>(c: Config, run: seq<State<T>>, steps: seq<Step<T>>)
    returns (wrun: seq<W.State<T>>, wsteps: seq<W.Step<T>>)
    requires IsRun(c, run, steps)
    ensures W.IsRun(c, wrun, wsteps) && |wsteps| == |steps|
    ensures forall i :: 0 <= i < |run| ==> W.WellFormed(c, wrun[i]) && Project(c, wrun[i]) == run[i]
    ensures forall i :: 0 <= i < |steps| ==> wsteps[i] == Newest(wrun[i], steps[i])
    decreases |steps|
  {
    var n := |steps|;
    if n == 0 {
      wrun, wsteps := LiftInit(c, run[0]);
    } else {
      Runs.DropLast((s: State<T>) => Init(c, s), (s, l, s') => Next(c, s, l, s'), run, steps);
      var wrun0, wsteps0 := RunsLift(c, run[..n], steps[..n - 1]);
      assert run[..n][n - 1] == run[n - 1];
      StepsCorrespondOnRun(c, wrun0, wsteps0, steps[n - 1]);
      wrun, wsteps := W.ExtendRun(c, wrun0, wsteps0, Newest(wrun0[n - 1], steps[n - 1]));
    }
  }

  lemma LiftInit<T(!new)>(c: Config, p: State<T>) returns (wrun: seq<W.State<T>>, wsteps: seq<W.Step<T>>)
    requires Init(c, p)
    ensures W.IsRun(c, wrun, wsteps) && wsteps == []
    ensures W.WellFormed(c, wrun[0]) && Project(c, wrun[0]) == p
  {
    var m := Message(0, Bottom(2, 2));
    var slots := seq(|p.buffer|, j requires 0 <= j < |p.buffer| => W.Slot(p.buffer[j], Zeros(2)));
    var s := W.State([m], [m], slots, W.PIdle, Bottom(2, 2), W.CIdle, Bottom(2, 2), false, [], []);
    assert Project(c, s).buffer == p.buffer;
    wrun, wsteps := [s], [];
  }

  lemma StepsCorrespondOnRun<T(!new)>(c: Config, wrun: seq<W.State<T>>, wsteps: seq<W.Step<T>>, step: Step<T>)
    requires W.IsRun(c, wrun, wsteps) && W.WellFormed(c, wrun[|wsteps|])
    requires Enabled(c, Project(c, wrun[|wsteps|]), step)
    ensures var s := wrun[|wsteps|];
            && W.Enabled(c, s, Newest(s, step))
            && W.WellFormed(c, W.Apply(c, s, Newest(s, step)))
            && Project(c, W.Apply(c, s, Newest(s, step))) == Apply(c, Project(c, s), step)
            && W.EventOf(c, s, Newest(s, step)) == EventOf(c, Project(c, s), step)
  {
    W.RunsKeepInv(c, wrun, wsteps);
    StepsCorrespond(c, wrun[|wsteps|], step);
  }

  // ---------------------------------------------------------------- exact refinement

  lemma ProjectedStepIsExact<T(!new)>(c: Config, s: W.State<T>, step: Step<T>)
    requires W.Inv(c, s) && Enabled(c, Project(c, s), step)
    ensures var p := Project(c, s);
            Exact(c.Capacity() - 1, Queue(p), EventOf(c, p, step), Queue(Apply(c, p, step)))
  {
    StepsCorrespond(c, s, step);
    W.StepRefines(c, s, Newest(s, step), W.Apply(c, s, Newest(s, step)));
  }

  /** Under interleaving the queue is exactly an atomic bounded FIFO: every step of every run has
      its effect, a push is refused only when the queue is full at its tail load, and a pop only
      when it is empty at its head load. */
  lemma RunsAreExact<T(!new)>(c: Config, run: seq<State<T>>, steps: seq<Step<T>>, i: nat)
    requires IsRun(c, run, steps) && i < |steps|
    ensures Enabled(c, run[i], steps[i])
    ensures Exact(c.Capacity() - 1, Queue(run[i]), EventOf(c, run[i], steps[i]), Queue(run[i + 1]))
  {
    var wrun, wsteps := RunsLift(c, run, steps);
    W.RunsKeepInv(c, wrun, wsteps);
    assert Next(c, run[i], steps[i], run[i + 1]);
    assert Project(c, wrun[i]) == run[i];
    ProjectedStepIsExact(c, wrun[i], steps[i]);
  }

  /** The two words are the numbers of pushes and pops so far, however often they have wrapped, and
      their word difference is the number of queued items. */
  lemma WordsAreFaithful<T(!new)>(c: Config, run: seq<State<T>>, steps: seq<Step<T>>, i: nat)
    requires IsRun(c, run, steps) && i < |run|
    ensures var s := run[i];
            && s.head == c.Counter(|s.accepted|) && s.tail == c.Counter(|s.delivered|)
            && c.Minus(s.head, s.tail) == |s.accepted| - |s.delivered| == |Queue(s)| <= c.Capacity() - 1
            && (s.head == s.tail <==> Queue(s) == [])
  {
    var wrun, wsteps := RunsLift(c, run, steps);
    W.RunsKeepInv(c, wrun, wsteps);
    assert W.Inv(c, wrun[i]) && Project(c, wrun[i]) == run[i];
    CapacityFits(c);
    DifferenceIsFaithful(c, |run[i].accepted|, |run[i].delivered|);
    EqualityIsFaithful(c, |run[i].accepted|, |run[i].delivered|);
  }

  // ---------------------------------------------------------------- size_approx by a third thread

  lemma {:induction false} CountsGrow<T(!new)>(c: Config, run: seq<State<T>>, steps: seq<Step<T>>, i: nat, j: nat)
    requires IsRun(c, run, steps) && i <= j < |run|
    ensures run[i].accepted <= run[j].accepted && run[i].delivered <= run[j].delivered
    decreases j
  {
    if i < j {
      CountsGrow(c, run, steps, i, j - 1);
      assert Next(c, run[j - 1], steps[j - 1], run[j]);
    }
  }

  /** A thread that is neither producer nor consumer loads the head in state `i` and the tail in
      state `j`. Its size is in range exactly when the tail has not overtaken the loaded head in the
      meantime (or has gone on for almost a whole wrap of the word). */
  lemma ObserverSize<T(!new)>(c: Config, run: seq<State<T>>, steps: seq<Step<T>>, i: nat, j: nat)
    requires IsRun(c, run, steps) && i <= j < |run|
    ensures var h, t := |run[i].accepted|, |run[j].delivered|;
            && (c.Minus(run[i].head, run[j].tail) <= c.Capacity() - 1
                <==> t <= h || (t - h - 1) % Pow2(c.w) >= Pow2(c.w) - c.Capacity())
            && (t <= h ==> c.Minus(run[i].head, run[j].tail) == h - t)
  {
    var h, t := |run[i].accepted|, |run[j].delivered|;
    WordsAreFaithful(c, run, steps, i);
    WordsAreFaithful(c, run, steps, j);
    CountsGrow(c, run, steps, i, j);
    CapacityFits(c);
    OvertakenDifference(h, t, Pow2(c.w), c.Capacity());
  }

  /** A word difference is small when the counters are in order, and otherwise only after the
      overtaking has nearly gone round. */
  lemma OvertakenDifference(h: nat, t: nat, m: int, cap: int)
    requires 1 <= cap <= m && h - t < cap
    ensures var d := (h % m - t % m) % m;
            && (d <= cap - 1 <==> t <= h || (t - h - 1) % m >= m - cap)
            && (t <= h ==> d == h - t)
  {
    RemainderOfDifference(h, t, m);
    if t <= h {
      SmallRemainder(h - t, m);
    } else {
      var d := t - h - 1;
      var q, r := d / m, d % m;
      assert d == q * m + r;
      assert (-q - 1) * m == -(q * m) - m;
      RemainderIsUnique(h - t, m, -q - 1, m - 1 - r);
    }
  }

  /** And the tail can overtake it: one push and one pop between the two loads make the size wrap
      to the largest word, far past the capacity, whenever the word is wider than the mask. */
  lemma ObserverIsOvertaken<T(!new)>(c: Config, buffer: seq<T>, x: T)
    returns (run: seq<State<T>>, steps: seq<Step<T>>)
    requires c.Valid() && c.k < c.w && |buffer| == c.Capacity()
    ensures IsRun(c, run, steps)
    ensures c.Minus(run[0].head, run[|steps|].tail) == Pow2(c.w) - 1 > c.Capacity()
  {
    CapacityFits(c);
    SmallRemainder(0, Pow2(c.w));
    SmallRemainder(1, Pow2(c.w));
    var s0 := State(0, 0, buffer, W.PIdle, W.CIdle, [], []);
    steps := [LoadOwnHead(x), LoadTail, WriteSlot, StoreHead, LoadOwnTail, LoadHead, TakeSlot(x), StoreTail];
    var s1 := Apply(c, s0, steps[0]);
    var s2 := Apply(c, s1, steps[1]);
    var s3 := Apply(c, s2, steps[2]);
    var s4 := Apply(c, s3, steps[3]);
    var s5 := Apply(c, s4, steps[4]);
    var s6 := Apply(c, s5, steps[5]);
    var s7 := Apply(c, s6, steps[6]);
    var s8 := Apply(c, s7, steps[7]);
    run := [s0, s1, s2, s3, s4, s5, s6, s7, s8];
    RemainderIsUnique(0 - 1, Pow2(c.w), -1, Pow2(c.w) - 1);
    PowerIsStrict(c.k, c.w);
  }
}
