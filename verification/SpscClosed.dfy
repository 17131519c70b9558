/** The stress tests as one closed system: a producer thread that pushes 0, 1, ..., N-1, retrying
    each until it is accepted, and a consumer thread that pops until it has N items. The queue
    underneath is the one of SpscWeak, stale reads included. */
module SpscClosed {
  import opened Words
  import opened SpscWeak
  import Runs

  /** `i`, `sumProduced`: the producer's loop index and its running sum.
      `received`, `sumConsumed`: what the consumer has stored, and its running sum. */
  datatype System = System(q: State<int>, i: nat, sumProduced: int, received: seq<int>, sumConsumed: int)

  function Iota(n: nat): seq<int> {
    seq(n, i => i)
  }

  function Sum(xs: seq<int>): int {
    if xs == [] then 0 else Sum(xs[..|xs| - 1]) + xs[|xs| - 1]
  }

  ghost predicate Init(c: Config, s: System) {
    SpscWeak.Init(c, s.q) && s.i == 0 && s.sumProduced == 0 && s.received == [] && s.sumConsumed == 0
  }

  /** What the client loops do with a step of the queue, and when they allow it. */
  predicate Next(c: Config, n: nat, s: System, step: Step<int>, s': System) {
    && SpscWeak.Next(c, s.q, step, s'.q)
    && match step
       case LoadOwnHead(item, _) => s.i < n && item == s.i && s' == s.(q := s'.q)
       case StoreHead => s' == s.(q := s'.q, i := s.i + 1, sumProduced := s.sumProduced + s.i)
       case LoadOwnTail(_) => |s.received| < n && s' == s.(q := s'.q)
       case StoreTail =>
         var v := s.q.consumer.value;
         s' == s.(q := s'.q, received := s.received + [v], sumConsumed := s.sumConsumed + v)
       case PeekTail(_) => false
       case PeekHead(_) => false
       case _ => s' == s.(q := s'.q)
  }

  /** Both loops have ended. */
  predicate Finished(n: nat, s: System) {
    s.i == n && s.q.producer.PIdle? && |s.received| == n && s.q.consumer.CIdle?
  }

  /** The client variables follow the queue's history. */
  predicate Client(n: nat, s: System) {
    && s.q.accepted == Iota(s.i) && s.received == s.q.delivered
    && s.sumProduced == Sum(Iota(s.i)) && s.sumConsumed == Sum(s.received)
    && s.i <= n && |s.received| <= n
    && (!s.q.producer.PIdle? ==> s.i < n && s.q.producer.item == s.i)
    && (!s.q.consumer.CIdle? ==> |s.received| < n)
  }

  ghost predicate Inv(c: Config, n: nat, s: System) {
    SpscWeak.Inv(c, s.q) && Client(n, s)
  }

  lemma {:induction false} SumExtends(xs: seq<int>, x: int)
    ensures Sum(xs + [x]) == Sum(xs) + x
  {
    assert (xs + [x])[..|xs|] == xs;
  }

  lemma ClientFollows(c: Config, n: nat, s: System, step: Step<int>, s': System)
    requires Client(n, s) && Next(c, n, s, step, s')
    ensures Client(n, s')
  {
    match step
    case StoreHead =>
      assert Iota(s'.i) == Iota(s.i) + [s.i];
      SumExtends(Iota(s.i), s.i);
    case StoreTail =>
      SumExtends(s.received, s.q.consumer.value);
    case _ =>
  }

  lemma StepPreserves(c: Config, n: nat, s: System, step: Step<int>, s': System)
    requires Inv(c, n, s) && Next(c, n, s, step, s')
    ensures Inv(c, n, s')
  {
    SpscWeak.StepPreserves(c, s.q, step, s'.q);
    ClientFollows(c, n, s, step, s');
  }

  ghost predicate IsRun(c: Config, n: nat, run: seq<System>, steps: seq<Step<int>>) {
    Runs.IsRun(s => Init(c, s), (s, l, s') => Next(c, n, s, l, s'), run, steps)
  }

  lemma RunsKeepInv(c: Config, n: nat, run: seq<System>, steps: seq<Step<int>>)
    requires IsRun(c, n, run, steps)
    ensures forall i :: 0 <= i < |run| ==> Inv(c, n, run[i])
  {
    forall s | Init(c, s)
      ensures Inv(c, n, s)
    {
      InitEstablishes(c, s.q);
    }
    forall s, l, s' | Inv(c, n, s) && Next(c, n, s, l, s')
      ensures Inv(c, n, s')
    {
      StepPreserves(c, n, s, l, s');
    }
    Runs.Invariance(s => Init(c, s), (s, l, s') => Next(c, n, s, l, s'), s => Inv(c, n, s), run, steps);
  }

  lemma {:induction false} SumOfIota(n: nat)
    ensures 2 * Sum(Iota(n)) == n * (n - 1)
  {
    if n > 0 {
      SumOfIota(n - 1);
      assert Iota(n)[..n - 1] == Iota(n - 1);
      assert n * (n - 1) == (n - 1) * (n - 2) + 2 * (n - 1);
    }
  }

  /** A run in which both threads finish transferred every integer once and in order, and both sums
      are N(N-1)/2; before that, what has been received is always an initial stretch of it. */
  lemma FinishedRunsAreCorrect(c: Config, n: nat, run: seq<System>, steps: seq<Step<int>>, i: nat)
    requires IsRun(c, n, run, steps) && i < |run|
    ensures run[i].received == Iota(|run[i].received|) && |run[i].received| <= run[i].i <= n
    ensures Finished(n, run[i]) ==>
              && run[i].received == Iota(n)
              && 2 * run[i].sumProduced == n * (n - 1) && 2 * run[i].sumConsumed == n * (n - 1)
  {
    RunsKeepInv(c, n, run, steps);
    var s := run[i];
    assert Inv(c, n, s);
    assert s.received == Iota(|s.received|);
    SumOfIota(n);
  }

  // ---------------------------------------------------------------- nothing else restrains the loops

  /** What the clients add to a step of the queue. */
  function Follow(s: System, step: Step<int>, q': State<int>): System
    requires step.StoreTail? ==> s.q.consumer.CTaken?
  {
    match step
    case StoreHead => s.(q := q', i := s.i + 1, sumProduced := s.sumProduced + s.i)
    case StoreTail =>
      var v := s.q.consumer.value;
      s.(q := q', received := s.received + [v], sumConsumed := s.sumConsumed + v)
    case _ => s.(q := q')
  }

  /** A step of threads that push 0, 1, ..., n-1 and pop n items. */
  predicate AsClients(n: nat, q: State<int>, step: Step<int>) {
    match step
    case LoadOwnHead(item, _) => item == |q.accepted| < n
    case LoadOwnTail(_) => |q.delivered| < n
    case PeekTail(_) => false
    case PeekHead(_) => false
    case _ => true
  }

  lemma ClientsAllow(c: Config, n: nat, s: System, step: Step<int>, q': State<int>)
    requires Inv(c, n, s) && SpscWeak.Next(c, s.q, step, q') && AsClients(n, s.q, step)
    ensures Next(c, n, s, step, Follow(s, step, q'))
  {
    assert |Iota(s.i)| == s.i;
  }

  /** The system has every run of the queue in which its callers do what the loops do: no wait, and no
      order of the two threads, is imposed by the model of the loops. */
  lemma {:induction false} QueueRunsAreClosedRuns(c: Config, n: nat, qrun: seq<State<int>>, steps: seq<Step<int>>)
    returns (run: seq<System>)
    requires SpscWeak.IsRun(c, qrun, steps)
    requires forall i :: 0 <= i < |steps| ==> AsClients(n, qrun[i], steps[i])
    ensures IsRun(c, n, run, steps)
    ensures forall i :: 0 <= i < |run| ==> run[i].q == qrun[i]
    decreases |steps|
  {
    var m := |steps|;
    if m == 0 {
      run := [System(qrun[0], 0, 0, [], 0)];
    } else {
      Runs.DropLast((s: State<int>) => SpscWeak.Init(c, s), (s, l, s') => SpscWeak.Next(c, s, l, s'), qrun, steps);
      var run0 := QueueRunsAreClosedRuns(c, n, qrun[..m], steps[..m - 1]);
      assert run0[m - 1].q == qrun[m - 1];
      run := ClientsGoOn(c, n, run0, steps[..m - 1], steps[m - 1], qrun[m]);
      assert steps[..m - 1] + [steps[m - 1]] == steps;
    }
  }

  lemma ClientsGoOn(c: Config, n: nat, run: seq<System>, steps: seq<Step<int>>, step: Step<int>, q': State<int>)
    returns (run': seq<System>)
    requires IsRun(c, n, run, steps)
    requires SpscWeak.Next(c, run[|steps|].q, step, q') && AsClients(n, run[|steps|].q, step)
    ensures IsRun(c, n, run', steps + [step]) && |run'| == |run| + 1
    ensures run == run'[..|run|] && run'[|run|].q == q'
  {
    RunsKeepInv(c, n, run, steps);
    var s := run[|steps|];
    ClientsAllow(c, n, s, step, q');
    var steps': seq<Step<int>>;
    run', steps' := Runs.Extend(s => Init(c, s), (s, l, s') => Next(c, n, s, l, s'), run, steps, step, Follow(s, step, q'));
  }

  /** And it has no others. */
  lemma ClosedRunsAreQueueRuns(c: Config, n: nat, run: seq<System>, steps: seq<Step<int>>) returns (qrun: seq<State<int>>)
    requires IsRun(c, n, run, steps)
    ensures SpscWeak.IsRun(c, qrun, steps) && |qrun| == |run|
    ensures forall i :: 0 <= i < |run| ==> qrun[i] == run[i].q
    ensures forall i :: 0 <= i < |steps| ==> AsClients(n, qrun[i], steps[i])
  {
    qrun := seq(|run|, i requires 0 <= i < |run| => run[i].q);
    forall i | 0 <= i < |steps|
      ensures SpscWeak.Next(c, qrun[i], steps[i], qrun[i + 1]) && AsClients(n, qrun[i], steps[i])
    {
      StepIsOfClients(c, n, run, steps, i);
    }
    assert SpscWeak.Init(c, qrun[0]);
  }

  lemma StepIsOfClients(c: Config, n: nat, run: seq<System>, steps: seq<Step<int>>, i: nat)
    requires IsRun(c, n, run, steps) && i < |steps|
    ensures SpscWeak.Next(c, run[i].q, steps[i], run[i + 1].q) && AsClients(n, run[i].q, steps[i])
  {
    RunsKeepInv(c, n, run, steps);
    assert Inv(c, n, run[i]) && Next(c, n, run[i], steps[i], run[i + 1]);
  }

  // ---------------------------------------------------------------- progress

  function ProducerRank(p: Producer<int>): nat {
    match p
    case PIdle => 4
    case PLoaded(_, _) => 3
    case PRoom(_, _) => 2
    case PWritten(_, _) => 1
  }

  function ConsumerRank(p: Consumer<int>): nat {
    match p
    case CIdle => 4
    case CLoaded(_) => 3
    case CNonEmpty(_) => 2
    case CTaken(_, _) => 1
  }

  /** Five for every operation still to succeed, plus the steps the current attempts still need. */
  function Remaining(n: nat, s: System): int {
    5 * (2 * n - s.i - |s.received|) + ProducerRank(s.q.producer) + ConsumerRank(s.q.consumer)
  }

  lemma ConsumerCanMove(c: Config, n: nat, s: System) returns (step: Step<int>, s': System)
    requires Inv(c, n, s)
    requires s.q.consumer.CNonEmpty? || s.q.consumer.CTaken? || Tails(s.q) < Heads(s.q)
    ensures Next(c, n, s, step, s') && ReadsNewest(s.q, step)
    ensures Remaining(n, s') < Remaining(n, s)
  {
    match s.q.consumer {
      case CIdle => step := LoadOwnTail(Tails(s.q));
      case CLoaded(_) =>
        step := LoadHead(Heads(s.q));
        EmptyTestIsFaithful(c, s.q, Heads(s.q));
      case CNonEmpty(_) => step := TakeSlot(0);
      case CTaken(_, _) => step := StoreTail;
    }
    s' := Follow(s, step, Apply(c, s.q, step));
  }

  lemma ProducerCanMove(c: Config, n: nat, s: System) returns (step: Step<int>, s': System)
    requires Inv(c, n, s) && s.i < n && Tails(s.q) == Heads(s.q)
    ensures Next(c, n, s, step, s') && ReadsNewest(s.q, step)
    ensures Remaining(n, s') < Remaining(n, s)
  {
    match s.q.producer {
      case PIdle => step := LoadOwnHead(s.i, Heads(s.q));
      case PLoaded(_, _) =>
        step := LoadTail(Tails(s.q));
        FullTestIsFaithful(c, s.q, Tails(s.q));
        CapacityFits(c);
      case PRoom(_, _) => step := WriteSlot;
      case PWritten(_, _) => step := StoreHead;
    }
    s' := Follow(s, step, Apply(c, s.q, step));
  }

  /** Neither side can block the other: in every unfinished state one of them has a step, reading
      the newest counters, that brings the system closer to the end. */
  lemma HelpfulStep(c: Config, n: nat, s: System) returns (step: Step<int>, s': System)
    requires Inv(c, n, s) && !Finished(n, s)
    ensures Next(c, n, s, step, s') && ReadsNewest(s.q, step)
    ensures 0 <= Remaining(n, s') < Remaining(n, s)
  {
    if s.q.consumer.CNonEmpty? || s.q.consumer.CTaken? || Tails(s.q) < Heads(s.q) {
      step, s' := ConsumerCanMove(c, n, s);
    } else {
      step, s' := ProducerCanMove(c, n, s);
    }
    ClientFollows(c, n, s, step, s');
  }

  /** Every run, however unlucky its reads so far, extends to a finished one. */
  lemma {:induction false} EveryRunCanFinish(c: Config, n: nat, run: seq<System>, steps: seq<Step<int>>)
    returns (run': seq<System>, steps': seq<Step<int>>)
    requires IsRun(c, n, run, steps)
    ensures IsRun(c, n, run', steps') && run <= run' && steps <= steps'
    ensures Finished(n, run'[|steps'|])
    decreases Remaining(n, run[|steps|])
  {
    var s := run[|steps|];
    RunsKeepInv(c, n, run, steps);
    if Finished(n, s) {
      run', steps' := run, steps;
    } else {
      var step, s' := HelpfulStep(c, n, s);
      run', steps' := Runs.Extend(s => Init(c, s), (s, l, s') => Next(c, n, s, l, s'), run, steps, step, s');
      run', steps' := EveryRunCanFinish(c, n, run', steps');
    }
  }
}
