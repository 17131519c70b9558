/** Message passing over one release/acquire flag: a producer thread calling `produce` with the
    given values, one after the other, and a consumer thread calling `consume` once.
    Line numbers refer to 07_atomic_model/atomic_model.h. */
module MessageChannel {
  import opened WeakMemory
  import Runs

  const FLAG := 0
  const PRODUCER := 0
  const CONSUMER := 1

  datatype Config = Config(values: seq<int>)

  datatype Consumer = Spinning | Ready | Consumed(value: int)

  datatype State = State(
    flag: seq<Message<bool>>,
    data: int, access: seq<nat>,  // each thread's latest access to `data`
    calls: nat, wrote: bool,      // calls of `produce` completed; whether the next has written `data`
    pview: View, consumer: Consumer, cview: View,
    raced: bool)

  datatype Step =
    | WriteData          // line 36
    | StoreFlag          // line 37
    | LoadFlag(ts: nat)  // line 42
    | ReadData           // line 44

  predicate WellFormed(s: State) {
    && |s.flag| > 0 && |s.access| == 2
    && Shaped(s.pview, 1, 2) && Shaped(s.cview, 1, 2)
    && forall i :: 0 <= i < |s.flag| ==> Shaped(s.flag[i].view, 1, 2)
  }

  const INITIAL := State([Message(false, Bottom(1, 2))], 0, Zeros(2), 0, false,
                         Bottom(1, 2), Spinning, Bottom(1, 2), false)

  predicate Enabled(c: Config, s: State, step: Step)
    requires WellFormed(s)
  {
    match step
    case WriteData => !s.wrote && s.calls < |c.values|
    case StoreFlag => s.wrote
    case LoadFlag(ts) => s.consumer.Spinning? && MayRead(s.cview, FLAG, s.flag, ts)
    case ReadData => s.consumer.Ready?
  }

  function Apply(c: Config, s: State, step: Step): State
    requires WellFormed(s) && Enabled(c, s, step)
  {
    match step
    case WriteData =>
      var view := Tick(s.pview, PRODUCER);
      s.(data := c.values[s.calls], wrote := true, pview := view,
         access := s.access[PRODUCER := view.clock[PRODUCER]],
         raced := s.raced || !Covers(s.pview, s.access))
    case StoreFlag =>
      var view := ReadRelaxed(s.pview, FLAG, |s.flag|);
      s.(flag := s.flag + [Message(true, view)], calls := s.calls + 1, wrote := false, pview := view)
    case LoadFlag(ts) =>
      s.(consumer := if s.flag[ts].value then Ready else Spinning,
         cview := ReadAcquire(s.cview, FLAG, ts, s.flag[ts].view))
    case ReadData =>
      var view := Tick(s.cview, CONSUMER);
      s.(consumer := Consumed(s.data), cview := view,
         access := s.access[CONSUMER := view.clock[CONSUMER]],
         raced := s.raced || !Covers(s.cview, s.access))
  }

  predicate Next(c: Config, s: State, step: Step, s': State) {
    WellFormed(s) && Enabled(c, s, step) && s' == Apply(c, s, step)
  }

  ghost predicate IsRun(c: Config, run: seq<State>, steps: seq<Step>) {
    Runs.IsRun(s => s == INITIAL, (s, l, s') => Next(c, s, l, s'), run, steps)
  }

  /** With at most one message: the flag is raised only by a message that covers the write, and the
      consumer is past the flag only when it has seen it. */
  predicate Inv(c: Config, s: State) {
    && WellFormed(s) && !s.raced
    && |s.flag| == s.calls + 1 && s.calls <= |c.values| && (s.wrote ==> s.calls < |c.values|)
    && !s.flag[0].value && (forall i :: 1 <= i < |s.flag| ==> s.flag[i].value)
    && s.pview.seen[FLAG] < |s.flag| && s.cview.seen[FLAG] < |s.flag|
    && (forall i :: 0 <= i < |s.flag| ==> s.flag[i].view.seen[FLAG] < |s.flag|)
    && s.access[PRODUCER] <= 1
    && (s.calls == 0 && !s.wrote ==> s.access == Zeros(2))
    && (s.calls >= 1 ==> s.data == c.values[0] && s.flag[1].view.clock[PRODUCER] >= 1)
    && (s.calls == 0 && s.wrote ==> s.data == c.values[0])
    && s.pview.clock[PRODUCER] == s.access[PRODUCER] == (if s.wrote || s.calls >= 1 then 1 else 0)
    && s.cview.clock[CONSUMER] == s.access[CONSUMER]
    && (forall i :: 0 <= i < |s.flag| ==> s.flag[i].view.clock[CONSUMER] == 0)
    && s.pview.clock[CONSUMER] == 0
    && (!s.consumer.Spinning? ==> s.calls >= 1 && s.cview.clock[PRODUCER] >= 1)
    && (s.consumer.Spinning? || s.consumer.Ready? ==> s.access[CONSUMER] == 0)
    && (s.consumer.Consumed? ==> s.consumer.value == c.values[0])
  }

  lemma StepPreserves(c: Config, s: State, step: Step, s': State)
    requires |c.values| <= 1 && Inv(c, s) && Next(c, s, step, s')
    ensures Inv(c, s')
  {
  }

  lemma RunsKeepInv(c: Config, run: seq<State>, steps: seq<Step>)
    requires |c.values| <= 1 && IsRun(c, run, steps)
    ensures forall i :: 0 <= i < |run| ==> Inv(c, run[i])
  {
    forall s, l, s' | Inv(c, s) && Next(c, s, l, s')
      ensures Inv(c, s')
    {
      StepPreserves(c, s, l, s');
    }
    Runs.Invariance(s => s == INITIAL, (s, l, s') => Next(c, s, l, s'), s => Inv(c, s), run, steps);
  }

  /** One call of `produce`: no run races on `data`, and a consumer that returns, returns the
      message. */
  lemma OneMessageIsDelivered(c: Config, run: seq<State>, steps: seq<Step>, i: nat)
    requires |c.values| <= 1 && IsRun(c, run, steps) && i < |run|
    ensures !run[i].raced
    ensures WellFormed(run[i]) && (run[i].consumer.Ready? ==> Covers(run[i].cview, run[i].access))
    ensures Enabled(c, run[i], WriteData) ==> Covers(run[i].pview, run[i].access)
    ensures run[i].consumer.Consumed? ==> |c.values| == 1 && run[i].consumer.value == c.values[0]
  {
    RunsKeepInv(c, run, steps);
    assert Inv(c, run[i]);
  }

  /** Steps still needed if the consumer does not spin. */
  function Left(s: State): nat {
    (if s.calls > 0 then 0 else if s.wrote then 1 else 2)
    + match s.consumer case Spinning => 2 case Ready => 1 case Consumed(_) => 0
  }

  lemma HelpfulStep(c: Config, s: State) returns (step: Step, s': State)
    requires |c.values| == 1 && Inv(c, s) && !s.consumer.Consumed?
    ensures Next(c, s, step, s') && Left(s') < Left(s)
  {
    step := if s.calls == 0 then (if s.wrote then StoreFlag else WriteData)
            else if s.consumer.Spinning? then LoadFlag(|s.flag| - 1) else ReadData;
    s' := Apply(c, s, step);
  }

  /** With a message to come, every run, however long the consumer has spun, extends to one in which
      it has received the message. */
  lemma {:induction false} EveryRunCanDeliver(c: Config, run: seq<State>, steps: seq<Step>)
    returns (run': seq<State>, steps': seq<Step>)
    requires |c.values| == 1 && IsRun(c, run, steps)
    ensures IsRun(c, run', steps') && run <= run' && steps <= steps'
    ensures run'[|steps'|].consumer == Consumed(c.values[0])
    decreases Left(run[|steps|])
  {
    var s := run[|steps|];
    RunsKeepInv(c, run, steps);
    if s.consumer.Consumed? {
      run', steps' := run, steps;
    } else {
      var step, s' := HelpfulStep(c, s);
      run', steps' := Runs.Extend(s => s == INITIAL, (s, l, s') => Next(c, s, l, s'), run, steps, step, s');
      run', steps' := EveryRunCanDeliver(c, run', steps');
    }
  }

  // ---------------------------------------------------------------- what the orderings buy

  lemma ExtendRun(c: Config, run: seq<State>, steps: seq<Step>, l: Step) returns (run': seq<State>, steps': seq<Step>)
    requires IsRun(c, run, steps) && WellFormed(run[|steps|]) && Enabled(c, run[|steps|], l)
    ensures IsRun(c, run', steps') && steps' == steps + [l]
    ensures run' == run + [Apply(c, run[|steps|], l)] && WellFormed(run'[|steps'|])
  {
    var s' := Apply(c, run[|steps|], l);
    run', steps' := Runs.Extend(s => s == INITIAL, (s, l, s') => Next(c, s, l, s'), run, steps, l, s');
  }

  /** The run of one call of `produce`. */
  lemma FirstMessage(c: Config) returns (run: seq<State>, steps: seq<Step>)
    requires |c.values| >= 1
    ensures IsRun(c, run, steps) && steps == [WriteData, StoreFlag] && WellFormed(run[2])
    ensures var s := run[2];
            && |s.flag| == 2 && s.flag[0] == Message(false, Bottom(1, 2)) && s.flag[1].value
            && s.flag[1].view == s.pview && s.cview == Bottom(1, 2)
            && s.pview.clock[PRODUCER] == 1 && s.pview.clock[CONSUMER] == 0
            && s.access[PRODUCER] == 1 && s.access[CONSUMER] == 0
            && s.data == c.values[0] && s.calls == 1 && !s.wrote && s.consumer == Spinning && !s.raced
  {
    run, steps := [INITIAL], [];
    run, steps := ExtendRun(c, run, steps, WriteData);
    run, steps := ExtendRun(c, run, steps, StoreFlag);
  }

  /** The flag's orderings are what makes the data visible: a consumer that reads the raised flag
      knows of the write because its load acquires what the store released, and would not if either
      ordering were relaxed. */
  lemma AcquireAndReleaseAreNeeded(c: Config) returns (run: seq<State>, steps: seq<Step>)
    requires |c.values| >= 1
    ensures IsRun(c, run, steps)
    ensures var s := run[|steps|];
            && WellFormed(s) && Enabled(c, s, LoadFlag(1)) && s.flag[1].value
            && Covers(ReadAcquire(s.cview, FLAG, 1, s.flag[1].view), s.access)
            && !Covers(ReadRelaxed(s.cview, FLAG, 1), s.access)
            && !Covers(ReadAcquire(s.cview, FLAG, 1, Bottom(1, 2)), s.access)
  {
    run, steps := FirstMessage(c);
    var s := run[|steps|];
    assert s.access[PRODUCER] == 1 && ReadRelaxed(s.cview, FLAG, 1).clock[PRODUCER] == 0;
    assert ReadAcquire(s.cview, FLAG, 1, Bottom(1, 2)).clock[PRODUCER] == 0;
  }

  /** "Spins": for any number of tries the consumer may, with the message already sent, read the old
      flag each time. */
  lemma {:induction false} MaySpinOnOldFlag(c: Config, tries: nat) returns (run: seq<State>, steps: seq<Step>)
    requires |c.values| >= 1
    ensures IsRun(c, run, steps) && steps == [WriteData, StoreFlag] + seq(tries, _ => LoadFlag(0))
    ensures WellFormed(run[|steps|]) && run[|steps|].calls == 1 && run[|steps|].consumer.Spinning?
    ensures |run[|steps|].flag| == 2 && !run[|steps|].flag[0].value && run[|steps|].flag[0].view == Bottom(1, 2)
    ensures run[|steps|].cview == Bottom(1, 2)
  {
    if tries == 0 {
      run, steps := FirstMessage(c);
    } else {
      run, steps := MaySpinOnOldFlag(c, tries - 1);
      assert ReadAcquire(Bottom(1, 2), FLAG, 0, Bottom(1, 2)) == Bottom(1, 2);
      run, steps := ExtendRun(c, run, steps, LoadFlag(0));
    }
  }

  /** A channel carries one message only: the write of a second call of `produce` may race with the
      consumer's read of the first message. */
  lemma SecondMessageRaces(c: Config) returns (run: seq<State>, steps: seq<Step>)
    requires |c.values| >= 2
    ensures IsRun(c, run, steps) && |steps| >= 1 && steps[|steps| - 1] == WriteData
    ensures !run[|steps| - 1].raced && run[|steps|].raced
  {
    run, steps := FirstMessage(c);
    run, steps := ExtendRun(c, run, steps, LoadFlag(1));
    run, steps := ExtendRun(c, run, steps, ReadData);
    var s := run[|steps|];
    assert s.access[CONSUMER] == 1 && s.pview.clock[CONSUMER] == 0;
    run, steps := ExtendRun(c, run, steps, WriteData);
  }

  /** The other way round, a consumer that has seen the first message's flag may read while racing with
      the second call, and get the second message. */
  lemma ReadRacesWithSecondMessage(c: Config) returns (run: seq<State>, steps: seq<Step>)
    requires |c.values| >= 2
    ensures IsRun(c, run, steps) && |steps| >= 1 && steps[|steps| - 1] == ReadData
    ensures !run[|steps| - 1].raced && run[|steps|].raced && run[|steps|].consumer == Consumed(c.values[1])
  {
    run, steps := FirstMessage(c);
    run, steps := ExtendRun(c, run, steps, LoadFlag(1));
    run, steps := ExtendRun(c, run, steps, WriteData);
    var s := run[|steps|];
    assert s.access[PRODUCER] == 2 && s.cview.clock[PRODUCER] == 1;
    run, steps := ExtendRun(c, run, steps, ReadData);
  }
}
