/** The single-producer/single-consumer queue on release/acquire memory: one step per atomic
    load, slot access and atomic store, every load free to return any message it may read.
    Line numbers refer to 06_lockfree/spsc_queue.h. */
module SpscWeak {
  import opened Words
  import opened WeakMemory
  import opened BoundedFifo
  import Runs

  // Atomic locations and threads, as indices into a view.
  const HEAD := 0
  const TAIL := 1
  const PRODUCER := 0
  const CONSUMER := 1

  /** A ring slot: its contents, and each thread's latest access to it. Filling a slot and
      moving out of it are both writes, so every two accesses by different threads conflict. */
  datatype Slot<T> = Slot(value: T, access: seq<nat>)

  /** Where the producer is in `push_impl`; `head` is the word it loaded. */
  datatype Producer<T> =
    | PIdle
    | PLoaded(item: T, head: nat)
    | PRoom(item: T, head: nat)
    | PWritten(item: T, head: nat)

  /** Where the consumer is in either `pop`; `tail` is the word it loaded. */
  datatype Consumer<T> =
    | CIdle
    | CLoaded(tail: nat)
    | CNonEmpty(tail: nat)
    | CTaken(value: T, tail: nat)

  datatype State<T> = State(
    head: seq<Message<nat>>, tail: seq<Message<nat>>, slots: seq<Slot<T>>,
    producer: Producer<T>, pview: View, consumer: Consumer<T>, cview: View,
    raced: bool,         // a slot access was not ordered after a conflicting one
    accepted: seq<T>,    // history: items of the pushes that returned true
    delivered: seq<T>)   // history: items of the pops that returned true

  datatype Step<T> =
    | LoadOwnHead(item: T, ts: nat)  // line 100
    | LoadTail(ts: nat)              // line 104
    | WriteSlot                      // line 106
    | StoreHead                      // line 108
    | LoadOwnTail(ts: nat)           // lines 59 and 75
    | LoadHead(ts: nat)              // lines 62 and 76
    | TakeSlot(residue: T)           // lines 65 and 78; `residue` is the moved-from value
    | StoreTail                      // lines 68 and 79
    | PeekTail(ts: nat)              // line 88, called by the producer
    | PeekHead(ts: nat)              // line 87, called by the consumer

  predicate WellFormed<T>(c: Config, s: State<T>) {
    && c.Valid()
    && |s.head| >= 1 && |s.tail| >= 1
    && |s.slots| == c.Capacity()
    && (forall j :: 0 <= j < |s.slots| ==> |s.slots[j].access| == 2)
    && Shaped(s.pview, 2, 2) && Shaped(s.cview, 2, 2)
    && (forall i :: 0 <= i < |s.head| ==> Shaped(s.head[i].view, 2, 2))
    && (forall i :: 0 <= i < |s.tail| ==> Shaped(s.tail[i].view, 2, 2))
  }

  ghost predicate Init<T(!new)>(c: Config, s: State<T>) {
    && WellFormed(c, s)
    && s.head == [Message(0, Bottom(2, 2))] && s.tail == [Message(0, Bottom(2, 2))]
    && (forall j :: 0 <= j < |s.slots| ==> s.slots[j].access == Zeros(2))
    && s.producer == PIdle && s.consumer == CIdle
    && s.pview == Bottom(2, 2) && s.cview == Bottom(2, 2)
    && !s.raced && s.accepted == [] && s.delivered == []
  }

  /** The full test of line 104 on the loaded words. */
  predicate IsFull(c: Config, head: nat, tail: nat) {
    c.Minus(head, tail) == c.Capacity() - 1
  }

  predicate Enabled<T>(c: Config, s: State<T>, step: Step<T>)
    requires WellFormed(c, s)
  {
    match step
    case LoadOwnHead(_, ts) => s.producer.PIdle? && MayRead(s.pview, HEAD, s.head, ts)
    case LoadTail(ts) => s.producer.PLoaded? && MayRead(s.pview, TAIL, s.tail, ts)
    case WriteSlot => s.producer.PRoom?
    case StoreHead => s.producer.PWritten?
    case LoadOwnTail(ts) => s.consumer.CIdle? && MayRead(s.cview, TAIL, s.tail, ts)
    case LoadHead(ts) => s.consumer.CLoaded? && MayRead(s.cview, HEAD, s.head, ts)
    case TakeSlot(_) => s.consumer.CNonEmpty?
    case StoreTail => s.consumer.CTaken?
    case PeekTail(ts) => s.producer.PIdle? && MayRead(s.pview, TAIL, s.tail, ts)
    case PeekHead(ts) => s.consumer.CIdle? && MayRead(s.cview, HEAD, s.head, ts)
  }

  /** The state after an enabled step. A store becomes the newest message of its location:
      each location has one writer, which has seen all of its own stores. */
  function Apply<T>(c: Config, s: State<T>, step: Step<T>): State<T>
    requires WellFormed(c, s) && Enabled(c, s, step)
  {
    match step
    case LoadOwnHead(item, ts) =>
      s.(producer := PLoaded(item, s.head[ts].value), pview := ReadRelaxed(s.pview, HEAD, ts))
    case LoadTail(ts) =>
      var p := s.producer;
      s.(producer := if IsFull(c, p.head, s.tail[ts].value) then PIdle else PRoom(p.item, p.head),
         pview := ReadAcquire(s.pview, TAIL, ts, s.tail[ts].view))
    case WriteSlot =>
      var p := s.producer;
      var j := c.Index(p.head);
      var view := Tick(s.pview, PRODUCER);
      s.(producer := PWritten(p.item, p.head), pview := view,
         slots := s.slots[j := Slot(p.item, s.slots[j].access[PRODUCER := view.clock[PRODUCER]])],
         raced := s.raced || !Covers(s.pview, s.slots[j].access))
    case StoreHead =>
      var view := ReadRelaxed(s.pview, HEAD, |s.head|);
      s.(producer := PIdle, pview := view,
         head := s.head + [Message(c.Successor(s.producer.head), view)],
         accepted := s.accepted + [s.producer.item])
    case LoadOwnTail(ts) =>
      s.(consumer := CLoaded(s.tail[ts].value), cview := ReadRelaxed(s.cview, TAIL, ts))
    case LoadHead(ts) =>
      var tail := s.consumer.tail;
      s.(consumer := if tail == s.head[ts].value then CIdle else CNonEmpty(tail),
         cview := ReadAcquire(s.cview, HEAD, ts, s.head[ts].view))
    case TakeSlot(residue) =>
      var tail := s.consumer.tail;
      var j := c.Index(tail);
      var view := Tick(s.cview, CONSUMER);
      s.(consumer := CTaken(s.slots[j].value, tail), cview := view,
         slots := s.slots[j := Slot(residue, s.slots[j].access[CONSUMER := view.clock[CONSUMER]])],
         raced := s.raced || !Covers(s.cview, s.slots[j].access))
    case StoreTail =>
      var view := ReadRelaxed(s.cview, TAIL, |s.tail|);
      s.(consumer := CIdle, cview := view,
         tail := s.tail + [Message(c.Successor(s.consumer.tail), view)],
         delivered := s.delivered + [s.consumer.value])
    case PeekTail(ts) => s.(pview := ReadRelaxed(s.pview, TAIL, ts))
    case PeekHead(ts) => s.(cview := ReadRelaxed(s.cview, HEAD, ts))
  }

  lemma ApplyWellFormed<T(!new)>(c: Config, s: State<T>, step: Step<T>)
    requires WellFormed(c, s) && Enabled(c, s, step)
    ensures WellFormed(c, Apply(c, s, step))
  {
  }

  predicate Next<T(==)>(c: Config, s: State<T>, step: Step<T>, s': State<T>) {
    WellFormed(c, s) && Enabled(c, s, step) && s' == Apply(c, s, step)
  }

  /** What a step means to the callers of `push` and `pop`. */
  function EventOf<T>(c: Config, s: State<T>, step: Step<T>): Event<T>
    requires WellFormed(c, s) && Enabled(c, s, step)
  {
    match step
    case LoadTail(ts) => if IsFull(c, s.producer.head, s.tail[ts].value) then PushFull else Internal
    case StoreHead => PushOk(s.producer.item)
    case LoadHead(ts) => if s.consumer.tail == s.head[ts].value then PopEmpty else Internal
    case StoreTail => PopOk(s.consumer.value)
    case _ => Internal
  }

  // ---------------------------------------------------------------- invariant

  /** The unbounded counters: how many pushes and pops have been published. */
  function Heads<T>(s: State<T>): int { |s.head| - 1 }
  function Tails<T>(s: State<T>): int { |s.tail| - 1 }

  /** How many slots have been filled and emptied, published or not. */
  function Filled<T>(s: State<T>): int { Heads(s) + if s.producer.PWritten? then 1 else 0 }
  function Emptied<T>(s: State<T>): int { Tails(s) + if s.consumer.CTaken? then 1 else 0 }

  /** No view knows more than has happened. */
  predicate Grounded<T>(s: State<T>, v: View)
    requires Shaped(v, 2, 2)
  {
    && v.seen[HEAD] <= Heads(s) && v.seen[TAIL] <= Tails(s)
    && v.clock[PRODUCER] <= Filled(s) && v.clock[CONSUMER] <= Emptied(s)
  }

  /** Message `n` holds the counter value `n` and publishes the first `n` accesses of its writer. */
  ghost predicate Histories<T(!new)>(c: Config, s: State<T>)
    requires WellFormed(c, s)
  {
    && (forall i :: 0 <= i < |s.head| ==>
          s.head[i].value == c.Counter(i) && s.head[i].view.clock[PRODUCER] >= i && Grounded(s, s.head[i].view))
    && (forall i :: 0 <= i < |s.tail| ==>
          s.tail[i].value == c.Counter(i) && s.tail[i].view.clock[CONSUMER] >= i && Grounded(s, s.tail[i].view))
  }

  /** Each thread knows all it did itself; what it knows of the other bounds the ring. */
  ghost predicate Knowledge<T(!new)>(c: Config, s: State<T>)
    requires WellFormed(c, s)
  {
    && Grounded(s, s.pview) && Grounded(s, s.cview)
    && s.pview.seen[HEAD] == Heads(s) && s.pview.clock[PRODUCER] == Filled(s)
    && s.cview.seen[TAIL] == Tails(s) && s.cview.clock[CONSUMER] == Emptied(s)
    && Heads(s) - s.pview.seen[TAIL] <= c.Capacity() - 1
    && Tails(s) <= s.cview.seen[HEAD]
    && (!s.producer.PIdle? ==> s.producer.head == c.Counter(Heads(s)))
    && (s.producer.PRoom? || s.producer.PWritten? ==>
          && Heads(s) + 2 <= s.pview.seen[TAIL] + c.Capacity()
          && Heads(s) + 2 <= s.pview.clock[CONSUMER] + c.Capacity())
    && (!s.consumer.CIdle? ==> s.consumer.tail == c.Counter(Tails(s)))
    && (s.consumer.CNonEmpty? || s.consumer.CTaken? ==>
          Tails(s) + 1 <= s.cview.seen[HEAD] && Tails(s) + 1 <= s.cview.clock[PRODUCER])
  }

  /** Of a thread's first `count` accesses, which go round the ring, the number of the last one to slot
      `j` (counting from 1; 0 if there was none). */
  function LastAccess(c: Config, j: nat, count: int): (epoch: nat)
    ensures epoch == 0 || (epoch <= count && (epoch - 1) % c.Capacity() == j)
  {
    if count <= 0 then 0
    else if (count - 1) % c.Capacity() == j then count
    else LastAccess(c, j, count - 1)
  }

  /** The next access is the last to its own slot, and no other slot's. */
  lemma NextAccess(c: Config, j: nat, count: nat)
    ensures LastAccess(c, j, count + 1) == if count % c.Capacity() == j then count + 1 else LastAccess(c, j, count)
  {
  }

  lemma {:induction false} LastAccessIsLast(c: Config, j: nat, count: int, n: nat)
    requires LastAccess(c, j, count) <= n < count
    ensures n % c.Capacity() != j
    decreases count
  {
    if n < count - 1 {
      LastAccessIsLast(c, j, count - 1, n);
    }
  }

  ghost predicate Accesses<T(!new)>(c: Config, s: State<T>)
    requires WellFormed(c, s)
  {
    && !s.raced
    && forall j :: 0 <= j < |s.slots| ==>
         && s.slots[j].access[PRODUCER] == LastAccess(c, j, Filled(s))
         && s.slots[j].access[CONSUMER] == LastAccess(c, j, Emptied(s))
  }

  /** The live window of the ring holds the accepted items not yet taken. */
  ghost predicate Contents<T(!new)>(c: Config, s: State<T>)
    requires WellFormed(c, s)
  {
    && |s.accepted| == Heads(s) && |s.delivered| == Tails(s) <= Heads(s)
    && s.delivered == s.accepted[..Tails(s)]
    && (forall n :: Emptied(s) <= n < Heads(s) ==> s.slots[n % c.Capacity()].value == s.accepted[n])
    && (s.producer.PWritten? ==> s.slots[Heads(s) % c.Capacity()].value == s.producer.item)
    && (s.consumer.CTaken? ==> Tails(s) < Heads(s) && s.consumer.value == s.accepted[Tails(s)])
  }

  ghost predicate Inv<T(!new)>(c: Config, s: State<T>) {
    WellFormed(c, s) && Histories(c, s) && Knowledge(c, s) && Accesses(c, s) && Contents(c, s)
  }

  lemma InitEstablishes<T(!new)>(c: Config, s: State<T>)
    requires Init(c, s)
    ensures Inv(c, s)
  {
    SmallRemainder(0, Pow2(c.w));
  }

  /** The full test is exact about the tail it read: room is left by that tail, hence by the real one. */
  lemma FullTestIsFaithful<T(!new)>(c: Config, s: State<T>, ts: nat)
    requires Inv(c, s) && s.producer.PLoaded? && MayRead(s.pview, TAIL, s.tail, ts)
    ensures c.Minus(s.producer.head, s.tail[ts].value) == Heads(s) - ts
    ensures 0 <= Heads(s) - ts <= c.Capacity() - 1
  {
    CapacityFits(c);
    DifferenceIsFaithful(c, Heads(s), ts);
  }

  /** A step that only moves a program counter and a view. */
  predicate IsLoad<T>(step: Step<T>) {
    match step
    case WriteSlot => false
    case StoreHead => false
    case TakeSlot(_) => false
    case StoreTail => false
    case _ => true
  }

  /** A load leaves memory alone, and what holds of it. */
  lemma LoadsKeepMemory<T(!new)>(c: Config, s: State<T>, step: Step<T>)
    requires WellFormed(c, s) && Histories(c, s) && Accesses(c, s) && Contents(c, s)
    requires IsLoad(step) && Enabled(c, s, step)
    ensures WellFormed(c, Apply(c, s, step))
    ensures var s' := Apply(c, s, step); Histories(c, s') && Accesses(c, s') && Contents(c, s')
  {
    var s' := Apply(c, s, step);
    ApplyWellFormed(c, s, step);
    assert s'.head == s.head && s'.tail == s.tail && s'.slots == s.slots && s'.raced == s.raced;
    assert Filled(s') == Filled(s) && Emptied(s') == Emptied(s);
  }

  lemma LoadTailPreserves<T(!new)>(c: Config, s: State<T>, step: Step<T>)
    requires Inv(c, s) && step.LoadTail? && Enabled(c, s, step)
    ensures Inv(c, Apply(c, s, step))
  {
    LoadsKeepMemory(c, s, step);
    FullTestIsFaithful(c, s, step.ts);
  }

  /** The slot about to be filled was last emptied in the producer's past, and is not live. */
  lemma WriteIsOrdered<T(!new)>(c: Config, s: State<T>)
    requires Inv(c, s) && s.producer.PRoom?
    ensures c.Index(s.producer.head) == Heads(s) % c.Capacity()
    ensures Covers(s.pview, s.slots[Heads(s) % c.Capacity()].access)
    ensures forall n :: Tails(s) <= n < Heads(s) ==> n % c.Capacity() != Heads(s) % c.Capacity()
  {
    IndexIsFaithful(c, Heads(s));
    var j := Heads(s) % c.Capacity();
    var e := s.slots[j].access[CONSUMER];
    if e > 0 {
      SameSlotIsFar(e - 1, Heads(s), c.Capacity());
    }
    forall n | Tails(s) <= n < Heads(s)
      ensures n % c.Capacity() != Heads(s) % c.Capacity()
    {
      if n % c.Capacity() == Heads(s) % c.Capacity() {
        SameSlotIsFar(n, Heads(s), c.Capacity());
      }
    }
  }

  /** Accessing a slot raises the accessor's own count and changes no message. */
  lemma SlotStepsKeepViews<T(!new)>(c: Config, s: State<T>, step: Step<T>)
    requires Inv(c, s) && (step.WriteSlot? || step.TakeSlot?) && Enabled(c, s, step)
    ensures WellFormed(c, Apply(c, s, step))
    ensures Histories(c, Apply(c, s, step)) && Knowledge(c, Apply(c, s, step))
  {
    ApplyWellFormed(c, s, step);
  }

  /** The access put on record is the last to its slot; the other slots' last ones are as before. */
  lemma WriteSlotIsRecorded<T(!new)>(c: Config, s: State<T>, step: Step<T>)
    requires WellFormed(c, s) && Accesses(c, s) && step.WriteSlot? && Enabled(c, s, step)
    requires c.Index(s.producer.head) == Heads(s) % c.Capacity() && s.pview.clock[PRODUCER] == Heads(s)
    requires Covers(s.pview, s.slots[Heads(s) % c.Capacity()].access)
    ensures WellFormed(c, Apply(c, s, step)) && Accesses(c, Apply(c, s, step))
  {
    var s' := Apply(c, s, step);
    ApplyWellFormed(c, s, step);
    assert Filled(s') == Heads(s) + 1 && Filled(s) == Heads(s) && Emptied(s') == Emptied(s);
    forall j | 0 <= j < |s'.slots|
      ensures s'.slots[j].access[PRODUCER] == LastAccess(c, j, Filled(s'))
      ensures s'.slots[j].access[CONSUMER] == LastAccess(c, j, Emptied(s'))
    {
      NextAccess(c, j, Heads(s));
    }
  }

  lemma WriteSlotKeepsContents<T(!new)>(c: Config, s: State<T>, step: Step<T>)
    requires Inv(c, s) && step.WriteSlot? && Enabled(c, s, step)
    ensures WellFormed(c, Apply(c, s, step)) && Contents(c, Apply(c, s, step))
  {
    ApplyWellFormed(c, s, step);
    WriteIsOrdered(c, s);
  }

  lemma WriteSlotPreserves<T(!new)>(c: Config, s: State<T>, step: Step<T>)
    requires Inv(c, s) && step.WriteSlot? && Enabled(c, s, step)
    ensures Inv(c, Apply(c, s, step))
  {
    WriteIsOrdered(c, s);
    WriteSlotIsRecorded(c, s, step);
    WriteSlotKeepsContents(c, s, step);
    SlotStepsKeepViews(c, s, step);
  }

  /** A store adds one message that publishes everything its writer knows. */
  lemma StoreHeadExtendsHistory<T(!new)>(c: Config, s: State<T>, step: Step<T>)
    requires WellFormed(c, s) && Histories(c, s) && Knowledge(c, s) && step.StoreHead? && Enabled(c, s, step)
    ensures WellFormed(c, Apply(c, s, step)) && Histories(c, Apply(c, s, step))
  {
    var s' := Apply(c, s, step);
    ApplyWellFormed(c, s, step);
    SuccessorIsFaithful(c, Heads(s));
    assert Filled(s') == Filled(s) && Emptied(s') == Emptied(s);
    forall i | 0 <= i < |s'.head|
      ensures s'.head[i].value == c.Counter(i) && s'.head[i].view.clock[PRODUCER] >= i && Grounded(s', s'.head[i].view)
    {
      assert i < |s.head| ==> s'.head[i] == s.head[i];
    }
  }

  lemma StoreTailExtendsHistory<T(!new)>(c: Config, s: State<T>, step: Step<T>)
    requires WellFormed(c, s) && Histories(c, s) && Knowledge(c, s) && step.StoreTail? && Enabled(c, s, step)
    ensures WellFormed(c, Apply(c, s, step)) && Histories(c, Apply(c, s, step))
  {
    var s' := Apply(c, s, step);
    ApplyWellFormed(c, s, step);
    SuccessorIsFaithful(c, Tails(s));
    assert Filled(s') == Filled(s) && Emptied(s') == Emptied(s);
    forall i | 0 <= i < |s'.tail|
      ensures s'.tail[i].value == c.Counter(i) && s'.tail[i].view.clock[CONSUMER] >= i && Grounded(s', s'.tail[i].view)
    {
      assert i < |s.tail| ==> s'.tail[i] == s.tail[i];
    }
  }

  /** The item just published is the one in the slot. */
  lemma StoreHeadKeepsContents<T(!new)>(c: Config, s: State<T>, step: Step<T>)
    requires Inv(c, s) && step.StoreHead? && Enabled(c, s, step)
    ensures WellFormed(c, Apply(c, s, step)) && Contents(c, Apply(c, s, step))
  {
    var s' := Apply(c, s, step);
    ApplyWellFormed(c, s, step);
    forall n | Emptied(s') <= n < Heads(s')
      ensures s'.slots[n % c.Capacity()].value == s'.accepted[n]
    {
      assert n < Heads(s) ==> s'.accepted[n] == s.accepted[n];
    }
  }

  lemma StoreHeadPreserves<T(!new)>(c: Config, s: State<T>, step: Step<T>)
    requires Inv(c, s) && step.StoreHead? && Enabled(c, s, step)
    ensures Inv(c, Apply(c, s, step))
  {
    StoreHeadExtendsHistory(c, s, step);
    StoreHeadKeepsContents(c, s, step);
    SuccessorIsFaithful(c, Heads(s));
  }

  /** The empty test is exact about the head it read. */
  lemma EmptyTestIsFaithful<T(!new)>(c: Config, s: State<T>, ts: nat)
    requires Inv(c, s) && s.consumer.CLoaded? && MayRead(s.cview, HEAD, s.head, ts)
    ensures s.consumer.tail == s.head[ts].value <==> ts == Tails(s)
    ensures Tails(s) <= ts
  {
    CapacityFits(c);
    EqualityIsFaithful(c, ts, Tails(s));
  }

  lemma LoadHeadPreserves<T(!new)>(c: Config, s: State<T>, step: Step<T>)
    requires Inv(c, s) && step.LoadHead? && Enabled(c, s, step)
    ensures Inv(c, Apply(c, s, step))
  {
    LoadsKeepMemory(c, s, step);
    EmptyTestIsFaithful(c, s, step.ts);
  }

  /** The items filled behind the oldest one are in other slots. */
  lemma YoungerSlotsDiffer<T(!new)>(c: Config, s: State<T>, n: int)
    requires Inv(c, s) && s.consumer.CNonEmpty? && Tails(s) < n < Filled(s)
    ensures n % c.Capacity() != Tails(s) % c.Capacity()
  {
    if n % c.Capacity() == Tails(s) % c.Capacity() {
      SameSlotIsFar(Tails(s), n, c.Capacity());
    }
  }

  /** The last filling of the oldest item's slot was that item's, or an earlier one's. */
  lemma LastFillIsKnown<T(!new)>(c: Config, s: State<T>, j: nat)
    requires Inv(c, s) && s.consumer.CNonEmpty? && j == Tails(s) % c.Capacity()
    ensures j < |s.slots| && s.slots[j].access[PRODUCER] <= Tails(s) + 1
  {
    var e := s.slots[j].access[PRODUCER];
    if e > Tails(s) + 1 {
      YoungerSlotsDiffer(c, s, e - 1);
    }
  }

  /** What the consumer knows of the slot it is about to empty. */
  lemma TakeIsCovered<T(!new)>(c: Config, s: State<T>, j: nat)
    requires Inv(c, s) && s.consumer.CNonEmpty? && j == Tails(s) % c.Capacity()
    ensures j < |s.slots| && Covers(s.cview, s.slots[j].access)
  {
    LastFillIsKnown(c, s, j);
    assert s.slots[j].access[CONSUMER] <= Emptied(s);
  }

  /** The slot about to be emptied was last filled in the consumer's past, with the next item. */
  lemma TakeIsOrdered<T(!new)>(c: Config, s: State<T>)
    requires Inv(c, s) && s.consumer.CNonEmpty?
    ensures c.Index(s.consumer.tail) == Tails(s) % c.Capacity()
    ensures Covers(s.cview, s.slots[Tails(s) % c.Capacity()].access)
    ensures forall n :: Tails(s) < n < Filled(s) ==> n % c.Capacity() != Tails(s) % c.Capacity()
  {
    IndexIsFaithful(c, Tails(s));
    var j := Tails(s) % c.Capacity();
    TakeIsCovered(c, s, j);
    forall n | Tails(s) < n < Filled(s)
      ensures n % c.Capacity() != j
    {
      YoungerSlotsDiffer(c, s, n);
    }
  }

  lemma TakeSlotIsRecorded<T(!new)>(c: Config, s: State<T>, step: Step<T>)
    requires WellFormed(c, s) && Accesses(c, s) && step.TakeSlot? && Enabled(c, s, step)
    requires c.Index(s.consumer.tail) == Tails(s) % c.Capacity() && s.cview.clock[CONSUMER] == Tails(s)
    requires Covers(s.cview, s.slots[Tails(s) % c.Capacity()].access)
    ensures WellFormed(c, Apply(c, s, step)) && Accesses(c, Apply(c, s, step))
  {
    var s' := Apply(c, s, step);
    ApplyWellFormed(c, s, step);
    assert Emptied(s') == Tails(s) + 1 && Emptied(s) == Tails(s) && Filled(s') == Filled(s);
    forall j | 0 <= j < |s'.slots|
      ensures s'.slots[j].access[PRODUCER] == LastAccess(c, j, Filled(s'))
      ensures s'.slots[j].access[CONSUMER] == LastAccess(c, j, Emptied(s'))
    {
      NextAccess(c, j, Tails(s));
    }
  }

  lemma TakeSlotKeepsContents<T(!new)>(c: Config, s: State<T>, step: Step<T>)
    requires Inv(c, s) && step.TakeSlot? && Enabled(c, s, step)
    ensures WellFormed(c, Apply(c, s, step)) && Contents(c, Apply(c, s, step))
  {
    ApplyWellFormed(c, s, step);
    TakeIsOrdered(c, s);
  }

  lemma TakeSlotPreserves<T(!new)>(c: Config, s: State<T>, step: Step<T>)
    requires Inv(c, s) && step.TakeSlot? && Enabled(c, s, step)
    ensures Inv(c, Apply(c, s, step))
  {
    TakeIsOrdered(c, s);
    TakeSlotIsRecorded(c, s, step);
    TakeSlotKeepsContents(c, s, step);
    SlotStepsKeepViews(c, s, step);
  }

  lemma StoreTailPreserves<T(!new)>(c: Config, s: State<T>, step: Step<T>)
    requires Inv(c, s) && step.StoreTail? && Enabled(c, s, step)
    ensures Inv(c, Apply(c, s, step))
  {
    StoreTailExtendsHistory(c, s, step);
  }

  /** Loads of one's own counter, and the loads of `size_approx`, change only a view. */
  lemma LoadOwnHeadPreserves<T(!new)>(c: Config, s: State<T>, step: Step<T>)
    requires Inv(c, s) && Enabled(c, s, step) && step.LoadOwnHead?
    ensures Inv(c, Apply(c, s, step))
  {
    LoadsKeepMemory(c, s, step);
  }

  lemma LoadOwnTailPreserves<T(!new)>(c: Config, s: State<T>, step: Step<T>)
    requires Inv(c, s) && Enabled(c, s, step) && step.LoadOwnTail?
    ensures Inv(c, Apply(c, s, step))
  {
    LoadsKeepMemory(c, s, step);
  }

  lemma PeekPreserves<T(!new)>(c: Config, s: State<T>, step: Step<T>)
    requires Inv(c, s) && Enabled(c, s, step) && (step.PeekTail? || step.PeekHead?)
    ensures Inv(c, Apply(c, s, step))
  {
    LoadsKeepMemory(c, s, step);
  }

  lemma StepPreserves<T(!new)>(c: Config, s: State<T>, step: Step<T>, s': State<T>)
    requires Inv(c, s) && Next(c, s, step, s')
    ensures Inv(c, s')
  {
    match step
    case LoadTail(_) => LoadTailPreserves(c, s, step);
    case WriteSlot => WriteSlotPreserves(c, s, step);
    case StoreHead => StoreHeadPreserves(c, s, step);
    case LoadHead(_) => LoadHeadPreserves(c, s, step);
    case TakeSlot(_) => TakeSlotPreserves(c, s, step);
    case StoreTail => StoreTailPreserves(c, s, step);
    case LoadOwnHead(_, _) => LoadOwnHeadPreserves(c, s, step);
    case LoadOwnTail(_) => LoadOwnTailPreserves(c, s, step);
    case PeekTail(_) => PeekPreserves(c, s, step);
    case PeekHead(_) => PeekPreserves(c, s, step);
  }

  ghost predicate IsRun<T(!new)>(c: Config, run: seq<State<T>>, steps: seq<Step<T>>) {
    Runs.IsRun(s => Init(c, s), (s, l, s') => Next(c, s, l, s'), run, steps)
  }

  lemma RunsKeepInv<T(!new)>(c: Config, run: seq<State<T>>, steps: seq<Step<T>>)
    requires IsRun(c, run, steps)
    ensures forall i :: 0 <= i < |run| ==> Inv(c, run[i])
  {
    forall s: State<T> | Init(c, s)
      ensures Inv(c, s)
    {
      InitEstablishes(c, s);
    }
    forall s: State<T>, l, s' | Inv(c, s) && Next(c, s, l, s')
      ensures Inv(c, s')
    {
      StepPreserves(c, s, l, s');
    }
    Runs.Invariance(s => Init(c, s), (s, l, s') => Next(c, s, l, s'), s => Inv(c, s), run, steps);
  }

  // ---------------------------------------------------------------- safety of every run

  /** What the comments of the queue claim of a state, in terms of its memory. */
  ghost predicate Safe<T(!new)>(c: Config, s: State<T>)
    requires WellFormed(c, s)
  {
    // no data race on the buffer so far: of each slot the last filling and the last emptying are on
    // record, and a thread about to access it knows of both
    && !s.raced
    && (forall j :: 0 <= j < |s.slots| ==>
          s.slots[j].access == [LastAccess(c, j, Filled(s)), LastAccess(c, j, Emptied(s))])
    && (s.producer.PRoom? ==> Covers(s.pview, s.slots[c.Index(s.producer.head)].access))
    && (s.consumer.CNonEmpty? ==> Covers(s.cview, s.slots[c.Index(s.consumer.tail)].access))
    // what each side knows of the other: never too much room, never an item that is not there
    && Heads(s) - s.pview.seen[TAIL] <= c.Capacity() - 1
    && Tails(s) <= s.cview.seen[HEAD] <= Heads(s)
    // the ring never holds more than the capacity less one
    && 0 <= Heads(s) - Tails(s) <= c.Capacity() - 1
    // conservation: accepted items are those delivered followed by those still queued
    && |s.accepted| == Heads(s) && |s.delivered| == Tails(s)
    && s.delivered == s.accepted[..|s.delivered|]
    // every queued item is in the slot its masked counter names, until the consumer takes it
    && (forall n {:trigger s.accepted[n]} :: Emptied(s) <= n < Heads(s) ==>
          s.slots[c.Index(c.Counter(n))].value == s.accepted[n])
    // the slot the producer is about to fill holds no queued item
    && (s.producer.PRoom? ==>
          forall n {:trigger c.Counter(n)} :: Tails(s) <= n < Heads(s) ==>
            c.Index(c.Counter(n)) != c.Index(s.producer.head))
  }

  /** On every run of one producer and one consumer, under stale reads: no data race, and no
      item lost, duplicated or overwritten while queued. */
  lemma RunsAreSafe<T(!new)>(c: Config, run: seq<State<T>>, steps: seq<Step<T>>, i: nat)
    requires IsRun(c, run, steps) && i < |run|
    ensures WellFormed(c, run[i]) && Safe(c, run[i])
  {
    RunsKeepInv(c, run, steps);
    InvIsSafe(c, run[i]);
  }

  /** The words and the mask name the slots of the queued items. */
  lemma QueuedItemsAreInPlace<T(!new)>(c: Config, s: State<T>)
    requires Inv(c, s)
    ensures forall n {:trigger s.accepted[n]} :: Emptied(s) <= n < Heads(s) ==>
              s.slots[c.Index(c.Counter(n))].value == s.accepted[n]
  {
    forall n: nat | Emptied(s) <= n < Heads(s)
      ensures s.slots[c.Index(c.Counter(n))].value == s.accepted[n]
    {
      IndexIsFaithful(c, n);
    }
  }

  /** The slot the producer's word names is known to it and holds no queued item. */
  lemma SlotToFillIsFree<T(!new)>(c: Config, s: State<T>)
    requires Inv(c, s) && s.producer.PRoom?
    ensures Covers(s.pview, s.slots[c.Index(s.producer.head)].access)
    ensures forall n {:trigger c.Counter(n)} :: Tails(s) <= n < Heads(s) ==>
              c.Index(c.Counter(n)) != c.Index(s.producer.head)
  {
    WriteIsOrdered(c, s);
    forall n: nat | Tails(s) <= n < Heads(s)
      ensures c.Index(c.Counter(n)) != c.Index(s.producer.head)
    {
      IndexIsFaithful(c, n);
    }
  }

  lemma InvIsSafe<T(!new)>(c: Config, s: State<T>)
    requires Inv(c, s)
    ensures Safe(c, s)
  {
    if s.producer.PRoom? {
      SlotToFillIsFree(c, s);
    }
    if s.consumer.CNonEmpty? {
      TakeIsOrdered(c, s);
    }
    QueuedItemsAreInPlace(c, s);
  }

  // ---------------------------------------------------------------- refinement

  /** The queue a state stands for: accepted and not yet delivered. */
  function Queue<T>(s: State<T>): seq<T> {
    if |s.delivered| <= |s.accepted| then s.accepted[|s.delivered|..] else []
  }

  predicate ReadsNewest<T>(s: State<T>, step: Step<T>) {
    match step
    case LoadTail(ts) => ts == Tails(s)
    case LoadHead(ts) => ts == Heads(s)
    case PeekTail(ts) => ts == Tails(s)
    case PeekHead(ts) => ts == Heads(s)
    case _ => true
  }

  /** A successful push takes effect at the head store and a successful pop at the tail store,
      with the right item; no other step moves the queue. A step is one of the exact FIFO unless it
      is a failure that did not read the newest counter of the other side, and only then. */
  lemma StepRefines<T(!new)>(c: Config, s: State<T>, step: Step<T>, s': State<T>)
    requires Inv(c, s) && Next(c, s, step, s')
    ensures Effect(c.Capacity() - 1, Queue(s), EventOf(c, s, step), Queue(s'))
    ensures var e := EventOf(c, s, step);
            Exact(c.Capacity() - 1, Queue(s), e, Queue(s')) <==> (e.PushFull? || e.PopEmpty? ==> ReadsNewest(s, step))
  {
    match step
    case LoadTail(ts) => FullTestIsFaithful(c, s, ts);
    case LoadHead(ts) => EmptyTestIsFaithful(c, s, ts);
    case _ =>
  }

  function Events<T>(c: Config, run: seq<State<T>>, steps: seq<Step<T>>): (es: seq<Event<T>>)
    requires |run| == |steps| + 1
    requires forall i :: 0 <= i < |steps| ==> WellFormed(c, run[i]) && Enabled(c, run[i], steps[i])
  {
    seq(|steps|, i requires 0 <= i < |steps| => EventOf(c, run[i], steps[i]))
  }

  /** Over a whole run the pops return the pushed items, each once, in the order pushed; the
      items not yet popped are the queue, of at most the capacity less one. */
  lemma RunsAreFifo<T(!new)>(c: Config, run: seq<State<T>>, steps: seq<Step<T>>)
    requires IsRun(c, run, steps)
    ensures forall i :: 0 <= i < |steps| ==> WellFormed(c, run[i]) && Enabled(c, run[i], steps[i])
    ensures var es := Events(c, run, steps);
            Pushed(es) == Popped(es) + Queue(run[|steps|]) && |Queue(run[|steps|])| <= c.Capacity() - 1
  {
    RunsKeepInv(c, run, steps);
    forall i | 0 <= i < |steps|
      ensures WellFormed(c, run[i]) && Enabled(c, run[i], steps[i])
    {
      assert Next(c, run[i], steps[i], run[i + 1]);
    }
    var qs := seq(|run|, i requires 0 <= i < |run| => Queue(run[i]));
    var es := Events(c, run, steps);
    forall i | 0 <= i < |es|
      ensures Effect(c.Capacity() - 1, qs[i], es[i], qs[i + 1])
    {
      StepRefines(c, run[i], steps[i], run[i + 1]);
    }
    HistoryConserves(c.Capacity() - 1, qs, es);
    assert Inv(c, run[|steps|]);
  }

  // ---------------------------------------------------------------- size_approx

  /** Stored messages stay, and only a thread's own store adds to its counter's history. */
  lemma {:induction false} HistoriesGrow<T(!new)>(c: Config, run: seq<State<T>>, steps: seq<Step<T>>, i: nat, j: nat)
    requires IsRun(c, run, steps) && i <= j < |run|
    ensures run[i].head <= run[j].head && run[i].tail <= run[j].tail
    ensures (forall l :: i <= l < j ==> !steps[l].StoreHead?) ==> run[i].head == run[j].head
    ensures (forall l :: i <= l < j ==> !steps[l].StoreTail?) ==> run[i].tail == run[j].tail
    decreases j
  {
    if i < j {
      HistoriesGrow(c, run, steps, i, j - 1);
      assert Next(c, run[j - 1], steps[j - 1], run[j]);
    }
  }

  /** The word `size_approx` returns, from the messages its two loads read. */
  function SizeApprox<T>(c: Config, s: State<T>, headTs: nat, s': State<T>, tailTs: nat): nat
    requires headTs < |s.head| && tailTs < |s'.tail|
  {
    c.Minus(s.head[headTs].value, s'.tail[tailTs].value)
  }

  /** `size_approx` called by the producer, between pushes: the head is read in state `i`, the tail
      in state `j`. Whatever messages it reads, the result is never below the true size nor above
      the usable capacity, so "empty" is the truth. */
  lemma ProducerSize<T(!new)>(c: Config, run: seq<State<T>>, steps: seq<Step<T>>, i: nat, headTs: nat, j: nat, tailTs: nat)
    requires IsRun(c, run, steps) && i <= j < |run|
    requires forall l :: i <= l < j ==> !steps[l].StoreHead?
    requires |run[i].pview.seen| == 2 && MayRead(run[i].pview, HEAD, run[i].head, headTs)
    requires |run[j].pview.seen| == 2 && MayRead(run[j].pview, TAIL, run[j].tail, tailTs)
    ensures var size := SizeApprox(c, run[i], headTs, run[j], tailTs);
            && |Queue(run[j])| <= size <= c.Capacity() - 1
            && (size == 0 ==> Queue(run[j]) == [])
  {
    RunsKeepInv(c, run, steps);
    HistoriesGrow(c, run, steps, i, j);
    assert Inv(c, run[i]) && Inv(c, run[j]);
    CapacityFits(c);
    DifferenceIsFaithful(c, headTs, tailTs);
  }

  /** `size_approx` called by the consumer, between pops: never above the true size, so "full" is
      the truth. */
  lemma ConsumerSize<T(!new)>(c: Config, run: seq<State<T>>, steps: seq<Step<T>>, i: nat, headTs: nat, j: nat, tailTs: nat)
    requires IsRun(c, run, steps) && i <= j < |run|
    requires forall l :: i <= l < j ==> !steps[l].StoreTail?
    requires |run[i].cview.seen| == 2 && MayRead(run[i].cview, HEAD, run[i].head, headTs)
    requires |run[j].cview.seen| == 2 && MayRead(run[j].cview, TAIL, run[j].tail, tailTs)
    ensures var size := SizeApprox(c, run[i], headTs, run[j], tailTs);
            && 0 <= size <= |Queue(run[j])| <= c.Capacity() - 1
            && (size == c.Capacity() - 1 ==> |Queue(run[j])| == c.Capacity() - 1)
  {
    RunsKeepInv(c, run, steps);
    HistoriesGrow(c, run, steps, i, j);
    assert Inv(c, run[i]) && Inv(c, run[j]);
    CapacityFits(c);
    DifferenceIsFaithful(c, headTs, tailTs);
  }

  /** A run with one more enabled step. */
  lemma ExtendRun<T(!new)>(c: Config, run: seq<State<T>>, steps: seq<Step<T>>, l: Step<T>)
    returns (run': seq<State<T>>, steps': seq<Step<T>>)
    requires IsRun(c, run, steps) && WellFormed(c, run[|steps|]) && Enabled(c, run[|steps|], l)
    ensures IsRun(c, run', steps') && steps' == steps + [l]
    ensures run' == run + [Apply(c, run[|steps|], l)] && WellFormed(c, run'[|steps'|])
  {
    var s' := Apply(c, run[|steps|], l);
    ApplyWellFormed(c, run[|steps|], l);
    run', steps' := Runs.Extend((s: State<T>) => Init(c, s), (s, l, s') => Next(c, s, l, s'), run, steps, l, s');
  }

  /** The run in which the producer alone pushes `x` onto a fresh queue. */
  lemma OnePush<T(!new)>(c: Config, buffer: seq<T>, x: T) returns (run: seq<State<T>>, steps: seq<Step<T>>)
    requires c.Valid() && |buffer| == c.Capacity()
    ensures IsRun(c, run, steps) && |run| == 5 && WellFormed(c, run[4])
    ensures |run[4].head| == 2 && |run[4].tail| == 1 && run[4].producer == PIdle && run[4].consumer == CIdle
    ensures run[4].head[1].value == c.Counter(1) && run[4].tail[0].value == c.Counter(0)
    ensures run[4].accepted == [x] && run[4].delivered == []
    ensures run[4].cview == Bottom(2, 2) && run[4].pview.seen == [1, 0]
    ensures run[4].slots[c.Index(c.Counter(0))] == Slot(x, [1, 0]) && run[4].head[1].view.clock == [1, 0]
  {
    CapacityFits(c);
    SmallRemainder(0, Pow2(c.w));
    SuccessorIsFaithful(c, 0);
    var slots := seq(c.Capacity(), i requires 0 <= i < c.Capacity() => Slot(buffer[i], Zeros(2)));
    var m := Message(0, Bottom(2, 2));
    var s0 := State([m], [m], slots, PIdle, Bottom(2, 2), CIdle, Bottom(2, 2), false, [], []);
    run, steps := [s0], [];
    run, steps := ExtendRun(c, run, steps, LoadOwnHead(x, 0));
    run, steps := ExtendRun(c, run, steps, LoadTail(0));
    assert run[2].producer == PRoom(x, 0);
    run, steps := ExtendRun(c, run, steps, WriteSlot);
    run, steps := ExtendRun(c, run, steps, StoreHead);
  }

  /** Without the acquire on the head load the pop would race: a reachable consumer may read a
      head that promises an item whose filling only the acquired view covers. */
  lemma AcquireIsNeeded<T(!new)>(c: Config, buffer: seq<T>, x: T)
    returns (run: seq<State<T>>, steps: seq<Step<T>>, ts: nat)
    requires c.Valid() && |buffer| == c.Capacity()
    ensures IsRun(c, run, steps)
    ensures var s := run[|steps|];
            && WellFormed(c, s) && Enabled(c, s, LoadHead(ts)) && s.consumer.tail != s.head[ts].value
            && var access := s.slots[c.Index(s.consumer.tail)].access;
               && !Covers(ReadRelaxed(s.cview, HEAD, ts), access)
               && Covers(ReadAcquire(s.cview, HEAD, ts, s.head[ts].view), access)
  {
    run, steps := OnePush(c, buffer, x);
    run, steps := ExtendRun(c, run, steps, LoadOwnTail(0));
    ts := 1;
    CapacityFits(c);
    EqualityIsFaithful(c, 1, 0);
  }
}
