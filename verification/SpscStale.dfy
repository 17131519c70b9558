/** What stale reads can do to the queue: exactly when an operation may be refused although it need
    not be, and what a third thread may see in `size_approx`.
    Line numbers refer to 06_lockfree/spsc_queue.h. */
module SpscStale {
  import opened Words
  import opened WeakMemory
  import opened BoundedFifo
  import opened SpscWeak

  // ---------------------------------------------------------------- refused operations

  /** A producer at line 104 may read tail `ts`, and is refused if it does. */
  predicate RefusesPush<T>(c: Config, s: State<T>, ts: nat)
    requires WellFormed(c, s)
  {
    Enabled(c, s, LoadTail(ts)) && EventOf(c, s, LoadTail(ts)) == PushFull
  }

  /** A consumer at line 62 may read head `ts`, and is refused if it does. */
  predicate RefusesPop<T>(c: Config, s: State<T>, ts: nat)
    requires WellFormed(c, s)
  {
    Enabled(c, s, LoadHead(ts)) && EventOf(c, s, LoadHead(ts)) == PopEmpty
  }

  /** A push is refused by exactly one tail, the one a full ring behind; the refusal tells the truth
      exactly when that tail is the newest. */
  lemma PushRefusal<T(!new)>(c: Config, s: State<T>, ts: nat)
    requires Inv(c, s) && Enabled(c, s, LoadTail(ts))
    ensures RefusesPush(c, s, ts) <==> Heads(s) - ts == c.Capacity() - 1
    ensures RefusesPush(c, s, ts) ==> (|Queue(s)| == c.Capacity() - 1 <==> ts == Tails(s))
  {
    FullTestIsFaithful(c, s, ts);
  }

  /** A pop is refused by exactly one head, the consumer's own count; the refusal tells the truth
      exactly when that head is the newest. */
  lemma PopRefusal<T(!new)>(c: Config, s: State<T>, ts: nat)
    requires Inv(c, s) && Enabled(c, s, LoadHead(ts))
    ensures RefusesPop(c, s, ts) <==> ts == Tails(s)
    ensures RefusesPop(c, s, ts) ==> (Queue(s) == [] <==> ts == Heads(s))
  {
    EmptyTestIsFaithful(c, s, ts);
  }

  /** Decided before the load: a push can be refused exactly when the newest tail the producer
      already knows of leaves the ring full, and wrongly refused exactly when moreover that tail is
      out of date. */
  lemma PushCanBeRefused<T(!new)>(c: Config, s: State<T>)
    requires Inv(c, s) && s.producer.PLoaded?
    ensures (exists ts: nat :: RefusesPush(c, s, ts)) <==> Heads(s) - s.pview.seen[TAIL] == c.Capacity() - 1
    ensures (exists ts: nat :: RefusesPush(c, s, ts) && |Queue(s)| < c.Capacity() - 1)
            <==> Heads(s) - s.pview.seen[TAIL] == c.Capacity() - 1 && s.pview.seen[TAIL] < Tails(s)
  {
    PushRefusal(c, s, s.pview.seen[TAIL]);
    forall ts: nat | RefusesPush(c, s, ts)
      ensures ts == s.pview.seen[TAIL] == Heads(s) - (c.Capacity() - 1)
      ensures |Queue(s)| == c.Capacity() - 1 <==> ts == Tails(s)
    {
      PushRefusal(c, s, ts);
    }
  }

  /** Likewise a pop can be refused exactly when the consumer does not yet know of an item, and
      wrongly refused exactly when moreover there is one. A consumer that knows of an item gets it. */
  lemma PopCanBeRefused<T(!new)>(c: Config, s: State<T>)
    requires Inv(c, s) && s.consumer.CLoaded?
    ensures (exists ts: nat :: RefusesPop(c, s, ts)) <==> s.cview.seen[HEAD] == Tails(s)
    ensures (exists ts: nat :: RefusesPop(c, s, ts) && Queue(s) != [])
            <==> s.cview.seen[HEAD] == Tails(s) < Heads(s)
  {
    PopRefusal(c, s, s.cview.seen[HEAD]);
    forall ts: nat | RefusesPop(c, s, ts)
      ensures ts == s.cview.seen[HEAD] == Tails(s)
      ensures Queue(s) == [] <==> ts == Heads(s)
    {
      PopRefusal(c, s, ts);
    }
  }

  // ---------------------------------------------------------------- runs of one side at a time

  /** The last state of a run. */
  function Last<T>(run: seq<State<T>>): State<T>
    requires |run| > 0
  {
    run[|run| - 1]
  }

  /** The run of no steps. */
  lemma FreshQueue<T(!new)>(c: Config, buffer: seq<T>) returns (run: seq<State<T>>, steps: seq<Step<T>>)
    requires c.Valid() && |buffer| == c.Capacity()
    ensures IsRun(c, run, steps) && WellFormed(c, Last(run))
    ensures Last(run).producer == PIdle && Last(run).consumer == CIdle
    ensures |Last(run).head| == 1 && Last(run).tail == [Message(0, Bottom(2, 2))]
    ensures Last(run).pview == Bottom(2, 2) && Last(run).cview == Bottom(2, 2)
  {
    var slots := seq(c.Capacity(), i requires 0 <= i < c.Capacity() => Slot(buffer[i], Zeros(2)));
    var m := Message(0, Bottom(2, 2));
    run, steps := [State([m], [m], slots, PIdle, Bottom(2, 2), CIdle, Bottom(2, 2), false, [], [])], [];
  }

  /** What the full test decides in the last state of a run. */
  lemma FullTestOnRun<T(!new)>(c: Config, run: seq<State<T>>, steps: seq<Step<T>>, ts: nat)
    requires IsRun(c, run, steps) && WellFormed(c, Last(run)) && Enabled(c, Last(run), LoadTail(ts))
    ensures IsFull(c, Last(run).producer.head, Last(run).tail[ts].value) <==> Heads(Last(run)) - ts == c.Capacity() - 1
  {
    RunsKeepInv(c, run, steps);
    assert Inv(c, run[|steps|]);
    FullTestIsFaithful(c, Last(run), ts);
  }

  lemma EmptyTestOnRun<T(!new)>(c: Config, run: seq<State<T>>, steps: seq<Step<T>>, ts: nat)
    requires IsRun(c, run, steps) && WellFormed(c, Last(run)) && Enabled(c, Last(run), LoadHead(ts))
    ensures Last(run).consumer.tail == Last(run).head[ts].value <==> ts == Tails(Last(run))
  {
    RunsKeepInv(c, run, steps);
    assert Inv(c, run[|steps|]);
    EmptyTestIsFaithful(c, Last(run), ts);
  }

  /** Each thread knows its own counter, and the history of an item in flight is recorded. */
  lemma CountersOnRun<T(!new)>(c: Config, run: seq<State<T>>, steps: seq<Step<T>>)
    requires IsRun(c, run, steps) && WellFormed(c, Last(run))
    ensures var s := Last(run);
            && s.pview.seen[HEAD] == Heads(s) && s.cview.seen[TAIL] == Tails(s)
            && s.cview.seen[HEAD] <= Heads(s) && s.pview.seen[TAIL] <= Tails(s)
            && |s.accepted| == Heads(s) && |s.delivered| == Tails(s) <= Heads(s)
            && |Queue(s)| == Heads(s) - Tails(s)
  {
    RunsKeepInv(c, run, steps);
    assert Inv(c, run[|steps|]);
  }

  /** The producer alone pushes `x`, reading tail `ts`. */
  lemma PushAlone<T(!new)>(c: Config, run: seq<State<T>>, steps: seq<Step<T>>, x: T, ts: nat)
    returns (run': seq<State<T>>, steps': seq<Step<T>>)
    requires IsRun(c, run, steps) && WellFormed(c, Last(run))
    requires Last(run).producer.PIdle? && MayRead(Last(run).pview, TAIL, Last(run).tail, ts)
    requires Heads(Last(run)) - ts < c.Capacity() - 1
    ensures IsRun(c, run', steps') && WellFormed(c, Last(run'))
    ensures var s, s' := Last(run), Last(run');
            && s'.producer.PIdle? && |s'.head| == |s.head| + 1 && s'.tail == s.tail
            && s'.consumer == s.consumer && s'.cview == s.cview
            && s'.pview.seen[TAIL] == Max(ts, s.tail[ts].view.seen[TAIL])
  {
    CountersOnRun(c, run, steps);
    run', steps' := ExtendRun(c, run, steps, LoadOwnHead(x, Heads(Last(run))));
    FullTestOnRun(c, run', steps', ts);
    run', steps' := ExtendRun(c, run', steps', LoadTail(ts));
    run', steps' := ExtendRun(c, run', steps', WriteSlot);
    run', steps' := ExtendRun(c, run', steps', StoreHead);
  }

  /** The consumer alone pops, reading the newest head. */
  lemma PopAlone<T(!new)>(c: Config, run: seq<State<T>>, steps: seq<Step<T>>, residue: T)
    returns (run': seq<State<T>>, steps': seq<Step<T>>)
    requires IsRun(c, run, steps) && WellFormed(c, Last(run))
    requires Last(run).consumer.CIdle? && Tails(Last(run)) < Heads(Last(run))
    ensures IsRun(c, run', steps') && WellFormed(c, Last(run'))
    ensures var s, s' := Last(run), Last(run');
            && s'.consumer.CIdle? && s'.head == s.head && |s'.tail| == |s.tail| + 1 && s.tail <= s'.tail
            && s'.producer == s.producer && s'.pview == s.pview
  {
    CountersOnRun(c, run, steps);
    var newest := Heads(Last(run));
    run', steps' := ExtendRun(c, run, steps, LoadOwnTail(Tails(Last(run))));
    EmptyTestOnRun(c, run', steps', newest);
    run', steps' := ExtendRun(c, run', steps', LoadHead(newest));
    run', steps' := ExtendRun(c, run', steps', TakeSlot(residue));
    run', steps' := ExtendRun(c, run', steps', StoreTail);
  }

  /** `n` pushes on a fresh queue, the consumer standing still. */
  lemma {:induction false} Fill<T(!new)>(c: Config, buffer: seq<T>, x: T, n: nat)
    returns (run: seq<State<T>>, steps: seq<Step<T>>)
    requires c.Valid() && |buffer| == c.Capacity() && n <= c.Capacity() - 1
    ensures IsRun(c, run, steps) && WellFormed(c, Last(run))
    ensures var s := Last(run);
            && s.producer == PIdle && s.consumer == CIdle
            && Heads(s) == n && s.tail == [Message(0, Bottom(2, 2))]
            && s.pview.seen[TAIL] == 0 && s.cview == Bottom(2, 2)
    decreases n
  {
    if n == 0 {
      run, steps := FreshQueue(c, buffer);
    } else {
      run, steps := Fill(c, buffer, x, n - 1);
      run, steps := PushAlone(c, run, steps, x, 0);
    }
  }

  /** The queued items popped, the producer standing still: it knows of none of the pops. */
  lemma {:induction false} Empty<T(!new)>(c: Config, run: seq<State<T>>, steps: seq<Step<T>>, residue: T)
    returns (run': seq<State<T>>, steps': seq<Step<T>>)
    requires IsRun(c, run, steps) && WellFormed(c, Last(run))
    requires Last(run).consumer.CIdle? && Tails(Last(run)) <= Heads(Last(run))
    ensures IsRun(c, run', steps') && WellFormed(c, Last(run'))
    ensures var s, s' := Last(run), Last(run');
            && s'.consumer.CIdle? && s'.head == s.head && Tails(s') == Heads(s) && s.tail <= s'.tail
            && s'.producer == s.producer && s'.pview == s.pview
    decreases Heads(Last(run)) - Tails(Last(run))
  {
    if Tails(Last(run)) == Heads(Last(run)) {
      run', steps' := run, steps;
    } else {
      run', steps' := PopAlone(c, run, steps, residue);
      run', steps' := Empty(c, run', steps', residue);
    }
  }

  // ---------------------------------------------------------------- failures may be spurious

  /** For every capacity, a push may be refused by an empty queue: the producer still reads the tail
      from before everything was popped. */
  lemma PushMayFailOnEmpty<T(!new)>(c: Config, buffer: seq<T>, x: T)
    returns (run: seq<State<T>>, steps: seq<Step<T>>)
    requires c.Valid() && |buffer| == c.Capacity()
    ensures IsRun(c, run, steps) && WellFormed(c, Last(run))
    ensures RefusesPush(c, Last(run), 0) && Queue(Last(run)) == []
  {
    CapacityFits(c);
    run, steps := Fill(c, buffer, x, c.Capacity() - 1);
    run, steps := Empty(c, run, steps, x);
    CountersOnRun(c, run, steps);
    run, steps := ExtendRun(c, run, steps, LoadOwnHead(x, Heads(Last(run))));
    FullTestOnRun(c, run, steps, 0);
    CountersOnRun(c, run, steps);
  }

  /** For every capacity, a pop may be refused by a full queue: the consumer still reads the head
      from before anything was pushed. */
  lemma PopMayFailOnFull<T(!new)>(c: Config, buffer: seq<T>, x: T)
    returns (run: seq<State<T>>, steps: seq<Step<T>>)
    requires c.Valid() && |buffer| == c.Capacity()
    ensures IsRun(c, run, steps) && WellFormed(c, Last(run))
    ensures RefusesPop(c, Last(run), 0) && |Queue(Last(run))| == c.Capacity() - 1 > 0
  {
    CapacityFits(c);
    run, steps := Fill(c, buffer, x, c.Capacity() - 1);
    run, steps := ExtendRun(c, run, steps, LoadOwnTail(0));
    EmptyTestOnRun(c, run, steps, 0);
    CountersOnRun(c, run, steps);
  }

  // ---------------------------------------------------------------- size_approx by a third thread

  /** `h` is ahead of `t` by an allowed number of items, up to `q` turns of the word. */
  predicate Within(c: Config, h: int, t: int, q: int) {
    t <= h + q * Pow2(c.w) <= t + c.Capacity() - 1
  }

  /** A thread that is neither producer nor consumer may read any head message and any tail message.
      Its size is in range exactly when, up to whole turns of the word, the head it read is the tail
      it read or at most the capacity less one ahead of it; while the two are less than a turn apart
      that means exactly t <= h <= t + Capacity - 1, and the size is then their difference. */
  lemma ObserverSize<T(!new)>(c: Config, run: seq<State<T>>, steps: seq<Step<T>>, i: nat, h: nat, j: nat, t: nat)
    requires IsRun(c, run, steps) && i < |run| && j < |run|
    requires h < |run[i].head| && t < |run[j].tail|
    ensures var size := SizeApprox(c, run[i], h, run[j], t);
            && (size <= c.Capacity() - 1 <==> exists q: int :: Within(c, h, t, q))
            && (h - t < Pow2(c.w) && t - h <= Pow2(c.w) - c.Capacity() ==>
                  (size <= c.Capacity() - 1 <==> t <= h <= t + c.Capacity() - 1))
            && (0 <= h - t < Pow2(c.w) ==> size == h - t)
  {
    RunsKeepInv(c, run, steps);
    assert Inv(c, run[i]) && Inv(c, run[j]);
    CapacityFits(c);
    DifferenceInWindow(c, h, t);
  }

  lemma DifferenceInWindow(c: Config, h: nat, t: nat)
    requires c.Capacity() <= Pow2(c.w)
    ensures var d := c.Minus(c.Counter(h), c.Counter(t));
            && (d <= c.Capacity() - 1 <==> exists q: int :: Within(c, h, t, q))
            && (h - t < Pow2(c.w) && t - h <= Pow2(c.w) - c.Capacity() ==>
                  (d <= c.Capacity() - 1 <==> t <= h <= t + c.Capacity() - 1))
            && (0 <= h - t < Pow2(c.w) ==> d == h - t)
  {
    RemainderOfDifference(h, t, Pow2(c.w));
    RemainderInWindow(c, h, t);
    RemainderOfNear(h - t, Pow2(c.w));
  }

  lemma RemainderInWindow(c: Config, h: int, t: int)
    requires c.Capacity() <= Pow2(c.w)
    ensures (h - t) % Pow2(c.w) <= c.Capacity() - 1 <==> exists q: int :: Within(c, h, t, q)
  {
    var m := Pow2(c.w);
    var turns := (h - t) / m;
    assert h + (-turns) * m == t + (h - t) % m by {
      assert h - t == turns * m + (h - t) % m;
    }
    if (h - t) % m <= c.Capacity() - 1 {
      assert Within(c, h, t, -turns);
    }
    if q: int :| Within(c, h, t, q) {
      RemainderIsUnique(h - t, m, -q, h + q * m - t);
    }
  }

  /** Less than a turn either way. */
  lemma RemainderOfNear(x: int, m: int)
    requires m > 0
    ensures 0 <= x < m ==> x % m == x
    ensures -m < x < 0 ==> x % m == x + m
  {
    if 0 <= x < m {
      RemainderIsUnique(x, m, 0, x);
    } else if -m < x < 0 {
      RemainderIsUnique(x, m, -1, x + m);
    }
  }

  /** A thread whose knowledge is `v` may read head `h` in state `s` and tail `t` in state `s'`, and the
      size it then computes is no possible size. */
  predicate ReadsOutOfRange<T>(c: Config, s: State<T>, s': State<T>, v: View, h: nat, t: nat)
    requires |v.seen| == 2
  {
    && MayRead(v, HEAD, s.head, h) && MayRead(v, TAIL, s'.tail, t)
    && SizeApprox(c, s, h, s', t) > c.Capacity() - 1
  }

  /** What a permitted pair of reads can give. */
  lemma ObserverReads<T(!new)>(c: Config, run: seq<State<T>>, steps: seq<Step<T>>, i: nat, j: nat, v: View, h: nat, t: nat)
    requires IsRun(c, run, steps) && i < |run| && j < |run| && |v.seen| == 2
    requires MayRead(v, HEAD, run[i].head, h) && MayRead(v, TAIL, run[j].tail, t)
    ensures v.seen[HEAD] - Tails(run[j]) <= h - t <= Heads(run[i]) - v.seen[TAIL]
    ensures SizeApprox(c, run[i], h, run[j], t) == (h - t) % Pow2(c.w)
  {
    RunsKeepInv(c, run, steps);
    assert Inv(c, run[i]) && Inv(c, run[j]);
    RemainderOfDifference(h, t, Pow2(c.w));
  }

  /** Every difference between the extremes is some permitted pair's. */
  lemma ObserverMayRead<T(!new)>(s: State<T>, s': State<T>, v: View, d: int) returns (h: nat, t: nat)
    requires |v.seen| == 2 && v.seen[HEAD] <= Heads(s) && v.seen[TAIL] <= Tails(s')
    requires v.seen[HEAD] - Tails(s') <= d <= Heads(s) - v.seen[TAIL]
    ensures MayRead(v, HEAD, s.head, h) && MayRead(v, TAIL, s'.tail, t) && h - t == d
  {
    h := if d + Tails(s') <= Heads(s) then d + Tails(s') else Heads(s);
    t := h - d;
  }

  /** Decided before the loads, from what the third thread knows (`v`): the heads and tails it may
      read differ by `lo` to `hi`, and some pair of reads gives an impossible size exactly when that
      whole stretch does not fit between 0 and the capacity less one, up to turns of the word. While
      fewer than a turn of operations lie between its knowledge and the present, that means exactly:
      it may not yet know of a head the tail has passed, or it knows only a tail from which the
      present head is further than a full ring. */
  lemma ObserverCanBeWrong<T(!new)>(c: Config, run: seq<State<T>>, steps: seq<Step<T>>, i: nat, j: nat, v: View)
    requires IsRun(c, run, steps) && i < |run| && j < |run|
    requires |v.seen| == 2 && v.seen[HEAD] <= Heads(run[i]) && v.seen[TAIL] <= Tails(run[j])
    ensures var lo, hi := v.seen[HEAD] - Tails(run[j]), Heads(run[i]) - v.seen[TAIL];
            && ((exists h: nat, t: nat :: ReadsOutOfRange(c, run[i], run[j], v, h, t))
                <==> c.Capacity() < Pow2(c.w) && lo % Pow2(c.w) + (hi - lo) > c.Capacity() - 1)
            && (hi < Pow2(c.w) && -lo <= Pow2(c.w) - c.Capacity() ==>
                  ((exists h: nat, t: nat :: ReadsOutOfRange(c, run[i], run[j], v, h, t))
                   <==> v.seen[HEAD] < Tails(run[j]) || Heads(run[i]) - v.seen[TAIL] > c.Capacity() - 1))
  {
    var lo, hi := v.seen[HEAD] - Tails(run[j]), Heads(run[i]) - v.seen[TAIL];
    ConfigOfRun(c, run, steps);
    WrongReadsAreAStretch(c, run, steps, i, j, v);
    StretchLeavesWindow(lo, hi, Pow2(c.w), c.Capacity());
    if hi < Pow2(c.w) && -lo <= Pow2(c.w) - c.Capacity() {
      StretchNearZero(lo, hi, Pow2(c.w), c.Capacity());
    }
  }

  /** Some number from `lo` to `hi` has a remainder of `cap` or more. */
  ghost predicate Exceeds(lo: int, hi: int, m: int, cap: int)
    requires m > 0
  {
    exists d: int :: lo <= d <= hi && d % m > cap - 1
  }

  lemma WrongReadExceeds<T(!new)>(c: Config, run: seq<State<T>>, steps: seq<Step<T>>, i: nat, j: nat, v: View, h: nat, t: nat)
    requires IsRun(c, run, steps) && i < |run| && j < |run|
    requires |v.seen| == 2 && ReadsOutOfRange(c, run[i], run[j], v, h, t)
    ensures Exceeds(v.seen[HEAD] - Tails(run[j]), Heads(run[i]) - v.seen[TAIL], Pow2(c.w), c.Capacity())
  {
    ObserverReads(c, run, steps, i, j, v, h, t);
    var d := h - t;
    assert d % Pow2(c.w) > c.Capacity() - 1;
  }

  lemma ExceedingIsRead<T(!new)>(c: Config, run: seq<State<T>>, steps: seq<Step<T>>, i: nat, j: nat, v: View)
    returns (h: nat, t: nat)
    requires IsRun(c, run, steps) && i < |run| && j < |run|
    requires |v.seen| == 2 && v.seen[HEAD] <= Heads(run[i]) && v.seen[TAIL] <= Tails(run[j])
    requires Exceeds(v.seen[HEAD] - Tails(run[j]), Heads(run[i]) - v.seen[TAIL], Pow2(c.w), c.Capacity())
    ensures ReadsOutOfRange(c, run[i], run[j], v, h, t)
  {
    var d :| v.seen[HEAD] - Tails(run[j]) <= d <= Heads(run[i]) - v.seen[TAIL] && d % Pow2(c.w) > c.Capacity() - 1;
    h, t := ObserverMayRead(run[i], run[j], v, d);
    ObserverReads(c, run, steps, i, j, v, h, t);
  }

  lemma WrongReadsAreAStretch<T(!new)>(c: Config, run: seq<State<T>>, steps: seq<Step<T>>, i: nat, j: nat, v: View)
    requires IsRun(c, run, steps) && i < |run| && j < |run|
    requires |v.seen| == 2 && v.seen[HEAD] <= Heads(run[i]) && v.seen[TAIL] <= Tails(run[j])
    ensures (exists h: nat, t: nat :: ReadsOutOfRange(c, run[i], run[j], v, h, t))
            <==> Exceeds(v.seen[HEAD] - Tails(run[j]), Heads(run[i]) - v.seen[TAIL], Pow2(c.w), c.Capacity())
  {
    if h: nat, t: nat :| ReadsOutOfRange(c, run[i], run[j], v, h, t) {
      WrongReadExceeds(c, run, steps, i, j, v, h, t);
    } else if Exceeds(v.seen[HEAD] - Tails(run[j]), Heads(run[i]) - v.seen[TAIL], Pow2(c.w), c.Capacity()) {
      var h, t := ExceedingIsRead(c, run, steps, i, j, v);
      assert false;
    }
  }

  lemma ConfigOfRun<T(!new)>(c: Config, run: seq<State<T>>, steps: seq<Step<T>>)
    requires IsRun(c, run, steps)
    ensures c.Valid() && 2 <= c.Capacity() <= Pow2(c.w)
  {
    CapacityFits(c);
  }

  /** Some number of a stretch has a remainder of `cap` or more just when the stretch does not lie
      inside one window of `cap` numbers at the start of a turn. */
  lemma StretchLeavesWindow(lo: int, hi: int, m: int, cap: int)
    requires lo <= hi && 1 <= cap <= m
    ensures Exceeds(lo, hi, m, cap) <==> cap < m && lo % m + (hi - lo) > cap - 1
  {
    var r := lo % m;
    assert lo == (lo / m) * m + r;
    if cap < m && r + (hi - lo) > cap - 1 {
      if r > cap - 1 {
        assert lo <= lo <= hi;
      } else {
        var d := lo + (cap - r);
        RemainderIsUnique(d, m, lo / m, cap);
        assert lo <= d <= hi && d % m > cap - 1;
      }
    }
    if d :| lo <= d <= hi && d % m > cap - 1 && r + (hi - lo) <= cap - 1 {
      RemainderIsUnique(d, m, lo / m, r + (d - lo));
    }
  }

  /** Less than a turn around zero, the window is 0 to `cap - 1` itself. */
  lemma StretchNearZero(lo: int, hi: int, m: int, cap: int)
    requires lo <= hi && 1 <= cap <= m && hi < m && -lo <= m - cap
    ensures cap < m && lo % m + (hi - lo) > cap - 1 <==> lo < 0 || hi > cap - 1
  {
    RemainderOfNear(lo, m);
  }

  /** A thread that knows the newest counters and reads both in one state gets the true size. */
  lemma InformedObserverIsExact<T(!new)>(c: Config, run: seq<State<T>>, steps: seq<Step<T>>, i: nat, v: View, h: nat, t: nat)
    requires IsRun(c, run, steps) && i < |run|
    requires |v.seen| == 2 && v.seen[HEAD] == Heads(run[i]) && v.seen[TAIL] == Tails(run[i])
    requires MayRead(v, HEAD, run[i].head, h) && MayRead(v, TAIL, run[i].tail, t)
    ensures SizeApprox(c, run[i], h, run[i], t) == |Queue(run[i])| <= c.Capacity() - 1
  {
    RunsKeepInv(c, run, steps);
    assert Inv(c, run[i]);
    CapacityFits(c);
    DifferenceIsFaithful(c, h, t);
  }

  /** A stale tail is enough to leave the range, with nothing overtaken: after a full turn of the
      ring a third thread that has seen nothing yet may read, in one and the same state, the newest
      head and the very first tail, and gets the whole capacity. */
  lemma ObserverReadsStaleTail<T(!new)>(c: Config, buffer: seq<T>, x: T)
    returns (run: seq<State<T>>, steps: seq<Step<T>>, h: nat)
    requires c.Valid() && c.k < c.w && |buffer| == c.Capacity()
    ensures IsRun(c, run, steps)
    ensures var s := Last(run);
            && MayRead(Bottom(2, 2), HEAD, s.head, h) && MayRead(Bottom(2, 2), TAIL, s.tail, 0)
            && h == Heads(s) && Tails(s) <= h
            && SizeApprox(c, s, h, s, 0) == c.Capacity()
  {
    CapacityFits(c);
    PowerIsStrict(c.k, c.w);
    run, steps := Fill(c, buffer, x, c.Capacity() - 1);
    run, steps := Empty(c, run, steps, x);
    run, steps := PushAlone(c, run, steps, x, Tails(Last(run)));
    h := Heads(Last(run));
    CountersOnRun(c, run, steps);
    ObserverSize(c, run, steps, |steps|, h, |steps|, 0);
  }
}
