/** "Non-blocking": an operation of the queue takes at most four steps of its own thread, whatever the
    other thread is in the middle of and whichever messages the loads return; and what it did is
    decided by the message it read.
    Line numbers refer to 06_lockfree/spsc_queue.h. */
module SpscWaitFree {
  import opened Words
  import opened WeakMemory
  import opened SpscWeak
  import opened SpscStale

  /** The run goes on by at most `n` steps. */
  ghost predicate GoesOn<T(!new)>(run: seq<State<T>>, steps: seq<Step<T>>,
                                   run': seq<State<T>>, steps': seq<Step<T>>, n: nat) {
    run <= run' && steps <= steps' && |steps'| <= |steps| + n
  }

  /** A push past its full test stores its item within two steps of the producer. */
  lemma AcceptedPushReturns<T(!new)>(c: Config, run: seq<State<T>>, steps: seq<Step<T>>)
    returns (run': seq<State<T>>, steps': seq<Step<T>>)
    requires IsRun(c, run, steps) && WellFormed(c, Last(run))
    requires Last(run).producer.PRoom? || Last(run).producer.PWritten?
    ensures IsRun(c, run', steps') && WellFormed(c, Last(run')) && GoesOn(run, steps, run', steps', 2)
    ensures var s, s' := Last(run), Last(run');
            && s'.producer.PIdle? && s'.consumer == s.consumer && s'.cview == s.cview && s'.delivered == s.delivered
            && s'.accepted == s.accepted + [s.producer.item]
  {
    run', steps' := run, steps;
    if Last(run').producer.PRoom? {
      run', steps' := ExtendRun(c, run', steps', WriteSlot);
    }
    run', steps' := ExtendRun(c, run', steps', StoreHead);
  }

  /** A push under way, at line 104 about to read tail `ts` or past it, returns within three steps of
      the producer. */
  lemma PushReturns<T(!new)>(c: Config, run: seq<State<T>>, steps: seq<Step<T>>, ts: nat)
    returns (run': seq<State<T>>, steps': seq<Step<T>>)
    requires IsRun(c, run, steps) && WellFormed(c, Last(run)) && !Last(run).producer.PIdle?
    requires MayRead(Last(run).pview, TAIL, Last(run).tail, ts)
    ensures IsRun(c, run', steps') && WellFormed(c, Last(run')) && GoesOn(run, steps, run', steps', 3)
    ensures var s, s' := Last(run), Last(run');
            && s'.producer.PIdle? && s'.consumer == s.consumer && s'.cview == s.cview && s'.delivered == s.delivered
            && s'.accepted == s.accepted + if s.producer.PLoaded? && Heads(s) - ts == c.Capacity() - 1 then []
                                           else [s.producer.item]
  {
    run', steps' := run, steps;
    if Last(run').producer.PLoaded? {
      FullTestOnRun(c, run', steps', ts);
      run', steps' := ExtendRun(c, run', steps', LoadTail(ts));
    }
    if !Last(run').producer.PIdle? {
      run', steps' := AcceptedPushReturns(c, run', steps');
    }
  }

  lemma OldestIsTaken<T(!new)>(c: Config, run: seq<State<T>>, steps: seq<Step<T>>)
    requires IsRun(c, run, steps) && (Last(run).consumer.CTaken? || Last(run).consumer.CNonEmpty?)
    ensures Queue(Last(run)) != []
    ensures Last(run).consumer.CTaken? ==> Last(run).consumer.value == Queue(Last(run))[0]
  {
    RunsKeepInv(c, run, steps);
    assert Inv(c, run[|steps|]);
  }

  /** A pop past its empty test delivers the oldest item within two steps of the consumer. */
  lemma GrantedPopReturns<T(!new)>(c: Config, run: seq<State<T>>, steps: seq<Step<T>>, residue: T)
    returns (run': seq<State<T>>, steps': seq<Step<T>>)
    requires IsRun(c, run, steps) && WellFormed(c, Last(run))
    requires Last(run).consumer.CNonEmpty? || Last(run).consumer.CTaken?
    ensures IsRun(c, run', steps') && WellFormed(c, Last(run')) && GoesOn(run, steps, run', steps', 2)
    ensures var s, s' := Last(run), Last(run');
            && s'.consumer.CIdle? && s'.producer == s.producer && s'.pview == s.pview && s'.accepted == s.accepted
            && Queue(s) != [] && s'.delivered == s.delivered + [Queue(s)[0]]
  {
    OldestIsTaken(c, run, steps);
    run', steps' := run, steps;
    if Last(run').consumer.CNonEmpty? {
      run', steps' := ExtendRun(c, run', steps', TakeSlot(residue));
      OldestIsTaken(c, run', steps');
    }
    run', steps' := ExtendRun(c, run', steps', StoreTail);
  }

  /** A pop under way returns within three steps of the consumer. */
  lemma PopReturns<T(!new)>(c: Config, run: seq<State<T>>, steps: seq<Step<T>>, ts: nat, residue: T)
    returns (run': seq<State<T>>, steps': seq<Step<T>>)
    requires IsRun(c, run, steps) && WellFormed(c, Last(run)) && !Last(run).consumer.CIdle?
    requires MayRead(Last(run).cview, HEAD, Last(run).head, ts)
    ensures IsRun(c, run', steps') && WellFormed(c, Last(run')) && GoesOn(run, steps, run', steps', 3)
    ensures var s, s' := Last(run), Last(run');
            && s'.consumer.CIdle? && s'.producer == s.producer && s'.pview == s.pview && s'.accepted == s.accepted
            && (!(s.consumer.CLoaded? && ts == Tails(s)) ==> Queue(s) != [])
            && s'.delivered == s.delivered + if s.consumer.CLoaded? && ts == Tails(s) then [] else [Queue(s)[0]]
  {
    run', steps' := run, steps;
    if Last(run').consumer.CLoaded? {
      EmptyTestOnRun(c, run', steps', ts);
      run', steps' := ExtendRun(c, run', steps', LoadHead(ts));
    }
    if !Last(run').consumer.CIdle? {
      run', steps' := GrantedPopReturns(c, run', steps', residue);
    }
  }

  /** A whole push. */
  lemma PushIsWaitFree<T(!new)>(c: Config, run: seq<State<T>>, steps: seq<Step<T>>, x: T, ts: nat)
    returns (run': seq<State<T>>, steps': seq<Step<T>>)
    requires IsRun(c, run, steps) && WellFormed(c, Last(run)) && Last(run).producer.PIdle?
    requires MayRead(Last(run).pview, TAIL, Last(run).tail, ts)
    ensures IsRun(c, run', steps') && GoesOn(run, steps, run', steps', 4)
    ensures var s, s' := Last(run), Last(run');
            && s'.producer.PIdle? && s'.consumer == s.consumer && s'.delivered == s.delivered
            && s'.accepted == s.accepted + if Heads(s) - ts == c.Capacity() - 1 then [] else [x]
  {
    CountersOnRun(c, run, steps);
    run', steps' := ExtendRun(c, run, steps, LoadOwnHead(x, Heads(Last(run))));
    run', steps' := PushReturns(c, run', steps', ts);
  }

  /** A whole pop. */
  lemma PopIsWaitFree<T(!new)>(c: Config, run: seq<State<T>>, steps: seq<Step<T>>, ts: nat, residue: T)
    returns (run': seq<State<T>>, steps': seq<Step<T>>)
    requires IsRun(c, run, steps) && WellFormed(c, Last(run)) && Last(run).consumer.CIdle?
    requires MayRead(Last(run).cview, HEAD, Last(run).head, ts)
    ensures IsRun(c, run', steps') && GoesOn(run, steps, run', steps', 4)
    ensures var s, s' := Last(run), Last(run');
            && s'.consumer.CIdle? && s'.producer == s.producer && s'.accepted == s.accepted
            && (ts != Tails(s) ==> Queue(s) != [])
            && s'.delivered == s.delivered + if ts == Tails(s) then [] else [Queue(s)[0]]
  {
    CountersOnRun(c, run, steps);
    run', steps' := ExtendRun(c, run, steps, LoadOwnTail(Tails(Last(run))));
    run', steps' := PopReturns(c, run', steps', ts, residue);
  }
}
