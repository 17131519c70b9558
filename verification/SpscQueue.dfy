/** The queue of 06_lockfree/spsc_queue.h as the object one thread sees: a buffer updated in place and
    two wrapping word counters, proved against the same bounded FIFO as the concurrent machines. */
module SpscQueue {
  import opened Words
  import opened BoundedFifo
  import opened Wrappers

  class SPSCQueue<T(0)> {
    const c: Config
    const buffer: array<T>
    var head: nat
    var tail: nat
    /** Every item ever accepted, and how many of them have been popped. */
    ghost var accepted: seq<T>
    ghost var popped: nat

    ghost predicate Valid()
      reads this, buffer
    {
      && c.Valid() && buffer.Length == c.Capacity()
      && popped <= |accepted| && |accepted| - popped <= c.Capacity() - 1
      && head == c.Counter(|accepted|) && tail == c.Counter(popped)
      && forall n :: popped <= n < |accepted| ==> buffer[n % c.Capacity()] == accepted[n]
    }

    /** The queued items, oldest first. */
    ghost function Contents(): seq<T>
      reads this
      requires popped <= |accepted|
    {
      accepted[popped..]
    }

    constructor (c: Config)
      requires c.Valid()
      ensures Valid() && fresh(buffer) && this.c == c && Contents() == []
    {
      SmallRemainder(0, Pow2(c.w));
      this.c := c;
      buffer := new T[c.Capacity()];
      head, tail := 0, 0;
      accepted, popped := [], 0;
    }

    /** `push`, by copy or by move. */
    method Push(item: T) returns (ok: bool)
      requires Valid()
      modifies this, buffer
      ensures Valid()
      ensures Exact(c.Capacity() - 1, old(Contents()), if ok then PushOk(item) else PushFull, Contents())
    {
      CapacityFits(c);
      DifferenceIsFaithful(c, |accepted|, popped);
      if c.Minus(head, tail) == c.Capacity() - 1 {
        return false;
      }
      FreshSlot(|accepted|);
      SuccessorIsFaithful(c, |accepted|);
      buffer[c.Index(head)] := item;
      head := c.Successor(head);
      accepted := accepted + [item];
      ok := true;
    }

    /** `pop` into an optional. The slot is moved from, so its value is arbitrary afterwards. */
    method Pop() returns (result: Option<T>)
      requires Valid()
      modifies this, buffer
      ensures Valid()
      ensures Exact(c.Capacity() - 1, old(Contents()), if result.Some? then PopOk(result.value) else PopEmpty, Contents())
    {
      CapacityFits(c);
      EqualityIsFaithful(c, |accepted|, popped);
      if tail == head {
        return None;
      }
      LiveSlot(popped);
      SuccessorIsFaithful(c, popped);
      result := Some(buffer[c.Index(tail)]);
      buffer[c.Index(tail)] := *;
      tail := c.Successor(tail);
      popped := popped + 1;
    }

    /** `pop` into a caller's variable, which keeps its value `out` when the queue is empty. */
    method PopInto(out: T) returns (ok: bool, out': T)
      requires Valid()
      modifies this, buffer
      ensures Valid()
      ensures Exact(c.Capacity() - 1, old(Contents()), if ok then PopOk(out') else PopEmpty, Contents())
      ensures !ok ==> out' == out
    {
      CapacityFits(c);
      EqualityIsFaithful(c, |accepted|, popped);
      out' := out;
      if tail == head {
        return false, out';
      }
      LiveSlot(popped);
      SuccessorIsFaithful(c, popped);
      out' := buffer[c.Index(tail)];
      buffer[c.Index(tail)] := *;
      tail := c.Successor(tail);
      popped := popped + 1;
      ok := true;
    }

    method SizeApprox() returns (size: nat)
      requires Valid()
      ensures size == |Contents()|
    {
      CapacityFits(c);
      DifferenceIsFaithful(c, |accepted|, popped);
      size := c.Minus(head, tail);
    }

    method EmptyApprox() returns (r: bool)
      requires Valid()
      ensures r <==> Contents() == []
    {
      var size := SizeApprox();
      r := size == 0;
    }

    method FullApprox() returns (r: bool)
      requires Valid()
      ensures r <==> |Contents()| == c.Capacity() - 1
    {
      var size := SizeApprox();
      r := size == c.Capacity() - 1;
    }

    /** The slot for counter `n` is the mask's, and no queued item lives there. */
    lemma FreshSlot(n: nat)
      requires Valid() && n == |accepted| && n - popped <= c.Capacity() - 1
      ensures c.Index(c.Counter(n)) == n % c.Capacity()
      ensures forall m :: popped <= m < n ==> m % c.Capacity() != n % c.Capacity()
    {
      IndexIsFaithful(c, n);
      forall m | popped <= m < n
        ensures m % c.Capacity() != n % c.Capacity()
      {
        if m % c.Capacity() == n % c.Capacity() {
          SameSlotIsFar(m, n, c.Capacity());
        }
      }
    }

    /** The oldest item is in the mask's slot, and the others are elsewhere. */
    lemma LiveSlot(n: nat)
      requires Valid() && n == popped < |accepted|
      ensures c.Index(c.Counter(n)) == n % c.Capacity()
      ensures forall m :: n < m < |accepted| ==> m % c.Capacity() != n % c.Capacity()
    {
      IndexIsFaithful(c, n);
      forall m | n < m < |accepted|
        ensures m % c.Capacity() != n % c.Capacity()
      {
        if m % c.Capacity() == n % c.Capacity() {
          SameSlotIsFar(n, m, c.Capacity());
        }
      }
    }
  }

  /** Pushing 0, 1, 2, ... onto a fresh queue until it refuses: it takes exactly the capacity less
      one of them, and then refuses the next. */
  method FillUntilFull(c: Config) returns (q: SPSCQueue<int>, pushed: nat, again: bool)
    requires c.Valid()
    ensures q.Valid() && q.c == c && pushed == c.Capacity() - 1 && !again
    ensures q.Contents() == seq(pushed, i => i)
  {
    q := new SPSCQueue<int>(c);
    pushed := 0;
    while true
      invariant q.Valid() && q.c == c && fresh(q) && fresh(q.buffer)
      invariant pushed <= c.Capacity() - 1 && q.Contents() == seq(pushed, i => i)
      decreases c.Capacity() - pushed
    {
      var ok := q.Push(pushed);
      if !ok {
        break;
      }
      pushed := pushed + 1;
    }
    again := q.Push(99);
  }

  /** Pushing `items` and popping as many returns them in order, from any state with room for them. */
  method PushThenPop<T(0)>(q: SPSCQueue<T>, items: seq<T>) returns (back: seq<T>)
    requires q.Valid() && q.Contents() == [] && |items| <= q.c.Capacity() - 1
    modifies q, q.buffer
    ensures q.Valid() && q.Contents() == [] && back == items
  {
    for i := 0 to |items|
      invariant q.Valid() && q.Contents() == items[..i]
    {
      var ok := q.Push(items[i]);
    }
    back := [];
    for i := 0 to |items|
      invariant q.Valid() && q.Contents() == items[i..] && back == items[..i]
    {
      var v := q.Pop();
      back := back + [v.value];
    }
  }
}
