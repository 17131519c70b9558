/** The specification of the queue: an atomic bounded FIFO. */
module BoundedFifo {

  datatype Event<T> = PushOk(item: T) | PushFull | PopOk(item: T) | PopEmpty | Internal

  /** What a successful operation, or a step that is no operation, does to the queue. */
  predicate Effect<T(==)>(room: int, q: seq<T>, e: Event<T>, q': seq<T>) {
    match e
    case PushOk(x) => |q| < room && q' == q + [x]
    case PopOk(x) => |q| > 0 && x == q[0] && q' == q[1..]
    case _ => q' == q
  }

  /** The exact FIFO: an operation fails only when the queue is really full or empty. */
  predicate Exact<T(==)>(room: int, q: seq<T>, e: Event<T>, q': seq<T>) {
    && Effect(room, q, e, q')
    && (e.PushFull? ==> |q| == room)
    && (e.PopEmpty? ==> q == [])
  }

  /** The items a sequence of events pushed, and the items it popped, in order. */
  function Pushed<T>(events: seq<Event<T>>): seq<T> {
    if events == [] then []
    else
      var e := events[|events| - 1];
      Pushed(events[..|events| - 1]) + if e.PushOk? then [e.item] else []
  }

  function Popped<T>(events: seq<Event<T>>): seq<T> {
    if events == [] then []
    else
      var e := events[|events| - 1];
      Popped(events[..|events| - 1]) + if e.PopOk? then [e.item] else []
  }

  /** First in, first out, nothing lost or duplicated: over any history of the FIFO, what was
      pushed is what was popped followed by what is still queued. */
  lemma {:induction false} HistoryConserves<T>(room: int, qs: seq<seq<T>>, events: seq<Event<T>>)
    requires |qs| == |events| + 1 && qs[0] == []
    requires forall i :: 0 <= i < |events| ==> Effect(room, qs[i], events[i], qs[i + 1])
    ensures Pushed(events) == Popped(events) + qs[|events|]
    decreases |events|
  {
    if events != [] {
      var n := |events| - 1;
      var es := events[..n];
      assert forall i :: 0 <= i < n ==> es[i] == events[i];
      forall i | 0 <= i < n
        ensures Effect(room, qs[..n + 1][i], es[i], qs[..n + 1][i + 1])
      {
        assert Effect(room, qs[i], events[i], qs[i + 1]);
      }
      HistoryConserves(room, qs[..n + 1], es);
      assert Effect(room, qs[n], events[n], qs[n + 1]);
      match events[n]
      case PopOk(x) =>
        assert qs[n] == [x] + qs[n + 1];
      case _ =>
    }
  }
}
