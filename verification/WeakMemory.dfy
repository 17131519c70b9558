/** Release/acquire memory with stale reads.

    Each atomic location keeps every message ever stored to it, in modification order.
    A message carries the view of its writer. A thread may read any message at or after
    the newest one it knows of; an acquire load also takes over the message's view.
    Views also count, per thread, the accesses to non-atomic memory known to happen
    before: an access is race-free when the view covers every earlier conflicting one
    (ISO C++20, section 6.9.2.1 [intro.races] and section 31.4 [atomics.order]). */
module WeakMemory {

  /** `seen[l]`: newest message known of atomic location `l`.
      `clock[t]`: how many of thread `t`'s non-atomic accesses happen before this point. */
  datatype View = View(seen: seq<nat>, clock: seq<nat>)

  datatype Message<V> = Message(value: V, view: View)

  predicate Shaped(v: View, locations: nat, threads: nat) {
    |v.seen| == locations && |v.clock| == threads
  }

  function Zeros(n: nat): (r: seq<nat>)
    ensures |r| == n && forall i :: 0 <= i < n ==> r[i] == 0
  {
    seq(n, _ => 0)
  }

  function Bottom(locations: nat, threads: nat): View {
    View(Zeros(locations), Zeros(threads))
  }

  function Max(a: nat, b: nat): nat {
    if a < b then b else a
  }

  function JoinClocks(a: seq<nat>, b: seq<nat>): (r: seq<nat>)
    requires |a| == |b|
    ensures |r| == |a|
    ensures forall i {:trigger r[i]} :: 0 <= i < |r| ==> r[i] == Max(a[i], b[i])
  {
    seq(|a|, i requires 0 <= i < |a| => Max(a[i], b[i]))
  }

  function Join(a: View, b: View): View
    requires |a.seen| == |b.seen| && |a.clock| == |b.clock|
  {
    View(JoinClocks(a.seen, b.seen), JoinClocks(a.clock, b.clock))
  }

  /** A thread never reads a message older than one it knows of. */
  predicate MayRead<V>(v: View, location: nat, history: seq<Message<V>>, ts: nat)
    requires location < |v.seen|
  {
    v.seen[location] <= ts < |history|
  }

  function ReadRelaxed(v: View, location: nat, ts: nat): View
    requires location < |v.seen|
  {
    v.(seen := v.seen[location := ts])
  }

  function ReadAcquire(v: View, location: nat, ts: nat, source: View): View
    requires location < |v.seen| == |source.seen| && |v.clock| == |source.clock|
  {
    Join(ReadRelaxed(v, location, ts), source)
  }

  /** The access counts `access` (one per thread) all happen before the owner of `v`. */
  predicate Covers(v: View, access: seq<nat>)
    requires |access| == |v.clock|
  {
    forall t :: 0 <= t < |access| ==> access[t] <= v.clock[t]
  }

  /** Thread `t` performs one more non-atomic access. */
  function Tick(v: View, t: nat): View
    requires t < |v.clock|
  {
    v.(clock := v.clock[t := v.clock[t] + 1])
  }
}
