/** The coroutine generators: a suspended loop that each `++` resumes up to its next `co_yield`.
    Values are 64-bit signed integers whose overflow is undefined behaviour; the coroutines here
    compute in ideal integers and record whether a sum ever left the 64-bit range. */
module Generators {
  import opened Wrappers
  import Words

  const MIN := -0x8000_0000_0000_0000
  const MAX := 0x7FFF_FFFF_FFFF_FFFF

  predicate Representable(x: int) {
    MIN <= x <= MAX
  }

  lemma EightMore(k: nat)
    ensures Words.Pow2(k + 8) == 0x100 * Words.Pow2(k)
  {
    assert Words.Pow2(k + 2) == 2 * Words.Pow2(k + 1) && Words.Pow2(k + 4) == 2 * Words.Pow2(k + 3);
    assert Words.Pow2(k + 6) == 2 * Words.Pow2(k + 5) && Words.Pow2(k + 8) == 2 * Words.Pow2(k + 7);
  }

  lemma SixteenMore(k: nat)
    ensures Words.Pow2(k + 16) == 0x1_0000 * Words.Pow2(k)
  {
    EightMore(k);
    EightMore(k + 8);
  }

  /** The range is that of `w` bits in two's complement with `w` 64. (The width is a parameter so
      that the verifier does not unfold the power on a numeral.) */
  lemma RepresentableIsTwosComplement(x: int, w: nat)
    requires w == 64
    ensures Representable(x) <==> 0 - Words.Pow2(w - 1) <= x < Words.Pow2(w - 1)
  {
    SixteenMore(w - 17);
    SixteenMore(w - 33);
    SixteenMore(w - 49);
    EightMore(w - 57);
    assert w - 57 == 7;
    assert Words.Pow2(7) == 2 * Words.Pow2(6) && Words.Pow2(6) == 2 * Words.Pow2(5);
    assert Words.Pow2(5) == 2 * Words.Pow2(4) && Words.Pow2(4) == 2 * Words.Pow2(3);
  }

  // ---------------------------------------------------------------- irange: what it should yield

  /** The loop condition of `irange_impl`. */
  predicate InRange(i: int, stop: int, step: int) {
    if step > 0 then i < stop else i > stop
  }

  /** The ceiling of (stop - start) / step, or 0 where that is negative. */
  function Count(start: int, stop: int, step: int): nat
    requires step != 0
  {
    if !InRange(start, stop, step) then 0
    else if step > 0 then (stop - start + step - 1) / step
    else (start - stop - step - 1) / (-step)
  }

  lemma ProductOrder(a: int, b: int, c: int)
    requires a <= b && c >= 0
    ensures a * c <= b * c
  {
  }

  lemma CeilingIsExact(distance: int, step: int, k: nat)
    requires distance > 0 && step > 0
    ensures k < (distance + step - 1) / step <==> k * step < distance
  {
    var n := (distance + step - 1) / step;
    assert (n - 1) * step == n * step - step;
    assert n * step <= distance + step - 1 < n * step + step;
    if k < n {
      ProductOrder(k, n - 1, step);
    } else {
      ProductOrder(n, k, step);
    }
  }

  /** The count is the number of values in the range: the `k`-th value is in it, `stop` excluded,
      just when `k` is below the count. */
  lemma CountIsExact(start: int, stop: int, step: int, k: nat)
    requires step != 0
    ensures k < Count(start, stop, step) <==> InRange(start + k * step, stop, step)
    ensures step > 0 ==> (k < Count(start, stop, step) <==> start + k * step < stop)
    ensures step < 0 ==> (k < Count(start, stop, step) <==> start + k * step > stop)
  {
    if !InRange(start, stop, step) {
      assert step > 0 ==> k * step >= 0;
      assert step < 0 ==> k * step <= 0;
    } else if step > 0 {
      CeilingIsExact(stop - start, step, k);
    } else {
      CeilingIsExact(start - stop, -step, k);
      assert k * -step == -(k * step);
    }
  }

  /** The values of the range, in order. */
  function Values(start: int, stop: int, step: int): seq<int>
    requires step != 0
  {
    seq(Count(start, stop, step), k => start + k * step)
  }

  /** [start, stop) in steps of `step`, for either sign. */
  predicate Belongs(v: int, start: int, stop: int, step: int)
    requires step != 0
  {
    if step > 0 then start <= v < stop && (v - start) % step == 0
    else stop < v <= start && (start - v) % (-step) == 0
  }

  /** The values are those of the half-open range, none left out. */
  lemma ValuesAreTheRange(start: int, stop: int, step: int, v: int)
    requires step != 0
    ensures v in Values(start, stop, step) <==> Belongs(v, start, stop, step)
  {
    var values := Values(start, stop, step);
    if v in values {
      var k: nat :| k < |values| && values[k] == v;
      CountIsExact(start, stop, step, k);
      MultipleBelongs(start, step, k);
    }
    if Belongs(v, start, stop, step) {
      var k := StepsTo(v, start, step);
      CountIsExact(start, stop, step, k);
      assert values[k] == v;
    }
  }

  lemma MultipleBelongs(start: int, step: int, k: nat)
    requires step != 0
    ensures step > 0 ==> start <= start + k * step && (k * step) % step == 0
    ensures step < 0 ==> start + k * step <= start && (-(k * step)) % (-step) == 0
  {
    if step > 0 {
      Words.RemainderIsUnique(k * step, step, k, 0);
    } else {
      assert -(k * step) == k * -step;
      Words.RemainderIsUnique(k * -step, -step, k, 0);
    }
  }

  lemma StepsTo(v: int, start: int, step: int) returns (k: nat)
    requires step != 0
    requires if step > 0 then start <= v && (v - start) % step == 0 else v <= start && (start - v) % (-step) == 0
    ensures v == start + k * step
  {
    if step > 0 {
      k := (v - start) / step;
      assert v - start == k * step;
    } else {
      k := (start - v) / (-step);
      assert start - v == k * -step;
      assert k * -step == -(k * step);
    }
  }

  /** A value between two representable ones is representable, so only the increment after the
      last value can overflow. */
  lemma YieldedIsRepresentable(start: int, stop: int, step: int, k: nat)
    requires step != 0 && Representable(start) && Representable(stop)
    requires k < Count(start, stop, step)
    ensures Representable(start + k * step)
  {
    CountIsExact(start, stop, step, k);
    assert step > 0 ==> k * step >= 0;
    assert step < 0 ==> k * step <= 0;
  }

  // ---------------------------------------------------------------- irange: the coroutine

  /** The frame, promise and handle of `irange_impl`, with the iterator's operations. */
  class IRange {
    const start: int
    const stop: int
    const step: int
    var i: int
    var started: bool
    var done: bool
    var current: Option<int>
    var overflowed: bool
    /** How many times the coroutine has been resumed. */
    ghost var resumes: nat

    ghost predicate Valid()
      reads this
    {
      && step != 0 && Representable(start) && Representable(stop)
      && var n := Count(start, stop, step);
         && resumes <= n + 1
         && started == (resumes > 0) && done == (resumes == n + 1)
         && (resumes > 0 ==> i == start + (resumes - 1) * step)
         && current == (if resumes == 0 || n == 0 then None
                        else Some(start + ((if done then n else resumes) - 1) * step))
         && overflowed == (done && n > 0 && !Representable(start + n * step))
    }

    constructor (start: int, stop: int, step: int)
      requires step != 0 && Representable(start) && Representable(stop)
      ensures Valid() && resumes == 0
      ensures this.start == start && this.stop == stop && this.step == step
    {
      this.start, this.stop, this.step := start, stop, step;
      i, started, done, current, overflowed := start, false, false, None, false;
      resumes := 0;
    }

    /** One resume: run the loop to its next `co_yield`, or to its end. */
    method Resume()
      requires Valid() && !done
      modifies this
      ensures Valid() && resumes == old(resumes) + 1
    {
      Increment(resumes);
      CountIsExact(start, stop, step, resumes);
      if !started {
        started := true;
        i := start;
      } else {
        overflowed := overflowed || !Representable(i + step);
        i := i + step;
      }
      if InRange(i, stop, step) {
        current := Some(i);
      } else {
        done := true;
      }
      resumes := resumes + 1;
    }

    /** The value after `r` resumes, and whether stepping to it stays representable. */
    lemma Increment(r: nat)
      requires step != 0 && Representable(start) && Representable(stop)
      ensures r > 0 ==> start + (r - 1) * step + step == start + r * step
      ensures r < Count(start, stop, step) ==> Representable(start + r * step)
    {
      if r < Count(start, stop, step) {
        YieldedIsRepresentable(start, stop, step, r);
      }
    }

    /** `advance`: a finished coroutine is not resumed again. */
    method Advance()
      requires Valid()
      modifies this
      ensures Valid() && resumes == old(resumes) + if old(done) then 0 else 1
    {
      if done {
        return;
      }
      Resume();
    }

    /** `for (auto v : irange(...)) got.push_back(v)` on a fresh generator: exactly the range, in
        order, in one resume more than it has values. Signed overflow happens only in the
        increment after the last value, and exactly when that sum is not representable. */
    method Drain() returns (got: seq<int>)
      requires Valid() && resumes == 0
      modifies this
      ensures Valid() && done
      ensures got == Values(start, stop, step)
      ensures forall v :: v in got <==> Belongs(v, start, stop, step)
      ensures resumes == Count(start, stop, step) + 1
      ensures !overflowed <==> Count(start, stop, step) == 0
                               || Representable(start + Count(start, stop, step) * step)
    {
      ghost var n := Count(start, stop, step);
      got := [];
      Advance();
      while !done
        invariant Valid() && resumes == |got| + 1
        invariant got == seq(|got|, k => start + k * step)
        decreases n + 1 - resumes
      {
        got := got + [current.value];
        Advance();
      }
      forall v
        ensures v in got <==> Belongs(v, start, stop, step)
      {
        ValuesAreTheRange(start, stop, step, v);
      }
    }
  }

  datatype Result<+T> = Ok(value: T) | InvalidArgument

  /** `irange`: the zero step is refused at the call, not at the first resume. */
  method Call(start: int, stop: int, step: int) returns (r: Result<IRange>)
    requires Representable(start) && Representable(stop) && Representable(step)
    ensures r.InvalidArgument? <==> step == 0
    ensures r.Ok? ==> fresh(r.value) && r.value.Valid() && r.value.resumes == 0
                      && r.value.start == start && r.value.stop == stop && r.value.step == step
  {
    if step == 0 {
      return InvalidArgument;
    }
    var g := new IRange(start, stop, step);
    r := Ok(g);
  }

  /** Drains that overflow, at either end, although both bounds and every value yielded are
      representable. */
  lemma DrainMayOverflow()
    ensures Count(MAX - 1, MAX, 2) == 1 && Representable(MAX) && !Representable(MAX - 1 + 1 * 2)
    ensures Count(MIN + 1, MIN, -2) == 1 && Representable(MIN) && !Representable(MIN + 1 + 1 * -2)
  {
  }

  // ---------------------------------------------------------------- fibonacci

  function Fib(n: nat): nat {
    if n < 2 then n else Fib(n - 2) + Fib(n - 1)
  }

  class Fibonacci {
    var a: int
    var b: int
    var started: bool
    var current: Option<int>
    var overflowed: bool
    ghost var resumes: nat

    ghost predicate Valid()
      reads this
    {
      && started == (resumes > 0)
      && a == Fib(if resumes == 0 then 0 else resumes - 1)
      && b == Fib(if resumes == 0 then 1 else resumes)
      && current == (if resumes == 0 then None else Some(a))
      && overflowed == (resumes >= 93)
    }

    constructor ()
      ensures Valid() && resumes == 0
    {
      a, b, started, current, overflowed := 0, 1, false, None, false;
      resumes := 0;
    }

    /** One resume: the first yields 0; each later one first computes the sum it will need next. */
    method Resume()
      requires Valid()
      modifies this
      ensures Valid() && resumes == old(resumes) + 1 && current == Some(Fib(old(resumes)))
    {
      if !started {
        started := true;
      } else {
        var tmp := a + b;
        FibonacciFits(resumes + 1, 92);
        overflowed := overflowed || !Representable(tmp);
        a := b;
        b := tmp;
      }
      current := Some(a);
      resumes := resumes + 1;
    }

    /** Pulling `n` values yields F(0), ..., F(n-1); it stays within 64 bits exactly for n <= 92. */
    method Pull(n: nat) returns (values: seq<int>)
      requires Valid() && resumes == 0
      modifies this
      ensures Valid() && values == seq(n, k requires 0 <= k => Fib(k))
      ensures !overflowed <==> n <= 92
    {
      values := [];
      for k := 0 to n
        invariant Valid() && resumes == k
        invariant values == seq(k, k requires 0 <= k => Fib(k))
      {
        Resume();
        values := values + [current.value];
      }
    }
  }

  /** The two loop variables of `fibonacci` after `k` turns, starting from `a` and `b`. */
  function Turns(a: nat, b: nat, k: nat): (nat, nat)
    decreases k
  {
    if k == 0 then (a, b) else Turns(b, a + b, k - 1)
  }

  lemma {:induction false} TurnsAreFibonacci(n: nat, k: nat)
    ensures Turns(Fib(n), Fib(n + 1), k) == (Fib(n + k), Fib(n + k + 1))
    decreases k
  {
    if k > 0 {
      assert Fib(n + 2) == Fib(n) + Fib(n + 1);
      TurnsAreFibonacci(n + 1, k - 1);
    }
  }

  lemma TenTurns(a: nat, b: nat, k: nat)
    requires k >= 10
    ensures Turns(a, b, k) == Turns(34 * a + 55 * b, 55 * a + 89 * b, k - 10)
  {
    assert Turns(a, b, k) == Turns(a + b, a + 2 * b, k - 2);
    assert Turns(a + b, a + 2 * b, k - 2) == Turns(2 * a + 3 * b, 3 * a + 5 * b, k - 4);
    assert Turns(2 * a + 3 * b, 3 * a + 5 * b, k - 4) == Turns(5 * a + 8 * b, 8 * a + 13 * b, k - 6);
    assert Turns(5 * a + 8 * b, 8 * a + 13 * b, k - 6) == Turns(13 * a + 21 * b, 21 * a + 34 * b, k - 8);
    assert Turns(13 * a + 21 * b, 21 * a + 34 * b, k - 8) == Turns(34 * a + 55 * b, 55 * a + 89 * b, k - 10);
  }

  /** F(92) is the last Fibonacci number that fits in 64 signed bits. (The index is a parameter so
      that the verifier does not unfold the recursion on a numeral.) */
  lemma LastFibonacciThatFits(last: nat)
    requires last == 92
    ensures Fib(last) == 7540113804746346429 && Fib(last + 1) == 12200160415121876738
  {
    TurnsAreFibonacci(0, last);
    TenTurns(0, 1, 92);
    TenTurns(55, 89, 82);
    TenTurns(6765, 10946, 72);
    TenTurns(832040, 1346269, 62);
    TenTurns(102334155, 165580141, 52);
    TenTurns(12586269025, 20365011074, 42);
    TenTurns(1548008755920, 2504730781961, 32);
    TenTurns(190392490709135, 308061521170129, 22);
    TenTurns(23416728348467685, 37889062373143906, 12);
  }

  lemma {:induction false} FibGrows(m: nat, n: nat)
    requires m <= n
    ensures Fib(m) <= Fib(n)
    decreases n
  {
    if m < n {
      FibGrows(m, n - 1);
      assert n >= 2 ==> Fib(n) == Fib(n - 2) + Fib(n - 1);
    }
  }

  lemma FibonacciFits(n: nat, last: nat)
    requires last == 92
    ensures Representable(Fib(n)) <==> n <= last
  {
    LastFibonacciThatFits(last);
    if n <= last {
      FibGrows(n, last);
    } else {
      FibGrows(last + 1, n);
    }
  }

  /** The value F(92) is representable, but the eager sum that precedes its yield is not. */
  lemma EagerSumCostsOneValue(last: nat)
    requires last == 92
    ensures Representable(Fib(last)) && !Representable(Fib(last - 1) + Fib(last))
  {
    LastFibonacciThatFits(last);
    NextFibonacci(last);
  }

  lemma NextFibonacci(n: nat)
    requires n >= 1
    ensures Fib(n + 1) == Fib(n - 1) + Fib(n)
  {
  }
}
