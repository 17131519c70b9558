/** Unsigned machine words of a parametric width, the bit mask that replaces a
    modulo, and the free-running counters the ring buffer keeps in words. */
module Words {

  function Pow2(k: nat): (p: nat)
    ensures p >= 1
  {
    if k == 0 then 1 else 2 * Pow2(k - 1)
  }

  /** Bit `i` of `x`, bit 0 being the least significant. */
  predicate Bit(x: nat, i: nat) {
    if i == 0 then x % 2 == 1 else Bit(x / 2, i - 1)
  }

  /** Bitwise AND, as an adder of the bits both operands have. */
  function And(x: nat, y: nat): (r: nat)
    ensures r <= x && r <= y
  {
    if x == 0 || y == 0 then 0
    else 2 * And(x / 2, y / 2) + if x % 2 == 1 && y % 2 == 1 then 1 else 0
  }

  /** `And` is the bitwise operator: every bit is the conjunction of the operands' bits. */
  lemma {:induction false} AndIsBitwise(x: nat, y: nat, i: nat)
    ensures Bit(And(x, y), i) <==> Bit(x, i) && Bit(y, i)
    decreases i
  {
    if x == 0 || y == 0 {
      ZeroHasNoBits(i);
    } else if i > 0 {
      AndIsBitwise(x / 2, y / 2, i - 1);
    }
  }

  lemma {:induction false} ZeroHasNoBits(i: nat)
    ensures !Bit(0, i)
  {
    if i > 0 {
      ZeroHasNoBits(i - 1);
    }
  }

  lemma {:induction false} SomeBitIsSet(x: nat) returns (i: nat)
    requires x > 0
    ensures Bit(x, i)
  {
    if x % 2 == 1 {
      i := 0;
    } else {
      i := SomeBitIsSet(x / 2);
      i := i + 1;
    }
  }

  /** Bit `k` is the only one. */
  ghost predicate OnlyBit(n: nat, k: nat) {
    forall i: nat :: Bit(n, i) <==> i == k
  }

  /** The powers of two are the numbers with a single bit. */
  lemma {:induction false} PowersHaveOneBit(n: nat, k: nat)
    ensures n == Pow2(k) <==> OnlyBit(n, k)
    decreases k
  {
    if n == Pow2(k) {
      forall i: nat
        ensures Bit(n, i) <==> i == k
      {
        PowerHasOneBit(k, i);
      }
    } else if OnlyBit(n, k) {
      BitsDetermine(n, Pow2(k), k);
    }
  }

  lemma {:induction false} PowerHasOneBit(k: nat, i: nat)
    ensures Bit(Pow2(k), i) <==> i == k
    decreases k
  {
    if k > 0 && i > 0 {
      PowerHasOneBit(k - 1, i - 1);
    } else if i > 0 {
      ZeroHasNoBits(i - 1);
    }
  }

  /** Nothing but `Pow2(k)` has bit `k` alone. */
  lemma {:induction false} BitsDetermine(n: nat, p: nat, k: nat)
    requires OnlyBit(n, k) && p == Pow2(k)
    ensures n == p
    decreases k
  {
    assert Bit(n, 0) <==> k == 0;
    forall i: nat
      ensures Bit(n / 2, i) <==> i + 1 == k
    {
      assert Bit(n, i + 1) <==> i + 1 == k;
    }
    if k > 0 {
      BitsDetermine(n / 2, p / 2, k - 1);
    } else if n / 2 > 0 {
      var i := SomeBitIsSet(n / 2);
      assert false;
    }
  }

  /** No bit at `w` or above. */
  ghost predicate LowBitsOnly(x: nat, w: nat) {
    forall i: nat :: w <= i ==> !Bit(x, i)
  }

  /** The words of `w` bits are the numbers below `Pow2(w)`. */
  lemma {:induction false} WordsHaveLowBits(x: nat, w: nat)
    ensures x < Pow2(w) <==> LowBitsOnly(x, w)
    decreases w
  {
    if w > 0 {
      WordsHaveLowBits(x / 2, w - 1);
      assert LowBitsOnly(x, w) <==> LowBitsOnly(x / 2, w - 1) by {
        assert forall i: nat :: w <= i ==> (Bit(x, i) <==> Bit(x / 2, i - 1));
        assert forall i: nat :: w - 1 <= i ==> (Bit(x / 2, i) <==> Bit(x, i + 1));
      }
    } else if x > 0 {
      var i := SomeBitIsSet(x);
      assert !LowBitsOnly(x, w);
    } else {
      forall i: nat
        ensures !Bit(x, i)
      {
        ZeroHasNoBits(i);
      }
    }
  }

  /** A nonzero multiple of `m` is at least `m` away from zero. */
  lemma MultipleIsFar(d: int, m: int)
    requires m > 0
    ensures d >= 1 ==> d * m >= m
    ensures d <= -1 ==> d * m <= 0 - m
    ensures d == 0 ==> d * m == 0
  {
  }

  /** Quotient and remainder are determined by the division identity. */
  lemma RemainderIsUnique(x: int, m: int, q: int, r: int)
    requires m > 0 && 0 <= r < m && x == q * m + r
    ensures x % m == r
  {
    var d := q - x / m;
    assert x % m - r == d * m by {
      assert x == (x / m) * m + x % m;
    }
    MultipleIsFar(d, m);
  }

  /** Adding a multiple of the modulus changes nothing. */
  lemma RemainderOfShift(x: int, m: int, q: int)
    requires m > 0
    ensures (x + q * m) % m == x % m
  {
    assert x + q * m == (x / m + q) * m + x % m;
    RemainderIsUnique(x + q * m, m, x / m + q, x % m);
  }

  /** Two numbers of one residue class are at least a modulus apart. */
  lemma SameSlotIsFar(a: int, b: int, m: int)
    requires m > 0 && a % m == b % m && a < b
    ensures a + m <= b
  {
    var d := b / m - a / m;
    assert b - a == d * m by {
      assert a == (a / m) * m + a % m;
      assert b == (b / m) * m + b % m;
    }
    MultipleIsFar(d, m);
  }

  /** One more bit: halving `x` halves the modulus. */
  lemma RemainderByDoubling(x: nat, p: int)
    requires p > 0
    ensures x % (2 * p) == 2 * ((x / 2) % p) + x % 2
  {
    var q, r := (x / 2) / p, (x / 2) % p;
    assert x / 2 == q * p + r;
    assert 2 * (q * p) == q * (2 * p);
    RemainderIsUnique(x, 2 * p, q, 2 * r + x % 2);
  }

  /** One more bit of mask keeps one more bit. */
  lemma MaskByDoubling(x: nat, p: nat)
    requires p > 0
    ensures And(x, 2 * p - 1) == 2 * And(x / 2, p - 1) + x % 2
  {
    var mask := 2 * p - 1;
    assert mask / 2 == p - 1 && mask % 2 == 1;
  }

  lemma MaskStep(x: nat, p: nat)
    requires p > 0 && And(x / 2, p - 1) == (x / 2) % p
    ensures And(x, 2 * p - 1) == x % (2 * p)
  {
    MaskByDoubling(x, p);
    RemainderByDoubling(x, p);
  }

  /** `x & (2^k - 1) == x mod 2^k`. */
  lemma {:induction false} MaskIsModulo(x: nat, k: nat)
    ensures And(x, Pow2(k) - 1) == x % Pow2(k)
    decreases k
  {
    if k > 0 {
      var p := Pow2(k - 1);
      assert Pow2(k) == 2 * p;
      MaskIsModulo(x / 2, k - 1);
      MaskStep(x, p);
    }
  }

  lemma {:induction false} PowerDivides(k: nat, w: nat) returns (q: nat)
    requires k <= w
    ensures Pow2(w) == q * Pow2(k)
    decreases w
  {
    if k == w {
      q := 1;
    } else {
      var q0 := PowerDivides(k, w - 1);
      q := 2 * q0;
    }
  }

  /** A wider word has at least twice as many values. */
  lemma {:induction false} PowerIsStrict(k: nat, w: nat)
    requires k < w
    ensures 2 * Pow2(k) <= Pow2(w)
    decreases w
  {
    if k < w - 1 {
      PowerIsStrict(k, w - 1);
    }
  }

  /** The shape of one queue: capacity `2^k`, counters of `w` bits. */
  datatype Config = Config(k: nat, w: nat) {

    predicate Valid() {
      1 <= k <= w
    }

    function Capacity(): (r: nat)
      ensures r >= 1
    {
      Pow2(k)
    }

    /** The word holding the unbounded counter `n`. */
    function Counter(n: int): (r: nat)
    {
      n % Pow2(w)
    }

    /** `x - y` in word arithmetic. */
    function Minus(x: nat, y: nat): nat {
      Counter(x - y)
    }

    /** `x + 1` in word arithmetic. */
    function Successor(x: nat): nat {
      Counter(x + 1)
    }

    /** `x & kMask`. */
    function Index(x: nat): (r: nat)
      ensures r < Capacity()
    {
      And(x, Capacity() - 1)
    }
  }

  /** The capacities admitted for words of `w` bits: the numbers from 2 with a single bit. */
  lemma AdmittedCapacities(n: nat, w: nat)
    ensures (exists k: nat :: Config(k, w).Valid() && n == Config(k, w).Capacity())
            <==> 2 <= n <= Pow2(w) && exists k: nat :: OnlyBit(n, k)
  {
    if k: nat :| Config(k, w).Valid() && n == Config(k, w).Capacity() {
      CapacityFits(Config(k, w));
      PowersHaveOneBit(n, k);
    }
    if k: nat :| OnlyBit(n, k) && 2 <= n <= Pow2(w) {
      PowersHaveOneBit(n, k);
      if w < k {
        PowerIsStrict(w, k);
      }
      assert Config(k, w).Valid() && n == Config(k, w).Capacity();
    }
  }

  /** Reduction may be done before or after subtracting. */
  lemma RemainderOfDifference(a: int, b: int, m: int)
    requires m > 0
    ensures (a % m - b % m) % m == (a - b) % m
  {
    var q := b / m - a / m;
    assert a % m - b % m == (a - b) + q * m by {
      assert a == (a / m) * m + a % m;
      assert b == (b / m) * m + b % m;
    }
    RemainderOfShift(a - b, m, q);
  }

  lemma SmallRemainder(x: int, m: int)
    requires 0 <= x < m
    ensures x % m == x
  {
    RemainderIsUnique(x, m, 0, x);
  }

  /** A word difference of counters is the true difference, whatever overflowed. */
  lemma DifferenceIsFaithful(c: Config, h: nat, t: nat)
    requires t <= h < t + Pow2(c.w)
    ensures c.Minus(c.Counter(h), c.Counter(t)) == h - t
  {
    RemainderOfDifference(h, t, Pow2(c.w));
    SmallRemainder(h - t, Pow2(c.w));
  }

  /** Word equality of two counters less than a wrap apart is equality of the counters. */
  lemma EqualityIsFaithful(c: Config, h: nat, t: nat)
    requires t <= h < t + Pow2(c.w)
    ensures c.Counter(h) == c.Counter(t) <==> h == t
  {
    if c.Counter(h) == c.Counter(t) && t < h {
      SameSlotIsFar(t, h, Pow2(c.w));
    }
  }

  /** Incrementing the word increments the counter it holds. */
  lemma SuccessorIsFaithful(c: Config, n: nat)
    ensures c.Successor(c.Counter(n)) == c.Counter(n + 1)
  {
    var m := Pow2(c.w);
    assert n % m + 1 == (n + 1) + (-(n / m)) * m;
    RemainderOfShift(n + 1, m, -(n / m));
  }

  /** Reducing by a multiple of `b` first does not change the remainder by `b`. */
  lemma RemainderOfRemainder(n: int, a: int, b: int, q: int)
    requires a > 0 && b > 0 && a == q * b
    ensures (n % a) % b == n % b
  {
    var d := n / a;
    assert n % a == n + (-d * q) * b by {
      assert n == d * a + n % a;
      assert d * (q * b) == (d * q) * b;
    }
    RemainderOfShift(n, b, -d * q);
  }

  /** Masking the word picks the same slot as the unbounded counter modulo the capacity. */
  lemma IndexIsFaithful(c: Config, n: nat)
    requires c.Valid()
    ensures c.Index(c.Counter(n)) == n % c.Capacity()
  {
    MaskIsModulo(c.Counter(n), c.k);
    var q := PowerDivides(c.k, c.w);
    RemainderOfRemainder(n, Pow2(c.w), c.Capacity(), q);
  }

  /** A queue never holds a word's worth of items, and holds at least one. */
  lemma {:induction false} CapacityFits(c: Config)
    requires c.Valid()
    ensures 2 <= c.Capacity() <= Pow2(c.w)
  {
    var q := PowerDivides(c.k, c.w);
    assert q >= 1;
    assert c.Capacity() == 2 * Pow2(c.k - 1);
  }
}
