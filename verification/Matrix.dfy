/** The matrix loops over flat row-major storage, and the algebra of the sums they compute.
    Entries are integers: the laws need an exact ring. */
module Matrix {

  // ---------------------------------------------------------------- sums

  function Sum(n: nat, f: nat -> int): int {
    if n == 0 then 0 else Sum(n - 1, f) + f(n - 1)
  }

  lemma {:induction false} SumCongruent(n: nat, f: nat -> int, g: nat -> int)
    requires forall i: nat :: i < n ==> f(i) == g(i)
    ensures Sum(n, f) == Sum(n, g)
  {
    if n > 0 {
      SumCongruent(n - 1, f, g);
    }
  }

  function Plus(f: nat -> int, g: nat -> int): nat -> int {
    (i: nat) => f(i) + g(i)
  }

  function Times(c: int, f: nat -> int): nat -> int {
    (i: nat) => c * f(i)
  }

  lemma {:induction false} SumAdds(n: nat, f: nat -> int, g: nat -> int)
    ensures Sum(n, Plus(f, g)) == Sum(n, f) + Sum(n, g)
  {
    if n > 0 {
      SumAdds(n - 1, f, g);
    }
  }

  lemma {:induction false} SumScales(n: nat, c: int, f: nat -> int)
    ensures Sum(n, Times(c, f)) == c * Sum(n, f)
  {
    if n > 0 {
      SumScales(n - 1, c, f);
      Distribute(c, Sum(n - 1, f), f(n - 1));
    }
  }

  lemma Distribute(c: int, x: int, y: int)
    ensures c * (x + y) == c * x + c * y
  {
  }

  /** Row `i` of a table, and column `j`. */
  function RowOf(g: (nat, nat) -> int, i: nat): nat -> int {
    (j: nat) => g(i, j)
  }

  function ColumnOf(g: (nat, nat) -> int, j: nat): nat -> int {
    (i: nat) => g(i, j)
  }

  function RowSum(g: (nat, nat) -> int, n: nat): nat -> int {
    (i: nat) => Sum(n, RowOf(g, i))
  }

  function ColumnSum(g: (nat, nat) -> int, m: nat): nat -> int {
    (j: nat) => Sum(m, ColumnOf(g, j))
  }

  /** Row by row or column by column, a double sum is the same. */
  lemma {:induction false} SumsExchange(m: nat, n: nat, g: (nat, nat) -> int)
    ensures Sum(m, RowSum(g, n)) == Sum(n, ColumnSum(g, m))
    decreases m
  {
    if m == 0 {
      ZeroSum(n, ColumnSum(g, 0));
    } else {
      SumsExchange(m - 1, n, g);
      SumAdds(n, ColumnSum(g, m - 1), RowOf(g, m - 1));
      SumCongruent(n, ColumnSum(g, m), Plus(ColumnSum(g, m - 1), RowOf(g, m - 1)));
    }
  }

  lemma {:induction false} ZeroSum(n: nat, f: nat -> int)
    requires forall i: nat :: i < n ==> f(i) == 0
    ensures Sum(n, f) == 0
  {
    if n > 0 {
      ZeroSum(n - 1, f);
    }
  }

  /** A sum with one term that is not zero. */
  lemma {:induction false} SumSelects(n: nat, f: nat -> int, k: nat)
    requires k < n && forall i: nat :: i < n && i != k ==> f(i) == 0
    ensures Sum(n, f) == f(k)
  {
    if k < n - 1 {
      SumSelects(n - 1, f, k);
    } else {
      ZeroSum(n - 1, f);
    }
  }

  /** Only terms that are all zero sum squares, or anything that is never negative, to zero. */
  lemma {:induction false} SumIsDefinite(n: nat, f: nat -> int)
    requires forall i: nat :: i < n ==> f(i) >= 0
    ensures Sum(n, f) >= 0
    ensures Sum(n, f) == 0 <==> forall i: nat :: i < n ==> f(i) == 0
  {
    if n > 0 {
      SumIsDefinite(n - 1, f);
    }
  }

  // ---------------------------------------------------------------- row-major storage

  /** Where entry `[i, j]` of a matrix with `cols` columns lies. */
  function Offset(cols: nat, i: nat, j: nat): nat {
    i * cols + j
  }

  lemma OffsetInRange(rows: nat, cols: nat, i: nat, j: nat)
    requires i < rows && j < cols
    ensures Offset(cols, i, j) < rows * cols
  {
    assert (i + 1) * cols <= rows * cols;
  }

  lemma OffsetIsInjective(cols: nat, i: nat, j: nat)
    requires j < cols
    ensures Offset(cols, i, j) / cols == i && Offset(cols, i, j) % cols == j
  {
    var k := Offset(cols, i, j);
    var d := k / cols - i;
    assert d * cols == j - k % cols by {
      assert k == (k / cols) * cols + k % cols;
      assert (k / cols - i) * cols == (k / cols) * cols - i * cols;
    }
    assert d >= 1 ==> d * cols >= cols;
    assert d <= -1 ==> d * cols <= 0 - cols;
  }

  lemma OffsetIsSurjective(rows: nat, cols: nat, k: nat)
    requires k < rows * cols
    ensures cols > 0 && k / cols < rows && k % cols < cols && Offset(cols, k / cols, k % cols) == k
  {
    assert cols > 0;
    var q := k / cols;
    assert k == q * cols + k % cols;
    assert q >= rows ==> (q - rows) * cols >= 0;
    assert (q - rows) * cols == q * cols - rows * cols;
  }

  /** Cell `k` is the place of some entry. */
  ghost predicate Addressed(rows: nat, cols: nat, k: nat) {
    exists i: nat, j: nat :: i < rows && j < cols && Offset(cols, i, j) == k
  }

  /** The index map of a row-major matrix is a bijection onto its cells. */
  lemma OffsetIsBijective(rows: nat, cols: nat)
    ensures forall i: nat, j: nat :: i < rows && j < cols ==> Offset(cols, i, j) < rows * cols
    ensures forall i: nat, j: nat, i': nat, j': nat ::
              j < cols && j' < cols && Offset(cols, i, j) == Offset(cols, i', j') ==> i == i' && j == j'
    ensures forall k: nat :: k < rows * cols ==> Addressed(rows, cols, k)
  {
    forall i: nat, j: nat | i < rows && j < cols
      ensures Offset(cols, i, j) < rows * cols
    {
      OffsetInRange(rows, cols, i, j);
    }
    forall i: nat, j: nat, i': nat, j': nat |
        j < cols && j' < cols && Offset(cols, i, j) == Offset(cols, i', j')
      ensures i == i' && j == j'
    {
      OffsetIsInjective(cols, i, j);
      OffsetIsInjective(cols, i', j');
    }
    forall k: nat | k < rows * cols
      ensures Addressed(rows, cols, k)
    {
      OffsetIsSurjective(rows, cols, k);
    }
  }

  function Entry(a: seq<int>, cols: nat, i: nat, j: nat): int {
    if Offset(cols, i, j) < |a| then a[Offset(cols, i, j)] else 0
  }

  // ---------------------------------------------------------------- matrix-vector product

  function RowTerm(a: seq<int>, cols: nat, x: seq<int>, i: nat): nat -> int {
    (j: nat) => Entry(a, cols, i, j) * At(x, j)
  }

  function At(x: seq<int>, i: nat): int {
    if i < |x| then x[i] else 0
  }

  function Product(a: seq<int>, rows: nat, cols: nat, x: seq<int>): (y: seq<int>) {
    seq(rows, i requires 0 <= i < rows => Sum(cols, RowTerm(a, cols, x, i)))
  }

  /** `matvec`: `result` receives A x. */
  method MatVec(a: array<int>, rows: nat, cols: nat, x: array<int>, result: array<int>)
    requires rows * cols <= a.Length && cols <= x.Length && rows <= result.Length
    requires result != a && result != x
    modifies result
    ensures result[..rows] == Product(a[..], rows, cols, x[..])
    ensures result[rows..] == old(result[rows..])
  {
    for i := 0 to rows
      invariant forall k :: 0 <= k < i ==> result[k] == Sum(cols, RowTerm(a[..], cols, x[..], k))
      invariant result[rows..] == old(result[rows..])
    {
      result[i] := 0;
      for j := 0 to cols
        invariant forall k :: 0 <= k < i ==> result[k] == Sum(cols, RowTerm(a[..], cols, x[..], k))
        invariant result[i] == Sum(j, RowTerm(a[..], cols, x[..], i))
        invariant result[rows..] == old(result[rows..])
      {
        OffsetInRange(rows, cols, i, j);
        result[i] := result[i] + a[i * cols + j] * x[j];
      }
    }
  }

  // ---------------------------------------------------------------- transpose

  function Transposed(a: seq<int>, rows: nat, cols: nat): (b: seq<int>)
    ensures |b| == rows * cols
  {
    if rows == 0 then [] else seq(rows * cols, k requires 0 <= k < rows * cols => Entry(a, cols, k % rows, k / rows))
  }

  /** Entry `[j, i]` of the transpose is entry `[i, j]`. */
  lemma TransposedAt(a: seq<int>, rows: nat, cols: nat, i: nat, j: nat)
    requires i < rows && j < cols && rows * cols <= |a|
    ensures Offset(cols, i, j) < rows * cols && Offset(rows, j, i) < rows * cols
    ensures Transposed(a, rows, cols)[Offset(rows, j, i)] == a[Offset(cols, i, j)]
  {
    OffsetInRange(rows, cols, i, j);
    OffsetInRange(cols, rows, j, i);
    OffsetIsInjective(rows, j, i);
  }

  lemma TransposeTwiceAt(a: seq<int>, rows: nat, cols: nat, i: nat, j: nat)
    requires i < rows && j < cols && |a| == rows * cols
    ensures Offset(cols, i, j) < |Transposed(Transposed(a, rows, cols), cols, rows)| == |a|
    ensures Transposed(Transposed(a, rows, cols), cols, rows)[Offset(cols, i, j)] == a[Offset(cols, i, j)]
  {
    TransposedAt(a, rows, cols, i, j);
    TransposedAt(Transposed(a, rows, cols), cols, rows, j, i);
  }

  /** Transposing twice restores the matrix, for all extents. */
  lemma TransposeTwice(a: seq<int>, rows: nat, cols: nat)
    requires |a| == rows * cols
    ensures Transposed(Transposed(a, rows, cols), cols, rows) == a
  {
    var aTT := Transposed(Transposed(a, rows, cols), cols, rows);
    forall k: nat | k < |a|
      ensures k < |aTT| && aTT[k] == a[k]
    {
      OffsetIsSurjective(rows, cols, k);
      TransposeTwiceAt(a, rows, cols, k / cols, k % cols);
    }
    assert |aTT| == cols * rows == |a|;
  }

  /** The loop has reached row `i`, column `j`. */
  predicate Visited(i: nat, j: nat, i': nat, j': nat) {
    i' < i || (i' == i && j' < j)
  }

  /** `transpose`. The ghost result counts the writes to each cell of B. */
  method Transpose(a: array<int>, rows: nat, cols: nat, b: array<int>) returns (ghost writes: seq<nat>)
    requires rows * cols <= a.Length && rows * cols <= b.Length && a != b
    modifies b
    ensures b[..rows * cols] == Transposed(a[..], rows, cols)
    ensures b[rows * cols..] == old(b[rows * cols..])
    ensures |writes| == rows * cols && forall k :: 0 <= k < |writes| ==> writes[k] == 1
  {
    var size := rows * cols;
    ghost var row, col := Rows(rows, cols), Columns(rows, cols);
    CoordinatesAreUnique(rows, cols);
    writes := seq(size, _ => 0);
    for i := 0 to rows
      invariant |writes| == size && b[size..] == old(b[size..])
      invariant forall k :: 0 <= k < size ==> writes[k] == if row[k] < i then 1 else 0
      invariant forall k :: 0 <= k < size && row[k] < i ==> b[k] == Entry(a[..], cols, row[k], col[k])
    {
      for j := 0 to cols
        invariant |writes| == size && b[size..] == old(b[size..])
        invariant forall k :: 0 <= k < size ==> writes[k] == if Visited(i, j, row[k], col[k]) then 1 else 0
        invariant forall k :: 0 <= k < size && Visited(i, j, row[k], col[k]) ==>
                    b[k] == Entry(a[..], cols, row[k], col[k])
      {
        OffsetInRange(rows, cols, i, j);
        OffsetInRange(cols, rows, j, i);
        OffsetIsInjective(rows, j, i);
        var target := j * rows + i;
        assert forall k :: 0 <= k < size && row[k] == i && col[k] == j ==> k == target;
        b[target] := a[i * cols + j];
        writes := writes[target := writes[target] + 1];
      }
    }
    assert b[..size] == Transposed(a[..], rows, cols);
  }

  /** The coordinates, in A, of the entry that belongs in each cell of B. */
  ghost function Rows(rows: nat, cols: nat): (r: seq<nat>)
    ensures |r| == rows * cols
  {
    if rows == 0 then [] else seq(rows * cols, k requires 0 <= k < rows * cols => k % rows)
  }

  ghost function Columns(rows: nat, cols: nat): (r: seq<nat>)
    ensures |r| == rows * cols
  {
    if rows == 0 then [] else seq(rows * cols, k requires 0 <= k < rows * cols => k / rows)
  }

  /** The index map is a bijection: cell `k` of B has one pair of coordinates, in range, and they
      lead back to `k`. */
  lemma CoordinatesAreUnique(rows: nat, cols: nat)
    ensures forall k :: 0 <= k < rows * cols ==>
              && Rows(rows, cols)[k] < rows && Columns(rows, cols)[k] < cols
              && k == Columns(rows, cols)[k] * rows + Rows(rows, cols)[k]
  {
    forall k | 0 <= k < rows * cols
      ensures && Rows(rows, cols)[k] < rows && Columns(rows, cols)[k] < cols
              && k == Columns(rows, cols)[k] * rows + Rows(rows, cols)[k]
    {
      OffsetIsSurjective(cols, rows, k);
    }
  }

  // ---------------------------------------------------------------- Frobenius sum

  function SquareAt(a: seq<int>, cols: nat): (nat, nat) -> int {
    (i: nat, j: nat) => Entry(a, cols, i, j) * Entry(a, cols, i, j)
  }

  function SumOfSquares(a: seq<int>, rows: nat, cols: nat): int {
    Sum(rows, RowSum(SquareAt(a, cols), cols))
  }

  /** `frobenius`. */
  method Frobenius(a: array<int>, rows: nat, cols: nat) returns (sum: int)
    requires rows * cols <= a.Length
    ensures sum == SumOfSquares(a[..], rows, cols)
  {
    sum := 0;
    ghost var g := SquareAt(a[..], cols);
    for i := 0 to rows
      invariant sum == Sum(i, RowSum(g, cols))
    {
      for j := 0 to cols
        invariant sum == Sum(i, RowSum(g, cols)) + Sum(j, RowOf(g, i))
      {
        OffsetInRange(rows, cols, i, j);
        sum := sum + a[i * cols + j] * a[i * cols + j];
      }
    }
  }

  function ShiftBy(m: nat, f: nat -> int): nat -> int {
    (i: nat) => f(m + i)
  }

  lemma {:induction false} SumSplits(m: nat, n: nat, f: nat -> int)
    ensures Sum(m + n, f) == Sum(m, f) + Sum(n, ShiftBy(m, f))
    decreases n
  {
    if n > 0 {
      SumSplits(m, n - 1, f);
    }
  }

  /** A double sum over the entries of a matrix is the sum over its cells in storage order. */
  lemma {:induction false} SumByCells(rows: nat, cols: nat, g: (nat, nat) -> int, f: nat -> int)
    requires forall i: nat, j: nat :: i < rows && j < cols ==> g(i, j) == f(Offset(cols, i, j))
    ensures Sum(rows, RowSum(g, cols)) == Sum(rows * cols, f)
    decreases rows
  {
    if rows > 0 {
      var m := rows - 1;
      SumByCells(m, cols, g, f);
      RowByCells(m, cols, g, f);
      CellsOfRows(m, cols);
    }
  }

  /** The cells of row `m` follow those of the rows before it. */
  lemma RowByCells(m: nat, cols: nat, g: (nat, nat) -> int, f: nat -> int)
    requires forall j: nat :: j < cols ==> g(m, j) == f(Offset(cols, m, j))
    ensures Sum(m * cols + cols, f) == Sum(m * cols, f) + RowSum(g, cols)(m)
  {
    SumSplits(m * cols, cols, f);
    forall j: nat | j < cols
      ensures RowOf(g, m)(j) == ShiftBy(m * cols, f)(j)
    {
      assert g(m, j) == f(Offset(cols, m, j));
    }
    SumCongruent(cols, RowOf(g, m), ShiftBy(m * cols, f));
  }

  lemma CellsOfRows(m: nat, cols: nat)
    ensures (m + 1) * cols == m * cols + cols
  {
  }

  // ---------------------------------------------------------------- laws

  /** The Frobenius sum is the dot product of the matrix with itself, its cells taken as one vector. */
  lemma FrobeniusIsSelfProduct(a: seq<int>, rows: nat, cols: nat)
    requires rows * cols <= |a|
    ensures SumOfSquares(a, rows, cols) == Dot(rows * cols, a, a)
  {
    forall i: nat, j: nat | i < rows && j < cols
      ensures SquareAt(a, cols)(i, j) == Term(a, a)(Offset(cols, i, j))
    {
      OffsetInRange(rows, cols, i, j);
    }
    SumByCells(rows, cols, SquareAt(a, cols), Term(a, a));
  }

  /** It is never negative, and zero for the zero matrix alone. */
  lemma FrobeniusIsDefinite(a: seq<int>, rows: nat, cols: nat)
    requires rows * cols <= |a|
    ensures SumOfSquares(a, rows, cols) >= 0
    ensures SumOfSquares(a, rows, cols) == 0 <==> forall k: nat :: k < rows * cols ==> a[k] == 0
  {
    var n := rows * cols;
    FrobeniusIsSelfProduct(a, rows, cols);
    forall k: nat | k < n
      ensures Term(a, a)(k) >= 0 && (Term(a, a)(k) == 0 <==> a[k] == 0)
    {
      assert Term(a, a)(k) == a[k] * a[k];
    }
    SumIsDefinite(n, Term(a, a));
  }

  /** The vector of length `n` that is 1 at `k` and 0 elsewhere. */
  function Unit(n: nat, k: nat): seq<int> {
    seq(n, i => if i == k then 1 else 0)
  }

  /** The `n` by `n` identity, row-major. */
  function Identity(n: nat): seq<int> {
    if n == 0 then [] else seq(n * n, k requires 0 <= k < n * n => if k / n == k % n then 1 else 0)
  }

  lemma UnitSelects(n: nat, k: nat, y: seq<int>)
    requires k < n <= |y|
    ensures Dot(n, Unit(n, k), y) == Dot(n, y, Unit(n, k)) == y[k]
  {
    SumSelects(n, Term(Unit(n, k), y), k);
    SumSelects(n, Term(y, Unit(n, k)), k);
  }

  /** A x for the `k`-th unit vector is column `k`. */
  lemma ProductWithUnit(a: seq<int>, rows: nat, cols: nat, k: nat)
    requires rows * cols <= |a| && k < cols
    ensures forall i: nat {:trigger Offset(cols, i, k)} :: i < rows ==>
              Offset(cols, i, k) < |a| && Product(a, rows, cols, Unit(cols, k))[i] == a[Offset(cols, i, k)]
  {
    forall i: nat | i < rows
      ensures Offset(cols, i, k) < |a| && Product(a, rows, cols, Unit(cols, k))[i] == a[Offset(cols, i, k)]
    {
      OffsetInRange(rows, cols, i, k);
      SumSelects(cols, RowTerm(a, cols, Unit(cols, k), i), k);
    }
  }

  /** The identity matrix times x is x. */
  lemma ProductWithIdentity(n: nat, x: seq<int>)
    requires |x| == n
    ensures Product(Identity(n), n, n, x) == x
  {
    forall i: nat | i < n
      ensures Product(Identity(n), n, n, x)[i] == x[i]
    {
      forall j: nat | j < n
        ensures RowTerm(Identity(n), n, x, i)(j) == if j == i then x[i] else 0
      {
        OffsetInRange(n, n, i, j);
        OffsetIsInjective(n, i, j);
      }
      SumSelects(n, RowTerm(Identity(n), n, x, i), i);
    }
  }

  /** Transposing does not change the Frobenius sum. */
  lemma FrobeniusOfTranspose(a: seq<int>, rows: nat, cols: nat)
    requires rows * cols <= |a|
    ensures SumOfSquares(Transposed(a, rows, cols), cols, rows) == SumOfSquares(a, rows, cols)
  {
    var g, h := SquareAt(a, cols), SquareAt(Transposed(a, rows, cols), rows);
    SumsExchange(rows, cols, g);
    forall j: nat | j < cols
      ensures RowSum(h, rows)(j) == ColumnSum(g, rows)(j)
    {
      forall i: nat | i < rows
        ensures h(j, i) == g(i, j)
      {
        TransposedAt(a, rows, cols, i, j);
      }
      SumCongruent(rows, RowOf(h, j), ColumnOf(g, j));
    }
    SumCongruent(cols, RowSum(h, rows), ColumnSum(g, rows));
  }

  function Term(x: seq<int>, y: seq<int>): nat -> int {
    (i: nat) => At(x, i) * At(y, i)
  }

  function Dot(n: nat, x: seq<int>, y: seq<int>): int {
    Sum(n, Term(x, y))
  }

  /** y[i] * A[i, j] * x[j]. */
  function Weighted(a: seq<int>, cols: nat, x: seq<int>, y: seq<int>): (nat, nat) -> int {
    (i: nat, j: nat) => At(y, i) * (Entry(a, cols, i, j) * At(x, j))
  }

  /** y . A x is the double sum of all weighted entries, row by row. */
  lemma ProductAsDoubleSum(a: seq<int>, rows: nat, cols: nat, x: seq<int>, y: seq<int>)
    ensures Dot(rows, y, Product(a, rows, cols, x)) == Sum(rows, RowSum(Weighted(a, cols, x, y), cols))
  {
    var g := Weighted(a, cols, x, y);
    forall i: nat | i < rows
      ensures Term(y, Product(a, rows, cols, x))(i) == RowSum(g, cols)(i)
    {
      SumScales(cols, At(y, i), RowTerm(a, cols, x, i));
      SumCongruent(cols, Times(At(y, i), RowTerm(a, cols, x, i)), RowOf(g, i));
    }
    SumCongruent(rows, Term(y, Product(a, rows, cols, x)), RowSum(g, cols));
  }

  /** The adjoint law: y . (A x) == (A^T y) . x. */
  lemma Adjoint(a: seq<int>, rows: nat, cols: nat, x: seq<int>, y: seq<int>)
    requires rows * cols <= |a|
    ensures Dot(rows, y, Product(a, rows, cols, x))
         == Dot(cols, x, Product(Transposed(a, rows, cols), cols, rows, y))
  {
    var b := Transposed(a, rows, cols);
    var g, h := Weighted(a, cols, x, y), Weighted(b, rows, y, x);
    ProductAsDoubleSum(a, rows, cols, x, y);
    ProductAsDoubleSum(b, cols, rows, y, x);
    SumsExchange(rows, cols, g);
    forall j: nat | j < cols
      ensures RowSum(h, rows)(j) == ColumnSum(g, rows)(j)
    {
      forall i: nat | i < rows
        ensures h(j, i) == g(i, j)
      {
        TransposedAt(a, rows, cols, i, j);
        Reassociate(At(y, i), Entry(a, cols, i, j), At(x, j));
      }
      SumCongruent(rows, RowOf(h, j), ColumnOf(g, j));
    }
    SumCongruent(cols, RowSum(h, rows), ColumnSum(g, rows));
  }

  lemma Reassociate(p: int, q: int, r: int)
    ensures p * (q * r) == r * (q * p)
  {
  }

  // ---------------------------------------------------------------- the laws of the loops

  /** A matrix is the first `rows * cols` cells of its storage. */
  predicate SameMatrix(a: seq<int>, b: seq<int>, rows: nat, cols: nat) {
    rows * cols <= |a| && rows * cols <= |b| && a[..rows * cols] == b[..rows * cols]
  }

  lemma SameEntry(a: seq<int>, b: seq<int>, rows: nat, cols: nat, i: nat, j: nat)
    requires SameMatrix(a, b, rows, cols) && i < rows && j < cols
    ensures Entry(a, cols, i, j) == Entry(b, cols, i, j)
  {
    OffsetInRange(rows, cols, i, j);
    var k := Offset(cols, i, j);
    assert a[..rows * cols][k] == b[..rows * cols][k];
  }

  lemma SumOfSquaresOfMatrix(a: seq<int>, b: seq<int>, rows: nat, cols: nat)
    requires SameMatrix(a, b, rows, cols)
    ensures SumOfSquares(a, rows, cols) == SumOfSquares(b, rows, cols)
  {
    var g, h := SquareAt(a, cols), SquareAt(b, cols);
    forall i: nat | i < rows
      ensures RowSum(g, cols)(i) == RowSum(h, cols)(i)
    {
      forall j: nat | j < cols
        ensures g(i, j) == h(i, j)
      {
        SameEntry(a, b, rows, cols, i, j);
      }
      SumCongruent(cols, RowOf(g, i), RowOf(h, i));
    }
    SumCongruent(rows, RowSum(g, cols), RowSum(h, cols));
  }

  lemma ProductOfMatrix(a: seq<int>, b: seq<int>, rows: nat, cols: nat, x: seq<int>)
    requires SameMatrix(a, b, rows, cols)
    ensures Product(a, rows, cols, x) == Product(b, rows, cols, x)
  {
    forall i: nat | i < rows
      ensures Product(a, rows, cols, x)[i] == Product(b, rows, cols, x)[i]
    {
      forall j: nat | j < cols
        ensures RowTerm(a, cols, x, i)(j) == RowTerm(b, cols, x, i)(j)
      {
        SameEntry(a, b, rows, cols, i, j);
      }
      SumCongruent(cols, RowTerm(a, cols, x, i), RowTerm(b, cols, x, i));
    }
  }

  /** `frobenius` before and after `transpose`, whatever storage lies beyond the matrices. */
  method FrobeniusBothWays(a: array<int>, rows: nat, cols: nat, b: array<int>) returns (before: int, after: int)
    requires rows * cols <= a.Length && rows * cols <= b.Length && a != b
    modifies b
    ensures before == after == SumOfSquares(old(a[..]), rows, cols)
  {
    assert rows * cols == cols * rows;
    before := Frobenius(a, rows, cols);
    ghost var writes := Transpose(a, rows, cols, b);
    after := Frobenius(b, cols, rows);
    SumOfSquaresOfMatrix(b[..], Transposed(a[..], rows, cols), cols, rows);
    FrobeniusOfTranspose(a[..], rows, cols);
  }

  /** `matvec` with a matrix and with the `transpose` of it: the adjoint law of what the loops leave
      in `u` and `v`. */
  method ProductBothWays(a: array<int>, rows: nat, cols: nat, x: array<int>, y: array<int>,
                         b: array<int>, u: array<int>, v: array<int>)
    requires rows * cols <= a.Length && rows * cols <= b.Length
    requires cols <= x.Length && rows <= y.Length && rows <= u.Length && cols <= v.Length
    requires b != a && b != x && b != y && u != a && u != x && u != y && u != b
    requires v != a && v != x && v != y && v != b && v != u
    modifies b, u, v
    ensures Dot(rows, y[..], u[..]) == Dot(cols, x[..], v[..])
  {
    assert rows * cols == cols * rows;
    MatVec(a, rows, cols, x, u);
    ghost var writes := Transpose(a, rows, cols, b);
    MatVec(b, cols, rows, y, v);
    ghost var at := Transposed(a[..], rows, cols);
    ProductOfMatrix(b[..], at, cols, rows, y[..]);
    Adjoint(a[..], rows, cols, x[..], y[..]);
    DotOfPrefix(rows, y[..], u[..], Product(a[..], rows, cols, x[..]));
    DotOfPrefix(cols, x[..], v[..], Product(at, cols, rows, y[..]));
  }

  lemma DotOfPrefix(n: nat, x: seq<int>, y: seq<int>, z: seq<int>)
    requires n <= |y| && n == |z| && y[..n] == z
    ensures Dot(n, x, y) == Dot(n, x, z)
  {
    forall i: nat | i < n
      ensures At(y, i) == At(z, i)
    {
      assert y[..n][i] == z[i];
    }
    SumCongruent(n, Term(x, y), Term(x, z));
  }
}
