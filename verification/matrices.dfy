/** The row-major `Matrix` container and its exact kernels (`matmul`, `add`). */
module Matrices {
  import opened Math

  /** Start of row `i` in a row-major buffer whose rows have `n` cells. */
  function RowStart(n: nat, i: nat): nat
  {
    if i == 0 then 0 else RowStart(n, i - 1) + n
  }

  /** Position of cell `(i, j)`: `i` whole rows, then `j` more cells. */
  function Flat(n: nat, i: nat, j: nat): nat
  {
    RowStart(n, i) + j
  }

  /** The position is the source's `i * n + j`. */
  lemma {:induction false} FlatIsRowMajor(n: nat, i: nat, j: nat)
    ensures Flat(n, i, j) == i * n + j
  {
    if i > 0 {
      FlatIsRowMajor(n, i - 1, j);
      assert i * n == (i - 1) * n + n;
    }
  }

  /** `a * n + n <= b * n` whenever `a < b`, proved by stepping `a` up to `b`. */
  lemma {:induction false} MulStep(a: nat, b: nat, n: nat)
    requires a < b
    ensures a * n + n <= b * n
    decreases b - a
  {
    assert (a + 1) * n == a * n + n;
    if a + 1 < b {
      MulStep(a + 1, b, n);
    }
  }

  /** A later row starts at least one whole row further on. */
  lemma {:induction false} RowStartAfter(n: nat, i: nat, m: nat)
    requires i < m
    ensures RowStart(n, i) + n <= RowStart(n, m)
    decreases m - i
  {
    if i + 1 < m {
      RowStartAfter(n, i + 1, m);
    }
  }

  /** `m` rows of `n` cells take `m * n` positions. */
  lemma Size(m: nat, n: nat)
    ensures RowStart(n, m) == m * n
  {
    FlatIsRowMajor(n, m, 0);
  }

  lemma FlatBound(m: nat, n: nat, i: nat, j: nat)
    requires i < m && j <= n
    ensures Flat(n, i, j) + (n - j) <= RowStart(n, m)
  {
    RowStartAfter(n, i, m);
  }

  /** Every cell of an `m`-by-`n` matrix lies inside its buffer. */
  lemma FlatBoundAll(m: nat, n: nat)
    ensures forall i: nat, j: nat :: i < m && j < n ==> Flat(n, i, j) < RowStart(n, m)
  {
    forall i: nat, j: nat | i < m && j < n
      ensures Flat(n, i, j) < RowStart(n, m)
    {
      FlatBound(m, n, i, j);
    }
  }

  /** Distinct cells occupy distinct positions of the buffer. */
  lemma FlatInjective(n: nat, i1: nat, j1: nat, i2: nat, j2: nat)
    requires j1 < n && j2 < n
    requires Flat(n, i1, j1) == Flat(n, i2, j2)
    ensures i1 == i2 && j1 == j2
  {
    if i1 < i2 {
      RowStartAfter(n, i1, i2);
    } else if i2 < i1 {
      RowStartAfter(n, i2, i1);
    }
  }

  /** The row holding position `q` of a buffer whose rows have `n` cells:
      `q / n`, computed by whole rows. */
  function RowOf(n: nat, q: nat): (i: nat)
    requires 0 < n
    ensures RowStart(n, i) <= q < RowStart(n, i) + n
    decreases q
  {
    if q < n then 0 else RowOf(n, q - n) + 1
  }

  /** No row has cells when rows are empty. */
  lemma {:induction false} EmptyRows(m: nat)
    ensures RowStart(0, m) == 0
  {
    if m > 0 {
      EmptyRows(m - 1);
    }
  }

  /** Every position of an `m * n` buffer belongs to exactly one cell, in row
      `RowOf(n, q)`. */
  lemma FlatCovers(m: nat, n: nat, q: nat)
    requires q < RowStart(n, m)
    ensures 0 < n && RowOf(n, q) < m
    ensures Flat(n, RowOf(n, q), q - RowStart(n, RowOf(n, q))) == q
    ensures forall i: nat, j: nat :: j < n && Flat(n, i, j) == q ==>
              i == RowOf(n, q) && j == q - RowStart(n, RowOf(n, q))
  {
    if n == 0 {
      EmptyRows(m);
    }
    var i := RowOf(n, q);
    if m < i {
      RowStartAfter(n, m, i);
    }
    forall i': nat, j': nat | j' < n && Flat(n, i', j') == q
      ensures i' == i && j' == q - RowStart(n, i)
    {
      FlatInjective(n, i', j', i, q - RowStart(n, i));
    }
  }

  /** `Matrix { data, shape: (rows, cols) }`. */
  datatype Matrix = Matrix(data: seq<real>, rows: nat, cols: nat)

  /** The invariant every constructor establishes: one cell per position,
      `rows * cols` in all (see `Size`). */
  predicate Valid(a: Matrix)
  {
    |a.data| == RowStart(a.cols, a.rows)
  }

  /** `a[(i, j)]`: the cell at `data[i * n + j]`. */
  function Get(a: Matrix, i: nat, j: nat): real
    requires Valid(a) && i < a.rows && j < a.cols
  {
    FlatBound(a.rows, a.cols, i, j);
    a.data[Flat(a.cols, i, j)]
  }

  /** The cell `Get` reads is the one `Index<(usize, usize)>` reads, at
      `i * n + j` of the buffer. */
  lemma GetIsRowMajor(a: Matrix, i: nat, j: nat)
    requires Valid(a) && i < a.rows && j < a.cols
    ensures i * a.cols + j < |a.data|
    ensures Get(a, i, j) == a.data[i * a.cols + j]
  {
    FlatBound(a.rows, a.cols, i, j);
    FlatIsRowMajor(a.cols, i, j);
  }

  /** `a[(i, j)] = v` through `IndexMut`: that cell changes and no other. */
  function Set(a: Matrix, i: nat, j: nat, v: real): (r: Matrix)
    requires Valid(a) && i < a.rows && j < a.cols
    ensures Valid(r) && r.rows == a.rows && r.cols == a.cols
    ensures Get(r, i, j) == v
    ensures forall i', j' :: 0 <= i' < a.rows && 0 <= j' < a.cols && (i' != i || j' != j) ==>
              Get(r, i', j') == Get(a, i', j')
  {
    FlatBoundAll(a.rows, a.cols);
    var r := Matrix(a.data[Flat(a.cols, i, j) := v], a.rows, a.cols);
    assert forall i', j' :: 0 <= i' < a.rows && 0 <= j' < a.cols && (i' != i || j' != j) ==>
             Get(r, i', j') == Get(a, i', j') by {
      forall i': nat, j': nat | i' < a.rows && j' < a.cols && (i' != i || j' != j)
        ensures Get(r, i', j') == Get(a, i', j')
      {
        if Flat(a.cols, i', j') == Flat(a.cols, i, j) {
          FlatInjective(a.cols, i', j', i, j);
        }
      }
    }
    r
  }

  /** `a[i]`: the contiguous slice `data[i * n .. i * n + n]`, which is row `i`. */
  function Row(a: Matrix, i: nat): (r: seq<real>)
    requires Valid(a) && i < a.rows
    ensures |r| == a.cols
    ensures forall j :: 0 <= j < a.cols ==> r[j] == Get(a, i, j)
  {
    FlatBound(a.rows, a.cols, i, 0);
    a.data[Flat(a.cols, i, 0)..Flat(a.cols, i, 0) + a.cols]
  }

  /** Column `j`, read cell by cell. */
  function Column(a: Matrix, j: nat): (r: seq<real>)
    requires Valid(a) && j < a.cols
    ensures |r| == a.rows
    ensures forall i :: 0 <= i < a.rows ==> r[i] == Get(a, i, j)
  {
    seq(a.rows, i requires 0 <= i < a.rows => Get(a, i, j))
  }

  /** Row-major flattening of a nested literal. */
  function Flatten(rows: seq<seq<real>>): seq<real>
    decreases |rows|
  {
    if |rows| == 0 then [] else rows[0] + Flatten(rows[1..])
  }

  lemma {:induction false} FlattenLength(rows: seq<seq<real>>, n: nat)
    requires forall i :: 0 <= i < |rows| ==> |rows[i]| == n
    ensures |Flatten(rows)| == RowStart(n, |rows|)
    decreases |rows|
  {
    if |rows| > 0 {
      FlattenLength(rows[1..], n);
    }
  }

  lemma {:induction false} FlattenCell(rows: seq<seq<real>>, n: nat, i: nat, j: nat)
    requires forall i :: 0 <= i < |rows| ==> |rows[i]| == n
    requires i < |rows| && j < n
    ensures Flat(n, i, j) < |Flatten(rows)| && Flatten(rows)[Flat(n, i, j)] == rows[i][j]
    decreases i
  {
    var f, rest := Flatten(rows), Flatten(rows[1..]);
    assert f == rows[0] + rest && |rows[0]| == n;
    if i == 0 {
      assert f[j] == rows[0][j];
    } else {
      FlattenCell(rows[1..], n, i - 1, j);
      var x := Flat(n, i - 1, j);
      assert Flat(n, i, j) == n + x;
      assert f[n + x] == rest[x];
    }
  }

  /** Flattening `M` rows of `N` values puts cell `(i, j)` at `i * N + j`. */
  lemma FlattenCells(rows: seq<seq<real>>, n: nat)
    requires forall i :: 0 <= i < |rows| ==> |rows[i]| == n
    ensures |Flatten(rows)| == RowStart(n, |rows|)
    ensures forall i: nat, j: nat :: i < |rows| && j < n ==>
              Flat(n, i, j) < |Flatten(rows)| && Flatten(rows)[Flat(n, i, j)] == rows[i][j]
  {
    FlattenLength(rows, n);
    forall i: nat, j: nat | i < |rows| && j < n
      ensures Flat(n, i, j) < |Flatten(rows)| && Flatten(rows)[Flat(n, i, j)] == rows[i][j]
    {
      FlattenCell(rows, n, i, j);
    }
  }

  /** `Matrix::new(&[[..; N]; M])`: the literal copied row-major, shape `(M, N)`. */
  function New(lit: seq<seq<real>>, m: nat, n: nat): (r: Matrix)
    requires |lit| == m && forall i :: 0 <= i < m ==> |lit[i]| == n
    ensures Valid(r) && r.rows == m && r.cols == n
    ensures forall i, j :: 0 <= i < m && 0 <= j < n ==> Get(r, i, j) == lit[i][j]
  {
    FlattenCells(lit, n);
    Matrix(Flatten(lit), m, n)
  }

  /** `Matrix::fill(m, n, value)`: every one of the `m * n` cells holds `value`. */
  function Fill(m: nat, n: nat, value: real): (r: Matrix)
    ensures Valid(r) && r.rows == m && r.cols == n
    ensures forall i, j :: 0 <= i < m && 0 <= j < n ==> Get(r, i, j) == value
  {
    FlatBoundAll(m, n);
    Size(m, n);
    Matrix(seq(m * n, _ => value), m, n)
  }

  /** `Matrix::ones(m, n)`. */
  function Ones(m: nat, n: nat): (r: Matrix)
    ensures Valid(r) && r.rows == m && r.cols == n
    ensures forall i, j :: 0 <= i < m && 0 <= j < n ==> Get(r, i, j) == 1.0
  {
    Fill(m, n, 1.0)
  }

  /** `Matrix::zeroes(m, n)`. */
  function Zeroes(m: nat, n: nat): (r: Matrix)
    ensures Valid(r) && r.rows == m && r.cols == n
    ensures forall i, j :: 0 <= i < m && 0 <= j < n ==> Get(r, i, j) == 0.0
  {
    Fill(m, n, 0.0)
  }

  /** Two valid matrices of one shape that agree on every cell are the same matrix. */
  lemma CellwiseEqual(a: Matrix, b: Matrix)
    requires Valid(a) && Valid(b) && a.rows == b.rows && a.cols == b.cols
    requires forall i, j :: 0 <= i < a.rows && 0 <= j < a.cols ==> Get(a, i, j) == Get(b, i, j)
    ensures a == b
  {
    forall q | 0 <= q < |a.data|
      ensures a.data[q] == b.data[q]
    {
      FlatCovers(a.rows, a.cols, q);
      var i := RowOf(a.cols, q);
      assert Get(a, i, q - RowStart(a.cols, i)) == Get(b, i, q - RowStart(a.cols, i));
    }
  }

  /** `impl PartialEq for Matrix`: same shape and same data. It agrees with the
      cell-by-cell comparison the source keeps commented out, and with equality
      of values (so it is reflexive and symmetric). */
  function Equal(a: Matrix, b: Matrix): (r: bool)
    requires Valid(a) && Valid(b)
    ensures r <==> a == b
    ensures r <==> a.rows == b.rows && a.cols == b.cols &&
                   forall i, j :: 0 <= i < a.rows && 0 <= j < a.cols ==> Get(a, i, j) == Get(b, i, j)
  {
    if a.rows == b.rows && a.cols == b.cols &&
       forall i, j :: 0 <= i < a.rows && 0 <= j < a.cols ==> Get(a, i, j) == Get(b, i, j)
    then
      CellwiseEqual(a, b);
      a.data == b.data
    else
      false
  }

  /** `a.add(b)`: shapes must agree; the sum is taken cell by cell. */
  function Add(a: Matrix, b: Matrix): (r: Matrix)
    requires Valid(a) && Valid(b) && a.rows == b.rows && a.cols == b.cols
    ensures Valid(r) && r.rows == a.rows && r.cols == a.cols
    ensures forall i, j :: 0 <= i < a.rows && 0 <= j < a.cols ==> Get(r, i, j) == Get(a, i, j) + Get(b, i, j)
  {
    FlatBoundAll(a.rows, a.cols);
    Matrix(seq(|a.data|, q requires 0 <= q < |a.data| => a.data[q] + b.data[q]), a.rows, a.cols)
  }

  /** Adding the zero matrix of the same shape changes nothing. */
  lemma AddZeroes(a: Matrix)
    requires Valid(a)
    ensures Add(a, Zeroes(a.rows, a.cols)) == a
  {
    CellwiseEqual(Add(a, Zeroes(a.rows, a.cols)), a);
  }

  /** One pass of the `i`, `j` loops of `matmul` for a fixed `k`: every cell
      gains `a[i][k] * b[k][j]`. */
  method AddOuter(res: Matrix, a: Matrix, b: Matrix, k: nat) returns (r: Matrix)
    requires Valid(res) && Valid(a) && Valid(b) && a.cols == b.rows && k < a.cols
    requires res.rows == a.rows && res.cols == b.cols
    ensures Valid(r) && r.rows == res.rows && r.cols == res.cols
    ensures forall i, j :: 0 <= i < r.rows && 0 <= j < r.cols ==>
              Get(r, i, j) == Get(res, i, j) + Get(a, i, k) * Get(b, k, j)
  {
    var m, p := res.rows, res.cols;
    r := res;
    for i := 0 to m
      invariant Valid(r) && r.rows == m && r.cols == p
      invariant forall i', j :: 0 <= i' < m && 0 <= j < p ==>
                  Get(r, i', j) == Get(res, i', j) + (if i' < i then Get(a, i', k) * Get(b, k, j) else 0.0)
    {
      for j := 0 to p
        invariant Valid(r) && r.rows == m && r.cols == p
        invariant forall i', j' :: 0 <= i' < m && 0 <= j' < p ==>
                    Get(r, i', j') == Get(res, i', j') +
                      (if i' < i || (i' == i && j' < j) then Get(a, i', k) * Get(b, k, j') else 0.0)
      {
        r := Set(r, i, j, Get(r, i, j) + Get(a, i, k) * Get(b, k, j));
      }
    }
  }

  /** After the pass for `k`, every cell holds the running sum over `k + 1`
      terms. */
  lemma MatMulStep(a: Matrix, b: Matrix, prev: Matrix, r: Matrix, k: nat)
    requires Valid(a) && Valid(b) && a.cols == b.rows && k < a.cols
    requires Valid(prev) && prev.rows == a.rows && prev.cols == b.cols
    requires Valid(r) && r.rows == a.rows && r.cols == b.cols
    requires forall i, j :: 0 <= i < a.rows && 0 <= j < b.cols ==>
               Get(prev, i, j) == PrefixDot(Row(a, i), Column(b, j), k)
    requires forall i, j :: 0 <= i < a.rows && 0 <= j < b.cols ==>
               Get(r, i, j) == Get(prev, i, j) + Get(a, i, k) * Get(b, k, j)
    ensures forall i, j :: 0 <= i < a.rows && 0 <= j < b.cols ==>
              Get(r, i, j) == PrefixDot(Row(a, i), Column(b, j), k + 1)
  {
    forall i, j | 0 <= i < a.rows && 0 <= j < b.cols
      ensures Get(r, i, j) == PrefixDot(Row(a, i), Column(b, j), k + 1)
    {
      assert Row(a, i)[k] == Get(a, i, k) && Column(b, j)[k] == Get(b, k, j);
    }
  }

  /** The running sum over all `n` terms is the dot product of row and column. */
  lemma MatMulDone(a: Matrix, b: Matrix, r: Matrix)
    requires Valid(a) && Valid(b) && a.cols == b.rows
    requires Valid(r) && r.rows == a.rows && r.cols == b.cols
    requires forall i, j :: 0 <= i < a.rows && 0 <= j < b.cols ==>
               Get(r, i, j) == PrefixDot(Row(a, i), Column(b, j), a.cols)
    ensures forall i, j :: 0 <= i < a.rows && 0 <= j < b.cols ==>
              Get(r, i, j) == Dot(Row(a, i), Column(b, j))
  {
    forall i, j | 0 <= i < a.rows && 0 <= j < b.cols
      ensures Get(r, i, j) == Dot(Row(a, i), Column(b, j))
    {
      var x, y := Row(a, i), Column(b, j);
      PrefixDotIsDot(x, y, a.cols);
      assert x[..a.cols] == x && y[..a.cols] == y;
    }
  }

  /** `a.matmul(b)`: requires `a.cols == b.rows`, returns shape `(m, p)`, and
      each cell is the dot product of a row of `a` with a column of `b`. The
      loops run in the source's `k, i, j` order, accumulating into a zeroed
      result. */
  method MatMul(a: Matrix, b: Matrix) returns (r: Matrix)
    requires Valid(a) && Valid(b) && a.cols == b.rows
    ensures Valid(r) && r.rows == a.rows && r.cols == b.cols
    ensures forall i, j :: 0 <= i < a.rows && 0 <= j < b.cols ==>
              Get(r, i, j) == Dot(Row(a, i), Column(b, j))
  {
    var m, n, p := a.rows, a.cols, b.cols;
    r := Zeroes(m, p);
    for k := 0 to n
      invariant Valid(r) && r.rows == m && r.cols == p
      invariant forall i, j :: 0 <= i < m && 0 <= j < p ==> Get(r, i, j) == PrefixDot(Row(a, i), Column(b, j), k)
    {
      var prev := r;
      r := AddOuter(r, a, b, k);
      MatMulStep(a, b, prev, r, k);
    }
    MatMulDone(a, b, r);
  }
}
