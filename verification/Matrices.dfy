/** Dense matrices as rows of reals, with the products and means the filter takes. */
module Matrices {
  import opened Sums

  type Matrix = seq<seq<real>>

  ghost predicate Shape(a: Matrix, r: nat, c: nat)
  {
    |a| == r && forall i :: 0 <= i < r ==> |a[i]| == c
  }

  /** Entry (i, j); zero outside the matrix, so that sums need no side conditions. */
  function At(a: Matrix, i: int, j: int): real
  {
    if 0 <= i < |a| && 0 <= j < |a[i]| then a[i][j] else 0.0
  }

  function BuildRow(c: nat, f: (int, int) -> real, i: int): (row: seq<real>)
    ensures |row| == c && forall j :: 0 <= j < c ==> row[j] == f(i, j)
  {
    seq(c, j => f(i, j))
  }

  function Build(r: nat, c: nat, f: (int, int) -> real): (a: Matrix)
    ensures Shape(a, r, c)
    ensures forall i, j :: 0 <= i < r && 0 <= j < c ==> At(a, i, j) == f(i, j)
  {
    seq(r, i => BuildRow(c, f, i))
  }

  function Zeros(n: nat): seq<real> { seq(n, i => 0.0) }

  /** A row or column after the slice write line[lo : lo + |part|] = part. */
  function Patched(line: seq<real>, lo: nat, part: seq<real>): seq<real>
    requires lo + |part| <= |line|
  {
    line[..lo] + part + line[lo + |part|..]
  }

  /** Two matrices of one shape with equal entries are equal. */
  lemma MatrixExt(a: Matrix, b: Matrix, r: nat, c: nat)
    requires Shape(a, r, c) && Shape(b, r, c)
    requires forall i, j :: 0 <= i < r && 0 <= j < c ==> At(a, i, j) == At(b, i, j)
    ensures a == b
  {
    forall i | 0 <= i < r ensures a[i] == b[i] {
      forall j | 0 <= j < c ensures a[i][j] == b[i][j] {
        assert At(a, i, j) == At(b, i, j);
      }
    }
  }

  function ProdTerm(a: Matrix, b: Matrix, i: int, j: int): int -> real { k => At(a, i, k) * At(b, k, j) }

  /** Entry (i, j) of the product of a with n columns and b with n rows. */
  function Entry(a: Matrix, b: Matrix, n: int, i: int, j: int): real { Sum(ProdTerm(a, b, i, j), 0, n) }

  /** numpy.dot of an r x n and an n x c matrix. */
  function Mul(a: Matrix, b: Matrix, r: nat, n: nat, c: nat): (p: Matrix)
    ensures Shape(p, r, c)
    ensures forall i, j :: 0 <= i < r && 0 <= j < c ==> At(p, i, j) == Entry(a, b, n, i, j)
  {
    Build(r, c, (i, j) => Entry(a, b, n, i, j))
  }

  function RowEntries(a: Matrix, i: int): int -> real { j => At(a, i, j) }

  function ColEntries(a: Matrix, j: int): int -> real { i => At(a, i, j) }

  /** Sum of row i over n columns. */
  function RowSum(a: Matrix, n: int, i: int): real { Sum(RowEntries(a, i), 0, n) }

  /** Sum of column j over r rows. */
  function ColSum(a: Matrix, r: int, j: int): real { Sum(ColEntries(a, j), 0, r) }

  function RowMean(a: Matrix, n: int, i: int): real
    requires n > 0
  {
    RowSum(a, n, i) / n as real
  }

  /** The column vector of row means, numpy.mean(a, axis=1). */
  function Means(a: Matrix, r: nat, n: nat): (v: Matrix)
    requires n > 0
    ensures Shape(v, r, 1)
    ensures forall i :: 0 <= i < r ==> At(v, i, 0) == RowMean(a, n, i)
  {
    Build(r, 1, (i, j) => RowMean(a, n, i))
  }

  function Transpose(a: Matrix, r: nat, c: nat): (t: Matrix)
    ensures Shape(t, c, r)
    ensures forall i, j :: 0 <= i < c && 0 <= j < r ==> At(t, i, j) == At(a, j, i)
  {
    Build(c, r, (i, j) => At(a, j, i))
  }

  /** The rows of a two-dimensional array, as a value. */
  function Contents(a: array2<real>): (m: Matrix)
    reads a
    ensures Shape(m, a.Length0, a.Length1)
    ensures forall i, j :: 0 <= i < a.Length0 && 0 <= j < a.Length1 ==> At(m, i, j) == a[i, j]
  {
    seq(a.Length0, i requires 0 <= i < a.Length0 reads a =>
      seq(a.Length1, j requires 0 <= j < a.Length1 reads a => a[i, j]))
  }

  /** The terms a[i, k] * b[k, j] of row i of a product, by k and j. */
  function RowTerms(a: Matrix, b: Matrix, i: int): (int, int) -> real { (k, j) => At(a, i, k) * At(b, k, j) }

  /** The terms a[i, k] * b[k, j] of column j of a product, by i and k. */
  function ColTerms(a: Matrix, b: Matrix, j: int): (int, int) -> real { (i, k) => At(a, i, k) * At(b, k, j) }

  lemma RowTermsByColumn(a: Matrix, b: Matrix, n: nat, i: int, j: int)
    ensures ColSums(RowTerms(a, b, i), n)(j) == Entry(a, b, n, i, j)
  {
    SumEq(ColOf(RowTerms(a, b, i), j), ProdTerm(a, b, i, j), 0, n);
  }

  lemma RowTermsByRow(a: Matrix, b: Matrix, c: nat, i: int, k: int)
    ensures RowSums(RowTerms(a, b, i), c)(k) == At(a, i, k) * RowSum(b, c, k)
  {
    SumScale(RowOf(RowTerms(a, b, i), k), At(a, i, k), RowEntries(b, k), 0, c);
  }

  lemma ColTermsByRow(a: Matrix, b: Matrix, n: nat, i: int, j: int)
    ensures RowSums(ColTerms(a, b, j), n)(i) == Entry(a, b, n, i, j)
  {
    SumEq(RowOf(ColTerms(a, b, j), i), ProdTerm(a, b, i, j), 0, n);
  }

  lemma ColTermsByColumn(a: Matrix, b: Matrix, r: nat, k: int, j: int)
    ensures ColSums(ColTerms(a, b, j), r)(k) == ColSum(a, r, k) * At(b, k, j)
  {
    SumScale(ColOf(ColTerms(a, b, j), k), At(b, k, j), ColEntries(a, k), 0, r);
  }

  /** Summing a product down a column only sees the column sums of the left factor. */
  lemma ColSumOfProduct(a: Matrix, b: Matrix, r: nat, n: nat, j: int, g: int -> real)
    requires forall k :: 0 <= k < n ==> g(k) == ColSum(a, r, k) * At(b, k, j)
    ensures Sum(i => Entry(a, b, n, i, j), 0, r) == Sum(g, 0, n)
  {
    var f := ColTerms(a, b, j);
    SumSwap(f, r, n);
    forall i | 0 <= i < r ensures RowSums(f, n)(i) == Entry(a, b, n, i, j) { ColTermsByRow(a, b, n, i, j); }
    SumEq(RowSums(f, n), i => Entry(a, b, n, i, j), 0, r);
    forall k | 0 <= k < n ensures ColSums(f, r)(k) == g(k) { ColTermsByColumn(a, b, r, k, j); }
    SumEq(ColSums(f, r), g, 0, n);
  }

  /** Summing a product along a row only sees the row sums of the right factor. */
  lemma RowSumOfProduct(a: Matrix, b: Matrix, n: nat, c: nat, i: int, g: int -> real)
    requires forall k :: 0 <= k < n ==> g(k) == At(a, i, k) * RowSum(b, c, k)
    ensures Sum(j => Entry(a, b, n, i, j), 0, c) == Sum(g, 0, n)
  {
    var f := RowTerms(a, b, i);
    SumSwap(f, n, c);
    forall j | 0 <= j < c ensures ColSums(f, n)(j) == Entry(a, b, n, i, j) { RowTermsByColumn(a, b, n, i, j); }
    SumEq(ColSums(f, n), j => Entry(a, b, n, i, j), 0, c);
    forall k | 0 <= k < n ensures RowSums(f, c)(k) == g(k) { RowTermsByRow(a, b, c, i, k); }
    SumEq(RowSums(f, c), g, 0, n);
  }
}
