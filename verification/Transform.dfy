/** The ensemble transform X5: how it is computed, and what multiplying by it does to an ensemble. */
module Transform {
  import opened Arith
  import opened Sums
  import opened Matrices
  import opened Spectrum
  import opened Collectives
  import ObservationOperator

  // ---- the innovation and the anomalies in observation space ----

  /** compute_X5_utils_: three Allreduced products, then (D', Eta). */
  function Innovation(h: Matrix, x: Matrix, mean: Matrix, y: Matrix, m: nat, nd: nat, nens: nat, size: nat)
    : (Matrix, Matrix)
    requires size > 0 && |x| == nd && |mean| == nd && |y| == nd
  {
    var d := DistributedProduct(h, y, m, nd, 1, size);
    var hMean := DistributedProduct(h, mean, m, nd, 1, size);
    var ha := DistributedProduct(h, x, m, nd, nens, size);
    (Build(m, nens, (i, j) => At(d, i, 0) - At(hMean, i, 0)),
     Build(m, nens, (i, j) => At(ha, i, j) - At(hMean, i, 0)))
  }

  /** EnKF_X5: the same anomalies, as H applied to the perturbations. */
  function RootAnomalies(h: Matrix, x: Matrix, m: nat, nd: nat, nens: nat): Matrix
    requires nens > 0
  {
    Mul(h, Build(nd, nens, (c, j) => At(x, c, j) - RowMean(x, nens, c)), m, nd, nens)
  }

  ghost predicate RowsSumToZero(eta: Matrix, m: nat, nens: nat)
  {
    forall i :: 0 <= i < m ==> RowSum(eta, nens, i) == 0.0
  }

  function EntryRow(a: Matrix, b: Matrix, n: int, i: int): int -> real { j => Entry(a, b, n, i, j) }

  function ObservedSums(h: Matrix, x: Matrix, nens: nat, i: int): int -> real { k => At(h, i, k) * RowSum(x, nens, k) }

  lemma ObservedSumIsScaledMean(h: Matrix, x: Matrix, nd: nat, nens: nat, i: nat, k: nat)
    requires nens > 0 && k < nd
    ensures ObservedSums(h, x, nens, i)(k) == nens as real * ProdTerm(h, Means(x, nd, nens), i, 0)(k)
  {
    assert At(Means(x, nd, nens), k, 0) == RowMean(x, nens, k);
    MeanTimes(At(h, i, k), RowSum(x, nens, k), nens as real);
  }

  lemma ObservedSumsScale(h: Matrix, x: Matrix, nd: nat, nens: nat, i: nat)
    requires nens > 0
    ensures Sum(ObservedSums(h, x, nens, i), 0, nd) == nens as real * Sum(ProdTerm(h, Means(x, nd, nens), i, 0), 0, nd)
  {
    forall k | 0 <= k < nd
      ensures ObservedSums(h, x, nens, i)(k) == nens as real * ProdTerm(h, Means(x, nd, nens), i, 0)(k)
    {
      ObservedSumIsScaledMean(h, x, nd, nens, i, k);
    }
    SumScale(ObservedSums(h, x, nens, i), nens as real, ProdTerm(h, Means(x, nd, nens), i, 0), 0, nd);
  }

  lemma ObservedRowTotal(h: Matrix, x: Matrix, nd: nat, nens: nat, i: nat)
    ensures Sum(EntryRow(h, x, nd, i), 0, nens) == Sum(ObservedSums(h, x, nens, i), 0, nd)
  {
    RowSumOfProduct(h, x, nd, nens, i, ObservedSums(h, x, nens, i));
    SumEq(EntryRow(h, x, nd, i), j => Entry(h, x, nd, i, j), 0, nens);
  }

  function Constant(c: real): int -> real { j => c }

  lemma ConstantSum(c: real, n: nat)
    ensures Sum(Constant(c), 0, n) == n as real * c
  {
    SumConst(Constant(c), c, 0, n);
  }

  lemma ConstantsDiffer(p: real, q: real, n: nat)
    requires n > 0
    ensures Sum(Constant(p), 0, n) == Sum(Constant(q), 0, n) <==> p == q
  {
    ConstantSum(p, n);
    ConstantSum(q, n);
    assert n as real * p - n as real * q == n as real * (p - q);
  }

  /** Observing the members and adding up is observing the mean, once per member. */
  lemma ObservedRowSum(h: Matrix, x: Matrix, nd: nat, nens: nat, i: nat)
    requires nens > 0
    ensures Sum(EntryRow(h, x, nd, i), 0, nens) == Sum(Constant(Entry(h, Means(x, nd, nens), nd, i, 0)), 0, nens)
  {
    var rowSum, sums := Sum(EntryRow(h, x, nd, i), 0, nens), Sum(ObservedSums(h, x, nens, i), 0, nd);
    var mean := Entry(h, Means(x, nd, nens), nd, i, 0);
    calc {
      rowSum;
      { ObservedRowTotal(h, x, nd, nens, i); }
      sums;
      { ObservedSumsScale(h, x, nd, nens, i); }
      nens as real * mean;
      { ConstantSum(mean, nens); }
      Sum(Constant(mean), 0, nens);
    }
  }

  lemma MeanTimes(a: real, s: real, n: real)
    requires n != 0.0
    ensures a * s == n * (a * (s / n))
  {
    assert n * (s / n) == s;
  }

  lemma EtaRowIsDifference(h: Matrix, x: Matrix, mean: Matrix, y: Matrix, m: nat, nd: nat, nens: nat, size: nat, i: nat)
    requires size > 0 && i < m
    requires Shape(x, nd, nens) && Shape(mean, nd, 1) && Shape(y, nd, 1)
    ensures Sum(EntryRow(h, x, nd, i), 0, nens)
         == RowSum(Innovation(h, x, mean, y, m, nd, nens, size).1, nens, i)
            + Sum(Constant(Entry(h, mean, nd, i, 0)), 0, nens)
  {
    var eta := Innovation(h, x, mean, y, m, nd, nens, size).1;
    var c := Entry(h, mean, nd, i, 0);
    forall j | 0 <= j < nens ensures EntryRow(h, x, nd, i)(j) == RowEntries(eta, i)(j) + Constant(c)(j) {
      EtaEntry(h, x, mean, y, m, nd, nens, size, i, j);
    }
    SumAdd(EntryRow(h, x, nd, i), RowEntries(eta, i), Constant(c), 0, nens);
  }

  /** Row i of Eta vanishes in the sum exactly when H sees the stored mean as the member mean. */
  lemma EtaRowZeroIff(h: Matrix, x: Matrix, mean: Matrix, y: Matrix, m: nat, nd: nat, nens: nat, size: nat, i: nat)
    requires size > 0 && nens > 0 && i < m
    requires Shape(x, nd, nens) && Shape(mean, nd, 1) && Shape(y, nd, 1)
    ensures RowSum(Innovation(h, x, mean, y, m, nd, nens, size).1, nens, i) == 0.0
       <==> Entry(h, mean, nd, i, 0) == Entry(h, Means(x, nd, nens), nd, i, 0)
  {
    EtaRowIsDifference(h, x, mean, y, m, nd, nens, size, i);
    ObservedRowSum(h, x, nd, nens, i);
    ConstantsDiffer(Entry(h, mean, nd, i, 0), Entry(h, Means(x, nd, nens), nd, i, 0), nens);
  }

  lemma EtaEntry(h: Matrix, x: Matrix, mean: Matrix, y: Matrix, m: nat, nd: nat, nens: nat, size: nat, i: nat, j: nat)
    requires size > 0 && i < m && j < nens
    requires Shape(x, nd, nens) && Shape(mean, nd, 1) && Shape(y, nd, 1)
    ensures At(Innovation(h, x, mean, y, m, nd, nens, size).1, i, j) == Entry(h, x, nd, i, j) - Entry(h, mean, nd, i, 0)
  {
    DistributedProductIsProduct(h, mean, m, nd, 1, size);
    DistributedProductIsProduct(h, x, m, nd, nens, size);
  }

  /** Rows of Eta sum to zero exactly when H cannot tell the stored mean from the member mean. */
  lemma EtaRowsSumToZero(h: Matrix, x: Matrix, mean: Matrix, y: Matrix, m: nat, nd: nat, nens: nat, size: nat)
    requires size > 0 && nens > 0
    requires Shape(x, nd, nens) && Shape(mean, nd, 1) && Shape(y, nd, 1)
    ensures RowsSumToZero(Innovation(h, x, mean, y, m, nd, nens, size).1, m, nens)
       <==> Mul(h, mean, m, nd, 1) == Mul(h, Means(x, nd, nens), m, nd, 1)
  {
    var eta := Innovation(h, x, mean, y, m, nd, nens, size).1;
    var a, b := Mul(h, mean, m, nd, 1), Mul(h, Means(x, nd, nens), m, nd, 1);
    forall i | 0 <= i < m ensures RowSum(eta, nens, i) == 0.0 <==> At(a, i, 0) == At(b, i, 0) {
      EtaRowZeroIff(h, x, mean, y, m, nd, nens, size, i);
    }
    if RowsSumToZero(eta, m, nens) { MatrixExt(a, b, m, 1); }
  }

  /** With the member mean stored, the distributed anomalies are those of the root-only form. */
  lemma AnomalyFormsAgree(h: Matrix, x: Matrix, y: Matrix, m: nat, nd: nat, nens: nat, size: nat)
    requires size > 0 && nens > 0 && Shape(x, nd, nens) && Shape(y, nd, 1)
    ensures Innovation(h, x, Means(x, nd, nens), y, m, nd, nens, size).1 == RootAnomalies(h, x, m, nd, nens)
  {
    var mean := Means(x, nd, nens);
    DistributedProductIsProduct(h, mean, m, nd, 1, size);
    DistributedProductIsProduct(h, x, m, nd, nens, size);
    var a, b := Innovation(h, x, mean, y, m, nd, nens, size).1, RootAnomalies(h, x, m, nd, nens);
    var p := Build(nd, nens, (c, j) => At(x, c, j) - RowMean(x, nens, c));
    forall i, j | 0 <= i < m && 0 <= j < nens ensures At(a, i, j) == At(b, i, j) {
      SumAdd(ProdTerm(h, x, i, j), ProdTerm(h, p, i, j), ProdTerm(h, mean, i, 0), 0, nd);
    }
    MatrixExt(a, b, m, nens);
  }

  // ---- X5 ----

  function Delta(i: int, j: int): real { if i == j then 1.0 else 0.0 }

  /** X1, row i: inverted value i times column i of U. */
  function ScaledLeftFactors(u: Matrix, inv: seq<real>, m: nat): Matrix
  {
    Build(|inv|, m, (i, j) => if 0 <= i < |inv| then inv[i] * At(u, j, i) else 0.0)
  }

  /** X4 = HA'^T U (X1 D'). */
  function Correction(dprime: Matrix, eta: Matrix, u: Matrix, inv: seq<real>, m: nat, nens: nat): Matrix
  {
    var x2 := Mul(ScaledLeftFactors(u, inv, m), dprime, |inv|, m, nens);
    var x3 := Mul(u, x2, m, |inv|, nens);
    Mul(Transpose(eta, m, nens), x3, nens, m, nens)
  }

  function AddIdentity(a: Matrix, n: nat): Matrix { Build(n, n, (i, j) => At(a, i, j) + Delta(i, j)) }

  function X5(dprime: Matrix, eta: Matrix, u: Matrix, inv: seq<real>, m: nat, nens: nat): (x: Matrix)
    ensures Shape(x, nens, nens)
  {
    AddIdentity(Correction(dprime, eta, u, inv, m, nens), nens)
  }

  function Squares(s: seq<real>): seq<real> { seq(|s|, i requires 0 <= i < |s| => s[i] * s[i]) }

  lemma SquareOrder(a: real, b: real)
    requires a >= b >= 0.0
    ensures a * a >= b * b >= 0.0
  {
  }

  lemma SquaresAreSpectrum(s: seq<real>)
    requires IsSpectrum(s)
    ensures IsSpectrum(Squares(s))
  {
    forall i, j | 0 <= i <= j < |s| ensures Squares(s)[i] >= Squares(s)[j] >= 0.0 {
      SquareOrder(s[i], s[j]);
    }
  }

  /** X1, filled entry by entry. */
  method ScaleLeftFactors(sig: array<real>, u: Matrix, m: nat) returns (x1: array2<real>)
    ensures Contents(x1) == ScaledLeftFactors(u, sig[..], m)
  {
    ghost var want := ScaledLeftFactors(u, sig[..], m);
    x1 := new real[sig.Length, m]((_, _) => 0.0);
    for j := 0 to m
      invariant forall i, k :: 0 <= i < sig.Length && 0 <= k < j ==> x1[i, k] == At(want, i, k)
    {
      for i := 0 to sig.Length
        invariant forall l, k :: 0 <= l < sig.Length && 0 <= k < j ==> x1[l, k] == At(want, l, k)
        invariant forall l :: 0 <= l < i ==> x1[l, j] == At(want, l, j)
      {
        var factor := sig[i] * At(u, j, i);
        assert factor == At(want, i, j);
        x1[i, j] := factor;
      }
    }
    MatrixExt(Contents(x1), want, sig.Length, m);
  }

  /**
   * compute_X5_modified after the decomposition U, s of HA' + Eta: square, truncate, scale the left factors,
   * then three products and the identity. warned is the program's column-sum message.
   */
  method ComputeX5(dprime: Matrix, eta: Matrix, u: Matrix, s: seq<real>, m: nat, nens: nat)
      returns (x5: Matrix, warned: bool)
    requires Shape(dprime, m, nens) && Shape(eta, m, nens) && Shape(u, m, |s|)
    requires |s| == Min(nens, m) && IsSpectrum(s)
    ensures x5 == X5(dprime, eta, u, TruncatedInverse(Squares(s)), m, nens)
    ensures warned <==> exists j :: 0 <= j < nens && ColSum(x5, nens, j) == 0.0
  {
    var nrmin := |s|;
    var sig := new real[nrmin](i requires 0 <= i < nrmin => Squares(s)[i]);
    assert sig[..] == Squares(s);
    SquaresAreSpectrum(s);
    var nrsigma := Truncate(sig);
    var x1 := ScaleLeftFactors(sig, u, m);
    var x2 := Mul(Contents(x1), dprime, nrmin, m, nens);
    var x3 := Mul(u, x2, m, nrmin, nens);
    var x4 := Mul(Transpose(eta, m, nens), x3, nens, m, nens);
    x5 := AddIdentity(x4, nens);
    warned := exists j :: 0 <= j < nens && ColSum(x5, nens, j) == 0.0;
  }

  // ---- the same transform built on the root ----

  lemma SpreadProduct(a: Matrix, b: Matrix, wide: Matrix, r: nat, n: nat, c: nat)
    requires forall i, j :: 0 <= i < n && 0 <= j < c ==> At(wide, i, j) == At(b, i, 0)
    ensures forall i, j :: 0 <= i < r && 0 <= j < c ==> At(Mul(a, wide, r, n, c), i, j) == At(Mul(a, b, r, n, 1), i, 0)
  {
    forall i, j | 0 <= i < r && 0 <= j < c ensures Entry(a, wide, n, i, j) == Entry(a, b, n, i, 0) {
      SumEq(ProdTerm(a, wide, i, j), ProdTerm(a, b, i, 0), 0, n);
    }
  }

  /** EnKF_X5: one innovation column, whose correction is broadcast against the identity. */
  function RootX5(h: Matrix, x: Matrix, y: Matrix, u: Matrix, inv: seq<real>, m: nat, nd: nat, nens: nat): Matrix
    requires nens > 0
  {
    var d := Mul(h, y, m, nd, 1);
    var haBar := Mul(h, Means(x, nd, nens), m, nd, 1);
    var dprime := Build(m, 1, (i, j) => At(d, i, 0) - At(haBar, i, 0));
    var eta := RootAnomalies(h, x, m, nd, nens);
    var x2 := Mul(ScaledLeftFactors(u, inv, m), dprime, |inv|, m, 1);
    var x3 := Mul(u, x2, m, |inv|, 1);
    var x4 := Mul(Transpose(eta, m, nens), x3, nens, m, 1);
    Build(nens, nens, (i, j) => At(x4, i, 0) + Delta(i, j))
  }

  /** Built on the root or from Allreduced pieces on any number of ranks, X5 is the same matrix. */
  lemma RootX5IsDistributed(h: Matrix, x: Matrix, y: Matrix, u: Matrix, inv: seq<real>, m: nat, nd: nat, nens: nat,
                            size: nat)
    requires size > 0 && nens > 0 && Shape(x, nd, nens) && Shape(y, nd, 1)
    ensures var (dprime, eta) := Innovation(h, x, Means(x, nd, nens), y, m, nd, nens, size);
            RootX5(h, x, y, u, inv, m, nd, nens) == X5(dprime, eta, u, inv, m, nens)
  {
    var mean := Means(x, nd, nens);
    var (dprime, eta) := Innovation(h, x, mean, y, m, nd, nens, size);
    AnomalyFormsAgree(h, x, y, m, nd, nens, size);
    DistributedProductIsProduct(h, y, m, nd, 1, size);
    DistributedProductIsProduct(h, mean, m, nd, 1, size);
    var column := Build(m, 1, (i, j) => At(Mul(h, y, m, nd, 1), i, 0) - At(Mul(h, mean, m, nd, 1), i, 0));
    var x1 := ScaledLeftFactors(u, inv, m);
    SpreadProduct(x1, column, dprime, |inv|, m, nens);
    SpreadProduct(u, Mul(x1, column, |inv|, m, 1), Mul(x1, dprime, |inv|, m, nens), m, |inv|, nens);
    SpreadProduct(Transpose(eta, m, nens), Mul(u, Mul(x1, column, |inv|, m, 1), m, |inv|, 1),
                  Mul(u, Mul(x1, dprime, |inv|, m, nens), m, |inv|, nens), nens, m, nens);
    MatrixExt(RootX5(h, x, y, u, inv, m, nd, nens), X5(dprime, eta, u, inv, m, nens), nens, nens);
  }

  // ---- the shape of X5 ----

  ghost predicate EqualColumns(a: Matrix, r: nat, c: nat)
  {
    forall i, j :: 0 <= i < r && 0 <= j < c ==> At(a, i, j) == At(a, i, 0)
  }

  lemma EqualColumnsProduct(a: Matrix, b: Matrix, r: nat, n: nat, c: nat)
    requires EqualColumns(b, n, c)
    ensures EqualColumns(Mul(a, b, r, n, c), r, c)
  {
    forall i, j | 0 <= i < r && 0 <= j < c ensures Entry(a, b, n, i, j) == Entry(a, b, n, i, 0) {
      SumEq(ProdTerm(a, b, i, j), ProdTerm(a, b, i, 0), 0, n);
    }
  }

  /** Zero row sums of Eta are zero column sums of the correction. */
  lemma CorrectionColumnsCancel(dprime: Matrix, eta: Matrix, u: Matrix, inv: seq<real>, m: nat, nens: nat, j: nat)
    requires RowsSumToZero(eta, m, nens) && j < nens
    ensures ColSum(Correction(dprime, eta, u, inv, m, nens), nens, j) == 0.0
  {
    var x3 := Mul(u, Mul(ScaledLeftFactors(u, inv, m), dprime, |inv|, m, nens), m, |inv|, nens);
    var t := Transpose(eta, m, nens);
    var zero := (k: int) => 0.0;
    forall k | 0 <= k < m ensures zero(k) == ColSum(t, nens, k) * At(x3, k, j) {
      SumEq(ColEntries(t, k), RowEntries(eta, k), 0, nens);
      assert ColSum(t, nens, k) == RowSum(eta, nens, k) == 0.0;
    }
    ColSumOfProduct(t, x3, nens, m, j, zero);
    SumConst(zero, 0.0, 0, m);
    SumEq(ColEntries(Mul(t, x3, nens, m, nens), j), i => Entry(t, x3, m, i, j), 0, nens);
  }

  /** The identity plus one weight per member, the weights adding up to zero. */
  ghost predicate IsShift(x5: Matrix, w: seq<real>, nens: nat)
  {
    && Shape(x5, nens, nens) && |w| == nens && Total(w) == 0.0
    && forall i, j :: 0 <= i < nens && 0 <= j < nens ==> At(x5, i, j) == w[i] + Delta(i, j)
  }

  function Weights(x4: Matrix, nens: nat): seq<real> { seq(nens, i => At(x4, i, 0)) }

  lemma X5IsShift(dprime: Matrix, eta: Matrix, u: Matrix, inv: seq<real>, m: nat, nens: nat)
    requires RowsSumToZero(eta, m, nens) && EqualColumns(dprime, m, nens)
    ensures IsShift(X5(dprime, eta, u, inv, m, nens), Weights(Correction(dprime, eta, u, inv, m, nens), nens), nens)
  {
    var x1 := ScaledLeftFactors(u, inv, m);
    EqualColumnsProduct(x1, dprime, |inv|, m, nens);
    var x2 := Mul(x1, dprime, |inv|, m, nens);
    EqualColumnsProduct(u, x2, m, |inv|, nens);
    EqualColumnsProduct(Transpose(eta, m, nens), Mul(u, x2, m, |inv|, nens), nens, m, nens);
    var x4 := Correction(dprime, eta, u, inv, m, nens);
    if nens > 0 {
      CorrectionColumnsCancel(dprime, eta, u, inv, m, nens, 0);
      SumEq(Entries(Weights(x4, nens)), ColEntries(x4, 0), 0, nens);
    }
  }

  /** Every column of X5 sums to one, so the message of compute_X5_modified is never printed. */
  lemma X5ColumnsSumToOne(dprime: Matrix, eta: Matrix, u: Matrix, inv: seq<real>, m: nat, nens: nat)
    requires RowsSumToZero(eta, m, nens) && EqualColumns(dprime, m, nens)
    ensures forall j :: 0 <= j < nens ==> ColSum(X5(dprime, eta, u, inv, m, nens), nens, j) == 1.0
  {
    X5IsShift(dprime, eta, u, inv, m, nens);
    forall j | 0 <= j < nens ensures ColSum(X5(dprime, eta, u, inv, m, nens), nens, j) == 1.0 {
      var w := Weights(Correction(dprime, eta, u, inv, m, nens), nens);
      ShiftColumnSum(X5(dprime, eta, u, inv, m, nens), w, nens, j);
    }
  }

  lemma ShiftColumnSum(x5: Matrix, w: seq<real>, nens: nat, j: nat)
    requires IsShift(x5, w, nens) && j < nens
    ensures ColSum(x5, nens, j) == 1.0
  {
    SumAdd(ColEntries(x5, j), Entries(w), i => Delta(i, j), 0, nens);
    SumSingle(i => Delta(i, j), j, 0, nens);
  }

  // ---- what the transform does to an ensemble ----

  function Weighted(a: Matrix, w: seq<real>, c: int): int -> real { k => At(a, c, k) * Entries(w)(k) }

  /** The common displacement of row c: the weights applied to the members. */
  function Displacement(a: Matrix, w: seq<real>, c: int): real { Sum(Weighted(a, w, c), 0, |w|) }

  function OwnTerm(a: Matrix, c: int, j: int): int -> real { k => if k == j then At(a, c, j) else 0.0 }

  lemma ShiftMovesAllMembersAlike(a: Matrix, x5: Matrix, w: seq<real>, n: nat, nens: nat, c: nat, j: nat)
    requires IsShift(x5, w, nens) && c < n && j < nens
    ensures At(Mul(a, x5, n, nens, nens), c, j) == At(a, c, j) + Displacement(a, w, c)
  {
    forall k | 0 <= k < nens ensures ProdTerm(a, x5, c, j)(k) == Weighted(a, w, c)(k) + OwnTerm(a, c, j)(k) {
      assert At(x5, k, j) == w[k] + Delta(k, j);
      assert At(a, c, k) * (w[k] + Delta(k, j)) == At(a, c, k) * w[k] + At(a, c, k) * Delta(k, j);
    }
    SumAdd(ProdTerm(a, x5, c, j), Weighted(a, w, c), OwnTerm(a, c, j), 0, nens);
    SumSingle(OwnTerm(a, c, j), j, 0, nens);
  }

  lemma ShiftedMean(a: Matrix, b: Matrix, nens: nat, c: int, d: real)
    requires nens > 0 && forall j :: 0 <= j < nens ==> At(b, c, j) == At(a, c, j) + d
    ensures RowMean(b, nens, c) == RowMean(a, nens, c) + d
  {
    SumAdd(RowEntries(b, c), RowEntries(a, c), _ => d, 0, nens);
    SumConst(_ => d, d, 0, nens);
    QuotientShift(RowSum(a, nens, c), d, nens as real);
  }

  lemma QuotientShift(s: real, d: real, n: real)
    requires n != 0.0
    ensures (s + n * d) / n == s / n + d
  {
    var p, q := (s + n * d) / n, s / n;
    assert p * n == s + n * d && q * n == s;
    assert (p - q - d) * n == 0.0;
  }

  function Anomaly(a: Matrix, nens: nat, c: int, j: int): real
    requires nens > 0
  {
    At(a, c, j) - RowMean(a, nens, c)
  }

  function AnomalyProduct(a: Matrix, nens: nat, c: int, e: int): int -> real
    requires nens > 0
  {
    j => Anomaly(a, nens, c, j) * Anomaly(a, nens, e, j)
  }

  /** Ensemble covariance of rows c and e, normalised by Nens - 1. */
  function Covariance(a: Matrix, nens: nat, c: int, e: int): real
    requires nens > 1
  {
    Sum(AnomalyProduct(a, nens, c, e), 0, nens) / (nens - 1) as real
  }

  ghost predicate SameAnomalies(a: Matrix, b: Matrix, n: nat, nens: nat)
    requires nens > 0
  {
    forall c, j :: 0 <= c < n && 0 <= j < nens ==> Anomaly(b, nens, c, j) == Anomaly(a, nens, c, j)
  }

  lemma SameCovariance(a: Matrix, b: Matrix, n: nat, nens: nat, c: nat, e: nat)
    requires nens > 1 && SameAnomalies(a, b, n, nens) && c < n && e < n
    ensures Covariance(b, nens, c, e) == Covariance(a, nens, c, e)
  {
    forall j | 0 <= j < nens ensures AnomalyProduct(b, nens, c, e)(j) == AnomalyProduct(a, nens, c, e)(j) {
      assert Anomaly(b, nens, c, j) == Anomaly(a, nens, c, j) && Anomaly(b, nens, e, j) == Anomaly(a, nens, e, j);
    }
    SumEq(AnomalyProduct(b, nens, c, e), AnomalyProduct(a, nens, c, e), 0, nens);
  }

  /** The raw analysis has the anomalies of the forecast, member by member. */
  lemma ShiftKeepsAnomalies(a: Matrix, x5: Matrix, w: seq<real>, n: nat, nens: nat)
    requires IsShift(x5, w, nens) && nens > 0
    ensures SameAnomalies(a, Mul(a, x5, n, nens, nens), n, nens)
  {
    var b := Mul(a, x5, n, nens, nens);
    forall c, j | 0 <= c < n && 0 <= j < nens ensures Anomaly(b, nens, c, j) == Anomaly(a, nens, c, j) {
      forall k | 0 <= k < nens ensures At(b, c, k) == At(a, c, k) + Displacement(a, w, c) {
        ShiftMovesAllMembersAlike(a, x5, w, n, nens, c, k);
      }
      ShiftedMean(a, b, nens, c, Displacement(a, w, c));
    }
  }

  // ---- the whole analysis ----

  /** The raw distributed analysis: innovation, transform, row blocks times X5, stacked by rank. */
  function Analysis(h: Matrix, x: Matrix, y: Matrix, u: Matrix, s: seq<real>, m: nat, nd: nat, nens: nat,
                    size: nat): Matrix
    requires size > 0 && nens > 0 && |x| == nd && |y| == nd
  {
    var (dprime, eta) := Innovation(h, x, Means(x, nd, nens), y, m, nd, nens, size);
    var x5 := X5(dprime, eta, u, TruncatedInverse(Squares(s)), m, nens);
    Concat(seq(size, r requires 0 <= r < size => RowBlockProduct(x, x5, nd, nens, size, r)))
  }

  /** D' when H reads the rows obs: the observation minus the ensemble mean there, for every member. */
  function ObservedInnovation(obs: seq<int>, x: Matrix, y: Matrix, nens: nat): (d: Matrix)
    requires nens > 0
    ensures Shape(d, |obs|, nens)
    ensures forall q, j :: 0 <= q < |obs| && 0 <= j < nens ==>
      At(d, q, j) == At(y, obs[q], 0) - RowMean(x, nens, obs[q])
  {
    Build(|obs|, nens, (q, j) => if 0 <= q < |obs| then At(y, obs[q], 0) - RowMean(x, nens, obs[q]) else 0.0)
  }

  /** Eta when H reads the rows obs: the anomalies of those rows. */
  function ObservedAnomalies(obs: seq<int>, x: Matrix, nens: nat): (e: Matrix)
    requires nens > 0
    ensures Shape(e, |obs|, nens)
    ensures forall q, p :: 0 <= q < |obs| && 0 <= p < nens ==>
      At(e, q, p) == At(x, obs[q], p) - RowMean(x, nens, obs[q])
  {
    Build(|obs|, nens, (q, p) => if 0 <= q < |obs| then At(x, obs[q], p) - RowMean(x, nens, obs[q]) else 0.0)
  }

  /** The same analysis on one process, with H read as an index list. */
  function SequentialAnalysis(obs: seq<int>, x: Matrix, y: Matrix, u: Matrix, s: seq<real>, nd: nat, nens: nat): Matrix
    requires nens > 0 && |x| == nd && |y| == nd && forall i :: 0 <= i < |obs| ==> 0 <= obs[i] < nd
  {
    var dprime, eta := ObservedInnovation(obs, x, y, nens), ObservedAnomalies(obs, x, nens);
    Mul(x, X5(dprime, eta, u, TruncatedInverse(Squares(s)), |obs|, nens), nd, nens, nens)
  }

  /** Distributing over any number of ranks, idle ones included, changes nothing. */
  lemma DistributedAnalysisIsSequential(obs: seq<int>, x: Matrix, y: Matrix, u: Matrix, s: seq<real>, nd: nat,
                                        nens: nat, size: nat)
    requires size > 0 && nens > 0 && Shape(x, nd, nens) && Shape(y, nd, 1)
    requires forall i :: 0 <= i < |obs| ==> 0 <= obs[i] < nd
    ensures Analysis(ObservationOperator.OneHot(obs, nd), x, y, u, s, |obs|, nd, nens, size)
         == SequentialAnalysis(obs, x, y, u, s, nd, nens)
  {
    var m, h, mean := |obs|, ObservationOperator.OneHot(obs, nd), Means(x, nd, nens);
    var (dprime, eta) := Innovation(h, x, mean, y, m, nd, nens, size);
    DistributedProductIsProduct(h, y, m, nd, 1, size);
    DistributedProductIsProduct(h, mean, m, nd, 1, size);
    DistributedProductIsProduct(h, x, m, nd, nens, size);
    ObservationOperator.ObservationReads(obs, y, nd, 1);
    ObservationOperator.ObservationReads(obs, mean, nd, 1);
    ObservationOperator.ObservationReads(obs, x, nd, nens);
    MatrixExt(dprime, ObservedInnovation(obs, x, y, nens), m, nens);
    MatrixExt(eta, ObservedAnomalies(obs, x, nens), m, nens);
    RowBlocksAreProduct(x, X5(dprime, eta, u, TruncatedInverse(Squares(s)), m, nens), nd, nens, size);
  }

  /**
   * Main result: for every operator, ensemble, observation and decomposition output, and every rank count,
   * the raw analysis moves all members by one common vector and leaves anomalies and covariance as they were.
   */
  lemma AnalysisShiftsEnsemble(h: Matrix, x: Matrix, y: Matrix, u: Matrix, s: seq<real>, m: nat, nd: nat, nens: nat,
                               size: nat)
    returns (shift: seq<real>)
    requires size > 0 && nens > 0 && Shape(x, nd, nens) && Shape(y, nd, 1)
    ensures |shift| == nd
    ensures var b := Analysis(h, x, y, u, s, m, nd, nens, size);
            && Shape(b, nd, nens)
            && (forall c, j :: 0 <= c < nd && 0 <= j < nens ==> At(b, c, j) == At(x, c, j) + shift[c])
            && SameAnomalies(x, b, nd, nens)
            && (nens > 1 ==>
                 forall c, e :: 0 <= c < nd && 0 <= e < nd ==> Covariance(b, nens, c, e) == Covariance(x, nens, c, e))
  {
    var mean := Means(x, nd, nens);
    var (dprime, eta) := Innovation(h, x, mean, y, m, nd, nens, size);
    EtaRowsSumToZero(h, x, mean, y, m, nd, nens, size);
    var inv := TruncatedInverse(Squares(s));
    var x5 := X5(dprime, eta, u, inv, m, nens);
    var w := Weights(Correction(dprime, eta, u, inv, m, nens), nens);
    X5IsShift(dprime, eta, u, inv, m, nens);
    RowBlocksAreProduct(x, x5, nd, nens, size);
    ShiftKeepsAnomalies(x, x5, w, nd, nens);
    forall c, e | 0 <= c < nd && 0 <= e < nd && nens > 1
      ensures Covariance(Mul(x, x5, nd, nens, nens), nens, c, e) == Covariance(x, nens, c, e)
    {
      SameCovariance(x, Mul(x, x5, nd, nens, nens), nd, nens, c, e);
    }
    shift := seq(nd, c => Displacement(x, w, c));
    forall c, j | 0 <= c < nd && 0 <= j < nens
      ensures At(Mul(x, x5, nd, nens, nens), c, j) == At(x, c, j) + shift[c]
    {
      ShiftMovesAllMembersAlike(x, x5, w, nd, nens, c, j);
    }
  }
}
