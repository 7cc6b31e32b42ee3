/** What the transform solves, and the Kalman update it therefore is. */
module Solution {
  import opened Sums
  import opened Matrices
  import opened Spectrum
  import opened Transform
  import ObservationOperator

  // ---- the system behind X5 ----

  function ColProduct(a: Matrix, i: int, b: Matrix, j: int): int -> real { q => At(a, q, i) * At(b, q, j) }

  /** Inner product of column i of a and column j of b, both with m rows. */
  function ColDot(a: Matrix, i: int, b: Matrix, j: int, m: int): real { Sum(ColProduct(a, i, b, j), 0, m) }

  /** How many squared singular values are kept. */
  function Kept(s: seq<real>): nat { Rank(Squares(s)) }

  /**
   * z is what the kept singular values make of D' in the basis of U: s[i]^2 z[i, j] is column i of U times column j of
   * D' for a kept value, and z[i, j] is zero for the others.
   */
  ghost predicate SolvesInBasis(z: Matrix, dprime: Matrix, u: Matrix, s: seq<real>, m: nat, nens: nat)
  {
    && Shape(z, |s|, nens)
    && (forall i, j :: 0 <= i < Kept(s) && 0 <= j < nens ==> s[i] * s[i] * At(z, i, j) == ColDot(u, i, dprime, j, m))
    && (forall i, j :: Kept(s) <= i < |s| && 0 <= j < nens ==> At(z, i, j) == 0.0)
  }

  /** X5 is the identity plus Eta transposed times U z, where z solves the system in the basis of U. */
  lemma X5Solves(dprime: Matrix, eta: Matrix, u: Matrix, s: seq<real>, m: nat, nens: nat)
    returns (x3: Matrix, z: Matrix)
    requires IsSpectrum(s)
    ensures SolvesInBasis(z, dprime, u, s, m, nens) && x3 == Mul(u, z, m, |s|, nens)
    ensures forall p, j :: 0 <= p < nens && 0 <= j < nens ==>
      At(X5(dprime, eta, u, TruncatedInverse(Squares(s)), m, nens), p, j)
        == (if p == j then 1.0 else 0.0) + ColDot(eta, p, x3, j, m)
  {
    var inv := TruncatedInverse(Squares(s));
    z := Mul(ScaledLeftFactors(u, inv, m), dprime, |s|, m, nens);
    x3 := Mul(u, z, m, |s|, nens);
    forall i, j | 0 <= i < |s| && 0 <= j < nens
      ensures i < Kept(s) ==> s[i] * s[i] * At(z, i, j) == ColDot(u, i, dprime, j, m)
      ensures Kept(s) <= i ==> At(z, i, j) == 0.0
    {
      BasisEntry(dprime, u, s, m, nens, i, j);
    }
    TransposedEntries(eta, x3, m, nens);
  }

  lemma TransposedEntries(eta: Matrix, x3: Matrix, m: nat, nens: nat)
    ensures forall p, j :: 0 <= p < nens && 0 <= j < nens ==>
      At(Mul(Transpose(eta, m, nens), x3, nens, m, nens), p, j) == ColDot(eta, p, x3, j, m)
  {
    forall p, j | 0 <= p < nens && 0 <= j < nens
      ensures At(Mul(Transpose(eta, m, nens), x3, nens, m, nens), p, j) == ColDot(eta, p, x3, j, m)
    {
      SumEq(ProdTerm(Transpose(eta, m, nens), x3, p, j), ColProduct(eta, p, x3, j), 0, m);
    }
  }

  /** Row i of X1 times column j of D' is the inverted value times column i of U times that column. */
  lemma ScaledRow(dprime: Matrix, u: Matrix, inv: seq<real>, m: nat, i: nat, j: nat)
    requires i < |inv|
    ensures Entry(ScaledLeftFactors(u, inv, m), dprime, m, i, j) == inv[i] * ColDot(u, i, dprime, j, m)
  {
    var x1 := ScaledLeftFactors(u, inv, m);
    forall q | 0 <= q < m ensures ProdTerm(x1, dprime, i, j)(q) == inv[i] * ColProduct(u, i, dprime, j)(q) {
      assert At(x1, i, q) == inv[i] * At(u, q, i);
      Associate(inv[i], At(u, q, i), At(dprime, q, j));
    }
    SumScale(ProdTerm(x1, dprime, i, j), inv[i], ColProduct(u, i, dprime, j), 0, m);
  }

  lemma BasisEntry(dprime: Matrix, u: Matrix, s: seq<real>, m: nat, nens: nat, i: nat, j: nat)
    requires IsSpectrum(s) && i < |s| && j < nens
    ensures var z := At(Mul(ScaledLeftFactors(u, TruncatedInverse(Squares(s)), m), dprime, |s|, m, nens), i, j);
            if i < Kept(s) then s[i] * s[i] * z == ColDot(u, i, dprime, j, m) else z == 0.0
  {
    var inv := TruncatedInverse(Squares(s));
    ScaledRow(dprime, u, inv, m, i, j);
    InverseOfKept(s, i);
    if i < Kept(s) { Cancel(s[i] * s[i], inv[i], ColDot(u, i, dprime, j, m)); }
  }

  lemma InverseOfKept(s: seq<real>, i: nat)
    requires IsSpectrum(s) && i < |s|
    ensures var v := TruncatedInverse(Squares(s))[i]; if i < Kept(s) then (s[i] * s[i]) * v == 1.0 else v == 0.0
  {
    SquaresAreSpectrum(s);
    if Total(Squares(s)) > 0.0 { TruncationKeepsShortestPrefix(Squares(s)); }
  }

  lemma Associate(a: real, b: real, c: real)
    ensures a * b * c == a * (b * c)
  {
  }

  lemma Cancel(a: real, v: real, d: real)
    requires a * v == 1.0
    ensures a * (v * d) == d
  {
    assert a * (v * d) == (a * v) * d;
  }

  // ---- with an orthonormal basis ----

  /** The columns of U are orthonormal, as a decomposition promises. */
  ghost predicate Orthonormal(u: Matrix, m: nat, r: nat)
  {
    forall i, k :: 0 <= i < r && 0 <= k < r ==> ColDot(u, i, u, k, m) == if i == k then 1.0 else 0.0
  }

  function BasisTerms(u: Matrix, i: int, z: Matrix, j: int): (int, int) -> real
  {
    (q, k) => At(u, q, i) * (At(u, q, k) * At(z, k, j))
  }

  lemma BasisTermsByRow(u: Matrix, i: int, z: Matrix, j: int, m: nat, r: nat, c: nat, q: nat)
    requires q < m && 0 <= j < c
    ensures RowSums(BasisTerms(u, i, z, j), r)(q) == ColProduct(u, i, Mul(u, z, m, r, c), j)(q)
  {
    SumScale(RowOf(BasisTerms(u, i, z, j), q), At(u, q, i), ProdTerm(u, z, q, j), 0, r);
  }

  lemma BasisTermsByColumn(u: Matrix, i: int, z: Matrix, j: int, m: nat, k: int)
    ensures ColSums(BasisTerms(u, i, z, j), m)(k) == At(z, k, j) * ColDot(u, i, u, k, m)
  {
    forall q | 0 <= q < m ensures ColOf(BasisTerms(u, i, z, j), k)(q) == At(z, k, j) * ColProduct(u, i, u, k)(q) {
      Rotate(At(u, q, i), At(u, q, k), At(z, k, j));
    }
    SumScale(ColOf(BasisTerms(u, i, z, j), k), At(z, k, j), ColProduct(u, i, u, k), 0, m);
  }

  lemma Rotate(a: real, b: real, c: real)
    ensures a * (b * c) == c * (a * b)
  {
  }

  /** In an orthonormal basis the coordinates of U z are z. */
  lemma Coordinates(u: Matrix, z: Matrix, m: nat, r: nat, c: nat, i: nat, j: nat)
    requires Orthonormal(u, m, r) && i < r && j < c
    ensures ColDot(u, i, Mul(u, z, m, r, c), j, m) == At(z, i, j)
  {
    var f, x3 := BasisTerms(u, i, z, j), Mul(u, z, m, r, c);
    forall q | 0 <= q < m ensures RowSums(f, r)(q) == ColProduct(u, i, x3, j)(q) {
      BasisTermsByRow(u, i, z, j, m, r, c, q);
    }
    SumEq(RowSums(f, r), ColProduct(u, i, x3, j), 0, m);
    SumSwap(f, m, r);
    forall k | 0 <= k < r ensures ColSums(f, m)(k) == if k == i then At(z, i, j) else 0.0 {
      BasisTermsByColumn(u, i, z, j, m, k);
      assert ColDot(u, i, u, k, m) == if i == k then 1.0 else 0.0;
    }
    SumSingle(ColSums(f, m), i, 0, r);
  }

  /**
   * x3 solves the normal equations in every kept direction, s[i]^2 (U' x3)[i, j] == (U' D')[i, j], and has no part in
   * the others: it is the truncated pseudo-inverse of U diag(s^2) U' applied to D'.
   */
  lemma X5SolvesNormalEquations(dprime: Matrix, eta: Matrix, u: Matrix, s: seq<real>, m: nat, nens: nat)
    returns (x3: Matrix)
    requires IsSpectrum(s) && Orthonormal(u, m, |s|)
    ensures forall p, j :: 0 <= p < nens && 0 <= j < nens ==>
      At(X5(dprime, eta, u, TruncatedInverse(Squares(s)), m, nens), p, j)
        == (if p == j then 1.0 else 0.0) + ColDot(eta, p, x3, j, m)
    ensures forall i, j :: 0 <= i < Kept(s) && 0 <= j < nens ==>
      s[i] * s[i] * ColDot(u, i, x3, j, m) == ColDot(u, i, dprime, j, m)
    ensures forall i, j :: Kept(s) <= i < |s| && 0 <= j < nens ==> ColDot(u, i, x3, j, m) == 0.0
    ensures Kept(s) == |s| ==> forall q, j :: 0 <= q < m && 0 <= j < nens ==>
      Sum(Applied(u, s, x3, j, m, q), 0, |s|) == Sum(Projected(u, dprime, j, m, q), 0, |s|)
  {
    var z;
    x3, z := X5Solves(dprime, eta, u, s, m, nens);
    forall i, j | 0 <= i < |s| && 0 <= j < nens ensures ColDot(u, i, x3, j, m) == At(z, i, j) {
      Coordinates(u, z, m, |s|, nens, i, j);
    }
    if Kept(s) == |s| {
      forall q, j | 0 <= q < m && 0 <= j < nens
        ensures Sum(Applied(u, s, x3, j, m, q), 0, |s|) == Sum(Projected(u, dprime, j, m, q), 0, |s|)
      {
        SumEq(Applied(u, s, x3, j, m, q), Projected(u, dprime, j, m, q), 0, |s|);
      }
    }
  }

  /** Terms of entry (q, j) of U diag(s^2) U' x3. */
  function Applied(u: Matrix, s: seq<real>, x3: Matrix, j: int, m: int, q: int): int -> real
  {
    i => if 0 <= i < |s| then At(u, q, i) * (s[i] * s[i] * ColDot(u, i, x3, j, m)) else 0.0
  }

  /** Terms of entry (q, j) of U U' D'. */
  function Projected(u: Matrix, dprime: Matrix, j: int, m: int, q: int): int -> real
  {
    i => At(u, q, i) * ColDot(u, i, dprime, j, m)
  }

  // ---- the increment of the raw analysis ----

  function RowProduct(a: Matrix, c: int, b: Matrix, q: int): int -> real { p => At(a, c, p) * At(b, q, p) }

  /** Inner product of row c of a and row q of b, both with n columns. */
  function RowDot(a: Matrix, c: int, b: Matrix, q: int, n: int): real { Sum(RowProduct(a, c, b, q), 0, n) }

  function Anomalies(x: Matrix, nd: nat, nens: nat): (a: Matrix)
    requires nens > 0
    ensures Shape(a, nd, nens)
    ensures forall c, p :: 0 <= c < nd && 0 <= p < nens ==> At(a, c, p) == At(x, c, p) - RowMean(x, nens, c)
  {
    Build(nd, nens, (c, p) => At(x, c, p) - RowMean(x, nens, c))
  }

  /** Terms of the increment of entry (c, j): the cross product with observed row q times x3[q, j]. */
  function GainTerm(a: Matrix, c: int, eta: Matrix, nens: int, x3: Matrix, j: int): int -> real
  {
    q => RowDot(a, c, eta, q, nens) * At(x3, q, j)
  }

  function GainTerms(a: Matrix, c: int, eta: Matrix, x3: Matrix, j: int): (int, int) -> real
  {
    (p, q) => At(a, c, p) * (At(eta, q, p) * At(x3, q, j))
  }

  lemma GainByRow(a: Matrix, c: int, eta: Matrix, x3: Matrix, j: int, m: nat, p: int)
    ensures RowSums(GainTerms(a, c, eta, x3, j), m)(p) == At(a, c, p) * ColDot(eta, p, x3, j, m)
  {
    SumScale(RowOf(GainTerms(a, c, eta, x3, j), p), At(a, c, p), ColProduct(eta, p, x3, j), 0, m);
  }

  lemma GainByColumn(a: Matrix, c: int, eta: Matrix, nens: nat, x3: Matrix, j: int, q: int)
    ensures ColSums(GainTerms(a, c, eta, x3, j), nens)(q) == GainTerm(a, c, eta, nens, x3, j)(q)
  {
    forall p | 0 <= p < nens
      ensures ColOf(GainTerms(a, c, eta, x3, j), q)(p) == At(x3, q, j) * RowProduct(a, c, eta, q)(p)
    {
      Rotate(At(a, c, p), At(eta, q, p), At(x3, q, j));
    }
    SumScale(ColOf(GainTerms(a, c, eta, x3, j), q), At(x3, q, j), RowProduct(a, c, eta, q), 0, nens);
  }

  /** Multiplying row c of a by Eta transposed times x3, in either order. */
  lemma GainAssociates(a: Matrix, c: int, eta: Matrix, x3: Matrix, j: int, m: nat, nens: nat)
    ensures Sum(AddedTerm(a, c, eta, x3, j, m), 0, nens) == Sum(GainTerm(a, c, eta, nens, x3, j), 0, m)
  {
    var f, g := GainTerms(a, c, eta, x3, j), AddedTerm(a, c, eta, x3, j, m);
    forall p | 0 <= p < nens ensures RowSums(f, m)(p) == g(p) { GainByRow(a, c, eta, x3, j, m, p); }
    SumEq(RowSums(f, m), g, 0, nens);
    SumSwap(f, nens, m);
    forall q | 0 <= q < m ensures ColSums(f, nens)(q) == GainTerm(a, c, eta, nens, x3, j)(q) {
      GainByColumn(a, c, eta, nens, x3, j, q);
    }
    SumEq(ColSums(f, nens), GainTerm(a, c, eta, nens, x3, j), 0, m);
  }

  /** Zero row sums of Eta: the states' mean does not take part in the products with it. */
  lemma MeanDropsOut(x: Matrix, nd: nat, nens: nat, c: nat, eta: Matrix, q: int)
    requires nens > 0 && c < nd && RowSum(eta, nens, q) == 0.0
    ensures RowDot(x, c, eta, q, nens) == RowDot(Anomalies(x, nd, nens), c, eta, q, nens)
  {
    var a, mean := Anomalies(x, nd, nens), RowMean(x, nens, c);
    var shifted := (p: int) => mean * At(eta, q, p);
    forall p | 0 <= p < nens ensures RowProduct(x, c, eta, q)(p) == RowProduct(a, c, eta, q)(p) + shifted(p) {
      Expand(At(x, c, p), mean, At(eta, q, p));
      assert At(a, c, p) == At(x, c, p) - mean;
    }
    SumScale(shifted, mean, RowEntries(eta, q), 0, nens);
    SumAdd(RowProduct(x, c, eta, q), RowProduct(a, c, eta, q), shifted, 0, nens);
  }

  lemma Expand(v: real, mean: real, e: real)
    ensures v * e == (v - mean) * e + mean * e
  {
  }

  function AddedTerm(x: Matrix, c: int, eta: Matrix, x3: Matrix, j: int, m: int): int -> real
  {
    p => At(x, c, p) * ColDot(eta, p, x3, j, m)
  }

  lemma OwnPlusAdded(x: Matrix, x5: Matrix, eta: Matrix, x3: Matrix, m: nat, nens: nat, c: int, j: nat)
    requires j < nens
    requires forall p :: 0 <= p < nens ==> At(x5, p, j) == (if p == j then 1.0 else 0.0) + ColDot(eta, p, x3, j, m)
    ensures Entry(x, x5, nens, c, j) == At(x, c, j) + Sum(AddedTerm(x, c, eta, x3, j, m), 0, nens)
  {
    var added := AddedTerm(x, c, eta, x3, j, m);
    forall p | 0 <= p < nens ensures ProdTerm(x, x5, c, j)(p) == OwnTerm(x, c, j)(p) + added(p) {
      IdentityPlus(At(x, c, p), At(x5, p, j), ColDot(eta, p, x3, j, m), p == j);
    }
    SumAdd(ProdTerm(x, x5, c, j), OwnTerm(x, c, j), added, 0, nens);
    SumSingle(OwnTerm(x, c, j), j, 0, nens);
  }

  /**
   * Multiplying by the identity plus Eta transposed times x3 adds the cross products of the anomalies with Eta, times
   * x3.
   */
  lemma Increment(x: Matrix, x5: Matrix, eta: Matrix, x3: Matrix, nd: nat, m: nat, nens: nat, c: nat, j: nat)
    requires nens > 0 && c < nd && j < nens && RowsSumToZero(eta, m, nens) && Shape(x5, nens, nens)
    requires forall p :: 0 <= p < nens ==> At(x5, p, j) == (if p == j then 1.0 else 0.0) + ColDot(eta, p, x3, j, m)
    ensures At(Mul(x, x5, nd, nens, nens), c, j)
         == At(x, c, j) + Sum(GainTerm(Anomalies(x, nd, nens), c, eta, nens, x3, j), 0, m)
  {
    var a := Anomalies(x, nd, nens);
    OwnPlusAdded(x, x5, eta, x3, m, nens, c, j);
    GainAssociates(x, c, eta, x3, j, m, nens);
    forall q | 0 <= q < m ensures GainTerm(x, c, eta, nens, x3, j)(q) == GainTerm(a, c, eta, nens, x3, j)(q) {
      MeanDropsOut(x, nd, nens, c, eta, q);
    }
    SumEq(GainTerm(x, c, eta, nens, x3, j), GainTerm(a, c, eta, nens, x3, j), 0, m);
  }

  lemma IdentityPlus(v: real, e: real, d: real, diagonal: bool)
    requires e == (if diagonal then 1.0 else 0.0) + d
    ensures v * e == (if diagonal then v else 0.0) + v * d
  {
    assert v * ((if diagonal then 1.0 else 0.0) + d) == v * (if diagonal then 1.0 else 0.0) + v * d;
  }

  // ---- the analysis as a Kalman update ----

  /** Sum over members of the products of two rows' anomalies: Nens - 1 times their covariance. */
  function AnomalyDot(x: Matrix, nens: nat, c: int, e: int): real
    requires nens > 0
  {
    Sum(AnomalyProduct(x, nens, c, e), 0, nens)
  }

  /** Terms of the update of entry (c, j): the anomaly products of rows c and obs[q] times x3[q, j]. */
  function UpdateTerm(obs: seq<int>, x: Matrix, nens: nat, c: int, x3: Matrix, j: int): int -> real
    requires nens > 0
  {
    q => if 0 <= q < |obs| then AnomalyDot(x, nens, c, obs[q]) * At(x3, q, j) else 0.0
  }

  lemma GainTermAt(obs: seq<int>, x: Matrix, nd: nat, nens: nat, c: nat, q: nat, p: nat)
    requires c < nd && q < |obs| && p < nens
    ensures RowProduct(Anomalies(x, nd, nens), c, ObservedAnomalies(obs, x, nens), q)(p)
         == AnomalyProduct(x, nens, c, obs[q])(p)
  {
    SameProducts(At(Anomalies(x, nd, nens), c, p), At(ObservedAnomalies(obs, x, nens), q, p),
                 Anomaly(x, nens, c, p), Anomaly(x, nens, obs[q], p));
  }

  lemma GainIsCovariance(obs: seq<int>, x: Matrix, nd: nat, nens: nat, c: nat, q: nat)
    requires nens > 0 && c < nd && q < |obs|
    ensures RowDot(Anomalies(x, nd, nens), c, ObservedAnomalies(obs, x, nens), q, nens)
         == AnomalyDot(x, nens, c, obs[q])
  {
    var a, eta := Anomalies(x, nd, nens), ObservedAnomalies(obs, x, nens);
    forall p | 0 <= p < nens ensures RowProduct(a, c, eta, q)(p) == AnomalyProduct(x, nens, c, obs[q])(p) {
      GainTermAt(obs, x, nd, nens, c, q, p);
    }
    SumEq(RowProduct(a, c, eta, q), AnomalyProduct(x, nens, c, obs[q]), 0, nens);
  }

  lemma SameProducts(a: real, b: real, v: real, w: real)
    requires a == v && b == w
    ensures a * b == v * w
  {
  }

  lemma ObservedAnomaliesCancel(obs: seq<int>, x: Matrix, nens: nat)
    requires nens > 0
    ensures RowsSumToZero(ObservedAnomalies(obs, x, nens), |obs|, nens)
  {
    var eta := ObservedAnomalies(obs, x, nens);
    forall q | 0 <= q < |obs| ensures RowSum(eta, nens, q) == 0.0 {
      var mean := RowMean(x, nens, obs[q]);
      SumAdd(RowEntries(x, obs[q]), RowEntries(eta, q), Constant(mean), 0, nens);
      ConstantSum(mean, nens);
      MeanTimes(1.0, RowSum(x, nens, obs[q]), nens as real);
    }
  }

  lemma UpdateEntry(obs: seq<int>, x: Matrix, x5: Matrix, x3: Matrix, nd: nat, nens: nat, c: nat, j: nat)
    requires nens > 0 && c < nd && j < nens && Shape(x5, nens, nens)
    requires forall p :: 0 <= p < nens ==>
      At(x5, p, j) == (if p == j then 1.0 else 0.0) + ColDot(ObservedAnomalies(obs, x, nens), p, x3, j, |obs|)
    ensures At(Mul(x, x5, nd, nens, nens), c, j) == At(x, c, j) + Sum(UpdateTerm(obs, x, nens, c, x3, j), 0, |obs|)
  {
    ObservedAnomaliesCancel(obs, x, nens);
    Increment(x, x5, ObservedAnomalies(obs, x, nens), x3, nd, |obs|, nens, c, j);
    GainsAgree(obs, x, x3, nd, nens, c, j);
  }

  lemma GainIsUpdate(obs: seq<int>, x: Matrix, x3: Matrix, nd: nat, nens: nat, c: nat, q: nat, j: int)
    requires nens > 0 && c < nd && q < |obs|
    ensures GainTerm(Anomalies(x, nd, nens), c, ObservedAnomalies(obs, x, nens), nens, x3, j)(q)
         == UpdateTerm(obs, x, nens, c, x3, j)(q)
  {
    GainIsCovariance(obs, x, nd, nens, c, q);
    SameFactor(RowDot(Anomalies(x, nd, nens), c, ObservedAnomalies(obs, x, nens), q, nens),
               AnomalyDot(x, nens, c, obs[q]), At(x3, q, j));
  }

  lemma SameFactor(a: real, b: real, v: real)
    requires a == b
    ensures a * v == b * v
  {
  }

  lemma GainsAgree(obs: seq<int>, x: Matrix, x3: Matrix, nd: nat, nens: nat, c: nat, j: int)
    requires nens > 0 && c < nd
    ensures Sum(GainTerm(Anomalies(x, nd, nens), c, ObservedAnomalies(obs, x, nens), nens, x3, j), 0, |obs|)
         == Sum(UpdateTerm(obs, x, nens, c, x3, j), 0, |obs|)
  {
    var gain := GainTerm(Anomalies(x, nd, nens), c, ObservedAnomalies(obs, x, nens), nens, x3, j);
    forall q | 0 <= q < |obs| ensures gain(q) == UpdateTerm(obs, x, nens, c, x3, j)(q) {
      GainIsUpdate(obs, x, x3, nd, nens, c, q, j);
    }
    SumEq(gain, UpdateTerm(obs, x, nens, c, x3, j), 0, |obs|);
  }

  /**
   * Main result: the raw analysis adds to entry (c, j) the sum over observed rows q of the anomaly products of rows c
   * and obs[q] times x3[q, j], where x3 solves the truncated system in U for the innovation d, the observation minus
   * the ensemble mean.
   */
  lemma SequentialIsKalmanUpdate(obs: seq<int>, x: Matrix, y: Matrix, u: Matrix, s: seq<real>, nd: nat, nens: nat)
    returns (d: Matrix, x3: Matrix, z: Matrix)
    requires nens > 0 && Shape(x, nd, nens) && Shape(y, nd, 1) && IsSpectrum(s)
    requires forall i :: 0 <= i < |obs| ==> 0 <= obs[i] < nd
    ensures forall q, j :: 0 <= q < |obs| && 0 <= j < nens ==>
      At(d, q, j) == At(y, obs[q], 0) - RowMean(x, nens, obs[q])
    ensures SolvesInBasis(z, d, u, s, |obs|, nens)
    ensures x3 == Mul(u, z, |obs|, |s|, nens)
    ensures forall c, j :: 0 <= c < nd && 0 <= j < nens ==>
      At(SequentialAnalysis(obs, x, y, u, s, nd, nens), c, j)
        == At(x, c, j) + Sum(UpdateTerm(obs, x, nens, c, x3, j), 0, |obs|)
  {
    d := ObservedInnovation(obs, x, y, nens);
    var eta := ObservedAnomalies(obs, x, nens);
    x3, z := X5Solves(d, eta, u, s, |obs|, nens);
    var x5 := X5(d, eta, u, TruncatedInverse(Squares(s)), |obs|, nens);
    forall c, j | 0 <= c < nd && 0 <= j < nens
      ensures At(Mul(x, x5, nd, nens, nens), c, j) == At(x, c, j) + Sum(UpdateTerm(obs, x, nens, c, x3, j), 0, |obs|)
    {
      UpdateEntry(obs, x, x5, x3, nd, nens, c, j);
    }
  }

  /** The same of the distributed analysis, on any number of ranks. */
  lemma AnalysisIsKalmanUpdate(obs: seq<int>, x: Matrix, y: Matrix, u: Matrix, s: seq<real>, nd: nat, nens: nat,
                               size: nat)
    returns (d: Matrix, x3: Matrix, z: Matrix)
    requires size > 0 && nens > 0 && Shape(x, nd, nens) && Shape(y, nd, 1) && IsSpectrum(s)
    requires forall i :: 0 <= i < |obs| ==> 0 <= obs[i] < nd
    ensures forall q, j :: 0 <= q < |obs| && 0 <= j < nens ==>
      At(d, q, j) == At(y, obs[q], 0) - RowMean(x, nens, obs[q])
    ensures SolvesInBasis(z, d, u, s, |obs|, nens)
    ensures x3 == Mul(u, z, |obs|, |s|, nens)
    ensures forall c, j :: 0 <= c < nd && 0 <= j < nens ==>
      At(Analysis(ObservationOperator.OneHot(obs, nd), x, y, u, s, |obs|, nd, nens, size), c, j)
        == At(x, c, j) + Sum(UpdateTerm(obs, x, nens, c, x3, j), 0, |obs|)
  {
    DistributedAnalysisIsSequential(obs, x, y, u, s, nd, nens, size);
    d, x3, z := SequentialIsKalmanUpdate(obs, x, y, u, s, nd, nens);
  }
}
