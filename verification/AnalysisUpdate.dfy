/** The analysis update of one rank: raw update, parameter inflation, thickness clamp, stored mean. */
module AnalysisUpdate {
  import opened Outcomes
  import opened Sums
  import opened Matrices

  // ---- the forecast mean that the analysis will read ----

  /** compute_forecast_mean_chunked_v2 on a rank's rows: a running sum over the members, divided at the end. */
  method ForecastMean(members: seq<seq<real>>, rows: nat, nens: nat) returns (mean: array<real>)
    requires Shape(members, nens, rows) && nens > 0
    ensures fresh(mean) && mean.Length == rows
    ensures forall i :: 0 <= i < rows ==> mean[i] == RowMean(Transpose(members, nens, rows), nens, i)
  {
    var x := Transpose(members, nens, rows);
    mean := new real[rows](_ => 0.0);
    for e := 0 to nens
      invariant forall i :: 0 <= i < rows ==> mean[i] == RowSum(x, e, i)
    {
      forall i | 0 <= i < rows {
        mean[i] := mean[i] + members[e][i];
      }
    }
    forall i | 0 <= i < rows {
      mean[i] := mean[i] / nens as real;
    }
  }

  // ---- inflation about the row mean ----

  /** Row mean plus the scaled anomaly. */
  function Inflated(a: Matrix, nens: nat, factor: real, c: int, j: int): real
    requires nens > 0
  {
    RowMean(a, nens, c) + (At(a, c, j) - RowMean(a, nens, c)) * factor
  }

  lemma AffineSum(f: int -> real, g: int -> real, n: nat, factor: real, rest: real)
    requires forall j :: 0 <= j < n ==> g(j) == factor * f(j) + rest
    ensures Sum(g, 0, n) == factor * Sum(f, 0, n) + n as real * rest
  {
    var scaled := (j: int) => factor * f(j);
    var constant := (j: int) => rest;
    SumScale(scaled, factor, f, 0, n);
    SumAdd(g, scaled, constant, 0, n);
    SumConst(constant, rest, 0, n);
  }

  lemma AffineMean(f: int -> real, g: int -> real, n: nat, mean: real, factor: real)
    requires n > 0 && mean == Sum(f, 0, n) / n as real
    requires forall j :: 0 <= j < n ==> g(j) == mean + (f(j) - mean) * factor
    ensures Sum(g, 0, n) / n as real == mean
  {
    var rest := mean - mean * factor;
    forall j | 0 <= j < n ensures g(j) == factor * f(j) + rest { AffineTerm(f(j), mean, factor); }
    AffineSum(f, g, n, factor, rest);
    MeanOfAffine(Sum(f, 0, n), n as real, mean, factor);
  }

  lemma AffineTerm(v: real, mean: real, factor: real)
    ensures mean + (v - mean) * factor == factor * v + (mean - mean * factor)
  {
  }

  lemma MeanOfAffine(s: real, n: real, mean: real, factor: real)
    requires n > 0.0 && mean == s / n
    ensures (factor * s + n * (mean - mean * factor)) / n == mean
  {
    assert s == mean * n;
    assert factor * s == factor * mean * n;
    assert n * (mean - mean * factor) == n * mean - factor * mean * n;
    assert (n * mean) / n == mean;
  }

  /** Inflation keeps every row mean and multiplies every anomaly by exactly the factor. */
  lemma InflationScalesAnomalies(a: Matrix, b: Matrix, nens: nat, factor: real, c: int)
    requires nens > 0
    requires forall j :: 0 <= j < nens ==> At(b, c, j) == Inflated(a, nens, factor, c, j)
    ensures RowMean(b, nens, c) == RowMean(a, nens, c)
    ensures forall j :: 0 <= j < nens ==>
      At(b, c, j) - RowMean(b, nens, c) == (At(a, c, j) - RowMean(a, nens, c)) * factor
  {
    AffineMean(RowEntries(a, c), RowEntries(b, c), nens, RowMean(a, nens, c), factor);
  }

  /** One column of the inflation loop, from source e into target out; a is the ensemble before inflation. */
  method InflateColumn(e: array2<real>, out: array2<real>, mean: Matrix, factor: real, j: nat, ghost a: Matrix)
    requires out.Length0 == e.Length0 && out.Length1 == e.Length1 && j < e.Length1
    requires forall c :: 0 <= c < e.Length0 ==> e[c, j] == At(a, c, j) && At(mean, c, 0) == RowMean(a, e.Length1, c)
    modifies out
    ensures forall c, k :: 0 <= c < e.Length0 && 0 <= k < e.Length1 ==>
      out[c, k] == if k == j then Inflated(a, e.Length1, factor, c, j) else old(out[c, k])
  {
    forall c | 0 <= c < e.Length0 {
      out[c, j] := (e[c, j] - At(mean, c, 0)) * factor + At(mean, c, 0);
    }
  }

  /** inflate_ensemble with a scalar factor, overwriting the ensemble column by column. */
  method InflateInPlace(e: array2<real>, factor: real) returns (r: Result<array2<real>>)
    requires e.Length1 > 0
    modifies e
    ensures r.Err? <==> factor < 0.0
    ensures r.Ok? ==> r.value == e
    ensures r.Ok? ==> forall c, j :: 0 <= c < e.Length0 && 0 <= j < e.Length1 ==>
      e[c, j] == Inflated(old(Contents(e)), e.Length1, factor, c, j)
    ensures r.Err? ==> Contents(e) == old(Contents(e))
  {
    ghost var a := Contents(e);
    if factor == 1.0 { return Ok(e); }
    if factor < 0.0 { return Err("Inflation factor must be positive scalar"); }
    var mean := Means(Contents(e), e.Length0, e.Length1);
    for j := 0 to e.Length1
      invariant forall c, k :: 0 <= c < e.Length0 && 0 <= k < e.Length1 ==>
        e[c, k] == if k < j then Inflated(a, e.Length1, factor, c, k) else At(a, c, k)
    {
      InflateColumn(e, e, mean, factor, j, a);
    }
    return Ok(e);
  }

  /** The same into a fresh array; the input keeps its value. */
  method InflateCopy(e: array2<real>, factor: real) returns (r: Result<array2<real>>)
    requires e.Length1 > 0
    ensures r.Err? <==> factor < 0.0
    ensures r.Ok? ==> (r.value == e <==> factor == 1.0) && (factor != 1.0 ==> fresh(r.value))
    ensures r.Ok? ==> r.value.Length0 == e.Length0 && r.value.Length1 == e.Length1
    ensures r.Ok? ==> forall c, j :: 0 <= c < e.Length0 && 0 <= j < e.Length1 ==>
      r.value[c, j] == Inflated(Contents(e), e.Length1, factor, c, j)
  {
    if factor == 1.0 { return Ok(e); }
    if factor < 0.0 { return Err("Inflation factor must be positive scalar"); }
    ghost var a := Contents(e);
    var mean := Means(Contents(e), e.Length0, e.Length1);
    var out := new real[e.Length0, e.Length1]((_, _) => 0.0);
    for j := 0 to e.Length1
      invariant forall c, k :: 0 <= c < e.Length0 && 0 <= k < e.Length1 ==> e[c, k] == At(a, c, k)
      invariant forall c, k :: 0 <= c < e.Length0 && 0 <= k < j ==> out[c, k] == Inflated(a, e.Length1, factor, c, k)
    {
      InflateColumn(e, out, mean, factor, j, a);
    }
    MatrixExt(Contents(e), a, e.Length0, e.Length1);
    return Ok(out);
  }

  // ---- compute_analysis_update on a rank's rows ----

  const THICKNESS_VARS: set<string> :=
    {"h", "ice_thickness", "thickness", "ice_thick", "hi", "h_ice", "h_ice_thickness", "H"}

  const MIN_THICKNESS: real := 1.0

  /** Row c belongs to a thickness variable, block i of the rank's rows being variable i. */
  predicate IsThicknessRow(vecInputs: seq<string>, ndim: nat, c: int)
  {
    exists i :: 0 <= i < |vecInputs| && vecInputs[i] in THICKNESS_VARS && i * ndim <= c < i * ndim + ndim
  }

  function Clamp(v: real): real { if v < MIN_THICKNESS then MIN_THICKNESS else v }

  /** First row that the update treats as a parameter: counted in the rows the rank owns. */
  function ParameterStart(rows: nat, totalVars: nat, stateVars: nat): nat
    requires totalVars > 0
  {
    rows / totalVars * stateVars
  }

  function Updated(raw: Matrix, rows: nat, nens: nat, totalVars: nat, stateVars: nat, factor: real,
                   vecInputs: seq<string>, c: int, j: int): real
    requires nens > 0 && totalVars > 0
  {
    var inflate := c >= ParameterStart(rows, totalVars, stateVars);
    var v := if inflate then Inflated(raw, nens, factor, c, j) else At(raw, c, j);
    if IsThicknessRow(vecInputs, rows / totalVars, c) then Clamp(v) else v
  }

  /**
   * What the update leaves of entry (c, j), with ndim rows per variable: state rows as they are, anomalies of parameter
   * rows times the factor, and in a block i of thickness the larger of that and the floor.
   */
  lemma UpdatedEntryLaw(raw: Matrix, rows: nat, nens: nat, totalVars: nat, stateVars: nat, factor: real,
                        vecInputs: seq<string>, c: int, j: int)
    requires nens > 0 && totalVars > 0
    ensures var ndim := rows / totalVars;
            var thick :=
              exists i :: 0 <= i < |vecInputs| && vecInputs[i] in THICKNESS_VARS && i * ndim <= c < i * ndim + ndim;
            var v := Updated(raw, rows, nens, totalVars, stateVars, factor, vecInputs, c, j);
            var unclamped := UnclampedRow(raw, rows, nens, totalVars, stateVars, factor, c)(j);
            && (c < ndim * stateVars ==> unclamped == At(raw, c, j))
            && (c >= ndim * stateVars ==>
                 unclamped - RowMean(raw, nens, c) == factor * (At(raw, c, j) - RowMean(raw, nens, c)))
            && (thick ==> v >= 1.0 && v >= unclamped && (v == 1.0 || v == unclamped))
            && (!thick ==> v == unclamped)
  {
  }

  /** All thickness blocks before variable i are clamped, the rest is as it was. */
  ghost predicate ClampedBefore(u: array2<real>, was: Matrix, vecInputs: seq<string>, ndim: nat)
    reads u
    requires Shape(was, u.Length0, u.Length1)
  {
    forall c, j :: 0 <= c < u.Length0 && 0 <= j < u.Length1 ==>
      u[c, j] == if IsThicknessRow(vecInputs, ndim, c) then Clamp(At(was, c, j)) else At(was, c, j)
  }

  /** One turn of the clamping loop, over variable i. */
  method ClampBlock(u: array2<real>, ghost was: Matrix, vecInputs: seq<string>, ndim: nat, i: nat)
    requires i < |vecInputs| && Shape(was, u.Length0, u.Length1)
    requires ClampedBefore(u, was, vecInputs[..i], ndim)
    modifies u
    ensures ClampedBefore(u, was, vecInputs[..i + 1], ndim)
  {
    var start := i * ndim;
    forall c | 0 <= c < u.Length0
      ensures IsThicknessRow(vecInputs[..i + 1], ndim, c) <==>
        IsThicknessRow(vecInputs[..i], ndim, c) || (vecInputs[i] in THICKNESS_VARS && start <= c < start + ndim)
    {
      var v, w := vecInputs[..i], vecInputs[..i + 1];
      assert w[i] == vecInputs[i] && forall k :: 0 <= k < i ==> w[k] == v[k];
    }
    if vecInputs[i] in THICKNESS_VARS {
      forall c, j | 0 <= c < u.Length0 && 0 <= j < u.Length1 && start <= c < start + ndim {
        u[c, j] := Clamp(u[c, j]);
      }
    }
  }

  /** The mean written with the analysis: states times the row sums of X5, over Nens. */
  function StoredMean(a: Matrix, x5: Matrix, nens: nat, c: int): real
    requires nens > 0
  {
    Sum(k => At(a, c, k) * RowSum(x5, nens, k), 0, nens) / nens as real
  }

  /** The raw update with the rows from block on inflated. */
  method RawAndInflated(raw: Matrix, rows: nat, nens: nat, block: nat, factor: real) returns (updates: array2<real>)
    requires nens > 0
    ensures fresh(updates) && updates.Length0 == rows && updates.Length1 == nens
    ensures forall c, j :: 0 <= c < rows && 0 <= j < nens ==>
      updates[c, j] == if c >= block then Inflated(raw, nens, factor, c, j) else At(raw, c, j)
  {
    updates := new real[rows, nens]((c, j) => At(raw, c, j));
    forall c, j | block <= c < rows && 0 <= j < nens {
      updates[c, j] := Inflated(raw, nens, factor, c, j);
    }
  }

  /** Clamp every thickness block, variable by variable. */
  method ClampThickness(u: array2<real>, vecInputs: seq<string>, ndim: nat)
    modifies u
    ensures ClampedBefore(u, old(Contents(u)), vecInputs, ndim)
  {
    ghost var was := Contents(u);
    assert vecInputs[..0] == [];
    for i := 0 to |vecInputs|
      invariant ClampedBefore(u, was, vecInputs[..i], ndim)
    {
      ClampBlock(u, was, vecInputs, ndim, i);
    }
    assert vecInputs[..|vecInputs|] == vecInputs;
  }

  /** compute_analysis_update on the rows of one rank. */
  method Update(a: Matrix, x5: Matrix, rows: nat, nens: nat, totalVars: nat, stateVars: nat, factor: real,
                vecInputs: seq<string>)
    returns (updates: array2<real>, mean: array<real>)
    requires nens > 0 && totalVars > 0
    ensures fresh(updates) && updates.Length0 == rows && updates.Length1 == nens
    ensures forall c, j :: 0 <= c < rows && 0 <= j < nens ==>
      updates[c, j] == Updated(Mul(a, x5, rows, nens, nens), rows, nens, totalVars, stateVars, factor, vecInputs, c, j)
    ensures fresh(mean) && mean.Length == rows && forall c :: 0 <= c < rows ==> mean[c] == StoredMean(a, x5, nens, c)
  {
    var raw := Mul(a, x5, rows, nens, nens);
    var ndim := rows / totalVars;
    updates := RawAndInflated(raw, rows, nens, ParameterStart(rows, totalVars, stateVars), factor);
    ClampThickness(updates, vecInputs, ndim);
    mean := new real[rows](c => StoredMean(a, x5, nens, c));
  }

  // ---- the stored mean ----

  /** Dividing the row sums of the transform by Nens gives the mean of the raw analysis, for any transform. */
  lemma StoredMeanIsRawMean(a: Matrix, x5: Matrix, rows: nat, nens: nat, c: nat)
    requires nens > 0 && c < rows
    ensures StoredMean(a, x5, nens, c) == RowMean(Mul(a, x5, rows, nens, nens), nens, c)
  {
    var raw := Mul(a, x5, rows, nens, nens);
    RowSumOfProduct(a, x5, nens, nens, c, k => At(a, c, k) * RowSum(x5, nens, k));
    SumEq(RowEntries(raw, c), j => Entry(a, x5, nens, c, j), 0, nens);
    SumEq(k => At(a, c, k) * RowSum(x5, nens, k), k => At(a, c, k) * RowSum(x5, nens, k), 0, nens);
  }

  /** The ensemble mean the update writes for row c. */
  function WrittenMean(raw: Matrix, rows: nat, nens: nat, totalVars: nat, stateVars: nat, factor: real,
                       vecInputs: seq<string>, c: int): real
    requires nens > 0 && totalVars > 0
  {
    Sum(j => Updated(raw, rows, nens, totalVars, stateVars, factor, vecInputs, c, j), 0, nens) / nens as real
  }

  function UnclampedRow(raw: Matrix, rows: nat, nens: nat, totalVars: nat, stateVars: nat, factor: real,
                        c: int): int -> real
    requires nens > 0 && totalVars > 0
  {
    j => if c >= ParameterStart(rows, totalVars, stateVars) then Inflated(raw, nens, factor, c, j) else At(raw, c, j)
  }

  lemma UnclampedMean(raw: Matrix, rows: nat, nens: nat, totalVars: nat, stateVars: nat, factor: real, c: int)
    requires nens > 0 && totalVars > 0
    ensures Sum(UnclampedRow(raw, rows, nens, totalVars, stateVars, factor, c), 0, nens) / nens as real ==
      RowMean(raw, nens, c)
  {
    var f := UnclampedRow(raw, rows, nens, totalVars, stateVars, factor, c);
    if c >= ParameterStart(rows, totalVars, stateVars) {
      AffineMean(RowEntries(raw, c), f, nens, RowMean(raw, nens, c), factor);
    } else {
      SumEq(f, RowEntries(raw, c), 0, nens);
    }
  }

  lemma {:induction false} SumStrictlyBelow(f: int -> real, g: int -> real, n: nat)
    requires forall j :: 0 <= j < n ==> f(j) <= g(j)
    ensures Sum(f, 0, n) <= Sum(g, 0, n)
    ensures Sum(f, 0, n) == Sum(g, 0, n) <==> forall j :: 0 <= j < n ==> f(j) == g(j)
  {
    if n > 0 { SumStrictlyBelow(f, g, n - 1); }
  }

  /**
   * The mean stored with the analysis never exceeds the mean of the ensemble that was written,
   * and equals it exactly when the clamp changed no member of the row.
   */
  lemma StoredMeanVersusWritten(a: Matrix, x5: Matrix, rows: nat, nens: nat, totalVars: nat, stateVars: nat,
                                factor: real, vecInputs: seq<string>, c: nat)
    requires nens > 0 && totalVars > 0 && c < rows
    ensures var raw := Mul(a, x5, rows, nens, nens);
            var written := WrittenMean(raw, rows, nens, totalVars, stateVars, factor, vecInputs, c);
            var unclamped := UnclampedRow(raw, rows, nens, totalVars, stateVars, factor, c);
            && StoredMean(a, x5, nens, c) <= written
            && (StoredMean(a, x5, nens, c) == written <==>
                 || !IsThicknessRow(vecInputs, rows / totalVars, c)
                 || forall j :: 0 <= j < nens ==> unclamped(j) >= MIN_THICKNESS)
  {
    var raw := Mul(a, x5, rows, nens, nens);
    var f := UnclampedRow(raw, rows, nens, totalVars, stateVars, factor, c);
    var g := (j: int) => Updated(raw, rows, nens, totalVars, stateVars, factor, vecInputs, c, j);
    StoredMeanIsRawMean(a, x5, rows, nens, c);
    UnclampedMean(raw, rows, nens, totalVars, stateVars, factor, c);
    SumStrictlyBelow(f, g, nens);
    SumEq(g, j => Updated(raw, rows, nens, totalVars, stateVars, factor, vecInputs, c, j), 0, nens);
    DivideBoth(Sum(f, 0, nens), Sum(g, 0, nens), nens as real);
  }

  lemma DivideBoth(p: real, q: real, n: real)
    requires n > 0.0
    ensures p <= q <==> p / n <= q / n
    ensures p == q <==> p / n == q / n
  {
    assert p == p / n * n && q == q / n * n;
  }
}
