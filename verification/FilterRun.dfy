/** The run with the modelled analysis in it: transform, inflation and clamp over the ranks' rows. */
module FilterRun {
  import opened Matrices
  import opened Partition
  import opened Collectives
  import opened Transform
  import opened AnalysisUpdate
  import opened RankRows
  import opened Spectrum
  import opened BatchStore
  import opened FullRun
  import TimeLoop
  import ObservationOperator

  /**
   * What the analysis is given: H with m rows, the observations by column and row, the decomposition of HA' + Eta as a
   * function of column and ensemble, and the variables with the parameters' inflation factor.
   */
  datatype Setup = Setup(h: Matrix, m: nat, observed: (nat, int) -> real,
                         decomposed: (nat, Matrix) -> (Matrix, seq<real>),
                         vecInputs: seq<string>, stateVars: nat, factor: real)

  /** Entry (c, j) of some rows after the update of their raw analysis. */
  function UpdatedEntry(setup: Setup, raw: Matrix, rows: nat, nens: nat, c: int, j: int): real
    requires nens > 0 && |setup.vecInputs| > 0
  {
    Updated(raw, rows, nens, |setup.vecInputs|, setup.stateVars, setup.factor, setup.vecInputs, c, j)
  }

  /** The rows of rank r after the update. */
  function RankUpdate(setup: Setup, raw: Matrix, n: nat, nens: nat, size: nat, r: nat): (u: Matrix)
    requires r < size && nens > 0 && |setup.vecInputs| > 0 && |raw| == n
    ensures Count(n, size, r) >= 0 && Shape(u, Count(n, size, r), nens)
  {
    BlockPlaces(n, size, r);
    var lo, rows := Start(n, size, r), Count(n, size, r);
    Build(rows, nens, (i, j) => UpdatedEntry(setup, raw[lo..lo + rows], rows, nens, i, j))
  }

  function RankUpdates(setup: Setup, raw: Matrix, n: nat, nens: nat, size: nat): seq<Matrix>
    requires nens > 0 && |setup.vecInputs| > 0 && |raw| == n
  {
    seq(size, r requires 0 <= r < size => RankUpdate(setup, raw, n, nens, size, r))
  }

  /** The rows of all ranks, by one process. */
  function WholeUpdate(setup: Setup, raw: Matrix, n: nat, nens: nat): (u: Matrix)
    requires nens > 0 && |setup.vecInputs| > 0
    ensures Shape(u, n, nens)
  {
    Build(n, nens, (c, j) => UpdatedEntry(setup, raw, n, nens, c, j))
  }

  /** When inflation and clamp find the same rows on the ranks as in the whole vector. */
  predicate RowsAlike(setup: Setup, n: nat, size: nat)
    requires size > 0 && |setup.vecInputs| > 0
  {
    && setup.stateVars <= |setup.vecInputs|
    && InflationAlike(n, size, |setup.vecInputs|, setup.stateVars) && ClampAlike(n, size, setup.vecInputs)
  }

  lemma RankUpdateIsSlice(setup: Setup, raw: Matrix, n: nat, nens: nat, size: nat, r: nat)
    requires r < size && nens > 0 && |setup.vecInputs| > 0 && Shape(raw, n, nens) && RowsAlike(setup, n, size)
    ensures 0 <= Start(n, size, r) <= Start(n, size, r + 1) <= n
    ensures RankUpdate(setup, raw, n, nens, size, r)
         == WholeUpdate(setup, raw, n, nens)[Start(n, size, r)..Start(n, size, r + 1)]
  {
    BlockPlaces(n, size, r);
    StartSteps(n, size, r);
    var lo, rows := Start(n, size, r), Count(n, size, r);
    var whole := WholeUpdate(setup, raw, n, nens);
    var a, b := RankUpdate(setup, raw, n, nens, size, r), whole[lo..lo + rows];
    forall i, j | 0 <= i < rows && 0 <= j < nens ensures At(a, i, j) == At(b, i, j) {
      RankEntry(setup, raw, n, nens, size, r, i, j);
      assert At(b, i, j) == At(whole, lo + i, j);
    }
    MatrixExt(a, b, rows, nens);
  }

  lemma RankEntry(setup: Setup, raw: Matrix, n: nat, nens: nat, size: nat, r: nat, i: nat, j: nat)
    requires r < size && nens > 0 && |setup.vecInputs| > 0 && Shape(raw, n, nens) && RowsAlike(setup, n, size)
    requires i < Count(n, size, r)
    ensures var lo, rows := Start(n, size, r), Count(n, size, r);
            && 0 <= lo <= lo + rows <= n
            && UpdatedEntry(setup, raw[lo..lo + rows], rows, nens, i, j) == UpdatedEntry(setup, raw, n, nens, lo + i, j)
  {
    BlockPlaces(n, size, r);
    var c := Start(n, size, r) + i;
    assert In(Blocks(n, size)[r], c);
    UpdateOnRanksIsUpdate(raw, n, nens, size, r, setup.stateVars, setup.factor, setup.vecInputs, c, j);
  }

  lemma RankUpdatesAreUpdate(setup: Setup, raw: Matrix, n: nat, nens: nat, size: nat)
    requires size > 0 && nens > 0 && |setup.vecInputs| > 0 && Shape(raw, n, nens) && RowsAlike(setup, n, size)
    ensures Concat(RankUpdates(setup, raw, n, nens, size)) == WholeUpdate(setup, raw, n, nens)
  {
    StartEnds(n, size);
    StartAscends(n, size, 0, size);
    var blocks, whole := RankUpdates(setup, raw, n, nens, size), WholeUpdate(setup, raw, n, nens);
    forall r: nat | r < size ensures IsSlice(blocks[r], whole, n, size, r) {
      RankUpdateIsSlice(setup, raw, n, nens, size, r);
    }
    ConcatSlices(whole, n, size, size, blocks);
  }

  /** The members as columns, observed in column km, analysed on size ranks, and back to one file. */
  function FilterAnalysis(cfg: Config, setup: Setup, size: nat, km: nat, x: File): (y: File)
    requires size > 0 && cfg.nens > 0 && |setup.vecInputs| > 0
  {
    var states := Transpose(x, cfg.nens, cfg.nd);
    var obs := Build(cfg.nd, 1, (c, j) => setup.observed(km, c));
    var (u, s) := setup.decomposed(km, states);
    var raw := Analysis(setup.h, states, obs, u, s, setup.m, cfg.nd, cfg.nens, size);
    AnalysisShape(setup.h, states, obs, u, s, setup.m, cfg.nd, cfg.nens, size);
    Transpose(Concat(RankUpdates(setup, raw, cfg.nd, cfg.nens, size)), cfg.nd, cfg.nens)
  }

  lemma AnalysisShape(h: Matrix, x: Matrix, y: Matrix, u: Matrix, s: seq<real>, m: nat, nd: nat, nens: nat, size: nat)
    requires size > 0 && nens > 0 && Shape(x, nd, nens) && Shape(y, nd, 1)
    ensures Shape(Analysis(h, x, y, u, s, m, nd, nens, size), nd, nens)
  {
    var shift := AnalysisShiftsEnsemble(h, x, y, u, s, m, nd, nens, size);
  }

  /** The model of the run: any forecast, and this analysis. */
  function FilterModel(cfg: Config, setup: Setup, size: nat, forecast: (nat, nat, seq<real>) -> seq<real>): Model
    requires size > 0 && cfg.nens > 0 && |setup.vecInputs| > 0
  {
    Model(forecast, (k: nat, km: nat, x: File) => FilterAnalysis(cfg, setup, size, km, x))
  }

  ghost predicate KeepsLength(cfg: Config, forecast: (nat, nat, seq<real>) -> seq<real>)
  {
    forall k: nat, e: nat, x: seq<real> :: |x| == cfg.nd ==> |forecast(k, e, x)| == cfg.nd
  }

  lemma FilterIsModel(cfg: Config, setup: Setup, size: nat, forecast: (nat, nat, seq<real>) -> seq<real>)
    requires size > 0 && cfg.nens > 0 && |setup.vecInputs| > 0 && KeepsLength(cfg, forecast)
    ensures IsModel(cfg, FilterModel(cfg, setup, size, forecast))
  {
    var m := FilterModel(cfg, setup, size, forecast);
    forall k: nat, km: nat, x: File | IsFile(cfg, x) ensures IsFile(cfg, m.analysis(k, km, x)) {
      assert m.analysis(k, km, x) == FilterAnalysis(cfg, setup, size, km, x);
    }
  }

  // ---- what the analysis in the run is ----

  /** y is the column of observations used for column km. */
  ghost predicate IsColumn(cfg: Config, setup: Setup, km: nat, y: Matrix)
  {
    Shape(y, cfg.nd, 1) && forall c :: 0 <= c < cfg.nd ==> At(y, c, 0) == setup.observed(km, c)
  }

  /**
   * The file after the analysis: entry c of member j is entry (c, j) of the sequential analysis of the members, with
   * the observations of column km at the given rows, inflated and clamped by one process.
   */
  ghost predicate IsSequentialUpdate(cfg: Config, setup: Setup, rows: seq<int>, km: nat, x: File, after: File)
    requires cfg.nens > 0 && |setup.vecInputs| > 0 && forall i :: 0 <= i < |rows| ==> 0 <= rows[i] < cfg.nd
  {
    forall y :: IsColumn(cfg, setup, km, y) ==>
      var states := Transpose(x, cfg.nens, cfg.nd);
      var (u, s) := setup.decomposed(km, states);
      var raw := SequentialAnalysis(rows, states, y, u, s, cfg.nd, cfg.nens);
      IsFile(cfg, after) && forall c, j :: 0 <= c < cfg.nd && 0 <= j < cfg.nens ==>
        after[j][c] ==
          Updated(raw, cfg.nd, cfg.nens, |setup.vecInputs|, setup.stateVars, setup.factor, setup.vecInputs, c, j)
  }

  /** On ranks that find the rows of one process, with H the one-hot operator of some rows, the analysis is that. */
  lemma FilterAnalysisIs(cfg: Config, setup: Setup, rows: seq<int>, size: nat, km: nat, x: File)
    requires size > 0 && cfg.nens > 0 && |setup.vecInputs| > 0 && RowsAlike(setup, cfg.nd, size)
    requires forall i :: 0 <= i < |rows| ==> 0 <= rows[i] < cfg.nd
    requires setup.h == ObservationOperator.OneHot(rows, cfg.nd) && setup.m == |rows|
    ensures IsSequentialUpdate(cfg, setup, rows, km, x, FilterAnalysis(cfg, setup, size, km, x))
  {
    var states := Transpose(x, cfg.nens, cfg.nd);
    var (u, s) := setup.decomposed(km, states);
    var y := Build(cfg.nd, 1, (c, j) => setup.observed(km, c));
    var raw := Analysis(setup.h, states, y, u, s, setup.m, cfg.nd, cfg.nens, size);
    AnalysisShape(setup.h, states, y, u, s, setup.m, cfg.nd, cfg.nens, size);
    DistributedAnalysisIsSequential(rows, states, y, u, s, cfg.nd, cfg.nens, size);
    RankUpdatesAreUpdate(setup, raw, cfg.nd, cfg.nens, size);
    var updated := WholeUpdate(setup, raw, cfg.nd, cfg.nens);
    var after := Transpose(updated, cfg.nd, cfg.nens);
    assert after == FilterAnalysis(cfg, setup, size, km, x);
    forall c, j | 0 <= c < cfg.nd && 0 <= j < cfg.nens
      ensures after[j][c] == UpdatedEntry(setup, raw, cfg.nd, cfg.nens, c, j)
    {
      assert At(after, j, c) == At(updated, c, j);
    }
    forall z | IsColumn(cfg, setup, km, z) ensures z == y { MatrixExt(z, y, cfg.nd, 1); }
  }

  /** Where rows agree, the analysis does not depend on the number of ranks. */
  lemma AnalysisRankFree(cfg: Config, setup: Setup, size: nat, km: nat, x: File)
    requires size > 0 && cfg.nens > 0 && |setup.vecInputs| > 0 && RowsAlike(setup, cfg.nd, size)
    ensures FilterAnalysis(cfg, setup, size, km, x) == FilterAnalysis(cfg, setup, 1, km, x)
  {
    var states := Transpose(x, cfg.nens, cfg.nd);
    var obs := Build(cfg.nd, 1, (c, j) => setup.observed(km, c));
    var (u, s) := setup.decomposed(km, states);
    RawRankFree(setup.h, states, obs, u, s, setup.m, cfg.nd, cfg.nens, size);
    var raw := Analysis(setup.h, states, obs, u, s, setup.m, cfg.nd, cfg.nens, size);
    AnalysisShape(setup.h, states, obs, u, s, setup.m, cfg.nd, cfg.nens, size);
    RankUpdatesAreUpdate(setup, raw, cfg.nd, cfg.nens, size);
    RankUpdatesAreUpdate(setup, raw, cfg.nd, cfg.nens, 1);
  }

  lemma RawRankFree(h: Matrix, x: Matrix, y: Matrix, u: Matrix, s: seq<real>, m: nat, nd: nat, nens: nat, size: nat)
    requires size > 0 && nens > 0 && Shape(x, nd, nens) && Shape(y, nd, 1)
    ensures Analysis(h, x, y, u, s, m, nd, nens, size) == Analysis(h, x, y, u, s, m, nd, nens, 1)
  {
    InnovationRankFree(h, x, y, m, nd, nens, size);
    var (dprime, eta) := Innovation(h, x, Means(x, nd, nens), y, m, nd, nens, size);
    var x5 := X5(dprime, eta, u, TruncatedInverse(Squares(s)), m, nens);
    RowBlocksAreProduct(x, x5, nd, nens, size);
    RowBlocksAreProduct(x, x5, nd, nens, 1);
  }

  lemma InnovationRankFree(h: Matrix, x: Matrix, y: Matrix, m: nat, nd: nat, nens: nat, size: nat)
    requires size > 0 && nens > 0 && Shape(x, nd, nens) && Shape(y, nd, 1)
    ensures Innovation(h, x, Means(x, nd, nens), y, m, nd, nens, size)
         == Innovation(h, x, Means(x, nd, nens), y, m, nd, nens, 1)
  {
    var mean := Means(x, nd, nens);
    DistributedProductIsProduct(h, y, m, nd, 1, size);
    DistributedProductIsProduct(h, y, m, nd, 1, 1);
    DistributedProductIsProduct(h, mean, m, nd, 1, size);
    DistributedProductIsProduct(h, mean, m, nd, 1, 1);
    DistributedProductIsProduct(h, x, m, nd, nens, size);
    DistributedProductIsProduct(h, x, m, nd, nens, 1);
    var a, b := Innovation(h, x, mean, y, m, nd, nens, size), Innovation(h, x, mean, y, m, nd, nens, 1);
    MatrixExt(a.0, b.0, m, nens);
    MatrixExt(a.1, b.1, m, nens);
  }

  /** m forecasts as given and analyses as one process does with H read as the rows' indices. */
  ghost predicate IsSequentialFilter(cfg: Config, setup: Setup, rows: seq<int>,
                                     forecast: (nat, nat, seq<real>) -> seq<real>, m: Model)
    requires cfg.nens > 0 && |setup.vecInputs| > 0 && forall i :: 0 <= i < |rows| ==> 0 <= rows[i] < cfg.nd
  {
    && IsModel(cfg, m) && m.forecast == forecast
    && forall k: nat, km: nat, x: File :: IsFile(cfg, x) ==>
         IsSequentialUpdate(cfg, setup, rows, km, x, m.analysis(k, km, x))
  }

  lemma UpdateUnique(cfg: Config, setup: Setup, rows: seq<int>, km: nat, x: File, a: File, b: File)
    requires cfg.nens > 0 && |setup.vecInputs| > 0 && forall i :: 0 <= i < |rows| ==> 0 <= rows[i] < cfg.nd
    requires IsSequentialUpdate(cfg, setup, rows, km, x, a) && IsSequentialUpdate(cfg, setup, rows, km, x, b)
    ensures a == b
  {
    var y := Build(cfg.nd, 1, (c, j) => setup.observed(km, c));
    assert IsColumn(cfg, setup, km, y);
    forall j | 0 <= j < cfg.nens ensures a[j] == b[j] {
      assert forall c :: 0 <= c < cfg.nd ==> a[j][c] == b[j][c];
    }
  }

  /** Models that forecast alike and analyse files alike have the same recursion. */
  lemma {:induction false} EnsemblesAgree(cfg: Config, a: Model, b: Model, obs: seq<int>, x0: File, n: nat)
    requires IsModel(cfg, a) && IsModel(cfg, b) && IsFile(cfg, x0) && a.forecast == b.forecast
    requires forall k: nat, km: nat, x: File :: IsFile(cfg, x) ==> a.analysis(k, km, x) == b.analysis(k, km, x)
    ensures Ensemble(cfg, a, obs, x0, n) == Ensemble(cfg, b, obs, x0, n)
    decreases n
  {
    if n > 0 {
      EnsemblesAgree(cfg, a, b, obs, x0, n - 1);
      var x := Ensemble(cfg, b, obs, x0, n - 1);
      var y := Forecasted(cfg, b, n - 1, x);
      assert Forecasted(cfg, a, n - 1, x) == y && IsFile(cfg, y);
      EnsembleStep(cfg, a, obs, x0, n - 1, y);
      EnsembleStep(cfg, b, obs, x0, n - 1, y);
    }
  }

  /**
   * Main result: where no step erases a batch and the ranks find the rows of one process, a run of the program on size
   * ranks leaves in the files the recursion of any model that analyses as one process does.
   */
  lemma RunIsSequentialFilter(cfg: Config, setup: Setup, rows: seq<int>, size: nat,
                              forecast: (nat, nat, seq<real>) -> seq<real>, m: Model,
                              obs: seq<int>, x0: File, ss: seq<State>)
    requires cfg.batchSize > 0 && 0 < size <= cfg.nens && |setup.vecInputs| > 0 && RowsAlike(setup, cfg.nd, size)
    requires forall i :: 0 <= i < |rows| ==> 0 <= rows[i] < cfg.nd
    requires setup.h == ObservationOperator.OneHot(rows, cfg.nd) && setup.m == |rows|
    requires KeepsLength(cfg, forecast) && IsFile(cfg, x0) && NothingErased(cfg, size)
    requires IsSequentialFilter(cfg, setup, rows, forecast, m)
    requires IsRun(cfg, size, FilterModel(cfg, setup, size, forecast), obs, x0, ss, cfg.nt)
    ensures Holds(cfg, m, obs, x0, ss[cfg.nt], cfg.nt)
  {
    var program := FilterModel(cfg, setup, size, forecast);
    FilterIsModel(cfg, setup, size, forecast);
    RunHolds(cfg, size, program, obs, x0, ss, cfg.nt);
    forall k: nat, km: nat, x: File | IsFile(cfg, x) ensures program.analysis(k, km, x) == m.analysis(k, km, x) {
      FilterAnalysisIs(cfg, setup, rows, size, km, x);
      assert program.analysis(k, km, x) == FilterAnalysis(cfg, setup, size, km, x);
      UpdateUnique(cfg, setup, rows, km, x, program.analysis(k, km, x), m.analysis(k, km, x));
    }
    forall n: nat ensures Ensemble(cfg, program, obs, x0, n) == Ensemble(cfg, m, obs, x0, n) {
      EnsemblesAgree(cfg, program, m, obs, x0, n);
    }
  }

  /** There is such a model: the program on one rank. */
  lemma OneRankIsSequential(cfg: Config, setup: Setup, rows: seq<int>, forecast: (nat, nat, seq<real>) -> seq<real>)
    requires cfg.nens > 0 && |setup.vecInputs| > 0 && RowsAlike(setup, cfg.nd, 1) && KeepsLength(cfg, forecast)
    requires forall i :: 0 <= i < |rows| ==> 0 <= rows[i] < cfg.nd
    requires setup.h == ObservationOperator.OneHot(rows, cfg.nd) && setup.m == |rows|
    ensures IsSequentialFilter(cfg, setup, rows, forecast, FilterModel(cfg, setup, 1, forecast))
  {
    var m := FilterModel(cfg, setup, 1, forecast);
    FilterIsModel(cfg, setup, 1, forecast);
    forall k: nat, km: nat, x: File | IsFile(cfg, x)
      ensures IsSequentialUpdate(cfg, setup, rows, km, x, m.analysis(k, km, x))
    {
      FilterAnalysisIs(cfg, setup, rows, 1, km, x);
      assert m.analysis(k, km, x) == FilterAnalysis(cfg, setup, 1, km, x);
    }
  }

  // ---- any operator, any number of ranks ----

  /** The recursion of the filter is the same for every number of ranks whose rows agree. */
  lemma {:induction false} EnsembleRankFree(cfg: Config, setup: Setup, size: nat,
                                            forecast: (nat, nat, seq<real>) -> seq<real>,
                                            obs: seq<int>, x0: File, n: nat)
    requires size > 0 && cfg.nens > 0 && |setup.vecInputs| > 0 && RowsAlike(setup, cfg.nd, size)
    requires KeepsLength(cfg, forecast) && IsFile(cfg, x0)
    ensures IsModel(cfg, FilterModel(cfg, setup, size, forecast)) && IsModel(cfg, FilterModel(cfg, setup, 1, forecast))
    ensures Ensemble(cfg, FilterModel(cfg, setup, size, forecast), obs, x0, n)
         == Ensemble(cfg, FilterModel(cfg, setup, 1, forecast), obs, x0, n)
    decreases n
  {
    FilterIsModel(cfg, setup, size, forecast);
    FilterIsModel(cfg, setup, 1, forecast);
    if n > 0 {
      var a, b := FilterModel(cfg, setup, size, forecast), FilterModel(cfg, setup, 1, forecast);
      EnsembleRankFree(cfg, setup, size, forecast, obs, x0, n - 1);
      var x := Ensemble(cfg, b, obs, x0, n - 1);
      var y := Forecasted(cfg, b, n - 1, x);
      assert Forecasted(cfg, a, n - 1, x) == y;
      if n - 1 in obs && n - 1 > 0 {
        AnalysisRankFree(cfg, setup, size, TimeLoop.Passed(obs, n - 1), y);
      }
      EnsembleStep(cfg, a, obs, x0, n - 1, y);
      EnsembleStep(cfg, b, obs, x0, n - 1, y);
    }
  }

  /** With any operator, such a run leaves in the files what the program on one rank computes. */
  lemma RunIsRankFree(cfg: Config, setup: Setup, size: nat, forecast: (nat, nat, seq<real>) -> seq<real>,
                              obs: seq<int>, x0: File, ss: seq<State>)
    requires cfg.batchSize > 0 && 0 < size <= cfg.nens && |setup.vecInputs| > 0 && RowsAlike(setup, cfg.nd, size)
    requires KeepsLength(cfg, forecast) && IsFile(cfg, x0) && NothingErased(cfg, size)
    requires IsRun(cfg, size, FilterModel(cfg, setup, size, forecast), obs, x0, ss, cfg.nt)
    ensures IsModel(cfg, FilterModel(cfg, setup, 1, forecast))
    ensures Holds(cfg, FilterModel(cfg, setup, 1, forecast), obs, x0, ss[cfg.nt], cfg.nt)
  {
    FilterIsModel(cfg, setup, size, forecast);
    FilterIsModel(cfg, setup, 1, forecast);
    RunHolds(cfg, size, FilterModel(cfg, setup, size, forecast), obs, x0, ss, cfg.nt);
    forall n: nat
      ensures Ensemble(cfg, FilterModel(cfg, setup, size, forecast), obs, x0, n)
           == Ensemble(cfg, FilterModel(cfg, setup, 1, forecast), obs, x0, n)
    {
      EnsembleRankFree(cfg, setup, size, forecast, obs, x0, n);
    }
  }
}
