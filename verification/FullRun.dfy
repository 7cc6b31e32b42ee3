/**
 * A whole full-parallel run, from the first step to the last: cursor, forecasts and analyses over the batched store.
 */
module FullRun {
  import opened Arith
  import opened Outcomes
  import opened BatchStore
  import opened StoreRuns
  import opened Rounds
  import opened Schedule
  import opened TimeLoop
  import Checkpoint

  /** The forecast of one member at a step, and the analysis of all members at a step with an observation column. */
  datatype Model = Model(forecast: (nat, nat, seq<real>) -> seq<real>, analysis: (nat, nat, File) -> File)

  ghost predicate IsModel(cfg: Config, m: Model)
  {
    && (forall k: nat, e: nat, x: seq<real> :: |x| == cfg.nd ==> |m.forecast(k, e, x)| == cfg.nd)
    && (forall k: nat, km: nat, x: File :: IsFile(cfg, x) ==> IsFile(cfg, m.analysis(k, km, x)))
  }

  function ForecastAt(m: Model, k: nat): (nat, seq<real>) -> seq<real> { (e: nat, x: seq<real>) => m.forecast(k, e, x) }

  function Forecasted(cfg: Config, m: Model, k: nat, x: File): File
    requires IsFile(cfg, x)
  {
    seq(cfg.nens, e requires 0 <= e < cfg.nens => m.forecast(k, e, x[e]))
  }

  /** One filter step: forecast, and analysis if the step is observed; the cursor of the run skips step 0. */
  function Advanced(cfg: Config, m: Model, obs: seq<int>, k: nat, x: File): File
    requires IsFile(cfg, x)
  {
    var y := Forecasted(cfg, m, k, x);
    if k in obs && k > 0 then m.analysis(k, Passed(obs, k), y) else y
  }

  /** The filter as a plain recursion: no ranks, no files, no batches. */
  ghost function Ensemble(cfg: Config, m: Model, obs: seq<int>, x0: File, n: nat): (x: File)
    requires IsModel(cfg, m) && IsFile(cfg, x0)
    ensures IsFile(cfg, x)
  {
    if n == 0 then x0
    else
      var x := Ensemble(cfg, m, obs, x0, n - 1);
      assert IsFile(cfg, Forecasted(cfg, m, n - 1, x));
      Advanced(cfg, m, obs, n - 1, x)
  }

  /** The steps never leave a batch, or one round holds all members. */
  predicate NothingErased(cfg: Config, size: nat)
    requires size > 0
  {
    cfg.nt <= cfg.batchSize || RoundCount(cfg.nens, size) == 1
  }

  // ---- runs of the program ----

  /** The initial ensemble is in place and its batch open. */
  ghost predicate IsStart(cfg: Config, x0: File, s: State)
  {
    WellFormed(cfg, s) && s.start == 0 && (cfg.nt > 0 ==> 0 in s.disk && s.disk[0] == x0)
  }

  /** The analysis of step k reads and writes the file the forecast has just written. */
  function Analysed(cfg: Config, m: Model, obs: seq<int>, k: nat, s: State): State
    requires NextTime(cfg, k) in s.disk
  {
    var next := NextTime(cfg, k);
    if k in obs && k > 0 then s.(disk := s.disk[next := m.analysis(k, Passed(obs, k), s.disk[next])]) else s
  }

  /** Step k takes the store from s to s': the forecast over all rounds, then the analysis. */
  ghost predicate Steps(cfg: Config, size: nat, m: Model, obs: seq<int>, k: nat, s: State, s': State)
    requires cfg.batchSize > 0 && size > 0
  {
    exists mid: State :: StepOutcome(cfg, Ensured(cfg, s, k), mid, k, size, ForecastAt(m, k))
      && NextTime(cfg, k) in mid.disk && s' == Analysed(cfg, m, obs, k, mid)
  }

  /** The store before step 0, between steps, and after step nt - 1. */
  ghost predicate IsRun(cfg: Config, size: nat, m: Model, obs: seq<int>, x0: File, ss: seq<State>, n: nat)
    requires cfg.batchSize > 0 && size > 0
  {
    |ss| == n + 1 && IsStart(cfg, x0, ss[0]) && forall k :: 0 <= k < n ==> Steps(cfg, size, m, obs, k, ss[k], ss[k + 1])
  }

  lemma RunExtends(cfg: Config, size: nat, m: Model, obs: seq<int>, x0: File, ss: seq<State>, n: nat, s': State)
    requires cfg.batchSize > 0 && size > 0 && IsRun(cfg, size, m, obs, x0, ss, n)
    requires Steps(cfg, size, m, obs, n, ss[n], s')
    ensures IsRun(cfg, size, m, obs, x0, ss + [s'], n + 1)
  {
    var longer := ss + [s'];
    forall k | 0 <= k < n + 1 ensures Steps(cfg, size, m, obs, k, longer[k], longer[k + 1]) {
      if k < n { assert Steps(cfg, size, m, obs, k, ss[k], ss[k + 1]); }
    }
  }

  // ---- the case without loss ----

  /** After n steps: the files up to time n hold the recursion, the last file being overwritten in place. */
  ghost predicate Holds(cfg: Config, m: Model, obs: seq<int>, x0: File, s: State, n: nat)
    requires IsModel(cfg, m) && IsFile(cfg, x0)
  {
    && WellFormed(cfg, s) && (n < cfg.nt ==> s.start == BatchOf(cfg, n))
    && forall t: nat :: t < cfg.nt && t <= n ==>
         t in s.disk && s.disk[t] == Ensemble(cfg, m, obs, x0, if n == cfg.nt && t == n - 1 then n else t)
  }

  /** After the forecast of step k, before its analysis. */
  ghost predicate HoldsForecast(cfg: Config, m: Model, obs: seq<int>, x0: File, s: State, k: nat)
    requires IsModel(cfg, m) && IsFile(cfg, x0) && cfg.batchSize > 0
  {
    var next := NextTime(cfg, k);
    && s.start == BatchOf(cfg, next) && next in s.disk
    && s.disk[next] == Forecasted(cfg, m, k, Ensemble(cfg, m, obs, x0, k))
    && forall t: nat :: t <= k && t != next ==> t in s.disk && s.disk[t] == Ensemble(cfg, m, obs, x0, t)
  }

  lemma BatchesApart(cfg: Config, t: nat, k: nat)
    requires cfg.batchSize > 0 && t <= k && k + 1 < cfg.nt && BatchOf(cfg, k + 1) != BatchOf(cfg, k)
    ensures BatchOf(cfg, t) != BatchOf(cfg, k + 1)
  {
    var b := BatchOf(cfg, k + 1);
    BatchLaw(cfg, 0, k + 1);
    BatchLaw(cfg, b, k + 1);
    BatchLaw(cfg, b, k);
    BatchLaw(cfg, 0, t);
  }

  lemma OneBatch(cfg: Config, t: nat)
    requires 0 < cfg.nt <= cfg.batchSize && t < cfg.nt
    ensures BatchOf(cfg, t) == 0
  {
    assert BatchOf(cfg, 0) == 0;
    BatchLaw(cfg, 0, t);
  }

  lemma ForecastHolds(cfg: Config, m: Model, obs: seq<int>, x0: File, s: State, s': State, k: nat, size: nat)
    requires IsModel(cfg, m) && IsFile(cfg, x0) && k < cfg.nt && 0 < size <= cfg.nens && NothingErased(cfg, size)
    requires Holds(cfg, m, obs, x0, s, k) && StepOutcome(cfg, s, s', k, size, ForecastAt(m, k))
    ensures HoldsForecast(cfg, m, obs, x0, s', k)
  {
    var next, x := NextTime(cfg, k), Ensemble(cfg, m, obs, x0, k);
    if cfg.nt <= cfg.batchSize {
      OneBatch(cfg, k);
      OneBatch(cfg, next);
    }
    forall t: nat | t <= k && t != next ensures t in s'.disk && s'.disk[t] == s.disk[t] {
      if BatchOf(cfg, next) != BatchOf(cfg, k) { BatchesApart(cfg, t, k); }
    }
    assert s'.disk[next] == Forecasted(cfg, m, k, x);
  }

  lemma EnsembleStep(cfg: Config, m: Model, obs: seq<int>, x0: File, k: nat, y: File)
    requires IsModel(cfg, m) && IsFile(cfg, x0) && y == Forecasted(cfg, m, k, Ensemble(cfg, m, obs, x0, k))
    ensures Ensemble(cfg, m, obs, x0, k + 1) == if k in obs && k > 0 then m.analysis(k, Passed(obs, k), y) else y
  {
  }

  lemma StepHolds(cfg: Config, m: Model, obs: seq<int>, x0: File, s: State, s': State, k: nat)
    requires IsModel(cfg, m) && IsFile(cfg, x0) && k < cfg.nt && WellFormed(cfg, s')
    requires HoldsForecast(cfg, m, obs, x0, s, k) && s'.start == s.start
    requires s'.disk == s.disk[NextTime(cfg, k) := Ensemble(cfg, m, obs, x0, k + 1)]
    ensures Holds(cfg, m, obs, x0, s', k + 1)
  {
    forall t: nat | t < cfg.nt && t <= k + 1
      ensures t in s'.disk
      ensures s'.disk[t] == Ensemble(cfg, m, obs, x0, if k + 1 == cfg.nt && t == k then k + 1 else t)
    {
      if t != NextTime(cfg, k) { assert t <= k && s'.disk[t] == s.disk[t]; }
    }
  }

  lemma AnalysedHolds(cfg: Config, m: Model, obs: seq<int>, x0: File, s: State, k: nat)
    requires IsModel(cfg, m) && IsFile(cfg, x0) && k < cfg.nt && WellFormed(cfg, s)
    requires HoldsForecast(cfg, m, obs, x0, s, k)
    ensures Holds(cfg, m, obs, x0, Analysed(cfg, m, obs, k, s), k + 1)
  {
    var next := NextTime(cfg, k);
    var s' := Analysed(cfg, m, obs, k, s);
    EnsembleStep(cfg, m, obs, x0, k, s.disk[next]);
    assert s'.disk == s.disk[next := Ensemble(cfg, m, obs, x0, k + 1)];
    StepHolds(cfg, m, obs, x0, s, s', k);
  }

  /** When no step erases a batch, the files hold the plain recursion after every number of steps. */
  lemma {:induction false} RunHolds(cfg: Config, size: nat, m: Model, obs: seq<int>, x0: File, ss: seq<State>, n: nat)
    requires cfg.batchSize > 0 && 0 < size <= cfg.nens && IsModel(cfg, m) && IsFile(cfg, x0) && NothingErased(cfg, size)
    requires n <= cfg.nt && IsRun(cfg, size, m, obs, x0, ss, n)
    ensures Holds(cfg, m, obs, x0, ss[n], n)
    decreases n
  {
    if n == 0 {
      assert BatchOf(cfg, 0) == 0;
    } else {
      var k := n - 1;
      RunHolds(cfg, size, m, obs, x0, ss[..n], k);
      assert Steps(cfg, size, m, obs, k, ss[k], ss[k + 1]);
      var mid: State :| StepOutcome(cfg, Ensured(cfg, ss[k], k), mid, k, size, ForecastAt(m, k))
        && NextTime(cfg, k) in mid.disk && ss[n] == Analysed(cfg, m, obs, k, mid);
      ForecastHolds(cfg, m, obs, x0, ss[k], mid, k, size);
      AnalysedHolds(cfg, m, obs, x0, mid, k);
    }
  }

  // ---- the case with loss ----

  /** The time the run has reached after n steps. */
  function Reached(cfg: Config, n: nat): nat { if n < cfg.nt then n else if cfg.nt > 0 then cfg.nt - 1 else 0 }

  /** Every batch before the one the run has reached is empty. */
  ghost predicate Emptied(cfg: Config, s: State, n: nat)
  {
    && WellFormed(cfg, s) && s.start == BatchOf(cfg, Reached(cfg, n))
    && forall t: nat :: t < cfg.nt && BatchOf(cfg, t) < BatchOf(cfg, Reached(cfg, n)) ==>
         t in s.disk && s.disk[t] == EmptyFile(cfg)
  }

  lemma BatchMono(cfg: Config, t: nat, u: nat)
    requires cfg.batchSize > 0 && t <= u
    ensures 0 <= BatchOf(cfg, t) <= BatchOf(cfg, u)
  {
    QuotientMono(t, u, cfg.batchSize);
    MulMono(0, t / cfg.batchSize, cfg.batchSize);
    MulMono(t / cfg.batchSize, u / cfg.batchSize, cfg.batchSize);
  }

  lemma ForecastEmpties(cfg: Config, s: State, s': State, k: nat, size: nat, f: (nat, seq<real>) -> seq<real>)
    requires k < cfg.nt && 0 < size <= cfg.nens && RoundCount(cfg.nens, size) != 1
    requires Emptied(cfg, s, k) && StepOutcome(cfg, s, s', k, size, f)
    ensures Emptied(cfg, s', k + 1) && NextTime(cfg, k) == Reached(cfg, k + 1)
  {
    var next := NextTime(cfg, k);
    forall t: nat | t < cfg.nt && BatchOf(cfg, t) < BatchOf(cfg, next)
      ensures t in s'.disk && s'.disk[t] == EmptyFile(cfg)
    {
      if t > k { BatchMono(cfg, next, t); }
      BatchMono(cfg, t, k);
    }
  }

  lemma AnalysedEmpties(cfg: Config, m: Model, obs: seq<int>, s: State, k: nat)
    requires IsModel(cfg, m) && k < cfg.nt && Emptied(cfg, s, k + 1) && NextTime(cfg, k) in s.disk
    ensures Emptied(cfg, Analysed(cfg, m, obs, k, s), k + 1)
  {
  }

  lemma {:induction false} RunEmpties(cfg: Config, size: nat, m: Model, obs: seq<int>, x0: File, ss: seq<State>, n: nat)
    requires cfg.batchSize > 0 && 0 < size <= cfg.nens && IsModel(cfg, m) && RoundCount(cfg.nens, size) != 1
    requires n <= cfg.nt && IsRun(cfg, size, m, obs, x0, ss, n)
    ensures Emptied(cfg, ss[n], n)
    decreases n
  {
    if n == 0 {
      assert BatchOf(cfg, 0) == 0;
    } else {
      var k := n - 1;
      RunEmpties(cfg, size, m, obs, x0, ss[..n], k);
      assert Steps(cfg, size, m, obs, k, ss[k], ss[k + 1]);
      var mid: State :| StepOutcome(cfg, Ensured(cfg, ss[k], k), mid, k, size, ForecastAt(m, k))
        && NextTime(cfg, k) in mid.disk && ss[n] == Analysed(cfg, m, obs, k, mid);
      ForecastEmpties(cfg, ss[k], mid, k, size, ForecastAt(m, k));
      AnalysedEmpties(cfg, m, obs, mid, k);
    }
  }

  /**
   * With several rounds, a run ends with every file outside its last batch empty, for every model, schedule and initial
   * ensemble.
   */
  lemma RunErasesHistory(cfg: Config, size: nat, m: Model, obs: seq<int>, x0: File, ss: seq<State>, t: nat)
    requires cfg.batchSize > 0 && 0 < size <= cfg.nens && IsModel(cfg, m) && RoundCount(cfg.nens, size) != 1
    requires IsRun(cfg, size, m, obs, x0, ss, cfg.nt) && t < cfg.nt && BatchOf(cfg, t) != BatchOf(cfg, cfg.nt - 1)
    ensures t in ss[cfg.nt].disk && ss[cfg.nt].disk[t] == EmptyFile(cfg)
  {
    RunEmpties(cfg, size, m, obs, x0, ss, cfg.nt);
    BatchMono(cfg, t, cfg.nt - 1);
  }

  // ---- what the restart machine says of the files ----

  lemma QuotientStep(k: nat, c: nat)
    requires c > 0
    ensures (k + 1) / c == k / c + if (k + 1) % c == 0 then 1 else 0
  {
    var q, rest := k / c, k % c;
    assert k == rest + q * c;
    if rest + 1 < c {
      DivModUnique(rest + 1, q, c);
    } else {
      MulMono(q, q + 1, c);
      DivModUnique(0, q + 1, c);
    }
  }

  lemma SameBatchIff(cfg: Config, t: nat, u: nat)
    requires cfg.batchSize > 0
    ensures BatchOf(cfg, t) == BatchOf(cfg, u) <==> t / cfg.batchSize == u / cfg.batchSize
  {
    FloorBounds(t, cfg.batchSize);
    FloorBounds(u, cfg.batchSize);
  }

  /** The machine's configuration for a store of this configuration. */
  predicate Describes(machine: Checkpoint.Config, cfg: Config, size: nat)
    requires size > 0
  {
    machine.nt == cfg.nt && machine.batchSize == cfg.batchSize && machine.rounds == RoundCount(cfg.nens, size)
  }

  lemma ErasesIff(cfg: Config, machine: Checkpoint.Config, k: nat, size: nat)
    requires cfg.batchSize > 0 && 0 < size <= cfg.nens && Describes(machine, cfg, size)
    ensures Checkpoint.Erases(machine, k) <==>
      k + 1 < cfg.nt && BatchOf(cfg, k + 1) != BatchOf(cfg, k) && RoundCount(cfg.nens, size) != 1
  {
    RoundsSuffice(cfg.nens, size, 0);
    QuotientStep(k, cfg.batchSize);
    SameBatchIff(cfg, k, k + 1);
  }

  /** What a step does to file t, if that is in place before. */
  ghost predicate FileAfter(cfg: Config, machine: Checkpoint.Config, s: State, s': State, k: nat, t: nat)
    requires machine.batchSize > 0 && t in s.disk
  {
    if !Checkpoint.Erases(machine, k) then t <= k && t != NextTime(cfg, k) ==> t in s'.disk && s'.disk[t] == s.disk[t]
    else if Checkpoint.SameBatch(machine, t, k) then t in s'.disk && s'.disk[t] == EmptyFile(cfg)
    else if Checkpoint.SameBatch(machine, t, k + 1) then true
    else t in s'.disk && s'.disk[t] == s.disk[t]
  }

  /**
   * The restart machine erases kept steps at a step exactly when the store does: then the files of the batch of k are
   * empty and those of other batches untouched; otherwise all files up to k but the one written are untouched.
   */
  lemma MachineMatchesStore(cfg: Config, machine: Checkpoint.Config, s: State, s': State, k: nat, size: nat,
                            f: (nat, seq<real>) -> seq<real>, t: nat)
    requires k < cfg.nt && 0 < size <= cfg.nens && WellFormed(cfg, s) && t in s.disk && t < cfg.nt
    requires Describes(machine, cfg, size) && StepOutcome(cfg, s, s', k, size, f)
    ensures FileAfter(cfg, machine, s, s', k, t)
  {
    ErasesIff(cfg, machine, k, size);
    if Checkpoint.Erases(machine, k) {
      SameBatchIff(cfg, t, k);
      SameBatchIff(cfg, t, k + 1);
      ErasedFile(cfg, s, s', k, size, f, t);
    } else {
      KeptFile(cfg, s, s', k, size, f, t);
    }
  }

  /**
   * What the machine says of kept steps is so in the store, step j being in file j + 1: a step it drops is in a file
   * that has become empty, a step it still keeps is in a file that is as before, unless the last step overwrites it in
   * place.
   */
  lemma KeptMatchesStore(cfg: Config, machine: Checkpoint.Config, before: Checkpoint.State, s: State, s': State, k: nat,
                         size: nat, f: (nat, seq<real>) -> seq<real>, j: nat)
    requires k < cfg.nt && 0 < size <= cfg.nens && WellFormed(cfg, s) && Describes(machine, cfg, size)
    requires StepOutcome(cfg, s, s', k, size, f) && before.phase == Checkpoint.Computing(k)
    requires j in before.kept && j < k && j + 1 in s.disk
    ensures var after := Checkpoint.Completed(machine, before);
            && (j !in after.kept ==> j + 1 in s'.disk && s'.disk[j + 1] == EmptyFile(cfg))
            && (j in after.kept && j + 1 != NextTime(cfg, k) ==> j + 1 in s'.disk && s'.disk[j + 1] == s.disk[j + 1])
  {
    MachineMatchesStore(cfg, machine, s, s', k, size, f, j + 1);
    ErasesIff(cfg, machine, k, size);
    if Checkpoint.Erases(machine, k) {
      BatchesApart(cfg, j + 1, k);
      SameBatchIff(cfg, j + 1, k + 1);
    }
  }

  lemma ErasedFile(cfg: Config, s: State, s': State, k: nat, size: nat, f: (nat, seq<real>) -> seq<real>, t: nat)
    requires k + 1 < cfg.nt && 0 < size <= cfg.nens && WellFormed(cfg, s) && t in s.disk && t < cfg.nt
    requires BatchOf(cfg, k + 1) != BatchOf(cfg, k) && RoundCount(cfg.nens, size) != 1
    requires StepOutcome(cfg, s, s', k, size, f)
    ensures BatchOf(cfg, t) == BatchOf(cfg, k) ==> t in s'.disk && s'.disk[t] == EmptyFile(cfg)
    ensures BatchOf(cfg, t) != BatchOf(cfg, k) && BatchOf(cfg, t) != BatchOf(cfg, k + 1) ==>
      t in s'.disk && s'.disk[t] == s.disk[t]
  {
  }

  lemma KeptFile(cfg: Config, s: State, s': State, k: nat, size: nat, f: (nat, seq<real>) -> seq<real>, t: nat)
    requires k < cfg.nt && 0 < size <= cfg.nens && WellFormed(cfg, s) && t in s.disk
    requires k + 1 == cfg.nt || BatchOf(cfg, k + 1) == BatchOf(cfg, k) || RoundCount(cfg.nens, size) == 1
    requires StepOutcome(cfg, s, s', k, size, f)
    ensures t <= k && t != NextTime(cfg, k) ==> t in s'.disk && s'.disk[t] == s.disk[t]
  {
    if t <= k && k + 1 < cfg.nt && BatchOf(cfg, k + 1) != BatchOf(cfg, k) { BatchesApart(cfg, t, k); }
  }

  // ---- every run exists ----

  lemma RoundExists(cfg: Config, s: State, k: nat, next: nat, size: nat, first: nat, f: (nat, seq<real>) -> seq<real>)
    returns (s': State)
    requires WellFormed(cfg, s) && k < cfg.nt && next < cfg.nt && first < cfg.nens && IsForecast(cfg, f)
    ensures IsRound(cfg, s, s', k, next, size, first, f)
  {
    EnsuredWellFormed(cfg, s, k);
    var s1 := Ensured(cfg, s, k);
    EnsuredWellFormed(cfg, s1, next);
    var s2 := Ensured(cfg, s1, next);
    var x, y, done := s1.disk[k], s2.disk[next], first + Active(cfg, size, first);
    var file := seq(cfg.nens, e requires 0 <= e < cfg.nens => if first <= e < done then f(e, x[e]) else y[e]);
    s' := State(s2.disk[next := file], s2.start);
  }

  lemma {:induction false} RoundsExist(cfg: Config, s: State, k: nat, size: nat, n: nat,
                                       f: (nat, seq<real>) -> seq<real>)
    returns (s': State, first: nat)
    requires WellFormed(cfg, s) && k < cfg.nt && 0 < size <= cfg.nens && IsForecast(cfg, f)
    requires n <= RoundCount(cfg.nens, size)
    ensures BeforeRound(cfg, Ensured(cfg, s, k), s', k, size, n, first, f)
    decreases n
  {
    if n == 0 {
      RoundsBegin(cfg, s, k, size, f);
      s', first := s, 0;
    } else {
      var before, done := RoundsExist(cfg, s, k, size, n - 1, f);
      s' := NextRoundExists(cfg, Ensured(cfg, s, k), before, k, size, n - 1, done, f);
      first := done + size;
    }
  }

  lemma NextRoundExists(cfg: Config, s0: State, s: State, k: nat, size: nat, round: nat, first: nat,
                        f: (nat, seq<real>) -> seq<real>)
    returns (s': State)
    requires cfg.batchSize > 0 && k < cfg.nt && 0 < size <= cfg.nens && IsForecast(cfg, f)
    requires round < RoundCount(cfg.nens, size) && BeforeRound(cfg, s0, s, k, size, round, first, f)
    ensures BeforeRound(cfg, s0, s', k, size, round + 1, first + size, f)
  {
    FirstOfRound(cfg, size, round);
    s' := RoundExists(cfg, s, k, NextTime(cfg, k), size, first, f);
    RoundHandsOver(cfg, s0, s, s', k, size, round, first, f);
  }

  lemma StepExists(cfg: Config, size: nat, m: Model, obs: seq<int>, k: nat, s: State) returns (s': State)
    requires WellFormed(cfg, s) && k < cfg.nt && 0 < size <= cfg.nens && IsModel(cfg, m)
    ensures Steps(cfg, size, m, obs, k, s, s') && WellFormed(cfg, s')
  {
    var f, s0, rounds := ForecastAt(m, k), Ensured(cfg, s, k), RoundCount(cfg.nens, size);
    var mid, first := RoundsExist(cfg, s, k, size, rounds, f);
    RoundsEnd(cfg, s0, mid, k, size, first, f);
    s' := Analysed(cfg, m, obs, k, mid);
  }

  lemma {:induction false} RunExists(cfg: Config, size: nat, m: Model, obs: seq<int>, x0: File, n: nat)
    returns (ss: seq<State>)
    requires cfg.batchSize > 0 && 0 < size <= cfg.nens && IsModel(cfg, m) && IsFile(cfg, x0) && n <= cfg.nt
    ensures IsRun(cfg, size, m, obs, x0, ss, n) && WellFormed(cfg, ss[n])
    decreases n
  {
    if n == 0 {
      InitialWellFormed(cfg);
      var empty := Initial(cfg);
      ss := [State(empty.disk[0 := x0], 0)];
    } else {
      var before := RunExists(cfg, size, m, obs, x0, n - 1);
      var s' := StepExists(cfg, size, m, obs, n - 1, before[n - 1]);
      RunExtends(cfg, size, m, obs, x0, before, n - 1, s');
      ss := before + [s'];
    }
  }

  // ---- the exact condition ----

  /** On every run, for every model, schedule and ensemble, the files end up holding the plain recursion. */
  ghost predicate AlwaysRecursion(cfg: Config, size: nat)
    requires cfg.batchSize > 0 && size > 0
  {
    forall m: Model, obs: seq<int>, x0: File, ss: seq<State> ::
      IsModel(cfg, m) && IsFile(cfg, x0) && IsRun(cfg, size, m, obs, x0, ss, cfg.nt) ==>
        Holds(cfg, m, obs, x0, ss[cfg.nt], cfg.nt)
  }

  function Still(): Model { Model((k: nat, e: nat, x: seq<real>) => x, (k: nat, km: nat, x: File) => x) }

  function Ones(cfg: Config): File { seq(cfg.nens, e => seq(cfg.nd, c => 1.0)) }

  lemma SomeRunFails(cfg: Config, size: nat)
    requires cfg.batchSize > 0 && 0 < size <= cfg.nens && cfg.nd > 0 && !NothingErased(cfg, size)
    ensures !AlwaysRecursion(cfg, size)
  {
    var m, x0 := Still(), Ones(cfg);
    var ss := RunExists(cfg, size, m, [], x0, cfg.nt);
    assert BatchOf(cfg, 0) == 0;
    BatchLaw(cfg, 0, cfg.nt - 1);
    RunErasesHistory(cfg, size, m, [], x0, ss, 0);
    assert Ensemble(cfg, m, [], x0, 0) == x0;
    assert x0[0][0] != EmptyFile(cfg)[0][0];
    assert !Holds(cfg, m, [], x0, ss[cfg.nt], cfg.nt);
  }

  /** The run is the plain filter recursion exactly when all steps fit one batch or one round holds all members. */
  lemma RunIsRecursionIff(cfg: Config, size: nat)
    requires cfg.batchSize > 0 && 0 < size <= cfg.nens && cfg.nd > 0
    ensures AlwaysRecursion(cfg, size) <==> NothingErased(cfg, size)
  {
    if NothingErased(cfg, size) {
      forall m: Model, obs: seq<int>, x0: File, ss: seq<State> |
        IsModel(cfg, m) && IsFile(cfg, x0) && IsRun(cfg, size, m, obs, x0, ss, cfg.nt)
        ensures Holds(cfg, m, obs, x0, ss[cfg.nt], cfg.nt)
      {
        RunHolds(cfg, size, m, obs, x0, ss, cfg.nt);
      }
    } else {
      SomeRunFails(cfg, size);
    }
  }

  // ---- the program ----

  /** The analysis of all members in the file at time t; the ranks' row blocks together are its whole columns. */
  method AnalysisStep(store: EnKFStore, t: nat, k: nat, km: nat, m: Model)
    requires store.Valid() && t < store.cfg.nt && store.currentBatchStart == BatchOf(store.cfg, t)
    requires IsModel(store.cfg, m) && store.cfg.nens > 0
    modifies store
    ensures store.Valid() && store.currentBatchStart == old(store.currentBatchStart)
    ensures t in old(store.disk) && store.disk == old(store.disk)[t := m.analysis(k, km, old(store.disk)[t])]
  {
    ghost var s := store.Abs();
    EnsuredWellFormed(store.cfg, s, t);
    var values := ReadRound(store, t, store.cfg.nens, 0, (e, x) => x);
    assert values == s.disk[t];
    WriteRound(store, t, store.cfg.nens, 0, m.analysis(k, km, values));
    assert store.disk[t] == m.analysis(k, km, s.disk[t]);
    assert store.disk == s.disk[t := m.analysis(k, km, s.disk[t])];
  }

  /**
   * Main result: the program over the batched store, on any number of ranks, does such a run. When no step erases a
   * batch it ends with the plain filter recursion in the files: every file before the last holds the ensemble of its
   * time, the last file that after all steps.
   */
  method FullParallelRun(store: EnKFStore, size: nat, m: Model, obs: seq<int>, ghost x0: File)
    returns (ghost ss: seq<State>)
    requires store.Valid() && IsStart(store.cfg, x0, store.Abs()) && IsModel(store.cfg, m) && IsFile(store.cfg, x0)
    requires 0 < size <= store.cfg.nens && OneCreator(store, size) && StrictlyIncreasing(obs)
    modifies store
    ensures store.Valid()
    ensures IsRun(store.cfg, size, m, obs, x0, ss, store.cfg.nt) && ss[store.cfg.nt] == store.Abs()
    ensures NothingErased(store.cfg, size) ==> Holds(store.cfg, m, obs, x0, store.Abs(), store.cfg.nt)
  {
    var km := ResumeCursor(obs, None, 0);
    ResumeCursorExact(obs, None, 0);
    ss := [store.Abs()];
    for k := 0 to store.cfg.nt
      invariant store.Valid() && IsRun(store.cfg, size, m, obs, x0, ss, k) && ss[k] == store.Abs()
      invariant km == Passed(obs, if k == 0 then 1 else k)
    {
      km := RunStep(store, size, m, obs, k, km);
      RunExtends(store.cfg, size, m, obs, x0, ss, k, store.Abs());
      ss := ss + [store.Abs()];
    }
    if NothingErased(store.cfg, size) { RunHolds(store.cfg, size, m, obs, x0, ss, store.cfg.nt); }
  }

  /** One turn of the time loop. */
  method RunStep(store: EnKFStore, size: nat, m: Model, obs: seq<int>, k: nat, km: nat) returns (km': nat)
    requires store.Valid() && k < store.cfg.nt && IsModel(store.cfg, m)
    requires 0 < size <= store.cfg.nens && OneCreator(store, size) && StrictlyIncreasing(obs)
    requires km == Passed(obs, if k == 0 then 1 else k)
    modifies store
    ensures store.Valid() && Steps(store.cfg, size, m, obs, k, old(store.Abs()), store.Abs())
    ensures km' == Passed(obs, k + 1)
  {
    FullParallelForecast(store, k, size, ForecastAt(m, k));
    ghost var mid := store.Abs();
    EnsuredWellFormed(store.cfg, mid, NextTime(store.cfg, k));
    PassedStep(obs, k);
    CursorFinds(obs, k, km);
    km' := km;
    if km < |obs| && k == obs[km] {
      AnalysisStep(store, NextTime(store.cfg, k), k, km, m);
      km' := km + 1;
    }
    assert store.Abs() == Analysed(store.cfg, m, obs, k, mid);
  }

  /** The cursor is at k exactly when k is observed and not step 0. */
  lemma CursorFinds(obs: seq<int>, k: nat, km: nat)
    requires StrictlyIncreasing(obs) && km == Passed(obs, if k == 0 then 1 else k)
    ensures km < |obs| && k == obs[km] <==> k in obs && k > 0
  {
    PassedIsPrefix(obs, if k == 0 then 1 else k);
    PassedStep(obs, k);
  }
}
