/** The assimilation time loop: the observation cursor km, from a fresh start and after a restart. */
module TimeLoop {
  import opened Outcomes
  import opened Schedule

  /** An analysis was done at step k with observation column km. */
  datatype Assimilation = Assimilation(k: int, km: int)

  /** Number of observed steps before step k. */
  function Passed(obs: seq<int>, k: int): (n: nat)
    ensures n <= |obs|
  {
    if obs == [] then 0 else Passed(obs[..|obs| - 1], k) + if obs[|obs| - 1] < k then 1 else 0
  }

  /** On an increasing schedule the observed steps before k are a prefix. */
  lemma {:induction false} PassedIsPrefix(obs: seq<int>, k: int)
    requires StrictlyIncreasing(obs)
    ensures forall i :: 0 <= i < |obs| ==> (obs[i] < k <==> i < Passed(obs, k))
    decreases |obs|
  {
    if obs != [] {
      var p := obs[..|obs| - 1];
      PassedIsPrefix(p, k);
      if obs[|obs| - 1] < k {
        if |p| > 0 { assert p[|p| - 1] < obs[|obs| - 1]; }
        assert Passed(p, k) == |p|;
      }
      forall i | 0 <= i < |obs| ensures obs[i] < k <==> i < Passed(obs, k) {
        if i < |p| { assert p[i] == obs[i]; }
      }
    }
  }

  /** The cursor moves by one at an observed step and stays otherwise. */
  lemma PassedStep(obs: seq<int>, k: int)
    requires StrictlyIncreasing(obs)
    ensures Passed(obs, k) <= Passed(obs, k + 1) <= Passed(obs, k) + 1
    ensures Passed(obs, k + 1) == Passed(obs, k) + 1 <==> k in obs
    ensures k in obs ==> obs[Passed(obs, k)] == k
  {
    PassedIsPrefix(obs, k);
    PassedIsPrefix(obs, k + 1);
    var c, d := Passed(obs, k), Passed(obs, k + 1);
    if c > 0 { assert obs[c - 1] < k; }
    if c < |obs| { assert obs[c] >= k; }
    if c + 1 < |obs| { assert obs[c] < obs[c + 1]; }
    if k in obs {
      var i :| 0 <= i < |obs| && obs[i] == k;
      assert i >= c && !(i > c);
    }
  }

  lemma {:induction false} NothingPassed(obs: seq<int>, k: int)
    requires forall i :: 0 <= i < |obs| ==> obs[i] >= k
    ensures Passed(obs, k) == 0
    decreases |obs|
  {
    if obs != [] {
      NothingPassed(obs[..|obs| - 1], k);
    }
  }

  /** Analyses number a to b - 1, each at its scheduled step with its own column. */
  function Analyses(obs: seq<int>, a: nat, b: nat): (log: seq<Assimilation>)
    requires b <= |obs|
  {
    if a >= b then [] else Analyses(obs, a, b - 1) + [Assimilation(obs[b - 1], b - 1)]
  }

  lemma {:induction false} AnalysesAppend(obs: seq<int>, a: nat, b: nat, c: nat)
    requires a <= b <= c <= |obs|
    ensures Analyses(obs, a, c) == Analyses(obs, a, b) + Analyses(obs, b, c)
    decreases c
  {
    if b < c { AnalysesAppend(obs, a, b, c - 1); }
  }

  /**
   * The loop over steps kStart .. nt-1 with the cursor starting at km0, which is either the number of
   * observed steps before kStart or, when kStart itself is observed, one more.
   */
  method Loop(obs: seq<int>, limit: nat, kStart: nat, km0: nat, nt: nat) returns (log: seq<Assimilation>, km: nat)
    requires limit <= |obs| && StrictlyIncreasing(obs) && kStart <= nt
    requires km0 == Passed(obs[..limit], kStart) || km0 == Passed(obs[..limit], kStart + 1)
    ensures km == if kStart == nt then km0 else Passed(obs[..limit], nt)
    ensures log == if kStart == nt then [] else Analyses(obs[..limit], km0, Passed(obs[..limit], nt))
  {
    ghost var sched := obs[..limit];
    log, km := [], km0;
    PassedStep(sched, kStart);
    for k := kStart to nt
      invariant km0 <= km <= limit
      invariant if k == kStart then km == km0 else km == Passed(sched, k)
      invariant log == Analyses(sched, km0, km)
    {
      LoopTurn(sched, kStart, km0, k, km);
      if km < limit && k == obs[km] {
        log := log + [Assimilation(k, km)];
        km := km + 1;
      }
    }
  }

  /** One turn: the cursor moves exactly if step k is its next observed step, and then counts the steps before k + 1. */
  lemma LoopTurn(sched: seq<int>, kStart: nat, km0: nat, k: nat, km: nat)
    requires StrictlyIncreasing(sched) && kStart <= k && km0 <= km <= |sched|
    requires km0 == Passed(sched, kStart) || km0 == Passed(sched, kStart + 1)
    requires if k == kStart then km == km0 else km == Passed(sched, k)
    ensures var hit := km < |sched| && k == sched[km];
            && Passed(sched, k + 1) == (if hit then km + 1 else km)
            && (hit ==> Analyses(sched, km0, km + 1) == Analyses(sched, km0, km) + [Assimilation(k, km)])
  {
    PassedStep(sched, k);
    PassedIsPrefix(sched, k);
    PassedIsPrefix(sched, k + 1);
  }

  /** From km = 0: every scheduled step below nt is assimilated exactly once, in order, in its own column. */
  method FreshLoop(obs: seq<int>, limit: nat, nt: nat) returns (log: seq<Assimilation>, km: nat)
    requires limit <= |obs| && StrictlyIncreasing(obs) && forall i :: 0 <= i < |obs| ==> obs[i] >= 0
    ensures km == Passed(obs[..limit], nt)
    ensures |log| == km && forall i :: 0 <= i < |log| ==> log[i] == Assimilation(obs[i], i)
    ensures forall i :: 0 <= i < limit ==> (obs[i] < nt <==> Assimilation(obs[i], i) in log)
  {
    ghost var sched := obs[..limit];
    NothingPassed(sched, 0);
    log, km := Loop(obs, limit, 0, 0, nt);
    PassedIsPrefix(sched, nt);
    AnalysesEntries(sched, 0, km);
    forall i | 0 <= i < limit ensures obs[i] < nt <==> Assimilation(obs[i], i) in log {
      assert sched[i] == obs[i];
      if obs[i] < nt { assert log[i] == Assimilation(obs[i], i); }
    }
  }

  lemma {:induction false} AnalysesEntries(obs: seq<int>, a: nat, b: nat)
    requires a <= b <= |obs|
    ensures |Analyses(obs, a, b)| == b - a
    ensures forall i :: 0 <= i < b - a ==> Analyses(obs, a, b)[i] == Assimilation(obs[a + i], a + i)
    decreases b
  {
    if a < b {
      AnalysesEntries(obs, a, b - 1);
      var log := Analyses(obs, a, b - 1);
      assert Analyses(obs, a, b) == log + [Assimilation(obs[b - 1], b - 1)];
      forall i | 0 <= i < b - a ensures Analyses(obs, a, b)[i] == Assimilation(obs[a + i], a + i) {
        if i < |log| { assert Analyses(obs, a, b)[i] == log[i]; }
      }
    }
  }

  /**
   * Schedule and loop together: every accepted request before nt is assimilated, at its nearest step, in that step's
   * column.
   */
  method AssimilateSchedule(t: seq<real>, freq: real, obsStart: real, obsMax: real, nt: nat)
    returns (req: seq<real>, idx: seq<int>, log: seq<Assimilation>)
    ensures |log| <= |idx| && forall i :: 0 <= i < |log| ==> log[i] == Assimilation(idx[i], i)
    ensures t != [] ==> forall j :: 0 <= j < |req| && Accepted(t, req[j]) && Nearest(t, req[j]) < nt ==>
      exists i :: 0 <= i < |log| && log[i] == Assimilation(Nearest(t, req[j]), i)
    ensures t != [] ==> forall i :: 0 <= i < |log| ==> Matched(t, req, |req|, log[i].k) && log[i].k < nt
  {
    req, idx := GenerateSchedule(t, freq, obsStart, obsMax);
    assert forall i :: 0 <= i < |idx| ==> idx[i] in idx;
    assert idx[..|idx|] == idx;
    var km;
    log, km := FreshLoop(idx, |idx|, nt);
    PassedIsPrefix(idx, nt);
    if t != [] {
      forall j | 0 <= j < |req| && Accepted(t, req[j]) && Nearest(t, req[j]) < nt
        ensures exists i :: 0 <= i < |log| && log[i] == Assimilation(Nearest(t, req[j]), i)
      {
        assert Matched(t, req, |req|, Nearest(t, req[j]));
        var i :| 0 <= i < |idx| && idx[i] == Nearest(t, req[j]);
        assert log[i] == Assimilation(idx[i], i);
      }
    }
  }

  // ---- restart ----

  /** compute_km_from_tobserve: observed times among the first m (clamped) that are at most kStart. */
  function ResumeCursor(obs: seq<int>, m: Option<int>, kStart: int): nat
  {
    var n := match m case None => |obs| case Some(v) => if v < 0 then 0 else if v > |obs| then |obs| else v;
    Passed(obs[..n], kStart + 1)
  }

  /** The resumed cursor is the uninterrupted one, except exactly one ahead when kStart is itself an observed step. */
  lemma ResumeCursorExact(obs: seq<int>, m: Option<int>, kStart: int)
    requires StrictlyIncreasing(obs) && (m.Some? ==> m.value >= |obs|)
    ensures ResumeCursor(obs, m, kStart) == Passed(obs, kStart) + if kStart in obs then 1 else 0
    ensures ResumeCursor(obs, m, kStart) == Passed(obs, kStart + 1)
  {
    assert obs[..|obs|] == obs;
    PassedStep(obs, kStart);
  }

  /** With any number of observations given, clamped to the schedule, the cursor counts those of them up to kStart. */
  lemma ResumeCursorCounts(obs: seq<int>, m: int, kStart: int)
    requires StrictlyIncreasing(obs)
    ensures var c := ResumeCursor(obs, Some(m), kStart);
            && c <= |obs| && (m >= 0 ==> c <= m) && (m < 0 ==> c == 0)
            && forall i :: 0 <= i < |obs| && i < m ==> (obs[i] <= kStart <==> i < c)
  {
    var n := if m < 0 then 0 else if m > |obs| then |obs| else m;
    PassedIsPrefix(obs[..n], kStart + 1);
  }

  /** What one launch of the full-parallel run assimilates when it works on steps start .. stop-1. */
  function LaunchLog(obs: seq<int>, start: nat, stop: nat): seq<Assimilation>
  {
    if start >= stop then [] else Analyses(obs, Passed(obs, start + 1), Passed(obs, stop))
  }

  /** One launch, fresh (start = 0) or resumed: the cursor is recomputed from start, then the loop runs up to stop. */
  method RunLaunch(obs: seq<int>, start: nat, stop: nat) returns (log: seq<Assimilation>, km: nat)
    requires StrictlyIncreasing(obs) && start <= stop
    ensures log == LaunchLog(obs, start, stop)
    ensures start < stop ==> km == Passed(obs, stop)
  {
    assert obs[..|obs|] == obs;
    ResumeCursorExact(obs, Some(|obs|), start);
    log, km := Loop(obs, |obs|, start, ResumeCursor(obs, Some(|obs|), start), stop);
  }

  /** A full-parallel run from step 0 that stops before step kStart, and its resumption there. */
  method InterruptedRun(obs: seq<int>, kStart: nat, nt: nat)
    returns (before: seq<Assimilation>, after: seq<Assimilation>, km: nat)
    requires StrictlyIncreasing(obs) && kStart <= nt
    ensures before == LaunchLog(obs, 0, kStart) && after == LaunchLog(obs, kStart, nt)
    ensures kStart < nt ==> km == Passed(obs, nt)
  {
    var k0;
    before, k0 := RunLaunch(obs, 0, kStart);
    after, km := RunLaunch(obs, kStart, nt);
  }

  /** A launch assimilates a scheduled step, in its own column, exactly when the step lies strictly inside it. */
  lemma LaunchAssimilates(obs: seq<int>, start: nat, stop: nat, i: nat)
    requires StrictlyIncreasing(obs) && i < |obs|
    ensures Assimilation(obs[i], i) in LaunchLog(obs, start, stop) <==> start < obs[i] < stop
  {
    if start < stop {
      var a, b := Passed(obs, start + 1), Passed(obs, stop);
      var log := LaunchLog(obs, start, stop);
      PassedIsPrefix(obs, start + 1);
      PassedIsPrefix(obs, stop);
      PassedMonotone(obs, start + 1, stop);
      AnalysesEntries(obs, a, b);
      if start < obs[i] < stop { assert log[i - a] == Assimilation(obs[a + (i - a)], a + (i - a)); }
    }
  }

  /**
   * The two launches of an interrupted run against the uninterrupted run, which skips step 0 as well, and against the
   * schedule: nothing more is lost than the analysis at kStart, and the whole schedule is assimilated exactly when
   * neither step 0 nor kStart is observed.
   */
  lemma InterruptionLosesExactlyOne(obs: seq<int>, kStart: nat, nt: nat)
    requires StrictlyIncreasing(obs) && kStart < nt && forall i :: 0 <= i < |obs| ==> obs[i] >= 0
    ensures var halves := LaunchLog(obs, 0, kStart) + LaunchLog(obs, kStart, nt);
            && (halves == LaunchLog(obs, 0, nt) <==> kStart !in obs || kStart == 0)
            && (kStart in obs && kStart > 0 ==>
                 LaunchLog(obs, 0, kStart) + [Assimilation(kStart, Passed(obs, kStart))] + LaunchLog(obs, kStart, nt)
                 == LaunchLog(obs, 0, nt))
            && (halves == Analyses(obs, 0, Passed(obs, nt)) <==> 0 !in obs && kStart !in obs)
  {
    var x := if kStart in obs && kStart > 0 then [Assimilation(kStart, Passed(obs, kStart))] else [];
    var z := if 0 in obs then [Assimilation(0, Passed(obs, 0))] else [];
    ScheduleSplits(obs, 0, nt);
    NothingPassed(obs, 0);
    if kStart > 0 { LaunchSplits(obs, kStart, nt); }
    CompareParts(LaunchLog(obs, 0, kStart), x, LaunchLog(obs, kStart, nt), z);
  }

  /** The uninterrupted launch is the first half, the analysis at k, if there is one, and the second half. */
  lemma LaunchSplits(obs: seq<int>, k: nat, nt: nat)
    requires StrictlyIncreasing(obs) && 0 < k < nt
    ensures LaunchLog(obs, 0, nt) == LaunchLog(obs, 0, k)
      + (if k in obs then [Assimilation(k, Passed(obs, k))] else []) + LaunchLog(obs, k, nt)
  {
    PassedMonotone(obs, 1, k);
    PassedMonotone(obs, k, nt);
    AnalysesAppend(obs, Passed(obs, 1), Passed(obs, k), Passed(obs, nt));
    ScheduleSplits(obs, k, nt);
  }

  /** Leaving out the middle part, or that and the first, changes a sequence exactly when it is not empty. */
  lemma CompareParts<T>(a: seq<T>, x: seq<T>, b: seq<T>, z: seq<T>)
    ensures a + b == a + x + b <==> x == []
    ensures a + b == z + (a + x + b) <==> x == [] && z == []
  {
    if a + b == a + x + b { assert |a + b| == |a + x + b|; }
    if a + b == z + (a + x + b) { assert |a + b| == |z + (a + x + b)|; }
    assert a + [] == a && [] + (a + [] + b) == a + b;
  }

  /** From step k on, the schedule is the analysis at k, if there is one, and what a launch at k assimilates. */
  lemma ScheduleSplits(obs: seq<int>, k: nat, nt: nat)
    requires StrictlyIncreasing(obs) && k < nt
    ensures Passed(obs, k) <= Passed(obs, nt)
    ensures Analyses(obs, Passed(obs, k), Passed(obs, nt)) ==
      (if k in obs then [Assimilation(k, Passed(obs, k))] else []) + LaunchLog(obs, k, nt)
    ensures |LaunchLog(obs, k, nt)| == Passed(obs, nt) - Passed(obs, k) - if k in obs then 1 else 0
  {
    var a, b, c := Passed(obs, k), Passed(obs, k + 1), Passed(obs, nt);
    PassedStep(obs, k);
    PassedMonotone(obs, k + 1, nt);
    AnalysesAppend(obs, a, b, c);
    AnalysesEntries(obs, b, c);
    if k in obs { assert Analyses(obs, a, b) == Analyses(obs, a, a) + [Assimilation(obs[a], a)]; }
  }

  // ---- any number of crashes ----

  /** A launch that worked on steps start .. stop-1. */
  datatype Launch = Launch(start: nat, stop: nat)

  /**
   * Launches of one run: the first starts at 0, each resumes no later than the one before stopped, the last finishes.
   */
  ghost predicate Resumes(launches: seq<Launch>, nt: nat)
  {
    && launches != [] && launches[0].start == 0 && launches[|launches| - 1].stop == nt
    && (forall j :: 0 <= j < |launches| ==> launches[j].start <= launches[j].stop)
    && (forall j :: 0 <= j < |launches| - 1 ==> launches[j + 1].start <= launches[j].stop)
  }

  function CampaignLog(obs: seq<int>, launches: seq<Launch>): seq<Assimilation>
  {
    if launches == [] then []
    else
      var last := launches[|launches| - 1];
      CampaignLog(obs, launches[..|launches| - 1]) + LaunchLog(obs, last.start, last.stop)
  }

  predicate InsideSome(launches: seq<Launch>, o: int)
  {
    exists j :: 0 <= j < |launches| && launches[j].start < o < launches[j].stop
  }

  lemma InsideSomeStep(launches: seq<Launch>, o: int)
    requires launches != []
    ensures var last := launches[|launches| - 1];
            InsideSome(launches, o) <==> InsideSome(launches[..|launches| - 1], o) || last.start < o < last.stop
  {
    var before := launches[..|launches| - 1];
    assert forall j :: 0 <= j < |before| ==> before[j] == launches[j];
  }

  lemma {:induction false} CampaignAssimilates(obs: seq<int>, launches: seq<Launch>, i: nat)
    requires StrictlyIncreasing(obs) && i < |obs|
    ensures Assimilation(obs[i], i) in CampaignLog(obs, launches) <==> InsideSome(launches, obs[i])
    decreases |launches|
  {
    if launches != [] {
      var last := launches[|launches| - 1];
      CampaignAssimilates(obs, launches[..|launches| - 1], i);
      LaunchAssimilates(obs, last.start, last.stop, i);
      InsideSomeStep(launches, obs[i]);
    }
  }

  /** Every step is worked on by some launch. */
  lemma {:induction false} WorkedOnBy(launches: seq<Launch>, nt: nat, o: nat) returns (j: nat)
    requires Resumes(launches, nt) && o < nt
    ensures j < |launches| && launches[j].start <= o < launches[j].stop
    decreases |launches|
  {
    j := |launches| - 1;
    if launches[j].start > o {
      j := WorkedOnBy(launches[..j], launches[j - 1].stop, o);
    }
  }

  /**
   * Over any number of crashes and restarts, also ones that repeat steps: the analysis of a scheduled step is missing
   * from the whole run only if some launch, the first one included, started at that very step. When every launch
   * resumes exactly where the last one stopped, the missing analyses are exactly those.
   */
  lemma RestartsLoseOnlyTheirStarts(obs: seq<int>, launches: seq<Launch>, nt: nat, i: nat)
    requires StrictlyIncreasing(obs) && Resumes(launches, nt) && i < |obs| && 0 <= obs[i] < nt
    ensures Assimilation(obs[i], i) !in CampaignLog(obs, launches) ==>
      exists j :: 0 <= j < |launches| && launches[j].start == obs[i]
    ensures (forall j :: 0 <= j < |launches| - 1 ==> launches[j + 1].start == launches[j].stop) ==>
      (Assimilation(obs[i], i) !in CampaignLog(obs, launches) <==>
        exists j :: 0 <= j < |launches| && launches[j].start == obs[i])
  {
    CampaignAssimilates(obs, launches, i);
    var j := WorkedOnBy(launches, nt, obs[i]);
    if forall j :: 0 <= j < |launches| - 1 ==> launches[j + 1].start == launches[j].stop {
      forall p, q | 0 <= p < |launches| && 0 <= q < |launches| && launches[p].start == obs[i]
        ensures !(launches[q].start < obs[i] < launches[q].stop)
      {
        if p < q { StartsAscend(launches, p, q); } else if q < p { StopsBefore(launches, q, p); }
      }
    }
  }

  lemma {:induction false} StartsAscend(launches: seq<Launch>, p: nat, q: nat)
    requires p <= q < |launches| && forall j :: 0 <= j < |launches| ==> launches[j].start <= launches[j].stop
    requires forall j :: 0 <= j < |launches| - 1 ==> launches[j + 1].start == launches[j].stop
    ensures launches[p].start <= launches[q].start
    decreases q
  {
    if p < q {
      StartsAscend(launches, p, q - 1);
      assert launches[q - 1 + 1].start == launches[q - 1].stop;
    }
  }

  lemma StopsBefore(launches: seq<Launch>, q: nat, p: nat)
    requires q < p < |launches| && forall j :: 0 <= j < |launches| ==> launches[j].start <= launches[j].stop
    requires forall j :: 0 <= j < |launches| - 1 ==> launches[j + 1].start == launches[j].stop
    ensures launches[q].stop <= launches[p].start
  {
    StartsAscend(launches, q + 1, p);
  }

  lemma {:induction false} PassedMonotone(obs: seq<int>, k: int, l: int)
    requires k <= l
    ensures Passed(obs, k) <= Passed(obs, l)
    decreases |obs|
  {
    if obs != [] { PassedMonotone(obs[..|obs| - 1], k, l); }
  }

  // ---- the synthetic observations the loop will read ----

  /** Truth column used for an observation at a step: one later, when there is one. */
  function TruthColumn(step: int, columns: int): int { if step + 1 < columns then step + 1 else step }

  /** A variable's rows of the state, its flags, and for a bed variable which of its rows are measured. */
  datatype Variable = Variable(rows: seq<nat>, observed: bool, bed: bool, mask: seq<bool>)

  /** Every row belongs to at most one variable, once, and lies in the state. */
  ghost predicate RowsApart(vars: seq<Variable>, nd: nat)
  {
    && (forall i, p :: 0 <= i < |vars| && 0 <= p < |vars[i].rows| ==> vars[i].rows[p] < nd)
    && (forall i, p, j, q ::
          0 <= i < |vars| && 0 <= p < |vars[i].rows| && 0 <= j < |vars| && 0 <= q < |vars[j].rows| ==>
          (vars[i].rows[p] == vars[j].rows[q] ==> i == j && p == q))
    && (forall i :: 0 <= i < |vars| ==> |vars[i].mask| == |vars[i].rows|)
  }

  /**
   * The observation of row p of variable v in column km, taken from truth column tcol: observed variables always, bed
   * variables on their measured rows in snapshot columns only, whether listed as observed or not, all else zero.
   */
  function Observation(v: Variable, p: nat, km: int, tcol: int, snapshots: set<int>,
                       noisy: (int, int, int) -> real): real
    requires p < |v.rows| == |v.mask|
  {
    if if v.bed then km in snapshots && v.mask[p] else v.observed then noisy(v.rows[p], tcol, km) else 0.0
  }

  /** Column km holds the observations of the first n variables, taken from truth column tcol. */
  ghost predicate ColumnHolds(hu: array2<real>, vars: seq<Variable>, n: nat, km: nat, tcol: int, snapshots: set<int>,
                              noisy: (int, int, int) -> real)
    requires n <= |vars| && RowsApart(vars, hu.Length0) && km < hu.Length1
    reads hu
  {
    forall i, p :: 0 <= i < n && 0 <= p < |vars[i].rows| ==>
      hu[vars[i].rows[p], km] == Observation(vars[i], p, km, tcol, snapshots, noisy)
  }

  /** One variable of one column: the observations or zeros first, then the measured bed rows over them. */
  method FillVariable(hu: array2<real>, vars: seq<Variable>, i: nat, km: nat, tcol: int, snapshots: set<int>,
                      noisy: (int, int, int) -> real)
    requires i < |vars| && RowsApart(vars, hu.Length0) && km < hu.Length1
    requires ColumnHolds(hu, vars, i, km, tcol, snapshots, noisy)
    modifies hu
    ensures ColumnHolds(hu, vars, i + 1, km, tcol, snapshots, noisy)
    ensures forall r, c :: 0 <= r < hu.Length0 && 0 <= c < hu.Length1 && c != km ==> hu[r, c] == old(hu[r, c])
  {
    var v := vars[i];
    forall p | 0 <= p < |v.rows| {
      hu[v.rows[p], km] := if v.observed && !v.bed then noisy(v.rows[p], tcol, km) else 0.0;
    }
    if v.bed && km in snapshots {
      forall p | 0 <= p < |v.rows| && v.mask[p] {
        hu[v.rows[p], km] := noisy(v.rows[p], tcol, km);
      }
    }
  }

  /** All variables of one column. */
  method FillColumn(hu: array2<real>, vars: seq<Variable>, km: nat, tcol: int, snapshots: set<int>,
                    noisy: (int, int, int) -> real)
    requires RowsApart(vars, hu.Length0) && km < hu.Length1
    modifies hu
    ensures ColumnHolds(hu, vars, |vars|, km, tcol, snapshots, noisy)
    ensures forall r, c :: 0 <= r < hu.Length0 && 0 <= c < hu.Length1 && c != km ==> hu[r, c] == old(hu[r, c])
  {
    for i := 0 to |vars|
      invariant ColumnHolds(hu, vars, i, km, tcol, snapshots, noisy)
      invariant forall r, c :: 0 <= r < hu.Length0 && 0 <= c < hu.Length1 && c != km ==> hu[r, c] == old(hu[r, c])
    {
      FillVariable(hu, vars, i, km, tcol, snapshots, noisy);
    }
  }

  /**
   * The loop of _create_synthetic_observations: column km is generated when step ind[km] is reached. noisy is the truth
   * at a row and column plus the draw for that row and observation.
   */
  method FillColumns(ind: seq<int>, nt: nat, hu: array2<real>, vars: seq<Variable>, snapshots: set<int>,
                     noisy: (int, int, int) -> real, columns: int)
    requires hu.Length1 == |ind| && RowsApart(vars, hu.Length0)
    requires StrictlyIncreasing(ind) && forall i :: 0 <= i < |ind| ==> ind[i] >= 0
    modifies hu
    ensures forall c :: 0 <= c < |ind| && ind[c] < nt ==>
      ColumnHolds(hu, vars, |vars|, c, TruthColumn(ind[c], columns), snapshots, noisy)
    ensures forall r, c :: 0 <= r < hu.Length0 && 0 <= c < |ind| && ind[c] >= nt ==> hu[r, c] == old(hu[r, c])
  {
    var km := 0;
    NothingPassed(ind, 0);
    for step := 0 to nt
      invariant km == Passed(ind, step)
      invariant forall c :: 0 <= c < km ==>
        ColumnHolds(hu, vars, |vars|, c, TruthColumn(ind[c], columns), snapshots, noisy)
      invariant forall r, c :: 0 <= r < hu.Length0 && km <= c < |ind| ==> hu[r, c] == old(hu[r, c])
    {
      PassedStep(ind, step);
      PassedIsPrefix(ind, step);
      PassedIsPrefix(ind, step + 1);
      if km >= |ind| {
        PassedMonotone(ind, step, nt);
        break;
      }
      if step == ind[km] {
        var tcol := if step + 1 < columns then step + 1 else step;
        FillColumn(hu, vars, km, tcol, snapshots, noisy);
        km := km + 1;
      }
    }
    PassedIsPrefix(ind, nt);
  }
}
