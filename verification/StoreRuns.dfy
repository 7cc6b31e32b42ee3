/** Whole runs of the batched store against the plain nt x nd x nens array, and the forecast step that uses it. */
module StoreRuns {
  import opened Arith
  import opened Matrices
  import opened BatchStore
  import opened Rounds

  // ---- runs ----

  datatype Op =
    | ReadOp(t: nat, lo: nat, hi: nat, e: nat)
    | WriteOp(t: nat, lo: nat, data: seq<real>, e: nat)

  predicate Allowed(cfg: Config, op: Op)
  {
    && op.t < cfg.nt && op.e < cfg.nens
    && match op
       case ReadOp(_, lo, hi, _) => lo <= hi <= cfg.nd
       case WriteOp(_, lo, data, _) => lo + |data| <= cfg.nd
  }

  predicate AllAllowed(cfg: Config, run: seq<Op>) { forall i :: 0 <= i < |run| ==> Allowed(cfg, run[i]) }

  function Step(cfg: Config, s: State, op: Op): State
    requires cfg.batchSize > 0 && Allowed(cfg, op)
  {
    match op
    case ReadOp(t, _, _, _) => Ensured(cfg, s, t)
    case WriteOp(t, lo, data, e) => Written(cfg, s, t, lo, data, e)
  }

  function Initial(cfg: Config): State { State(Created(cfg, map[], 0, FileCount(cfg, 0)), 0) }

  /** The store after a run from a new object. */
  function Exec(cfg: Config, run: seq<Op>): State
    requires cfg.batchSize > 0 && AllAllowed(cfg, run)
  {
    if run == [] then Initial(cfg) else Step(cfg, Exec(cfg, run[..|run| - 1]), run[|run| - 1])
  }

  /** A cell of the array the store stands for; a file that was never created reads as zero. */
  function Cell(s: State, t: nat, row: nat, e: nat): real
  {
    if t in s.disk && e < |s.disk[t]| && row < |s.disk[t][e]| then s.disk[t][e][row] else 0.0
  }

  predicate Covers(op: Op, t: nat, row: nat, e: nat)
  {
    op.WriteOp? && op.t == t && op.e == e && op.lo <= row < op.lo + |op.data|
  }

  /** The plain array: the last value written to the cell, zero if none. */
  function LastWritten(run: seq<Op>, t: nat, row: nat, e: nat): real
  {
    if run == [] then 0.0
    else
      var op := run[|run| - 1];
      if Covers(op, t, row, e) then op.data[row - op.lo] else LastWritten(run[..|run| - 1], t, row, e)
  }

  /** The batch that is open after a run. */
  function OpenBatch(cfg: Config, run: seq<Op>): nat
    requires cfg.batchSize > 0
  {
    if run == [] then 0 else BatchOf(cfg, run[|run| - 1].t)
  }

  /** What the code keeps: the last value written since the batch of the cell was last opened. */
  function WrittenSinceOpened(cfg: Config, run: seq<Op>, t: nat, row: nat, e: nat): real
    requires cfg.batchSize > 0
  {
    if run == [] then 0.0
    else
      var op, before := run[|run| - 1], run[..|run| - 1];
      if Covers(op, t, row, e) then op.data[row - op.lo]
      else if BatchOf(cfg, op.t) == BatchOf(cfg, t) && OpenBatch(cfg, before) != BatchOf(cfg, t) then 0.0
      else WrittenSinceOpened(cfg, before, t, row, e)
  }

  lemma StepKeepsWellFormed(cfg: Config, s: State, op: Op)
    requires WellFormed(cfg, s) && Allowed(cfg, op)
    ensures WellFormed(cfg, Step(cfg, s, op)) && Step(cfg, s, op).start == BatchOf(cfg, op.t)
  {
    EnsuredWellFormed(cfg, s, op.t);
  }

  lemma {:induction false} ExecWellFormed(cfg: Config, run: seq<Op>)
    requires cfg.batchSize > 0 && AllAllowed(cfg, run)
    ensures WellFormed(cfg, Exec(cfg, run)) && Exec(cfg, run).start == OpenBatch(cfg, run)
    decreases |run|
  {
    if run == [] {
      InitialWellFormed(cfg);
    } else {
      ExecWellFormed(cfg, run[..|run| - 1]);
      StepKeepsWellFormed(cfg, Exec(cfg, run[..|run| - 1]), run[|run| - 1]);
    }
  }

  /** One operation: a covering write sets the cell, a batch switch clears the batch it opens, nothing else moves. */
  lemma StepCell(cfg: Config, s: State, op: Op, t: nat, row: nat, e: nat)
    requires WellFormed(cfg, s) && Allowed(cfg, op) && t < cfg.nt && row < cfg.nd && e < cfg.nens
    ensures Cell(Step(cfg, s, op), t, row, e) ==
      if Covers(op, t, row, e) then op.data[row - op.lo]
      else if BatchOf(cfg, op.t) == BatchOf(cfg, t) && s.start != BatchOf(cfg, t) then 0.0
      else Cell(s, t, row, e)
  {
    EnsuredWellFormed(cfg, s, op.t);
    BatchLaw(cfg, BatchOf(cfg, op.t), t);
    BatchLaw(cfg, BatchOf(cfg, op.t), op.t);
    CreatedFile(cfg, s.disk, BatchOf(cfg, op.t), FileCount(cfg, BatchOf(cfg, op.t)), t);
    var s' := Ensured(cfg, s, op.t);
    assert Cell(s', t, row, e) ==
      if BatchOf(cfg, op.t) == BatchOf(cfg, t) && s.start != BatchOf(cfg, t) then 0.0 else Cell(s, t, row, e);
    assert op.t in s'.disk && IsFile(cfg, s'.disk[op.t]);
  }

  /** On every run whatsoever, each cell holds the last value written since its batch was last opened. */
  lemma {:induction false} StoreKeepsWritesSinceOpened(cfg: Config, run: seq<Op>, t: nat, row: nat, e: nat)
    requires cfg.batchSize > 0 && AllAllowed(cfg, run) && t < cfg.nt && row < cfg.nd && e < cfg.nens
    ensures Cell(Exec(cfg, run), t, row, e) == WrittenSinceOpened(cfg, run, t, row, e)
    decreases |run|
  {
    if run == [] {
      CreatedFile(cfg, map[], 0, FileCount(cfg, 0), t);
    } else {
      var before := run[..|run| - 1];
      ExecWellFormed(cfg, before);
      StoreKeepsWritesSinceOpened(cfg, before, t, row, e);
      StepCell(cfg, Exec(cfg, before), run[|run| - 1], t, row, e);
    }
  }

  /** The run never returns to an earlier batch. */
  predicate Forward(cfg: Config, run: seq<Op>)
    requires cfg.batchSize > 0
  {
    forall i, j :: 0 <= i <= j < |run| ==> BatchOf(cfg, run[i].t) <= BatchOf(cfg, run[j].t)
  }

  lemma {:induction false} NothingWrittenAhead(cfg: Config, run: seq<Op>, t: nat, row: nat, e: nat)
    requires cfg.batchSize > 0 && forall i :: 0 <= i < |run| ==> BatchOf(cfg, run[i].t) < BatchOf(cfg, t)
    ensures LastWritten(run, t, row, e) == 0.0
    decreases |run|
  {
    if run != [] { NothingWrittenAhead(cfg, run[..|run| - 1], t, row, e); }
  }

  /** On a forward run nothing is lost. */
  lemma {:induction false} ForwardKeepsAll(cfg: Config, run: seq<Op>, t: nat, row: nat, e: nat)
    requires cfg.batchSize > 0 && Forward(cfg, run)
    ensures WrittenSinceOpened(cfg, run, t, row, e) == LastWritten(run, t, row, e)
    decreases |run|
  {
    if run != [] {
      var op, before := run[|run| - 1], run[..|run| - 1];
      ForwardKeepsAll(cfg, before, t, row, e);
      if BatchOf(cfg, op.t) == BatchOf(cfg, t) && OpenBatch(cfg, before) != BatchOf(cfg, t) && !Covers(op, t, row, e) {
        if before == [] {
          assert LastWritten(before, t, row, e) == 0.0;
        } else {
          assert before[|before| - 1] == run[|run| - 2];
          forall i | 0 <= i < |before| ensures BatchOf(cfg, before[i].t) < BatchOf(cfg, t) {
            assert before[i] == run[i];
          }
          NothingWrittenAhead(cfg, before, t, row, e);
        }
      }
    }
  }

  /**
   * Main result: on a forward run the store is the plain array. Every cell, in open and in closed batches,
   * holds the last value written to it, and a read at the end of the run returns exactly those values.
   */
  lemma ForwardRunRefinesArray(cfg: Config, run: seq<Op>)
    requires cfg.batchSize > 0 && AllAllowed(cfg, run) && Forward(cfg, run)
    ensures forall t: nat, row: nat, e: nat :: t < cfg.nt && row < cfg.nd && e < cfg.nens ==>
      Cell(Exec(cfg, run), t, row, e) == LastWritten(run, t, row, e)
  {
    forall t: nat, row: nat, e: nat | t < cfg.nt && row < cfg.nd && e < cfg.nens
      ensures Cell(Exec(cfg, run), t, row, e) == LastWritten(run, t, row, e)
    {
      StoreKeepsWritesSinceOpened(cfg, run, t, row, e);
      ForwardKeepsAll(cfg, run, t, row, e);
    }
  }

  /**
   * After a forward run, reading time t sees the array exactly when t's batch is not behind the open one or holds only
   * zeros.
   */
  lemma ReadSeesArrayIff(cfg: Config, run: seq<Op>, t: nat, row: nat, e: nat)
    requires cfg.batchSize > 0 && AllAllowed(cfg, run) && Forward(cfg, run)
    requires t < cfg.nt && row < cfg.nd && e < cfg.nens
    ensures Cell(Ensured(cfg, Exec(cfg, run), t), t, row, e) == LastWritten(run, t, row, e)
       <==> BatchOf(cfg, t) >= OpenBatch(cfg, run) || LastWritten(run, t, row, e) == 0.0
  {
    var read := ReadOp(t, 0, 0, e);
    ExecWellFormed(cfg, run);
    ForwardRunRefinesArray(cfg, run);
    StepCell(cfg, Exec(cfg, run), read, t, row, e);
    if BatchOf(cfg, t) > OpenBatch(cfg, run) && run != [] {
      forall i | 0 <= i < |run| ensures BatchOf(cfg, run[i].t) < BatchOf(cfg, t) {
        assert BatchOf(cfg, run[i].t) <= BatchOf(cfg, run[|run| - 1].t);
      }
      NothingWrittenAhead(cfg, run, t, row, e);
    }
  }

  /** The value a read returned is what the history of the run up to it says about each of its cells. */
  ghost predicate ReadIsCurrent(cfg: Config, before: seq<Op>, op: Op, value: seq<real>)
    requires op.ReadOp? && Allowed(cfg, op) && cfg.batchSize > 0
  {
    && |value| == op.hi - op.lo
    && forall row: nat :: op.lo <= row < op.hi ==>
         value[row - op.lo] == WrittenSinceOpened(cfg, before + [op], op.t, row, op.e)
  }

  lemma ReadValues(cfg: Config, before: seq<Op>, op: Op, value: seq<real>)
    requires cfg.batchSize > 0 && AllAllowed(cfg, before) && Allowed(cfg, op) && op.ReadOp?
    requires op.t in Exec(cfg, before + [op]).disk && IsFile(cfg, Exec(cfg, before + [op]).disk[op.t])
    requires value == Exec(cfg, before + [op]).disk[op.t][op.e][op.lo..op.hi]
    ensures ReadIsCurrent(cfg, before, op, value)
  {
    forall row: nat | op.lo <= row < op.hi
      ensures value[row - op.lo] == WrittenSinceOpened(cfg, before + [op], op.t, row, op.e)
    {
      StoreKeepsWritesSinceOpened(cfg, before + [op], op.t, row, op.e);
    }
  }

  /** One operation on a store object that has done a run before. */
  method ReplayOp(store: EnKFStore, ghost before: seq<Op>, op: Op) returns (value: seq<real>)
    requires store.Valid() && AllAllowed(store.cfg, before) && Allowed(store.cfg, op)
    requires store.Abs() == Exec(store.cfg, before)
    modifies store
    ensures store.Valid() && store.Abs() == Exec(store.cfg, before + [op])
    ensures op.ReadOp? ==> ReadIsCurrent(store.cfg, before, op, value)
  {
    assert (before + [op])[..|before|] == before;
    match op
    case ReadOp(t, lo, hi, e) =>
      var r := store.Read(t, lo, hi, e);
      value := r.value;
      ReadValues(store.cfg, before, op, value);
    case WriteOp(t, lo, data, e) =>
      var w := store.Write(t, lo, data, e);
      value := [];
  }

  /**
   * A whole run on a new store object, whatever files were found: it ends in the state of the run, and every read
   * returns the current values.
   */
  method Replay(cfg: Config, serial: bool, found: map<nat, File>, run: seq<Op>)
    returns (store: EnKFStore, values: seq<seq<real>>)
    requires cfg.batchSize > 0 && AllAllowed(cfg, run)
    ensures store.Valid() && store.cfg == cfg && store.Abs() == Exec(cfg, run)
    ensures |values| == |run|
    ensures forall i :: 0 <= i < |run| && run[i].ReadOp? ==> ReadIsCurrent(cfg, run[..i], run[i], values[i])
  {
    store := new EnKFStore(cfg, serial, found);
    values := [];
    for i := 0 to |run|
      invariant store.Valid() && store.cfg == cfg && fresh(store) && store.Abs() == Exec(cfg, run[..i])
      invariant |values| == i
      invariant forall j :: 0 <= j < i && run[j].ReadOp? ==> ReadIsCurrent(cfg, run[..j], run[j], values[j])
    {
      assert run[..i + 1] == run[..i] + [run[i]];
      var value := ReplayOp(store, run[..i], run[i]);
      values := values + [value];
    }
    assert run[..|run|] == run;
  }

  /** On a forward run a read returns the last values written, as a plain array would. */
  lemma ForwardReadSeesArray(cfg: Config, before: seq<Op>, op: Op, value: seq<real>)
    requires cfg.batchSize > 0 && op.ReadOp? && Allowed(cfg, op) && Forward(cfg, before + [op])
    requires ReadIsCurrent(cfg, before, op, value)
    ensures forall row: nat :: op.lo <= row < op.hi ==> value[row - op.lo] == LastWritten(before, op.t, row, op.e)
  {
    assert (before + [op])[..|before|] == before;
    forall row: nat | op.lo <= row < op.hi ensures value[row - op.lo] == LastWritten(before, op.t, row, op.e) {
      ForwardKeepsAll(cfg, before + [op], op.t, row, op.e);
    }
  }

  // ---- the full-parallel forecast step ----

  /** The time a forecast from step k is written to. */
  function NextTime(cfg: Config, k: nat): nat { if k + 1 < cfg.nt then k + 1 else k }

  ghost predicate IsForecast(cfg: Config, f: (nat, seq<real>) -> seq<real>)
  {
    forall e: nat, x: seq<real> :: |x| == cfg.nd ==> |f(e, x)| == cfg.nd
  }

  /** How many ranks have a member in a round that begins with member first. */
  function Active(cfg: Config, size: nat, first: nat): nat
    requires first < cfg.nens
  {
    if size <= cfg.nens - first then size else cfg.nens - first
  }

  /** Disk and open batch after a round wrote members first.. at time next. */
  ghost predicate RoundWritten(cfg: Config, s: State, s': State, next: nat, first: nat, values: seq<seq<real>>)
  {
    && s'.start == s.start && s'.disk.Keys == s.disk.Keys && next in s.disk
    && (forall t :: t in s.disk && t != next ==> s'.disk[t] == s.disk[t])
    && IsFile(cfg, s.disk[next]) && IsFile(cfg, s'.disk[next])
    && forall e :: 0 <= e < cfg.nens ==>
         s'.disk[next][e] == if first <= e < first + |values| then values[e - first] else s.disk[next][e]
  }

  /** The reading half of a round: rank r reads and forecasts member first + r. */
  method ReadRound(store: EnKFStore, k: nat, size: nat, first: nat, f: (nat, seq<real>) -> seq<real>)
    returns (values: seq<seq<real>>)
    requires store.Valid() && k < store.cfg.nt && IsForecast(store.cfg, f) && 0 < size && first < store.cfg.nens
    modifies store
    ensures store.Valid() && store.Abs() == Ensured(store.cfg, old(store.Abs()), k)
    ensures k in store.disk && IsFile(store.cfg, store.disk[k]) && |values| == Active(store.cfg, size, first)
    ensures forall i :: 0 <= i < |values| ==>
      values[i] == f(first + i, store.disk[k][first + i]) && |values[i]| == store.cfg.nd
  {
    var cfg := store.cfg;
    ghost var s := Ensured(cfg, store.Abs(), k);
    EnsuredWellFormed(cfg, store.Abs(), k);
    values := [];
    for rank := 0 to size
      invariant store.Valid() && store.Abs() == if rank == 0 then old(store.Abs()) else s
      invariant |values| == if rank <= Active(cfg, size, first) then rank else Active(cfg, size, first)
      invariant forall i :: 0 <= i < |values| ==>
        values[i] == f(first + i, s.disk[k][first + i]) && |values[i]| == cfg.nd
    {
      var id := first + rank;
      if id < cfg.nens {
        var r := store.Read(k, 0, cfg.nd, id);
        assert r.value == s.disk[k][id];
        values := values + [f(id, r.value)];
      }
    }
  }

  /** One more whole column written. */
  lemma WriteExtends(cfg: Config, s: State, before: State, next: nat, first: nat, done: seq<seq<real>>, v: seq<real>)
    requires cfg.batchSize > 0 && next < cfg.nt && first + |done| < cfg.nens && |v| == cfg.nd
    requires RoundWritten(cfg, s, Ensured(cfg, before, next), next, first, done)
    ensures RoundWritten(cfg, s, Written(cfg, before, next, 0, v, first + |done|), next, first, done + [v])
  {
    var mid := Ensured(cfg, before, next);
    var e := first + |done|;
    assert Patched(mid.disk[next][e], 0, v) == v;
  }

  method WriteMember(store: EnKFStore, ghost s: State, next: nat, first: nat, ghost done: seq<seq<real>>, e: nat,
                     v: seq<real>)
    requires store.Valid() && next < store.cfg.nt && e == first + |done| < store.cfg.nens && |v| == store.cfg.nd
    requires RoundWritten(store.cfg, s, Ensured(store.cfg, store.Abs(), next), next, first, done)
    modifies store
    ensures store.Valid() && Ensured(store.cfg, store.Abs(), next) == store.Abs()
    ensures RoundWritten(store.cfg, s, store.Abs(), next, first, done + [v])
  {
    WriteExtends(store.cfg, s, store.Abs(), next, first, done, v);
    EnsuredWellFormed(store.cfg, store.Abs(), next);
    var r := store.Write(next, 0, v, e);
  }

  /** The writing half: rank r writes what it forecast. */
  method WriteRound(store: EnKFStore, next: nat, size: nat, first: nat, values: seq<seq<real>>)
    requires store.Valid() && next < store.cfg.nt && 0 < size && first < store.cfg.nens
    requires |values| == Active(store.cfg, size, first) && forall i :: 0 <= i < |values| ==> |values[i]| == store.cfg.nd
    modifies store
    ensures store.Valid()
    ensures RoundWritten(store.cfg, Ensured(store.cfg, old(store.Abs()), next), store.Abs(), next, first, values)
  {
    ghost var s := Ensured(store.cfg, store.Abs(), next);
    EnsuredWellFormed(store.cfg, store.Abs(), next);
    ghost var done: seq<seq<real>> := [];
    for rank := 0 to size
      invariant store.Valid()
      invariant done == values[..if rank <= |values| then rank else |values|]
      invariant RoundWritten(store.cfg, s, Ensured(store.cfg, store.Abs(), next), next, first, done)
      invariant rank > 0 ==> Ensured(store.cfg, store.Abs(), next) == store.Abs()
    {
      if first + rank < store.cfg.nens {
        WriteMember(store, s, next, first, done, first + rank, values[rank]);
        done := done + [values[rank]];
      }
    }
    assert done == values;
  }

  /** What a round does to the state: members first.. forecast from the file at k as it is when the round reads it. */
  ghost predicate IsRound(cfg: Config, s: State, s': State, k: nat, next: nat, size: nat, first: nat,
                          f: (nat, seq<real>) -> seq<real>)
    requires cfg.batchSize > 0 && first < cfg.nens
  {
    var s1 := Ensured(cfg, s, k);
    && k in s1.disk && IsFile(cfg, s1.disk[k])
    && RoundWritten(cfg, Ensured(cfg, s1, next), s', next, first,
                    seq(Active(cfg, size, first),
                        i requires 0 <= i < Active(cfg, size, first) => f(first + i, s1.disk[k][first + i])))
  }

  /** A batch is created once, not once per rank: serial creation, or a single rank. */
  predicate OneCreator(store: EnKFStore, size: nat) { store.serial || size == 1 }

  /** One round: all ranks read and forecast their member at time k, then all write it at time next. */
  method ForecastRound(store: EnKFStore, k: nat, next: nat, size: nat, first: nat, f: (nat, seq<real>) -> seq<real>)
    requires store.Valid() && k < store.cfg.nt && next < store.cfg.nt && IsForecast(store.cfg, f)
    requires 0 < size && first < store.cfg.nens && OneCreator(store, size)
    modifies store
    ensures store.Valid() && IsRound(store.cfg, old(store.Abs()), store.Abs(), k, next, size, first, f)
  {
    var values := ReadRound(store, k, size, first, f);
    ghost var s1 := store.Abs();
    assert values == seq(Active(store.cfg, size, first),
                         i requires 0 <= i < Active(store.cfg, size, first) => f(first + i, s1.disk[k][first + i]));
    WriteRound(store, next, size, first, values);
  }

  /**
   * Between rounds: what is on disk once members below first have been forecast from state s0, which has the batch of k
   * open; the first read opens it if it is not.
   */
  ghost predicate Progress(cfg: Config, s0: State, s: State, k: nat, next: nat, size: nat, first: nat,
                           f: (nat, seq<real>) -> seq<real>)
    requires cfg.batchSize > 0
  {
    && WellFormed(cfg, s0) && WellFormed(cfg, s)
    && k in s0.disk && s0.start == BatchOf(cfg, k)
    && if first == 0 then Ensured(cfg, s, k) == s0
       else
         && next in s.disk && s.start == BatchOf(cfg, next)
         && if BatchOf(cfg, next) == s0.start then SameBatchProgress(cfg, s0, s, k, next, first, f)
            else if first <= size then CrossedOnce(cfg, s0, s, k, next, first, f)
            else CrossedAgain(cfg, s0, s, k, next, first - size, first, f)
  }

  /** Inside one batch: the forecast members are in place, every other file is untouched. */
  ghost predicate SameBatchProgress(cfg: Config, s0: State, s: State, k: nat, next: nat, done: nat,
                                    f: (nat, seq<real>) -> seq<real>)
  {
    && k in s0.disk && next in s0.disk && next in s.disk && s.disk.Keys == s0.disk.Keys
    && IsFile(cfg, s0.disk[k]) && IsFile(cfg, s0.disk[next]) && IsFile(cfg, s.disk[next])
    && (forall t :: t in s0.disk && t != next ==> s.disk[t] == s0.disk[t])
    && forall e :: 0 <= e < cfg.nens ==> s.disk[next][e] == if e < done then f(e, s0.disk[k][e]) else s0.disk[next][e]
  }

  /** Across a batch boundary after one round: that round is in place and the old batch still intact. */
  ghost predicate CrossedOnce(cfg: Config, s0: State, s: State, k: nat, next: nat, done: nat,
                              f: (nat, seq<real>) -> seq<real>)
    requires cfg.batchSize > 0
  {
    && k in s0.disk && next in s.disk && IsFile(cfg, s0.disk[k]) && IsFile(cfg, s.disk[next])
    && (forall t :: t in s0.disk && BatchOf(cfg, t) != BatchOf(cfg, next) ==> t in s.disk && s.disk[t] == s0.disk[t])
    && forall e :: 0 <= e < cfg.nens ==> s.disk[next][e] == if e < done then f(e, s0.disk[k][e]) else Zeros(cfg.nd)
  }

  /** Files outside the batches of k and next are as they were. */
  ghost predicate OthersKept(cfg: Config, s0: State, s: State, k: nat, next: nat)
    requires cfg.batchSize > 0
  {
    forall t :: t in s0.disk && BatchOf(cfg, t) != BatchOf(cfg, k) && BatchOf(cfg, t) != BatchOf(cfg, next) ==>
      t in s.disk && s.disk[t] == s0.disk[t]
  }

  /**
   * Across a batch boundary after a later round: the old batch is erased and only the latest round is left, forecast
   * from zeros.
   */
  ghost predicate CrossedAgain(cfg: Config, s0: State, s: State, k: nat, next: nat, from: nat, done: nat,
                               f: (nat, seq<real>) -> seq<real>)
    requires cfg.batchSize > 0
  {
    && next in s.disk && IsFile(cfg, s.disk[next])
    && OthersKept(cfg, s0, s, k, next)
    && (forall t: nat :: t < cfg.nt && BatchOf(cfg, t) == BatchOf(cfg, k) ==>
          t in s.disk && s.disk[t] == EmptyFile(cfg))
    && forall e :: 0 <= e < cfg.nens ==>
         s.disk[next][e] == if from <= e < done then f(e, Zeros(cfg.nd)) else Zeros(cfg.nd)
  }

  lemma RoundWellFormed(cfg: Config, s: State, s': State, k: nat, next: nat, size: nat, first: nat,
                        f: (nat, seq<real>) -> seq<real>)
    requires WellFormed(cfg, s) && k < cfg.nt && next < cfg.nt && first < cfg.nens
    requires IsRound(cfg, s, s', k, next, size, first, f)
    ensures WellFormed(cfg, s') && s'.start == BatchOf(cfg, next) && next in s'.disk
  {
    EnsuredWellFormed(cfg, s, k);
    EnsuredWellFormed(cfg, Ensured(cfg, s, k), next);
    var s2 := Ensured(cfg, Ensured(cfg, s, k), next);
    forall t | t in s'.disk ensures IsFile(cfg, s'.disk[t]) {
      if t != next { assert s'.disk[t] == s2.disk[t]; }
    }
  }

  lemma RoundInBatch(cfg: Config, s0: State, s: State, s': State, k: nat, next: nat, size: nat, first: nat,
                     f: (nat, seq<real>) -> seq<real>)
    requires cfg.batchSize > 0 && k < cfg.nt && next < cfg.nt && 0 < size && first < cfg.nens
    requires Progress(cfg, s0, s, k, next, size, first, f) && IsRound(cfg, s, s', k, next, size, first, f)
    requires BatchOf(cfg, next) == s0.start
    ensures SameBatchProgress(cfg, s0, s', k, next, first + size, f)
  {
    assert Ensured(cfg, s, k) == if first == 0 then s0 else s;
    assert Ensured(cfg, Ensured(cfg, s, k), next) == Ensured(cfg, s, k);
    BatchLaw(cfg, s0.start, next);
  }

  predicate Cleared(cfg: Config, u: nat, t: nat)
    requires cfg.batchSize > 0
  {
    t < cfg.nt && BatchOf(cfg, t) == BatchOf(cfg, u)
  }

  lemma InBatchIsCleared(cfg: Config, u: nat, t: nat)
    requires cfg.batchSize > 0
    ensures InBatch(cfg, BatchOf(cfg, u), t) <==> Cleared(cfg, u, t)
  {
    BatchLaw(cfg, 0, u);
    BatchLaw(cfg, BatchOf(cfg, u), t);
  }

  /** Switching to another batch clears exactly the files of that batch. */
  lemma SwitchClears(cfg: Config, s: State, u: nat)
    requires cfg.batchSize > 0 && s.start != BatchOf(cfg, u)
    ensures var d := Ensured(cfg, s, u).disk;
            && (forall t: nat :: Cleared(cfg, u, t) ==> t in d && d[t] == EmptyFile(cfg))
            && (forall t: nat :: t in s.disk && !Cleared(cfg, u, t) ==> t in d && d[t] == s.disk[t])
  {
    forall t: nat
      ensures var d := Ensured(cfg, s, u).disk;
              if Cleared(cfg, u, t) then t in d && d[t] == EmptyFile(cfg)
              else t in s.disk ==> t in d && d[t] == s.disk[t]
    {
      InBatchIsCleared(cfg, u, t);
      CreatedFile(cfg, s.disk, BatchOf(cfg, u), FileCount(cfg, BatchOf(cfg, u)), t);
    }
  }

  lemma RoundCrossesFirst(cfg: Config, s0: State, s': State, k: nat, next: nat, size: nat,
                          f: (nat, seq<real>) -> seq<real>)
    requires WellFormed(cfg, s0) && k in s0.disk && s0.start == BatchOf(cfg, k)
    requires k < cfg.nt && next < cfg.nt && 0 < size && 0 < cfg.nens
    requires IsRound(cfg, s0, s', k, next, size, 0, f) && BatchOf(cfg, next) != s0.start
    ensures CrossedOnce(cfg, s0, s', k, next, size, f)
  {
    assert Ensured(cfg, s0, k) == s0;
    SwitchClears(cfg, s0, next);
    var s2 := Ensured(cfg, s0, next);
    assert Cleared(cfg, next, next) && s2.disk[next] == EmptyFile(cfg);
    forall t | t in s0.disk && BatchOf(cfg, t) != BatchOf(cfg, next) ensures t in s'.disk && s'.disk[t] == s0.disk[t] {
      assert !Cleared(cfg, next, t);
    }
  }

  /** Going back to the batch of k and on to that of next empties both and touches nothing else. */
  lemma BackAndForth(cfg: Config, s: State, k: nat, next: nat)
    requires WellFormed(cfg, s) && s.start == BatchOf(cfg, next) && BatchOf(cfg, next) != BatchOf(cfg, k)
    requires k < cfg.nt && next < cfg.nt
    ensures var s1 := Ensured(cfg, s, k);
            var d := Ensured(cfg, s1, next).disk;
            && k in s1.disk && s1.disk[k] == EmptyFile(cfg) && next in d && d[next] == EmptyFile(cfg)
            && (forall t: nat :: t < cfg.nt && BatchOf(cfg, t) == BatchOf(cfg, k) ==> t in d && d[t] == EmptyFile(cfg))
            && OthersKept(cfg, s, Ensured(cfg, s1, next), k, next)
  {
    var s1 := Ensured(cfg, s, k);
    SwitchClears(cfg, s, k);
    EnsuredWellFormed(cfg, s, k);
    SwitchClears(cfg, s1, next);
    var d := Ensured(cfg, s1, next).disk;
    assert Cleared(cfg, k, k) && Cleared(cfg, next, next);
    forall t: nat | t < cfg.nt && BatchOf(cfg, t) == BatchOf(cfg, k) ensures t in d && d[t] == EmptyFile(cfg) {
      assert Cleared(cfg, k, t) && !Cleared(cfg, next, t);
    }
    forall t | t in s.disk && BatchOf(cfg, t) != BatchOf(cfg, k) && BatchOf(cfg, t) != BatchOf(cfg, next)
      ensures t in d && d[t] == s.disk[t]
    {
      assert !Cleared(cfg, k, t) && !Cleared(cfg, next, t);
    }
  }

  lemma RoundCrossesAgain(cfg: Config, s0: State, s: State, s': State, k: nat, next: nat, size: nat, first: nat,
                          f: (nat, seq<real>) -> seq<real>)
    requires WellFormed(cfg, s) && s.start == BatchOf(cfg, next) && BatchOf(cfg, next) != BatchOf(cfg, k)
    requires k < cfg.nt && next < cfg.nt && 0 < size && first < cfg.nens
    requires IsRound(cfg, s, s', k, next, size, first, f) && OthersKept(cfg, s0, s, k, next)
    ensures CrossedAgain(cfg, s0, s', k, next, first, first + size, f)
  {
    BackAndForth(cfg, s, k, next);
  }

  lemma RoundProgress(cfg: Config, s0: State, s: State, s': State, k: nat, next: nat, size: nat, first: nat,
                      f: (nat, seq<real>) -> seq<real>)
    requires cfg.batchSize > 0 && k < cfg.nt && next < cfg.nt && 0 < size && first < cfg.nens
    requires (first == 0 || first >= size)
    requires Progress(cfg, s0, s, k, next, size, first, f) && IsRound(cfg, s, s', k, next, size, first, f)
    ensures Progress(cfg, s0, s', k, next, size, first + size, f)
  {
    RoundWellFormed(cfg, s, s', k, next, size, first, f);
    if BatchOf(cfg, next) == s0.start {
      RoundInBatch(cfg, s0, s, s', k, next, size, first, f);
    } else if first == 0 {
      assert Ensured(cfg, s0, k) == s0;
      RoundCrossesFirst(cfg, s0, s', k, next, size, f);
    } else {
      RoundCrossesAgain(cfg, s0, s, s', k, next, size, first, f);
    }
  }

  /** First member of the last round. */
  function LastFirst(cfg: Config, size: nat): nat
    requires size > 0
  {
    var n := RoundCount(cfg.nens, size);
    if n == 0 then 0 else (n - 1) * size
  }

  /** Before round number round, whose first member is first. */
  ghost predicate BeforeRound(cfg: Config, s0: State, s: State, k: nat, size: nat, round: nat, first: nat,
                              f: (nat, seq<real>) -> seq<real>)
    requires cfg.batchSize > 0
  {
    first == round * size && Progress(cfg, s0, s, k, NextTime(cfg, k), size, first, f)
  }

  lemma RoundHandsOver(cfg: Config, s0: State, s: State, s': State, k: nat, size: nat, round: nat, first: nat,
                       f: (nat, seq<real>) -> seq<real>)
    requires cfg.batchSize > 0 && k < cfg.nt && 0 < size <= cfg.nens && round < RoundCount(cfg.nens, size)
    requires BeforeRound(cfg, s0, s, k, size, round, first, f) && first < cfg.nens
    requires IsRound(cfg, s, s', k, NextTime(cfg, k), size, first, f)
    ensures BeforeRound(cfg, s0, s', k, size, round + 1, first + size, f)
  {
    FirstOfRound(cfg, size, round);
    RoundProgress(cfg, s0, s, s', k, NextTime(cfg, k), size, first, f);
  }

  /** One turn of the round loop. */
  method RoundTurn(store: EnKFStore, ghost s0: State, k: nat, next: nat, size: nat, round: nat, first: nat,
                   f: (nat, seq<real>) -> seq<real>)
    requires store.Valid() && k < store.cfg.nt && next == NextTime(store.cfg, k) && IsForecast(store.cfg, f)
    requires 0 < size <= store.cfg.nens && round < RoundCount(store.cfg.nens, size) && OneCreator(store, size)
    requires BeforeRound(store.cfg, s0, store.Abs(), k, size, round, first, f)
    modifies store
    ensures store.Valid() && BeforeRound(store.cfg, s0, store.Abs(), k, size, round + 1, first + size, f)
  {
    ghost var s := store.Abs();
    FirstOfRound(store.cfg, size, round);
    ForecastRound(store, k, next, size, first, f);
    RoundHandsOver(store.cfg, s0, s, store.Abs(), k, size, round, first, f);
  }

  /**
   * Every member's forecast arrives, and history is kept, when the step stays in its batch or needs one round only;
   * otherwise the old batch is erased and all that is left of the step is the last round, forecast from zeros.
   */
  ghost predicate StepOutcome(cfg: Config, s0: State, s: State, k: nat, size: nat, f: (nat, seq<real>) -> seq<real>)
    requires cfg.batchSize > 0 && size > 0
  {
    var next := NextTime(cfg, k);
    && WellFormed(cfg, s) && s.start == BatchOf(cfg, next)
    && if BatchOf(cfg, next) == BatchOf(cfg, k) then SameBatchProgress(cfg, s0, s, k, next, cfg.nens, f)
       else if RoundCount(cfg.nens, size) == 1 then CrossedOnce(cfg, s0, s, k, next, cfg.nens, f)
       else CrossedAgain(cfg, s0, s, k, next, LastFirst(cfg, size), cfg.nens, f)
  }

  lemma ProgressEnds(cfg: Config, s0: State, s: State, k: nat, size: nat, first: nat, f: (nat, seq<real>) -> seq<real>)
    requires cfg.batchSize > 0 && 0 < size <= cfg.nens <= first && first == LastFirst(cfg, size) + size
    requires first <= size <==> RoundCount(cfg.nens, size) == 1
    requires Progress(cfg, s0, s, k, NextTime(cfg, k), size, first, f)
    ensures StepOutcome(cfg, s0, s, k, size, f)
  {
  }

  lemma RoundsEnd(cfg: Config, s0: State, s: State, k: nat, size: nat, first: nat, f: (nat, seq<real>) -> seq<real>)
    requires cfg.batchSize > 0 && 0 < size <= cfg.nens
    requires BeforeRound(cfg, s0, s, k, size, RoundCount(cfg.nens, size), first, f)
    ensures StepOutcome(cfg, s0, s, k, size, f)
  {
    RoundsSuffice(cfg.nens, size, 0);
    FirstOfRound(cfg, size, RoundCount(cfg.nens, size) - 1);
    ProgressEnds(cfg, s0, s, k, size, first, f);
  }

  lemma RoundsBegin(cfg: Config, s: State, k: nat, size: nat, f: (nat, seq<real>) -> seq<real>)
    requires WellFormed(cfg, s) && k < cfg.nt
    ensures BeforeRound(cfg, Ensured(cfg, s, k), s, k, size, 0, 0, f)
  {
    EnsuredWellFormed(cfg, s, k);
  }

  /**
   * The full-parallel forecast step from time k, for at least as many members as ranks. Its outcome is that of the
   * state with the batch of k open: if it was not, reading k opens it, and clears it.
   */
  method FullParallelForecast(store: EnKFStore, k: nat, size: nat, f: (nat, seq<real>) -> seq<real>)
    requires store.Valid() && k < store.cfg.nt && IsForecast(store.cfg, f) && 0 < size <= store.cfg.nens
    requires OneCreator(store, size)
    modifies store
    ensures store.Valid()
    ensures StepOutcome(store.cfg, Ensured(store.cfg, old(store.Abs()), k), store.Abs(), k, size, f)
  {
    ghost var s0 := Ensured(store.cfg, store.Abs(), k);
    RoundsBegin(store.cfg, store.Abs(), k, size, f);
    var next := if k < store.cfg.nt - 1 then k + 1 else k;
    var rounds := RoundCount(store.cfg.nens, size);
    var first := 0;
    for round := 0 to rounds
      invariant store.Valid() && BeforeRound(store.cfg, s0, store.Abs(), k, size, round, first, f)
    {
      RoundTurn(store, s0, k, next, size, round, first, f);
      first := first + size;
    }
    RoundsEnd(store.cfg, s0, store.Abs(), k, size, first, f);
  }

  lemma FirstOfRound(cfg: Config, size: nat, round: nat)
    requires 0 < size <= cfg.nens && round < RoundCount(cfg.nens, size)
    ensures round * size < cfg.nens && (round == 0 || round * size >= size)
    ensures (round + 1) * size == round * size + size
    ensures round + 1 == RoundCount(cfg.nens, size) ==>
      cfg.nens <= round * size + size && round * size == LastFirst(cfg, size)
    ensures round == 0 <==> round * size == 0
  {
    var n := RoundCount(cfg.nens, size);
    assert cfg.nens + size - 1 == n * size + (cfg.nens + size - 1) % size;
    MulMono(round + 1, n, size);
    MulMono(round, round + 1, size);
    MulMono(1, round, size);
  }

  /**
   * The first member's forecast arrives exactly when the step stays in its batch, needs one round, or forecasts zero
   * anyway.
   */
  lemma ForecastArrivesIff(cfg: Config, s0: State, s: State, k: nat, size: nat, f: (nat, seq<real>) -> seq<real>)
    requires WellFormed(cfg, s0) && k in s0.disk && 0 < size <= cfg.nens
    requires StepOutcome(cfg, s0, s, k, size, f)
    ensures var next := NextTime(cfg, k);
            && next in s.disk && IsFile(cfg, s.disk[next]) && IsFile(cfg, s0.disk[k])
            && (s.disk[next][0] == f(0, s0.disk[k][0]) <==>
                 || BatchOf(cfg, next) == BatchOf(cfg, k) || RoundCount(cfg.nens, size) == 1
                 || f(0, s0.disk[k][0]) == Zeros(cfg.nd))
  {
    RoundsSuffice(cfg.nens, size, 0);
    FirstOfRound(cfg, size, RoundCount(cfg.nens, size) - 1);
  }

  /** A new store object has nothing but zeros, whatever files an earlier run left. */
  lemma NewStoreIsEmpty(cfg: Config, t: nat, row: nat, e: nat)
    requires cfg.batchSize > 0 && t < cfg.nt && row < cfg.nd && e < cfg.nens
    ensures Cell(Initial(cfg), t, row, e) == 0.0
  {
    CreatedFile(cfg, map[], 0, FileCount(cfg, 0), t);
  }

  // ---- a launch and its first forecast ----

  /** Initialising the ensemble, if it happens, only writes at time 0. */
  predicate AtTimeZero(run: seq<Op>) { forall i :: 0 <= i < |run| ==> run[i].t == 0 }

  lemma {:induction false} OnlyTimeZeroWritten(run: seq<Op>, t: nat, row: nat, e: nat)
    requires AtTimeZero(run) && t > 0
    ensures LastWritten(run, t, row, e) == 0.0
    decreases |run|
  {
    if run != [] { OnlyTimeZeroWritten(run[..|run| - 1], t, row, e); }
  }

  /** After a launch, the file of a step k > 0 is empty when the run first reads it, whatever ran before the launch. */
  lemma LaunchedFileIsEmpty(cfg: Config, init: seq<Op>, k: nat)
    requires cfg.batchSize > 0 && AllAllowed(cfg, init) && AtTimeZero(init) && 0 < k < cfg.nt
    ensures var d := Ensured(cfg, Exec(cfg, init), k).disk; k in d && d[k] == EmptyFile(cfg)
  {
    ExecWellFormed(cfg, init);
    EnsuredWellFormed(cfg, Exec(cfg, init), k);
    var file := Ensured(cfg, Exec(cfg, init), k).disk[k];
    forall e | 0 <= e < cfg.nens ensures file[e] == Zeros(cfg.nd) {
      forall row | 0 <= row < cfg.nd ensures file[e][row] == 0.0 { LaunchedCell(cfg, init, k, row, e); }
    }
  }

  lemma LaunchedCell(cfg: Config, init: seq<Op>, k: nat, row: nat, e: nat)
    requires cfg.batchSize > 0 && AllAllowed(cfg, init) && AtTimeZero(init) && 0 < k < cfg.nt && row < cfg.nd
    requires e < cfg.nens
    ensures Cell(Ensured(cfg, Exec(cfg, init), k), k, row, e) == 0.0
  {
    ReadSeesArrayIff(cfg, init, k, row, e);
    OnlyTimeZeroWritten(init, k, row, e);
  }

  /**
   * The first forecast of a process that starts at a step k > 0 forecasts zeros: for every member when the step stays
   * in its batch or needs one round, otherwise for the members of the last round, and nothing else arrives.
   */
  lemma FirstForecastAfterLaunch(cfg: Config, init: seq<Op>, s: State, k: nat, size: nat,
                                 f: (nat, seq<real>) -> seq<real>)
    requires cfg.batchSize > 0 && AllAllowed(cfg, init) && AtTimeZero(init) && 0 < k < cfg.nt && 0 < size <= cfg.nens
    requires StepOutcome(cfg, Ensured(cfg, Exec(cfg, init), k), s, k, size, f)
    ensures var next := NextTime(cfg, k);
            && next in s.disk && IsFile(cfg, s.disk[next])
            && var arrives := (e: int) =>
                 BatchOf(cfg, next) == BatchOf(cfg, k) || RoundCount(cfg.nens, size) == 1 || e >= LastFirst(cfg, size);
               forall e :: 0 <= e < cfg.nens ==>
                 s.disk[next][e] == if arrives(e) then f(e, Zeros(cfg.nd)) else Zeros(cfg.nd)
  {
    LaunchedFileIsEmpty(cfg, init, k);
  }

  // ---- parallel creation on one-rank communicators ----

  /**
   * Rank rank writes a member's column of a file; if it had not opened the file's batch yet, it truncates the file
   * first.
   */
  datatype RankWrite = RankWrite(rank: nat, e: nat, column: seq<real>)

  predicate Opened(ops: seq<RankWrite>, rank: nat) { exists i :: 0 <= i < |ops| && ops[i].rank == rank }

  function SharedFile(cfg: Config, ops: seq<RankWrite>): (file: File)
    requires forall i :: 0 <= i < |ops| ==> ops[i].e < cfg.nens
    ensures |file| == cfg.nens
  {
    if ops == [] then EmptyFile(cfg)
    else
      var op, before := ops[|ops| - 1], ops[..|ops| - 1];
      (if Opened(before, op.rank) then SharedFile(cfg, before) else EmptyFile(cfg))[op.e := op.column]
  }

  /** After write i some rank reaches the batch for the first time. */
  predicate OpenedLater(ops: seq<RankWrite>, i: nat)
  {
    exists j :: i < j < |ops| && !Opened(ops[..j], ops[j].rank)
  }

  lemma OpenedLaterStep(ops: seq<RankWrite>, i: nat)
    requires i < |ops| - 1
    ensures var before := ops[..|ops| - 1];
            OpenedLater(ops, i) <==> OpenedLater(before, i) || !Opened(before, ops[|ops| - 1].rank)
  {
    var n := |ops| - 1;
    assert forall j :: 0 <= j < n ==> ops[..n][..j] == ops[..j] && ops[..n][j] == ops[j];
  }

  /** Over any interleaving, a member's last column survives exactly until another rank first reaches the batch. */
  lemma {:induction false} LateOpeningErases(cfg: Config, ops: seq<RankWrite>, i: nat)
    requires forall j :: 0 <= j < |ops| ==> ops[j].e < cfg.nens
    requires i < |ops| && forall j :: i < j < |ops| ==> ops[j].e != ops[i].e
    ensures SharedFile(cfg, ops)[ops[i].e] == if OpenedLater(ops, i) then Zeros(cfg.nd) else ops[i].column
    decreases |ops|
  {
    if i < |ops| - 1 {
      LateOpeningErases(cfg, ops[..|ops| - 1], i);
      OpenedLaterStep(ops, i);
    }
  }

  /** Hence of the ranks that enter a new batch with one member each, only the last one's member is left. */
  lemma OneRoundKeepsLastOnly(cfg: Config, ops: seq<RankWrite>, i: nat)
    requires forall j :: 0 <= j < |ops| ==> ops[j].e < cfg.nens
    requires forall j, l :: 0 <= j < l < |ops| ==> ops[j].rank != ops[l].rank && ops[j].e != ops[l].e
    requires i < |ops|
    ensures SharedFile(cfg, ops)[ops[i].e] == if i == |ops| - 1 then ops[i].column else Zeros(cfg.nd)
  {
    LateOpeningErases(cfg, ops, i);
    if i < |ops| - 1 { assert !Opened(ops[..i + 1], ops[i + 1].rank); }
  }
}
