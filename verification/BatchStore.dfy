/** The batched per-timestep store: a sliding window of open files over the time axis. */
module BatchStore {
  import opened Arith
  import opened Outcomes
  import opened Matrices

  /** A dataset of nens columns of nd values, one file per time index. */
  type File = seq<seq<real>>

  datatype Config = Config(nd: nat, nens: nat, nt: nat, batchSize: nat)

  /** A newly created dataset reads as zero everywhere. */
  function EmptyFile(cfg: Config): File { seq(cfg.nens, e => Zeros(cfg.nd)) }

  predicate IsFile(cfg: Config, f: File) { |f| == cfg.nens && forall e :: 0 <= e < |f| ==> |f[e]| == cfg.nd }

  function BatchOf(cfg: Config, t: nat): nat
    requires cfg.batchSize > 0
  {
    t / cfg.batchSize * cfg.batchSize
  }

  function FileCount(cfg: Config, start: nat): nat
  {
    if start >= cfg.nt then 0 else if cfg.nt - start < cfg.batchSize then cfg.nt - start else cfg.batchSize
  }

  /** The times of the batch that begins at start: start .. min(start + batchSize, nt) - 1. */
  function BatchTimes(cfg: Config, start: nat): (ts: seq<nat>)
    ensures |ts| == FileCount(cfg, start) && forall i :: 0 <= i < |ts| ==> ts[i] == start + i
  {
    seq(FileCount(cfg, start), i => start + i)
  }

  predicate InBatch(cfg: Config, start: nat, t: nat) { start <= t < start + FileCount(cfg, start) }

  /** What is on disk, and which batch is open. */
  datatype State = State(disk: map<nat, File>, start: nat)

  /** The disk after creating n files from start on, truncating any that exist. */
  function Created(cfg: Config, disk: map<nat, File>, start: nat, n: nat): map<nat, File>
  {
    if n == 0 then disk else Created(cfg, disk, start, n - 1)[start + n - 1 := EmptyFile(cfg)]
  }

  lemma {:induction false} CreatedFile(cfg: Config, disk: map<nat, File>, start: nat, n: nat, t: nat)
    ensures var d := Created(cfg, disk, start, n);
            if start <= t < start + n then t in d && d[t] == EmptyFile(cfg)
            else (t in d <==> t in disk) && (t in d ==> d[t] == disk[t])
    decreases n
  {
    if n > 0 { CreatedFile(cfg, disk, start, n - 1, t); }
  }

  /** Switching to the batch of t, if it is not the open one. */
  function Ensured(cfg: Config, s: State, t: nat): State
    requires cfg.batchSize > 0
  {
    var b := BatchOf(cfg, t);
    if b == s.start then s else State(Created(cfg, s.disk, b, FileCount(cfg, b)), b)
  }

  ghost predicate WellFormed(cfg: Config, s: State)
  {
    && cfg.batchSize > 0 && BatchOf(cfg, s.start) == s.start
    && (forall t :: t in s.disk ==> IsFile(cfg, s.disk[t]))
    && (forall t :: InBatch(cfg, s.start, t) ==> t in s.disk)
  }

  /** Time t is in the batch that begins at start exactly when start is its batch and t is below nt. */
  lemma BatchLaw(cfg: Config, start: nat, t: nat)
    requires cfg.batchSize > 0 && BatchOf(cfg, start) == start
    ensures InBatch(cfg, start, t) <==> BatchOf(cfg, t) == start && t < cfg.nt
    ensures BatchOf(cfg, BatchOf(cfg, t)) == BatchOf(cfg, t) <= t
  {
    FloorBounds(t, cfg.batchSize);
    BlockOf(t, cfg.batchSize, start);
  }

  lemma EnsuredWellFormed(cfg: Config, s: State, t: nat)
    requires WellFormed(cfg, s)
    ensures WellFormed(cfg, Ensured(cfg, s, t)) && Ensured(cfg, s, t).start == BatchOf(cfg, t) <= t
    ensures InBatch(cfg, BatchOf(cfg, t), t) <==> t < cfg.nt
  {
    BatchLaw(cfg, s.start, t);
    BatchLaw(cfg, BatchOf(cfg, t), t);
    var b := BatchOf(cfg, t);
    forall u: nat ensures var d := Created(cfg, s.disk, b, FileCount(cfg, b));
                          (InBatch(cfg, b, u) ==> u in d) && (u in d ==> IsFile(cfg, d[u]))
    {
      CreatedFile(cfg, s.disk, b, FileCount(cfg, b), u);
    }
  }

  lemma InitialWellFormed(cfg: Config)
    requires cfg.batchSize > 0
    ensures WellFormed(cfg, State(Created(cfg, map[], 0, FileCount(cfg, 0)), 0))
  {
    forall t: nat ensures var d := Created(cfg, map[], 0, FileCount(cfg, 0));
                          (InBatch(cfg, 0, t) ==> t in d) && (t in d ==> IsFile(cfg, d[t]))
    {
      CreatedFile(cfg, map[], 0, FileCount(cfg, 0), t);
    }
  }

  function Written(cfg: Config, s: State, t: nat, lo: nat, data: seq<real>, e: nat): State
    requires cfg.batchSize > 0 && lo + |data| <= cfg.nd && e < cfg.nens
  {
    var s' := Ensured(cfg, s, t);
    if t < cfg.nt && t in s'.disk && IsFile(cfg, s'.disk[t]) then
      s'.(disk := s'.disk[t := s'.disk[t][e := Patched(s'.disk[t][e], lo, data)]])
    else s'
  }

  class EnKFStore {
    const cfg: Config
    const serial: bool
    var disk: map<nat, File>
    /** Time index of each open handle; files and datasets are parallel lists. */
    var files: seq<nat>
    var currentBatchStart: int

    ghost predicate Valid()
      reads this
    {
      currentBatchStart >= 0 && WellFormed(cfg, Abs()) && files == BatchTimes(cfg, currentBatchStart)
    }

    ghost function Abs(): State
      reads this
      requires currentBatchStart >= 0
    {
      State(disk, currentBatchStart)
    }

    /** The step files found in the directory are deleted, then the first batch is created. */
    constructor (cfg: Config, serial: bool, found: map<nat, File>)
      requires cfg.batchSize > 0
      ensures Valid() && this.cfg == cfg && this.serial == serial
      ensures Abs() == State(Created(cfg, map[], 0, FileCount(cfg, 0)), 0)
    {
      this.cfg := cfg;
      this.serial := serial;
      disk := found;
      files := [];
      currentBatchStart := -1;
      new;
      disk := disk - found.Keys;
      assert disk == map[];
      CreateBatch(0);
      InitialWellFormed(cfg);
    }

    method CloseBatch()
      modifies `files
      ensures files == []
    {
      files := [];
    }

    /**
     * _create_batch_serial: one rank creates the files before any rank opens them. _create_batch_parallel does the same
     * collectively when there are fewer members than ranks; on one-rank communicators every rank truncates the files
     * when it gets there, which is not this method.
     */
    method CreateBatch(tStart: nat)
      modifies this
      ensures currentBatchStart == tStart && files == BatchTimes(cfg, tStart)
      ensures disk == Created(cfg, old(disk), tStart, FileCount(cfg, tStart))
    {
      CloseBatch();
      currentBatchStart := tStart;
      if serial && tStart >= cfg.nt {
        return;
      }
      ghost var was := disk;
      for i := 0 to FileCount(cfg, tStart)
        invariant disk == Created(cfg, was, tStart, i) && currentBatchStart == tStart
        invariant |files| == i && forall j :: 0 <= j < i ==> files[j] == tStart + j
      {
        disk := disk[tStart + i := EmptyFile(cfg)];
        files := files + [tStart + i];
      }
    }

    method EnsureBatch(t: nat)
      requires Valid()
      modifies this
      ensures Valid() && Abs() == Ensured(cfg, old(Abs()), t)
    {
      EnsuredWellFormed(cfg, Abs(), t);
      var batchStart := t / cfg.batchSize * cfg.batchSize;
      if batchStart != currentBatchStart {
        CreateBatch(batchStart);
      }
    }

    /** read_forecast and read_analysis: rows lo..hi of member e at time t; an unknown time is an index error. */
    method Read(t: nat, lo: nat, hi: nat, e: nat) returns (r: Result<seq<real>>)
      requires Valid() && lo <= hi <= cfg.nd && e < cfg.nens
      modifies this
      ensures Valid() && Abs() == Ensured(cfg, old(Abs()), t)
      ensures r.Ok? <==> t < cfg.nt
      ensures r.Ok? ==> t in disk && IsFile(cfg, disk[t]) && r.value == disk[t][e][lo..hi]
    {
      EnsuredWellFormed(cfg, Abs(), t);
      EnsureBatch(t);
      var batchIdx := t - currentBatchStart;
      if batchIdx >= |files| { return Err("list index out of range"); }
      return Ok(disk[files[batchIdx]][e][lo..hi]);
    }

    /** write_forecast and write_analysis: rows lo.. of member e at time t. */
    method Write(t: nat, lo: nat, data: seq<real>, e: nat) returns (r: Result<()>)
      requires Valid() && lo + |data| <= cfg.nd && e < cfg.nens
      modifies this
      ensures Valid() && (r.Ok? <==> t < cfg.nt)
      ensures Abs() == Written(cfg, old(Abs()), t, lo, data, e)
    {
      EnsuredWellFormed(cfg, Abs(), t);
      EnsureBatch(t);
      var batchIdx := t - currentBatchStart;
      if batchIdx >= |files| { return Err("list index out of range"); }
      var at := files[batchIdx];
      disk := disk[at := disk[at][e := Patched(disk[at][e], lo, data)]];
      return Ok(());
    }
  }
}
