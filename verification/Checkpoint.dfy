/** Checkpoint files, crashes and restarts of the full-parallel run, as a state machine over its smallest steps. */
module Checkpoint {
  import opened Arith
  import opened Outcomes

  // ---- the atomic write ----

  /** What a file can hold: all of a payload, or only part of it. */
  datatype Content<P> = Complete(payload: P) | Partial

  /** The checkpoint directory: the file at the checkpoint path, and the temporary file if there is one. */
  datatype Dir<P> = Dir(path: Option<Content<P>>, temp: Option<Content<P>>)

  datatype Failure = NoFailure | Raised(at: nat) | Killed(at: nat)

  datatype Outcome = Finished | Exception | Dead

  /**
   * _atomic_write_json: make a temporary file, write and sync the payload, rename it over the path.
   * Operation 0 is mkstemp, 1 a first write, 2 the rest and the sync, 3 the rename; the given one fails or is
   * never reached. An exception from 1 on removes the temporary file before it is passed on. writes records the
   * directory as the writes leave it, before the rename or the removal that may end the call.
   */
  class Checkpointer<P> {
    var dir: Dir<P>

    method AtomicWriteJson(payload: P, failure: Failure) returns (outcome: Outcome, ghost writes: seq<Dir<P>>)
      modifies this
      ensures outcome == match failure
              case NoFailure => Finished
              case Raised(at) => if at <= 3 then Exception else Finished
              case Killed(at) => if at <= 3 then Dead else Finished
      ensures dir.path == if outcome == Finished then Some(Complete(payload)) else old(dir.path)
      ensures outcome == Exception && old(dir.temp) == None ==> dir.temp == None
      ensures outcome == Finished ==> dir.temp == None
      ensures Attempt(old(dir), writes, dir, payload, outcome)
    {
      writes := [dir];
      if failure == Killed(0) { return Dead, writes; }
      if failure == Raised(0) { return Exception, writes; }
      dir := dir.(temp := Some(Partial));
      writes := writes + [dir];
      if failure == Killed(1) { return Dead, writes; }
      if failure == Raised(1) { dir := dir.(temp := None); return Exception, writes; }
      dir := dir.(temp := Some(Partial));
      writes := writes + [dir];
      if failure == Killed(2) { return Dead, writes; }
      if failure == Raised(2) { dir := dir.(temp := None); return Exception, writes; }
      dir := dir.(temp := Some(Complete(payload)));
      writes := writes + [dir];
      if failure == Killed(3) { return Dead, writes; }
      if failure == Raised(3) { dir := dir.(temp := None); return Exception, writes; }
      dir := Dir(dir.temp, None);
      return Finished, writes;
    }
  }

  /** Writes of a checkpoint: the temporary file grows, then is renamed over the path. */
  ghost predicate WriteStep<P>(d: Dir<P>, d': Dir<P>, p: P)
  {
    || d' == d.(temp := Some(Partial))
    || (d.temp == Some(Partial) && d' == d.(temp := Some(Complete(p))))
  }

  ghost predicate SavedNow<P>(d: Dir<P>, d': Dir<P>, p: P)
  {
    d.temp == Some(Complete(p)) && d' == Dir(d.temp, None)
  }

  /** One call of the atomic write: some writes of the temporary file, then what the outcome says. */
  ghost predicate Attempt<P>(before: Dir<P>, writes: seq<Dir<P>>, after: Dir<P>, p: P, outcome: Outcome)
  {
    && |writes| > 0 && writes[0] == before
    && (forall i :: 0 <= i < |writes| - 1 ==> WriteStep(writes[i], writes[i + 1], p))
    && var last := writes[|writes| - 1];
       match outcome
       case Finished => SavedNow(last, after, p)
       case Exception => after == if |writes| == 1 then before else last.(temp := None)
       case Dead => after == last
  }

  // ---- the run ----

  /** rounds: forecast rounds of a step, members over ranks. */
  datatype Config = Config(nt: nat, every: nat, restart: bool, serial: bool, batchSize: nat, rounds: nat)

  datatype Payload = Payload(lastDone: int)

  /** Where a process is. Saving is the atomic write, written records how far the temporary file is. */
  datatype Phase =
    | Down
    | AtStep(k: nat)
    | Computing(k: nat)
    | Stepped(k: nat)
    | Saving(k: nat, payload: Payload, inHandler: bool)

  /**
   * done: steps whose forecast and analysis were completed by some process; kept: those whose result is in the step
   * files, step j in file j + 1; cur: k as the keyword arguments hold it.
   */
  datatype State = State(dir: Dir<Payload>, done: set<int>, kept: set<int>, phase: Phase, cur: Option<int>)

  /**
   * The last step file that exists when the restart decision is made: serial creation has made a whole batch already.
   */
  function LastVisibleStep(cfg: Config): Option<int>
  {
    if cfg.serial && Min(cfg.batchSize, cfg.nt) > 0 then Some(Min(cfg.batchSize, cfg.nt) - 1) else None
  }

  /** The restart decision without an override, clamped to [0, nt]. */
  function StartStep(cfg: Config, forceFresh: bool, ckpt: Option<Content<Payload>>): int
  {
    var k :=
      if cfg.restart && !forceFresh then
        match ckpt
        case Some(Complete(p)) => p.lastDone + 1
        case _ => (match LastVisibleStep(cfg) case Some(v) => v + 1 case None => 0)
      else 0;
    Min(Max(0, k), cfg.nt)
  }

  /**
   * All moves of the machine: a launch, the turns of the time loop, the writes, exceptions anywhere, kills anywhere.
   */
  ghost predicate Next(cfg: Config, s: State, s': State)
  {
    || (s.phase.Down? && (s' == Launched(cfg, s, false) || s' == Launched(cfg, s, true)))
    || (s.phase.AtStep? && s.phase.k < cfg.nt && s' == s.(phase := Computing(s.phase.k), cur := Some(s.phase.k)))
    || (s.phase.AtStep? && s.phase.k >= cfg.nt && s' == s.(phase := Down))
    || (s.phase.Computing? && cfg.batchSize > 0 && s' == Completed(cfg, s))
    || (s.phase.Stepped? && s' == AfterStep(cfg, s))
    || (s.phase.Saving? && s' == s.(dir := s'.dir) && WriteStep(s.dir, s'.dir, s.phase.payload))
    || (s.phase.Saving? && SavedNow(s.dir, s'.dir, s.phase.payload) && s' == AfterSave(s, s'.dir))
    || (s.phase.Saving? && s' == AfterSave(s, s.dir.(temp := None)))
    || (!s.phase.Down? && !(s.phase.Saving? && s.phase.inHandler) && s' == Handled(cfg, s))
    || s' == s.(phase := Down)
  }

  /** Step k leaves its batch and needs several rounds, so it goes back to the old batch to read and empties it. */
  predicate Erases(cfg: Config, k: nat)
    requires cfg.batchSize > 0
  {
    cfg.rounds > 1 && k + 1 < cfg.nt && (k + 1) % cfg.batchSize == 0
  }

  predicate SameBatch(cfg: Config, t: int, u: int)
    requires cfg.batchSize > 0
  {
    t / cfg.batchSize == u / cfg.batchSize
  }

  /** A step is done. One that erases a batch loses the results in its files, and its own is not what was forecast. */
  function Completed(cfg: Config, s: State): State
    requires s.phase.Computing? && cfg.batchSize > 0
  {
    var k: int := s.phase.k;
    s.(phase := Stepped(s.phase.k), done := s.done + {k},
       kept := if Erases(cfg, k) then set j | j in s.kept && !SameBatch(cfg, j + 1, k) else s.kept + {k})
  }

  /** A launch deletes the step files and decides where to start. */
  function Launched(cfg: Config, s: State, forceFresh: bool): State
  {
    State(s.dir.(temp := None), s.done, {}, AtStep(StartStep(cfg, forceFresh, s.dir.path)), None)
  }

  /** A completed step is checkpointed on multiples of every and at the end; every = 0 raises. */
  function AfterStep(cfg: Config, s: State): State
    requires s.phase.Stepped?
  {
    var k := s.phase.k;
    if cfg.restart && cfg.every == 0 then Handled(cfg, s)
    else if cfg.restart && (k % cfg.every == 0 || k + 1 == cfg.nt) then
      s.(dir := s.dir.(temp := None), phase := Saving(k, Payload(k), false))
    else s.(phase := AtStep(k + 1))
  }

  /**
   * A save in the loop is followed by the next step whether it worked or not; one in the crash handler ends the
   * process.
   */
  function AfterSave(s: State, dir: Dir<Payload>): State
    requires s.phase.Saving?
  {
    s.(dir := dir, phase := if s.phase.inHandler then Down else AtStep(s.phase.k + 1))
  }

  /** The crash handler: save one less than the current step, if there is a current step. */
  function Handled(cfg: Config, s: State): State
  {
    if cfg.restart && s.cur.Some? then
      s.(dir := s.dir.(temp := None), phase := Saving(0, Payload(Max(s.cur.value - 1, -1)), true))
    else s.(phase := Down)
  }

  predicate Init(s: State) { s == State(Dir(None, None), {}, {}, Down, None) }

  /** A behaviour: any number of moves, so any number of crashes and restarts. */
  ghost predicate IsBehaviour(cfg: Config, b: seq<State>)
  {
    |b| > 0 && Init(b[0]) && forall i :: 0 <= i < |b| - 1 ==> Next(cfg, b[i], b[i + 1])
  }

  // ---- safety ----

  /** Every step up to n has been completed. */
  predicate DoneThrough(s: State, n: int) { forall j :: 0 <= j <= n ==> j in s.done }

  /** The results of every step before n are in the step files. */
  predicate KeptBefore(s: State, n: int) { forall j :: 0 <= j < n ==> j in s.kept }

  /** What a crash must never break. */
  predicate Safe(s: State)
  {
    && (s.dir.path.Some? ==> s.dir.path.value.Complete? && DoneThrough(s, s.dir.path.value.payload.lastDone))
    && (s.phase.Computing? ==> DoneThrough(s, s.phase.k - 1))
  }

  /** The inductive invariant: the phase and the current step promise no more than what is done. */
  ghost predicate Sound(cfg: Config, s: State)
  {
    && Safe(s)
    && (s.cur.Some? && !s.phase.Down? ==> DoneThrough(s, s.cur.value - 1))
    && match s.phase
       case Down => true
       case AtStep(k) => k < cfg.nt ==> DoneThrough(s, k - 1)
       case Computing(k) => true
       case Stepped(k) => DoneThrough(s, k)
       case Saving(k, p, inHandler) =>
         && DoneThrough(s, p.lastDone) && (!inHandler ==> DoneThrough(s, k))
         && (s.dir.temp == None || s.dir.temp == Some(Partial) || s.dir.temp == Some(Complete(p)))
  }

  /** Without a checkpoint, a launch starts at the first step or past the last one. */
  predicate SafeStart(cfg: Config) { StartStep(cfg, false, None) in {0, cfg.nt} }

  lemma NextKeepsSound(cfg: Config, s: State, s': State)
    requires SafeStart(cfg) && Sound(cfg, s) && Next(cfg, s, s')
    ensures Sound(cfg, s')
  {
  }

  ghost predicate AlwaysSafe(cfg: Config)
  {
    forall b: seq<State>, i :: IsBehaviour(cfg, b) && 0 <= i < |b| ==> Safe(b[i])
  }

  /** A launch that trusts files it created itself: work begins at a step whose predecessors never ran. */
  lemma UnsafeLaunch(cfg: Config) returns (b: seq<State>)
    requires !SafeStart(cfg)
    ensures IsBehaviour(cfg, b) && |b| == 3 && !Safe(b[2])
    ensures b[2].phase == Computing(StartStep(cfg, false, None)) && b[2].phase.k > 0 && b[2].kept == {}
  {
    var k := StartStep(cfg, false, None);
    var s0 := State(Dir(None, None), {}, {}, Down, None);
    var s1 := Launched(cfg, s0, false);
    var s2 := s1.(phase := Computing(k), cur := Some(k));
    b := [s0, s1, s2];
    assert Next(cfg, b[0], b[1]) && Next(cfg, b[1], b[2]);
    assert 0 !in s2.done && !DoneThrough(s2, k - 1);
  }

  /**
   * Over every behaviour and every crash point: the checkpoint path is absent or holds one complete payload, no stored
   * step is beyond the completed ones, and no step is worked on before its predecessors. This holds exactly when a
   * launch without a checkpoint starts at step 0 or does nothing.
   */
  lemma CheckpointSafetyIff(cfg: Config)
    ensures AlwaysSafe(cfg) <==> SafeStart(cfg)
  {
    if SafeStart(cfg) {
      forall b: seq<State>, i | IsBehaviour(cfg, b) && 0 <= i < |b| ensures Safe(b[i]) { MovesAreSound(cfg, b, i); }
    } else {
      var b := UnsafeLaunch(cfg);
    }
  }

  // ---- where a launch resumes ----

  /** What a save in progress is of: the step just completed, or in the handler one less than the step worked on. */
  ghost predicate Tracked(cfg: Config, s: State)
  {
    && (s.cur.Some? ==> s.cur.value >= 0)
    && match s.phase
       case Down => true
       case AtStep(k) => true
       case Computing(k) => k < cfg.nt && s.cur == Some(k)
       case Stepped(k) => k < cfg.nt && s.cur == Some(k)
       case Saving(k, p, inHandler) =>
         && cfg.restart && s.cur.Some? && s.cur.value < cfg.nt
         && if inHandler then p.lastDone == s.cur.value - 1 else s.cur.value == k && p.lastDone == k
  }

  /** Every current step was worked on, so it is below nt. */
  ghost predicate Current(cfg: Config, s: State)
  {
    Tracked(cfg, s) && (s.cur.Some? ==> s.cur.value < cfg.nt)
  }

  lemma NextKeepsCurrent(cfg: Config, s: State, s': State)
    requires Current(cfg, s) && Next(cfg, s, s')
    ensures Current(cfg, s')
  {
  }

  lemma {:induction false} BehavioursAreCurrent(cfg: Config, b: seq<State>, i: nat)
    requires IsBehaviour(cfg, b) && i < |b|
    ensures Current(cfg, b[i])
  {
    if i > 0 {
      BehavioursAreCurrent(cfg, b, i - 1);
      assert Next(cfg, b[i - 1], b[i - 1 + 1]);
      NextKeepsCurrent(cfg, b[i - 1], b[i]);
    }
  }

  /** The step a launch would start at. */
  function Resumes(cfg: Config, s: State): int { StartStep(cfg, false, s.dir.path) }

  /** On every behaviour, once the save of a completed step k is in place a launch resumes after k. */
  lemma SavedStepIsResumedAfter(cfg: Config, b: seq<State>, i: nat)
    requires IsBehaviour(cfg, b) && i + 1 < |b| && b[i].phase.Saving? && !b[i].phase.inHandler
    requires SavedNow(b[i].dir, b[i + 1].dir, b[i].phase.payload)
    ensures Resumes(cfg, b[i + 1]) == Min(b[i].phase.k + 1, cfg.nt)
  {
    BehavioursAreCurrent(cfg, b, i);
  }

  /** On every behaviour, once the crash handler's save is in place a launch resumes at the step that was worked on. */
  lemma CrashedStepIsResumed(cfg: Config, b: seq<State>, i: nat)
    requires IsBehaviour(cfg, b) && i + 1 < |b| && b[i].phase.Saving? && b[i].phase.inHandler
    requires SavedNow(b[i].dir, b[i + 1].dir, b[i].phase.payload)
    ensures b[i].cur.Some? && Resumes(cfg, b[i + 1]) == b[i].cur.value
  {
    BehavioursAreCurrent(cfg, b, i);
  }

  /** The handler is entered with the step in progress as the current one, or the last one when none is in progress. */
  lemma HandlerKnowsStep(cfg: Config, b: seq<State>, i: nat)
    requires IsBehaviour(cfg, b) && i < |b| && (b[i].phase.Computing? || b[i].phase.Stepped? || b[i].phase.Saving?)
    requires b[i].phase.Saving? ==> !b[i].phase.inHandler
    ensures b[i].cur == Some(b[i].phase.k)
    ensures cfg.restart ==> Handled(cfg, b[i]).phase.Saving? && Handled(cfg, b[i]).cur == Some(b[i].phase.k)
  {
    BehavioursAreCurrent(cfg, b, i);
  }

  /** With restarts, a completed step is saved exactly if it is a multiple of the interval or the last one. */
  lemma SavedExactlyAtMultiples(cfg: Config, b: seq<State>, i: nat)
    requires cfg.restart && cfg.every > 0 && IsBehaviour(cfg, b) && i + 1 < |b| && b[i].phase.Stepped?
    ensures b[i + 1].phase.Saving? && !b[i + 1].phase.inHandler ==>
      b[i].phase.k % cfg.every == 0 || b[i].phase.k == cfg.nt - 1
    ensures b[i + 1].phase.AtStep? ==> b[i].phase.k % cfg.every != 0 && b[i].phase.k != cfg.nt - 1
  {
    assert Next(cfg, b[i], b[i + 1]);
  }

  /** No save in the loop fails: the loop goes on with the payload in place. */
  ghost predicate SavesSucceed(cfg: Config, b: seq<State>)
  {
    forall i :: 0 <= i < |b| - 1 && b[i].phase.Saving? && !b[i].phase.inHandler && b[i + 1].phase.AtStep? ==>
      b[i + 1].dir.path == Some(Complete(b[i].phase.payload))
  }

  /** No multiple of the checkpoint interval lies from where a launch would resume up to step k. */
  ghost predicate Recent(cfg: Config, s: State, k: int)
    requires cfg.every > 0
  {
    forall j :: Resumes(cfg, s) <= j < k ==> j % cfg.every != 0
  }

  /** The invariant behind the bound on repeated work. */
  ghost predicate UpToDate(cfg: Config, s: State)
    requires cfg.every > 0
  {
    && Current(cfg, s)
    && match s.phase
       case Down => true
       case AtStep(k) => Recent(cfg, s, k)
       case Computing(k) => Recent(cfg, s, k)
       case Stepped(k) => Recent(cfg, s, k)
       case Saving(_, _, _) => true
  }

  lemma NextKeepsUpToDate(cfg: Config, s: State, s': State)
    requires cfg.restart && cfg.every > 0 && UpToDate(cfg, s) && Next(cfg, s, s')
    requires s.phase.Saving? && !s.phase.inHandler && s'.phase.AtStep? ==>
      s'.dir.path == Some(Complete(s.phase.payload))
    ensures UpToDate(cfg, s')
  {
    NextKeepsCurrent(cfg, s, s');
  }

  lemma {:induction false} BehavioursAreUpToDate(cfg: Config, b: seq<State>, i: nat)
    requires cfg.restart && cfg.every > 0 && IsBehaviour(cfg, b) && SavesSucceed(cfg, b) && i < |b|
    ensures UpToDate(cfg, b[i])
  {
    if i > 0 {
      BehavioursAreUpToDate(cfg, b, i - 1);
      assert Next(cfg, b[i - 1], b[i - 1 + 1]);
      NextKeepsUpToDate(cfg, b[i - 1], b[i]);
    }
  }

  lemma MultipleWithin(from: int, to: int, every: nat) returns (j: int)
    requires every > 0 && from + every <= to
    ensures from <= j < to && j % every == 0
  {
    var q := (from + every - 1) / every;
    j := q * every;
    QuotientOf(from + every - 1, every);
    DivModUnique(0, q, every);
  }

  /**
   * Over any crashes and restarts in which the saves of the loop succeed, a crash at step k costs fewer steps than the
   * checkpoint interval: a launch would resume less than that many steps before k.
   */
  lemma LostWorkIsBounded(cfg: Config, b: seq<State>, i: nat)
    requires cfg.restart && cfg.every > 0 && IsBehaviour(cfg, b) && SavesSucceed(cfg, b) && i < |b|
    requires b[i].phase.Computing?
    ensures b[i].phase.k < Resumes(cfg, b[i]) + cfg.every
  {
    BehavioursAreUpToDate(cfg, b, i);
    if b[i].phase.k >= Resumes(cfg, b[i]) + cfg.every {
      var j := MultipleWithin(Resumes(cfg, b[i]), b[i].phase.k, cfg.every);
      assert false;
    }
  }

  // ---- the results of the steps before ----

  /** Whenever a process works on a step, the files hold the results of all steps before it. */
  ghost predicate AlwaysKept(cfg: Config)
  {
    forall b: seq<State>, i :: IsBehaviour(cfg, b) && 0 <= i < |b| && b[i].phase.Computing? ==>
      KeptBefore(b[i], b[i].phase.k)
  }

  /**
   * There is one step at most; or no step ever completes; or there are no restarts and no step erases a batch; or a
   * restarting run never gets past step 0.
   */
  predicate NoHistoryLost(cfg: Config)
  {
    || cfg.nt <= 1 || cfg.batchSize == 0
    || (!cfg.restart && (cfg.nt <= cfg.batchSize || cfg.rounds <= 1))
    || (cfg.restart && cfg.every == 0 && SafeStart(cfg))
  }

  lemma OneBatchErasesNothing(cfg: Config, k: nat)
    requires cfg.batchSize > 0 && (cfg.nt <= cfg.batchSize || cfg.rounds <= 1)
    ensures !Erases(cfg, k)
  {
    if k + 1 < cfg.nt <= cfg.batchSize { DivModUnique(k + 1, 0, cfg.batchSize); }
  }

  /** Without restarts: the kept steps grow with k, or nothing ever completes. */
  ghost predicate StraightRun(cfg: Config, s: State)
  {
    match s.phase
    case Down => true
    case AtStep(k) => KeptBefore(s, k)
    case Computing(k) => k < cfg.nt && KeptBefore(s, k)
    case Stepped(k) => KeptBefore(s, k + 1)
    case Saving(_, _, _) => false
  }

  /** A restarting run that never gets past step 0. */
  ghost predicate StuckRun(cfg: Config, s: State)
  {
    && (s.dir.path.None? || s.dir.path == Some(Complete(Payload(-1))))
    && (s.phase.Down? || s.cur in {None, Some(0)})
    && match s.phase
       case Down => true
       case AtStep(k) => k == 0 || k >= cfg.nt
       case Computing(k) => k == 0
       case Stepped(k) => k == 0 && cfg.batchSize > 0
       case Saving(_, p, inHandler) =>
         inHandler && p == Payload(-1) && s.dir.temp in {None, Some(Partial), Some(Complete(p))}
  }

  /** The invariant behind it; with a batch size of zero no step completes. */
  ghost predicate HistoryKept(cfg: Config, s: State)
  {
    && (s.phase.Computing? ==> s.phase.k < cfg.nt)
    && (cfg.nt > 1 ==> if cfg.restart then StuckRun(cfg, s) else StraightRun(cfg, s))
  }

  lemma NextKeepsHistory(cfg: Config, s: State, s': State)
    requires NoHistoryLost(cfg) && HistoryKept(cfg, s) && Next(cfg, s, s')
    ensures HistoryKept(cfg, s')
  {
    if cfg.batchSize > 0 && !cfg.restart && cfg.nt > 1 && s.phase.Computing? {
      OneBatchErasesNothing(cfg, s.phase.k);
    }
  }

  lemma {:induction false} BehavioursKeepHistory(cfg: Config, b: seq<State>, i: nat)
    requires NoHistoryLost(cfg) && IsBehaviour(cfg, b) && i < |b|
    ensures HistoryKept(cfg, b[i])
  {
    if i > 0 {
      BehavioursKeepHistory(cfg, b, i - 1);
      assert Next(cfg, b[i - 1], b[i - 1 + 1]);
      NextKeepsHistory(cfg, b[i - 1], b[i]);
    }
  }

  /** Step 0 is computed and checkpointed, the process is killed, and the next one starts at step 1 on new files. */
  lemma HistoryLost(cfg: Config) returns (b: seq<State>)
    requires cfg.restart && cfg.nt > 1 && cfg.every > 0 && cfg.batchSize > 0
    ensures IsBehaviour(cfg, b) && |b| == 11 && b[10].phase == Computing(1) && b[10].kept == {}
  {
    var s0 := State(Dir(None, None), {}, {}, Down, None);
    var s1 := Launched(cfg, s0, true);
    var s2 := s1.(phase := Computing(0), cur := Some(0));
    var s3 := Completed(cfg, s2);
    var s4 := AfterStep(cfg, s3);
    var s5 := s4.(dir := Dir(None, Some(Partial)));
    var s6 := s4.(dir := Dir(None, Some(Complete(Payload(0)))));
    var s7 := AfterSave(s6, Dir(Some(Complete(Payload(0))), None));
    var s8 := s7.(phase := Down);
    var s9 := Launched(cfg, s8, false);
    var s10 := s9.(phase := Computing(1), cur := Some(1));
    b := [s0, s1, s2, s3, s4, s5, s6, s7, s8, s9, s10];
    assert Next(cfg, s0, s1) && Next(cfg, s1, s2) && Next(cfg, s2, s3) && Next(cfg, s3, s4) && Next(cfg, s4, s5);
    assert Next(cfg, s5, s6) && Next(cfg, s6, s7) && Next(cfg, s7, s8) && Next(cfg, s8, s9) && Next(cfg, s9, s10);
  }

  ghost predicate KeptBelow(s: State, n: int) { forall j :: j in s.kept ==> j < n }

  /** A process that reaches step k without restarts, the kept steps all before it. */
  lemma {:induction false} ReachesStep(cfg: Config, k: nat) returns (b: seq<State>)
    requires !cfg.restart && cfg.batchSize > 0 && k <= cfg.nt
    ensures IsBehaviour(cfg, b) && b[|b| - 1].phase == AtStep(k) && KeptBelow(b[|b| - 1], k)
    ensures k > 0 && Erases(cfg, k - 1) ==> k - 1 !in b[|b| - 1].kept
    decreases k
  {
    if k == 0 {
      var s0 := State(Dir(None, None), {}, {}, Down, None);
      b := [s0, Launched(cfg, s0, true)];
    } else {
      var before := ReachesStep(cfg, k - 1);
      var s := before[|before| - 1];
      var s1 := s.(phase := Computing(k - 1), cur := Some(k - 1));
      var s2 := Completed(cfg, s1);
      var s3 := s2.(phase := AtStep(k));
      b := Continued(cfg, before, s1);
      b := Continued(cfg, b, s2);
      b := Continued(cfg, b, s3);
    }
  }

  lemma Continued(cfg: Config, b: seq<State>, s: State) returns (longer: seq<State>)
    requires IsBehaviour(cfg, b) && Next(cfg, b[|b| - 1], s)
    ensures IsBehaviour(cfg, longer) && longer == b + [s]
  {
    longer := b + [s];
    forall i | 0 <= i < |longer| - 1 ensures Next(cfg, longer[i], longer[i + 1]) {
      if i < |b| - 1 { assert Next(cfg, b[i], b[i + 1]); }
    }
  }

  /** The step that leaves the first batch in several rounds: its result is missing when the next step is worked on. */
  lemma BatchLost(cfg: Config) returns (b: seq<State>)
    requires !cfg.restart && 0 < cfg.batchSize < cfg.nt && cfg.rounds > 1
    ensures IsBehaviour(cfg, b) && b[|b| - 1].phase == Computing(cfg.batchSize)
    ensures cfg.batchSize - 1 !in b[|b| - 1].kept
  {
    var k := cfg.batchSize;
    assert Erases(cfg, k - 1);
    b := ReachesStep(cfg, k);
    b := Continued(cfg, b, b[|b| - 1].(phase := Computing(k), cur := Some(k)));
  }

  /**
   * A step is always worked on with the results of all earlier steps in the files exactly when NoHistoryLost holds: in
   * practice, with restarting off and all steps in one batch or all members in one round.
   */
  lemma HistoryKeptIff(cfg: Config)
    ensures AlwaysKept(cfg) <==> NoHistoryLost(cfg)
  {
    if NoHistoryLost(cfg) {
      forall b: seq<State>, i | IsBehaviour(cfg, b) && 0 <= i < |b| && b[i].phase.Computing?
        ensures KeptBefore(b[i], b[i].phase.k)
      {
        BehavioursKeepHistory(cfg, b, i);
      }
    } else {
      var b;
      if !cfg.restart { b := BatchLost(cfg); }
      else if cfg.every > 0 { b := HistoryLost(cfg); assert 0 !in b[10].kept; }
      else { b := UnsafeLaunch(cfg); assert 0 !in b[2].kept; }
      assert !KeptBefore(b[|b| - 1], b[|b| - 1].phase.k);
    }
  }

  // ---- the write method and the machine ----

  /** A call of the atomic write is a sequence of moves of the machine, whatever fails in it. */
  lemma AttemptIsMoves(cfg: Config, s: State, writes: seq<Dir<Payload>>, after: Dir<Payload>, outcome: Outcome)
    returns (moves: seq<State>)
    requires s.phase.Saving? && s.dir.temp == None && Attempt(s.dir, writes, after, s.phase.payload, outcome)
    ensures |moves| > 0 && moves[0] == s && forall i :: 0 <= i < |moves| - 1 ==> Next(cfg, moves[i], moves[i + 1])
    ensures moves[|moves| - 1] == if outcome == Dead then s.(dir := after, phase := Down) else AfterSave(s, after)
  {
    var n := |writes|;
    var end := if outcome == Dead then s.(dir := after, phase := Down) else AfterSave(s, after);
    var during := seq(n, i requires 0 <= i < n => s.(dir := writes[i]));
    moves := during + [end];
    forall i | 0 <= i < n ensures Next(cfg, moves[i], moves[i + 1]) {
      if i < n - 1 {
        assert WriteStep(writes[i], writes[i + 1], s.phase.payload);
      }
    }
  }

  /** Saving through the method from a reachable state leaves a sound state, at every failure. */
  method SaveCheckpoint(cfg: Config, ghost s: State, checkpointer: Checkpointer<Payload>, payload: Payload,
                        failure: Failure)
    returns (outcome: Outcome)
    requires SafeStart(cfg) && Sound(cfg, s) && s.phase.Saving? && s.phase.payload == payload
    requires s.dir == checkpointer.dir && s.dir.temp == None
    modifies checkpointer
    ensures var s' :=
              if outcome == Dead then s.(dir := checkpointer.dir, phase := Down) else AfterSave(s, checkpointer.dir);
            Sound(cfg, s')
  {
    ghost var writes;
    outcome, writes := checkpointer.AtomicWriteJson(payload, failure);
    ghost var moves := AttemptIsMoves(cfg, s, writes, checkpointer.dir, outcome);
    MovesAreSound(cfg, moves, |moves| - 1);
  }

  lemma {:induction false} MovesAreSound(cfg: Config, moves: seq<State>, i: nat)
    requires SafeStart(cfg) && i < |moves| && Sound(cfg, moves[0])
    requires forall j :: 0 <= j < |moves| - 1 ==> Next(cfg, moves[j], moves[j + 1])
    ensures Sound(cfg, moves[i])
  {
    if i > 0 {
      MovesAreSound(cfg, moves, i - 1);
      assert Next(cfg, moves[i - 1], moves[i - 1 + 1]);
      NextKeepsSound(cfg, moves[i - 1], moves[i]);
    }
  }

  // ---- the first launch ----

  /**
   * Files created ahead of their steps are why: the first launch starts at 0 unless restart and serial creation meet.
   */
  lemma FirstLaunch(cfg: Config)
    ensures StartStep(cfg, false, None) == if cfg.restart && cfg.serial then Min(cfg.batchSize, cfg.nt) else 0
    ensures SafeStart(cfg) <==> !cfg.restart || !cfg.serial || cfg.batchSize == 0 || cfg.batchSize >= cfg.nt
  {
  }

  /** batch_size when none is configured. */
  function DefaultBatchSize(nt: nat): nat { if nt <= 100 then nt else Max(1, (nt + 9) / 10) }

  /**
   * With all defaults, a first launch computes no step up to nt = 100 and skips the first batch of steps beyond that.
   */
  lemma DefaultFirstLaunch(nt: nat, every: nat, rounds: nat)
    requires nt > 0
    ensures var cfg := Config(nt, every, true, true, DefaultBatchSize(nt), rounds);
            && (SafeStart(cfg) <==> nt <= 100)
            && StartStep(cfg, false, None) == (if nt <= 100 then nt else (nt + 9) / 10) > 0
            && StartStep(cfg, true, None) == 0
  {
  }
}
