/**
 A token dispatch cannot hang: until every slot has returned, some slot has a step that is
 not a spin, and only boundedly many such steps exist.
 */
module DispatchProgress {
  import B = Barrier
  import opened Rows
  import opened Dispatch
  import opened DispatchSafety

  /** The next step of `t` re-reads something that has not changed. */
  predicate Spins<P, V>(s: State<P, V>, t: nat)
    requires t < |s.threads| && t < |s.barrier.threads|
  {
    var th := s.threads[t];
    || (th.pc.Wait? && B.SpinsOn(s.barrier.threads[t], s.barrier.generation))
    || ((th.pc.LoadEpoch? || th.pc.LoadTerminal?) && s.terminal == 0 && s.jobEpoch == th.observed)
  }

  predicate AllReturned<P, V>(s: State<P, V>) {
    forall t | 0 <= t < |s.threads| :: s.threads[t].pc.Returned?
  }

  ghost predicate CanMove<P(!new), V(!new)>(s: State<P, V>) {
    exists t: nat :: t < |s.threads| == |s.barrier.threads| && Enabled(s, t) && !Spins(s, t)
  }

  lemma WorkerCanMove<P(!new), V(!new)>(cfg: Config<P, V>, s: State<P, V>, t: nat)
    requires Inv(cfg, s) && 0 < t < cfg.workers
    requires !B.SpinsOn(s.barrier.threads[t], s.barrier.generation)
    requires s.terminal == 0 ==> JobOpen(s)
    requires s.terminal != 0 ==> !s.threads[t].pc.Returned?
    ensures Enabled(s, t) && !Spins(s, t)
  {
    assert WorkerOk(cfg, s, t);
    assert B.ThreadOk(s.barrier.threads[t], s.barrier.generation);
  }

  /** While the coordinator spins, somebody else has not arrived yet. */
  lemma SomebodyMissing<P(!new), V(!new)>(cfg: Config<P, V>, s: State<P, V>)
    requires Inv(cfg, s)
    requires B.SpinsOn(s.barrier.threads[0], s.barrier.generation)
    ensures exists t: nat :: 0 < t < cfg.workers && !B.SpinsOn(s.barrier.threads[t], s.barrier.generation)
  {
    if forall t: nat | 0 < t < cfg.workers :: B.SpinsOn(s.barrier.threads[t], s.barrier.generation) {
      B.AllSpinning(s.barrier.threads, s.barrier.generation);
    }
  }

  lemma SomeoneMoves<P(!new), V(!new)>(cfg: Config<P, V>, s: State<P, V>)
    requires Inv(cfg, s) && !AllReturned(s)
    ensures CanMove(s)
  {
    EpochTracksGeneration(cfg, s);
    if s.threads[0].pc.Returned? {
      var t: nat :| t < cfg.workers && !s.threads[t].pc.Returned?;
      ServingMeansOpen(cfg, s, t);
      assert B.ThreadOk(s.barrier.threads[t], s.barrier.generation);
      WorkerCanMove(cfg, s, t);
    } else if B.SpinsOn(s.barrier.threads[0], s.barrier.generation) {
      SomebodyMissing(cfg, s);
      var t: nat :| 0 < t < cfg.workers && !B.SpinsOn(s.barrier.threads[t], s.barrier.generation);
      ServingMeansOpen(cfg, s, 0);
      WorkerCanMove(cfg, s, t);
    } else {
      assert Enabled(s, 0) && !Spins(s, 0);
    }
  }

  // ---- a measure that every useful step decreases ----

  const JOB_WEIGHT := MAX_ROWS + 40

  function WaitRank(pc: B.PC): nat {
    match pc
    case Outside => 0
    case LoadGeneration => 15
    case Arrive(_) => 14
    case ClearArrivals(_) => 13
    case Release(_) => 12
    case Spin(_) => 12
  }

  function PointRank(pc: PC, waiting: B.PC, job: nat): nat {
    match pc
    case ClaimWorkers => MAX_ROWS + 31
    case ClaimBackend => MAX_ROWS + 30
    case Plan => MAX_ROWS + 28
    case WriteDescriptor => MAX_ROWS + 27
    case ZeroHits => MAX_ROWS + 26
    case PublishEpoch => MAX_ROWS + 25
    case LoadEpoch => MAX_ROWS + 25
    case LoadTerminal => MAX_ROWS + 24 + job
    case ReadDescriptor => MAX_ROWS + 23
    case RunShare(_, _, next, end) => 16 + if next <= end <= MAX_ROWS then end - next else 0
    case Wait => WaitRank(waiting)
    case CheckHits => 11
    case RejectHits => 10
    case Collect => 9
    case StoreTerminal(_) => 8
    case StatusRejection => 7
    case StatusTerminal => 6
    case StatusEpoch(_) => 5
    case StatusArrivals(_) => 4
    case StatusGeneration(_) => 3
    case StoreReject(_) => 1
    case Returned(_) => 0
  }

  /** Work left for slot `t`: whole jobs it has not finished, plus where it is in this one. */
  function ThreadRank<P, V>(cfg: Config<P, V>, s: State<P, V>, t: nat): nat
    requires t < |s.threads| && t < |s.barrier.threads|
  {
    var th, n := s.threads[t], ExpectedJobs(cfg.program.produceLogits);
    var finished := if t == 0 then |s.results| else th.observed;
    var loaded := if s.terminal != 0 then 0 else if s.jobEpoch == th.observed then 1 else 2;
    (if finished <= n then n - finished else 0) * JOB_WEIGHT
      + PointRank(th.pc, s.barrier.threads[t].pc, loaded)
  }

  function WorkersRank<P, V>(cfg: Config<P, V>, s: State<P, V>, n: nat): nat
    requires n <= |s.threads| && n <= |s.barrier.threads|
  {
    if n <= 1 then 0 else WorkersRank(cfg, s, n - 1) + ThreadRank(cfg, s, n - 1)
  }

  function RankLimit<P, V>(cfg: Config<P, V>): nat {
    (ExpectedJobs(cfg.program.produceLogits) + 1) * JOB_WEIGHT
  }

  /** More than all workers together can have left. */
  function WorkersLimit<P, V>(cfg: Config<P, V>): nat {
    cfg.workers * RankLimit(cfg) + 1
  }

  function Times(a: nat, b: nat): nat {
    a * b
  }

  /** Coordinator first: its steps may give the workers more to do. */
  function Measure<P, V>(cfg: Config<P, V>, s: State<P, V>): nat
    requires |s.threads| == |s.barrier.threads| == cfg.workers > 0
  {
    Times(ThreadRank(cfg, s, 0), WorkersLimit(cfg)) + WorkersRank(cfg, s, cfg.workers)
  }

  lemma RankBelowLimit<P(!new), V(!new)>(cfg: Config<P, V>, s: State<P, V>, t: nat)
    requires t < |s.threads| && t < |s.barrier.threads|
    ensures ThreadRank(cfg, s, t) <= RankLimit(cfg)
  {
    var n := ExpectedJobs(cfg.program.produceLogits);
    var finished := if t == 0 then |s.results| else s.threads[t].observed;
    var left := if finished <= n then n - finished else 0;
    assert left * JOB_WEIGHT <= n * JOB_WEIGHT;
  }

  lemma {:induction false} WorkersRankBound<P(!new), V(!new)>(cfg: Config<P, V>, s: State<P, V>, n: nat)
    requires n <= |s.threads| && n <= |s.barrier.threads|
    ensures WorkersRank(cfg, s, n) <= n * RankLimit(cfg)
  {
    if n > 1 {
      WorkersRankBound(cfg, s, n - 1);
      RankBelowLimit(cfg, s, n - 1);
      assert n * RankLimit(cfg) == (n - 1) * RankLimit(cfg) + RankLimit(cfg);
    }
  }

  /** Only `t` has changed what it has left to do. */
  lemma {:induction false} WorkersRankChange<P(!new), V(!new)>(
      cfg: Config<P, V>, s: State<P, V>, s': State<P, V>, t: nat, n: nat)
    requires n <= |s.threads| == |s'.threads| && n <= |s.barrier.threads| == |s'.barrier.threads|
    requires 0 < t < |s.threads| && t < |s.barrier.threads|
    requires forall u: nat | 0 < u < n && u != t :: ThreadRank(cfg, s', u) == ThreadRank(cfg, s, u)
    ensures WorkersRank(cfg, s', n) == WorkersRank(cfg, s, n)
      + if t < n then ThreadRank(cfg, s', t) - ThreadRank(cfg, s, t) else 0
  {
    if n > 1 {
      WorkersRankChange(cfg, s, s', t, n - 1);
    }
  }

  // ---- what each step does to the measure ----

  /** Shares fit the rank: no job has more than MAX_ROWS rows. */
  lemma ShareBounded<P(!new), V(!new)>(cfg: Config<P, V>, s: State<P, V>, t: nat)
    requires Inv(cfg, s) && t < cfg.workers && s.threads[t].pc.RunShare?
    ensures s.threads[t].pc.next <= s.threads[t].pc.end <= MAX_ROWS
  {
    assert ThreadOk(cfg, s, t);
    assert PlannedAt(cfg.program, s.results);
    ServingMeansOpen(cfg, s, t);
    FirstRowMonotone(s.job.descriptor.rows, cfg.workers, t + 1, cfg.workers);
    FirstRowEnds(s.job.descriptor.rows, cfg.workers);
  }

  lemma RowRank<P(!new), V(!new)>(cfg: Config<P, V>, s: State<P, V>, t: nat)
    requires Inv(cfg, s) && t < cfg.workers
    requires s.threads[t].pc.RunShare? && s.threads[t].pc.next < s.threads[t].pc.end
    ensures ThreadRank(cfg, DoRow(cfg, s, t), t) < ThreadRank(cfg, s, t)
  {
    ShareBounded(cfg, s, t);
  }

  lemma AddHitsRank<P(!new), V(!new)>(cfg: Config<P, V>, s: State<P, V>, t: nat)
    requires Inv(cfg, s) && t < cfg.workers
    requires s.threads[t].pc.RunShare? && s.threads[t].pc.next >= s.threads[t].pc.end
    ensures ThreadRank(cfg, DoAddHits(s, t), t) < ThreadRank(cfg, s, t)
  {
    ShareBounded(cfg, s, t);
  }

  lemma WaitRankDecreases<P(!new), V(!new)>(cfg: Config<P, V>, s: State<P, V>, t: nat)
    requires Inv(cfg, s) && t < cfg.workers && s.threads[t].pc.Wait? && !Spins(s, t)
    ensures ThreadRank(cfg, DoWait(s, t), t) < ThreadRank(cfg, s, t)
  {
    B.AdvanceShape(s.barrier, t);
    assert B.ThreadOk(s.barrier.threads[t], s.barrier.generation);
    if t > 0 {
      assert WorkerOk(cfg, s, t);
      var n, done := ExpectedJobs(cfg.program.produceLogits), s.threads[t].observed;
      assert s.threads[t].epoch == done + 1 <= n;
      assert (n - done) * JOB_WEIGHT == (n - done - 1) * JOB_WEIGHT + JOB_WEIGHT;
    }
  }

  lemma CollectRank<P(!new), V(!new)>(cfg: Config<P, V>, s: State<P, V>)
    requires Inv(cfg, s) && s.threads[0].pc.Collect?
    ensures ThreadRank(cfg, DoCollect(cfg, s, 0), 0) < ThreadRank(cfg, s, 0)
  {
    var n, done := ExpectedJobs(cfg.program.produceLogits), |s.results|;
    assert (n - done) * JOB_WEIGHT == (n - done - 1) * JOB_WEIGHT + JOB_WEIGHT;
  }

  lemma PublishRank<P(!new), V(!new)>(cfg: Config<P, V>, s: State<P, V>)
    requires Inv(cfg, s) && s.threads[0].pc.PublishEpoch?
    ensures ThreadRank(cfg, DoPublishEpoch(cfg, s, 0), 0) < ThreadRank(cfg, s, 0)
  {
    PublishStep(cfg, s, 0);
    ShareBounded(cfg, DoPublishEpoch(cfg, s, 0), 0);
  }

  predicate CoordinatorMoves(pc: PC) {
    || pc.Plan? || pc.WriteDescriptor? || pc.ZeroHits? || pc.CheckHits? || pc.StoreTerminal?
  }

  lemma CoordinatorMoveRank<P(!new), V(!new)>(cfg: Config<P, V>, s: State<P, V>)
    requires Inv(cfg, s) && Enabled(s, 0) && CoordinatorMoves(s.threads[0].pc)
    ensures ThreadRank(cfg, Next(cfg, s, 0), 0) < ThreadRank(cfg, s, 0)
  {
  }

  lemma JoinRank<P(!new), V(!new)>(cfg: Config<P, V>, s: State<P, V>, t: nat)
    requires Inv(cfg, s) && t < cfg.workers
    ensures s.threads[t].pc.ClaimWorkers? ==> ThreadRank(cfg, DoClaimWorkers(cfg, s, t), t) < ThreadRank(cfg, s, t)
    ensures s.threads[t].pc.ClaimBackend? ==> ThreadRank(cfg, DoClaimBackend(cfg, s, t), t) < ThreadRank(cfg, s, t)
  {
  }

  lemma LeaveRank<P(!new), V(!new)>(cfg: Config<P, V>, s: State<P, V>, t: nat)
    requires Inv(cfg, s) && t < cfg.workers && ReadsStatus(s.threads[t].pc)
    ensures ThreadRank(cfg, DoStatus(cfg, s, t), t) < ThreadRank(cfg, s, t)
  {
    StatusNext(cfg, s, t);
  }

  lemma LoadEpochRank<P(!new), V(!new)>(cfg: Config<P, V>, s: State<P, V>, t: nat)
    requires Inv(cfg, s) && 0 < t < cfg.workers && !Spins(s, t) && s.threads[t].pc.LoadEpoch?
    ensures ThreadRank(cfg, DoLoadEpoch(s, t), t) < ThreadRank(cfg, s, t)
  {
    assert WorkerOk(cfg, s, t);
    if s.terminal != 0 {
      StatusReads(cfg, s);
      assert B.ThreadOk(s.barrier.threads[t], s.barrier.generation);
    }
  }

  lemma LoadTerminalRank<P(!new), V(!new)>(cfg: Config<P, V>, s: State<P, V>, t: nat)
    requires Inv(cfg, s) && 0 < t < cfg.workers && !Spins(s, t) && s.threads[t].pc.LoadTerminal?
    ensures ThreadRank(cfg, DoLoadTerminal(s, t), t) < ThreadRank(cfg, s, t)
  {
    assert WorkerOk(cfg, s, t);
  }

  lemma ReadDescriptorRank<P(!new), V(!new)>(cfg: Config<P, V>, s: State<P, V>, t: nat)
    requires Inv(cfg, s) && 0 < t < cfg.workers && s.threads[t].pc.ReadDescriptor?
    ensures ThreadRank(cfg, DoReadDescriptor(cfg, s, t), t) < ThreadRank(cfg, s, t)
  {
    ReadDescriptorStep(cfg, s, t);
    ShareBounded(cfg, DoReadDescriptor(cfg, s, t), t);
  }

  lemma CoordinatorStepRank<P(!new), V(!new)>(cfg: Config<P, V>, s: State<P, V>)
    requires Inv(cfg, s) && Enabled(s, 0)
    requires !s.threads[0].pc.Wait? && !s.threads[0].pc.RunShare?
    ensures ThreadRank(cfg, Next(cfg, s, 0), 0) < ThreadRank(cfg, s, 0)
  {
    var pc := s.threads[0].pc;
    if pc.Collect? {
      CollectRank(cfg, s);
    } else if pc.PublishEpoch? {
      PublishRank(cfg, s);
    } else if CoordinatorMoves(pc) {
      CoordinatorMoveRank(cfg, s);
    } else if ReadsStatus(pc) {
      LeaveRank(cfg, s, 0);
    } else {
      JoinRank(cfg, s, 0);
    }
  }

  lemma WorkerStepRank<P(!new), V(!new)>(cfg: Config<P, V>, s: State<P, V>, t: nat)
    requires Inv(cfg, s) && Enabled(s, t) && !Spins(s, t) && t > 0
    requires !s.threads[t].pc.Wait? && !s.threads[t].pc.RunShare?
    ensures ThreadRank(cfg, Next(cfg, s, t), t) < ThreadRank(cfg, s, t)
  {
    assert WorkerOk(cfg, s, t);
    var pc := s.threads[t].pc;
    if pc.LoadEpoch? {
      LoadEpochRank(cfg, s, t);
    } else if pc.LoadTerminal? {
      LoadTerminalRank(cfg, s, t);
    } else if pc.ReadDescriptor? {
      ReadDescriptorRank(cfg, s, t);
    } else if ReadsStatus(pc) {
      LeaveRank(cfg, s, t);
    } else {
      JoinRank(cfg, s, t);
    }
  }

  /** A useful step leaves its own slot with less to do. */
  lemma UsefulStepRank<P(!new), V(!new)>(cfg: Config<P, V>, s: State<P, V>, t: nat)
    requires Inv(cfg, s) && Enabled(s, t) && !Spins(s, t)
    ensures Inv(cfg, Next(cfg, s, t))
    ensures ThreadRank(cfg, Next(cfg, s, t), t) < ThreadRank(cfg, s, t)
  {
    StepInv(cfg, s, t);
    var pc := s.threads[t].pc;
    if pc.RunShare? && pc.next < pc.end {
      RowRank(cfg, s, t);
    } else if pc.RunShare? {
      AddHitsRank(cfg, s, t);
    } else if pc.Wait? {
      WaitRankDecreases(cfg, s, t);
    } else if t == 0 {
      CoordinatorStepRank(cfg, s);
    } else {
      WorkerStepRank(cfg, s, t);
    }
  }

  ghost predicate OnlyTouches<P(!new), V(!new)>(s: State<P, V>, s': State<P, V>, t: nat) {
    && |s'.threads| == |s.threads| == |s.barrier.threads| == |s'.barrier.threads|
    && s'.jobEpoch == s.jobEpoch && s'.terminal == s.terminal && s'.results == s.results
    && forall u | 0 <= u < |s.threads| && u != t ::
         s'.threads[u] == s.threads[u] && s'.barrier.threads[u] == s.barrier.threads[u]
  }

  lemma StatusTouches<P(!new), V(!new)>(cfg: Config<P, V>, s: State<P, V>, t: nat)
    requires Shaped(cfg, s) && Enabled(s, t) && ReadsStatus(s.threads[t].pc)
    ensures OnlyTouches(s, Next(cfg, s, t), t)
  {
  }

  lemma LoadTouches<P(!new), V(!new)>(cfg: Config<P, V>, s: State<P, V>, t: nat)
    requires Shaped(cfg, s) && Enabled(s, t)
    requires s.threads[t].pc.LoadEpoch? || s.threads[t].pc.LoadTerminal? || s.threads[t].pc.ReadDescriptor?
    ensures OnlyTouches(s, Next(cfg, s, t), t)
  {
  }

  lemma JoinTouches<P(!new), V(!new)>(cfg: Config<P, V>, s: State<P, V>, t: nat)
    requires Shaped(cfg, s) && Enabled(s, t)
    requires s.threads[t].pc.ClaimWorkers? || s.threads[t].pc.ClaimBackend?
    ensures OnlyTouches(s, Next(cfg, s, t), t)
  {
  }

  lemma ShareTouches<P(!new), V(!new)>(cfg: Config<P, V>, s: State<P, V>, t: nat)
    requires Shaped(cfg, s) && Enabled(s, t) && (s.threads[t].pc.RunShare? || s.threads[t].pc.Wait?)
    ensures OnlyTouches(s, Next(cfg, s, t), t)
  {
    if s.threads[t].pc.Wait? {
      B.AdvanceShape(s.barrier, t);
    }
  }

  lemma WorkerTouches<P(!new), V(!new)>(cfg: Config<P, V>, s: State<P, V>, t: nat)
    requires Inv(cfg, s) && Enabled(s, t) && 0 < t
    ensures OnlyTouches(s, Next(cfg, s, t), t)
  {
    assert WorkerOk(cfg, s, t);
    var pc := s.threads[t].pc;
    if pc.RunShare? || pc.Wait? {
      ShareTouches(cfg, s, t);
    } else if ReadsStatus(pc) {
      StatusTouches(cfg, s, t);
    } else if pc.ClaimWorkers? || pc.ClaimBackend? {
      JoinTouches(cfg, s, t);
    } else {
      LoadTouches(cfg, s, t);
    }
  }

  /** A worker's step leaves the other slots' remaining work alone. */
  lemma OthersRank<P(!new), V(!new)>(cfg: Config<P, V>, s: State<P, V>, s': State<P, V>, t: nat)
    requires OnlyTouches(s, s', t)
    ensures forall u: nat | u < |s.threads| && u != t :: ThreadRank(cfg, s', u) == ThreadRank(cfg, s, u)
  {
  }

  lemma UsefulStepDecreases<P(!new), V(!new)>(cfg: Config<P, V>, s: State<P, V>, t: nat)
    requires Inv(cfg, s) && Enabled(s, t) && !Spins(s, t)
    ensures Inv(cfg, Next(cfg, s, t))
    ensures Measure(cfg, Next(cfg, s, t)) < Measure(cfg, s)
  {
    var s' := Next(cfg, s, t);
    UsefulStepRank(cfg, s, t);
    if t == 0 {
      WorkersRankBound(cfg, s', cfg.workers);
      RankTrade(ThreadRank(cfg, s', 0), ThreadRank(cfg, s, 0), cfg.workers * RankLimit(cfg),
                WorkersRank(cfg, s', cfg.workers));
    } else {
      WorkerTouches(cfg, s, t);
      OthersRank(cfg, s, s', t);
      WorkersRankChange(cfg, s, s', t, cfg.workers);
    }
  }

  lemma RankTrade(less: nat, more: nat, limit: nat, rest: nat)
    requires less < more && rest <= limit
    ensures less * (limit + 1) + rest < more * (limit + 1)
  {
    ProductMonotone(limit + 1, less + 1, more);
  }

  lemma SpinKeepsRank<P(!new), V(!new)>(cfg: Config<P, V>, s: State<P, V>, t: nat)
    requires Inv(cfg, s) && Enabled(s, t) && Spins(s, t) && !s.threads[t].pc.Wait?
    ensures t > 0 && ThreadRank(cfg, Next(cfg, s, t), t) == ThreadRank(cfg, s, t)
  {
  }

  /** Re-reading does not make work. */
  lemma SpinKeepsMeasure<P(!new), V(!new)>(cfg: Config<P, V>, s: State<P, V>, t: nat)
    requires Inv(cfg, s) && Enabled(s, t) && Spins(s, t)
    ensures Inv(cfg, Next(cfg, s, t))
    ensures Measure(cfg, Next(cfg, s, t)) == Measure(cfg, s)
  {
    var s' := Next(cfg, s, t);
    StepInv(cfg, s, t);
    if s.threads[t].pc.Wait? {
      assert s' == s;
    } else {
      SpinKeepsRank(cfg, s, t);
      WorkerTouches(cfg, s, t);
      OthersRank(cfg, s, s', t);
      WorkersRankChange(cfg, s, s', t, cfg.workers);
    }
  }

  // ---- main results ----

  /** Step `i` is taken by the slot that the schedule names. */
  ghost predicate StepAt<P(!new), V(!new)>(cfg: Config<P, V>, run: seq<State<P, V>>, schedule: seq<nat>, i: nat)
    requires i < |schedule| < |run|
  {
    && Shaped(cfg, run[i]) && Enabled(run[i], schedule[i])
    && run[i + 1] == Next(cfg, run[i], schedule[i])
  }

  /** A run together with the slot that takes each step. */
  ghost predicate Follows<P(!new), V(!new)>(cfg: Config<P, V>, run: seq<State<P, V>>, schedule: seq<nat>) {
    && |run| == |schedule| + 1
    && forall i: nat | i < |schedule| :: StepAt(cfg, run, schedule, i)
  }

  predicate Useful<P, V>(s: State<P, V>, t: nat) {
    t < |s.threads| && t < |s.barrier.threads| && !Spins(s, t)
  }

  /** How many of the first `n` steps are not spins. */
  function UsefulSteps<P, V>(run: seq<State<P, V>>, schedule: seq<nat>, n: nat): nat
    requires n <= |schedule| < |run|
  {
    if n == 0 then 0
    else UsefulSteps(run, schedule, n - 1) + if Useful(run[n - 1], schedule[n - 1]) then 1 else 0
  }

  /** A bound on the useful steps of a dispatch, fixed before it starts. */
  function Budget<P, V>(cfg: Config<P, V>): nat {
    RankLimit(cfg) * (cfg.workers * RankLimit(cfg) + 1) + cfg.workers * RankLimit(cfg)
  }

  lemma SumBound(a: nat, b: nat, k: nat, c: nat, d: nat)
    requires a <= b && c <= d
    ensures a * k + c <= b * k + d
  {
    ProductMonotone(k, a, b);
  }

  lemma MeasureWithinBudget<P(!new), V(!new)>(cfg: Config<P, V>, s: State<P, V>)
    requires Inv(cfg, s)
    ensures Measure(cfg, s) <= Budget(cfg)
  {
    RankBelowLimit(cfg, s, 0);
    WorkersRankBound(cfg, s, cfg.workers);
    SumBound(ThreadRank(cfg, s, 0), RankLimit(cfg), cfg.workers * RankLimit(cfg) + 1,
             WorkersRank(cfg, s, cfg.workers), cfg.workers * RankLimit(cfg));
  }

  lemma {:induction false} UsefulStepsSpend<P(!new), V(!new)>(
      cfg: Config<P, V>, run: seq<State<P, V>>, schedule: seq<nat>, n: nat)
    requires ValidConfig(cfg) && Follows(cfg, run, schedule) && Start(cfg, run[0]) && n <= |schedule|
    ensures Inv(cfg, run[n])
    ensures UsefulSteps(run, schedule, n) + Measure(cfg, run[n]) <= Budget(cfg)
  {
    hide Inv, Measure, Budget, Next, Spins;
    if n == 0 {
      StartInv(cfg, run[0]);
      MeasureWithinBudget(cfg, run[0]);
    } else {
      UsefulStepsSpend(cfg, run, schedule, n - 1);
      assert StepAt(cfg, run, schedule, n - 1);
      if Spins(run[n - 1], schedule[n - 1]) {
        SpinKeepsMeasure(cfg, run[n - 1], schedule[n - 1]);
      } else {
        UsefulStepDecreases(cfg, run[n - 1], schedule[n - 1]);
      }
    }
  }

  /**
   No run, however it is scheduled, makes more than `Budget` useful steps, and while any slot
   has not returned another useful step exists: a dispatch whose slots keep being
   scheduled ends with every slot returned.
   */
  lemma DispatchTerminates<P(!new), V(!new)>(cfg: Config<P, V>, run: seq<State<P, V>>, schedule: seq<nat>)
    requires ValidConfig(cfg) && Follows(cfg, run, schedule) && Start(cfg, run[0])
    ensures UsefulSteps(run, schedule, |schedule|) <= Budget(cfg)
    ensures AllReturned(run[|schedule|]) || CanMove(run[|schedule|])
  {
    UsefulStepsSpend(cfg, run, schedule, |schedule|);
    if !AllReturned(run[|schedule|]) {
      SomeoneMoves(cfg, run[|schedule|]);
    }
  }

  // ---- fair schedules ----

  /** In steps `i..j`, every slot that has not returned by then gets a turn. */
  ghost predicate Round<P(!new), V(!new)>(
      cfg: Config<P, V>, run: seq<State<P, V>>, schedule: seq<nat>, i: nat, j: nat)
    requires Follows(cfg, run, schedule)
  {
    && i <= j <= |schedule|
    && forall t: nat | t < |run[j].threads| :: run[j].threads[t].pc.Returned? || t in schedule[i..j]
  }

  /** Slot `t` has something useful to do. */
  ghost predicate Ready<P(!new), V(!new)>(cfg: Config<P, V>, s: State<P, V>, t: nat) {
    Inv(cfg, s) && t < cfg.workers && Enabled(s, t) && !Spins(s, t)
  }

  /** A spin is a step of another slot, and leaves `t` with something useful to do. */
  lemma SpinLeavesOthers<P(!new), V(!new)>(cfg: Config<P, V>, s: State<P, V>, u: nat, t: nat)
    requires Ready(cfg, s, t) && Enabled(s, u) && Spins(s, u)
    ensures u != t && Ready(cfg, Next(cfg, s, u), t)
  {
    StepInv(cfg, s, u);
    if s.threads[u].pc.Wait? {
      assert Next(cfg, s, u) == s;
    } else {
      WorkerTouches(cfg, s, u);
    }
  }

  lemma {:induction false} UsefulStepsGrow<P, V>(run: seq<State<P, V>>, schedule: seq<nat>, i: nat, j: nat)
    requires i <= j <= |schedule| < |run|
    ensures UsefulSteps(run, schedule, i) <= UsefulSteps(run, schedule, j)
  {
    if i < j {
      UsefulStepsGrow(run, schedule, i, j - 1);
    }
  }

  /** As long as `t` gets no turn it keeps having something useful to do, unless somebody else does something useful. */
  lemma {:induction false} WaitsForTurn<P(!new), V(!new)>(
      cfg: Config<P, V>, run: seq<State<P, V>>, schedule: seq<nat>, i: nat, j: nat, t: nat)
    requires Follows(cfg, run, schedule) && i <= j <= |schedule| && Ready(cfg, run[i], t)
    ensures || UsefulSteps(run, schedule, i) < UsefulSteps(run, schedule, j)
            || (Ready(cfg, run[j], t) && t !in schedule[i..j])
  {
    hide Inv, Next, Spins;
    if i < j {
      WaitsForTurn(cfg, run, schedule, i, j - 1, t);
      UsefulStepsGrow(run, schedule, i, j - 1);
      var before, u := run[j - 1], schedule[j - 1];
      assert StepAt(cfg, run, schedule, j - 1);
      if Ready(cfg, before, t) && !Useful(before, u) && t !in schedule[i..j - 1] {
        SpinLeavesOthers(cfg, before, u, t);
        assert schedule[i..j] == schedule[i..j - 1] + [u];
      }
    }
  }

  /** Every round does something useful, or everybody has returned. */
  lemma RoundProgress<P(!new), V(!new)>(
      cfg: Config<P, V>, run: seq<State<P, V>>, schedule: seq<nat>, i: nat, j: nat)
    requires Follows(cfg, run, schedule) && Round(cfg, run, schedule, i, j)
    requires Inv(cfg, run[i])
    ensures AllReturned(run[i]) || UsefulSteps(run, schedule, i) < UsefulSteps(run, schedule, j)
  {
    if !AllReturned(run[i]) {
      SomeoneMoves(cfg, run[i]);
      var t: nat :| t < |run[i].threads| && Enabled(run[i], t) && !Spins(run[i], t);
      WaitsForTurn(cfg, run, schedule, i, j, t);
    }
  }

  lemma EndsThere<P(!new), V(!new)>(cfg: Config<P, V>, run: seq<State<P, V>>, schedule: seq<nat>, i: nat)
    requires Follows(cfg, run, schedule) && i <= |schedule| && AllReturned(run[i])
    ensures i == |schedule|
  {
    assert i < |schedule| ==> StepAt(cfg, run, schedule, i);
  }

  ghost predicate Rounds<P(!new), V(!new)>(
      cfg: Config<P, V>, run: seq<State<P, V>>, schedule: seq<nat>, cuts: seq<nat>)
    requires Follows(cfg, run, schedule)
  {
    && cuts != [] && cuts[0] <= |schedule|
    && forall k | 0 <= k < |cuts| - 1 :: Round(cfg, run, schedule, cuts[k], cuts[k + 1])
  }

  lemma {:induction false} RoundsCount<P(!new), V(!new)>(
      cfg: Config<P, V>, run: seq<State<P, V>>, schedule: seq<nat>, cuts: seq<nat>, k: nat)
    requires ValidConfig(cfg) && Follows(cfg, run, schedule) && Start(cfg, run[0])
    requires Rounds(cfg, run, schedule, cuts) && k < |cuts|
    ensures cuts[k] <= |schedule|
    ensures AllReturned(run[cuts[k]]) || k <= UsefulSteps(run, schedule, cuts[k])
  {
    if k > 0 {
      RoundsCount(cfg, run, schedule, cuts, k - 1);
      var i, j := cuts[k - 1], cuts[k];
      assert Round(cfg, run, schedule, i, j);
      if AllReturned(run[i]) {
        EndsThere(cfg, run, schedule, i);
      } else {
        UsefulStepsSpend(cfg, run, schedule, i);
        RoundProgress(cfg, run, schedule, i, j);
      }
    }
  }

  /**
   A fair schedule ends: after more rounds than the budget, every slot has returned 0 and the results are
   those of the serial evaluation.
   */
  lemma FairDispatchEnds<P(!new), V(!new)>(
      cfg: Config<P, V>, run: seq<State<P, V>>, schedule: seq<nat>, cuts: seq<nat>)
    requires ValidConfig(cfg) && Follows(cfg, run, schedule) && Start(cfg, run[0])
    requires Rounds(cfg, run, schedule, cuts) && |cuts| > Budget(cfg) + 1
    ensures cuts[|cuts| - 1] <= |schedule|
    ensures var end := run[cuts[|cuts| - 1]];
      && |end.threads| == cfg.workers
      && (forall t | 0 <= t < cfg.workers :: end.threads[t].pc == Returned(0))
      && (end.terminal, end.results) == SerialRun(cfg.program, [])
  {
    var last := |cuts| - 1;
    RoundsCount(cfg, run, schedule, cuts, last);
    UsefulStepsSpend(cfg, run, schedule, cuts[last]);
    InvSafe(cfg, run[cuts[last]]);
  }

  /**
   From every reachable state the dispatch can be driven to the end, where every slot
   returns 0 and the results are the serial ones.
   */
  lemma {:induction false} CanFinish<P(!new), V(!new)>(cfg: Config<P, V>, s: State<P, V>)
      returns (run: seq<State<P, V>>, schedule: seq<nat>)
    requires Inv(cfg, s)
    ensures Follows(cfg, run, schedule) && run[0] == s
    ensures var end := run[|schedule|];
      && AllReturned(end)
      && (forall t | 0 <= t < |end.threads| :: end.threads[t].pc == Returned(0))
      && (end.terminal, end.results) == SerialRun(cfg.program, [])
    decreases Measure(cfg, s)
  {
    if AllReturned(s) {
      run, schedule := [s], [];
      InvSafe(cfg, s);
    } else {
      SomeoneMoves(cfg, s);
      var t: nat :| t < |s.threads| && Enabled(s, t) && !Spins(s, t);
      UsefulStepDecreases(cfg, s, t);
      var rest, order := CanFinish(cfg, Next(cfg, s, t));
      run, schedule := [s] + rest, [t] + order;
      PrependStep(cfg, s, t, rest, order);
    }
  }

  lemma PrependStep<P(!new), V(!new)>(
      cfg: Config<P, V>, s: State<P, V>, t: nat, rest: seq<State<P, V>>, order: seq<nat>)
    requires Follows(cfg, rest, order) && Shaped(cfg, s) && Enabled(s, t) && rest[0] == Next(cfg, s, t)
    ensures Follows(cfg, [s] + rest, [t] + order)
  {
    var run, schedule := [s] + rest, [t] + order;
    forall i: nat | i < |schedule| ensures StepAt(cfg, run, schedule, i) {
      if i > 0 {
        assert run[i] == rest[i - 1] && schedule[i] == order[i - 1] && run[i + 1] == rest[i];
        assert StepAt(cfg, rest, order, i - 1);
      }
    }
  }
}
