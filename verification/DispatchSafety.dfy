/**
 What every interleaving of a token dispatch keeps, and what it has achieved once
 the coordinator has stored its terminal code.
 */
module DispatchSafety {
  import B = Barrier
  import opened Rows
  import opened Dispatch

  // ---- the inductive invariant ----

  predicate CoordinatorPC(pc: PC) {
    !(pc.LoadEpoch? || pc.ReadDescriptor? || pc.LoadTerminal? || pc.RejectHits? || pc.StoreReject?)
  }

  predicate WorkerPC(pc: PC) {
    || pc.ClaimWorkers? || pc.ClaimBackend? || pc.RunShare? || pc.Wait?
    || pc.LoadEpoch? || pc.ReadDescriptor? || pc.LoadTerminal? || Leaving(pc)
  }

  predicate Leaving(pc: PC) {
    || pc.StatusRejection? || pc.StatusTerminal? || pc.StatusEpoch? || pc.StatusArrivals?
    || pc.StatusGeneration? || pc.Returned?
  }

  /** The coordinator has published a job whose results it has not yet read back. */
  predicate JobPublished(pc: PC) {
    pc.RunShare? || pc.Wait? || pc.CheckHits? || pc.RejectHits? || pc.Collect?
  }

  /** The coordinator has staged the inputs of the next job, or is running it. */
  predicate JobStaged(pc: PC) {
    pc.WriteDescriptor? || pc.ZeroHits? || pc.PublishEpoch? || JobPublished(pc)
  }

  ghost predicate SharedOk<P(!new), V(!new)>(cfg: Config<P, V>, s: State<P, V>)
    requires ValidConfig(cfg) && Shaped(cfg, s)
  {
    var c, expected := s.threads[0].pc, ExpectedJobs(cfg.program.produceLogits);
    && s.rejection == 0
    && (s.workersCell == 0 || s.workersCell == cfg.workers)
    && (s.backendCell == UNCLAIMED || s.backendCell == cfg.backend)
    && s.jobEpoch == |s.results| + (if JobPublished(c) then 1 else 0)
    && |s.results| <= expected
    && SerialRun(cfg.program, s.results) == SerialRun(cfg.program, [])
    && (s.terminal != 0 <==> Leaving(c))
    && (s.terminal != 0 ==> SerialRun(cfg.program, []) == (s.terminal, s.results) && s.terminal <= 2)
    && (c.StoreTerminal? ==> SerialRun(cfg.program, []) == (c.code, s.results) && 1 <= c.code <= 2)
    && (s.terminal == 1 || c == StoreTerminal(1) ==> |s.results| == expected)
    && (JobStaged(c) ==>
          && |s.results| < expected
          && cfg.program.demand(s.results) == Publish(s.job.prepared, JobRows(cfg.program, s.results)))
    && (JobStaged(c) && !c.WriteDescriptor? ==> s.job.descriptor == JobDescriptor(cfg.program, s.results))
    && (c.PublishEpoch? ==> s.job.rowHits == 0)
  }

  ghost predicate CoordinatorOk<P(!new), V(!new)>(cfg: Config<P, V>, s: State<P, V>)
    requires Shaped(cfg, s) && cfg.workers >= 2
  {
    var th, b := s.threads[0], s.barrier.threads[0];
    && CoordinatorPC(th.pc)
    && b.rounds + (if th.pc.RunShare? || th.pc.Wait? then 1 else 0) == s.jobEpoch
  }

  ghost predicate WorkerOk<P(!new), V(!new)>(cfg: Config<P, V>, s: State<P, V>, t: nat)
    requires Shaped(cfg, s) && t < cfg.workers
  {
    var th, b := s.threads[t], s.barrier.threads[t];
    && WorkerPC(th.pc)
    && th.observed == b.rounds
    && (th.pc.ReadDescriptor? || th.pc.RunShare? || th.pc.Wait? ==>
          th.epoch == b.rounds + 1 <= s.jobEpoch)
    && (Leaving(th.pc) ==> s.terminal != 0)
  }

  ghost predicate ThreadOk<P(!new), V(!new)>(cfg: Config<P, V>, s: State<P, V>, t: nat)
    requires Shaped(cfg, s) && t < cfg.workers
  {
    var pc := s.threads[t].pc;
    && (!pc.ClaimWorkers? ==> s.workersCell == cfg.workers)
    && (!pc.ClaimWorkers? && !pc.ClaimBackend? ==> s.backendCell == cfg.backend)
    && (pc.RunShare? ==>
          && pc.d == s.job.descriptor
          && pc.first == FirstRow(pc.d.rows, cfg.workers, t)
          && pc.end == FirstRow(pc.d.rows, cfg.workers, t + 1)
          && pc.first <= pc.next <= pc.end)
    && (pc.StatusEpoch? ==> pc.terminal == s.terminal)
    && (pc.StatusArrivals? ==> pc.epoch == s.jobEpoch)
    && (pc.StatusGeneration? ==> pc.epoch == s.jobEpoch)
    && (pc.Returned? ==> pc.status == 0)
  }

  // ---- the rows of the published job ----

  /** A job is open from its publication until the barrier generation passes it. */
  predicate JobOpen<P, V>(s: State<P, V>) {
    s.jobEpoch == s.barrier.generation + 1
  }

  /** Has slot `t` added its hits for the open job? */
  predicate ShareDone<P, V>(s: State<P, V>, t: nat)
    requires t < |s.threads| && t < |s.barrier.threads|
  {
    s.threads[t].pc.Wait? && s.barrier.threads[t].rounds == s.barrier.generation
  }

  /** Rows of slot `t` below its cursor have been written. */
  function Cursor<P, V>(cfg: Config<P, V>, s: State<P, V>, t: nat): nat
    requires t < |s.threads| && t < |s.barrier.threads| && cfg.workers > 0
  {
    if s.threads[t].pc.RunShare? then s.threads[t].pc.next
    else FirstRow(s.job.descriptor.rows, cfg.workers, if ShareDone(s, t) then t + 1 else t)
  }

  function Hits<P, V>(cfg: Config<P, V>, s: State<P, V>, n: nat): int
    requires n <= |s.threads| && n <= |s.barrier.threads| && cfg.workers > 0
  {
    if n == 0 then 0
    else Hits(cfg, s, n - 1) +
         if ShareDone(s, n - 1)
         then FirstRow(s.job.descriptor.rows, cfg.workers, n) - FirstRow(s.job.descriptor.rows, cfg.workers, n - 1)
         else 0
  }

  ghost predicate RowDone<P(!new), V(!new)>(cfg: Config<P, V>, s: State<P, V>, row: nat)
    requires row < |s.job.written|
  {
    s.job.written[row] == 1 && s.job.output(row) == cfg.program.row(s.job.prepared, s.job.descriptor, row)
  }

  ghost predicate ShareOk<P(!new), V(!new)>(cfg: Config<P, V>, s: State<P, V>, t: nat)
    requires Shaped(cfg, s) && t < cfg.workers && |s.job.written| == s.job.descriptor.rows
  {
    forall row: nat | row < |s.job.written| && InShare(s.job.descriptor.rows, cfg.workers, t, row) ::
      if row < Cursor(cfg, s, t) then RowDone(cfg, s, row) else s.job.written[row] == 0
  }

  ghost predicate OpenJobOk<P(!new), V(!new)>(cfg: Config<P, V>, s: State<P, V>)
    requires Shaped(cfg, s) && cfg.workers >= 2
  {
    && |s.job.written| == s.job.descriptor.rows
    && (forall t: nat | t < cfg.workers :: ShareOk(cfg, s, t))
    && s.job.rowHits == Hits(cfg, s, cfg.workers)
  }

  ghost predicate ClosedJobOk<P(!new), V(!new)>(cfg: Config<P, V>, s: State<P, V>) {
    && |s.job.written| == s.job.descriptor.rows == s.job.rowHits
    && forall row: nat | row < |s.job.written| :: RowDone(cfg, s, row)
  }

  ghost predicate RowsOk<P(!new), V(!new)>(cfg: Config<P, V>, s: State<P, V>)
    requires Shaped(cfg, s) && cfg.workers >= 2
  {
    JobPublished(s.threads[0].pc) ==>
      if JobOpen(s) then OpenJobOk(cfg, s) else ClosedJobOk(cfg, s)
  }

  ghost predicate ThreadsOk<P(!new), V(!new)>(cfg: Config<P, V>, s: State<P, V>)
    requires Shaped(cfg, s) && cfg.workers >= 2
  {
    && (forall t: nat | t < cfg.workers :: ThreadOk(cfg, s, t))
    && (forall t: nat | 0 < t < cfg.workers :: WorkerOk(cfg, s, t))
  }

  ghost predicate Inv<P(!new), V(!new)>(cfg: Config<P, V>, s: State<P, V>) {
    && ValidConfig(cfg)
    && Shaped(cfg, s)
    && B.Inv(s.barrier)
    && SharedOk(cfg, s)
    && CoordinatorOk(cfg, s)
    && ThreadsOk(cfg, s)
    && RowsOk(cfg, s)
  }

  // ---- consequences of the invariant used by the step lemmas ----

  /** The epoch is the generation, or one ahead of it while a job is open. */
  lemma EpochTracksGeneration<P(!new), V(!new)>(cfg: Config<P, V>, s: State<P, V>)
    requires Inv(cfg, s)
    ensures s.jobEpoch == s.barrier.generation || JobOpen(s)
    ensures JobOpen(s) ==> s.threads[0].pc.RunShare? || s.threads[0].pc.Wait?
    ensures s.threads[0].pc.RunShare? ==> JobOpen(s)
  {
    assert B.ThreadOk(s.barrier.threads[0], s.barrier.generation);
  }

  /** A worker that is serving a job serves the open one. */
  lemma ServingMeansOpen<P(!new), V(!new)>(cfg: Config<P, V>, s: State<P, V>, t: nat)
    requires Inv(cfg, s) && t < cfg.workers
    ensures s.threads[t].pc.RunShare? || (t > 0 && s.threads[t].pc.ReadDescriptor?) || ShareDone(s, t) ==>
              JobOpen(s) && JobPublished(s.threads[0].pc)
  {
    EpochTracksGeneration(cfg, s);
    assert B.ThreadOk(s.barrier.threads[t], s.barrier.generation);
    if t > 0 {
      assert WorkerOk(cfg, s, t);
    }
  }

  lemma StartInv<P(!new), V(!new)>(cfg: Config<P, V>, s: State<P, V>)
    requires ValidConfig(cfg) && Start(cfg, s)
    ensures Inv(cfg, s)
  {
    B.StartInv(cfg.workers);
  }

  // ---- frame: steps that leave the published job alone ----

  lemma {:induction false} HitsFrame<P(!new), V(!new)>(cfg: Config<P, V>, s: State<P, V>, s': State<P, V>, n: nat)
    requires cfg.workers > 0
    requires n <= |s.threads| && n <= |s.barrier.threads|
    requires n <= |s'.threads| && n <= |s'.barrier.threads|
    requires s'.job.descriptor == s.job.descriptor
    requires forall t: nat | t < n :: ShareDone(s', t) == ShareDone(s, t)
    ensures Hits(cfg, s', n) == Hits(cfg, s, n)
  {
    if n > 0 {
      HitsFrame(cfg, s, s', n - 1);
    }
  }

  ghost predicate SameJob<P(!new), V(!new)>(s: State<P, V>, s': State<P, V>) {
    s'.job == s.job && JobOpen(s') == JobOpen(s)
  }

  lemma RowsFrame<P(!new), V(!new)>(cfg: Config<P, V>, s: State<P, V>, s': State<P, V>)
    requires ValidConfig(cfg) && Shaped(cfg, s) && Shaped(cfg, s') && RowsOk(cfg, s)
    requires SameJob(s, s')
    requires JobPublished(s'.threads[0].pc) ==> JobPublished(s.threads[0].pc)
    requires forall t: nat | t < cfg.workers ::
      ShareDone(s', t) == ShareDone(s, t) && Cursor(cfg, s', t) == Cursor(cfg, s, t)
    ensures RowsOk(cfg, s')
  {
    if JobPublished(s'.threads[0].pc) && JobOpen(s') {
      HitsFrame(cfg, s, s', cfg.workers);
      forall t: nat | t < cfg.workers ensures ShareOk(cfg, s', t) {
        assert ShareOk(cfg, s, t);
        forall row: nat | row < |s'.job.written| && InShare(s'.job.descriptor.rows, cfg.workers, t, row)
          ensures if row < Cursor(cfg, s', t) then RowDone(cfg, s', row) else s'.job.written[row] == 0
        {
          assert RowDone(cfg, s', row) == RowDone(cfg, s, row);
        }
      }
    }
    if JobPublished(s'.threads[0].pc) && !JobOpen(s') {
      forall row: nat | row < |s'.job.written| ensures RowDone(cfg, s', row) {
        assert RowDone(cfg, s, row);
      }
    }
  }

  /**
   Steps that move one thread and leave the barrier and the published job alone: the
   other threads' obligations carry over.
   */
  ghost predicate MovesOnly<P(!new), V(!new)>(cfg: Config<P, V>, s: State<P, V>, s': State<P, V>, t: nat)
    requires Shaped(cfg, s) && Shaped(cfg, s') && cfg.workers >= 2
  {
    && t < cfg.workers
    && s'.threads == s.threads[t := s'.threads[t]]
    && s'.barrier == s.barrier
    && s'.jobEpoch == s.jobEpoch && s'.results == s.results && SameJob(s, s')
    && (s'.workersCell == s.workersCell || s'.workersCell == cfg.workers)
    && (s'.backendCell == s.backendCell || s'.backendCell == cfg.backend)
    && (s'.terminal == s.terminal || s.terminal == 0)
    && (JobPublished(s'.threads[0].pc) ==> JobPublished(s.threads[0].pc))
    && !s.threads[t].pc.Wait? && !s'.threads[t].pc.Wait?
    && Cursor(cfg, s', t) == Cursor(cfg, s, t)
  }

  lemma MoveRows<P(!new), V(!new)>(cfg: Config<P, V>, s: State<P, V>, s': State<P, V>, t: nat)
    requires Inv(cfg, s) && Shaped(cfg, s') && MovesOnly(cfg, s, s', t)
    ensures RowsOk(cfg, s')
  {
    forall u: nat | u < cfg.workers
      ensures ShareDone(s', u) == ShareDone(s, u) && Cursor(cfg, s', u) == Cursor(cfg, s, u)
    {
      if u != t {
        assert s'.threads[u] == s.threads[u];
      }
    }
    RowsFrame(cfg, s, s');
  }

  lemma MoveThreads<P(!new), V(!new)>(cfg: Config<P, V>, s: State<P, V>, s': State<P, V>, t: nat)
    requires Inv(cfg, s) && Shaped(cfg, s') && MovesOnly(cfg, s, s', t)
    requires SharedOk(cfg, s') && ThreadOk(cfg, s', t) && (t > 0 ==> WorkerOk(cfg, s', t))
    requires s'.terminal != s.terminal ==> t == 0
    ensures ThreadsOk(cfg, s')
  {
    forall u: nat | u < cfg.workers ensures ThreadOk(cfg, s', u) {
      if u != t {
        assert ThreadOk(cfg, s, u);
        assert s'.threads[u] == s.threads[u];
        if s.terminal == 0 && s'.terminal != 0 && u > 0 {
          assert WorkerOk(cfg, s, u);
        }
      }
    }
    forall u: nat | 0 < u < cfg.workers ensures WorkerOk(cfg, s', u) {
      if u != t {
        assert WorkerOk(cfg, s, u);
        assert s'.threads[u] == s.threads[u];
      }
    }
  }

  lemma MoveInv<P(!new), V(!new)>(cfg: Config<P, V>, s: State<P, V>, s': State<P, V>, t: nat)
    requires Inv(cfg, s) && Shaped(cfg, s') && MovesOnly(cfg, s, s', t)
    requires SharedOk(cfg, s') && CoordinatorOk(cfg, s')
    requires ThreadOk(cfg, s', t) && (t > 0 ==> WorkerOk(cfg, s', t))
    requires s'.terminal != s.terminal ==> t == 0
    ensures Inv(cfg, s')
  {
    MoveRows(cfg, s, s', t);
    MoveThreads(cfg, s, s', t);
  }

  // ---- one lemma per kind of step ----

  lemma ClaimWorkersStep<P(!new), V(!new)>(cfg: Config<P, V>, s: State<P, V>, t: nat)
    requires Inv(cfg, s) && t < cfg.workers && s.threads[t].pc.ClaimWorkers?
    ensures Inv(cfg, DoClaimWorkers(cfg, s, t))
  {
    var s' := DoClaimWorkers(cfg, s, t);
    assert ThreadOk(cfg, s, t);
    assert t > 0 ==> WorkerOk(cfg, s, t);
    assert s' == Goto(s.(workersCell := cfg.workers), t, ClaimBackend);
    assert SharedOk(cfg, s');
    MoveInv(cfg, s, s', t);
  }

  lemma ClaimBackendStep<P(!new), V(!new)>(cfg: Config<P, V>, s: State<P, V>, t: nat)
    requires Inv(cfg, s) && t < cfg.workers && s.threads[t].pc.ClaimBackend?
    ensures Inv(cfg, DoClaimBackend(cfg, s, t))
  {
    var s' := DoClaimBackend(cfg, s, t);
    assert ThreadOk(cfg, s, t);
    assert t > 0 ==> WorkerOk(cfg, s, t);
    assert s' == Goto(s.(backendCell := cfg.backend), t, if t == 0 then Plan else LoadEpoch);
    assert SharedOk(cfg, s');
    MoveInv(cfg, s, s', t);
  }

  lemma TerminalStep<P(!new), V(!new)>(cfg: Config<P, V>, s: State<P, V>, t: nat, code: nat)
    requires Inv(cfg, s) && t < cfg.workers && s.threads[t].pc == StoreTerminal(code)
    ensures Inv(cfg, Goto(s.(terminal := code), t, StatusRejection))
  {
    assert ThreadOk(cfg, s, t);
    assert t > 0 ==> WorkerOk(cfg, s, t);
    MoveInv(cfg, s, Goto(s.(terminal := code), t, StatusRejection), t);
  }

  lemma LoadEpochStep<P(!new), V(!new)>(cfg: Config<P, V>, s: State<P, V>, t: nat)
    requires Inv(cfg, s) && t < cfg.workers && s.threads[t].pc.LoadEpoch?
    ensures Inv(cfg, DoLoadEpoch(s, t))
  {
    assert ThreadOk(cfg, s, t);
    assert t > 0 ==> WorkerOk(cfg, s, t);
    EpochTracksGeneration(cfg, s);
    assert B.ThreadOk(s.barrier.threads[t], s.barrier.generation);
    MoveInv(cfg, s, DoLoadEpoch(s, t), t);
  }

  lemma LoadTerminalStep<P(!new), V(!new)>(cfg: Config<P, V>, s: State<P, V>, t: nat)
    requires Inv(cfg, s) && t < cfg.workers && s.threads[t].pc.LoadTerminal?
    ensures Inv(cfg, DoLoadTerminal(s, t))
  {
    assert ThreadOk(cfg, s, t);
    assert t > 0 ==> WorkerOk(cfg, s, t);
    MoveInv(cfg, s, DoLoadTerminal(s, t), t);
  }

  lemma ReadDescriptorStep<P(!new), V(!new)>(cfg: Config<P, V>, s: State<P, V>, t: nat)
    requires Inv(cfg, s) && t < cfg.workers && s.threads[t].pc.ReadDescriptor?
    ensures Inv(cfg, DoReadDescriptor(cfg, s, t))
  {
    assert ThreadOk(cfg, s, t);
    assert t > 0 ==> WorkerOk(cfg, s, t);
    ServingMeansOpen(cfg, s, t);
    FirstRowMonotone(s.job.descriptor.rows, cfg.workers, t, t + 1);
    MoveInv(cfg, s, DoReadDescriptor(cfg, s, t), t);
  }

  lemma CheckHitsStep<P(!new), V(!new)>(cfg: Config<P, V>, s: State<P, V>, t: nat)
    requires Inv(cfg, s) && t < cfg.workers && s.threads[t].pc.CheckHits?
    ensures Inv(cfg, DoCheckHits(cfg, s, t))
  {
    assert ThreadOk(cfg, s, t);
    assert t > 0 ==> WorkerOk(cfg, s, t);
    EpochTracksGeneration(cfg, s);
    MoveInv(cfg, s, DoCheckHits(cfg, s, t), t);
  }

  lemma StatusReads<P(!new), V(!new)>(cfg: Config<P, V>, s: State<P, V>)
    requires Inv(cfg, s) && s.terminal != 0
    ensures s.barrier.arrivals == 0 && s.barrier.generation == s.jobEpoch == |s.results|
    ensures s.terminal == 1 ==> s.jobEpoch == ExpectedJobs(cfg.program.produceLogits)
    ensures s.jobEpoch <= ExpectedJobs(cfg.program.produceLogits)
  {
    EpochTracksGeneration(cfg, s);
    forall u: nat | u < cfg.workers
      ensures !B.IsCloser(s.barrier.threads[u]) && !B.SpinsOn(s.barrier.threads[u], s.barrier.generation)
    {
      ServingMeansOpen(cfg, s, u);
      assert B.ThreadOk(s.barrier.threads[u], s.barrier.generation);
    }
    B.SpinnersBound(s.barrier.threads, s.barrier.generation);
  }

  /** What the next load of the protocol check finds. */
  lemma StatusNext<P(!new), V(!new)>(cfg: Config<P, V>, s: State<P, V>, t: nat)
    requires Inv(cfg, s) && t < cfg.workers && ReadsStatus(s.threads[t].pc)
    ensures s.terminal != 0
    ensures DoStatus(cfg, s, t) == Goto(s, t, match s.threads[t].pc
                                              case StatusRejection => StatusTerminal
                                              case StatusTerminal => StatusEpoch(s.terminal)
                                              case StatusEpoch(_) => StatusArrivals(s.jobEpoch)
                                              case StatusArrivals(_) => StatusGeneration(s.jobEpoch)
                                              case _ => Returned(0))
  {
    assert ThreadOk(cfg, s, t);
    assert t > 0 ==> WorkerOk(cfg, s, t);
    StatusReads(cfg, s);
  }

  /** A thread that only changes where it is, between points outside its share. */
  lemma GotoInv<P(!new), V(!new)>(cfg: Config<P, V>, s: State<P, V>, t: nat, pc: PC)
    requires Inv(cfg, s) && t < cfg.workers
    requires !s.threads[t].pc.Wait? && !s.threads[t].pc.RunShare? && !pc.Wait? && !pc.RunShare?
    requires SharedOk(cfg, Goto(s, t, pc)) && CoordinatorOk(cfg, Goto(s, t, pc))
    requires ThreadOk(cfg, Goto(s, t, pc), t) && (t > 0 ==> WorkerOk(cfg, Goto(s, t, pc), t))
    requires JobPublished(Goto(s, t, pc).threads[0].pc) ==> JobPublished(s.threads[0].pc)
    ensures Inv(cfg, Goto(s, t, pc))
  {
    MoveInv(cfg, s, Goto(s, t, pc), t);
  }

  lemma StatusStep<P(!new), V(!new)>(cfg: Config<P, V>, s: State<P, V>, t: nat)
    requires Inv(cfg, s) && t < cfg.workers && ReadsStatus(s.threads[t].pc)
    ensures Inv(cfg, DoStatus(cfg, s, t))
  {
    StatusNext(cfg, s, t);
    assert ThreadOk(cfg, s, t);
    assert t > 0 ==> WorkerOk(cfg, s, t);
    GotoInv(cfg, s, t, DoStatus(cfg, s, t).threads[t].pc);
  }

  // ---- the coordinator between jobs ----

  /** Between jobs nobody touches the job memory. */
  lemma QuietBetweenJobs<P(!new), V(!new)>(cfg: Config<P, V>, s: State<P, V>, t: nat)
    requires Inv(cfg, s) && t < cfg.workers && !JobPublished(s.threads[0].pc)
    ensures !s.threads[t].pc.RunShare? && (t > 0 ==> !s.threads[t].pc.ReadDescriptor?) && !ShareDone(s, t)
    ensures !JobOpen(s)
  {
    EpochTracksGeneration(cfg, s);
    ServingMeansOpen(cfg, s, t);
  }

  /** The coordinator may change the job memory between jobs: no thread has a claim on it. */
  lemma PrivateJobInv<P(!new), V(!new)>(cfg: Config<P, V>, s: State<P, V>, s': State<P, V>)
    requires Inv(cfg, s) && !JobPublished(s.threads[0].pc)
    requires |s'.threads| == |s.threads| && s' == s.(job := s'.job, threads := s.threads[0 := s'.threads[0]])
    requires !JobPublished(s'.threads[0].pc) && !Leaving(s'.threads[0].pc)
    requires CoordinatorPC(s'.threads[0].pc) && !s.threads[0].pc.ClaimWorkers? && !s.threads[0].pc.ClaimBackend?
    requires Shaped(cfg, s') && SharedOk(cfg, s')
    ensures Inv(cfg, s')
  {
    forall u: nat | u < cfg.workers ensures ThreadOk(cfg, s', u) {
      assert ThreadOk(cfg, s, u);
      QuietBetweenJobs(cfg, s, u);
    }
    forall u: nat | 0 < u < cfg.workers ensures WorkerOk(cfg, s', u) {
      assert WorkerOk(cfg, s, u);
      assert s'.threads[u] == s.threads[u];
    }
  }

  lemma PlanStep<P(!new), V(!new)>(cfg: Config<P, V>, s: State<P, V>, t: nat)
    requires Inv(cfg, s) && t < cfg.workers && s.threads[t].pc.Plan?
    ensures Inv(cfg, DoPlan(cfg, s, t))
  {
    assert t > 0 ==> WorkerOk(cfg, s, t);
    assert PlannedAt(cfg.program, s.results);
    PrivateJobInv(cfg, s, DoPlan(cfg, s, t));
  }

  lemma WriteDescriptorStep<P(!new), V(!new)>(cfg: Config<P, V>, s: State<P, V>, t: nat)
    requires Inv(cfg, s) && t < cfg.workers && s.threads[t].pc.WriteDescriptor?
    ensures Inv(cfg, DoWriteDescriptor(cfg, s, t))
  {
    assert t > 0 ==> WorkerOk(cfg, s, t);
    PrivateJobInv(cfg, s, DoWriteDescriptor(cfg, s, t));
  }

  lemma ZeroHitsStep<P(!new), V(!new)>(cfg: Config<P, V>, s: State<P, V>, t: nat)
    requires Inv(cfg, s) && t < cfg.workers && s.threads[t].pc.ZeroHits?
    ensures Inv(cfg, DoZeroHits(s, t))
  {
    assert t > 0 ==> WorkerOk(cfg, s, t);
    PrivateJobInv(cfg, s, DoZeroHits(s, t));
  }

  // ---- publication ----

  lemma {:induction false} NoHitsYet<P(!new), V(!new)>(cfg: Config<P, V>, s: State<P, V>, n: nat)
    requires cfg.workers > 0 && n <= |s.threads| && n <= |s.barrier.threads|
    requires forall t: nat | t < n :: !ShareDone(s, t)
    ensures Hits(cfg, s, n) == 0
  {
    if n > 0 {
      NoHitsYet(cfg, s, n - 1);
    }
  }

  lemma FreshRowsOk<P(!new), V(!new)>(cfg: Config<P, V>, s: State<P, V>)
    requires Shaped(cfg, s) && cfg.workers >= 2
    requires s.job.written == seq(s.job.descriptor.rows, _ => 0) && s.job.rowHits == 0
    requires forall t: nat | t < cfg.workers :: !ShareDone(s, t)
    requires forall t: nat | t < cfg.workers && s.threads[t].pc.RunShare? ::
      s.threads[t].pc.next == FirstRow(s.job.descriptor.rows, cfg.workers, t)
    ensures OpenJobOk(cfg, s)
  {
    NoHitsYet(cfg, s, cfg.workers);
  }

  lemma PublishedJobShape<P(!new), V(!new)>(cfg: Config<P, V>, s: State<P, V>)
    requires Inv(cfg, s) && s.threads[0].pc.PublishEpoch?
    ensures var s' := DoPublishEpoch(cfg, s, 0);
      && Shaped(cfg, s') && JobOpen(s') && SharedOk(cfg, s') && CoordinatorOk(cfg, s') && ThreadOk(cfg, s', 0)
  {
    assert ThreadOk(cfg, s, 0);
    EpochTracksGeneration(cfg, s);
    FirstRowEnds(s.job.descriptor.rows, cfg.workers);
  }

  lemma PublishStep<P(!new), V(!new)>(cfg: Config<P, V>, s: State<P, V>, t: nat)
    requires Inv(cfg, s) && t < cfg.workers && s.threads[t].pc.PublishEpoch?
    ensures Inv(cfg, DoPublishEpoch(cfg, s, t))
  {
    assert t > 0 ==> WorkerOk(cfg, s, t);
    PublishedJobShape(cfg, s);
    var s' := DoPublishEpoch(cfg, s, 0);
    forall u: nat | 0 < u < cfg.workers ensures ThreadOk(cfg, s', u) && WorkerOk(cfg, s', u) {
      assert ThreadOk(cfg, s, u) && WorkerOk(cfg, s, u);
      QuietBetweenJobs(cfg, s, u);
    }
    forall u: nat | u < cfg.workers
      ensures !ShareDone(s', u)
      ensures s'.threads[u].pc.RunShare? ==> s'.threads[u].pc.next == FirstRow(s'.job.descriptor.rows, cfg.workers, u)
    {
      QuietBetweenJobs(cfg, s, u);
      FirstRowEnds(s.job.descriptor.rows, cfg.workers);
    }
    FreshRowsOk(cfg, s');
  }

  // ---- reading a finished job back ----

  lemma SerialRunUnfolds<P(!new), V(!new)>(program: Program<P, V>, results: seq<seq<V>>, result: seq<V>)
    requires Planned(program) && program.demand(results).Publish?
    requires result == RunRows(program, program.demand(results).prepared, JobDescriptor(program, results))
    ensures SerialRun(program, results + [result]) == SerialRun(program, results)
  {
  }

  lemma CollectStep<P(!new), V(!new)>(cfg: Config<P, V>, s: State<P, V>, t: nat)
    requires Inv(cfg, s) && t < cfg.workers && s.threads[t].pc.Collect?
    ensures Inv(cfg, DoCollect(cfg, s, t))
  {
    assert t > 0 ==> WorkerOk(cfg, s, t);
    assert ThreadOk(cfg, s, 0);
    EpochTracksGeneration(cfg, s);
    var s' := DoCollect(cfg, s, 0);
    var result := s'.results[|s.results|];
    var serial := RunRows(cfg.program, s.job.prepared, s.job.descriptor);
    assert result == serial by {
      forall r | 0 <= r < |result| ensures result[r] == serial[r] {
        assert RowDone(cfg, s, r);
      }
    }
    SerialRunUnfolds(cfg.program, s.results, result);
    forall u: nat | u < cfg.workers ensures ThreadOk(cfg, s', u) {
      assert ThreadOk(cfg, s, u);
    }
    forall u: nat | 0 < u < cfg.workers ensures WorkerOk(cfg, s', u) {
      assert WorkerOk(cfg, s, u);
    }
  }

  // ---- running a share ----

  lemma RowKeepsShares<P(!new), V(!new)>(cfg: Config<P, V>, s: State<P, V>, t: nat, u: nat)
    requires Inv(cfg, s) && t < cfg.workers && u < cfg.workers && JobOpen(s) && JobPublished(s.threads[0].pc)
    requires s.threads[t].pc.RunShare? && s.threads[t].pc.next < s.threads[t].pc.end
    ensures Shaped(cfg, DoRow(cfg, s, t)) && |DoRow(cfg, s, t).job.written| == s.job.descriptor.rows
    ensures ShareOk(cfg, DoRow(cfg, s, t), u)
  {
    var s' := DoRow(cfg, s, t);
    var rows, at := s.job.descriptor.rows, s.threads[t].pc.next;
    assert ThreadOk(cfg, s, t) && ShareOk(cfg, s, t) && ShareOk(cfg, s, u);
    FirstRowMonotone(rows, cfg.workers, t + 1, cfg.workers);
    FirstRowEnds(rows, cfg.workers);
    assert InShare(rows, cfg.workers, t, at);
    forall row: nat | row < rows && InShare(rows, cfg.workers, u, row)
      ensures if row < Cursor(cfg, s', u) then RowDone(cfg, s', row) else s'.job.written[row] == 0
    {
      if row == at {
        OwnerUnique(rows, cfg.workers, row, t, u);
      } else {
        assert row < Cursor(cfg, s, u) ==> RowDone(cfg, s, row);
      }
    }
  }

  lemma RowStep<P(!new), V(!new)>(cfg: Config<P, V>, s: State<P, V>, t: nat)
    requires Inv(cfg, s) && t < cfg.workers
    requires s.threads[t].pc.RunShare? && s.threads[t].pc.next < s.threads[t].pc.end
    ensures Inv(cfg, DoRow(cfg, s, t))
  {
    var s' := DoRow(cfg, s, t);
    ServingMeansOpen(cfg, s, t);
    forall u: nat | u < cfg.workers ensures ShareOk(cfg, s', u) {
      RowKeepsShares(cfg, s, t, u);
    }
    HitsFrame(cfg, s, s', cfg.workers);
    forall u: nat | u < cfg.workers ensures ThreadOk(cfg, s', u) {
      assert ThreadOk(cfg, s, u);
    }
    forall u: nat | 0 < u < cfg.workers ensures WorkerOk(cfg, s', u) {
      assert WorkerOk(cfg, s, u);
    }
  }

  // ---- adding the hits and entering the barrier ----

  lemma {:induction false} HitsAdd<P(!new), V(!new)>(cfg: Config<P, V>, s: State<P, V>, s': State<P, V>, t: nat, n: nat)
    requires cfg.workers > 0 && t < n
    requires n <= |s.threads| && n <= |s.barrier.threads|
    requires n <= |s'.threads| && n <= |s'.barrier.threads|
    requires s'.job.descriptor == s.job.descriptor
    requires forall u: nat | u < n && u != t :: ShareDone(s', u) == ShareDone(s, u)
    requires ShareDone(s', t) && !ShareDone(s, t)
    ensures Hits(cfg, s', n) == Hits(cfg, s, n)
      + FirstRow(s.job.descriptor.rows, cfg.workers, t + 1) - FirstRow(s.job.descriptor.rows, cfg.workers, t)
  {
    if t == n - 1 {
      HitsFrame(cfg, s, s', n - 1);
    } else {
      HitsAdd(cfg, s, s', t, n - 1);
    }
  }

  lemma AddHitsRows<P(!new), V(!new)>(cfg: Config<P, V>, s: State<P, V>, t: nat)
    requires Inv(cfg, s) && t < cfg.workers && JobOpen(s) && JobPublished(s.threads[0].pc)
    requires s.threads[t].pc.RunShare? && s.threads[t].pc.next == s.threads[t].pc.end
    ensures Shaped(cfg, DoAddHits(s, t)) && OpenJobOk(cfg, DoAddHits(s, t))
  {
    var s' := DoAddHits(s, t);
    assert ThreadOk(cfg, s, t);
    assert B.ThreadOk(s.barrier.threads[t], s.barrier.generation);
    HitsAdd(cfg, s, s', t, cfg.workers);
    forall u: nat | u < cfg.workers ensures ShareOk(cfg, s', u) {
      assert ShareOk(cfg, s, u);
      assert Cursor(cfg, s', u) == Cursor(cfg, s, u);
      forall row: nat | row < |s'.job.written| && InShare(s'.job.descriptor.rows, cfg.workers, u, row)
        ensures if row < Cursor(cfg, s', u) then RowDone(cfg, s', row) else s'.job.written[row] == 0
      {
        assert RowDone(cfg, s', row) == RowDone(cfg, s, row);
      }
    }
  }

  lemma AddHitsStep<P(!new), V(!new)>(cfg: Config<P, V>, s: State<P, V>, t: nat)
    requires Inv(cfg, s) && t < cfg.workers
    requires s.threads[t].pc.RunShare? && s.threads[t].pc.next >= s.threads[t].pc.end
    ensures Inv(cfg, DoAddHits(s, t))
  {
    var s' := DoAddHits(s, t);
    assert ThreadOk(cfg, s, t);
    assert t > 0 ==> WorkerOk(cfg, s, t);
    ServingMeansOpen(cfg, s, t);
    AddHitsRows(cfg, s, t);
    B.EnterInv(s.barrier, t);
    forall u: nat | u < cfg.workers ensures ThreadOk(cfg, s', u) {
      assert ThreadOk(cfg, s, u);
    }
    forall u: nat | 0 < u < cfg.workers ensures WorkerOk(cfg, s', u) {
      assert WorkerOk(cfg, s, u);
    }
  }

  // ---- inside the barrier ----

  /** The barrier thread of `t` after its next access, with the facts the cases below need. */
  lemma WaitBarrier<P(!new), V(!new)>(cfg: Config<P, V>, s: State<P, V>, t: nat)
    requires Inv(cfg, s) && t < cfg.workers && s.threads[t].pc.Wait?
    ensures var s' := DoWait(s, t);
      && s'.barrier == B.Advance(s.barrier, t) && B.Inv(s'.barrier)
      && Shaped(cfg, s')
      && (forall u: nat | u < cfg.workers && u != t ::
            s'.threads[u] == s.threads[u] && s'.barrier.threads[u] == s.barrier.threads[u])
  {
    B.AdvanceInv(s.barrier, t);
    B.AdvanceShape(s.barrier, t);
  }

  lemma WaitSelf<P(!new), V(!new)>(cfg: Config<P, V>, s: State<P, V>, t: nat)
    requires Inv(cfg, s) && t < cfg.workers && s.threads[t].pc.Wait?
    requires Shaped(cfg, DoWait(s, t))
    ensures var s' := DoWait(s, t);
      && SharedOk(cfg, s') && CoordinatorOk(cfg, s')
      && ThreadOk(cfg, s', t) && (t > 0 ==> WorkerOk(cfg, s', t))
  {
    B.AdvanceShape(s.barrier, t);
    assert B.ThreadOk(s.barrier.threads[t], s.barrier.generation);
    assert ThreadOk(cfg, s, t);
    assert t > 0 ==> WorkerOk(cfg, s, t);
  }

  lemma WaitThreads<P(!new), V(!new)>(cfg: Config<P, V>, s: State<P, V>, t: nat)
    requires Inv(cfg, s) && t < cfg.workers && s.threads[t].pc.Wait?
    ensures var s' := DoWait(s, t);
      Shaped(cfg, s') && B.Inv(s'.barrier) && SharedOk(cfg, s') && CoordinatorOk(cfg, s') && ThreadsOk(cfg, s')
  {
    var s' := DoWait(s, t);
    WaitBarrier(cfg, s, t);
    WaitSelf(cfg, s, t);
    assert s'.job == s.job && s'.jobEpoch == s.jobEpoch && s'.terminal == s.terminal;
    forall u: nat | u < cfg.workers ensures ThreadOk(cfg, s', u) {
      assert ThreadOk(cfg, s, u);
    }
    forall u: nat | 0 < u < cfg.workers ensures WorkerOk(cfg, s', u) {
      assert WorkerOk(cfg, s, u);
    }
  }

  /** A barrier step that leaves the generation alone leaves the job alone. */
  lemma WaitKeepsRows<P(!new), V(!new)>(cfg: Config<P, V>, s: State<P, V>, t: nat)
    requires Inv(cfg, s) && t < cfg.workers && s.threads[t].pc.Wait? && !s.barrier.threads[t].pc.Release?
    ensures Shaped(cfg, DoWait(s, t)) && RowsOk(cfg, DoWait(s, t))
  {
    hide ThreadsOk, SharedOk, CoordinatorOk;
    var s' := DoWait(s, t);
    WaitBarrier(cfg, s, t);
    B.AdvanceShape(s.barrier, t);
    assert B.ThreadOk(s.barrier.threads[t], s.barrier.generation);
    assert ShareDone(s', t) == ShareDone(s, t);
    assert Cursor(cfg, s', t) == Cursor(cfg, s, t);
    forall u: nat | u < cfg.workers
      ensures ShareDone(s', u) == ShareDone(s, u) && Cursor(cfg, s', u) == Cursor(cfg, s, u)
    {
    }
    RowsFrame(cfg, s, s');
  }

  lemma {:induction false} AllHits<P(!new), V(!new)>(cfg: Config<P, V>, s: State<P, V>, n: nat)
    requires cfg.workers > 0 && n <= |s.threads| && n <= |s.barrier.threads|
    requires forall t: nat | t < n :: ShareDone(s, t)
    ensures Hits(cfg, s, n) == FirstRow(s.job.descriptor.rows, cfg.workers, n)
  {
    if n == 0 {
      FirstRowEnds(s.job.descriptor.rows, cfg.workers);
    } else {
      AllHits(cfg, s, n - 1);
    }
  }

  lemma SharedRowDone<P(!new), V(!new)>(cfg: Config<P, V>, s: State<P, V>, t: nat, row: nat)
    requires cfg.workers >= 2 && Shaped(cfg, s) && t < cfg.workers && |s.job.written| == s.job.descriptor.rows
    requires ShareOk(cfg, s, t) && ShareDone(s, t)
    requires row < |s.job.written| && InShare(s.job.descriptor.rows, cfg.workers, t, row)
    ensures RowDone(cfg, s, row)
  {
    assert row < Cursor(cfg, s, t);
  }

  /** When every share is done, every row is done and the hits add up. */
  lemma AllSharesDone<P(!new), V(!new)>(cfg: Config<P, V>, s: State<P, V>)
    requires ValidConfig(cfg) && Shaped(cfg, s) && OpenJobOk(cfg, s)
    requires forall t: nat | t < cfg.workers :: ShareDone(s, t)
    ensures ClosedJobOk(cfg, s)
  {
    var rows := s.job.descriptor.rows;
    AllHits(cfg, s, cfg.workers);
    FirstRowEnds(rows, cfg.workers);
    forall row: nat | row < rows ensures RowDone(cfg, s, row) {
      var t := FindOwner(rows, cfg.workers, cfg.workers, row);
      SharedRowDone(cfg, s, t, row);
    }
  }

  lemma ReleaseClosesJob<P(!new), V(!new)>(cfg: Config<P, V>, s: State<P, V>, t: nat)
    requires Inv(cfg, s) && t < cfg.workers && s.threads[t].pc.Wait? && s.barrier.threads[t].pc.Release?
    ensures Shaped(cfg, DoWait(s, t)) && RowsOk(cfg, DoWait(s, t))
  {
    var s' := DoWait(s, t);
    WaitThreads(cfg, s, t);
    forall u: nat | u < cfg.workers ensures ShareDone(s, u) {
      assert B.ThreadOk(s.barrier.threads[u], s.barrier.generation);
      assert u != t ==> B.SpinsOn(s.barrier.threads[u], s.barrier.generation);
    }
    ServingMeansOpen(cfg, s, t);
    AllSharesDone(cfg, s);
    forall row: nat | row < |s.job.written| ensures RowDone(cfg, s', row) {
      assert RowDone(cfg, s, row);
    }
  }

  lemma WaitStep<P(!new), V(!new)>(cfg: Config<P, V>, s: State<P, V>, t: nat)
    requires Inv(cfg, s) && t < cfg.workers && s.threads[t].pc.Wait?
    ensures Inv(cfg, DoWait(s, t))
  {
    WaitThreads(cfg, s, t);
    if s.barrier.threads[t].pc.Release? {
      ReleaseClosesJob(cfg, s, t);
    } else {
      WaitKeepsRows(cfg, s, t);
    }
  }

  // ---- every step, every run ----

  lemma StepInv<P(!new), V(!new)>(cfg: Config<P, V>, s: State<P, V>, t: nat)
    requires Inv(cfg, s) && Enabled(s, t)
    ensures Inv(cfg, Next(cfg, s, t))
  {
    assert ThreadOk(cfg, s, t);
    assert t > 0 ==> WorkerOk(cfg, s, t);
    var pc := s.threads[t].pc;
    match pc
    case ClaimWorkers => ClaimWorkersStep(cfg, s, t);
    case ClaimBackend => ClaimBackendStep(cfg, s, t);
    case Plan => PlanStep(cfg, s, t);
    case WriteDescriptor => WriteDescriptorStep(cfg, s, t);
    case ZeroHits => ZeroHitsStep(cfg, s, t);
    case PublishEpoch => PublishStep(cfg, s, t);
    case LoadEpoch => LoadEpochStep(cfg, s, t);
    case ReadDescriptor => ReadDescriptorStep(cfg, s, t);
    case RunShare(_, _, next, end) => if next < end { RowStep(cfg, s, t); } else { AddHitsStep(cfg, s, t); }
    case Wait => WaitStep(cfg, s, t);
    case CheckHits => CheckHitsStep(cfg, s, t);
    case Collect => CollectStep(cfg, s, t);
    case StoreTerminal(code) => TerminalStep(cfg, s, t, code);
    case LoadTerminal => LoadTerminalStep(cfg, s, t);
    case _ => StatusStep(cfg, s, t);
  }

  lemma {:induction false} RunInv<P(!new), V(!new)>(cfg: Config<P, V>, run: seq<State<P, V>>, i: nat)
    requires ValidConfig(cfg) && Run(cfg, run) && i < |run|
    ensures Inv(cfg, run[i])
  {
    if i == 0 {
      StartInv(cfg, run[0]);
    } else {
      RunInv(cfg, run, i - 1);
      assert Step(cfg, run[i - 1], run[i - 1 + 1]);
      var t: nat :| Enabled(run[i - 1], t) && run[i] == Next(cfg, run[i - 1], t);
      StepInv(cfg, run[i - 1], t);
    }
  }

  // ---- main results ----

  /** The plain (non-atomic) memory of a dispatch. */
  datatype Cell = DescriptorCell | PreparedCell | RowCell(row: nat)

  /** The plain cell that the next step of `t` may write. */
  predicate MayWrite(th: Thread, cell: Cell) {
    match cell
    case DescriptorCell => th.pc.WriteDescriptor?
    case PreparedCell => th.pc.Plan?
    case RowCell(row) => th.pc.RunShare? && th.pc.next < th.pc.end && th.pc.next == row
  }

  predicate MayRead(th: Thread, cell: Cell) {
    match cell
    case DescriptorCell => th.pc.ReadDescriptor?
    case PreparedCell => th.pc.RunShare?
    case RowCell(_) => th.pc.Collect?
  }

  ghost predicate RaceFree(threads: seq<Thread>) {
    forall t, u, cell | 0 <= t < |threads| && 0 <= u < |threads| && t != u && MayWrite(threads[t], cell) ::
      !MayRead(threads[u], cell) && !MayWrite(threads[u], cell)
  }

  lemma NoConflict<P(!new), V(!new)>(cfg: Config<P, V>, s: State<P, V>, t: nat, u: nat, cell: Cell)
    requires Inv(cfg, s) && t < cfg.workers && u < cfg.workers && t != u && MayWrite(s.threads[t], cell)
    ensures !MayRead(s.threads[u], cell) && !MayWrite(s.threads[u], cell)
  {
    assert t > 0 ==> WorkerOk(cfg, s, t);
    assert u > 0 ==> WorkerOk(cfg, s, u);
    if !cell.RowCell? {
      QuietBetweenJobs(cfg, s, u);
    } else {
      ServingMeansOpen(cfg, s, t);
      EpochTracksGeneration(cfg, s);
      if MayWrite(s.threads[u], cell) {
        assert ThreadOk(cfg, s, t) && ThreadOk(cfg, s, u);
        OwnerUnique(s.job.descriptor.rows, cfg.workers, cell.row, t, u);
      }
    }
  }

  /**
   When `publish` returns to the evaluation: each row has been written exactly once, with the
   value the job's own descriptor asks for, and nobody is still writing.
   */
  ghost predicate JobComplete<P(!new), V(!new)>(cfg: Config<P, V>, s: State<P, V>) {
    var d := JobDescriptor(cfg.program, s.results);
    && cfg.program.demand(s.results).Publish?
    && |s.job.written| == d.rows == s.job.rowHits
    && (forall row: nat | row < d.rows ::
          && s.job.written[row] == 1
          && s.job.output(row) == cfg.program.row(cfg.program.demand(s.results).prepared, d, row))
    && (forall t | 0 <= t < |s.threads| :: !s.threads[t].pc.RunShare?)
  }

  /** What a stored terminal code says about every slot. */
  ghost predicate TerminalSound<P(!new), V(!new)>(cfg: Config<P, V>, s: State<P, V>)
    requires Planned(cfg.program)
  {
    // the outcome and every job result are those of one processor doing all the work
    && (s.terminal, s.results) == SerialRun(cfg.program, [])
    && |s.results| == s.jobEpoch
    && s.jobEpoch <= ExpectedJobs(cfg.program.produceLogits)
    && (s.terminal == 1 ==> s.jobEpoch == ExpectedJobs(cfg.program.produceLogits))
    // every slot has arrived at the barrier once per job
    && (forall t | 0 <= t < |s.barrier.threads| :: B.Arrivals(s.barrier.threads[t]) == s.jobEpoch)
    && s.barrier.arrivals == 0 && s.barrier.generation == s.jobEpoch
  }

  ghost predicate DispatchSafe<P(!new), V(!new)>(cfg: Config<P, V>, s: State<P, V>)
    requires Planned(cfg.program)
  {
    && |s.threads| == cfg.workers >= 2
    && RaceFree(s.threads)
    && s.rejection == 0
    && (s.threads[0].pc.CheckHits? || s.threads[0].pc.Collect? ==> JobComplete(cfg, s))
    && (s.terminal != 0 ==> TerminalSound(cfg, s))
    && (forall t | 0 <= t < |s.threads| && s.threads[t].pc.Returned? ::
          s.terminal != 0 && s.threads[t].pc.status == 0)
  }

  lemma InvJobComplete<P(!new), V(!new)>(cfg: Config<P, V>, s: State<P, V>)
    requires Inv(cfg, s) && (s.threads[0].pc.CheckHits? || s.threads[0].pc.Collect?)
    ensures JobComplete(cfg, s)
  {
    EpochTracksGeneration(cfg, s);
    forall t: nat | t < cfg.workers ensures !s.threads[t].pc.RunShare? {
      ServingMeansOpen(cfg, s, t);
    }
    forall row: nat | row < |s.job.written| ensures
      && s.job.written[row] == 1
      && s.job.output(row) == cfg.program.row(s.job.prepared, s.job.descriptor, row)
    {
      assert RowDone(cfg, s, row);
    }
  }

  lemma InvTerminalSound<P(!new), V(!new)>(cfg: Config<P, V>, s: State<P, V>)
    requires Inv(cfg, s) && s.terminal != 0
    ensures TerminalSound(cfg, s)
  {
    StatusReads(cfg, s);
    forall t: nat | t < cfg.workers ensures B.Arrivals(s.barrier.threads[t]) == s.jobEpoch {
      assert B.ThreadOk(s.barrier.threads[t], s.barrier.generation);
      ServingMeansOpen(cfg, s, t);
      assert t > 0 ==> WorkerOk(cfg, s, t);
    }
  }

  /** Every state of every run of a valid dispatch is safe. */
  lemma AllRunsSafe<P(!new), V(!new)>(cfg: Config<P, V>, run: seq<State<P, V>>)
    requires ValidConfig(cfg) && Run(cfg, run)
    ensures forall i | 0 <= i < |run| :: DispatchSafe(cfg, run[i])
  {
    forall i: nat | i < |run| ensures DispatchSafe(cfg, run[i]) {
      RunInv(cfg, run, i);
      InvSafe(cfg, run[i]);
    }
  }

  lemma InvSafe<P(!new), V(!new)>(cfg: Config<P, V>, s: State<P, V>)
    requires Inv(cfg, s)
    ensures DispatchSafe(cfg, s)
  {
    forall t: nat, u: nat, cell | t < cfg.workers && u < cfg.workers && t != u && MayWrite(s.threads[t], cell)
      ensures !MayRead(s.threads[u], cell) && !MayWrite(s.threads[u], cell)
    {
      NoConflict(cfg, s, t, u, cell);
    }
    if s.threads[0].pc.CheckHits? || s.threads[0].pc.Collect? {
      InvJobComplete(cfg, s);
    }
    if s.terminal != 0 {
      InvTerminalSound(cfg, s);
    }
    forall t: nat | t < cfg.workers && s.threads[t].pc.Returned?
      ensures s.terminal != 0 && s.threads[t].pc.status == 0
    {
      assert ThreadOk(cfg, s, t);
      assert t > 0 ==> WorkerOk(cfg, s, t);
    }
  }

  /** Serially, a planned program runs as many jobs as the protocol check expects, and no more when it aborts. */
  lemma {:induction false} SerialJobCount<P(!new), V(!new)>(program: Program<P, V>, results: seq<seq<V>>)
    requires Planned(program) && |results| <= ExpectedJobs(program.produceLogits)
    ensures var (code, all) := SerialRun(program, results);
      && (code == 1 ==> |all| == ExpectedJobs(program.produceLogits) && program.demand(all).Complete?)
      && (code == 2 ==> |all| <= ExpectedJobs(program.produceLogits) && program.demand(all).Abort?)
      && (code == 1 || code == 2) && results <= all
    decreases ExpectedJobs(program.produceLogits) - |results|
  {
    assert PlannedAt(program, results);
    if program.demand(results).Publish? {
      var p := program.demand(results).prepared;
      SerialJobCount(program, results + [RunRows(program, p, JobDescriptor(program, results))]);
    }
  }
}
