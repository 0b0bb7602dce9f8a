/** With enough callbacks, every fair schedule of an entry ends unless a processor is stranded in the worker call. */
module EntryProgress {
  import A = ApEntry
  import AP = ApEntryProgress
  import AS = ApEntrySafety
  import D = Dispatch
  import DP = DispatchProgress
  import DS = DispatchSafety
  import B = Barrier
  import opened EntryDispatch
  import opened EntryStranded

  /** The next step of processor `i` re-reads something that has not changed: at the entry barrier, or in its slot. */
  predicate Spins<P, V>(s: State<P, V>, i: nat)
    requires i < |s.entry.aps|
  {
    || AP.Spins(s.entry, i)
    || (Working(s, i) && s.entry.aps[i].slot < |s.job.barrier.threads| && DP.Spins(s.job, s.entry.aps[i].slot))
  }

  predicate Useful<P, V>(s: State<P, V>, i: nat) {
    i < |s.entry.aps| && !Returned(s, i) && !Spins(s, i)
  }

  // ---- somebody can move ----

  /**
   When slot `t` never joins and that does not matter, the evaluation fails before its first job: until the coordinator
   has said so it can move, and from then on everybody can.
   */
  lemma NotMissed<P(!new), V(!new)>(cfg: D.Config<P, V>, s: D.State<P, V>, t: nat, k: nat)
    requires DS.Inv(cfg, s) && 0 < t < cfg.workers && s.threads[t] == D.Thread(D.ClaimWorkers, 0, 0)
    requires !cfg.program.demand([]).Publish?
    requires k < cfg.workers && D.Enabled(s, k)
    ensures s.terminal == 0 ==> D.Enabled(s, 0) && !DP.Spins(s, 0)
    ensures s.terminal != 0 ==> !DP.Spins(s, k)
  {
    DS.EpochTracksGeneration(cfg, s);
    assert DS.WorkerOk(cfg, s, t);
    assert B.ThreadOk(s.barrier.threads[t], s.barrier.generation);
    assert s.jobEpoch == 0;
    assert k > 0 ==> DS.WorkerOk(cfg, s, k);
  }

  /** Past the entry barrier, a processor that has not entered is on its way or has decided to stay out. */
  lemma OnItsWay<P(!new), V(!new)>(c: Config<P, V>, s: State<P, V>, i: nat, t: nat)
    requires Inv(c, s) && Working(s, i) && t < c.workers && !Entered(s, t) && !KeptOut(s, t)
    ensures t < |s.entry.owners| && Useful(s, s.entry.owners[t])
  {
    hide AS.SlotOk, D.Start, DS.Inv, AS.RecordOk;
    WorkingSlot(c, s, i);
    var k := s.entry.aps[i].slot;
    EnteredTaken(c, s, k);
    var o := s.entry.owners[t];
    assert AS.HolderOk(EntryConfig(c), s.entry, o);
    if AP.Spins(s.entry, o) {
      AP.SpinnerHolds(EntryConfig(c), s.entry, o, k);
    }
  }

  /** A slot that can move, in the hands of a processor that has entered. */
  lemma EnteredMoves<P(!new), V(!new)>(c: Config<P, V>, s: State<P, V>, t: nat)
    requires Inv(c, s) && Entered(s, t) && t < c.workers
    requires t < |s.job.threads| == |s.job.barrier.threads| && D.Enabled(s.job, t) && !DP.Spins(s.job, t)
    ensures Useful(s, s.entry.owners[t])
  {
    hide AS.SlotOk, AS.HolderOk, D.Start, DS.Inv, AS.RecordOk;
    assert SlotCoupled(s, t);
  }

  lemma WorkersMove<P(!new), V(!new)>(c: Config<P, V>, s: State<P, V>, i: nat)
    requires Inv(c, s) && !IsStranded(c, s) && Working(s, i)
    ensures exists j: nat :: Useful(s, j)
  {
    hide AS.Inv, D.Start, DS.Inv, DP.Spins, Spins, KeptOut;
    InvShaped(c, s);
    WorkingSlot(c, s, i);
    var k := s.entry.aps[i].slot;
    DP.SomeoneMoves(SharedJob(c, s), s.job);
    var t: nat :| t < |s.job.threads| == |s.job.barrier.threads| && D.Enabled(s.job, t) && !DP.Spins(s.job, t);
    if Entered(s, t) {
      EnteredMoves(c, s, t);
    } else if !KeptOut(s, t) {
      OnItsWay(c, s, i, t);
    } else {
      assert !Stranded(c, s, k, t) && !Stranded(c, s, k, 0);
      assert SlotCoupled(s, t);
      NotMissed(SharedJob(c, s), s.job, t, k);
      if s.job.terminal != 0 {
        EnteredMoves(c, s, k);
      } else if Entered(s, 0) {
        EnteredMoves(c, s, 0);
      } else {
        OnItsWay(c, s, i, 0);
      }
    }
  }

  /** As long as somebody has not returned and the entry is not stranded, somebody has a step that is not a spin. */
  lemma SomebodyMoves<P(!new), V(!new)>(c: Config<P, V>, s: State<P, V>)
    requires Inv(c, s) && c.callbacks >= c.workers && !AllReturned(s) && !IsStranded(c, s)
    ensures exists i: nat :: Useful(s, i)
  {
    hide AS.HolderOk, AS.SlotOk, D.Start, DS.Inv, DP.Spins, IsStranded;
    InvShaped(c, s);
    var i: nat :| i < |s.entry.aps| && !s.entry.aps[i].pc.Returned?;
    if AP.Spins(s.entry, i) {
      var j := AP.NotAllSpin(EntryConfig(c), s.entry, i);
      assert Useful(s, j);
    } else if Working(s, i) {
      WorkersMove(c, s, i);
    } else {
      assert Useful(s, i);
    }
  }

  // ---- only so many useful steps ----

  /** Steps left in the entry and in the dispatch behind it, not counting spins. */
  function StepsLeft<P, V>(c: Config<P, V>, s: State<P, V>): nat
    requires |s.entry.aps| == c.callbacks && |s.job.threads| == |s.job.barrier.threads| == c.workers > 0
  {
    AP.TotalRank(s.entry, c.callbacks) + DP.Measure(JobConfig(c, 0), s.job)
  }

  lemma {:induction false} WorkersRankAnyBackend<P(!new), V(!new)>(
      a: D.Config<P, V>, b: D.Config<P, V>, s: D.State<P, V>, n: nat)
    requires a.program == b.program && n <= |s.threads| && n <= |s.barrier.threads|
    ensures DP.WorkersRank(a, s, n) == DP.WorkersRank(b, s, n)
  {
    if n > 1 {
      WorkersRankAnyBackend(a, b, s, n - 1);
    }
  }

  /** The backend has no say in how much is left to do. */
  lemma MeasureAnyBackend<P(!new), V(!new)>(a: D.Config<P, V>, b: D.Config<P, V>, s: D.State<P, V>)
    requires a.program == b.program && a.workers == b.workers == |s.threads| == |s.barrier.threads| > 0
    ensures DP.Measure(a, s) == DP.Measure(b, s)
  {
    WorkersRankAnyBackend(a, b, s, a.workers);
  }

  /** A step in the worker call, as a step of the dispatch. */
  lemma WorkStep<P(!new), V(!new)>(c: Config<P, V>, s: State<P, V>, i: nat)
    requires Inv(c, s) && Shaped(c, s) && Working(s, i)
    ensures i < c.callbacks && Inv(c, Next(c, s, i)) && Shaped(c, Next(c, s, i))
    ensures Next(c, s, i).entry == s.entry
    ensures DP.Spins(s.job, s.entry.aps[i].slot) ==> StepsLeft(c, Next(c, s, i)) == StepsLeft(c, s)
    ensures !DP.Spins(s.job, s.entry.aps[i].slot) ==> StepsLeft(c, Next(c, s, i)) < StepsLeft(c, s)
  {
    hide D.Next, DP.Spins, DP.Measure, D.Start, AS.Inv;
    var cfg, t := SharedJob(c, s), s.entry.aps[i].slot;
    WorkStepInv(c, s, i);
    InvShaped(c, Next(c, s, i));
    WorkingSlot(c, s, i);
    if DP.Spins(s.job, t) {
      DP.SpinKeepsMeasure(cfg, s.job, t);
    } else {
      DP.UsefulStepDecreases(cfg, s.job, t);
    }
    MeasureAnyBackend(cfg, JobConfig(c, 0), s.job);
    MeasureAnyBackend(cfg, JobConfig(c, 0), Next(c, s, i).job);
  }

  lemma UsefulStepDecreases<P(!new), V(!new)>(c: Config<P, V>, s: State<P, V>, i: nat)
    requires Inv(c, s) && Shaped(c, s) && Useful(s, i)
    ensures i < c.callbacks && Inv(c, Next(c, s, i)) && Shaped(c, Next(c, s, i))
    ensures StepsLeft(c, Next(c, s, i)) < StepsLeft(c, s)
  {
    hide Next, A.Next, DP.Spins, DP.Measure, D.Start, AS.Inv, AP.TotalRank;
    if Working(s, i) {
      WorkStep(c, s, i);
    } else {
      EntryStep(c, s, i);
      EntryStepInv(c, s, i);
      InvShaped(c, Next(c, s, i));
      AP.UsefulStepDecreases(EntryConfig(c), s.entry, i);
    }
  }

  /** Spinning in one slot leaves what can be done in the others. */
  lemma WorkSpinLeavesOthers<P(!new), V(!new)>(c: Config<P, V>, s: State<P, V>, u: nat, t: nat)
    requires Inv(c, s) && Shaped(c, s) && Useful(s, t) && Working(s, u) && DP.Spins(s.job, s.entry.aps[u].slot)
    ensures u < c.callbacks && Next(c, s, u).entry == s.entry && Useful(Next(c, s, u), t)
  {
    hide D.Next, A.Next, DP.Spins, D.Start, AS.HolderOk, AS.SlotOk, DS.Inv, AS.RecordOk;
    WorkStepInv(c, s, u);
    WorkingSlot(c, s, u);
    InvShaped(c, s);
    InvShaped(c, Next(c, s, u));
    var cfg, k := SharedJob(c, s), s.entry.aps[u].slot;
    if s.entry.aps[t].pc.InWorker? {
      var j := s.entry.aps[t].slot;
      assert j != k;
      OtherSlotsStay(cfg, s.job, k, j);
      if Working(s, t) {
        WorkingSlot(c, s, t);
        DP.SpinLeavesOthers(cfg, s.job, k, j);
      }
    }
  }

  /** A spin leaves the others with what they can do. */
  lemma SpinLeavesOthers<P(!new), V(!new)>(c: Config<P, V>, s: State<P, V>, u: nat, t: nat)
    requires Inv(c, s) && Shaped(c, s) && Useful(s, t) && u < c.callbacks && !Returned(s, u) && Spins(s, u)
    ensures u != t && Inv(c, Next(c, s, u)) && Shaped(c, Next(c, s, u))
    ensures Useful(Next(c, s, u), t) && StepsLeft(c, Next(c, s, u)) == StepsLeft(c, s)
  {
    hide Next, D.Next, A.Next, DP.Spins, DP.Measure, D.Start, AS.Inv, AP.TotalRank;
    if Working(s, u) {
      WorkStep(c, s, u);
      WorkSpinLeavesOthers(c, s, u, t);
    } else {
      AP.SpinStays(EntryConfig(c), s.entry, u);
      EntryStep(c, s, u);
    }
  }

  // ---- fair schedules ----

  /** In steps `i..j`, every processor that has not returned by then gets a turn. */
  ghost predicate Round<P(!new), V(!new)>(run: seq<State<P, V>>, schedule: seq<nat>, i: nat, j: nat) {
    && i <= j <= |schedule| < |run|
    && forall t: nat | t < |run[j].entry.aps| :: Returned(run[j], t) || t in schedule[i..j]
  }

  ghost predicate Rounds<P(!new), V(!new)>(run: seq<State<P, V>>, schedule: seq<nat>, cuts: seq<nat>) {
    && cuts != [] && cuts[0] == 0 < |run|
    && forall k | 0 <= k < |cuts| - 1 :: Round(run, schedule, cuts[k], cuts[k + 1])
  }

  /** What one step does: something useful, or a spin that leaves everybody else with what they can do. */
  lemma OneStep<P(!new), V(!new)>(c: Config<P, V>, s: State<P, V>, u: nat)
    requires Inv(c, s) && Shaped(c, s) && u < c.callbacks && !Returned(s, u)
    ensures Inv(c, Next(c, s, u)) && Shaped(c, Next(c, s, u))
    ensures StepsLeft(c, Next(c, s, u)) <= StepsLeft(c, s)
    ensures forall t: nat | Useful(s, t) ::
      || StepsLeft(c, Next(c, s, u)) < StepsLeft(c, s)
      || (u != t && Useful(Next(c, s, u), t))
  {
    hide Next, Inv, StepsLeft, Spins;
    if Useful(s, u) {
      UsefulStepDecreases(c, s, u);
    } else {
      StepInv(c, s, u);
      SpinKeepsSteps(c, s, u);
      forall t: nat | Useful(s, t) ensures u != t && Useful(Next(c, s, u), t) {
        SpinLeavesOthers(c, s, u, t);
      }
    }
  }

  lemma SpinKeepsSteps<P(!new), V(!new)>(c: Config<P, V>, s: State<P, V>, u: nat)
    requires Inv(c, s) && Shaped(c, s) && u < c.callbacks && !Returned(s, u) && Spins(s, u)
    ensures Shaped(c, Next(c, s, u)) && StepsLeft(c, Next(c, s, u)) == StepsLeft(c, s)
  {
    hide Next, D.Next, A.Next, DP.Spins, DP.Measure, D.Start, AS.Inv, AP.TotalRank;
    if Working(s, u) {
      WorkStep(c, s, u);
    } else {
      AP.SpinStays(EntryConfig(c), s.entry, u);
      EntryStep(c, s, u);
    }
  }

  /** Whoever can do something useful keeps that chance until its turn, unless something useful is done before. */
  lemma {:induction false} WaitsForTurn<P(!new), V(!new)>(
      c: Config<P, V>, run: seq<State<P, V>>, schedule: seq<nat>, i: nat, j: nat)
    requires Follows(c, run, schedule) && i <= j <= |schedule| && Inv(c, run[i]) && Shaped(c, run[i])
    ensures Inv(c, run[j]) && Shaped(c, run[j]) && StepsLeft(c, run[j]) <= StepsLeft(c, run[i])
    ensures forall t: nat | Useful(run[i], t) ::
      || StepsLeft(c, run[j]) < StepsLeft(c, run[i])
      || (Useful(run[j], t) && t !in schedule[i..j])
  {
    hide Next, Inv, StepsLeft, Useful;
    if i < j {
      WaitsForTurn(c, run, schedule, i, j - 1);
      assert StepAt(c, run, schedule, j - 1);
      OneStep(c, run[j - 1], schedule[j - 1]);
      assert schedule[i..j] == schedule[i..j - 1] + [schedule[j - 1]];
    }
  }

  lemma RoundProgress<P(!new), V(!new)>(
      c: Config<P, V>, run: seq<State<P, V>>, schedule: seq<nat>, i: nat, j: nat)
    requires Follows(c, run, schedule) && Round(run, schedule, i, j) && c.callbacks >= c.workers
    requires Inv(c, run[i]) && Shaped(c, run[i])
    ensures Inv(c, run[j]) && Shaped(c, run[j])
    ensures AllReturned(run[i]) ==> run[j] == run[i]
    ensures IsStranded(c, run[i]) ==> IsStranded(c, run[j])
    ensures AllReturned(run[i]) || IsStranded(c, run[i]) || StepsLeft(c, run[j]) < StepsLeft(c, run[i])
  {
    hide Next, Inv, StepsLeft, Spins, IsStranded;
    WaitsForTurn(c, run, schedule, i, j);
    if AllReturned(run[i]) {
      assert i < |schedule| ==> StepAt(c, run, schedule, i);
    } else if IsStranded(c, run[i]) {
      StrandedForEver(c, run, schedule, i, j);
    } else {
      SomebodyMoves(c, run[i]);
      var t: nat :| Useful(run[i], t);
      assert Useful(run[j], t) ==> t < |run[j].entry.aps| && !Returned(run[j], t);
    }
  }

  lemma {:induction false} RoundsLeft<P(!new), V(!new)>(
      c: Config<P, V>, run: seq<State<P, V>>, schedule: seq<nat>, cuts: seq<nat>, k: nat)
    requires ValidConfig(c) && c.callbacks >= c.workers
    requires Follows(c, run, schedule) && Start(c, run[0]) && Rounds(run, schedule, cuts) && k < |cuts|
    ensures cuts[k] <= |schedule| && Inv(c, run[cuts[k]])
    ensures Shaped(c, run[0]) && Shaped(c, run[cuts[k]])
    ensures AllReturned(run[cuts[k]]) || IsStranded(c, run[cuts[k]])
         || StepsLeft(c, run[cuts[k]]) + k <= StepsLeft(c, run[0])
  {
    hide Inv, StepsLeft, AllReturned, Start, IsStranded;
    if k == 0 {
      StartInv(c, run[0]);
      InvShaped(c, run[0]);
    } else {
      RoundsLeft(c, run, schedule, cuts, k - 1);
      assert Round(run, schedule, cuts[k - 1], cuts[k]);
      RoundProgress(c, run, schedule, cuts[k - 1], cuts[k]);
    }
  }

  /** A bound on the rounds of an entry, fixed before it starts. */
  ghost function EntryBudget<P(!new), V(!new)>(c: Config<P, V>, s: State<P, V>): nat
    requires ValidConfig(c) && Start(c, s)
  {
    StartInv(c, s);
    InvShaped(c, s);
    StepsLeft(c, s) + 1
  }

  /**
   With enough callbacks, every fair schedule ends unless it gets stranded, and then the final check accepts the entry
   exactly when all was well.
   */
  lemma FairEntryEnds<P(!new), V(!new)>(
      c: Config<P, V>, run: seq<State<P, V>>, schedule: seq<nat>, cuts: seq<nat>)
    requires ValidConfig(c) && c.callbacks >= c.workers
    requires Follows(c, run, schedule) && Start(c, run[0])
    requires Rounds(run, schedule, cuts) && |cuts| > EntryBudget(c, run[0])
    ensures cuts[|cuts| - 1] <= |schedule|
    ensures var end := run[cuts[|cuts| - 1]];
      && (AllReturned(end) <==> !IsStranded(c, end))
      && (AllReturned(end) ==> (Accepts(c, end) <==> AllWell(c)))
  {
    hide Inv, StepsLeft, Accepts, AllWell, Start, IsStranded, AllReturned;
    var last := |cuts| - 1;
    RoundsLeft(c, run, schedule, cuts, last);
    if AllReturned(run[cuts[last]]) {
      TokenAccepted(c, run[cuts[last]]);
    }
    if IsStranded(c, run[cuts[last]]) {
      StrandedForEver(c, run, schedule, cuts[last], cuts[last]);
    }
  }
}
