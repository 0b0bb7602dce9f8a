/**
 The state that nobody gets out of: one processor is inside the worker call, and the slot that it waits for belongs to a
 processor that has decided to stay out.
 */
module EntryStranded {
  import A = ApEntry
  import AS = ApEntrySafety
  import B = Barrier
  import D = Dispatch
  import DS = DispatchSafety
  import opened EntryDispatch

  /** The processor on slot `j` has decided not to enter. */
  predicate KeptOut<P, V>(s: State<P, V>, j: nat) {
    && j < |s.entry.owners| && s.entry.owners[j] < |s.entry.aps|
    && !s.entry.aps[s.entry.owners[j]].entered
    && AS.Stage(s.entry.aps[s.entry.owners[j]].pc) >= 11
  }

  /** Slot `k` is in the dispatch and slot `j` will never be, and it is missed there. */
  predicate Stranded<P, V>(c: Config<P, V>, s: State<P, V>, k: nat, j: nat) {
    && k < c.workers && j < c.workers && Entered(s, k) && KeptOut(s, j)
    && (j == 0 || c.program.demand([]).Publish?)
  }

  ghost predicate IsStranded<P, V>(c: Config<P, V>, s: State<P, V>) {
    exists k: nat, j: nat :: Stranded(c, s, k, j)
  }

  /** A slot that has not joined keeps the others in: no terminal code without it, and no job either. */
  lemma MissedSlot<P(!new), V(!new)>(cfg: D.Config<P, V>, s: D.State<P, V>, j: nat)
    requires DS.Inv(cfg, s) && j < cfg.workers && s.threads[j] == D.Thread(D.ClaimWorkers, 0, 0)
    requires j == 0 || cfg.program.demand([]).Publish?
    ensures s.terminal == 0
  {
    if s.terminal != 0 {
      assert j > 0 ==> DS.WorkerOk(cfg, s, j);
      assert B.ThreadOk(s.barrier.threads[j], s.barrier.generation);
      DS.StatusReads(cfg, s);
      assert s.results == [];
      DS.SerialJobCount(cfg.program, []);
    }
  }

  lemma StrandedNotOver<P(!new), V(!new)>(c: Config<P, V>, s: State<P, V>, k: nat, j: nat)
    requires Inv(c, s) && Stranded(c, s, k, j)
    ensures !Returned(s, s.entry.owners[k]) && !AllReturned(s)
  {
    hide AS.Inv, D.Start;
    InvShaped(c, s);
    assert SlotCoupled(s, k) && SlotCoupled(s, j);
    MissedSlot(SharedJob(c, s), s.job, j);
    assert k > 0 ==> DS.WorkerOk(SharedJob(c, s), s.job, k);
  }

  lemma KeptOutStays<P(!new), V(!new)>(c: Config<P, V>, s: State<P, V>, i: nat, j: nat)
    requires Inv(c, s) && Shaped(c, s) && i < c.callbacks && !Returned(s, i) && !Working(s, i) && KeptOut(s, j)
    ensures KeptOut(Next(c, s, i), j)
  {
    hide AS.SlotOk, AS.RecordOk, AS.ReadyBelow, AS.Avx2Below, AS.SlotsOk, AS.RejectionOk;
    hide B.Inv, DS.Inv, D.Start, SlotCoupled;
    EntryStep(c, s, i);
    assert AS.HolderOk(EntryConfig(c), s.entry, i);
  }

  lemma StrandedStays<P(!new), V(!new)>(c: Config<P, V>, s: State<P, V>, i: nat, k: nat, j: nat)
    requires Inv(c, s) && Shaped(c, s) && i < c.callbacks && !Returned(s, i) && Stranded(c, s, k, j)
    ensures Stranded(c, Next(c, s, i), k, j)
  {
    hide Inv, A.Next, D.Next;
    if Working(s, i) {
    } else {
      KeptOutStays(c, s, i, j);
      EntryStep(c, s, i);
      EntryStepEntered(c, s, i, k);
    }
  }

  /** Once stranded, an entry never ends, whatever the schedule. */
  lemma {:induction false} StrandedForEver<P(!new), V(!new)>(
      c: Config<P, V>, run: seq<State<P, V>>, schedule: seq<nat>, i: nat, j: nat)
    requires Follows(c, run, schedule) && i <= j <= |schedule| && Inv(c, run[i]) && IsStranded(c, run[i])
    ensures Inv(c, run[j]) && IsStranded(c, run[j]) && !AllReturned(run[j])
  {
    hide Inv, Next, Stranded, AllReturned;
    if i < j {
      StrandedForEver(c, run, schedule, i, j - 1);
      assert StepAt(c, run, schedule, j - 1);
      StepInv(c, run[j - 1], schedule[j - 1]);
      var k: nat, missed: nat :| Stranded(c, run[j - 1], k, missed);
      StrandedStays(c, run[j - 1], schedule[j - 1], k, missed);
    }
    var k: nat, missed: nat :| Stranded(c, run[j], k, missed);
    StrandedNotOver(c, run[j], k, missed);
  }
}
