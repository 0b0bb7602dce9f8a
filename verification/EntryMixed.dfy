/**
 How an entry with more callbacks than workers, and enough of them ready, gets stranded: a surplus callback stores its
 rejection after one processor has entered the worker call and before another has decided.
 */
module EntryMixed {
  import A = ApEntry
  import AP = ApEntryProgress
  import AS = ApEntrySafety
  import C = Counting
  import D = Dispatch
  import DS = DispatchSafety
  import opened EntryDispatch
  import opened EntryStranded

  function ReadySet(callbacks: nat, ready: nat -> bool): set<nat> {
    set i: nat | i < callbacks && ready(i)
  }

  // ---- going on step by step ----

  lemma AppendStep<P(!new), V(!new)>(c: Config<P, V>, run: seq<State<P, V>>, schedule: seq<nat>, i: nat)
    requires Follows(c, run, schedule) && Shaped(c, run[|schedule|])
    requires i < c.callbacks && !Returned(run[|schedule|], i)
    ensures Follows(c, run + [Next(c, run[|schedule|], i)], schedule + [i])
  {
    hide Next, Shaped, Returned;
    var run', schedule' := run + [Next(c, run[|schedule|], i)], schedule + [i];
    forall n: nat | n < |schedule'| ensures StepAt(c, run', schedule', n) {
      if n < |schedule| {
        assert StepAt(c, run, schedule, n);
      }
    }
  }

  /** How far the processor on slot `k` is taken: on slot 0 up to its decision, on the others into the worker call. */
  function Stop(k: nat): nat {
    if k == 0 then 8 else 10
  }

  /** Ready processors take the slots and go up to their stops; nobody else has done anything. */
  ghost predicate Gathering(cfg: A.Config, s: A.State) {
    && AS.Inv(cfg, s) && s.rejection == 0 && |s.owners| <= cfg.workers
    && (forall k: nat | k < |s.owners| :: s.owners[k] < |s.aps| && cfg.ready(s.owners[k]))
    && (forall k: nat | k < |s.owners| :: AS.Stage(s.aps[s.owners[k]].pc) <= Stop(k))
  }

  /** Processor `i` may be taken further. */
  predicate Called(cfg: A.Config, s: A.State, i: nat) {
    && i < |s.aps|
    && if |s.owners| < cfg.workers then s.aps[i].pc.FetchSlot? && cfg.ready(i)
       else exists k: nat :: k < |s.owners| && s.owners[k] == i && AS.Stage(s.aps[i].pc) < Stop(k) && !AP.Spins(s, i)
  }

  /** While slots are left, so is a ready processor that has not come. */
  lemma ReadyLeft(cfg: A.Config, s: A.State) returns (i: nat)
    requires Gathering(cfg, s) && |s.owners| < cfg.workers <= |ReadySet(cfg.callbacks, cfg.ready)|
    ensures Called(cfg, s, i)
  {
    hide AS.SlotOk, AS.HolderOk;
    var taken := C.Elements(s.owners);
    C.ElementsCount(s.owners);
    if ReadySet(cfg.callbacks, cfg.ready) <= taken {
      C.SubsetCount(ReadySet(cfg.callbacks, cfg.ready), taken);
      assert false;
    } else {
      i :| i in ReadySet(cfg.callbacks, cfg.ready) && i !in taken;
      assert s.aps[i].pc.FetchSlot?;
    }
  }

  ghost predicate AtGate(cfg: A.Config, s: A.State) {
    && Gathering(cfg, s) && |s.owners| == cfg.workers
    && (forall k: nat | k < |s.owners| :: AS.Stage(s.aps[s.owners[k]].pc) == Stop(k))
  }

  lemma NextCalled(cfg: A.Config, s: A.State) returns (i: nat)
    requires Gathering(cfg, s) && |ReadySet(cfg.callbacks, cfg.ready)| >= cfg.workers && !AtGate(cfg, s)
    ensures Called(cfg, s, i)
  {
    hide AS.SlotOk, AS.HolderOk, AP.Spins;
    if |s.owners| < cfg.workers {
      i := ReadyLeft(cfg, s);
    } else {
      var k: nat :| k < |s.owners| && AS.Stage(s.aps[s.owners[k]].pc) < Stop(k);
      i := s.owners[k];
      if AP.Spins(s, i) {
        k := AP.SomeHolderMoves(cfg, s, i);
        i := s.owners[k];
      }
      assert k < |s.owners| && s.owners[k] == i && AS.Stage(s.aps[i].pc) < Stop(k) && !AP.Spins(s, i);
    }
  }

  lemma ReadyTakesSlot(cfg: A.Config, s: A.State, i: nat)
    requires Gathering(cfg, s) && |s.owners| < cfg.workers && i < |s.aps| && s.aps[i].pc.FetchSlot? && cfg.ready(i)
    ensures Gathering(cfg, A.Next(cfg, s, i))
  {
    hide AS.SlotOk, AS.HolderOk;
    AS.StepInv(cfg, s, i);
  }

  /** A holder below its stop: nobody has rejected, and nobody is unready. */
  lemma HolderAdvances(cfg: A.Config, s: A.State, k: nat)
    requires Gathering(cfg, s) && k < |s.owners| == cfg.workers && AS.Stage(s.aps[s.owners[k]].pc) < Stop(k)
    ensures var s', i := A.Next(cfg, s, s.owners[k]), s.owners[k];
      && s'.rejection == 0 && s'.owners == s.owners && |s'.aps| == |s.aps|
      && AS.Stage(s'.aps[i].pc) <= Stop(k)
      && forall j: nat | j < |s.aps| && j != i :: s'.aps[j] == s.aps[j]
  {
    hide AS.SlotOk, AS.RecordOk, AS.Avx2Below;
    assert AS.HolderOk(cfg, s, s.owners[k]);
  }

  lemma HolderKeepsGathering(cfg: A.Config, s: A.State, k: nat)
    requires Gathering(cfg, s) && k < |s.owners| && |s.owners| >= cfg.workers && s.owners[k] < |s.aps|
    requires AS.Stage(s.aps[s.owners[k]].pc) < Stop(k)
    ensures Gathering(cfg, A.Next(cfg, s, s.owners[k]))
  {
    hide AS.SlotOk, AS.HolderOk, A.Next;
    AS.StepInv(cfg, s, s.owners[k]);
    HolderAdvances(cfg, s, k);
  }

  lemma CalledStep(cfg: A.Config, s: A.State, i: nat)
    requires Gathering(cfg, s) && Called(cfg, s, i)
    ensures AP.Useful(s, i) && !s.aps[i].pc.InWorker?
    ensures |s.aps| == cfg.callbacks && Gathering(cfg, A.Next(cfg, s, i))
  {
    hide AS.SlotOk, AS.HolderOk, AS.SlotsOk, A.Next;
    if |s.owners| < cfg.workers {
      ReadyTakesSlot(cfg, s, i);
    } else {
      var k: nat :| k < |s.owners| && s.owners[k] == i && AS.Stage(s.aps[i].pc) < Stop(k) && !AP.Spins(s, i);
      HolderKeepsGathering(cfg, s, k);
    }
  }

  lemma GatherStep<P(!new), V(!new)>(c: Config<P, V>, s: State<P, V>, i: nat)
    requires Inv(c, s) && Shaped(c, s) && Gathering(EntryConfig(c), s.entry) && Called(EntryConfig(c), s.entry, i)
    ensures i < c.callbacks && !Returned(s, i)
    ensures var s' := Next(c, s, i);
      && Inv(c, s') && Shaped(c, s') && Gathering(EntryConfig(c), s'.entry)
      && AP.TotalRank(s'.entry, c.callbacks) < AP.TotalRank(s.entry, c.callbacks)
  {
    hide Gathering, Called, AS.Inv, DS.Inv, D.Start, A.Next;
    CalledStep(EntryConfig(c), s.entry, i);
    EntryStep(c, s, i);
    EntryStepInv(c, s, i);
    InvShaped(c, Next(c, s, i));
    AP.UsefulStepDecreases(EntryConfig(c), s.entry, i);
  }

  /** Enough ready processors can come to the gate. */
  lemma {:induction false} Gather<P(!new), V(!new)>(c: Config<P, V>, run: seq<State<P, V>>, schedule: seq<nat>)
      returns (run': seq<State<P, V>>, schedule': seq<nat>)
    requires Follows(c, run, schedule) && |ReadySet(c.callbacks, c.ready)| >= c.workers
    requires Inv(c, run[|schedule|]) && Shaped(c, run[|schedule|])
    requires Gathering(EntryConfig(c), run[|schedule|].entry)
    ensures Follows(c, run', schedule') && run'[0] == run[0]
    ensures Inv(c, run'[|schedule'|]) && AtGate(EntryConfig(c), run'[|schedule'|].entry)
    decreases AP.TotalRank(run[|schedule|].entry, c.callbacks)
  {
    hide Inv, Next, Shaped, Gathering, Called, AP.TotalRank;
    var s := run[|schedule|];
    if AtGate(EntryConfig(c), s.entry) {
      run', schedule' := run, schedule;
    } else {
      var i := NextCalled(EntryConfig(c), s.entry);
      GatherStep(c, s, i);
      AppendStep(c, run, schedule, i);
      run', schedule' := Gather(c, run + [Next(c, s, i)], schedule + [i]);
    }
  }

  /** At the gate, a surplus callback is still to come. */
  lemma SurplusLeft(cfg: A.Config, s: A.State) returns (x: nat)
    requires AtGate(cfg, s) && cfg.callbacks > cfg.workers
    ensures x < |s.aps| && s.aps[x].pc.FetchSlot? && x !in s.owners
  {
    hide AS.SlotOk, AS.HolderOk;
    if forall i: nat | i < |s.aps| :: !s.aps[i].pc.FetchSlot? {
      AP.EverybodyTaken(s.aps);
      assert false;
    } else {
      x :| x < |s.aps| && s.aps[x].pc.FetchSlot?;
    }
  }

  /** The surplus callback `x` takes a number past the slots, rejects and is gone. */
  ghost predicate TurnedAway(cfg: A.Config, s: A.State, s': A.State, x: nat) {
    && s'.rejection == 40 && x < |s.aps| == |s'.aps|
    && s'.owners == s.owners + [x] && s'.aps == s.aps[x := A.Ap(A.Returned, |s.owners|, false)]
  }

  /** Entry steps of processors outside the worker call, one after another. */
  lemma EntryPath<P(!new), V(!new)>(c: Config<P, V>, run: seq<State<P, V>>, schedule: seq<nat>, i: nat)
      returns (run': seq<State<P, V>>, schedule': seq<nat>)
    requires Follows(c, run, schedule) && Inv(c, run[|schedule|]) && Shaped(c, run[|schedule|])
    requires i < c.callbacks && !Returned(run[|schedule|], i) && !Working(run[|schedule|], i)
    ensures Follows(c, run', schedule') && run'[0] == run[0]
    ensures Inv(c, run'[|schedule'|]) && Shaped(c, run'[|schedule'|])
    ensures run'[|schedule'|].entry == A.Next(EntryConfig(c), run[|schedule|].entry, i)
  {
    hide Inv, Next, A.Next, Shaped;
    var s := run[|schedule|];
    EntryStep(c, s, i);
    EntryStepInv(c, s, i);
    InvShaped(c, Next(c, s, i));
    AppendStep(c, run, schedule, i);
    run', schedule' := run + [Next(c, s, i)], schedule + [i];
  }

  /** The processor on slot 1 has entered, and the one on slot 0 has just been turned down. */
  ghost predicate Mixed<P, V>(s: State<P, V>) {
    && |s.entry.owners| >= 2 && s.entry.owners[0] < |s.entry.aps| && s.entry.owners[1] < |s.entry.aps|
    && s.entry.aps[s.entry.owners[1]].pc.InWorker? && s.entry.aps[s.entry.owners[1]].entered
    && s.entry.aps[s.entry.owners[0]] == A.Ap(A.StoreStatus(42), 0, false)
  }

  lemma MixedIsStranded<P(!new), V(!new)>(c: Config<P, V>, s: State<P, V>)
    requires ValidConfig(c) && Mixed(s)
    ensures IsStranded(c, s)
  {
    assert Stranded(c, s, 1, 0);
  }

  /**
   The surplus callback comes between the decisions: slot 1 has entered, then the rejection is stored, and slot 0 reads
   it.
   */
  lemma TurnAwayStep(cfg: A.Config, s: A.State, x: nat)
    requires AtGate(cfg, s) && cfg.workers >= 2 && x < |s.aps| && s.aps[x].pc.FetchSlot? && x !in s.owners
    ensures var s1 := A.Next(cfg, s, x);
      && |s1.aps| == |s.aps| && s1.aps[x].pc.RejectSlot? && A.Shaped(cfg, s1)
      && var s2 := A.Next(cfg, s1, x);
      && |s2.aps| == |s.aps| && A.Shaped(cfg, s2)
      && TurnedAway(cfg, s, s2, x)
  {
    hide AS.SlotOk, AS.HolderOk;
  }

  lemma LateDecision(cfg: A.Config, s: A.State, s2: A.State, x: nat)
    requires AtGate(cfg, s) && cfg.workers >= 2 && x < |s.aps| && x !in s.owners
    requires A.Shaped(cfg, s2) && TurnedAway(cfg, s, s2, x)
    ensures var o := s.owners[0];
      && o < |s2.aps| && s2.aps[o].pc.Decide?
      && A.Next(cfg, s2, o) == s2.(aps := s2.aps[o := A.Ap(A.StoreStatus(42), 0, false)])
    ensures s.owners[1] < |s2.aps| && s.owners[1] != s.owners[0]
    ensures s2.aps[s.owners[1]].pc.InWorker? && s2.aps[s.owners[1]].entered
  {
    hide AS.SlotOk, AS.RecordOk;
    assert s.owners[0] in s.owners && s.owners[1] in s.owners;
    assert AS.HolderOk(cfg, s, s.owners[0]) && AS.HolderOk(cfg, s, s.owners[1]);
  }

  /** From any start, more callbacks than workers with enough ready ones can get stranded. */
  lemma ReachMixed<P(!new), V(!new)>(c: Config<P, V>, start: State<P, V>)
      returns (run: seq<State<P, V>>, schedule: seq<nat>)
    requires ValidConfig(c) && Start(c, start)
    requires c.callbacks > c.workers && |ReadySet(c.callbacks, c.ready)| >= c.workers
    ensures Follows(c, run, schedule) && run[0] == start
    ensures Inv(c, run[|schedule|]) && Shaped(c, run[|schedule|]) && Mixed(run[|schedule|])
  {
    hide Inv, Next, A.Next, Shaped, AS.SlotOk, AS.HolderOk;
    StartInv(c, start);
    InvShaped(c, start);
    assert AS.Inv(EntryConfig(c), start.entry) by { AS.StartInv(EntryConfig(c)); }
    var cfg := EntryConfig(c);
    run, schedule := Gather(c, [start], []);
    var s := run[|schedule|].entry;
    var x := SurplusLeft(cfg, s);
    TurnAwayStep(cfg, s, x);
    InvShaped(c, run[|schedule|]);
    run, schedule := EntryPath(c, run, schedule, x);
    run, schedule := EntryPath(c, run, schedule, x);
    LateDecision(cfg, s, run[|schedule|].entry, x);
    run, schedule := EntryPath(c, run, schedule, s.owners[0]);
  }
}
