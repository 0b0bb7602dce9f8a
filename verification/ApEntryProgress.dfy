/**
 What keeps a processor entry going, apart from the worker call: at the entry barrier not everybody can spin, and only
 boundedly many steps are not spins.
 */
module ApEntryProgress {
  import B = Barrier
  import opened ApEntry
  import opened ApEntrySafety

  /** The next step of processor `i` re-reads a generation that has not changed. */
  predicate Spins(s: State, i: nat)
    requires i < |s.aps|
  {
    && s.aps[i].pc.Wait? && s.aps[i].slot < |s.barrier.threads|
    && B.SpinsOn(s.barrier.threads[s.aps[i].slot], s.barrier.generation)
  }

  predicate Useful(s: State, i: nat) {
    i < |s.aps| && !s.aps[i].pc.Returned? && !Spins(s, i)
  }

  // ---- at the barrier ----

  /** While a processor spins, nobody who holds a slot has got past the barrier. */
  lemma SpinnerHolds(cfg: Config, s: State, i: nat, k: nat)
    requires Inv(cfg, s) && i < cfg.callbacks && Spins(s, i) && k < cfg.workers && k < |s.owners|
    ensures Stage(s.aps[s.owners[k]].pc) <= 4
  {
    assert SlotOk(cfg, s, s.aps[i].slot);
    assert B.ThreadOk(s.barrier.threads[s.aps[i].slot], s.barrier.generation);
    if Stage(s.aps[s.owners[k]].pc) > 4 {
      PastBarrier(cfg, s, s.owners[k]);
    }
  }

  /** When all slots are taken, somebody who holds one does not spin. */
  lemma SomeHolderMoves(cfg: Config, s: State, i: nat) returns (k: nat)
    requires Inv(cfg, s) && i < cfg.callbacks && Spins(s, i) && |s.owners| >= cfg.workers
    ensures k < cfg.workers && !Spins(s, s.owners[k]) && Stage(s.aps[s.owners[k]].pc) <= 4
  {
    if forall k: nat | k < cfg.workers :: Spins(s, s.owners[k]) {
      forall k: nat | k < cfg.workers ensures B.SpinsOn(s.barrier.threads[k], s.barrier.generation) {
        assert Spins(s, s.owners[k]);
      }
      B.AllSpinning(s.barrier.threads, s.barrier.generation);
      assert false;
    } else {
      k :| k < cfg.workers && !Spins(s, s.owners[k]);
      SpinnerHolds(cfg, s, i, k);
    }
  }

  /** With enough callbacks, not everybody up to the barrier spins. */
  lemma NotAllSpin(cfg: Config, s: State, i: nat) returns (j: nat)
    requires Inv(cfg, s) && cfg.callbacks >= cfg.workers && i < cfg.callbacks && Spins(s, i)
    ensures Useful(s, j) && Stage(s.aps[j].pc) <= 4
  {
    if j: nat :| j < cfg.callbacks && s.aps[j].pc.FetchSlot? {
      return j;
    }
    CountBounds(s.aps, cfg.workers);
    EverybodyTaken(s.aps);
    var k := SomeHolderMoves(cfg, s, i);
    j := s.owners[k];
  }

  lemma {:induction false} EverybodyTaken(aps: seq<Ap>)
    requires forall i: nat | i < |aps| :: !aps[i].pc.FetchSlot?
    ensures Taken(aps) == |aps|
  {
    if aps != [] {
      EverybodyTaken(aps[..|aps| - 1]);
    }
  }

  // ---- and only so often ----

  function WaitRank(pc: B.PC): nat {
    match pc
    case Outside => 5
    case LoadGeneration => 4
    case Arrive(_) => 3
    case ClearArrivals(_) => 2
    case Release(_) => 1
    case Spin(_) => 1
  }

  function PointRank(pc: PC, waiting: B.PC, workers: nat): nat {
    match pc
    case FetchSlot => workers + 21
    case FetchOr => workers + 20
    case RejectDuplicate => workers + 19
    case StoreReady => workers + 18
    case Wait => workers + 11 + WaitRank(waiting)
    case Peers(peer, _, _) => 10 + if peer <= workers then workers - peer else 0
    case RejectUnready(_) => 9
    case StoreBackend(_, _) => 8
    case Decide(_) => 7
    case RunWorker => 6
    case InWorker => 5
    case StoreStatus(_) => 4
    case StoreRestored => 3
    case CountReturn => 2
    case RejectSlot => 1
    case Returned => 0
  }

  /** Steps left for processor `i`, not counting spins. */
  function Rank(s: State, i: nat): nat
    requires i < |s.aps|
  {
    var ap := s.aps[i];
    var waiting := if ap.slot < |s.barrier.threads| then s.barrier.threads[ap.slot].pc else B.Outside;
    PointRank(ap.pc, waiting, |s.records|)
  }

  function TotalRank(s: State, n: nat): nat
    requires n <= |s.aps|
  {
    if n == 0 then 0 else TotalRank(s, n - 1) + Rank(s, n - 1)
  }

  lemma WaitRankDecreases(cfg: Config, s: State, i: nat)
    requires Shaped(cfg, s) && i < cfg.callbacks && s.aps[i].pc.Wait? && !Spins(s, i)
    ensures Rank(Next(cfg, s, i), i) < Rank(s, i)
  {
    B.AdvanceShape(s.barrier, s.aps[i].slot);
  }

  lemma UsefulRank(cfg: Config, s: State, i: nat)
    requires Shaped(cfg, s) && i < cfg.callbacks && Useful(s, i)
    requires s.aps[i].pc.Peers? ==> s.aps[i].pc.peer <= cfg.workers
    ensures i < |Next(cfg, s, i).aps| && Rank(Next(cfg, s, i), i) < Rank(s, i)
  {
    if s.aps[i].pc.Wait? {
      WaitRankDecreases(cfg, s, i);
    }
  }

  /** A step of one processor leaves the others where they are. */
  lemma OthersStay(cfg: Config, s: State, i: nat, j: nat)
    requires Shaped(cfg, s) && i < cfg.callbacks && !s.aps[i].pc.Returned? && j < cfg.callbacks && j != i
    requires s.aps[j].pc.Wait? && !s.aps[i].pc.FetchSlot? ==> s.aps[j].slot != s.aps[i].slot
    ensures |Next(cfg, s, i).aps| == |s.aps| && Rank(Next(cfg, s, i), j) == Rank(s, j)
    ensures Next(cfg, s, i).aps[j] == s.aps[j]
  {
    if s.aps[i].pc.Wait? {
      B.AdvanceShape(s.barrier, s.aps[i].slot);
    }
  }

  lemma SlotsDiffer(cfg: Config, s: State, i: nat, j: nat)
    requires Inv(cfg, s) && i < cfg.callbacks && j < cfg.callbacks && j != i
    ensures s.aps[j].pc.Wait? && !s.aps[i].pc.FetchSlot? ==> s.aps[j].slot != s.aps[i].slot
  {
  }

  lemma {:induction false} RankChange(s: State, s': State, i: nat, n: nat)
    requires n <= |s.aps| == |s'.aps| && i < |s.aps|
    requires forall j: nat | j < n && j != i :: Rank(s', j) == Rank(s, j)
    ensures TotalRank(s', n) == TotalRank(s, n) + if i < n then Rank(s', i) - Rank(s, i) else 0
  {
    if n > 0 {
      RankChange(s, s', i, n - 1);
    }
  }

  lemma UsefulStepDecreases(cfg: Config, s: State, i: nat)
    requires Inv(cfg, s) && Useful(s, i)
    ensures Inv(cfg, Next(cfg, s, i))
    ensures TotalRank(Next(cfg, s, i), cfg.callbacks) < TotalRank(s, cfg.callbacks)
  {
    hide Next, SlotOk, Rank;
    StepInv(cfg, s, i);
    assert HolderOk(cfg, s, i);
    UsefulRank(cfg, s, i);
    forall j: nat | j < cfg.callbacks && j != i ensures Rank(Next(cfg, s, i), j) == Rank(s, j) {
      SlotsDiffer(cfg, s, i, j);
      OthersStay(cfg, s, i, j);
    }
    RankChange(s, Next(cfg, s, i), i, cfg.callbacks);
  }

  /** A spin changes nothing at all. */
  lemma SpinStays(cfg: Config, s: State, i: nat)
    requires Inv(cfg, s) && i < |s.aps| && Spins(s, i)
    ensures Next(cfg, s, i) == s
  {
  }
}
