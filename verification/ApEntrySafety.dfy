/** All processors that enter a dispatch agree, and the final check accepts exactly the good dispatches. */
module ApEntrySafety {
  import B = Barrier
  import opened ApEntry
  import opened Powers

  // ---- the inductive invariant ----

  function Stage(pc: PC): nat {
    match pc
    case FetchSlot => 0
    case RejectSlot => 0
    case FetchOr => 1
    case RejectDuplicate => 2
    case StoreReady => 3
    case Wait => 4
    case Peers(_, _, _) => 5
    case RejectUnready(_) => 6
    case StoreBackend(_, _) => 7
    case Decide(_) => 8
    case RunWorker => 9
    case InWorker => 10
    case StoreStatus(_) => 11
    case StoreRestored => 12
    case CountReturn => 13
    case Returned => 14
  }

  predicate ReadyBelow(cfg: Config, owners: seq<nat>, p: nat) {
    p <= |owners| && forall k | 0 <= k < p :: cfg.ready(owners[k])
  }

  predicate Avx2Below(cfg: Config, owners: seq<nat>, p: nat) {
    p <= |owners| && forall k | 0 <= k < p :: cfg.ready(owners[k]) && cfg.avx2(owners[k])
  }

  predicate AllReady(cfg: Config, s: State) {
    ReadyBelow(cfg, s.owners, cfg.workers)
  }

  function CommonBackend(cfg: Config, s: State): nat {
    if Avx2Below(cfg, s.owners, cfg.workers) then 1 else 0
  }

  function Taken(aps: seq<Ap>): nat {
    if aps == [] then 0
    else Taken(aps[..|aps| - 1]) + if aps[|aps| - 1].pc.FetchSlot? then 0 else 1
  }

  predicate Back(ap: Ap, workers: nat) {
    ap.pc.Returned? && ap.slot < workers
  }

  function BackCount(aps: seq<Ap>, workers: nat): nat {
    if aps == [] then 0
    else BackCount(aps[..|aps| - 1], workers) + if Back(aps[|aps| - 1], workers) then 1 else 0
  }

  ghost predicate SlotsOk(cfg: Config, s: State)
    requires Shaped(cfg, s)
  {
    && (forall k | 0 <= k < |s.owners| ::
          s.owners[k] < cfg.callbacks && !s.aps[s.owners[k]].pc.FetchSlot? && s.aps[s.owners[k]].slot == k)
    && (forall i | 0 <= i < cfg.callbacks && !s.aps[i].pc.FetchSlot? ::
          && s.aps[i].slot < |s.owners| && s.owners[s.aps[i].slot] == i
          && (s.aps[i].pc.RejectSlot? ==> s.aps[i].slot >= cfg.workers))
    && Taken(s.aps) == |s.owners|
    && BackCount(s.aps, cfg.workers) == s.returned
  }

  predicate Bit(masks: seq<seq<bool>>, slot: nat) {
    slot / 64 < |masks| && slot % 64 < |masks[slot / 64]| && masks[slot / 64][slot % 64]
  }

  /** What the processor holding a slot has reported and decided so far. */
  ghost predicate HolderOk(cfg: Config, s: State, i: nat)
    requires Shaped(cfg, s) && i < cfg.callbacks
  {
    var ap := s.aps[i];
    && !ap.pc.RejectDuplicate?
    && (ap.pc.Peers? ==>
          && ap.pc.peer <= cfg.workers
          && (ap.pc.allReady <==> ReadyBelow(cfg, s.owners, ap.pc.peer))
          && (ap.pc.commonAvx2 <==> Avx2Below(cfg, s.owners, ap.pc.peer)))
    && (ap.pc.RejectUnready? ==>
          !AllReady(cfg, s) && (ap.pc.commonAvx2 <==> Avx2Below(cfg, s.owners, cfg.workers)))
    && (ap.pc.StoreBackend? ==>
          && (ap.pc.allReady <==> AllReady(cfg, s))
          && (ap.pc.commonAvx2 <==> Avx2Below(cfg, s.owners, cfg.workers)))
    && (ap.pc.Decide? ==> (ap.pc.allReady <==> AllReady(cfg, s)))
    && (ap.pc.RunWorker? ==> AllReady(cfg, s))
    && (ap.pc.InWorker? ==> ap.entered)
    && (ap.entered ==> AllReady(cfg, s) && Stage(ap.pc) >= 10 && ap.slot < cfg.workers)
    && (cfg.callbacks <= cfg.workers && Stage(ap.pc) >= 10 ==> (ap.entered <==> AllReady(cfg, s)))
    && (ap.pc.StoreStatus? ==> ap.pc.status == FinalStatus(cfg, ap))
  }

  function FinalStatus(cfg: Config, ap: Ap): nat {
    if ap.entered then cfg.jobStatus(ap.slot) else 42
  }

  predicate RecordOk(cfg: Config, s: State, i: nat, r: Record)
    requires i < |s.aps|
  {
    var stage := Stage(s.aps[i].pc);
    && r.ready == (stage >= 4 && cfg.ready(i))
    && r.avx2 == (stage >= 4 && cfg.ready(i) && cfg.avx2(i))
    && r.backend == (if stage >= 8 then CommonBackend(cfg, s) else NONE)
    && r.workerStatus == (if stage >= 12 then FinalStatus(cfg, s.aps[i]) else NONE)
    && r.restored == (if stage >= 13 && cfg.restores(i) then 1 else 0)
  }

  predicate WaitingOk(stage: nat, th: B.Thread) {
    && (th.pc.Outside? <==> stage != 4)
    && th.rounds == if stage > 4 then 1 else 0
  }

  ghost predicate SlotOk(cfg: Config, s: State, k: nat)
    requires Shaped(cfg, s) && SlotsOk(cfg, s) && k < cfg.workers
  {
    if k < |s.owners| then
      var stage := Stage(s.aps[s.owners[k]].pc);
      && (Bit(s.masks, k) <==> stage >= 2)
      && RecordOk(cfg, s, s.owners[k], s.records[k])
      && WaitingOk(stage, s.barrier.threads[k])
    else
      && !Bit(s.masks, k)
      && s.records[k] == FRESH
      && s.barrier.threads[k] == B.Thread(B.Outside, 0)
  }

  ghost predicate RejectionOk(cfg: Config, s: State) {
    || s.rejection == 0
    || (s.rejection == 40 && |s.owners| > cfg.workers)
    || (s.rejection == 42 && |s.owners| >= cfg.workers && !AllReady(cfg, s))
  }

  ghost predicate Inv(cfg: Config, s: State) {
    && Shaped(cfg, s)
    && B.Inv(s.barrier)
    && SlotsOk(cfg, s)
    && (forall k: nat | k < cfg.workers :: SlotOk(cfg, s, k))
    && (forall i: nat | i < cfg.callbacks :: HolderOk(cfg, s, i))
    && (forall j: nat | cfg.workers <= j < 64 * MaskWords(cfg.workers) :: !Bit(s.masks, j))
    && RejectionOk(cfg, s)
  }

  // ---- counting ----

  lemma {:induction false} TakenUpdate(aps: seq<Ap>, i: nat, ap: Ap)
    requires i < |aps|
    ensures Taken(aps[i := ap]) + (if aps[i].pc.FetchSlot? then 0 else 1)
         == Taken(aps) + (if ap.pc.FetchSlot? then 0 else 1)
  {
    var last := |aps| - 1;
    if i == last {
      assert aps[i := ap][..last] == aps[..last];
    } else {
      TakenUpdate(aps[..last], i, ap);
      assert aps[i := ap][..last] == aps[..last][i := ap];
    }
  }

  lemma {:induction false} BackUpdate(aps: seq<Ap>, i: nat, ap: Ap, workers: nat)
    requires i < |aps|
    ensures BackCount(aps[i := ap], workers) + (if Back(aps[i], workers) then 1 else 0)
         == BackCount(aps, workers) + (if Back(ap, workers) then 1 else 0)
  {
    var last := |aps| - 1;
    if i == last {
      assert aps[i := ap][..last] == aps[..last];
    } else {
      BackUpdate(aps[..last], i, ap, workers);
      assert aps[i := ap][..last] == aps[..last][i := ap];
    }
  }

  lemma {:induction false} CountBounds(aps: seq<Ap>, workers: nat)
    ensures Taken(aps) <= |aps|
    ensures (forall i | 0 <= i < |aps| :: aps[i].pc.Returned?) ==> Taken(aps) == |aps|
    ensures (forall i | 0 <= i < |aps| :: Back(aps[i], workers)) ==> BackCount(aps, workers) == |aps|
    ensures (forall i | 0 <= i < |aps| :: aps[i].pc.FetchSlot?) ==> Taken(aps) == 0 && BackCount(aps, workers) == 0
    ensures (exists i: nat :: i < |aps| && aps[i].pc.FetchSlot?) ==> Taken(aps) < |aps|
  {
    if aps != [] {
      var last := |aps| - 1;
      CountBounds(aps[..last], workers);
      if i: nat :| i < |aps| && aps[i].pc.FetchSlot? {
        assert i < last ==> aps[..last][i].pc.FetchSlot?;
      }
    }
  }

  // ---- consequences ----

  /** Once anybody is past the barrier, every slot is taken and has reported. */
  lemma PastBarrier(cfg: Config, s: State, i: nat)
    requires Inv(cfg, s) && i < cfg.callbacks && s.aps[i].slot < cfg.workers && Stage(s.aps[i].pc) > 4
    ensures |s.owners| >= cfg.workers
    ensures forall k: nat | k < cfg.workers :: Stage(s.aps[s.owners[k]].pc) >= 4
    ensures s.barrier.generation == 1
  {
    assert SlotOk(cfg, s, s.aps[i].slot);
    assert B.ThreadOk(s.barrier.threads[s.aps[i].slot], s.barrier.generation);
    assert SlotOk(cfg, s, cfg.workers - 1) && B.ThreadOk(s.barrier.threads[cfg.workers - 1], s.barrier.generation);
    forall k: nat | k < cfg.workers ensures Stage(s.aps[s.owners[k]].pc) >= 4 {
      assert SlotOk(cfg, s, k);
      assert B.ThreadOk(s.barrier.threads[k], s.barrier.generation);
    }
  }

  lemma StartInv(cfg: Config)
    requires cfg.workers > 0
    ensures Inv(cfg, Start(cfg))
  {
    B.StartInv(cfg.workers);
    CountBounds(Start(cfg).aps, cfg.workers);
  }

  // ---- frame ----

  /** A step of processor `i` that touches at most its own slot. */
  ghost predicate OwnSlotOnly(cfg: Config, s: State, s': State, i: nat)
    requires Shaped(cfg, s) && Shaped(cfg, s') && i < cfg.callbacks
  {
    && s'.owners == s.owners
    && s'.aps == s.aps[i := s'.aps[i]]
    && s'.aps[i].slot == s.aps[i].slot
    && !s.aps[i].pc.FetchSlot? && !s'.aps[i].pc.FetchSlot? && !s'.aps[i].pc.RejectSlot?
    && (forall k: nat | k < cfg.workers && k != s.aps[i].slot ::
          s'.records[k] == s.records[k] && s'.barrier.threads[k] == s.barrier.threads[k])
    && (forall k: nat | k < 64 * MaskWords(cfg.workers) && k != s.aps[i].slot ::
          Bit(s'.masks, k) == Bit(s.masks, k))
    && s'.returned == s.returned + (if s'.aps[i].pc.Returned? && s.aps[i].slot < cfg.workers then 1 else 0)
  }

  lemma OwnSlotCounts(cfg: Config, s: State, s': State, i: nat)
    requires Inv(cfg, s) && Shaped(cfg, s') && i < cfg.callbacks && OwnSlotOnly(cfg, s, s', i)
    requires !s.aps[i].pc.Returned?
    ensures SlotsOk(cfg, s')
  {
    TakenUpdate(s.aps, i, s'.aps[i]);
    BackUpdate(s.aps, i, s'.aps[i], cfg.workers);
  }

  lemma OwnSlotInv(cfg: Config, s: State, s': State, i: nat)
    requires Inv(cfg, s) && Shaped(cfg, s') && i < cfg.callbacks && OwnSlotOnly(cfg, s, s', i)
    requires !s.aps[i].pc.Returned? && !s.aps[i].pc.RejectSlot?
    requires B.Inv(s'.barrier) && RejectionOk(cfg, s') && HolderOk(cfg, s', i)
    requires SlotsOk(cfg, s') ==> SlotOk(cfg, s', s.aps[i].slot)
    ensures Inv(cfg, s')
  {
    OwnSlotCounts(cfg, s, s', i);
    forall k: nat | k < cfg.workers ensures SlotOk(cfg, s', k) {
      assert SlotOk(cfg, s, k);
    }
    forall j: nat | j < cfg.callbacks ensures HolderOk(cfg, s', j) {
      assert HolderOk(cfg, s, j);
    }
  }

  // ---- one lemma per kind of step ----

  lemma FetchSlotShape(cfg: Config, s: State, i: nat)
    requires Inv(cfg, s) && i < cfg.callbacks && s.aps[i].pc.FetchSlot?
    ensures Shaped(cfg, DoFetchSlot(cfg, s, i)) && SlotsOk(cfg, DoFetchSlot(cfg, s, i))
  {
    var s' := DoFetchSlot(cfg, s, i);
    TakenUpdate(s.aps, i, s'.aps[i]);
    BackUpdate(s.aps, i, s'.aps[i], cfg.workers);
    if |s.owners| < cfg.workers {
      assert SlotOk(cfg, s, |s.owners|);
    }
  }

  lemma FetchKeepsSlot(cfg: Config, s: State, i: nat, k: nat)
    requires Inv(cfg, s) && i < cfg.callbacks && s.aps[i].pc.FetchSlot? && k < cfg.workers
    requires Shaped(cfg, DoFetchSlot(cfg, s, i)) && SlotsOk(cfg, DoFetchSlot(cfg, s, i))
    ensures SlotOk(cfg, DoFetchSlot(cfg, s, i), k)
  {
    assert SlotOk(cfg, s, k);
    if k < |s.owners| && Stage(s.aps[s.owners[k]].pc) > 4 {
      PastBarrier(cfg, s, s.owners[k]);
      GrowReady(cfg, s.owners, i, cfg.workers);
    }
  }

  lemma FetchSlotStep(cfg: Config, s: State, i: nat)
    requires Inv(cfg, s) && i < cfg.callbacks && s.aps[i].pc.FetchSlot?
    ensures Inv(cfg, DoFetchSlot(cfg, s, i))
  {
    var s' := DoFetchSlot(cfg, s, i);
    FetchSlotShape(cfg, s, i);
    forall k: nat | k < cfg.workers ensures SlotOk(cfg, s', k) {
      FetchKeepsSlot(cfg, s, i, k);
    }
    forall j: nat | j < cfg.callbacks ensures HolderOk(cfg, s', j) {
      FetchKeepsHolder(cfg, s, i, j);
    }
    FetchKeepsRejection(cfg, s, i);
  }

  lemma GrowReady(cfg: Config, owners: seq<nat>, i: nat, p: nat)
    requires p <= |owners|
    ensures ReadyBelow(cfg, owners + [i], p) == ReadyBelow(cfg, owners, p)
    ensures Avx2Below(cfg, owners + [i], p) == Avx2Below(cfg, owners, p)
  {
    forall k | 0 <= k < p ensures (owners + [i])[k] == owners[k] {
    }
  }

  lemma FetchKeepsRejection(cfg: Config, s: State, i: nat)
    requires RejectionOk(cfg, s) && i < |s.aps|
    ensures RejectionOk(cfg, DoFetchSlot(cfg, s, i))
  {
    if |s.owners| >= cfg.workers {
      GrowReady(cfg, s.owners, i, cfg.workers);
    }
  }

  lemma FetchKeepsHolder(cfg: Config, s: State, i: nat, j: nat)
    requires Inv(cfg, s) && i < cfg.callbacks && s.aps[i].pc.FetchSlot? && j < cfg.callbacks
    requires Shaped(cfg, DoFetchSlot(cfg, s, i))
    ensures HolderOk(cfg, DoFetchSlot(cfg, s, i), j)
  {
    assert HolderOk(cfg, s, j);
    CountBounds(s.aps, cfg.workers);
    if j != i && !s.aps[j].pc.FetchSlot? && s.aps[j].slot < cfg.workers && Stage(s.aps[j].pc) > 4 {
      PastBarrier(cfg, s, j);
      forall p: nat | p <= cfg.workers ensures
        ReadyBelow(cfg, s.owners + [i], p) == ReadyBelow(cfg, s.owners, p)
        && Avx2Below(cfg, s.owners + [i], p) == Avx2Below(cfg, s.owners, p)
      {
        GrowReady(cfg, s.owners, i, p);
      }
    }
  }

  lemma RejectSlotShape(cfg: Config, s: State, i: nat)
    requires Inv(cfg, s) && i < cfg.callbacks && s.aps[i].pc.RejectSlot?
    ensures var s' := Goto(s.(rejection := 40), i, Returned);
      Shaped(cfg, s') && SlotsOk(cfg, s') && RejectionOk(cfg, s')
    ensures cfg.callbacks > cfg.workers
  {
    var s' := Goto(s.(rejection := 40), i, Returned);
    assert HolderOk(cfg, s, i);
    CountBounds(s.aps, cfg.workers);
    OwnSlotCounts(cfg, s, s', i);
  }

  lemma RejectSlotStep(cfg: Config, s: State, i: nat)
    requires Inv(cfg, s) && i < cfg.callbacks && s.aps[i].pc.RejectSlot?
    ensures Inv(cfg, Goto(s.(rejection := 40), i, Returned))
  {
    var s' := Goto(s.(rejection := 40), i, Returned);
    RejectSlotShape(cfg, s, i);
    forall k: nat | k < cfg.workers ensures SlotOk(cfg, s', k) {
      assert SlotOk(cfg, s, k);
    }
    forall j: nat | j < cfg.callbacks ensures HolderOk(cfg, s', j) {
      assert HolderOk(cfg, s, j);
    }
  }

  lemma FetchOrStep(cfg: Config, s: State, i: nat)
    requires Inv(cfg, s) && i < cfg.callbacks && s.aps[i].pc.FetchOr?
    ensures s.aps[i].slot / 64 < |s.masks| && Inv(cfg, DoFetchOr(s, i))
  {
    MaskWordExists(cfg.workers, s.aps[i].slot);
    assert HolderOk(cfg, s, i) && SlotOk(cfg, s, s.aps[i].slot);
    OwnSlotInv(cfg, s, DoFetchOr(s, i), i);
  }

  lemma StoreReadyStep(cfg: Config, s: State, i: nat)
    requires Inv(cfg, s) && i < cfg.callbacks && s.aps[i].pc.StoreReady?
    ensures Inv(cfg, DoStoreReady(cfg, s, i))
  {
    assert HolderOk(cfg, s, i) && SlotOk(cfg, s, s.aps[i].slot);
    B.EnterInv(s.barrier, s.aps[i].slot);
    OwnSlotInv(cfg, s, DoStoreReady(cfg, s, i), i);
  }

  lemma WaitOwnSlot(cfg: Config, s: State, i: nat)
    requires Inv(cfg, s) && i < cfg.callbacks && s.aps[i].pc.Wait?
    ensures s.aps[i].slot < |s.barrier.threads| && !s.barrier.threads[s.aps[i].slot].pc.Outside?
    ensures var s' := DoWait(s, i);
      Shaped(cfg, s') && B.Inv(s'.barrier) && OwnSlotOnly(cfg, s, s', i) && RejectionOk(cfg, s')
  {
    assert HolderOk(cfg, s, i) && SlotOk(cfg, s, s.aps[i].slot);
    B.AdvanceInv(s.barrier, s.aps[i].slot);
    B.AdvanceShape(s.barrier, s.aps[i].slot);
  }

  lemma WaitStep(cfg: Config, s: State, i: nat)
    requires Inv(cfg, s) && i < cfg.callbacks && s.aps[i].pc.Wait?
    ensures Inv(cfg, DoWait(s, i))
  {
    WaitOwnSlot(cfg, s, i);
    assert HolderOk(cfg, s, i) && SlotOk(cfg, s, s.aps[i].slot);
    B.AdvanceShape(s.barrier, s.aps[i].slot);
    OwnSlotInv(cfg, s, DoWait(s, i), i);
  }

  /** Reading one more report extends both verdicts by that peer's. */
  lemma PeerReport(cfg: Config, s: State, i: nat, p: nat)
    requires Inv(cfg, s) && i < cfg.callbacks && s.aps[i].pc.Peers? && p < cfg.workers
    ensures ReadyBelow(cfg, s.owners, p + 1) <==> ReadyBelow(cfg, s.owners, p) && s.records[p].ready
    ensures Avx2Below(cfg, s.owners, p + 1) <==> Avx2Below(cfg, s.owners, p) && s.records[p].avx2
  {
    PastBarrier(cfg, s, i);
    assert SlotOk(cfg, s, p);
  }

  /** A processor past the barrier that only changes where it is, before it reports its status. */
  lemma GotoInv(cfg: Config, s: State, i: nat, pc: PC)
    requires Inv(cfg, s) && i < cfg.callbacks
    requires 4 < Stage(s.aps[i].pc) <= 11 && Stage(s.aps[i].pc) <= Stage(pc) <= 11
    requires Stage(s.aps[i].pc) < 8 ==> Stage(pc) < 8
    requires HolderOk(cfg, Goto(s, i, pc), i)
    ensures Inv(cfg, Goto(s, i, pc))
  {
    assert SlotOk(cfg, s, s.aps[i].slot);
    OwnSlotInv(cfg, s, Goto(s, i, pc), i);
  }

  lemma PeersStep(cfg: Config, s: State, i: nat)
    requires Inv(cfg, s) && i < cfg.callbacks && s.aps[i].pc.Peers?
    ensures Inv(cfg, DoPeers(s, i))
  {
    assert HolderOk(cfg, s, i);
    if s.aps[i].pc.peer < cfg.workers {
      PeerReport(cfg, s, i, s.aps[i].pc.peer);
    }
    GotoInv(cfg, s, i, DoPeers(s, i).aps[i].pc);
  }

  lemma RejectUnreadyStep(cfg: Config, s: State, i: nat, common: bool)
    requires Inv(cfg, s) && i < cfg.callbacks && s.aps[i].pc == RejectUnready(common)
    ensures Inv(cfg, Goto(s.(rejection := 42), i, StoreBackend(false, common)))
  {
    assert HolderOk(cfg, s, i) && SlotOk(cfg, s, s.aps[i].slot);
    PastBarrier(cfg, s, i);
    OwnSlotInv(cfg, s, Goto(s.(rejection := 42), i, StoreBackend(false, common)), i);
  }

  lemma StoreBackendStep(cfg: Config, s: State, i: nat)
    requires Inv(cfg, s) && i < cfg.callbacks && s.aps[i].pc.StoreBackend?
    ensures Inv(cfg, DoStoreBackend(s, i))
  {
    assert HolderOk(cfg, s, i) && SlotOk(cfg, s, s.aps[i].slot);
    OwnSlotInv(cfg, s, DoStoreBackend(s, i), i);
  }

  /** With no surplus callback, nothing but an unready processor can have rejected. */
  lemma DecideStep(cfg: Config, s: State, i: nat, allReady: bool)
    requires Inv(cfg, s) && i < cfg.callbacks && s.aps[i].pc == Decide(allReady)
    ensures Inv(cfg, Goto(s, i, if allReady && s.rejection == 0 then RunWorker else StoreStatus(42)))
  {
    assert HolderOk(cfg, s, i);
    CountBounds(s.aps, cfg.workers);
    GotoInv(cfg, s, i, if allReady && s.rejection == 0 then RunWorker else StoreStatus(42));
  }

  lemma RunWorkerStep(cfg: Config, s: State, i: nat)
    requires Inv(cfg, s) && i < cfg.callbacks && s.aps[i].pc.RunWorker?
    ensures Inv(cfg, DoRunWorker(s, i))
  {
    assert HolderOk(cfg, s, i) && SlotOk(cfg, s, s.aps[i].slot);
    OwnSlotInv(cfg, s, DoRunWorker(s, i), i);
  }

  lemma InWorkerStep(cfg: Config, s: State, i: nat)
    requires Inv(cfg, s) && i < cfg.callbacks && s.aps[i].pc.InWorker?
    ensures Inv(cfg, Goto(s, i, StoreStatus(cfg.jobStatus(s.aps[i].slot))))
  {
    assert HolderOk(cfg, s, i);
    GotoInv(cfg, s, i, StoreStatus(cfg.jobStatus(s.aps[i].slot)));
  }

  lemma StoreStatusStep(cfg: Config, s: State, i: nat)
    requires Inv(cfg, s) && i < cfg.callbacks && s.aps[i].pc.StoreStatus?
    ensures Inv(cfg, DoStoreStatus(s, i))
  {
    assert HolderOk(cfg, s, i) && SlotOk(cfg, s, s.aps[i].slot);
    OwnSlotInv(cfg, s, DoStoreStatus(s, i), i);
  }

  lemma StoreRestoredStep(cfg: Config, s: State, i: nat)
    requires Inv(cfg, s) && i < cfg.callbacks && s.aps[i].pc.StoreRestored?
    ensures Inv(cfg, DoStoreRestored(cfg, s, i))
  {
    assert HolderOk(cfg, s, i) && SlotOk(cfg, s, s.aps[i].slot);
    OwnSlotInv(cfg, s, DoStoreRestored(cfg, s, i), i);
  }

  lemma CountReturnHolder(cfg: Config, s: State, i: nat)
    requires Inv(cfg, s) && i < cfg.callbacks && s.aps[i].pc.CountReturn?
    ensures var s' := Goto(s.(returned := s.returned + 1), i, Returned);
      Shaped(cfg, s') && HolderOk(cfg, s', i) && RejectionOk(cfg, s')
  {
    assert HolderOk(cfg, s, i);
  }

  lemma CountReturnStep(cfg: Config, s: State, i: nat)
    requires Inv(cfg, s) && i < cfg.callbacks && s.aps[i].pc.CountReturn?
    ensures Inv(cfg, Goto(s.(returned := s.returned + 1), i, Returned))
  {
    CountReturnHolder(cfg, s, i);
    assert SlotOk(cfg, s, s.aps[i].slot);
    OwnSlotInv(cfg, s, Goto(s.(returned := s.returned + 1), i, Returned), i);
  }

  lemma StepInv(cfg: Config, s: State, i: nat)
    requires Inv(cfg, s) && i < cfg.callbacks && !s.aps[i].pc.Returned?
    ensures Inv(cfg, Next(cfg, s, i))
  {
    assert HolderOk(cfg, s, i);
    var pc := s.aps[i].pc;
    match pc
    case FetchSlot => FetchSlotStep(cfg, s, i);
    case RejectSlot => RejectSlotStep(cfg, s, i);
    case FetchOr => FetchOrStep(cfg, s, i);
    case StoreReady => StoreReadyStep(cfg, s, i);
    case Wait => WaitStep(cfg, s, i);
    case Peers(_, _, _) => PeersStep(cfg, s, i);
    case RejectUnready(common) => RejectUnreadyStep(cfg, s, i, common);
    case StoreBackend(_, _) => StoreBackendStep(cfg, s, i);
    case Decide(allReady) => DecideStep(cfg, s, i, allReady);
    case RunWorker => RunWorkerStep(cfg, s, i);
    case InWorker => InWorkerStep(cfg, s, i);
    case StoreStatus(_) => StoreStatusStep(cfg, s, i);
    case StoreRestored => StoreRestoredStep(cfg, s, i);
    case _ => CountReturnStep(cfg, s, i);
  }

  lemma AnyStepInv(cfg: Config, s: State, s': State)
    requires Inv(cfg, s) && Step(cfg, s, s')
    ensures Inv(cfg, s')
  {
    var i: nat :| i < cfg.callbacks && !s.aps[i].pc.Returned? && s' == Next(cfg, s, i);
    StepInv(cfg, s, i);
  }

  lemma {:induction false} RunInv(cfg: Config, run: seq<State>, n: nat)
    requires cfg.workers > 0 && Run(cfg, run) && n < |run|
    ensures Inv(cfg, run[n])
  {
    if n == 0 {
      StartInv(cfg);
    } else {
      RunInv(cfg, run, n - 1);
      assert Step(cfg, run[n - 1], run[n - 1 + 1]);
      AnyStepInv(cfg, run[n - 1], run[n]);
    }
  }

  // ---- main results ----

  predicate ProcessorsReady(cfg: Config) {
    forall i | 0 <= i < cfg.callbacks :: cfg.ready(i)
  }

  predicate ProcessorsAvx2(cfg: Config) {
    forall i | 0 <= i < cfg.callbacks :: cfg.ready(i) && cfg.avx2(i)
  }

  /** Every processor holds its own slot, and every slot has its processor. */
  ghost predicate SlotsPermuted(cfg: Config, s: State) {
    && |s.owners| == |s.aps| == cfg.workers
    && (forall i | 0 <= i < |s.aps| :: s.aps[i].slot < cfg.workers && s.owners[s.aps[i].slot] == i)
    && (forall k | 0 <= k < cfg.workers :: s.owners[k] < |s.aps| && s.aps[s.owners[k]].slot == k)
  }

  lemma InvSlotsPermuted(cfg: Config, s: State)
    requires Inv(cfg, s) && cfg.callbacks == cfg.workers && |s.owners| >= cfg.workers
    ensures SlotsPermuted(cfg, s)
    ensures AllReady(cfg, s) <==> ProcessorsReady(cfg)
    ensures Avx2Below(cfg, s.owners, cfg.workers) <==> ProcessorsAvx2(cfg)
  {
    CountBounds(s.aps, cfg.workers);
    forall i: nat | i < cfg.callbacks ensures s.aps[i].slot < cfg.workers && s.owners[s.aps[i].slot] == i {
      assert !s.aps[i].pc.FetchSlot?;
    }
    if AllReady(cfg, s) {
      forall i: nat | i < cfg.callbacks ensures cfg.ready(i) {
        assert cfg.ready(s.owners[s.aps[i].slot]);
      }
    }
    if Avx2Below(cfg, s.owners, cfg.workers) {
      forall i: nat | i < cfg.callbacks ensures cfg.ready(i) && cfg.avx2(i) {
        assert cfg.ready(s.owners[s.aps[i].slot]) && cfg.avx2(s.owners[s.aps[i].slot]);
      }
    }
  }

  /**
   When exactly the prepared number of callbacks run: whoever has decided holds a slot of a
   permutation, chose the backend everybody can run, and entered the worker exactly if every
   processor was ready - so all of them enter or none does.
   */
  ghost predicate Agreed(cfg: Config, s: State, i: nat)
    requires i < |s.aps|
  {
    Stage(s.aps[i].pc) >= 9 ==>
      && SlotsPermuted(cfg, s)
      && s.aps[i].slot < |s.records|
      && s.records[s.aps[i].slot].backend == (if ProcessorsAvx2(cfg) then 1 else 0)
      && (s.aps[i].pc.RunWorker? || s.aps[i].entered <==> ProcessorsReady(cfg))
  }

  lemma EntryAgreement(cfg: Config, run: seq<State>)
    requires cfg.workers > 0 && cfg.callbacks == cfg.workers && Run(cfg, run)
    ensures forall n | 0 <= n < |run| :: |run[n].aps| == cfg.callbacks
    ensures forall n, i: nat | 0 <= n < |run| && i < cfg.callbacks :: Agreed(cfg, run[n], i)
  {
    forall n | 0 <= n < |run| ensures Inv(cfg, run[n]) {
      RunInv(cfg, run, n);
    }
    forall n, i: nat | 0 <= n < |run| && i < cfg.callbacks ensures Agreed(cfg, run[n], i) {
      InvAgreed(cfg, run[n], i);
    }
  }

  lemma InvAgreed(cfg: Config, s: State, i: nat)
    requires Inv(cfg, s) && cfg.callbacks == cfg.workers && i < cfg.callbacks
    ensures Agreed(cfg, s, i)
  {
    if Stage(s.aps[i].pc) >= 9 {
      assert HolderOk(cfg, s, i);
      CountBounds(s.aps, cfg.workers);
      PastBarrier(cfg, s, i);
      InvSlotsPermuted(cfg, s);
      assert SlotOk(cfg, s, s.aps[i].slot);
    }
  }

  // ---- the verdict of the dispatching processor ----

  lemma {:induction false} PrefixWord(bits: seq<bool>, r: nat)
    requires forall j | 0 <= j < |bits| :: bits[j] <==> j < r
    ensures WordValue(bits) == Pow2(if r < |bits| then r else |bits|) - 1
  {
    if bits != [] {
      PrefixWord(bits[..|bits| - 1], r);
    }
  }

  lemma FullWord()
    ensures Pow2(64) == 0x1_0000_0000_0000_0000
  {
    assert Pow2(8) == 256;
    Pow2Sum(8, 8);
    Pow2Sum(16, 16);
    Pow2Sum(32, 32);
  }

  lemma WordAsExpected(cfg: Config, s: State, w: nat)
    requires Inv(cfg, s) && w < |s.masks|
    requires forall k: nat | k < cfg.workers :: Bit(s.masks, k)
    ensures WordValue(s.masks[w]) == ExpectedWord(cfg.workers, w)
  {
    var remaining := if w * 64 <= cfg.workers then cfg.workers - w * 64 else 0;
    forall j | 0 <= j < 64 ensures s.masks[w][j] <==> j < remaining {
      var slot := w * 64 + j;
      assert slot / 64 == w && slot % 64 == j;
      assert Bit(s.masks, slot) == s.masks[w][j];
    }
    PrefixWord(s.masks[w], remaining);
    FullWord();
  }

  ghost predicate GoodDispatch(cfg: Config) {
    && cfg.callbacks == cfg.workers
    && (forall i | 0 <= i < cfg.callbacks :: cfg.ready(i) && cfg.restores(i))
    && (forall k | 0 <= k < cfg.workers :: cfg.jobStatus(k) == 0)
    && cfg.coreStatus == 0
  }

  predicate AllReturned(s: State) {
    forall i | 0 <= i < |s.aps| :: s.aps[i].pc.Returned?
  }

  lemma AcceptedIsGood(cfg: Config, s: State)
    requires Inv(cfg, s) && AllReturned(s) && Accepts(cfg, s)
    ensures GoodDispatch(cfg)
  {
    CountBounds(s.aps, cfg.workers);
    assert cfg.callbacks == cfg.workers;
    InvSlotsPermuted(cfg, s);
    forall k: nat | k < cfg.workers ensures
      && cfg.jobStatus(k) == 0 && cfg.restores(s.owners[k]) && AllReady(cfg, s)
    {
      assert SlotOk(cfg, s, k);
      assert HolderOk(cfg, s, s.owners[k]);
      assert s.records[k].restored == 1 && s.records[k].workerStatus == 0;
    }
    forall i: nat | i < cfg.callbacks ensures cfg.ready(i) && cfg.restores(i) {
      assert cfg.restores(s.owners[s.aps[i].slot]);
    }
  }

  lemma ReturnedBarrier(cfg: Config, s: State)
    requires Inv(cfg, s) && AllReturned(s) && cfg.callbacks == cfg.workers
    ensures |s.owners| == s.returned == cfg.workers
    ensures s.barrier.arrivals == 0 && s.barrier.generation == 1
  {
    CountBounds(s.aps, cfg.workers);
    PastBarrier(cfg, s, 0);
    forall k: nat | k < cfg.workers ensures s.barrier.threads[k].pc.Outside? {
      assert SlotOk(cfg, s, k);
    }
    B.SpinnersBound(s.barrier.threads, s.barrier.generation);
  }

  lemma GoodIsAccepted(cfg: Config, s: State)
    requires Inv(cfg, s) && AllReturned(s) && GoodDispatch(cfg)
    ensures Accepts(cfg, s)
  {
    ReturnedBarrier(cfg, s);
    InvSlotsPermuted(cfg, s);
    forall k: nat | k < cfg.workers ensures
      && Bit(s.masks, k)
      && s.records[k].restored == 1 && s.records[k].workerStatus == 0
      && s.records[k].backend == CommonBackend(cfg, s)
    {
      assert SlotOk(cfg, s, k);
      assert HolderOk(cfg, s, s.owners[k]);
    }
    forall w | 0 <= w < |s.masks| ensures WordValue(s.masks[w]) == ExpectedWord(cfg.workers, w) {
      WordAsExpected(cfg, s, w);
    }
  }

  lemma InvVerdict(cfg: Config, s: State)
    requires Inv(cfg, s) && AllReturned(s)
    ensures Accepts(cfg, s) <==> GoodDispatch(cfg)
  {
    if Accepts(cfg, s) {
      CountBounds(s.aps, cfg.workers);
      AcceptedIsGood(cfg, s);
    }
    if GoodDispatch(cfg) {
      GoodIsAccepted(cfg, s);
    }
  }

  /**
   After all callbacks have returned, the dispatching processor accepts exactly the good
   dispatches, for any number of workers and any number of callbacks.
   */
  lemma VerdictExact(cfg: Config, run: seq<State>)
    requires cfg.workers > 0 && Run(cfg, run)
    requires AllReturned(run[|run| - 1])
    ensures Accepts(cfg, run[|run| - 1]) <==> GoodDispatch(cfg)
  {
    RunInv(cfg, run, |run| - 1);
    InvVerdict(cfg, run[|run| - 1]);
  }
}
