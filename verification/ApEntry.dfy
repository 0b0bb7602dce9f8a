/**
 Processor entry for one dispatch.  The firmware starts the same callback on some number
 of processors; each takes a slot, reports what it can do, waits for the others at the entry
 barrier and then decides, from everybody's report, whether to run the worker.  Each
 atomic access is one step; hardware answers are parameters.
 */
module ApEntry {
  import B = Barrier
  import opened Powers

  /** `callbacks` processors run the callback; the dispatch was prepared for `workers`. */
  datatype Config = Config(
    workers: nat,
    callbacks: nat,
    ready: nat -> bool,       // processor state established
    avx2: nat -> bool,        // AVX2 usable
    restores: nat -> bool,    // saved state read back equal
    jobStatus: nat -> nat,    // what the worker call returns on a slot, when it does
    coreStatus: nat)          // final protocol status of the job

  datatype PC =
    | FetchSlot
    | RejectSlot
    | FetchOr
    | RejectDuplicate
    | StoreReady
    | Wait
    | Peers(peer: nat, allReady: bool, commonAvx2: bool)
    | RejectUnready(commonAvx2: bool)
    | StoreBackend(allReady: bool, commonAvx2: bool)
    | Decide(allReady: bool)
    | RunWorker
    | InWorker
    | StoreStatus(status: nat)
    | StoreRestored
    | CountReturn
    | Returned

  /** `entered` says whether this processor has called the worker entry. */
  datatype Ap = Ap(pc: PC, slot: nat, entered: bool)

  const NONE := 0xffff_ffff

  datatype Record = Record(ready: bool, avx2: bool, backend: nat, workerStatus: nat, restored: nat)

  const FRESH := Record(false, false, NONE, NONE, 0)

  /** `owners[k]` is the processor that took slot `k`. */
  datatype State = State(
    owners: seq<nat>,
    masks: seq<seq<bool>>,
    records: seq<Record>,
    rejection: nat,
    returned: nat,
    barrier: B.State,
    aps: seq<Ap>)

  function MaskWords(workers: nat): nat {
    (workers + 63) / 64
  }

  function Start(cfg: Config): State {
    State([],
          seq(MaskWords(cfg.workers), _ => seq(64, _ => false)),
          seq(cfg.workers, _ => FRESH),
          0, 0, B.Start(cfg.workers),
          seq(cfg.callbacks, _ => Ap(FetchSlot, 0, false)))
  }

  ghost predicate Shaped(cfg: Config, s: State) {
    && |s.aps| == cfg.callbacks
    && |s.records| == |s.barrier.threads| == cfg.workers > 0
    && |s.masks| == MaskWords(cfg.workers)
    && (forall w | 0 <= w < |s.masks| :: |s.masks[w]| == 64)
    && (forall i | 0 <= i < |s.aps| ::
          var ap := s.aps[i];
          !ap.pc.FetchSlot? && !ap.pc.RejectSlot? && !ap.pc.Returned? ==>
            ap.slot < cfg.workers && (ap.pc.Wait? <==> !s.barrier.threads[ap.slot].pc.Outside?))
  }

  function Goto(s: State, i: nat, pc: PC): State
    requires i < |s.aps|
  {
    s.(aps := s.aps[i := s.aps[i].(pc := pc)])
  }

  lemma MaskWordExists(workers: nat, slot: nat)
    requires slot < workers
    ensures slot / 64 < MaskWords(workers)
  {
  }

  function DoFetchSlot(cfg: Config, s: State, i: nat): State
    requires i < |s.aps|
  {
    var slot := |s.owners|;
    s.(owners := s.owners + [i],
       aps := s.aps[i := Ap(if slot >= cfg.workers then RejectSlot else FetchOr, slot, false)])
  }

  function DoFetchOr(s: State, i: nat): State
    requires i < |s.aps| && s.aps[i].slot / 64 < |s.masks| && |s.masks[s.aps[i].slot / 64]| == 64
  {
    var word, bit := s.aps[i].slot / 64, s.aps[i].slot % 64;
    Goto(s.(masks := s.masks[word := s.masks[word][bit := true]]), i,
         if s.masks[word][bit] then RejectDuplicate else StoreReady)
  }

  function DoStoreReady(cfg: Config, s: State, i: nat): State
    requires i < |s.aps| && s.aps[i].slot < |s.records| && s.aps[i].slot < |s.barrier.threads|
    requires s.barrier.threads[s.aps[i].slot].pc.Outside?
  {
    var slot := s.aps[i].slot;
    var record := s.records[slot].(ready := cfg.ready(i), avx2 := cfg.ready(i) && cfg.avx2(i));
    Goto(s.(records := s.records[slot := record], barrier := B.Enter(s.barrier, slot)), i, Wait)
  }

  function DoWait(s: State, i: nat): State
    requires i < |s.aps| && s.aps[i].slot < |s.barrier.threads|
    requires !s.barrier.threads[s.aps[i].slot].pc.Outside?
  {
    var slot := s.aps[i].slot;
    var barrier := B.Advance(s.barrier, slot);
    if barrier.threads[slot].pc.Outside? then Goto(s.(barrier := barrier), i, Peers(0, true, true))
    else s.(barrier := barrier)
  }

  function DoPeers(s: State, i: nat): State
    requires i < |s.aps| && s.aps[i].pc.Peers?
  {
    var pc := s.aps[i].pc;
    if pc.peer < |s.records| then
      var record := s.records[pc.peer];
      Goto(s, i, Peers(pc.peer + 1, pc.allReady && record.ready, pc.commonAvx2 && record.avx2))
    else Goto(s, i, if pc.allReady then StoreBackend(true, pc.commonAvx2) else RejectUnready(pc.commonAvx2))
  }

  function DoStoreBackend(s: State, i: nat): State
    requires i < |s.aps| && s.aps[i].slot < |s.records| && s.aps[i].pc.StoreBackend?
  {
    var pc, slot := s.aps[i].pc, s.aps[i].slot;
    var record := s.records[slot].(backend := if pc.commonAvx2 then 1 else 0);
    Goto(s.(records := s.records[slot := record]), i, Decide(pc.allReady))
  }

  function DoRunWorker(s: State, i: nat): State
    requires i < |s.aps|
  {
    s.(aps := s.aps[i := Ap(InWorker, s.aps[i].slot, true)])
  }

  function DoStoreStatus(s: State, i: nat): State
    requires i < |s.aps| && s.aps[i].slot < |s.records| && s.aps[i].pc.StoreStatus?
  {
    var slot := s.aps[i].slot;
    Goto(s.(records := s.records[slot := s.records[slot].(workerStatus := s.aps[i].pc.status)]), i, StoreRestored)
  }

  function DoStoreRestored(cfg: Config, s: State, i: nat): State
    requires i < |s.aps| && s.aps[i].slot < |s.records|
  {
    var slot := s.aps[i].slot;
    var restored := if cfg.restores(i) then 1 else 0;
    Goto(s.(records := s.records[slot := s.records[slot].(restored := restored)]), i, CountReturn)
  }

  ghost function Next(cfg: Config, s: State, i: nat): State
    requires Shaped(cfg, s) && i < cfg.callbacks && !s.aps[i].pc.Returned?
  {
    match s.aps[i].pc
    case FetchSlot => DoFetchSlot(cfg, s, i)
    case RejectSlot => Goto(s.(rejection := 40), i, Returned)
    case FetchOr => MaskWordExists(cfg.workers, s.aps[i].slot); DoFetchOr(s, i)
    case RejectDuplicate => Goto(s.(rejection := 41), i, StoreReady)
    case StoreReady => DoStoreReady(cfg, s, i)
    case Wait => DoWait(s, i)
    case Peers(_, _, _) => DoPeers(s, i)
    case RejectUnready(common) => Goto(s.(rejection := 42), i, StoreBackend(false, common))
    case StoreBackend(_, _) => DoStoreBackend(s, i)
    case Decide(allReady) => Goto(s, i, if allReady && s.rejection == 0 then RunWorker else StoreStatus(42))
    case RunWorker => DoRunWorker(s, i)
    case InWorker => Goto(s, i, StoreStatus(cfg.jobStatus(s.aps[i].slot)))
    case StoreStatus(_) => DoStoreStatus(s, i)
    case StoreRestored => DoStoreRestored(cfg, s, i)
    case CountReturn => Goto(s.(returned := s.returned + 1), i, Returned)
    case Returned => s
  }

  ghost predicate Step(cfg: Config, s: State, s': State) {
    && Shaped(cfg, s)
    && exists i: nat :: i < cfg.callbacks && !s.aps[i].pc.Returned? && s' == Next(cfg, s, i)
  }

  ghost predicate Run(cfg: Config, run: seq<State>) {
    && |run| > 0 && run[0] == Start(cfg)
    && forall i :: 0 <= i < |run| - 1 ==> Step(cfg, run[i], run[i + 1])
  }

  // ---- what the dispatching processor checks afterwards ----

  /** The numeric value of a mask word, bit 0 first. */
  function WordValue(bits: seq<bool>): nat {
    if bits == [] then 0
    else WordValue(bits[..|bits| - 1]) + if bits[|bits| - 1] then Pow2(|bits| - 1) else 0
  }

  function ExpectedWord(workers: nat, word: nat): nat {
    var remaining := if word * 64 <= workers then workers - word * 64 else 0;
    if remaining >= 64 then 0xffff_ffff_ffff_ffff else Pow2(remaining) - 1
  }

  /** `dispatch_token` finds nothing to reject. */
  ghost predicate Accepts(cfg: Config, s: State) {
    && s.rejection == 0
    && |s.owners| == cfg.workers
    && s.returned == cfg.workers
    && s.barrier.arrivals == 0
    && s.barrier.generation == 1
    && (forall w | 0 <= w < |s.masks| :: WordValue(s.masks[w]) == ExpectedWord(cfg.workers, w))
    && (forall k | 0 <= k < |s.records| :: s.records[k].restored == 1 && s.records[k].workerStatus == 0)
    && (forall j, k | 0 <= j < |s.records| && 0 <= k < |s.records| :: s.records[j].backend == s.records[k].backend)
    && cfg.coreStatus == 0
  }
}
