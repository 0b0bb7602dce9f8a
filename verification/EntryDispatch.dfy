/**
 Processor entry and token dispatch as one system.  A processor that enters the worker call goes on as a slot of the
 dispatch, with the backend that it has reported, and comes back when that slot has returned - if it ever does.
 */
module EntryDispatch {
  import A = ApEntry
  import AS = ApEntrySafety
  import D = Dispatch
  import DS = DispatchSafety

  datatype Config<!P, !V> = Config(
    workers: nat,
    callbacks: nat,
    ready: nat -> bool,
    avx2: nat -> bool,
    restores: nat -> bool,
    program: D.Program<P, V>)

  datatype State<!P, !V> = State(entry: A.State, job: D.State<P, V>)

  function Zero(slot: nat): nat {
    0
  }

  /** The entry on its own, where every worker call returns 0: that it does is part of `Inv`. */
  function EntryConfig<P, V>(c: Config<P, V>): A.Config {
    A.Config(c.workers, c.callbacks, c.ready, c.avx2, c.restores, Zero, 0)
  }

  function JobConfig<P, V>(c: Config<P, V>, backend: nat): D.Config<P, V> {
    D.Config(c.workers, backend, c.program)
  }

  /** An adapter is prepared for two workers or more, and the token evaluation asks for the planned number of jobs. */
  ghost predicate ValidConfig<P, V(!new)>(c: Config<P, V>) {
    c.workers >= 2 && D.Planned(c.program)
  }

  predicate Start<P, V>(c: Config<P, V>, s: State<P, V>) {
    s.entry == A.Start(EntryConfig(c)) && D.Start(JobConfig(c, 0), s.job)
  }

  ghost predicate Shaped<P, V>(c: Config<P, V>, s: State<P, V>) {
    A.Shaped(EntryConfig(c), s.entry) && D.Shaped(JobConfig(c, 0), s.job)
  }

  predicate Returned<P, V>(s: State<P, V>, i: nat)
    requires i < |s.entry.aps|
  {
    s.entry.aps[i].pc.Returned?
  }

  /** Processor `i` is inside the worker call, which has not come to its end. */
  predicate Working<P, V>(s: State<P, V>, i: nat) {
    && i < |s.entry.aps| && s.entry.aps[i].pc.InWorker?
    && s.entry.aps[i].slot < |s.job.threads|
    && !s.job.threads[s.entry.aps[i].slot].pc.Returned?
  }

  function WorkerReturns(s: A.State, i: nat, status: nat): A.State
    requires i < |s.aps|
  {
    A.Goto(s, i, A.StoreStatus(status))
  }

  ghost function Next<P, V>(c: Config<P, V>, s: State<P, V>, i: nat): State<P, V>
    requires Shaped(c, s) && i < c.callbacks && !Returned(s, i)
  {
    var ap := s.entry.aps[i];
    if Working(s, i) then s.(job := D.Next(JobConfig(c, s.entry.records[ap.slot].backend), s.job, ap.slot))
    else if ap.pc.InWorker? then s.(entry := WorkerReturns(s.entry, i, s.job.threads[ap.slot].pc.status))
    else s.(entry := A.Next(EntryConfig(c), s.entry, i))
  }

  /** Step `n` is taken by the processor that the schedule names. */
  ghost predicate StepAt<P(!new), V(!new)>(c: Config<P, V>, run: seq<State<P, V>>, schedule: seq<nat>, n: nat)
    requires n < |schedule| < |run|
  {
    && Shaped(c, run[n]) && schedule[n] < c.callbacks && !Returned(run[n], schedule[n])
    && run[n + 1] == Next(c, run[n], schedule[n])
  }

  /** A run together with the processor that takes each step. */
  ghost predicate Follows<P(!new), V(!new)>(c: Config<P, V>, run: seq<State<P, V>>, schedule: seq<nat>) {
    && |run| == |schedule| + 1
    && forall n: nat | n < |schedule| :: StepAt(c, run, schedule, n)
  }

  /** What `dispatch_token` checks once the firmware call has come back. */
  ghost predicate Accepts<P, V>(c: Config<P, V>, s: State<P, V>) {
    A.Accepts(EntryConfig(c).(coreStatus := D.ProtocolStatus(JobConfig(c, 0), s.job)), s.entry)
  }

  // ---- the inductive invariant ----

  predicate Entered<P, V>(s: State<P, V>, k: nat) {
    && k < |s.entry.owners| && s.entry.owners[k] < |s.entry.aps|
    && s.entry.aps[s.entry.owners[k]].entered
  }

  /** A slot of the dispatch is as far as the processor that holds it has taken it. */
  predicate SlotCoupled<P, V>(s: State<P, V>, k: nat)
    requires k < |s.job.threads|
  {
    if Entered(s, k) then s.entry.aps[s.entry.owners[k]].pc.InWorker? || s.job.threads[k].pc.Returned?
    else s.job.threads[k] == D.Thread(D.ClaimWorkers, 0, 0)
  }

  predicate NobodyEntered<P, V>(c: Config<P, V>, s: State<P, V>) {
    forall k: nat | k < c.workers :: !Entered(s, k)
  }

  /** The dispatch with the backend that all processors in it have in common. */
  function SharedJob<P, V>(c: Config<P, V>, s: State<P, V>): D.Config<P, V> {
    JobConfig(c, AS.CommonBackend(EntryConfig(c), s.entry))
  }

  ghost predicate Inv<P(!new), V(!new)>(c: Config<P, V>, s: State<P, V>) {
    && ValidConfig(c)
    && AS.Inv(EntryConfig(c), s.entry)
    && DS.Inv(SharedJob(c, s), s.job)
    && (NobodyEntered(c, s) ==> D.Start(SharedJob(c, s), s.job))
    && forall k: nat | k < c.workers :: SlotCoupled(s, k)
  }

  lemma StartInv<P(!new), V(!new)>(c: Config<P, V>, s: State<P, V>)
    requires ValidConfig(c) && Start(c, s)
    ensures Inv(c, s)
  {
    AS.StartInv(EntryConfig(c));
    DS.StartInv(SharedJob(c, s), s.job);
  }

  lemma InvShaped<P(!new), V(!new)>(c: Config<P, V>, s: State<P, V>)
    requires Inv(c, s)
    ensures Shaped(c, s) && |s.entry.aps| == c.callbacks && |s.job.threads| == |s.job.barrier.threads| == c.workers
  {
    hide AS.HolderOk, AS.SlotOk;
  }

  /** Whoever has entered is past the entry barrier, so all slots are taken. */
  lemma EnteredTaken<P(!new), V(!new)>(c: Config<P, V>, s: State<P, V>, k: nat)
    requires Inv(c, s) && k < c.workers && Entered(s, k)
    ensures |s.entry.owners| >= c.workers && AS.AllReady(EntryConfig(c), s.entry)
    ensures AS.Stage(s.entry.aps[s.entry.owners[k]].pc) >= 10
  {
    hide AS.SlotOk;
    assert AS.HolderOk(EntryConfig(c), s.entry, s.entry.owners[k]);
    AS.PastBarrier(EntryConfig(c), s.entry, s.entry.owners[k]);
  }

  // ---- steps of the entry ----

  /** A worker call that comes back reports 0, so a step outside the dispatch is a step of the entry on its own. */
  lemma EntryStep<P(!new), V(!new)>(c: Config<P, V>, s: State<P, V>, i: nat)
    requires Inv(c, s) && Shaped(c, s) && i < c.callbacks && !Returned(s, i) && !Working(s, i)
    ensures Next(c, s, i) == s.(entry := A.Next(EntryConfig(c), s.entry, i))
  {
    hide AS.Inv, D.Start;
    if s.entry.aps[i].pc.InWorker? {
      assert DS.ThreadOk(SharedJob(c, s), s.job, s.entry.aps[i].slot);
    }
  }

  /** What a step of the entry does to who has entered. */
  lemma EntryStepEntered<P(!new), V(!new)>(c: Config<P, V>, s: State<P, V>, i: nat, k: nat)
    requires Inv(c, s) && Shaped(c, s) && i < c.callbacks && !Returned(s, i) && k < c.workers
    ensures var s' := s.(entry := A.Next(EntryConfig(c), s.entry, i));
      && (Entered(s, k) ==> Entered(s', k))
      && (Entered(s', k) ==> Entered(s, k) || s'.entry.aps[s'.entry.owners[k]].pc.InWorker?)
      && (Entered(s, k) ==> s'.entry.owners[k] == s.entry.owners[k])
      && (Entered(s, k) && s.entry.owners[k] != i ==>
            s'.entry.aps[s.entry.owners[k]] == s.entry.aps[s.entry.owners[k]])
  {
    hide AS.SlotOk, AS.RecordOk, AS.ReadyBelow, AS.Avx2Below, AS.RejectionOk, DS.Inv, D.Start, SlotCoupled;
    assert AS.HolderOk(EntryConfig(c), s.entry, i);
  }

  lemma EntryStepCoupled<P(!new), V(!new)>(c: Config<P, V>, s: State<P, V>, i: nat, k: nat)
    requires Inv(c, s) && Shaped(c, s) && i < c.callbacks && !Returned(s, i) && !Working(s, i) && k < c.workers
    ensures SlotCoupled(s.(entry := A.Next(EntryConfig(c), s.entry, i)), k)
  {
    hide AS.SlotOk, AS.HolderOk, A.Next, DS.Inv, D.Start;
    EntryStepEntered(c, s, i, k);
    assert SlotCoupled(s, k);
  }

  /** Only taking a slot changes the owners, and that only by one more. */
  lemma OwnersGrow(cfg: A.Config, s: A.State, i: nat)
    requires A.Shaped(cfg, s) && i < cfg.callbacks && !s.aps[i].pc.Returned?
    ensures A.Next(cfg, s, i).owners == if s.aps[i].pc.FetchSlot? then s.owners + [i] else s.owners
  {
  }

  /** While the common backend can still change nobody has entered, and the dispatch has not begun. */
  lemma EntryStepJob<P(!new), V(!new)>(c: Config<P, V>, s: State<P, V>, i: nat)
    requires Inv(c, s) && Shaped(c, s) && i < c.callbacks && !Returned(s, i)
    ensures var s' := s.(entry := A.Next(EntryConfig(c), s.entry, i));
      && DS.Inv(SharedJob(c, s'), s'.job)
      && (NobodyEntered(c, s') ==> D.Start(SharedJob(c, s'), s'.job))
  {
    hide A.Next, DS.Inv, AS.Inv, D.Start, Entered;
    var s' := s.(entry := A.Next(EntryConfig(c), s.entry, i));
    OwnersGrow(EntryConfig(c), s.entry, i);
    AS.GrowReady(EntryConfig(c), s.entry.owners, i, if |s.entry.owners| >= c.workers then c.workers else 0);
    if k: nat :| k < c.workers && Entered(s, k) {
      EnteredTaken(c, s, k);
      EntryStepEntered(c, s, i, k);
      assert SharedJob(c, s') == SharedJob(c, s);
    } else {
      StartsAnyBackend(SharedJob(c, s), SharedJob(c, s'), s.job);
    }
  }

  lemma StartsAnyBackend<P(!new), V(!new)>(a: D.Config<P, V>, b: D.Config<P, V>, s: D.State<P, V>)
    requires D.Start(a, s) && a.workers == b.workers && D.ValidConfig(b)
    ensures D.Start(b, s) && DS.Inv(b, s)
  {
    DS.StartInv(b, s);
  }

  lemma EntryStepInv<P(!new), V(!new)>(c: Config<P, V>, s: State<P, V>, i: nat)
    requires Inv(c, s) && Shaped(c, s) && i < c.callbacks && !Returned(s, i) && !Working(s, i)
    ensures Inv(c, Next(c, s, i))
  {
    hide A.Next, DS.Inv, AS.Inv, D.Start, SlotCoupled;
    EntryStep(c, s, i);
    AS.StepInv(EntryConfig(c), s.entry, i);
    EntryStepJob(c, s, i);
    forall k: nat | k < c.workers ensures SlotCoupled(Next(c, s, i), k) {
      EntryStepCoupled(c, s, i, k);
    }
  }

  // ---- steps of the dispatch ----

  /** A step of slot `t` moves no other slot. */
  lemma OtherSlotsStay<P(!new), V(!new)>(cfg: D.Config<P, V>, s: D.State<P, V>, t: nat, u: nat)
    requires D.Shaped(cfg, s) && D.Enabled(s, t) && u < cfg.workers && u != t
    ensures D.Next(cfg, s, t).threads[u] == s.threads[u]
  {
  }

  /** A processor in the worker call holds its slot and has reported the common backend. */
  lemma WorkingSlot<P(!new), V(!new)>(c: Config<P, V>, s: State<P, V>, i: nat)
    requires Inv(c, s) && Working(s, i)
    ensures Shaped(c, s) && i < c.callbacks
    ensures var k := s.entry.aps[i].slot;
      && k < c.workers && k < |s.entry.owners| && s.entry.owners[k] == i && Entered(s, k)
      && s.entry.records[k].backend == AS.CommonBackend(EntryConfig(c), s.entry)
      && D.Enabled(s.job, k)
  {
    hide DS.Inv, D.Start;
    assert AS.HolderOk(EntryConfig(c), s.entry, i);
    assert AS.SlotOk(EntryConfig(c), s.entry, s.entry.aps[i].slot);
    InvShaped(c, s);
  }

  lemma WorkStepInv<P(!new), V(!new)>(c: Config<P, V>, s: State<P, V>, i: nat)
    requires Inv(c, s) && Shaped(c, s) && Working(s, i)
    ensures i < c.callbacks && Inv(c, Next(c, s, i))
    ensures Next(c, s, i) == s.(job := D.Next(SharedJob(c, s), s.job, s.entry.aps[i].slot))
  {
    hide D.Next, DS.Inv, AS.Inv, D.Start;
    WorkingSlot(c, s, i);
    var t := s.entry.aps[i].slot;
    var s' := s.(job := D.Next(SharedJob(c, s), s.job, t));
    assert Next(c, s, i) == s';
    DS.StepInv(SharedJob(c, s), s.job, t);
    forall k: nat | k < c.workers ensures SlotCoupled(s', k) {
      assert SlotCoupled(s, k);
      assert Entered(s', k) == Entered(s, k);
      if k != t {
        OtherSlotsStay(SharedJob(c, s), s.job, t, k);
      }
    }
    assert Entered(s', t);
  }

  lemma StepInv<P(!new), V(!new)>(c: Config<P, V>, s: State<P, V>, i: nat)
    requires Inv(c, s) && Shaped(c, s) && i < c.callbacks && !Returned(s, i)
    ensures Inv(c, Next(c, s, i))
  {
    hide Inv, Next;
    if Working(s, i) {
      WorkStepInv(c, s, i);
    } else {
      EntryStepInv(c, s, i);
    }
  }

  lemma {:induction false} RunInv<P(!new), V(!new)>(
      c: Config<P, V>, run: seq<State<P, V>>, schedule: seq<nat>, n: nat)
    requires ValidConfig(c) && Follows(c, run, schedule) && Start(c, run[0]) && n <= |schedule|
    ensures Inv(c, run[n])
  {
    hide Inv, Next;
    if n == 0 {
      StartInv(c, run[0]);
    } else {
      RunInv(c, run, schedule, n - 1);
      assert StepAt(c, run, schedule, n - 1);
      StepInv(c, run[n - 1], schedule[n - 1]);
    }
  }

  // ---- the verdict ----

  predicate AllReturned<P, V>(s: State<P, V>) {
    AS.AllReturned(s.entry)
  }

  /** As many processors came as were expected, and all of them were ready and restored their state. */
  predicate AllWell<P, V>(c: Config<P, V>) {
    c.callbacks == c.workers && forall i | 0 <= i < c.callbacks :: c.ready(i) && c.restores(i)
  }

  lemma WellEntered(cfg: A.Config, s: A.State, k: nat)
    requires AS.Inv(cfg, s) && AS.AllReturned(s) && cfg.callbacks == cfg.workers && AS.ProcessorsReady(cfg)
    requires k < cfg.workers
    ensures k < |s.owners| && s.owners[k] < |s.aps|
    ensures s.aps[s.owners[k]].pc.Returned? && s.aps[s.owners[k]].entered
  {
    hide AS.SlotOk;
    AS.CountBounds(s.aps, cfg.workers);
    AS.InvSlotsPermuted(cfg, s);
    assert AS.HolderOk(cfg, s, s.owners[k]);
  }

  /** When all is well, every slot of the dispatch has returned with the processor that held it. */
  lemma WellJobDone<P(!new), V(!new)>(c: Config<P, V>, s: State<P, V>, k: nat)
    requires Inv(c, s) && AllReturned(s) && AllWell(c) && k < c.workers
    ensures k < |s.job.threads| && s.job.threads[k].pc.Returned?
  {
    hide DS.Inv, D.Start, AS.Inv;
    InvShaped(c, s);
    WellEntered(EntryConfig(c), s.entry, k);
    assert SlotCoupled(s, k);
  }

  lemma WellStatus<P(!new), V(!new)>(c: Config<P, V>, s: State<P, V>)
    requires Inv(c, s) && AllReturned(s) && AllWell(c)
    ensures D.ProtocolStatus(JobConfig(c, 0), s.job) == 0
    ensures (s.job.terminal, s.job.results) == D.SerialRun(c.program, [])
  {
    hide AS.Inv, D.Start;
    WellJobDone(c, s, 0);
    DS.InvSafe(SharedJob(c, s), s.job);
  }

  /**
   An entry that has ended is accepted exactly when all was well with the processors; the token dispatch behind it
   never is the reason for a refusal, and has then computed what one processor alone would.
   */
  lemma TokenAccepted<P(!new), V(!new)>(c: Config<P, V>, s: State<P, V>)
    requires Inv(c, s) && AllReturned(s)
    ensures Accepts(c, s) <==> AllWell(c)
    ensures Accepts(c, s) ==> (s.job.terminal, s.job.results) == D.SerialRun(c.program, [])
  {
    hide AS.Inv, DS.Inv, D.Start, D.ProtocolStatus;
    AS.InvVerdict(EntryConfig(c), s.entry);
    assert AS.GoodDispatch(EntryConfig(c)) <==> AllWell(c);
    assert Accepts(c, s) <==> A.Accepts(EntryConfig(c), s.entry) && D.ProtocolStatus(JobConfig(c, 0), s.job) == 0;
    if AllWell(c) {
      WellStatus(c, s);
    }
  }
}
