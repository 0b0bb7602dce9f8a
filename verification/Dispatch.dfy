/**
 One token dispatch: slot 0 coordinates, the other slots are workers, and all
 of them share one job block.  Every atomic access, and every access to plain
 shared memory, is a separate step; any thread may take the next one.
 */
module Dispatch {
  import B = Barrier
  import opened Rows

  const MAX_ROWS := 151_936
  const UNCLAIMED := 0xffff_ffff

  /** What a published job says: its place in the token evaluation and its row count. */
  datatype Descriptor = Descriptor(job: nat, rows: nat)

  /** What the coordinator does next: fail, finish, or publish a job of so many rows. */
  datatype Demand<!P> = Abort | Complete | Publish(prepared: P, rows: nat)

  /**
   The serial part of a token evaluation, as seen from its matrix jobs: `demand` is what the
   evaluation asks for once it has the given results; `row` is one row of a matrix product.
   */
  datatype Program<!P, !V> = Program(
    produceLogits: bool,
    demand: seq<seq<V>> -> Demand<P>,
    row: (P, Descriptor, nat) -> V)

  datatype Config<!P, !V> = Config(workers: nat, backend: nat, program: Program<P, V>)

  /** The number that the protocol check compares the epoch with. */
  function ExpectedJobs(produceLogits: bool): nat {
    if produceLogits then 169 else 168
  }

  predicate PlannedAt<P, V>(program: Program<P, V>, results: seq<seq<V>>) {
    match program.demand(results)
    case Abort => true
    case Complete => |results| >= ExpectedJobs(program.produceLogits)
    case Publish(_, rows) => |results| < ExpectedJobs(program.produceLogits) && rows <= MAX_ROWS
  }

  /** The evaluation asks for as many jobs as the protocol check expects, and for fewer before it fails. */
  ghost predicate Planned<P, V(!new)>(program: Program<P, V>) {
    forall results: seq<seq<V>> :: PlannedAt(program, results)
  }

  function JobRows<P, V>(program: Program<P, V>, results: seq<seq<V>>): nat {
    match program.demand(results)
    case Publish(_, rows) => rows
    case _ => 0
  }

  function JobDescriptor<P, V>(program: Program<P, V>, results: seq<seq<V>>): Descriptor {
    Descriptor(|results|, JobRows(program, results))
  }

  // ---- the serial evaluation ----

  function RunRows<P, V>(program: Program<P, V>, p: P, d: Descriptor): seq<V> {
    seq(d.rows, r requires 0 <= r < d.rows => program.row(p, d, r))
  }

  /** Terminal code (1 done, 2 failed) and all job results when one processor runs every job. */
  function SerialRun<P, V(!new)>(program: Program<P, V>, results: seq<seq<V>>): (nat, seq<seq<V>>)
    requires Planned(program)
    decreases ExpectedJobs(program.produceLogits) - |results|
  {
    assert PlannedAt(program, results);
    match program.demand(results)
    case Abort => (2, results)
    case Complete => (1, results)
    case Publish(p, _) => SerialRun(program, results + [RunRows(program, p, JobDescriptor(program, results))])
  }

  // ---- the shared state ----

  datatype PC =
    // both kinds of slot
    | ClaimWorkers
    | ClaimBackend
    | RunShare(d: Descriptor, first: nat, next: nat, end: nat)
    | Wait
    // the coordinator
    | Plan
    | WriteDescriptor
    | ZeroHits
    | PublishEpoch
    | CheckHits
    | RejectHits
    | Collect
    | StoreTerminal(code: nat)
    // workers
    | LoadEpoch
    | ReadDescriptor
    | LoadTerminal
    // leaving
    | StatusRejection
    | StatusTerminal
    | StatusEpoch(terminal: nat)
    | StatusArrivals(epoch: nat)
    | StatusGeneration(epoch: nat)
    | StoreReject(code: nat)
    | Returned(status: nat)

  /** `epoch` is the epoch a worker is serving, `observed` the last one it finished. */
  datatype Thread = Thread(pc: PC, epoch: nat, observed: nat)

  /**
   The published job: plain memory except for `rowHits`.  `output` is arbitrary before its
   rows are written, and `written` counts the writes of each row since publication.
   */
  datatype Job<!P, !V> = Job(
    descriptor: Descriptor,
    prepared: P,
    output: nat -> V,
    written: seq<nat>,
    rowHits: nat)

  /** `results` is what the coordinator has read back from the finished jobs. */
  datatype State<!P, !V> = State(
    workersCell: nat,
    backendCell: nat,
    jobEpoch: nat,
    terminal: nat,
    rejection: nat,
    job: Job<P, V>,
    results: seq<seq<V>>,
    barrier: B.State,
    threads: seq<Thread>)

  predicate Start<P, V>(cfg: Config<P, V>, s: State<P, V>) {
    && s.workersCell == 0 && s.backendCell == UNCLAIMED
    && s.job.rowHits == 0 && s.jobEpoch == 0 && s.terminal == 0 && s.rejection == 0
    && s.results == []
    && s.barrier == B.Start(cfg.workers)
    && s.threads == seq(cfg.workers, _ => Thread(ClaimWorkers, 0, 0))
  }

  /** The thread list and the barrier describe the same call stacks. */
  ghost predicate Shaped<P, V>(cfg: Config<P, V>, s: State<P, V>) {
    && |s.threads| == |s.barrier.threads| == cfg.workers
    && forall t | 0 <= t < cfg.workers :: s.threads[t].pc.Wait? <==> !s.barrier.threads[t].pc.Outside?
  }

  predicate Enabled<P, V>(s: State<P, V>, t: nat) {
    t < |s.threads| && !s.threads[t].pc.Returned?
  }

  function Poke<V>(memory: nat -> V, at: nat, value: V): nat -> V {
    (x: nat) => if x == at then value else memory(x)
  }

  function Goto<P, V>(s: State<P, V>, t: nat, pc: PC): State<P, V>
    requires t < |s.threads|
  {
    s.(threads := s.threads[t := s.threads[t].(pc := pc)])
  }

  // ---- joining the dispatch: two compare-exchanges ----

  function DoClaimWorkers<P, V>(cfg: Config<P, V>, s: State<P, V>, t: nat): State<P, V>
    requires t < |s.threads|
  {
    if cfg.workers < 2 || t >= cfg.workers || cfg.backend > 1 then Goto(s, t, StoreReject(1))
    else if s.workersCell == 0 then Goto(s.(workersCell := cfg.workers), t, ClaimBackend)
    else Goto(s, t, if s.workersCell == cfg.workers then ClaimBackend else StoreReject(2))
  }

  function DoClaimBackend<P, V>(cfg: Config<P, V>, s: State<P, V>, t: nat): State<P, V>
    requires t < |s.threads|
  {
    var joined := if t == 0 then Plan else LoadEpoch;
    if s.backendCell == UNCLAIMED then Goto(s.(backendCell := cfg.backend), t, joined)
    else Goto(s, t, if s.backendCell == cfg.backend then joined else StoreReject(3))
  }

  // ---- the coordinator between jobs, and `publish` ----

  function DoPlan<P, V>(cfg: Config<P, V>, s: State<P, V>, t: nat): State<P, V>
    requires t < |s.threads|
  {
    match cfg.program.demand(s.results)
    case Abort => Goto(s, t, StoreTerminal(2))
    case Complete => Goto(s, t, StoreTerminal(1))
    case Publish(p, _) => Goto(s.(job := s.job.(prepared := p)), t, WriteDescriptor)
  }

  function DoWriteDescriptor<P, V>(cfg: Config<P, V>, s: State<P, V>, t: nat): State<P, V>
    requires t < |s.threads|
  {
    Goto(s.(job := s.job.(descriptor := JobDescriptor(cfg.program, s.results))), t, ZeroHits)
  }

  function DoZeroHits<P, V>(s: State<P, V>, t: nat): State<P, V>
    requires t < |s.threads|
  {
    Goto(s.(job := s.job.(rowHits := 0)), t, PublishEpoch)
  }

  function DoPublishEpoch<P, V>(cfg: Config<P, V>, s: State<P, V>, t: nat): State<P, V>
    requires t < |s.threads|
  {
    var d := JobDescriptor(cfg.program, s.results);
    Goto(s.(jobEpoch := s.jobEpoch + 1, job := s.job.(written := seq(d.rows, _ => 0))), t,
         RunShare(d, 0, 0, if s.workersCell == 0 then 0 else d.rows / s.workersCell))
  }

  function DoCheckHits<P, V>(cfg: Config<P, V>, s: State<P, V>, t: nat): State<P, V>
    requires t < |s.threads|
  {
    Goto(s, t, if s.job.rowHits != JobRows(cfg.program, s.results) then RejectHits else Collect)
  }

  function DoCollect<P, V>(cfg: Config<P, V>, s: State<P, V>, t: nat): State<P, V>
    requires t < |s.threads|
  {
    var rows := JobRows(cfg.program, s.results);
    var result := seq(rows, r requires 0 <= r < rows => s.job.output(r));
    Goto(s.(results := s.results + [result]), t, Plan)
  }

  // ---- a worker ----

  function DoLoadEpoch<P, V>(s: State<P, V>, t: nat): State<P, V>
    requires t < |s.threads|
  {
    var me := s.threads[t];
    if s.jobEpoch != me.observed
    then s.(threads := s.threads[t := me.(pc := ReadDescriptor, epoch := s.jobEpoch)])
    else Goto(s, t, LoadTerminal)
  }

  function DoReadDescriptor<P, V>(cfg: Config<P, V>, s: State<P, V>, t: nat): State<P, V>
    requires t < |s.threads| && cfg.workers > 0
  {
    var d := s.job.descriptor;
    var first := FirstRow(d.rows, cfg.workers, t);
    Goto(s, t, RunShare(d, first, first, FirstRow(d.rows, cfg.workers, t + 1)))
  }

  function DoLoadTerminal<P, V>(s: State<P, V>, t: nat): State<P, V>
    requires t < |s.threads|
  {
    Goto(s, t, if s.terminal != 0 then StatusRejection else LoadEpoch)
  }

  // ---- every slot: its rows, its hits, the barrier ----

  function DoRow<P, V>(cfg: Config<P, V>, s: State<P, V>, t: nat): State<P, V>
    requires t < |s.threads| && s.threads[t].pc.RunShare?
  {
    var pc := s.threads[t].pc;
    var job := s.job;
    var value := cfg.program.row(job.prepared, pc.d, pc.next);
    var written := if pc.next < |job.written|
                   then job.written[pc.next := job.written[pc.next] + 1] else job.written;
    Goto(s.(job := job.(output := Poke(job.output, pc.next, value), written := written)), t,
         pc.(next := pc.next + 1))
  }

  function DoAddHits<P, V>(s: State<P, V>, t: nat): State<P, V>
    requires t < |s.threads| && t < |s.barrier.threads|
    requires s.threads[t].pc.RunShare? && s.barrier.threads[t].pc.Outside?
  {
    var pc := s.threads[t].pc;
    var share := if pc.first <= pc.end then pc.end - pc.first else 0;
    Goto(s.(job := s.job.(rowHits := s.job.rowHits + share), barrier := B.Enter(s.barrier, t)), t, Wait)
  }

  function DoWait<P, V>(s: State<P, V>, t: nat): State<P, V>
    requires t < |s.threads| && t < |s.barrier.threads| && !s.barrier.threads[t].pc.Outside?
  {
    var barrier := B.Advance(s.barrier, t);
    var me := s.threads[t];
    if !barrier.threads[t].pc.Outside? then s.(barrier := barrier)
    else if t == 0 then Goto(s.(barrier := barrier), t, CheckHits)
    else s.(barrier := barrier, threads := s.threads[t := Thread(LoadEpoch, me.epoch, me.epoch)])
  }

  // ---- `protocol_status`, one load at a time ----

  function DoStatus<P, V>(cfg: Config<P, V>, s: State<P, V>, t: nat): State<P, V>
    requires t < |s.threads|
  {
    var expected := ExpectedJobs(cfg.program.produceLogits);
    var next :=
      match s.threads[t].pc
      case StatusRejection => if s.rejection != 0 then Returned(s.rejection) else StatusTerminal
      case StatusTerminal => if s.terminal == 0 then Returned(10) else StatusEpoch(s.terminal)
      case StatusEpoch(terminal) =>
        if (terminal == 1 && s.jobEpoch != expected) || (terminal == 2 && s.jobEpoch > expected)
        then Returned(11) else StatusArrivals(s.jobEpoch)
      case StatusArrivals(epoch) => if s.barrier.arrivals != 0 then Returned(12) else StatusGeneration(epoch)
      case StatusGeneration(epoch) => if s.barrier.generation != epoch then Returned(12) else Returned(0)
      case other => other;
    Goto(s, t, next)
  }

  /** `protocol_status` read in one go, as the dispatching processor does when all slots have returned. */
  function ProtocolStatus<P, V>(cfg: Config<P, V>, s: State<P, V>): nat {
    var expected := ExpectedJobs(cfg.program.produceLogits);
    if s.rejection != 0 then s.rejection
    else if s.terminal == 0 then 10
    else if (s.terminal == 1 && s.jobEpoch != expected) || (s.terminal == 2 && s.jobEpoch > expected) then 11
    else if s.barrier.arrivals != 0 || s.barrier.generation != s.jobEpoch then 12
    else 0
  }

  predicate ReadsStatus(pc: PC) {
    pc.StatusRejection? || pc.StatusTerminal? || pc.StatusEpoch? || pc.StatusArrivals? || pc.StatusGeneration?
  }

  /** The next step of thread `t`. */
  ghost function Next<P, V>(cfg: Config<P, V>, s: State<P, V>, t: nat): (s': State<P, V>)
    requires Shaped(cfg, s) && Enabled(s, t)
    ensures |s'.threads| == |s'.barrier.threads| == cfg.workers
  {
    match s.threads[t].pc
    case ClaimWorkers => DoClaimWorkers(cfg, s, t)
    case ClaimBackend => DoClaimBackend(cfg, s, t)
    case Plan => DoPlan(cfg, s, t)
    case WriteDescriptor => DoWriteDescriptor(cfg, s, t)
    case ZeroHits => DoZeroHits(s, t)
    case PublishEpoch => DoPublishEpoch(cfg, s, t)
    case LoadEpoch => DoLoadEpoch(s, t)
    case ReadDescriptor => DoReadDescriptor(cfg, s, t)
    case RunShare(_, _, next, end) => if next < end then DoRow(cfg, s, t) else DoAddHits(s, t)
    case Wait => DoWait(s, t)
    case CheckHits => DoCheckHits(cfg, s, t)
    case RejectHits => Goto(s.(rejection := 4), t, Collect)
    case Collect => DoCollect(cfg, s, t)
    case StoreTerminal(code) => Goto(s.(terminal := code), t, StatusRejection)
    case LoadTerminal => DoLoadTerminal(s, t)
    case StoreReject(code) => Goto(s.(rejection := code), t, Returned(code))
    case other => DoStatus(cfg, s, t)
  }

  ghost predicate Step<P(!new), V(!new)>(cfg: Config<P, V>, s: State<P, V>, s': State<P, V>) {
    && Shaped(cfg, s)
    && exists t: nat :: Enabled(s, t) && s' == Next(cfg, s, t)
  }

  /** Any interleaving, of any length, from any contents of the plain memory. */
  ghost predicate Run<P(!new), V(!new)>(cfg: Config<P, V>, run: seq<State<P, V>>) {
    && |run| > 0
    && Start(cfg, run[0])
    && forall i :: 0 <= i < |run| - 1 ==> Step(cfg, run[i], run[i + 1])
  }

  /** What the callers of a dispatch guarantee: at least two slots, a known backend, and the planned number of jobs. */
  ghost predicate ValidConfig<P, V(!new)>(cfg: Config<P, V>) {
    cfg.workers >= 2 && cfg.backend <= 1 && Planned(cfg.program)
  }
}
