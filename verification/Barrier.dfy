/**
 The reusable generation barrier that closes every matrix job of a token
 dispatch and that also gates processor entry.  A `wait` call is five atomic
 accesses; each is one step here, and any thread may take the next step.

 A thread's `rounds` counts the waits it has returned from.  The number of
 participants is the number of threads.
 */
module Barrier {

  datatype PC =
    | Outside                    // not inside `wait`
    | LoadGeneration             // about to load `generation`
    | Arrive(seen: nat)          // about to fetch_add on `arrivals`
    | ClearArrivals(seen: nat)   // last arriver, about to store 0
    | Release(seen: nat)         // last arriver, about to bump `generation`
    | Spin(seen: nat)            // about to reload `generation`

  datatype Thread = Thread(pc: PC, rounds: nat)

  datatype State = State(arrivals: nat, generation: nat, threads: seq<Thread>)

  function Start(workers: nat): State {
    State(0, 0, seq(workers, _ => Thread(Outside, 0)))
  }

  /** Thread `t` calls `wait`. */
  function Enter(s: State, t: nat): State
    requires t < |s.threads| && s.threads[t].pc.Outside?
  {
    s.(threads := s.threads[t := s.threads[t].(pc := LoadGeneration)])
  }

  /** Thread `t`, inside `wait`, performs its next atomic access. */
  function Advance(s: State, t: nat): State
    requires t < |s.threads| && !s.threads[t].pc.Outside?
  {
    var me := s.threads[t];
    match me.pc
    case LoadGeneration =>
      s.(threads := s.threads[t := me.(pc := Arrive(s.generation))])
    case Arrive(seen) =>
      var next := if s.arrivals + 1 == |s.threads| then ClearArrivals(seen) else Spin(seen);
      s.(arrivals := s.arrivals + 1, threads := s.threads[t := me.(pc := next)])
    case ClearArrivals(seen) =>
      s.(arrivals := 0, threads := s.threads[t := me.(pc := Release(seen))])
    case Release(seen) =>
      s.(generation := s.generation + 1, threads := s.threads[t := Thread(Outside, me.rounds + 1)])
    case Spin(seen) =>
      if s.generation == seen then s
      else s.(threads := s.threads[t := Thread(Outside, me.rounds + 1)])
  }

  ghost predicate Step(s: State, s': State) {
    exists t: nat | t < |s.threads| ::
      s' == if s.threads[t].pc.Outside? then Enter(s, t) else Advance(s, t)
  }

  /** A finite run: any interleaving of any length, each thread reusing the barrier at will. */
  ghost predicate Run(workers: nat, run: seq<State>) {
    && |run| > 0
    && run[0] == Start(workers)
    && forall i :: 0 <= i < |run| - 1 ==> Step(run[i], run[i + 1])
  }

  // ---- what has happened so far ----

  /** Has this thread performed its fetch_add of the wait it is in? */
  predicate HasArrived(th: Thread) {
    th.pc.ClearArrivals? || th.pc.Release? || th.pc.Spin?
  }

  /** How many times this thread has arrived, over all its waits. */
  function Arrivals(th: Thread): nat {
    th.rounds + if HasArrived(th) then 1 else 0
  }

  function TotalArrivals(threads: seq<Thread>): nat {
    if threads == [] then 0 else TotalArrivals(threads[..|threads| - 1]) + Arrivals(threads[|threads| - 1])
  }

  predicate SpinsOn(th: Thread, g: nat) {
    th.pc == Spin(g)
  }

  /** Number of threads spinning on generation `g`. */
  function Spinners(threads: seq<Thread>, g: nat): nat {
    if threads == [] then 0
    else Spinners(threads[..|threads| - 1], g) + if SpinsOn(threads[|threads| - 1], g) then 1 else 0
  }

  predicate IsCloser(th: Thread) {
    th.pc.ClearArrivals? || th.pc.Release?
  }

  // ---- the inductive invariant ----

  predicate ThreadOk(th: Thread, generation: nat) {
    match th.pc
    case Outside => th.rounds == generation
    case LoadGeneration => th.rounds == generation
    case Arrive(seen) => th.rounds == generation && seen == generation
    case ClearArrivals(seen) => th.rounds == generation && seen == generation
    case Release(seen) => th.rounds == generation && seen == generation
    case Spin(seen) => th.rounds == seen && (seen == generation || seen + 1 == generation)
  }

  ghost predicate AllOthersSpin(s: State, t: nat)
    requires t < |s.threads|
  {
    forall u: nat | u < |s.threads| && u != t :: SpinsOn(s.threads[u], s.generation)
  }

  ghost predicate Inv(s: State) {
    && |s.threads| > 0
    && (forall t | 0 <= t < |s.threads| :: ThreadOk(s.threads[t], s.generation))
    && (forall t: nat | t < |s.threads| && IsCloser(s.threads[t]) ::
          && AllOthersSpin(s, t)
          && s.arrivals == if s.threads[t].pc.ClearArrivals? then |s.threads| else 0)
    && ((forall t | 0 <= t < |s.threads| :: !IsCloser(s.threads[t])) ==>
          s.arrivals == Spinners(s.threads, s.generation) < |s.threads|)
  }

  lemma {:induction false} SpinnersUpdate(threads: seq<Thread>, t: nat, th: Thread, g: nat)
    requires t < |threads|
    ensures Spinners(threads[t := th], g) + (if SpinsOn(threads[t], g) then 1 else 0)
         == Spinners(threads, g) + (if SpinsOn(th, g) then 1 else 0)
  {
    var last := |threads| - 1;
    if t == last {
      assert threads[t := th][..last] == threads[..last];
    } else {
      SpinnersUpdate(threads[..last], t, th, g);
      assert threads[t := th][..last] == threads[..last][t := th];
    }
  }

  lemma {:induction false} SpinnersBound(threads: seq<Thread>, g: nat)
    ensures Spinners(threads, g) <= |threads|
    ensures Spinners(threads, g) == |threads| ==> forall u | 0 <= u < |threads| :: SpinsOn(threads[u], g)
    ensures (forall u | 0 <= u < |threads| :: !SpinsOn(threads[u], g)) ==> Spinners(threads, g) == 0
  {
    if threads != [] {
      SpinnersBound(threads[..|threads| - 1], g);
    }
  }

  /** If all but thread `t` are needed to make up the count, all of them spin. */
  lemma OthersSpin(threads: seq<Thread>, t: nat, g: nat)
    requires t < |threads|
    requires !SpinsOn(threads[t], g) && Spinners(threads, g) + 1 == |threads|
    ensures forall u: nat | u < |threads| && u != t :: SpinsOn(threads[u], g)
  {
    var filled := threads[t := Thread(Spin(g), 0)];
    SpinnersUpdate(threads, t, Thread(Spin(g), 0), g);
    SpinnersBound(filled, g);
    forall u: nat | u < |threads| && u != t ensures SpinsOn(threads[u], g) {
      assert filled[u] == threads[u];
    }
  }

  lemma StartInv(workers: nat)
    requires workers > 0
    ensures Inv(Start(workers))
  {
    SpinnersBound(Start(workers).threads, 0);
  }

  lemma EnterInv(s: State, t: nat)
    requires Inv(s) && t < |s.threads| && s.threads[t].pc.Outside?
    ensures Inv(Enter(s, t))
  {
    SpinnersUpdate(s.threads, t, s.threads[t].(pc := LoadGeneration), s.generation);
  }

  lemma AdvanceInv(s: State, t: nat)
    requires Inv(s) && t < |s.threads| && !s.threads[t].pc.Outside?
    ensures Inv(Advance(s, t))
  {
    var s' := Advance(s, t);
    match s.threads[t].pc
    case LoadGeneration =>
      SpinnersUpdate(s.threads, t, s'.threads[t], s.generation);
    case Arrive(_) => ArriveInv(s, t);
    case ClearArrivals(_) => ClearInv(s, t);
    case Release(_) =>
      SpinnersBound(s'.threads, s'.generation);
    case Spin(seen) =>
      SpinnersUpdate(s.threads, t, s'.threads[t], s.generation);
  }

  lemma ArriveInv(s: State, t: nat)
    requires Inv(s) && t < |s.threads| && s.threads[t].pc.Arrive?
    ensures Inv(Advance(s, t))
  {
    SpinnersUpdate(s.threads, t, Advance(s, t).threads[t], s.generation);
    if s.arrivals + 1 == |s.threads| {
      OthersSpin(s.threads, t, s.generation);
    }
  }

  lemma ClearInv(s: State, t: nat)
    requires Inv(s) && t < |s.threads| && s.threads[t].pc.ClearArrivals?
    ensures Inv(Advance(s, t))
  {
    assert IsCloser(s.threads[t]) && IsCloser(Advance(s, t).threads[t]);
  }

  /** What one access of `t` can change. */
  lemma AdvanceShape(s: State, t: nat)
    requires t < |s.threads| && !s.threads[t].pc.Outside?
    ensures var s' := Advance(s, t);
      && |s'.threads| == |s.threads|
      && (forall u | 0 <= u < |s.threads| && u != t :: s'.threads[u] == s.threads[u])
      && s'.threads[t].rounds == s.threads[t].rounds + (if s'.threads[t].pc.Outside? then 1 else 0)
      && s'.generation == s.generation + (if s.threads[t].pc.Release? then 1 else 0)
      && (s'.threads[t].pc.Outside? <==>
            s.threads[t].pc.Release? || (s.threads[t].pc.Spin? && s.threads[t].pc.seen != s.generation))
  {
  }

  lemma StepInv(s: State, s': State)
    requires Inv(s) && Step(s, s')
    ensures Inv(s') && |s'.threads| == |s.threads|
  {
    var t: nat :| t < |s.threads| && s' == if s.threads[t].pc.Outside? then Enter(s, t) else Advance(s, t);
    if s.threads[t].pc.Outside? {
      EnterInv(s, t);
    } else {
      AdvanceInv(s, t);
    }
  }

  lemma {:induction false} RunInv(workers: nat, run: seq<State>, i: nat)
    requires workers > 0 && Run(workers, run) && i < |run|
    ensures Inv(run[i]) && |run[i].threads| == workers
  {
    if i == 0 {
      StartInv(workers);
    } else {
      RunInv(workers, run, i - 1);
      StepInv(run[i - 1], run[i]);
    }
  }

  // ---- main results ----

  /** Counting every arrival: a full generation is exactly one arrival per participant. */
  ghost predicate NothingLost(s: State) {
    TotalArrivals(s.threads) ==
      s.generation * |s.threads| + s.arrivals
      + if exists t | 0 <= t < |s.threads| :: s.threads[t].pc.Release? then |s.threads| else 0
  }

  lemma {:induction false} CountArrivals(threads: seq<Thread>, g: nat)
    requires forall t | 0 <= t < |threads| :: ThreadOk(threads[t], g) && !IsCloser(threads[t])
    ensures TotalArrivals(threads) == g * |threads| + Spinners(threads, g)
  {
    if threads != [] {
      CountArrivals(threads[..|threads| - 1], g);
      assert g * |threads| == g * (|threads| - 1) + g;
    }
  }

  lemma {:induction false} AllArrivedTotal(threads: seq<Thread>, g: nat)
    requires forall t | 0 <= t < |threads| :: Arrivals(threads[t]) == g + 1
    ensures TotalArrivals(threads) == g * |threads| + |threads|
  {
    if threads != [] {
      AllArrivedTotal(threads[..|threads| - 1], g);
      assert g * |threads| == g * (|threads| - 1) + g;
    }
  }

  lemma InvNothingLost(s: State)
    requires Inv(s)
    ensures NothingLost(s)
  {
    if t :| 0 <= t < |s.threads| && IsCloser(s.threads[t]) {
      AllArrivedTotal(s.threads, s.generation);
    } else {
      CountArrivals(s.threads, s.generation);
    }
  }

  /** The three safety claims about one reachable state. */
  ghost predicate Safe(s: State) {
    // whoever has left `g` waits, everyone else has arrived at least `g` times
    && (forall t, u | 0 <= t < |s.threads| && 0 <= u < |s.threads| ::
          s.threads[t].rounds <= Arrivals(s.threads[u]))
    // the counter never passes the participant count
    && s.arrivals <= |s.threads|
    // while the last arriver still has to clear or release, nobody can arrive
    && (forall t, u | 0 <= t < |s.threads| && 0 <= u < |s.threads| && t != u && IsCloser(s.threads[t]) ::
          s.threads[u].pc == Spin(s.generation))
    // no arrival is ever dropped by the store of zero, over any number of reuses
    && NothingLost(s)
  }

  lemma BarrierSafety(workers: nat, run: seq<State>)
    requires workers > 0 && Run(workers, run)
    ensures forall i | 0 <= i < |run| :: |run[i].threads| == workers && Safe(run[i])
  {
    forall i | 0 <= i < |run| ensures |run[i].threads| == workers && Safe(run[i]) {
      RunInv(workers, run, i);
      InvNothingLost(run[i]);
      forall t, u | 0 <= t < workers && 0 <= u < workers
        ensures run[i].threads[t].rounds <= Arrivals(run[i].threads[u])
      {
        assert ThreadOk(run[i].threads[t], run[i].generation);
        assert ThreadOk(run[i].threads[u], run[i].generation);
      }
    }
  }

  /** If every thread is inside `wait`, some thread can make a step that is not a spin. */
  lemma BarrierProgress(s: State)
    requires Inv(s)
    requires forall t | 0 <= t < |s.threads| :: !s.threads[t].pc.Outside?
    ensures exists t: nat | t < |s.threads| :: !SpinsOn(s.threads[t], s.generation)
  {
    if forall t: nat | t < |s.threads| :: SpinsOn(s.threads[t], s.generation) {
      AllSpinning(s.threads, s.generation);
    }
  }

  lemma {:induction false} AllSpinning(threads: seq<Thread>, g: nat)
    requires forall t: nat | t < |threads| :: SpinsOn(threads[t], g)
    ensures Spinners(threads, g) == |threads|
  {
    if threads != [] {
      AllSpinning(threads[..|threads| - 1], g);
    }
  }
}
