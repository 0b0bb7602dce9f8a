/**
 For which processors an entry always ends.  With exactly as many callbacks as workers it does.  With fewer, nobody gets
 past the entry barrier.  With more, a surplus callback can keep one processor out after another has entered, unless too
 few processors are ready for anybody to enter.
 */
module EntryEnds {
  import A = ApEntry
  import AS = ApEntrySafety
  import Counting
  import D = Dispatch
  import DS = DispatchSafety
  import opened EntryDispatch
  import opened EntryStranded
  import opened EntryProgress
  import opened EntryMixed

  /** Exactly the expected number of callbacks come, or more of them but too few that are ready to fill all slots. */
  predicate Enough<P, V>(c: Config<P, V>) {
    c.callbacks == c.workers || (c.callbacks > c.workers && |ReadySet(c.callbacks, c.ready)| < c.workers)
  }

  // ---- enough is enough ----

  /** When the processors on all slots are ready, there are that many ready ones. */
  lemma ReadyHolders(cfg: A.Config, s: A.State)
    requires AS.Inv(cfg, s) && AS.AllReady(cfg, s)
    ensures |ReadySet(cfg.callbacks, cfg.ready)| >= cfg.workers
  {
    hide AS.SlotOk, AS.HolderOk;
    Counting.DistinctCount(s.owners[..cfg.workers], ReadySet(cfg.callbacks, cfg.ready));
  }

  /** With exactly the expected number of callbacks, all enter or none does. */
  lemma NobodyKeptOut<P(!new), V(!new)>(c: Config<P, V>, s: State<P, V>, k: nat, j: nat)
    requires Inv(c, s) && c.callbacks == c.workers && k < c.workers && Entered(s, k) && j < |s.entry.owners|
    ensures !KeptOut(s, j)
  {
    hide AS.SlotOk, DS.Inv, D.Start;
    EnteredTaken(c, s, k);
    assert AS.HolderOk(EntryConfig(c), s.entry, s.entry.owners[j]);
  }

  lemma EnoughNeverStranded<P(!new), V(!new)>(c: Config<P, V>, s: State<P, V>)
    requires Inv(c, s) && Enough(c)
    ensures !IsStranded(c, s)
  {
    hide AS.Inv, DS.Inv, D.Start;
    if k: nat, j: nat :| Stranded(c, s, k, j) {
      if c.callbacks == c.workers {
        NobodyKeptOut(c, s, k, j);
      } else {
        EnteredTaken(c, s, k);
        ReadyHolders(EntryConfig(c), s.entry);
      }
    }
  }

  // ---- too few callbacks ----

  /** Whoever has come waits at the entry barrier for ever. */
  lemma TooFewNeverEnd<P(!new), V(!new)>(c: Config<P, V>, s: State<P, V>)
    requires Inv(c, s) && 0 < c.callbacks < c.workers
    ensures !AllReturned(s)
  {
    hide DS.Inv, D.Start;
    AS.CountBounds(s.entry.aps, c.workers);
    if AllReturned(s) {
      AS.PastBarrier(EntryConfig(c), s.entry, 0);
    }
  }

  // ---- fair schedules that do not end ----

  /** One run goes on from the other. */
  ghost predicate Extends<P(!new), V(!new)>(
      run: seq<State<P, V>>, schedule: seq<nat>, run': seq<State<P, V>>, schedule': seq<nat>) {
    run <= run' && schedule <= schedule'
  }

  /** Each of the first `n` processors gets a turn, unless it has returned. */
  lemma {:induction false} Pass<P(!new), V(!new)>(c: Config<P, V>, run: seq<State<P, V>>, schedule: seq<nat>, n: nat)
      returns (run': seq<State<P, V>>, schedule': seq<nat>)
    requires Follows(c, run, schedule) && Inv(c, run[|schedule|]) && n <= c.callbacks
    ensures Follows(c, run', schedule') && Extends(run, schedule, run', schedule') && Inv(c, run'[|schedule'|])
    ensures |run'[|schedule'|].entry.aps| == c.callbacks
    ensures forall t: nat | t < n :: Returned(run'[|schedule'|], t) || t in schedule'[|schedule|..]
  {
    hide Inv, Next, Returned;
    InvShaped(c, run[|schedule|]);
    if n == 0 {
      run', schedule' := run, schedule;
    } else {
      run', schedule' := Pass(c, run, schedule, n - 1);
      var s := run'[|schedule'|];
      InvShaped(c, s);
      if !Returned(s, n - 1) {
        StepInv(c, s, n - 1);
        InvShaped(c, Next(c, s, n - 1));
        ReturnedStays(c, s, n - 1);
        AppendStep(c, run', schedule', n - 1);
        assert (schedule' + [n - 1])[|schedule|..] == schedule'[|schedule|..] + [n - 1];
        run', schedule' := run' + [Next(c, s, n - 1)], schedule' + [n - 1];
      }
    }
  }

  lemma ReturnedStays<P(!new), V(!new)>(c: Config<P, V>, s: State<P, V>, i: nat)
    requires Shaped(c, s) && i < c.callbacks && !Returned(s, i) && Shaped(c, Next(c, s, i))
    ensures forall t: nat | t < c.callbacks && Returned(s, t) :: Returned(Next(c, s, i), t)
  {
  }

  lemma RoundsExtend<P(!new), V(!new)>(
      run: seq<State<P, V>>, schedule: seq<nat>, cuts: seq<nat>, run': seq<State<P, V>>, schedule': seq<nat>)
    requires Rounds(run, schedule, cuts) && Extends(run, schedule, run', schedule')
    requires Round(run', schedule', cuts[|cuts| - 1], |schedule'|)
    ensures Rounds(run', schedule', cuts + [|schedule'|])
  {
    var cuts' := cuts + [|schedule'|];
    forall k | 0 <= k < |cuts'| - 1 ensures Round(run', schedule', cuts'[k], cuts'[k + 1]) {
      if k < |cuts| - 1 {
        assert Round(run, schedule, cuts[k], cuts[k + 1]);
        assert schedule'[cuts[k]..cuts[k + 1]] == schedule[cuts[k]..cuts[k + 1]];
      }
    }
  }

  /** Any run goes on for as many fair rounds as one likes. */
  lemma {:induction false} MoreRounds<P(!new), V(!new)>(
      c: Config<P, V>, run: seq<State<P, V>>, schedule: seq<nat>, cuts: seq<nat>, n: nat)
      returns (run': seq<State<P, V>>, schedule': seq<nat>, cuts': seq<nat>)
    requires Follows(c, run, schedule) && Inv(c, run[|schedule|])
    requires Rounds(run, schedule, cuts) && cuts[|cuts| - 1] <= |schedule|
    ensures Follows(c, run', schedule') && Extends(run, schedule, run', schedule')
    ensures Rounds(run', schedule', cuts') && |cuts'| == |cuts| + n
    ensures if n == 0 then cuts' == cuts else |schedule| <= cuts'[|cuts'| - 1] <= |schedule'|
    decreases n
  {
    hide Inv, Next, Returned, Follows;
    if n == 0 {
      run', schedule', cuts' := run, schedule, cuts;
    } else {
      var longer, order := Pass(c, run, schedule, c.callbacks);
      OneMoreRound(c, run, schedule, cuts, longer, order);
      var all := cuts + [|order|];
      assert all[|all| - 1] == |order|;
      run', schedule', cuts' := MoreRounds(c, longer, order, all, n - 1);
    }
  }

  lemma OneMoreRound<P(!new), V(!new)>(
      c: Config<P, V>, run: seq<State<P, V>>, schedule: seq<nat>, cuts: seq<nat>,
      run': seq<State<P, V>>, schedule': seq<nat>)
    requires Follows(c, run, schedule) && Follows(c, run', schedule') && Extends(run, schedule, run', schedule')
    requires Rounds(run, schedule, cuts) && cuts[|cuts| - 1] <= |schedule|
    requires |run'[|schedule'|].entry.aps| == c.callbacks
    requires forall t: nat | t < c.callbacks :: Returned(run'[|schedule'|], t) || t in schedule'[|schedule|..]
    ensures Rounds(run', schedule', cuts + [|schedule'|])
  {
    var from := cuts[|cuts| - 1];
    forall t: nat | t < c.callbacks ensures Returned(run'[|schedule'|], t) || t in schedule'[from..|schedule'|] {
      assert schedule'[from..|schedule'|] == schedule'[from..|schedule|] + schedule'[|schedule|..];
    }
    assert Round(run', schedule', from, |schedule'|);
    RoundsExtend(run, schedule, cuts, run', schedule');
  }

  // ---- when an entry always ends ----

  ghost predicate FairRun<P(!new), V(!new)>(
      c: Config<P, V>, start: State<P, V>, run: seq<State<P, V>>, schedule: seq<nat>, cuts: seq<nat>) {
    Follows(c, run, schedule) && run[0] == start && Rounds(run, schedule, cuts)
  }

  ghost predicate EndsAt<P(!new), V(!new)>(run: seq<State<P, V>>, cuts: seq<nat>) {
    cuts != [] && cuts[|cuts| - 1] < |run| && AllReturned(run[cuts[|cuts| - 1]])
  }

  /** Every fair schedule from here ends within so many rounds. */
  ghost predicate EndsWithin<P(!new), V(!new)>(c: Config<P, V>, start: State<P, V>, rounds: nat) {
    forall run, schedule, cuts | FairRun(c, start, run, schedule, cuts) && |cuts| > rounds :: EndsAt(run, cuts)
  }

  ghost predicate AlwaysEnds<P(!new), V(!new)>(c: Config<P, V>, start: State<P, V>) {
    exists rounds: nat :: EndsWithin(c, start, rounds)
  }

  lemma EnoughEnds<P(!new), V(!new)>(c: Config<P, V>, start: State<P, V>)
    requires ValidConfig(c) && Start(c, start) && Enough(c)
    ensures EndsWithin(c, start, EntryBudget(c, start))
  {
    hide Inv, Next, Start, EntryBudget, IsStranded, Enough;
    forall run, schedule, cuts | FairRun(c, start, run, schedule, cuts) && |cuts| > EntryBudget(c, start)
      ensures EndsAt(run, cuts)
    {
      EnoughIsNotFewer(c);
      FairEntryEnds(c, run, schedule, cuts);
      RunInv(c, run, schedule, cuts[|cuts| - 1]);
      EnoughNeverStranded(c, run[cuts[|cuts| - 1]]);
    }
  }

  lemma EnoughIsNotFewer<P, V>(c: Config<P, V>)
    requires Enough(c)
    ensures c.callbacks >= c.workers
  {
  }

  /** A run up to a point from which no schedule ends. */
  lemma HopelessRun<P(!new), V(!new)>(c: Config<P, V>, start: State<P, V>)
      returns (run: seq<State<P, V>>, schedule: seq<nat>)
    requires ValidConfig(c) && Start(c, start) && !Enough(c) && c.callbacks > 0
    ensures Follows(c, run, schedule) && run[0] == start && Inv(c, run[|schedule|])
    ensures c.callbacks < c.workers || IsStranded(c, run[|schedule|])
  {
    hide Inv, Next, Start, IsStranded, Mixed;
    if c.callbacks < c.workers {
      StartInv(c, start);
      run, schedule := [start], [];
    } else {
      run, schedule := ReachMixed(c, start);
      MixedIsStranded(c, run[|schedule|]);
    }
  }

  lemma NeverEnds<P(!new), V(!new)>(c: Config<P, V>, start: State<P, V>, rounds: nat)
    requires ValidConfig(c) && Start(c, start) && !Enough(c) && c.callbacks > 0
    ensures !EndsWithin(c, start, rounds)
  {
    hide Inv, Next, Start, IsStranded, AllReturned, Enough, Follows;
    var run, schedule := HopelessRun(c, start);
    assert Rounds(run, schedule, [0]) by { assert |run| > 0 by { FollowsLength(c, run, schedule); } }
    var longer, order, cuts := MoreRounds(c, run, schedule, [0], rounds + 1);
    var last := cuts[|cuts| - 1];
    FollowsLength(c, longer, order);
    FollowsLength(c, run, schedule);
    assert longer[|schedule|] == run[|schedule|];
    assert longer[0] == start;
    if c.callbacks < c.workers {
      RunInv(c, longer, order, last);
      TooFewNeverEnd(c, longer[last]);
    } else {
      StrandedForEver(c, longer, order, |schedule|, last);
    }
    assert FairRun(c, start, longer, order, cuts);
    assert !EndsAt(longer, cuts);
  }

  lemma FollowsLength<P(!new), V(!new)>(c: Config<P, V>, run: seq<State<P, V>>, schedule: seq<nat>)
    requires Follows(c, run, schedule)
    ensures |run| == |schedule| + 1
  {
  }

  /**
   Every fair schedule of an entry ends, whatever is in the memory of the job, exactly if no callback comes at all, as
   many come as there are workers, or more come but fewer than the workers are ready.
   */
  lemma EntryEndsExactly<P(!new), V(!new)>(c: Config<P, V>, start: State<P, V>)
    requires ValidConfig(c) && Start(c, start)
    ensures AlwaysEnds(c, start) <==> c.callbacks == 0 || Enough(c)
  {
    hide Start, Enough, EndsWithin;
    if Enough(c) {
      EnoughEnds(c, start);
    } else if c.callbacks == 0 {
      NobodyEndsAtOnce(c, start);
    } else {
      forall rounds: nat ensures !EndsWithin(c, start, rounds) {
        NeverEnds(c, start, rounds);
      }
    }
  }

  lemma NobodyEndsAtOnce<P(!new), V(!new)>(c: Config<P, V>, start: State<P, V>)
    requires ValidConfig(c) && Start(c, start) && c.callbacks == 0
    ensures EndsWithin(c, start, 0)
  {
    hide Next, Start, Inv;
    forall run, schedule, cuts | FairRun(c, start, run, schedule, cuts) && |cuts| > 0 ensures EndsAt(run, cuts) {
      var last := |cuts| - 1;
      assert cuts[last] <= |schedule| by {
        assert last > 0 ==> Round(run, schedule, cuts[last - 1], cuts[last - 1 + 1]);
      }
      RunInv(c, run, schedule, cuts[last]);
      InvShaped(c, run[cuts[last]]);
    }
  }

  /**
   Two workers, three callbacks, everybody ready: slot 1 enters the worker call, slot 0 is turned down with status 42,
   and however it goes on, slot 1 never comes back.
   */
  lemma MixedEntry<P(!new), V(!new)>(c: Config<P, V>, start: State<P, V>)
      returns (run: seq<State<P, V>>, schedule: seq<nat>)
    requires ValidConfig(c) && Start(c, start)
    requires c.workers == 2 && c.callbacks == 3 && forall i: nat | i < 3 :: c.ready(i)
    ensures Follows(c, run, schedule) && run[0] == start && Mixed(run[|schedule|])
    ensures forall longer, order, n: nat |
        Follows(c, longer, order) && |schedule| <= n <= |order| && longer[|schedule|] == run[|schedule|] ::
        !AllReturned(longer[n])
  {
    hide Inv, Next, Start, IsStranded, AllReturned, Mixed;
    assert ReadySet(3, c.ready) == {0, 1, 2};
    run, schedule := ReachMixed(c, start);
    MixedIsStranded(c, run[|schedule|]);
    forall longer, order, n: nat |
        Follows(c, longer, order) && |schedule| <= n <= |order| && longer[|schedule|] == run[|schedule|]
      ensures !AllReturned(longer[n])
    {
      StrandedForEver(c, longer, order, |schedule|, n);
    }
  }
}
