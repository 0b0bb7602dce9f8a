/**
 The tokenizer's open-addressing index of merge rules.  Building it succeeds only on a table in which
 a lookup of at most 51 probes answers exactly as a search of the merge list would.
 */
module MergeIndex {
  import opened Wrappers

  const TABLE_ENTRIES := 262_144
  const PROBES := 51
  const EXPECTED_DISPLACEMENT := 42
  const EXPECTED_CLUSTER := 50
  const EXPECTED_HIT := 43
  const EXPECTED_MISS := 51
  /** Left word of a slot nobody has written: the table is filled with 0xff first. */
  const UNUSED := 0xffff_ffff

  datatype Merge = Merge(left: nat, right: nat, result: nat)

  datatype Slot = Slot(left: nat, right: nat, result: nat, rank: nat)

  datatype Hit = Hit(result: nat, rank: nat)

  type Table = t: seq<Slot> | |t| == TABLE_ENTRIES witness seq(TABLE_ENTRIES, _ => Slot(UNUSED, 0, 0, 0))

  function HashSlot(left: nat, right: nat): (slot: nat)
    ensures slot < TABLE_ENTRIES
  {
    (left * 0x1_0000_0000 + right) * 0x9e37_79b9_7f4a_7c15 % 0x1_0000_0000_0000_0000 / 0x4000_0000_0000
  }

  /** The home slot is the highest 18 bits of the wrapped product: there are as many slots as such numbers. */
  lemma HashDivides(left: nat, right: nat, product: nat)
    requires product == (left * 0x1_0000_0000 + right) * 0x9e37_79b9_7f4a_7c15 % 0x1_0000_0000_0000_0000
    ensures HashSlot(left, right) * 0x4000_0000_0000 <= product < (HashSlot(left, right) + 1) * 0x4000_0000_0000
    ensures TABLE_ENTRIES * 0x4000_0000_0000 == 0x1_0000_0000_0000_0000
  {
  }

  /** `i & (TABLE_ENTRIES - 1)` for the indices that occur. */
  function Wrap(i: nat): (slot: nat)
    requires i < 2 * TABLE_ENTRIES
    ensures slot == i % TABLE_ENTRIES
  {
    if i < TABLE_ENTRIES then i else i - TABLE_ENTRIES
  }

  /** The slot `displacement` steps after the home slot of a pair. */
  function ProbeSlot(left: nat, right: nat, displacement: nat): (slot: nat)
    requires displacement < TABLE_ENTRIES
    ensures slot < TABLE_ENTRIES
  {
    Wrap(HashSlot(left, right) + displacement)
  }

  lemma ProbeSlotInjective(left: nat, right: nat, d: nat, e: nat)
    requires d < TABLE_ENTRIES && e < TABLE_ENTRIES && ProbeSlot(left, right, d) == ProbeSlot(left, right, e)
    ensures d == e
  {
  }

  /** Some displacement reaches any slot. */
  lemma ProbeSlotOnto(left: nat, right: nat, slot: nat) returns (d: nat)
    requires slot < TABLE_ENTRIES
    ensures d < TABLE_ENTRIES && ProbeSlot(left, right, d) == slot
  {
    var home := HashSlot(left, right);
    d := if slot >= home then slot - home else slot + TABLE_ENTRIES - home;
  }

  // ---- what a lookup should answer ----

  predicate Has(m: Merge, left: nat, right: nat) {
    m.left == left && m.right == right
  }

  /** The merge of a pair, searched in the merge list itself. */
  function MergeOf(merges: seq<Merge>, left: nat, right: nat): Option<Hit> {
    if merges == [] then None
    else if Has(merges[|merges| - 1], left, right) then Some(Hit(merges[|merges| - 1].result, |merges| - 1))
    else MergeOf(merges[..|merges| - 1], left, right)
  }

  ghost predicate Distinct(merges: seq<Merge>) {
    forall i, j | 0 <= i < j < |merges| :: !Has(merges[j], merges[i].left, merges[i].right)
  }

  /** `MergeOf` finds a merge exactly when the list has one. */
  lemma {:induction false} MergeOfExact(merges: seq<Merge>, left: nat, right: nat)
    ensures match MergeOf(merges, left, right)
            case Some(hit) =>
              && hit.rank < |merges| && Has(merges[hit.rank], left, right) && hit.result == merges[hit.rank].result
            case None => forall i | 0 <= i < |merges| :: !Has(merges[i], left, right)
  {
    if merges != [] {
      MergeOfExact(merges[..|merges| - 1], left, right);
    }
  }

  lemma MergeOfUnique(merges: seq<Merge>, rank: nat)
    requires Distinct(merges) && rank < |merges|
    ensures MergeOf(merges, merges[rank].left, merges[rank].right) == Some(Hit(merges[rank].result, rank))
  {
    MergeOfExact(merges, merges[rank].left, merges[rank].right);
  }

  // ---- what the table holds ----

  predicate Occupied(t: Table, i: nat)
    requires i < 2 * TABLE_ENTRIES
  {
    t[Wrap(i)].left != UNUSED
  }

  predicate Matches(s: Slot, left: nat, right: nat) {
    s.left == left && s.right == right
  }

  /** Merge `rank` sits `d` steps from home, and every slot on the way is taken. */
  ghost predicate PlacedAt(t: Table, m: Merge, rank: nat, d: nat) {
    && d < TABLE_ENTRIES
    && t[ProbeSlot(m.left, m.right, d)] == Slot(m.left, m.right, m.result, rank)
    && forall e: nat | e < d :: t[ProbeSlot(m.left, m.right, e)].left != UNUSED
  }

  /** Slot `i` is unused, or it is the place of the merge it names. */
  ghost predicate SlotOk(t: Table, merges: seq<Merge>, places: seq<nat>, i: nat)
    requires i < TABLE_ENTRIES && |places| == |merges|
  {
    t[i].left != UNUSED ==>
      && t[i].rank < |merges|
      && t[i] == Slot(merges[t[i].rank].left, merges[t[i].rank].right, merges[t[i].rank].result, t[i].rank)
      && places[t[i].rank] < TABLE_ENTRIES
      && i == ProbeSlot(t[i].left, t[i].right, places[t[i].rank])
  }

  /** The table holds exactly `merges`, merge `rank` at displacement `places[rank]`. */
  ghost predicate Holds(t: Table, merges: seq<Merge>, places: seq<nat>) {
    && |places| == |merges|
    && Distinct(merges)
    && (forall rank: nat | rank < |merges| :: PlacedAt(t, merges[rank], rank, places[rank]))
    && (forall i: nat | i < TABLE_ENTRIES :: SlotOk(t, merges, places, i))
  }

  function MaxOf(places: seq<nat>): (m: nat)
    ensures forall p | p in places :: p <= m
  {
    if places == [] then 0
    else
      var rest := MaxOf(places[..|places| - 1]);
      assert places == places[..|places| - 1] + [places[|places| - 1]];
      if places[|places| - 1] > rest then places[|places| - 1] else rest
  }

  // ---- lookup ----

  /** `lookup`, from its `d`th probe on: what is found, and after how many probes. */
  function Probe(t: Table, left: nat, right: nat, d: nat): (Option<Hit>, nat)
    requires d <= PROBES
    decreases PROBES - d
  {
    if d == PROBES then (None, PROBES)
    else
      var s := t[ProbeSlot(left, right, d)];
      if s.left == UNUSED then (None, d + 1)
      else if Matches(s, left, right) then (Some(Hit(s.result, s.rank)), d + 1)
      else Probe(t, left, right, d + 1)
  }

  method Lookup(table: array<Slot>, left: nat, right: nat) returns (found: Option<Hit>, probes: nat)
    requires table.Length == TABLE_ENTRIES
    ensures (found, probes) == Probe(table[..], left, right, 0)
  {
    var initial := HashSlot(left, right);
    var displacement := 0;
    while displacement < PROBES
      invariant displacement <= PROBES
      invariant Probe(table[..], left, right, 0) == Probe(table[..], left, right, displacement)
    {
      var s := table[Wrap(initial + displacement)];
      if s.left == UNUSED {
        return None, displacement + 1;
      }
      if Matches(s, left, right) {
        return Some(Hit(s.result, s.rank)), displacement + 1;
      }
      displacement := displacement + 1;
    }
    return None, PROBES;
  }

  /** A placed merge is found, by exactly one probe more than its displacement. */
  lemma {:induction false} ProbeFinds(t: Table, merges: seq<Merge>, places: seq<nat>, rank: nat, d: nat)
    requires Holds(t, merges, places) && rank < |merges| && d <= places[rank] < PROBES
    requires merges[rank].left != UNUSED
    ensures Probe(t, merges[rank].left, merges[rank].right, d)
         == (Some(Hit(merges[rank].result, rank)), places[rank] + 1)
    decreases PROBES - d
  {
    var m := merges[rank];
    assert PlacedAt(t, m, rank, places[rank]);
    if d < places[rank] {
      var i := ProbeSlot(m.left, m.right, d);
      assert SlotOk(t, merges, places, i);
      if Matches(t[i], m.left, m.right) {
        assert t[i].rank == rank;
        ProbeSlotInjective(m.left, m.right, d, places[rank]);
      }
      ProbeFinds(t, merges, places, rank, d + 1);
    }
  }

  /** A pair without a merge is not found. */
  lemma {:induction false} ProbeMisses(t: Table, merges: seq<Merge>, places: seq<nat>, left: nat, right: nat, d: nat)
    requires Holds(t, merges, places) && d <= PROBES
    requires forall i | 0 <= i < |merges| :: !Has(merges[i], left, right)
    ensures Probe(t, left, right, d).0 == None
    decreases PROBES - d
  {
    if d < PROBES {
      assert SlotOk(t, merges, places, ProbeSlot(left, right, d));
      ProbeMisses(t, merges, places, left, right, d + 1);
    }
  }

  ghost predicate ValidMerges(merges: seq<Merge>) {
    forall i | 0 <= i < |merges| :: merges[i].left != UNUSED
  }

  /** The bounded lookup is the search of the merge list, for every pair. */
  lemma LookupExact(t: Table, merges: seq<Merge>, places: seq<nat>, left: nat, right: nat)
    requires Holds(t, merges, places) && ValidMerges(merges) && MaxOf(places) < PROBES
    ensures Probe(t, left, right, 0).0 == MergeOf(merges, left, right)
  {
    MergeOfExact(merges, left, right);
    match MergeOf(merges, left, right)
    case Some(hit) =>
      assert places[hit.rank] in places;
      ProbeFinds(t, merges, places, hit.rank, 0);
    case None =>
      ProbeMisses(t, merges, places, left, right, 0);
  }

  // ---- inserting ----

  ghost predicate Blocked(t: Table, left: nat, right: nat, d: nat) {
    d <= TABLE_ENTRIES &&
    forall e: nat | e < d ::
      var s := t[ProbeSlot(left, right, e)];
      s.left != UNUSED && !Matches(s, left, right)
  }

  /** Meeting an unused slot, or the end of the table, proves that the pair is new. */
  lemma NewPair(t: Table, merges: seq<Merge>, places: seq<nat>, m: Merge, d: nat)
    requires Holds(t, merges, places) && Blocked(t, m.left, m.right, d) && m.left != UNUSED
    requires d < TABLE_ENTRIES ==> t[ProbeSlot(m.left, m.right, d)].left == UNUSED
    requires ValidMerges(merges)
    ensures Distinct(merges + [m])
  {
    forall k: nat | k < |merges| ensures !Has(m, merges[k].left, merges[k].right) {
      assert PlacedAt(t, merges[k], k, places[k]);
    }
  }

  lemma InsertKeeps(t: Table, merges: seq<Merge>, places: seq<nat>, m: Merge, d: nat)
    requires Holds(t, merges, places) && d < TABLE_ENTRIES && Blocked(t, m.left, m.right, d)
    requires t[ProbeSlot(m.left, m.right, d)].left == UNUSED && m.left != UNUSED && ValidMerges(merges)
    ensures var i := ProbeSlot(m.left, m.right, d);
      Holds(t[i := Slot(m.left, m.right, m.result, |merges|)], merges + [m], places + [d])
  {
    var i := ProbeSlot(m.left, m.right, d);
    var t' := t[i := Slot(m.left, m.right, m.result, |merges|)];
    NewPair(t, merges, places, m, d);
    var merges', places' := merges + [m], places + [d];
    forall rank: nat | rank < |merges'| ensures PlacedAt(t', merges'[rank], rank, places'[rank]) {
      if rank < |merges| {
        assert PlacedAt(t, merges[rank], rank, places[rank]);
      }
    }
    forall j: nat | j < TABLE_ENTRIES ensures SlotOk(t', merges', places', j) {
      assert SlotOk(t, merges, places, j);
    }
  }

  // ---- counting ----

  lemma {:induction false} SubsetSize(a: set<nat>, b: set<nat>)
    requires a <= b
    ensures |a| <= |b|
  {
    if a != {} {
      var x :| x in a;
      SubsetSize(a - {x}, b - {x});
    }
  }

  function Below(n: nat): (s: set<nat>)
    ensures |s| == n && forall x: nat :: x in s <==> x < n
  {
    if n == 0 then {} else Below(n - 1) + {n - 1}
  }

  function Elements(f: seq<nat>): set<nat> {
    set x | x in f
  }

  ghost predicate NoRepeats(f: seq<nat>) {
    forall i, j | 0 <= i < j < |f| :: f[i] != f[j]
  }

  lemma {:induction false} ElementsSize(f: seq<nat>)
    requires NoRepeats(f)
    ensures |Elements(f)| == |f|
  {
    if f != [] {
      var g, x := f[..|f| - 1], f[|f| - 1];
      ElementsSize(g);
      assert f == g + [x];
      assert Elements(f) == Elements(g) + {x};
    }
  }

  lemma InjectionBound(f: seq<nat>, bound: nat)
    requires NoRepeats(f) && forall i | 0 <= i < |f| :: f[i] < bound
    ensures |f| <= bound
  {
    ElementsSize(f);
    SubsetSize(Elements(f), Below(bound));
  }

  /** Only as many merges fit as there are slots. */
  lemma AtMostTableEntries(t: Table, merges: seq<Merge>, places: seq<nat>)
    requires Holds(t, merges, places)
    ensures |merges| <= TABLE_ENTRIES
  {
    var f := seq(|merges|, rank requires 0 <= rank < |merges| =>
      assert PlacedAt(t, merges[rank], rank, places[rank]);
      ProbeSlot(merges[rank].left, merges[rank].right, places[rank]));
    InjectionBound(f, TABLE_ENTRIES);
  }

  /** A table without an unused slot holds as many merges as it has slots. */
  lemma FullTable(t: Table, merges: seq<Merge>, places: seq<nat>)
    requires Holds(t, merges, places) && forall i: nat | i < TABLE_ENTRIES :: t[i].left != UNUSED
    ensures |merges| == TABLE_ENTRIES
  {
    AtMostTableEntries(t, merges, places);
    var f := seq(TABLE_ENTRIES, i requires 0 <= i < TABLE_ENTRIES => t[i].rank);
    forall i: nat, j: nat | i < j < TABLE_ENTRIES ensures f[i] != f[j] {
      assert SlotOk(t, merges, places, i) && SlotOk(t, merges, places, j);
    }
    forall i: nat | i < TABLE_ENTRIES ensures f[i] < |merges| {
      assert SlotOk(t, merges, places, i);
    }
    InjectionBound(f, |merges|);
  }

  lemma BlockedEverywhere(t: Table, left: nat, right: nat)
    requires Blocked(t, left, right, TABLE_ENTRIES)
    ensures forall i: nat | i < TABLE_ENTRIES :: t[i].left != UNUSED
  {
    forall i: nat | i < TABLE_ENTRIES ensures t[i].left != UNUSED {
      var d := ProbeSlotOnto(left, right, i);
    }
  }

  // ---- clusters ----

  /** The `n` slots from `s` on, going round once past the end, are all taken. */
  ghost predicate AllUsed(t: Table, s: nat, n: nat) {
    s + n <= 2 * TABLE_ENTRIES && forall i: nat | s <= i < s + n :: Occupied(t, i)
  }

  /** `max` is the length of the longest circular run of taken slots. */
  ghost predicate LongestRun(t: Table, max: nat) {
    && (exists s: nat :: AllUsed(t, s, max))
    && (forall s: nat, n: nat | s < TABLE_ENTRIES && AllUsed(t, s, n) :: n <= max)
  }

  /** The same among the slots looked at so far. */
  ghost predicate LongestBelow(t: Table, end: nat, max: nat) {
    && (exists s: nat :: AllUsed(t, s, max))
    && (forall s: nat, n: nat | s + n <= end && AllUsed(t, s, n) :: n <= max)
  }

  lemma RunEndsAt(t: Table, end: nat, current: nat, s: nat, n: nat)
    requires current <= end <= 2 * TABLE_ENTRIES && AllUsed(t, end - current, current)
    requires current < end ==> !Occupied(t, end - current - 1)
    requires s + n == end && AllUsed(t, s, n)
    ensures n <= current
  {
  }

  lemma ScanStep(t: Table, slot: nat, max: nat, current: nat)
    requires slot < 2 * TABLE_ENTRIES && LongestBelow(t, slot, max) && current <= slot + 1
    requires AllUsed(t, slot + 1 - current, current)
    requires current < slot + 1 ==> !Occupied(t, slot - current)
    ensures LongestBelow(t, slot + 1, if current > max then current else max)
  {
    forall s: nat, n: nat | s + n <= slot + 1 && AllUsed(t, s, n) ensures n <= if current > max then current else max {
      if s + n == slot + 1 {
        RunEndsAt(t, slot + 1, current, s, n);
      }
    }
  }

  /** Past the end of the table, the first unused slot closes every run. */
  lemma ScanCloses(t: Table, slot: nat, max: nat)
    requires TABLE_ENTRIES <= slot < 2 * TABLE_ENTRIES && LongestBelow(t, slot + 1, max) && !Occupied(t, slot)
    ensures LongestRun(t, max)
  {
    forall s: nat, n: nat | s < TABLE_ENTRIES && AllUsed(t, s, n) ensures n <= max {
      assert !Occupied(t, slot - TABLE_ENTRIES);
      if s <= slot - TABLE_ENTRIES {
        assert s + n <= slot - TABLE_ENTRIES;
      } else {
        assert s + n <= slot;
      }
    }
  }

  /** The cluster scan: twice round the table, or until a run is closed on the second round. */
  method LongestCluster(table: array<Slot>) returns (maxCluster: nat)
    requires table.Length == TABLE_ENTRIES
    ensures LongestRun(table[..], maxCluster)
  {
    ghost var t: Table := table[..];
    maxCluster := 0;
    var current, slot := 0, 0;
    assert AllUsed(t, 0, 0);
    while slot < 2 * TABLE_ENTRIES
      invariant current <= slot <= 2 * TABLE_ENTRIES
      invariant AllUsed(t, slot - current, current)
      invariant current < slot ==> !Occupied(t, slot - current - 1)
      invariant LongestBelow(t, slot, maxCluster)
    {
      if table[Wrap(slot)].left != UNUSED {
        current := current + 1;
      } else {
        current := 0;
      }
      ScanStep(t, slot, maxCluster, current);
      if current > maxCluster {
        maxCluster := current;
      }
      if slot >= TABLE_ENTRIES && current == 0 {
        ScanCloses(t, slot, maxCluster);
        return;
      }
      slot := slot + 1;
    }
  }

  lemma OneRun(t: Table, left: nat, right: nat, d: nat)
    requires d < TABLE_ENTRIES && forall e: nat | e <= d :: t[ProbeSlot(left, right, e)].left != UNUSED
    ensures AllUsed(t, HashSlot(left, right), d + 1)
  {
    var home := HashSlot(left, right);
    forall i: nat | home <= i < home + d + 1 ensures Occupied(t, i) {
      assert ProbeSlot(left, right, i - home) == Wrap(i);
    }
  }

  /** A merge and everything it was pushed past are one run. */
  lemma DisplacementBelowCluster(t: Table, merges: seq<Merge>, places: seq<nat>, max: nat, rank: nat)
    requires Holds(t, merges, places) && ValidMerges(merges) && LongestRun(t, max) && rank < |merges|
    ensures places[rank] < max
  {
    assert PlacedAt(t, merges[rank], rank, places[rank]);
    OneRun(t, merges[rank].left, merges[rank].right, places[rank]);
  }

  /** A lookup that finds nothing stopped at an unused slot, not at the probe bound. */
  lemma {:induction false} MissStops(t: Table, left: nat, right: nat, max: nat, d: nat)
    requires LongestRun(t, max) && max < PROBES && d <= PROBES
    requires Blocked(t, left, right, d) && Probe(t, left, right, d).0 == None
    ensures var probes := Probe(t, left, right, d).1;
      0 < probes <= max + 1 && t[ProbeSlot(left, right, probes - 1)].left == UNUSED
    decreases PROBES - d
  {
    if d > 0 {
      OneRun(t, left, right, d - 1);
    }
    if t[ProbeSlot(left, right, d)].left != UNUSED {
      MissStops(t, left, right, max, d + 1);
    }
  }

  // ---- construction ----

  datatype IndexError =
    | TableFull(displacement: nat)
    | MergeDuplicate(rank: nat, earlier: nat)
    | MaxDisplacement(actual: nat)
    | MaxCluster(actual: nat)
    | HitBound(actual: nat)
    | MissBound(actual: nat)

  /** Where the next merge goes, if it can be inserted at all. */
  method FindPlace(table: array<Slot>, m: Merge, rank: nat) returns (error: Option<IndexError>, displacement: nat)
    requires table.Length == TABLE_ENTRIES
    ensures error.None? ==>
      && displacement < TABLE_ENTRIES && Blocked(table[..], m.left, m.right, displacement)
      && table[ProbeSlot(m.left, m.right, displacement)].left == UNUSED
    ensures match error
            case None => true
            case Some(TableFull(n)) => n == TABLE_ENTRIES && Blocked(table[..], m.left, m.right, TABLE_ENTRIES)
            case Some(MergeDuplicate(r, earlier)) =>
              r == rank && displacement < TABLE_ENTRIES && table[ProbeSlot(m.left, m.right, displacement)].left != UNUSED
              && Matches(table[ProbeSlot(m.left, m.right, displacement)], m.left, m.right)
              && earlier == table[ProbeSlot(m.left, m.right, displacement)].rank
            case Some(_) => false
  {
    displacement := 0;
    while true
      invariant Blocked(table[..], m.left, m.right, displacement)
      decreases TABLE_ENTRIES - displacement
    {
      if displacement >= TABLE_ENTRIES {
        return Some(TableFull(displacement)), displacement;
      }
      var s := table[ProbeSlot(m.left, m.right, displacement)];
      if s.left == UNUSED {
        return None, displacement;
      }
      if Matches(s, m.left, m.right) {
        return Some(MergeDuplicate(rank, s.rank)), displacement;
      }
      displacement := displacement + 1;
    }
  }

  /** Why the insertion of merge `n` fails after the first `n` went in. */
  ghost predicate InsertFails(error: IndexError, merges: seq<Merge>, n: nat) {
    n < |merges| &&
    match error
    case MergeDuplicate(rank, earlier) => rank == n && earlier < n && Has(merges[n], merges[earlier].left, merges[earlier].right)
    case TableFull(displacement) => n == displacement == TABLE_ENTRIES && Distinct(merges[..n + 1])
    case _ => false
  }

  lemma FailureExplained(t: Table, merges: seq<Merge>, places: seq<nat>, rank: nat, error: IndexError, d: nat)
    requires rank < |merges| && Holds(t, merges[..rank], places) && ValidMerges(merges)
    requires var m := merges[rank];
      || (error == TableFull(TABLE_ENTRIES) && Blocked(t, m.left, m.right, TABLE_ENTRIES))
      || (error.MergeDuplicate? && error.rank == rank && d < TABLE_ENTRIES
          && var s := t[ProbeSlot(m.left, m.right, d)];
             s.left != UNUSED && Matches(s, m.left, m.right) && error.earlier == s.rank)
    ensures InsertFails(error, merges, rank)
  {
    var m := merges[rank];
    if error.TableFull? {
      BlockedEverywhere(t, m.left, m.right);
      FullTable(t, merges[..rank], places);
      NewPair(t, merges[..rank], places, m, TABLE_ENTRIES);
      assert merges[..rank] + [m] == merges[..rank + 1];
    } else {
      assert SlotOk(t, merges[..rank], places, ProbeSlot(m.left, m.right, d));
    }
  }

  /** The insertion loop. */
  method InsertAll(merges: seq<Merge>, table: array<Slot>)
      returns (error: Option<IndexError>, maxDisplacement: nat, ghost places: seq<nat>)
    requires table.Length == TABLE_ENTRIES && ValidMerges(merges)
    requires forall i | 0 <= i < TABLE_ENTRIES :: table[i].left == UNUSED
    modifies table
    ensures |places| <= |merges| && Holds(table[..], merges[..|places|], places)
    ensures maxDisplacement == MaxOf(places)
    ensures if error.None? then |places| == |merges| else InsertFails(error.value, merges, |places|)
  {
    error, maxDisplacement, places := None, 0, [];
    var rank := 0;
    while rank < |merges|
      invariant rank == |places| <= |merges|
      invariant Holds(table[..], merges[..rank], places)
      invariant maxDisplacement == MaxOf(places) && error.None?
    {
      ghost var t: Table := table[..];
      var m := merges[rank];
      var displacement;
      error, displacement := FindPlace(table, m, rank);
      if error.Some? {
        FailureExplained(t, merges, places, rank, error.value, displacement);
        return;
      }
      InsertKeeps(t, merges[..rank], places, m, displacement);
      assert merges[..rank] + [m] == merges[..rank + 1];
      var i := ProbeSlot(m.left, m.right, displacement);
      table[i] := Slot(m.left, m.right, m.result, rank);
      assert table[..] == t[i := Slot(m.left, m.right, m.result, rank)];
      places := places + [displacement];
      if displacement > maxDisplacement {
        maxDisplacement := displacement;
      }
      rank := rank + 1;
    }
    assert merges[..rank] == merges;
  }

  /** The hit loop finds one probe more than the largest displacement, and nothing else. */
  method LongestHit(merges: seq<Merge>, table: array<Slot>, ghost places: seq<nat>) returns (maxHit: nat)
    requires table.Length == TABLE_ENTRIES && ValidMerges(merges)
    requires Holds(table[..], merges, places) && MaxOf(places) < PROBES
    ensures maxHit == if merges == [] then 0 else MaxOf(places) + 1
  {
    maxHit := 0;
    var rank := 0;
    while rank < |merges|
      invariant rank <= |merges|
      invariant maxHit == if rank == 0 then 0 else MaxOf(places[..rank]) + 1
    {
      var _, probes := Lookup(table, merges[rank].left, merges[rank].right);
      assert places[rank] in places;
      ProbeFinds(table[..], merges, places, rank, 0);
      assert places[..rank + 1][..rank] == places[..rank];
      if probes > maxHit {
        maxHit := probes;
      }
      rank := rank + 1;
    }
    assert places[..rank] == places;
  }

  /** Which check a merge list fails first, and the number it is reported with; the last two never fail. */
  ghost predicate Refused(t: Table, merges: seq<Merge>, places: seq<nat>, error: IndexError) {
    match error
    case TableFull(_) => InsertFails(error, merges, |places|)
    case MergeDuplicate(_, _) => InsertFails(error, merges, |places|)
    case MaxDisplacement(actual) => |places| == |merges| && actual == MaxOf(places) != EXPECTED_DISPLACEMENT
    case MaxCluster(actual) =>
      && |places| == |merges| && MaxOf(places) == EXPECTED_DISPLACEMENT
      && LongestRun(t, actual) && actual != EXPECTED_CLUSTER
    case HitBound(_) => false
    case MissBound(_) => false
  }

  /**
   `construct`, without the byte map and the two digests.  It succeeds exactly on a list of distinct merges that
   fit the table with the expected displacement and cluster; the last two checks never fail.
   */
  method Construct(merges: seq<Merge>, table: array<Slot>) returns (error: Option<IndexError>, ghost places: seq<nat>)
    requires table.Length == TABLE_ENTRIES && ValidMerges(merges) && merges != []
    requires forall i | 0 <= i < TABLE_ENTRIES :: table[i].left == UNUSED
    modifies table
    ensures |places| <= |merges| && Holds(table[..], merges[..|places|], places)
    ensures error.None? <==>
      |places| == |merges| && MaxOf(places) == EXPECTED_DISPLACEMENT && LongestRun(table[..], EXPECTED_CLUSTER)
    ensures error.None? ==> |merges| <= TABLE_ENTRIES && Distinct(merges)
    ensures !Distinct(merges) || |merges| > TABLE_ENTRIES ==>
      error.Some? && InsertFails(error.value, merges, |places|)
    ensures error.Some? ==> Refused(table[..], merges, places, error.value)
    ensures error.None? ==> forall left: nat, right: nat ::
      Probe(table[..], left, right, 0).0 == MergeOf(merges, left, right)
  {
    var maxDisplacement;
    error, maxDisplacement, places := InsertAll(merges, table);
    if error.Some? {
      return;
    }
    ghost var t: Table := table[..];
    assert merges[..|merges|] == merges;
    AtMostTableEntries(t, merges, places);
    if maxDisplacement != EXPECTED_DISPLACEMENT {
      return Some(MaxDisplacement(maxDisplacement)), places;
    }
    var maxCluster := LongestCluster(table);
    if maxCluster != EXPECTED_CLUSTER {
      RunUnique(t, maxCluster, EXPECTED_CLUSTER);
      return Some(MaxCluster(maxCluster)), places;
    }
    var maxHit := LongestHit(merges, table, places);
    if maxHit != EXPECTED_HIT {
      return Some(HitBound(maxHit)), places;
    }
    var maxMiss := maxCluster + 1;
    if maxMiss != EXPECTED_MISS {
      return Some(MissBound(maxMiss)), places;
    }
    forall left: nat, right: nat ensures Probe(t, left, right, 0).0 == MergeOf(merges, left, right) {
      LookupExact(t, merges, places, left, right);
    }
  }

  /** Run lengths within one round are unique, so a different length is not the longest. */
  lemma RunUnique(t: Table, a: nat, b: nat)
    requires LongestRun(t, a) && a != b && b < TABLE_ENTRIES
    ensures !LongestRun(t, b)
  {
    if LongestRun(t, b) {
      var s: nat :| AllUsed(t, s, a);
      var u: nat :| AllUsed(t, u, b);
      RunFromHome(t, s, a);
      RunFromHome(t, u, b);
    }
  }

  /** A run may be taken to start in the first round. */
  lemma RunFromHome(t: Table, s: nat, n: nat)
    requires AllUsed(t, s, n)
    ensures AllUsed(t, s % TABLE_ENTRIES, n)
  {
    if TABLE_ENTRIES <= s && n > 0 {
      forall i: nat | s - TABLE_ENTRIES <= i < s - TABLE_ENTRIES + n ensures Occupied(t, i) {
        assert Occupied(t, i + TABLE_ENTRIES);
      }
      assert s % TABLE_ENTRIES == s - TABLE_ENTRIES;
    }
  }
}
