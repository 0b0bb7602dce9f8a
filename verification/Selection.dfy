/**
 Picking the largest logits.  The diagnostic's insertion from the back, the sampler's insertion from the front and the
 greedy scan all select by the same order: larger value first, lower token first on a tie.
 */
module Selection {
  import opened Binary32
  import opened Wrappers

  const LOGIT_WORDS := 151_936
  const DIAGNOSTIC_TOP := 8
  const SAMPLER_TOP := 20
  const NO_TOKEN := 0xffff_ffff

  datatype Entry = Entry(token: nat, bits: nat)

  /** The selection order. */
  predicate Before(x: Entry, y: Entry) {
    Greater(x.bits, y.bits) || (Key(x.bits) == Key(y.bits) && x.token < y.token)
  }

  predicate IsEntry(logits: seq<nat>, n: nat, e: Entry) {
    e.token < n <= |logits| && e.bits == logits[e.token]
  }

  ghost predicate InOrder(top: seq<Entry>) {
    forall i, j | 0 <= i < j < |top| :: Before(top[i], top[j])
  }

  /** `top` holds the first `k` of the first `n` logits in selection order, or all of them when there are fewer. */
  ghost predicate IsTop(logits: seq<nat>, n: nat, k: nat, top: seq<Entry>) {
    && n <= |logits|
    && |top| == (if n < k then n else k)
    && InOrder(top)
    && (forall i | 0 <= i < |top| :: IsEntry(logits, n, top[i]))
    && (forall t: nat | t < n ::
          var e := Entry(t, logits[t]);
          e in top || (|top| == k && forall i | 0 <= i < |top| :: Before(top[i], e)))
  }

  /** The selection is determined by the logits. */
  lemma {:induction false} IsTopUnique(logits: seq<nat>, n: nat, k: nat, a: seq<Entry>, b: seq<Entry>, i: nat)
    requires IsTop(logits, n, k, a) && IsTop(logits, n, k, b) && i < |a|
    ensures a[..i + 1] == b[..i + 1]
  {
    if i > 0 {
      IsTopUnique(logits, n, k, a, b, i - 1);
      assert a[..i] == b[..i];
    }
    NotYet(logits, n, k, a, b, i);
    NotYet(logits, n, k, b, a, i);
    assert a[..i + 1] == a[..i] + [a[i]] && b[..i + 1] == b[..i] + [b[i]];
  }

  /** When two selections agree before `i`, neither has the `i`th entry of the other later. */
  lemma NotYet(logits: seq<nat>, n: nat, k: nat, a: seq<Entry>, b: seq<Entry>, i: nat)
    requires IsTop(logits, n, k, a) && IsTop(logits, n, k, b) && i < |a| && a[..i] == b[..i]
    ensures a[i] == b[i] || Before(b[i], a[i])
  {
    var e := a[i];
    assert IsEntry(logits, n, e);
    assert e == Entry(e.token, logits[e.token]);
    forall j | 0 <= j < i ensures a[j] == b[j] {
      assert a[..i][j] == b[..i][j];
    }
  }

  /** A shorter selection is the beginning of a longer one. */
  lemma TopPrefix(logits: seq<nat>, n: nat, k: nat, top: seq<Entry>, j: nat)
    requires IsTop(logits, n, k, top) && j <= k
    ensures IsTop(logits, n, j, top[..if j < |top| then j else |top|])
  {
    var m := if j < |top| then j else |top|;
    forall t: nat | t < n
      ensures var e := Entry(t, logits[t]); e in top[..m] || (m == j && forall i | 0 <= i < m :: Before(top[..m][i], e))
    {
      var e := Entry(t, logits[t]);
      if e in top {
        var p :| 0 <= p < |top| && top[p] == e;
        if p < m {
          assert top[..m][p] == e;
        }
      }
    }
  }

  // ---- in terms of values ----

  predicate Precedes(x: Entry, y: Entry) {
    Real(x.bits) > Real(y.bits) || (Real(x.bits) == Real(y.bits) && x.token < y.token)
  }

  predicate Chosen(top: seq<Entry>, token: nat) {
    exists i :: 0 <= i < |top| && top[i].token == token
  }

  /** The `k` tokens with the largest values, largest first, lower tokens first among equals; or all of them. */
  ghost predicate LargestFirst(logits: seq<nat>, k: nat, top: seq<Entry>) {
    && |top| == (if |logits| < k then |logits| else k)
    && (forall i | 0 <= i < |top| :: top[i].token < |logits| && top[i].bits == logits[top[i].token])
    && (forall i, j | 0 <= i < j < |top| :: Precedes(top[i], top[j]))
    && (forall t: nat, i | t < |logits| && !Chosen(top, t) && 0 <= i < |top| ::
          Precedes(top[i], Entry(t, logits[t])))
  }

  lemma BeforePrecedes(x: Entry, y: Entry)
    requires Word(x.bits) && Word(y.bits)
    ensures Before(x, y) <==> Precedes(x, y)
  {
    GreaterIsReal(x.bits, y.bits);
  }

  lemma TopIsLargest(logits: seq<nat>, k: nat, top: seq<Entry>)
    requires IsTop(logits, |logits|, k, top) && AllWords(logits)
    ensures LargestFirst(logits, k, top)
  {
    hide Precedes;
    forall i | 0 <= i < |top| ensures Word(top[i].bits) && top[i].token < |logits| && top[i].bits == logits[top[i].token] {
      assert IsEntry(logits, |logits|, top[i]);
    }
    forall i, j | 0 <= i < j < |top| ensures Precedes(top[i], top[j]) {
      BeforePrecedes(top[i], top[j]);
    }
    forall t: nat, i | t < |logits| && !Chosen(top, t) && 0 <= i < |top| ensures Precedes(top[i], Entry(t, logits[t])) {
      BeforePrecedes(top[i], Entry(t, logits[t]));
    }
  }

  // ---- one more logit ----

  /** `e` belongs at `p`: not before the entries below `p`, and before those from `p` on. */
  ghost predicate Belongs(top: seq<Entry>, e: Entry, p: nat) {
    && p <= |top|
    && (forall i | 0 <= i < p :: !Greater(e.bits, top[i].bits))
    && (forall i | p <= i < |top| :: Greater(e.bits, top[i].bits))
  }

  function InsertAt(top: seq<Entry>, e: Entry, p: nat, k: nat): seq<Entry>
    requires p <= |top|
  {
    var longer := top[..p] + [e] + top[p..];
    if |longer| <= k then longer else longer[..k]
  }

  lemma LongerInOrder(logits: seq<nat>, n: nat, k: nat, top: seq<Entry>, p: nat)
    requires IsTop(logits, n, k, top) && n < |logits| && Belongs(top, Entry(n, logits[n]), p)
    ensures InOrder(top[..p] + [Entry(n, logits[n])] + top[p..])
  {
    var e := Entry(n, logits[n]);
    var longer := top[..p] + [e] + top[p..];
    forall i, j | 0 <= i < j < |longer| ensures Before(longer[i], longer[j]) {
      if j < p {
        assert longer[i] == top[i] && longer[j] == top[j];
      } else if i < p && j == p {
        assert IsEntry(logits, n, top[i]);
      } else if i < p {
        assert longer[j] == top[j - 1] && Before(top[i], top[j - 1]);
      } else if i == p {
        assert longer[j] == top[j - 1];
      } else {
        assert longer[i] == top[i - 1] && longer[j] == top[j - 1];
      }
    }
  }

  lemma InsertKeepsTop(logits: seq<nat>, n: nat, k: nat, top: seq<Entry>, p: nat)
    requires IsTop(logits, n, k, top) && n < |logits| && Belongs(top, Entry(n, logits[n]), p)
    ensures IsTop(logits, n + 1, k, InsertAt(top, Entry(n, logits[n]), p, k))
  {
    var e := Entry(n, logits[n]);
    var longer, out := top[..p] + [e] + top[p..], InsertAt(top, e, p, k);
    LongerInOrder(logits, n, k, top, p);
    forall i | 0 <= i < |out| ensures IsEntry(logits, n + 1, out[i]) {
      assert i < p ==> out[i] == top[i];
      assert i > p ==> out[i] == top[i - 1];
    }
    forall t: nat | t <= n
      ensures var x := Entry(t, logits[t]); x in out || (|out| == k && forall i | 0 <= i < |out| :: Before(out[i], x))
    {
      CoveredAfter(logits, n, k, top, p, t);
    }
  }

  /** Every logit seen is in the new selection or after all of it. */
  lemma CoveredAfter(logits: seq<nat>, n: nat, k: nat, top: seq<Entry>, p: nat, t: nat)
    requires IsTop(logits, n, k, top) && n < |logits| && Belongs(top, Entry(n, logits[n]), p) && t <= n
    ensures var x, out := Entry(t, logits[t]), InsertAt(top, Entry(n, logits[n]), p, k);
      x in out || (|out| == k && forall i | 0 <= i < |out| :: Before(out[i], x))
  {
    var e, x := Entry(n, logits[n]), Entry(t, logits[t]);
    var longer, out := top[..p] + [e] + top[p..], InsertAt(top, e, p, k);
    LongerInOrder(logits, n, k, top, p);
    if x in longer {
      var q :| 0 <= q < |longer| && longer[q] == x;
      if q < |out| {
        assert out[q] == x;
      }
    } else {
      assert longer[p] == e;
      forall q | 0 <= q < |top| ensures top[q] in longer {
        assert longer[if q < p then q else q + 1] == top[q];
      }
      LaterThanAll(logits, n, k, top, p, x);
    }
  }

  lemma LaterThanAll(logits: seq<nat>, n: nat, k: nat, top: seq<Entry>, p: nat, x: Entry)
    requires IsTop(logits, n, k, top) && n < |logits| && Belongs(top, Entry(n, logits[n]), p)
    requires x.token < n && x == Entry(x.token, logits[x.token]) && x !in top
    ensures var out := InsertAt(top, Entry(n, logits[n]), p, k);
      |out| == k && forall i | 0 <= i < |out| :: Before(out[i], x)
  {
    var e := Entry(n, logits[n]);
    var out := InsertAt(top, e, p, k);
    forall i | 0 <= i < |out| ensures Before(out[i], x) {
      if i < p {
        assert out[i] == top[i];
      } else if i > p {
        assert out[i] == top[i - 1];
      } else if p < |top| {
        assert Before(top[p], x);
      }
    }
  }

  /** The entries before the first smaller one are all not smaller, because the selection is in order. */
  lemma BelongsHere(top: seq<Entry>, e: Entry, p: nat)
    requires InOrder(top) && p <= |top|
    requires p > 0 ==> !Greater(e.bits, top[p - 1].bits)
    requires forall i | p <= i < |top| :: Greater(e.bits, top[i].bits)
    ensures Belongs(top, e, p)
  {
    forall i | 0 <= i < p ensures !Greater(e.bits, top[i].bits) {
      if i < p - 1 {
        assert Before(top[i], top[p - 1]);
      }
    }
  }

  // ---- insertion from the back ----

  /** The inner loop of `top_logits_8`. */
  method InsertFromBack(staged: array<Entry>, used: nat, e: Entry) returns (used': nat, ghost p: nat)
    requires used <= staged.Length && InOrder(staged[..used])
    modifies staged
    ensures Belongs(old(staged[..used]), e, p) && used' == (if used < staged.Length then used + 1 else staged.Length)
    ensures staged[..used'] == InsertAt(old(staged[..used]), e, p, staged.Length)
  {
    ghost var top := staged[..used];
    var insertion := used;
    while insertion != 0 && Greater(e.bits, staged[insertion - 1].bits)
      invariant insertion <= used
      invariant forall i | 0 <= i < insertion :: staged[i] == top[i]
      invariant forall i | insertion <= i < used :: Greater(e.bits, top[i].bits)
      invariant forall i | insertion < i <= used && i < staged.Length :: staged[i] == top[i - 1]
    {
      if insertion < staged.Length {
        staged[insertion] := staged[insertion - 1];
      }
      insertion := insertion - 1;
    }
    p := insertion;
    BelongsHere(top, e, p);
    if insertion < staged.Length {
      staged[insertion] := e;
    }
    used' := if used + 1 < staged.Length then used + 1 else staged.Length;
    ghost var out := InsertAt(top, e, p, staged.Length);
    forall i | 0 <= i < used' ensures staged[i] == out[i] {
    }
  }

  datatype SelectError = WrongLength(length: nat) | NonFinite(token: nat)

  /** Why logits are refused: their number, or the first that is not finite. */
  predicate RefusedFor(logits: seq<nat>, error: SelectError) {
    match error
    case WrongLength(length) => length == |logits| != LOGIT_WORDS
    case NonFinite(t) =>
      |logits| == LOGIT_WORDS && t < |logits| && !Finite(logits[t]) && forall i | 0 <= i < t :: Finite(logits[i])
  }

  predicate ValidLogits(logits: seq<nat>) {
    |logits| == LOGIT_WORDS && AllFinite(logits)
  }

  /** `top_logits_8`: the eight largest logits, or the first that is not finite. */
  method TopLogits(logits: seq<nat>) returns (r: Result<seq<Entry>, SelectError>)
    ensures match r
            case Ok(top) => ValidLogits(logits) && IsTop(logits, |logits|, DIAGNOSTIC_TOP, top)
            case Err(error) => RefusedFor(logits, error)
    ensures r.Ok? && AllWords(logits) ==> LargestFirst(logits, 8, r.value)
  {
    if |logits| != LOGIT_WORDS {
      return Err(WrongLength(|logits|));
    }
    var staged := new Entry[DIAGNOSTIC_TOP](_ => Entry(0, 0));
    var used: nat, token: nat := 0, 0;
    while token < |logits|
      invariant token <= |logits| && (forall i | 0 <= i < token :: Finite(logits[i]))
      invariant used <= staged.Length && IsTop(logits, token, DIAGNOSTIC_TOP, staged[..used])
    {
      if !Finite(logits[token]) {
        return Err(NonFinite(token));
      }
      ghost var p;
      ghost var top := staged[..used];
      used, p := InsertFromBack(staged, used, Entry(token, logits[token]));
      InsertKeepsTop(logits, token, DIAGNOSTIC_TOP, top, p);
      token := token + 1;
    }
    if AllWords(logits) {
      TopIsLargest(logits, DIAGNOSTIC_TOP, staged[..used]);
    }
    r := Ok(staged[..used]);
  }

  // ---- insertion from the front ----

  /** The filled slots of the sampler's two arrays, as entries. */
  function Slots(ids: array<nat>, values: array<nat>, used: nat): (entries: seq<Entry>)
    reads ids, values
    requires used <= ids.Length == values.Length
    ensures |entries| == used
  {
    seq(used, i requires 0 <= i < used reads ids, values requires used <= ids.Length == values.Length =>
      Entry(ids[i], values[i]))
  }

  /** The first `used` slots are filled, the others are not. */
  ghost predicate Filled(ids: array<nat>, values: array<nat>, used: nat)
    reads ids
  {
    && used <= ids.Length == values.Length && ids != values
    && (forall i | 0 <= i < used :: ids[i] != NO_TOKEN)
    && (forall i | used <= i < ids.Length :: ids[i] == NO_TOKEN)
  }

  /** Where the sampler puts a value: the first empty slot or smaller value. */
  method FindSlot(ids: array<nat>, values: array<nat>, value: nat, ghost used: nat) returns (insertion: nat)
    requires Filled(ids, values, used)
    ensures insertion <= used && forall i | 0 <= i < insertion :: !Greater(value, values[i])
    ensures insertion < used ==> Greater(value, values[insertion])
  {
    insertion := ids.Length;
    var at := 0;
    while at < ids.Length
      invariant at <= used && insertion == ids.Length
      invariant forall i | 0 <= i < at :: !Greater(value, values[i])
    {
      if ids[at] == NO_TOKEN || Greater(value, values[at]) {
        insertion := at;
        return;
      }
      at := at + 1;
    }
  }

  /** Open a gap by moving everything from `insertion` on one place back, and fill it. */
  method ShiftIn(ids: array<nat>, values: array<nat>, insertion: nat, e: Entry)
    requires ids.Length == values.Length && ids != values && insertion < ids.Length
    modifies ids, values
    ensures forall i | 0 <= i < insertion :: ids[i] == old(ids[i]) && values[i] == old(values[i])
    ensures ids[insertion] == e.token && values[insertion] == e.bits
    ensures forall i | insertion < i < ids.Length :: ids[i] == old(ids[i - 1]) && values[i] == old(values[i - 1])
  {
    var at := ids.Length - 1;
    while at > insertion
      invariant insertion <= at < ids.Length
      invariant forall i | 0 <= i <= at :: ids[i] == old(ids[i]) && values[i] == old(values[i])
      invariant forall i | at < i < ids.Length :: ids[i] == old(ids[i - 1]) && values[i] == old(values[i - 1])
    {
      ids[at] := ids[at - 1];
      values[at] := values[at - 1];
      at := at - 1;
    }
    ids[insertion] := e.token;
    values[insertion] := e.bits;
  }

  /** One logit into the sampler's arrays. */
  method InsertFromFront(ids: array<nat>, values: array<nat>, e: Entry, ghost used: nat) returns (ghost p: nat)
    requires Filled(ids, values, used) && InOrder(Slots(ids, values, used)) && e.token != NO_TOKEN
    modifies ids, values
    ensures Belongs(old(Slots(ids, values, used)), e, p)
    ensures var used' := if used < ids.Length then used + 1 else ids.Length;
      && Filled(ids, values, used')
      && Slots(ids, values, used') == InsertAt(old(Slots(ids, values, used)), e, p, ids.Length)
  {
    ghost var top := Slots(ids, values, used);
    var insertion := FindSlot(ids, values, e.bits, used);
    p := insertion;
    LaterSmaller(top, e, p);
    if insertion < ids.Length {
      ShiftIn(ids, values, insertion, e);
    }
    ghost var used' := if used < ids.Length then used + 1 else ids.Length;
    ghost var out := InsertAt(top, e, p, ids.Length);
    assert |out| == used';
    forall i | 0 <= i < used' ensures Slots(ids, values, used')[i] == out[i] {
    }
  }

  lemma LaterSmaller(top: seq<Entry>, e: Entry, p: nat)
    requires InOrder(top) && p <= |top|
    requires forall i | 0 <= i < p :: !Greater(e.bits, top[i].bits)
    requires p < |top| ==> Greater(e.bits, top[p].bits)
    ensures Belongs(top, e, p)
  {
    forall i | p <= i < |top| ensures Greater(e.bits, top[i].bits) {
      if p < i {
        assert Before(top[p], top[i]);
      }
    }
  }

  /** The selection loop of the sampler: the twenty largest logits, in the same order. */
  method SampleTop(logits: seq<nat>) returns (ids: array<nat>, values: array<nat>)
    requires |logits| == LOGIT_WORDS
    ensures ids.Length == values.Length == SAMPLER_TOP
    ensures IsTop(logits, |logits|, SAMPLER_TOP, Slots(ids, values, SAMPLER_TOP))
    ensures AllWords(logits) ==> LargestFirst(logits, 20, Slots(ids, values, SAMPLER_TOP))
  {
    ids := new nat[SAMPLER_TOP](_ => NO_TOKEN);
    values := new nat[SAMPLER_TOP](_ => NEGATIVE_INFINITY);
    ghost var used := 0;
    var token := 0;
    while token < |logits|
      invariant token <= |logits| && used == if token < SAMPLER_TOP then token else SAMPLER_TOP
      invariant Filled(ids, values, used) && IsTop(logits, token, SAMPLER_TOP, Slots(ids, values, used))
      invariant ids.Length == SAMPLER_TOP
    {
      ghost var top := Slots(ids, values, used);
      ghost var p := InsertFromFront(ids, values, Entry(token, logits[token]), used);
      InsertKeepsTop(logits, token, SAMPLER_TOP, top, p);
      used := if used < SAMPLER_TOP then used + 1 else SAMPLER_TOP;
      token := token + 1;
    }
    if AllWords(logits) {
      TopIsLargest(logits, SAMPLER_TOP, Slots(ids, values, SAMPLER_TOP));
    }
  }

  /** `inference_argmax`: the selection of one. */
  method Argmax(logits: seq<nat>) returns (selected: nat)
    requires logits != []
    ensures selected < |logits| && IsTop(logits, |logits|, 1, [Entry(selected, logits[selected])])
    ensures AllWords(logits) ==> LargestFirst(logits, 1, [Entry(selected, logits[selected])])
  {
    selected := 0;
    var best := logits[0];
    var index := 1;
    while index < |logits|
      invariant 1 <= index <= |logits| && selected < index && best == logits[selected]
      invariant forall t | 0 <= t < index && t != selected :: Before(Entry(selected, best), Entry(t, logits[t]))
    {
      if Greater(logits[index], best) {
        best, selected := logits[index], index;
      }
      index := index + 1;
    }
    if AllWords(logits) {
      TopIsLargest(logits, 1, [Entry(selected, logits[selected])]);
    }
  }

  // ---- what the callers check first ----

  /** `validate_sample_logits`. */
  method ValidateLogits(logits: seq<nat>) returns (error: Option<SelectError>)
    ensures if error.None? then ValidLogits(logits) else RefusedFor(logits, error.value)
  {
    if |logits| != LOGIT_WORDS {
      return Some(WrongLength(|logits|));
    }
    for token := 0 to |logits|
      invariant forall i | 0 <= i < token :: Finite(logits[i])
    {
      if !Finite(logits[token]) {
        return Some(NonFinite(token));
      }
    }
    error := None;
  }

  /** `greedy_token`: the largest logit, the lowest token on a tie, and only among finite logits. */
  method GreedyToken(logits: seq<nat>) returns (r: Result<nat, SelectError>)
    ensures match r
            case Ok(selected) =>
              && ValidLogits(logits) && selected < |logits|
              && IsTop(logits, |logits|, 1, [Entry(selected, logits[selected])])
            case Err(error) => RefusedFor(logits, error)
    ensures r.Ok? && AllWords(logits) ==>
      forall t | 0 <= t < |logits| && t != r.value ::
        Real(logits[r.value]) > Real(logits[t]) || (Real(logits[r.value]) == Real(logits[t]) && r.value < t)
  {
    var error := ValidateLogits(logits);
    if error.Some? {
      return Err(error.value);
    }
    var selected := Argmax(logits);
    forall t: nat | AllWords(logits) && t < |logits| && t != selected
      ensures Precedes(Entry(selected, logits[selected]), Entry(t, logits[t]))
    {
      assert !Chosen([Entry(selected, logits[selected])], t);
      assert Precedes([Entry(selected, logits[selected])][0], Entry(t, logits[t]));
    }
    r := Ok(selected);
  }

  /** The three scans agree: the sampler's first eight are the diagnostic's, and its first is the greedy token. */
  lemma SelectionsAgree(logits: seq<nat>, eight: seq<Entry>, twenty: seq<Entry>, greedy: nat)
    requires |logits| == LOGIT_WORDS && greedy < |logits|
    requires IsTop(logits, |logits|, DIAGNOSTIC_TOP, eight) && IsTop(logits, |logits|, SAMPLER_TOP, twenty)
    requires IsTop(logits, |logits|, 1, [Entry(greedy, logits[greedy])])
    ensures eight == twenty[..DIAGNOSTIC_TOP] && twenty[0].token == greedy
  {
    TopPrefix(logits, |logits|, SAMPLER_TOP, twenty, DIAGNOSTIC_TOP);
    IsTopUnique(logits, |logits|, DIAGNOSTIC_TOP, eight, twenty[..DIAGNOSTIC_TOP], DIAGNOSTIC_TOP - 1);
    TopPrefix(logits, |logits|, SAMPLER_TOP, twenty, 1);
    IsTopUnique(logits, |logits|, 1, twenty[..1], [Entry(greedy, logits[greedy])], 0);
  }
}
