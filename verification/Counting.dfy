/** How many elements sets and sequences of numbers have. */
module Counting {
  function Elements(q: seq<nat>): set<nat> {
    set k | 0 <= k < |q| :: q[k]
  }

  function Below(n: nat): (all: set<nat>)
    ensures (forall k: nat :: k in all <==> k < n) && |all| == n
  {
    if n == 0 then {} else Below(n - 1) + {n - 1}
  }

  lemma {:induction false} SubsetCount(a: set<nat>, b: set<nat>)
    requires a <= b
    ensures |a| <= |b|
  {
    if a != {} {
      var x :| x in a;
      SubsetCount(a - {x}, b - {x});
    }
  }

  lemma {:induction false} ElementsCount(q: seq<nat>)
    ensures |Elements(q)| <= |q|
  {
    if q != [] {
      var last := |q| - 1;
      ElementsCount(q[..last]);
      assert Elements(q) <= Elements(q[..last]) + {q[last]} by {
        forall k | 0 <= k < |q| ensures q[k] in Elements(q[..last]) + {q[last]} {
          assert k < last ==> q[..last][k] in Elements(q[..last]);
        }
      }
      SubsetCount(Elements(q), Elements(q[..last]) + {q[last]});
    }
  }

  lemma {:induction false} DistinctCount(q: seq<nat>, all: set<nat>)
    requires forall j, k | 0 <= j < k < |q| :: q[j] != q[k]
    requires forall k | 0 <= k < |q| :: q[k] in all
    ensures |q| <= |all|
  {
    if q != [] {
      DistinctCount(q[..|q| - 1], all - {q[|q| - 1]});
    }
  }

  /** Removing the elements of a sequence removes no more than its length. */
  lemma WithoutCount(n: nat, q: seq<nat>)
    ensures |Below(n) - Elements(q)| >= n - |q|
  {
    ElementsCount(q);
    SubsetCount(Below(n), (Below(n) - Elements(q)) + Elements(q));
  }
}
