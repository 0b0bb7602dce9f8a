/** How one job's rows are divided among the slots of a dispatch. */
module Rows {

  /** First row of `slot`; the end of a slot's share is the first row of the next one. */
  function FirstRow(rows: nat, workers: nat, slot: nat): nat
    requires workers > 0
  {
    rows * slot / workers
  }

  lemma ProductMonotone(d: nat, a: nat, b: nat)
    requires a <= b
    ensures d * a <= d * b
  {
  }

  lemma QuotientAtLeast(y: nat, d: nat, q: nat)
    requires d > 0 && q * d <= y
    ensures q <= y / d
  {
    if q >= y / d + 1 {
      ProductMonotone(d, y / d + 1, q);
    }
  }

  lemma FirstRowMonotone(rows: nat, workers: nat, a: nat, b: nat)
    requires workers > 0 && a <= b
    ensures FirstRow(rows, workers, a) <= FirstRow(rows, workers, b)
  {
    ProductMonotone(rows, a, b);
    QuotientAtLeast(rows * b, workers, rows * a / workers);
  }

  lemma FirstRowEnds(rows: nat, workers: nat)
    requires workers > 0
    ensures FirstRow(rows, workers, 0) == 0
    ensures FirstRow(rows, workers, 1) == rows / workers
    ensures FirstRow(rows, workers, workers) == rows
  {
    assert 0 / workers == 0;
    ExactQuotient(rows, workers);
  }

  lemma ExactQuotient(q: nat, d: nat)
    requires d > 0
    ensures q * d / d == q
  {
    QuotientAtLeast(q * d, d, q);
    if q * d / d >= q + 1 {
      ProductMonotone(d, q + 1, q * d / d);
    }
  }

  predicate InShare(rows: nat, workers: nat, slot: nat, row: nat)
    requires workers > 0
  {
    FirstRow(rows, workers, slot) <= row < FirstRow(rows, workers, slot + 1)
  }

  lemma {:induction false} FindOwner(rows: nat, workers: nat, n: nat, row: nat) returns (slot: nat)
    requires workers > 0 && FirstRow(rows, workers, 0) <= row < FirstRow(rows, workers, n)
    ensures slot < n && InShare(rows, workers, slot, row)
  {
    if FirstRow(rows, workers, n - 1) <= row {
      slot := n - 1;
    } else {
      slot := FindOwner(rows, workers, n - 1, row);
    }
  }

  lemma OwnerUnique(rows: nat, workers: nat, row: nat, a: nat, b: nat)
    requires workers > 0 && InShare(rows, workers, a, row) && InShare(rows, workers, b, row)
    ensures a == b
  {
    if a < b {
      FirstRowMonotone(rows, workers, a + 1, b);
    } else if b < a {
      FirstRowMonotone(rows, workers, b + 1, a);
    }
  }

  /** Every row of a job belongs to exactly one slot. */
  lemma SharesPartition(rows: nat, workers: nat, row: nat)
    requires workers > 0 && row < rows
    ensures exists slot: nat :: slot < workers && InShare(rows, workers, slot, row)
    ensures forall a: nat, b: nat ::
      InShare(rows, workers, a, row) && InShare(rows, workers, b, row) ==> a == b
  {
    FirstRowEnds(rows, workers);
    var slot := FindOwner(rows, workers, workers, row);
    forall a: nat, b: nat | InShare(rows, workers, a, row) && InShare(rows, workers, b, row)
      ensures a == b
    {
      OwnerUnique(rows, workers, row, a, b);
    }
  }
}
