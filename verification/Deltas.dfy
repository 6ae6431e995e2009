/** Stored H-1 deltas: int64(current) - int64(previous), in wrapping 64-bit arithmetic. */
module Deltas {
  import opened Integers

  /** int64(current) - int64(previous) as Go computes it. */
  function Delta(current: nat, previous: nat): int64 {
    Signed64(Signed64(current) - Signed64(previous))
  }

  /** The deltas stored in the heights after a, up to height; a height that stores none counts as zero. */
  function StoredSum(stored: nat -> int, a: nat, height: nat): int
    requires a <= height
    decreases height - a
  {
    if a == height then 0 else StoredSum(stored, a, height - 1) + stored(height)
  }

  ghost predicate StoresDelta(value: nat -> nat, stored: nat -> int, h: nat)
    requires h >= 1
  {
    stored(h) == Delta(value(h), value(h - 1)) || (stored(h) == 0 && value(h) == value(h - 1))
  }

  /** A delta is the difference modulo 2^64, and the difference itself when both values are below 2^63. */
  lemma DeltaIsDifference(current: nat, previous: nat)
    ensures (Delta(current, previous) - (current - previous)) % TWO64 == 0
    ensures current < TWO63 && previous < TWO63 ==> Delta(current, previous) == current - previous
  {
    Signed64Exact(current);
    Signed64Exact(previous);
    Signed64Exact(Signed64(current) - Signed64(previous));
    var a, b := Signed64(current) - current, Signed64(previous) - previous;
    var c := Delta(current, previous) - (Signed64(current) - Signed64(previous));
    SumOfMultiples(c, a);
    SumOfMultiples(c + a, -b);
    NegatedMultiple(b);
  }

  lemma SumOfMultiples(x: int, y: int)
    ensures x % TWO64 == 0 && y % TWO64 == 0 ==> (x + y) % TWO64 == 0
  {
  }

  lemma NegatedMultiple(x: int)
    ensures x % TWO64 == 0 ==> (-x) % TWO64 == 0
  {
  }

  /** The deltas stored in (a, height] add up to the change since a, modulo 2^64, and exactly when every value fits int64. */
  ghost predicate Telescopes(value: nat -> nat, stored: nat -> int, a: nat, height: nat)
    requires a <= height
  {
    && (StoredSum(stored, a, height) - (value(height) - value(a))) % TWO64 == 0
    && ((forall h :: a <= h <= height ==> value(h) < TWO63) ==> StoredSum(stored, a, height) == value(height) - value(a))
  }

  /** Omitted rows lose nothing: the stored deltas telescope. */
  lemma {:induction false} DeltasTelescope(value: nat -> nat, stored: nat -> int, a: nat, height: nat)
    requires a <= height
    requires forall h :: a < h <= height ==> StoresDelta(value, stored, h)
    ensures Telescopes(value, stored, a, height)
    decreases height - a
  {
    if a < height {
      DeltasTelescope(value, stored, a, height - 1);
      DeltaIsDifference(value(height), value(height - 1));
      SumOfMultiples(StoredSum(stored, a, height - 1) - (value(height - 1) - value(a)),
                     stored(height) - (value(height) - value(height - 1)));
      assert StoresDelta(value, stored, height);
    }
  }
}
