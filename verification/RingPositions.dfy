/**
 A packed ring addresses its slots with an index and a one-bit wrap counter.
 Both are determined by an unbounded position counting every descriptor ever
 placed in the ring: Slot is the index and Phase the wrap counter's value.
 */
module RingPositions {

  function Slot(size: nat, p: nat): (i: nat)
    requires size > 0
    ensures i < size
  {
    if p < size then p else Slot(size, p - size)
  }

  /** The wrap counter while passing position p; it starts out true. */
  predicate Phase(size: nat, p: nat)
    requires size > 0
  {
    if p < size then true else !Phase(size, p - size)
  }

  lemma {:induction false} StepOne(size: nat, p: nat)
    requires size > 0
    ensures Slot(size, p) + 1 < size ==> Slot(size, p + 1) == Slot(size, p) + 1 && Phase(size, p + 1) == Phase(size, p)
    ensures Slot(size, p) + 1 == size ==> Slot(size, p + 1) == 0 && Phase(size, p + 1) != Phase(size, p)
  {
    if p >= size {
      StepOne(size, p - size);
    }
  }

  /** Advancing by a whole chain wraps at most once, as the device's cursor arithmetic assumes. */
  lemma {:induction false} StepMany(size: nat, p: nat, n: nat)
    requires size > 0 && n <= size
    ensures Slot(size, p) + n < size ==> Slot(size, p + n) == Slot(size, p) + n && Phase(size, p + n) == Phase(size, p)
    ensures Slot(size, p) + n >= size ==>
              Slot(size, p + n) == Slot(size, p) + n - size && Phase(size, p + n) != Phase(size, p)
  {
    if n > 0 {
      StepMany(size, p, n - 1);
      StepOne(size, p + n - 1);
    }
  }

  /** Two positions less than a lap apart never share a slot. */
  lemma {:induction false} DistinctSlots(size: nat, p: nat, q: nat)
    requires size > 0 && p < q < p + size
    ensures Slot(size, p) != Slot(size, q)
  {
    StepMany(size, p, q - p);
  }

  /** One lap later the slot is the same and the wrap counter has flipped. */
  lemma NextLap(size: nat, p: nat)
    requires size > 0
    ensures Slot(size, p + size) == Slot(size, p) && Phase(size, p + size) != Phase(size, p)
  {
  }
}
