/**
 The meaning of a host variable's packed lock word: which buffer is readable, and a
 lock count for each of the fifteen slots (src/host_variable.c:35-45).
 */
module LockRecord {
  import opened Basics

  const SLOTS: nat := 15
  const WRITER: nat := 15      // the count 0xF marks a write lock

  datatype Locks = Locks(target: nat, count: seq<nat>) {

    /** Representable in the packed word. */
    predicate Fits() {
      target < SLOTS && |count| == SLOTS && forall i :: 0 <= i < SLOTS ==> count[i] <= WRITER
    }

    predicate Free(i: nat)
      requires |count| == SLOTS
    {
      i < SLOTS && count[i] == 0 && i != target
    }

    function WithCount(i: nat, c: nat): Locks
      requires i < |count|
    {
      this.(count := count[i := c])
    }
  }

  /** The lowest free slot at or above `from`. */
  function LowestFree(l: Locks, from: nat): (r: Option<nat>)
    requires |l.count| == SLOTS && from <= SLOTS
    ensures r.Some? ==> from <= r.value && l.Free(r.value) && forall i :: from <= i < r.value ==> !l.Free(i)
    ensures r.None? ==> forall i :: from <= i ==> !l.Free(i)
    decreases SLOTS - from
  {
    if from == SLOTS then None
    else if l.Free(from) then Some(from)
    else LowestFree(l, from + 1)
  }

  function FreeSlot(l: Locks): Option<nat>
    requires |l.count| == SLOTS
  {
    LowestFree(l, 0)
  }

  /** The word a freshly created variable with n buffers starts from. */
  function InitialLocks(n: nat): Locks
    requires n <= SLOTS
  {
    Locks(0, seq(SLOTS, i => if i < n then 0 else WRITER))
  }
}
