/** The ring of ck_ring.h as an object, used by one thread at a time, and the loop with which
    eg_cklog_create fills the free ring. */
module RingObject {
  import opened Bits

  class Ring {
    var cHead: nat
    var pTail: nat
    var pHead: nat
    const size: nat
    const buffer: array<nat>

    ghost predicate Valid()
      reads this
    {
      && IsPow2(size) && buffer.Length == size
      && cHead <= pTail == pHead < cHead + size
    }

    function Slot(k: nat): (i: nat)
      requires IsPow2(size)
      ensures i < size
    {
      SlotIsRemainder(k);
      And(k, size - 1)
    }

    lemma SlotIsRemainder(k: nat)
      requires IsPow2(size)
      ensures And(k, size - 1) == k % size < size
    {
      var e: nat :| size == Pow2(e);
      AndMask(k, e);
    }

    /** The queued values, oldest first. */
    ghost function Contents(): seq<nat>
      requires Valid()
      reads this, buffer
    {
      seq(pTail - cHead, i requires 0 <= i && Valid() reads this, buffer => buffer[Slot(cHead + i)])
    }

    constructor (capacity: nat)
      requires IsPow2(capacity)
      ensures Valid() && fresh(buffer) && size == capacity && cHead == 0 && Contents() == []
    {
      size := capacity;
      buffer := new nat[capacity];
      cHead, pTail, pHead := 0, 0, 0;
    }

    /** `_ck_ring_enqueue_mp` with nobody in the way. */
    method Enqueue(entry: nat) returns (r: bool)
      requires Valid()
      modifies this, buffer
      ensures Valid() && cHead == old(cHead)
      ensures r == (|old(Contents())| < size - 1)
      ensures Contents() == if r then old(Contents()) + [entry] else old(Contents())
    {
      var producer := pHead;
      var consumer := cHead;
      if producer - consumer < size - 1 {
        pHead := producer + 1;
        buffer[Slot(producer)] := entry;
        pTail := producer + 1;
        r := true;
        forall k: nat | consumer <= k < producer ensures Slot(k) != Slot(producer) {
          SlotsDiffer(k, producer);
        }
        assert Contents() == old(Contents()) + [entry];
      } else {
        r := false;
      }
    }

    lemma SlotsDiffer(j: nat, k: nat)
      requires IsPow2(size) && j < k < j + size
      ensures Slot(j) != Slot(k)
    {
      SlotIsRemainder(j);
      SlotIsRemainder(k);
      ModsDiffer(j, k, size);
    }

    /** `_ck_ring_dequeue_mc` with nobody in the way. */
    method Dequeue() returns (r: bool, data: nat)
      requires Valid()
      modifies this`cHead
      ensures Valid()
      ensures r == (old(Contents()) != [])
      ensures r ==> data == old(Contents())[0] && Contents() == old(Contents())[1..]
      ensures !r ==> Contents() == old(Contents())
    {
      data := 0;
      var consumer := cHead;
      if consumer == pTail {
        return false, 0;
      }
      data := buffer[Slot(consumer)];
      cHead := consumer + 1;
      r := true;
      assert Contents() == old(Contents())[1..];
    }
  }

  ghost function Upto(n: nat): seq<nat> {
    seq(n, i requires 0 <= i => i)
  }

  /** The free ring of a new log: N enqueues into a ring of N slots. The last one fails. */
  method CreateFreeRing(queueCapacity: nat) returns (free: Ring)
    requires IsPow2(queueCapacity)
    ensures fresh(free) && fresh(free.buffer) && free.Valid() && free.size == queueCapacity
    ensures free.cHead == 0 && free.pTail == queueCapacity - 1
    ensures free.Contents() == Upto(queueCapacity - 1)
  {
    free := new Ring(queueCapacity);
    for i := 0 to queueCapacity
      invariant fresh(free) && fresh(free.buffer) && free.Valid() && free.size == queueCapacity && free.cHead == 0
      invariant free.Contents() == Upto(if i < queueCapacity then i else queueCapacity - 1)
    {
      var rv := free.Enqueue(i);
    }
  }
}
