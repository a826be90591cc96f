// A bump allocator (engine/memory.h). Slots are handed out in index order
// from one lazily allocated array; `Clear` rewinds the counter so the same
// slots are handed out again, without reinitialising them.
module Memory {

  class MemoryPool<T(0)> {
    var counter: nat
    const size: nat
    var data: array?<T>

    ghost predicate Valid()
      reads this
    {
      counter <= size && (data != null ==> data.Length == size)
    }

    /** The slots handed out since the last `Clear`, in the order they were handed out. */
    ghost function Issued(): (r: seq<nat>)
      reads this
      ensures |r| == counter && forall k :: 0 <= k < |r| ==> r[k] == k
    {
      seq(counter, k => k)
    }

    /** A fresh pool has issued nothing and owns no storage yet. */
    constructor (s: nat)
      ensures Valid() && size == s && counter == 0 && data == null
    {
      counter := 0;
      size := s;
      data := null;
    }

    method Prealloc()
      requires Valid()
      modifies this
      ensures Valid() && fresh(data) && data != null
      ensures counter == old(counter)
    {
      data := new T[size];
    }

    /**
     * Hands out the next slot: an index into `data`. The storage is
     * allocated on the first call only. The source asserts that the pool is
     * not exhausted, so after `size` allocations the next one is refused.
     */
    method Alloc() returns (slot: nat)
      requires Valid() && counter < size
      modifies this
      ensures Valid() && data != null && slot < data.Length
      ensures old(data) == null ==> fresh(data)
      ensures old(data) != null ==> data == old(data)
      ensures slot == old(counter) && counter == old(counter) + 1
      ensures slot !in old(Issued()) && Issued() == old(Issued()) + [slot]
    {
      if data == null {
        Prealloc();
      }
      slot := counter;
      counter := counter + 1;
    }

    /** Rewinds the counter; the storage and what it holds are kept. */
    method Clear()
      requires Valid()
      modifies this`counter
      ensures Valid() && counter == 0 && Issued() == []
    {
      counter := 0;
    }
  }
}
