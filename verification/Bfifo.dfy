/** The bounded FIFO under wait queues and allocator (kernel/list.c, include/sys/list.h). */
module Bfifo {
  import opened Machine

  class Fifo<T(0)> {
    var head: nat
    var tail: nat
    var free: nat
    const size: nat
    const elems: array<T>

    ghost predicate Valid()
      reads this
    {
      && free <= size == elems.Length
      && (if size == 0 then head == 0 && tail == 0
          else head < size && tail == Slot(size - free))
    }

    /** Where the element i places behind the head lives. */
    function Slot(i: nat): int
      reads this
    {
      if head + i < size then head + i else head + i - size
    }

    /** The elements from oldest to newest. */
    ghost function Contents(): (s: seq<T>)
      requires Valid()
      reads this, elems
      ensures |s| == size - free
    {
      var n := size - free;
      if head + n <= size then elems[head..head + n] else elems[head..] + elems[..head + n - size]
    }

    /** bfifo_alloc, once the memory for it has been found. */
    constructor (nelems: nat)
      ensures Valid() && Contents() == [] && size == nelems && free == nelems && fresh(elems)
    {
      head, tail, free, size := 0, 0, nelems, nelems;
      elems := new T[nelems];
    }

    /** bfifo_queue */
    method Queue(elem: T) returns (rc: int)
      requires Valid()
      modifies this, elems
      ensures Valid()
      ensures rc == if |old(Contents())| < size then 0 else -1
      ensures Contents() == if rc == 0 then old(Contents()) + [elem] else old(Contents())
    {
      if free <= 0 {
        return -1;
      }
      elems[tail] := elem;
      tail := tail + 1;
      if tail >= size {
        tail := 0;
      }
      free := free - 1;
      return 0;
    }

    /** bfifo_dequeue */
    method Dequeue() returns (elem: Option<T>)
      requires Valid()
      modifies this
      ensures Valid()
      ensures if old(Contents()) == [] then elem == None && Contents() == []
              else elem == Some(old(Contents())[0]) && Contents() == old(Contents())[1..]
    {
      if free >= size {
        return None;
      }
      elem := Some(elems[head]);
      head := head + 1;
      if head >= size {
        head := 0;
      }
      free := free + 1;
    }
  }
}
