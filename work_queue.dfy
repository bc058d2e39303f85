/** The FIFO queues of the process-pool variant (`manager.Queue()`), run by
    one process at a time: an array holding the items from `head` to `tail`,
    reallocated with twice the room when a `put` finds it full. */
module WorkQueue {

  class Queue<T(0)> {
    var buf: array<T>
    var head: nat
    var tail: nat

    ghost predicate Valid()
      reads this
    {
      head <= tail <= buf.Length
    }

    /** The items waiting in the queue, oldest first. */
    ghost function Contents(): seq<T>
      reads this, buf
      requires Valid()
    {
      buf[head..tail]
    }

    constructor ()
      ensures Valid() && fresh(buf)
      ensures Contents() == []
    {
      buf := new T[8];
      head, tail := 0, 0;
    }

    /** `queue.empty()`. */
    predicate IsEmpty()
      reads this, buf
      requires Valid()
      ensures IsEmpty() <==> Contents() == []
    {
      head == tail
    }

    /** `queue.put(x)`: never blocks, the queue grows as needed. */
    method Put(x: T)
      requires Valid()
      modifies this, buf
      ensures Valid() && (buf == old(buf) || fresh(buf))
      ensures Contents() == old(Contents()) + [x]
    {
      if tail == buf.Length {
        Grow();
      }
      ghost var before := Contents();
      buf[tail] := x;
      tail := tail + 1;
      assert Contents() == before + [x] by {
        assert Contents()[..|before|] == before;
      }
    }

    /** Moving the waiting items to the front of an array with room for more. */
    method Grow()
      requires Valid()
      modifies this
      ensures Valid() && fresh(buf)
      ensures Contents() == old(Contents()) && tail < buf.Length
    {
      var bigger := new T[2 * buf.Length + 1];
      var n := tail - head;
      var j := 0;
      while j < n
        modifies bigger
        invariant 0 <= j <= n
        invariant forall i :: 0 <= i < j ==> bigger[i] == buf[head + i]
      {
        bigger[j] := buf[head + j];
        j := j + 1;
      }
      assert bigger[..n] == buf[head..tail];
      buf, head, tail := bigger, 0, n;
    }

    /** `queue.get()` on a queue that holds an item: the oldest one is removed
        and returned. */
    method Get() returns (x: T)
      requires Valid() && Contents() != []
      modifies this
      ensures Valid() && buf == old(buf)
      ensures x == old(Contents())[0]
      ensures Contents() == old(Contents())[1..]
    {
      x := buf[head];
      head := head + 1;
    }
  }
}
