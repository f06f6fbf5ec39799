/** The bounded queue behind both event-loop queues and the event stream to the client. */
module BlockingQueue {
  import opened Wrappers

  function Reversed<T>(s: seq<T>): seq<T> {
    if s == [] then [] else Reversed(s[1..]) + [s[0]]
  }

  lemma {:induction false} ReversedAppend<T>(s: seq<T>, x: T)
    ensures Reversed(s + [x]) == [x] + Reversed(s)
  {
    if s == [] {
      assert (s + [x])[1..] == [];
    } else {
      assert (s + [x])[1..] == s[1..] + [x];
      ReversedAppend(s[1..], x);
    }
  }

  /** Values enter at the front of the deque and leave at its back. */
  class Queue<T> {
    var deque: seq<T>
    var maxSize: nat // 0 means unbounded

    /** The waiting values, oldest first. */
    ghost function Waiting(): seq<T>
      reads this
    {
      Reversed(deque)
    }

    /** The condition a pusher waits for. */
    predicate HasRoom()
      reads this
    {
      maxSize == 0 || |deque| < maxSize
    }

    constructor (maxSize: nat := 0)
      ensures this.maxSize == maxSize && Waiting() == []
    {
      this.maxSize := maxSize;
      deque := [];
    }

    method Push(value: T)
      requires HasRoom()
      modifies this
      ensures Waiting() == old(Waiting()) + [value] && maxSize == old(maxSize)
      ensures maxSize != 0 ==> |deque| <= maxSize
    {
      deque := [value] + deque;
    }

    /** Takes the oldest value, or reports that there is none. */
    method Poll() returns (r: Option<T>)
      modifies this
      ensures maxSize == old(maxSize)
      ensures old(Waiting()) == [] ==> r == None && Waiting() == []
      ensures old(Waiting()) != [] ==> r == Some(old(Waiting())[0]) && Waiting() == old(Waiting())[1..]
    {
      if deque == [] {
        return None;
      }
      ghost var rest := deque[..|deque| - 1];
      r := Some(deque[|deque| - 1]);
      ReversedAppend(rest, r.value);
      assert deque == rest + [r.value];
      deque := deque[..|deque| - 1];
    }

    method SetMaxSize(newSize: nat)
      modifies this
      ensures maxSize == newSize && Waiting() == old(Waiting())
    {
      maxSize := newSize;
    }
  }
}
