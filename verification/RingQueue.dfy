/** The fixed-size FIFO of container/src/queue.c: a caller's buffer, two cursors and a size. */
module RingQueue {

  /** The `n` elements that start at `head` and wrap around at the end of `buffer`. */
  ghost function Window<T>(buffer: seq<T>, head: nat, n: nat): (w: seq<T>)
    requires head < |buffer| && n <= |buffer|
    ensures |w| == n
    ensures forall k :: 0 <= k < n ==> w[k] == buffer[if head + k < |buffer| then head + k else head + k - |buffer|]
  {
    seq(n, k requires 0 <= k < n => buffer[if head + k < |buffer| then head + k else head + k - |buffer|])
  }

  class Ring<T> {
    const all: array<T>
    var head: nat
    var tail: nat
    var size: nat

    ghost predicate Valid()
      reads this
    {
      && all.Length > 0
      && size <= all.Length && head < all.Length && tail < all.Length
      && tail == (if head + size < all.Length then head + size else head + size - all.Length)
    }

    ghost function Contents(): (s: seq<T>)
      requires Valid()
      reads this, all
    {
      Window(all[..], head, size)
    }

    constructor (buffer: array<T>)
      requires buffer.Length > 0
      ensures Valid() && all == buffer && Contents() == []
    {
      all := buffer;
      head, tail, size := 0, 0, 0;
    }

    function Next(i: nat): nat
      reads this
    {
      if i + 1 >= all.Length then 0 else i + 1
    }

    predicate IsFull()
      reads this
    {
      size == all.Length
    }

    predicate IsEmpty()
      reads this
    {
      size == 0
    }

    method Enqueue(x: T) returns (ok: bool)
      requires Valid()
      modifies this, all
      ensures Valid() && ok == (|old(Contents())| < all.Length)
      ensures Contents() == if ok then old(Contents()) + [x] else old(Contents())
    {
      if IsFull() {
        return false;
      }
      all[tail] := x;
      tail := Next(tail);
      size := size + 1;
      return true;
    }

    method Dequeue() returns (ok: bool, x: seq<T>)
      requires Valid()
      modifies this
      ensures Valid() && ok == (old(Contents()) != [])
      ensures old(Contents()) == x + Contents() && |x| == (if ok then 1 else 0)
    {
      if IsEmpty() {
        return false, [];
      }
      x := [all[head]];
      head := Next(head);
      size := size - 1;
      return true, x;
    }

    /** Visits the elements in FIFO order until the callback returns non-zero. */
    method Traverse(callback: T -> int) returns (rc: int, visited: seq<T>)
      requires Valid()
      ensures visited <= Contents()
      ensures rc == 0 ==> visited == Contents()
      ensures rc != 0 ==> visited != [] && rc == callback(visited[|visited| - 1])
      ensures forall k :: 0 <= k < (if rc == 0 then |visited| else |visited| - 1) ==> callback(visited[k]) == 0
    {
      rc, visited := 0, [];
      var i, idx := 0, head;
      while i < size
        invariant 0 <= i <= size && idx < all.Length
        invariant idx == (if head + i < all.Length then head + i else head + i - all.Length)
        invariant visited == Contents()[..i] && rc == 0
        invariant forall k :: 0 <= k < i ==> callback(visited[k]) == 0
      {
        visited := visited + [all[idx]];
        rc := callback(all[idx]);
        if rc != 0 {
          return;
        }
        i := i + 1;
        idx := Next(idx);
      }
    }
  }
}
