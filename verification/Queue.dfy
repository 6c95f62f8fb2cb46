/** The queue of `queue.c`: it grows by reallocation and shifts on every dequeue. */
module QueueObjects {
  class Queue<T(0)> {
    var data: array?<T>
    /** The index of the last element, -1 if there is none. */
    var capacity: int
    /** What taking from an empty queue yields. */
    const none: T

    constructor (none: T)
      ensures Valid() && Contents() == [] && this.none == none && data == null
    {
      data := null;
      capacity := -1;
      this.none := none;
    }

    ghost predicate Valid()
      reads this
    {
      -1 <= capacity && if data == null then capacity == -1 else capacity < data.Length
    }

    ghost function Contents(): seq<T>
      requires Valid()
      reads this, data
    {
      if data == null then [] else data[..capacity + 1]
    }

    method Enqueue(x: T)
      requires Valid()
      modifies this`data, this`capacity
      ensures Valid() && data != null && fresh(data) && Contents() == old(Contents()) + [x]
    {
      capacity := capacity + 1;
      var bigger := new T[capacity + 1];
      if data != null {
        forall i | 0 <= i < capacity { bigger[i] := data[i]; }
      }
      data := bigger;
      data[capacity] := x;
    }

    method Dequeue() returns (x: T)
      requires Valid()
      modifies this`capacity, data
      ensures Valid() && data == old(data)
      ensures if old(Contents()) == [] then x == none && Contents() == []
        else x == old(Contents())[0] && Contents() == old(Contents())[1..]
    {
      if data == null || capacity == -1 { return none; }
      x := data[0];
      ShiftBack();
      capacity := capacity - 1;
    }

    /** memmove: everything behind the first element moves back one. */
    method ShiftBack()
      requires Valid() && data != null && capacity >= 0
      modifies data
      ensures data[..capacity] == old(data[1..capacity + 1])
    {
      var i := 0;
      while i < capacity
        invariant 0 <= i <= capacity && data != null
        invariant data[..i] == old(data[1..i + 1])
        invariant forall k :: i < k <= capacity ==> data[k] == old(data[k])
      {
        data[i] := data[i + 1];
        i := i + 1;
      }
    }

    method Peek() returns (x: T)
      requires Valid()
      ensures x == if Contents() == [] then none else Contents()[0]
    {
      if data == null || capacity == -1 { return none; }
      x := data[0];
    }
  }
}
