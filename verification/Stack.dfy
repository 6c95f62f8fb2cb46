/** The growable stack of `stack.c`. */
module StackObjects {
  class Stack<T(0)> {
    var data: array?<T>
    var top: int
    /** What popping or peeking an empty stack yields. */
    const err: T

    constructor (err: T)
      ensures Valid() && Contents() == [] && this.err == err
    {
      data := null;
      top := -1;
      this.err := err;
    }

    ghost predicate Valid()
      reads this
    {
      -1 <= top && if data == null then top == -1 else top < data.Length
    }

    ghost function Contents(): seq<T>
      reads this, data
    {
      if data == null || !Valid() then [] else data[..top + 1]
    }

    predicate Empty()
      requires Valid()
      reads this, data
      ensures Empty() <==> Contents() == []
    {
      data == null || top == -1
    }

    /** Each push reallocates to exactly one more slot than is in use. */
    method Push(x: T)
      requires Valid()
      modifies this`data, this`top
      ensures Valid() && data != null && fresh(data) && Contents() == old(Contents()) + [x]
    {
      top := top + 1;
      var bigger := new T[top + 1];
      if data != null {
        forall i | 0 <= i < top { bigger[i] := data[i]; }
      }
      data := bigger;
      data[top] := x;
    }

    method Pop() returns (x: T)
      requires Valid()
      modifies this`top
      ensures Valid() && data == old(data)
      ensures if old(Contents()) == [] then x == err && Contents() == []
        else x == old(Contents())[|old(Contents())| - 1] && Contents() == old(Contents())[..|old(Contents())| - 1]
    {
      if Empty() { return err; }
      x := data[top];
      top := top - 1;
    }

    method Peek() returns (x: T)
      requires Valid()
      ensures if Contents() == [] then x == err else x == Contents()[|Contents()| - 1]
    {
      if Empty() { return err; }
      x := data[top];
    }
  }
}
