/** The growable array of `array.c`. */
module DynArray {
  const ULONG_MAX: nat := 0xffff_ffff_ffff_ffff

  class Array<T(0)> {
    var items: array?<T>
    var len: nat
    var capacity: nat

    constructor ()
      ensures Valid() && capacity > 0 && Contents() == [] && items == null
    {
      items := null;
      len := 0;
      capacity := 1;
    }

    ghost predicate Valid()
      reads this
    {
      len <= capacity && if items == null then len == 0 else items.Length == capacity
    }

    ghost function Contents(): seq<T>
      requires Valid()
      reads this, items
    {
      if items == null then [] else items[..len]
    }

    method Resize(size: nat)
      requires Valid() && len <= size
      modifies this`items, this`capacity
      ensures Valid() && capacity == size && items != null && fresh(items) && Contents() == old(Contents())
    {
      var bigger := new T[size];
      if items != null {
        forall i | 0 <= i < len { bigger[i] := items[i]; }
      }
      items := bigger;
      capacity := size;
    }

    /** array_insert: the capacity doubles when one slot or less is left. The slots left are counted in
        unsigned longs, so that a capacity of 0, which shrinking an empty array makes, does not double,
        and the element is written outside the array. */
    method Insert(elem: T) returns (outside: bool)
      requires Valid()
      modifies this, items
      ensures Valid() && items != null && (items == old(items) || fresh(items))
      ensures outside <==> old(capacity) == 0
      ensures Contents() == if outside then old(Contents()) else old(Contents()) + [elem]
      ensures capacity == 0 <==> outside
    {
      if items == null { Resize(capacity); }
      var left := if capacity == 0 then ULONG_MAX else capacity - 1;
      if len >= left { Resize(capacity * 2); }
      if len >= items.Length { return true; }
      items[len] := elem;
      len := len + 1;
      outside := false;
    }

    method ShrinkToFit()
      requires Valid()
      modifies this`items, this`capacity
      ensures Valid() && capacity == len && items != null && fresh(items) && Contents() == old(Contents())
    {
      Resize(len);
    }
  }
}
