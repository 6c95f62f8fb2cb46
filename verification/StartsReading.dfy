/** `read_lc_fxn_starts` as the pointer loop over an array of entry objects that it is. */
module StartsReading {
  import opened Uleb
  import opened FunctionStarts
  import opened DynArray

  class FxnStart {
    var vmaddr: nat
    var len: int

    constructor (vmaddr: nat)
      ensures this.vmaddr == vmaddr && len == 0
    {
      this.vmaddr := vmaddr;
      len := 0;
    }
  }

  /** The objects are distinct and hold the entries. */
  ghost predicate Holds(objects: seq<FxnStart?>, entries: seq<Entry>)
    reads objects
  {
    && |objects| == |entries|
    && (forall i :: 0 <= i < |objects| ==> objects[i] != null && objects[i].vmaddr == entries[i].vmaddr && objects[i].len == entries[i].len)
    && (forall i, j :: 0 <= i < j < |objects| ==> objects[i] != objects[j])
  }

  /** The previous entry learns its length when the next delta is known. */
  method PatchLastEntry(starts: Array<FxnStart?>, len: nat, ghost entries: seq<Entry>)
    requires starts.Valid() && Holds(starts.Contents(), entries)
    modifies starts.Contents()
    ensures Holds(starts.Contents(), PatchLast(entries, len))
  {
    if starts.len > 0 {
      var last := starts.items[starts.len - 1];
      assert last == starts.Contents()[|entries| - 1];
      last.len := Int32(len);
    }
  }

  method AddEntry(starts: Array<FxnStart?>, vmaddr: nat, ghost entries: seq<Entry>)
    requires starts.Valid() && starts.capacity > 0 && Holds(starts.Contents(), entries)
    modifies starts, starts.items
    ensures starts.Valid() && starts.capacity > 0 && Holds(starts.Contents(), entries + [Entry(vmaddr, 0)])
    ensures starts.items == old(starts.items) || fresh(starts.items)
    ensures starts.Contents() != [] && starts.Contents()[..|starts.Contents()| - 1] == old(starts.Contents()) && fresh(starts.Contents()[|starts.Contents()| - 1])
  {
    ghost var objects := starts.Contents();
    var e := new FxnStart(vmaddr);
    assert e !in objects;
    var outside := starts.Insert(e);
    HoldsMore(objects, entries, e);
  }

  method AddStart(starts: Array<FxnStart?>, delta: nat, vmaddr: nat, ghost entries: seq<Entry>)
    requires starts.Valid() && starts.capacity > 0 && Holds(starts.Contents(), entries)
    modifies starts, starts.items, starts.Contents()
    ensures starts.Valid() && starts.capacity > 0 && Holds(starts.Contents(), PatchLast(entries, delta) + [Entry(vmaddr, 0)])
    ensures starts.items == old(starts.items) || fresh(starts.items)
    ensures forall i :: 0 <= i < |starts.Contents()| ==> starts.Contents()[i] in old(starts.Contents()) || fresh(starts.Contents()[i])
  {
    hide PatchLast;
    PatchLastEntry(starts, delta, entries);
    AddEntry(starts, vmaddr, PatchLast(entries, delta));
  }

  lemma HoldsMore(objects: seq<FxnStart?>, entries: seq<Entry>, e: FxnStart)
    requires Holds(objects, entries) && e !in objects
    ensures Holds(objects + [e], entries + [Entry(e.vmaddr, e.len)])
  {
  }

  lemma ReadStep(data: seq<Byte>, p: nat, r: Reader, slide: nat)
    requires AllDecodable(data, p) && p < |data|
    ensures Decodable(data, p, 0) && AllDecodable(data, Decode(data, p).next) && p < Decode(data, p).next
    ensures var d := Decode(data, p); ReadFrom(data, p, r, slide) == ReadFrom(data, d.next, Take(r, d.val, slide), slide)
  {
    hide Take;
  }

  lemma ReadEnds(data: seq<Byte>, p: nat, r: Reader, slide: nat)
    requires AllDecodable(data, p) && p >= |data|
    ensures ReadFrom(data, p, r, slide) == r
  {
  }

  lemma TakeIs(r: Reader, delta: nat, slide: nat)
    ensures Take(r, delta, slide) == if delta == 0 then r
      else Reader(U64(r.total + delta), U64(r.next + delta), PatchLast(r.entries, delta) + [Entry(U64(U64(r.next + delta) + slide), 0)])
  {
    hide U64, PatchLast;
  }

  /** Everything the table consists of. */
  ghost function Parts(starts: Array<FxnStart?>): set<object?>
    requires starts.Valid()
    reads starts, starts.items
  {
    {starts, starts.items} + set x | x in starts.Contents()
  }

  /** One round of the loop: a delta of 0 is padding. */
  method TakeDelta(starts: Array<FxnStart?>, total: nat, next: nat, delta: nat, slide: nat, ghost r: Reader)
    returns (total': nat, next': nat)
    requires starts.Valid() && starts.capacity > 0 && Holds(starts.Contents(), r.entries) && total == r.total && next == r.next
    modifies Parts(starts)
    ensures starts.Valid() && starts.capacity > 0
    ensures var t := Take(r, delta, slide); Holds(starts.Contents(), t.entries) && total' == t.total && next' == t.next
    ensures forall o :: o in Parts(starts) && o != null ==> o in old(Parts(starts)) || fresh(o)
  {
    hide U64, PatchLast, Take, Holds, Int32;
    TakeIs(r, delta, slide);
    total', next' := total, next;
    if delta != 0 {
      total' := U64(total + delta);
      next' := U64(next + delta);
      AddStart(starts, delta, U64(next' + slide), r.entries);
    }
  }

  /** The length of the last entry, and the memory left over. */
  method FinishTable(starts: Array<FxnStart?>, len: nat, ghost entries: seq<Entry>)
    requires starts.Valid() && starts.capacity > 0 && Holds(starts.Contents(), entries)
    modifies Parts(starts)
    ensures starts.Valid() && Holds(starts.Contents(), PatchLast(entries, len))
  {
    hide Holds, PatchLast;
    PatchLastEntry(starts, len, entries);
    starts.ShrinkToFit();
  }

  /** What is left to read from `p` on comes to the whole. */
  ghost predicate Reading(data: seq<Byte>, p: nat, r: Reader, text: Text) {
    && AllDecodable(data, 0) && AllDecodable(data, p)
    && ReadFrom(data, p, r, text.slide) == ReadFrom(data, 0, Reader(0, text.vmaddr, []), text.slide)
  }

  lemma ReadingStarts(data: seq<Byte>, text: Text)
    requires AllDecodable(data, 0)
    ensures Reading(data, 0, Reader(0, text.vmaddr, []), text)
  {
  }

  lemma ReadingStep(data: seq<Byte>, p: nat, r: Reader, text: Text)
    requires Reading(data, p, r, text) && p < |data|
    ensures Decodable(data, p, 0) && p < Decode(data, p).next && Reading(data, Decode(data, p).next, Take(r, Decode(data, p).val, text.slide), text)
  {
    hide Decode, Take;
    ReadStep(data, p, r, text.slide);
  }

  lemma ReadingEnds(data: seq<Byte>, p: nat, r: Reader, text: Text)
    requires Reading(data, p, r, text) && p >= |data|
    ensures r == ReadFrom(data, 0, Reader(0, text.vmaddr, []), text.slide)
  {
    ReadEnds(data, p, r, text.slide);
  }

  /** The loop over the groups. */
  method ReadGroups(data: seq<Byte>, text: Text, starts: Array<FxnStart?>) returns (total: nat, ghost r: Reader)
    requires AllDecodable(data, 0) && starts.Valid() && starts.capacity > 0 && Holds(starts.Contents(), [])
    modifies Parts(starts)
    ensures starts.Valid() && starts.capacity > 0 && Holds(starts.Contents(), r.entries)
    ensures r == ReadFrom(data, 0, Reader(0, text.vmaddr, []), text.slide) && total == r.total
    ensures forall o :: o in Parts(starts) && o != null ==> o in old(Parts(starts)) || fresh(o)
  {
    var next := text.vmaddr;
    total, r := 0, Reader(0, text.vmaddr, []);
    ReadingStarts(data, text);
    hide Decode, Decodable, Take, Holds, Parts, Reading, ReadFrom, AllDecodable, Array.Valid, Array.Contents;
    var p := 0;
    while p < |data|
      invariant Reading(data, p, r, text) && total == r.total && next == r.next
      invariant starts.Valid() && starts.capacity > 0 && Holds(starts.Contents(), r.entries)
      invariant forall o :: o in Parts(starts) && o != null ==> o in old(Parts(starts)) || fresh(o)
      decreases |data| - p
    {
      ReadingStep(data, p, r, text);
      var delta, q, _ := DecodeUleb(data, p);
      total, next := TakeDelta(starts, total, next, delta, text.slide, r);
      p, r := q, Take(r, delta, text.slide);
    }
    ReadingEnds(data, p, r, text);
  }

  method ReadInto(data: seq<Byte>, text: Text, starts: Array<FxnStart?>)
    requires AllDecodable(data, 0) && starts.Valid() && starts.capacity > 0 && Holds(starts.Contents(), [])
    modifies Parts(starts)
    ensures starts.Valid() && Holds(starts.Contents(), ReadStarts(data, text))
  {
    hide ReadFrom, AllDecodable, Holds, Parts, PatchLast, U64, Array.Contents;
    var total;
    ghost var r;
    total, r := ReadGroups(data, text, starts);
    FinishTable(starts, U64(text.vmsize - total), r.entries);
  }

  method ReadFxnStarts(data: seq<Byte>, text: Text) returns (starts: Array<FxnStart?>)
    requires AllDecodable(data, 0) && text.Valid()
    ensures fresh(starts) && starts.Valid() && Holds(starts.Contents(), ReadStarts(data, text))
  {
    hide AllDecodable, ReadStarts;
    starts := new Array<FxnStart?>();
    ReadInto(data, text, starts);
  }
}
