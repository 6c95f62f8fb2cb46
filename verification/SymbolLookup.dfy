/** The symbol index as the loops that build and search it. */
module SymbolLookup {
  import opened Uleb
  import opened FunctionStarts
  import opened DynArray
  import opened StartsReading
  import opened SymbolIndex
  import opened Symbolication

  /** bsearch_lc. */
  method Bsearch(keys: seq<nat>, key: nat, lo: nat, hi: nat) returns (r: int)
    requires lo <= hi < |keys|
    ensures r == FloorSearch(keys, key, lo, hi)
    ensures Sorted(keys) ==> IsFloor(keys, key, lo, hi, r)
    decreases hi - lo
  {
    if Sorted(keys) { FloorSearchIsFloor(keys, key, lo, hi); }
    if lo == hi { return if keys[lo] > key then -1 else lo; }
    if hi - 1 == lo {
      if key >= keys[hi] { return hi; }
      else if key >= keys[lo] { return lo; }
      return -1;
    }
    var mid := (lo + hi) / 2;
    if key < keys[mid] { r := Bsearch(keys, key, lo, mid - 1); }
    else { r := Bsearch(keys, key, mid, hi); }
  }

  /** The symbol-adding loop of create_sym_entry_for_image. */
  method BuildIndex(b: Binary) returns (image: Image)
    requires b.Valid()
    ensures image == IndexOf(b)
  {
    hide ReadStarts, AllDecodable;
    StartsAreTable(b.groups, b.text);
    var entries := ReadFxnStarts(Concat(b.groups), b.text);
    ghost var table := ReadStarts(Concat(b.groups), b.text);
    var starts: seq<nat> := [];
    var i := 0;
    while i < entries.len
      invariant i <= entries.len == |table| && |starts| == i
      invariant forall k :: 0 <= k < i ==> starts[k] == table[k].vmaddr
    {
      var e := entries.items[i];
      assert e == entries.Contents()[i];
      starts := starts + [e.vmaddr];
      i := i + 1;
    }
    image := Image(b.text.Load(), starts);
    assert starts == EntryStarts(table);
  }

  /** The loop over the images: one candidate each at most. */
  method GoodCombos(images: seq<Image>, vmaddr: nat) returns (combos: seq<Combo>)
    ensures combos == Combos(images, 0, vmaddr)
  {
    hide BestOf;
    combos := [];
    var k := 0;
    while k < |images|
      invariant k <= |images| && combos + Combos(images, k, vmaddr) == Combos(images, 0, vmaddr)
      decreases |images| - k
    {
      ghost var before := combos;
      var best := BestOfImage(images[k], k, vmaddr);
      combos := combos + best;
      assert before + (best + Combos(images, k + 1, vmaddr)) == combos + Combos(images, k + 1, vmaddr);
      k := k + 1;
    }
  }

  method BestOfImage(image: Image, k: nat, vmaddr: nat) returns (best: seq<Combo>)
    ensures best == BestOf(image, k, vmaddr)
  {
    hide FloorSearch;
    if |image.starts| == 0 || vmaddr < image.load { return []; }
    if |image.starts| == 1 { return [Combo(k, image.starts[0])]; }
    var i := Bsearch(image.starts, vmaddr, 0, |image.starts| - 1);
    FloorSearchInRange(image.starts, vmaddr, 0, |image.starts| - 1);
    if i != -1 { return [Combo(k, image.starts[i])]; }
    return [];
  }

  lemma {:induction false} FloorSearchInRange(keys: seq<nat>, key: nat, lo: nat, hi: nat)
    requires lo <= hi < |keys|
    ensures var r := FloorSearch(keys, key, lo, hi); r == -1 || lo <= r <= hi
    decreases hi - lo
  {
    if hi - lo >= 2 {
      FloorSearchInRange(keys, key, lo, (lo + hi) / 2 - 1);
      FloorSearchInRange(keys, key, (lo + hi) / 2, hi);
    }
  }

  /** The choice among the candidates as qsort left them. */
  method BestCombo(sorted: seq<Combo>, vmaddr: nat) returns (found: Found)
    ensures found == Pick(sorted, vmaddr)
  {
    if |sorted| == 0 { return NoSymbol; }
    var i := Bsearch(StartsOf(sorted), vmaddr, 0, |sorted| - 1);
    FloorSearchInRange(StartsOf(sorted), vmaddr, 0, |sorted| - 1);
    if i == -1 { return OutOfBounds; }
    found := At(sorted[i], U64(vmaddr - sorted[i].start) % 0x1_0000_0000);
  }
}
