/** The two-level search for the function an address lies in (`dbgsymbol.c`). */
module SymbolIndex {
  import opened FunctionStarts

  // ----- floor search

  /** bsearch_lc over the starts `keys[lo..hi]`, bounds included. */
  function FloorSearch(keys: seq<nat>, key: nat, lo: nat, hi: nat): int
    requires lo <= hi < |keys|
    decreases hi - lo
  {
    if lo == hi then if keys[lo] > key then -1 else lo
    else if hi - 1 == lo then if key >= keys[hi] then hi else if key >= keys[lo] then lo else -1
    else
      var mid := (lo + hi) / 2;
      if key < keys[mid] then FloorSearch(keys, key, lo, mid - 1) else FloorSearch(keys, key, mid, hi)
  }

  predicate Sorted(keys: seq<nat>) {
    forall i, j :: 0 <= i < j < |keys| ==> keys[i] <= keys[j]
  }

  /** `r` is the last index in range whose key is not above `key`, or -1 if all are above. */
  predicate IsFloor(keys: seq<nat>, key: nat, lo: nat, hi: nat, r: int)
    requires lo <= hi < |keys|
  {
    && (r == -1 || (lo <= r <= hi && keys[r] <= key))
    && forall k :: lo <= k <= hi && k > r ==> keys[k] > key
  }

  /** On sorted keys the search is exactly floor search; -1 only when every key is above. */
  lemma {:induction false} FloorSearchIsFloor(keys: seq<nat>, key: nat, lo: nat, hi: nat)
    requires lo <= hi < |keys| && Sorted(keys)
    ensures IsFloor(keys, key, lo, hi, FloorSearch(keys, key, lo, hi))
    decreases hi - lo
  {
    if hi - lo >= 2 {
      var mid := (lo + hi) / 2;
      if key < keys[mid] { FloorSearchIsFloor(keys, key, lo, mid - 1); }
      else { FloorSearchIsFloor(keys, key, mid, hi); }
    }
  }

  /** Sorted or not: if no key is above, the search ends at the last. */
  lemma {:induction false} FloorSearchAllBelow(keys: seq<nat>, key: nat, lo: nat, hi: nat)
    requires lo <= hi < |keys| && forall k :: lo <= k <= hi ==> keys[k] <= key
    ensures FloorSearch(keys, key, lo, hi) == hi
    decreases hi - lo
  {
    if hi - lo >= 2 { FloorSearchAllBelow(keys, key, (lo + hi) / 2, hi); }
  }

  // ----- candidates, one per image

  /** A loaded image: its load address and its function starts. */
  datatype Image = Image(load: nat, starts: seq<nat>)

  /** An image's best function for an address. */
  datatype Combo = Combo(image: nat, start: nat)

  function BestOf(image: Image, k: nat, vmaddr: nat): seq<Combo> {
    if |image.starts| == 0 || vmaddr < image.load then []
    else if |image.starts| == 1 then [Combo(k, image.starts[0])]
    else
      var i := FloorSearch(image.starts, vmaddr, 0, |image.starts| - 1);
      if 0 <= i < |image.starts| then [Combo(k, image.starts[i])] else []
  }

  /** The good combos of the images from the `k`-th on. */
  function Combos(images: seq<Image>, k: nat, vmaddr: nat): seq<Combo>
    decreases |images| - k
  {
    if k >= |images| then [] else BestOf(images[k], k, vmaddr) + Combos(images, k + 1, vmaddr)
  }

  /** The comparison of goodcombocmp: starts as signed longs. */
  function Signed(x: nat): int {
    if x < TWO_64 / 2 then x else x - TWO_64
  }

  predicate SignedSorted(combos: seq<Combo>) {
    forall i, j :: 0 <= i < j < |combos| ==> Signed(combos[i].start) <= Signed(combos[j].start)
  }

  function StartsOf(combos: seq<Combo>): (keys: seq<nat>)
    ensures |keys| == |combos| && forall i :: 0 <= i < |keys| ==> keys[i] == combos[i].start
  {
    if combos == [] then [] else [combos[0].start] + StartsOf(combos[1..])
  }

  datatype Found = NoSymbol | OutOfBounds | At(combo: Combo, distance: nat)

  /** get_symbol_info_from_address, for a given outcome of qsort. The distance is an unsigned int. */
  function Pick(sorted: seq<Combo>, vmaddr: nat): Found {
    if sorted == [] then NoSymbol
    else
      var i := FloorSearch(StartsOf(sorted), vmaddr, 0, |sorted| - 1);
      if 0 <= i < |sorted| then At(sorted[i], U64(vmaddr - sorted[i].start) % 0x1_0000_0000) else OutOfBounds
  }

  /** What qsort may make of the combos. */
  predicate Sorting(sorted: seq<Combo>, combos: seq<Combo>) {
    multiset(sorted) == multiset(combos) && SignedSorted(sorted)
  }

  // ----- against a linear scan

  /** Some image has a function that starts at `start`. */
  predicate Occurs(images: seq<Image>, start: nat) {
    exists k, i :: 0 <= k < |images| && 0 <= i < |images[k].starts| && images[k].starts[i] == start
  }

  /** `start` is the greatest function start of all images not above `vmaddr`. */
  predicate Greatest(images: seq<Image>, vmaddr: nat, start: nat) {
    && Occurs(images, start) && start <= vmaddr
    && forall k, i :: 0 <= k < |images| && 0 <= i < |images[k].starts| && images[k].starts[i] <= vmaddr ==> images[k].starts[i] <= start
  }

  /** Each image's starts are sorted, none lies below its load address, and no address has the
      sign bit. */
  predicate Loaded(images: seq<Image>) {
    forall k :: 0 <= k < |images| ==> LoadedImage(images[k])
  }

  predicate LoadedImage(image: Image) {
    Sorted(image.starts) && forall i :: 0 <= i < |image.starts| ==> image.load <= image.starts[i] < TWO_64 / 2
  }

  /** An image's combo: its floor, or its only function even if that lies above. */
  lemma BestOfIs(image: Image, k: nat, vmaddr: nat)
    requires LoadedImage(image)
    ensures var b := BestOf(image, k, vmaddr);
      && |b| <= 1
      && (b == [] ==> forall i :: 0 <= i < |image.starts| ==> image.starts[i] > vmaddr)
      && (b != [] ==> b[0].image == k && b[0].start in image.starts)
      && (b != [] && b[0].start <= vmaddr ==> forall i :: 0 <= i < |image.starts| && image.starts[i] <= vmaddr ==> image.starts[i] <= b[0].start)
      && (b != [] && b[0].start > vmaddr ==> forall i :: 0 <= i < |image.starts| ==> image.starts[i] > vmaddr)
  {
    hide FloorSearch;
    if |image.starts| > 1 { FloorSearchIsFloor(image.starts, vmaddr, 0, |image.starts| - 1); }
  }

  /** Every combo stems from its image. */
  lemma {:induction false} CombosAre(images: seq<Image>, k: nat, vmaddr: nat, c: Combo)
    requires Loaded(images) && c in Combos(images, k, vmaddr)
    ensures k <= c.image < |images| && [c] == BestOf(images[c.image], c.image, vmaddr)
    decreases |images| - k
  {
    hide BestOf;
    BestOfIs(images[k], k, vmaddr);
    if c in BestOf(images[k], k, vmaddr) {
      assert [c] == BestOf(images[k], k, vmaddr);
    } else {
      CombosAre(images, k + 1, vmaddr, c);
    }
  }

  lemma {:induction false} CombosHave(images: seq<Image>, k: nat, m: nat, vmaddr: nat, c: Combo)
    requires k <= m < |images| && c in BestOf(images[m], m, vmaddr)
    ensures c in Combos(images, k, vmaddr)
    decreases m - k
  {
    hide BestOf;
    if k < m { CombosHave(images, k + 1, m, vmaddr, c); }
  }

  /** Without sign bits the signed order is the searched one. */
  lemma SignedSmall(x: nat)
    requires x < TWO_64 / 2
    ensures Signed(x) == x
  {
  }

  lemma SortedStarts(sorted: seq<Combo>)
    requires SignedSorted(sorted) && forall i :: 0 <= i < |sorted| ==> sorted[i].start < TWO_64 / 2
    ensures Sorted(StartsOf(sorted))
  {
    var keys := StartsOf(sorted);
    forall i | 0 <= i < |sorted| ensures Signed(sorted[i].start) == keys[i] { SignedSmall(sorted[i].start); }
    hide Signed, StartsOf;
  }

  lemma SortingHas(sorted: seq<Combo>, combos: seq<Combo>, c: Combo)
    requires Sorting(sorted, combos)
    ensures c in sorted <==> c in combos
  {
    assert c in sorted <==> c in multiset(sorted);
    assert c in combos <==> c in multiset(combos);
  }

  /** The second search, over candidates without sign bits. */
  lemma PickIsFloor(sorted: seq<Combo>, vmaddr: nat)
    requires SignedSorted(sorted) && forall j :: 0 <= j < |sorted| ==> sorted[j].start < TWO_64 / 2
    ensures Pick(sorted, vmaddr).At? ==>
      var c := Pick(sorted, vmaddr).combo;
      c in sorted && c.start <= vmaddr && forall j :: 0 <= j < |sorted| && sorted[j].start <= vmaddr ==> sorted[j].start <= c.start
    ensures !Pick(sorted, vmaddr).At? ==> forall j :: 0 <= j < |sorted| ==> sorted[j].start > vmaddr
    ensures Pick(sorted, vmaddr).NoSymbol? <==> sorted == []
  {
    hide FloorSearch, Signed, U64;
    SortedStarts(sorted);
    if sorted != [] { FloorSearchIsFloor(StartsOf(sorted), vmaddr, 0, |sorted| - 1); }
  }

  /** Some function of some image starts at or below the address. */
  predicate Covered(images: seq<Image>, vmaddr: nat) {
    exists k, i :: 0 <= k < |images| && 0 <= i < |images[k].starts| && images[k].starts[i] <= vmaddr
  }

  /** The fast lookup refines the scan: a function is returned exactly if some function of any image
      starts at or below the address, and it is one with the greatest such start. */
  lemma LookupRefinesScan(images: seq<Image>, vmaddr: nat, sorted: seq<Combo>)
    requires Loaded(images) && Sorting(sorted, Combos(images, 0, vmaddr))
    ensures Pick(sorted, vmaddr).At? <==> Covered(images, vmaddr)
    ensures Pick(sorted, vmaddr).At? ==>
      var c := Pick(sorted, vmaddr).combo;
      c.image < |images| && c.start in images[c.image].starts && Greatest(images, vmaddr, c.start)
  {
    hide BestOf, FloorSearch, Combos, Pick;
    ScanBounds(images, vmaddr, sorted);
    PickIsFloor(sorted, vmaddr);
    var p := Pick(sorted, vmaddr);
    forall k, i | 0 <= k < |images| && 0 <= i < |images[k].starts| && images[k].starts[i] <= vmaddr
      ensures p.At? && images[k].starts[i] <= p.combo.start
    {
      var j := ScanCovers(images, vmaddr, sorted, k, i);
      assert sorted[j].start <= vmaddr;
    }
    if p.At? {
      var c := p.combo;
      var i :| 0 <= i < |images[c.image].starts| && images[c.image].starts[i] == c.start;
      assert images[c.image].starts[i] <= vmaddr;
    }
  }

  /** A slot before the array is read exactly when every candidate is the only function of its image
      and lies above the address. */
  lemma OutOfBoundsIff(images: seq<Image>, vmaddr: nat, sorted: seq<Combo>)
    requires Loaded(images) && Sorting(sorted, Combos(images, 0, vmaddr))
    ensures Pick(sorted, vmaddr).OutOfBounds? <==>
      !Covered(images, vmaddr) && exists k :: 0 <= k < |images| && |images[k].starts| == 1 && images[k].load <= vmaddr
  {
    hide FloorSearch, Combos, Pick;
    ScanBounds(images, vmaddr, sorted);
    PickIsFloor(sorted, vmaddr);
    LookupRefinesScan(images, vmaddr, sorted);
    if sorted != [] {
      var c := sorted[0];
      SortingHas(sorted, Combos(images, 0, vmaddr), c);
      CombosAre(images, 0, vmaddr, c);
      BestOfIs(images[c.image], c.image, vmaddr);
      if !Covered(images, vmaddr) && |images[c.image].starts| != 1 {
        ManyStarts(images[c.image], c.image, vmaddr);
      }
    }
    forall k | 0 <= k < |images| && |images[k].starts| == 1 && images[k].load <= vmaddr ensures sorted != [] {
      var c := Combo(k, images[k].starts[0]);
      CombosHave(images, 0, k, vmaddr, c);
      SortingHas(sorted, Combos(images, 0, vmaddr), c);
    }
  }

  /** With two functions or more, an image's candidate is at or below the address. */
  lemma ManyStarts(image: Image, k: nat, vmaddr: nat)
    requires LoadedImage(image) && |image.starts| != 1 && BestOf(image, k, vmaddr) != []
    ensures BestOf(image, k, vmaddr)[0].start <= vmaddr
  {
    hide FloorSearch;
    FloorSearchIsFloor(image.starts, vmaddr, 0, |image.starts| - 1);
  }

  /** The candidates are functions of their images. */
  lemma ScanBounds(images: seq<Image>, vmaddr: nat, sorted: seq<Combo>)
    requires Loaded(images) && Sorting(sorted, Combos(images, 0, vmaddr))
    ensures forall j :: 0 <= j < |sorted| ==>
      && sorted[j].image < |images| && sorted[j].start in images[sorted[j].image].starts
      && sorted[j].start < TWO_64 / 2 && Occurs(images, sorted[j].start)
  {
    hide BestOf, Combos;
    forall j | 0 <= j < |sorted|
      ensures sorted[j].image < |images| && sorted[j].start in images[sorted[j].image].starts
        && sorted[j].start < TWO_64 / 2 && Occurs(images, sorted[j].start)
    {
      var c := sorted[j];
      SortingHas(sorted, Combos(images, 0, vmaddr), c);
      CombosAre(images, 0, vmaddr, c);
      assert LoadedImage(images[c.image]);
      BestOfIs(images[c.image], c.image, vmaddr);
    }
  }

  /** Every function at or below the address has a candidate between it and the address. */
  lemma ScanCovers(images: seq<Image>, vmaddr: nat, sorted: seq<Combo>, k: nat, i: nat) returns (j: nat)
    requires Loaded(images) && Sorting(sorted, Combos(images, 0, vmaddr))
    requires k < |images| && i < |images[k].starts| && images[k].starts[i] <= vmaddr
    ensures j < |sorted| && images[k].starts[i] <= sorted[j].start <= vmaddr
  {
    hide BestOf, Combos;
    assert LoadedImage(images[k]);
    BestOfIs(images[k], k, vmaddr);
    var c := BestOf(images[k], k, vmaddr)[0];
    CombosHave(images, 0, k, vmaddr, c);
    SortingHas(sorted, Combos(images, 0, vmaddr), c);
    j :| 0 <= j < |sorted| && sorted[j] == c;
  }

  predicate OneSide(combos: seq<Combo>) {
    || (forall j :: 0 <= j < |combos| ==> combos[j].start < TWO_64 / 2)
    || (forall j :: 0 <= j < |combos| ==> combos[j].start >= TWO_64 / 2)
  }

  /** The candidates are sorted by signed, but searched by unsigned starts. When none is above the
      address the nearest one is found exactly if all lie on one side of 2^63. */
  lemma SignsIff(sorted: seq<Combo>, vmaddr: nat)
    requires sorted != [] && SignedSorted(sorted) && vmaddr < TWO_64
    requires forall j :: 0 <= j < |sorted| ==> sorted[j].start <= vmaddr
    ensures Pick(sorted, vmaddr).At?
    ensures (forall j :: 0 <= j < |sorted| ==> sorted[j].start <= Pick(sorted, vmaddr).combo.start) <==> OneSide(sorted)
  {
    hide FloorSearch;
    var n := |sorted| - 1;
    FloorSearchAllBelow(StartsOf(sorted), vmaddr, 0, n);
    forall j | 0 <= j < n ensures Signed(sorted[j].start) <= Signed(sorted[n].start) { }
  }
}
