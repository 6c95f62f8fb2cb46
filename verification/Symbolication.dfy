/** From encoded function starts to the function an address lies in: building the tables of all
    images and looking an address up. */
module Symbolication {
  import opened Uleb
  import opened FunctionStarts
  import opened SymbolIndex

  /** An image as loaded: its text segment and its function-start groups, padding included. */
  datatype Binary = Binary(text: Text, groups: seq<seq<Byte>>) {
    predicate Valid() {
      && AllGroups(groups) && text.Valid() && Sum(Values(groups)) <= text.vmsize
      && text.Load() + text.vmsize < TWO_64 / 2
    }

    function Deltas(): seq<nat> { NonZero(Values(groups)) }

    /** Where its text ends in memory. */
    function End(): nat { text.Load() + text.vmsize }

    /** The functions of the image, as ranges. */
    function Functions(): seq<Entry> {
      Table(text.Load(), Deltas(), text.vmsize - Sum(Values(groups)))
    }
  }

  /** The `j`-th function's range holds the address. */
  predicate Within(b: Binary, j: nat, vmaddr: nat) {
    j < |b.Functions()| && b.Functions()[j].vmaddr <= vmaddr < StartBehind(b.Functions(), j, b.End())
  }

  function EntryStarts(entries: seq<Entry>): (starts: seq<nat>)
    ensures |starts| == |entries| && forall i :: 0 <= i < |starts| ==> starts[i] == entries[i].vmaddr
  {
    if entries == [] then [] else [entries[0].vmaddr] + EntryStarts(entries[1..])
  }

  /** The index of an image: what create_sym_entry_for_image builds. */
  function IndexOf(b: Binary): Image
    requires b.Valid()
  {
    StartsAreTable(b.groups, b.text);
    Image(b.text.Load(), EntryStarts(ReadStarts(Concat(b.groups), b.text)))
  }

  predicate AllValid(bs: seq<Binary>) {
    forall k :: 0 <= k < |bs| ==> bs[k].Valid()
  }

  function IndexAll(bs: seq<Binary>): (images: seq<Image>)
    requires AllValid(bs)
    ensures |images| == |bs| && forall k :: 0 <= k < |bs| ==> images[k] == IndexOf(bs[k])
  {
    if bs == [] then [] else [IndexOf(bs[0])] + IndexAll(bs[1..])
  }

  predicate Disjoint(bs: seq<Binary>) {
    forall i, j :: 0 <= i < |bs| && 0 <= j < |bs| && i != j ==> bs[i].End() <= bs[j].text.Load() || bs[j].End() <= bs[i].text.Load()
  }

  lemma {:induction false} TableIgnoresLast(base: nat, ds: seq<nat>, a: int, b: int)
    ensures EntryStarts(Table(base, ds, a)) == EntryStarts(Table(base, ds, b))
    decreases |ds|
  {
    if ds != [] {
      TableIgnoresLast(base + ds[0], ds[1..], a, b);
      var s, t := Table(base, ds, a), Table(base, ds, b);
      assert s[1..] == Table(base + ds[0], ds[1..], a) && t[1..] == Table(base + ds[0], ds[1..], b);
    }
  }

  /** Strictly increasing starts above the load address and not beyond the text. */
  predicate Ordered(fs: seq<Entry>, load: nat, end: nat) {
    && (forall i :: 0 <= i < |fs| ==> load < fs[i].vmaddr <= end)
    && (forall i :: 0 <= i < |fs| - 1 ==> fs[i].vmaddr < StartBehind(fs, i, end))
  }

  lemma {:induction false} TableOrdered(base: nat, ds: seq<nat>, last: int, end: nat)
    requires Positive(ds) && base + Sum(ds) <= end
    ensures Ordered(Table(base, ds, last), base, end) && |Table(base, ds, last)| == |ds|
  {
    hide Table, Sum, Positive;
    TableStarts(base, ds, last);
  }

  /** The index holds exactly the starts of the image's functions, in their order. */
  lemma {:induction false} IndexIs(b: Binary)
    requires b.Valid()
    ensures IndexOf(b).starts == EntryStarts(b.Functions()) && IndexOf(b).load == b.text.Load()
    ensures Ordered(b.Functions(), b.text.Load(), b.End()) && |b.Functions()| == |b.Deltas()|
  {
    hide ReadStarts, Table, AllDecodable, Int32, Ordered, Values, NonZero, Sum, Concat, AllGroups, EntryStarts;
    StartsAreTable(b.groups, b.text);
    ValuesSmall(b.groups);
    NonZeroSmall(Values(b.groups));
    var last := b.text.vmsize - Sum(Values(b.groups));
    TableIgnoresLast(b.text.Load(), b.Deltas(), Int32(last), last);
    TableOrdered(b.text.Load(), b.Deltas(), last, b.End());
  }

  lemma {:induction false} Increasing(fs: seq<Entry>, load: nat, end: nat, i: nat, j: nat)
    requires Ordered(fs, load, end) && i < j < |fs|
    ensures StartBehind(fs, i, end) <= fs[j].vmaddr && fs[i].vmaddr < fs[j].vmaddr
    decreases j - i
  {
    assert fs[i].vmaddr < StartBehind(fs, i, end);
    if i + 1 < j { Increasing(fs, load, end, i + 1, j); }
  }

  /** No other start lies between a function's and an address in its range. */
  lemma {:induction false} StartIs(fs: seq<Entry>, load: nat, end: nat, i: nat, j: nat, vmaddr: nat)
    requires Ordered(fs, load, end) && i < |fs| && j < |fs|
    requires fs[j].vmaddr <= fs[i].vmaddr <= vmaddr < StartBehind(fs, j, end)
    ensures i == j
  {
    hide Ordered;
    if i > j { Increasing(fs, load, end, j, i); }
    if i < j { Increasing(fs, load, end, i, j); }
  }

  lemma {:induction false} ImageLoaded(b: Binary)
    requires b.Valid()
    ensures LoadedImage(IndexOf(b))
  {
    IndexIs(b);
    var fs, starts := b.Functions(), IndexOf(b).starts;
    assert b.End() < TWO_64;
    hide IndexOf, Binary.Functions, EntryStarts, Binary.Valid, Binary.End;
    forall i, j | 0 <= i < j < |starts| ensures starts[i] <= starts[j] { Increasing(fs, b.text.Load(), b.End(), i, j); }
  }

  lemma {:induction false} IndexLoaded(bs: seq<Binary>)
    requires AllValid(bs)
    ensures Loaded(IndexAll(bs))
  {
    hide IndexOf, LoadedImage;
    forall k | 0 <= k < |bs| ensures LoadedImage(IndexAll(bs)[k]) { ImageLoaded(bs[k]); }
  }

  /** End-to-end symbolication: for images whose text ranges are disjoint, looking up any address in
      any function's range finds that function, with its distance truncated to 32 bits. */
  lemma {:induction false} LookupFindsFunction(bs: seq<Binary>, m: nat, j: nat, vmaddr: nat, sorted: seq<Combo>)
    requires AllValid(bs) && Disjoint(bs) && Sorting(sorted, Combos(IndexAll(bs), 0, vmaddr))
    requires m < |bs| && Within(bs[m], j, vmaddr)
    ensures var start := bs[m].Functions()[j].vmaddr;
      Pick(sorted, vmaddr) == At(Combo(m, start), (vmaddr - start) % 0x1_0000_0000)
  {
    hide IndexOf, Combos, Binary.Functions, Sorting, Pick, IndexAll, Disjoint, FloorSearch;
    BelowEnd(bs, m, j, vmaddr);
    FoundNear(bs, m, j, vmaddr, sorted);
    SameStart(bs, m, j, vmaddr, Pick(sorted, vmaddr).combo);
    PickDistance(sorted, vmaddr);
  }

  lemma {:induction false} BelowEnd(bs: seq<Binary>, m: nat, j: nat, vmaddr: nat)
    requires AllValid(bs) && m < |bs| && Within(bs[m], j, vmaddr)
    ensures vmaddr < TWO_64
  {
    var b := bs[m];
    assert b.End() < TWO_64;
    hide Binary.Functions, Binary.End, Binary.Valid, IndexOf, EntryStarts;
    assert b.Valid();
    IndexIs(b);
    var fs := b.Functions();
    if j + 1 < |fs| { assert fs[j + 1].vmaddr <= b.End(); }
  }

  /** The lookup finds some function, not below the one whose range holds the address. */
  lemma {:induction false} FoundNear(bs: seq<Binary>, m: nat, j: nat, vmaddr: nat, sorted: seq<Combo>)
    requires AllValid(bs) && Sorting(sorted, Combos(IndexAll(bs), 0, vmaddr)) && m < |bs| && Within(bs[m], j, vmaddr)
    ensures var p := Pick(sorted, vmaddr);
      && p.At? && p.combo.image < |bs| && p.combo.start in IndexOf(bs[p.combo.image]).starts
      && bs[m].Functions()[j].vmaddr <= p.combo.start <= vmaddr
  {
    hide IndexOf, Combos, Binary.Functions, Sorting, Pick;
    var images, b := IndexAll(bs), bs[m];
    IndexLoaded(bs);
    IndexIs(b);
    LookupRefinesScan(images, vmaddr, sorted);
    assert images[m].starts[j] == b.Functions()[j].vmaddr;
  }

  /** The candidate's start lies in the text range of the image it belongs to. */
  lemma {:induction false} StartOf(b: Binary, start: nat) returns (i: nat)
    requires b.Valid() && start in IndexOf(b).starts
    ensures i < |b.Functions()| && b.Functions()[i].vmaddr == start && b.text.Load() < start <= b.End()
  {
    hide IndexOf, Binary.Functions, Binary.Valid, Binary.End;
    IndexIs(b);
    i :| 0 <= i < |IndexOf(b).starts| && IndexOf(b).starts[i] == start;
  }

  /** Only the image itself has a start between the function and the address: the function's own. */
  lemma {:induction false} SameStart(bs: seq<Binary>, m: nat, j: nat, vmaddr: nat, c: Combo)
    requires AllValid(bs) && Disjoint(bs) && m < |bs| && Within(bs[m], j, vmaddr)
    requires c.image < |bs| && c.start in IndexOf(bs[c.image]).starts && bs[m].Functions()[j].vmaddr <= c.start <= vmaddr
    ensures c == Combo(m, bs[m].Functions()[j].vmaddr)
  {
    hide IndexOf, Binary.Functions, Binary.Valid, Binary.End;
    var b := bs[m];
    var i := StartOf(bs[c.image], c.start);
    IndexIs(b);
    if j + 1 < |b.Functions()| { assert b.Functions()[j + 1].vmaddr <= b.End(); }
    assert c.image == m;
    StartIs(b.Functions(), b.text.Load(), b.End(), i, j, vmaddr);
  }

  lemma {:induction false} PickDistance(sorted: seq<Combo>, vmaddr: nat)
    requires vmaddr < TWO_64 && Pick(sorted, vmaddr).At?
    ensures var p := Pick(sorted, vmaddr); p.combo.start <= vmaddr ==> p.distance == (vmaddr - p.combo.start) % 0x1_0000_0000
  {
    hide FloorSearch;
  }

  /** Every address from an image's first function to its text end lies in one of its functions. */
  lemma {:induction false} SomeFunction(b: Binary, vmaddr: nat, k: nat) returns (j: nat)
    requires b.Valid() && k < |b.Functions()| && b.Functions()[k].vmaddr <= vmaddr < b.End()
    ensures Within(b, j, vmaddr)
    decreases |b.Functions()| - k
  {
    if vmaddr < StartBehind(b.Functions(), k, b.End()) { j := k; } else { j := SomeFunction(b, vmaddr, k + 1); }
  }

  /** The lookup found the function of image `m` at `start`; the distance is exact when it fits. */
  predicate DistanceExactIff(p: Found, m: nat, start: nat, vmaddr: nat) {
    p.At? && p.combo == Combo(m, start) && (p.distance == vmaddr - start <==> vmaddr - start < 0x1_0000_0000)
  }

  /** The exact distance is reported exactly when it fits 32 bits. */
  lemma {:induction false} DistanceIff(bs: seq<Binary>, m: nat, vmaddr: nat, sorted: seq<Combo>)
    requires AllValid(bs) && Disjoint(bs) && Sorting(sorted, Combos(IndexAll(bs), 0, vmaddr))
    requires m < |bs| && bs[m].Functions() != [] && bs[m].Functions()[0].vmaddr <= vmaddr < bs[m].End()
    ensures exists j: nat :: Within(bs[m], j, vmaddr) && DistanceExactIff(Pick(sorted, vmaddr), m, bs[m].Functions()[j].vmaddr, vmaddr)
  {
    hide Combos, Pick, Binary.Functions, Sorting;
    var j := SomeFunction(bs[m], vmaddr, 0);
    LookupFindsFunction(bs, m, j, vmaddr, sorted);
  }
}
