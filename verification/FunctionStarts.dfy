/** Rebuilding the function table of an image from its encoded start deltas (`read_lc_fxn_starts` in
    `image.c`). */
module FunctionStarts {
  import opened Uleb

  const TWO_64: int := 0x1_0000_0000_0000_0000

  /** Unsigned long arithmetic wraps. */
  function U64(x: int): (r: nat)
    ensures r < TWO_64 && (0 <= x < TWO_64 ==> r == x)
  {
    x % TWO_64
  }

  /** Conversion to a C int. */
  function Int32(x: nat): (r: int)
    ensures r < INT_RANGE && (x < INT_RANGE ==> r == x)
  {
    (x + INT_RANGE) % (2 * INT_RANGE) - INT_RANGE
  }

  datatype Entry = Entry(vmaddr: nat, len: int)

  /** The loop's running totals. An entry's length is not known yet when it is added; 0 stands for
      what the allocation holds. */
  datatype Reader = Reader(total: nat, next: nat, entries: seq<Entry>)

  function PatchLast(entries: seq<Entry>, len: nat): seq<Entry> {
    if entries == [] then []
    else entries[..|entries| - 1] + [entries[|entries| - 1].(len := Int32(len))]
  }

  /** One decoded delta; zeros are padding. */
  function Take(r: Reader, delta: nat, slide: nat): Reader {
    if delta == 0 then r
    else
      var next := U64(r.next + delta);
      Reader(U64(r.total + delta), next, PatchLast(r.entries, delta) + [Entry(U64(next + slide), 0)])
  }

  predicate AllDecodable(data: seq<Byte>, p: nat)
    decreases |data| - p
  {
    p >= |data| || (Decodable(data, p, 0) && AllDecodable(data, Decode(data, p).next))
  }

  function ReadFrom(data: seq<Byte>, p: nat, r: Reader, slide: nat): Reader
    requires AllDecodable(data, p)
    decreases |data| - p
  {
    if p >= |data| then r
    else
      var d := Decode(data, p);
      ReadFrom(data, d.next, Take(r, d.val, slide), slide)
  }

  /** The text segment's address and size, and the slide of the loaded image. */
  datatype Text = Text(vmaddr: nat, vmsize: nat, slide: nat) {
    predicate Valid() { vmaddr < TWO_64 && vmsize < TWO_64 && slide < TWO_64 }

    /** Where the text segment is loaded. */
    function Load(): nat { U64(vmaddr + slide) }
  }

  function ReadStarts(data: seq<Byte>, text: Text): seq<Entry>
    requires AllDecodable(data, 0)
  {
    var r := ReadFrom(data, 0, Reader(0, text.vmaddr, []), text.slide);
    PatchLast(r.entries, U64(text.vmsize - r.total))
  }

  // ----- the table meant

  predicate Small(ds: seq<nat>) {
    forall i :: 0 <= i < |ds| ==> ds[i] < INT_RANGE
  }

  predicate Positive(ds: seq<nat>) {
    forall i :: 0 <= i < |ds| ==> 0 < ds[i]
  }

  function Sum(ds: seq<nat>): nat { if ds == [] then 0 else ds[0] + Sum(ds[1..]) }

  function NonZero(ds: seq<nat>): (r: seq<nat>) {
    if ds == [] then [] else (if ds[0] == 0 then [] else [ds[0]]) + NonZero(ds[1..])
  }

  /** Starts at the partial sums of the deltas; each length is the next delta, the last is `last`. */
  function Table(base: nat, ds: seq<nat>, last: int): seq<Entry>
    decreases |ds|
  {
    if ds == [] then []
    else [Entry(base + ds[0], if |ds| == 1 then last else ds[1])] + Table(base + ds[0], ds[1..], last)
  }

  /** Where the entry behind the `i`-th starts. */
  function StartBehind(entries: seq<Entry>, i: nat, end: int): int {
    if i + 1 < |entries| then entries[i + 1].vmaddr else end
  }

  /** Strictly increasing starts whose lengths leave no gap up to `end`. */
  predicate Tiles(entries: seq<Entry>, end: int) {
    && (forall i :: 0 <= i < |entries| - 1 ==> entries[i].vmaddr < StartBehind(entries, i, end))
    && (forall i :: 0 <= i < |entries| ==> entries[i].vmaddr + entries[i].len == StartBehind(entries, i, end))
  }

  function Concat(groups: seq<seq<Byte>>): seq<Byte> {
    if groups == [] then [] else groups[0] + Concat(groups[1..])
  }

  predicate AllGroups(groups: seq<seq<Byte>>) {
    forall i :: 0 <= i < |groups| ==> IsGroup(groups[i]) && Fits(groups[i])
  }

  function Values(groups: seq<seq<Byte>>): (vs: seq<nat>)
    ensures |vs| == |groups|
  {
    if groups == [] then [] else [GroupValue(groups[0])] + Values(groups[1..])
  }

  function TakeAll(r: Reader, ds: seq<nat>, slide: nat): Reader
    decreases |ds|
  {
    if ds == [] then r else TakeAll(Take(r, ds[0], slide), ds[1..], slide)
  }

  lemma {:induction false} ReadGroups(data: seq<Byte>, p: nat, groups: seq<seq<Byte>>, r: Reader, slide: nat)
    requires AllGroups(groups) && p <= |data| && data[p..] == Concat(groups)
    ensures AllDecodable(data, p) && ReadFrom(data, p, r, slide) == TakeAll(r, Values(groups), slide)
    decreases |groups|
  {
    hide Decode, Decodable, Take;
    if groups != [] {
      var g := groups[0];
      assert data[p..p + |g|] == data[p..][..|g|] == g;
      DecodeGroup(data, p, g);
      assert data[p + |g|..] == data[p..][|g|..] == Concat(groups[1..]);
      ReadGroups(data, p + |g|, groups[1..], Take(r, GroupValue(g), slide), slide);
      assert Values(groups)[1..] == Values(groups[1..]);
    }
  }

  lemma SmallTail(ds: seq<nat>)
    requires ds != [] && Small(ds)
    ensures Small(ds[1..]) && ds[0] < INT_RANGE
  {
  }

  /** The entries behind those of `r`. */
  function Behind(entries: seq<Entry>, nz: seq<nat>, base: nat): seq<Entry> {
    if nz == [] then entries else PatchLast(entries, nz[0]) + Table(base, nz, 0)
  }

  /** What the fold over the deltas adds behind `r`, if nothing wraps. */
  lemma {:induction false} TakeAllIsTable(r: Reader, ds: seq<nat>, slide: nat, base: nat)
    requires Small(ds)
    requires U64(r.next + slide) == base && base + Sum(ds) < TWO_64 && r.total + Sum(ds) < TWO_64
    ensures var t := TakeAll(r, ds, slide);
      t.total == r.total + Sum(ds) && t.entries == Behind(r.entries, NonZero(ds), base)
    decreases |ds|
  {
    if ds != [] {
      var d, rest := ds[0], ds[1..];
      SmallTail(ds);
      assert TakeAll(r, ds, slide) == TakeAll(Take(r, d, slide), rest, slide) && Sum(ds) == d + Sum(rest);
      if d == 0 {
        assert NonZero(ds) == NonZero(rest);
        hide TakeAll, NonZero, Sum, Small, U64, Behind;
        TakeAllIsTable(r, rest, slide, base);
      } else {
        TakeOne(r, d, slide, base, Sum(rest));
        hide TakeAll, Sum, Small, Take, NonZero, Behind, PatchLast, U64;
        TakeAllIsTable(Take(r, d, slide), rest, slide, base + d);
        TableSplit(r.entries, d, ds, base);
      }
    }
  }

  /** One delta that is not padding. */
  lemma TakeOne(r: Reader, d: nat, slide: nat, base: nat, more: nat)
    requires d > 0 && U64(r.next + slide) == base && base + d + more < TWO_64 && r.total + d + more < TWO_64
    ensures var r1 := Take(r, d, slide);
      r1.total == r.total + d && U64(r1.next + slide) == base + d && r1.entries == PatchLast(r.entries, d) + [Entry(base + d, 0)]
  {
    hide PatchLast;
    SlidStart(r.next, d, slide);
    assert U64(r.total + d) == r.total + d;
  }

  lemma SlidStart(next: nat, d: nat, slide: nat)
    requires U64(next + slide) + d < TWO_64
    ensures U64(U64(next + d) + slide) == U64(next + slide) + d
  {
  }

  lemma TableSplit(entries: seq<Entry>, d: nat, ds: seq<nat>, base: nat)
    requires ds != [] && d == ds[0] > 0 && Small(ds)
    ensures Behind(PatchLast(entries, d) + [Entry(base + d, 0)], NonZero(ds[1..]), base + d) == Behind(entries, NonZero(ds), base)
  {
    SmallTail(ds);
    NonZeroSmall(ds[1..]);
    assert NonZero(ds) == [d] + NonZero(ds[1..]);
    hide NonZero, PatchLast, Int32, Sum;
    TableHead(entries, d, NonZero(ds[1..]), base);
  }

  lemma TableCons(base: nat, d: nat, nz: seq<nat>)
    ensures Table(base, [d] + nz, 0) == [Entry(base + d, if nz == [] then 0 else nz[0])] + Table(base + d, nz, 0)
  {
    var ds := [d] + nz;
    assert ds[1..] == nz;
    assert Table(base, ds, 0) == [Entry(base + ds[0], if |ds| == 1 then 0 else ds[1])] + Table(base + ds[0], ds[1..], 0);
  }

  lemma TableHead(entries: seq<Entry>, d: nat, nz: seq<nat>, base: nat)
    requires Small(nz)
    ensures Behind(PatchLast(entries, d) + [Entry(base + d, 0)], nz, base + d) == Behind(entries, [d] + nz, base)
  {
    var patched := PatchLast(entries, d);
    TableCons(base, d, nz);
    hide PatchLast, Table;
    if nz == [] {
      TableNone(base + d);
    } else {
      PatchAdded(patched, Entry(base + d, 0), nz[0]);
    }
  }

  lemma PatchAdded(es: seq<Entry>, e: Entry, len: nat)
    requires len < INT_RANGE
    ensures PatchLast(es + [e], len) == es + [e.(len := len)]
  {
    assert (es + [e])[..|es|] == es;
  }

  lemma {:induction false} NonZeroSmall(ds: seq<nat>)
    requires Small(ds)
    ensures Small(NonZero(ds)) && Positive(NonZero(ds))
    ensures Sum(NonZero(ds)) == Sum(ds)
  {
    if ds != [] {
      var d, rest := ds[0], NonZero(ds[1..]);
      SmallTail(ds);
      NonZeroSmall(ds[1..]);
      if d == 0 {
        assert NonZero(ds) == rest;
      } else {
        assert NonZero(ds) == [d] + rest && Sum(ds) == d + Sum(ds[1..]);
        hide NonZero;
        assert ([d] + rest)[1..] == rest;
      }
    }
  }

  lemma {:induction false} TableLast(base: nat, ds: seq<nat>, last: nat)
    ensures PatchLast(Table(base, ds, 0), last) == Table(base, ds, Int32(last))
    ensures |Table(base, ds, 0)| == |ds|
    decreases |ds|
  {
    if |ds| == 1 {
      assert Table(base + ds[0], ds[1..], 0) == [] == Table(base + ds[0], ds[1..], Int32(last));
    } else if |ds| > 1 {
      TableLast(base + ds[0], ds[1..], last);
      PatchTail(Entry(base + ds[0], ds[1]), Table(base + ds[0], ds[1..], 0), last);
    }
  }

  lemma PatchTail(e: Entry, rest: seq<Entry>, len: nat)
    requires rest != []
    ensures PatchLast([e] + rest, len) == [e] + PatchLast(rest, len)
  {
    assert ([e] + rest)[..|rest|] == [e] + rest[..|rest| - 1];
  }

  /** For any image whose deltas are encoded in any groups, padded with zeros anywhere, and stay in
      the text segment: the table read back. */
  lemma StartsAreTable(groups: seq<seq<Byte>>, text: Text)
    requires AllGroups(groups) && text.Valid()
    requires Sum(Values(groups)) <= text.vmsize && text.Load() + text.vmsize < TWO_64
    ensures AllDecodable(Concat(groups), 0)
    ensures var ds := NonZero(Values(groups));
      ReadStarts(Concat(groups), text) == Table(text.Load(), ds, Int32(text.vmsize - Sum(Values(groups))))
  {
    hide Decode, Decodable, Take, AllDecodable, Int32, PatchLast, ReadFrom, NonZero, Values, Concat, Table, Sum, TakeAll, Small, Behind, AllGroups;
    var ds := Values(groups);
    assert Concat(groups)[0..] == Concat(groups);
    ReadGroups(Concat(groups), 0, groups, Reader(0, text.vmaddr, []), text.slide);
    ValuesSmall(groups);
    TakeAllIsTable(Reader(0, text.vmaddr, []), ds, text.slide, text.Load());
    PatchedTable(text.Load(), NonZero(ds), text.vmsize - Sum(ds));
  }

  /** The last entry of the table gets what is left. */
  lemma PatchedTable(base: nat, nz: seq<nat>, left: nat)
    ensures PatchLast(Behind([], nz, base), left) == Table(base, nz, Int32(left))
  {
    TableLast(base, nz, left);
    if nz == [] {
      assert Table(base, nz, Int32(left)) == [];
    } else {
      PatchNone(nz[0], Table(base, nz, 0));
    }
  }

  lemma TableNone(base: nat)
    ensures Table(base, [], 0) == []
  {
  }

  lemma PatchNone(len: nat, es: seq<Entry>)
    ensures PatchLast([], len) + es == es
  {
  }

  lemma {:induction false} TableStarts(base: nat, ds: seq<nat>, last: int)
    requires Positive(ds)
    ensures var t := Table(base, ds, last);
      && |t| == |ds|
      && (forall i :: 0 <= i < |t| ==> base < t[i].vmaddr <= base + Sum(ds))
      && (forall i :: 0 <= i < |t| - 1 ==> t[i].vmaddr < t[i + 1].vmaddr && t[i].vmaddr + t[i].len == t[i + 1].vmaddr)
      && (t != [] ==> t[|t| - 1] == Entry(base + Sum(ds), last))
    decreases |ds|
  {
    if ds != [] {
      var t := Table(base, ds, last);
      var rest := Table(base + ds[0], ds[1..], last);
      TableStarts(base + ds[0], ds[1..], last);
      if |ds| == 1 {
        assert Sum(ds[1..]) == 0;
      } else {
        assert rest[0].vmaddr == base + ds[0] + ds[1];
        forall i | 0 <= i < |t| - 1 ensures t[i].vmaddr < t[i + 1].vmaddr && t[i].vmaddr + t[i].len == t[i + 1].vmaddr {
          if i > 0 { assert t[i] == rest[i - 1] && t[i + 1] == rest[i]; }
        }
      }
    }
  }

  /** The lengths tile the text segment from the first start to its slid end exactly when the last
      function is shorter than 2^31 bytes: its length is kept in a C int. */
  lemma StartsTileIff(groups: seq<seq<Byte>>, text: Text)
    requires AllGroups(groups) && text.Valid() && NonZero(Values(groups)) != []
    requires Sum(Values(groups)) <= text.vmsize && text.Load() + text.vmsize < TWO_64
    ensures AllDecodable(Concat(groups), 0)
    ensures Tiles(ReadStarts(Concat(groups), text), text.Load() + text.vmsize) <==> text.vmsize - Sum(Values(groups)) < INT_RANGE
  {
    hide ReadStarts, AllDecodable, Table, Values, Concat, NonZero, Sum;
    StartsAreTable(groups, text);
    var ds := NonZero(Values(groups));
    ValuesSmall(groups);
    NonZeroSmall(Values(groups));
    var rest := text.vmsize - Sum(Values(groups));
    TableStarts(text.Load(), ds, Int32(rest));
    var t := Table(text.Load(), ds, Int32(rest));
    Int32Iff(rest);
    TilesIff(t, text.Load() + text.vmsize);
  }

  lemma TilesIff(t: seq<Entry>, end: int)
    requires t != []
    requires forall i :: 0 <= i < |t| - 1 ==> t[i].vmaddr < t[i + 1].vmaddr && t[i].vmaddr + t[i].len == t[i + 1].vmaddr
    ensures Tiles(t, end) <==> t[|t| - 1].vmaddr + t[|t| - 1].len == end
  {
    var n := |t| - 1;
    assert StartBehind(t, n, end) == end;
  }

  lemma Int32Iff(x: nat)
    ensures Int32(x) == x <==> x < INT_RANGE
  {
  }

  lemma {:induction false} ValuesSmall(groups: seq<seq<Byte>>)
    requires AllGroups(groups)
    ensures Small(Values(groups))
  {
    if groups != [] {
      ValuesSmall(groups[1..]);
      assert GroupValue(groups[0]) < INT_RANGE;
      assert Values(groups) == [GroupValue(groups[0])] + Values(groups[1..]);
    }
  }
}
