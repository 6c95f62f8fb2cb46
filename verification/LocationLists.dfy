/** Location descriptions as the doubly linked lists of nodes they are (`dexpr.c`). */
module LocationLists {
  import opened Longs
  import opened Dwarf

  class LocDesc {
    const lopc: nat
    const hipc: nat
    const bounded: bool
    const op: nat
    const opd1: nat
    const opd2: nat
    const opd3: nat
    const offsetForBranch: nat
    var prev: LocDesc?
    var next: LocDesc?

    /** create_new_locdesc: an unbounded description has no addresses. */
    constructor (bounded: bool, lopc: nat, hipc: nat, op: nat, opd1: nat, opd2: nat, opd3: nat, offsetForBranch: nat)
      ensures prev == null && next == null
      ensures Fields() == Data(bounded, if bounded then lopc else 0, if bounded then hipc else 0, op, opd1, opd2, opd3, offsetForBranch)
    {
      this.bounded := bounded;
      this.lopc := if bounded then lopc else 0;
      this.hipc := if bounded then hipc else 0;
      this.op, this.opd1, this.opd2, this.opd3 := op, opd1, opd2, opd3;
      this.offsetForBranch := offsetForBranch;
      prev, next := null, null;
    }

    ghost function Fields(): Data
    {
      Data(bounded, lopc, hipc, op, opd1, opd2, opd3, offsetForBranch)
    }
  }

  datatype Data = Data(bounded: bool, lopc: nat, hipc: nat, op: nat, opd1: nat, opd2: nat, opd3: nat, offsetForBranch: nat)

  /** is_locdesc_in_bounds. */
  predicate InBounds(d: Data, pc: nat) {
    !d.bounded || d.lopc <= pc < d.hipc
  }

  /** What creating a node from a description keeps. */
  function Kept(d: Data): Data {
    if d.bounded then d else d.(lopc := 0, hipc := 0)
  }

  ghost function Behind(nodes: seq<LocDesc>, i: nat, tail: LocDesc?): LocDesc? {
    if i + 1 < |nodes| then nodes[i + 1] else tail
  }

  ghost function Before(nodes: seq<LocDesc>, i: nat): LocDesc? {
    if 0 < i <= |nodes| then nodes[i - 1] else null
  }

  /** The nodes from the first on, each reached from the one before by `next`, `tail` from the last. */
  ghost predicate Chain(nodes: seq<LocDesc>, tail: LocDesc?)
    reads nodes
  {
    forall i :: 0 <= i < |nodes| ==> nodes[i].next == Behind(nodes, i, tail)
  }

  ghost predicate BackChain(nodes: seq<LocDesc>)
    reads nodes
  {
    forall i :: 0 <= i < |nodes| ==> nodes[i].prev == Before(nodes, i)
  }

  ghost predicate Distinct(nodes: seq<LocDesc>) {
    forall i, j :: 0 <= i < j < |nodes| ==> nodes[i] != nodes[j]
  }

  /** A whole list: `prev` and `next` are inverse, and no node occurs twice. */
  ghost predicate Linked(nodes: seq<LocDesc>)
    reads nodes
  {
    Chain(nodes, null) && BackChain(nodes) && Distinct(nodes)
  }

  ghost predicate Heads(nodes: seq<LocDesc>, first: LocDesc?) {
    first == if nodes == [] then null else nodes[0]
  }

  /** The data of copies, node by node. */
  ghost predicate Copies(copies: seq<LocDesc>, nodes: seq<LocDesc>, n: nat)
    requires n <= |copies| && n <= |nodes|
  {
    forall i :: 0 <= i < n ==> copies[i].Fields() == Kept(nodes[i].Fields())
  }

  method CopyNode(node: LocDesc) returns (copied: LocDesc)
    ensures fresh(copied) && copied.prev == null && copied.next == null && copied.Fields() == Kept(node.Fields())
  {
    copied := new LocDesc(node.bounded, node.lopc, node.hipc, node.op, node.opd1, node.opd2, node.opd3, node.offsetForBranch);
  }

  lemma LinkedSnoc(nodes: seq<LocDesc>, add: LocDesc)
    requires nodes != [] && Chain(nodes, add) && BackChain(nodes) && Distinct(nodes) && add !in nodes
    requires add.prev == nodes[|nodes| - 1] && add.next == null
    ensures Linked(nodes + [add])
  {
    var all := nodes + [add];
    forall i | 0 <= i < |all| ensures all[i].next == Behind(all, i, null) && all[i].prev == Before(all, i) {
      if i < |nodes| { assert all[i] == nodes[i]; }
    }
  }

  /** The link the copying loop makes behind the last copy. */
  method LinkBehind(last: LocDesc, add: LocDesc, ghost nodes: seq<LocDesc>)
    requires Linked(nodes) && nodes != [] && last == nodes[|nodes| - 1]
    requires add !in nodes && add.prev == null && add.next == null
    modifies last`next, add`prev
    ensures Linked(nodes + [add]) && last.next == add
  {
    last.next := add;
    assert Chain(nodes, add);
    add.prev := last;
    LinkedSnoc(nodes, add);
  }

  lemma CopiesSnoc(copies: seq<LocDesc>, copied: LocDesc, nodes: seq<LocDesc>, k: nat)
    requires k == |copies| < |nodes| && Copies(copies, nodes, k) && copied.Fields() == Kept(nodes[k].Fields())
    ensures Copies(copies + [copied], nodes, k + 1)
  {
  }

  ghost predicate Apart(copies: seq<LocDesc>, nodes: seq<LocDesc>) {
    forall i :: 0 <= i < |copies| ==> copies[i] !in nodes
  }

  /** The first `|copies|` nodes of the source have been copied; `current` is the next one. */
  ghost predicate Copying(copies: seq<LocDesc>, nodes: seq<LocDesc>, current: LocDesc?)
    reads copies, nodes
  {
    && 0 < |copies| <= |nodes| && current == Behind(nodes, |copies| - 1, null)
    && Chain(nodes, null) && Linked(copies) && Copies(copies, nodes, |copies|)
    && Apart(copies, nodes)
  }

  lemma CopyingStarts(first: LocDesc, nodes: seq<LocDesc>)
    requires nodes != [] && Chain(nodes, null) && first !in nodes
    requires first.prev == null && first.next == null && first.Fields() == Kept(nodes[0].Fields())
    ensures Copying([first], nodes, nodes[0].next)
  {
  }

  lemma CopyingAt(copies: seq<LocDesc>, nodes: seq<LocDesc>, current: LocDesc?)
    requires Copying(copies, nodes, current)
    ensures 0 < |copies| <= |nodes|
    ensures current == null <==> |copies| == |nodes|
    ensures current != null ==> current == nodes[|copies|]
    ensures Chain(nodes, null) && Linked(copies) && Copies(copies, nodes, |copies|) && Apart(copies, nodes)
  {
  }

  lemma CopyingIs(copies: seq<LocDesc>, nodes: seq<LocDesc>, current: LocDesc?)
    requires 0 < |copies| <= |nodes| && current == Behind(nodes, |copies| - 1, null)
    requires Chain(nodes, null) && Linked(copies) && Copies(copies, nodes, |copies|) && Apart(copies, nodes)
    ensures Copying(copies, nodes, current)
  {
  }

  lemma NextIs(nodes: seq<LocDesc>, i: nat)
    requires Chain(nodes, null) && i < |nodes|
    ensures nodes[i].next == Behind(nodes, i, null)
  {
  }

  lemma ApartSnoc(copies: seq<LocDesc>, nodes: seq<LocDesc>, copied: LocDesc)
    requires Apart(copies, nodes) && copied !in nodes
    ensures Apart(copies + [copied], nodes)
  {
  }

  lemma ApartLast(copies: seq<LocDesc>, nodes: seq<LocDesc>)
    requires Apart(copies, nodes) && copies != []
    ensures copies[|copies| - 1] !in nodes
  {
  }

  /** copy_locdesc: a fresh list with the same operations, whatever list the node is in. */
  method CopyLocDesc(basedOn: LocDesc?, ghost nodes: seq<LocDesc>) returns (root: LocDesc?, ghost copies: seq<LocDesc>)
    requires Chain(nodes, null) && Heads(nodes, basedOn)
    ensures Heads(copies, root) && Linked(copies) && |copies| == |nodes|
    ensures fresh(copies)
    ensures Copies(copies, nodes, |nodes|)
  {
    if basedOn == null { return null, []; }
    var first := CopyNode(basedOn);
    CopyingStarts(first, nodes);
    hide Copying, Linked, Copies, Chain, Kept, Apart;
    root := first;
    ghost var rest := CopyRest(basedOn.next, first, nodes);
    copies := [first] + rest;
    CopyingAt(copies, nodes, null);
  }

  /** The copying loop. */
  method CopyRest(start: LocDesc?, first: LocDesc, ghost nodes: seq<LocDesc>) returns (ghost rest: seq<LocDesc>)
    requires Copying([first], nodes, start)
    modifies first`next
    ensures Copying([first] + rest, nodes, null) && fresh(rest)
  {
    hide Copying, Linked, Copies, Chain, Apart;
    rest := [];
    var current, last := start, first;
    assert [first] + rest == [first];
    CopyingAt([first], nodes, current);
    while current != null
      invariant (if rest == [] then last == first else last == rest[|rest| - 1]) && |rest| < |nodes|
      invariant Copying([first] + rest, nodes, current) && fresh(rest)
      decreases |nodes| - |rest|
    {
      ghost var copies := [first] + rest;
      CopyingAt(copies, nodes, current);
      ghost var more;
      current, last, more := CopyNext(current, last, copies, nodes);
      rest := rest + [last];
      assert [first] + rest == copies + [last];
      CopyingAt([first] + rest, nodes, current);
    }
  }

  /** One round of the copying loop. */
  method CopyNext(node: LocDesc, end: LocDesc, ghost copies: seq<LocDesc>, ghost nodes: seq<LocDesc>)
    returns (current: LocDesc?, last: LocDesc, ghost more: seq<LocDesc>)
    requires Copying(copies, nodes, node) && end == copies[|copies| - 1]
    modifies end`next
    ensures Copying(more, nodes, current) && fresh(last) && more == copies + [last]
  {
    CopyingAt(copies, nodes, node);
    hide Copying, Linked, Copies, Chain, Apart, Kept;
    ApartLast(copies, nodes);
    var copied := CopyNode(node);
    LinkBehind(end, copied, copies);
    CopiesSnoc(copies, copied, nodes, |copies|);
    ApartSnoc(copies, nodes, copied);
    NextIs(nodes, |copies|);
    last, more := copied, copies + [copied];
    current := node.next;
    CopyingIs(more, nodes, current);
  }

  /** add_additional_location_description: the node goes to the end of the list. */
  method AddAdditional(head: LocDesc, add: LocDesc, ghost nodes: seq<LocDesc>)
    requires Linked(nodes) && nodes != [] && nodes[0] == head
    requires add !in nodes && add.prev == null && add.next == null
    modifies nodes`next, add`prev
    ensures Linked(nodes + [add])
  {
    var current := head;
    ghost var k := 0;
    while current.next != null
      invariant k < |nodes| && current == nodes[k] && Linked(nodes)
      decreases |nodes| - k
    {
      current := current.next;
      k := k + 1;
    }
    LinkBehind(current, add, nodes);
  }

  // ----- decoding a list

  ghost function OpsOf(nodes: seq<LocDesc>): (ops: seq<Op>)
    ensures |ops| == |nodes|
  {
    if nodes == [] then [] else [OpOf(nodes[0].op, nodes[0].opd1, nodes[0].opd2)] + OpsOf(nodes[1..])
  }

  lemma {:induction false} OpsAt(nodes: seq<LocDesc>, i: nat)
    requires i < |nodes|
    ensures OpsOf(nodes)[i] == OpOf(nodes[i].op, nodes[i].opd1, nodes[i].opd2)
  {
    hide OpOf;
    if i > 0 { OpsAt(nodes[1..], i - 1); }
  }

  /** Decoding a copy runs exactly as decoding the original, jumps in both directions included. */
  lemma {:induction false} CopyDecodesSame(nodes: seq<LocDesc>, copies: seq<LocDesc>, env: Env, n: nat)
    requires |copies| == |nodes| && Copies(copies, nodes, |nodes|)
    ensures Steps(OpsOf(copies), Start(), env, n) == Steps(OpsOf(nodes), Start(), env, n)
  {
    hide OpOf, Steps, OpsOf;
    forall i | 0 <= i < |nodes| ensures OpsOf(copies)[i] == OpsOf(nodes)[i] {
      OpsAt(copies, i);
      OpsAt(nodes, i);
      assert copies[i].Fields() == Kept(nodes[i].Fields());
    }
    assert OpsOf(copies) == OpsOf(nodes);
  }

  /** A bounded description covers the addresses from `lopc` up to `hipc`, that one excluded; an unbounded
      one covers all. */
  lemma CoversExactly(d: Data, pc: nat)
    ensures InBounds(d, pc) <==> d.bounded ==> pc in Addresses(d.lopc, d.hipc)
  {
    if d.bounded && d.lopc <= pc < d.hipc { assert Addresses(d.lopc, d.hipc)[pc - d.lopc] == pc; }
  }

  /** From `from` on, `to` excluded. */
  function Addresses(from: nat, to: nat): seq<nat> {
    if from < to then seq(to - from, i requires 0 <= i => from + i) else []
  }

  /** A copy covers the same addresses. */
  lemma KeptInBounds(d: Data, pc: nat)
    ensures InBounds(Kept(d), pc) == InBounds(d, pc)
  {
  }
}
