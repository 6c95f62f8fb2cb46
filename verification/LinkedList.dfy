/** The singly linked list of `linkedlist.c`, and loops that delete the element they stand on. */
module LinkedLists {
  class Node<T> {
    const data: T
    var next: Node?<T>

    constructor (data: T)
      ensures this.data == data && next == null
    {
      this.data := data;
      next := null;
    }
  }

  ghost function Behind<T>(nodes: seq<Node<T>>, i: nat): Node?<T> {
    if i + 1 < |nodes| then nodes[i + 1] else null
  }

  ghost predicate Chain<T>(nodes: seq<Node<T>>)
    reads nodes
  {
    forall i :: 0 <= i < |nodes| ==> nodes[i].next == Behind(nodes, i)
  }

  ghost predicate Distinct<T>(nodes: seq<Node<T>>) {
    forall i, j :: 0 <= i < j < |nodes| ==> nodes[i] != nodes[j]
  }

  ghost function First<T>(nodes: seq<Node<T>>): Node?<T> {
    if nodes == [] then null else nodes[0]
  }

  function DataOf<T>(nodes: seq<Node<T>>): (data: seq<T>)
    ensures |data| == |nodes| && forall i :: 0 <= i < |data| ==> data[i] == nodes[i].data
  {
    if nodes == [] then [] else [nodes[0].data] + DataOf(nodes[1..])
  }

  function Without<X>(s: seq<X>, k: nat): seq<X>
    requires k < |s|
  {
    s[..k] + s[k + 1..]
  }

  lemma BehindWithout<T>(nodes: seq<Node<T>>, k: nat, i: nat)
    requires k < |nodes| && i < |Without(nodes, k)|
    ensures Without(nodes, k)[i] == nodes[if i < k then i else i + 1]
    ensures Behind(Without(nodes, k), i) == Behind(nodes, if i < k - 1 then i else i + 1)
  {
    WithoutAt(nodes, k);
  }

  lemma DistinctWithout<T>(nodes: seq<Node<T>>, k: nat)
    requires k < |nodes| && Distinct(nodes)
    ensures Distinct(Without(nodes, k))
  {
    WithoutAt(nodes, k);
  }

  lemma ChainWithout<T>(nodes: seq<Node<T>>, k: nat)
    requires k < |nodes| && Distinct(nodes)
    requires forall i :: 0 <= i < |nodes| && i != k - 1 ==> nodes[i].next == Behind(nodes, i)
    requires k > 0 ==> nodes[k - 1].next == Behind(nodes, k)
    ensures Chain(Without(nodes, k)) && Distinct(Without(nodes, k))
  {
    var rest := Without(nodes, k);
    DistinctWithout(nodes, k);
    hide Without, Behind, Distinct;
    forall i | 0 <= i < |rest| ensures rest[i].next == Behind(rest, i) {
      BehindWithout(nodes, k, i);
      var j := if i < k then i else i + 1;
      assert j != k - 1 ==> nodes[j].next == Behind(nodes, j);
    }
  }

  lemma WithoutAt<T>(nodes: seq<Node<T>>, k: nat)
    requires k < |nodes|
    ensures |Without(nodes, k)| == |nodes| - 1
    ensures forall i :: 0 <= i < |nodes| - 1 ==> Without(nodes, k)[i] == if i < k then nodes[i] else nodes[i + 1]
  {
  }

  class List<T(==)> {
    var front: Node?<T>
    ghost var nodes: seq<Node<T>>

    constructor ()
      ensures Valid() && Contents() == []
    {
      front := null;
      nodes := [];
    }

    ghost predicate Valid()
      reads this, nodes
    {
      front == First(nodes) && Chain(nodes) && Distinct(nodes)
    }

    ghost function Contents(): seq<T>
      reads this
    {
      DataOf(nodes)
    }

    /** linkedlist_add: behind the last node. */
    method Add(x: T)
      requires Valid()
      modifies this, nodes`next
      ensures Valid() && Contents() == old(Contents()) + [x]
      ensures |nodes| == |old(nodes)| + 1 && nodes[..|old(nodes)|] == old(nodes) && fresh(nodes[|old(nodes)|])
    {
      var add := new Node(x);
      if front == null {
        front := add;
        nodes := [add];
        return;
      }
      var current: Node<T> := front;
      ghost var k := 0;
      while current.next != null
        invariant k < |nodes| && current == nodes[k]
        decreases |nodes| - k
      {
        current := current.next;
        k := k + 1;
      }
      LinkLast(current, add);
    }

    method LinkLast(last: Node<T>, add: Node<T>)
      requires Valid() && nodes != [] && last == nodes[|nodes| - 1] && add !in nodes && add.next == null
      modifies this`nodes, last`next
      ensures Valid() && nodes == old(nodes) + [add]
    {
      last.next := add;
      ghost var all := nodes + [add];
      forall i | 0 <= i < |all| ensures all[i].next == Behind(all, i) {
        if i < |nodes| { assert all[i] == nodes[i]; }
      }
      nodes := all;
    }

    /** Where a datum first stands; the length if nowhere. */
    ghost function Find(x: T, k: nat): (r: nat)
      requires k <= |nodes|
      reads this
      ensures k <= r <= |nodes| && (forall i :: k <= i < r ==> nodes[i].data != x) && (r < |nodes| ==> nodes[r].data == x)
      decreases |nodes| - k
    {
      if k < |nodes| && nodes[k].data != x then Find(x, k + 1) else k
    }

    /** linkedlist_delete: the first node that holds the datum is unlinked; the node itself keeps its
        link to the one behind it. */
    method Delete(x: T)
      requires Valid()
      modifies this, nodes`next
      ensures Valid()
      ensures var k := old(Find(x, 0)); nodes == if k < |old(nodes)| then Without(old(nodes), k) else old(nodes)
      ensures var k := old(Find(x, 0)); k < |old(nodes)| ==> old(nodes)[k].next == old(nodes[k].next)
    {
      if front == null { return; }
      if front.data == x {
        front := front.next;
        ChainWithout(nodes, 0);
        nodes := Without(nodes, 0);
        return;
      }
      var current: Node<T> := front;
      ghost var k := 0;
      while current.next != null
        invariant Valid() && nodes == old(nodes) && k < |nodes| && current == nodes[k]
        invariant Find(x, k + 1) == Find(x, 0) && unchanged(this, nodes)
        decreases |nodes| - k
      {
        var previous := current;
        current := current.next;
        k := k + 1;
        if current.data == x {
          Unlink(previous, current, k);
          return;
        }
      }
    }

    method Unlink(previous: Node<T>, current: Node<T>, ghost k: nat)
      requires Valid() && 0 < k < |nodes| && previous == nodes[k - 1] && current == nodes[k]
      modifies this`nodes, previous`next
      ensures Valid() && nodes == Without(old(nodes), k)
    {
      previous.next := current.next;
      ChainWithout(nodes, k);
      nodes := Without(nodes, k);
    }
  }

  // ----- deleting while walking

  /** The elements that do not match, in order. */
  function Rest<T>(s: seq<T>, picked: T -> bool): seq<T> {
    if s == [] then [] else (if picked(s[0]) then [] else [s[0]]) + Rest(s[1..], picked)
  }

  lemma {:induction false} RestSnoc<T>(s: seq<T>, x: T, picked: T -> bool)
    ensures Rest(s + [x], picked) == Rest(s, picked) + if picked(x) then [] else [x]
  {
    if s == [] {
      assert s + [x] == [x] && [x][1..] == [];
    } else {
      assert (s + [x])[1..] == s[1..] + [x] && (s + [x])[0] == s[0];
      RestSnoc(s[1..], x, picked);
      assert Rest(s + [x], picked) == (if picked(s[0]) then [] else [s[0]]) + Rest(s[1..] + [x], picked);
    }
  }

  ghost predicate Unique<T>(nodes: seq<Node<T>>) {
    forall i, j :: 0 <= i < j < |nodes| ==> nodes[i].data != nodes[j].data
  }

  lemma UniqueWithout<T>(nodes: seq<Node<T>>, k: nat)
    requires k < |nodes| && Unique(nodes)
    ensures Unique(Without(nodes, k))
  {
  }

  /** The walk's position: elements kept so far, then those not visited yet. */
  lemma Position<T>(kept: seq<Node<T>>, all: seq<Node<T>>, i: nat)
    requires i < |all|
    ensures var nodes := kept + all[i..];
      && nodes[|kept|] == all[i] && Behind(nodes, |kept|) == First(all[i + 1..])
      && Without(nodes, |kept|) == kept + all[i + 1..] && (kept + [all[i]]) + all[i + 1..] == nodes
  {
  }

  lemma DataSnoc<T>(nodes: seq<Node<T>>, i: nat)
    requires i < |nodes|
    ensures DataOf(nodes)[..i + 1] == DataOf(nodes)[..i] + [nodes[i].data]
  {
    hide DataOf;
  }

  lemma DataAdd<T>(nodes: seq<Node<T>>, n: Node<T>)
    ensures DataOf(nodes + [n]) == DataOf(nodes) + [n.data]
  {
  }

  /** Deleting the node one stands on: it still leads to the node behind it. */
  method DeleteCurrent<T(==)>(list: List<T>, current: Node<T>, ghost k: nat)
    requires list.Valid() && Unique(list.nodes) && k < |list.nodes| && list.nodes[k] == current
    modifies list, list.nodes`next
    ensures list.Valid() && Unique(list.nodes) && list.nodes == Without(old(list.nodes), k)
    ensures current.next == Behind(old(list.nodes), k)
  {
    UniqueWithout(list.nodes, k);
    list.Delete(current.data);
  }

  /** Where a walk stands that keeps `kept` and has yet to see `all[i..]`. */
  ghost predicate Walking<T>(list: List<T>, all: seq<Node<T>>, kept: seq<Node<T>>, i: nat)
    reads list, list.nodes
  {
    && i <= |all| && list.Valid() && Unique(list.nodes) && list.nodes == kept + all[i..]
    && forall k :: 0 <= k < |kept| ==> kept[k] in all
  }

  lemma WalkingFrame<T>(list: List<T>, all: seq<Node<T>>, kept: seq<Node<T>>, i: nat)
    requires Walking(list, all, kept, i)
    ensures forall n :: n in list.nodes ==> n in all
  {
  }

  /** One round: the element is deleted or kept, and the walk moves to the element behind it. */
  method VisitOne<T(==)>(list: List<T>, current: Node<T>, delete: bool, ghost all: seq<Node<T>>, ghost kept: seq<Node<T>>, ghost i: nat)
    returns (next: Node?<T>, ghost keeps: seq<Node<T>>)
    requires Walking(list, all, kept, i) && i < |all| && current == all[i]
    modifies list, all`next
    ensures keeps == (if delete then kept else kept + [current]) && Walking(list, all, keeps, i + 1) && next == First(all[i + 1..])
  {
    hide Without, List.Valid, Unique;
    Position(kept, all, i);
    WalkingFrame(list, all, kept, i);
    if delete {
      DeleteCurrent(list, current, |kept|);
      return current.next, kept;
    }
    next := NextOf(list, current, |kept|);
    keeps := kept + [current];
  }

  /** What a walk has seen and kept so far. */
  ghost predicate Seen<T>(visited: seq<T>, deleted: nat, kept: seq<Node<T>>, all: seq<Node<T>>, i: nat, picked: T -> bool) {
    i <= |all| && visited == DataOf(all)[..i] && DataOf(kept) == Rest(visited, picked) && deleted + |kept| == i
  }

  lemma SeenOne<T>(visited: seq<T>, deleted: nat, kept: seq<Node<T>>, all: seq<Node<T>>, i: nat, picked: T -> bool)
    requires Seen(visited, deleted, kept, all, i, picked) && i < |all|
    ensures var x := all[i].data;
      if picked(x) then Seen(visited + [x], deleted + 1, kept, all, i + 1, picked)
      else Seen(visited + [x], deleted, kept + [all[i]], all, i + 1, picked)
  {
    hide DataOf, Rest;
    DataSnoc(all, i);
    DataAdd(kept, all[i]);
    RestSnoc(visited, all[i].data, picked);
  }

  lemma WalkStarts<T>(list: List<T>, picked: T -> bool)
    requires list.Valid() && Unique(list.nodes)
    ensures Walking(list, list.nodes, [], 0) && Seen([], 0, [], list.nodes, 0, picked) && list.front == First(list.nodes[0..])
  {
    assert [] + list.nodes[0..] == list.nodes && list.nodes[0..] == list.nodes;
  }

  lemma WalkEnds<T>(list: List<T>, visited: seq<T>, deleted: nat, kept: seq<Node<T>>, all: seq<Node<T>>, i: nat, picked: T -> bool)
    requires Walking(list, all, kept, i) && Seen(visited, deleted, kept, all, i, picked) && First(all[i..]) == null
    ensures list.Valid() && visited == DataOf(all) && list.Contents() == Rest(visited, picked) && deleted + |list.Contents()| == |visited|
  {
    hide Rest, List.Valid, Unique;
    assert i == |all| && kept + all[i..] == kept && DataOf(all)[..i] == DataOf(all);
  }

  /** A loop that deletes the element it stands on and then follows that element's link visits every
      element once and leaves exactly the others, in order. */
  method DeleteMatching<T(==)>(list: List<T>, picked: T -> bool) returns (visited: seq<T>, deleted: nat)
    requires list.Valid() && Unique(list.nodes)
    modifies list, list.nodes`next
    ensures list.Valid() && visited == old(list.Contents()) && list.Contents() == Rest(visited, picked)
    ensures deleted + |list.Contents()| == |visited|
  {
    hide DataOf, Rest, Walking, First, Seen, Unique, List.Valid;
    ghost var all := list.nodes;
    WalkStarts(list, picked);
    visited, deleted := [], 0;
    ghost var kept: seq<Node<T>> := [];
    var current := list.front;
    ghost var i := 0;
    while current != null
      invariant i <= |all| && all == old(list.nodes) && current == First(all[i..])
      invariant Walking(list, all, kept, i) && Seen(visited, deleted, kept, all, i, picked)
      decreases |all| - i
    {
      FirstIs(all, i);
      SeenOne(visited, deleted, kept, all, i, picked);
      visited := visited + [current.data];
      var delete := picked(current.data);
      if delete { deleted := deleted + 1; }
      current, kept := VisitOne(list, current, delete, all, kept, i);
      i := i + 1;
    }
    WalkEnds(list, visited, deleted, kept, all, i, picked);
  }

  lemma FirstIs<T>(all: seq<Node<T>>, i: nat)
    requires i <= |all| && First(all[i..]) != null
    ensures i < |all| && First(all[i..]) == all[i]
  {
  }

  method NextOf<T(==)>(list: List<T>, current: Node<T>, ghost k: nat) returns (n: Node?<T>)
    requires list.Valid() && k < |list.nodes| && list.nodes[k] == current
    ensures n == Behind(list.nodes, k)
  {
    n := current.next;
  }
}
