/** The live snapshots: a circular doubly linked list around a dummy head, oldest
    first. */
module Snapshots {
  class SnapshotImpl {
    const number: nat
    var prev: SnapshotImpl
    var next: SnapshotImpl

    constructor (number: nat)
      ensures this.number == number && prev == next == this
    {
      this.number := number;
      prev, next := this, this;
    }
  }

  /** The slot after i, around the ring. */
  function After(i: nat, n: nat): nat { if i + 1 < n then i + 1 else 0 }

  ghost predicate Distinct(ring: seq<SnapshotImpl>) {
    forall i, j :: 0 <= i < j < |ring| ==> ring[i] != ring[j]
  }

  ghost predicate Linked(ring: seq<SnapshotImpl>)
    reads ring
  {
    forall i :: 0 <= i < |ring| ==>
      && ring[i].next == ring[After(i, |ring|)]
      && ring[After(i, |ring|)].prev == ring[i]
  }

  ghost predicate Ascending(ring: seq<SnapshotImpl>) {
    forall i, j :: 0 <= i < j < |ring| ==> ring[i].number <= ring[j].number
  }

  class SnapshotList {
    const head: SnapshotImpl
    ghost var nodes: seq<SnapshotImpl>

    ghost predicate Valid()
      reads this, head, nodes
    {
      && Distinct([head] + nodes) && Linked([head] + nodes) && Ascending(nodes)
    }

    constructor ()
      ensures Valid() && nodes == [] && fresh(head)
    {
      head := new SnapshotImpl(0);
      nodes := [];
    }

    method Empty() returns (b: bool)
      requires Valid()
      ensures b <==> nodes == []
    {
      assert ([head] + nodes)[0] == head;
      b := head.next == head;
    }

    /** No live snapshot is older. */
    method Oldest() returns (s: SnapshotImpl)
      requires Valid() && nodes != []
      ensures s in nodes && s == nodes[0] && forall t :: t in nodes ==> s.number <= t.number
    {
      assert ([head] + nodes)[0] == head;
      s := head.next;
    }

    /** No live snapshot is newer. */
    method Newest() returns (s: SnapshotImpl)
      requires Valid() && nodes != []
      ensures s in nodes && s == nodes[|nodes| - 1] && forall t :: t in nodes ==> t.number <= s.number
    {
      ghost var ring := [head] + nodes;
      assert ring[|nodes|] == nodes[|nodes| - 1] && ring[After(|nodes|, |ring|)] == head;
      s := head.prev;
    }

    /** A snapshot at a sequence number that no live one exceeds. */
    method New(number: nat) returns (s: SnapshotImpl)
      requires Valid() && forall t :: t in nodes ==> t.number <= number
      modifies this, head, nodes
      ensures Valid() && fresh(s) && s.number == number && nodes == old(nodes) + [s]
    {
      hide Linked, Distinct, Ascending;
      ghost var ring := [head] + nodes;
      s := Link(head, number, ring);
      Grown(ring, s);
      AscendingGrown(nodes, s);
      nodes := nodes + [s];
      assert [head] + nodes == ring + [s];
    }

    /** Takes out s, which stood at place i, and nothing else. */
    method Delete(s: SnapshotImpl) returns (ghost i: nat)
      requires Valid() && s in nodes
      modifies this, head, nodes
      ensures Valid() && i < |old(nodes)| && old(nodes)[i] == s && nodes == old(nodes)[..i] + old(nodes)[i + 1..]
      ensures s !in nodes
    {
      ghost var ring := [head] + nodes;
      i :| 0 <= i < |nodes| && nodes[i] == s;
      hide Linked, Distinct, Ascending, Cut, Kept, After;
      CutHead(head, nodes, i);
      Unlink(s, ring, i + 1);
      CutFacts(ring, i + 1);
      AscendingCut(nodes, i);
      nodes := nodes[..i] + nodes[i + 1..];
    }
  }

  lemma {:induction false} Grown(ring: seq<SnapshotImpl>, s: SnapshotImpl)
    requires Distinct(ring) && s !in ring
    ensures Distinct(ring + [s])
  {}

  lemma {:induction false} AscendingGrown(nodes: seq<SnapshotImpl>, s: SnapshotImpl)
    requires Ascending(nodes) && forall t :: t in nodes ==> t.number <= s.number
    ensures Ascending(nodes + [s])
  {}

  lemma {:induction false} AscendingCut(nodes: seq<SnapshotImpl>, i: nat)
    requires Ascending(nodes) && i < |nodes|
    ensures Ascending(nodes[..i] + nodes[i + 1..])
  {
    var cut := nodes[..i] + nodes[i + 1..];
    assert forall x :: 0 <= x < |cut| ==> cut[x] == nodes[Kept(i, x)];
  }

  /** A new node between the last and the head. */
  method Link(head: SnapshotImpl, number: nat, ghost ring: seq<SnapshotImpl>) returns (s: SnapshotImpl)
    requires ring != [] && ring[0] == head && Distinct(ring) && Linked(ring)
    modifies ring
    ensures fresh(s) && s.number == number && Linked(ring + [s])
  {
    ghost var n := |ring|;
    assert After(n - 1, n) == 0;
    assert head.prev == ring[n - 1];
    s := new SnapshotImpl(number);
    s.next := head;
    s.prev := head.prev;
    s.prev.next := s;
    s.next.prev := s;
    forall x | 0 <= x <= n
      ensures (ring + [s])[x].next == (ring + [s])[After(x, n + 1)] &&
              (ring + [s])[After(x, n + 1)].prev == (ring + [s])[x]
    {
      if x < n - 1 { assert After(x, n) == x + 1 && ring[x].next == ring[x + 1]; }
    }
  }

  /** The neighbours of s point past it. */
  method Unlink(s: SnapshotImpl, ghost ring: seq<SnapshotImpl>, ghost j: nat)
    requires Distinct(ring) && Linked(ring) && 0 < j < |ring| && ring[j] == s
    modifies ring
    ensures Linked(Cut(ring, j))
  {
    ghost var n := |ring|;
    assert After(j - 1, n) == j;
    assert s.prev == ring[j - 1] && s.next == ring[After(j, n)];
    s.prev.next := s.next;
    s.next.prev := s.prev;
    forall x | 0 <= x < n - 1
      ensures Cut(ring, j)[x].next == Cut(ring, j)[After(x, n - 1)] &&
              Cut(ring, j)[After(x, n - 1)].prev == Cut(ring, j)[x]
    {
      CutStep(j, n, x);
      CutAt(ring, j, x);
      CutAt(ring, j, After(x, n - 1));
    }
  }

  ghost function Cut(ring: seq<SnapshotImpl>, j: nat): seq<SnapshotImpl>
    requires j < |ring|
  {
    ring[..j] + ring[j + 1..]
  }

  lemma {:induction false} CutAt(ring: seq<SnapshotImpl>, j: nat, x: nat)
    requires j < |ring| && x < |ring| - 1
    ensures Cut(ring, j)[x] == ring[Kept(j, x)]
  {}

  lemma {:induction false} CutHead(head: SnapshotImpl, nodes: seq<SnapshotImpl>, i: nat)
    requires i < |nodes|
    ensures ([head] + nodes)[i + 1] == nodes[i]
    ensures [head] + (nodes[..i] + nodes[i + 1..]) == Cut([head] + nodes, i + 1)
  {}

  lemma {:induction false} CutFacts(ring: seq<SnapshotImpl>, j: nat)
    requires Distinct(ring) && j < |ring|
    ensures Distinct(Cut(ring, j)) && ring[j] !in Cut(ring, j)
  {
    var cut := Cut(ring, j);
    assert forall x :: 0 <= x < |cut| ==> cut[x] == ring[Kept(j, x)];
  }

  /** The slot of the old ring that slot x of the cut ring holds. */
  function Kept(j: nat, x: nat): nat { if x < j then x else x + 1 }

  /** Following the cut ring is following the old one, past slot j. */
  lemma {:induction false} CutStep(j: nat, n: nat, x: nat)
    requires 0 < j < n && x < n - 1
    ensures Kept(j, After(x, n - 1)) ==
            if Kept(j, x) + 1 == j then After(j, n) else After(Kept(j, x), n)
    ensures Kept(j, x) < n && Kept(j, x) != j && (After(Kept(j, x), n) == j <==> Kept(j, x) + 1 == j)
  {}
}
