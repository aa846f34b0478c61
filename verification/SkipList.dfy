/**
 The skip list of skiplist.h.  A node is named by its key and `next[l]` holds
 the links of level l, from the head (`None`) or a node to the next node, or to
 `None` for NULL.  One writer inserts, link store by link store; readers may run
 between any two stores.
 */
module SkipList {
  import opened Wrappers

  const MAX_HEIGHT: nat := 12

  ghost predicate Ascending<K(!new)>(less: (K, K) -> bool, L: seq<K>) {
    Transitive(less) && forall i, j :: 0 <= i < j < |L| ==> less(L[i], L[j])
  }

  /** The node at position i of a level, or NULL behind the end. */
  function NodeAt<K>(L: seq<K>, i: nat): Option<K> { if i < |L| then Some(L[i]) else None }

  /** The node before position i, or the head. */
  function NodeBefore<K>(L: seq<K>, i: nat): Option<K>
    requires i <= |L|
  {
    if i > 0 then Some(L[i - 1]) else None
  }

  /** The links of one level run through exactly the nodes of L. */
  ghost predicate Chain<K(!new)>(m: map<Option<K>, Option<K>>, L: seq<K>) {
    forall i :: 0 <= i <= |L| ==> NodeBefore(L, i) in m && m[NodeBefore(L, i)] == NodeAt(L, i)
  }

  /** Position p splits a level into what is before the target and what is not. */
  ghost predicate Splits<K(!new)>(less: (K, K) -> bool, L: seq<K>, target: K, p: int) {
    && 0 <= p <= |L|
    && (forall i :: 0 <= i < p ==> less(L[i], target))
    && forall i :: p <= i < |L| ==> !less(L[i], target)
  }

  /** The least key not before the target, or NULL if all are before it. */
  ghost predicate LeastFrom<K(!new)>(less: (K, K) -> bool, L: seq<K>, target: K, node: Option<K>) {
    match node
    case None => forall k :: k in L ==> less(k, target)
    case Some(n) => n in L && !less(n, target) && forall k :: k in L ==> less(k, target) || k == n || less(n, k)
  }

  /** The greatest key before the target, or the head if none is. */
  ghost predicate GreatestBefore<K(!new)>(less: (K, K) -> bool, L: seq<K>, target: K, node: Option<K>) {
    match node
    case None => forall k :: k in L ==> !less(k, target)
    case Some(n) => n in L && less(n, target) && forall k :: k in L && less(k, target) ==> k == n || less(k, n)
  }

  lemma {:induction false} SplitNodes<K(!new)>(less: (K, K) -> bool, L: seq<K>, target: K, p: nat)
    requires Ascending(less, L) && Splits(less, L, target, p)
    ensures LeastFrom(less, L, target, NodeAt(L, p)) && GreatestBefore(less, L, target, NodeBefore(L, p))
  {
    forall k | k in L
      ensures p < |L| ==> less(k, target) || k == L[p] || less(L[p], k)
      ensures p > 0 && less(k, target) ==> k == L[p - 1] || less(k, L[p - 1])
    {
      var i :| 0 <= i < |L| && L[i] == k;
    }
  }

  /** M is L with x put in at one place. */
  ghost predicate JoinedBy<K(!new)>(L: seq<K>, M: seq<K>, x: K) {
    exists p :: 0 <= p <= |L| && M == L[..p] + [x] + L[p..]
  }

  lemma {:induction false} JoinsAt<K(!new)>(L: seq<K>, x: K, p: nat)
    requires p <= |L|
    ensures JoinedBy(L, L[..p] + [x] + L[p..], x)
  {}

  // -------------------------------------------------- what a search relies on

  /** Where x stands in a level: it is the head or the node before position i, and before the target. */
  ghost predicate Stands<K(!new)>(less: (K, K) -> bool, L: seq<K>, target: K, x: Option<K>, i: int) {
    0 <= i <= |L| && x == NodeBefore(L, i) && (x.Some? ==> less(x.value, target))
  }

  lemma {:induction false} StandsSplits<K(!new)>(less: (K, K) -> bool, L: seq<K>, target: K, x: Option<K>, i: int)
    requires Ascending(less, L) && Stands(less, L, target, x, i)
    requires i < |L| ==> !less(L[i], target)
    ensures Splits(less, L, target, i)
  {
    forall j | 0 <= j < i ensures less(L[j], target) {
      if j < i - 1 { assert less(L[j], L[i - 1]) && less(L[i - 1], target); }
    }
    forall j | i <= j < |L| ensures !less(L[j], target) {
      if i < j { assert less(L[i], L[j]); }
    }
  }

  ghost predicate Sublist<K(!new)>(upper: seq<K>, lower: seq<K>) {
    forall k :: k in upper ==> k in lower
  }

  lemma {:induction false} StandsBelow<K(!new)>(less: (K, K) -> bool, upper: seq<K>, lower: seq<K>, target: K,
      x: Option<K>, i: int)
    returns (j: int)
    requires Sublist(upper, lower) && Stands(less, upper, target, x, i)
    ensures Stands(less, lower, target, x, j)
  {
    if x.None? { j := 0; } else {
      assert x.value in lower;
      var h :| 0 <= h < |lower| && lower[h] == x.value;
      j := h + 1;
    }
  }

  // ----------------------------------------------------- one level at a time

  /** Writing the new node's own link disturbs no level it is not yet part of. */
  lemma {:induction false} OwnLinkKeeps<K(!new)>(m: map<Option<K>, Option<K>>, L: seq<K>, x: K, v: Option<K>)
    requires Chain(m, L) && x !in L
    ensures Chain(m[Some(x) := v], L)
  {}

  /** Publishing the node by its predecessor's link inserts it at its place. */
  lemma {:induction false} PublishLinks<K(!new)>(m: map<Option<K>, Option<K>>, L: seq<K>, x: K, p: nat)
    requires Chain(m, L) && p <= |L| && x !in L && NoRepeats(L)
    requires Some(x) in m && m[Some(x)] == NodeAt(L, p)
    ensures Chain(m[NodeBefore(L, p) := Some(x)], L[..p] + [x] + L[p..])
  {
    var m', L' := m[NodeBefore(L, p) := Some(x)], L[..p] + [x] + L[p..];
    forall i | 0 <= i <= |L'| ensures NodeBefore(L', i) in m' && m'[NodeBefore(L', i)] == NodeAt(L', i) {
      if i <= p {
        assert NodeBefore(L', i) == NodeBefore(L, i);
        if i < p { assert m[NodeBefore(L, i)] == NodeAt(L, i); }
      } else if i == p + 1 {
        assert NodeBefore(L', i) == Some(x);
      } else {
        assert NodeBefore(L', i) == NodeBefore(L, i - 1) && NodeAt(L', i) == NodeAt(L, i - 1);
        assert m[NodeBefore(L, i - 1)] == NodeAt(L, i - 1);
      }
    }
  }

  ghost predicate NoRepeats<K(!new)>(L: seq<K>) {
    forall i, j :: 0 <= i < j < |L| ==> L[i] != L[j]
  }

  ghost predicate Irreflexive<K(!new)>(less: (K, K) -> bool) { forall a :: !less(a, a) }

  lemma {:induction false} AscendingNoRepeats<K(!new)>(less: (K, K) -> bool, L: seq<K>)
    requires Ascending(less, L) && Irreflexive(less)
    ensures NoRepeats(L)
  {
    forall i, j | 0 <= i < j < |L| ensures L[i] != L[j] { assert less(L[i], L[j]); }
  }

  /** Nothing in the level compares equal to the key. */
  ghost predicate Comparable<K(!new)>(less: (K, K) -> bool, L: seq<K>, key: K) {
    forall k :: k in L ==> less(k, key) || less(key, k)
  }

  lemma {:induction false} InsertAscending<K(!new)>(less: (K, K) -> bool, L: seq<K>, x: K, p: nat)
    requires Ascending(less, L) && Splits(less, L, x, p) && Comparable(less, L, x)
    ensures Ascending(less, L[..p] + [x] + L[p..])
  {
    var L' := L[..p] + [x] + L[p..];
    forall i | p <= i < |L| ensures less(x, L[i]) { assert L[i] in L; }
    forall i, j | 0 <= i < j < |L'| ensures less(L'[i], L'[j]) {
      if i < p && p < j { assert less(L[i], x) && less(x, L[j - 1]); }
    }
  }

  /** The new key belongs at position p, behind this node or the head. */
  ghost predicate Precedes<K(!new)>(less: (K, K) -> bool, L: seq<K>, key: K, before: Option<K>, p: nat) {
    Splits(less, L, key, p) && before == NodeBefore(L, p)
  }

  lemma {:induction false} PrecedesSplits<K(!new)>(less: (K, K) -> bool, L: seq<K>, key: K, before: Option<K>, p: nat)
    requires Precedes(less, L, key, before, p)
    ensures p <= |L| && Splits(less, L, key, p) && before == NodeBefore(L, p)
  {}

  /** Every level is ascending, linked, and a sublist of the level below. */
  ghost predicate Well<K(!new)>(less: (K, K) -> bool, next: seq<map<Option<K>, Option<K>>>, levels: seq<seq<K>>) {
    && Transitive(less) && Irreflexive(less)
    && |next| == |levels| == MAX_HEIGHT
    && (forall l :: 0 <= l < MAX_HEIGHT ==> Ascending(less, levels[l]) && Chain(next[l], levels[l]))
    && forall l :: 0 < l < MAX_HEIGHT ==> Sublist(levels[l], levels[l - 1])
  }

  lemma {:induction false} InBottom<K(!new)>(levels: seq<seq<K>>, l: nat)
    requires l < |levels| && forall m :: 0 < m < |levels| ==> Sublist(levels[m], levels[m - 1])
    ensures Sublist(levels[l], levels[0])
  {
    if l > 0 { InBottom(levels, l - 1); }
  }

  // -------------------------------------------------------------- the list

  class List<K(!new, ==)> {
    const less: (K, K) -> bool
    var next: seq<map<Option<K>, Option<K>>>
    var maxHeight: nat
    /** The nodes of every level, in order. */
    ghost var levels: seq<seq<K>>

    constructor (less: (K, K) -> bool)
      requires Transitive(less) && Irreflexive(less)
      ensures Valid() && Contents() == [] && this.less == less && maxHeight == 1
    {
      this.less := less;
      next := seq(MAX_HEIGHT, _ => map[None := None]);
      levels := seq(MAX_HEIGHT, _ => []);
      maxHeight := 1;
    }

    /** A well-formed list; levels from maxHeight on are empty. */
    ghost predicate Valid()
      reads this
    {
      && Well(less, next, levels) && 1 <= maxHeight <= MAX_HEIGHT
      && forall l :: maxHeight <= l < MAX_HEIGHT ==> levels[l] == []
    }

    ghost function Contents(): seq<K>
      requires Valid()
      reads this
    {
      levels[0]
    }

    /** FindGreaterOrEqual from any height a reader may have loaded.  It returns
        the first node not before the key, and the predecessors at every level it
        passed. */
    method FindGreaterOrEqual(key: K, height: nat) returns (node: Option<K>, prev: seq<Option<K>>, ghost at: seq<nat>)
      requires Valid() && 1 <= height <= MAX_HEIGHT
      ensures |prev| == |at| == height
      ensures forall l :: 0 <= l < height ==>
              Splits(less, levels[l], key, at[l]) && prev[l] == NodeBefore(levels[l], at[l])
      ensures node == NodeAt(Contents(), at[0]) && LeastFrom(less, Contents(), key, node)
    {
      var x: Option<K>, level: nat := None, height - 1;
      prev, at := seq(height, _ => None), seq(height, _ => 0);
      ghost var i := 0;
      while true
        invariant level < height && |prev| == |at| == height
        invariant Stands(less, levels[level], key, x, i)
        invariant forall l :: level < l < height ==>
            Splits(less, levels[l], key, at[l]) && prev[l] == NodeBefore(levels[l], at[l])
        decreases level, |levels[level]| - i
      {
        assert Ascending(less, levels[level]) && Chain(next[level], levels[level]);
        assert NodeBefore(levels[level], i) in next[level];
        var nxt := next[level][x];
        if nxt.Some? && less(nxt.value, key) {
          x, i := nxt, i + 1;
        } else {
          StandsSplits(less, levels[level], key, x, i);
          prev, at := prev[level := x], at[level := i];
          if level == 0 {
            SplitNodes(less, levels[0], key, i);
            return nxt, prev, at;
          }
          i := StandsBelow(less, levels[level], levels[level - 1], key, x, i);
          level := level - 1;
        }
      }
    }

    /** FindLessThan: the last node before the key, or the head. */
    method FindLessThan(key: K, height: nat) returns (node: Option<K>, ghost p: nat)
      requires Valid() && 1 <= height <= MAX_HEIGHT
      ensures Splits(less, Contents(), key, p) && node == NodeBefore(Contents(), p)
      ensures GreatestBefore(less, Contents(), key, node)
    {
      var x: Option<K>, level: nat := None, height - 1;
      ghost var i := 0;
      while true
        invariant level < height && Stands(less, levels[level], key, x, i)
        decreases level, |levels[level]| - i
      {
        assert Ascending(less, levels[level]) && Chain(next[level], levels[level]);
        assert NodeBefore(levels[level], i) in next[level];
        var nxt := next[level][x];
        if nxt.None? || !less(nxt.value, key) {
          StandsSplits(less, levels[level], key, x, i);
          if level == 0 {
            SplitNodes(less, levels[0], key, i);
            return x, i;
          }
          i := StandsBelow(less, levels[level], levels[level - 1], key, x, i);
          level := level - 1;
        } else {
          x, i := nxt, i + 1;
        }
      }
    }

    /** FindLast: the last node, or the head of an empty list. */
    method FindLast(height: nat) returns (node: Option<K>)
      requires Valid() && 1 <= height <= MAX_HEIGHT
      ensures node == NodeBefore(Contents(), |Contents()|)
    {
      var x: Option<K>, level: nat := None, height - 1;
      ghost var i := 0;
      while true
        invariant level < height && 0 <= i <= |levels[level]| && x == NodeBefore(levels[level], i)
        decreases level, |levels[level]| - i
      {
        assert Chain(next[level], levels[level]);
        assert NodeBefore(levels[level], i) in next[level];
        var nxt := next[level][x];
        if nxt.None? {
          if level == 0 {
            return x;
          }
          if x.Some? {
            assert x.value in levels[level];
            ghost var h :| 0 <= h < |levels[level - 1]| && levels[level - 1][h] == x.value;
            i := h + 1;
          }
          level := level - 1;
        } else {
          x, i := nxt, i + 1;
        }
      }
    }

    /** The first of the two stores that link the new node into level l. */
    method StoreOwnLink(x: K, l: nat, before: Option<K>, ghost p: nat)
      requires Valid() && l < MAX_HEIGHT && x !in levels[l] && p <= |levels[l]| && before == NodeBefore(levels[l], p)
      modifies this`next
      ensures Valid() && levels == old(levels) && forall k :: 0 <= k < MAX_HEIGHT && k != l ==> next[k] == old(next[k])
      ensures Some(x) in next[l] && next[l][Some(x)] == NodeAt(levels[l], p)
      ensures next[l] == old(next[l])[Some(x) := NodeAt(levels[l], p)]
      ensures Later(old(World(next, levels)), World(next, levels))
    {
      assert Chain(next[l], levels[l]);
      OwnLinkKeeps(next[l], levels[l], x, next[l][before]);
      next := next[l := next[l][Some(x) := next[l][before]]];
    }

    /** The second store makes the node part of the level. */
    method StorePrevLink(x: K, l: nat, before: Option<K>, ghost p: nat)
      requires Valid() && l < maxHeight && x !in levels[l] && Splits(less, levels[l], x, p) &&
               before == NodeBefore(levels[l], p)
      requires Some(x) in next[l] && next[l][Some(x)] == NodeAt(levels[l], p)
      requires Comparable(less, levels[l], x) && (l > 0 ==> x in levels[l - 1])
      modifies this`next, this`levels
      ensures Valid() && levels == old(levels)[l := old(levels)[l][..p] + [x] + old(levels)[l][p..]]
      ensures World(next, levels) == Joined(old(World(next, levels)), x, l, before, p)
      ensures Later(old(World(next, levels)), World(next, levels))
    {
      OnePlace(less, next[l], levels[l], x, before, p);
      JoinWell(less, World(next, levels), x, l, before, p);
      hide Well, Later, Splits, Comparable;
      next := next[l := next[l][before := Some(x)]];
      levels := levels[l := levels[l][..p] + [x] + levels[l][p..]];
    }

    /** Insert with the height that RandomHeight drew. */
    method Insert(key: K, height: nat) returns (ghost p: nat)
      requires Valid() && 1 <= height <= MAX_HEIGHT && Comparable(less, Contents(), key)
      modifies this
      ensures Valid() && p <= |old(Contents())| && Splits(less, old(Contents()), key, p)
      ensures Contents() == old(Contents())[..p] + [key] + old(Contents())[p..]
      ensures maxHeight == if height > old(maxHeight) then height else old(maxHeight)
      // the node is linked into every level below its height and into no other
      ensures forall l :: 0 <= l < MAX_HEIGHT ==>
                if l < height then JoinedBy(old(levels)[l], levels[l], key) else levels[l] == old(levels)[l]
    {
      hide Precedes, Well, JoinedBy, Later, Splits, Comparable, Joined;
      var prev;
      ghost var at;
      prev, at := Predecessors(key, height);
      ghost var start := levels;
      WellFacts();
      if height > maxHeight {
        maxHeight := height;
      }
      p := at[0];
      assert Precedes(less, start[0], key, prev[0], p);
      PrecedesSplits(less, start[0], key, prev[0], p);
      ghost var h := maxHeight;
      var i := 0;
      while i < height
        invariant 0 <= i <= height <= maxHeight == h && Valid()
        invariant |levels| == |start| == MAX_HEIGHT && forall l :: i <= l < MAX_HEIGHT ==> levels[l] == start[l]
        invariant i == 0 || key in levels[i - 1]
        invariant i > 0 ==> levels[0] == start[0][..p] + [key] + start[0][p..]
        invariant forall l :: 0 <= l < i ==> JoinedBy(start[l], levels[l], key)
      {
        assert Precedes(less, start[i], key, prev[i], at[i]);
        PrecedesSplits(less, start[i], key, prev[i], at[i]);
        FreshAt(start, i, key);
        StoreOwnLink(key, i, prev[i], at[i]);
        StorePrevLink(key, i, prev[i], at[i]);
        JoinsAt(start[i], key, at[i]);
        i := i + 1;
      }
    }

    lemma {:induction false} WellFacts()
      requires Well(less, next, levels)
      ensures |levels| == MAX_HEIGHT && Irreflexive(less)
      ensures forall m :: 0 < m < MAX_HEIGHT ==> Sublist(levels[m], levels[m - 1])
    {}

    /** The predecessor of the key at every level below height; the head where
        the list does not reach yet. */
    method Predecessors(key: K, height: nat) returns (prev: seq<Option<K>>, ghost at: seq<nat>)
      requires Valid() && 1 <= height <= MAX_HEIGHT
      ensures height <= |prev| == |at|
      ensures forall l :: 0 <= l < height ==> Precedes(less, levels[l], key, prev[l], at[l])
    {
      var node;
      node, prev, at := FindGreaterOrEqual(key, maxHeight);
      if height > maxHeight {
        var more := height - maxHeight;
        prev, at := prev + seq(more, _ => None), at + seq(more, _ => 0);
      }
    }

    lemma {:induction false} FreshAt(start: seq<seq<K>>, l: nat, key: K)
      requires l < |start| && (forall m :: 0 < m < |start| ==> Sublist(start[m], start[m - 1]))
      requires Irreflexive(less) && Comparable(less, start[0], key)
      ensures key !in start[l] && Comparable(less, start[l], key)
    {
      InBottom(start, l);
    }
  }

  // ------------------------------------------------------ a concurrent reader

  /** The links in memory and the levels they stand for. */
  datatype World<K(==)> = World(next: seq<map<Option<K>, Option<K>>>, levels: seq<seq<K>>)

  /** FindGreaterOrEqual between two loads, or its result. */
  datatype Reader<K> = Going(target: K, x: Option<K>, level: nat) | Returned(node: Option<K>)

  /** One load of a link and what follows from it. */
  function Load<K(==)>(less: (K, K) -> bool, next: seq<map<Option<K>, Option<K>>>, r: Reader<K>): Reader<K>
    requires r.Going? && r.level < |next| && r.x in next[r.level]
  {
    var nxt := next[r.level][r.x];
    if nxt.Some? && less(nxt.value, r.target) then r.(x := nxt)
    else if r.level == 0 then Returned(nxt)
    else r.(level := r.level - 1)
  }

  ghost predicate ReaderOk<K(!new)>(less: (K, K) -> bool, w: World<K>, r: Reader<K>) {
    r.Going? ==> r.level < |w.levels| && exists i :: Stands(less, w.levels[r.level], r.target, r.x, i)
  }

  /** Nodes only ever join levels. */
  ghost predicate Later<K(!new)>(w: World<K>, w': World<K>) {
    |w.levels| <= |w'.levels| && forall l :: 0 <= l < |w.levels| ==> Sublist(w.levels[l], w'.levels[l])
  }

  lemma {:induction false} InsertLater<K(!new)>(L: seq<K>, x: K, p: nat)
    requires p <= |L|
    ensures Sublist(L, L[..p] + [x] + L[p..])
  {
    assert L == L[..p] + L[p..];
  }

  lemma {:induction false} ReaderSurvives<K(!new)>(less: (K, K) -> bool, w: World<K>, w': World<K>, r: Reader<K>)
    requires ReaderOk(less, w, r) && Later(w, w')
    ensures ReaderOk(less, w', r)
  {
    if r.Going? {
      var i :| Stands(less, w.levels[r.level], r.target, r.x, i);
      var j := StandsBelow(less, w.levels[r.level], w'.levels[r.level], r.target, r.x, i);
    }
  }

  lemma {:induction false} LoadKeeps<K(!new)>(less: (K, K) -> bool, w: World<K>, r: Reader<K>)
    requires Well(less, w.next, w.levels) && r.Going? && ReaderOk(less, w, r)
    ensures r.level < |w.next| && r.x in w.next[r.level]
    ensures var s := Load(less, w.next, r);
            && ReaderOk(less, w, s)
            && (s.Returned? ==> exists p :: Splits(less, w.levels[0], r.target, p) && s.node == NodeAt(w.levels[0], p))
  {
    var L := w.levels[r.level];
    var i :| Stands(less, L, r.target, r.x, i);
    assert Ascending(less, L) && Chain(w.next[r.level], L);
    assert NodeBefore(L, i) in w.next[r.level];
    var nxt := w.next[r.level][r.x];
    if nxt.Some? && less(nxt.value, r.target) {
      assert Stands(less, L, r.target, nxt, i + 1);
    } else {
      StandsSplits(less, L, r.target, r.x, i);
      if r.level > 0 {
        var j := StandsBelow(less, L, w.levels[r.level - 1], r.target, r.x, i);
      }
    }
  }

  // ----------------------------------------------------- a running insertion

  /** The writer between two of its stores: level i of the new node is next, its
      own link in that level already stored or not. */
  datatype Inserter<K> = Resting | Storing(key: K, height: nat, prev: seq<Option<K>>, i: nat, linked: bool)

  ghost predicate Place<K(!new)>(less: (K, K) -> bool, L: seq<K>, key: K, before: Option<K>) {
    exists p :: Precedes(less, L, key, before, p)
  }

  /** Insert after its search: a key the list does not hold, and the predecessors
      FindGreaterOrEqual returned, the head above the height it searched. */
  ghost predicate Begins<K(!new)>(less: (K, K) -> bool, w: World<K>, a: Inserter<K>) {
    && a.Storing? && a.i == 0 && !a.linked && 1 <= a.height <= MAX_HEIGHT <= |w.levels| && a.height <= |a.prev|
    && Comparable(less, w.levels[0], a.key)
    && forall l :: 0 <= l < a.height ==> Place(less, w.levels[l], a.key, a.prev[l])
  }

  /** x->NoBarrier_SetNext(i, prev[i]->NoBarrier_Next(i)). */
  ghost predicate StoresOwn<K(!new)>(w: World<K>, w': World<K>, a: Inserter<K>, a': Inserter<K>) {
    && a.Storing? && !a.linked && a.i < |w.next| && a.i < |a.prev| && a.prev[a.i] in w.next[a.i]
    && a' == a.(linked := true)
    && var m := w.next[a.i];
       w' == World(w.next[a.i := m[Some(a.key) := m[a.prev[a.i]]]], w.levels)
  }

  /** prev[i]->SetNext(i, x), which makes the node part of level i. */
  ghost predicate StoresPrev<K(!new)>(less: (K, K) -> bool, w: World<K>, w': World<K>, a: Inserter<K>,
      a': Inserter<K>) {
    && a.Storing? && a.linked && a.i < |w.next| && a.i < |w.levels| && a.i < |a.prev|
    && a' == (if a.i + 1 < a.height then a.(i := a.i + 1, linked := false) else Resting)
    && exists p :: Precedes(less, w.levels[a.i], a.key, a.prev[a.i], p) && w' == Joined(w, a.key, a.i, a.prev[a.i], p)
  }

  ghost function Joined<K>(w: World<K>, key: K, l: nat, before: Option<K>, p: nat): World<K>
    requires l < |w.next| && l < |w.levels| && p <= |w.levels[l]|
  {
    var L := w.levels[l];
    World(w.next[l := w.next[l][before := Some(key)]], w.levels[l := L[..p] + [key] + L[p..]])
  }

  /** What holds between any two stores. */
  ghost predicate InserterOk<K(!new)>(less: (K, K) -> bool, w: World<K>, a: Inserter<K>) {
    && Well(less, w.next, w.levels)
    && (a.Storing? ==>
          && a.i < a.height <= MAX_HEIGHT && a.height <= |a.prev|
          && (forall l :: a.i <= l < MAX_HEIGHT ==> a.key !in w.levels[l] && Comparable(less, w.levels[l], a.key))
          && (forall l :: a.i <= l < a.height ==> Place(less, w.levels[l], a.key, a.prev[l]))
          && (a.i > 0 ==> a.key in w.levels[a.i - 1])
          && (a.linked ==> OwnLinked(less, w.next[a.i], w.levels[a.i], a.key, a.prev[a.i])))
  }

  ghost predicate OwnLinked<K(!new)>(less: (K, K) -> bool, m: map<Option<K>, Option<K>>, L: seq<K>, key: K,
      before: Option<K>) {
    Some(key) in m && forall p :: Precedes(less, L, key, before, p) ==> m[Some(key)] == NodeAt(L, p)
  }

  lemma {:induction false} BeginKeeps<K(!new)>(less: (K, K) -> bool, w: World<K>, a: Inserter<K>)
    requires Well(less, w.next, w.levels) && Begins(less, w, a)
    ensures InserterOk(less, w, a)
  {
    hide Place, Chain, Ascending;
    forall l | 0 <= l < MAX_HEIGHT ensures a.key !in w.levels[l] && Comparable(less, w.levels[l], a.key) {
      InBottom(w.levels, l);
      NotBelow(less, w.levels[l], w.levels[0], a.key);
    }
  }

  lemma {:induction false} NotBelow<K(!new)>(less: (K, K) -> bool, upper: seq<K>, lower: seq<K>, key: K)
    requires Irreflexive(less) && Sublist(upper, lower) && Comparable(less, lower, key)
    ensures key !in upper && Comparable(less, upper, key)
  {}

  lemma {:induction false} OwnStoreKeeps<K(!new)>(less: (K, K) -> bool, w: World<K>, w': World<K>, a: Inserter<K>,
      a': Inserter<K>)
    requires InserterOk(less, w, a) && StoresOwn(w, w', a, a')
    ensures InserterOk(less, w', a') && Later(w, w')
  {
    hide Place, Ascending, Chain, Comparable;
    var l, m := a.i, w.next[a.i];
    var L := w.levels[l];
    assert Chain(m, L) && Place(less, L, a.key, a.prev[l]);
    OwnLinkKeeps(m, L, a.key, m[a.prev[l]]);
    OwnLinkSet(less, m, L, a.key, a.prev[l]);
  }

  lemma {:induction false} OwnLinkSet<K(!new)>(less: (K, K) -> bool, m: map<Option<K>, Option<K>>, L: seq<K>, key: K,
      before: Option<K>)
    requires Chain(m, L) && key !in L && before in m
    ensures OwnLinked(less, m[Some(key) := m[before]], L, key, before)
  {}

  lemma {:induction false} SplitsOnce<K(!new)>(less: (K, K) -> bool, L: seq<K>, key: K, p: nat, q: nat)
    requires Splits(less, L, key, p) && Splits(less, L, key, q)
    ensures p == q
  {
    var least := if p < q then p else q;
    assert least < |L| ==> !less(L[least], key);
  }

  lemma {:induction false} OnePlace<K(!new)>(less: (K, K) -> bool, m: map<Option<K>, Option<K>>, L: seq<K>, key: K,
      before: Option<K>, p: nat)
    requires Splits(less, L, key, p) && before == NodeBefore(L, p) && Some(key) in m && m[Some(key)] == NodeAt(L, p)
    ensures Precedes(less, L, key, before, p) && OwnLinked(less, m, L, key, before)
  {
    forall q: nat | Precedes(less, L, key, before, q) ensures q == p { SplitsOnce(less, L, key, p, q); }
  }

  lemma {:induction false} PrevStoreKeeps<K(!new)>(less: (K, K) -> bool, w: World<K>, w': World<K>, a: Inserter<K>,
      a': Inserter<K>)
    requires InserterOk(less, w, a) && StoresPrev(less, w, w', a, a')
    ensures InserterOk(less, w', a') && Later(w, w')
  {
    hide Place, Comparable, OwnLinked, Ascending, Chain;
    var l := a.i;
    var p :| Precedes(less, w.levels[l], a.key, a.prev[l], p) && w' == Joined(w, a.key, l, a.prev[l], p);
    JoinWell(less, w, a.key, l, a.prev[l], p);
  }

  /** Publishing the node in a level keeps the whole structure. */
  lemma {:induction false} JoinWell<K(!new)>(less: (K, K) -> bool, w: World<K>, key: K, l: nat, before: Option<K>,
      p: nat)
    requires Well(less, w.next, w.levels) && l < MAX_HEIGHT && Precedes(less, w.levels[l], key, before, p)
    requires key !in w.levels[l] && Comparable(less, w.levels[l], key) && (l > 0 ==> key in w.levels[l - 1])
    requires OwnLinked(less, w.next[l], w.levels[l], key, before)
    ensures var w' := Joined(w, key, l, before, p);
            && Well(less, w'.next, w'.levels) && Later(w, w') && key in w'.levels[l]
            && forall k :: 0 <= k < MAX_HEIGHT && k != l ==> w'.levels[k] == w.levels[k]
  {
    var L, w' := w.levels[l], Joined(w, key, l, before, p);
    assert Ascending(less, L) && Chain(w.next[l], L);
    AscendingNoRepeats(less, L);
    PublishLinks(w.next[l], L, key, p);
    InsertAscending(less, L, key, p);
    InsertLater(L, key, p);
    hide Ascending, Chain, Splits, Comparable, OwnLinked;
    assert w'.levels[l][p] == key;
    forall k | 0 < k < MAX_HEIGHT ensures Sublist(w'.levels[k], w'.levels[k - 1]) {
      assert Sublist(w.levels[k], w.levels[k - 1]);
    }
  }

  // --------------------------------------------- a search during insertions

  /** Loads of one search interleaved with the stores of any number of insertions. */
  ghost predicate Interleaved<K(!new)>(less: (K, K) -> bool, ws: seq<World<K>>, ins: seq<Inserter<K>>,
      rs: seq<Reader<K>>) {
    && |ws| == |ins| == |rs| > 0 && Well(less, ws[0].next, ws[0].levels) && ins[0].Resting?
    && rs[0].Going? && rs[0].x.None? && rs[0].level < MAX_HEIGHT
    && forall k :: 0 < k < |ws| ==> Moves(less, ws[k - 1], ins[k - 1], rs[k - 1], ws[k], ins[k], rs[k])
  }

  /** One load by the reader, or the start or one store of an insertion. */
  ghost predicate Moves<K(!new)>(less: (K, K) -> bool, w: World<K>, a: Inserter<K>, r: Reader<K>, w': World<K>,
      a': Inserter<K>, r': Reader<K>) {
    || (w' == w && a' == a && Loads(less, w, r, r'))
    || (r' == r && w' == w && a.Resting? && Begins(less, w, a'))
    || (r' == r && StoresOwn(w, w', a, a'))
    || (r' == r && StoresPrev(less, w, w', a, a'))
  }

  ghost predicate Loads<K(!new)>(less: (K, K) -> bool, w: World<K>, r: Reader<K>, s: Reader<K>) {
    r.Going? && r.level < |w.next| && r.x in w.next[r.level] && s == Load(less, w.next, r)
  }

  /** The structure is valid and the reader on track in every state of the interleaving. */
  lemma {:induction false} MoveKeeps<K(!new)>(less: (K, K) -> bool, w: World<K>, a: Inserter<K>, r: Reader<K>,
      w': World<K>, a': Inserter<K>, r': Reader<K>)
    requires InserterOk(less, w, a) && ReaderOk(less, w, r) && Moves(less, w, a, r, w', a', r')
    ensures InserterOk(less, w', a') && ReaderOk(less, w', r') && Later(w, w')
    ensures r'.Going? ==> r.Going? && r'.target == r.target
  {
    hide ReaderOk, StoresOwn, StoresPrev, Begins;
    if w' == w && a' == a && Loads(less, w, r, r') {
      LoadKeeps(less, w, r);
    } else if w' == w && a.Resting? && Begins(less, w, a') {
      BeginKeeps(less, w, a');
    } else {
      if StoresOwn(w, w', a, a') { OwnStoreKeeps(less, w, w', a, a'); } else { PrevStoreKeeps(less, w, w', a, a'); }
      ReaderSurvives(less, w, w', r);
    }
  }

  lemma {:induction false} AlwaysOk<K(!new)>(less: (K, K) -> bool, ws: seq<World<K>>, ins: seq<Inserter<K>>,
      rs: seq<Reader<K>>, k: nat)
    requires Interleaved(less, ws, ins, rs) && k < |ws|
    ensures InserterOk(less, ws[k], ins[k]) && ReaderOk(less, ws[k], rs[k])
    ensures rs[k].Going? ==> rs[k].target == rs[0].target
  {
    hide Moves, Well;
    if k == 0 {
      assert |ws[0].levels| == MAX_HEIGHT by { WellSize(less, ws[0]); }
      assert Stands(less, ws[0].levels[rs[0].level], rs[0].target, None, 0);
    } else {
      AlwaysOk(less, ws, ins, rs, k - 1);
      assert Moves(less, ws[k - 1], ins[k - 1], rs[k - 1], ws[k], ins[k], rs[k]);
      MoveKeeps(less, ws[k - 1], ins[k - 1], rs[k - 1], ws[k], ins[k], rs[k]);
    }
  }

  lemma {:induction false} WellSize<K(!new)>(less: (K, K) -> bool, w: World<K>)
    requires Well(less, w.next, w.levels)
    ensures |w.levels| == MAX_HEIGHT
  {}

  /** A concurrent search answers exactly for the list as it was at its last
      load, whatever height it started from and whatever was inserted meanwhile. */
  lemma {:induction false} ReaderExact<K(!new)>(less: (K, K) -> bool, ws: seq<World<K>>, ins: seq<Inserter<K>>,
      rs: seq<Reader<K>>, k: nat)
    requires Interleaved(less, ws, ins, rs) && 0 < k < |ws| && rs[k - 1].Going? && rs[k].Returned?
    ensures |ws[k].levels| == MAX_HEIGHT && LeastFrom(less, ws[k].levels[0], rs[0].target, rs[k].node)
  {
    hide Interleaved, Moves, InserterOk, ReaderOk, LeastFrom;
    assert |ws| == |ins| == |rs| by { SameLength(less, ws, ins, rs, k); }
    AlwaysOk(less, ws, ins, rs, k - 1);
    SameLength(less, ws, ins, rs, k);
    LastLoad(less, ws[k - 1], ins[k - 1], rs[k - 1], ws[k], ins[k], rs[k]);
  }

  lemma {:induction false} SameLength<K(!new)>(less: (K, K) -> bool, ws: seq<World<K>>, ins: seq<Inserter<K>>,
      rs: seq<Reader<K>>, k: nat)
    requires Interleaved(less, ws, ins, rs) && 0 < k < |ws|
    ensures |ws| == |ins| == |rs| && Moves(less, ws[k - 1], ins[k - 1], rs[k - 1], ws[k], ins[k], rs[k])
  {}

  lemma {:induction false} LastLoad<K(!new)>(less: (K, K) -> bool, w: World<K>, a: Inserter<K>, r: Reader<K>,
      w': World<K>, a': Inserter<K>, r': Reader<K>)
    requires InserterOk(less, w, a) && ReaderOk(less, w, r) && Moves(less, w, a, r, w', a', r') && r.Going? &&
             r'.Returned?
    ensures |w'.levels| == MAX_HEIGHT && LeastFrom(less, w'.levels[0], r.target, r'.node)
  {
    hide ReaderOk, StoresOwn, StoresPrev, Begins, LeastFrom;
    LoadKeeps(less, w, r);
    var p :| Splits(less, w.levels[0], r.target, p) && r'.node == NodeAt(w.levels[0], p);
    SplitNodes(less, w.levels[0], r.target, p);
  }
}
