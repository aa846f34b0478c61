/**
 The lock-free multi-producer multi-consumer ring of buf_ring.h.

 Threads interleave single shared-memory accesses under sequential consistency;
 what a thread does between two accesses is local.  The four indices are kept
 masked, as in the code.  Beside each index the state counts how often it was
 advanced: these tickets, the values by reservation and the values handed out
 are history variables that no step consults.
 */
module BufRing {
  type Item = int
  type Tid = nat

  /** Where a thread stands, with its local variables: `h` is the head it
      loaded, `t` the tail, `k` and `j` the tickets behind them. */
  datatype Thread =
    | Idle
    | EnqHead(buf: Item)
    | EnqTail(buf: Item, h: nat, k: nat)
    | EnqRecheckHead(buf: Item, h: nat, k: nat, t: nat, j: nat)
    | EnqRecheckTail(buf: Item, h: nat, k: nat, t: nat, j: nat, sawFull: bool)
    | EnqCas(buf: Item, h: nat, k: nat)
    | EnqStore(buf: Item, h: nat, k: nat)
    | EnqWait(buf: Item, h: nat, k: nat)
    | EnqPublish(buf: Item, h: nat, k: nat)
    | DeqHead
    | DeqTail(h: nat, k: nat)
    | DeqCas(h: nat, k: nat)
    | DeqRead(h: nat, k: nat)
    | DeqWait(item: Item, h: nat, k: nat)
    | DeqPublish(item: Item, h: nat, k: nat)

  datatype Ring = Ring(
    prodHead: nat, prodTail: nat, consHead: nat, consTail: nat, slots: seq<Item>,
    threads: map<Tid, Thread>,
    // history: advances of each index, reserved values, returned values
    ph: nat, pt: nat, ch: nat, ct: nat, reserved: seq<Item>, returned: seq<Item>)

  /** The call an idle thread makes, or how a weak compare-and-swap behaves. */
  datatype Choice = Enqueue(buf: Item) | Dequeue | Go | FailSpuriously

  /** `x & mask` for the mask n - 1 of a power of two n. */
  function Mask(x: nat, n: nat): (m: nat)
    requires n > 0
    ensures m < n
  {
    x % n
  }

  /** The ring as buf_ring_alloc leaves it. */
  ghost predicate Fresh(r: Ring) {
    && |r.slots| > 0 && (forall i :: i in r.threads ==> r.threads[i].Idle?)
    && r.prodHead == r.prodTail == r.consHead == r.consTail == 0
    && r.ph == r.pt == r.ch == r.ct == 0 && r.reserved == r.returned == []
  }

  ghost function Set(r: Ring, i: Tid, th: Thread): Ring { r.(threads := r.threads[i := th]) }

  ghost predicate Enabled(r: Ring, i: Tid, c: Choice) {
    && i in r.threads && |r.slots| > 0
    && (r.threads[i].Idle? <==> c.Enqueue? || c.Dequeue?)
    && (c.FailSpuriously? ==> r.threads[i].EnqCas? || r.threads[i].DeqCas?)
    && (r.threads[i].EnqStore? || r.threads[i].DeqRead? ==> r.threads[i].h < |r.slots|)
  }

  /** One access by thread i. */
  ghost function Step(r: Ring, i: Tid, c: Choice): Ring
    requires Enabled(r, i, c)
  {
    var n := |r.slots|;
    match r.threads[i]
    case Idle => if c.Enqueue? then Set(r, i, EnqHead(c.buf)) else Set(r, i, DeqHead)
    case EnqHead(b) => Set(r, i, EnqTail(b, r.prodHead, r.ph))
    case EnqTail(b, h, k) =>
      if Mask(h + 1, n) == r.consTail then Set(r, i, EnqRecheckHead(b, h, k, r.consTail, r.ct))
          else Set(r, i, EnqCas(b, h, k))
    case EnqRecheckHead(b, h, k, t, j) =>
      // on a mismatch `continue` jumps to the loop condition, which is the CAS
      if h == r.prodHead then Set(r, i, EnqRecheckTail(b, h, k, t, j, r.ph + 1 == r.ct + n))
          else Set(r, i, EnqCas(b, h, k))
    case EnqRecheckTail(b, h, k, t, j, _) =>
      if t == r.consTail then Set(r, i, Idle) else Set(r, i, EnqCas(b, h, k))
    case EnqCas(b, h, k) =>
      if c.FailSpuriously? || r.prodHead != h then Set(r, i, EnqHead(b)) else
        Set(r, i, EnqStore(b, h, r.ph)).(prodHead := Mask(h + 1, n), ph := r.ph + 1, reserved := r.reserved + [b])
    case EnqStore(b, h, k) => Set(r, i, EnqWait(b, h, k)).(slots := r.slots[h := b])
    case EnqWait(b, h, k) => if r.prodTail == h then Set(r, i, EnqPublish(b, h, k)) else r
    case EnqPublish(b, h, k) => Set(r, i, Idle).(prodTail := Mask(h + 1, n), pt := r.pt + 1)
    case DeqHead => Set(r, i, DeqTail(r.consHead, r.ch))
    case DeqTail(h, k) => if h == r.prodTail then Set(r, i, Idle) else Set(r, i, DeqCas(h, k))
    case DeqCas(h, k) =>
      if c.FailSpuriously? || r.consHead != h then Set(r, i, DeqHead) else
        Set(r, i, DeqRead(h, r.ch)).(consHead := Mask(h + 1, n), ch := r.ch + 1)
    case DeqRead(h, k) => Set(r, i, DeqWait(r.slots[h], h, k))
    case DeqWait(item, h, k) => if r.consTail == h then Set(r, i, DeqPublish(item, h, k)) else r
    case DeqPublish(item, h, k) =>
      Set(r, i, Idle).(consTail := Mask(h + 1, n), ct := r.ct + 1, returned := r.returned + [item])
  }

  /** Fewer than |slots| advances of an index between a thread's load of it and
      its comparison of the loaded value with that index. */
  ghost predicate NoWrap(r: Ring, i: Tid) {
    && i in r.threads
    && var th := r.threads[i];
    && (th.EnqCas? || th.EnqRecheckHead? ==> r.ph - th.k < |r.slots|)
    && (th.EnqRecheckTail? ==> r.ct - th.j < |r.slots|)
    && (th.DeqCas? ==> r.ch - th.k < |r.slots|)
  }

  /** buf_ring_full, on masked indices. */
  predicate Full(r: Ring)
    requires |r.slots| > 0
  {
    Mask(r.prodHead + 1, |r.slots|) == r.consTail
  }

  /** buf_ring_empty. */
  predicate Empty(r: Ring) { r.consHead == r.prodTail }

  /** buf_ring_count, on masked 32-bit indices. */
  function Count(r: Ring): nat
    requires |r.slots| > 0
  {
    Mask((|r.slots| + r.prodTail - r.consTail) % 0x1_0000_0000, |r.slots|)
  }

  /** An exchange that succeeds finds the ring as the test before it should have
      shown it: a producer's not full, a consumer's not empty. */
  ghost predicate Guarded(r: Ring, i: Tid, c: Choice)
    requires Enabled(r, i, c)
  {
    && var th := r.threads[i];
    && (th.EnqCas? && !c.FailSpuriously? && th.h == r.prodHead ==> !Full(r))
    && (th.DeqCas? && !c.FailSpuriously? && th.h == r.consHead ==> !Empty(r))
  }

  ghost predicate Run(rs: seq<Ring>, who: seq<Tid>, how: seq<Choice>) {
    && |rs| == |who| + 1 == |how| + 1 && Fresh(rs[0])
    && forall m :: 0 <= m < |who| ==>
         Enabled(rs[m], who[m], how[m]) && rs[m + 1] == Step(rs[m], who[m], how[m])
  }

  // -------------------------------------------------------------- invariant

  ghost predicate Geometry(r: Ring) {
    && |r.slots| > 0
    && r.ct <= r.ch <= r.pt <= r.ph <= r.ct + |r.slots| - 1
    && r.prodHead == Mask(r.ph, |r.slots|) && r.prodTail == Mask(r.pt, |r.slots|)
    && r.consHead == Mask(r.ch, |r.slots|) && r.consTail == Mask(r.ct, |r.slots|)
    && |r.reserved| == r.ph && |r.returned| == r.ct
  }

  /** Slots behind the published tickets hold their values, and what was
      returned so far is exactly the first reservations, in order. */
  ghost predicate Contents(r: Ring)
    requires Geometry(r)
  {
    && (forall m :: r.ct <= m < r.pt ==> r.slots[Mask(m, |r.slots|)] == r.reserved[m])
    && r.returned == r.reserved[..r.ct]
  }

  predicate OwnsProd(th: Thread) { th.EnqStore? || th.EnqWait? || th.EnqPublish? }

  predicate OwnsCons(th: Thread) { th.DeqRead? || th.DeqWait? || th.DeqPublish? }

  /** What one thread's locals say about the ring. */
  ghost predicate ThreadOk(r: Ring, th: Thread)
    requires Geometry(r)
  {
    var n := |r.slots|;
    match th
    case Idle => true
    case EnqHead(_) => true
    case EnqTail(_, h, k) => k <= r.ph && h == Mask(k, n)
    case EnqRecheckHead(_, h, k, t, j) =>
      k <= r.ph && h == Mask(k, n) && j <= r.ct && t == Mask(j, n) && Mask(k + 1, n) == t &&
          (k == r.ph ==> k <= j + n - 1)
    case EnqRecheckTail(_, h, k, t, j, _) =>
      k <= r.ph && h == Mask(k, n) && j <= r.ct && t == Mask(j, n) && Mask(k + 1, n) == t &&
          (k == r.ph ==> k <= j + n - 1)
    case EnqCas(_, h, k) => k <= r.ph && h == Mask(k, n) && (k == r.ph ==> k + 1 <= r.ct + n - 1)
    case EnqStore(b, h, k) => r.pt <= k < r.ph && h == Mask(k, n) && b == r.reserved[k]
    case EnqWait(b, h, k) => r.pt <= k < r.ph && h == Mask(k, n) && b == r.reserved[k] && r.slots[h] == b
    case EnqPublish(b, h, k) => r.pt == k < r.ph && h == Mask(k, n) && b == r.reserved[k] && r.slots[h] == b
    case DeqHead => true
    case DeqTail(h, k) => k <= r.ch && h == Mask(k, n)
    case DeqCas(h, k) => k <= r.ch && h == Mask(k, n) && (k == r.ch ==> k < r.pt)
    case DeqRead(h, k) => r.ct <= k < r.ch && h == Mask(k, n)
    case DeqWait(item, h, k) => r.ct <= k < r.ch && h == Mask(k, n) && item == r.reserved[k]
    case DeqPublish(item, h, k) => r.ct == k < r.ch && h == Mask(k, n) && item == r.reserved[k]
  }

  /** Tickets are owned by one thread each. */
  ghost predicate Distinct(threads: map<Tid, Thread>) {
    && (forall a, b :: a in threads && b in threads && a != b && OwnsProd(threads[a]) && OwnsProd(threads[b]) ==>
          threads[a].k != threads[b].k)
    && (forall a, b :: a in threads && b in threads && a != b && OwnsCons(threads[a]) && OwnsCons(threads[b]) ==>
          threads[a].k != threads[b].k)
  }

  ghost predicate Inv(r: Ring) {
    && Geometry(r) && Contents(r) && Distinct(r.threads)
    && forall a :: a in r.threads ==> ThreadOk(r, r.threads[a])
  }

  // -------------------------------------------------------- masked indices

  lemma {:induction false} MulApart(n: nat, d: int)
    ensures d >= 1 ==> n * d >= n
    ensures d <= -1 ==> n * d <= 0 - n
  {}

  lemma {:induction false} MaskUnique(a: nat, q: nat, m: nat, n: nat)
    requires n > 0 && m < n && a == n * q + m
    ensures Mask(a, n) == m
  {
    var p := a / n;
    assert a == n * p + a % n;
    assert n * (p - q) == m - a % n;
    MulApart(n, p - q);
  }

  lemma {:induction false} MaskApart(a: nat, b: nat, n: nat)
    requires a < b < a + n
    ensures Mask(a, n) != Mask(b, n)
  {
    if Mask(a, n) == Mask(b, n) {
      var p, q := a / n, b / n;
      assert a == n * p + a % n && b == n * q + b % n;
      assert n * (q - p) == b - a;
      MulApart(n, q - p);
    }
  }

  lemma {:induction false} MaskWrap(a: nat, n: nat)
    requires n > 0
    ensures Mask(a + n, n) == Mask(a, n) < n
  {
    var p := a / n;
    assert a == n * p + a % n;
    assert a + n == n * (p + 1) + a % n;
    MaskUnique(a + n, p + 1, a % n, n);
  }

  lemma {:induction false} MaskNext(a: nat, n: nat)
    requires n > 0
    ensures Mask(Mask(a, n) + 1, n) == Mask(a + 1, n)
  {
    var p, m := a / n, a % n;
    assert a == n * p + m;
    if m + 1 < n {
      MaskUnique(a + 1, p, m + 1, n);
      MaskUnique(m + 1, 0, m + 1, n);
    } else {
      assert a + 1 == n * (p + 1) + 0;
      MaskUnique(a + 1, p + 1, 0, n);
      MaskUnique(m + 1, 1, 0, n);
    }
  }

  // ------------------------------------------------- the tests, on tickets

  lemma {:induction false} FullIs(r: Ring)
    requires Geometry(r)
    ensures Full(r) <==> r.ph + 1 == r.ct + |r.slots|
  {
    hide Mask;
    var n := |r.slots|;
    MaskNext(r.ph, n);
    MaskWrap(r.ct, n);
    if r.ph + 1 < r.ct + n { MaskApart(r.ct, r.ph + 1, n); }
  }

  lemma {:induction false} EmptyIs(r: Ring)
    requires Geometry(r)
    ensures Empty(r) <==> r.ch == r.pt
  {
    hide Mask;
    if r.ch < r.pt { MaskApart(r.ch, r.pt, |r.slots|); }
  }

  // ------------------------------------------------------------- every step

  /** Steps that touch only the thread's own locals. */
  lemma {:induction false} LocalStep(r: Ring, i: Tid, th: Thread)
    requires Inv(r) && i in r.threads && ThreadOk(r, th) && !OwnsProd(th) && !OwnsCons(th)
    ensures Inv(Set(r, i, th))
  {
    hide Mask;
    var s := Set(r, i, th);
    forall a | a in s.threads ensures ThreadOk(s, s.threads[a]) {
      SameRing(r, s, if a == i then th else r.threads[a]);
    }
  }

  lemma {:induction false} SameRing(r: Ring, s: Ring, th: Thread)
    requires Geometry(r) && s == r.(threads := s.threads) && ThreadOk(r, th)
    ensures Geometry(s) && ThreadOk(s, th)
  {
    }

  /** Ticket ownership is untouched when the thread keeps its ticket or lets it go. */
  lemma {:induction false} DistinctKept(threads: map<Tid, Thread>, i: Tid, th: Thread)
    requires Distinct(threads) && i in threads
    requires OwnsProd(th) ==> OwnsProd(threads[i]) && th.k == threads[i].k
    requires OwnsCons(th) ==> OwnsCons(threads[i]) && th.k == threads[i].k
    ensures Distinct(threads[i := th])
  {}

  /** A thread that takes a fresh ticket collides with nobody. */
  lemma {:induction false} DistinctNew(threads: map<Tid, Thread>, i: Tid, th: Thread)
    requires Distinct(threads) && i in threads
    requires OwnsProd(th) ==> forall a :: a in threads && OwnsProd(threads[a]) ==> threads[a].k < th.k
    requires OwnsCons(th) ==> forall a :: a in threads && OwnsCons(threads[a]) ==> threads[a].k < th.k
    ensures Distinct(threads[i := th])
  {}

  lemma {:induction false} EnqTailOk(r: Ring, b: Item, h: nat, k: nat)
    requires Geometry(r) && ThreadOk(r, EnqTail(b, h, k))
    ensures Mask(h + 1, |r.slots|) == r.consTail ==> ThreadOk(r, EnqRecheckHead(b, h, k, r.consTail, r.ct))
    ensures Mask(h + 1, |r.slots|) != r.consTail ==> ThreadOk(r, EnqCas(b, h, k))
  {
    hide Mask;
    var n := |r.slots|;
    MaskNext(k, n);
    MaskWrap(r.ct, n);
  }

  lemma {:induction false} RecheckHeadOk(r: Ring, b: Item, h: nat, k: nat, t: nat, j: nat)
    requires Geometry(r) && ThreadOk(r, EnqRecheckHead(b, h, k, t, j))
    ensures h == r.prodHead ==> ThreadOk(r, EnqRecheckTail(b, h, k, t, j, r.ph + 1 == r.ct + |r.slots|))
    ensures h != r.prodHead ==> ThreadOk(r, EnqCas(b, h, k))
  {
    hide Mask;
  }

  lemma {:induction false} RecheckTailOk(r: Ring, b: Item, h: nat, k: nat, t: nat, j: nat, sawFull: bool)
    requires Geometry(r) && ThreadOk(r, EnqRecheckTail(b, h, k, t, j, sawFull))
    ensures t != r.consTail ==> ThreadOk(r, EnqCas(b, h, k))
  {
    hide Mask;
    if t != r.consTail && k == r.ph {
      assert j < r.ct;
    }
  }

  lemma {:induction false} InvThread(r: Ring, i: Tid)
    requires Inv(r) && i in r.threads
    ensures Geometry(r) && Contents(r) && ThreadOk(r, r.threads[i])
  {}

  /** Growing heads and tails within capacity invalidate nobody else's locals. */
  lemma {:induction false} ThreadKept(r: Ring, s: Ring, th: Thread)
    requires Geometry(r) && Geometry(s) && ThreadOk(r, th) && s.slots == r.slots && r.reserved <= s.reserved
    requires r.ph <= s.ph && r.pt <= s.pt && r.ch <= s.ch && r.ct <= s.ct
    requires OwnsProd(th) ==> s.pt <= th.k && (th.EnqPublish? ==> s.pt == th.k)
    requires OwnsCons(th) ==> s.ct <= th.k && (th.DeqPublish? ==> s.ct == th.k)
    ensures ThreadOk(s, th)
  {
    hide Mask;
  }

  /** The same for all other threads, when thread i advances an index it alone may advance. */
  lemma {:induction false} OthersKept(r: Ring, s: Ring, i: Tid)
    requires Inv(r) && Geometry(s) && s.slots == r.slots && r.reserved <= s.reserved
    requires i in r.threads && s.threads.Keys == r.threads.Keys
    requires forall a :: a in r.threads && a != i ==> s.threads[a] == r.threads[a]
    requires r.ph <= s.ph && r.pt <= s.pt <= r.pt + 1 && r.ch <= s.ch && r.ct <= s.ct <= r.ct + 1
    requires s.pt > r.pt ==> OwnsProd(r.threads[i]) && r.threads[i].k == r.pt
    requires s.ct > r.ct ==> OwnsCons(r.threads[i]) && r.threads[i].k == r.ct
    ensures forall a :: a in s.threads && a != i ==> ThreadOk(s, s.threads[a])
  {
    hide Mask, Contents;
    forall a | a in s.threads && a != i ensures ThreadOk(s, s.threads[a]) {
      var th := r.threads[a];
      assert ThreadOk(r, th);
      assert OwnsProd(th) && s.pt > r.pt ==> th.k != r.pt;
      assert OwnsCons(th) && s.ct > r.ct ==> th.k != r.ct;
      ThreadKept(r, s, th);
    }
  }

  /** A successful producer exchange on a ring that is not full takes the next ticket. */
  lemma {:induction false} ReserveKeeps(r: Ring, i: Tid, b: Item, h: nat, k: nat)
    requires Inv(r) && i in r.threads && r.threads[i] == EnqCas(b, h, k) && r.prodHead == h && !Full(r)
    ensures Inv(Set(r, i, EnqStore(b, h, r.ph))
                .(prodHead := Mask(h + 1, |r.slots|), ph := r.ph + 1, reserved := r.reserved + [b]))
  {
    hide Mask, Distinct;
    var n := |r.slots|;
    var s := Set(r, i, EnqStore(b, h, r.ph)).(prodHead := Mask(h + 1, n), ph := r.ph + 1, reserved := r.reserved + [b]);
    assert ThreadOk(r, r.threads[i]);
    FullIs(r);
    MaskNext(r.ph, n);
    assert Geometry(s);
    assert s.reserved[..s.ct] == r.reserved[..r.ct];
    forall a | a in r.threads && OwnsProd(r.threads[a])
        ensures r.threads[a].k < r.ph { assert ThreadOk(r, r.threads[a]); }
    DistinctNew(r.threads, i, s.threads[i]);
    OthersKept(r, s, i);
  }

  /** A producer's store hits no slot that anybody else relies on. */
  lemma {:induction false} StoreKeeps(r: Ring, i: Tid, b: Item, h: nat, k: nat)
    requires Inv(r) && i in r.threads && r.threads[i] == EnqStore(b, h, k)
    ensures h < |r.slots| && Inv(Set(r, i, EnqWait(b, h, k)).(slots := r.slots[h := b]))
  {
    hide Mask;
    var n := |r.slots|;
    assert ThreadOk(r, r.threads[i]);
    var s := Set(r, i, EnqWait(b, h, k)).(slots := r.slots[h := b]);
    DistinctKept(r.threads, i, EnqWait(b, h, k));
    forall m | r.ct <= m < r.pt ensures s.slots[Mask(m, n)] == s.reserved[m] { MaskApart(m, k, n); }
    forall a | a in s.threads ensures ThreadOk(s, s.threads[a]) {
      if a != i {
        assert ThreadOk(r, r.threads[a]);
        if OwnsProd(r.threads[a]) {
          var k' := r.threads[a].k;
          assert k' != k;
          if k' < k { MaskApart(k', k, n); } else { MaskApart(k, k', n); }
        }
      }
    }
  }

  lemma {:induction false} EnqWaitKeeps(r: Ring, i: Tid, b: Item, h: nat, k: nat)
    requires Inv(r) && i in r.threads && r.threads[i] == EnqWait(b, h, k) && r.prodTail == h
    ensures Inv(Set(r, i, EnqPublish(b, h, k)))
  {
    hide Mask;
    assert ThreadOk(r, r.threads[i]);
    if r.pt < k { MaskApart(r.pt, k, |r.slots|); }
    var s := Set(r, i, EnqPublish(b, h, k));
    DistinctKept(r.threads, i, EnqPublish(b, h, k));
    forall a | a in s.threads ensures ThreadOk(s, s.threads[a]) { if a != i { SameRing(r, s, r.threads[a]); } }
  }

  lemma {:induction false} EnqPublishKeeps(r: Ring, i: Tid, b: Item, h: nat, k: nat)
    requires Inv(r) && i in r.threads && r.threads[i] == EnqPublish(b, h, k)
    ensures Inv(Set(r, i, Idle).(prodTail := Mask(h + 1, |r.slots|), pt := r.pt + 1))
  {
    hide Mask;
    var n := |r.slots|;
    assert ThreadOk(r, r.threads[i]);
    MaskNext(k, n);
    var s := Set(r, i, Idle).(prodTail := Mask(h + 1, n), pt := r.pt + 1);
    DistinctKept(r.threads, i, Idle);
    OthersKept(r, s, i);
  }

  /** A successful consumer exchange on a ring that is not empty takes the next published ticket. */
  lemma {:induction false} ClaimKeeps(r: Ring, i: Tid, h: nat, k: nat)
    requires Inv(r) && i in r.threads && r.threads[i] == DeqCas(h, k) && r.consHead == h && !Empty(r)
    ensures Inv(Set(r, i, DeqRead(h, r.ch)).(consHead := Mask(h + 1, |r.slots|), ch := r.ch + 1))
  {
    hide Mask;
    var n := |r.slots|;
    assert ThreadOk(r, r.threads[i]);
    EmptyIs(r);
    MaskNext(r.ch, n);
    var s := Set(r, i, DeqRead(h, r.ch)).(consHead := Mask(h + 1, n), ch := r.ch + 1);
    assert Geometry(s);
    forall a | a in r.threads && OwnsCons(r.threads[a])
        ensures r.threads[a].k < r.ch { assert ThreadOk(r, r.threads[a]); }
    DistinctNew(r.threads, i, s.threads[i]);
    OthersKept(r, s, i);
  }

  lemma {:induction false} ConsumerKeeps(r: Ring, i: Tid, th: Thread)
    requires Inv(r) && i in r.threads && OwnsCons(r.threads[i]) && OwnsCons(th) && th.k == r.threads[i].k &&
             ThreadOk(r, th)
    ensures Inv(Set(r, i, th))
  {
    hide Mask;
    var s := Set(r, i, th);
    DistinctKept(r.threads, i, th);
    forall a | a in s.threads ensures ThreadOk(s, s.threads[a]) {
      SameRing(r, s, if a == i then th else r.threads[a]);
    }
  }

  lemma {:induction false} DeqPublishKeeps(r: Ring, i: Tid, item: Item, h: nat, k: nat)
    requires Inv(r) && i in r.threads && r.threads[i] == DeqPublish(item, h, k)
    ensures Inv(Set(r, i, Idle).(consTail := Mask(h + 1, |r.slots|), ct := r.ct + 1, returned := r.returned + [item]))
  {
    hide Mask;
    var n := |r.slots|;
    assert ThreadOk(r, r.threads[i]);
    MaskNext(k, n);
    var s := Set(r, i, Idle).(consTail := Mask(h + 1, n), ct := r.ct + 1, returned := r.returned + [item]);
    DistinctKept(r.threads, i, Idle);
    assert r.reserved[..r.ct + 1] == r.reserved[..r.ct] + [r.reserved[r.ct]];
    OthersKept(r, s, i);
  }

  lemma {:induction false} EnqSearchKeeps(r: Ring, i: Tid, c: Choice)
    requires Inv(r) && Enabled(r, i, c)
    requires r.threads[i].EnqHead? || r.threads[i].EnqTail? || r.threads[i].EnqRecheckHead? ||
             r.threads[i].EnqRecheckTail?
    ensures Inv(Step(r, i, c))
  {
    hide Inv, Mask, Contents;
    InvThread(r, i);
    var next := Step(r, i, c).threads[i];
    match r.threads[i] {
      case EnqHead(b) =>
      case EnqTail(b, h, k) => EnqTailOk(r, b, h, k);
      case EnqRecheckHead(b, h, k, t, j) => RecheckHeadOk(r, b, h, k, t, j);
      case EnqRecheckTail(b, h, k, t, j, f) => RecheckTailOk(r, b, h, k, t, j, f);
    }
    LocalStep(r, i, next);
  }

  lemma {:induction false} EnqStepKeeps(r: Ring, i: Tid, c: Choice)
    requires Inv(r) && Enabled(r, i, c) && Guarded(r, i, c) && (r.threads[i].EnqCas? || OwnsProd(r.threads[i]))
    ensures Inv(Step(r, i, c))
  {
    hide Inv, Mask, Contents, ThreadOk;
    InvThread(r, i);
    match r.threads[i]
    case EnqCas(b, h, k) =>
      if c.FailSpuriously? || r.prodHead != h { LocalStep(r, i, EnqHead(b)) by { IdleOk(r, EnqHead(b)); } }
      else { ReserveKeeps(r, i, b, h, k); }
    case EnqStore(b, h, k) => StoreKeeps(r, i, b, h, k);
    case EnqWait(b, h, k) => if r.prodTail == h { EnqWaitKeeps(r, i, b, h, k); }
    case EnqPublish(b, h, k) => EnqPublishKeeps(r, i, b, h, k);
  }

  lemma {:induction false} IdleOk(r: Ring, th: Thread)
    requires Geometry(r) && (th.Idle? || th.EnqHead? || th.DeqHead?)
    ensures ThreadOk(r, th)
  {}

  lemma {:induction false} DeqSearchKeeps(r: Ring, i: Tid, c: Choice)
    requires Inv(r) && Enabled(r, i, c) && (r.threads[i].DeqHead? || r.threads[i].DeqTail?)
    ensures Inv(Step(r, i, c))
  {
    hide Inv, Mask, Contents;
    InvThread(r, i);
    LocalStep(r, i, Step(r, i, c).threads[i]);
  }

  lemma {:induction false} DeqStepKeeps(r: Ring, i: Tid, c: Choice)
    requires Inv(r) && Enabled(r, i, c) && Guarded(r, i, c) && (r.threads[i].DeqCas? || OwnsCons(r.threads[i]))
    ensures Inv(Step(r, i, c))
  {
    hide Inv, Mask, Contents, ThreadOk;
    InvThread(r, i);
    match r.threads[i]
    case DeqCas(h, k) =>
      if c.FailSpuriously? || r.consHead != h { LocalStep(r, i, DeqHead) by { IdleOk(r, DeqHead); } }
      else { ClaimKeeps(r, i, h, k); }
    case DeqRead(h, k) =>
      ReadOk(r, h, k);
      ConsumerKeeps(r, i, DeqWait(r.slots[h], h, k));
    case DeqWait(item, h, k) =>
      if r.consTail == h {
        DeqWaitOk(r, item, h, k);
        ConsumerKeeps(r, i, DeqPublish(item, h, k));
      }
    case DeqPublish(item, h, k) => DeqPublishKeeps(r, i, item, h, k);
  }

  lemma {:induction false} DeqWaitOk(r: Ring, item: Item, h: nat, k: nat)
    requires Geometry(r) && ThreadOk(r, DeqWait(item, h, k)) && r.consTail == h
    ensures ThreadOk(r, DeqPublish(item, h, k))
  {
    hide Mask;
    if r.ct < k { MaskApart(r.ct, k, |r.slots|); }
  }

  /** Every guarded step keeps the invariant. */
  lemma {:induction false} StepKeeps(r: Ring, i: Tid, c: Choice)
    requires Inv(r) && Enabled(r, i, c) && Guarded(r, i, c)
    ensures Inv(Step(r, i, c))
  {
    var th := r.threads[i];
    if th.Idle? {
      InvThread(r, i);
      LocalStep(r, i, if c.Enqueue? then EnqHead(c.buf) else DeqHead);
    } else if th.DeqHead? || th.DeqTail? {
      DeqSearchKeeps(r, i, c);
    } else if th.DeqCas? || OwnsCons(th) {
      DeqStepKeeps(r, i, c);
    } else if th.EnqCas? || OwnsProd(th) {
      EnqStepKeeps(r, i, c);
    } else {
      EnqSearchKeeps(r, i, c);
    }
  }

  lemma {:induction false} ReadOk(r: Ring, h: nat, k: nat)
    requires Geometry(r) && Contents(r) && ThreadOk(r, DeqRead(h, k))
    ensures h < |r.slots| && ThreadOk(r, DeqWait(r.slots[h], h, k))
  {
    }

  // --------------------------------------------------------------- theorems

  /** Safety over every interleaving of guarded steps: the tickets stay ordered
      and within the ring's capacity, and the items returned are exactly the items
      of the first reservations, in order: none lost, duplicated or reordered. */
  lemma {:induction false} RingSafe(rs: seq<Ring>, who: seq<Tid>, how: seq<Choice>, m: nat)
    requires Run(rs, who, how) && m < |rs|
    requires forall l :: 0 <= l < m ==> Guarded(rs[l], who[l], how[l])
    ensures Inv(rs[m])
    ensures rs[m].ct <= rs[m].ch <= rs[m].pt <= rs[m].ph <= rs[m].ct + |rs[m].slots| - 1
    ensures rs[m].returned == rs[m].reserved[..rs[m].ct]
  {
    hide Step, Enabled, Guarded;
    if m > 0 {
      RingSafe(rs, who, how, m - 1);
      assert Guarded(rs[m - 1], who[m - 1], how[m - 1]);
      StepKeeps(rs[m - 1], who[m - 1], how[m - 1]);
      assert rs[m - 1 + 1] == Step(rs[m - 1], who[m - 1], how[m - 1]);
    }
  }

  /** An exchange that is not guarded breaks the order of the tickets at once. */
  lemma {:induction false} UnguardedBreaks(r: Ring, i: Tid, c: Choice)
    requires Geometry(r) && Enabled(r, i, c) && !Guarded(r, i, c)
    ensures !Geometry(Step(r, i, c))
  {
    hide Mask;
    FullIs(r);
    EmptyIs(r);
  }

  /** The exact condition: a run keeps its tickets ordered and within capacity if
      and only if every exchange that succeeds in it is guarded. */
  lemma {:induction false} RingSafeIff(rs: seq<Ring>, who: seq<Tid>, how: seq<Choice>, m: nat)
    requires Run(rs, who, how) && m < |rs|
    ensures (forall l :: 0 <= l <= m ==> Geometry(rs[l])) <==>
            (forall l :: 0 <= l < m ==> Guarded(rs[l], who[l], how[l]))
  {
    hide Step, Enabled, Guarded, Geometry, Inv;
    if forall l :: 0 <= l < m ==> Guarded(rs[l], who[l], how[l]) {
      forall l | 0 <= l <= m ensures Geometry(rs[l]) {
        RingSafe(rs, who, how, l);
        InvGeometry(rs[l]);
      }
    }
    if forall l :: 0 <= l <= m ==> Geometry(rs[l]) {
      forall l | 0 <= l < m ensures Guarded(rs[l], who[l], how[l]) {
        assert rs[l + 1] == Step(rs[l], who[l], how[l]) && Geometry(rs[l + 1]);
        if !Guarded(rs[l], who[l], how[l]) { UnguardedBreaks(rs[l], who[l], how[l]); }
      }
    }
  }

  lemma {:induction false} InvGeometry(r: Ring)
    requires Inv(r)
    ensures Geometry(r)
  {}

  /** Fewer than |slots| advances under every thread make every exchange guarded. */
  lemma {:induction false} NoWrapGuarded(r: Ring, i: Tid, c: Choice)
    requires Inv(r) && Enabled(r, i, c) && NoWrap(r, i)
    ensures Guarded(r, i, c)
  {
    hide Mask;
    var th := r.threads[i];
    assert ThreadOk(r, th);
    FullIs(r);
    EmptyIs(r);
    if th.EnqCas? && th.k < r.ph { MaskApart(th.k, r.ph, |r.slots|); }
    if th.DeqCas? && th.k < r.ch { MaskApart(th.k, r.ch, |r.slots|); }
  }

  ghost predicate NeverWraps(rs: seq<Ring>, who: seq<Tid>, m: nat) {
    forall l :: 0 <= l < m && l < |rs| && l < |who| ==> NoWrap(rs[l], who[l])
  }

  lemma {:induction false} NoWrapSafe(rs: seq<Ring>, who: seq<Tid>, how: seq<Choice>, m: nat)
    requires Run(rs, who, how) && m < |rs| && NeverWraps(rs, who, m)
    ensures Inv(rs[m]) && forall l :: 0 <= l < m ==> Guarded(rs[l], who[l], how[l])
  {
    hide Step, Enabled, Guarded, Inv, Fresh, NoWrap;
    if m == 0 {
      RingSafe(rs, who, how, 0);
    } else {
      NoWrapSafe(rs, who, how, m - 1);
      NoWrapGuarded(rs[m - 1], who[m - 1], how[m - 1]);
      RingSafe(rs, who, how, m);
    }
  }

  /** No two threads ever own the same slot, whichever side they are on. */
  lemma {:induction false} SlotsNotShared(r: Ring, a: Tid, b: Tid)
    requires Inv(r) && a in r.threads && b in r.threads && a != b
    requires OwnsProd(r.threads[a]) || OwnsCons(r.threads[a])
    requires OwnsProd(r.threads[b]) || OwnsCons(r.threads[b])
    ensures r.threads[a].h != r.threads[b].h
  {
    hide Mask;
    assert ThreadOk(r, r.threads[a]) && ThreadOk(r, r.threads[b]);
    var k, l := r.threads[a].k, r.threads[b].k;
    if k < l { MaskApart(k, l, |r.slots|); } else { MaskApart(l, k, |r.slots|); }
  }

  /** What a producer that found its indices unchanged knows, besides its invariant. */
  ghost predicate SawOk(r: Ring, th: Thread) { th.EnqRecheckTail? && th.j == r.ct ==> th.sawFull }

  lemma {:induction false} SawKept(r: Ring, i: Tid, c: Choice, a: Tid)
    requires Inv(r) && Enabled(r, i, c) && Guarded(r, i, c) && NoWrap(r, i)
    requires a in r.threads && SawOk(r, r.threads[a])
    ensures SawOk(Step(r, i, c), Step(r, i, c).threads[a])
  {
    hide Mask, Contents, Distinct;
    var th, n := r.threads[i], |r.slots|;
    assert ThreadOk(r, th) && ThreadOk(r, r.threads[a]);
    if a == i && th.EnqRecheckHead? && th.h == r.prodHead {
      if th.k < r.ph { MaskApart(th.k, r.ph, n); }
      if th.j == r.ct && th.k + 1 < th.j + n { MaskApart(th.j, th.k + 1, n); }
    }
  }

  /** An enqueue that gives up saw the ring full at one instant of its call. */
  lemma {:induction false} FullWasFull(rs: seq<Ring>, who: seq<Tid>, how: seq<Choice>, m: nat)
    requires Run(rs, who, how) && m < |who| && NeverWraps(rs, who, m + 1)
    requires rs[m].threads[who[m]].EnqRecheckTail? && rs[m + 1].threads[who[m]].Idle?
    ensures rs[m].threads[who[m]].sawFull
  {
    hide Mask, Fresh, Contents, Distinct;
    NoWrapSafe(rs, who, how, m);
    SawAlways(rs, who, how, m, who[m]);
    var r, th := rs[m], rs[m].threads[who[m]];
    assert ThreadOk(r, th) && NoWrap(r, who[m]);
    if th.j < r.ct { MaskApart(th.j, r.ct, |r.slots|); }
  }

  lemma {:induction false} SawAlways(rs: seq<Ring>, who: seq<Tid>, how: seq<Choice>, m: nat, a: Tid)
    requires Run(rs, who, how) && m < |rs| && NeverWraps(rs, who, m) && a in rs[m].threads
    ensures SawOk(rs[m], rs[m].threads[a])
  {
    hide Guarded, Inv, NoWrap;
    if m > 0 {
      var l := m - 1;
      NoWrapSafe(rs, who, how, m);
      NoWrapSafe(rs, who, how, l);
      assert rs[l + 1] == Step(rs[l], who[l], how[l]);
      SawAlways(rs, who, how, l, a);
      SawKept(rs[l], who[l], how[l], a);
    }
  }

  /** A dequeue that returns nothing found the ring empty at that instant, and one
      that goes on saw a published item, as long as fewer than |slots| items were
      published since it loaded the head. */
  lemma {:induction false} EmptyWasEmpty(rs: seq<Ring>, who: seq<Tid>, how: seq<Choice>, m: nat)
    requires Run(rs, who, how) && m < |who|
    requires forall l :: 0 <= l < m ==> Guarded(rs[l], who[l], how[l])
    requires rs[m].threads[who[m]].DeqTail? && rs[m].pt - rs[m].threads[who[m]].k < |rs[m].slots|
    ensures
      var r, th, next := rs[m], rs[m].threads[who[m]], rs[m + 1].threads[who[m]];
      && (next.Idle? ==> r.ch == r.pt)
      && (!next.Idle? ==> next == DeqCas(th.h, th.k) && th.k < r.pt)
      && (th.k == r.pt ==> next.Idle?)
  {
    hide Mask, Fresh, Contents, Distinct, Guarded;
    RingSafe(rs, who, how, m);
    var r, th := rs[m], rs[m].threads[who[m]];
    assert ThreadOk(r, th) && rs[m + 1] == Step(r, who[m], how[m]);
    if th.k < r.pt { MaskApart(th.k, r.pt, |r.slots|); }
  }

  // ------------------------------------------ calls that nobody interrupts

  /** Thread i takes these steps with nobody in between. */
  ghost predicate Alone(r: Ring, i: Tid, cs: seq<Choice>, t: Ring)
    decreases |cs|
  {
    if cs == [] then r == t else Enabled(r, i, cs[0]) && Alone(Step(r, i, cs[0]), i, cs[1..], t)
  }

  lemma {:induction false} AloneNext(r: Ring, i: Tid, c: Choice, cs: seq<Choice>, t: Ring)
    requires Enabled(r, i, c) && Alone(Step(r, i, c), i, cs, t)
    ensures Alone(r, i, [c] + cs, t)
  {
    hide Enabled, Step;
    assert ([c] + cs)[1..] == cs;
  }

  /** n further steps without a spurious failure. */
  function Goes(n: nat): seq<Choice> { if n == 0 then [] else [Go] + Goes(n - 1) }

  lemma {:induction false} GoNext(r: Ring, i: Tid, n: nat, t: Ring)
    requires Enabled(r, i, Go) && Alone(Step(r, i, Go), i, Goes(n), t)
    ensures Alone(r, i, Goes(n + 1), t)
  {
    hide Enabled, Step, Alone;
    AloneNext(r, i, Go, Goes(n), t);
  }

  /** The items in the ring, when no call is under way. */
  ghost function Held(r: Ring): seq<Item>
    requires Geometry(r)
  {
    r.reserved[r.ct..r.pt]
  }

  /** A dequeue on a ring with items takes out the oldest and returns it. */
  lemma {:induction false} SoloDequeue(r: Ring, i: Tid) returns (t: Ring)
    requires Inv(r) && i in r.threads && r.threads[i].Idle? && r.ct == r.ch < r.pt
    ensures Alone(r, i, [Dequeue] + Goes(6), t) && Inv(t) && t.threads == r.threads
    ensures t.returned == r.returned + [r.reserved[r.ct]] && t.reserved == r.reserved
    ensures t.ct == t.ch == r.ct + 1 && t.pt == r.pt && t.ph == r.ph && Held(t) == Held(r)[1..]
  {
    hide Inv, Mask, Contents, Alone, Goes;
    InvThread(r, i);
    var m := SoloClaim(r, i);
    t := SoloReturn(m, i);
    SevenSteps(r, i, Dequeue, m, t);
    InvThread(t, i);
    assert r.threads[i := Idle] == r.threads;
  }

  /** The first half of a dequeue: the head is tested and advanced. */
  lemma {:induction false} SoloClaim(r: Ring, i: Tid) returns (m: Ring)
    requires Inv(r) && i in r.threads && r.threads[i].Idle? && r.ct == r.ch < r.pt
    ensures m == Set(r, i, DeqRead(r.consHead, r.ch)).(consHead := Mask(r.consHead + 1, |r.slots|), ch := r.ch + 1)
    ensures Alone(r, i, [Dequeue] + Goes(3), m) && Inv(m)
  {
    hide Inv, Mask, Contents, Alone, Goes, Geometry, ThreadOk;
    InvThread(r, i);
    EmptyIs(r);
    var h := r.consHead;
    var r1, r2, r3 := Set(r, i, DeqHead), Set(r, i, DeqTail(h, r.ch)), Set(r, i, DeqCas(h, r.ch));
    m := Set(r, i, DeqRead(h, r.ch)).(consHead := Mask(h + 1, |r.slots|), ch := r.ch + 1);
    Becomes(r, i, Dequeue, r1);
    Becomes(r1, i, Go, r2);
    Becomes(r2, i, Go, r3);
    Becomes(r3, i, Go, m);
    ThreeMore(r1, r2, r3, m, i);
    AloneNext(r, i, Dequeue, Goes(3), m);
  }

  /** The second half: the item is read and the slot handed back. */
  lemma {:induction false} SoloReturn(m: Ring, i: Tid) returns (t: Ring)
    requires Inv(m) && i in m.threads && m.threads[i] == DeqRead(m.consTail, m.ct)
    ensures m.ct < |m.reserved|
    ensures t == Set(m, i, Idle).(consTail := Mask(m.consTail + 1, |m.slots|), ct := m.ct + 1,
                                  returned := m.returned + [m.reserved[m.ct]])
    ensures Alone(m, i, Goes(3), t) && Inv(t)
  {
    hide Inv, Mask, Contents, Alone, Goes;
    InvThread(m, i);
    var h := m.consTail;
    PublishedItem(m, m.ct);
    var item := m.reserved[m.ct];
    var r1, r2 := Set(m, i, DeqWait(item, h, m.ct)), Set(m, i, DeqPublish(item, h, m.ct));
    t := Set(m, i, Idle).(consTail := Mask(h + 1, |m.slots|), ct := m.ct + 1, returned := m.returned + [item]);
    Becomes(m, i, Go, r1);
    Becomes(r1, i, Go, r2);
    Becomes(r2, i, Go, t);
    ThreeMore(m, r1, r2, t, i);
  }

  lemma {:induction false} AloneJoin(r: Ring, i: Tid, a: seq<Choice>, m: Ring, b: seq<Choice>, t: Ring)
    requires Alone(r, i, a, m) && Alone(m, i, b, t)
    ensures Alone(r, i, a + b, t)
    decreases |a|
  {
    hide Enabled, Step;
    if a == [] {
      assert a + b == b;
    } else {
      AloneJoin(Step(r, i, a[0]), i, a[1..], m, b, t);
      assert (a + b)[1..] == a[1..] + b;
    }
  }

  lemma {:induction false} SevenSteps(r: Ring, i: Tid, c: Choice, m: Ring, t: Ring)
    requires Alone(r, i, [c] + Goes(3), m) && Alone(m, i, Goes(3), t)
    ensures Alone(r, i, [c] + Goes(6), t)
  {
    hide Alone;
    AloneJoin(r, i, [c] + Goes(3), m, Goes(3), t);
    assert Goes(3) == [Go, Go, Go] && Goes(6) == [Go, Go, Go] + Goes(3);
    assert [c] + Goes(3) + Goes(3) == [c] + Goes(6);
  }

  /** One guarded step, by name. */
  lemma {:induction false} Becomes(r: Ring, i: Tid, c: Choice, t: Ring)
    requires Inv(r) && Enabled(r, i, c) && Guarded(r, i, c)
    requires t.threads == Step(r, i, c).threads && t == Step(r, i, c).(threads := t.threads)
    ensures t == Step(r, i, c) && Inv(t)
  {
    hide Inv, Step, Enabled, Guarded;
    StepKeeps(r, i, c);
  }

  lemma {:induction false} ThreeMore(r1: Ring, r2: Ring, r3: Ring, t: Ring, i: Tid)
    requires Enabled(r1, i, Go) && r2 == Step(r1, i, Go) && Enabled(r2, i, Go) && r3 == Step(r2, i, Go)
    requires Enabled(r3, i, Go) && t == Step(r3, i, Go)
    ensures Alone(r1, i, Goes(3), t)
  {
    hide Enabled, Step, Alone, Goes;
    NoStep(t, i);
    GoNext(r3, i, 0, t);
    GoNext(r2, i, 1, t);
    GoNext(r1, i, 2, t);
  }

  lemma {:induction false} NoStep(t: Ring, i: Tid)
    ensures Alone(t, i, Goes(0), t)
  {}

  lemma {:induction false} PublishedItem(r: Ring, m: nat)
    requires Geometry(r) && Contents(r) && r.ct <= m < r.pt
    ensures Mask(m, |r.slots|) < |r.slots| && r.slots[Mask(m, |r.slots|)] == r.reserved[m]
  {
    hide Mask;
  }

  /** A dequeue on an empty ring returns nothing and changes nothing. */
  lemma {:induction false} SoloDequeueEmpty(r: Ring, i: Tid)
    requires Inv(r) && i in r.threads && r.threads[i].Idle? && r.ch == r.pt
    ensures Alone(r, i, [Dequeue] + Goes(2), r)
  {
    hide Inv, Mask, Contents, Alone, Goes;
    InvThread(r, i);
    EmptyIs(r);
    var r1, r2 := Set(r, i, DeqHead), Set(r, i, DeqTail(r.consHead, r.ch));
    assert r.threads[i := DeqHead][i := r2.threads[i]] == r2.threads && r2.threads[i := Idle] == r.threads;
    assert Alone(r, i, Goes(0), r) by { NoStep(r, i); }
    GoNext(r2, i, 0, r);
    GoNext(r1, i, 1, r);
    AloneNext(r, i, Dequeue, Goes(2), r);
  }

  /** An enqueue on a ring with room puts the item behind all others. */
  lemma {:induction false} SoloEnqueue(r: Ring, i: Tid, b: Item) returns (t: Ring)
    requires Inv(r) && i in r.threads && r.threads[i].Idle? && r.pt == r.ph && r.ph + 1 < r.ct + |r.slots|
    ensures Alone(r, i, [Enqueue(b)] + Goes(6), t) && Inv(t) && t.threads == r.threads
    ensures t.reserved == r.reserved + [b] && t.returned == r.returned
    ensures t.pt == t.ph == r.ph + 1 && t.ct == r.ct && t.ch == r.ch && Held(t) == Held(r) + [b]
  {
    hide Inv, Mask, Contents, Alone, Goes;
    InvThread(r, i);
    var m := SoloReserve(r, i, b);
    t := SoloFill(m, i, b);
    SevenSteps(r, i, Enqueue(b), m, t);
    InvThread(t, i);
    assert r.threads[i := Idle] == r.threads;
  }

  lemma {:induction false} SoloReserve(r: Ring, i: Tid, b: Item) returns (m: Ring)
    requires Inv(r) && i in r.threads && r.threads[i].Idle? && r.pt == r.ph && r.ph + 1 < r.ct + |r.slots|
    ensures m == Set(r, i, EnqStore(b, r.prodHead, r.ph))
                 .(prodHead := Mask(r.prodHead + 1, |r.slots|), ph := r.ph + 1, reserved := r.reserved + [b])
    ensures Alone(r, i, [Enqueue(b)] + Goes(3), m) && Inv(m)
  {
    hide Inv, Mask, Contents, Alone, Goes, Geometry, ThreadOk;
    InvThread(r, i);
    FullIs(r);
    var h, k := r.prodHead, r.ph;
    var r1, r2, r3 := Set(r, i, EnqHead(b)), Set(r, i, EnqTail(b, h, k)), Set(r, i, EnqCas(b, h, k));
    m := Set(r, i, EnqStore(b, h, k)).(prodHead := Mask(h + 1, |r.slots|), ph := k + 1, reserved := r.reserved + [b]);
    Becomes(r, i, Enqueue(b), r1);
    Becomes(r1, i, Go, r2);
    Becomes(r2, i, Go, r3);
    Becomes(r3, i, Go, m);
    ThreeMore(r1, r2, r3, m, i);
    AloneNext(r, i, Enqueue(b), Goes(3), m);
  }

  lemma {:induction false} SoloFill(m: Ring, i: Tid, b: Item) returns (t: Ring)
    requires Inv(m) && i in m.threads && m.threads[i] == EnqStore(b, m.prodTail, m.pt)
    ensures m.prodTail < |m.slots|
    ensures t == Set(m, i, Idle).(slots := m.slots[m.prodTail := b], prodTail := Mask(m.prodTail + 1, |m.slots|),
                                  pt := m.pt + 1)
    ensures Alone(m, i, Goes(3), t) && Inv(t)
  {
    hide Inv, Mask, Contents, Alone, Goes;
    InvThread(m, i);
    var h := m.prodTail;
    var r1 := Set(m, i, EnqWait(b, h, m.pt)).(slots := m.slots[h := b]);
    var r2 := Set(r1, i, EnqPublish(b, h, m.pt));
    t := Set(r1, i, Idle).(prodTail := Mask(h + 1, |m.slots|), pt := m.pt + 1);
    Becomes(m, i, Go, r1);
    Becomes(r1, i, Go, r2);
    Becomes(r2, i, Go, t);
    ThreeMore(m, r1, r2, t, i);
  }

  /** A producer that finds the consumer's tail moved between its two looks does
      not look again: it goes straight to the exchange, which may well succeed. */
  lemma {:induction false} RecheckSwaps(r: Ring, i: Tid) returns (m: Ring)
    requires Inv(r) && i in r.threads && r.threads[i].EnqRecheckTail? && !Full(r)
    requires r.threads[i].t != r.consTail && r.threads[i].h == r.prodHead
    ensures Alone(r, i, Goes(2), m) && Inv(m)
    ensures m.reserved == r.reserved + [r.threads[i].buf]
    ensures i in m.threads && m.threads[i] == EnqStore(r.threads[i].buf, r.prodHead, r.ph)
  {
    hide Inv, Mask, Contents, Alone, Goes, Geometry, ThreadOk;
    InvThread(r, i);
    var b, h, k := r.threads[i].buf, r.threads[i].h, r.threads[i].k;
    var r1 := Set(r, i, EnqCas(b, h, k));
    m := Set(r1, i, EnqStore(b, h, r.ph)).(prodHead := Mask(h + 1, |r.slots|), ph := r.ph + 1,
                                           reserved := r.reserved + [b]);
    Becomes(r, i, Go, r1);
    Becomes(r1, i, Go, m);
    NoStep(m, i);
    GoNext(r1, i, 0, m);
    GoNext(r, i, 1, m);
  }

  /** An enqueue on a full ring gives up and changes nothing. */
  lemma {:induction false} SoloEnqueueFull(r: Ring, i: Tid, b: Item)
    requires Inv(r) && i in r.threads && r.threads[i].Idle? && r.ph + 1 == r.ct + |r.slots|
    ensures Alone(r, i, [Enqueue(b)] + Goes(4), r)
  {
    hide Inv, Mask, Contents, Alone, Goes, Geometry, ThreadOk;
    InvThread(r, i);
    FullIs(r);
    var h, k := r.prodHead, r.ph;
    var r1, r2 := Set(r, i, EnqHead(b)), Set(r, i, EnqTail(b, h, k));
    var r3 := Set(r, i, EnqRecheckHead(b, h, k, r.consTail, r.ct));
    var r4 := Set(r, i, EnqRecheckTail(b, h, k, r.consTail, r.ct, true));
    assert r.threads[i := Idle] == r.threads;
    Becomes(r, i, Enqueue(b), r1);
    Becomes(r1, i, Go, r2);
    Becomes(r2, i, Go, r3);
    Becomes(r3, i, Go, r4);
    Becomes(r4, i, Go, r);
    NoStep(r, i);
    GoNext(r4, i, 0, r);
    GoNext(r3, i, 1, r);
    GoNext(r2, i, 2, r);
    GoNext(r1, i, 3, r);
    AloneNext(r, i, Enqueue(b), Goes(4), r);
  }

  lemma {:induction false} CountIs(r: Ring)
    requires Geometry(r) && |r.slots| < 0x8000_0000
    ensures Count(r) == r.pt - r.ct
  {
    hide Mask;
    MaskDistance(r.ct, r.pt, |r.slots|);
  }

  lemma {:induction false} MaskDistance(a: nat, b: nat, n: nat)
    requires a <= b < a + n
    ensures Mask(a, n) < n && Mask(b, n) < n && Mask(n + Mask(b, n) - Mask(a, n), n) == b - a
  {
    var p, q, x, y := b / n, a / n, b % n, a % n;
    assert b == n * p + x && a == n * q + y;
    assert n * (p - q) == b - a - (x - y);
    MulApart(n, p - q);
    MulApart(n, p - q - 1);
    assert n * (p - q - 1) == n * (p - q) - n;
    if p == q { MaskUnique(n + x - y, 1, x - y, n); } else { MaskUnique(n + x - y, 0, n + x - y, n); }
  }

  // ------------------------------------------------- why the guard is needed

  /** States some run leads to. */
  ghost predicate Reachable(r: Ring) {
    exists rs, who, how :: Run(rs, who, how) && rs[|who|] == r
  }

  lemma {:induction false} Follow(r: Ring, i: Tid, c: Choice, next: Ring)
    requires Reachable(r) && Enabled(r, i, c) && next == Step(r, i, c)
    ensures Reachable(next)
  {
    hide Step, Enabled, Fresh;
    var rs: seq<Ring>, who: seq<Tid>, how: seq<Choice> :| Run(rs, who, how) && rs[|who|] == r;
    var rs', who', how' := rs + [next], who + [i], how + [c];
    forall m | 0 <= m < |who'|
      ensures Enabled(rs'[m], who'[m], how'[m]) && rs'[m + 1] == Step(rs'[m], who'[m], how'[m])
    {
      if m < |who| { assert rs[m + 1] == Step(rs[m], who[m], how[m]); }
    }
    assert Run(rs', who', how') && rs'[|who'|] == next;
  }

  /** Thread 1 stops before its compare-and-swap. */
  lemma {:induction false} Stalls()
    ensures Reachable(Ring(0, 0, 0, 0, [0, 0], map[1 := EnqCas(7, 0, 0), 2 := Idle], 0, 0, 0, 0, [], []))
  {
    assert Reachable(Ring(0, 0, 0, 0, [0, 0], map[1 := Idle, 2 := Idle], 0, 0, 0, 0, [], []))
        by { assert Run([Ring(0, 0, 0, 0, [0, 0], map[1 := Idle, 2 := Idle], 0, 0, 0, 0, [], [])], [], []); }
    hide Reachable;
    var r0 := Ring(0, 0, 0, 0, [0, 0], map[1 := Idle, 2 := Idle], 0, 0, 0, 0, [], []);
    var r1 := Ring(0, 0, 0, 0, [0, 0], map[1 := EnqHead(7), 2 := Idle], 0, 0, 0, 0, [], []);
    Follow(r0, 1, Enqueue(7), r1);
    var r2 := Ring(0, 0, 0, 0, [0, 0], map[1 := EnqTail(7, 0, 0), 2 := Idle], 0, 0, 0, 0, [], []);
    Follow(r1, 1, Go, r2);
    var r3 := Ring(0, 0, 0, 0, [0, 0], map[1 := EnqCas(7, 0, 0), 2 := Idle], 0, 0, 0, 0, [], []);
    Follow(r2, 1, Go, r3);
  }

  /** Thread 2 reserves a slot, */
  lemma {:induction false} ThenReserves()
    ensures Reachable(Ring(1, 0, 0, 0, [0, 0], map[1 := EnqCas(7, 0, 0), 2 := EnqStore(5, 0, 0)], 1, 0, 0, 0, [5], []))
  {
    hide Reachable;
    Stalls();
    var r3 := Ring(0, 0, 0, 0, [0, 0], map[1 := EnqCas(7, 0, 0), 2 := Idle], 0, 0, 0, 0, [], []);
    var r4 := Ring(0, 0, 0, 0, [0, 0], map[1 := EnqCas(7, 0, 0), 2 := EnqHead(5)], 0, 0, 0, 0, [], []);
    Follow(r3, 2, Enqueue(5), r4);
    var r5 := Ring(0, 0, 0, 0, [0, 0], map[1 := EnqCas(7, 0, 0), 2 := EnqTail(5, 0, 0)], 0, 0, 0, 0, [], []);
    Follow(r4, 2, Go, r5);
    var r6 := Ring(0, 0, 0, 0, [0, 0], map[1 := EnqCas(7, 0, 0), 2 := EnqCas(5, 0, 0)], 0, 0, 0, 0, [], []);
    Follow(r5, 2, Go, r6);
    var r7 := Ring(1, 0, 0, 0, [0, 0], map[1 := EnqCas(7, 0, 0), 2 := EnqStore(5, 0, 0)], 1, 0, 0, 0, [5], []);
    Follow(r6, 2, Go, r7);
  }

  /** and publishes it. */
  lemma {:induction false} ThenPublishes()
    ensures Reachable(Ring(1, 1, 0, 0, [5, 0], map[1 := EnqCas(7, 0, 0), 2 := Idle], 1, 1, 0, 0, [5], []))
  {
    hide Reachable;
    ThenReserves();
    var r7 := Ring(1, 0, 0, 0, [0, 0], map[1 := EnqCas(7, 0, 0), 2 := EnqStore(5, 0, 0)], 1, 0, 0, 0, [5], []);
    var r8 := Ring(1, 0, 0, 0, [5, 0], map[1 := EnqCas(7, 0, 0), 2 := EnqWait(5, 0, 0)], 1, 0, 0, 0, [5], []);
    Follow(r7, 2, Go, r8);
    var r9 := Ring(1, 0, 0, 0, [5, 0], map[1 := EnqCas(7, 0, 0), 2 := EnqPublish(5, 0, 0)], 1, 0, 0, 0, [5], []);
    Follow(r8, 2, Go, r9);
    var r10 := Ring(1, 1, 0, 0, [5, 0], map[1 := EnqCas(7, 0, 0), 2 := Idle], 1, 1, 0, 0, [5], []);
    Follow(r9, 2, Go, r10);
  }

  /** Thread 2 claims it, */
  lemma {:induction false} ThenClaims()
    ensures Reachable(Ring(1, 1, 1, 0, [5, 0], map[1 := EnqCas(7, 0, 0), 2 := DeqRead(0, 0)], 1, 1, 1, 0, [5], []))
  {
    hide Reachable;
    ThenPublishes();
    var r10 := Ring(1, 1, 0, 0, [5, 0], map[1 := EnqCas(7, 0, 0), 2 := Idle], 1, 1, 0, 0, [5], []);
    var r11 := Ring(1, 1, 0, 0, [5, 0], map[1 := EnqCas(7, 0, 0), 2 := DeqHead], 1, 1, 0, 0, [5], []);
    Follow(r10, 2, Dequeue, r11);
    var r12 := Ring(1, 1, 0, 0, [5, 0], map[1 := EnqCas(7, 0, 0), 2 := DeqTail(0, 0)], 1, 1, 0, 0, [5], []);
    Follow(r11, 2, Go, r12);
    var r13 := Ring(1, 1, 0, 0, [5, 0], map[1 := EnqCas(7, 0, 0), 2 := DeqCas(0, 0)], 1, 1, 0, 0, [5], []);
    Follow(r12, 2, Go, r13);
    var r14 := Ring(1, 1, 1, 0, [5, 0], map[1 := EnqCas(7, 0, 0), 2 := DeqRead(0, 0)], 1, 1, 1, 0, [5], []);
    Follow(r13, 2, Go, r14);
  }

  /** and hands it out. */
  lemma {:induction false} ThenReturns()
    ensures Reachable(Ring(1, 1, 1, 1, [5, 0], map[1 := EnqCas(7, 0, 0), 2 := Idle], 1, 1, 1, 1, [5], [5]))
  {
    hide Reachable;
    ThenClaims();
    var r14 := Ring(1, 1, 1, 0, [5, 0], map[1 := EnqCas(7, 0, 0), 2 := DeqRead(0, 0)], 1, 1, 1, 0, [5], []);
    var r15 := Ring(1, 1, 1, 0, [5, 0], map[1 := EnqCas(7, 0, 0), 2 := DeqWait(5, 0, 0)], 1, 1, 1, 0, [5], []);
    Follow(r14, 2, Go, r15);
    var r16 := Ring(1, 1, 1, 0, [5, 0], map[1 := EnqCas(7, 0, 0), 2 := DeqPublish(5, 0, 0)], 1, 1, 1, 0, [5], []);
    Follow(r15, 2, Go, r16);
    var r17 := Ring(1, 1, 1, 1, [5, 0], map[1 := EnqCas(7, 0, 0), 2 := Idle], 1, 1, 1, 1, [5], [5]);
    Follow(r16, 2, Go, r17);
  }

  /** In a ring of two slots, thread 1 stalls before its compare-and-swap while
      thread 2 enqueues, dequeues and enqueues again.  The head has come round
      to the same masked value, the swap succeeds although the ring is full,
      and the reservations exceed the capacity. */
  lemma {:induction false} WrapBreaks()
    ensures exists r :: Reachable(r) && r.ph > r.ct + |r.slots| - 1
  {
    hide Reachable;
    ThenReturns();
    var r17 := Ring(1, 1, 1, 1, [5, 0], map[1 := EnqCas(7, 0, 0), 2 := Idle], 1, 1, 1, 1, [5], [5]);
    var r18 := Ring(1, 1, 1, 1, [5, 0], map[1 := EnqCas(7, 0, 0), 2 := EnqHead(6)], 1, 1, 1, 1, [5], [5]);
    Follow(r17, 2, Enqueue(6), r18);
    var r19 := Ring(1, 1, 1, 1, [5, 0], map[1 := EnqCas(7, 0, 0), 2 := EnqTail(6, 1, 1)], 1, 1, 1, 1, [5], [5]);
    Follow(r18, 2, Go, r19);
    var r20 := Ring(1, 1, 1, 1, [5, 0], map[1 := EnqCas(7, 0, 0), 2 := EnqCas(6, 1, 1)], 1, 1, 1, 1, [5], [5]);
    Follow(r19, 2, Go, r20);
    var r21 := Ring(0, 1, 1, 1, [5, 0], map[1 := EnqCas(7, 0, 0), 2 := EnqStore(6, 1, 1)], 2, 1, 1, 1, [5, 6], [5]);
    Follow(r20, 2, Go, r21);
    var r22 := Ring(1, 1, 1, 1, [5, 0], map[1 := EnqStore(7, 0, 2), 2 := EnqStore(6, 1, 1)],
                    3, 1, 1, 1, [5, 6, 7], [5]);
    Follow(r21, 1, Go, r22);
    assert r22.ph > r22.ct + |r22.slots| - 1;
  }
}
