/**
 What was written, independent of how it is stored: group commits with
 consecutive sequence numbers, and the set of entries they stand for.
 */
module History {
  import opened Wrappers
  import opened Entries

  /** One Put or Delete of a write batch. */
  datatype Op = Op(key: Key, val: Option<Value>)

  /** A call of DBImpl::Write; `batch` is `None` for the null batch that only
      forces a memtable switch, and `size` is the batch's byte size. */
  datatype Writer = Writer(id: nat, batch: Option<seq<Op>>, sync: bool, size: nat)

  /** A group commit: the writers it serves, in queue order, and its first
      sequence number.  It is one log record. */
  datatype Group = Group(start: nat, members: seq<Writer>)

  function BatchOf(w: Writer): seq<Op> { if w.batch.Some? then w.batch.value else [] }

  function OpsOf(ws: seq<Writer>): seq<Op> {
    if ws == [] then [] else OpsOf(ws[..|ws| - 1]) + BatchOf(ws[|ws| - 1])
  }

  /** The writers' batches lie in `ops` one behind the other, in the writers'
      order: batch i from at[i] up to at[i + 1], with nothing before, between or
      behind them. */
  ghost predicate LaidOut(ws: seq<Writer>, ops: seq<Op>, at: seq<nat>) {
    && |at| == |ws| + 1 && at[0] == 0 && at[|ws|] == |ops|
    && forall i :: 0 <= i < |ws| ==> LiesAt(ws[i], ops, at, i)
  }

  ghost predicate LiesAt(w: Writer, ops: seq<Op>, at: seq<nat>, i: nat) {
    i + 1 < |at| && at[i] + |BatchOf(w)| == at[i + 1] <= |ops| && ops[at[i]..at[i + 1]] == BatchOf(w)
  }

  lemma {:induction false} LaidOutSnoc(ws: seq<Writer>, ops: seq<Op>, at: seq<nat>, w: Writer)
    requires LaidOut(ws, ops, at)
    ensures LaidOut(ws + [w], ops + BatchOf(w), at + [|ops| + |BatchOf(w)|])
  {
    hide BatchOf;
    var ws', ops', at' := ws + [w], ops + BatchOf(w), at + [|ops| + |BatchOf(w)|];
    forall i | 0 <= i < |ws'| ensures LiesAt(ws'[i], ops', at', i) {
      if i < |ws| {
        assert LiesAt(ws[i], ops, at, i);
        assert ops'[at[i]..at[i + 1]] == ops[at[i]..at[i + 1]];
      }
    }
  }

  /** The operations of a group are its batches in queue order. */
  lemma {:induction false} OpsLaidOut(ws: seq<Writer>) returns (at: seq<nat>)
    ensures LaidOut(ws, OpsOf(ws), at)
  {
    if ws == [] {
      at := [0];
    } else {
      var init := ws[..|ws| - 1];
      at := OpsLaidOut(init);
      LaidOutSnoc(init, OpsOf(init), at, ws[|ws| - 1]);
      assert ws == init + [ws[|ws| - 1]];
      at := at + [|OpsOf(ws)|];
    }
  }

  function Ops(g: Group): seq<Op> { OpsOf(g.members) }

  /** The sequence number after the group's last one. */
  function End(g: Group): nat { g.start + |Ops(g)| }

  ghost function OpEntries(ops: seq<Op>, start: nat): set<Entry> {
    set i | 0 <= i < |ops| :: Entry(ops[i].key, start + i, ops[i].val)
  }

  ghost function GroupEntries(g: Group): set<Entry> { OpEntries(Ops(g), g.start) }

  ghost function Recorded(gs: seq<Group>): set<Entry> {
    if gs == [] then {} else Recorded(gs[..|gs| - 1]) + GroupEntries(gs[|gs| - 1])
  }

  /** Sequence ranges of later groups lie above those of earlier ones. */
  ghost predicate Increasing(gs: seq<Group>) {
    forall i, j :: 0 <= i < j < |gs| ==> End(gs[i]) <= gs[j].start
  }

  ghost predicate Below(gs: seq<Group>, n: nat) {
    forall g :: g in gs ==> End(g) <= n
  }

  /** Every entry of `a` is newer than every entry of `b`. */
  ghost predicate Newer(a: set<Entry>, b: set<Entry>) {
    forall e, f :: e in a && f in b ==> e.num > f.num
  }

  lemma {:induction false} InRecorded(gs: seq<Group>, e: Entry)
    ensures e in Recorded(gs) <==> exists g :: g in gs && e in GroupEntries(g)
  {
    if gs != [] {
      var init, last := gs[..|gs| - 1], gs[|gs| - 1];
      InRecorded(init, e);
      assert gs == init + [last];
    }
  }

  lemma {:induction false} RecordedConcat(a: seq<Group>, b: seq<Group>)
    ensures Recorded(a + b) == Recorded(a) + Recorded(b)
  {
    if b == [] { assert a + b == a; } else {
      assert (a + b)[..|a + b| - 1] == a + b[..|b| - 1];
      RecordedConcat(a, b[..|b| - 1]);
    }
  }

  lemma {:induction false} RecordedSnoc(gs: seq<Group>, g: Group)
    ensures Recorded(gs + [g]) == Recorded(gs) + GroupEntries(g)
  {
    assert (gs + [g])[..|gs|] == gs;
  }

  lemma {:induction false} RecordedUnique(gs: seq<Group>)
    requires Increasing(gs)
    ensures Unique(Recorded(gs))
  {
    if gs != [] {
      var init, last := gs[..|gs| - 1], gs[|gs| - 1];
      RecordedUnique(init);
      forall e | e in Recorded(init) ensures e.num < last.start {
        InRecorded(init, e);
        var g :| g in init && e in GroupEntries(g);
        var i :| 0 <= i < |init| && init[i] == g;
        assert End(gs[i]) <= last.start;
      }
    }
  }

  /** In an increasing history the later part is newer than the earlier part. */
  lemma {:induction false} RecordedNewer(a: seq<Group>, b: seq<Group>)
    requires Increasing(a + b)
    ensures Newer(Recorded(b), Recorded(a))
  {
    forall e, f | e in Recorded(b) && f in Recorded(a) ensures e.num > f.num {
      InRecorded(b, e);
      InRecorded(a, f);
      var g, h :| g in b && e in GroupEntries(g) && h in a && f in GroupEntries(h);
      var i :| 0 <= i < |a| && a[i] == h;
      var j :| 0 <= j < |b| && b[j] == g;
      assert (a + b)[i] == h && (a + b)[|a| + j] == g;
      assert End(h) <= g.start;
    }
  }

  lemma {:induction false} IncreasingParts(a: seq<Group>, b: seq<Group>)
    requires Increasing(a + b)
    ensures Increasing(a) && Increasing(b)
  {
    forall i, j | 0 <= i < j < |a| ensures End(a[i]) <= a[j].start {
      assert (a + b)[i] == a[i] && (a + b)[j] == a[j];
    }
    forall i, j | 0 <= i < j < |b| ensures End(b[i]) <= b[j].start {
      assert (a + b)[|a| + i] == b[i] && (a + b)[|a| + j] == b[j];
    }
  }

  lemma {:induction false} IncreasingSnoc(gs: seq<Group>, g: Group)
    requires Increasing(gs) && Below(gs, g.start)
    ensures Increasing(gs + [g])
  {}

  /** Cutting a tail off each of two consecutive stretches keeps the order. */
  lemma {:induction false} IncreasingCut(a: seq<Group>, b: seq<Group>, n: nat, c: seq<Group>, m: nat)
    requires Increasing(a + b + c) && n <= |b| && m <= |c|
    ensures Increasing(a + b[..n] + c[..m])
  {
    var full, cut := a + b + c, a + b[..n] + c[..m];
    forall i, j | 0 <= i < j < |cut| ensures End(cut[i]) <= cut[j].start {
      var i', j' := if i < |a| + n then i else i - n + |b|, if j < |a| + n then j else j - n + |b|;
      assert full[i'] == cut[i] && full[j'] == cut[j];
    }
  }

  /** Newer entries on top do not disturb an agreement of reads below. */
  lemma {:induction false} ReadExtend(a: set<Entry>, b: set<Entry>, top: set<Entry>, k: Key, s: nat)
    requires a <= b && Unique(b + top) && Newer(top, b)
    requires Read(a, k, s) == Read(b, k, s)
    ensures Read(a + top, k, s) == Read(b + top, k, s)
  {
    assert Unique(a) && Unique(b) && Unique(a + top);
    var r := Lookup(top, k, s);
    if r.Some? {
      assert Newest(r.value, a + top, k, s) && Newest(r.value, b + top, k, s);
      ReadIs(a + top, k, s, r.value);
      ReadIs(b + top, k, s, r.value);
    } else {
      SameRead(a + top, a, k, s);
      SameRead(b + top, b, k, s);
    }
  }
}
