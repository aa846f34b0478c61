/**
 The store as a caller sees it: a map that the committed operations change one
 after the other, group by group, writer by writer, operation by operation.
 */
module Sequential {
  import opened Wrappers
  import opened Entries
  import opened History

  /** The value of k after these operations, when it was v before. */
  ghost function AfterOps(ops: seq<Op>, k: Key, v: Option<Value>): Option<Value> {
    if ops == [] then v else AfterOps(ops[1..], k, if ops[0].key == k then ops[0].val else v)
  }

  ghost function AfterWriters(ws: seq<Writer>, k: Key, v: Option<Value>): Option<Value> {
    if ws == [] then v else AfterWriters(ws[1..], k, AfterOps(BatchOf(ws[0]), k, v))
  }

  ghost function AfterGroups(gs: seq<Group>, k: Key, v: Option<Value>): Option<Value> {
    if gs == [] then v else AfterGroups(gs[1..], k, AfterWriters(gs[0].members, k, v))
  }

  lemma {:induction false} OpsConcat(a: seq<Op>, b: seq<Op>, k: Key, v: Option<Value>)
    ensures AfterOps(a + b, k, v) == AfterOps(b, k, AfterOps(a, k, v))
  {
    if a == [] { assert a + b == b; } else {
      assert (a + b)[1..] == a[1..] + b;
      OpsConcat(a[1..], b, k, if a[0].key == k then a[0].val else v);
    }
  }

  lemma {:induction false} WritersConcat(a: seq<Writer>, b: seq<Writer>, k: Key, v: Option<Value>)
    ensures AfterWriters(a + b, k, v) == AfterWriters(b, k, AfterWriters(a, k, v))
  {
    if a == [] { assert a + b == b; } else {
      assert (a + b)[1..] == a[1..] + b;
      WritersConcat(a[1..], b, k, AfterOps(BatchOf(a[0]), k, v));
    }
  }

  lemma {:induction false} GroupsConcat(a: seq<Group>, b: seq<Group>, k: Key, v: Option<Value>)
    ensures AfterGroups(a + b, k, v) == AfterGroups(b, k, AfterGroups(a, k, v))
  {
    if a == [] { assert a + b == b; } else {
      assert (a + b)[1..] == a[1..] + b;
      GroupsConcat(a[1..], b, k, AfterWriters(a[0].members, k, v));
    }
  }

  /** Numbering a group's operations in sequence is applying its writers in turn. */
  lemma {:induction false} WritersAreOps(ws: seq<Writer>, k: Key, v: Option<Value>)
    ensures AfterWriters(ws, k, v) == AfterOps(OpsOf(ws), k, v)
  {
    hide AfterOps, BatchOf;
    if ws != [] {
      var init, last := ws[..|ws| - 1], ws[|ws| - 1];
      WritersAreOps(init, k, v);
      assert ws == init + [last];
      WritersConcat(init, [last], k, v);
      OneWriter(last, k, AfterWriters(init, k, v));
      OpsConcat(OpsOf(init), BatchOf(last), k, v);
    } else {
      NoOps(k, v);
    }
  }

  lemma {:induction false} OneWriter(w: Writer, k: Key, v: Option<Value>)
    ensures AfterWriters([w], k, v) == AfterOps(BatchOf(w), k, v)
  {
    assert [w][1..] == [];
  }

  lemma {:induction false} NoOps(k: Key, v: Option<Value>)
    ensures AfterOps([], k, v) == v
  {}

  /** The last operation on a key decides. */
  lemma {:induction false} LastOpDecides(ops: seq<Op>, k: Key, v: Option<Value>, j: nat)
    requires j < |ops| && ops[j].key == k && forall m :: j < m < |ops| ==> ops[m].key != k
    ensures AfterOps(ops, k, v) == ops[j].val
  {
    var a, b := ops[..j + 1], ops[j + 1..];
    assert ops == a + b;
    OpsConcat(a, b, k, v);
    assert a == ops[..j] + [ops[j]];
    OpsConcat(ops[..j], [ops[j]], k, v);
    assert [ops[j]][1..] == [];
    Untouched(b, k, ops[j].val);
  }

  lemma {:induction false} Untouched(ops: seq<Op>, k: Key, v: Option<Value>)
    requires forall m :: 0 <= m < |ops| ==> ops[m].key != k
    ensures AfterOps(ops, k, v) == v
  {
    if ops != [] { Untouched(ops[1..], k, v); }
  }

  ghost predicate Touches(w: Writer, k: Key) { exists m :: 0 <= m < |BatchOf(w)| && BatchOf(w)[m].key == k }

  lemma {:induction false} UntouchedWriters(ws: seq<Writer>, k: Key, v: Option<Value>)
    requires forall q :: 0 <= q < |ws| ==> !Touches(ws[q], k)
    ensures AfterWriters(ws, k, v) == v
  {
    if ws != [] {
      assert !Touches(ws[0], k);
      Untouched(BatchOf(ws[0]), k, v);
      UntouchedWriters(ws[1..], k, v);
    }
  }

  /** Among the writers of a group, the last one that touches the key decides. */
  lemma {:induction false} LastWriterDecides(ws: seq<Writer>, k: Key, v: Option<Value>, p: nat, j: nat)
    requires p < |ws| && j < |BatchOf(ws[p])| && BatchOf(ws[p])[j].key == k
    requires forall m :: j < m < |BatchOf(ws[p])| ==> BatchOf(ws[p])[m].key != k
    requires forall q :: p < q < |ws| ==> !Touches(ws[q], k)
    ensures AfterWriters(ws, k, v) == BatchOf(ws[p])[j].val
  {
    var a, b := ws[..p], ws[p + 1..];
    assert ws == a + ([ws[p]] + b);
    WritersConcat(a, [ws[p]] + b, k, v);
    assert ([ws[p]] + b)[1..] == b;
    LastOpDecides(BatchOf(ws[p]), k, AfterWriters(a, k, v), j);
    UntouchedWriters(b, k, BatchOf(ws[p])[j].val);
  }

  // ------------------------------------------- entries and the sequential map

  /** Entries numbered above everything before them read like their operations applied. */
  lemma {:induction false} ReadOps(base: set<Entry>, ops: seq<Op>, start: nat, k: Key, s: nat)
    requires Unique(base) && (forall e :: e in base ==> e.num < start) && start + |ops| <= s + 1
    ensures Unique(base + OpEntries(ops, start))
    ensures Read(base + OpEntries(ops, start), k, s) == AfterOps(ops, k, Read(base, k, s))
    decreases |ops|
  {
    hide OpEntries, Read, Unique;
    if ops == [] {
      assert base + OpEntries(ops, start) == base by { NoEntries(start); }
    } else {
      var n := |ops| - 1;
      var init, last := ops[..n], ops[n];
      var mid, e := base + OpEntries(init, start), Entry(last.key, start + n, last.val);
      ReadOps(base, init, start, k, s);
      assert ops == init + [last];
      EntriesSnoc(init, last, start);
      EntriesBelow(init, start);
      assert base + OpEntries(ops, start) == mid + {e};
      OpsConcat(init, [last], k, Read(base, k, s));
      assert [last][1..] == [];
      OneMore(mid, e, k, s);
    }
  }

  lemma {:induction false} NoEntries(start: nat)
    ensures OpEntries([], start) == {}
  {}

  lemma {:induction false} EntriesBelow(ops: seq<Op>, start: nat)
    ensures forall e :: e in OpEntries(ops, start) ==> e.num < start + |ops|
  {}

  lemma {:induction false} EntriesSnoc(ops: seq<Op>, op: Op, start: nat)
    ensures OpEntries(ops + [op], start) == OpEntries(ops, start) + {Entry(op.key, start + |ops|, op.val)}
  {
    var all, last := ops + [op], Entry(op.key, start + |ops|, op.val);
    forall e ensures e in OpEntries(all, start) <==> e in OpEntries(ops, start) + {last} {
      if e in OpEntries(ops, start) {
        var i :| 0 <= i < |ops| && e == Entry(ops[i].key, start + i, ops[i].val);
        assert all[i] == ops[i];
      }
      assert all[|ops|] == op;
    }
  }

  lemma {:induction false} OneMore(es: set<Entry>, e: Entry, k: Key, s: nat)
    requires Unique(es) && (forall f :: f in es ==> f.num < e.num) && e.num <= s
    ensures Unique(es + {e}) && Read(es + {e}, k, s) == if e.key == k then e.val else Read(es, k, s)
  {
    if e.key == k {
      assert Newest(e, es + {e}, k, s);
      ReadIs(es + {e}, k, s, e);
    } else {
      SameRead(es + {e}, es, k, s);
    }
  }

  lemma {:induction false} NothingRead(k: Key, s: nat)
    ensures Read({}, k, s) == None
  {}

  lemma {:induction false} OlderThan(gs: seq<Group>, g: Group)
    requires Increasing(gs + [g])
    ensures forall e :: e in Recorded(gs) ==> e.num < g.start
  {
    forall e | e in Recorded(gs) ensures e.num < g.start {
      InRecorded(gs, e);
      var h :| h in gs && e in GroupEntries(h);
      var i :| 0 <= i < |gs| && gs[i] == h;
      assert (gs + [g])[i] == h && (gs + [g])[|gs|] == g;
      assert End(h) <= g.start;
    }
  }

  /** What the recorded entries say is the map after the groups, in order. */
  lemma {:induction false} RecordedIsMap(gs: seq<Group>, k: Key, s: nat)
    requires Increasing(gs) && Below(gs, s + 1)
    ensures Read(Recorded(gs), k, s) == AfterGroups(gs, k, None)
    decreases |gs|
  {
    hide Read, OpEntries, OpsOf, Unique, AfterOps, AfterWriters;
    if gs == [] {
      NothingRead(k, s);
    } else {
      var n := |gs| - 1;
      var init, g := gs[..n], gs[n];
      assert gs == init + [g];
      IncreasingParts(init, [g]);
      RecordedIsMap(init, k, s);
      RecordedUnique(init);
      OlderThan(init, g);
      ReadOps(Recorded(init), Ops(g), g.start, k, s);
      WritersAreOps(g.members, k, Read(Recorded(init), k, s));
      GroupsConcat(init, [g], k, None);
      assert [g][1..] == [];
    }
  }
}
