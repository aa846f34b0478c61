/** What the store's callers get for what they ask, over whole runs. */
module StoreClients {
  import opened Wrappers
  import opened Entries
  import opened History
  import opened Compaction
  import opened Store
  import opened StoreSafety
  import opened StoreCrash
  import opened StoreTheorems
  import opened Sequential

  // ------------------------------------------------- reads and what was written

  /** In every reachable state a Get returns what the committed operations leave
      when they are applied one after the other. */
  lemma {:induction false} GetIsMap(ss: seq<State>, evs: seq<Event>, i: nat, k: Key)
    requires Run(ss, evs) && i < |ss|
    ensures GetAt(ss[i], k, ss[i].lastSeq) == AfterGroups(Committed(ss[i]), k, None)
  {
    hide Run, GetAt, Committed, Inv, AfterGroups;
    Reachable(ss, evs, i);
    CurrentGetIsMap(ss[i], k);
  }

  lemma {:induction false} CurrentGetIsMap(s: State, k: Key)
    requires Inv(s)
    ensures GetAt(s, k, s.lastSeq) == AfterGroups(Committed(s), k, None)
  {
    hide GetAt, Recorded, Read, Committed, Inv, AfterGroups, Increasing, Below;
    HorizonInRange(s);
    GetIsHistory(s, k, s.lastSeq);
    CommittedIncreasing(s);
    RecordedIsMap(Committed(s), k, s.lastSeq);
  }

  /** Read your writes: right after a commit, a key holds what the last operation
      on it in the last member of the group that touches it wrote. */
  lemma {:induction false} ReadYourWrites(ss: seq<State>, evs: seq<Event>, i: nat, k: Key, p: nat, j: nat)
    requires Run(ss, evs) && i < |evs| && evs[i] == Commit && ss[i].stage.Writing?
    requires
      var ws := ss[i].stage.group.members;
      && p < |ws| && j < |BatchOf(ws[p])| && BatchOf(ws[p])[j].key == k
      && (forall m :: j < m < |BatchOf(ws[p])| ==> BatchOf(ws[p])[m].key != k)
      && (forall q :: p < q < |ws| ==> !Touches(ws[q], k))
    ensures GetAt(ss[i + 1], k, ss[i + 1].lastSeq) == BatchOf(ss[i].stage.group.members[p])[j].val
  {
    hide GetAt, Committed, Inv, AfterGroups, AfterWriters, Enabled, Apply, Initial;
    var s, t, g := ss[i], ss[i + 1], ss[i].stage.group;
    Reachable(ss, evs, i);
    HistoryGrows(s, evs[i]);
    GetIsMap(ss, evs, i + 1, k);
    GroupsConcat(Committed(s), [g], k, None);
    OneGroup(g, k, AfterGroups(Committed(s), k, None));
    LastWriterDecides(g.members, k, AfterGroups(Committed(s), k, None), p, j);
  }

  lemma {:induction false} OneGroup(g: Group, k: Key, v: Option<Value>)
    ensures AfterGroups([g], k, v) == AfterWriters(g.members, k, v)
  {
    assert [g][1..] == [];
  }

  // ------------------------------------------------------------- snapshots

  function Last(xs: seq<nat>): nat
    requires xs != []
  {
    xs[|xs| - 1]
  }

  /** A new snapshot lies at or above everything committed. */
  lemma {:induction false} SnapshotCovers(ss: seq<State>, evs: seq<Event>, i: nat)
    requires Run(ss, evs) && i < |evs| && evs[i] == TakeSnapshot
    ensures
      var t := ss[i + 1];
      && t.snaps != [] && Committed(t) == Committed(ss[i])
      && forall e :: e in Recorded(Committed(ss[i])) ==> e.num <= Last(t.snaps)
  {
    hide Recorded, Committed, Inv, Initial, Increasing;
    var s := ss[i];
    Reachable(ss, evs, i);
    HistoryGrows(s, evs[i]);
    CommittedIncreasing(s);
    forall e | e in Recorded(Committed(s)) ensures e.num <= s.lastSeq {
      InRecorded(Committed(s), e);
      var g :| g in Committed(s) && e in GroupEntries(g);
      assert End(g) <= s.lastSeq + 1;
    }
  }

  /** A snapshot shows, for as long as it lives, the map as it was when it was
      taken: all that was committed by then and nothing that came later. */
  lemma {:induction false} SnapshotFreezes(ss: seq<State>, evs: seq<Event>, i: nat, j: nat, k: Key)
    requires Run(ss, evs) && i < j < |ss| && evs[i] == TakeSnapshot && NoCrash(evs, i, j)
    requires ss[i + 1].snaps != [] && Last(ss[i + 1].snaps) in ss[j].snaps
    ensures GetAt(ss[j], k, Last(ss[i + 1].snaps)) == AfterGroups(Committed(ss[i]), k, None)
    ensures GetAt(ss[j], k, Last(ss[i + 1].snaps)) == Read(Recorded(Committed(ss[i])), k, ss[i].lastSeq)
  {
    hide GetAt, Recorded, Committed, Inv, Initial, Increasing, Below, Read, AfterGroups;
    var s, t := ss[i], ss[i + 1];
    var x := Last(t.snaps);
    SnapshotCovers(ss, evs, i);
    assert t.snaps == s.snaps + [x] && t.lastSeq == s.lastSeq by { assert t == Apply(s, evs[i]); }
    SnapshotStable(ss, evs, i + 1, j, x, k);
    Reachable(ss, evs, i + 1);
    SnapshotInRange(t, x);
    GetIsHistory(t, k, x);
    Reachable(ss, evs, i);
    CommittedIncreasing(s);
    RecordedUnique(Committed(s));
    SameRead(Recorded(Committed(s)), Recorded(Committed(s)), k, x);
    HighReads(Recorded(Committed(s)), k, x, s.lastSeq);
    RecordedIsMap(Committed(s), k, s.lastSeq);
  }

  /** Two numbers above every entry read the same. */
  lemma {:induction false} HighReads(es: set<Entry>, k: Key, x: nat, y: nat)
    requires Unique(es) && forall e :: e in es ==> e.num <= x && e.num <= y
    ensures Read(es, k, x) == Read(es, k, y)
  {
    var r := Lookup(es, k, x);
    if r.Some? {
      assert Newest(r.value, es, k, y);
      ReadIs(es, k, y, r.value);
    } else {
      assert !Sees(es, k, y);
    }
  }

  /** Releasing takes out one live snapshot, the one named, and no other. */
  lemma {:induction false} ReleaseExact(s: State, i: nat)
    requires Enabled(s, ReleaseSnapshot(i))
    ensures multiset(Apply(s, ReleaseSnapshot(i)).snaps) == multiset(s.snaps) - multiset{s.snaps[i]}
  {
    assert s.snaps == s.snaps[..i] + [s.snaps[i]] + s.snaps[i + 1..];
  }

  // -------------------------------------------------- requests and answers

  /** Some call asked for exactly this write. */
  ghost predicate Requested(ss: seq<State>, evs: seq<Event>, j: nat, w: Writer) {
    exists i :: 0 <= i < j && i < |evs| && i < |ss| && Asks(ss[i], evs[i], w)
  }

  ghost predicate Asks(s: State, ev: Event, w: Writer) {
    ev == Enqueue(w.batch, w.sync, w.size) && s.nextId == w.id
  }

  /** One event queues only what it was asked for, answers only who was queued,
      and commits only what was queued. */
  lemma {:induction false} WritersFrom(s: State, ev: Event, w: Writer)
    requires Inv(s) && Enabled(s, ev)
    ensures
      var t := Apply(s, ev);
      && (w in t.queue ==> w in s.queue || Asks(s, ev, w))
      && (w in t.acked ==> w in s.acked || w in s.queue)
      && (w in Members(Committed(t)) ==> w in Members(Committed(s)) || w in s.queue)
  {
    hide DiskOk, SnapInv, CompInv, AckInv, SyncInv, SeqInv, ContentInv, EditInv, LogInv, IsGroup, InputsClosed,
         BaseOk, NoKeyIn, NoOlderLeft, Kept, Compacted, Moved, Flushed, OpsOf, Replay, RecoveredLayers, MaxSeq,
         Flatten, Members, Committed, IdsIncrease, SyncOk;
    var t := Apply(s, ev);
    if s.stage.Writing? { PrefixIn(s.stage.group.members, s.queue); }
    if w in Members(Committed(t)) { MembersFrom(s, ev, w); }
  }

  lemma {:induction false} PrefixIn(ws: seq<Writer>, q: seq<Writer>)
    requires Prefix(ws, q)
    ensures forall w :: w in ws ==> w in q
  {}

  lemma {:induction false} MembersFrom(s: State, ev: Event, w: Writer)
    requires Inv(s) && Enabled(s, ev) && w in Members(Committed(Apply(s, ev)))
    ensures w in Members(Committed(s)) || w in s.queue
  {
    hide Inv, Enabled, Apply, Committed, Members, Increasing, GetAt, Read;
    var t := Apply(s, ev);
    InMembers(Committed(t), w);
    var i :| 0 <= i < |Committed(t)| && w in Committed(t)[i].members;
    var g := Committed(t)[i];
    assert g in Committed(s) || (s.stage.Writing? && g == s.stage.group) by {
      if ev.CrashAndReopen? {
        CrashInventsNothing(s, ev.cut, ev.parts, 0);
        CrashIsReopened(s, ev.cut, ev.parts);
      } else {
        HistoryGrows(s, ev);
      }
    }
    if g in Committed(s) {
      var j :| 0 <= j < |Committed(s)| && Committed(s)[j] == g;
      InMembers(Committed(s), w);
    } else {
      StageQueued(s);
    }
  }

  lemma {:induction false} StageQueued(s: State)
    requires Inv(s) && s.stage.Writing?
    ensures forall w :: w in s.stage.group.members ==> w in s.queue
  {
    hide DiskOk, SnapInv, CompInv, AckInv, SyncInv, SeqInv, ContentInv, EditInv, LogInv, Members, Committed;
    PrefixIn(s.stage.group.members, s.queue);
  }

  /** Whoever is queued, answered or in the history stands for exactly one call,
      with the batch, the sync flag and the size of that call. */
  lemma {:induction false} AllRequested(ss: seq<State>, evs: seq<Event>, j: nat, w: Writer)
    requires Run(ss, evs) && j < |ss|
    requires w in ss[j].queue || w in ss[j].acked || w in Members(Committed(ss[j]))
    ensures Requested(ss, evs, j, w)
  {
    hide Inv, Enabled, Apply, Committed, Members, Asks;
    if j == 0 {
      NobodyYet(ss[0], w);
    } else {
      Reachable(ss, evs, j - 1);
      assert ss[j - 1 + 1] == Apply(ss[j - 1], evs[j - 1]);
      WritersFrom(ss[j - 1], evs[j - 1], w);
      if !Asks(ss[j - 1], evs[j - 1], w) { AllRequested(ss, evs, j - 1, w); }
    }
  }

  lemma {:induction false} NobodyYet(s: State, w: Writer)
    requires Initial(s)
    ensures w !in s.queue && w !in s.acked && w !in Members(Committed(s))
  {
    assert Committed(s) == [];
  }

  lemma {:induction false} IdsGrow(ss: seq<State>, evs: seq<Event>, i: nat, j: nat)
    requires Run(ss, evs) && i <= j < |ss|
    ensures ss[i].nextId <= ss[j].nextId && (i < j && evs[i].Enqueue? ==> ss[i].nextId < ss[j].nextId)
    decreases j
  {
    hide Inv, Enabled, Initial;
    if i < j {
      IdsGrow(ss, evs, i, j - 1);
      assert ss[j - 1 + 1] == Apply(ss[j - 1], evs[j - 1]);
    }
  }

  /** The writer with a call's number is the writer that call asked for. */
  lemma {:induction false} RequestRecorded(ss: seq<State>, evs: seq<Event>, i: nat, j: nat, w: Writer)
    requires Run(ss, evs) && i < |evs| && evs[i].Enqueue? && j < |ss| && w.id == ss[i].nextId
    requires w in ss[j].queue || w in ss[j].acked || w in Members(Committed(ss[j]))
    ensures w == Writer(ss[i].nextId, evs[i].batch, evs[i].sync, evs[i].size) && i < j
  {
    hide Run, Inv, Enabled, Apply, Committed, Members;
    assert |ss| == |evs| + 1 by { RunLength(ss, evs); }
    AllRequested(ss, evs, j, w);
    var h :| 0 <= h < j && h < |evs| && h < |ss| && Asks(ss[h], evs[h], w);
    if h < i { IdsGrow(ss, evs, h, i); } else { IdsGrow(ss, evs, i, h); }
  }

  lemma {:induction false} RunLength(ss: seq<State>, evs: seq<Event>)
    requires Run(ss, evs)
    ensures |ss| == |evs| + 1
  {}

  /** Durability from the request: a write asked for with sync and answered is in
      the history for ever after, with exactly the batch that was asked for. */
  lemma {:induction false} SyncRequestSurvives(ss: seq<State>, evs: seq<Event>, i: nat, j: nat, l: nat,
      b: seq<Op>, n: nat, w: Writer)
    requires Run(ss, evs) && i < |evs| && evs[i] == Enqueue(Some(b), true, n)
    requires j <= l < |ss| && w in ss[j].acked && w.id == ss[i].nextId
    ensures w in Members(Committed(ss[l])) && w.batch == Some(b)
    ensures forall m :: m in Members(Committed(ss[l])) && m.id == ss[i].nextId ==> m.batch == Some(b)
  {
    hide Run, Inv, Committed, Members;
    RequestRecorded(ss, evs, i, j, w);
    SyncedWritesSurvive(ss, evs, j, l, w);
    forall m | m in Members(Committed(ss[l])) && m.id == ss[i].nextId ensures m.batch == Some(b) {
      RequestRecorded(ss, evs, i, l, m);
    }
  }
}
