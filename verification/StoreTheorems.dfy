/** What the store promises over whole runs. */
module StoreTheorems {
  import opened Wrappers
  import opened Entries
  import opened History
  import opened Compaction
  import opened Store
  import opened StoreSafety
  import opened StoreCrash

  lemma {:induction false} InitialInv(s: State)
    requires Initial(s)
    ensures Inv(s)
  {
    hide CompInv;
    assert MemGroups(s) == [] && ImmGroups(s) == [] && Committed(s) == [];
    assert Recorded([]) == {} && Members([]) == [];
    forall e ensures e !in Union(s.cur.version) { InUnion(s.cur.version, e); }
    assert Union(s.cur.version) == {};
    assert CompInv(s.comp, s.dur.version, s.snaps, s.lastSeq) by { NoCompInv(s.dur.version, s.snaps, s.lastSeq); }
  }

  lemma {:induction false} NoCompInv(v: Layers, snaps: seq<nat>, lastSeq: nat)
    ensures CompInv(None, v, snaps, lastSeq)
  {}

  /** Every event keeps the invariant. */
  lemma {:induction false} StepKeeps(s: State, ev: Event)
    requires Inv(s) && Enabled(s, ev)
    ensures Inv(Apply(s, ev))
  {
    hide Inv, IsGroup, InputsClosed, BaseOk, NoKeyIn, NoOlderLeft, Kept, Compacted, Moved, Flushed, OpsOf, Replay,
         RecoveredLayers, MaxSeq, Enabled, Apply;
    match ev
    case Enqueue(batch, sync, size) => EnqueueKeeps(s, batch, sync, size);
    case NullWrite => NullWriteKeeps(s);
    case SwitchMemtable => SwitchKeeps(s);
    case BuildGroup(n) => BuildGroupKeeps(s, n);
    case AppendLog => AppendLogKeeps(s);
    case SyncLog => SyncLogKeeps(s);
    case InsertOne => InsertOneKeeps(s);
    case Commit => CommitKeeps(s);
    case TakeSnapshot => SnapshotKeeps(s);
    case ReleaseSnapshot(i) => ReleaseKeeps(s, i);
    case Flush(layer) => FlushKeeps(s, layer);
    case BeginCompaction(fromEnd, ins, base) => BeginCompactionKeeps(s, fromEnd, ins, base);
    case EndCompaction => EndCompactionKeeps(s);
    case AbortCompaction => AbortCompactionKeeps(s);
    case TrivialMove(fromEnd, from, file) => TrivialMoveKeeps(s, fromEnd, from, file);
    case Install => InstallKeeps(s);
    case DeleteLogs => DeleteLogsKeeps(s);
    case CrashAndReopen(cut, parts) =>
      CrashKeeps(s, cut, parts);
      CrashIsReopened(s, cut, parts);
  }

  lemma {:induction false} CrashIsReopened(s: State, cut: map<nat, nat>, parts: seq<seq<Group>>)
    requires Enabled(s, CrashAndReopen(cut, parts))
    ensures Apply(s, CrashAndReopen(cut, parts)) == Reopened(s, cut, parts)
  {}

  lemma {:induction false} Reachable(ss: seq<State>, evs: seq<Event>, i: nat)
    requires Run(ss, evs) && i < |ss|
    ensures Inv(ss[i])
  {
    hide Inv, Enabled, Apply, Initial;
    if i == 0 { InitialInv(ss[0]); } else {
      Reachable(ss, evs, i - 1);
      StepKeeps(ss[i - 1], evs[i - 1]);
      assert ss[i - 1 + 1] == Apply(ss[i - 1], evs[i - 1]);
    }
  }

  // ------------------------------------------------------------------ reads

  /** The committed groups and the group whose entries are being inserted. */
  ghost function Started(s: State): seq<Group> {
    Committed(s) + if s.stage.Writing? then [s.stage.group] else []
  }

  lemma {:induction false} StartedIncreasing(s: State)
    requires Inv(s)
    ensures Increasing(Started(s))
  {
    hide DiskOk, SnapInv, CompInv, AckInv, EditInv, ContentInv, QueueInv, LogInv, SyncInv, OpsOf;
    if s.stage.Writing? { IncreasingSnoc(Committed(s), s.stage.group); }
    else { assert Started(s) == Committed(s); }
  }

  /** The memtable holds its committed groups and nothing older than they are. */
  lemma {:induction false} MemIs(s: State)
    requires Inv(s)
    ensures Recorded(MemGroups(s)) <= s.mem
    ensures forall e :: e in s.mem ==> e in Recorded(MemGroups(s)) || e.num > s.lastSeq
    ensures s.mem <= Recorded(MemGroups(s) + if s.stage.Writing? then [s.stage.group] else [])
  {
    hide DiskOk, SnapInv, CompInv, AckInv, EditInv, QueueInv, LogInv, SyncInv, SeqInv, Recorded, OpsOf;
    if s.stage.Writing? {
      var g := s.stage.group;
      RecordedSnoc(MemGroups(s), g);
      forall e | e in Inserted(s.stage) ensures e in GroupEntries(g) && e.num > s.lastSeq {
        var i :| 0 <= i < s.stage.inserted
          && e == Entry(Ops(g)[..s.stage.inserted][i].key, g.start + i, Ops(g)[..s.stage.inserted][i].val);
        assert e == Entry(Ops(g)[i].key, g.start + i, Ops(g)[i].val);
      }
    } else {
      assert MemGroups(s) + [] == MemGroups(s);
    }
  }

  /** The three kinds of layers are newest first and never repeat a sequence number. */
  lemma {:induction false} StackFacts(s: State)
    requires Inv(s)
    ensures Newer(s.mem, Recorded(s.cur.flushed + ImmGroups(s)))
    ensures Newer(Recorded(ImmGroups(s)), Recorded(s.cur.flushed))
    ensures Unique(Recorded(s.cur.flushed + ImmGroups(s)) + s.mem)
  {
    hide DiskOk, SnapInv, CompInv, AckInv, EditInv, ContentInv, QueueInv, LogInv, SyncInv, SeqInv, OpsOf, Recorded;
    var a, b := s.cur.flushed + ImmGroups(s), MemGroups(s) + if s.stage.Writing? then [s.stage.group] else [];
    StartedIncreasing(s);
    MemIs(s);
    assert a + b == Started(s);
    RecordedNewer(a, b);
    RecordedConcat(a, b);
    RecordedUnique(a + b);
    IncreasingParts(a, b);
    RecordedNewer(s.cur.flushed, ImmGroups(s));
  }

  lemma {:induction false} StackLayers(v: Layers, imm: Option<set<Entry>>, mem: set<Entry>, f: set<Entry>)
    requires Ordered(v) && Union(v) <= f
    requires var i := if imm.Some? then imm.value else {};
             Newer(i, f) && Newer(mem, f + i) && Unique(f + i + mem)
    ensures var ls := [mem] + (if imm.Some? then [imm.value] else []) + v;
            && Ordered(ls) && Unique(Union(ls))
            && Union(ls) == Union(v) + (if imm.Some? then imm.value else {}) + mem
  {
    hide Ordered;
    var below := (if imm.Some? then [imm.value] else []) + v;
    assert [mem] + (if imm.Some? then [imm.value] else []) + v == [mem] + below;
    assert ([mem] + below)[1..] == below;
    if imm.Some? {
      assert below[1..] == v;
      FlushOnTop(v, imm.value);
    } else {
      assert below == v;
    }
    FlushOnTop(below, mem);
  }

  lemma {:induction false} LayersFacts(s: State)
    requires Inv(s)
    ensures Ordered(AllLayers(s)) && Unique(Union(AllLayers(s)))
    ensures Union(AllLayers(s)) == Union(s.cur.version) + Recorded(ImmGroups(s)) + s.mem
  {
    hide SnapInv, CompInv, AckInv, EditInv, QueueInv, LogInv, SyncInv, SeqInv, Read, Increasing, Below, Ordered,
         Unique, Newer, Union;
    StackFacts(s);
    RecordedConcat(s.cur.flushed, ImmGroups(s));
    StackLayers(s.cur.version, s.imm, s.mem, Recorded(s.cur.flushed));
  }

  /** A read at any snapshot from the horizon to the last sequence number
      returns exactly what the committed groups say, whatever layer it hits. */
  lemma {:induction false} GetIsHistory(s: State, k: Key, x: nat)
    requires Inv(s) && s.cur.horizon <= x <= s.lastSeq
    ensures GetAt(s, k, x) == Read(Recorded(Committed(s)), k, x)
  {
    hide SnapInv, CompInv, AckInv, EditInv, QueueInv, LogInv, SyncInv, SeqInv, Recorded, Read, ContentInv, Ordered;
    var v, f, i, m := Union(s.cur.version), Recorded(s.cur.flushed), Recorded(ImmGroups(s)), Recorded(MemGroups(s));
    LayersFacts(s);
    FindIsLookup(AllLayers(s), k, x);
    StackFacts(s);
    MemIs(s);
    RecordedConcat(s.cur.flushed, ImmGroups(s));
    RecordedConcat(s.cur.flushed + ImmGroups(s), MemGroups(s));
    assert Unique(f + i) && Unique(f + i + s.mem);
    ReadExtend(v, f, i, k, x);
    ReadExtend(v + i, f + i, s.mem, k, x);
    assert Unique(f + i + m);
    SameRead(f + i + s.mem, f + i + m, k, x);
  }

  /** Without a crash the history only grows, by groups above the last sequence number. */
  lemma {:induction false} HistoryGrows(s: State, ev: Event)
    requires Inv(s) && Enabled(s, ev) && !ev.CrashAndReopen?
    ensures var t := Apply(s, ev);
            && s.lastSeq <= t.lastSeq
            && (ev.Commit? ==> s.stage.Writing? && s.stage.group.start == s.lastSeq + 1)
            && Committed(t) == (if ev.Commit? then Committed(s) + [s.stage.group] else Committed(s))
  {
    hide DiskOk, SnapInv, CompInv, AckInv, QueueInv, SyncInv, SeqInv, ContentInv, IsGroup, InputsClosed, BaseOk,
         NoKeyIn, NoOlderLeft, Kept, Compacted, Moved, Flushed, OpsOf, Replay, RecoveredLayers, MaxSeq, Flatten;
    var t := Apply(s, ev);
    if ev.Commit? {
      var g := s.stage.group;
      assert MemGroups(t) == MemGroups(s) + [g] && ImmGroups(t) == ImmGroups(s);
      assert Committed(t) == Committed(s) + [g];
    } else if ev.SwitchMemtable? {
      assert MemGroups(t) == [] && ImmGroups(t) == MemGroups(s) && ImmGroups(s) == [];
      assert Committed(t) == Committed(s);
    } else if ev.Install? {
      assert MemGroups(t) == MemGroups(s);
      assert s.dur.flushed + ImmGroups(t) == s.cur.flushed + ImmGroups(s);
    } else {
      assert MemGroups(t) == MemGroups(s) && ImmGroups(t) == ImmGroups(s);
    }
  }

  ghost predicate NoCrash(evs: seq<Event>, i: nat, j: nat) {
    forall n :: i <= n < j && n < |evs| ==> !evs[n].CrashAndReopen?
  }

  lemma {:induction false} ReadUnmoved(gs: seq<Group>, g: Group, k: Key, x: nat)
    requires Increasing(gs + [g]) && x < g.start
    ensures Read(Recorded(gs + [g]), k, x) == Read(Recorded(gs), k, x)
  {
    hide OpsOf;
    RecordedUnique(gs + [g]);
    IncreasingParts(gs, [g]);
    RecordedUnique(gs);
    RecordedSnoc(gs, g);
    SameRead(Recorded(gs + [g]), Recorded(gs), k, x);
  }

  lemma {:induction false} HistoryStable(ss: seq<State>, evs: seq<Event>, i: nat, j: nat, k: Key, x: nat)
    requires Run(ss, evs) && i <= j < |ss| && NoCrash(evs, i, j) && x <= ss[i].lastSeq
    ensures ss[i].lastSeq <= ss[j].lastSeq
    ensures Read(Recorded(Committed(ss[j])), k, x) == Read(Recorded(Committed(ss[i])), k, x)
    decreases j
  {
    hide Inv, Enabled, Apply, Initial, Recorded, Read, Committed, OpsOf;
    if i < j {
      var s, ev, t := ss[j - 1], evs[j - 1], ss[j];
      HistoryStable(ss, evs, i, j - 1, k, x);
      Reachable(ss, evs, j - 1);
      Reachable(ss, evs, j);
      assert ss[j - 1 + 1] == t;
      HistoryGrows(s, ev);
      CommittedIncreasing(t);
      if ev.Commit? { ReadUnmoved(Committed(s), s.stage.group, k, x); }
    }
  }

  lemma {:induction false} CommittedIncreasing(s: State)
    requires Inv(s)
    ensures Increasing(Committed(s)) && Below(Committed(s), s.lastSeq + 1)
  {}

  /** Snapshot stability: over any run, whatever is written, flushed and
      compacted meanwhile, a live snapshot keeps returning the same value. */
  lemma {:induction false} SnapshotStable(ss: seq<State>, evs: seq<Event>, i: nat, j: nat, x: nat, k: Key)
    requires Run(ss, evs) && i <= j < |ss| && NoCrash(evs, i, j)
    requires x in ss[i].snaps && x in ss[j].snaps
    ensures GetAt(ss[j], k, x) == GetAt(ss[i], k, x)
  {
    hide Inv, Run, GetAt, Recorded, Read, Committed, NoCrash;
    Reachable(ss, evs, i);
    Reachable(ss, evs, j);
    SnapshotInRange(ss[i], x);
    SnapshotInRange(ss[j], x);
    HistoryStable(ss, evs, i, j, k, x);
    GetIsHistory(ss[i], k, x);
    GetIsHistory(ss[j], k, x);
  }

  lemma {:induction false} SnapshotInRange(s: State, x: nat)
    requires Inv(s) && x in s.snaps
    ensures s.cur.horizon <= x <= s.lastSeq
  {}

  /** A Get without a snapshot reads the last committed state. */
  lemma {:induction false} LatestGet(ss: seq<State>, evs: seq<Event>, i: nat, k: Key)
    requires Run(ss, evs) && i < |ss|
    ensures GetAt(ss[i], k, ss[i].lastSeq) == Read(Recorded(Committed(ss[i])), k, ss[i].lastSeq)
  {
    hide Run, GetAt, Recorded, Read, Committed, Ordered, SnapInv, CompInv, QueueInv, AckInv;
    Reachable(ss, evs, i);
    GetIsHistory(ss[i], k, ss[i].lastSeq);
  }

  /** What the memtable that is current at i holds by j: once it is switched out
      nothing is added to it any more. */
  ghost function Pinned(ss: seq<State>, evs: seq<Event>, i: nat, j: nat): set<Entry>
    requires i <= j < |ss| && j <= |evs|
    decreases j - i
  {
    if i == j || evs[i].SwitchMemtable? then ss[i].mem else Pinned(ss, evs, i + 1, j)
  }

  lemma {:induction false} PinnedIs(ss: seq<State>, evs: seq<Event>, i: nat, j: nat) returns (n: nat)
    requires i <= j < |ss| && j <= |evs|
    ensures i <= n <= j && Pinned(ss, evs, i, j) == ss[n].mem
    ensures forall l :: i <= l < n ==> !evs[l].SwitchMemtable?
    decreases j - i
  {
    n := i;
    if i < j && !evs[i].SwitchMemtable? { n := PinnedIs(ss, evs, i + 1, j); }
  }

  /** DBImpl::Get pins memtables and version under the mutex and reads after
      releasing it.  The memtable may have grown by then, and may have been
      switched out, flushed and dropped, but the read does not show it. */
  lemma {:induction false} UnlockedGet(ss: seq<State>, evs: seq<Event>, i: nat, j: nat, x: nat, k: Key)
    requires Run(ss, evs) && i <= j < |ss| && x <= ss[i].lastSeq && NoCrash(evs, i, j)
    ensures Get([Pinned(ss, evs, i, j)] + ImmLayers(ss[i]) + ss[i].cur.version, k, x) == GetAt(ss[i], k, x)
  {
    hide Inv, Enabled, Apply, Initial, Recorded, Committed, Pinned;
    var n := PinnedIs(ss, evs, i, j);
    var mem := ss[n].mem;
    MemGrows(ss, evs, i, n);
    Reachable(ss, evs, i);
    Reachable(ss, evs, n);
    MemUnique(ss[i]);
    MemUnique(ss[n]);
    SameRead(mem, ss[i].mem, k, x);
    var below := ImmLayers(ss[i]) + ss[i].cur.version;
    assert ([mem] + ImmLayers(ss[i]) + ss[i].cur.version)[1..] == below == AllLayers(ss[i])[1..];
  }

  lemma {:induction false} MemUnique(s: State)
    requires Inv(s)
    ensures Unique(s.mem)
  {
    hide Inv, Recorded;
    StackFacts(s);
  }

  lemma {:induction false} MemGrows(ss: seq<State>, evs: seq<Event>, i: nat, j: nat)
    requires Run(ss, evs) && i <= j < |ss|
    requires forall n :: i <= n < j ==> !evs[n].CrashAndReopen? && !evs[n].SwitchMemtable?
    ensures ss[i].mem <= ss[j].mem && ss[i].lastSeq <= ss[j].lastSeq
    ensures forall e :: e in ss[j].mem ==> e in ss[i].mem || e.num > ss[i].lastSeq
    decreases j
  {
    hide Inv, Enabled, Apply, Initial, Committed;
    if i < j {
      MemGrows(ss, evs, i, j - 1);
      Reachable(ss, evs, j - 1);
      assert ss[j - 1 + 1] == Apply(ss[j - 1], evs[j - 1]);
      MemStep(ss[j - 1], evs[j - 1]);
    }
  }

  lemma {:induction false} MemStep(s: State, ev: Event)
    requires Inv(s) && Enabled(s, ev) && !ev.CrashAndReopen? && !ev.SwitchMemtable?
    ensures var t := Apply(s, ev);
            && s.mem <= t.mem && s.lastSeq <= t.lastSeq
            && forall e :: e in t.mem ==> e in s.mem || e.num > s.lastSeq
  {
    hide DiskOk, SnapInv, CompInv, AckInv, QueueInv, SyncInv, SeqInv, ContentInv, EditInv, LogInv, IsGroup,
         InputsClosed, BaseOk, NoKeyIn, NoOlderLeft, Kept, Compacted, Moved, Flushed, OpsOf, Replay, RecoveredLayers,
         MaxSeq, Flatten;
  }

  // --------------------------------------------------------------- durability

  lemma {:induction false} AckedGrow(ss: seq<State>, evs: seq<Event>, i: nat, j: nat)
    requires Run(ss, evs) && i <= j < |ss|
    ensures ss[i].acked <= ss[j].acked
    decreases j
  {
    hide Enabled, Apply, Initial;
    if i < j {
      AckedGrow(ss, evs, i, j - 1);
      assert ss[j - 1 + 1] == Apply(ss[j - 1], evs[j - 1]);
      AckedStep(ss[j - 1], evs[j - 1]);
    }
  }

  lemma {:induction false} AckedStep(s: State, ev: Event)
    requires Enabled(s, ev)
    ensures s.acked <= Apply(s, ev).acked
  {
    hide IsGroup, InputsClosed, BaseOk, NoKeyIn, NoOlderLeft, Kept, Compacted, Moved, Flushed, OpsOf, Replay,
         RecoveredLayers, MaxSeq, Flatten;
  }

  /** Durability: once a synced write is acknowledged it is in the history for
      the rest of the run, across any number of crashes at any point. */
  lemma {:induction false} SyncedWritesSurvive(ss: seq<State>, evs: seq<Event>, i: nat, j: nat, w: Writer)
    requires Run(ss, evs) && i <= j < |ss|
    requires w in ss[i].acked && w.sync && w.batch.Some?
    ensures w in Members(Committed(ss[j]))
  {
    hide Run, DiskOk, SnapInv, CompInv, EditInv, ContentInv, QueueInv, LogInv, SyncInv, Members, Committed;
    AckedGrow(ss, evs, i, j);
    Reachable(ss, evs, j);
  }

  /** A crash invents nothing: what is there afterwards was committed, or was
      the one group logged but not yet acknowledged, in the same order; and
      reads from then on are those of the surviving groups. */
  lemma {:induction false} CrashInventsNothing(s: State, cut: map<nat, nat>, parts: seq<seq<Group>>, k: Key)
    requires Inv(s) && Enabled(s, CrashAndReopen(cut, parts))
    ensures var t := Reopened(s, cut, parts);
            && (forall g :: g in Committed(t) ==>
                 g in Committed(s) || (s.stage.Writing? && s.stage.logged && g == s.stage.group))
            && Increasing(Committed(t))
            && GetAt(t, k, t.lastSeq) == Read(Recorded(Committed(t)), k, t.lastSeq)
  {
    hide DiskOk, SnapInv, CompInv, EditInv, ContentInv, QueueInv, LogInv, SyncInv, AckInv, Recorded, Read, Replay,
         RecoveredLayers, Flatten, MaxSeq, GetAt;
    var t := Reopened(s, cut, parts);
    CrashKeeps(s, cut, parts);
    WithInFlight(s);
    HorizonInRange(t);
    GetIsHistory(t, k, t.lastSeq);
  }

  lemma {:induction false} HorizonInRange(s: State)
    requires Inv(s)
    ensures s.cur.horizon <= s.lastSeq
  {}

  // ------------------------------------------------------------ group commit

  /** Atomic visibility: no snapshot and no value of LastSequence shows part of a group. */
  lemma {:induction false} AtomicVisibility(ss: seq<State>, evs: seq<Event>, i: nat, x: nat, g: Group)
    requires Run(ss, evs) && i < |ss|
    requires x in ss[i].snaps || x == ss[i].lastSeq
    requires g in Started(ss[i])
    ensures (forall e :: e in GroupEntries(g) ==> e.num <= x) || (forall e :: e in GroupEntries(g) ==> e.num > x)
  {
    hide Run, DiskOk, CompInv, EditInv, ContentInv, QueueInv, LogInv, SyncInv, AckInv, OpsOf;
    Reachable(ss, evs, i);
    assert End(g) <= x + 1 || x < g.start;
  }

  /** Each write is in at most one group, groups follow arrival order, and their
      sequence ranges are disjoint and increasing. */
  lemma {:induction false} OneGroupInOrder(ss: seq<State>, evs: seq<Event>, n: nat, i: nat, j: nat, v: Writer,
      w: Writer)
    requires Run(ss, evs) && n < |ss|
    requires i < j < |Committed(ss[n])|
    requires v in Committed(ss[n])[i].members && w in Committed(ss[n])[j].members
    ensures v.id < w.id && End(Committed(ss[n])[i]) <= Committed(ss[n])[j].start
  {
    hide Run, DiskOk, CompInv, EditInv, ContentInv, LogInv, SyncInv, AckInv, SnapInv, OpsOf, Committed, IdsIncrease,
         Members;
    Reachable(ss, evs, n);
    MemberOrder(Committed(ss[n]), ss[n].queue, i, j, v, w);
  }

  lemma {:induction false} MemberOrder(gs: seq<Group>, queue: seq<Writer>, i: nat, j: nat, v: Writer, w: Writer)
    requires i < j < |gs| && v in gs[i].members && w in gs[j].members
    requires IdsIncrease(Members(gs) + queue)
    ensures v.id < w.id
  {
    hide Members;
    var a, b := gs[..j], gs[j..];
    assert gs == a + b;
    MembersConcat(a, b);
    InMembers(a, v);
    assert a[i] == gs[i];
    InMembers(b, w);
    assert b[0] == gs[j];
    var p :| 0 <= p < |Members(a)| && Members(a)[p] == v;
    var q :| 0 <= q < |Members(b)| && Members(b)[q] == w;
    var all := Members(gs) + queue;
    assert all[p] == v && all[|Members(a)| + q] == w;
  }

  /** No sync writer is ever served by a leader that did not sync. */
  lemma {:induction false} SyncLeads(ss: seq<State>, evs: seq<Event>, n: nat, g: Group, w: Writer)
    requires Run(ss, evs) && n < |ss| && g in Started(ss[n]) && w in g.members && w.sync
    ensures g.members[0].sync
  {
    hide Run, DiskOk, CompInv, EditInv, ContentInv, LogInv, SyncInv, AckInv, SnapInv, SeqInv;
    Reachable(ss, evs, n);
  }
}
