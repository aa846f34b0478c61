/** Every event keeps the store's invariant. */
module StoreSafety {
  import opened Wrappers
  import opened Entries
  import opened History
  import opened Compaction
  import opened Store

  // ------------------------------------------------------- small set facts

  lemma {:induction false} MembersConcat(a: seq<Group>, b: seq<Group>)
    ensures Members(a + b) == Members(a) + Members(b)
  {
    if b == [] { assert a + b == a; } else {
      assert (a + b)[..|a + b| - 1] == a + b[..|b| - 1];
      MembersConcat(a, b[..|b| - 1]);
    }
  }

  lemma {:induction false} InsertedStep(stage: Stage)
    requires stage.Writing? && stage.inserted < |Ops(stage.group)|
    ensures var op := Ops(stage.group)[stage.inserted];
            Inserted(stage.(inserted := stage.inserted + 1))
            == Inserted(stage) + {Entry(op.key, stage.group.start + stage.inserted, op.val)}
  {
    var ops, i := Ops(stage.group), stage.inserted;
    assert ops[..i + 1] == ops[..i] + [ops[i]];
  }

  // ------------------------------------------------- component invariants

  lemma {:induction false} QueueGrows(all: seq<Group>, queue: seq<Writer>, nextId: nat, stage: Stage, w: Writer)
    requires QueueInv(all, queue, nextId, stage) && w.id == nextId
    ensures QueueInv(all, queue + [w], nextId + 1, stage)
  {
    var ms := Members(all);
    assert ms + (queue + [w]) == (ms + queue) + [w];
    if stage.Writing? {
      var n := |stage.group.members|;
      assert (queue + [w])[..n] == queue[..n];
    }
  }

  lemma {:induction false} QueueShrinks(all: seq<Group>, queue: seq<Writer>, nextId: nat)
    requires QueueInv(all, queue, nextId, Idle) && queue != []
    ensures QueueInv(all, queue[1..], nextId, Idle)
  {
    var ms: seq<Writer>, q: seq<Writer> := Members(all), queue[1..];
    forall i, j | 0 <= i < j < |ms + q| ensures (ms + q)[i].id < (ms + q)[j].id {
      var i', j' := if i < |ms| then i else i + 1, if j < |ms| then j else j + 1;
      assert (ms + queue)[i'] == (ms + q)[i] && (ms + queue)[j'] == (ms + q)[j];
    }
  }

  lemma {:induction false} GroupPicked(all: seq<Group>, queue: seq<Writer>, nextId: nat, n: nat, g: Group, stage: Stage)
    requires QueueInv(all, queue, nextId, Idle) && IsGroup(queue, n) && g.members == queue[..n]
    requires stage.Writing? && stage.group == g
    ensures QueueInv(all, queue, nextId, stage)
  {
    forall w | w in g.members && w.sync ensures queue[0].sync {
      var i :| 0 <= i < n && queue[i] == w;
      assert i > 0 ==> Fits(queue, i);
    }
  }

  lemma {:induction false} SnapTaken(snaps: seq<nat>, horizon: nat, lastSeq: nat, all: seq<Group>)
    requires SnapInv(snaps, horizon, lastSeq, all) && horizon <= lastSeq && Below(all, lastSeq + 1)
    ensures SnapInv(snaps + [lastSeq], horizon, lastSeq, all)
  {
    assert forall i :: 0 <= i < |snaps| ==> snaps[i] in snaps;
  }

  lemma {:induction false} SnapReleased(snaps: seq<nat>, horizon: nat, lastSeq: nat, all: seq<Group>, i: nat)
    requires SnapInv(snaps, horizon, lastSeq, all) && i < |snaps|
    ensures SnapInv(snaps[..i] + snaps[i + 1..], horizon, lastSeq, all)
  {
    var rest := snaps[..i] + snaps[i + 1..];
    forall x | x in rest ensures x in snaps {}
    forall j, k | 0 <= j < k < |rest| ensures rest[j] <= rest[k] {
      var j', k' := if j < i then j else j + 1, if k < i then k else k + 1;
      assert snaps[j'] == rest[j] && snaps[k'] == rest[k];
    }
  }

  lemma {:induction false} CompSnaps(comp: Option<Comp>, version: Layers, snaps: seq<nat>, lastSeq: nat,
      snaps': seq<nat>)
    requires CompInv(comp, version, snaps, lastSeq)
    requires forall x :: x in snaps' ==> x in snaps || x == lastSeq
    ensures CompInv(comp, version, snaps', lastSeq)
  {}

  lemma {:induction false} QueueStage(all: seq<Group>, queue: seq<Writer>, nextId: nat, a: Stage, b: Stage)
    requires QueueInv(all, queue, nextId, a) && a.Writing? && b.Writing? && a.group == b.group
    ensures QueueInv(all, queue, nextId, b)
  {}

  ghost predicate SameGroups(s: State, t: State) {
    MemGroups(t) == MemGroups(s) && ImmGroups(t) == ImmGroups(s) && Committed(t) == Committed(s)
  }

  // --------------------------------------------------------------- writers

  lemma {:induction false} EnqueueKeeps(s: State, batch: Option<seq<Op>>, sync: bool, size: nat)
    requires Inv(s) && Enabled(s, Enqueue(batch, sync, size))
    ensures Inv(Apply(s, Enqueue(batch, sync, size)))
  {
    hide ContentInv, DiskOk, SnapInv, CompInv, QueueInv, SeqInv, AckInv, EditInv;
    var t := Apply(s, Enqueue(batch, sync, size));
    assert SameGroups(s, t);
    QueueGrows(Committed(s), s.queue, s.nextId, s.stage, Writer(s.nextId, batch, sync, size));
  }

  lemma {:induction false} NullWriteKeeps(s: State)
    requires Inv(s) && Enabled(s, NullWrite)
    ensures Inv(Apply(s, NullWrite))
  {
    hide ContentInv, DiskOk, SnapInv, CompInv, QueueInv, SeqInv, EditInv, Members;
    var t := Apply(s, NullWrite);
    assert SameGroups(s, t);
    QueueShrinks(Committed(s), s.queue, s.nextId);
  }

  lemma {:induction false} BuildGroupKeeps(s: State, n: nat)
    requires Inv(s) && Enabled(s, BuildGroup(n))
    ensures Inv(Apply(s, BuildGroup(n)))
  {
    hide DiskOk, SnapInv, CompInv, QueueInv, SeqInv, AckInv, EditInv, Recorded;
    var t := Apply(s, BuildGroup(n));
    assert SameGroups(s, t);
    assert Inserted(t.stage) == {} == Inserted(s.stage);
    GroupPicked(Committed(s), s.queue, s.nextId, n, t.stage.group, t.stage);
  }

  lemma {:induction false} AppendLogKeeps(s: State)
    requires Inv(s) && Enabled(s, AppendLog)
    ensures Inv(Apply(s, AppendLog))
  {
    hide DiskOk, SnapInv, CompInv, QueueInv, SeqInv, AckInv, EditInv, Recorded;
    var t := Apply(s, AppendLog);
    assert SameGroups(s, t);
    QueueStage(Committed(s), s.queue, s.nextId, s.stage, t.stage);
  }

  lemma {:induction false} SyncLogKeeps(s: State)
    requires Inv(s) && Enabled(s, SyncLog)
    ensures Inv(Apply(s, SyncLog))
  {
    hide DiskOk, SnapInv, CompInv, QueueInv, SeqInv, AckInv, EditInv, Recorded;
    var t := Apply(s, SyncLog);
    assert SameGroups(s, t);
    QueueStage(Committed(s), s.queue, s.nextId, s.stage, t.stage);
  }

  lemma {:induction false} InsertOneKeeps(s: State)
    requires Inv(s) && Enabled(s, InsertOne)
    ensures Inv(Apply(s, InsertOne))
  {
    hide DiskOk, SnapInv, CompInv, QueueInv, SeqInv, AckInv, EditInv, Recorded, Inserted, OpsOf;
    var t := Apply(s, InsertOne);
    assert SameGroups(s, t);
    InsertedStep(s.stage);
    QueueStage(Committed(s), s.queue, s.nextId, s.stage, t.stage);
  }

  lemma {:induction false} SwitchKeeps(s: State)
    requires Inv(s) && Enabled(s, SwitchMemtable)
    ensures Inv(Apply(s, SwitchMemtable))
  {
    hide DiskOk, SnapInv, CompInv, QueueInv, SeqInv, AckInv;
    var t := Apply(s, SwitchMemtable);
    assert MemGroups(t) == [] && ImmGroups(t) == MemGroups(s) && ImmGroups(s) == [];
    assert Committed(t) == Committed(s);
    assert Inserted(s.stage) == {} && Recorded([]) == {};
    assert s.mem == Recorded(MemGroups(s));
    assert {} == Recorded(MemGroups(t)) + Inserted(t.stage);
    assert LogInv(t) && SyncInv(t);
  }

  lemma {:induction false} SnapshotKeeps(s: State)
    requires Inv(s) && Enabled(s, TakeSnapshot)
    ensures Inv(Apply(s, TakeSnapshot))
  {
    hide SnapInv, CompInv, QueueInv, AckInv, ContentInv, Ordered, Recorded, Read, Union, Increasing, Below;
    var t := Apply(s, TakeSnapshot);
    assert SameGroups(s, t);
    SnapTaken(s.snaps, s.dur.horizon, s.lastSeq, Committed(s));
    CompSnaps(s.comp, s.dur.version, s.snaps, s.lastSeq, t.snaps);
  }

  lemma {:induction false} ReleaseKeeps(s: State, i: nat)
    requires Inv(s) && Enabled(s, ReleaseSnapshot(i))
    ensures Inv(Apply(s, ReleaseSnapshot(i)))
  {
    hide DiskOk, SnapInv, CompInv, QueueInv, SeqInv, AckInv, EditInv, ContentInv;
    var t := Apply(s, ReleaseSnapshot(i));
    assert SameGroups(s, t);
    SnapReleased(s.snaps, s.dur.horizon, s.lastSeq, Committed(s), i);
    CompSnaps(s.comp, s.dur.version, s.snaps, s.lastSeq, t.snaps);
  }

  lemma {:induction false} DeleteLogsKeeps(s: State)
    requires Inv(s) && Enabled(s, DeleteLogs)
    ensures Inv(Apply(s, DeleteLogs))
  {
    hide DiskOk, SnapInv, CompInv, QueueInv, SeqInv, AckInv, EditInv, ContentInv;
    var t := Apply(s, DeleteLogs);
    assert SameGroups(s, t);
  }

  // ----------------------------------------------------------------- commit

  lemma {:induction false} QueueCommit(all: seq<Group>, queue: seq<Writer>, nextId: nat, stage: Stage)
    requires stage.Writing? && QueueInv(all, queue, nextId, stage)
    ensures QueueInv(all + [stage.group], queue[|stage.group.members|..], nextId, Idle)
  {
    var g := stage.group;
    var n := |g.members|;
    assert (all + [g])[..|all|] == all;
    assert Members(all + [g]) == Members(all) + g.members;
    assert queue == g.members + queue[n..];
    assert Members(all + [g]) + queue[n..] == Members(all) + queue;
  }

  lemma {:induction false} SnapCommit(snaps: seq<nat>, horizon: nat, lastSeq: nat, all: seq<Group>, g: Group, n: nat)
    requires SnapInv(snaps, horizon, lastSeq, all) && g.start == lastSeq + 1
    ensures SnapInv(snaps, horizon, lastSeq + n, all + [g])
  {}

  lemma {:induction false} CompCommit(comp: Option<Comp>, version: Layers, snaps: seq<nat>, lastSeq: nat, n: nat)
    requires CompInv(comp, version, snaps, lastSeq)
    ensures CompInv(comp, version, snaps, lastSeq + n)
  {}

  lemma {:induction false} SeqCommit(all: seq<Group>, lastSeq: nat, g: Group)
    requires SeqInv(all, lastSeq) && g.start == lastSeq + 1
    ensures SeqInv(all + [g], lastSeq + |Ops(g)|)
  {
    IncreasingSnoc(all, g);
  }

  lemma {:induction false} ContentCommit(s: State, inMem: seq<Group>, inImm: seq<Group>)
    requires s.stage.Writing? && s.stage.inserted == |Ops(s.stage.group)|
    requires ContentInv(s.mem, s.imm, s.stage, inMem, inImm)
    ensures ContentInv(s.mem, s.imm, Idle, inMem + [s.stage.group], inImm)
  {
    var ops := Ops(s.stage.group);
    assert ops[..|ops|] == ops;
    RecordedSnoc(inMem, s.stage.group);
  }

  lemma {:induction false} AckCommit(acked: set<Writer>, all: seq<Group>, g: Group)
    requires AckInv(acked, all)
    ensures AckInv(acked + (set w | w in g.members), all + [g])
  {
    assert (all + [g])[..|all|] == all;
    assert Members(all + [g]) == Members(all) + g.members;
  }

  lemma {:induction false} CommitKeeps(s: State)
    requires Inv(s) && Enabled(s, Commit)
    ensures Inv(Apply(s, Commit))
  {
    hide DiskOk, SnapInv, CompInv, QueueInv, SeqInv, AckInv, ContentInv, OpsOf;
    var t := Apply(s, Commit);
    var g, all := s.stage.group, Committed(s);
    assert MemGroups(t) == MemGroups(s) + [g] && ImmGroups(t) == ImmGroups(s);
    assert Committed(t) == all + [g];
    QueueCommit(all, s.queue, s.nextId, s.stage);
    SnapCommit(s.snaps, s.dur.horizon, s.lastSeq, all, g, |Ops(g)|);
    CompCommit(s.comp, s.dur.version, s.snaps, s.lastSeq, |Ops(g)|);
    SeqCommit(all, s.lastSeq, g);
    ContentCommit(s, MemGroups(s), ImmGroups(s));
    AckCommit(s.acked, all, g);
    assert SyncedUpTo(MemGroups(t), t.logs[t.logfile].synced);
  }

  // ------------------------------------------------------------------ flush

  lemma {:induction false} FlushUnion(v: Layers, imm: set<Entry>, layer: Option<nat>)
    requires layer.Some? ==> layer.value < |v|
    ensures Union(Flushed(v, imm, layer)) == Union(v) + imm
  {
    var fs := Flushed(v, imm, layer);
    if layer.None? {
      assert fs[1..] == v;
    } else {
      forall e ensures e in Union(fs) <==> e in Union(v) + imm {
        InUnion(fs, e);
        InUnion(v, e);
        if e in imm { assert e in fs[layer.value]; }
        if i :| 0 <= i < |v| && e in v[i] { assert e in fs[i]; }
      }
    }
  }

  lemma {:induction false} FlushOrdered(v: Layers, imm: set<Entry>, layer: Option<nat>)
    requires Ordered(v) && Newer(imm, Union(v))
    requires layer.Some? ==> layer.value < |v| && NoKeyIn(v, layer.value, imm)
    ensures Ordered(Flushed(v, imm, layer))
  {
    if layer.None? { FlushOnTop(v, imm); } else { FlushDeep(v, imm, layer.value); }
  }

  lemma {:induction false} FlushOnTop(v: Layers, imm: set<Entry>)
    requires Ordered(v) && Newer(imm, Union(v))
    ensures Ordered([imm] + v)
  {
    var fs := [imm] + v;
    forall i, j, e: Entry, f: Entry | 0 <= i < j < |fs| && e in fs[i] && f in fs[j] && e.key == f.key
        ensures e.num > f.num {
      assert f in v[j - 1];
      InUnion(v, f);
      if i > 0 { assert e in v[i - 1]; }
    }
  }

  lemma {:induction false} FlushDeep(v: Layers, imm: set<Entry>, d: nat)
    requires Ordered(v) && Newer(imm, Union(v)) && d < |v| && NoKeyIn(v, d, imm)
    ensures Ordered(v[d := v[d] + imm])
  {
    var fs := v[d := v[d] + imm];
    forall i, j, e: Entry, f: Entry | 0 <= i < j < |fs| && e in fs[i] && f in fs[j] && e.key == f.key
        ensures e.num > f.num {
      if i == d && e in imm { InUnion(v, f); assert f in v[j]; }
    }
  }

  /** Adding a flushed memtable extends the agreement between tables and history. */
  lemma {:induction false} FlushDisk(m: Manifest, gs: seq<Group>, layer: Option<nat>, log: nat, lastSeq: nat)
    requires DiskOk(m) && Increasing(m.flushed + gs) && Below(m.flushed + gs, lastSeq + 1) && m.lastSeq <= lastSeq
    requires layer.Some? ==> layer.value < |m.version| && NoKeyIn(m.version, layer.value, Recorded(gs))
    ensures DiskOk(Manifest(Flushed(m.version, Recorded(gs), layer), log, lastSeq, m.flushed + gs, m.horizon))
  {
    var imm := Recorded(gs);
    RecordedNewer(m.flushed, gs);
    FlushOrdered(m.version, imm, layer);
    FlushUnion(m.version, imm, layer);
    RecordedConcat(m.flushed, gs);
    RecordedUnique(m.flushed + gs);
    forall k, x | m.horizon <= x
      ensures Read(Union(m.version) + imm, k, x) == Read(Recorded(m.flushed) + imm, k, x)
    {
      ReadExtend(Union(m.version), Recorded(m.flushed), imm, k, x);
    }
  }

  /** A flush while a compaction runs does not open its inputs. */
  lemma {:induction false} CompFlush(comp: Option<Comp>, v: Layers, snaps: seq<nat>, lastSeq: nat, imm: set<Entry>,
      layer: Option<nat>)
    requires CompInv(comp, v, snaps, lastSeq) && Newer(imm, Union(v))
    requires layer.Some? ==> layer.value < |v| && NoKeyIn(v, layer.value, imm)
    ensures CompInv(comp, Flushed(v, imm, layer), snaps, lastSeq)
  {
    hide InputsClosed, BaseOk, NoKeyIn, Newer, Union;
    if comp.Some? {
      var c := comp.value;
      ClosedFlush(v, imm, layer, |v| - c.fromEnd, c.ins);
      BaseFlush(v, imm, layer, |v| - c.fromEnd, c.ins, c.base);
    }
  }

  lemma {:induction false} BaseFlush(v: Layers, imm: set<Entry>, layer: Option<nat>, t: nat, ins: set<Entry>,
      base: iset<Key>)
    requires t < |v| && InputsClosed(v, t, ins) && BaseOk(v, t, ins, base)
    requires layer.Some? ==> layer.value < |v| && NoKeyIn(v, layer.value, imm)
    ensures BaseOk(Flushed(v, imm, layer), if layer.None? then t + 1 else t, ins, base)
  {
    var fs := Flushed(v, imm, layer);
    forall i, e: Entry, f: Entry | (if layer.None? then t + 1 else t) < i < |fs| && e in ins && f in fs[i] &&
        e.key == f.key
      ensures e.key !in base
    {
      if layer.None? { assert f in v[i - 1]; }
      else if f !in v[i] { var h := InputPlace(v, t, ins, e); }
    }
  }

  lemma {:induction false} ClosedFlush(v: Layers, imm: set<Entry>, layer: Option<nat>, t: nat, ins: set<Entry>)
    requires t < |v| && InputsClosed(v, t, ins) && Newer(imm, Union(v))
    requires layer.Some? ==> layer.value < |v|
    ensures InputsClosed(Flushed(v, imm, layer), if layer.None? then t + 1 else t, ins)
  {
    var fs := Flushed(v, imm, layer);
    var t' := if layer.None? then t + 1 else t;
    forall e | e in ins ensures e in Union(fs[..t' + 1]) && e in Union(v) {
      var h := InputPlace(v, t, ins, e);
      InUnion(v, e);
      InUnion(fs[..t' + 1], e);
      assert e in fs[..t' + 1][if layer.None? then h + 1 else h];
    }
    forall i, e, f | 0 <= i <= t' && e in ins && f in fs[i] && f !in ins && e.key == f.key ensures f.num > e.num {
      if f !in imm { assert if layer.None? then i > 0 && f in v[i - 1] else f in v[i]; }
    }
  }

  lemma {:induction false} FlushKeeps(s: State, layer: Option<nat>)
    requires Inv(s) && Enabled(s, Flush(layer))
    ensures Inv(Apply(s, Flush(layer)))
  {
    hide SnapInv, CompInv, QueueInv, AckInv, Flushed, NoKeyIn, Increasing, Below, Ordered, Recorded, Read, Members;
    var t := Apply(s, Flush(layer));
    assert SameGroups(s, t);
    FlushParts(s);
    FlushDisk(s.cur, ImmGroups(s), layer, s.logfile, s.lastSeq);
    CompFlush(s.comp, s.cur.version, s.snaps, s.lastSeq, s.imm.value, layer);
  }

  lemma {:induction false} FlushParts(s: State)
    requires Inv(s) && s.imm.Some?
    ensures Increasing(s.cur.flushed + ImmGroups(s)) && Below(s.cur.flushed + ImmGroups(s), s.lastSeq + 1)
    ensures Newer(s.imm.value, Union(s.cur.version))
  {
    hide SnapInv, CompInv, QueueInv, AckInv, LogInv, EditInv, SyncInv, Read;
    var a, b := s.cur.flushed + ImmGroups(s), MemGroups(s);
    IncreasingParts(a, b);
    assert forall g :: g in a ==> g in a + b;
    RecordedNewer(s.cur.flushed, ImmGroups(s));
  }

  // ------------------------------------------------------------- compaction

  lemma {:induction false} BeginCompactionKeeps(s: State, fromEnd: nat, ins: set<Entry>, base: iset<Key>)
    requires Inv(s) && Enabled(s, BeginCompaction(fromEnd, ins, base))
    ensures Inv(Apply(s, BeginCompaction(fromEnd, ins, base)))
  {
    hide QueueInv, AckInv, ContentInv, InputsClosed, BaseOk, Recorded, Read, Increasing, Below, Ordered;
    var t := Apply(s, BeginCompaction(fromEnd, ins, base));
    assert SameGroups(s, t);
    assert s.cur == s.dur && (s.snaps != [] ==> s.snaps[0] in s.snaps);
    forall x | x in s.snaps ensures SmallestSnapshot(s) <= x {
      var i :| 0 <= i < |s.snaps| && s.snaps[i] == x;
      assert i > 0 ==> s.snaps[0] <= s.snaps[i];
    }
  }

  lemma {:induction false} CompactedDisk(m: Manifest, c: Comp, lastSeq: nat)
    requires DiskOk(m) && m.lastSeq <= lastSeq && c.smallest <= lastSeq && 1 <= c.fromEnd <= 6
    requires InputsClosed(m.version, |m.version| - c.fromEnd, c.ins)
    requires BaseOk(m.version, |m.version| - c.fromEnd, c.ins, c.base)
    ensures DiskOk(m.(version := Compacted(m.version, |m.version| - c.fromEnd, c.ins, Kept(c.ins, c.smallest, c.base)),
                      lastSeq := lastSeq, horizon := if c.smallest > m.horizon then c.smallest else m.horizon))
  {
    hide InputsClosed, BaseOk, Kept, Increasing;
    RecordedUnique(m.flushed);
    CompactionPreserves(m.version, |m.version| - c.fromEnd, c.ins, c.smallest, c.base);
  }

  lemma {:induction false} EndCompactionKeeps(s: State)
    requires Inv(s) && Enabled(s, EndCompaction)
    ensures Inv(Apply(s, EndCompaction))
  {
    hide QueueInv, AckInv, ContentInv, DiskOk, InputsClosed, BaseOk, Kept, Compacted, Recorded, Read, Increasing,
         Below, Ordered;
    var t := Apply(s, EndCompaction);
    assert SameGroups(s, t);
    CompactedDisk(s.cur, s.comp.value, s.lastSeq);
  }

  /** A compaction given up on shutdown or error leaves nothing behind. */
  lemma {:induction false} AbortCompactionKeeps(s: State)
    requires Inv(s) && Enabled(s, AbortCompaction)
    ensures Inv(Apply(s, AbortCompaction))
  {
    hide QueueInv, AckInv, ContentInv, DiskOk, SnapInv, InputsClosed, BaseOk;
    assert SameGroups(s, Apply(s, AbortCompaction));
  }

  lemma {:induction false} MovedDisk(m: Manifest, fromEnd: nat, from: nat, file: set<Entry>, lastSeq: nat)
    requires DiskOk(m) && m.lastSeq <= lastSeq && 1 <= fromEnd && from < |m.version| - fromEnd
    requires file <= m.version[from] && NoOlderLeft(m.version, from, |m.version| - fromEnd, file)
    ensures DiskOk(m.(version := Moved(m.version, |m.version| - fromEnd, file), lastSeq := lastSeq))
  {
    hide NoOlderLeft, Increasing, Recorded, Read;
    OrderedDisjoint(m.version);
    MovedFacts(m.version, from, |m.version| - fromEnd, file);
    MovedOrdered(m.version, from, |m.version| - fromEnd, file);
  }

  lemma {:induction false} TrivialMoveKeeps(s: State, fromEnd: nat, from: nat, file: set<Entry>)
    requires Inv(s) && Enabled(s, TrivialMove(fromEnd, from, file))
    ensures Inv(Apply(s, TrivialMove(fromEnd, from, file)))
  {
    hide QueueInv, AckInv, ContentInv, DiskOk, SnapInv, Moved, NoOlderLeft;
    var t := Apply(s, TrivialMove(fromEnd, from, file));
    assert SameGroups(s, t);
    MovedDisk(s.cur, fromEnd, from, file, s.lastSeq);
  }

  lemma {:induction false} InstallKeeps(s: State)
    requires Inv(s) && Enabled(s, Install)
    ensures Inv(Apply(s, Install))
    ensures Committed(Apply(s, Install)) == Committed(s)
  {
    hide QueueInv, AckInv, DiskOk, SnapInv, CompInv, SeqInv, Recorded;
    var t := Apply(s, Install);
    assert MemGroups(t) == MemGroups(s);
    assert s.dur.flushed + ImmGroups(t) == s.cur.flushed + ImmGroups(s);
    assert Committed(t) == Committed(s);
  }
}
