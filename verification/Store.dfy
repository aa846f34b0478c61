/**
 DBImpl as a state machine.

 Every event is what one thread does between taking and releasing the mutex, or
 one effect of the stretches that run with the mutex released: appending and
 syncing the log, inserting into the memtable, writing the manifest.  So a
 writer's commit, a memtable flush and a compaction are several events each,
 and any other thread's events may come between them.
 */
module Store {
  import opened Wrappers
  import opened Entries
  import opened History
  import opened Compaction

  /** A log file: its records in order and how many of them are known to be on disk. */
  datatype Log = Log(groups: seq<Group>, synced: nat)

  /** The state named by a manifest.  `version` lists the level-0 files newest
      first, then levels 1 to 6.  `flushed` and `horizon` are history variables:
      the groups whose memtables reached a table, and the largest snapshot
      bound any installed compaction worked with. */
  datatype Manifest = Manifest(version: Layers, logNumber: nat, lastSeq: nat, flushed: seq<Group>, horizon: nat)

  /** What the writer at the front of the queue has done for its group. */
  datatype Stage = Idle | Writing(group: Group, logged: bool, durable: bool, inserted: nat)

  /** A version edit that is in the manifest file but not yet installed. */
  datatype Edit = NoEdit | FlushEdit | CompactEdit

  /** A compaction in progress; its outputs go to layer |version| - fromEnd. */
  datatype Comp = Comp(fromEnd: nat, ins: set<Entry>, smallest: nat, base: iset<Key>)

  datatype State = State(
    queue: seq<Writer>, nextId: nat, stage: Stage,
    mem: set<Entry>, imm: Option<set<Entry>>,
    lastSeq: nat, snaps: seq<nat>,
    cur: Manifest, dur: Manifest, edit: Edit, comp: Option<Comp>,
    logs: map<nat, Log>, logfile: nat, immLog: nat, nextFile: nat,
    acked: set<Writer>)

  datatype Event =
    | Enqueue(batch: Option<seq<Op>>, sync: bool, size: nat)
    | NullWrite
    | SwitchMemtable
    | BuildGroup(n: nat)
    | AppendLog
    | SyncLog
    | InsertOne
    | Commit
    | TakeSnapshot
    | ReleaseSnapshot(i: nat)
    | Flush(layer: Option<nat>)
    | BeginCompaction(fromEnd: nat, ins: set<Entry>, base: iset<Key>)
    | EndCompaction
    | AbortCompaction
    | TrivialMove(fromEnd: nat, from: nat, file: set<Entry>)
    | Install
    | DeleteLogs
    | CrashAndReopen(cut: map<nat, nat>, parts: seq<seq<Group>>)

  // --------------------------------------------------------- group building

  function TotalSize(ws: seq<Writer>): nat {
    if ws == [] then 0 else
      TotalSize(ws[..|ws| - 1]) + (if ws[|ws| - 1].batch.Some? then ws[|ws| - 1].size else 0)
  }

  function MaxGroupSize(first: nat): nat {
    if first <= 131072 then first + 131072 else 1048576
  }

  /** Writer i may join the group led by writer 0. */
  predicate Fits(q: seq<Writer>, i: nat)
    requires 0 < i < |q|
  {
    && !(q[i].sync && !q[0].sync)
    && (q[i].batch.None? || TotalSize(q[..i + 1]) <= MaxGroupSize(q[0].size))
  }

  /** The group is the longest queue prefix whose writers all fit. */
  ghost predicate IsGroup(q: seq<Writer>, n: nat) {
    && 0 < n <= |q| && q[0].batch.Some?
    && (forall i :: 0 < i < n ==> Fits(q, i))
    && (n < |q| ==> !Fits(q, n))
  }

  lemma {:induction false} OneMoreWriter(q: seq<Writer>, n: nat)
    requires n < |q|
    ensures TotalSize(q[..n + 1]) == TotalSize(q[..n]) + (if q[n].batch.Some? then q[n].size else 0)
    ensures OpsOf(q[..n + 1]) == OpsOf(q[..n]) + BatchOf(q[n])
    ensures q[..0] == [] && TotalSize([]) == 0 && OpsOf([]) == []
  {
    assert q[..n + 1][..n] == q[..n];
  }

  /** A group stays near its leader's size: 128 KB more if that is at most 128 KB,
      1 MB in all otherwise. */
  lemma {:induction false} GroupBounded(q: seq<Writer>, n: nat)
    requires 0 < n <= |q| && q[0].batch.Some? && forall i :: 0 < i < n ==> Fits(q, i)
    ensures TotalSize(q[..n]) == q[0].size
         || TotalSize(q[..n]) <= if q[0].size <= 0x2_0000 then q[0].size + 0x2_0000 else 0x10_0000
  {
    hide TotalSize, OpsOf;
    OneMoreWriter(q, n - 1);
    if n > 1 {
      assert Fits(q, n - 1);
      GroupBounded(q, n - 1);
    }
  }

  /** Only a sync write behind a leader without sync, or a batch that would make the
      group too large, is left for the next group. */
  lemma {:induction false} GroupMaximal(q: seq<Writer>, n: nat)
    requires IsGroup(q, n) && n < |q|
    ensures || (q[n].sync && !q[0].sync)
            || (q[n].batch.Some? && TotalSize(q[..n + 1]) >
                                      if q[0].size <= 0x2_0000 then q[0].size + 0x2_0000 else 0x10_0000)
  {
    hide TotalSize;
    assert !Fits(q, n);
  }

  /** BuildBatchGroup: walk the queue from the leader, accumulating batches. */
  method BuildBatchGroup(q: seq<Writer>) returns (n: nat, updates: seq<Op>, ghost at: seq<nat>)
    requires q != [] && q[0].batch.Some?
    ensures IsGroup(q, n) && updates == OpsOf(q[..n]) && LaidOut(q[..n], updates, at)
  {
    hide LaidOut, TotalSize, OpsOf;
    updates := q[0].batch.value;
    var size := q[0].size;
    var maxSize := MaxGroupSize(size);
    n := 1;
    OneMoreWriter(q, 0);
    while n < |q|
      invariant 0 < n <= |q| && maxSize == MaxGroupSize(q[0].size)
      invariant forall i :: 0 < i < n ==> Fits(q, i)
      invariant size == TotalSize(q[..n]) && updates == OpsOf(q[..n])
    {
      var w := q[n];
      OneMoreWriter(q, n);
      if w.sync && !q[0].sync {
        break;
      }
      if w.batch.Some? {
        size := size + w.size;
        if size > maxSize {
          break;
        }
        updates := updates + w.batch.value;
      }
      n := n + 1;
    }
    at := OpsLaidOut(q[..n]);
  }

  // ---------------------------------------------------------------- reading

  ghost function ImmLayers(s: State): Layers {
    if s.imm.Some? then [s.imm.value] else []
  }

  ghost function AllLayers(s: State): Layers { [s.mem] + ImmLayers(s) + s.cur.version }

  /** DBImpl::Get at snapshot x. */
  ghost function GetAt(s: State, k: Key, x: nat): Option<Value> { Get(AllLayers(s), k, x) }

  // ----------------------------------------------------------------- guards

  ghost predicate NoKeyIn(ls: Layers, t: nat, es: set<Entry>)
    requires t < |ls|
  {
    forall i, e, f :: 0 <= i <= t && e in ls[i] && f in es ==> e.key != f.key
  }

  ghost predicate Enabled(s: State, ev: Event) {
    match ev
    case Enqueue(_, _, _) => true
    case NullWrite => s.stage.Idle? && s.queue != [] && s.queue[0].batch.None?
    case SwitchMemtable => s.stage.Idle? && s.queue != [] && s.imm.None?
    case BuildGroup(n) => s.stage.Idle? && IsGroup(s.queue, n)
    case AppendLog => s.stage.Writing? && !s.stage.logged && s.logfile in s.logs
    case SyncLog => s.stage.Writing? && s.stage.logged && !s.stage.durable && s.stage.group.members != []
                    && s.stage.group.members[0].sync && s.stage.inserted == 0 && s.logfile in s.logs
    case InsertOne => && s.stage.Writing? && s.stage.logged && s.stage.group.members != []
                      && (s.stage.group.members[0].sync ==> s.stage.durable)
                      && s.stage.inserted < |Ops(s.stage.group)|
    case Commit => && s.stage.Writing? && s.stage.logged && s.stage.group.members != []
                   && (s.stage.group.members[0].sync ==> s.stage.durable)
                   && s.stage.inserted == |Ops(s.stage.group)|
                   && |s.stage.group.members| <= |s.queue|
    case TakeSnapshot => true
    case ReleaseSnapshot(i) => i < |s.snaps|
    case Flush(layer) =>
      && s.edit.NoEdit? && s.imm.Some? && s.immLog in s.logs
      && (layer.Some? ==>
            && |s.cur.version| >= 6 && |s.cur.version| - 6 <= layer.value < |s.cur.version| - 4
            && NoKeyIn(s.cur.version, layer.value, s.imm.value))
    case BeginCompaction(fromEnd, ins, base) =>
      && s.edit.NoEdit? && s.comp.None? && s.imm.None?
      && 1 <= fromEnd <= 6 <= |s.cur.version|
      && InputsClosed(s.cur.version, |s.cur.version| - fromEnd, ins)
      && BaseOk(s.cur.version, |s.cur.version| - fromEnd, ins, base)
    case EndCompaction => s.edit.NoEdit? && s.comp.Some? && 1 <= s.comp.value.fromEnd <= |s.cur.version|
    case AbortCompaction => s.comp.Some?
    case TrivialMove(fromEnd, from, file) =>
      && s.edit.NoEdit? && s.comp.None? && s.imm.None?
      // a file of the level above, which for level 1 is any of the level-0 files
      && 1 <= fromEnd <= 6 && from < |s.cur.version| - fromEnd
      && (fromEnd < 6 ==> from == |s.cur.version| - fromEnd - 1)
      && file <= s.cur.version[from] && NoOlderLeft(s.cur.version, from, |s.cur.version| - fromEnd, file)
    case Install => !s.edit.NoEdit?
    case DeleteLogs => true
    case CrashAndReopen(cut, parts) =>
      && (forall n :: n in s.logs && s.dur.logNumber <= n ==>
            n in cut && s.logs[n].synced <= cut[n] <= |s.logs[n].groups|)
      && Flatten(parts) == Replay(s.logs, cut, s.dur.logNumber, s.nextFile)
  }

  // ---------------------------------------------------------------- effects

  ghost function Flushed(v: Layers, imm: set<Entry>, layer: Option<nat>): Layers
    requires layer.Some? ==> layer.value < |v|
  {
    if layer.None? then [imm] + v else v[layer.value := v[layer.value] + imm]
  }

  /** The oldest live snapshot, or the last sequence number if there is none. */
  ghost function SmallestSnapshot(s: State): nat {
    if s.snaps == [] then s.lastSeq else s.snaps[0]
  }

  /** What RecoverLogFile reads back from the logs numbered from `lo` up to
      `hi`, in number order, when log n survives up to record cut[n]. */
  ghost function Replay(logs: map<nat, Log>, cut: map<nat, nat>, lo: nat, hi: nat): seq<Group>
    requires forall n :: n in logs && lo <= n ==> n in cut && cut[n] <= |logs[n].groups|
    decreases hi - lo
  {
    if lo >= hi then [] else
      (if lo in logs then logs[lo].groups[..cut[lo]] else []) + Replay(logs, cut, lo + 1, hi)
  }

  /** Recovery writes each stretch of replayed records to its own level-0 table. */
  ghost function RecoveredLayers(parts: seq<seq<Group>>): Layers {
    if parts == [] then [] else [Recorded(parts[|parts| - 1])] + RecoveredLayers(parts[..|parts| - 1])
  }

  ghost function MaxSeq(gs: seq<Group>, floor: nat): nat {
    if gs == [] then floor else
      var m := MaxSeq(gs[..|gs| - 1], floor);
      if End(gs[|gs| - 1]) > m + 1 then End(gs[|gs| - 1]) - 1 else m
  }

  ghost function Reopened(s: State, cut: map<nat, nat>, parts: seq<seq<Group>>): State
    requires Enabled(s, CrashAndReopen(cut, parts))
  {
    var replayed := Replay(s.logs, cut, s.dur.logNumber, s.nextFile);
    var last := MaxSeq(replayed, s.dur.lastSeq);
    var m := Manifest(RecoveredLayers(parts) + s.dur.version, s.nextFile, last,
                      s.dur.flushed + replayed, s.dur.horizon);
    State([], s.nextId, Idle, {}, None, last, [], m, m, NoEdit, None,
          s.logs[s.nextFile := Log([], 0)], s.nextFile, 0, s.nextFile + 1, s.acked)
  }

  ghost function Apply(s: State, ev: Event): State
    requires Enabled(s, ev)
  {
    match ev
    case Enqueue(batch, sync, size) =>
      s.(queue := s.queue + [Writer(s.nextId, batch, sync, size)], nextId := s.nextId + 1)
    case NullWrite =>
      s.(queue := s.queue[1..], acked := s.acked + {s.queue[0]})
    case SwitchMemtable =>
      s.(imm := Some(s.mem), immLog := s.logfile, mem := {}, logfile := s.nextFile,
         logs := s.logs[s.nextFile := Log([], 0)], nextFile := s.nextFile + 1)
    case BuildGroup(n) =>
      s.(stage := Writing(Group(s.lastSeq + 1, s.queue[..n]), false, false, 0))
    case AppendLog =>
      var l := s.logs[s.logfile];
      s.(logs := s.logs[s.logfile := l.(groups := l.groups + [s.stage.group])], stage := s.stage.(logged := true))
    case SyncLog =>
      var l := s.logs[s.logfile];
      s.(logs := s.logs[s.logfile := l.(synced := |l.groups|)], stage := s.stage.(durable := true))
    case InsertOne =>
      var i := s.stage.inserted;
      var op := Ops(s.stage.group)[i];
      s.(mem := s.mem + {Entry(op.key, s.stage.group.start + i, op.val)}, stage := s.stage.(inserted := i + 1))
    case Commit =>
      var ws := s.stage.group.members;
      s.(lastSeq := s.lastSeq + |Ops(s.stage.group)|, queue := s.queue[|ws|..], stage := Idle,
         acked := s.acked + (set w | w in ws))
    case TakeSnapshot => s.(snaps := s.snaps + [s.lastSeq])
    case ReleaseSnapshot(i) => s.(snaps := s.snaps[..i] + s.snaps[i + 1..])
    case Flush(layer) =>
      s.(edit := FlushEdit,
         dur := Manifest(Flushed(s.cur.version, s.imm.value, layer), s.logfile, s.lastSeq,
                         s.cur.flushed + s.logs[s.immLog].groups, s.cur.horizon))
    case BeginCompaction(fromEnd, ins, base) =>
      s.(comp := Some(Comp(fromEnd, ins, SmallestSnapshot(s), base)))
    case EndCompaction =>
      var c := s.comp.value;
      s.(edit := CompactEdit, comp := None,
         dur := s.cur.(version := Compacted(s.cur.version, |s.cur.version| - c.fromEnd, c.ins,
                                            Kept(c.ins, c.smallest, c.base)),
                       lastSeq := s.lastSeq,
                       horizon := if c.smallest > s.cur.horizon then c.smallest else s.cur.horizon))
    case AbortCompaction => s.(comp := None)
    case TrivialMove(fromEnd, _, file) =>
      s.(edit := CompactEdit,
         dur := s.cur.(version := Moved(s.cur.version, |s.cur.version| - fromEnd, file), lastSeq := s.lastSeq))
    case Install =>
      s.(cur := s.dur, edit := NoEdit, imm := if s.edit.FlushEdit? then None else s.imm)
    case DeleteLogs =>
      s.(logs := map n | n in s.logs && s.cur.logNumber <= n :: s.logs[n])
    case CrashAndReopen(cut, parts) => Reopened(s, cut, parts)
  }

  ghost predicate Initial(s: State) {
    var m := Manifest(seq(6, _ => {}), 1, 0, [], 0);
    s == State([], 0, Idle, {}, None, 0, [], m, m, NoEdit, None, map[1 := Log([], 0)], 1, 0, 2, {})
  }

  /** A run: consecutive states related by enabled events. */
  ghost predicate Run(ss: seq<State>, evs: seq<Event>) {
    && |ss| == |evs| + 1
    && Initial(ss[0])
    && forall i :: 0 <= i < |evs| ==> Enabled(ss[i], evs[i]) && ss[i + 1] == Apply(ss[i], evs[i])
  }

  // -------------------------------------------------------------- invariant

  /** The groups in the memtable's log that are committed. */
  ghost function MemGroups(s: State): seq<Group> {
    var gs := if s.logfile in s.logs then s.logs[s.logfile].groups else [];
    if s.stage.Writing? && s.stage.logged && gs != [] then gs[..|gs| - 1] else gs
  }

  ghost function ImmGroups(s: State): seq<Group> {
    if s.imm.Some? && s.immLog in s.logs then s.logs[s.immLog].groups else []
  }

  /** Every committed group that is not lost, in commit order. */
  ghost function Committed(s: State): seq<Group> {
    s.cur.flushed + ImmGroups(s) + MemGroups(s)
  }

  /** The immutable memtable exists only in its log. */
  ghost predicate ImmLogLive(s: State) { s.imm.Some? && !s.edit.FlushEdit? }

  ghost predicate LogInv(s: State) {
    && s.logfile in s.logs && s.logfile < s.nextFile
    && (s.imm.Some? ==> s.immLog in s.logs && s.immLog < s.logfile)
    && (forall n :: n in s.logs ==> n < s.nextFile && s.logs[n].synced <= |s.logs[n].groups|)
    && (forall n :: n in s.logs && s.dur.logNumber <= n ==> n == s.logfile || (ImmLogLive(s) && n == s.immLog))
    && s.dur.logNumber == (if ImmLogLive(s) then s.immLog else s.logfile)
    && s.cur.logNumber == (if s.imm.Some? then s.immLog else s.logfile)
    && (s.stage.Writing? && s.stage.logged ==>
          var gs := s.logs[s.logfile].groups; gs != [] && gs[|gs| - 1] == s.stage.group)
  }

  ghost function Inserted(stage: Stage): set<Entry> {
    if stage.Writing? && stage.inserted <= |Ops(stage.group)|
    then OpEntries(Ops(stage.group)[..stage.inserted], stage.group.start) else {}
  }

  ghost predicate StageInv(stage: Stage, lastSeq: nat) {
    stage.Writing? ==>
      && stage.group.start == lastSeq + 1 && stage.inserted <= |Ops(stage.group)|
      && (stage.inserted > 0 ==> stage.logged)
      && (stage.inserted > 0 && stage.group.members != [] && stage.group.members[0].sync ==> stage.durable)
  }

  /** The memtables hold what their logs hold. */
  ghost predicate ContentInv(mem: set<Entry>, imm: Option<set<Entry>>, stage: Stage, inMem: seq<Group>,
      inImm: seq<Group>) {
    && mem == Recorded(inMem) + Inserted(stage)
    && imm == (if imm.Some? then Some(Recorded(inImm)) else None)
  }

  ghost predicate SeqInv(all: seq<Group>, lastSeq: nat) {
    Increasing(all) && Below(all, lastSeq + 1)
  }

  /** A manifest's tables answer every read from the horizon on as the flushed groups would. */
  ghost predicate DiskOk(m: Manifest) {
    && |m.version| >= 6 && Ordered(m.version)
    && Union(m.version) <= Recorded(m.flushed)
    && m.horizon <= m.lastSeq && Below(m.flushed, m.lastSeq + 1) && Increasing(m.flushed)
    && forall k, x :: m.horizon <= x ==> Read(Union(m.version), k, x) == Read(Recorded(m.flushed), k, x)
  }

  /** How the manifest on disk may be ahead of the installed one. */
  ghost predicate EditInv(cur: Manifest, dur: Manifest, edit: Edit, hasImm: bool, inImm: seq<Group>, lastSeq: nat) {
    && cur.lastSeq <= lastSeq && dur.lastSeq <= lastSeq && cur.horizon <= dur.horizon
    && (edit.NoEdit? ==> cur == dur)
    && (edit.FlushEdit? ==> hasImm)
    && dur.flushed == (if edit.FlushEdit? then cur.flushed + inImm else cur.flushed)
  }

  /** Snapshots never fall below the horizon and never cut a group in two. */
  ghost predicate SnapInv(snaps: seq<nat>, horizon: nat, lastSeq: nat, all: seq<Group>) {
    && (forall i, j :: 0 <= i < j < |snaps| ==> snaps[i] <= snaps[j])
    && (forall x :: x in snaps ==> horizon <= x <= lastSeq)
    && (forall x, g :: x in snaps && g in all ==> End(g) <= x + 1 || x < g.start)
  }

  /** The inputs of a compaction in progress stay closed, and its bound stays below every snapshot. */
  ghost predicate CompInv(comp: Option<Comp>, version: Layers, snaps: seq<nat>, lastSeq: nat) {
    comp.Some? ==>
      && var c := comp.value;
      && 1 <= c.fromEnd <= 6 <= |version|
      && InputsClosed(version, |version| - c.fromEnd, c.ins)
      && BaseOk(version, |version| - c.fromEnd, c.ins, c.base)
      && c.smallest <= lastSeq && forall x :: x in snaps ==> c.smallest <= x
  }

  ghost function Members(gs: seq<Group>): seq<Writer> {
    if gs == [] then [] else Members(gs[..|gs| - 1]) + gs[|gs| - 1].members
  }

  ghost predicate IdsIncrease(ws: seq<Writer>) {
    forall i, j :: 0 <= i < j < |ws| ==> ws[i].id < ws[j].id
  }

  /** No sync writer is served by a leader that does not sync. */
  ghost predicate SyncOk(g: Group) {
    g.members != [] && forall w :: w in g.members && w.sync ==> g.members[0].sync
  }

  ghost predicate Prefix(ws: seq<Writer>, q: seq<Writer>) {
    |ws| <= |q| && q[..|ws|] == ws
  }

  /** Groups are queue prefixes in arrival order, and no writer is in two of them. */
  ghost predicate QueueInv(all: seq<Group>, queue: seq<Writer>, nextId: nat, stage: Stage) {
    && IdsIncrease(Members(all) + queue)
    && (forall w :: w in Members(all) + queue ==> w.id < nextId)
    && (stage.Writing? ==> SyncOk(stage.group) && Prefix(stage.group.members, queue))
    && forall g :: g in all ==> SyncOk(g)
  }

  ghost predicate SyncedUpTo(gs: seq<Group>, n: nat) {
    forall i :: 0 <= i < |gs| && gs[i].members != [] && gs[i].members[0].sync ==> i < n
  }

  /** The synced groups of the live logs are in stable storage. */
  ghost predicate SyncInv(s: State) {
    && s.logfile in s.logs && (s.imm.Some? ==> s.immLog in s.logs)
    && SyncedUpTo(MemGroups(s), s.logs[s.logfile].synced)
    && (s.imm.Some? ==> SyncedUpTo(ImmGroups(s), s.logs[s.immLog].synced))
    && (s.stage.Writing? && s.stage.durable ==>
         s.stage.logged && s.logs[s.logfile].synced == |s.logs[s.logfile].groups|)
  }

  /** Whoever was told that a synced write succeeded is in the history. */
  ghost predicate AckInv(acked: set<Writer>, all: seq<Group>) {
    forall w :: w in acked && w.sync && w.batch.Some? ==> w in Members(all)
  }

  ghost predicate Inv(s: State) {
    && LogInv(s)
    && StageInv(s.stage, s.lastSeq)
    && ContentInv(s.mem, s.imm, s.stage, MemGroups(s), ImmGroups(s))
    && SeqInv(Committed(s), s.lastSeq)
    && DiskOk(s.cur) && DiskOk(s.dur)
    && EditInv(s.cur, s.dur, s.edit, s.imm.Some?, ImmGroups(s), s.lastSeq)
    && SnapInv(s.snaps, s.dur.horizon, s.lastSeq, Committed(s))
    && CompInv(s.comp, s.dur.version, s.snaps, s.lastSeq)
    && QueueInv(Committed(s), s.queue, s.nextId, s.stage)
    && SyncInv(s)
    && AckInv(s.acked, Committed(s))
  }
}
