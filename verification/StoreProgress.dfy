/** What the store's events achieve: requests are served, flushes and
    compactions get done, and a clean restart loses nothing. */
module StoreProgress {
  import opened Wrappers
  import opened Entries
  import opened History
  import opened Compaction
  import opened Store
  import opened StoreSafety
  import opened StoreCrash
  import opened StoreTheorems
  import opened StoreClients
  import opened Sequential

  // ----------------------------------------------------- no request is lost

  /** Without a crash a request is waiting or answered, never both and never
      neither, and an answered batch is in the history. */
  lemma {:induction false} RequestKept(ss: seq<State>, evs: seq<Event>, i: nat, j: nat, w: Writer)
    requires Run(ss, evs) && i < j < |ss| && NoCrash(evs, i, j) && Asks(ss[i], evs[i], w)
    ensures w in ss[j].queue <==> w !in ss[j].acked
    ensures w in ss[j].acked && w.batch.Some? ==> w in Members(Committed(ss[j]))
    decreases j
  {
    hide Inv, Enabled, Apply, Committed, Members, Initial;
    var s, t := ss[j - 1], ss[j];
    Reachable(ss, evs, j - 1);
    assert Enabled(s, evs[j - 1]) && t == Apply(s, evs[j - 1]) by { assert ss[j - 1 + 1] == t; }
    if i == j - 1 {
      if w in s.acked { RequestRecorded(ss, evs, i, i, w); }
      JustAsked(s, evs[i], w);
    } else {
      RequestKept(ss, evs, i, j - 1, w);
      IdsGrow(ss, evs, i, j - 1);
      ServedStep(s, evs[j - 1], w);
    }
  }

  lemma {:induction false} JustAsked(s: State, ev: Event, w: Writer)
    requires Enabled(s, ev) && Asks(s, ev, w)
    ensures w in Apply(s, ev).queue && Apply(s, ev).acked == s.acked
  {
    assert Apply(s, ev).queue[|s.queue|] == w;
  }

  lemma {:induction false} ServedStep(s: State, ev: Event, w: Writer)
    requires Inv(s) && Enabled(s, ev) && !ev.CrashAndReopen? && w.id < s.nextId
    requires w in s.queue <==> w !in s.acked
    requires w in s.acked && w.batch.Some? ==> w in Members(Committed(s))
    ensures
      var t := Apply(s, ev);
      && (w in t.queue <==> w !in t.acked)
      && (w in t.acked && w.batch.Some? ==> w in Members(Committed(t)))
  {
    hide DiskOk, SnapInv, CompInv, AckInv, SyncInv, SeqInv, ContentInv, EditInv, LogInv, IsGroup, InputsClosed,
         BaseOk, NoKeyIn, NoOlderLeft, Kept, Compacted, Moved, Flushed, OpsOf, Replay, RecoveredLayers, MaxSeq,
         Flatten, Members, Committed, SyncOk;
    var t := Apply(s, ev);
    HistoryGrows(s, ev);
    if ev.Commit? {
      var ws := s.stage.group.members;
      MembersConcat(Committed(s), [s.stage.group]);
      OneGroupMembers(s.stage.group);
      QueueSplit(Members(Committed(s)), s.queue, |ws|, w);
    } else if ev.NullWrite? {
      QueueSplit(Members(Committed(s)), s.queue, 1, w);
    }
  }

  lemma {:induction false} OneGroupMembers(g: Group)
    ensures Members([g]) == g.members
  {
    assert [g][..0] == [];
  }

  /** A queued writer is in exactly one of the two parts of the queue. */
  lemma {:induction false} QueueSplit(ms: seq<Writer>, q: seq<Writer>, n: nat, w: Writer)
    requires IdsIncrease(ms + q) && n <= |q|
    ensures w in q <==> w in q[..n] || w in q[n..]
    ensures !(w in q[..n] && w in q[n..])
  {
    assert q == q[..n] + q[n..];
    forall a, b | 0 <= a < n && 0 <= b < |q| - n ensures q[..n][a].id < q[n..][b].id {
      assert (ms + q)[|ms| + a].id < (ms + q)[|ms| + n + b].id;
    }
  }

  // ----------------------------------------------------------------- progress

  /** The events take s to t. */
  ghost predicate Leads(s: State, evs: seq<Event>, t: State)
    decreases |evs|
  {
    if evs == [] then s == t else Enabled(s, evs[0]) && Leads(Apply(s, evs[0]), evs[1..], t)
  }

  lemma {:induction false} LeadsOn(s: State, a: seq<Event>, m: State, b: seq<Event>, t: State)
    requires Leads(s, a, m) && Leads(m, b, t)
    ensures Leads(s, a + b, t)
    decreases |a|
  {
    hide Enabled, Apply;
    if a == [] {
      assert a + b == b;
    } else {
      LeadsOn(Apply(s, a[0]), a[1..], m, b, t);
      assert (a + b)[0] == a[0] && (a + b)[1..] == a[1..] + b;
    }
  }

  lemma {:induction false} OneEvent(s: State, ev: Event)
    requires Enabled(s, ev)
    ensures Leads(s, [ev], Apply(s, ev))
  {
    hide Enabled, Apply;
    assert [ev][1..] == [];
  }

  /** Every queue led by a batch has a group. */
  lemma {:induction false} GroupExists(q: seq<Writer>) returns (n: nat)
    requires q != [] && q[0].batch.Some?
    ensures IsGroup(q, n)
  {
    hide Fits;
    n := 1;
    while n < |q| && Fits(q, n)
      invariant 0 < n <= |q| && forall i :: 0 < i < n ==> Fits(q, i)
    {
      n := n + 1;
    }
  }

  /** What the writer at the front does next for its group. */
  ghost function NextWrite(s: State): Event
    requires s.stage.Writing? && s.stage.group.members != []
  {
    if !s.stage.logged then AppendLog
    else if s.stage.group.members[0].sync && !s.stage.durable then SyncLog
    else if s.stage.inserted < |Ops(s.stage.group)| then InsertOne
    else Commit
  }

  /** How far the write path has got with the writer at the front. */
  ghost function ToDo(s: State): nat {
    if s.stage.Idle? then 3 else if !s.stage.logged then 2 else if !s.stage.durable then 1 else 0
  }

  ghost function ToInsert(s: State): nat {
    if s.stage.Writing? && s.stage.inserted <= |Ops(s.stage.group)|
    then |Ops(s.stage.group)| - s.stage.inserted else 0
  }

  /** The write path is never stuck: while somebody waits, one of its events is
      enabled, and that event brings the front of the queue nearer its answer. */
  lemma {:induction false} NextEvent(s: State) returns (ev: Event)
    requires Inv(s) && s.queue != []
    ensures Enabled(s, ev) && !ev.CrashAndReopen?
    ensures
      var t := Apply(s, ev);
      && (t.queue == s.queue || |t.queue| < |s.queue|)
      && (t.queue == s.queue ==> ToDo(t) < ToDo(s) || (ToDo(t) == ToDo(s) && ToInsert(t) < ToInsert(s)))
  {
    hide DiskOk, SnapInv, CompInv, AckInv, SyncInv, SeqInv, ContentInv, EditInv, IdsIncrease, OpsOf, Members,
         IsGroup;
    if s.stage.Writing? {
      ev := NextWrite(s);
    } else if s.queue[0].batch.None? {
      ev := NullWrite;
    } else {
      var n := GroupExists(s.queue);
      ev := BuildGroup(n);
    }
  }

  /** From every state of every run the queue can be emptied, and then everybody
      who was waiting has an answer. */
  lemma {:induction false} QueueDrains(s: State) returns (evs: seq<Event>, t: State)
    requires Inv(s)
    ensures Leads(s, evs, t) && t.queue == [] && s.acked <= t.acked
    ensures forall w :: w in s.queue ==> w in t.acked
    decreases |s.queue|, ToDo(s), ToInsert(s)
  {
    hide Inv, Enabled, Apply, ToDo, ToInsert;
    evs, t := [], s;
    if s.queue != [] {
      var ev := NextEvent(s);
      var m := Apply(s, ev);
      StepKeeps(s, ev);
      AckedStep(s, ev);
      evs, t := QueueDrains(m);
      forall w | w in s.queue ensures w in t.acked { WaitingStep(s, ev, w); }
      evs := [ev] + evs;
      assert evs[1..] == evs[1..];
    }
  }

  lemma {:induction false} WaitingStep(s: State, ev: Event, w: Writer)
    requires Inv(s) && Enabled(s, ev) && !ev.CrashAndReopen? && w in s.queue
    ensures w in Apply(s, ev).queue || w in Apply(s, ev).acked
  {
    hide DiskOk, SnapInv, CompInv, AckInv, SyncInv, SeqInv, ContentInv, EditInv, LogInv, IsGroup, InputsClosed,
         BaseOk, NoKeyIn, NoOlderLeft, Kept, Compacted, Moved, Flushed, OpsOf, Replay, RecoveredLayers, MaxSeq,
         Flatten, Members, Committed, SyncOk;
    if ev.Commit? {
      QueueSplit(Members(Committed(s)), s.queue, |s.stage.group.members|, w);
    } else if ev.NullWrite? {
      QueueSplit(Members(Committed(s)), s.queue, 1, w);
    }
  }

  // ------------------------------------------------- tables, logs and restarts

  /** While no older memtable is waiting, the front writer may start a new one: all
      entries move to the older one, with their log, and a new log begins. */
  lemma {:induction false} SwitchEffect(s: State)
    requires s.stage.Idle? && s.queue != [] && s.imm.None?
    ensures Enabled(s, SwitchMemtable)
    ensures
      var t := Apply(s, SwitchMemtable);
      && t.imm == Some(s.mem) && t.mem == {} && t.immLog == s.logfile && t.logfile == s.nextFile < t.nextFile
      && t.logfile in t.logs && t.logs[t.logfile].groups == [] && t.queue == s.queue
      && forall n :: n in s.logs && n != s.nextFile ==> n in t.logs && t.logs[n] == s.logs[n]
  {}

  /** A full memtable can always be flushed, after which it is gone from memory
      and its log is gone from disk. */
  lemma {:induction false} FlushDone(s: State) returns (t: State)
    requires Inv(s) && s.imm.Some? && s.edit.NoEdit?
    ensures Leads(s, [Flush(None), Install, DeleteLogs], t)
    ensures t.imm.None? && t.mem == s.mem && t.cur.version == [s.imm.value] + s.cur.version
    ensures t.logs.Keys == {s.logfile} && t.logs[s.logfile] == s.logs[s.logfile]
  {
    hide DiskOk, SnapInv, CompInv, AckInv, SyncInv, SeqInv, ContentInv, EditInv, QueueInv, StageInv, OpsOf, Members,
         Committed, Flushed, Leads;
    var a := Apply(s, Flush(None));
    var b := Apply(a, Install);
    t := Apply(b, DeleteLogs);
    FlushedOnTop(s.cur.version, s.imm.value);
    StepKeeps(s, Flush(None));
    ThreeEvents(s, Flush(None), Install, DeleteLogs);
  }

  lemma {:induction false} ThreeEvents(s: State, a: Event, b: Event, c: Event)
    requires Enabled(s, a) && Enabled(Apply(s, a), b) && Enabled(Apply(Apply(s, a), b), c)
    ensures Leads(s, [a, b, c], Apply(Apply(Apply(s, a), b), c))
  {
    hide Enabled, Apply;
    var s1 := Apply(s, a);
    var s2 := Apply(s1, b);
    OneEvent(s, a);
    OneEvent(s1, b);
    OneEvent(s2, c);
    LeadsOn(s, [a], s1, [b], s2);
    LeadsOn(s, [a] + [b], s2, [c], Apply(s2, c));
    assert [a] + [b] + [c] == [a, b, c];
  }

  /** No event but a commit or a crash changes what a current read returns. */
  lemma {:induction false} QuietEvents(s: State, ev: Event, k: Key)
    requires Inv(s) && Enabled(s, ev) && !ev.CrashAndReopen? && !ev.Commit?
    ensures GetAt(Apply(s, ev), k, Apply(s, ev).lastSeq) == GetAt(s, k, s.lastSeq)
  {
    hide Inv, Enabled, Apply, GetAt, Committed, AfterGroups;
    StepKeeps(s, ev);
    HistoryGrows(s, ev);
    CurrentGetIsMap(s, k);
    CurrentGetIsMap(Apply(s, ev), k);
  }

  lemma {:induction false} FlushedOnTop(v: Layers, imm: set<Entry>)
    ensures Flushed(v, imm, None) == [imm] + v
  {}

  /** A flush puts the memtable's entries into the layer chosen for them, or into a
      new level-0 file on top, and leaves every other layer as it was. */
  lemma {:induction false} FlushEffect(s: State, layer: Option<nat>)
    requires Enabled(s, Flush(layer))
    ensures
      var v, d := s.cur.version, Apply(s, Flush(layer)).dur;
      && d.flushed == s.cur.flushed + s.logs[s.immLog].groups && d.logNumber == s.logfile && d.lastSeq == s.lastSeq
      && match layer
         case None => d.version == [s.imm.value] + v
         case Some(l) =>
           && |d.version| == |v| && d.version[l] == v[l] + s.imm.value
           && forall i :: 0 <= i < |v| && i != l ==> d.version[i] == v[i]
  {
    hide NoKeyIn;
  }

  /** A compaction that is given up leaves the tables alone and lets another begin. */
  lemma {:induction false} AbortEffect(s: State, fromEnd: nat, ins: set<Entry>, base: iset<Key>)
    requires Enabled(s, AbortCompaction) && s.edit.NoEdit? && s.imm.None?
    requires 1 <= fromEnd <= 6 <= |s.cur.version| && InputsClosed(s.cur.version, |s.cur.version| - fromEnd, ins)
    requires BaseOk(s.cur.version, |s.cur.version| - fromEnd, ins, base)
    ensures Apply(s, AbortCompaction).cur == s.cur && Apply(s, AbortCompaction).dur == s.dur
    ensures Enabled(Apply(s, AbortCompaction), BeginCompaction(fromEnd, ins, base))
  {
    hide InputsClosed, BaseOk;
  }

  /** A compaction works from the oldest live snapshot, or from the last sequence
      number if there is none, and its edit replaces its inputs by the kept ones. */
  lemma {:induction false} CompactionEffect(s: State)
    requires DiskOk(s.cur) && CompInv(s.comp, s.cur.version, s.snaps, s.lastSeq) && Enabled(s, EndCompaction)
    ensures
      var c := s.comp.value;
      Union(Apply(s, EndCompaction).dur.version) == (Union(s.cur.version) - c.ins) + Kept(c.ins, c.smallest, c.base)
  {
    hide Union, Compacted, InputsClosed, BaseOk, Ordered, Kept;
    var c := s.comp.value;
    OrderedDisjoint(s.cur.version);
    KeptIsPart(c.ins, c.smallest, c.base);
    CompactedUnion(s.cur.version, |s.cur.version| - c.fromEnd, c.ins, Kept(c.ins, c.smallest, c.base));
  }

  lemma {:induction false} KeptIsPart(ins: set<Entry>, smallest: nat, base: iset<Key>)
    ensures Kept(ins, smallest, base) <= ins
  {}

  lemma {:induction false} CompactionBound(s: State, fromEnd: nat, ins: set<Entry>, base: iset<Key>)
    requires SnapInv(s.snaps, s.dur.horizon, s.lastSeq, Committed(s)) && Enabled(s, BeginCompaction(fromEnd, ins, base))
    ensures
      var c := Apply(s, BeginCompaction(fromEnd, ins, base)).comp;
      && c.Some? && c.value.ins == ins && c.value.base == base && c.value.fromEnd == fromEnd
      && (forall x :: x in s.snaps ==> c.value.smallest <= x)
      && (if s.snaps == [] then c.value.smallest == s.lastSeq else c.value.smallest in s.snaps)
  {
    hide Committed, InputsClosed, BaseOk;
  }

  /** A trivial move takes the file out of its level and puts it one level down. */
  lemma {:induction false} MoveEffect(s: State, fromEnd: nat, from: nat, file: set<Entry>)
    requires DiskOk(s.cur) && Enabled(s, TrivialMove(fromEnd, from, file))
    ensures
      var v, d := s.cur.version, Apply(s, TrivialMove(fromEnd, from, file)).dur;
      && |d.version| == |v| && d.flushed == s.cur.flushed
      && d.version[from] == v[from] - file
      && d.version[|v| - fromEnd] == v[|v| - fromEnd] + file
      && forall i :: 0 <= i < |v| && i != from && i != |v| - fromEnd ==> d.version[i] == v[i]
  {
    hide Union;
    var v := s.cur.version;
    OrderedDisjoint(v);
    var d := Moved(v, |v| - fromEnd, file);
    assert file <= v[from];
    forall i | 0 <= i < |v| && i != from ensures v[i] - file == v[i] {
      forall e | e in file ensures e !in v[i] { assert e in v[from]; }
    }
  }

  /** DeleteObsoleteFiles keeps every log that a recovery would read, as it is, and
      while no edit is pending it keeps no other. */
  lemma {:induction false} LogsDeleted(s: State, n: nat)
    requires LogInv(s)
    ensures
      var t := Apply(s, DeleteLogs);
      && (n in s.logs && s.dur.logNumber <= n ==> n in t.logs)
      && (n in t.logs ==> n in s.logs && t.logs[n] == s.logs[n])
      && (s.edit.NoEdit? && n in t.logs ==> n == s.logfile || (s.imm.Some? && n == s.immLog))
  {}

  /** A crash may strike in any state and leave of every live log any part that
      includes what was synced, and recovery may split the replay anyhow. */
  lemma {:induction false} CrashAnywhere(s: State, cut: map<nat, nat>, parts: seq<seq<Group>>)
    requires Inv(s) && CutOk(s, cut)
    requires s.logfile in cut && cut[s.logfile] <= |LogGroups(s)| && ImmCut(s, cut) <= |ImmGroups(s)|
    requires s.dur.flushed + Flatten(parts) ==
             s.cur.flushed + ImmGroups(s)[..ImmCut(s, cut)] + LogGroups(s)[..cut[s.logfile]]
    ensures Enabled(s, CrashAndReopen(cut, parts))
  {
    hide Replay, Flatten, ImmCut, ImmGroups, LogGroups, DiskOk, SnapInv, CompInv, AckInv, SyncInv, SeqInv, ContentInv,
         QueueInv, LogInv, EditInv, StageInv, Committed;
    ReplayIs(s, cut);
    SameTail(s.dur.flushed, Flatten(parts), Replay(s.logs, cut, s.dur.logNumber, s.nextFile));
  }

  lemma {:induction false} SameTail(a: seq<Group>, b: seq<Group>, c: seq<Group>)
    requires a + b == a + c
    ensures b == c
  {
    assert (a + b)[|a|..] == b && (a + c)[|a|..] == c;
  }

  /** Every record of the logs that recovery reads is still there. */
  ghost predicate WholeCut(s: State, cut: map<nat, nat>) {
    forall n :: n in s.logs && s.dur.logNumber <= n ==> n in cut && cut[n] == |s.logs[n].groups|
  }

  /** If the logs survive whole, as they do when only the process dies, reopening
      brings back every committed group and the one that was already logged. */
  lemma {:induction false} RestartLosesNothing(s: State, cut: map<nat, nat>, parts: seq<seq<Group>>)
    requires Inv(s) && Enabled(s, CrashAndReopen(cut, parts))
    requires WholeCut(s, cut)
    ensures
      var t := Reopened(s, cut, parts);
      && Committed(t) == Committed(s) + (if s.stage.Writing? && s.stage.logged then [s.stage.group] else [])
      && t.queue == [] && t.snaps == [] && t.nextId == s.nextId && t.acked == s.acked
  {
    hide Inv, Replay, RecoveredLayers, MaxSeq, Flatten, MemGroups, Committed;
    CrashKeeps(s, cut, parts);
    LogParts(s);
    LogIs(s);
    WholeLogs(s, cut);
    assert ImmGroups(s)[..|ImmGroups(s)|] == ImmGroups(s);
    assert LogGroups(s)[..|LogGroups(s)|] == LogGroups(s);
    CommittedIs(s);
  }

  lemma {:induction false} LogParts(s: State)
    requires Inv(s)
    ensures LogInv(s)
  {}

  lemma {:induction false} CommittedIs(s: State)
    ensures Committed(s) == s.cur.flushed + ImmGroups(s) + MemGroups(s)
  {}

  /** With every live log whole, the replay reads all of both memtables' logs. */
  lemma {:induction false} WholeLogs(s: State, cut: map<nat, nat>)
    requires LogInv(s) && CutOk(s, cut)
    requires WholeCut(s, cut)
    ensures ImmCut(s, cut) == |ImmGroups(s)| && s.logfile in cut && cut[s.logfile] == |LogGroups(s)|
  {}

  /** Numbering goes on right behind the last surviving group or the manifest. */
  lemma {:induction false} RestartNumber(s: State, cut: map<nat, nat>, parts: seq<seq<Group>>)
    requires Inv(s) && Enabled(s, CrashAndReopen(cut, parts))
    ensures
      var t := Reopened(s, cut, parts);
      t.lastSeq == s.dur.lastSeq || exists g :: g in Committed(t) && End(g) == t.lastSeq + 1
  {
    hide Inv, Flatten, MaxSeq, RecoveredLayers, Replay;
    var t, replayed := Reopened(s, cut, parts), Replay(s.logs, cut, s.dur.logNumber, s.nextFile);
    MaxSeqIs(replayed, s.dur.lastSeq);
    if t.lastSeq != s.dur.lastSeq {
      var g :| g in replayed && End(g) == t.lastSeq + 1;
      assert g in t.cur.flushed && g in Committed(t);
    }
  }

  /** A store that was idle when its process died answers every read as before. */
  lemma {:induction false} RestartReads(s: State, cut: map<nat, nat>, parts: seq<seq<Group>>, k: Key)
    requires Inv(s) && Enabled(s, CrashAndReopen(cut, parts)) && s.stage.Idle?
    requires WholeCut(s, cut)
    ensures
      var t := Reopened(s, cut, parts);
      GetAt(t, k, t.lastSeq) == GetAt(s, k, s.lastSeq)
  {
    hide Inv, Enabled, Reopened, GetAt, Committed, AfterGroups;
    var t := Reopened(s, cut, parts);
    RestartLosesNothing(s, cut, parts);
    assert Committed(s) + [] == Committed(s);
    CrashKeeps(s, cut, parts);
    CurrentGetIsMap(s, k);
    CurrentGetIsMap(t, k);
  }
}
