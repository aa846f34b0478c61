/** Losing the unsynced tails of the logs and reopening the store. */
module StoreCrash {
  import opened Wrappers
  import opened Entries
  import opened History
  import opened Compaction
  import opened Store
  import opened StoreSafety

  // ------------------------------------------------------ replaying the logs

  lemma {:induction false} ReplayEmpty(logs: map<nat, Log>, cut: map<nat, nat>, lo: nat, hi: nat)
    requires forall n :: n in logs && lo <= n ==> n in cut && cut[n] <= |logs[n].groups|
    requires forall n :: lo <= n < hi ==> n !in logs
    ensures Replay(logs, cut, lo, hi) == []
    decreases hi - lo
  {
    if lo < hi { ReplayEmpty(logs, cut, lo + 1, hi); }
  }

  /** Logs between `lo` and `n` do not exist, so replay starts with log n. */
  lemma {:induction false} ReplayNext(logs: map<nat, Log>, cut: map<nat, nat>, lo: nat, n: nat, hi: nat)
    requires lo <= n < hi && n in logs
    requires forall m :: m in logs && lo <= m ==> m in cut && cut[m] <= |logs[m].groups|
    requires forall m :: lo <= m < n ==> m !in logs
    ensures Replay(logs, cut, lo, hi) == logs[n].groups[..cut[n]] + Replay(logs, cut, n + 1, hi)
    decreases n - lo
  {
    if lo < n { ReplayNext(logs, cut, lo + 1, n, hi); }
  }

  /** How much of the immutable memtable's log the replay reads. */
  ghost function ImmCut(s: State, cut: map<nat, nat>): nat {
    if s.edit.FlushEdit? then |ImmGroups(s)|
    else if s.imm.Some? && s.immLog in cut && cut[s.immLog] <= |ImmGroups(s)| then cut[s.immLog] else 0
  }

  /** All groups known to the store, including one that is logged but not yet acknowledged. */
  ghost function LogGroups(s: State): seq<Group> {
    if s.logfile in s.logs then s.logs[s.logfile].groups else []
  }

  ghost predicate CutOk(s: State, cut: map<nat, nat>) {
    forall n :: n in s.logs && s.dur.logNumber <= n ==>
      n in cut && s.logs[n].synced <= cut[n] <= |s.logs[n].groups|
  }

  /** After a crash the history is what was flushed plus a prefix of each live log. */
  lemma {:induction false} ReplayIs(s: State, cut: map<nat, nat>)
    requires LogInv(s) && CutOk(s, cut)
    requires EditInv(s.cur, s.dur, s.edit, s.imm.Some?, ImmGroups(s), s.lastSeq)
    ensures s.logfile in cut && cut[s.logfile] <= |LogGroups(s)| && ImmCut(s, cut) <= |ImmGroups(s)|
    ensures s.dur.flushed + Replay(s.logs, cut, s.dur.logNumber, s.nextFile)
         == s.cur.flushed + ImmGroups(s)[..ImmCut(s, cut)] + LogGroups(s)[..cut[s.logfile]]
  {
    hide Replay;
    var n, f := s.logfile, s.cur.flushed;
    var log := LogGroups(s)[..cut[n]];
    ReplayEmpty(s.logs, cut, n + 1, s.nextFile);
    assert log + [] == log;
    if ImmLogLive(s) {
      var imm := ImmGroups(s)[..cut[s.immLog]];
      ReplayNext(s.logs, cut, s.immLog, s.immLog, s.nextFile);
      ReplayNext(s.logs, cut, s.immLog + 1, n, s.nextFile);
      assert f + (imm + log) == f + imm + log;
    } else {
      ReplayNext(s.logs, cut, n, n, s.nextFile);
      assert ImmGroups(s)[..|ImmGroups(s)|] == ImmGroups(s);
      assert f + [] == f;
    }
  }

  // --------------------------------------------------------- recovered disk

  lemma {:induction false} RecoveredUnion(parts: seq<seq<Group>>)
    ensures Union(RecoveredLayers(parts)) == Recorded(Flatten(parts))
  {
    if parts != [] {
      var init, last := parts[..|parts| - 1], parts[|parts| - 1];
      RecoveredUnion(init);
      RecordedConcat(Flatten(init), last);
      assert RecoveredLayers(parts)[1..] == RecoveredLayers(init);
    }
  }

  lemma {:induction false} RecoveredOrdered(parts: seq<seq<Group>>)
    requires Increasing(Flatten(parts))
    ensures Ordered(RecoveredLayers(parts))
  {
    if parts != [] {
      var init, last := parts[..|parts| - 1], parts[|parts| - 1];
      IncreasingParts(Flatten(init), last);
      RecoveredOrdered(init);
      RecordedNewer(Flatten(init), last);
      RecoveredUnion(init);
      FlushOnTop(RecoveredLayers(init), Recorded(last));
    }
  }

  lemma {:induction false} OrderedStack(a: Layers, b: Layers)
    requires Ordered(a) && Ordered(b) && Newer(Union(a), Union(b))
    ensures Ordered(a + b)
  {
    forall i, j, e: Entry, f: Entry | 0 <= i < j < |a + b| && e in (a + b)[i] && f in (a + b)[j] && e.key == f.key
      ensures e.num > f.num
    {
      if j < |a| { assert e in a[i] && f in a[j]; }
      else if i >= |a| { assert e in b[i - |a|] && f in b[j - |a|]; }
      else { assert e in a[i] && f in b[j - |a|]; InUnion(a, e); InUnion(b, f); }
    }
  }

  lemma {:induction false} MaxSeqIs(gs: seq<Group>, floor: nat)
    ensures floor <= MaxSeq(gs, floor) && Below(gs, MaxSeq(gs, floor) + 1)
    ensures MaxSeq(gs, floor) == floor || exists g :: g in gs && End(g) == MaxSeq(gs, floor) + 1
  {
    if gs != [] {
      MaxSeqIs(gs[..|gs| - 1], floor);
      assert gs == gs[..|gs| - 1] + [gs[|gs| - 1]];
    }
  }

  lemma {:induction false} RecoveredDisk(m: Manifest, parts: seq<seq<Group>>, log: nat)
    requires DiskOk(m) && Increasing(m.flushed + Flatten(parts))
    ensures var last := MaxSeq(Flatten(parts), m.lastSeq);
            DiskOk(Manifest(RecoveredLayers(parts) + m.version, log, last, m.flushed + Flatten(parts), m.horizon))
  {
    hide RecoveredLayers, Flatten, MaxSeq;
    var gs, rs := Flatten(parts), RecoveredLayers(parts);
    MaxSeqIs(gs, m.lastSeq);
    IncreasingParts(m.flushed, gs);
    RecoveredOrdered(parts);
    RecoveredUnion(parts);
    RecordedNewer(m.flushed, gs);
    OrderedStack(rs, m.version);
    UnionConcat(rs, m.version);
    RecordedConcat(m.flushed, gs);
    RecordedUnique(m.flushed + gs);
    forall k, x | m.horizon <= x
      ensures Read(Union(rs + m.version), k, x) == Read(Recorded(m.flushed + gs), k, x)
    {
      ReadExtend(Union(m.version), Recorded(m.flushed), Recorded(gs), k, x);
      assert Union(m.version) + Recorded(gs) == Union(rs + m.version);
    }
  }

  // ------------------------------------------------------------ the writers

  lemma {:induction false} InMembers(gs: seq<Group>, w: Writer)
    ensures w in Members(gs) <==> exists i :: 0 <= i < |gs| && w in gs[i].members
  {
    if gs != [] {
      InMembers(gs[..|gs| - 1], w);
      if i :| 0 <= i < |gs| && w in gs[i].members {
        if i < |gs| - 1 { assert gs[..|gs| - 1][i] == gs[i]; }
      }
    }
  }

  lemma {:induction false} IdsCut(a: seq<Writer>, b: seq<Writer>, b2: seq<Writer>, c: seq<Writer>, c2: seq<Writer>)
    requires IdsIncrease(a + (b + b2) + (c + c2))
    ensures IdsIncrease(a + b + c)
  {
    var full, cut := a + (b + b2) + (c + c2), a + b + c;
    forall i, j | 0 <= i < j < |cut| ensures cut[i].id < cut[j].id {
      var n := |a + b|;
      var i', j' := if i < n then i else i + |b2|, if j < n then j else j + |b2|;
      assert full[i'] == cut[i] && full[j'] == cut[j];
    }
  }

  /** Dropping the tails of two consecutive stretches leaves ids increasing and known. */
  lemma {:induction false} MembersCut(a: seq<Group>, b: seq<Group>, n: nat, c: seq<Group>, m: nat, nextId: nat)
    requires n <= |b| && m <= |c| && IdsIncrease(Members(a + b + c))
    requires forall w :: w in Members(a + b + c) ==> w.id < nextId
    ensures IdsIncrease(Members(a + b[..n] + c[..m]))
    ensures forall w :: w in Members(a + b[..n] + c[..m]) ==> w.id < nextId
  {
    hide IdsIncrease, Members;
    MembersConcat(a + b, c);
    MembersConcat(a, b);
    MembersConcat(a + b[..n], c[..m]);
    MembersConcat(a, b[..n]);
    assert b == b[..n] + b[n..] && c == c[..m] + c[m..];
    MembersConcat(b[..n], b[n..]);
    MembersConcat(c[..m], c[m..]);
    IdsCut(Members(a), Members(b[..n]), Members(b[n..]), Members(c[..m]), Members(c[m..]));
  }

  /** A synced writer's group is within the part of its log that survives. */
  lemma {:induction false} SurvivesIn(gs: seq<Group>, n: nat, cut: nat, w: Writer)
    requires SyncedUpTo(gs, n) && n <= cut <= |gs| && w.sync && w in Members(gs)
    requires forall g :: g in gs ==> SyncOk(g)
    ensures w in Members(gs[..cut])
  {
    InMembers(gs, w);
    var i :| 0 <= i < |gs| && w in gs[i].members;
    assert SyncOk(gs[i]);
    InMembers(gs[..cut], w);
    assert gs[..cut][i] == gs[i];
  }

  /** The log of the memtable holds its committed groups and the one in flight. */
  lemma {:induction false} LogIs(s: State)
    requires LogInv(s)
    ensures LogGroups(s) == MemGroups(s) + if s.stage.Writing? && s.stage.logged then [s.stage.group] else []
  {}

  /** The committed groups and the one being written, as one history. */
  lemma {:induction false} WithInFlight(s: State)
    requires Inv(s)
    ensures var all := s.cur.flushed + ImmGroups(s) + LogGroups(s);
            && Increasing(all) && IdsIncrease(Members(all))
            && (forall w :: w in Members(all) ==> w.id < s.nextId)
            && (forall g :: g in all ==> SyncOk(g))
    ensures LogGroups(s) == MemGroups(s) + if s.stage.Writing? && s.stage.logged then [s.stage.group] else []
  {
    hide DiskOk, SnapInv, CompInv, AckInv, SyncInv, EditInv, ContentInv, SyncOk, OpsOf, Increasing, IdsIncrease,
         Members, LogInv, MemGroups, ImmGroups, LogGroups, Prefix;
    var all, done := s.cur.flushed + ImmGroups(s) + LogGroups(s), Committed(s);
    LogIs(s);
    if s.stage.Writing? && s.stage.logged {
      var g := s.stage.group;
      assert all == done + [g];
      IncreasingSnoc(done, g);
      MembersSnoc(done, g);
      PrefixIds(Members(done), s.queue, g.members, s.nextId);
    } else {
      assert all == done;
      PrefixIds(Members(done), s.queue, [], s.nextId) by { EmptyPrefix(s.queue); }
      assert Members(done) + [] == Members(done);
    }
  }

  lemma {:induction false} MembersSnoc(gs: seq<Group>, g: Group)
    ensures Members(gs + [g]) == Members(gs) + g.members
  {
    assert (gs + [g])[..|gs|] == gs;
  }

  lemma {:induction false} EmptyPrefix(q: seq<Writer>)
    ensures Prefix([], q)
  {}

  lemma {:induction false} PrefixIds(ms: seq<Writer>, queue: seq<Writer>, ws: seq<Writer>, nextId: nat)
    requires IdsIncrease(ms + queue) && Prefix(ws, queue)
    requires forall w :: w in ms + queue ==> w.id < nextId
    ensures IdsIncrease(ms + ws) && forall w :: w in ms + ws ==> w.id < nextId
  {
    forall i | 0 <= i < |ms + ws| ensures (ms + ws)[i] == (ms + queue)[i] {
      if i >= |ms| { assert queue[..|ws|][i - |ms|] == queue[i - |ms|]; }
    }
  }

  lemma {:induction false} AckedSurvive(s: State, cut: map<nat, nat>, w: Writer)
    requires Inv(s) && CutOk(s, cut) && w in s.acked && w.sync && w.batch.Some?
    requires s.logfile in cut && cut[s.logfile] <= |LogGroups(s)| && ImmCut(s, cut) <= |ImmGroups(s)|
    ensures w in Members(s.cur.flushed + ImmGroups(s)[..ImmCut(s, cut)] + LogGroups(s)[..cut[s.logfile]])
  {
    hide DiskOk, SnapInv, CompInv, ContentInv, SeqInv, IdsIncrease, SyncedUpTo, SyncOk, EditInv, Members;
    var a, b, c := s.cur.flushed, ImmGroups(s), MemGroups(s);
    var n, m := ImmCut(s, cut), cut[s.logfile];
    MembersConcat(a + b, c);
    MembersConcat(a, b);
    MembersConcat(a + b[..n], LogGroups(s)[..m]);
    MembersConcat(a, b[..n]);
    if w in Members(b) {
      AckedInImm(s, cut, w);
    } else if w in Members(c) {
      AckedInLog(s, m, w);
    }
  }

  lemma {:induction false} AckedInImm(s: State, cut: map<nat, nat>, w: Writer)
    requires Inv(s) && CutOk(s, cut) && w in Members(ImmGroups(s)) && w.sync && ImmCut(s, cut) <= |ImmGroups(s)|
    ensures w in Members(ImmGroups(s)[..ImmCut(s, cut)])
  {
    hide DiskOk, SnapInv, CompInv, ContentInv, SeqInv, IdsIncrease, SyncedUpTo, SyncOk;
    var b, n := ImmGroups(s), ImmCut(s, cut);
    assert forall g :: g in b ==> g in Committed(s);
    assert s.imm.Some?;
    if s.edit.FlushEdit? { assert b[..n] == b; } else { SurvivesIn(b, s.logs[s.immLog].synced, n, w); }
  }

  lemma {:induction false} AckedInLog(s: State, m: nat, w: Writer)
    requires Inv(s) && w in Members(MemGroups(s)) && w.sync && s.logs[s.logfile].synced <= m <= |LogGroups(s)|
    ensures w in Members(LogGroups(s)[..m])
  {
    hide DiskOk, SnapInv, CompInv, ContentInv, SeqInv, IdsIncrease, EditInv;
    var gs := LogGroups(s);
    WithInFlight(s);
    InMembers(MemGroups(s), w);
    var i :| 0 <= i < |MemGroups(s)| && w in MemGroups(s)[i].members;
    assert MemGroups(s)[i] in Committed(s);
    assert SyncOk(MemGroups(s)[i]);
    assert gs[i] == MemGroups(s)[i];
    InMembers(gs[..m], w);
    assert gs[..m][i] == gs[i];
  }

  /** Reopening after a crash restores the invariant, over a history that keeps
      a prefix of each live log. */
  lemma {:induction false} CrashKeeps(s: State, cut: map<nat, nat>, parts: seq<seq<Group>>)
    requires Inv(s) && Enabled(s, CrashAndReopen(cut, parts))
    ensures var t := Reopened(s, cut, parts);
            && Inv(t)
            && s.logfile in cut && cut[s.logfile] <= |LogGroups(s)| && ImmCut(s, cut) <= |ImmGroups(s)|
            && Committed(t) == s.cur.flushed + ImmGroups(s)[..ImmCut(s, cut)] + LogGroups(s)[..cut[s.logfile]]
  {
    hide DiskOk, IdsIncrease, SyncOk, Increasing, Below, Members, RecoveredLayers, Flatten, MaxSeq, SnapInv, CompInv,
         Recorded;
    var t := Reopened(s, cut, parts);
    var a, b, c := s.cur.flushed, ImmGroups(s), LogGroups(s);
    ReplayIs(s, cut);
    var n, m := ImmCut(s, cut), cut[s.logfile];
    var all := a + b[..n] + c[..m];
    assert t.cur.flushed == all;
    WithInFlight(s);
    IncreasingCut(a, b, n, c, m);
    RecoveredDisk(s.dur, parts, s.nextFile);
    MembersCut(a, b, n, c, m, s.nextId);
    assert forall g :: g in all ==> g in a + b + c;
    assert AckInv(t.acked, all) by {
      forall w | w in s.acked && w.sync && w.batch.Some? ensures w in Members(all) { AckedSurvive(s, cut, w); }
    }
    assert MemGroups(t) == [] && ImmGroups(t) == [] && Committed(t) == all;
    ReopenedClean(s, t, all);
  }

  lemma {:induction false} ReopenedClean(s: State, t: State, all: seq<Group>)
    requires LogInv(s) && DiskOk(t.cur) && AckInv(t.acked, all) && Increasing(all)
    requires IdsIncrease(Members(all)) && (forall w :: w in Members(all) ==> w.id < t.nextId)
    requires forall g :: g in all ==> SyncOk(g)
    requires t == State([], s.nextId, Idle, {}, None, t.cur.lastSeq, [], t.cur, t.cur, NoEdit, None,
                        s.logs[s.nextFile := Log([], 0)], s.nextFile, 0, s.nextFile + 1, s.acked)
    requires t.cur.logNumber == s.nextFile && t.cur.flushed == all
    ensures Inv(t)
  {
    hide SyncOk, Increasing, Ordered, Union, Read;
    assert MemGroups(t) == [] && ImmGroups(t) == [];
    assert Committed(t) == all;
    assert Members(all) + [] == Members(all);
    assert Recorded([]) == {};
  }
}
