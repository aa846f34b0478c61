/**
 Recovery of one log file, from its bytes to the memtable: the log reader, the
 batch parser and the memtable put together.
 */
module Recovery {
  import opened Wrappers
  import opened Coding
  import Log = LogFile
  import opened MemTable
  import opened WriteBatch
  import SkipList

  // ------------------------------------------------------ on any records

  /** The entries one record adds: none if it is too short for a batch, otherwise
      those before the first fault, numbered from the header's number on. */
  function Adds(rec: Bytes): seq<MemEntry> {
    if |rec| < HEADER then [] else EntriesOf(Iterate(rec).0, DecodeFixed64(rec))
  }

  function AddsAll(recs: seq<Bytes>): seq<MemEntry> {
    if recs == [] then [] else AddsAll(recs[..|recs| - 1]) + Adds(recs[|recs| - 1])
  }

  /** The last number a record claims: the header's number plus its count, less one. */
  function LastNumber(rec: Bytes): nat
    requires |rec| >= HEADER
  {
    (DecodeFixed64(rec) + DecodeFixed32(rec[8..]) - 1) % 0x1_0000_0000_0000_0000
  }

  function MaxNumber(recs: seq<Bytes>, floor: nat): nat {
    if recs == [] then floor else
      var m, rec := MaxNumber(recs[..|recs| - 1], floor), recs[|recs| - 1];
      if |rec| >= HEADER && LastNumber(rec) > m then LastNumber(rec) else m
  }

  /** The sizes reported for records that are too short for a batch header. */
  function ShortSizes(recs: seq<Bytes>): seq<nat> {
    if recs == [] then [] else
      var rec := recs[|recs| - 1];
      ShortSizes(recs[..|recs| - 1]) + if |rec| < 12 then [|rec|] else []
  }

  /** The batches are numbered upward from `floor`, as one writer at a time leaves them. */
  ghost predicate Numbered(recs: seq<Bytes>, floor: nat) {
    recs != [] ==>
      && var init, rec := recs[..|recs| - 1], recs[|recs| - 1];
      && Numbered(init, floor) && |rec| < 0x8000_0000
      && (|rec| >= HEADER ==>
            && floor <= DecodeFixed64(rec) && DecodeFixed64(rec) + |rec| <= MAX_SEQUENCE
            && forall e :: e in AddsAll(init) ==> e.num < DecodeFixed64(rec))
  }

  lemma {:induction false} AddsSnoc(recs: seq<Bytes>, rec: Bytes)
    ensures AddsAll(recs + [rec]) == AddsAll(recs) + Adds(rec)
    ensures ShortSizes(recs + [rec]) == ShortSizes(recs) + if |rec| < 12 then [|rec|] else []
    ensures MaxNumber(recs + [rec], 0) ==
            if |rec| >= HEADER && LastNumber(rec) > MaxNumber(recs, 0) then LastNumber(rec) else MaxNumber(recs, 0)
  {
    assert (recs + [rec])[..|recs|] == recs;
  }

  lemma {:induction false} NumberedPrefix(recs: seq<Bytes>, floor: nat, n: nat)
    requires Numbered(recs, floor) && n <= |recs|
    ensures Numbered(recs[..n], floor)
    decreases |recs|
  {
    if n == |recs| {
      assert recs[..n] == recs;
    } else {
      NumberedPrefix(recs[..|recs| - 1], floor, n);
      assert recs[..|recs| - 1][..n] == recs[..n];
    }
  }

  /** The next record may be inserted behind all that is there. */
  lemma {:induction false} NumberedNext(recs: seq<Bytes>, floor: nat, n: nat)
    requires Numbered(recs, floor) && n < |recs|
    ensures
      var rec := recs[n];
      && |rec| < 0x8000_0000
      && (|rec| >= HEADER ==>
            && floor <= DecodeFixed64(rec) && DecodeFixed64(rec) + |rec| <= MAX_SEQUENCE
            && forall e :: e in AddsAll(recs[..n]) ==> e.num < DecodeFixed64(rec))
  {
    hide DecodeFixed64, AddsAll;
    NumberedPrefix(recs, floor, n + 1);
    assert recs[..n + 1][..n] == recs[..n];
  }

  /** What the table holds after the records so far. */
  ghost predicate Holding(entries: seq<MemEntry>, start: seq<MemEntry>, recs: seq<Bytes>) {
    multiset(entries) == multiset(start) + multiset(AddsAll(recs))
  }

  lemma {:induction false} HoldingBelow(entries: seq<MemEntry>, start: seq<MemEntry>, recs: seq<Bytes>, num: nat)
    requires Holding(entries, start, recs)
    requires (forall f :: f in start ==> f.num < num) && forall f :: f in AddsAll(recs) ==> f.num < num
    ensures forall f :: f in entries ==> f.num < num
  {
    hide AddsAll;
    forall f | f in entries ensures f.num < num { assert f in multiset(entries); }
  }

  lemma {:induction false} HoldingMore(entries: seq<MemEntry>, more: seq<MemEntry>, start: seq<MemEntry>,
      recs: seq<Bytes>, rec: Bytes)
    requires Holding(entries, start, recs) && multiset(more) == multiset(entries) + multiset(Adds(rec))
    ensures Holding(more, start, recs + [rec])
  {
    hide AddsAll, Adds, MaxNumber, ShortSizes;
    AddsSnoc(recs, rec);
  }

  /** RecoverLogFile, with errors ignored as they are by default: every record is
      read, too short ones are reported, the others go into the memtable up to
      their first fault.  `draw` is what the skip list's random heights are. */
  method RecoverLogFile(crc: Log.Checksum, file: Bytes, mem: MemTable, draw: (nat, nat) -> nat)
    returns (maxSequence: nat, short: seq<nat>)
    requires mem.Valid() && forall i, j :: 1 <= draw(i, j) <= SkipList.MAX_HEIGHT
    requires exists floor: nat ::
               && Numbered(Log.ReadAll(crc, Log.Rest(0, file)), floor)
               && forall f :: f in mem.entries ==> f.num < floor
    modifies mem, mem.table
    ensures mem.Valid()
    ensures Holding(mem.entries, old(mem.entries), Log.ReadAll(crc, Log.Rest(0, file)))
    ensures maxSequence == MaxNumber(Log.ReadAll(crc, Log.Rest(0, file)), 0)
    ensures short == ShortSizes(Log.ReadAll(crc, Log.Rest(0, file)))
  {
    hide MemTable.Valid, AddsAll, Adds, ShortSizes, MaxNumber, LastNumber, Numbered, Holding, DecodeFixed64,
         DecodeFixed32, Iterate, Log.ReadAll;
    var records, reports := Log.ReadLog(crc, file);
    ghost var start := mem.entries;
    ghost var floor: nat :| Numbered(records, floor) && forall f :: f in mem.entries ==> f.num < floor;
    maxSequence, short := 0, [];
    NothingHeld(start);
    for i := 0 to |records|
      invariant mem.Valid() && Holding(mem.entries, start, records[..i])
      invariant maxSequence == MaxNumber(records[..i], 0) && short == ShortSizes(records[..i])
    {
      var rec := records[i];
      ghost var before := mem.entries;
      NumberedNext(records, floor, i);
      AddsSnoc(records[..i], rec);
      assert records[..i + 1] == records[..i] + [rec];
      if |rec| < HEADER {
        short := short + [|rec|];
        ShortAdds(rec);
        HoldingMore(before, before, start, records[..i], rec);
      } else {
        HoldingBelow(before, start, records[..i], DecodeFixed64(rec));
        var heights := seq(|rec|, j requires 0 <= j < |rec| => draw(i, j));
        var status := InsertInto(rec, mem, heights);
        LongAdds(rec);
        HoldingMore(before, mem.entries, start, records[..i], rec);
        var last := Last(rec);
        if last > maxSequence {
          maxSequence := last;
        }
      }
    }
    assert records[..|records|] == records;
  }

  method Last(rec: Bytes) returns (n: nat)
    requires |rec| >= HEADER
    ensures n == LastNumber(rec)
  {
    n := (DecodeFixed64(rec) + DecodeFixed32(rec[8..]) - 1) % 0x1_0000_0000_0000_0000;
  }

  lemma {:induction false} NothingHeld(start: seq<MemEntry>)
    ensures Holding(start, start, []) && MaxNumber([], 0) == 0 && ShortSizes([]) == []
  {}

  lemma {:induction false} ShortAdds(rec: Bytes)
    requires |rec| < HEADER
    ensures Adds(rec) == []
  {}

  lemma {:induction false} LongAdds(rec: Bytes)
    requires |rec| >= HEADER
    ensures Adds(rec) == EntriesOf(Iterate(rec).0, DecodeFixed64(rec))
  {}

  // ------------------------------------------------- on what was written

  /** A batch as the write path logs it. */
  datatype Logged = Logged(num: U64, ops: seq<Op>)

  ghost predicate Loggable(b: Logged) {
    && |b.ops| < 0x8000_0000 && (forall op :: op in b.ops ==> WellSizedOp(op))
    && |Rep(b.num, b.ops)| < 0x8000_0000 && b.num + |Rep(b.num, b.ops)| <= MAX_SEQUENCE
  }

  ghost predicate InSequence(bs: seq<Logged>) {
    && (forall i :: 0 <= i < |bs| ==> Loggable(bs[i]) && 0 < bs[i].num)
    && forall i, j :: 0 <= i < j < |bs| ==> bs[i].num + |bs[i].ops| <= bs[j].num
  }

  ghost function Reps(bs: seq<Logged>): (rs: seq<Bytes>)
    requires forall i :: 0 <= i < |bs| ==> Loggable(bs[i])
    ensures |rs| == |bs|
  {
    seq(|bs|, i requires 0 <= i < |bs| && Loggable(bs[i]) => Rep(bs[i].num, bs[i].ops))
  }

  ghost function EntriesOfAll(bs: seq<Logged>): seq<MemEntry> {
    if bs == [] then [] else EntriesOfAll(bs[..|bs| - 1]) + EntriesOf(bs[|bs| - 1].ops, bs[|bs| - 1].num)
  }

  /** A whole batch adds its operations under consecutive numbers. */
  lemma {:induction false} RepAdds(b: Logged)
    requires Loggable(b)
    ensures
      var rep := Rep(b.num, b.ops);
      && |rep| >= HEADER && Adds(rep) == EntriesOf(b.ops, b.num) && DecodeFixed64(rep) == b.num
      && LastNumber(rep) == (b.num + |b.ops| - 1) % 0x1_0000_0000_0000_0000
  {
    hide Rep, Iterate, DecodeFixed64, DecodeFixed32, EntriesOf;
    RepParts(b.num, b.ops);
    IterateBack(b.num, b.ops);
  }

  lemma {:induction false} RepsAdd(bs: seq<Logged>)
    requires forall i :: 0 <= i < |bs| ==> Loggable(bs[i])
    ensures AddsAll(Reps(bs)) == EntriesOfAll(bs)
    decreases |bs|
  {
    hide Adds, EntriesOf, Loggable;
    if bs != [] {
      var init := bs[..|bs| - 1];
      RepsAdd(init);
      RepAdds(bs[|bs| - 1]);
      RepsSnoc(bs);
    }
  }

  lemma {:induction false} EntriesBelow(bs: seq<Logged>, num: nat)
    requires forall i :: 0 <= i < |bs| ==> bs[i].num + |bs[i].ops| <= num
    ensures forall e :: e in EntriesOfAll(bs) ==> e.num < num
    decreases |bs|
  {
    hide EntriesOf;
    if bs != [] {
      var b := bs[|bs| - 1];
      EntriesBelow(bs[..|bs| - 1], num);
      EntryNums(b.ops, b.num);
    }
  }

  lemma {:induction false} WrittenNumbered(bs: seq<Logged>)
    requires InSequence(bs)
    ensures Numbered(Reps(bs), 1)
    decreases |bs|
  {
    hide Loggable, Rep, AddsAll;
    if bs != [] {
      var init, b := bs[..|bs| - 1], bs[|bs| - 1];
      WrittenNumbered(init);
      RepsSnoc(bs);
      RepAdds(b);
      RepsAdd(init);
      EntriesBelow(init, b.num);
      LoggableSizes(b);
    }
  }

  lemma {:induction false} LoggableSizes(b: Logged)
    requires Loggable(b)
    ensures |Rep(b.num, b.ops)| < 0x8000_0000 && b.num + |Rep(b.num, b.ops)| <= MAX_SEQUENCE
    ensures |b.ops| < 0x8000_0000
  {}

  /** The largest number recovered is the last one written. */
  lemma {:induction false} MaxWritten(bs: seq<Logged>)
    requires InSequence(bs)
    ensures MaxNumber(Reps(bs), 0) == if bs == [] then 0 else bs[|bs| - 1].num + |bs[|bs| - 1].ops| - 1
    decreases |bs|
  {
    hide Loggable, Rep, LastNumber;
    if bs != [] {
      var init, b := bs[..|bs| - 1], bs[|bs| - 1];
      MaxWritten(init);
      RepsSnoc(bs);
      LoggableSizes(b);
      RepLast(b);
      AddsSnoc(Reps(init), Rep(b.num, b.ops));
    }
  }

  lemma {:induction false} RepsSnoc(bs: seq<Logged>)
    requires bs != [] && forall i :: 0 <= i < |bs| ==> Loggable(bs[i])
    ensures Reps(bs) == Reps(bs[..|bs| - 1]) + [Rep(bs[|bs| - 1].num, bs[|bs| - 1].ops)]
  {
    hide Loggable, Rep;
  }

  lemma {:induction false} RepLast(b: Logged)
    requires Loggable(b) && 0 < b.num
    ensures |Rep(b.num, b.ops)| >= HEADER && LastNumber(Rep(b.num, b.ops)) == b.num + |b.ops| - 1
  {
    hide Rep, LastNumber, Adds;
    RepAdds(b);
  }

  /** From bytes to memtable: write batches to a log, lose everything from byte n
      on, recover.  The memtable then holds exactly the operations of the batches
      whose records were complete, each under the number it was written with. */
  method CrashAndRecover(crc: Log.Checksum, bs: seq<Logged>, n: nat, ult: Order, draw: (nat, nat) -> nat)
    returns (mem: MemTable, maxSequence: nat)
    requires InSequence(bs) && WeakOrder(ult) && forall i, j :: 1 <= draw(i, j) <= SkipList.MAX_HEIGHT
    ensures fresh(mem) && mem.Valid() && mem.ult == ult
    ensures
      var k := Log.Complete(crc, 0, Reps(bs), n);
      && k <= |bs|
      && multiset(mem.entries) == multiset(EntriesOfAll(bs[..k]))
      && maxSequence == (if k == 0 then 0 else bs[k - 1].num + |bs[k - 1].ops| - 1)
      && (n >= |Log.LogOf(crc, 0, Reps(bs))| ==> k == |bs|)
  {
    hide Log.LogOf, Log.ReadAll, Log.Complete, MemTable.Valid, Loggable, Rep, AddsAll, EntriesOfAll, WeakOrder,
         MaxNumber, ShortSizes, Numbered;
    var file := WriteLog(crc, bs);
    var m := if n < |file| then n else |file|;
    ghost var reps, k := Reps(bs), Log.Complete(crc, 0, Reps(bs), n);
    Log.CompleteIs(crc, 0, reps, n);
    assert n >= |file| ==> reps[..k] == reps;
    Log.PrefixReadBack(crc, 0, reps, m, k);
    assert reps[..k] == Reps(bs[..k]);
    WrittenNumbered(bs[..k]);
    RepsAdd(bs[..k]);
    MaxWritten(bs[..k]);
    mem := new MemTable(ult);
    var short;
    maxSequence, short := RecoverLogFile(crc, file[..m], mem, draw);
  }

  /** The write path's side: every batch is one record of the log. */
  method WriteLog(crc: Log.Checksum, bs: seq<Logged>) returns (file: Bytes)
    requires forall i :: 0 <= i < |bs| ==> Loggable(bs[i])
    ensures file == Log.LogOf(crc, 0, Reps(bs))
  {
    hide Log.Emit, Log.LogOf, Rep, Fixed64, Fixed32;
    var w := new Log.Writer(crc);
    Log.EmptyLog(crc);
    assert Reps(bs)[..0] == [];
    for i := 0 to |bs|
      invariant fresh(w) && w.Valid() && w.crc == crc && w.dest == Log.LogOf(crc, 0, Reps(bs)[..i])
    {
      assert Loggable(bs[i]);
      var rep := Rep(bs[i].num, bs[i].ops);
      Log.LogOfSnoc(crc, 0, Reps(bs)[..i], rep);
      assert Reps(bs)[..i + 1] == Reps(bs)[..i] + [rep];
      w.AddRecord(rep);
    }
    assert Reps(bs)[..|bs|] == Reps(bs);
    file := w.dest;
  }

  // ------------------------------------------------------ and read it back

  /** Operation j of batch i is on this key. */
  ghost predicate On(bs: seq<Logged>, ult: Order, key: Bytes, i: nat, j: nat) {
    i < |bs| && j < |bs[i].ops| && Same(ult, bs[i].ops[j].key, key)
  }

  /** It is the last one on this key. */
  ghost predicate LastOn(bs: seq<Logged>, ult: Order, key: Bytes, i: nat, j: nat) {
    && On(bs, ult, key, i, j)
    && forall p: nat, q: nat :: On(bs, ult, key, p, q) ==> p < i || (p == i && q <= j)
  }

  /** What a reader gets for the last operation. */
  function Answer(op: Op): GetResult {
    match op
    case Put(_, value) => Found(value)
    case Delete(_) => Deleted
  }

  lemma {:induction false} InEntries(bs: seq<Logged>, e: MemEntry)
    ensures e in EntriesOfAll(bs) <==> exists i: nat, j: nat :: StoredAt(bs, e, i, j)
    decreases |bs|
  {
    hide EntriesOf;
    if bs == [] {
    } else {
      var init, n := bs[..|bs| - 1], |bs| - 1;
      InEntries(init, e);
      EntryNums(bs[n].ops, bs[n].num);
      forall i: nat, j: nat
        ensures StoredAt(bs, e, i, j) <==> StoredAt(init, e, i, j) || (i == n && StoredAt(bs, e, n, j))
      {}
      if e in EntriesOf(bs[n].ops, bs[n].num) {
        var j :| 0 <= j < |bs[n].ops| && EntriesOf(bs[n].ops, bs[n].num)[j] == e;
        assert StoredAt(bs, e, n, j);
      }
    }
  }

  ghost predicate StoredAt(bs: seq<Logged>, e: MemEntry, i: nat, j: nat) {
    i < |bs| && j < |bs[i].ops| && e == EntryOf(bs[i].ops[j], bs[i].num + j)
  }

  /** In sequence, later operations have larger numbers. */
  lemma {:induction false} NumbersAscend(bs: seq<Logged>, i: nat, j: nat, p: nat, q: nat)
    requires InSequence(bs) && i < |bs| && j < |bs[i].ops| && p < |bs| && q < |bs[p].ops|
    requires p < i || (p == i && q <= j)
    ensures bs[p].num + q <= bs[i].num + j && (bs[p].num + q == bs[i].num + j ==> p == i && q == j)
    ensures bs[i].num + j <= bs[|bs| - 1].num + |bs[|bs| - 1].ops| - 1
  {
    hide Loggable;
  }

  /** The newest entry of a key in a table of these batches is that of the last
      operation on it. */
  lemma {:induction false} NewestIsLast(bs: seq<Logged>, ult: Order, key: Bytes, s: nat, i: nat, j: nat, e: MemEntry,
      es: seq<MemEntry>)
    requires InSequence(bs) && LastOn(bs, ult, key, i, j) && multiset(es) == multiset(EntriesOfAll(bs))
    requires s == bs[|bs| - 1].num + |bs[|bs| - 1].ops| - 1 && NewestOf(ult, es, key, s, e)
    ensures e == EntryOf(bs[i].ops[j], bs[i].num + j)
  {
    hide InSequence, EntriesOfAll, Same;
    var last := EntryOf(bs[i].ops[j], bs[i].num + j);
    forall f ensures f in es <==> f in EntriesOfAll(bs) {
      assert f in multiset(es) <==> f in multiset(EntriesOfAll(bs));
    }
    assert StoredAt(bs, last, i, j);
    InEntries(bs, last);
    InEntries(bs, e);
    NumbersAscend(bs, i, j, i, j);
    var p: nat, q: nat :| StoredAt(bs, e, p, q);
    assert On(bs, ult, key, p, q);
    NumbersAscend(bs, i, j, p, q);
  }

  lemma {:induction false} SeenIffTouched(bs: seq<Logged>, ult: Order, key: Bytes, s: nat, es: seq<MemEntry>)
    requires InSequence(bs) && multiset(es) == multiset(EntriesOfAll(bs))
    requires bs != [] ==> s == bs[|bs| - 1].num + |bs[|bs| - 1].ops| - 1
    ensures Visible(ult, es, key, s) <==> exists i: nat, j: nat :: On(bs, ult, key, i, j)
  {
    hide InSequence, EntriesOfAll, Same;
    forall f ensures f in es <==> f in EntriesOfAll(bs) {
      assert f in multiset(es) <==> f in multiset(EntriesOfAll(bs));
    }
    if e :| e in es && Same(ult, e.key, key) && e.num <= s {
      InEntries(bs, e);
      var i: nat, j: nat :| StoredAt(bs, e, i, j);
      assert On(bs, ult, key, i, j);
    }
    if i: nat, j: nat :| On(bs, ult, key, i, j) {
      var e := EntryOf(bs[i].ops[j], bs[i].num + j);
      assert StoredAt(bs, e, i, j);
      InEntries(bs, e);
      NumbersAscend(bs, i, j, i, j);
    }
  }

  /** Last write wins, from bytes to answer: after a crash at any byte and recovery,
      a Get returns what the last operation on the key in the complete batches
      wrote, and nothing if there is none. */
  method RecoverAndGet(crc: Log.Checksum, bs: seq<Logged>, n: nat, ult: Order, draw: (nat, nat) -> nat, key: Bytes,
      height: nat)
    returns (r: GetResult)
    requires InSequence(bs) && WeakOrder(ult) && forall i, j :: 1 <= draw(i, j) <= SkipList.MAX_HEIGHT
    requires |key| + 8 < 0x1_0000_0000 && 1 <= height <= SkipList.MAX_HEIGHT
    ensures
      var k := Log.Complete(crc, 0, Reps(bs), n);
      && k <= |bs|
      && (r == NotPresent <==> forall i: nat, j: nat :: !On(bs[..k], ult, key, i, j))
      && forall i: nat, j: nat :: LastOn(bs[..k], ult, key, i, j) ==> r == Answer(bs[i].ops[j])
  {
    hide Log.LogOf, Log.Complete, MemTable.Valid, Loggable, Rep, EntriesOfAll, WeakOrder, Reps, NewestOf, Visible, On,
         LastOn;
    ghost var k := Log.Complete(crc, 0, Reps(bs), n);
    var mem, s := CrashAndRecover(crc, bs, n, ult, draw);
    ghost var done := bs[..k];
    InSequencePrefix(bs, k);
    NumbersFit(done);
    SeenIffTouched(done, ult, key, s, mem.entries);
    r := mem.Get(key, s, height);
    forall i: nat, j: nat | LastOn(done, ult, key, i, j)
      ensures i < |done| && j < |done[i].ops| && r == Answer(done[i].ops[j])
    {
      LastIsOn(done, ult, key, i, j);
      var e :| NewestOf(ult, mem.entries, key, s, e) && r == if e.val.Some? then Found(e.val.value) else Deleted;
      NewestIsLast(done, ult, key, s, i, j, e, mem.entries);
    }
  }

  lemma {:induction false} LastIsOn(bs: seq<Logged>, ult: Order, key: Bytes, i: nat, j: nat)
    requires LastOn(bs, ult, key, i, j)
    ensures On(bs, ult, key, i, j) && i < |bs| && j < |bs[i].ops|
  {}

  lemma {:induction false} InSequencePrefix(bs: seq<Logged>, k: nat)
    requires InSequence(bs) && k <= |bs|
    ensures InSequence(bs[..k])
  {
    hide Loggable;
  }

  lemma {:induction false} NumbersFit(bs: seq<Logged>)
    requires InSequence(bs)
    ensures bs != [] ==> bs[|bs| - 1].num + |bs[|bs| - 1].ops| - 1 <= MAX_SEQUENCE
  {
    hide Rep;
    if bs != [] {
      var b := bs[|bs| - 1];
      RecordsLong(b.ops);
      RepSize(b);
    }
  }

  lemma {:induction false} RecordsLong(ops: seq<Op>)
    ensures |ops| <= |Records(ops)|
  {
    hide Record;
    if ops != [] {
      RecordsLong(ops[1..]);
      RecordNotEmpty(ops[0]);
    }
  }

  lemma {:induction false} RepSize(b: Logged)
    requires Loggable(b)
    ensures |Rep(b.num, b.ops)| == HEADER + |Records(b.ops)|
  {
    hide Records, Fixed32, Fixed64;
  }
}
