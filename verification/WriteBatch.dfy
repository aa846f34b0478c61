/**
 WriteBatch: a 12-byte header (sequence number, count) followed by tagged
 records, appended to and patched in place, replayed into a memtable.
 */
module WriteBatch {
  import opened Wrappers
  import opened Coding
  import opened MemTable
  import opened SkipList

  const HEADER: nat := 12
  const TYPE_DELETION: Byte := 0
  const TYPE_VALUE: Byte := 1

  datatype Op = Put(key: Bytes, value: Bytes) | Delete(key: Bytes)

  datatype Status = Ok | TooSmall | BadPut | BadDelete | UnknownTag | WrongCount

  predicate WellSizedOp(op: Op) {
    |op.key| + 8 < 0x1_0000_0000 && (op.Put? ==> |op.value| < 0x1_0000_0000)
  }

  // ------------------------------------------------------------ the format

  function Record(op: Op): Bytes {
    match op
    case Put(key, value) => [TYPE_VALUE] + Prefixed(key) + Prefixed(value)
    case Delete(key) => [TYPE_DELETION] + Prefixed(key)
  }

  function Records(ops: seq<Op>): Bytes {
    if ops == [] then [] else Record(ops[0]) + Records(ops[1..])
  }

  function Rep(num: U64, ops: seq<Op>): Bytes
    requires |ops| < 0x8000_0000
  {
    Fixed64(num) + Fixed32(|ops|) + Records(ops)
  }

  lemma {:induction false} RecordsConcat(a: seq<Op>, b: seq<Op>)
    ensures Records(a + b) == Records(a) + Records(b)
  {
    hide Record;
    if a == [] { assert a + b == b; } else {
      RecordsConcat(a[1..], b);
      assert (a + b)[1..] == a[1..] + b;
    }
  }

  // --------------------------------------------------------------- parsing

  /** The first record of the input: the operation and what follows, or why not. */
  function ReadRecord(input: Bytes): (r: (Status, Op, Bytes))
    requires input != []
    ensures r.0.Ok? ==> |r.2| < |input|
  {
    var tag, rest := input[0], input[1..];
    if tag == TYPE_VALUE then
      var k := GetPrefixed(rest);
      if k.None? then (BadPut, Delete([]), []) else
      var v := GetPrefixed(k.value.1);
      if v.None? then (BadPut, Delete([]), []) else (Ok, Put(k.value.0, v.value.0), v.value.1)
    else if tag == TYPE_DELETION then
      var k := GetPrefixed(rest);
      if k.None? then (BadDelete, Delete([]), []) else (Ok, Delete(k.value.0), k.value.1)
    else (UnknownTag, Delete([]), [])
  }

  /** The operations a handler sees, in order, and how the walk ends. */
  function Walk(input: Bytes): (r: (seq<Op>, Status))
    decreases |input|
  {
    if input == [] then ([], Ok) else
      var (status, op, rest) := ReadRecord(input);
      if !status.Ok? then ([], status) else
      var (ops, end) := Walk(rest);
      ([op] + ops, end)
  }

  /** WriteBatch::Iterate on arbitrary bytes. */
  function Iterate(rep: Bytes): (seq<Op>, Status) {
    if |rep| < HEADER then ([], TooSmall) else
      var (ops, status) := Walk(rep[HEADER..]);
      (ops, if status.Ok? && |ops| != DecodeFixed32(rep[8..]) then WrongCount else status)
  }

  lemma {:induction false} ReadRecordBack(op: Op, rest: Bytes)
    requires WellSizedOp(op)
    ensures ReadRecord(Record(op) + rest) == (Ok, op, rest)
  {
    hide GetPrefixed, Prefixed;
    var input := Record(op) + rest;
    match op
    case Put(key, value) =>
      assert input[1..] == Prefixed(key) + (Prefixed(value) + rest);
      GetPrefixedBack(key, Prefixed(value) + rest);
      GetPrefixedBack(value, rest);
    case Delete(key) =>
      assert input[1..] == Prefixed(key) + rest;
      GetPrefixedBack(key, rest);
  }

  lemma {:induction false} WalkBack(ops: seq<Op>)
    requires forall op :: op in ops ==> WellSizedOp(op)
    ensures Walk(Records(ops)) == (ops, Ok)
  {
    hide Record, ReadRecord;
    if ops != [] {
      ReadRecordBack(ops[0], Records(ops[1..]));
      WalkBack(ops[1..]);
      assert Records(ops) != [] by { RecordNotEmpty(ops[0]); }
      assert [ops[0]] + ops[1..] == ops;
    }
  }

  lemma {:induction false} RecordNotEmpty(op: Op)
    ensures Record(op) != []
  {}

  lemma {:induction false} RepParts(num: U64, ops: seq<Op>)
    requires |ops| < 0x8000_0000
    ensures var rep := Rep(num, ops);
            && |rep| >= HEADER && DecodeFixed64(rep) == num && DecodeFixed32(rep[8..]) == |ops| &&
                 rep[HEADER..] == Records(ops)
  {
    hide Fixed64, Fixed32, Records, DecodeFixed64, DecodeFixed32;
    var rep := Rep(num, ops);
    Fixed64RoundTrip(num, Fixed32(|ops|) + Records(ops));
    assert rep == Fixed64(num) + (Fixed32(|ops|) + Records(ops));
    Fixed32RoundTrip(|ops|, Records(ops));
    assert rep[8..] == Fixed32(|ops|) + Records(ops);
  }

  /** Iterating a batch yields its operations, in order and without error. */
  lemma {:induction false} IterateBack(num: U64, ops: seq<Op>)
    requires |ops| < 0x8000_0000 && forall op :: op in ops ==> WellSizedOp(op)
    ensures Iterate(Rep(num, ops)) == (ops, Ok)
  {
    hide Rep, Walk;
    RepParts(num, ops);
    WalkBack(ops);
  }

  // ---------------------------------------------------- parsing any bytes

  /** The operation is spelled at the front of the input, up to `rest`. */
  ghost predicate Spells(input: Bytes, op: Op, rest: Bytes) {
    && input != []
    && match op
       case Put(key, value) => input[0] == 1 && exists mid :: Framed(input[1..], key, mid) && Framed(mid, value, rest)
       case Delete(key) => input[0] == 0 && Framed(input[1..], key, rest)
  }

  /** A record is accepted exactly when it is spelled there; otherwise the tag says
      which complaint is made. */
  lemma {:induction false} ReadRecordExact(input: Bytes, op: Op, rest: Bytes)
    requires input != []
    ensures ReadRecord(input) == (Ok, op, rest) <==> Spells(input, op, rest)
    ensures !ReadRecord(input).0.Ok? ==>
              ReadRecord(input).0 == if input[0] == 1 then BadPut else if input[0] == 0 then BadDelete else UnknownTag
  {
    hide GetPrefixed, Framed;
    forall bs: Bytes, data: Bytes, tail: Bytes
      ensures GetPrefixed(bs) == Some((data, tail)) <==> Framed(bs, data, tail)
    {
      GetPrefixedExact(bs, data, tail);
    }
  }

  /** These operations are spelled one after the other, and `left` comes after them. */
  ghost predicate SpellsAll(input: Bytes, ops: seq<Op>, left: Bytes)
    decreases |ops|
  {
    if ops == [] then left == input else exists next :: Spells(input, ops[0], next) && SpellsAll(next, ops[1..], left)
  }

  /** Iterating any bytes shows the operations spelled from the front on, as many as
      there are: the walk ends well only at the end of the input, and otherwise
      at a place where no operation is spelled. */
  lemma {:induction false} WalkExact(input: Bytes) returns (left: Bytes)
    ensures SpellsAll(input, Walk(input).0, left)
    ensures Walk(input).1.Ok? <==> left == []
    ensures left != [] ==>
              && Walk(input).1 == ReadRecord(left).0
              && forall op, rest :: !Spells(left, op, rest)
    decreases |input|
  {
    hide ReadRecord, Spells, Walk;
    left := input;
    if input == [] {
      assert Walk(input) == ([], Ok) by { WalkNothing(); }
    } else {
      var (status, op, next) := ReadRecord(input);
      WalkStep(input);
      if status.Ok? {
        left := WalkExact(next);
        ReadRecordExact(input, op, next);
        var ops := [op] + Walk(next).0;
        assert ops[1..] == Walk(next).0;
        assert SpellsAll(input, ops, left);
      } else {
        forall o, r ensures !Spells(input, o, r) { ReadRecordExact(input, o, r); }
      }
    }
  }

  lemma {:induction false} WalkNothing()
    ensures Walk([]) == ([], Ok)
  {}

  /** What Iterate makes of any bytes: the header is twelve bytes, a walk that fails
      says why, and one that ends well must match the count in the header. */
  lemma {:induction false} IterateVerdict(rep: Bytes)
    ensures |rep| < 12 ==> Iterate(rep) == ([], TooSmall)
    ensures |rep| >= 12 ==>
              && Iterate(rep).0 == Walk(rep[12..]).0
              && (!Walk(rep[12..]).1.Ok? ==> Iterate(rep).1 == Walk(rep[12..]).1)
              && (Walk(rep[12..]).1.Ok? ==>
                    Iterate(rep).1 == if |Iterate(rep).0| == LittleEndian(rep[8..12]) then Ok else WrongCount)
  {
    hide Walk, DecodeFixed32, LittleEndian;
    if |rep| >= 12 {
      Fixed32Is(rep[8..]);
      assert rep[8..][..4] == rep[8..12];
    }
  }

  // ------------------------------------------------------------- the batch

  class Batch {
    var rep: Bytes
    ghost var num: U64
    ghost var ops: seq<Op>

    ghost predicate Valid()
      reads this
    {
      |ops| < 0x8000_0000 && (forall op :: op in ops ==> WellSizedOp(op)) && rep == Rep(num, ops)
    }

    /** Clear: a zero header. */
    constructor ()
      ensures Valid() && num == 0 && ops == []
    {
      rep := seq(HEADER, _ => 0);
      num, ops := 0, [];
      new;
      assert rep == Rep(0, []);
    }

    method Count() returns (n: nat)
      requires Valid()
      ensures n == |ops|
    {
      RepParts(num, ops);
      n := DecodeFixed32(rep[8..]);
    }

    method Sequence() returns (n: U64)
      requires Valid()
      ensures n == num
    {
      RepParts(num, ops);
      n := DecodeFixed64(rep);
    }

    /** Patch the sequence number in the header. */
    method SetSequence(n: U64)
      requires Valid()
      modifies this
      ensures Valid() && num == n && ops == old(ops)
    {
      hide Fixed64, Fixed32, Records, WellSizedOp;
      rep := Fixed64(n) + rep[8..];
      num := n;
    }

    /** Patch the count and append the records of further operations. */
    method Extend(n: nat, more: Bytes, ghost added: seq<Op>)
      requires Valid() && n == |ops| + |added| < 0x8000_0000 && more == Records(added)
      requires forall op :: op in added ==> WellSizedOp(op)
      modifies this
      ensures Valid() && num == old(num) && ops == old(ops) + added
    {
      hide Fixed64, Fixed32, Records, WellSizedOp;
      RecordsConcat(ops, added);
      rep := rep[..8] + Fixed32(n) + rep[HEADER..] + more;
      ops := ops + added;
      assert rep == Fixed64(num) + Fixed32(n) + Records(ops);
    }

    method Put(key: Bytes, value: Bytes)
      requires Valid() && |ops| + 1 < 0x8000_0000 && WellSizedOp(Op.Put(key, value))
      modifies this
      ensures Valid() && num == old(num) && ops == old(ops) + [Op.Put(key, value)]
    {
      hide Prefixed;
      var n := Count();
      assert Records([Op.Put(key, value)]) == [TYPE_VALUE] + Prefixed(key) + Prefixed(value);
      Extend(n + 1, [TYPE_VALUE] + Prefixed(key) + Prefixed(value), [Op.Put(key, value)]);
    }

    method Delete(key: Bytes)
      requires Valid() && |ops| + 1 < 0x8000_0000 && WellSizedOp(Op.Delete(key))
      modifies this
      ensures Valid() && num == old(num) && ops == old(ops) + [Op.Delete(key)]
    {
      hide Prefixed;
      var n := Count();
      assert Records([Op.Delete(key)]) == [TYPE_DELETION] + Prefixed(key);
      Extend(n + 1, [TYPE_DELETION] + Prefixed(key), [Op.Delete(key)]);
    }

    /** WriteBatchInternal::Append, as group commit uses it. */
    method Append(src: Batch)
      requires Valid() && src.Valid() && src != this && |ops| + |src.ops| < 0x8000_0000
      modifies this
      ensures Valid() && num == old(num) && ops == old(ops) + src.ops
    {
      var n := Count();
      var m := src.Count();
      RepParts(src.num, src.ops);
      Extend(n + m, src.rep[HEADER..], src.ops);
    }
  }

  // -------------------------------------------------------------- replaying

  function EntryOf(op: Op, num: nat): MemEntry {
    MemEntry(op.key, num, if op.Put? then Some(op.value) else None)
  }

  /** The entries MemTableInserter adds: consecutive sequence numbers from num on. */
  function EntriesOf(ops: seq<Op>, num: nat): seq<MemEntry> {
    if ops == [] then [] else [EntryOf(ops[0], num)] + EntriesOf(ops[1..], num + 1)
  }

  lemma {:induction false} EntryNums(ops: seq<Op>, num: nat)
    ensures |EntriesOf(ops, num)| == |ops|
    ensures forall i :: 0 <= i < |ops| ==> EntriesOf(ops, num)[i] == EntryOf(ops[i], num + i)
  {
    if ops != [] { EntryNums(ops[1..], num + 1); }
  }

  lemma {:induction false} WalkStep(input: Bytes)
    requires input != []
    ensures var r := ReadRecord(input);
            Walk(input) == if r.0.Ok? then ([r.1] + Walk(r.2).0, Walk(r.2).1) else ([], r.0)
  {
    hide ReadRecord;
  }

  /** How far the replay has come: `done` is in the table, `input` is left. */
  ghost predicate Replaying(all: Bytes, input: Bytes, start: seq<MemEntry>, entries: seq<MemEntry>, done: seq<Op>,
      first: nat) {
    && Walk(all) == (done + Walk(input).0, Walk(input).1)
    && (forall f :: f in entries ==> f.num < first + |done|)
    && multiset(entries) == multiset(start) + multiset(EntriesOf(done, first))
  }

  lemma {:induction false} ReplayStep(all: Bytes, input: Bytes, start: seq<MemEntry>, entries: seq<MemEntry>,
      done: seq<Op>, first: nat, p: nat)
    requires Replaying(all, input, start, entries, done, first) && input != [] && ReadRecord(input).0.Ok? &&
             p <= |entries|
    ensures var r := ReadRecord(input);
            Replaying(all, r.2, start, entries[..p] + [EntryOf(r.1, first + |done|)] + entries[p..],
                      done + [r.1], first)
  {
    hide ReadRecord, Walk;
    var r := ReadRecord(input);
    WalkStep(input);
    InsertCounts(entries, p, EntryOf(r.1, first + |done|));
    EntriesSnoc(done, r.1, first);
    assert done + ([r.1] + Walk(r.2).0) == (done + [r.1]) + Walk(r.2).0;
  }

  /** WriteBatchInternal::InsertInto: even a malformed batch inserts the records
      before the fault, and reports it.  `heights` are the skip list's draws. */
  method InsertInto(rep: Bytes, mem: MemTable, heights: seq<nat>) returns (status: Status)
    requires mem.Valid() && HEADER <= |rep| < 0x8000_0000
    requires |heights| == |rep| && forall h :: h in heights ==> 1 <= h <= MAX_HEIGHT
    requires DecodeFixed64(rep) + |rep| <= MAX_SEQUENCE
    requires forall f :: f in mem.entries ==> f.num < DecodeFixed64(rep)
    modifies mem, mem.table
    ensures mem.Valid() && status == Iterate(rep).1
    ensures multiset(mem.entries) ==
            multiset(old(mem.entries)) + multiset(EntriesOf(Iterate(rep).0, DecodeFixed64(rep)))
  {
    hide ReadRecord, Walk, DecodeFixed64, DecodeFixed32, MemTable.Valid, Replaying, EntriesOf;
    ghost var start, all := mem.entries, rep[HEADER..];
    var first: nat := DecodeFixed64(rep);
    var input, sequence: nat, found: nat := rep[HEADER..], first, 0;
    ghost var done := [];
    ReplayStart(all, start, first);
    while input != []
      invariant mem.Valid() && sequence == first + found && found == |done| && |input| + found < |rep|
      invariant Replaying(all, input, start, mem.entries, done, first)
      decreases |input|
    {
      var r := ReadRecord(input);
      ReplayEnd(all, input, start, mem.entries, done, first);
      if !r.0.Ok? {
        return r.0;
      }
      ReadSizes(input);
      ghost var before := mem.entries;
      assert heights[found] in heights;
      ghost var p;
      p := mem.Add(sequence, r.1.key, if r.1.Put? then Some(r.1.value) else None, heights[found]);
      ReplayStep(all, input, start, before, done, first, p);
      done := done + [r.1];
      input, sequence, found := r.2, sequence + 1, found + 1;
    }
    ReplayEnd(all, input, start, mem.entries, done, first);
    status := if found != DecodeFixed32(rep[8..]) then WrongCount else Ok;
  }

  lemma {:induction false} ReplayStart(all: Bytes, start: seq<MemEntry>, first: nat)
    requires forall f :: f in start ==> f.num < first
    ensures Replaying(all, all, start, start, [], first)
  {
    assert [] + Walk(all).0 == Walk(all).0;
  }

  lemma {:induction false} ReplayEnd(all: Bytes, input: Bytes, start: seq<MemEntry>, entries: seq<MemEntry>,
      done: seq<Op>, first: nat)
    requires Replaying(all, input, start, entries, done, first)
    ensures forall f :: f in entries ==> f.num < first + |done|
    ensures input == [] ==> Walk(all) == (done, Ok)
    ensures input != [] && !ReadRecord(input).0.Ok? ==> Walk(all) == (done, ReadRecord(input).0)
    ensures multiset(entries) == multiset(start) + multiset(EntriesOf(done, first))
  {
    hide ReadRecord;
    assert done + [] == done;
  }

  lemma {:induction false} ReadSizes(input: Bytes)
    requires input != [] && ReadRecord(input).0.Ok? && |input| < 0x8000_0000
    ensures WellSizedOp(ReadRecord(input).1)
  {}

  lemma {:induction false} InsertCounts(es: seq<MemEntry>, p: nat, e: MemEntry)
    requires p <= |es|
    ensures multiset(es[..p] + [e] + es[p..]) == multiset(es) + multiset{e}
    ensures forall f :: f in es[..p] + [e] + es[p..] ==> f in es || f == e
  {
    assert es == es[..p] + es[p..];
  }

  lemma {:induction false} EntriesSnoc(ops: seq<Op>, op: Op, num: nat)
    ensures EntriesOf(ops + [op], num) == EntriesOf(ops, num) + [EntryOf(op, num + |ops|)]
  {
    if ops == [] { assert ops + [op] == [op] && EntriesOf([op][1..], num + 1) == []; } else {
      EntriesSnoc(ops[1..], op, num + 1);
      assert (ops + [op])[1..] == ops[1..] + [op];
    }
  }
}
