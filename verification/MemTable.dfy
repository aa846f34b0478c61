/**
 MemTable: entries encoded as length-prefixed internal keys and values, kept in
 the skip list, and looked up by an encoded key.  User keys are compared by any
 weak order the user supplies.
 */
module MemTable {
  import opened Wrappers
  import opened Coding
  import opened SkipList

  type Bytes = seq<Byte>
  type Order = (Bytes, Bytes) -> bool

  /** What a user comparator must be: a strict weak order. */
  ghost predicate WeakOrder(ult: Order) {
    && Transitive(ult) && Irreflexive(ult)
    && forall a, b, c :: ult(a, c) ==> ult(a, b) || ult(b, c)
  }

  predicate Same(ult: Order, a: Bytes, b: Bytes) { !ult(a, b) && !ult(b, a) }

  // -------------------------------------------------------- internal keys

  /** A user key with its packed sequence number and type. */
  datatype InternalKey = InternalKey(user: Bytes, tag: U64)

  /** InternalKeyComparator: ascending user key, descending tag. */
  predicate InternalLess(ult: Order, a: InternalKey, b: InternalKey) {
    ult(a.user, b.user) || (Same(ult, a.user, b.user) && a.tag > b.tag)
  }

  /** Split an internal key's bytes; too short ones cannot occur in a table. */
  function Split(bs: Bytes): InternalKey {
    if |bs| < 8 then InternalKey([], 0) else InternalKey(bs[..|bs| - 8], DecodeFixed64(bs[|bs| - 8..]))
  }

  function KeyOf(entry: Bytes): InternalKey {
    var r := GetPrefixed(entry);
    if r.None? then InternalKey([], 0) else Split(r.value.0)
  }

  /** MemTable::KeyComparator on encoded entries. */
  predicate EntryLess(ult: Order, a: Bytes, b: Bytes) { InternalLess(ult, KeyOf(a), KeyOf(b)) }

  lemma {:induction false} SameSame(ult: Order, a: Bytes, b: Bytes, c: Bytes)
    requires WeakOrder(ult) && Same(ult, a, b)
    ensures ult(a, c) <==> ult(b, c)
    ensures ult(c, a) <==> ult(c, b)
  {
    assert ult(a, c) ==> ult(a, b) || ult(b, c);
    assert ult(b, c) ==> ult(b, a) || ult(a, c);
    assert ult(c, a) ==> ult(c, b) || ult(b, a);
    assert ult(c, b) ==> ult(c, a) || ult(a, b);
  }

  lemma {:induction false} InternalTransitive(ult: Order, a: InternalKey, b: InternalKey, c: InternalKey)
    requires WeakOrder(ult) && InternalLess(ult, a, b) && InternalLess(ult, b, c)
    ensures InternalLess(ult, a, c)
  {
    if ult(a.user, b.user) {
      if !ult(b.user, c.user) { SameSame(ult, b.user, c.user, a.user); }
    } else {
      SameSame(ult, a.user, b.user, c.user);
    }
  }

  lemma {:induction false} EntryOrder(ult: Order, less: Order)
    requires WeakOrder(ult) && forall a, b :: less(a, b) == EntryLess(ult, a, b)
    ensures Transitive(less) && Irreflexive(less)
  {
    hide KeyOf;
    forall a, b, c | less(a, b) && less(b, c) ensures less(a, c) {
      InternalTransitive(ult, KeyOf(a), KeyOf(b), KeyOf(c));
    }
  }

  // --------------------------------------------------------------- entries

  datatype MemEntry = MemEntry(key: Bytes, num: nat, val: Option<Bytes>)

  predicate WellSized(e: MemEntry) {
    && |e.key| + 8 < 0x1_0000_0000 && e.num <= MAX_SEQUENCE
    && (e.val.Some? ==> |e.val.value| < 0x1_0000_0000)
  }

  /** (sequence << 8) | type. */
  function Pack(num: nat, isValue: bool): U64
    requires num <= MAX_SEQUENCE
  {
    256 * num + if isValue then 1 else 0
  }

  /** The entry format: klength, user key, tag, vlength, value. */
  function Encode(e: MemEntry): Bytes
    requires WellSized(e)
  {
    Prefixed(e.key + Fixed64(Pack(e.num, e.val.Some?))) + Prefixed(if e.val.Some? then e.val.value else [])
  }

  /** LookupKey::memtable_key. */
  function LookupBytes(k: Bytes, s: nat): Bytes
    requires |k| + 8 < 0x1_0000_0000 && s <= MAX_SEQUENCE
  {
    Prefixed(k + Fixed64(Pack(s, true)))
  }

  lemma {:induction false} SplitBack(k: Bytes, tag: U64)
    ensures Split(k + Fixed64(tag)) == InternalKey(k, tag)
  {
    hide Fixed64, DecodeFixed64;
    var bs := k + Fixed64(tag);
    assert bs[..|bs| - 8] == k && bs[|bs| - 8..] == Fixed64(tag) == Fixed64(tag) + [];
    Fixed64RoundTrip(tag, []);
  }

  lemma {:induction false} EncodeBack(e: MemEntry)
    requires WellSized(e)
    ensures KeyOf(Encode(e)) == InternalKey(e.key, Pack(e.num, e.val.Some?))
    ensures GetPrefixed(Encode(e)) == Some((e.key + Fixed64(Pack(e.num, e.val.Some?)),
                                            Prefixed(if e.val.Some? then e.val.value else [])))
    ensures GetPrefixed(Prefixed(if e.val.Some? then e.val.value else [])) ==
            Some((if e.val.Some? then e.val.value else [], []))
  {
    hide Fixed64, DecodeFixed64, GetPrefixed, Prefixed, Split;
    var ikey, value := e.key + Fixed64(Pack(e.num, e.val.Some?)), if e.val.Some? then e.val.value else [];
    GetPrefixedBack(ikey, Prefixed(value));
    SplitBack(e.key, Pack(e.num, e.val.Some?));
    GetPrefixedBack(value, []);
    assert Prefixed(value) + [] == Prefixed(value);
  }

  /** The bytes of an entry: the user key, then one type byte, 1 for a value and 0
      for a deletion, then the sequence number in seven bytes. */
  lemma {:induction false} EntryFormat(e: MemEntry)
    requires WellSized(e)
    ensures
      var ikey, n := e.key + Fixed64(Pack(e.num, e.val.Some?)), |e.key|;
      && GetPrefixed(Encode(e)) == Some((ikey, Prefixed(if e.val.Some? then e.val.value else [])))
      && |ikey| == n + 8 && ikey[..n] == e.key
      && ikey[n] == (if e.val.Some? then 1 else 0) && LittleEndian(ikey[n + 1..]) == e.num
  {
    hide GetPrefixed, Prefixed, Fixed64, LittleEndian, Encode, DecodeFixed64;
    EncodeBack(e);
    var tag := Pack(e.num, e.val.Some?);
    var bs := Fixed64(tag);
    var ikey, n := e.key + bs, |e.key|;
    Fixed64RoundTrip(tag, []);
    assert bs + [] == bs && bs[..8] == bs;
    Fixed64Is(bs);
    TagBytes(bs, e.num, if e.val.Some? then 1 else 0);
    assert ikey[n + 1..] == bs[1..] && ikey[n] == bs[0];
  }

  lemma {:induction false} TagBytes(bs: Bytes, num: nat, kind: nat)
    requires bs != [] && LittleEndian(bs) == 256 * num + kind && kind < 256
    ensures bs[0] == kind && LittleEndian(bs[1..]) == num
  {}

  lemma {:induction false} LookupBack(k: Bytes, s: nat)
    requires |k| + 8 < 0x1_0000_0000 && s <= MAX_SEQUENCE
    ensures KeyOf(LookupBytes(k, s)) == InternalKey(k, Pack(s, true))
  {
    hide Fixed64, DecodeFixed64, GetPrefixed, Prefixed, Split;
    var ikey := k + Fixed64(Pack(s, true));
    assert Prefixed(ikey) + [] == Prefixed(ikey);
    GetPrefixedBack(ikey, []);
    SplitBack(k, Pack(s, true));
  }

  /** Entries before the lookup key: smaller user keys, and versions too new. */
  lemma {:induction false} BeforeLookup(ult: Order, e: MemEntry, k: Bytes, s: nat)
    requires WellSized(e) && |k| + 8 < 0x1_0000_0000 && s <= MAX_SEQUENCE
    ensures EntryLess(ult, Encode(e), LookupBytes(k, s)) <==> ult(e.key, k) || (Same(ult, e.key, k) && e.num > s)
  {
    hide KeyOf, Encode, LookupBytes;
    EncodeBack(e);
    LookupBack(k, s);
  }

  /** e is the newest version of k at snapshot s. */
  ghost predicate NewestOf(ult: Order, es: seq<MemEntry>, k: Bytes, s: nat, e: MemEntry) {
    && e in es && Same(ult, e.key, k) && e.num <= s
    && forall f :: f in es && Same(ult, f.key, k) && f.num <= s ==> f.num <= e.num
  }

  ghost predicate Visible(ult: Order, es: seq<MemEntry>, k: Bytes, s: nat) {
    exists e :: e in es && Same(ult, e.key, k) && e.num <= s
  }

  /** The table's order: each entry before the later ones. */
  ghost predicate InOrder(ult: Order, es: seq<MemEntry>) {
    && (forall i :: 0 <= i < |es| ==> WellSized(es[i]))
    && forall i, j :: 0 <= i < j < |es| ==> EntryLess(ult, Encode(es[i]), Encode(es[j]))
  }

  /** Everything before p sorts before the lookup key and nothing from p on does. */
  ghost predicate SeekAt(ult: Order, es: seq<MemEntry>, k: Bytes, s: nat, p: nat) {
    && p <= |es|
    && (forall i :: 0 <= i < p ==> ult(es[i].key, k) || (Same(ult, es[i].key, k) && es[i].num > s))
    && forall i :: p <= i < |es| ==> !ult(es[i].key, k) && !(Same(ult, es[i].key, k) && es[i].num > s)
  }

  lemma {:induction false} OrderOf(ult: Order, a: MemEntry, b: MemEntry)
    requires WellSized(a) && WellSized(b) && EntryLess(ult, Encode(a), Encode(b))
    ensures ult(a.key, b.key) || (Same(ult, a.key, b.key) && a.num >= b.num)
  {
    hide KeyOf, Encode;
    EncodeBack(a);
    EncodeBack(b);
  }

  /** The entry the seek lands on is the newest visible version, if it has the key at all. */
  lemma {:induction false} SeekFinds(ult: Order, es: seq<MemEntry>, k: Bytes, s: nat, p: nat)
    requires WeakOrder(ult) && InOrder(ult, es) && SeekAt(ult, es, k, s, p)
    ensures p < |es| && Same(ult, es[p].key, k) ==> NewestOf(ult, es, k, s, es[p])
    ensures p == |es| || !Same(ult, es[p].key, k) ==> !Visible(ult, es, k, s)
  {
    hide EntryLess, Encode, WellSized;
    forall f | f in es && Same(ult, f.key, k) && f.num <= s
      ensures p < |es| && Same(ult, es[p].key, k) && f.num <= es[p].num
    {
      var j :| 0 <= j < |es| && es[j] == f;
      assert p <= j;
      if p < j {
        assert EntryLess(ult, Encode(es[p]), Encode(es[j]));
        OrderOf(ult, es[p], es[j]);
        SameSame(ult, f.key, k, es[p].key);
      }
    }
  }

  // ------------------------------------------------------------- the table

  datatype GetResult = NotPresent | Deleted | Found(value: Bytes)

  class MemTable {
    const ult: Order
    const less: Order
    const table: List<Bytes>
    /** The entries in table order. */
    ghost var entries: seq<MemEntry>

    constructor (ult: Order)
      requires WeakOrder(ult)
      ensures Valid() && fresh(table) && entries == [] && this.ult == ult
    {
      this.ult := ult;
      var l := (a: Bytes, b: Bytes) => EntryLess(ult, a, b);
      EntryOrder(ult, l);
      less := l;
      table := new List<Bytes>(l);
      entries := [];
    }

    ghost predicate Valid()
      reads this, table
    {
      && WeakOrder(ult) && (forall a, b :: less(a, b) == EntryLess(ult, a, b))
      && table.less == less && table.Valid()
      && Holds(table.Contents())
    }

    ghost predicate Holds(L: seq<Bytes>)
      reads this
    {
      |L| == |entries| && forall i :: 0 <= i < |L| ==> WellSized(entries[i]) && L[i] == Encode(entries[i])
    }

    /** Add under a sequence number not used before; `height` is what the skip list draws. */
    method Add(num: nat, key: Bytes, val: Option<Bytes>, height: nat) returns (ghost p: nat)
      requires Valid() && WellSized(MemEntry(key, num, val)) && 1 <= height <= MAX_HEIGHT
      requires forall f :: f in entries ==> f.num != num
      modifies this, table
      ensures Valid() && p <= |old(entries)|
      ensures entries == old(entries)[..p] + [MemEntry(key, num, val)] + old(entries)[p..]
    {
      hide Encode, EntryLess, WellSized, Prefixed, Fixed64, Splits, JoinedBy, Comparable, WeakOrder, Varint;
      ghost var e := MemEntry(key, num, val);
      var value := if val.Some? then val.value else [];
      var tag := 256 * num + if val.Some? then 1 else 0;
      assert num <= MAX_SEQUENCE && |key| + 8 < 0x1_0000_0000 && |value| < 0x1_0000_0000 by { Sizes(e); }
      var k := EncodeVarint32(|key| + 8);
      var v := EncodeVarint32(|value|);
      var buf := k + key + Fixed64(tag) + v + value;
      EncodeIs(e, k, v);
      NothingEqual(e);
      p := table.Insert(buf, height);
      entries := entries[..p] + [e] + entries[p..];
    }

    lemma {:induction false} Sizes(e: MemEntry)
      requires WellSized(e)
      ensures e.num <= MAX_SEQUENCE && |e.key| + 8 < 0x1_0000_0000 && (e.val.Some? ==> |e.val.value| < 0x1_0000_0000)
    {}

    lemma {:induction false} EncodeIs(e: MemEntry, k: Bytes, v: Bytes)
      requires WellSized(e)
      requires k == Varint(|e.key| + 8) && v == Varint(if e.val.Some? then |e.val.value| else 0)
      ensures Encode(e) == k + e.key + Fixed64(Pack(e.num, e.val.Some?)) + v + (if e.val.Some? then e.val.value else [])
    {
      hide Fixed64, Varint;
      var value := if e.val.Some? then e.val.value else [];
      var ikey := e.key + Fixed64(Pack(e.num, e.val.Some?));
      assert Prefixed(ikey) == k + ikey && Prefixed(value) == v + value;
      assert k + ikey + (v + value) == k + e.key + Fixed64(Pack(e.num, e.val.Some?)) + v + value;
    }

    /** Distinct sequence numbers give the skip list the distinct keys it asks for. */
    lemma {:induction false} NothingEqual(e: MemEntry)
      requires Valid() && WellSized(e) && forall f :: f in entries ==> f.num != e.num
      ensures Comparable(less, table.Contents(), Encode(e))
    {
      hide KeyOf, Encode, List.Valid;
      EncodeBack(e);
      forall k | k in table.Contents() ensures less(k, Encode(e)) || less(Encode(e), k) {
        var i :| 0 <= i < |table.Contents()| && table.Contents()[i] == k;
        EncodeBack(entries[i]);
        assert entries[i] in entries;
      }
    }

    /** Get: seek to the lookup key and look at what is there. */
    method Get(k: Bytes, s: nat, height: nat) returns (r: GetResult)
      requires Valid() && |k| + 8 < 0x1_0000_0000 && s <= MAX_SEQUENCE && 1 <= height <= MAX_HEIGHT
      ensures r == NotPresent <==> !Visible(ult, entries, k, s)
      ensures r != NotPresent ==>
              exists e :: NewestOf(ult, entries, k, s, e) && r == if e.val.Some? then Found(e.val.value) else Deleted
    {
      hide Encode, EntryLess, LookupBytes, WellSized, Splits, SeekAt, WeakOrder, List.Valid, Same;
      var node, prev;
      ghost var at;
      node, prev, at := table.FindGreaterOrEqual(LookupBytes(k, s), height);
      ghost var p := at[0];
      SeekLands(k, s, p);
      SeekFinds(ult, entries, k, s, p);
      SeekRange(k, s, p);
      if node.None? {
        return NotPresent;
      }
      r := ReadEntry(node.value, k, entries[p]);
    }

    /** Check the user key of the entry found and take its value. */
    method ReadEntry(entry: Bytes, k: Bytes, ghost e: MemEntry) returns (r: GetResult)
      requires WellSized(e) && entry == Encode(e)
      ensures r == if !Same(ult, e.key, k) then NotPresent else if e.val.Some? then Found(e.val.value) else Deleted
    {
      hide Encode, GetPrefixed, Split, Fixed64;
      EncodeBack(e);
      SplitBack(e.key, Pack(e.num, e.val.Some?));
      var parts := GetPrefixed(entry).value;
      var ikey := Split(parts.0);
      if !Same(ult, ikey.user, k) {
        return NotPresent;
      }
      if ikey.tag % 256 == 1 {
        r := Found(GetPrefixed(parts.1).value.0);
      } else {
        r := Deleted;
      }
    }

    lemma {:induction false} SeekRange(k: Bytes, s: nat, p: nat)
      requires SeekAt(ult, entries, k, s, p)
      ensures p <= |entries|
    {}

    lemma {:induction false} SeekLands(k: Bytes, s: nat, p: nat)
      requires Valid() && |k| + 8 < 0x1_0000_0000 && s <= MAX_SEQUENCE
      requires Splits(less, table.Contents(), LookupBytes(k, s), p)
      ensures InOrder(ult, entries) && SeekAt(ult, entries, k, s, p)
    {
      hide Encode, EntryLess, LookupBytes, List.Valid;
      assert Ascending(less, table.Contents()) by { TableAscending(); }
      forall i | 0 <= i < |entries|
        ensures EntryLess(ult, Encode(entries[i]), LookupBytes(k, s))
                <==> ult(entries[i].key, k) || (Same(ult, entries[i].key, k) && entries[i].num > s)
      {
        BeforeLookup(ult, entries[i], k, s);
      }
    }

    lemma {:induction false} TableAscending()
      requires Valid()
      ensures Ascending(less, table.Contents())
    {}
  }
}
