/** Table blocks: prefix-compressed entries with restart points, as the builder
    writes them and as entries are decoded. */
module Blocks {
  import opened Wrappers
  import opened Coding

  type Bytes = seq<Byte>

  datatype Pair = Pair(key: Bytes, val: Bytes)

  // ------------------------------------------------------------ the format

  /** One entry; the first `shared` bytes of the key are those of the key before. */
  function EntryBytes(shared: nat, p: Pair): Bytes
    requires shared <= |p.key|
  {
    Varint(shared) + Varint(|p.key| - shared) + Varint(|p.val|) + p.key[shared..] + p.val
  }

  /** The length of the longest common prefix. */
  function Common(a: Bytes, b: Bytes): (n: nat)
    ensures n <= |a| && n <= |b| && a[..n] == b[..n]
    ensures n < |a| && n < |b| ==> a[n] != b[n]
  {
    if a == [] || b == [] || a[0] != b[0] then 0 else
      var n := Common(a[1..], b[1..]);
      assert a[..n + 1] == [a[0]] + a[1..][..n] && b[..n + 1] == [b[0]] + b[1..][..n];
      n + 1
  }

  /** Every k-th entry, from the first, is stored whole. */
  ghost predicate AtRestart(i: nat, k: nat) { exists j: nat :: i == j * k }

  ghost function SharedAt(es: seq<Pair>, k: nat, i: nat): (n: nat)
    requires i < |es|
    ensures n <= |es[i].key|
  {
    if AtRestart(i, k) || i == 0 then 0 else Common(es[i - 1].key, es[i].key)
  }

  /** The first i entries. */
  ghost function Data(es: seq<Pair>, k: nat, i: nat): Bytes
    requires i <= |es|
  {
    if i == 0 then [] else Data(es, k, i - 1) + EntryBytes(SharedAt(es, k, i - 1), es[i - 1])
  }

  ghost function Offset(es: seq<Pair>, k: nat, i: nat): nat
    requires i <= |es|
  {
    |Data(es, k, i)|
  }

  /** The offsets of entries 0, k, 2k, ... and of no other. */
  ghost predicate RestartsOf(rs: seq<nat>, es: seq<Pair>, k: nat) {
    && 0 < |rs| && (|rs| - 1) * k <= |es| <= |rs| * k && (es == [] ==> |rs| == 1)
    && (es != [] ==> (|rs| - 1) * k < |es|)
    && forall j :: 0 <= j < |rs| ==> RestartAt(rs, es, k, j)
  }

  ghost predicate RestartAt(rs: seq<nat>, es: seq<Pair>, k: nat, j: nat) {
    j < |rs| && j * k <= |es| && rs[j] == Offset(es, k, j * k)
  }

  function Trailer(rs: seq<nat>): Bytes {
    if rs == [] then [] else Trailer(rs[..|rs| - 1]) + Fixed32(rs[|rs| - 1] % 0x1_0000_0000)
  }

  // ------------------------------------------------------- decoding an entry

  /** The three lengths at the front and where the key bytes begin. */
  datatype Header = Header(shared: U32, unshared: U32, size: U32, at: nat)

  /** The three varints one after the other. */
  function ReadLengths(bs: Bytes): (h: Option<Header>)
    ensures h.Some? ==> h.value.at <= |bs|
  {
    var a := GetVarint32(bs);
    if a.None? then None else
      var b := GetVarint32(a.value.1);
      if b.None? then None else
        var c := GetVarint32(b.value.1);
        if c.None? then None else Some(Header(a.value.0, b.value.0, c.value.0, |bs| - |c.value.1|))
  }

  /** DecodeEntry, with its shortcut for three lengths of one byte each. */
  function DecodeEntry(bs: Bytes): (h: Option<Header>)
    ensures h.Some? ==> h.value.at + h.value.unshared + h.value.size <= |bs|
  {
    if |bs| < 3 then None else
      var short := bs[0] < 128 && bs[1] < 128 && bs[2] < 128;
      var h := if short then Some(Header(bs[0], bs[1], bs[2], 3)) else ReadLengths(bs);
      if h.None? || |bs| - h.value.at < h.value.unshared + h.value.size then None else h
  }

  /** The shortcut changes nothing. */
  lemma {:induction false} ShortcutSame(bs: Bytes)
    requires |bs| >= 3
    ensures DecodeEntry(bs) ==
            var h := ReadLengths(bs);
            if h.None? || |bs| - h.value.at < h.value.unshared + h.value.size then None else h
  {
    if bs[0] < 128 && bs[1] < 128 && bs[2] < 128 {
      assert GetVarint32(bs) == Some((bs[0], bs[1..]));
      assert GetVarint32(bs[1..]) == Some((bs[1], bs[2..])) by { assert bs[1..][1..] == bs[2..]; }
      assert GetVarint32(bs[2..]) == Some((bs[2], bs[3..])) by { assert bs[2..][1..] == bs[3..]; }
    }
  }

  /** The pair at the front, given the key before it, and what follows. */
  function NextPair(bs: Bytes, key: Bytes): (r: Option<(Pair, Bytes)>)
    ensures r.Some? ==> |r.value.1| < |bs|
  {
    var h := DecodeEntry(bs);
    if h.None? || |key| < h.value.shared then None
    else
      var Header(shared, unshared, size, at) := h.value;
      HeaderAdvances(bs);
      Some((Pair(key[..shared] + bs[at..at + unshared], bs[at + unshared..at + unshared + size]),
          bs[at + unshared + size..]))
  }

  lemma {:induction false} HeaderAdvances(bs: Bytes)
    ensures DecodeEntry(bs).Some? ==> DecodeEntry(bs).value.at > 0
  {}

  ghost predicate Fits(p: Pair) { |p.key| < 0x1_0000_0000 && |p.val| < 0x1_0000_0000 }

  /** An entry is read back, whatever follows it. */
  lemma {:induction false} EntryBack(shared: nat, p: Pair, rest: Bytes)
    requires shared <= |p.key| && Fits(p)
    ensures
      var bs := EntryBytes(shared, p) + rest;
      var h := DecodeEntry(bs);
      && h.Some? && h.value.shared == shared && h.value.unshared == |p.key| - shared && h.value.size == |p.val|
      && bs[h.value.at..h.value.at + h.value.unshared] == p.key[shared..]
      && bs[h.value.at + h.value.unshared..h.value.at + h.value.unshared + h.value.size] == p.val
      && h.value.at + h.value.unshared + h.value.size == |EntryBytes(shared, p)|
  {
    hide DecodeEntry, GetVarint32, Varint;
    var bs := EntryBytes(shared, p) + rest;
    var a: U32, b: U32, c: U32 := shared, |p.key| - shared, |p.val|;
    var body := p.key[shared..] + p.val + rest;
    assert bs == Varint(a) + (Varint(b) + (Varint(c) + body));
    GetVarint32Back(a, Varint(b) + (Varint(c) + body));
    GetVarint32Back(b, Varint(c) + body);
    GetVarint32Back(c, body);
    ShortcutSame(bs);
    assert bs[|bs| - |body|..] == body;
    assert body[..b] == p.key[shared..] && body[b..b + c] == p.val;
  }

  lemma {:induction false} PairBack(shared: nat, p: Pair, rest: Bytes, key: Bytes)
    requires shared <= |p.key| && Fits(p) && shared <= |key| && key[..shared] == p.key[..shared]
    ensures NextPair(EntryBytes(shared, p) + rest, key) == Some((p, rest))
  {
    hide DecodeEntry, EntryBytes;
    EntryBack(shared, p, rest);
    assert p.key == p.key[..shared] + p.key[shared..];
    assert (EntryBytes(shared, p) + rest)[|EntryBytes(shared, p)|..] == rest;
  }

  /** All pairs of a run of entries. */
  function Scan(bs: Bytes, key: Bytes): Option<seq<Pair>>
    decreases |bs|
  {
    if bs == [] then Some([]) else
      var r := NextPair(bs, key);
      if r.None? then None else
        var tail := Scan(r.value.1, r.value.0.key);
        if tail.None? then None else Some([r.value.0] + tail.value)
  }

  // ------------------------------------------------- entries inside the block

  /** Entry i lies at its offset, which a later entry does not move. */
  lemma {:induction false} EntryLies(es: seq<Pair>, k: nat, i: nat, n: nat)
    requires i < n <= |es|
    ensures Offset(es, k, i) < Offset(es, k, i + 1) <= Offset(es, k, n)
    ensures Offset(es, k, i + 1) == Offset(es, k, i) + |EntryBytes(SharedAt(es, k, i), es[i])|
    ensures Data(es, k, n)[Offset(es, k, i)..Offset(es, k, i + 1)] == EntryBytes(SharedAt(es, k, i), es[i])
    decreases n
  {
    hide EntryBytes, SharedAt;
    EntryNonempty(SharedAt(es, k, i), es[i]);
    if i + 1 < n {
      EntryLies(es, k, i, n - 1);
    }
  }

  lemma {:induction false} EntryNonempty(shared: nat, p: Pair)
    requires shared <= |p.key|
    ensures |EntryBytes(shared, p)| > 0
  {}

  lemma {:induction false} OffsetsAscend(es: seq<Pair>, k: nat, i: nat, j: nat)
    requires i <= j <= |es|
    ensures Offset(es, k, i) <= Offset(es, k, j) && (i < j ==> Offset(es, k, i) < Offset(es, k, j))
  {
    hide Data;
    if i < j { EntryLies(es, k, i, j); }
  }

  /** A key that entry i may be decoded after. */
  ghost predicate Follows(es: seq<Pair>, k: nat, i: nat, key: Bytes) {
    i < |es| && SharedAt(es, k, i) <= |key| && key[..SharedAt(es, k, i)] == es[i].key[..SharedAt(es, k, i)]
  }

  lemma {:induction false} FollowsKey(es: seq<Pair>, k: nat, i: nat)
    requires i < |es|
    ensures i > 0 ==> Follows(es, k, i, es[i - 1].key)
    ensures i == 0 || AtRestart(i, k) ==> forall key :: Follows(es, k, i, key)
  {
    hide AtRestart;
  }

  /** Entry i is decoded at its offset, up to any later end. */
  lemma {:induction false} DecodedAt(es: seq<Pair>, k: nat, i: nat, n: nat, key: Bytes)
    requires i < n <= |es| && Fits(es[i]) && Follows(es, k, i, key)
    ensures Offset(es, k, i) < Offset(es, k, i + 1) <= Offset(es, k, n)
    ensures NextPair(Data(es, k, n)[Offset(es, k, i)..], key) == Some((es[i], Data(es, k, n)[Offset(es, k, i + 1)..]))
  {
    hide Data, EntryBytes, NextPair, SharedAt;
    EntryLies(es, k, i, n);
    var data, a, b := Data(es, k, n), Offset(es, k, i), Offset(es, k, i + 1);
    assert data[a..] == data[a..b] + data[b..];
    PairBack(SharedAt(es, k, i), es[i], data[b..], key);
  }

  lemma {:induction false} RestartIff(i: nat, k: nat)
    requires k > 0
    ensures AtRestart(i, k) <==> i % k == 0
  {
    var q := i / k;
    assert i == q * k + i % k;
    if i % k != 0 { BetweenRestarts(q, k, i); }
  }

  /** How entry i is stored: three varints, then the rest of the key, then the value.
      The first varint counts the bytes the key has in common with the key before
      it, all of them, except that every k-th entry is stored whole. */
  lemma {:induction false} EntryFormat(es: seq<Pair>, k: nat, i: nat)
    requires 0 < k && i < |es| && Fits(es[i])
    ensures Offset(es, k, i) <= |Data(es, k, |es|)|
    ensures
      var bs, key := Data(es, k, |es|)[Offset(es, k, i)..], es[i].key;
      exists shared: U32, b: Bytes, c: Bytes, body: Bytes ::
        && GetVarint32(bs) == Some((shared, b)) && shared <= |key|
        && GetVarint32(b) == Some((|key| - shared, c)) && GetVarint32(c) == Some((|es[i].val|, body))
        && key[shared..] + es[i].val <= body
        && (i % k == 0 ==> shared == 0)
        && (i % k != 0 ==> Shares(es[i - 1].key, key, shared))
  {
    hide Data, GetVarint32, EntryBytes, AtRestart, Fits, Shares;
    EntryLies(es, k, i, |es|);
    var data, at, end := Data(es, k, |es|), Offset(es, k, i), Offset(es, k, i + 1);
    var shared, p := SharedAt(es, k, i), es[i];
    assert data[at..] == data[at..end] + data[end..];
    assert shared < 0x1_0000_0000 by { FitsSizes(p); }
    ThreeVarints(shared, p, data[end..]);
    RestartIff(i, k);
    if i % k != 0 {
      assert i != 0;
      CommonShares(es[i - 1].key, p.key);
    }
  }

  /** n is the length of the longest common prefix. */
  ghost predicate Shares(a: Bytes, b: Bytes, n: nat) {
    n <= |a| && n <= |b| && a[..n] == b[..n] && (n < |a| && n < |b| ==> a[n] != b[n])
  }

  lemma {:induction false} CommonShares(a: Bytes, b: Bytes)
    ensures Shares(a, b, Common(a, b))
  {}

  lemma {:induction false} FitsSizes(p: Pair)
    requires Fits(p)
    ensures |p.key| < 0x1_0000_0000 && |p.val| < 0x1_0000_0000
  {}

  lemma {:induction false} ThreeVarints(shared: U32, p: Pair, rest: Bytes)
    requires shared <= |p.key| && Fits(p)
    ensures
      var bs, body := EntryBytes(shared, p) + rest, p.key[shared..] + p.val + rest;
      exists b: Bytes, c: Bytes ::
        && GetVarint32(bs) == Some((shared, b)) && GetVarint32(b) == Some((|p.key| - shared, c))
        && GetVarint32(c) == Some((|p.val|, body)) && p.key[shared..] + p.val <= body
  {
    hide GetVarint32, Varint;
    var bs := EntryBytes(shared, p) + rest;
    var b: U32, c: U32 := |p.key| - shared, |p.val|;
    var body := p.key[shared..] + p.val + rest;
    assert bs == Varint(shared) + (Varint(b) + (Varint(c) + body));
    GetVarint32Back(shared, Varint(b) + (Varint(c) + body));
    GetVarint32Back(b, Varint(c) + body);
    GetVarint32Back(c, body);
  }

  /** Decoding the buffer by the entry format gives back every pair. */
  lemma {:induction false} ScanBack(es: seq<Pair>, k: nat, i: nat, key: Bytes)
    requires i <= |es| && (forall j :: 0 <= j < |es| ==> Fits(es[j])) && (i < |es| ==> Follows(es, k, i, key))
    ensures Offset(es, k, i) <= Offset(es, k, |es|)
    ensures Scan(Data(es, k, |es|)[Offset(es, k, i)..], key) == Some(es[i..])
    decreases |es| - i
  {
    hide Data, NextPair, Follows;
    OffsetsAscend(es, k, i, |es|);
    if i < |es| {
      DecodedAt(es, k, i, |es|, key);
      if i + 1 < |es| { FollowsKey(es, k, i + 1); }
      ScanBack(es, k, i + 1, es[i].key);
      assert es[i..] == [es[i]] + es[i + 1..];
    } else {
      assert Data(es, k, |es|)[Offset(es, k, i)..] == [] && es[i..] == [];
    }
  }

  // ------------------------------------------------------------- one more entry

  lemma {:induction false} DataGrows(es: seq<Pair>, p: Pair, k: nat, i: nat)
    requires i <= |es|
    ensures Data(es + [p], k, i) == Data(es, k, i)
  {
    hide EntryBytes, AtRestart;
    if i > 0 { DataGrows(es, p, k, i - 1); }
  }

  lemma {:induction false} MulAtMost(a: nat, b: nat, k: nat)
    requires a <= b
    ensures a * k <= b * k
  {
    assert b * k == a * k + (b - a) * k;
  }

  lemma {:induction false} BetweenRestarts(q: nat, k: nat, i: nat)
    requires q * k < i < q * k + k
    ensures !AtRestart(i, k)
  {
    forall j: nat ensures i != j * k {
      if j <= q { MulAtMost(j, q, k); } else { MulAtMost(q + 1, j, k); }
    }
  }

  lemma {:induction false} RestartsGrow(rs: seq<nat>, es: seq<Pair>, p: Pair, k: nat)
    requires k > 0 && RestartsOf(rs, es, k)
    ensures |es| < |rs| * k ==> RestartsOf(rs, es + [p], k)
    ensures |es| == |rs| * k ==> RestartsOf(rs + [Offset(es, k, |es|)], es + [p], k)
  {
    hide Data;
    var fs := es + [p];
    forall j | 0 <= j < |rs| ensures RestartAt(rs, fs, k, j) && RestartAt(rs + [Offset(es, k, |es|)], fs, k, j) {
      assert RestartAt(rs, es, k, j);
      DataGrows(es, p, k, j * k);
    }
    DataGrows(es, p, k, |es|);
    var rs' := rs + [Offset(es, k, |es|)];
    if |es| == |rs| * k {
      assert RestartAt(rs', fs, k, |rs|);
      assert |rs'| * k == |rs| * k + k;
    }
  }

  lemma {:induction false} SharedIs(es: seq<Pair>, k: nat, i: nat, q: nat, c: nat)
    requires i < |es| && i == q * k + c && c < k
    ensures SharedAt(es, k, i) == if c == 0 || i == 0 then 0 else Common(es[i - 1].key, es[i].key)
  {
    if c == 0 { assert AtRestart(i, k); } else { BetweenRestarts(q, k, i); }
  }

  lemma {:induction false} CommonIs(a: Bytes, b: Bytes, n: nat)
    requires n <= |a| && n <= |b| && a[..n] == b[..n] && (n < |a| && n < |b| ==> a[n] != b[n])
    ensures Common(a, b) == n
  {
    if n > 0 {
      assert a[0] == a[..n][0] && b[0] == b[..n][0];
      assert a[1..][..n - 1] == a[..n][1..] && b[1..][..n - 1] == b[..n][1..];
      CommonIs(a[1..], b[1..], n - 1);
    }
  }

  method MatchPrefix(a: Bytes, b: Bytes) returns (shared: nat)
    ensures shared == Common(a, b)
  {
    var least := if |a| < |b| then |a| else |b|;
    shared := 0;
    while shared < least && a[shared] == b[shared]
      invariant shared <= least && a[..shared] == b[..shared]
    {
      shared := shared + 1;
    }
    CommonIs(a, b, shared);
  }

  lemma {:induction false} EntryPieces(buffer: Bytes, shared: nat, p: Pair)
    requires shared <= |p.key|
    ensures buffer + Varint(shared) + Varint(|p.key| - shared) + Varint(|p.val|) + p.key[shared..] + p.val
         == buffer + EntryBytes(shared, p)
  {
    hide Varint;
  }

  /** c entries since the last restart point. */
  ghost predicate Counted(rs: seq<nat>, es: seq<Pair>, k: nat, c: nat) {
    |rs| > 0 && |es| == (|rs| - 1) * k + c
  }

  /** The next entry: where it goes, what it shares, which restart point it is. */
  lemma {:induction false} Grow(rs: seq<nat>, es: seq<Pair>, p: Pair, k: nat, c: nat)
    requires c <= k && k > 0 && RestartsOf(rs, es, k) && Counted(rs, es, k, c)
    ensures
      var fs := es + [p];
      && Data(fs, k, |fs|) == Data(es, k, |es|) + EntryBytes(SharedAt(fs, k, |es|), p)
      && SharedAt(fs, k, |es|) == (if c == k || es == [] then 0 else Common(es[|es| - 1].key, p.key))
      && if c < k then RestartsOf(rs, fs, k) && Counted(rs, fs, k, c + 1)
         else RestartsOf(rs + [|Data(es, k, |es|)|], fs, k) && Counted(rs + [|Data(es, k, |es|)|], fs, k, 1)
  {
    hide EntryBytes, Common, SharedAt, RestartAt;
    var fs := es + [p];
    DataGrows(es, p, k, |es|);
    RestartsGrow(rs, es, p, k);
    assert |rs| * k == (|rs| - 1) * k + k;
    if c < k { SharedIs(fs, k, |es|, |rs| - 1, c); } else { SharedIs(fs, k, |es|, |rs|, 0); }
  }

  /** The builder's bookkeeping after these entries. */
  ghost predicate Made(rs: seq<nat>, c: nat, last: Bytes, es: seq<Pair>, k: nat) {
    && c <= k && RestartsOf(rs, es, k) && Counted(rs, es, k, c)
    && last == (if es == [] then [] else es[|es| - 1].key)
    && forall i :: 0 <= i < |es| ==> Fits(es[i])
  }

  lemma {:induction false} MadeNone(k: nat)
    requires k > 0
    ensures Made([0], 0, [], [], k)
  {
    assert RestartAt([0], [], k, 0);
  }

  lemma {:induction false} MadeGrows(rs: seq<nat>, c: nat, last: Bytes, es: seq<Pair>, p: Pair, k: nat)
    requires k > 0 && Made(rs, c, last, es, k) && Fits(p)
    ensures
      var fs := es + [p];
      && Data(fs, k, |fs|) == Data(es, k, |es|) + EntryBytes(SharedAt(fs, k, |es|), p)
      && SharedAt(fs, k, |es|) == (if c < k then Common(last, p.key) else 0)
      && if c < k then Made(rs, c + 1, p.key, fs, k) else Made(rs + [|Data(es, k, |es|)|], 1, p.key, fs, k)
  {
    hide Data, RestartsOf, Counted, SharedAt, EntryBytes, Fits;
    Grow(rs, es, p, k, c);
  }

  /** Generates a block, one strictly increasing key after the other. */
  class BlockBuilder {
    const interval: nat
    var buffer: Bytes
    var restarts: seq<nat>
    var counter: nat
    var finished: bool
    var lastKey: Bytes
    ghost var added: seq<Pair>

    ghost predicate Valid()
      reads this
    {
      && 0 < interval && Made(restarts, counter, lastKey, added, interval)
      && buffer == if finished then Block() else Data(added, interval, |added|)
    }

    /** The finished block. */
    ghost function Block(): Bytes
      reads this
    {
      Data(added, interval, |added|) + Trailer(restarts) + Fixed32(|restarts| % 0x1_0000_0000)
    }

    constructor (interval: nat)
      requires interval >= 1
      ensures Valid() && !finished && added == [] && this.interval == interval
    {
      this.interval := interval;
      buffer, restarts, counter, finished, lastKey, added := [], [0], 0, false, [], [];
      new;
      MadeNone(interval);
    }

    method Add(key: Bytes, value: Bytes)
      requires Valid() && !finished && Fits(Pair(key, value))
      modifies this
      ensures Valid() && !finished && added == old(added) + [Pair(key, value)]
    {
      hide Data, Common, SharedAt, EntryBytes, Made, Varint, Block, Fits;
      ghost var p := Pair(key, value);
      MadeGrows(restarts, counter, lastKey, added, p, interval);
      var shared := 0;
      if counter < interval {
        shared := MatchPrefix(lastKey, key);
      } else {
        restarts := restarts + [|buffer|];
        counter := 0;
      }
      EntryPieces(buffer, shared, p);
      buffer := buffer + Varint(shared) + Varint(|key| - shared) + Varint(|value|);
      buffer := buffer + key[shared..] + value;
      lastKey := lastKey[..shared] + key[shared..];
      assert lastKey == key;
      counter := counter + 1;
      added := added + [p];
    }

    /** Appends the restart array and its length; the block is then whole. */
    method Finish() returns (block: Bytes)
      requires Valid() && !finished
      modifies this`buffer, this`finished
      ensures Valid() && finished && block == Block()
    {
      hide Data, Made, Fixed32;
      for i := 0 to |restarts|
        invariant buffer == Data(added, interval, |added|) + Trailer(restarts[..i])
      {
        assert restarts[..i + 1][..i] == restarts[..i];
        buffer := buffer + Fixed32(restarts[i] % 0x1_0000_0000);
      }
      assert restarts[..|restarts|] == restarts;
      buffer := buffer + Fixed32(|restarts| % 0x1_0000_0000);
      finished := true;
      return buffer;
    }

    method Reset()
      requires Valid()
      modifies this
      ensures Valid() && !finished && added == []
    {
      hide Made;
      buffer, restarts, counter, finished, lastKey, added := [], [0], 0, false, [], [];
      MadeNone(interval);
    }
  }
}
