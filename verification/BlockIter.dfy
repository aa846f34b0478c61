/** Reading a block: the cursor over its entries, forward, backward and by key. */
module BlockReader {
  import opened Wrappers
  import opened Coding
  import opened Blocks

  /** Restart point j of an array that begins at `restarts`. */
  function Point(data: Bytes, restarts: nat, j: nat): nat
    requires restarts + 4 * j + 4 <= |data|
  {
    DecodeFixed32(data[restarts + 4 * j..])
  }

  /** The restart array's place and length, when the block is large enough for it. */
  function Open(block: Bytes): (r: Option<(nat, nat)>)
    ensures r.Some? ==> r.value.0 + 4 * r.value.1 + 4 == |block|
  {
    if |block| < 8 then None else
      var num := DecodeFixed32(block[|block| - 4..]);
      if 4 * num + 4 > |block| then None else Some((|block| - 4 * num - 4, num))
  }

  lemma {:induction false} TrailerSize(rs: seq<nat>)
    ensures |Trailer(rs)| == 4 * |rs|
  {
    if rs != [] { TrailerSize(rs[..|rs| - 1]); }
  }

  lemma {:induction false} TrailerAt(rs: seq<nat>, j: nat)
    requires j < |rs|
    ensures |Trailer(rs)| == 4 * |rs| && Trailer(rs)[4 * j..4 * j + 4] == Fixed32(rs[j] % 0x1_0000_0000)
  {
    hide Fixed32;
    TrailerSize(rs);
    TrailerSize(rs[..|rs| - 1]);
    if j < |rs| - 1 { TrailerAt(rs[..|rs| - 1], j); }
  }

  ghost function Points(data: Bytes, restarts: nat, num: nat): seq<nat>
    requires restarts + 4 * num <= |data|
  {
    seq(num, j requires 0 <= j < num => Point(data, restarts, j))
  }

  /** A block holds these entries, with a restart point every k. */
  ghost predicate Holds(data: Bytes, restarts: nat, num: nat, es: seq<Pair>, k: nat) {
    && 0 < k && restarts + 4 * num <= |data|
    && data[..restarts] == Data(es, k, |es|)
    && RestartsOf(Points(data, restarts, num), es, k)
    && forall i :: 0 <= i < |es| ==> Fits(es[i])
  }

  lemma {:induction false} TrailerRead(data: Bytes, rs: seq<nat>, last: Bytes, j: nat)
    requires j < |rs| && rs[j] < 0x1_0000_0000
    ensures |Trailer(rs)| == 4 * |rs| && Point(data + Trailer(rs) + last, |data|, j) == rs[j]
  {
    hide Fixed32, Trailer, DecodeFixed32;
    TrailerAt(rs, j);
    var block, at := data + Trailer(rs) + last, |data| + 4 * j;
    var p: U32 := rs[j];
    assert block[at..at + 4] == Trailer(rs)[4 * j..4 * j + 4];
    assert block[at..] == block[at..at + 4] + block[at + 4..];
    Fixed32RoundTrip(p, block[at + 4..]);
  }

  /** What the builder finishes is what the reader opens. */
  lemma {:induction false} FinishedHolds(es: seq<Pair>, k: nat, rs: seq<nat>)
    requires 0 < k && RestartsOf(rs, es, k) && (forall i :: 0 <= i < |es| ==> Fits(es[i]))
    requires |Data(es, k, |es|)| + 4 * |rs| + 4 < 0x1_0000_0000
    ensures
      var block := Data(es, k, |es|) + Trailer(rs) + Fixed32(|rs| % 0x1_0000_0000);
      && Open(block) == Some((|Data(es, k, |es|)|, |rs|))
      && Holds(block, |Data(es, k, |es|)|, |rs|, es, k)
  {
    hide Data, Fixed32, Trailer, DecodeFixed32, Fits, Point;
    var data := Data(es, k, |es|);
    var num: U32 := |rs|;
    var last := Fixed32(num);
    var block := data + Trailer(rs) + last;
    TrailerSize(rs);
    assert block[|block| - 4..] == last + [];
    Fixed32RoundTrip(num, []);
    assert block[..|data|] == data;
    forall j | 0 <= j < |rs| ensures Point(block, |data|, j) == rs[j] {
      assert RestartAt(rs, es, k, j);
      OffsetsAscend(es, k, j * k, |es|);
      TrailerRead(data, rs, last, j);
    }
    assert Points(block, |data|, |rs|) == rs;
  }

  lemma {:induction false} PointIs(data: Bytes, restarts: nat, num: nat, es: seq<Pair>, k: nat, j: nat)
    requires Holds(data, restarts, num, es, k) && j < num
    ensures j * k <= |es| && Point(data, restarts, j) == Offset(es, k, j * k)
  {
    hide Data, Point, Fits;
    assert RestartAt(Points(data, restarts, num), es, k, j);
  }

  /** Comparing a restart point with an entry's offset compares indices. */
  lemma {:induction false} PointBelow(data: Bytes, restarts: nat, num: nat, es: seq<Pair>, k: nat, j: nat, i: nat)
    requires Holds(data, restarts, num, es, k) && j < num && i <= |es|
    ensures j * k <= |es| && (Point(data, restarts, j) < Offset(es, k, i) <==> j * k < i)
  {
    hide Data, Point, Holds;
    PointIs(data, restarts, num, es, k, j);
    if j * k < i { OffsetsAscend(es, k, j * k, i); } else { OffsetsAscend(es, k, i, j * k); }
  }

  /** Keys in strictly increasing order, as the builder demands of its caller. */
  ghost predicate Ascending(es: seq<Pair>, less: (Bytes, Bytes) -> bool) {
    forall i, j :: 0 <= i < j < |es| ==> less(es[i].key, es[j].key)
  }

  /** i is the first entry not below the target, or the end. */
  ghost predicate FirstFrom(es: seq<Pair>, less: (Bytes, Bytes) -> bool, target: Bytes, i: nat) {
    && i <= |es| && (i < |es| ==> !less(es[i].key, target))
    && forall j :: 0 <= j < i ==> less(es[j].key, target)
  }

  lemma {:induction false} BelowTarget(es: seq<Pair>, less: (Bytes, Bytes) -> bool, target: Bytes, i: nat)
    requires Transitive(less) && Ascending(es, less) && i < |es| && less(es[i].key, target)
    ensures forall j :: 0 <= j <= i ==> less(es[j].key, target)
  {
    forall j | 0 <= j <= i ensures less(es[j].key, target) {
      if j < i { assert less(es[j].key, es[i].key); }
    }
  }

  /** Where entry i is and what decoding it there gives. */
  lemma {:induction false} EntryRead(data: Bytes, restarts: nat, num: nat, es: seq<Pair>, k: nat, i: nat, key: Bytes)
    requires Holds(data, restarts, num, es, k) && i <= |es| && (i < |es| ==> Follows(es, k, i, key))
    ensures restarts == Offset(es, k, |es|) && Offset(es, k, i) <= restarts
    ensures i < |es| <==> Offset(es, k, i) < restarts
    ensures i < |es| ==>
              && Offset(es, k, i + 1) <= restarts
              && NextPair(data[Offset(es, k, i)..restarts], key) == Some((es[i], data[Offset(es, k, i + 1)..restarts]))
  {
    hide Data, NextPair, Follows, RestartsOf, Fits;
    OffsetsAscend(es, k, i, |es|);
    if i < |es| {
      DecodedAt(es, k, i, |es|, key);
      assert data[Offset(es, k, i)..restarts] == data[..restarts][Offset(es, k, i)..];
      assert data[Offset(es, k, i + 1)..restarts] == data[..restarts][Offset(es, k, i + 1)..];
    }
  }

  lemma {:induction false} EntryOffset(data: Bytes, restarts: nat, num: nat, es: seq<Pair>, k: nat, i: nat)
    requires Holds(data, restarts, num, es, k) && i <= |es|
    ensures restarts == Offset(es, k, |es|) <= |data| && Offset(es, k, i) <= restarts
    ensures i < |es| <==> Offset(es, k, i) < restarts
  {
    hide Data, RestartsOf, Fits;
    OffsetsAscend(es, k, i, |es|);
  }

  lemma {:induction false} OffsetsCompare(es: seq<Pair>, k: nat, i: nat, j: nat)
    requires i <= |es| && j <= |es|
    ensures Offset(es, k, i) < Offset(es, k, j) <==> i < j
  {
    hide Data;
    if i <= j { OffsetsAscend(es, k, i, j); } else { OffsetsAscend(es, k, j, i); }
  }

  lemma {:induction false} LastRestart(data: Bytes, restarts: nat, num: nat, es: seq<Pair>, k: nat)
    requires Holds(data, restarts, num, es, k)
    ensures 0 < num && if es == [] then num == 1 else (num - 1) * k < |es|
  {
    hide Data, Fits, Point, RestartAt;
  }

  /** A restart point's entry decodes on its own. */
  lemma {:induction false} RestartRead(data: Bytes, restarts: nat, num: nat, es: seq<Pair>, k: nat, j: nat)
    requires Holds(data, restarts, num, es, k) && 0 < j < num
    ensures j * k < |es|
    ensures Point(data, restarts, j) < restarts
    ensures
      var r := NextPair(data[Point(data, restarts, j)..restarts], []);
      r.Some? && r.value.0 == es[j * k]
  {
    hide Data, NextPair, Follows, Holds, Point;
    LastRestart(data, restarts, num, es, k);
    MulAtMost(j, num - 1, k);
    PointIs(data, restarts, num, es, k, j);
    assert AtRestart(j * k, k);
    FollowsKey(es, k, j * k);
    EntryRead(data, restarts, num, es, k, j * k, []);
  }

  lemma {:induction false} SliceOfSlice(s: Bytes, a: nat, b: nat, i: nat, j: nat)
    requires a <= b <= |s| && i <= j <= b - a
    ensures s[a..b][i..j] == s[a + i..a + j]
  {
    var t, u := s[a..b][i..j], s[a + i..a + j];
    assert |t| == |u| && forall x :: 0 <= x < |t| ==> t[x] == u[x];
  }

  class BlockIter {
    const data: Bytes
    const restarts: nat
    const num: nat
    const less: (Bytes, Bytes) -> bool
    var current: nat
    var restartIndex: nat
    var key: Bytes
    var valueAt: nat
    var valueSize: nat
    var corrupt: bool

    ghost predicate Shape() {
      0 < num && restarts + 4 * num <= |data|
    }

    constructor (data: Bytes, restarts: nat, num: nat, less: (Bytes, Bytes) -> bool)
      requires 0 < num && restarts + 4 * num <= |data|
      ensures this.data == data && this.restarts == restarts && this.num == num && this.less == less
      ensures Shape() && current == restarts && !corrupt
    {
      this.data, this.restarts, this.num, this.less := data, restarts, num, less;
      current, restartIndex, key, valueAt, valueSize, corrupt := restarts, num, [], 0, 0, false;
    }

    function NextEntryOffset(): nat
      reads this
    {
      valueAt + valueSize
    }

    /** Any block: the entry after the current one, or the end, or corruption. */
    method ParseNextKey() returns (ok: bool)
      requires Shape() && restartIndex < num
      modifies this
      ensures Shape()
      ensures ok <==>
              old(NextEntryOffset()) < restarts && NextPair(data[old(NextEntryOffset())..restarts], old(key)).Some?
      ensures ok ==>
                var r := NextPair(data[old(NextEntryOffset())..restarts], old(key)).value;
                && current == old(NextEntryOffset()) < NextEntryOffset() <= restarts && key == r.0.key
                && data[valueAt..NextEntryOffset()] == r.0.val
                && NextEntryOffset() == restarts - |r.1|
                && old(restartIndex) <= restartIndex < num
                && (restartIndex > old(restartIndex) ==> Point(data, restarts, restartIndex) < current)
                && (restartIndex + 1 < num ==> Point(data, restarts, restartIndex + 1) >= current)
      ensures !ok ==> current == restarts && restartIndex == num
      ensures corrupt == (old(corrupt) || (!ok && old(NextEntryOffset()) < restarts))
    {
      hide DecodeEntry, Point;
      var p := NextEntryOffset();
      current := p;
      if p >= restarts {
        current, restartIndex := restarts, num;
        return false;
      }
      var h := DecodeEntry(data[p..restarts]);
      if h.None? || |key| < h.value.shared {
        CorruptionError();
        return false;
      }
      var Header(shared, unshared, size, at) := h.value;
      SliceOfSlice(data, p, restarts, at, at + unshared);
      SliceOfSlice(data, p, restarts, at + unshared, at + unshared + size);
      key := key[..shared] + data[p + at..p + at + unshared];
      valueAt, valueSize := p + at + unshared, size;
      while restartIndex + 1 < num && Point(data, restarts, restartIndex + 1) < current
        invariant old(restartIndex) <= restartIndex < num
        invariant restartIndex > old(restartIndex) ==> Point(data, restarts, restartIndex) < current
        modifies this`restartIndex
      {
        restartIndex := restartIndex + 1;
      }
      return true;
    }

    method CorruptionError()
      modifies this
      ensures current == restarts && restartIndex == num && corrupt && key == [] && valueAt == valueSize == 0
    {
      current, restartIndex, corrupt, key, valueAt, valueSize := restarts, num, true, [], 0, 0;
    }

    // ------------------------------------------- over a block the builder made

    /** About to parse entry i. */
    ghost predicate Before(es: seq<Pair>, k: nat, i: nat)
      reads this
    {
      && Shape() && Holds(data, restarts, num, es, k) && !corrupt
      && i <= |es| && NextEntryOffset() == Offset(es, k, i) && (i < |es| ==> Follows(es, k, i, key))
      && restartIndex < num && restartIndex * k <= i
    }

    /** On entry i. */
    ghost predicate At(es: seq<Pair>, k: nat, i: nat)
      reads this
    {
      && Shape() && Holds(data, restarts, num, es, k) && !corrupt
      && i < |es| && current == Offset(es, k, i) && NextEntryOffset() == Offset(es, k, i + 1) <= restarts
      && key == es[i].key && data[valueAt..NextEntryOffset()] == es[i].val
      && restartIndex < num && restartIndex * k <= i && (restartIndex + 1 < num ==> i <= (restartIndex + 1) * k)
    }

    /** Past the last entry, or before the first. */
    ghost predicate AtEnd(es: seq<Pair>, k: nat)
      reads this
    {
      Shape() && Holds(data, restarts, num, es, k) && !corrupt && current == restarts
    }

    method Parse(ghost es: seq<Pair>, ghost k: nat, ghost i: nat) returns (ok: bool)
      requires Shape() && restartIndex < num
      modifies this
      ensures old(Before(es, k, i)) ==> !corrupt && (ok <==> i < |es|) && if ok then At(es, k, i) else AtEnd(es, k)
      ensures ok ==> restartIndex < num && corrupt == old(corrupt)
      ensures ok ==> old(NextEntryOffset()) < NextEntryOffset() <= restarts
      ensures if ok then current == old(NextEntryOffset()) else current == restarts
    {
      hide Data, NextPair, Follows, Holds, Point;
      ghost var sound := Before(es, k, i);
      if sound { EntryRead(data, restarts, num, es, k, i, key); }
      ok := ParseNextKey();
      if ok && sound {
        PointBelow(data, restarts, num, es, k, restartIndex, i);
        if restartIndex + 1 < num { PointBelow(data, restarts, num, es, k, restartIndex + 1, i); }
      }
    }

    lemma {:induction false} AtBefore(es: seq<Pair>, k: nat, i: nat)
      requires At(es, k, i)
      ensures Before(es, k, i + 1) && Shape() && restartIndex < num
    {
      hide Data, Holds, Follows;
      if i + 1 < |es| { FollowsKey(es, k, i + 1); }
    }

    /** Any block: what Next and Prev find on entry, and leave. */
    ghost predicate Ready()
      reads this
    {
      Shape() && (current < restarts ==> restartIndex < num)
    }

    /** The next entry, or the end after the last; on any block, what follows the
        current entry or nothing. */
    method Next(ghost es: seq<Pair>, ghost k: nat, ghost i: nat)
      requires Ready() && current < restarts
      modifies this
      ensures Ready() && (current >= restarts || current == old(NextEntryOffset()))
      ensures old(At(es, k, i)) ==> if i + 1 < |es| then At(es, k, i + 1) else AtEnd(es, k)
    {
      hide At, AtEnd, Before;
      if At(es, k, i) { AtBefore(es, k, i); }
      var ok := Parse(es, k, i + 1);
    }

    /** Ready to parse the entry at restart point j. */
    method SeekToRestartPoint(j: nat, ghost es: seq<Pair>, ghost k: nat)
      requires Shape() && j < num
      modifies this
      ensures Holds(data, restarts, num, es, k) && !old(corrupt) ==> j * k <= |es| && Before(es, k, j * k)
      ensures restartIndex == j && corrupt == old(corrupt) && NextEntryOffset() == Point(data, restarts, j)
    {
      hide Data, Point, Holds, Follows;
      key, restartIndex := [], j;
      valueAt, valueSize := Point(data, restarts, j), 0;
      if Holds(data, restarts, num, es, k) {
        PointIs(data, restarts, num, es, k, j);
        EntryOffset(data, restarts, num, es, k, j * k);
        if j * k < |es| {
          assert AtRestart(j * k, k);
          FollowsKey(es, k, j * k);
        }
      }
    }

    method SeekToFirst(ghost es: seq<Pair>, ghost k: nat)
      requires Shape()
      modifies this
      ensures Ready()
      ensures Holds(data, restarts, num, es, k) && !old(corrupt) ==> if es == [] then AtEnd(es, k) else At(es, k, 0)
    {
      hide At, AtEnd, Before, Holds;
      SeekToRestartPoint(0, es, k);
      var ok := Parse(es, k, 0);
    }

    /** On the last entry, reached from the last restart point. */
    method SeekToLast(ghost es: seq<Pair>, ghost k: nat)
      requires Shape()
      modifies this
      ensures Ready()
      ensures Holds(data, restarts, num, es, k) && !old(corrupt) ==>
              if es == [] then AtEnd(es, k) else At(es, k, |es| - 1)
    {
      hide At, AtEnd, Before, Holds, Data;
      ghost var sound := Holds(data, restarts, num, es, k) && !corrupt;
      SeekToRestartPoint(num - 1, es, k);
      ghost var i: nat := (num - 1) * k;
      var ok := Parse(es, k, i);
      if sound { LastRestart(data, restarts, num, es, k); }
      if sound && ok { LastIffEnd(es, k, i); }
      while ok && NextEntryOffset() < restarts
        invariant Ready() && (ok ==> restartIndex < num && NextEntryOffset() <= restarts)
        invariant sound ==> ok == (es != []) && (if ok then At(es, k, i) else AtEnd(es, k))
        invariant sound && ok ==> i < |es| && (NextEntryOffset() < restarts <==> i + 1 < |es|)
        decreases if ok then restarts + 1 - NextEntryOffset() else 0
      {
        if sound { AtBefore(es, k, i); }
        i := i + 1;
        ok := Parse(es, k, i);
        if sound && ok { LastIffEnd(es, k, i); }
      }
    }

    lemma {:induction false} LastIffEnd(es: seq<Pair>, k: nat, i: nat)
      requires At(es, k, i)
      ensures i < |es| && (NextEntryOffset() < restarts <==> i + 1 < |es|)
    {
      hide Holds, Data;
      EntryOffset(data, restarts, num, es, k, i + 1);
    }

    lemma {:induction false} AtFacts(es: seq<Pair>, k: nat, i: nat)
      requires At(es, k, i)
      ensures Holds(data, restarts, num, es, k) && !corrupt && i < |es| && current == Offset(es, k, i)
    {}

    lemma {:induction false} EndFacts(es: seq<Pair>, k: nat)
      requires Shape() && Holds(data, restarts, num, es, k) && !corrupt && current == restarts
      ensures AtEnd(es, k)
    {}

    lemma {:induction false} StopsBefore(es: seq<Pair>, k: nat, j: nat, i: nat)
      requires At(es, k, j) && i <= |es|
      ensures j < |es| && (NextEntryOffset() < Offset(es, k, i) <==> j + 1 < i)
    {
      hide Holds, Data;
      OffsetsCompare(es, k, j + 1, i);
    }

    /** The last restart point before an offset, from the current one down. */
    method BackUp(original: nat) returns (found: bool)
      requires Shape() && restartIndex < num
      modifies this`restartIndex
      ensures restartIndex < num
      ensures if found then Point(data, restarts, restartIndex) < original
              else restartIndex == 0 && Point(data, restarts, 0) >= original
    {
      while Point(data, restarts, restartIndex) >= original
        invariant restartIndex < num
        decreases restartIndex
      {
        if restartIndex == 0 {
          return false;
        }
        restartIndex := restartIndex - 1;
      }
      return true;
    }

    /** The entry before, found again from the restart point below it. */
    method Prev(ghost es: seq<Pair>, ghost k: nat, ghost i: nat)
      requires Ready() && current < restarts
      modifies this
      ensures Ready() && (current == restarts || current < old(current))
      ensures old(At(es, k, i)) ==> if i == 0 then AtEnd(es, k) else At(es, k, i - 1)
    {
      hide Before, Holds, Data, Point, At, AtEnd;
      var original := current;
      ghost var sound := At(es, k, i);
      if sound { AtFacts(es, k, i); }
      var found := BackUp(original);
      if sound { PointBelow(data, restarts, num, es, k, restartIndex, i); }
      if !found {
        current, restartIndex := restarts, num;
        assert sound ==> AtEnd(es, k) by { if sound { EndFacts(es, k); } }
        return;
      }
      ghost var j: nat := restartIndex * k;
      SeekToRestartPoint(restartIndex, es, k);
      var ok := Parse(es, k, j);
      if sound { StopsBefore(es, k, j, i); }
      while ok && NextEntryOffset() < original
        invariant Ready() && (ok ==> restartIndex < num && NextEntryOffset() <= restarts && current < original)
        invariant !ok ==> current == restarts
        invariant sound ==> ok && j < i && At(es, k, j) && (NextEntryOffset() < original <==> j + 1 < i)
        decreases if ok then restarts + 1 - NextEntryOffset() else 0
      {
        if sound { AtBefore(es, k, j); }
        j := j + 1;
        ok := Parse(es, k, j);
        if sound { StopsBefore(es, k, j, i); }
      }
    }

    /** Any block: the whole key stored at restart point j, if it decodes as one. */
    method RestartKey(j: nat) returns (r: Option<Bytes>)
      requires Shape() && j < num
      ensures
        var p := Point(data, restarts, j);
        && (r.Some? ==> p < restarts && NextPair(data[p..restarts], []).Some?)
        && (r.Some? ==> r.value == NextPair(data[p..restarts], []).value.0.key)
        && (r.None? ==> p >= restarts || NextPair(data[p..restarts], []).None?)
    {
      hide Point, DecodeEntry;
      var p := Point(data, restarts, j);
      if p >= restarts { return None; }
      var h := DecodeEntry(data[p..restarts]);
      if h.None? || h.value.shared != 0 { return None; }
      SliceOfSlice(data, p, restarts, h.value.at, h.value.at + h.value.unshared);
      var unshared := data[p + h.value.at..p + h.value.at + h.value.unshared];
      assert [] + unshared == unshared;
      return Some(unshared);
    }

    /** Any block ends sound or corrupt; one the builder made ends on the first
        entry not below the target. */
    method Seek(target: Bytes, ghost es: seq<Pair>, ghost k: nat)
      requires Shape() && !corrupt
      modifies this
      ensures Sorted(es, k) ==>
                exists i: nat :: FirstFrom(es, less, target, i) && if i < |es| then At(es, k, i) else AtEnd(es, k)
      ensures corrupt ==> !Sorted(es, k)
    {
      hide Before, At, AtEnd, Holds, Data, Point, NextPair, Transitive, Ascending, Follows;
      var left: nat, right: nat := 0, num - 1;
      while left < right
        invariant left <= right < num && unchanged(this)
        invariant Sorted(es, k) && left > 0 ==> left * k < |es| && less(es[left * k].key, target)
      {
        var mid := (left + right + 1) / 2;
        if Sorted(es, k) { RestartRead(data, restarts, num, es, k, mid); }
        var midKey := RestartKey(mid);
        if midKey.None? {
          CorruptionError();
          return;
        }
        if less(midKey.value, target) { left := mid; } else { right := mid - 1; }
      }
      SeekToRestartPoint(left, es, k);
      ghost var i: nat := left * k;
      if Sorted(es, k) && left > 0 { BelowTarget(es, less, target, i); }
      while true
        invariant restartIndex < num && !corrupt
        invariant Sorted(es, k) ==> Before(es, k, i) && i <= |es| && forall j :: 0 <= j < i ==> less(es[j].key, target)
        decreases restarts - NextEntryOffset()
      {
        var ok := Parse(es, k, i);
        if ok && Sorted(es, k) { OnEntry(es, k, i); }
        if !ok || !less(key, target) {
          assert Sorted(es, k) ==> FirstFrom(es, less, target, i);
          return;
        }
        i := i + 1;
      }
    }

    ghost predicate Sorted(es: seq<Pair>, k: nat) {
      Holds(data, restarts, num, es, k) && Transitive(less) && Ascending(es, less)
    }

    lemma {:induction false} OnEntry(es: seq<Pair>, k: nat, i: nat)
      requires At(es, k, i)
      ensures i < |es| && key == es[i].key && Before(es, k, i + 1)
    {
      hide Before;
      AtBefore(es, k, i);
    }
  }
}
