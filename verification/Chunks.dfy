/**
 Posting chunks: a list of integer chunks that are delta-compressed when full,
 each into a buffer of four bytes per entry.
 */
module Chunks {
  import opened Wrappers
  import opened Coding
  import opened StreamVByte
  import opened SimdDecode

  /** 2 << 22 entries. */
  const MAX_SIZE: nat := 0x80_0000

  ghost predicate Ascending(xs: seq<U32>) {
    forall i, j :: 0 <= i < j < |xs| ==> xs[i] <= xs[j]
  }

  // ----------------------------------------------------- how big it can get

  function Sum(ds: seq<U32>): nat { if ds == [] then 0 else ds[0] + Sum(ds[1..]) }

  /** The number of deltas that need four bytes. */
  function Wide(ds: seq<U32>): (w: nat)
    ensures w <= |ds|
  {
    if ds == [] then 0 else (if ds[0] >= 0x100_0000 then 1 else 0) + Wide(ds[1..])
  }

  lemma {:induction false} WideAndSum(ds: seq<U32>)
    ensures |DataOf(ds)| <= 3 * |ds| + Wide(ds)
    ensures 0x100_0000 * Wide(ds) <= Sum(ds)
  {
    if ds != [] { WideAndSum(ds[1..]); }
  }

  /** The deltas of ascending values add up to the last value. */
  lemma {:induction false} Telescope(xs: seq<U32>, prev: U32)
    requires Ascending(xs) && xs != [] && prev <= xs[0]
    ensures Sum(Deltas(xs, prev)) == xs[|xs| - 1] - prev
    decreases |xs|
  {
    assert (xs[0] - prev) % WORD == xs[0] - prev;
    if |xs| > 1 { Telescope(xs[1..], xs[0]); } else { assert Deltas(xs[1..], xs[0]) == []; }
  }

  function Bound(n: nat): nat { (n + 3) / 4 + 3 * n + if n < 255 then n else 255 }

  /** At most 255 deltas of an ascending list need four bytes. */
  lemma {:induction false} SizeOfAscending(xs: seq<U32>)
    requires Ascending(xs)
    ensures |Encoded(xs, 0)| <= Bound(|xs|)
  {
    var ds := Deltas(xs, 0);
    WideAndSum(ds);
    if xs != [] { Telescope(xs, 0); }
  }

  /** An ascending list that needs all of the bound: 255 steps of 2^24, then steps of 2^16. */
  function WorstAt(i: nat): nat {
    if i < 255 then 0x100_0000 * (i + 1) else 0xff00_0000 + 0x1_0000 * (i - 254)
  }

  function Worst(n: nat): (xs: seq<U32>)
    requires n < 340
    ensures |xs| == n
  {
    seq(n, i requires 0 <= i < n => WorstAt(i))
  }

  lemma {:induction false} WorstPrefix(n: nat, c: nat)
    requires c <= n < 340
    ensures |DataOf(Deltas(Worst(n), 0)[..c])| == 3 * c + if c < 255 then c else 255
    decreases c
  {
    hide DataOf, Bytes;
    var xs := Worst(n);
    var ds := Deltas(xs, 0);
    if c == 0 {
      EmptyData();
      assert ds[..0] == [];
    } else {
      WorstPrefix(n, c - 1);
      DeltaAt(xs, 0, c - 1);
      DataOfSnoc(ds, c - 1);
      var step := if c <= 255 then 0x100_0000 else 0x1_0000;
      assert xs[c - 1] - (if c == 1 then 0 else xs[c - 2]) == step;
      assert ds[c - 1] == step;
      StepBytes(step);
    }
  }

  lemma {:induction false} EmptyData()
    ensures DataOf([]) == []
  {}

  lemma {:induction false} StepBytes(step: U32)
    requires step == 0x100_0000 || step == 0x1_0000
    ensures |Bytes(step)| == if step == 0x100_0000 then 4 else 3
  {}

  lemma {:induction false} WorstSize(n: nat)
    requires n < 340
    ensures Ascending(Worst(n)) && |Encoded(Worst(n), 0)| == Bound(n)
  {
    hide DataOf;
    WorstPrefix(n, n);
    var ds := Deltas(Worst(n), 0);
    assert ds[..n] == ds;
  }

  /** Four bytes per entry are enough for every ascending chunk of n entries
      exactly when n is zero or at least 340. */
  lemma {:induction false} BufferEnoughIff(n: nat)
    ensures (forall xs: seq<U32> :: |xs| == n && Ascending(xs) ==> |Encoded(xs, 0)| <= 4 * n) <==> n == 0 || n >= 340
  {
    hide Encoded;
    forall xs: seq<U32> | |xs| == n && Ascending(xs) && (n == 0 || n >= 340) ensures |Encoded(xs, 0)| <= 4 * n {
      SizeOfAscending(xs);
    }
    if 0 < n < 340 {
      WorstSize(n);
    }
  }

  // ------------------------------------------------------------ the chunks

  /** A chunk before chunk_compress, after it, and after chunk_decompress, which
      leaves the compressed flag, the size and the byte count as they were.
      `cbuff` is the whole allocation. */
  datatype Chunk =
    | Raw(buffer: seq<U32>, capacity: nat)
    | Packed(cbuff: seq<Byte>, capacity: nat, size: nat, bcount: nat)
    | Restored(buffer: seq<U32>, capacity: nat, size: nat, bcount: nat)

  function Pow2(k: nat): nat { if k == 0 then 1 else 2 * Pow2(k - 1) }

  /** Capacities the doubling produces: 0, 4, 8, ..., MAX_SIZE. */
  ghost predicate CapacityOk(c: nat) {
    c == 0 || exists k: nat :: k <= 21 && c == 4 * Pow2(k)
  }

  lemma {:induction false} Doubling(c: nat)
    requires CapacityOk(c) && c < MAX_SIZE
    ensures CapacityOk(if c == 0 then 4 else 2 * c) && (if c == 0 then 4 else 2 * c) <= MAX_SIZE
  {
    if c == 0 {
      assert 4 == 4 * Pow2(0);
    } else {
      var k: nat :| k <= 21 && c == 4 * Pow2(k);
      Pow2At21();
      assert k < 21;
      assert 2 * c == 4 * Pow2(k + 1);
      Pow2Monotone(k + 1, 21);
    }
  }

  lemma {:induction false} Pow2At21()
    ensures Pow2(21) == 0x20_0000
  {
    assert Pow2(4) == 16;
    assert Pow2(8) == 256;
    assert Pow2(12) == 4096;
    assert Pow2(16) == 0x1_0000;
    assert Pow2(20) == 0x10_0000;
  }

  lemma {:induction false} Pow2Monotone(a: nat, b: nat)
    requires a <= b
    ensures Pow2(a) <= Pow2(b)
    decreases b
  {
    if a < b { Pow2Monotone(a, b - 1); }
  }

  class ChunkList {
    var chunks: seq<Chunk>
    /** The entries of each chunk. */
    ghost var parts: seq<seq<U32>>

    constructor ()
      ensures Valid() && Contents() == []
    {
      chunks, parts := [], [];
    }

    ghost function Contents(): seq<U32>
      reads this
    {
      Flatten(parts)
    }

    static ghost predicate PackedOk(c: Chunk, part: seq<U32>) {
      && c.Packed? && c.size == |part| && |c.cbuff| == 4 * c.size
      && c.bcount == |Encoded(part, 0)| <= |c.cbuff| && c.cbuff[..c.bcount] == Encoded(part, 0)
    }

    /** A chunk of the list that was full when it was compressed. */
    static ghost predicate FullOk(c: Chunk, part: seq<U32>) {
      PackedOk(c, part) && |part| == MAX_SIZE
    }

    static ghost predicate RawOk(c: Chunk, part: seq<U32>) {
      && c.Raw? && c.buffer == part && |part| <= c.capacity <= MAX_SIZE && CapacityOk(c.capacity)
    }

    /** Every chunk but the last is full and compressed. */
    ghost predicate Valid()
      reads this
    {
      && |chunks| == |parts|
      && (forall i :: 0 <= i < |chunks| - 1 ==> FullOk(chunks[i], parts[i]))
      && (chunks != [] ==> RawOk(chunks[|chunks| - 1], parts[|parts| - 1]))
      && forall i :: 0 <= i < |parts| ==> Ascending(parts[i])
    }

    /** chunk_push on the last chunk; it is not full. */
    static method Push(c: Chunk, value: U32, ghost part: seq<U32>) returns (r: Chunk, code: int)
      requires RawOk(c, part)
      ensures code == -1 <==> |part| == MAX_SIZE
      ensures if |part| == MAX_SIZE then r == c else
                RawOk(r, part + [value]) && (code == 1 <==> |part| + 1 == r.capacity) &&
                    (code == 0 <==> |part| + 1 < r.capacity)
    {
      var capacity := c.capacity;
      if |c.buffer| == capacity {
        if capacity == MAX_SIZE {
          return c, -1;
        }
        Doubling(capacity);
        capacity := if capacity != 0 then 2 * capacity else 4;
      }
      r := Raw(c.buffer + [value], capacity);
      code := if |r.buffer| == capacity then 1 else 0;
    }

    /** chunk_compress of any chunk whose encoding fits four bytes per entry. */
    static method Compress(c: Chunk, ghost part: seq<U32>) returns (r: Chunk)
      requires RawOk(c, part) && part != [] && |Encoded(part, 0)| <= 4 * |part|
      ensures PackedOk(r, part) && r.capacity == c.capacity
    {
      hide Encoded, CapacityOk;
      var cbuffer := new Byte[4 * |c.buffer|];
      var bcount := DeltaEncode(c.buffer, cbuffer, 0);
      var cbuff := cbuffer[..];
      assert cbuff[..bcount] == cbuffer[..bcount];
      r := Packed(cbuff, c.capacity, |c.buffer|, bcount);
    }

    /** Ascending chunks of 340 entries or more can be compressed, full ones with
        room for the decoder's wide loads. */
    static lemma {:induction false} CompressFits(part: seq<U32>)
      requires Ascending(part) && |part| >= 340
      ensures |Encoded(part, 0)| <= 4 * |part| && (|part| >= 356 ==> |Encoded(part, 0)| + 12 <= 4 * |part|)
    {
      hide Encoded, Ascending;
      SizeOfAscending(part);
    }

    /** chunk_list_push.  Pushing in ascending order never fails and never loses an entry. */
    method ListPush(doc: U32) returns (code: int)
      requires Valid()
      requires Contents() != [] ==> Contents()[|Contents()| - 1] <= doc
      modifies this
      ensures Valid() && Contents() == old(Contents()) + [doc] && code != -1
    {
      hide PackedOk, Ascending, CapacityOk, Flatten, Encoded, FullOk;
      RoomForOne();
      var n := |chunks|;
      ghost var part := parts[n - 1];
      LastOfFlatten(parts);
      AscendingSnoc(part, doc);
      var r;
      r, code := Push(chunks[n - 1], doc, part);
      chunks := chunks[n - 1 := r];
      FlattenGrow(parts, doc);
      parts := parts[n - 1 := part + [doc]];
    }

    /** Compresses a full last chunk and opens a new one behind it. */
    method RoomForOne()
      requires Valid()
      modifies this
      ensures Valid() && Contents() == old(Contents()) && chunks != [] && |parts[|parts| - 1]| < MAX_SIZE
    {
      hide PackedOk, Ascending, CapacityOk, Flatten, Encoded;
      var n := |chunks|;
      if n == 0 || (chunks[n - 1].Raw? && |chunks[n - 1].buffer| == MAX_SIZE) {
        if n > 0 {
          CompressFits(parts[n - 1]);
          var packed := Compress(chunks[n - 1], parts[n - 1]);
          chunks := chunks[n - 1 := packed];
        }
        assert CapacityOk(0) && Ascending([]) by { EmptyOk(); }
        FlattenSnoc(parts, []);
        chunks := chunks + [Raw([], 0)];
        parts := parts + [[]];
      }
    }

    static lemma {:induction false} EmptyOk()
      ensures CapacityOk(0) && Ascending([])
    {}

    /** chunk_decompress of a chunk with room for the wide loads, or of one so
        short that there are none: the entries are back, the rest unchanged. */
    static method Decompress(c: Chunk, n: nat, ghost part: seq<U32>) returns (r: Chunk)
      requires PackedOk(c, part) && n == |part| && (n >= 32 ==> c.bcount + 12 <= |c.cbuff|)
      ensures r == Restored(part, c.capacity, c.size, c.bcount)
    {
      hide Decoded, EndOf, KeysOf, DataOf, Deltas;
      var keyLen := (n + 3) / 4;
      ghost var ds, post := Deltas(part, 0), c.cbuff[c.bcount..];
      assert c.cbuff == Encoded(part, 0) + post;
      RoundTrip(part, 0, post);
      assert c.cbuff[..keyLen] == KeysOf(ds) && c.cbuff[keyLen..] == DataOf(ds) + post;
      var out := new U32[n];
      var size := DeltaDecode(c.cbuff, out, n, 0);
      r := Restored(out[..], c.capacity, c.size, c.bcount);
    }

    /** Every compressed chunk of a list can be decompressed, to its own entries. */
    method DecompressAt(i: nat) returns (r: Chunk)
      requires Valid() && i + 1 < |chunks|
      ensures r.Restored? && r.buffer == parts[i]
    {
      hide Encoded, Ascending;
      CompressFits(parts[i]);
      r := Decompress(chunks[i], chunks[i].size, parts[i]);
    }
  }

  lemma {:induction false} LastOfFlatten(parts: seq<seq<U32>>)
    requires parts != []
    ensures var part := parts[|parts| - 1];
            part != [] ==> Flatten(parts) != [] && Flatten(parts)[|Flatten(parts)| - 1] == part[|part| - 1]
  {}

  lemma {:induction false} FlattenSnoc(parts: seq<seq<U32>>, part: seq<U32>)
    ensures Flatten(parts + [part]) == Flatten(parts) + part
  {
    assert (parts + [part])[..|parts|] == parts;
  }

  lemma {:induction false} FlattenGrow(parts: seq<seq<U32>>, x: U32)
    requires parts != []
    ensures var n := |parts| - 1; Flatten(parts[n := parts[n] + [x]]) == Flatten(parts) + [x]
  {
    var n := |parts| - 1;
    assert parts[n := parts[n] + [x]][..n] == parts[..n];
  }

  lemma {:induction false} AscendingSnoc(xs: seq<U32>, x: U32)
    requires Ascending(xs) && (xs != [] ==> xs[|xs| - 1] <= x)
    ensures Ascending(xs + [x])
  {
    forall i | 0 <= i < |xs| ensures xs[i] <= x { assert i < |xs| - 1 ==> xs[i] <= xs[|xs| - 1]; }
  }
}
