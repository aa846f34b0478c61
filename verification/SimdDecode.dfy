/**
 The decoders of streamvbytedelta.c: one integer at a time, and the unrolled
 vector decoder with its table-driven shuffles, the key pipeline and the 16-bit
 shortcut for runs of one-byte deltas.  Both are proved against
 `StreamVByte.Decoded`.
 */
module SimdDecode {
  import opened Wrappers
  import opened Coding
  import opened StreamVByte

  // --------------------------------------------------------- scalar decoder

  /** What is left to decode, as a total function. */
  ghost function Tail(keys: seq<Byte>, i: nat, data: seq<Byte>, p: nat, n: nat, prev: U32): seq<U32> {
    if i + n <= 4 * |keys| && EndOf(keys, i, p, n) <= |data| then Decoded(keys, i, data, p, n, prev) else []
  }

  lemma {:induction false} TailStep(keys: seq<Byte>, i: nat, data: seq<Byte>, p: nat, n: nat, prev: U32)
    requires 0 < n && i + n <= 4 * |keys| && EndOf(keys, i, p, n) <= |data|
    ensures var len := CodeAt(keys, i) + 1;
            && p + len <= |data| && EndOf(keys, i, p, n) == EndOf(keys, i + 1, p + len, n - 1)
            && var x := (Word(data, p, len) + prev) % WORD;
            Tail(keys, i, data, p, n, prev) == [x] + Tail(keys, i + 1, data, p + len, n - 1, x)
  {}

  /** _decode_data. */
  method DecodeData(data: seq<Byte>, p: nat, code: nat) returns (val: U32, q: nat)
    requires code < 4 && p + code < |data|
    ensures val == Word(data, p, code + 1) && q == p + code + 1
  {
    if code == 0 {
      val := data[p] as int;
    } else if code == 1 {
      val := data[p] as int + 0x100 * (data[p + 1] as int);
    } else if code == 2 {
      val := data[p] as int + 0x100 * (data[p + 1] as int);
      val := val + 0x1_0000 * (data[p + 2] as int);
    } else {
      val := DecodeFixed32(data[p..p + 4]);
    }
    q := p + code + 1;
  }

  /** svb_decode_scalar_d1_init, from integer i of the stream on; i starts a key byte. */
  method DecodeScalar(keys: seq<Byte>, i: nat, data: seq<Byte>, p0: nat, out: array<U32>, o: nat, count: nat,
      prev0: U32)
    returns (p: nat)
    requires i % 4 == 0 && i + count <= 4 * |keys| && EndOf(keys, i, p0, count) <= |data| && o + count <= out.Length
    modifies out
    ensures p == EndOf(keys, i, p0, count)
    ensures out[..o + count] == old(out[..o]) + Tail(keys, i, data, p0, count, prev0)
  {
    hide Tail, EndOf, CodeIn, Word, CodeAt;
    p := p0;
    ghost var all, end := out[..o] + Tail(keys, i, data, p0, count, prev0), EndOf(keys, i, p0, count);
    if count == 0 {
      NothingDecoded(keys, i, data, p0, prev0);
      return;
    }
    var shift: nat, prev: U32, keyPtr: nat := 0, prev0, i / 4;
    var key := keys[keyPtr];
    keyPtr := keyPtr + 1;
    var c := 0;
    while c < count
      invariant c <= count && 0 <= shift <= 8 && shift % 2 == 0 && i + c == 4 * (keyPtr - 1) + shift / 2 &&
                0 < keyPtr <= |keys|
      invariant key == keys[keyPtr - 1]
      invariant EndOf(keys, i + c, p, count - c) == end
      invariant out[..o + c] + Tail(keys, i + c, data, p, count - c, prev) == all
    {
      if shift == 8 {
        shift := 0;
        key := keys[keyPtr];
        keyPtr := keyPtr + 1;
      }
      TailStep(keys, i + c, data, p, count - c, prev);
      var code := CodeIn(key, shift / 2);
      CodeHere(keys, i + c, keyPtr - 1, shift / 2);
      ghost var before := out[..o + c];
      var val;
      val, p := DecodeData(data, p, code);
      val := (val + prev) % WORD;
      out[o + c] := val;
      assert out[..o + c + 1] == before + [val];
      prev := val;
      shift := shift + 2;
      c := c + 1;
    }
    NothingDecoded(keys, i + c, data, p, prev);
  }

  lemma {:induction false} CodeHere(keys: seq<Byte>, i: nat, q: nat, j: nat)
    requires i == 4 * q + j && j < 4 && q < |keys|
    ensures CodeAt(keys, i) == CodeIn(keys[q], j)
  {}

  lemma {:induction false} NothingDecoded(keys: seq<Byte>, i: nat, data: seq<Byte>, p: nat, prev: U32)
    requires i <= 4 * |keys| && p <= |data|
    ensures EndOf(keys, i, p, 0) == p && Tail(keys, i, data, p, 0, prev) == []
  {}

  // ------------------------------------------------------- vector registers

  /** A 128-bit register as four little-endian 32-bit lanes. */
  datatype Vec = Vec(a: U32, b: U32, c: U32, d: U32)

  function Lanes(v: Vec): seq<U32> { [v.a, v.b, v.c, v.d] }

  /** Reduction to 32 bits. */
  function Norm(x: int): U32 { x % WORD }

  function Add(x: int, y: int): U32 { Norm(x + y) }

  /** _mm_add_epi32. */
  function AddEpi32(x: Vec, y: Vec): Vec {
    Vec(Add(x.a, y.a), Add(x.b, y.b), Add(x.c, y.c), Add(x.d, y.d))
  }

  /** _mm_slli_si128 by 4, 8 and 2 bytes. */
  function ShiftLeft4(v: Vec): Vec { Vec(0, v.a, v.b, v.c) }

  function ShiftLeft8(v: Vec): Vec { Vec(0, 0, v.a, v.b) }

  function ShiftLeft2(v: Vec): Vec {
    Vec(v.a % 0x1_0000 * 0x1_0000,
        v.a / 0x1_0000 + v.b % 0x1_0000 * 0x1_0000,
        v.b / 0x1_0000 + v.c % 0x1_0000 * 0x1_0000,
        v.c / 0x1_0000 + v.d % 0x1_0000 * 0x1_0000)
  }

  /** _mm_shuffle_epi32 with BroadcastLastXMM. */
  function BroadcastLast(v: Vec): Vec { Vec(v.d, v.d, v.d, v.d) }

  /** _mm_cvtepu8_epi16 of the low eight bytes. */
  function Widen8(load: seq<Byte>): Vec
    requires |load| >= 8
  {
    Vec(load[0] as int + 0x1_0000 * (load[1] as int), load[2] as int + 0x1_0000 * (load[3] as int),
        load[4] as int + 0x1_0000 * (load[5] as int), load[6] as int + 0x1_0000 * (load[7] as int))
  }

  /** _mm_cvtepu16_epi32: the low four 16-bit values as lanes. */
  function WidenLow16(v: Vec): Vec {
    Vec(v.a % 0x1_0000, v.a / 0x1_0000, v.b % 0x1_0000, v.b / 0x1_0000)
  }

  /** _mm_shuffle_epi8 with High16To32: the high four. */
  function WidenHigh16(v: Vec): Vec {
    Vec(v.c % 0x1_0000, v.c / 0x1_0000, v.d % 0x1_0000, v.d / 0x1_0000)
  }

  // ---------------------------------------------------------------- tables

  /** The byte length of integer j under a key byte. */
  function LenIn(key: Byte, j: nat): (n: nat)
    ensures 1 <= n <= 4
  {
    CodeIn(key, j) + 1
  }

  function OffIn(key: Byte, j: nat): (n: nat)
    requires j <= 4
    ensures j <= n <= 4 * j
  {
    match j
    case 0 => 0
    case 1 => LenIn(key, 0)
    case 2 => LenIn(key, 0) + LenIn(key, 1)
    case 3 => LenIn(key, 0) + LenIn(key, 1) + LenIn(key, 2)
    case _ => LenIn(key, 0) + LenIn(key, 1) + LenIn(key, 2) + LenIn(key, 3)
  }

  /** lengthTable[key]. */
  function LengthTable(key: Byte): (n: nat)
    ensures 4 <= n <= 16
  {
    OffIn(key, 4)
  }

  /** shuffleTable[key][m]: each integer's bytes go to the front of its lane, -1 clears. */
  function ShuffleTable(key: Byte, m: nat): Byte
    requires m < 16
  {
    if m % 4 < LenIn(key, m / 4) then OffIn(key, m / 4) + m % 4 else 255
  }

  /** Byte b of lane j after _mm_shuffle_epi8. */
  function ShuffledByte(load: seq<Byte>, key: Byte, j: nat, b: nat): Byte
    requires |load| == 16 && j < 4 && b < 4
  {
    var s := ShuffleTable(key, 4 * j + b);
    if s >= 128 then 0 else load[s % 16]
  }

  function ShuffledLane(load: seq<Byte>, key: Byte, j: nat): U32
    requires |load| == 16 && j < 4
  {
    ShuffledByte(load, key, j, 0) as int + 0x100 * (ShuffledByte(load, key, j, 1) as int)
    + 0x1_0000 * (ShuffledByte(load, key, j, 2) as int) + 0x100_0000 * (ShuffledByte(load, key, j, 3) as int)
  }

  /** _decode_avx. */
  function DecodeAvx(load: seq<Byte>, key: Byte): Vec
    requires |load| == 16
  {
    Vec(ShuffledLane(load, key, 0), ShuffledLane(load, key, 1), ShuffledLane(load, key, 2), ShuffledLane(load, key, 3))
  }

  lemma {:induction false} ShuffledByteIs(load: seq<Byte>, key: Byte, j: nat, b: nat)
    requires |load| == 16 && j < 4 && b < 4
    ensures OffIn(key, j) + LenIn(key, j) <= 16
    ensures ShuffledByte(load, key, j, b) == if b < LenIn(key, j) then load[OffIn(key, j) + b] else 0
  {
    hide LenIn, OffIn;
    assert (4 * j + b) / 4 == j && (4 * j + b) % 4 == b;
  }

  /** The shuffle puts each integer's bytes, zero-extended, into its lane. */
  lemma {:induction false} LaneIsWord(data: seq<Byte>, p: nat, key: Byte, j: nat)
    requires p + 16 <= |data| && j < 4
    ensures OffIn(key, j) + LenIn(key, j) <= 16
    ensures ShuffledLane(data[p..p + 16], key, j) == Word(data, p + OffIn(key, j), LenIn(key, j))
  {
    hide LenIn, OffIn, ShuffledByte;
    var load, off := data[p..p + 16], OffIn(key, j);
    ShuffledByteIs(load, key, j, 0);
    ShuffledByteIs(load, key, j, 1);
    ShuffledByteIs(load, key, j, 2);
    ShuffledByteIs(load, key, j, 3);
  }

  // ------------------------------------------------------------ prefix sums

  /** _write_avx_d1. */
  function PrefixSum(v: Vec, prev: Vec): Vec {
    var v1 := AddEpi32(v, ShiftLeft4(v));
    AddEpi32(AddEpi32(v1, BroadcastLast(prev)), ShiftLeft8(v1))
  }

  lemma {:induction false} NormNorm(x: int, y: int)
    ensures Norm(Norm(x) + Norm(y)) == Norm(x + y) == Norm(x + Norm(y)) == Norm(Norm(x) + y)
  {}

  /** The running sums of four deltas. */
  function Running(v: Vec, prev: U32): Vec {
    var a := Add(v.a, prev);
    var b := Add(v.b, a);
    var c := Add(v.c, b);
    Vec(a, b, c, Add(v.d, c))
  }

  /** The logarithmic prefix sum is the running sum. */
  lemma {:induction false} PrefixSumIs(v: Vec, prev: Vec)
    ensures PrefixSum(v, prev) == Running(v, prev.d)
  {
    hide Norm;
    var p, r := prev.d, PrefixSum(v, prev);
    NormNorm(v.a, p); NormNorm(v.a + p, 0);
    NormNorm(v.b + v.a, p); NormNorm(v.b + v.a + p, 0); NormNorm(v.b, v.a + p);
    NormNorm(v.c + v.b, p); NormNorm(v.c + v.b + p, v.a); NormNorm(v.c, v.b + v.a + p);
    NormNorm(v.d + v.c, p); NormNorm(v.d + v.c + p, v.b + v.a); NormNorm(v.d, v.c + v.b + v.a + p);
    assert r.a == Norm(v.a + p);
    assert r.b == Norm(v.b + v.a + p);
    assert r.c == Norm(v.c + v.b + p + v.a) == Norm(v.c + (v.b + v.a + p));
    assert r.d == Norm(v.d + v.c + p + (v.b + v.a)) == Norm(v.d + (v.c + v.b + v.a + p));
  }

  // ----------------------------------------------------- one key byte at a time

  lemma {:induction false} CodeOfQuad(keys: seq<Byte>, i: nat, j: nat)
    requires i % 4 == 0 && j < 4 && i + j < 4 * |keys|
    ensures CodeAt(keys, i + j) + 1 == LenIn(keys[i / 4], j)
  {
    CodeHere(keys, i + j, i / 4, j);
  }

  lemma {:induction false} EndOfStep(keys: seq<Byte>, i: nat, p: nat, n: nat)
    requires 0 < n && i + n <= 4 * |keys|
    ensures EndOf(keys, i, p, n) == EndOf(keys, i + 1, p + CodeAt(keys, i) + 1, n - 1)
  {}

  lemma {:induction false} QuadEnd(keys: seq<Byte>, i: nat, p: nat, n: nat)
    requires i % 4 == 0 && 4 <= n && i + n <= 4 * |keys|
    ensures EndOf(keys, i, p, n) == EndOf(keys, i + 4, p + LengthTable(keys[i / 4]), n - 4)
  {
    hide EndOf, CodeAt, LenIn;
    var key := keys[i / 4];
    CodeOfQuad(keys, i, 0); CodeOfQuad(keys, i, 1); CodeOfQuad(keys, i, 2); CodeOfQuad(keys, i, 3);
    EndOfStep(keys, i, p, n);
    EndOfStep(keys, i + 1, p + OffIn(key, 1), n - 1);
    EndOfStep(keys, i + 2, p + OffIn(key, 2), n - 2);
    EndOfStep(keys, i + 3, p + OffIn(key, 3), n - 3);
  }

  /** r holds the running sums of the integers that the key byte cuts out of the load. */
  ghost predicate QuadIs(key: Byte, load: seq<Byte>, prev: U32, r: Vec)
    requires |load| == 16
  {
    r == Running(DecodeAvx(load, key), prev)
  }

  /** Four integers of the stream, from one key byte. */
  lemma {:induction false} QuadDecoded(keys: seq<Byte>, i: nat, data: seq<Byte>, p: nat, n: nat, prev: U32, r: Vec,
      q: nat)
    requires i % 4 == 0 && 4 <= n && i + n <= 4 * |keys| && p + 16 <= |data| && EndOf(keys, i, p, n) <= |data|
    requires QuadIs(keys[i / 4], data[p..p + 16], prev, r) && q == p + LengthTable(keys[i / 4])
    ensures Tail(keys, i, data, p, n, prev) == Lanes(r) + Tail(keys, i + 4, data, q, n - 4, r.d)
  {
    hide Tail, EndOf, LenIn, OffIn, ShuffledLane, Add;
    assert OffIn(keys[i / 4], 0) == 0 by { OffStart(keys[i / 4]); }
    LaneStep(keys, i, data, p, n, prev, 0);
    LaneStep(keys, i, data, p, n - 1, r.a, 1);
    LaneStep(keys, i, data, p, n - 2, r.b, 2);
    LaneStep(keys, i, data, p, n - 3, r.c, 3);
  }

  lemma {:induction false} OffStart(key: Byte)
    ensures OffIn(key, 0) == 0 && LengthTable(key) == OffIn(key, 4)
  {}

  lemma {:induction false} OffNext(key: Byte, j: nat)
    requires j < 4
    ensures OffIn(key, j + 1) == OffIn(key, j) + LenIn(key, j)
  {
    hide LenIn;
  }

  /** One integer of a quad: its lane, added to the one before. */
  lemma {:induction false} LaneStep(keys: seq<Byte>, i: nat, data: seq<Byte>, p: nat, m: nat, prev: U32, j: nat)
    requires i % 4 == 0 && j < 4 && 0 < m && i + j + m <= 4 * |keys| && p + 16 <= |data|
    requires EndOf(keys, i + j, p + OffIn(keys[i / 4], j), m) <= |data|
    ensures
      var key := keys[i / 4];
      var x := Add(ShuffledLane(data[p..p + 16], key, j), prev);
      && Tail(keys, i + j, data, p + OffIn(key, j), m, prev) ==
           [x] + Tail(keys, i + j + 1, data, p + OffIn(key, j + 1), m - 1, x)
      && EndOf(keys, i + j, p + OffIn(key, j), m) == EndOf(keys, i + j + 1, p + OffIn(key, j + 1), m - 1)
  {
    hide Tail, EndOf, CodeAt, LenIn, OffIn, ShuffledLane, Word;
    CodeOfQuad(keys, i, j);
    LaneIsWord(data, p, keys[i / 4], j);
    OffNext(keys[i / 4], j);
    TailStep(keys, i + j, data, p + OffIn(keys[i / 4], j), m, prev);
  }

  /** _write_avx. */
  method Store(out: array<U32>, o: nat, v: Vec)
    requires o + 4 <= out.Length
    modifies out
    ensures out[..o + 4] == old(out[..o]) + Lanes(v) && out[o + 3] == v.d
  {
    out[o], out[o + 1], out[o + 2], out[o + 3] := v.a, v.b, v.c, v.d;
  }

  /** What is left of the stream at integer o, and that it fits the padded buffer. */
  ghost predicate Fits(keys: seq<Byte>, o: nat, data: seq<Byte>, p: nat, n: nat) {
    o + n <= 4 * |keys| && EndOf(keys, o, p, n) + 12 <= |data|
  }

  /** _decode_avx and _write_avx_d1 for one key byte. */
  method DecodeQuad(key: Byte, data: seq<Byte>, p: nat, out: array<U32>, o: nat, prev: Vec, ghost keys: seq<Byte>,
      ghost n: nat, ghost k: nat)
    returns (q: nat, cur: Vec)
    requires o == 4 * k && 4 <= n && Fits(keys, o, data, p, n) && o + 4 <= out.Length && key == keys[k]
    modifies out
    ensures Advanced(keys, o, data, p, n, prev.d, old(out[..o]), out[..o + 4], 4, q, cur.d)
  {
    hide Tail, EndOf, DecodeAvx, PrefixSum, LengthTable, Running;
    ghost var before := out[..o];
    QuadEnd(keys, o, p, n);
    var vec := DecodeAvx(data[p..p + 16], key);
    q := p + LengthTable(key);
    PrefixSumIs(vec, prev);
    cur := PrefixSum(vec, prev);
    QuadDecoded(keys, o, data, p, n, prev.d, cur, q);
    Store(out, o, cur);
    assert out[..o + 4] + Tail(keys, o + 4, data, q, n - 4, cur.d)
        == before + (Lanes(cur) + Tail(keys, o + 4, data, q, n - 4, cur.d));
  }

  // ------------------------------------------------ runs of one-byte deltas

  /** The 16-bit sums of _write_16bit_avx_d1: lane k holds the sum of up to four neighbours. */
  function Sums16(v: Vec): Vec {
    var v1 := AddEpi32(v, ShiftLeft2(v));
    AddEpi32(v1, ShiftLeft4(v1))
  }

  function LowSums(v: Vec, prev: Vec): Vec { AddEpi32(WidenLow16(Sums16(v)), BroadcastLast(prev)) }

  function HighSums(v: Vec, prev: Vec): Vec { AddEpi32(LowSums(v, prev), WidenHigh16(Sums16(v))) }

  /** Two small 16-bit halves packed in a lane: they add without carrying over. */
  function Pack(lo: nat, hi: nat): nat { lo + 0x1_0000 * hi }

  lemma {:induction false} PackAdd(a: nat, b: nat, c: nat, d: nat)
    requires a + c < 0x1_0000 && b + d < 0x1_0000
    ensures Add(Pack(a, b), Pack(c, d)) == Pack(a + c, b + d)
    ensures Pack(a, b) % 0x1_0000 == a && Pack(a, b) / 0x1_0000 == b
  {}

  /** The eight 16-bit lanes after the two shifted additions. */
  lemma {:induction false} Sums16Is(b: seq<Byte>)
    requires |b| >= 8
    ensures Sums16(Widen8(b)) ==
            Vec(Pack(b[0], b[0] as int + b[1] as int),
                Pack(b[0] as int + b[1] as int + b[2] as int, b[0] as int + b[1] as int + b[2] as int + b[3] as int),
                Pack(b[1] as int + b[2] as int + b[3] as int + b[4] as int,
                     b[2] as int + b[3] as int + b[4] as int + b[5] as int),
                Pack(b[3] as int + b[4] as int + b[5] as int + b[6] as int,
                     b[4] as int + b[5] as int + b[6] as int + b[7] as int))
  {
    hide Add;
    var a: int, b1: int, c: int, d: int := b[0], b[1], b[2], b[3];
    var e: int, f: int, g: int, h: int := b[4], b[5], b[6], b[7];
    var v := Widen8(b);
    assert v == Vec(Pack(a, b1), Pack(c, d), Pack(e, f), Pack(g, h));
    PackAdd(a, b1, 0, a); PackAdd(c, d, b1, c); PackAdd(e, f, d, e); PackAdd(g, h, f, g);
    var v1 := AddEpi32(v, ShiftLeft2(v));
    assert ShiftLeft2(v) == Vec(Pack(0, a), Pack(b1, c), Pack(d, e), Pack(f, g));
    assert v1 == Vec(Pack(a, a + b1), Pack(b1 + c, c + d), Pack(d + e, e + f), Pack(f + g, g + h));
    PackAdd(a, a + b1, 0, 0); PackAdd(b1 + c, c + d, a, a + b1);
    PackAdd(d + e, e + f, b1 + c, c + d); PackAdd(f + g, g + h, d + e, e + f);
    assert Pack(0, 0) == 0;
  }

  function BytesVec(b: seq<Byte>, k: nat): Vec
    requires k + 4 <= |b|
  {
    Vec(b[k], b[k + 1], b[k + 2], b[k + 3])
  }

  /** Eight deltas at once: the running sums, without a carry between the halves. */
  lemma {:induction false} Sums16Run(b: seq<Byte>, prev: Vec)
    requires |b| >= 8
    ensures LowSums(Widen8(b), prev) == Running(BytesVec(b, 0), prev.d)
    ensures HighSums(Widen8(b), prev) == Running(BytesVec(b, 4), LowSums(Widen8(b), prev).d)
  {
    hide Norm, Sums16, Pack;
    Sums16Is(b);
    var v := Widen8(b);
    var a: int, b1: int, c: int, d: int := b[0], b[1], b[2], b[3];
    var e: int, f: int, g: int, h: int := b[4], b[5], b[6], b[7];
    var p: int := prev.d;
    PackAdd(a, a + b1, 0, 0); PackAdd(a + b1 + c, a + b1 + c + d, 0, 0);
    PackAdd(b1 + c + d + e, c + d + e + f, 0, 0); PackAdd(d + e + f + g, e + f + g + h, 0, 0);
    var lo, hi := LowSums(v, prev), HighSums(v, prev);
    assert lo == Vec(Norm(a + p), Norm(a + b1 + p), Norm(a + b1 + c + p), Norm(a + b1 + c + d + p));
    NormNorm(b1, a + p); NormNorm(c, a + b1 + p); NormNorm(d, a + b1 + c + p);
    NormNorm(a + p, b1 + c + d + e); NormNorm(a + b1 + p, c + d + e + f);
    NormNorm(a + b1 + c + p, d + e + f + g); NormNorm(a + b1 + c + d + p, e + f + g + h);
    assert hi == Vec(Norm(a + p + (b1 + c + d + e)), Norm(a + b1 + p + (c + d + e + f)),
                     Norm(a + b1 + c + p + (d + e + f + g)), Norm(a + b1 + c + d + p + (e + f + g + h)));
    NormNorm(e, a + b1 + c + d + p); NormNorm(f, a + p + (b1 + c + d + e));
    NormNorm(g, a + b1 + p + (c + d + e + f)); NormNorm(h, a + b1 + c + p + (d + e + f + g));
  }

  /** A zero key byte means four one-byte integers. */
  lemma {:induction false} ZeroKey(load: seq<Byte>)
    requires |load| == 16
    ensures LengthTable(0) == 4 && DecodeAvx(load, 0) == BytesVec(load, 0)
  {
    var data := load;
    assert data[0..16] == load;
    LaneIsWord(data, 0, 0, 0); LaneIsWord(data, 0, 0, 1); LaneIsWord(data, 0, 0, 2); LaneIsWord(data, 0, 0, 3);
    assert LenIn(0, 0) == LenIn(0, 1) == LenIn(0, 2) == LenIn(0, 3) == 1;
  }

  /** Four zero-key integers of the stream: their bytes are the deltas. */
  lemma {:induction false} ZeroQuad(keys: seq<Byte>, i: nat, data: seq<Byte>, p: nat, n: nat, prev: U32, r: Vec)
    requires i % 4 == 0 && 4 <= n && Fits(keys, i, data, p, n) && keys[i / 4] == 0
    requires p + 4 <= |data| && r == Running(BytesVec(data, p), prev)
    ensures EndOf(keys, i, p, n) == EndOf(keys, i + 4, p + 4, n - 4)
    ensures Tail(keys, i, data, p, n, prev) == Lanes(r) + Tail(keys, i + 4, data, p + 4, n - 4, r.d)
  {
    hide Tail, EndOf, DecodeAvx, LengthTable, Running, CodeIn, CodeAt;
    assert p + 16 <= |data|;
    ZeroKey(data[p..p + 16]);
    QuadEnd(keys, i, p, n);
    assert BytesVec(data[p..p + 16], 0) == BytesVec(data, p);
    QuadDecoded(keys, i, data, p, n, prev, r, p + 4);
  }

  /** _write_16bit_avx_d1 for eight one-byte deltas; `wide` says whether the
      load takes sixteen bytes or just eight. */
  method DecodeOct(data: seq<Byte>, p: nat, wide: bool, out: array<U32>, o: nat, prev: Vec, ghost keys: seq<Byte>,
      ghost n: nat, ghost k: nat)
    returns (cur: Vec)
    requires o == 4 * k && 8 <= n && Fits(keys, o, data, p, n) && o + 8 <= out.Length
    requires keys[k] == keys[k + 1] == 0 && (wide ==> p + 16 <= |data|) && p + 8 <= |data|
    modifies out
    ensures Advanced(keys, o, data, p, n, prev.d, old(out[..o]), out[..o + 8], 8, p + 8, cur.d)
  {
    hide Tail, EndOf, Running, LowSums, HighSums, Widen8, Fits, BytesVec;
    ghost var before := out[..o];
    var load := if wide then data[p..p + 16] else data[p..p + 8];
    assert load[..8] == data[p..p + 8];
    var v := Widen8(load);
    var lo, hi := LowSums(v, prev), HighSums(v, prev);
    OctDecoded(keys, o, data, p, n, prev, load, k);
    Store(out, o, lo);
    Store(out, o + 4, hi);
    cur := hi;
    assert out[..o + 8] == before + (Lanes(lo) + Lanes(hi));
    assert out[..o + 8] + Tail(keys, o + 8, data, p + 8, n - 8, cur.d)
        == before + ((Lanes(lo) + Lanes(hi)) + Tail(keys, o + 8, data, p + 8, n - 8, cur.d));
  }

  lemma {:induction false} SameBytes(load: seq<Byte>, data: seq<Byte>, p: nat)
    requires p + 8 <= |data| && 8 <= |load| && load[..8] == data[p..p + 8]
    ensures BytesVec(load, 0) == BytesVec(data, p) && BytesVec(load, 4) == BytesVec(data, p + 4)
  {
    assert forall k :: 0 <= k < 8 ==> load[k] == load[..8][k] == data[p + k];
  }

  lemma {:induction false} OctDecoded(keys: seq<Byte>, i: nat, data: seq<Byte>, p: nat, n: nat, prev: Vec,
      load: seq<Byte>, k: nat)
    requires i == 4 * k && 8 <= n && Fits(keys, i, data, p, n)
    requires keys[k] == keys[k + 1] == 0
    requires p + 8 <= |data| && 8 <= |load| && load[..8] == data[p..p + 8]
    ensures var lo, hi := LowSums(Widen8(load), prev), HighSums(Widen8(load), prev);
            && Fits(keys, i + 8, data, p + 8, n - 8) && EndOf(keys, i + 8, p + 8, n - 8) == EndOf(keys, i, p, n)
            && Tail(keys, i, data, p, n, prev.d) ==
                 (Lanes(lo) + Lanes(hi)) + Tail(keys, i + 8, data, p + 8, n - 8, hi.d)
  {
    hide Tail, EndOf, Running, LowSums, HighSums, Widen8, BytesVec;
    var lo, hi := LowSums(Widen8(load), prev), HighSums(Widen8(load), prev);
    Sums16Run(load, prev);
    SameBytes(load, data, p);
    assert i / 4 == k && (i + 4) / 4 == k + 1;
    ZeroQuad(keys, i, data, p, n, prev.d, lo);
    ZeroQuad(keys, i + 4, data, p + 4, n - 4, lo.d, hi);
    assert Lanes(lo) + (Lanes(hi) + Tail(keys, i + 8, data, p + 8, n - 8, hi.d))
        == (Lanes(lo) + Lanes(hi)) + Tail(keys, i + 8, data, p + 8, n - 8, hi.d);
  }

  // ------------------------------------------------- eight key bytes at a time

  /** n key bytes from k on as one little-endian number. */
  function Load64(keys: seq<Byte>, k: nat, n: nat): nat
    requires k + n <= |keys|
    decreases n
  {
    if n == 0 then 0 else keys[k] as int + 256 * Load64(keys, k + 1, n - 1)
  }

  lemma {:induction false} LowByte(keys: seq<Byte>, k: nat, n: nat)
    requires 0 < n && k + n <= |keys|
    ensures var w := Load64(keys, k, n); w % 256 == keys[k] && w / 256 == Load64(keys, k + 1, n - 1)
  {
    var w := Load64(keys, k, n);
    assert w == keys[k] as int + 256 * Load64(keys, k + 1, n - 1);
  }

  lemma {:induction false} ZeroWord(keys: seq<Byte>, k: nat, n: nat)
    requires k + n <= |keys| && Load64(keys, k, n) == 0
    ensures forall j :: k <= j < k + n ==> keys[j] == 0
    decreases n
  {
    if n > 0 { ZeroWord(keys, k + 1, n - 1); }
  }

  /** m integers further on: the output has grown from `before` to `after`, and
      together with what is left it still makes up the whole. */
  ghost predicate Advanced(keys: seq<Byte>, o: nat, data: seq<Byte>, p: nat, n: nat, prev: U32,
                           before: seq<U32>, after: seq<U32>, m: nat, q: nat, cur: U32) {
    && m <= n && Fits(keys, o + m, data, q, n - m) && EndOf(keys, o + m, q, n - m) == EndOf(keys, o, p, n)
    && after + Tail(keys, o + m, data, q, n - m, cur) == before + Tail(keys, o, data, p, n, prev)
    && (m > 0 ==> after != [] && after[|after| - 1] == cur)
    && (m == 0 ==> q == p && cur == prev)
  }

  lemma {:induction false} AdvancedNot(keys: seq<Byte>, o: nat, data: seq<Byte>, p: nat, n: nat, prev: U32,
      before: seq<U32>)
    requires Fits(keys, o, data, p, n)
    ensures Advanced(keys, o, data, p, n, prev, before, before, 0, p, prev)
  {}

  lemma {:induction false} AdvancedOn(keys: seq<Byte>, o: nat, data: seq<Byte>, p: nat, n: nat, prev: U32,
      before: seq<U32>, mid: seq<U32>, m: nat, p1: nat, c1: U32, after: seq<U32>, m1: nat, q: nat, cur: U32)
    requires Advanced(keys, o, data, p, n, prev, before, mid, m, p1, c1) && m1 > 0
    requires Advanced(keys, o + m, data, p1, n - m, c1, mid, after, m1, q, cur)
    ensures Advanced(keys, o, data, p, n, prev, before, after, m + m1, q, cur)
  {
    hide EndOf, Tail;
  }

  lemma {:induction false} AdvancedFits(keys: seq<Byte>, o: nat, data: seq<Byte>, p: nat, n: nat, prev: U32,
      before: seq<U32>, after: seq<U32>, m: nat, q: nat, cur: U32)
    requires Advanced(keys, o, data, p, n, prev, before, after, m, q, cur)
    ensures m <= n && Fits(keys, o + m, data, q, n - m) && EndOf(keys, o + m, q, n - m) == EndOf(keys, o, p, n)
    ensures after + Tail(keys, o + m, data, q, n - m, cur) == before + Tail(keys, o, data, p, n, prev)
    ensures m > 0 ==> after != [] && after[|after| - 1] == cur
  {}

  /** 32 one-byte deltas in a row. */
  method DecodeZeroBlock(data: seq<Byte>, p: nat, final: bool, out: array<U32>, o: nat, prev: Vec,
      ghost keys: seq<Byte>, ghost n: nat, ghost k: nat)
    returns (q: nat, cur: Vec)
    requires o == 4 * k && k % 8 == 0 && 32 <= n && Fits(keys, o, data, p, n) && o + 32 <= out.Length
    requires forall j :: k <= j < k + 8 ==> keys[j] == 0
    modifies out
    ensures Advanced(keys, o, data, p, n, prev.d, old(out[..o]), out[..o + 32], 32, q, cur.d)
  {
    hide Tail, EndOf, Advanced;
    q, cur := p, prev;
    ghost var start := out[..o];
    AdvancedNot(keys, o, data, p, n, prev.d, start);
    for j := 0 to 4
      invariant q == p + 8 * j
      invariant Advanced(keys, o, data, p, n, prev.d, start, out[..o + 8 * j], 8 * j, q, cur.d)
    {
      ghost var mid, q0, c0 := out[..o + 8 * j], q, cur.d;
      AdvancedFits(keys, o, data, p, n, prev.d, start, mid, 8 * j, q, cur.d);
      EndAtLeast(keys, o + 8 * j, q, n - 8 * j);
      cur := DecodeOct(data, q, !(final && j == 3), out, o + 8 * j, cur, keys, n - 8 * j, k + 2 * j);
      q := q + 8;
      AdvancedOn(keys, o, data, p, n, prev.d, start, mid, 8 * j, q0, c0, out[..o + 8 * j + 8], 8, q, cur.d);
    }
  }

  lemma {:induction false} EndAtLeast(keys: seq<Byte>, i: nat, p: nat, n: nat)
    requires i + n <= 4 * |keys|
    ensures EndOf(keys, i, p, n) >= p + n
  {}

  lemma {:induction false} LowBytes(keys: seq<Byte>, k: nat, n: nat)
    requires 2 <= n && k + n <= |keys|
    ensures var w := Load64(keys, k, n);
            w % 256 == keys[k] && w / 256 % 256 == keys[k + 1] && w / 0x1_0000 == Load64(keys, k + 2, n - 2)
  {
    hide Load64;
    LowByte(keys, k, n);
    LowByte(keys, k + 1, n - 1);
    assert Load64(keys, k, n) / 0x1_0000 == Load64(keys, k, n) / 256 / 256;
  }

  /** The two low key bytes of the word. */
  method DecodePair(word: nat, data: seq<Byte>, p: nat, out: array<U32>, o: nat, prev: Vec, ghost keys: seq<Byte>,
      ghost n: nat, ghost k: nat)
    returns (q: nat, cur: Vec)
    requires o == 4 * k && 8 <= n && Fits(keys, o, data, p, n) && o + 8 <= out.Length
    requires word % 256 == keys[k] && word / 256 % 256 == keys[k + 1]
    modifies out
    ensures Advanced(keys, o, data, p, n, prev.d, old(out[..o]), out[..o + 8], 8, q, cur.d)
  {
    hide Tail, EndOf, Advanced;
    ghost var start := out[..o];
    q, cur := DecodeQuad(word % 256, data, p, out, o, prev, keys, n, k);
    ghost var mid, q0, c0 := out[..o + 4], q, cur.d;
    AdvancedFits(keys, o, data, p, n, prev.d, start, mid, 4, q, cur.d);
    q, cur := DecodeQuad(word / 256 % 256, data, q, out, o + 4, cur, keys, n - 4, k + 1);
    AdvancedOn(keys, o, data, p, n, prev.d, start, mid, 4, q0, c0, out[..o + 8], 4, q, cur.d);
  }

  /** Eight key bytes, shifted out of the word two at a time. */
  method DecodeKeyBlock(word0: nat, data: seq<Byte>, p: nat, out: array<U32>, o: nat, prev: Vec,
      ghost keys: seq<Byte>, ghost n: nat, ghost k: nat)
    returns (q: nat, cur: Vec)
    requires o == 4 * k && 32 <= n && Fits(keys, o, data, p, n) && o + 32 <= out.Length
    requires word0 == Load64(keys, k, 8)
    modifies out
    ensures Advanced(keys, o, data, p, n, prev.d, old(out[..o]), out[..o + 32], 32, q, cur.d)
  {
    hide Tail, EndOf, Load64, Advanced;
    q, cur := p, prev;
    var word := word0;
    ghost var start := out[..o];
    AdvancedNot(keys, o, data, p, n, prev.d, start);
    for j := 0 to 4
      invariant Advanced(keys, o, data, p, n, prev.d, start, out[..o + 8 * j], 8 * j, q, cur.d)
      invariant word == Load64(keys, k + 2 * j, 8 - 2 * j)
    {
      ghost var mid, q0, c0 := out[..o + 8 * j], q, cur.d;
      AdvancedFits(keys, o, data, p, n, prev.d, start, mid, 8 * j, q, cur.d);
      LowBytes(keys, k + 2 * j, 8 - 2 * j);
      q, cur := DecodePair(word, data, q, out, o + 8 * j, cur, keys, n - 8 * j, k + 2 * j);
      word := word / 0x1_0000;
      AdvancedOn(keys, o, data, p, n, prev.d, start, mid, 8 * j, q0, c0, out[..o + 8 * j + 8], 8, q, cur.d);
    }
  }

  method DecodeBlock(word: nat, data: seq<Byte>, p: nat, final: bool, out: array<U32>, o: nat, prev: Vec,
      ghost keys: seq<Byte>, ghost n: nat, ghost k: nat)
    returns (q: nat, cur: Vec)
    requires o == 4 * k && k % 8 == 0 && 32 <= n && Fits(keys, o, data, p, n) && o + 32 <= out.Length
    requires word == Load64(keys, k, 8)
    modifies out
    ensures Advanced(keys, o, data, p, n, prev.d, old(out[..o]), out[..o + 32], 32, q, cur.d)
  {
    hide Advanced, Load64;
    if word == 0 {
      ZeroWord(keys, k, 8);
      q, cur := DecodeZeroBlock(data, p, final, out, o, prev, keys, n, k);
    } else {
      q, cur := DecodeKeyBlock(word, data, p, out, o, prev, keys, n, k);
    }
  }

  /** The vector part of svb_decode_avx_d1_init: whole blocks of 32 integers,
      with the key word of the next block loaded ahead. */
  method DecodeBlocks(keys: seq<Byte>, data: seq<Byte>, out: array<U32>, count: nat, prev0: U32)
    returns (p: nat, o: nat, prev: U32)
    requires 32 <= count <= 4 * |keys| && count <= out.Length && Fits(keys, 0, data, 0, count)
    modifies out
    ensures o == count - count % 32 && EndOf(keys, o, p, count - o) == EndOf(keys, 0, 0, count)
    ensures out[..o] + Tail(keys, o, data, p, count - o, prev) == Tail(keys, 0, data, 0, count, prev0)
  {
    hide Tail, EndOf, Load64, Advanced;
    var keybytes := count / 4;
    p, o := 0, 0;
    var prevVec := Vec(prev0, prev0, prev0, prev0);
    var first := -(keybytes / 8) + 1;
    var offset := first;
    var nextkeys := Load64(keys, 0, 8);
    AdvancedNot(keys, 0, data, 0, count, prev0, []);
    assert out[..0] == [];
    while offset != 0
      invariant first <= offset <= 0 && o == 32 * (offset - first) && nextkeys == Load64(keys, 8 * (offset - first), 8)
      invariant Advanced(keys, 0, data, 0, count, prev0, [], out[..o], o, p, prevVec.d)
    {
      ghost var mid, p0, c0 := out[..o], p, prevVec.d;
      AdvancedFits(keys, 0, data, 0, count, prev0, [], mid, o, p, c0);
      var word := nextkeys;
      nextkeys := Load64(keys, 8 * (offset + 1 - first), 8);
      p, prevVec := DecodeBlock(word, data, p, false, out, o, prevVec, keys, count - o, 8 * (offset - first));
      AdvancedOn(keys, 0, data, 0, count, prev0, [], mid, o, p0, c0, out[..o + 32], 32, p, prevVec.d);
      o := o + 32;
      offset := offset + 1;
    }
    ghost var mid, p0, c0 := out[..o], p, prevVec.d;
    AdvancedFits(keys, 0, data, 0, count, prev0, [], mid, o, p, c0);
    p, prevVec := DecodeBlock(nextkeys, data, p, true, out, o, prevVec, keys, count - o, 8 * (offset - first));
    AdvancedOn(keys, 0, data, 0, count, prev0, [], mid, o, p0, c0, out[..o + 32], 32, p, prevVec.d);
    o := o + 32;
    AdvancedFits(keys, 0, data, 0, count, prev0, [], out[..o], o, p, prevVec.d);
    prev := out[o - 1];
  }

  /** svb_decode_avx_d1_init: the blocks, then the scalar decoder for the rest.
      The result is that of the scalar meaning, so it depends on nothing behind
      the data, and no load reaches more than 12 bytes past it. */
  method DecodeVector(keys: seq<Byte>, data: seq<Byte>, out: array<U32>, count: nat, prev0: U32) returns (p: nat)
    requires count <= 4 * |keys| && count <= out.Length
    requires EndOf(keys, 0, 0, count) + (if count >= 32 then 12 else 0) <= |data|
    modifies out
    ensures p == EndOf(keys, 0, 0, count)
    ensures out[..count] == Decoded(keys, 0, data, 0, count, prev0)
  {
    hide EndOf, Decoded, Tail;
    var keybytes := count / 4;
    var o: nat, prev: U32 := 0, prev0;
    p := 0;
    TailIs(keys, data, count, prev0);
    WholeBlocks(count);
    if keybytes >= 8 {
      p, o, prev := DecodeBlocks(keys, data, out, count, prev0);
    } else {
      assert out[..0] == [] && count % 32 == count;
    }
    var consumedkeys := keybytes - keybytes % 8;
    p := DecodeScalar(keys, 4 * consumedkeys, data, p, out, o, count % 32, prev);
  }

  /** Key bytes in whole blocks of eight, and the values under them. */
  lemma {:induction false} WholeBlocks(count: nat)
    ensures
      var keybytes := count / 4;
      && 4 * (keybytes - keybytes % 8) == count - count % 32
      && (keybytes >= 8 <==> count >= 32)
      && 4 * (keybytes - keybytes % 8) % 4 == 0
  {
    var q, r := count / 32, count % 32;
    assert count == 32 * q + r && count / 4 == 8 * q + r / 4 && r / 4 < 8;
    assert count / 4 % 8 == r / 4;
  }

  lemma {:induction false} TailIs(keys: seq<Byte>, data: seq<Byte>, count: nat, prev: U32)
    requires count <= 4 * |keys| && EndOf(keys, 0, 0, count) <= |data|
    ensures Tail(keys, 0, data, 0, count, prev) == Decoded(keys, 0, data, 0, count, prev)
  {}

  /** streamvbyte_delta_decode: keys, then data; returns the bytes consumed. */
  method DeltaDecode(input: seq<Byte>, out: array<U32>, count: nat, prev: U32) returns (size: nat)
    requires count <= out.Length && (count + 3) / 4 <= |input|
    requires var keyLen := (count + 3) / 4;
             keyLen + EndOf(input[..keyLen], 0, 0, count) + (if count >= 32 then 12 else 0) <= |input|
    modifies out
    ensures var keyLen := (count + 3) / 4;
            && size == keyLen + EndOf(input[..keyLen], 0, 0, count)
            && out[..count] == Decoded(input[..keyLen], 0, input[keyLen..], 0, count, prev)
  {
    var keyLen := (count + 3) / 4;
    var p := DecodeVector(input[..keyLen], input[keyLen..], out, count, prev);
    size := keyLen + p;
  }

  /** Encoding into a buffer and decoding from it restores the integers, and
      both report the same number of bytes. */
  method EncodeThenDecode(xs: seq<U32>, prev: U32) returns (ys: seq<U32>, written: nat, read: nat)
    ensures ys == xs && written == read == |Encoded(xs, prev)|
  {
    hide EndOf, Decoded, KeysOf, DataOf, Deltas;
    var buffer := new Byte[5 * |xs| + 12];
    SizeBound(Deltas(xs, prev));
    written := DeltaEncode(xs, buffer, prev);
    var out := new U32[|xs|];
    ghost var ds, post := Deltas(xs, prev), buffer[written..];
    RoundTrip(xs, prev, post);
    var input := buffer[..];
    ghost var keyLen := (|xs| + 3) / 4;
    assert input == Encoded(xs, prev) + post;
    assert input[..keyLen] == KeysOf(ds) && input[keyLen..] == DataOf(ds) + post;
    read := DeltaDecode(input, out, |xs|, prev);
    ys := out[..];
  }

  lemma {:induction false} SizeBound(ds: seq<U32>)
    ensures |DataOf(ds)| <= 4 * |ds|
  {
    hide Bytes;
    if ds != [] { SizeBound(ds[1..]); }
  }
}
