/**
 The delta form of StreamVByte: 32-bit integers stored as mod-2^32 differences
 of one to four bytes each, with the lengths in 2-bit codes, four to a key byte.
 */
module StreamVByte {
  import opened Wrappers
  import opened Coding

  const WORD: int := 0x1_0000_0000

  // ------------------------------------------------------------- the format

  /** (key >> 2 j) & 3. */
  function CodeIn(key: Byte, j: nat): (c: nat)
    ensures c < 4
  {
    match j
    case 0 => key % 4
    case 1 => key / 4 % 4
    case 2 => key / 16 % 4
    case _ => key / 64
  }

  /** The 2-bit code of integer i: its byte length less one. */
  function CodeAt(keys: seq<Byte>, i: nat): (c: nat)
    requires i / 4 < |keys|
    ensures c < 4
  {
    CodeIn(keys[i / 4], i % 4)
  }

  /** The little-endian number in len bytes at offset p. */
  function Word(data: seq<Byte>, p: nat, len: nat): U32
    requires 1 <= len <= 4 && p + len <= |data|
  {
    data[p] as int
    + (if len > 1 then 0x100 * (data[p + 1] as int) else 0)
    + (if len > 2 then 0x1_0000 * (data[p + 2] as int) else 0)
    + (if len > 3 then 0x100_0000 * (data[p + 3] as int) else 0)
  }

  /** Where the data of integers i .. i + n ends if it starts at p. */
  function EndOf(keys: seq<Byte>, i: nat, p: nat, n: nat): (q: nat)
    requires i + n <= 4 * |keys|
    ensures p + n <= q <= p + 4 * n
    decreases n
  {
    if n == 0 then p else EndOf(keys, i + 1, p + CodeAt(keys, i) + 1, n - 1)
  }

  /** The meaning of a stream: integers i .. i + n, each the previous plus its delta. */
  function Decoded(keys: seq<Byte>, i: nat, data: seq<Byte>, p: nat, n: nat, prev: U32): (xs: seq<U32>)
    requires i + n <= 4 * |keys| && EndOf(keys, i, p, n) <= |data|
    ensures |xs| == n
    decreases n
  {
    if n == 0 then [] else
      var len := CodeAt(keys, i) + 1;
      var x := (Word(data, p, len) + prev) % WORD;
      [x] + Decoded(keys, i + 1, data, p + len, n - 1, x)
  }

  function Deltas(xs: seq<U32>, prev: U32): (ds: seq<U32>)
    ensures |ds| == |xs|
  {
    if xs == [] then [] else [(xs[0] - prev) % WORD] + Deltas(xs[1..], xs[0])
  }

  function Bytes(v: U32): (bs: seq<Byte>)
    ensures 1 <= |bs| <= 4
  {
    if v < 0x100 then [v]
    else if v < 0x1_0000 then [v % 256, v / 256]
    else if v < 0x100_0000 then [v % 256, v / 256 % 256, v / 0x1_0000]
    else Fixed32(v)
  }

  function DataOf(ds: seq<U32>): seq<Byte> {
    if ds == [] then [] else Bytes(ds[0]) + DataOf(ds[1..])
  }

  function Code(ds: seq<U32>, i: nat): (c: nat)
    ensures c < 4
  {
    if i < |ds| then |Bytes(ds[i])| - 1 else 0
  }

  function KeyByte(ds: seq<U32>, q: nat): Byte {
    Code(ds, 4 * q) + 4 * Code(ds, 4 * q + 1) + 16 * Code(ds, 4 * q + 2) + 64 * Code(ds, 4 * q + 3)
  }

  function KeysOf(ds: seq<U32>): (ks: seq<Byte>)
    ensures |ks| == (|ds| + 3) / 4
  {
    seq((|ds| + 3) / 4, q requires 0 <= q => KeyByte(ds, q))
  }

  function Encoded(xs: seq<U32>, prev: U32): seq<Byte> {
    KeysOf(Deltas(xs, prev)) + DataOf(Deltas(xs, prev))
  }

  /** A delta takes as few bytes as it can: 256^(n - 1) <= v < 256^n. */
  lemma {:induction false} BytesMinimal(v: U32)
    ensures
      var n := |Bytes(v)|;
      && v < [0x100, 0x1_0000, 0x100_0000, 0x1_0000_0000][n - 1]
      && (n > 1 ==> v >= [0x100, 0x1_0000, 0x100_0000][n - 2])
      && LittleEndian(Bytes(v)) == v
  {
    hide LittleEndian;
    Fixed32RoundTrip(v, []);
    assert Fixed32(v) + [] == Fixed32(v) && Fixed32(v)[..4] == Fixed32(v);
    Fixed32Is(Fixed32(v));
    if v < 0x100_0000 { FewBytes(Bytes(v)); }
    assert v < 0x1_0000 ==> v == v % 256 + 256 * (v / 256);
    assert v < 0x100_0000 ==> v == v % 256 + 256 * (v / 256 % 256) + 0x1_0000 * (v / 0x1_0000);
  }

  lemma {:induction false} FewBytes(bs: seq<Byte>)
    requires 1 <= |bs| <= 3
    ensures LittleEndian(bs) ==
            bs[0] as int + (if |bs| > 1 then 256 * (bs[1] as int) else 0) +
            (if |bs| > 2 then 0x1_0000 * (bs[2] as int) else 0)
  {
    var a, b, c := bs[1..], bs[1..][|bs| - 1..], if |bs| == 3 then bs[2..] else [];
    assert b == [] && (|bs| == 1 ==> a == []) && (|bs| == 2 ==> a[1..] == b);
    assert |bs| == 3 ==> a[1..] == c && c[1..] == b;
    assert LittleEndian(bs) == bs[0] + 256 * LittleEndian(a);
    assert |bs| > 1 ==> LittleEndian(a) == a[0] + 256 * LittleEndian(a[1..]);
  }

  /** The codes of the last key byte that stand for no integer are zero. */
  lemma {:induction false} PaddingZero(ds: seq<U32>, i: nat)
    requires |ds| <= i < 4 * |KeysOf(ds)|
    ensures CodeAt(KeysOf(ds), i) == 0
  {
    hide Bytes, CodeIn;
    var q := i / 4;
    UnpackKey(Code(ds, 4 * q), Code(ds, 4 * q + 1), Code(ds, 4 * q + 2), Code(ds, 4 * q + 3), i % 4);
    assert i == 4 * q + i % 4;
  }

  // ------------------------------------------------------------- round trip

  lemma {:induction false} CodeOfKeys(ds: seq<U32>, i: nat)
    requires i < |ds|
    ensures CodeAt(KeysOf(ds), i) == |Bytes(ds[i])| - 1
  {
    hide Bytes, CodeIn;
    var q := i / 4;
    UnpackKey(Code(ds, 4 * q), Code(ds, 4 * q + 1), Code(ds, 4 * q + 2), Code(ds, 4 * q + 3), i % 4);
    assert i == 4 * q + i % 4;
  }

  lemma {:induction false} UnpackKey(a: nat, b: nat, c: nat, d: nat, j: nat)
    requires a < 4 && b < 4 && c < 4 && d < 4 && j < 4
    ensures CodeIn(a + 4 * b + 16 * c + 64 * d, j) == if j == 0 then a else if j == 1 then b else if j == 2 then c
            else d
  {
    var k := a + 4 * b + 16 * c + 64 * d;
    assert k == a + 4 * (b + 4 * c + 16 * d) && k / 4 == b + 4 * (c + 4 * d);
    assert k == (a + 4 * b) + 16 * (c + 4 * d) && k / 16 == c + 4 * d;
    assert k == (a + 4 * b + 16 * c) + 64 * d;
  }

  lemma {:induction false} WordOfBytes(v: U32, pre: seq<Byte>, post: seq<Byte>)
    ensures Word(pre + Bytes(v) + post, |pre|, |Bytes(v)|) == v
  {
    if v >= 0x100_0000 {
      Fixed32RoundTrip(v, []);
      assert Fixed32(v) + [] == Fixed32(v);
    }
    var data, bs := pre + Bytes(v) + post, Bytes(v);
    assert forall j :: 0 <= j < |bs| ==> data[|pre| + j] == bs[j];
    assert v < 0x1_0000 ==> v == v % 256 + 256 * (v / 256);
    assert v < 0x100_0000 ==> v == v % 256 + 256 * (v / 256 % 256) + 0x1_0000 * (v / 0x1_0000);
  }

  /** Decoding the encoding from integer i on. */
  lemma {:induction false} DecodeSuffix(ds: seq<U32>, i: nat, xs: seq<U32>, prev: U32, pre: seq<Byte>, post: seq<Byte>)
    requires i <= |ds| && ds[i..] == Deltas(xs, prev)
    ensures var data := pre + DataOf(ds[i..]) + post;
            && EndOf(KeysOf(ds), i, |pre|, |xs|) == |pre| + |DataOf(ds[i..])|
            && Decoded(KeysOf(ds), i, data, |pre|, |xs|, prev) == xs
    decreases |xs|
  {
    hide CodeAt, Word, Bytes, KeysOf, KeyByte;
    if xs != [] {
      var d := ds[i];
      assert ds[i..][0] == d && ds[i..][1..] == ds[i + 1..];
      CodeOfKeys(ds, i);
      var data := pre + DataOf(ds[i..]) + post;
      assert data == pre + Bytes(d) + (DataOf(ds[i + 1..]) + post);
      WordOfBytes(d, pre, DataOf(ds[i + 1..]) + post);
      assert data == (pre + Bytes(d)) + DataOf(ds[i + 1..]) + post;
      DecodeSuffix(ds, i + 1, xs[1..], xs[0], pre + Bytes(d), post);
      AddBack(xs[0], prev);
    }
  }

  lemma {:induction false} AddBack(x: U32, prev: U32)
    ensures ((x - prev) % WORD + prev) % WORD == x
  {}

  /** Decoding what was encoded gives the input back, for every array and every
      starting value, sorted or not, and consumes just the bytes written. */
  lemma {:induction false} RoundTrip(xs: seq<U32>, prev: U32, post: seq<Byte>)
    ensures var ds := Deltas(xs, prev);
            && EndOf(KeysOf(ds), 0, 0, |xs|) == |DataOf(ds)|
            && Decoded(KeysOf(ds), 0, DataOf(ds) + post, 0, |xs|, prev) == xs
  {
    var ds := Deltas(xs, prev);
    assert ds[0..] == ds && [] + DataOf(ds) + post == DataOf(ds) + post;
    DecodeSuffix(ds, 0, xs, prev, [], post);
  }

  lemma {:induction false} SameWord(data: seq<Byte>, data': seq<Byte>, end: nat, p: nat, len: nat)
    requires end <= |data| && end <= |data'| && data[..end] == data'[..end] && 1 <= len <= 4 && p + len <= end
    ensures Word(data, p, len) == Word(data', p, len)
  {
    forall j | 0 <= j < end ensures data[j] == data'[j] { assert data[..end][j] == data'[..end][j]; }
  }

  /** The meaning of a stream does not depend on anything behind its data. */
  lemma {:induction false} DecodedLocal(keys: seq<Byte>, i: nat, data: seq<Byte>, data': seq<Byte>, p: nat, n: nat,
      prev: U32)
    requires i + n <= 4 * |keys| && EndOf(keys, i, p, n) <= |data| && EndOf(keys, i, p, n) <= |data'|
    requires data[..EndOf(keys, i, p, n)] == data'[..EndOf(keys, i, p, n)]
    ensures Decoded(keys, i, data, p, n, prev) == Decoded(keys, i, data', p, n, prev)
    decreases n
  {
    hide CodeAt, Word;
    if n > 0 {
      var len, end := CodeAt(keys, i) + 1, EndOf(keys, i, p, n);
      SameWord(data, data', end, p, len);
      DecodedLocal(keys, i + 1, data, data', p + len, n - 1, (Word(data, p, len) + prev) % WORD);
    }
  }

  // ------------------------------------------------------- the scalar coder

  /** A 2-bit code moved to its place in the key byte. */
  function Placed(code: nat, shift: nat): nat {
    match shift
    case 0 => code
    case 2 => 4 * code
    case 4 => 16 * code
    case _ => 64 * code
  }

  /** The codes of integers 4q .. 4q + m, as they gather in the key byte. */
  function PartialKey(ds: seq<U32>, q: nat, m: nat): nat
    requires m <= 4
  {
    if m == 0 then 0 else PartialKey(ds, q, m - 1) + Placed(Code(ds, 4 * q + m - 1), 2 * (m - 1))
  }

  lemma {:induction false} PartialKeyFull(ds: seq<U32>, q: nat, m: nat)
    requires m <= 4 && (m == 4 || |ds| <= 4 * q + m)
    ensures PartialKey(ds, q, m) == KeyByte(ds, q)
  {
    assert PartialKey(ds, q, 0) == 0;
    assert m > 0 ==> PartialKey(ds, q, 1) == Code(ds, 4 * q);
    assert m > 1 ==> PartialKey(ds, q, 2) == Code(ds, 4 * q) + 4 * Code(ds, 4 * q + 1);
    assert m > 2 ==> PartialKey(ds, q, 3) == Code(ds, 4 * q) + 4 * Code(ds, 4 * q + 1) + 16 * Code(ds, 4 * q + 2);
  }

  lemma {:induction false} DataOfSnoc(ds: seq<U32>, c: nat)
    requires c < |ds|
    ensures DataOf(ds[..c + 1]) == DataOf(ds[..c]) + Bytes(ds[c])
    ensures DataOf(ds) == DataOf(ds[..c + 1]) + DataOf(ds[c + 1..])
    decreases c
  {
    hide Bytes;
    if c == 0 {
      assert ds[..1] == [ds[0]] && DataOf(ds[..1][1..]) == [] && DataOf(ds[..0]) == [];
    } else {
      DataOfSnoc(ds[1..], c - 1);
      assert ds[..c + 1][1..] == ds[1..][..c] && ds[..c][1..] == ds[1..][..c - 1] && ds[1..][c..] == ds[c + 1..];
    }
  }

  lemma {:induction false} DeltaAt(xs: seq<U32>, prev: U32, c: nat)
    requires c < |xs|
    ensures Deltas(xs, prev)[c] == (xs[c] - if c == 0 then prev else xs[c - 1]) % WORD
    decreases c
  {
    if c > 0 { DeltaAt(xs[1..], xs[0], c - 1); }
  }

  /** _encode_data: write a value in as few bytes as it needs. */
  method EncodeData(val: U32, out: array<Byte>, p: nat) returns (code: nat, q: nat)
    requires p + |Bytes(val)| <= out.Length
    modifies out
    ensures code == |Bytes(val)| - 1 && q == p + |Bytes(val)|
    ensures out[..q] == old(out[..p]) + Bytes(val)
  {
    if val < 0x100 {
      out[p] := val;
      code := 0;
    } else if val < 0x1_0000 {
      out[p], out[p + 1] := val % 256, val / 256;
      code := 1;
    } else if val < 0x100_0000 {
      out[p], out[p + 1] := val % 256, val / 256 % 256;
      out[p + 2] := val / 0x1_0000;
      code := 2;
    } else {
      out[p], out[p + 1], out[p + 2], out[p + 3] := val % 256, val / 0x100 % 256, val / 0x1_0000 % 256,
          val / 0x100_0000;
      code := 3;
    }
    q := p + code + 1;
  }

  /** The buffer after c integers: keyPtr finished key bytes, and their data. */
  ghost predicate Writing(out: array<Byte>, ds: seq<U32>, c: nat, keyPtr: nat, dataPtr: nat)
    reads out
  {
    var keyLen := (|ds| + 3) / 4;
    && c <= |ds| && keyPtr <= keyLen
    && dataPtr == keyLen + |DataOf(ds[..c])| <= out.Length
    && out[..keyPtr] == KeysOf(ds)[..keyPtr] && out[keyLen..dataPtr] == DataOf(ds[..c])
  }

  method WriteKey(key: Byte, out: array<Byte>, keyPtr: nat, ghost ds: seq<U32>, ghost c: nat, ghost dataPtr: nat)
    requires Writing(out, ds, c, keyPtr, dataPtr) && keyPtr < (|ds| + 3) / 4 && key == KeyByte(ds, keyPtr)
    modifies out
    ensures Writing(out, ds, c, keyPtr + 1, dataPtr)
  {
    hide KeyByte, DataOf;
    out[keyPtr] := key;
    assert KeysOf(ds)[..keyPtr + 1] == KeysOf(ds)[..keyPtr] + [key];
    assert out[..keyPtr + 1] == out[..keyPtr] + [key];
  }

  method WriteData(val: U32, out: array<Byte>, dataPtr: nat, ghost ds: seq<U32>, ghost c: nat, ghost keyPtr: nat)
    returns (code: nat, q: nat)
    requires Writing(out, ds, c, keyPtr, dataPtr) && c < |ds| && ds[c] == val
    requires (|ds| + 3) / 4 + |DataOf(ds)| <= out.Length
    modifies out
    ensures Writing(out, ds, c + 1, keyPtr, q) && code == Code(ds, c)
  {
    hide KeysOf, DataOf, Bytes;
    DataOfSnoc(ds, c);
    ghost var before, keyLen := out[..dataPtr], (|ds| + 3) / 4;
    code, q := EncodeData(val, out, dataPtr);
    assert out[..keyPtr] == out[..q][..keyPtr] == before[..keyPtr];
    assert out[keyLen..q] == out[..q][keyLen..] == before[keyLen..] + Bytes(val);
  }

  /** streamvbyte_delta_encode into a buffer, keys first; returns the bytes used. */
  method DeltaEncode(xs: seq<U32>, out: array<Byte>, prev0: U32) returns (size: nat)
    requires |Encoded(xs, prev0)| <= out.Length
    modifies out
    ensures size == |Encoded(xs, prev0)| && out[..size] == Encoded(xs, prev0)
  {
    hide Writing, KeyByte, PartialKey, Code, Placed, Deltas, KeysOf, DataOf, Bytes;
    ghost var ds := Deltas(xs, prev0);
    var dataPtr: nat, keyPtr: nat, prev := (|xs| + 3) / 4, 0, prev0;
    NothingWritten(out, ds);
    if |xs| == 0 {
      AllWritten(out, ds, dataPtr);
      return dataPtr;
    }
    var shift: nat, key: nat := 0, 0;
    PartialKeyZero(ds, 0);
    var c := 0;
    while c < |xs|
      invariant c <= |xs| && prev == (if c == 0 then prev0 else xs[c - 1])
      invariant 0 <= shift <= 8 && shift % 2 == 0 && shift / 2 == c - 4 * keyPtr && (c > 0 ==> shift > 0)
      invariant key == PartialKey(ds, keyPtr, shift / 2)
      invariant Writing(out, ds, c, keyPtr, dataPtr)
    {
      if shift == 8 {
        PartialKeyFull(ds, keyPtr, 4);
        WriteKey(key, out, keyPtr, ds, c, dataPtr);
        keyPtr, shift, key := keyPtr + 1, 0, 0;
        PartialKeyZero(ds, keyPtr);
      }
      var val := (xs[c] - prev) % WORD;
      prev := xs[c];
      DeltaAt(xs, prev0, c);
      var code;
      code, dataPtr := WriteData(val, out, dataPtr, ds, c, keyPtr);
      PartialKeyStep(ds, keyPtr, shift / 2);
      key := key + Placed(code, shift);
      shift := shift + 2;
      c := c + 1;
    }
    PartialKeyFull(ds, keyPtr, shift / 2);
    WriteKey(key, out, keyPtr, ds, c, dataPtr);
    AllWritten(out, ds, dataPtr);
    size := dataPtr;
  }

  lemma {:induction false} NothingWritten(out: array<Byte>, ds: seq<U32>)
    requires (|ds| + 3) / 4 <= out.Length
    ensures Writing(out, ds, 0, 0, (|ds| + 3) / 4)
  {}

  lemma {:induction false} AllWritten(out: array<Byte>, ds: seq<U32>, dataPtr: nat)
    requires Writing(out, ds, |ds|, (|ds| + 3) / 4, dataPtr)
    ensures dataPtr == |KeysOf(ds) + DataOf(ds)| <= out.Length && out[..dataPtr] == KeysOf(ds) + DataOf(ds)
  {
    var keyLen := (|ds| + 3) / 4;
    assert ds[..|ds|] == ds && KeysOf(ds)[..keyLen] == KeysOf(ds);
    assert out[..dataPtr] == out[..keyLen] + out[keyLen..dataPtr];
  }

  lemma {:induction false} PartialKeyZero(ds: seq<U32>, q: nat)
    ensures PartialKey(ds, q, 0) == 0
  {}

  lemma {:induction false} PartialKeyStep(ds: seq<U32>, q: nat, m: nat)
    requires m < 4
    ensures PartialKey(ds, q, m + 1) == PartialKey(ds, q, m) + Placed(Code(ds, 4 * q + m), 2 * m) < 256
  {
    assert PartialKey(ds, q, 0) == 0;
    assert m >= 1 ==> PartialKey(ds, q, 1) <= 3;
    assert m >= 2 ==> PartialKey(ds, q, 2) <= 15;
    assert m >= 3 ==> PartialKey(ds, q, 3) <= 63;
  }
}
