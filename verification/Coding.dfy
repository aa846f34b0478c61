/** Fixed-width and variable-width integers as util/coding.cc writes them. */
module Coding {
  import opened Wrappers

  type U32 = x: int | 0 <= x < 0x1_0000_0000

  // ------------------------------------------------------------ fixed width

  function Fixed32(v: U32): (bs: seq<Byte>)
    ensures |bs| == 4
  {
    [v % 256, v / 0x100 % 256, v / 0x1_0000 % 256, v / 0x100_0000]
  }

  function DecodeFixed32(bs: seq<Byte>): U32
    requires |bs| >= 4
  {
    bs[0] as int + 0x100 * (bs[1] as int) + 0x1_0000 * (bs[2] as int) + 0x100_0000 * (bs[3] as int)
  }

  lemma {:induction false} Fixed32RoundTrip(v: U32, rest: seq<Byte>)
    ensures DecodeFixed32(Fixed32(v) + rest) == v
  {
    assert v == 256 * (v / 256) + v % 256;
    assert v / 256 == 256 * (v / 256 / 256) + v / 256 % 256;
    assert v / 0x1_0000 == 256 * (v / 0x1_0000 / 256) + v / 0x1_0000 % 256;
  }

  /** The number that bytes spell, least significant byte first. */
  function LittleEndian(bs: seq<Byte>): nat {
    if bs == [] then 0 else bs[0] + 256 * LittleEndian(bs[1..])
  }

  lemma {:induction false} Fixed32Is(bs: seq<Byte>)
    requires |bs| >= 4
    ensures DecodeFixed32(bs) == LittleEndian(bs[..4])
  {
    var a := bs[..4];
    assert a[1..][1..] == a[2..] && a[2..][1..] == a[3..] && a[3..][1..] == [];
    assert LittleEndian(a[3..]) == a[3];
    assert LittleEndian(a[2..]) == a[2] + 256 * LittleEndian(a[3..]);
    assert LittleEndian(a[1..]) == a[1] + 256 * LittleEndian(a[2..]);
  }

  // ---------------------------------------------------- masked checksums

  const MASK_DELTA: U32 := 0xa282ead8

  /** Rotate right by 15 bits and add a constant. */
  function Mask(crc: U32): U32 {
    (crc / 0x8000 + crc % 0x8000 * 0x2_0000 + MASK_DELTA) % 0x1_0000_0000
  }

  function Unmask(masked: U32): U32 {
    var rot := (masked - MASK_DELTA) % 0x1_0000_0000;
    rot / 0x2_0000 + rot % 0x2_0000 * 0x8000
  }

  lemma {:induction false} UnmaskMask(crc: U32)
    ensures Unmask(Mask(crc)) == crc
  {
    var a, b := crc / 0x8000, crc % 0x8000;
    SplitAt17(a, b);
    RotateBack(a + b * 0x2_0000);
  }

  lemma {:induction false} SplitAt17(a: nat, b: nat)
    requires a < 0x2_0000 && b < 0x8000
    ensures a + b * 0x2_0000 < 0x1_0000_0000
    ensures (a + b * 0x2_0000) / 0x2_0000 == b && (a + b * 0x2_0000) % 0x2_0000 == a
  {}

  lemma {:induction false} RotateBack(rot: U32)
    ensures ((rot + MASK_DELTA) % 0x1_0000_0000 - MASK_DELTA) % 0x1_0000_0000 == rot
  {
    var sum := rot + MASK_DELTA;
    assert sum % 0x1_0000_0000 == if sum < 0x1_0000_0000 then sum else sum - 0x1_0000_0000;
  }

  /** A right rotation by 15 bits takes bit 0 to bit 17 and bit 15 to bit 0. */
  lemma {:induction false} MaskedValues()
    ensures Mask(0) == 0xa282ead8 && Mask(1) == 0xa284ead8 && Mask(0x8000) == 0xa282ead9
    ensures Mask(0xffff_ffff) == 0xa282ead7
  {}

  // --------------------------------------------------------------- 64 bits

  type U64 = x: int | 0 <= x < 0x1_0000_0000_0000_0000

  function Fixed64(v: U64): (bs: seq<Byte>)
    ensures |bs| == 8
  {
    Fixed32(v % 0x1_0000_0000) + Fixed32(v / 0x1_0000_0000)
  }

  function DecodeFixed64(bs: seq<Byte>): U64
    requires |bs| >= 8
  {
    DecodeFixed32(bs) + 0x1_0000_0000 * DecodeFixed32(bs[4..])
  }

  lemma {:induction false} Fixed64RoundTrip(v: U64, rest: seq<Byte>)
    ensures DecodeFixed64(Fixed64(v) + rest) == v
  {
    hide Fixed32, DecodeFixed32;
    var lo, hi := v % 0x1_0000_0000, v / 0x1_0000_0000;
    Fixed32RoundTrip(lo, Fixed32(hi) + rest);
    Fixed32RoundTrip(hi, rest);
    assert Fixed64(v) + rest == Fixed32(lo) + (Fixed32(hi) + rest);
    assert (Fixed64(v) + rest)[4..] == Fixed32(hi) + rest;
  }

  lemma {:induction false} LittleEndianConcat(a: seq<Byte>, b: seq<Byte>)
    requires |a| == 4
    ensures LittleEndian(a + b) == LittleEndian(a) + 0x1_0000_0000 * LittleEndian(b)
  {
    var c := a + b;
    assert c[1..][1..] == c[2..] && c[2..][1..] == c[3..] && c[3..][1..] == b;
    assert a[1..][1..] == a[2..] && a[2..][1..] == a[3..] && a[3..][1..] == [];
    assert LittleEndian(c[3..]) == a[3] + 256 * LittleEndian(b) && LittleEndian(a[3..]) == a[3];
    assert LittleEndian(c[2..]) == a[2] + 256 * LittleEndian(c[3..]);
    assert LittleEndian(a[2..]) == a[2] + 256 * LittleEndian(a[3..]);
    assert LittleEndian(c[1..]) == a[1] + 256 * LittleEndian(c[2..]);
    assert LittleEndian(a[1..]) == a[1] + 256 * LittleEndian(a[2..]);
  }

  lemma {:induction false} Fixed64Is(bs: seq<Byte>)
    requires |bs| >= 8
    ensures DecodeFixed64(bs) == LittleEndian(bs[..8])
  {
    hide DecodeFixed32, LittleEndian;
    Fixed32Is(bs);
    Fixed32Is(bs[4..]);
    assert bs[..8] == bs[..4] + bs[4..][..4];
    LittleEndianConcat(bs[..4], bs[4..][..4]);
  }

  // ------------------------------------------------------- variable width

  /** Seven bits a byte, low bits first, the high bit set on all but the last. */
  function Varint(v: nat): (bs: seq<Byte>)
    ensures 1 <= |bs|
  {
    if v < 128 then [v] else [v % 128 + 128] + Varint(v / 128)
  }

  /** EncodeVarint32, branch by branch. */
  method EncodeVarint32(v: U32) returns (bs: seq<Byte>)
    ensures bs == Varint(v) && |bs| <= 5
  {
    if v < 0x80 {
      bs := [v];
    } else if v < 0x4000 {
      bs := [v % 128 + 128, v / 0x80];
    } else if v < 0x20_0000 {
      bs := [v % 128 + 128, v / 0x80 % 128 + 128, v / 0x4000];
    } else if v < 0x1000_0000 {
      bs := [v % 128 + 128, v / 0x80 % 128 + 128, v / 0x4000 % 128 + 128, v / 0x20_0000];
    } else {
      bs := [v % 128 + 128, v / 0x80 % 128 + 128, v / 0x4000 % 128 + 128, v / 0x20_0000 % 128 + 128, v / 0x1000_0000];
    }
    VarintUnfold(v);
  }

  lemma {:induction false} VarintUnfold(v: U32)
    ensures Varint(v) ==
            if v < 0x80 then [v]
            else if v < 0x4000 then [v % 128 + 128, v / 0x80]
            else if v < 0x20_0000 then [v % 128 + 128, v / 0x80 % 128 + 128, v / 0x4000]
            else if v < 0x1000_0000 then [v % 128 + 128, v / 0x80 % 128 + 128, v / 0x4000 % 128 + 128, v / 0x20_0000]
            else [v % 128 + 128, v / 0x80 % 128 + 128, v / 0x4000 % 128 + 128, v / 0x20_0000 % 128 + 128,
                  v / 0x1000_0000]
  {
    var a, b, c, d := v / 128, v / 0x4000, v / 0x20_0000, v / 0x1000_0000;
    assert a / 128 == b && b / 128 == c && c / 128 == d && d < 128;
    assert v >= 0x80 ==> Varint(v) == [v % 128 + 128] + Varint(a);
    assert a >= 0x80 ==> Varint(a) == [a % 128 + 128] + Varint(b);
    assert b >= 0x80 ==> Varint(b) == [b % 128 + 128] + Varint(c);
    assert c >= 0x80 ==> Varint(c) == [c % 128 + 128] + Varint(d);
  }

  /** The number in at most k bytes at the front, and what follows it. */
  function ReadVarint(bs: seq<Byte>, k: nat): (r: Option<(nat, seq<Byte>)>)
    ensures r.Some? ==> |r.value.1| < |bs|
    decreases k
  {
    if k == 0 || bs == [] then None
    else if bs[0] < 128 then Some((bs[0], bs[1..]))
    else
      var r := ReadVarint(bs[1..], k - 1);
      if r.None? then None else Some((bs[0] as int - 128 + 128 * r.value.0, r.value.1))
  }

  /** GetVarint32: up to five bytes, kept to 32 bits. */
  function GetVarint32(bs: seq<Byte>): (r: Option<(U32, seq<Byte>)>)
    ensures r.Some? ==> |r.value.1| < |bs|
  {
    var r := ReadVarint(bs, 5);
    if r.None? then None else Some((r.value.0 % 0x1_0000_0000, r.value.1))
  }

  lemma {:induction false} ReadVarintBack(v: nat, rest: seq<Byte>, k: nat)
    requires |Varint(v)| <= k
    ensures ReadVarint(Varint(v) + rest, k) == Some((v, rest))
    decreases k
  {
    if v < 128 {
      assert (Varint(v) + rest)[1..] == rest;
    } else {
      assert (Varint(v) + rest)[1..] == Varint(v / 128) + rest;
      ReadVarintBack(v / 128, rest, k - 1);
    }
  }

  lemma {:induction false} GetVarint32Back(v: U32, rest: seq<Byte>)
    ensures GetVarint32(Varint(v) + rest) == Some((v, rest))
  {
    VarintUnfold(v);
    ReadVarintBack(v, rest, 5);
  }

  /** n bytes at the front are one varint: only the last is below 128. */
  ghost predicate VarintAt(bs: seq<Byte>, n: int) {
    1 <= n <= |bs| && bs[n - 1] < 128 && forall i :: 0 <= i < n - 1 ==> bs[i] >= 128
  }

  /** The number spelled by the low seven bits of the bytes, the first lowest. */
  function Number(bs: seq<Byte>): nat {
    if bs == [] then 0 else bs[0] % 128 + 128 * Number(bs[1..])
  }

  /** A varint at the front is read if it is short enough, */
  lemma {:induction false} VarintRead(bs: seq<Byte>, k: nat, n: nat)
    requires VarintAt(bs, n)
    ensures ReadVarint(bs, k) == if n <= k then Some((Number(bs[..n]), bs[n..])) else None
    decreases k
  {
    if k > 0 && n > 1 {
      assert VarintAt(bs[1..], n - 1);
      VarintRead(bs[1..], k - 1, n - 1);
      assert bs[..n][1..] == bs[1..][..n - 1] && bs[1..][n - 1..] == bs[n..];
    } else if n == 1 {
      assert bs[..1][1..] == [];
    }
  }

  /** and what is read is a varint at the front. */
  lemma {:induction false} ReadIsVarint(bs: seq<Byte>, k: nat) returns (n: nat)
    requires ReadVarint(bs, k).Some?
    ensures VarintAt(bs, n) && n <= k
    decreases k
  {
    if bs[0] < 128 {
      n := 1;
    } else {
      var m := ReadIsVarint(bs[1..], k - 1);
      n := m + 1;
      forall i | 0 <= i < n - 1 ensures bs[i] >= 128 { if i > 0 { assert bs[i] == bs[1..][i - 1]; } }
    }
  }

  /** On any input: a number is read exactly when a varint of at most k bytes
      stands at the front, and it is the number that varint spells. */
  lemma {:induction false} ReadVarintExact(bs: seq<Byte>, k: nat, v: nat, rest: seq<Byte>)
    ensures ReadVarint(bs, k) == Some((v, rest)) <==>
            exists n :: VarintAt(bs, n) && n <= k && v == Number(bs[..n]) && rest == bs[n..]
  {
    hide ReadVarint, Number;
    if ReadVarint(bs, k).Some? {
      var n := ReadIsVarint(bs, k);
      VarintRead(bs, k, n);
      forall m | VarintAt(bs, m) ensures m == n { OneVarint(bs, m, n); }
    } else if n :| VarintAt(bs, n) && n <= k {
      VarintRead(bs, k, n);
    }
  }

  lemma {:induction false} OneVarint(bs: seq<Byte>, m: nat, n: nat)
    requires VarintAt(bs, m) && VarintAt(bs, n)
    ensures m == n
  {}

  /** Data with its length before it, in any varint of at most five bytes. */
  ghost predicate Framed(bs: seq<Byte>, data: seq<Byte>, rest: seq<Byte>) {
    exists n :: VarintAt(bs, n) && n <= 5 && Number(bs[..n]) % 0x1_0000_0000 == |data| && bs[n..] == data + rest
  }

  /** PutLengthPrefixedSlice. */
  function Prefixed(data: seq<Byte>): seq<Byte> { Varint(|data|) + data }

  /** GetLengthPrefixedSlice. */
  function GetPrefixed(bs: seq<Byte>): (r: Option<(seq<Byte>, seq<Byte>)>)
    ensures r.Some? ==> |r.value.1| < |bs|
  {
    var r := GetVarint32(bs);
    if r.None? || r.value.0 > |r.value.1| then None
    else Some((r.value.1[..r.value.0], r.value.1[r.value.0..]))
  }

  lemma {:induction false} GetPrefixedBack(data: seq<Byte>, rest: seq<Byte>)
    requires |data| < 0x1_0000_0000
    ensures GetPrefixed(Prefixed(data) + rest) == Some((data, rest))
  {
    assert Prefixed(data) + rest == Varint(|data|) + (data + rest);
    GetVarint32Back(|data|, data + rest);
  }

  /** On any input: a slice is taken exactly when one is framed there. */
  lemma {:induction false} GetPrefixedExact(bs: seq<Byte>, data: seq<Byte>, rest: seq<Byte>)
    ensures GetPrefixed(bs) == Some((data, rest)) <==> Framed(bs, data, rest)
  {
    hide ReadVarint, Number;
    var r := ReadVarint(bs, 5);
    if r.Some? {
      ReadVarintExact(bs, 5, r.value.0, r.value.1);
      var n :| VarintAt(bs, n) && n <= 5 && r.value.0 == Number(bs[..n]) && r.value.1 == bs[n..];
      forall m | VarintAt(bs, m) ensures m == n { OneVarint(bs, m, n); }
      CutAt(bs[n..], data, rest);
    } else if n :| VarintAt(bs, n) && n <= 5 {
      ReadVarintExact(bs, 5, Number(bs[..n]), bs[n..]);
    }
  }

  lemma {:induction false} CutAt(bs: seq<Byte>, data: seq<Byte>, rest: seq<Byte>)
    ensures bs == data + rest <==> |data| <= |bs| && bs[..|data|] == data && bs[|data|..] == rest
  {
    if |data| <= |bs| && bs[..|data|] == data && bs[|data|..] == rest { assert bs == bs[..|data|] + bs[|data|..]; }
  }
}
