/**
 UTF-8 as gumbo reads and writes it: the table-driven decoder against the
 grammar of section 4 of RFC 3629, and the encoder of the string buffer.
 */
module Utf8 {
  import opened Wrappers

  const ACCEPT: nat := 0
  const REJECT: nat := 12
  const REPLACEMENT: int := 0xFFFD

  // ------------------------------------------------- section 4 of RFC 3629

  predicate Tail(b: Byte) { 0x80 <= b <= 0xBF }

  /** UTF8-char. */
  predicate Utf8Char(bs: seq<Byte>) {
    match |bs|
    case 1 => bs[0] <= 0x7F
    case 2 => 0xC2 <= bs[0] <= 0xDF && Tail(bs[1])
    case 3 =>
      && Tail(bs[2])
      && ( || (bs[0] == 0xE0 && 0xA0 <= bs[1] <= 0xBF)
           || (0xE1 <= bs[0] <= 0xEC && Tail(bs[1]))
           || (bs[0] == 0xED && 0x80 <= bs[1] <= 0x9F)
           || (0xEE <= bs[0] <= 0xEF && Tail(bs[1])))
    case 4 =>
      && Tail(bs[2]) && Tail(bs[3])
      && ( || (bs[0] == 0xF0 && 0x90 <= bs[1] <= 0xBF)
           || (0xF1 <= bs[0] <= 0xF3 && Tail(bs[1]))
           || (bs[0] == 0xF4 && 0x80 <= bs[1] <= 0x8F))
    case _ => false
  }

  /** The code point of a well-formed sequence (section 3). */
  function CodePoint(bs: seq<Byte>): int
    requires Utf8Char(bs)
  {
    match |bs|
    case 1 => bs[0] as int
    case 2 => (bs[0] as int - 0xC0) * 64 + (bs[1] as int - 0x80)
    case 3 => (bs[0] as int - 0xE0) * 4096 + (bs[1] as int - 0x80) * 64 + (bs[2] as int - 0x80)
    case _ =>
      (bs[0] as int - 0xF0) * 0x4_0000 + (bs[1] as int - 0x80) * 4096 +
      (bs[2] as int - 0x80) * 64 + (bs[3] as int - 0x80)
  }

  predicate Scalar(c: int) { 0 <= c <= 0x10FFFF && !(0xD800 <= c <= 0xDFFF) }

  /** Part of a character that can still become one. */
  ghost predicate Viable(bs: seq<Byte>) { exists more :: more != [] && Utf8Char(bs + more) }

  // ------------------------------------------------------------ the decoder

  /** The first part of utf8d: character classes. */
  function Class(b: Byte): (c: nat)
    ensures c < 12
  {
    if b <= 0x7F then 0 else if b <= 0x8F then 1 else if b <= 0x9F then 9 else if b <= 0xBF then 7
    else if b <= 0xC1 then 8 else if b <= 0xDF then 2 else if b == 0xE0 then 10 else if b <= 0xEC then 3
    else if b == 0xED then 4 else if b <= 0xEF then 3 else if b == 0xF0 then 11 else if b <= 0xF3 then 6
    else if b == 0xF4 then 5 else 8
  }

  /** The second part of utf8d, row by row. */
  function Next(state: nat, kind: nat): nat
    requires kind < 12
  {
    match state
    case 0 => [0, 12, 24, 36, 60, 96, 84, 12, 12, 12, 48, 72][kind]
    case 24 => [12, 0, 12, 12, 12, 12, 12, 0, 12, 0, 12, 12][kind]
    case 36 => [12, 24, 12, 12, 12, 12, 12, 24, 12, 24, 12, 12][kind]
    case 48 => [12, 12, 12, 12, 12, 12, 12, 24, 12, 12, 12, 12][kind]
    case 60 => [12, 24, 12, 12, 12, 12, 12, 12, 12, 24, 12, 12][kind]
    case 72 => [12, 12, 12, 12, 12, 12, 12, 36, 12, 36, 12, 12][kind]
    case 84 => [12, 36, 12, 12, 12, 12, 12, 36, 12, 36, 12, 12][kind]
    case 96 => [12, 36, 12, 12, 12, 12, 12, 12, 12, 12, 12, 12][kind]
    case _ => 12
  }

  /** (0xff >> type) & byte. */
  function Payload(b: Byte, kind: nat): nat {
    match kind
    case 0 => b
    case 1 => b % 128
    case 2 => b % 64
    case 3 => b % 32
    case 4 => b % 16
    case 5 => b % 8
    case 6 => b % 4
    case 7 => b % 2
    case _ => 0
  }

  /** The code point register after one byte. */
  function Gather(state: nat, codep: nat, b: Byte): nat {
    if state != ACCEPT then b % 64 + codep * 64 else Payload(b, Class(b))
  }

  function Run(bs: seq<Byte>): (r: (nat, nat)) {
    if bs == [] then (ACCEPT, 0) else
      var (state, codep) := Run(bs[..|bs| - 1]);
      var b := bs[|bs| - 1];
      (Next(state, Class(b)), Gather(state, codep, b))
  }

  // ----------------------------------------------------- what a state means

  /** The byte sequences that complete a character from a state. */
  predicate Completes(state: nat, bs: seq<Byte>) {
    match state
    case 0 => bs == []
    case 24 => |bs| == 1 && Tail(bs[0])
    case 36 => |bs| == 2 && Tail(bs[0]) && Tail(bs[1])
    case 48 => |bs| == 2 && 0xA0 <= bs[0] <= 0xBF && Tail(bs[1])
    case 60 => |bs| == 2 && 0x80 <= bs[0] <= 0x9F && Tail(bs[1])
    case 72 => |bs| == 3 && 0x90 <= bs[0] <= 0xBF && Tail(bs[1]) && Tail(bs[2])
    case 84 => |bs| == 3 && Tail(bs[0]) && Tail(bs[1]) && Tail(bs[2])
    case 96 => |bs| == 3 && 0x80 <= bs[0] <= 0x8F && Tail(bs[1]) && Tail(bs[2])
    case _ => false
  }

  predicate IsState(state: nat) { state in {0, 12, 24, 36, 48, 60, 72, 84, 96} }

  lemma {:induction false} NextCompletes(state: nat, b: Byte, rest: seq<Byte>)
    requires IsState(state) && state != ACCEPT
    ensures IsState(Next(state, Class(b)))
    ensures Completes(state, [b] + rest) <==> Completes(Next(state, Class(b)), rest)
  {
    var bs := [b] + rest;
    assert |rest| >= 1 ==> bs[1] == rest[0];
    assert |rest| >= 2 ==> bs[2] == rest[1];
  }

  lemma {:induction false} FirstCompletes(b: Byte, rest: seq<Byte>)
    ensures IsState(Next(ACCEPT, Class(b)))
    ensures Utf8Char([b] + rest) <==> Completes(Next(ACCEPT, Class(b)), rest)
  {
    var bs := [b] + rest;
    assert |rest| >= 1 ==> bs[1] == rest[0];
    assert |rest| >= 2 ==> bs[2] == rest[1];
    assert |rest| >= 3 ==> bs[3] == rest[2];
  }

  /** The state stands for exactly the continuations that make a character. */
  ghost predicate Means(bs: seq<Byte>, state: nat) {
    && IsState(state)
    && forall more :: Utf8Char(bs + more) <==> if bs == [] then Utf8Char(more) else Completes(state, more)
  }

  lemma {:induction false} MeansStep(bs: seq<Byte>, state: nat, b: Byte)
    requires Means(bs, state) && (bs == [] <==> state == ACCEPT)
    ensures Means(bs + [b], Next(state, Class(b)))
  {
    hide Utf8Char, Completes, Next, Class;
    forall more ensures Utf8Char(bs + [b] + more) <==> Completes(Next(state, Class(b)), more) {
      assert bs + [b] + more == bs + ([b] + more);
      if bs == [] { FirstCompletes(b, more); } else { NextCompletes(state, b, more); }
    }
    if bs == [] { FirstCompletes(b, []); } else { NextCompletes(state, b, []); }
  }

  lemma {:induction false} MeansStart()
    ensures Means([], ACCEPT)
  {
    forall more ensures Utf8Char([] + more) <==> Utf8Char(more) { assert [] + more == more; }
  }

  /** Accepting, rejecting and waiting, in terms of the grammar. */
  lemma {:induction false} MeansVerdict(bs: seq<Byte>, state: nat)
    requires Means(bs, state) && bs != []
    ensures state == ACCEPT <==> Utf8Char(bs)
    ensures state != ACCEPT && state != REJECT <==> Viable(bs)
  {
    hide Utf8Char;
    assert bs + [] == bs;
    assert Utf8Char(bs + []) <==> Completes(state, []);
    var more: seq<Byte> :=
      match state
      case 24 => [0x80]
      case 36 => [0x80, 0x80]
      case 48 => [0xA0, 0x80]
      case 60 => [0x80, 0x80]
      case 72 => [0x90, 0x80, 0x80]
      case 84 => [0x80, 0x80, 0x80]
      case _ => [0x80, 0x80, 0x80];
    if state != ACCEPT && state != REJECT {
      assert Completes(state, more);
      assert Utf8Char(bs + more);
    }
    if Viable(bs) {
      var m :| m != [] && Utf8Char(bs + m);
      assert Completes(state, m);
    }
  }

  // ------------------------------------------------------------- exactness

  ghost predicate NoEarlierAccept(bs: seq<Byte>) {
    forall k :: 0 < k < |bs| ==> Run(bs[..k]).0 != ACCEPT
  }

  lemma {:induction false} RunMeans(bs: seq<Byte>, k: nat)
    requires k <= |bs| && forall j :: 0 < j < k ==> Run(bs[..j]).0 != ACCEPT
    ensures Means(bs[..k], Run(bs[..k]).0)
    decreases k
  {
    hide Next, Class, Gather, Means;
    if k == 0 {
      MeansStart();
    } else {
      RunMeans(bs, k - 1);
      var init := bs[..k - 1];
      assert bs[..k][..k - 1] == init && bs[..k] == init + [bs[k - 1]];
      MeansStep(init, Run(init).0, bs[k - 1]);
    }
  }

  /** The decoder accepts for the first time after bs exactly when bs is one
      well-formed character. */
  lemma {:induction false} DecoderExact(bs: seq<Byte>)
    requires bs != []
    ensures Run(bs).0 == ACCEPT && NoEarlierAccept(bs) <==> Utf8Char(bs)
  {
    hide Run, Utf8Char, Means;
    assert bs[..|bs|] == bs;
    if NoEarlierAccept(bs) {
      RunMeans(bs, |bs|);
      MeansVerdict(bs, Run(bs).0);
    }
    if Utf8Char(bs) {
      forall k | 0 < k < |bs| ensures Run(bs[..k]).0 != ACCEPT { NotEarlier(bs, k); }
    }
  }

  /** A proper prefix of a character is not accepted. */
  lemma {:induction false} NotEarlier(bs: seq<Byte>, k: nat)
    requires Utf8Char(bs) && 0 < k < |bs|
    ensures Run(bs[..k]).0 != ACCEPT
    decreases k
  {
    hide Run, Utf8Char;
    forall j | 0 < j < k ensures Run(bs[..j]).0 != ACCEPT { NotEarlier(bs, j); }
    RunMeans(bs, k);
    assert bs[..k] + bs[k..] == bs;
  }

  /** Anything that can no longer become a character is rejected at once. */
  lemma {:induction false} RejectsExactly(bs: seq<Byte>)
    requires bs != [] && NoEarlierAccept(bs)
    ensures Run(bs).0 == REJECT <==> !Utf8Char(bs) && !Viable(bs)
  {
    hide Run, Utf8Char, Means, Viable;
    assert bs[..|bs|] == bs;
    RunMeans(bs, |bs|);
    MeansVerdict(bs, Run(bs).0);
  }

  /** On acceptance the register holds the character's code point. */
  lemma {:induction false} DecoderValue(bs: seq<Byte>)
    requires Utf8Char(bs)
    ensures Run(bs).1 == CodePoint(bs)
  {
    hide Next, Run, Class, Payload, Utf8Char;
    var n := |bs|;
    assert bs[..n] == bs;
    CharShape(bs);
    RunOne(bs);
    if n > 1 { RunMore(bs, 1); }
    if n > 2 { RunMore(bs, 2); }
    if n > 3 { RunMore(bs, 3); }
  }

  /** The lead byte's payload and the range of the bytes after it. */
  lemma {:induction false} CharShape(bs: seq<Byte>)
    requires Utf8Char(bs)
    ensures 1 <= |bs| <= 4
    ensures Payload(bs[0], Class(bs[0])) == bs[0] as int - [0, 0xC0, 0xE0, 0xF0][|bs| - 1]
    ensures forall k :: 0 < k < |bs| ==> 0x80 <= bs[k] <= 0xBF && bs[k] % 64 == bs[k] as int - 0x80
  {}

  lemma {:induction false} RunOne(bs: seq<Byte>)
    requires bs != []
    ensures Run(bs[..1]) == (Next(ACCEPT, Class(bs[0])), Payload(bs[0], Class(bs[0])))
  {
    assert bs[..1][..0] == [] && bs[..1][0] == bs[0];
  }

  lemma {:induction false} RunMore(bs: seq<Byte>, k: nat)
    requires Utf8Char(bs) && 0 < k < |bs|
    ensures Run(bs[..k + 1]).1 == bs[k] % 64 + Run(bs[..k]).1 * 64
  {
    hide Utf8Char, Next;
    NotEarlier(bs, k);
    assert bs[..k + 1][..k] == bs[..k] && bs[..k + 1][k] == bs[k];
  }

  // ------------------------------------------------------------- the encoder

  /** What the string buffer writes for any 32-bit int, each byte cut to 8 bits. */
  function Encode(c: int): seq<Byte>
    requires -0x8000_0000 <= c < 0x8000_0000
  {
    if c <= 0x7F then [c % 256]
    else if c <= 0x7FF then [0xC0 + c / 64, 0x80 + c % 64]
    else if c <= 0xFFFF then [0xE0 + c / 4096, 0x80 + c / 64 % 64, 0x80 + c % 64]
    else [0xF0 + c / 0x4_0000 % 16, 0x80 + c / 4096 % 64, 0x80 + c / 64 % 64, 0x80 + c % 64]
  }

  /** Every scalar value is encoded as one character that decodes to it, and not earlier. */
  lemma {:induction false} EncodeDecodes(c: int)
    requires Scalar(c)
    ensures Utf8Char(Encode(c)) && CodePoint(Encode(c)) == c
    ensures Run(Encode(c)) == (ACCEPT, c) && NoEarlierAccept(Encode(c))
  {
    EncodeIsChar(c);
    DecoderExact(Encode(c));
    DecoderValue(Encode(c));
  }

  lemma {:induction false} EncodeIsChar(c: int)
    requires Scalar(c)
    ensures Utf8Char(Encode(c)) && CodePoint(Encode(c)) == c
  {
    hide Encode, Utf8Char, CodePoint;
    if c <= 0x7F {
      DigitsIsChar(0, 0, 0, c);
    } else {
      var x, y := c / 64, c / 64 / 64;
      assert c == 64 * x + c % 64 && x == 64 * y + x % 64 && y == 64 * (y / 64) + y % 64;
      DigitsIsChar(y / 64, y % 64, x % 64, c % 64);
    }
  }

  /** The encoding of an int stands for it exactly when it is a scalar value. */
  lemma {:induction false} EncodeExactIff(c: int)
    requires -0x8000_0000 <= c < 0x8000_0000
    ensures Utf8Char(Encode(c)) && CodePoint(Encode(c)) == c <==> Scalar(c)
  {
    hide Encode, Utf8Char, CodePoint;
    if Scalar(c) { EncodeIsChar(c); }
    if Utf8Char(Encode(c)) { CodePointRange(Encode(c)); }
  }

  lemma {:induction false} DigitsIsChar(a: nat, b: nat, c: nat, d: nat)
    requires a < 8 && b < 64 && c < 64 && (d < 64 || (a == b == c == 0 && d <= 0x7F))
    requires Scalar(a * 0x4_0000 + b * 4096 + c * 64 + d)
    ensures
      var n := a * 0x4_0000 + b * 4096 + c * 64 + d;
      Utf8Char(Encode(n)) && CodePoint(Encode(n)) == n
  {
    hide Encode;
    EncodeDigits(a, b, c, d);
  }

  /** A well-formed character is the encoding of its code point, a scalar value. */
  lemma {:induction false} CharIsEncoded(bs: seq<Byte>)
    requires Utf8Char(bs)
    ensures Scalar(CodePoint(bs)) && Encode(CodePoint(bs)) == bs
  {
    hide Encode;
    CodePointRange(bs);
    assert |bs| == 1 ==> bs == [bs[0]];
    assert |bs| == 2 ==> bs == [bs[0], bs[1]];
    assert |bs| == 3 ==> bs == [bs[0], bs[1], bs[2]];
    assert |bs| == 4 ==> bs == [bs[0], bs[1], bs[2], bs[3]];
    match |bs|
    case 1 => EncodeDigits(0, 0, 0, bs[0]);
    case 2 => EncodeDigits(0, 0, bs[0] as int - 0xC0, bs[1] as int - 0x80);
    case 3 => EncodeDigits(0, bs[0] as int - 0xE0, bs[1] as int - 0x80, bs[2] as int - 0x80);
    case _ => EncodeDigits(bs[0] as int - 0xF0, bs[1] as int - 0x80, bs[2] as int - 0x80, bs[3] as int - 0x80);
  }

  /** No overlong form and no surrogate is well formed. */
  lemma {:induction false} CodePointRange(bs: seq<Byte>)
    requires Utf8Char(bs)
    ensures Scalar(CodePoint(bs))
    ensures |bs| == if CodePoint(bs) <= 0x7F then 1 else if CodePoint(bs) <= 0x7FF then 2
            else if CodePoint(bs) <= 0xFFFF then 3 else 4
  {}

  /** Encode in terms of base-64 digits. */
  lemma {:induction false} EncodeDigits(a: nat, b: nat, c: nat, d: nat)
    requires a < 8 && b < 64 && c < 64 && (d < 64 || (a == b == c == 0 && d <= 0x7F))
    ensures
      var n := a * 0x4_0000 + b * 4096 + c * 64 + d;
      Encode(n) ==
        if n <= 0x7F then [n]
        else if n <= 0x7FF then [0xC0 + c + b * 64, 0x80 + d]
        else if n <= 0xFFFF then [0xE0 + b, 0x80 + c, 0x80 + d]
        else [0xF0 + a, 0x80 + b, 0x80 + c, 0x80 + d]
  {
    var n := a * 0x4_0000 + b * 4096 + c * 64 + d;
    if n > 0x7F {
      Digits((a * 64 + b) * 64 + c, d);
      Digits(a * 64 + b, c);
      Digits(a, b);
      assert n == ((a * 64 + b) * 64 + c) * 64 + d;
      assert n / 4096 == n / 64 / 64 && n / 0x4_0000 == n / 64 / 64 / 64;
    }
  }

  lemma {:induction false} Digits(hi: nat, lo: nat)
    requires lo < 64
    ensures (hi * 64 + lo) / 64 == hi && (hi * 64 + lo) % 64 == lo
  {}
}
