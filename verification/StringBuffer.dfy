/** gumbo's growable string: capacity doubling over a heap array, and code
    points appended in UTF-8. */
module StringBuffers {
  import opened Wrappers
  import opened Utf8

  const DEFAULT_SIZE: nat := 5

  /** c >> (6 * i). */
  function Sextets(c: int, i: nat): int
    requires i <= 3
  {
    match i case 0 => c case 1 => c / 64 case 2 => c / 4096 case _ => c / 0x4_0000
  }

  /** prefix | x, cut to 8 bits: the prefix of n continuation bytes covers the high bits. */
  function Lead(n: nat, x: int): Byte
    requires n <= 3
  {
    match n case 0 => x % 256 case 1 => 0xC0 + x % 64 case 2 => 0xE0 + x % 32 case _ => 0xF0 + x % 16
  }

  /** One lead byte with its prefix, then the low groups of six bits, high to low. */
  lemma {:induction false} EncodeByGroups(c: int, n: nat)
    requires -0x8000_0000 <= c < 0x8000_0000
    requires n == if c <= 0x7F then 0 else if c <= 0x7FF then 1 else if c <= 0xFFFF then 2 else 3
    ensures |Encode(c)| == n + 1
    ensures Encode(c)[0] == Lead(n, Sextets(c, n))
    ensures forall j :: 0 < j <= n ==> Encode(c)[j] == 0x80 + Sextets(c, n - j) % 64
  {}

  lemma {:induction false} TakeOneMore(bs: seq<Byte>, k: nat)
    requires k < |bs|
    ensures bs[..k + 1] == bs[..k] + [bs[k]]
  {}

  /** b comes from a by doubling, any number of times. */
  predicate Doubled(a: nat, b: nat)
    decreases b - a
  {
    a == b || (0 < a < b && Doubled(2 * a, b))
  }

  lemma {:induction false} DoubledAgain(a: nat, b: nat)
    requires Doubled(a, b) && 0 < a
    ensures Doubled(a, 2 * b)
    decreases b - a
  {
    if a < b { DoubledAgain(2 * a, b); }
  }

  class StringBuffer {
    var data: array<Byte>
    var length: nat
    var capacity: nat

    ghost predicate Valid()
      reads this
    {
      length <= capacity == data.Length && 0 < capacity
    }

    ghost function Contents(): seq<Byte>
      requires Valid()
      reads this, data
    {
      data[..length]
    }

    constructor ()
      ensures Valid() && fresh(data) && Contents() == [] && capacity == DEFAULT_SIZE
    {
      data := new Byte[DEFAULT_SIZE];
      length, capacity := 0, DEFAULT_SIZE;
    }

    /** Room for n more bytes; the contents stay. The capacity is doubled until
        it suffices and no further. */
    method MaybeResize(n: nat)
      requires Valid()
      modifies this`data, this`capacity
      ensures Valid() && (data == old(data) || fresh(data))
      ensures Contents() == old(Contents()) && length + n <= capacity
      ensures capacity == old(capacity) || capacity < 2 * (length + n)
      ensures capacity == old(capacity) <==> length + n <= old(capacity)
      ensures Doubled(old(capacity), capacity)
    {
      var newLength := length + n;
      var newCapacity := capacity;
      while newCapacity < newLength
        invariant unchanged(this) && Doubled(capacity, newCapacity)
        invariant 0 < newCapacity &&
                  (newCapacity == capacity || (capacity < newCapacity < 2 * newLength && capacity < newLength))
      {
        DoubledAgain(capacity, newCapacity);
        newCapacity := newCapacity * 2;
      }
      if newCapacity != capacity {
        var newData := new Byte[newCapacity];
        forall i | 0 <= i < length { newData[i] := data[i]; }
        assert newData[..length] == data[..length];
        data := newData;
        capacity := newCapacity;
      }
    }

    /** One more byte; room is assured by the caller. */
    method Push(b: Byte)
      requires Valid() && length < capacity
      modifies this`length, data
      ensures Valid() && data == old(data)
      ensures Contents() == old(Contents()) + [b]
    {
      data[length] := b;
      length := length + 1;
    }

    method AppendCodepoint(c: int)
      requires Valid() && -0x8000_0000 <= c < 0x8000_0000
      modifies this, data
      ensures Valid() && (data == old(data) || fresh(data))
      ensures Contents() == old(Contents()) + Encode(c)
    {
      hide Encode, Sextets, Lead;
      var n := 3;
      if c <= 0x7F { n := 0; }
      else if c <= 0x7FF { n := 1; }
      else if c <= 0xFFFF { n := 2; }
      EncodeByGroups(c, n);
      MaybeResize(n + 1);
      WriteGroups(c, n);
    }

    /** The lead byte and the n continuation bytes, into room made for them. */
    method WriteGroups(c: int, n: nat)
      requires Valid() && length + n + 1 <= capacity && n <= 3
      requires -0x8000_0000 <= c < 0x8000_0000 && |Encode(c)| == n + 1 && Encode(c)[0] == Lead(n, Sextets(c, n))
      requires forall j :: 0 < j <= n ==> Encode(c)[j] == 0x80 + Sextets(c, n - j) % 64
      modifies this`length, data
      ensures Valid() && data == old(data) && Contents() == old(Contents()) + Encode(c)
    {
      hide Encode, Sextets, Lead;
      ghost var bytes := Encode(c);
      TakeOneMore(bytes, 0);
      Push(Lead(n, Sextets(c, n)));
      var i := n - 1;
      while i >= 0
        invariant -1 <= i < n && Valid() && data == old(data) && capacity == old(capacity)
        invariant length + i + 1 <= capacity
        invariant Contents() == old(Contents()) + bytes[..n - i]
      {
        TakeOneMore(bytes, n - i);
        Push(0x80 + Sextets(c, i) % 64);
        i := i - 1;
      }
      assert bytes[..n + 1] == bytes;
    }
  }
}
