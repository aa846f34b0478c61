/**
 The character stream gumbo's tokenizer reads: one reading at a time, stated
 over the grammar alone, and the iterator that produces it with the decoder.
 */
module Utf8Stream {
  import opened Wrappers
  import opened Utf8

  datatype Fault = NoFault | InvalidFault | TruncatedFault

  /** What one call of read_char leaves: bytes skipped before the character
      (the CR of a CR LF), its width, the code point shown, the error added. */
  datatype Reading = Reading(skip: nat, width: nat, current: int, fault: Fault)

  const CR := 0x0D
  const LF := 0x0A

  /** Code points forbidden by the HTML5 specification. */
  predicate InvalidCodePoint(c: int) {
    || 0x1 <= c <= 0x8 || c == 0xB || 0xE <= c <= 0x1F || 0x7F <= c <= 0x9F || 0xFDD0 <= c <= 0xFDEF
    || (c >= 0 && (c % 0x1_0000 == 0xFFFE || c % 0x1_0000 == 0xFFFF))
  }

  /** A well-formed character of n bytes at the front of the input. */
  function Shown(c: int, n: nat, rest: seq<Byte>): Reading {
    if c == CR then Reading(if |rest| > 1 && rest[1] == LF then 1 else 0, 1, LF, NoFault)
    else if InvalidCodePoint(c) then Reading(0, n, REPLACEMENT, InvalidFault)
    else Reading(0, n, c, NoFault)
  }

  /** The reading of an input, by the grammar: take bytes for as long as they
      may still become a character. */
  ghost function Extend(rest: seq<Byte>, k: nat): (r: Reading)
    requires k <= |rest|
    ensures rest != [] ==> 0 < r.skip + r.width <= |rest|
    decreases |rest| - k
  {
    if k == |rest| then
      if k == 0 then Reading(0, 0, -1, NoFault) else Reading(0, k, REPLACEMENT, TruncatedFault)
    else if Utf8Char(rest[..k + 1]) then Shown(CodePoint(rest[..k + 1]), k + 1, rest)
    else if Viable(rest[..k + 1]) then Extend(rest, k + 1)
    else Reading(0, if k == 0 then 1 else k, REPLACEMENT, InvalidFault)
  }

  ghost function ReadOf(rest: seq<Byte>): Reading { Extend(rest, 0) }

  /** Every code point shown for an input. */
  ghost function Stream(rest: seq<Byte>): seq<int>
    decreases |rest|
  {
    if rest == [] then [] else
      var r := ReadOf(rest);
      [r.current] + Stream(rest[r.skip + r.width..])
  }

  // ------------------------------------------------------ reading what was written

  lemma {:induction false} CharNotViable(bs: seq<Byte>)
    requires Utf8Char(bs)
    ensures !Viable(bs)
  {
    hide Run, Utf8Char, Viable, Means;
    assert bs != [] by { CharShape(bs); }
    DecoderExact(bs);
    assert bs[..|bs|] == bs;
    RunMeans(bs, |bs|);
    MeansVerdict(bs, Run(bs).0);
  }

  /** What comes before the end of a character is part of one. */
  lemma {:induction false} PrefixViable(rest: seq<Byte>, k: nat, n: nat)
    requires k < n <= |rest| && Utf8Char(rest[..n])
    ensures Viable(rest[..k]) && !Utf8Char(rest[..k])
  {
    hide Utf8Char;
    assert rest[..n] == rest[..k] + rest[k..n];
    if Utf8Char(rest[..k]) { CharNotViable(rest[..k]); }
  }

  /** A well-formed character at the front is what is read. */
  lemma {:induction false} FrontChar(rest: seq<Byte>, n: nat, k: nat)
    requires k < n <= |rest| && Utf8Char(rest[..n])
    ensures Extend(rest, k) == Shown(CodePoint(rest[..n]), n, rest)
    decreases n - k
  {
    hide Utf8Char, Viable, Shown, CodePoint;
    if k + 1 < n {
      PrefixViable(rest, k + 1, n);
      FrontChar(rest, n, k + 1);
    }
  }

  function EncodeAll(cs: seq<int>): seq<Byte>
    requires forall i :: 0 <= i < |cs| ==> Scalar(cs[i])
  {
    if cs == [] then [] else assert Scalar(cs[0]); Encode(cs[0]) + EncodeAll(cs[1..])
  }

  /** The input preprocessing of HTML5: CR LF and CR become LF; forbidden code
      points become the replacement character. */
  function Normalized(cs: seq<int>): seq<int> {
    if cs == [] then []
    else if cs[0] == CR then [LF] + Normalized(if |cs| > 1 && cs[1] == LF then cs[2..] else cs[1..])
    else [if InvalidCodePoint(cs[0]) then REPLACEMENT else cs[0]] + Normalized(cs[1..])
  }

  lemma {:induction false} EncodeFront(c: int)
    requires Scalar(c)
    ensures Encode(c) != [] && (Encode(c)[0] == LF <==> c == LF)
    ensures Encode(CR) == [CR] && Encode(LF) == [LF]
  {}

  /** Reading an encoded text shows the text, preprocessed. */
  lemma {:induction false} StreamOfEncoded(cs: seq<int>)
    requires forall i :: 0 <= i < |cs| ==> Scalar(cs[i])
    ensures Stream(EncodeAll(cs)) == Normalized(cs)
    decreases |cs|
  {
    hide Encode, Utf8Char, CodePoint, Extend, InvalidCodePoint;
    if cs != [] {
      var c, tail := cs[0], cs[1..];
      var front, rest := Encode(c), EncodeAll(cs);
      EncodeFront(c);
      EncodeIsChar(c);
      assert rest[..|front|] == front;
      FrontChar(rest, |front|, 0);
      assert rest[|front|..] == EncodeAll(tail);
      if tail != [] { EncodeFront(tail[0]); }
      if c == CR && tail != [] && tail[0] == LF {
        assert rest[1] == EncodeAll(tail)[0] == LF;
        assert rest[2..] == EncodeAll(tail)[1..] == EncodeAll(tail[1..]);
        assert tail[1..] == cs[2..];
        StreamOfEncoded(cs[2..]);
      } else {
        assert c == CR && |rest| > 1 ==> rest[1] == EncodeAll(tail)[0] && rest[1] != LF;
        StreamOfEncoded(tail);
      }
    }
  }

  // ------------------------------------------- what is shown, by ranges

  /** Scalar values that are shown as they are. */
  predicate Plain(c: int) {
    || c in {0x0, 0x9, 0xA, 0xC} || 0x20 <= c <= 0x7E || 0xA0 <= c <= 0xD7FF || 0xE000 <= c <= 0xFDCF
    || 0xFDF0 <= c <= 0xFFFD || exists p :: 1 <= p <= 16 && p * 0x1_0000 <= c <= p * 0x1_0000 + 0xFFFD
  }

  /** The others, but for CR: controls and noncharacters. */
  predicate Forbidden(c: int) {
    || 0x1 <= c <= 0x8 || c == 0xB || 0xE <= c <= 0x1F || 0x7F <= c <= 0x9F || 0xFDD0 <= c <= 0xFDEF
    || exists p :: 0 <= p <= 16 && p * 0x1_0000 + 0xFFFE <= c <= p * 0x1_0000 + 0xFFFF
  }

  /** Every scalar value but CR is plain or forbidden, and that is the test. */
  lemma {:induction false} PlainOrForbidden(c: int)
    requires Scalar(c) && c != 0x0D
    ensures Plain(c) <==> !Forbidden(c)
    ensures InvalidCodePoint(c) <==> Forbidden(c)
  {
    var p := c / 0x1_0000;
    assert c == p * 0x1_0000 + c % 0x1_0000;
    forall q | 0 <= q <= 16 ensures q * 0x1_0000 <= c <= q * 0x1_0000 + 0xFFFF <==> q == p {}
  }

  /** One character at the front: a plain one is shown as it is, a forbidden one
      is shown as U+FFFD and reported. */
  lemma {:induction false} OneShown(c: int, rest: seq<Byte>)
    requires Scalar(c) && c != 0x0D
    ensures
      ReadOf(Encode(c) + rest) ==
        Reading(0, |Encode(c)|, if Plain(c) then c else 0xFFFD, if Plain(c) then NoFault else InvalidFault)
  {
    hide Encode, Utf8Char, CodePoint, Extend, InvalidCodePoint, Plain, Forbidden;
    EncodeIsChar(c);
    EncodeFront(c);
    assert (Encode(c) + rest)[..|Encode(c)|] == Encode(c);
    FrontChar(Encode(c) + rest, |Encode(c)|, 0);
    PlainOrForbidden(c);
  }

  /** A text without CR is shown character by character. */
  lemma {:induction false} TextShown(cs: seq<int>, i: nat)
    requires (forall j :: 0 <= j < |cs| ==> Scalar(cs[j]) && cs[j] != 0x0D) && i < |cs|
    ensures |Stream(EncodeAll(cs))| == |cs|
    ensures Stream(EncodeAll(cs))[i] == if Plain(cs[i]) then cs[i] else 0xFFFD
    decreases |cs|
  {
    hide Encode, Extend, Plain;
    var tail := EncodeAll(cs[1..]);
    OneShown(cs[0], tail);
    EncodeFront(cs[0]);
    assert (Encode(cs[0]) + tail)[|Encode(cs[0])|..] == tail;
    if |cs| == 1 {
      assert cs[1..] == [];
    } else {
      TextShown(cs[1..], if i == 0 then 0 else i - 1);
    }
  }

  /** A text of plain characters is shown as it is. */
  lemma {:induction false} PlainText(cs: seq<int>)
    requires forall i :: 0 <= i < |cs| ==> Scalar(cs[i]) && Plain(cs[i])
    ensures Stream(EncodeAll(cs)) == cs
  {
    hide EncodeAll, Stream, Plain;
    forall i | 0 <= i < |cs| ensures cs[i] != 0x0D { CrNotPlain(); }
    if cs == [] {
      StreamOfEncoded(cs);
    } else {
      TextShown(cs, 0);
      forall i | 0 <= i < |cs| ensures Stream(EncodeAll(cs))[i] == cs[i] { TextShown(cs, i); }
    }
  }

  lemma {:induction false} CrNotPlain()
    ensures !Plain(0x0D)
  {}

  /** Line ends are handled where they stand: a text may be cut anywhere but
      between a CR and its LF. */
  lemma {:induction false} NormalizedSplits(a: seq<int>, b: seq<int>)
    requires !(a != [] && b != [] && a[|a| - 1] == CR && b[0] == LF)
    ensures Normalized(a + b) == Normalized(a) + Normalized(b)
    decreases |a|
  {
    hide Normalized, FrontShown;
    if a == [] {
      assert a + b == b;
      NothingShown();
    } else {
      var n := FrontLength(a);
      assert FrontLength(a + b) == n && (a + b)[n..] == a[n..] + b;
      NormalizedStep(a);
      NormalizedStep(a + b);
      NormalizedSplits(a[n..], b);
    }
  }

  /** How many characters the first one shown stands for, and what is shown. */
  function FrontLength(cs: seq<int>): nat { if |cs| > 1 && cs[0] == CR && cs[1] == LF then 2 else 1 }

  function FrontShown(c: int): int { if c == CR then LF else if InvalidCodePoint(c) then REPLACEMENT else c }

  lemma {:induction false} NormalizedStep(cs: seq<int>)
    requires cs != []
    ensures FrontLength(cs) <= |cs| && Normalized(cs) == [FrontShown(cs[0])] + Normalized(cs[FrontLength(cs)..])
  {
    hide InvalidCodePoint;
  }

  lemma {:induction false} NothingShown()
    ensures Normalized([]) == []
  {}

  lemma {:induction false} LineEnds()
    ensures Normalized([CR, LF]) == Normalized([CR]) == Normalized([LF]) == [LF]
  {
    assert [CR, LF][2..] == [] && [CR][1..] == [] && [LF][1..] == [];
  }

  /** No CR is ever shown, whatever the bytes. */
  lemma {:induction false} NoCarriageReturn(rest: seq<Byte>)
    ensures CR !in Stream(rest)
    decreases |rest|
  {
    hide Extend;
    if rest != [] {
      NotCr(rest, 0);
      var r := ReadOf(rest);
      NoCarriageReturn(rest[r.skip + r.width..]);
    }
  }

  lemma {:induction false} NotCr(rest: seq<Byte>, k: nat)
    requires k <= |rest|
    ensures Extend(rest, k).current != CR
    decreases |rest| - k
  {
    hide Utf8Char, CodePoint, Viable, InvalidCodePoint;
    if k < |rest| && !Utf8Char(rest[..k + 1]) && Viable(rest[..k + 1]) { NotCr(rest, k + 1); }
  }

  /** Where no character stands, the longest part that could have begun one is
      taken, but at least one byte, and shown as one U+FFFD; at the end of the
      input that is the whole rest. */
  lemma {:induction false} BrokenFront(rest: seq<Byte>, w: nat, k: nat)
    requires rest != [] && k <= w <= |rest| && forall j :: 0 < j <= |rest| ==> !Utf8Char(rest[..j])
    requires (forall j :: 0 < j <= w ==> Viable(rest[..j])) && (w < |rest| ==> !Viable(rest[..w + 1]))
    ensures
      Extend(rest, k) ==
        if w == |rest| then Reading(0, w, 0xFFFD, TruncatedFault)
        else Reading(0, if w == 0 then 1 else w, 0xFFFD, InvalidFault)
    decreases w - k
  {
    hide Utf8Char, Viable;
    if k < w { BrokenFront(rest, w, k + 1); }
  }

  // ------------------------------------------------------------ the iterator

  /** The iterator after a CR LF stands on the LF, where a new reading finds the same. */
  lemma {:induction false} ReadAgain(rest: seq<Byte>)
    ensures
      var r := ReadOf(rest);
      && r.skip <= |rest|
      && var t := ReadOf(rest[r.skip..]);
         t.skip == 0 && t.width == r.width && t.current == r.current && t.fault == r.fault
  {
    hide Utf8Char, CodePoint, Viable, InvalidCodePoint;
    var r := ReadOf(rest);
    SkipIsCrLf(rest, 0);
    if r.skip == 0 {
      assert rest[r.skip..] == rest;
    } else {
      var again := rest[1..];
      assert again[..1] == [LF];
      LineFeed();
      FrontChar(again, 1, 0);
    }
  }

  lemma {:induction false} LineFeed()
    ensures Utf8Char([LF]) && CodePoint([LF]) == LF && !InvalidCodePoint(LF)
  {}

  lemma {:induction false} SkipIsCrLf(rest: seq<Byte>, k: nat)
    requires k <= |rest|
    ensures
      var r := Extend(rest, k);
      r.skip != 0 ==> r == Reading(1, 1, LF, NoFault) && |rest| > 1 && rest[1] == LF
    decreases |rest| - k
  {
    hide Utf8Char, CodePoint, Viable, InvalidCodePoint;
    if k < |rest| && !Utf8Char(rest[..k + 1]) && Viable(rest[..k + 1]) { SkipIsCrLf(rest, k + 1); }
  }

  /** The decoder part of the way through a character. */
  ghost predicate Midway(bs: seq<Byte>, state: nat, codep: nat) {
    && Run(bs) == (state, codep) && Means(bs, state)
    && (bs == [] <==> state == ACCEPT) && state != REJECT
  }

  /** One more byte: accepted, rejected or still midway, as the grammar says. */
  lemma {:induction false} Step(rest: seq<Byte>, k: nat, state: nat, codep: nat)
    requires k < |rest| && Midway(rest[..k], state, codep)
    ensures
      var b := rest[k];
      var state', codep', bs' := Next(state, Class(b)), Gather(state, codep, b), rest[..k + 1];
      && (state' == ACCEPT <==> Utf8Char(bs'))
      && (state' == ACCEPT ==> codep' == CodePoint(bs'))
      && (state' != ACCEPT && state' != REJECT <==> Viable(bs'))
      && (Viable(bs') ==> Midway(bs', state', codep'))
  {
    hide Next, Class, Gather, Means, Utf8Char, CodePoint, Viable;
    var bs, b := rest[..k], rest[k];
    assert rest[..k + 1] == bs + [b];
    assert (bs + [b])[..|bs + [b]| - 1] == bs;
    MeansStep(bs, state, b);
    MeansVerdict(bs + [b], Next(state, Class(b)));
    if Utf8Char(bs + [b]) { DecoderValue(bs + [b]); }
  }

  lemma {:induction false} MidwayStart(rest: seq<Byte>)
    ensures Midway(rest[..0], ACCEPT, 0)
  {
    assert rest[..0] == [];
    MeansStart();
  }

  lemma {:induction false} ExtendStep(rest: seq<Byte>, k: nat)
    requires k < |rest|
    ensures
      var bs := rest[..k + 1];
      && (Utf8Char(bs) ==> Extend(rest, k) == Shown(CodePoint(bs), k + 1, rest))
      && (!Utf8Char(bs) && Viable(bs) ==> Extend(rest, k) == Extend(rest, k + 1))
      && (!Utf8Char(bs) && !Viable(bs) ==>
            Extend(rest, k) == Reading(0, if k == 0 then 1 else k, REPLACEMENT, InvalidFault))
  {
    hide Utf8Char, CodePoint, Viable, Shown;
  }

  lemma {:induction false} ExtendEnd(rest: seq<Byte>, k: nat)
    requires k == |rest|
    ensures Extend(rest, k) == if k == 0 then Reading(0, 0, -1, NoFault) else Reading(0, k, REPLACEMENT, TruncatedFault)
  {}

  /** The stream from the skipped CR on is the stream from the LF on. */
  lemma {:induction false} StreamAgain(rest: seq<Byte>)
    ensures ReadOf(rest).skip <= |rest| && Stream(rest[ReadOf(rest).skip..]) == Stream(rest)
  {
    hide Extend;
    ReadAgain(rest);
    var r := ReadOf(rest);
    if r.skip == 0 {
      assert rest[0..] == rest;
    } else {
      SkipIsCrLf(rest, 0);
      assert rest[r.skip..][r.width..] == rest[r.skip + r.width..];
    }
  }

  /** Only the end of the input shows -1. */
  lemma {:induction false} NotTheEnd(rest: seq<Byte>, k: nat)
    requires k <= |rest|
    ensures rest != [] ==> Extend(rest, k).current >= 0
    decreases |rest| - k
  {
    hide Utf8Char, CodePoint, Viable, InvalidCodePoint;
    if k < |rest| {
      if Utf8Char(rest[..k + 1]) { CodePointRange(rest[..k + 1]); }
      else if Viable(rest[..k + 1]) { NotTheEnd(rest, k + 1); }
    }
  }

  lemma {:induction false} StreamHead(rest: seq<Byte>)
    requires ReadOf(rest).skip == 0
    ensures ReadOf(rest).current == if Stream(rest) == [] then -1 else Stream(rest)[0]
    ensures ReadOf(rest).width <= |rest|
    ensures Stream(rest[ReadOf(rest).width..]) == if Stream(rest) == [] then [] else Stream(rest)[1..]
    ensures if rest == [] then Stream(rest) == [] else ReadOf(rest).width > 0 && ReadOf(rest).current >= 0
  {
    hide Utf8Char, CodePoint, Viable, Shown;
    NotTheEnd(rest, 0);
    if rest == [] { assert rest[0..] == rest; }
  }

  class Utf8Iterator {
    const source: seq<Byte>
    var start: nat
    var width: nat
    var current: int
    var offset: nat
    var mark: Option<nat>
    var markOffset: nat
    var errors: seq<(Fault, nat)>

    /** Standing on a character that a new reading would find unchanged. */
    ghost predicate Valid()
      reads this
    {
      && start <= |source| && offset == start
      && (var r := ReadOf(source[start..]); r.skip == 0 && r.width == width && r.current == current)
      && (mark.Some? ==> mark.value <= |source| && markOffset == mark.value && ReadOf(source[mark.value..]).skip == 0)
    }

    /** The code points from the current one on. */
    ghost function Ahead(): seq<int>
      requires start <= |source|
      reads this
    {
      Stream(source[start..])
    }

    ghost function Report(): seq<(Fault, nat)>
      requires start <= |source|
      reads this
    {
      var fault := ReadOf(source[start..]).fault;
      if fault == NoFault then [] else [(fault, start)]
    }

    constructor (source: seq<Byte>)
      ensures this.source == source && Valid() && Ahead() == Stream(source)
      ensures mark == None && errors == Report()
      ensures IsAt(0)
    {
      this.source := source;
      start, offset, mark, markOffset := 0, 0, None, 0;
      width, current, errors := 0, 0, [];
      new;
      assert source[0..] == source;
      ReadChar();
      StaysAt(0);
    }

    /** On the character that a reading at `from` finds, past its skipped CR. */
    ghost predicate IsAt(from: nat)
      reads this
    {
      && from <= |source|
      && var r := ReadOf(source[from..]); start == from + r.skip && width == r.width && current == r.current
    }

    lemma {:induction false} StaysAt(from: nat)
      requires Valid() && from <= |source| && start == from + ReadOf(source[from..]).skip
      ensures IsAt(from)
    {
      hide Extend;
      ReadAgain(source[from..]);
      assert source[start..] == source[from..][ReadOf(source[from..]).skip..];
    }

    /** read_char: runs the decoder up to its first verdict. */
    method ReadChar()
      requires start <= |source| && offset == start
      modifies this`start, this`width, this`current, this`offset, this`errors
      ensures start == old(start) + ReadOf(source[old(start)..]).skip
      ensures start <= |source| && offset == start
      ensures var r := ReadOf(source[start..]); r.skip == 0 && r.width == width && r.current == current
      ensures Ahead() == old(Ahead()) && errors == old(errors) + Report()
    {
      hide Extend, Run, Means, Utf8.Next, Class, Gather, Utf8Char, CodePoint, Viable, Stream, InvalidCodePoint;
      ghost var rest := source[start..];
      ReadAgain(rest);
      StreamAgain(rest);
      assert source[start + ReadOf(rest).skip..] == rest[ReadOf(rest).skip..];
      if start >= |source| {
        ExtendEnd(rest, 0);
        current, width := -1, 0;
        return;
      }
      var codep: nat, state: nat := 0, ACCEPT;
      var c := start;
      MidwayStart(rest);
      while c < |source|
        invariant start <= c <= |source| && unchanged(this)
        invariant Midway(rest[..c - start], state, codep)
        invariant Extend(rest, c - start) == ReadOf(rest)
      {
        var b := source[c];
        Step(rest, c - start, state, codep);
        ExtendStep(rest, c - start);
        codep := Gather(state, codep, b);
        state := Utf8.Next(state, Class(b));
        if state == ACCEPT {
          width := c - start + 1;
          if codep == CR {
            CodePointRange(rest[..c - start + 1]);
            LineFeed();
            if c + 1 < |source| && source[c + 1] == LF {
              start := start + 1;
              offset := offset + 1;
            }
            codep := LF;
          }
          if InvalidCodePoint(codep) {
            errors := errors + [(InvalidFault, offset)];
            codep := REPLACEMENT;
          }
          current := codep;
          return;
        } else if state == REJECT {
          width := c - start + (if c == start then 1 else 0);
          current := REPLACEMENT;
          errors := errors + [(InvalidFault, offset)];
          return;
        }
        c := c + 1;
      }
      ExtendEnd(rest, c - start);
      current := REPLACEMENT;
      width := |source| - start;
      errors := errors + [(TruncatedFault, offset)];
    }

    /** The next code point; at the end, the end again. */
    method Next()
      requires Valid()
      modifies this
      ensures Valid() && mark == old(mark)
      ensures Ahead() == if old(Ahead()) == [] then [] else old(Ahead())[1..]
      ensures current == if Ahead() == [] then -1 else Ahead()[0]
      ensures old(start < |source| ==> width > 0) && IsAt(old(start + width))
      ensures errors == old(errors) + Report()
    {
      hide Extend, InvalidCodePoint, Stream;
      StreamHead(source[start..]);
      assert source[start..][width..] == source[start + width..];
      offset := offset + width;
      start := start + width;
      ReadChar();
      StreamHead(source[start..]);
      StaysAt(old(start + width));
    }

    method Mark()
      requires Valid()
      modifies this`mark, this`markOffset
      ensures Valid() && mark == Some(start)
    {
      mark := Some(start);
      markOffset := offset;
    }

    /** Everything from the mark on is read again. */
    method Reset()
      requires Valid() && mark.Some?
      modifies this
      ensures Valid() && mark == old(mark) && start == mark.value
      ensures Ahead() == Stream(source[mark.value..])
      ensures current == if Ahead() == [] then -1 else Ahead()[0]
      ensures errors == old(errors) + Report()
    {
      hide Extend, InvalidCodePoint;
      start := mark.value;
      offset := markOffset;
      ReadChar();
      StreamHead(source[start..]);
    }
  }

  // ------------------------------------------------------- the whole input

  /** What one reading took: a skipped CR, if any, and the bytes of the character. */
  datatype Piece = Piece(from: nat, skip: nat, width: nat) {
    function End(): nat { from + skip + width }
  }

  /** The pieces cover the first n bytes, each byte once and in order. */
  ghost predicate Partition(ps: seq<Piece>, n: nat) {
    if ps == [] then n == 0 else
      var last := ps[|ps| - 1];
      n == last.End() && Partition(ps[..|ps| - 1], last.from)
  }

  /** A piece holds exactly what a reading at its start takes and shows. */
  ghost predicate IsReading(source: seq<Byte>, p: Piece, code: int) {
    && p.from < p.End() <= |source|
    && var r := ReadOf(source[p.from..]);
       r.skip == p.skip && r.width == p.width && r.current == code
  }

  function Taken(ps: seq<Piece>): nat {
    if ps == [] then 0 else
      var last := ps[|ps| - 1];
      Taken(ps[..|ps| - 1]) + last.skip + last.width
  }

  /** The widths and the skipped bytes of a partition add up to its length. */
  lemma {:induction false} PartitionTaken(ps: seq<Piece>, n: nat)
    requires Partition(ps, n)
    ensures Taken(ps) == n
  {
    if ps != [] { PartitionTaken(ps[..|ps| - 1], ps[|ps| - 1].from); }
  }

  /** The readings of the first n bytes. */
  ghost predicate Readings(source: seq<Byte>, codes: seq<int>, ps: seq<Piece>, n: nat) {
    && |ps| == |codes| && Partition(ps, n)
    && forall i :: 0 <= i < |codes| ==> IsReading(source, ps[i], codes[i])
  }

  lemma {:induction false} OneMore(source: seq<Byte>, codes: seq<int>, ps: seq<Piece>, code: int, p: Piece)
    requires Readings(source, codes, ps, p.from) && IsReading(source, p, code)
    ensures Readings(source, codes + [code], ps + [p], p.End())
  {
    hide IsReading;
    assert (ps + [p])[..|ps|] == ps;
  }

  /** Reading to the end shows the whole stream, and the readings partition the
      input: no byte is lost and none is read twice, whatever the bytes are. */
  method ReadAll(source: seq<Byte>) returns (codes: seq<int>, pieces: seq<Piece>)
    ensures codes == Stream(source)
    ensures Readings(source, codes, pieces, |source|) && Taken(pieces) == |source|
  {
    hide Extend, InvalidCodePoint, Taken, Readings, Stream;
    var it := new Utf8Iterator(source);
    codes, pieces := [], [];
    var end: nat := 0;
    assert Readings(source, [], [], 0) by { NoneYet(source); }
    while it.current != -1
      invariant fresh(it) && it.source == source && it.Valid() && it.IsAt(end)
      invariant codes + it.Ahead() == Stream(source) && Readings(source, codes, pieces, end)
      decreases |source| - it.start
    {
      StreamHead(source[it.start..]);
      var p := Piece(end, it.start - end, it.width);
      OneMore(source, codes, pieces, it.current, p);
      assert it.Ahead() == [it.current] + it.Ahead()[1..];
      codes, pieces, end := codes + [it.current], pieces + [p], it.start + it.width;
      it.Next();
    }
    StreamHead(source[it.start..]);
    NotTheEnd(source[end..], 0);
    AllRead(source, codes, pieces, end);
  }

  lemma {:induction false} NoneYet(source: seq<Byte>)
    ensures Readings(source, [], [], 0)
  {}

  lemma {:induction false} AllRead(source: seq<Byte>, codes: seq<int>, ps: seq<Piece>, n: nat)
    requires Readings(source, codes, ps, n)
    ensures Taken(ps) == n
  {
    PartitionTaken(ps, n);
  }
}
