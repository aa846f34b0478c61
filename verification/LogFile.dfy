/**
 The record format of the write-ahead log: log::Writer cuts a record into
 fragments that never cross a 32 KB block, log::Reader puts them together again
 and survives a file that ends anywhere.  The checksum is a parameter: any
 function of the type byte and the payload.
 */
module LogFile {
  import opened Wrappers
  import opened Coding

  const BLOCK: nat := 32768
  const HEADER: nat := 7

  const FULL: Byte := 1
  const FIRST: Byte := 2
  const MIDDLE: Byte := 3
  const LAST: Byte := 4
  /** What ReadPhysicalRecord returns besides the type byte of a record. */
  const EOF: Byte := 5
  const BAD: Byte := 6

  type Checksum = seq<Byte> -> U32

  // ------------------------------------------------------------- the format

  /** One physical record: masked checksum, length, type, payload. */
  function Physical(crc: Checksum, t: Byte, data: seq<Byte>): (bs: seq<Byte>)
    requires |data| < 0x1_0000
    ensures |bs| == HEADER + |data|
  {
    Fixed32(Mask(crc([t] + data))) + [|data| % 256, |data| / 256, t] + data
  }

  /** Bytes from offset p to the end of its block. */
  function Room(p: nat): (r: nat)
    ensures 0 < r <= BLOCK && (p + r) % BLOCK == 0
  {
    BLOCK - p % BLOCK
  }

  /** The zero trailer written when no header fits into the block any more. */
  function Pad(p: nat): (n: nat)
    ensures Room(p + n) >= HEADER
  {
    if Room(p) < HEADER then Room(p) else 0
  }

  function FragLen(p: nat, data: seq<Byte>): (n: nat)
    ensures n <= |data| && HEADER + n <= Room(p + Pad(p)) && n < 0x1_0000
  {
    var avail := Room(p + Pad(p)) - HEADER;
    if |data| < avail then |data| else avail
  }

  function FragType(begin: bool, end: bool): Byte {
    if begin && end then FULL else if begin then FIRST else if end then LAST else MIDDLE
  }

  function Zeros(n: nat): (bs: seq<Byte>)
    ensures |bs| == n
  {
    seq(n, _ => 0)
  }

  /** The first fragment of a record written at offset p, with the trailer before it. */
  function Fragment(crc: Checksum, p: nat, data: seq<Byte>, begin: bool): (bs: seq<Byte>)
    ensures |bs| == Pad(p) + HEADER + FragLen(p, data)
  {
    var n := FragLen(p, data);
    Zeros(Pad(p)) + Physical(crc, FragType(begin, n == |data|), data[..n])
  }

  /** All fragments of a record written at offset p. */
  function Emit(crc: Checksum, p: nat, data: seq<Byte>, begin: bool): (bs: seq<Byte>)
    ensures bs != []
    decreases |data|, if FragLen(p, data) == 0 then 1 else 0
  {
    var n := FragLen(p, data);
    var frag := Fragment(crc, p, data, begin);
    if n == |data| then frag else
    assert n == 0 ==> FragLen(p + |frag|, data) > 0 by { NextFragment(p, data, |frag|); }
    frag + Emit(crc, p + |frag|, data[n..], false)
  }

  /** After a fragment that does not finish the record the block is full, so the
      next one starts a block and is not empty. */
  lemma {:induction false} NextFragment(p: nat, data: seq<Byte>, size: nat)
    requires FragLen(p, data) < |data| && size == Pad(p) + HEADER + FragLen(p, data)
    ensures (p + size) % BLOCK == 0 && FragLen(p + size, data) > 0
  {
    assert p + size == p + Pad(p) + Room(p + Pad(p));
  }

  lemma {:induction false} EmitIs(crc: Checksum, p: nat, data: seq<Byte>, begin: bool)
    ensures var n, frag := FragLen(p, data), Fragment(crc, p, data, begin);
            Emit(crc, p, data, begin) == if n == |data| then frag else frag + Emit(crc, p + |frag|, data[n..], false)
  {}

  /** The bytes of a log holding the given records, written from offset p. */
  function LogOf(crc: Checksum, p: nat, recs: seq<seq<Byte>>): seq<Byte>
    decreases |recs|
  {
    if recs == [] then [] else
      var bs := Emit(crc, p, recs[0], true);
      bs + LogOf(crc, p + |bs|, recs[1..])
  }

  // ------------------------------------------------------- reading, on values

  /** What is left to read: the bytes from offset p on. */
  datatype Rest = Rest(p: nat, f: seq<Byte>)

  function Min(a: nat, b: nat): nat { if a < b then a else b }

  function Drop(st: Rest, n: nat): Rest
    requires n <= |st.f|
  {
    Rest(st.p + n, st.f[n..])
  }

  /** Header checks on the bytes left in the block: type, payload, bytes used. */
  function Parse(crc: Checksum, buf: seq<Byte>): (r: (Byte, seq<Byte>, nat))
    requires |buf| >= HEADER
    ensures 0 < r.2 <= |buf|
  {
    var length := buf[4] as int + 256 * (buf[5] as int);
    if HEADER + length > |buf| then (BAD, [], |buf|)
    else if buf[6] == 0 && length == 0 then (BAD, [], |buf|)
    else if crc(buf[6..HEADER + length]) != Unmask(DecodeFixed32(buf)) then (BAD, [], |buf|)
    else (buf[6], buf[HEADER..HEADER + length], HEADER + length)
  }

  /** The next physical record, skipping trailers, and what is left after it. */
  function NextPhysical(crc: Checksum, st: Rest): (r: (Byte, seq<Byte>, Rest))
    ensures |r.2.f| <= |st.f| && (r.0 != EOF ==> |r.2.f| < |st.f|)
    decreases |st.f|
  {
    var room := Room(st.p);
    var size := Min(room, |st.f|);
    if size < HEADER then
      if |st.f| >= room then NextPhysical(crc, Drop(st, room)) else (EOF, [], Drop(st, |st.f|))
    else
      var (t, data, used) := Parse(crc, st.f[..size]);
      (t, data, Drop(st, used))
  }

  /** The next logical record, from the given state of reassembly. */
  function NextRecord(crc: Checksum, st: Rest, inFragment: bool, scratch: seq<Byte>): (r: (Option<seq<Byte>>, Rest))
    ensures |r.1.f| <= |st.f| && (r.0.Some? ==> |r.1.f| < |st.f|)
    decreases |st.f|
  {
    var (t, frag, next) := NextPhysical(crc, st);
    if t == EOF then (None, next)
    else if t == FULL then (Some(frag), next)
    else if t == FIRST then NextRecord(crc, next, true, frag)
    else if t == MIDDLE then
      if inFragment then NextRecord(crc, next, true, scratch + frag) else NextRecord(crc, next, false, scratch)
    else if t == LAST then
      if inFragment then (Some(scratch + frag), next) else NextRecord(crc, next, false, scratch)
    else NextRecord(crc, next, false, if t == BAD && !inFragment then scratch else [])
  }

  /** All records of a log, as the loop of RecoverLogFile reads them. */
  function ReadAll(crc: Checksum, st: Rest): seq<seq<Byte>>
    decreases |st.f|
  {
    var (r, next) := NextRecord(crc, st, false, []);
    if r.None? then [] else [r.value] + ReadAll(crc, next)
  }

  // ------------------------------------------------- what the reader reports

  /** The bytes reported as dropped for the header checks. */
  function ParseReport(crc: Checksum, buf: seq<Byte>): seq<nat>
    requires |buf| >= HEADER
  {
    var length := buf[4] as int + 256 * (buf[5] as int);
    if HEADER + length > |buf| then [|buf|]
    else if buf[6] == 0 && length == 0 then []
    else if crc(buf[6..HEADER + length]) != Unmask(DecodeFixed32(buf)) then [|buf|]
    else []
  }

  /** What reading the next physical record reports: a bad header, or bytes too
      few for one at the end of the file; never a trailer. */
  function PhysicalReports(crc: Checksum, st: Rest): seq<nat>
    decreases |st.f|
  {
    var room := Room(st.p);
    var size := Min(room, |st.f|);
    if size < HEADER then
      if |st.f| >= room then PhysicalReports(crc, Drop(st, room)) else if st.f == [] then [] else [|st.f|]
    else ParseReport(crc, st.f[..size])
  }

  /** What reassembly itself reports for one physical record. */
  function FragmentReport(t: Byte, frag: seq<Byte>, inFragment: bool, scratch: seq<Byte>): seq<nat> {
    if t == FULL || t == FIRST then if inFragment && scratch != [] then [|scratch|] else []
    else if t == MIDDLE || t == LAST then if inFragment then [] else [|frag|]
    else if t == EOF || t == BAD then if inFragment then [|scratch|] else []
    else [|frag| + if inFragment then |scratch| else 0]
  }

  /** What reading the next logical record reports. */
  function RecordReports(crc: Checksum, st: Rest, inFragment: bool, scratch: seq<Byte>): seq<nat>
    decreases |st.f|
  {
    var (t, frag, next) := NextPhysical(crc, st);
    PhysicalReports(crc, st) + FragmentReport(t, frag, inFragment, scratch) +
    if t == EOF || t == FULL || (t == LAST && inFragment) then []
    else if t == FIRST then RecordReports(crc, next, true, frag)
    else if t == MIDDLE && inFragment then RecordReports(crc, next, true, scratch + frag)
    else RecordReports(crc, next, false, if t == MIDDLE || t == LAST || (t == BAD && !inFragment) then scratch else [])
  }

  /** Everything reported while a log is read. */
  function AllReports(crc: Checksum, st: Rest): seq<nat>
    decreases |st.f|
  {
    var (r, next) := NextRecord(crc, st, false, []);
    RecordReports(crc, st, false, []) + if r.None? then [] else AllReports(crc, next)
  }

  // ------------------------------------------------------------- read-back

  lemma {:induction false} ParsePhysical(crc: Checksum, t: Byte, data: seq<Byte>, tail: seq<Byte>)
    requires |data| < 0x1_0000 && 0 < t
    ensures Parse(crc, Physical(crc, t, data) + tail) == (t, data, HEADER + |data|)
  {
    hide Mask, Unmask, Fixed32, DecodeFixed32;
    var sum := Mask(crc([t] + data));
    var buf := Physical(crc, t, data) + tail;
    Fixed32RoundTrip(sum, buf[4..]);
    assert buf == Fixed32(sum) + buf[4..];
    UnmaskMask(crc([t] + data));
    assert buf[4] == |data| % 256 && buf[5] == |data| / 256 && buf[6] == t;
    assert buf[6..HEADER + |data|] == [t] + data;
    assert buf[HEADER..HEADER + |data|] == data;
  }

  /** A whole physical record at the start of what is left is read back exactly. */
  lemma {:induction false} PhysicalRead(crc: Checksum, p: nat, t: Byte, data: seq<Byte>, rest: seq<Byte>)
    requires HEADER + |data| <= Room(p) && 0 < t
    ensures |data| < 0x1_0000
    ensures NextPhysical(crc, Rest(p, Physical(crc, t, data) + rest)) == (t, data, Rest(p + HEADER + |data|, rest))
  {
    hide Parse, Physical, Room;
    var bs := Physical(crc, t, data);
    var f := bs + rest;
    var size := Min(Room(p), |f|);
    ParsePhysical(crc, t, data, f[..size][|bs|..]);
    assert f[..size] == bs + f[..size][|bs|..];
    assert f[|bs|..] == rest;
  }

  /** The trailer before a fragment is skipped. */
  lemma {:induction false} FragmentRead(crc: Checksum, p: nat, data: seq<Byte>, begin: bool, rest: seq<Byte>)
    ensures var n := FragLen(p, data);
            NextPhysical(crc, Rest(p, Fragment(crc, p, data, begin) + rest))
            == (FragType(begin, n == |data|), data[..n], Rest(p + Pad(p) + HEADER + n, rest))
  {
    hide Parse, Physical, Room, FragLen, NextPhysical;
    var n := FragLen(p, data);
    var t := FragType(begin, n == |data|);
    var bs := Physical(crc, t, data[..n]);
    PhysicalRead(crc, p + Pad(p), t, data[..n], rest);
    SkipPad(crc, p, bs + rest);
    assert Fragment(crc, p, data, begin) + rest == Zeros(Pad(p)) + (bs + rest);
  }

  lemma {:induction false} SkipPad(crc: Checksum, p: nat, f: seq<Byte>)
    ensures NextPhysical(crc, Rest(p, Zeros(Pad(p)) + f)) == NextPhysical(crc, Rest(p + Pad(p), f))
  {
    hide Parse;
    var g := Zeros(Pad(p)) + f;
    assert g[Pad(p)..] == f;
    if Pad(p) == 0 { assert g == f; } else {
      assert Drop(Rest(p, g), Room(p)) == Rest(p + Pad(p), f);
    }
  }

  /** How one physical record moves reassembly on, for the types the writer uses. */
  lemma {:induction false} RecordStep(crc: Checksum, st: Rest, begin: bool, scratch: seq<Byte>, end: bool,
      frag: seq<Byte>, next: Rest)
    requires NextPhysical(crc, st) == (FragType(begin, end), frag, next)
    ensures var got := if begin then frag else scratch + frag;
            NextRecord(crc, st, !begin, scratch) == if end then (Some(got), next) else NextRecord(crc, next, true, got)
  {
    hide NextPhysical;
  }

  /** One fragment moves reassembly on by its payload. */
  lemma {:induction false} FragmentStep(crc: Checksum, p: nat, data: seq<Byte>, begin: bool, scratch: seq<Byte>,
      rest: seq<Byte>)
    ensures
      var n, frag := FragLen(p, data), Fragment(crc, p, data, begin);
      var got := if begin then data[..n] else scratch + data[..n];
      NextRecord(crc, Rest(p, frag + rest), !begin, scratch) ==
        if n == |data| then (Some(got), Rest(p + |frag|, rest)) else NextRecord(crc, Rest(p + |frag|, rest), true, got)
  {
    hide NextPhysical, NextRecord, Room, FragLen, Pad, Fragment;
    var n, frag := FragLen(p, data), Fragment(crc, p, data, begin);
    FragmentRead(crc, p, data, begin, rest);
    RecordStep(crc, Rest(p, frag + rest), begin, scratch, n == |data|, data[..n], Rest(p + |frag|, rest));
  }

  /** A record whose bytes are all there is read back, and reading goes on behind it. */
  lemma {:induction false} RecordRead(crc: Checksum, p: nat, data: seq<Byte>, begin: bool, scratch: seq<Byte>,
      rest: seq<Byte>)
    ensures var bs := Emit(crc, p, data, begin);
            NextRecord(crc, Rest(p, bs + rest), !begin, scratch)
            == (Some(if begin then data else scratch + data), Rest(p + |bs|, rest))
    decreases |data|, if FragLen(p, data) == 0 then 1 else 0
  {
    hide NextRecord, Room, FragLen, Pad, Fragment, Emit;
    var n := FragLen(p, data);
    var frag := Fragment(crc, p, data, begin);
    EmitIs(crc, p, data, begin);
    if n == |data| {
      FragmentStep(crc, p, data, begin, scratch, rest);
      assert data[..n] == data;
    } else {
      NextFragment(p, data, |frag|);
      var more := Emit(crc, p + |frag|, data[n..], false);
      Assoc(frag, more, rest);
      FragmentStep(crc, p, data, begin, scratch, more + rest);
      var got := if begin then data[..n] else scratch + data[..n];
      RecordRead(crc, p + |frag|, data[n..], false, got, rest);
      Resumed(data, n, scratch);
    }
  }

  lemma {:induction false} Resumed(data: seq<Byte>, n: nat, scratch: seq<Byte>)
    requires n <= |data|
    ensures data[..n] + data[n..] == data && (scratch + data[..n]) + data[n..] == scratch + data
  {}

  /** A fragment cut anywhere yields end of file, or a bad record with nothing after it. */
  lemma {:induction false} FragmentCut(crc: Checksum, p: nat, data: seq<Byte>, begin: bool, n: nat)
    requires n < |Fragment(crc, p, data, begin)|
    ensures var (t, _, next) := NextPhysical(crc, Rest(p, Fragment(crc, p, data, begin)[..n]));
            next.f == [] && (t == EOF || t == BAD)
  {
    hide Parse, Physical, NextPhysical, Room, Pad, FragLen, Zeros;
    var bs, pad := Fragment(crc, p, data, begin), Pad(p);
    if n >= pad {
      var len := FragLen(p, data);
      var phys := Physical(crc, FragType(begin, len == |data|), data[..len]);
      PhysicalCut(crc, p + pad, FragType(begin, len == |data|), data[..len], n - pad);
      SkipPad(crc, p, phys[..n - pad]);
      assert bs[..n] == Zeros(pad) + phys[..n - pad];
    } else {
      PadCut(crc, p, bs[..n]);
    }
  }

  lemma {:induction false} PadCut(crc: Checksum, p: nat, f: seq<Byte>)
    requires |f| < Pad(p)
    ensures NextPhysical(crc, Rest(p, f)) == (EOF, [], Rest(p + |f|, []))
  {
    hide Parse;
  }

  lemma {:induction false} PhysicalCut(crc: Checksum, p: nat, t: Byte, data: seq<Byte>, n: nat)
    requires HEADER <= Room(p) && HEADER + |data| <= Room(p) && n < HEADER + |data|
    ensures |data| < 0x1_0000
    ensures var (u, _, next) := NextPhysical(crc, Rest(p, Physical(crc, t, data)[..n]));
            next.f == [] && (u == EOF || u == BAD)
  {
    var bs := Physical(crc, t, data);
    if n >= HEADER {
      assert bs[..n][4] == bs[4] == |data| % 256 && bs[..n][5] == bs[5] == |data| / 256;
    }
  }

  lemma {:induction false} NothingLeft(crc: Checksum, p: nat, inFragment: bool, scratch: seq<Byte>)
    ensures NextRecord(crc, Rest(p, []), inFragment, scratch).0 == None
  {}

  /** A record whose last byte is missing is not returned, not even in part. */
  lemma {:induction false} RecordCut(crc: Checksum, p: nat, data: seq<Byte>, begin: bool, scratch: seq<Byte>, n: nat)
    requires n < |Emit(crc, p, data, begin)|
    ensures NextRecord(crc, Rest(p, Emit(crc, p, data, begin)[..n]), !begin, scratch).0 == None
    decreases |data|, if FragLen(p, data) == 0 then 1 else 0
  {
    hide NextPhysical, Room, FragLen, Pad, Fragment, Emit;
    var len := FragLen(p, data);
    var frag := Fragment(crc, p, data, begin);
    EmitIs(crc, p, data, begin);
    var bs := Emit(crc, p, data, begin);
    if n < |frag| {
      assert bs[..n] == frag[..n];
      FragmentCut(crc, p, data, begin, n);
      var (t, _, next) := NextPhysical(crc, Rest(p, bs[..n]));
      if t == BAD { NothingLeft(crc, next.p, false, if begin then scratch else []); }
    } else {
      NextFragment(p, data, |frag|);
      var more := Emit(crc, p + |frag|, data[len..], false);
      assert bs[..n] == frag + more[..n - |frag|];
      FragmentRead(crc, p, data, begin, more[..n - |frag|]);
      RecordCut(crc, p + |frag|, data[len..], false, if begin then data[..len] else scratch + data[..len], n - |frag|);
    }
  }

  /** Read-back of any prefix: the first n bytes of a log give back exactly the
      leading records that end at or before byte n. */
  lemma {:induction false} PrefixReadBack(crc: Checksum, p: nat, recs: seq<seq<Byte>>, n: nat, k: nat)
    requires k <= |recs| && |LogOf(crc, p, recs[..k])| <= n <= |LogOf(crc, p, recs)|
    requires k < |recs| ==> n < |LogOf(crc, p, recs[..k + 1])|
    ensures ReadAll(crc, Rest(p, LogOf(crc, p, recs)[..n])) == recs[..k]
    decreases |recs|
  {
    hide NextRecord, Emit;
    if recs == [] {
      NothingLeft(crc, p, false, []);
    } else {
      var bs := Emit(crc, p, recs[0], true);
      var more := LogOf(crc, p + |bs|, recs[1..]);
      if k == 0 {
        assert LogOf(crc, p, recs[..1]) == bs by { assert recs[..1] == [recs[0]] && LogOf(crc, p + |bs|, []) == []; }
        assert LogOf(crc, p, recs)[..n] == bs[..n];
        RecordCut(crc, p, recs[0], true, [], n);
      } else {
        assert recs[..k][1..] == recs[1..][..k - 1];
        if k < |recs| { assert recs[..k + 1][1..] == recs[1..][..k]; }
        assert LogOf(crc, p, recs)[..n] == bs + more[..n - |bs|];
        RecordRead(crc, p, recs[0], true, [], more[..n - |bs|]);
        PrefixReadBack(crc, p + |bs|, recs[1..], n - |bs|, k - 1);
      }
    }
  }

  /** The whole log gives back all its records. */
  lemma {:induction false} RoundTrip(crc: Checksum, recs: seq<seq<Byte>>)
    ensures ReadAll(crc, Rest(0, LogOf(crc, 0, recs))) == recs
  {
    var n := |LogOf(crc, 0, recs)|;
    assert recs[..|recs|] == recs && LogOf(crc, 0, recs)[..n] == LogOf(crc, 0, recs);
    PrefixReadBack(crc, 0, recs, n, |recs|);
  }

  // ------------------------------------------------- intact logs are silent

  lemma {:induction false} ParseSilent(crc: Checksum, t: Byte, data: seq<Byte>, tail: seq<Byte>)
    requires |data| < 0x1_0000 && 0 < t
    ensures ParseReport(crc, Physical(crc, t, data) + tail) == []
  {
    hide Mask, Unmask, Fixed32, DecodeFixed32;
    var sum := Mask(crc([t] + data));
    var buf := Physical(crc, t, data) + tail;
    Fixed32RoundTrip(sum, buf[4..]);
    assert buf == Fixed32(sum) + buf[4..];
    UnmaskMask(crc([t] + data));
    assert buf[4] == |data| % 256 && buf[5] == |data| / 256 && buf[6] == t;
    assert buf[6..HEADER + |data|] == [t] + data;
  }

  lemma {:induction false} FragmentSilent(crc: Checksum, p: nat, data: seq<Byte>, begin: bool, rest: seq<Byte>)
    ensures PhysicalReports(crc, Rest(p, Fragment(crc, p, data, begin) + rest)) == []
  {
    hide ParseReport, Physical, Room, FragLen, PhysicalReports;
    var n, pad := FragLen(p, data), Pad(p);
    var t := FragType(begin, n == |data|);
    var bs := Physical(crc, t, data[..n]);
    assert Fragment(crc, p, data, begin) + rest == Zeros(pad) + (bs + rest);
    SkipPadReports(crc, p, bs + rest);
    PhysicalSilent(crc, p + pad, t, data[..n], rest);
  }

  lemma {:induction false} SkipPadReports(crc: Checksum, p: nat, f: seq<Byte>)
    ensures PhysicalReports(crc, Rest(p, Zeros(Pad(p)) + f)) == PhysicalReports(crc, Rest(p + Pad(p), f))
  {
    hide ParseReport;
    var g := Zeros(Pad(p)) + f;
    assert g[Pad(p)..] == f;
    if Pad(p) == 0 { assert g == f; } else {
      assert Drop(Rest(p, g), Room(p)) == Rest(p + Pad(p), f);
    }
  }

  lemma {:induction false} PhysicalSilent(crc: Checksum, p: nat, t: Byte, data: seq<Byte>, rest: seq<Byte>)
    requires HEADER + |data| <= Room(p) && 0 < t && |data| < 0x1_0000
    ensures PhysicalReports(crc, Rest(p, Physical(crc, t, data) + rest)) == []
  {
    hide ParseReport, Physical, Room;
    var bs := Physical(crc, t, data);
    var buf := (bs + rest)[..Min(Room(p), |bs + rest|)];
    ParseSilent(crc, t, data, buf[|bs|..]);
    assert buf == bs + buf[|bs|..];
  }

  lemma {:induction false} RecordSilent(crc: Checksum, p: nat, data: seq<Byte>, begin: bool, scratch: seq<Byte>,
      rest: seq<Byte>)
    requires begin ==> scratch == []
    ensures RecordReports(crc, Rest(p, Emit(crc, p, data, begin) + rest), !begin, scratch) == []
    decreases |data|, if FragLen(p, data) == 0 then 1 else 0
  {
    hide NextPhysical, NextRecord, RecordReports, PhysicalReports, Room, FragLen, Pad, Fragment, Emit;
    var n, frag := FragLen(p, data), Fragment(crc, p, data, begin);
    EmitIs(crc, p, data, begin);
    var bs := Emit(crc, p, data, begin);
    var more := if n == |data| then [] else Emit(crc, p + |frag|, data[n..], false);
    assert bs + rest == frag + (more + rest);
    FragmentRead(crc, p, data, begin, more + rest);
    FragmentSilent(crc, p, data, begin, more + rest);
    StepUnfold(crc, Rest(p, bs + rest), !begin, scratch);
    if n < |data| {
      NextFragment(p, data, |frag|);
      RecordSilent(crc, p + |frag|, data[n..], false, if begin then data[..n] else scratch + data[..n], rest);
    }
  }

  /** Reading an intact log reports nothing. */
  lemma {:induction false} LogSilent(crc: Checksum, p: nat, recs: seq<seq<Byte>>)
    ensures AllReports(crc, Rest(p, LogOf(crc, p, recs))) == []
    decreases |recs|
  {
    hide NextRecord, RecordReports, Emit, NextPhysical, PhysicalReports;
    if recs == [] {
      EndSilent(crc, p);
    } else {
      var bs := Emit(crc, p, recs[0], true);
      var more := LogOf(crc, p + |bs|, recs[1..]);
      RecordRead(crc, p, recs[0], true, [], more);
      RecordSilent(crc, p, recs[0], true, [], more);
      LogSilent(crc, p + |bs|, recs[1..]);
    }
  }

  lemma {:induction false} EndSilent(crc: Checksum, p: nat)
    ensures RecordReports(crc, Rest(p, []), false, []) == [] && NextRecord(crc, Rest(p, []), false, []).0 == None
  {}

  /** How many leading records end at or before byte n. */
  ghost function Complete(crc: Checksum, p: nat, recs: seq<seq<Byte>>, n: nat): (k: nat)
    ensures k <= |recs|
    decreases |recs|
  {
    if recs == [] then 0 else
      var bs := Emit(crc, p, recs[0], true);
      if n < |bs| then 0 else 1 + Complete(crc, p + |bs|, recs[1..], n - |bs|)
  }

  /** Every n has its number of complete records. */
  lemma {:induction false} CompleteIs(crc: Checksum, p: nat, recs: seq<seq<Byte>>, n: nat)
    ensures
      var k := Complete(crc, p, recs, n);
      && k <= |recs| && |LogOf(crc, p, recs[..k])| <= n
      && (k < |recs| ==> n < |LogOf(crc, p, recs[..k + 1])|)
      && (n >= |LogOf(crc, p, recs)| ==> k == |recs|)
    decreases |recs|
  {
    hide Emit;
    if recs != [] {
      var bs, k := Emit(crc, p, recs[0], true), Complete(crc, p, recs, n);
      if n < |bs| {
        assert recs[..1][1..] == [];
      } else {
        CompleteIs(crc, p + |bs|, recs[1..], n - |bs|);
        assert recs[..k][1..] == recs[1..][..k - 1];
        if k < |recs| { assert recs[..k + 1][1..] == recs[1..][..k]; }
      }
    }
  }

  lemma {:induction false} LogOfSnoc(crc: Checksum, p: nat, recs: seq<seq<Byte>>, rec: seq<Byte>)
    ensures LogOf(crc, p, recs + [rec]) == LogOf(crc, p, recs) + Emit(crc, p + |LogOf(crc, p, recs)|, rec, true)
    decreases |recs|
  {
    hide Emit;
    if recs == [] {
      assert (recs + [rec])[1..] == [];
    } else {
      assert (recs + [rec])[1..] == recs[1..] + [rec];
      LogOfSnoc(crc, p + |Emit(crc, p, recs[0], true)|, recs[1..], rec);
    }
  }

  // -------------------------------------------------------------- the writer

  class Writer {
    const crc: Checksum
    var dest: seq<Byte>
    var blockOffset: nat

    constructor (crc: Checksum)
      ensures Valid() && dest == [] && this.crc == crc
    {
      this.crc, dest, blockOffset := crc, [], 0;
    }

    /** The offset in the block, or the block size if the block is just full. */
    ghost predicate Valid()
      reads this
    {
      blockOffset <= BLOCK && blockOffset % BLOCK == |dest| % BLOCK
    }

    method AddRecord(slice: seq<Byte>)
      requires Valid()
      modifies this
      ensures Valid() && dest == old(dest) + Emit(crc, |old(dest)|, slice, true)
    {
      hide FragLen, Pad, Room, Zeros, Physical, FragType, Fragment;
      var rest, begin := slice, true;
      ghost var all := dest + Emit(crc, |dest|, slice, true);
      while true
        invariant Valid() && all == dest + Emit(crc, |dest|, rest, begin)
        decreases |rest|, if FragLen(|dest|, rest) == 0 then 1 else 0
      {
        ghost var done := dest;
        var n := AddFragment(rest, begin);
        if n == |rest| {
          break;
        }
        NextFragment(|done|, rest, |dest| - |done|);
        assert all == dest + Emit(crc, |dest|, rest[n..], false);
        rest, begin := rest[n..], false;
      }
    }

    /** One turn of AddRecord's loop. */
    method AddFragment(rest: seq<Byte>, begin: bool) returns (n: nat)
      requires Valid()
      modifies this
      ensures Valid() && n == FragLen(|old(dest)|, rest) && dest == old(dest) + Fragment(crc, |old(dest)|, rest, begin)
    {
      hide Physical;
      SwitchBlock();
      var avail := BLOCK - blockOffset - HEADER;
      n := if |rest| < avail then |rest| else avail;
      var end := n == |rest|;
      var t := if begin && end then FULL else if begin then FIRST else if end then LAST else MIDDLE;
      EmitPhysicalRecord(t, rest[..n]);
    }

    method SwitchBlock()
      requires Valid()
      modifies this
      ensures Valid() && dest == old(dest) + Zeros(Pad(|old(dest)|)) && BLOCK - blockOffset == Room(|dest|)
    {
      var leftover := BLOCK - blockOffset;
      assert leftover == Room(|dest|) || (leftover == 0 && Room(|dest|) == BLOCK);
      if leftover < HEADER {
        if leftover > 0 {
          dest := dest + Zeros(leftover);
        }
        blockOffset := 0;
      }
    }

    method EmitPhysicalRecord(t: Byte, data: seq<Byte>)
      requires blockOffset + HEADER + |data| <= BLOCK && |data| < 0x1_0000 && Valid()
      modifies this
      ensures dest == old(dest) + Physical(crc, t, data) && blockOffset == old(blockOffset) + HEADER + |data| && Valid()
    {
      hide Fixed32, Mask;
      var header := Fixed32(Mask(crc([t] + data))) + [|data| % 256, |data| / 256, t];
      assert dest + header + data == dest + (header + data);
      SameOffset(blockOffset, |dest|, HEADER + |data|);
      dest := dest + header;
      dest := dest + data;
      blockOffset := blockOffset + HEADER + |data|;
    }
  }

  lemma {:induction false} SameOffset(a: nat, b: nat, n: nat)
    requires a % BLOCK == b % BLOCK
    ensures (a + n) % BLOCK == (b + n) % BLOCK
  {}

  // -------------------------------------------------------------- the reader

  lemma {:induction false} RoomInBlock(p: nat, q: nat)
    requires q - q % BLOCK <= p <= q
    ensures q - p < Room(p)
  {
    assert p % BLOCK == p - (q - q % BLOCK);
  }

  lemma {:induction false} RoomToEnd(p: nat, n: nat)
    requires 0 < n <= BLOCK && (p + n) % BLOCK == 0
    ensures Room(p) == n
  {
    assert p % BLOCK == if n == BLOCK then 0 else BLOCK - n;
  }

  lemma {:induction false} TakeOfDrop(f: seq<Byte>, p: nat, q: nat)
    requires p <= q <= |f|
    ensures f[p..][..q - p] == f[p..q]
  {}

  class Reader {
    const crc: Checksum
    const file: seq<Byte>
    var pos: nat
    var buffer: seq<Byte>
    var eof: bool
    /** The sizes reported to the reporter. */
    var reports: seq<nat>

    constructor (crc: Checksum, file: seq<Byte>)
      ensures Valid() && Left() == Rest(0, file) && this.crc == crc && this.file == file && reports == []
    {
      this.crc, this.file := crc, file;
      pos, buffer, eof, reports := 0, [], false, [];
    }

    /** All reads so far were of whole blocks, unless the file has ended. */
    ghost predicate Valid()
      reads this
    {
      && |buffer| <= pos <= |file| && buffer == file[pos - |buffer|..pos] && |buffer| <= BLOCK
      && (if eof then pos == |file| && pos - pos % BLOCK <= pos - |buffer| else pos % BLOCK == 0)
    }

    ghost function Left(): Rest
      requires Valid()
      reads this
    {
      Rest(pos - |buffer|, file[pos - |buffer|..])
    }

    /** The buffer is what is left of the current block, or of the file. */
    lemma {:induction false} BufferIsBlock()
      requires Valid() && (buffer != [] || eof)
      ensures Min(Room(Left().p), |Left().f|) == |buffer| && Left().f[..|buffer|] == buffer
      ensures eof ==> |buffer| < Room(Left().p)
    {
      hide Room;
      var p := pos - |buffer|;
      TakeOfDrop(file, p, pos);
      if eof {
        RoomInBlock(p, pos);
      } else {
        RoomToEnd(p, |buffer|);
      }
    }

    /** A rest too short for a header is skipped. */
    lemma {:induction false} SkipShort()
      requires Valid() && !eof && |buffer| < HEADER
      ensures NextPhysical(crc, Left()) == NextPhysical(crc, Rest(pos, file[pos..]))
      ensures PhysicalReports(crc, Left()) == PhysicalReports(crc, Rest(pos, file[pos..]))
    {
      if buffer != [] {
        BufferIsBlock();
        assert Drop(Left(), |buffer|) == Rest(pos, file[pos..]);
      }
    }

    lemma {:induction false} AtRecord()
      requires Valid() && |buffer| >= HEADER
      ensures var r := Parse(crc, buffer); NextPhysical(crc, Left()) == (r.0, r.1, Drop(Left(), r.2))
      ensures PhysicalReports(crc, Left()) == ParseReport(crc, buffer)
    {
      hide Parse, ParseReport;
      BufferIsBlock();
    }

    lemma {:induction false} AtEnd()
      requires Valid() && |buffer| < HEADER && eof
      ensures NextPhysical(crc, Left()) == (EOF, [], Drop(Left(), |buffer|))
      ensures PhysicalReports(crc, Left()) == if buffer == [] then [] else [|buffer|]
    {
      BufferIsBlock();
    }

    /** Read the next block; a short read means the file has ended. */
    method Fill()
      requires Valid() && !eof
      modifies this
      ensures Valid() && Left() == Rest(old(pos), file[old(pos)..])
      ensures (pos > old(pos) || (pos == old(pos) && eof)) && reports == old(reports)
    {
      var n := Min(BLOCK, |file| - pos);
      buffer := file[pos..pos + n];
      pos := pos + n;
      if n < BLOCK {
        eof := true;
      }
    }

    /** n bytes of the buffer are done with. */
    method Consume(n: nat)
      requires Valid() && n <= |buffer|
      modifies this`buffer
      ensures Valid() && Left() == Drop(old(Left()), n)
    {
      buffer := buffer[n..];
    }

    method Report(sizes: seq<nat>)
      requires Valid()
      modifies this`reports
      ensures Valid() && Left() == old(Left()) && reports == old(reports) + sizes
    {
      reports := reports + sizes;
    }

    method ReadPhysicalRecord() returns (t: Byte, fragment: seq<Byte>)
      requires Valid()
      modifies this
      ensures Valid() && (t, fragment, Left()) == NextPhysical(crc, old(Left()))
      ensures reports == old(reports) + PhysicalReports(crc, old(Left()))
    {
      hide NextPhysical, Parse, PhysicalReports, ParseReport;
      while |buffer| < HEADER
        invariant Valid() && NextPhysical(crc, Left()) == NextPhysical(crc, old(Left()))
        invariant PhysicalReports(crc, Left()) == PhysicalReports(crc, old(Left())) && reports == old(reports)
        decreases |file| - pos, if eof then 0 else 1
      {
        if eof {
          AtEnd();
          var dropped := |buffer|;
          Consume(dropped);
          if dropped > 0 {
            Report([dropped]);
          }
          return EOF, [];
        }
        SkipShort();
        Fill();
      }
      AtRecord();
      t, fragment := ReadHeader();
    }

    /** The header checks on a buffer that holds a header. */
    method ReadHeader() returns (t: Byte, fragment: seq<Byte>)
      requires Valid() && |buffer| >= HEADER
      modifies this`buffer, this`reports
      ensures Valid() && reports == old(reports) + ParseReport(crc, old(buffer))
      ensures var r := Parse(crc, old(buffer)); t == r.0 && fragment == r.1 && Left() == Drop(old(Left()), r.2)
    {
      hide Valid, Left, Unmask, DecodeFixed32;
      var header := buffer;
      var length := header[4] as int + 256 * (header[5] as int);
      if HEADER + length > |header| {
        Consume(|header|);
        Report([|header|]);
        return BAD, [];
      }
      if header[6] == 0 && length == 0 {
        Consume(|header|);
        return BAD, [];
      }
      var expectedCrc := Unmask(DecodeFixed32(header));
      var actualCrc := crc(header[6..HEADER + length]);
      if actualCrc != expectedCrc {
        Consume(|header|);
        Report([|header|]);
        return BAD, [];
      }
      Consume(HEADER + length);
      return header[6], header[HEADER..HEADER + length];
    }

    method ReadRecord() returns (ok: bool, record: seq<Byte>)
      requires Valid()
      modifies this
      ensures Valid() && |Left().f| <= |old(Left()).f| && (ok ==> |Left().f| < |old(Left()).f|)
      ensures (if ok then Some(record) else None, Left()) == NextRecord(crc, old(Left()), false, [])
      ensures reports == old(reports) + RecordReports(crc, old(Left()), false, [])
    {
      hide Valid, Left, NextPhysical, PhysicalReports, NextRecord, RecordReports;
      var scratch: seq<Byte>, inFragmentedRecord := [], false;
      ghost var all := reports + RecordReports(crc, Left(), false, []);
      while true
        invariant Valid() && |Left().f| <= |old(Left()).f|
        invariant NextRecord(crc, Left(), inFragmentedRecord, scratch) == NextRecord(crc, old(Left()), false, [])
        invariant reports + RecordReports(crc, Left(), inFragmentedRecord, scratch) == all
        decreases |Left().f|
      {
        StepUnfold(crc, Left(), inFragmentedRecord, scratch);
        var t, fragment := ReadPhysicalRecord();
        if t == FULL {
          if inFragmentedRecord && scratch != [] {
            Report([|scratch|]);
          }
          return true, fragment;
        } else if t == FIRST {
          if inFragmentedRecord && scratch != [] {
            Report([|scratch|]);
          }
          scratch, inFragmentedRecord := fragment, true;
        } else if t == MIDDLE {
          if !inFragmentedRecord {
            Report([|fragment|]);
          } else {
            scratch := scratch + fragment;
          }
        } else if t == LAST {
          if !inFragmentedRecord {
            Report([|fragment|]);
          } else {
            return true, scratch + fragment;
          }
        } else if t == EOF {
          if inFragmentedRecord {
            Report([|scratch|]);
          }
          return false, [];
        } else if t == BAD {
          if inFragmentedRecord {
            Report([|scratch|]);
            scratch, inFragmentedRecord := [], false;
          }
        } else {
          Report([|fragment| + if inFragmentedRecord then |scratch| else 0]);
          scratch, inFragmentedRecord := [], false;
        }
      }
    }
  }

  /** One round of reassembly: what is left to read and to report afterwards. */
  lemma {:induction false} StepUnfold(crc: Checksum, st: Rest, inFragment: bool, scratch: seq<Byte>)
    ensures
      var (t, frag, next) := NextPhysical(crc, st);
      var said := PhysicalReports(crc, st) + FragmentReport(t, frag, inFragment, scratch);
      if t == EOF || t == FULL || (t == LAST && inFragment) then
        && NextRecord(crc, st, inFragment, scratch) ==
             (if t == EOF then None else Some(if t == FULL then frag else scratch + frag), next)
        && RecordReports(crc, st, inFragment, scratch) == said
      else
        var going := t == FIRST || (t == MIDDLE && inFragment);
        var kept := if t == FIRST then frag else if going then scratch + frag
                    else if t == MIDDLE || t == LAST || (t == BAD && !inFragment) then scratch else [];
        && NextRecord(crc, st, inFragment, scratch) == NextRecord(crc, next, going, kept)
        && RecordReports(crc, st, inFragment, scratch) == said + RecordReports(crc, next, going, kept)
  {
    hide NextPhysical, PhysicalReports, FragmentReport;
  }

  lemma {:induction false} ReadAllStep(crc: Checksum, st: Rest)
    ensures var (r, next) := NextRecord(crc, st, false, []);
            ReadAll(crc, st) == if r.None? then [] else [r.value] + ReadAll(crc, next)
  {
    hide NextRecord;
  }

  lemma {:induction false} AllReportsStep(crc: Checksum, st: Rest)
    ensures var (r, next) := NextRecord(crc, st, false, []);
            AllReports(crc, st) == RecordReports(crc, st, false, []) + if r.None? then [] else AllReports(crc, next)
  {
    hide NextRecord, RecordReports;
  }

  lemma {:induction false} Assoc<T>(a: seq<T>, b: seq<T>, c: seq<T>)
    ensures (a + b) + c == a + (b + c)
  {}

  /** The reading loop of RecoverLogFile. */
  method ReadLog(crc: Checksum, file: seq<Byte>) returns (records: seq<seq<Byte>>, reports: seq<nat>)
    ensures records == ReadAll(crc, Rest(0, file)) && reports == AllReports(crc, Rest(0, file))
  {
    hide NextRecord, NextPhysical, ReadAll, Reader.Valid, Reader.Left, RecordReports, AllReports;
    var reader := new Reader(crc, file);
    records := [];
    while true
      invariant reader.Valid() && reader.crc == crc && fresh(reader)
      invariant records + ReadAll(crc, reader.Left()) == ReadAll(crc, Rest(0, file))
      invariant reader.reports + AllReports(crc, reader.Left()) == AllReports(crc, Rest(0, file))
      decreases |reader.Left().f|
    {
      ghost var st, said := reader.Left(), reader.reports;
      ReadAllStep(crc, st);
      AllReportsStep(crc, st);
      var ok, record := reader.ReadRecord();
      if !ok {
        break;
      }
      Assoc(records, [record], ReadAll(crc, reader.Left()));
      Assoc(said, RecordReports(crc, st, false, []), AllReports(crc, reader.Left()));
      records := records + [record];
    }
    reports := reader.reports;
  }

  /** Write through the writer, lose everything from byte n on, and recover: the
      reader returns exactly the records that were complete. */
  method WriteCutRead(crc: Checksum, recs: seq<seq<Byte>>, n: nat)
    returns (file: seq<Byte>, got: seq<seq<Byte>>, reports: seq<nat>)
    ensures file == LogOf(crc, 0, recs)
    ensures got == recs[..Complete(crc, 0, recs, n)]
    ensures n >= |file| ==> got == recs && reports == []
  {
    hide Emit, LogOf, ReadAll, Complete, AllReports;
    var w := new Writer(crc);
    assert recs[..0] == [] && LogOf(crc, 0, []) == [] by { EmptyLog(crc); }
    for i := 0 to |recs|
      invariant fresh(w) && w.Valid() && w.crc == crc && w.dest == LogOf(crc, 0, recs[..i])
    {
      LogOfSnoc(crc, 0, recs[..i], recs[i]);
      assert recs[..i + 1] == recs[..i] + [recs[i]];
      w.AddRecord(recs[i]);
    }
    assert recs[..|recs|] == recs;
    file := w.dest;
    var m := if n < |file| then n else |file|;
    CompleteIs(crc, 0, recs, n);
    PrefixReadBack(crc, 0, recs, m, Complete(crc, 0, recs, n));
    LogSilent(crc, 0, recs);
    assert n >= |file| ==> file[..m] == file;
    got, reports := ReadLog(crc, file[..m]);
  }

  lemma {:induction false} EmptyLog(crc: Checksum)
    ensures LogOf(crc, 0, []) == []
  {}
}
