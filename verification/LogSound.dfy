/**
 What the log reader promises for every file, however damaged: what it returns
 was written as it stands, and what it does not return it reports.
 */
module LogSound {
  import opened Wrappers
  import opened Coding
  import opened LogFile

  /** A fragment in a file: where its header starts and how long its payload is. */
  datatype Frag = Frag(at: nat, len: nat) {
    function End(): nat { at + 7 + len }
  }

  /** The header at f.at says so, the fragment stays inside its 32 KB block, and
      the checksum over type and payload is the stored one. */
  ghost predicate Intact(crc: Checksum, file: seq<Byte>, f: Frag) {
    && f.End() <= |file| && f.at % 32768 + 7 + f.len <= 32768
    && file[f.at + 4] as int + 256 * (file[f.at + 5] as int) == f.len
    && crc(file[f.at + 6..f.End()]) == Unmask(DecodeFixed32(file[f.at..]))
  }

  /** Where the header after byte p is: at p, or in the next block if fewer than
      seven bytes are left in this one. */
  function HeaderFrom(p: nat): nat {
    if p % 32768 <= 32761 then p else p - p % 32768 + 32768
  }

  predicate Within(file: seq<Byte>, fs: seq<Frag>) {
    forall i :: 0 <= i < |fs| ==> fs[i].at + 7 + fs[i].len <= |file|
  }

  /** The whole fragments of one record, one right behind the other. */
  ghost predicate Chain(crc: Checksum, file: seq<Byte>, fs: seq<Frag>) {
    && (forall i :: 0 <= i < |fs| ==> Intact(crc, file, fs[i]))
    && forall i :: 0 < i < |fs| ==> fs[i].at == HeaderFrom(fs[i - 1].End())
  }

  ghost function Payloads(file: seq<Byte>, fs: seq<Frag>): seq<Byte>
    requires Within(file, fs)
  {
    if fs == [] then [] else
      var f := fs[|fs| - 1];
      Payloads(file, fs[..|fs| - 1]) + file[f.at + 7..f.End()]
  }

  /** The type bytes are FULL, or FIRST, MIDDLE ... MIDDLE, LAST. */
  ghost predicate Typed(file: seq<Byte>, fs: seq<Frag>)
    requires Within(file, fs)
  {
    forall i :: 0 <= i < |fs| ==>
      file[fs[i].at + 6] == if |fs| == 1 then 1 else if i == 0 then 2 else if i == |fs| - 1 then 4 else 3
  }

  /** The record stands in the file as these fragments. */
  ghost predicate StandsAt(crc: Checksum, file: seq<Byte>, fs: seq<Frag>, rec: seq<Byte>) {
    fs != [] && Chain(crc, file, fs) && Typed(file, fs) && rec == Payloads(file, fs)
  }

  /** Reassembly under way: the fragments gathered so far end where reading goes on. */
  ghost predicate Gathered(crc: Checksum, file: seq<Byte>, fs: seq<Frag>, scratch: seq<Byte>, p: nat) {
    && Chain(crc, file, fs) && scratch == Payloads(file, fs)
    && (forall i :: 0 <= i < |fs| ==> file[fs[i].at + 6] == if i == 0 then 2 else 3)
    && (fs != [] ==> fs[|fs| - 1].End() == p)
  }

  ghost predicate IsRest(st: Rest, file: seq<Byte>) { st.p <= |file| && st.f == file[st.p..] }

  // -------------------------------------------------- what the writer writes

  /** The writer fills up a block that has no room for a header with zeros, and
      then writes a header and payload that read as they should. */
  lemma {:induction false} FragmentWritten(crc: Checksum, p: nat, data: seq<Byte>, begin: bool)
    ensures
      var bs, n, o := Fragment(crc, p, data, begin), FragLen(p, data), HeaderFrom(p) - p;
      && 0 <= o <= |bs| && |bs| == o + 7 + n
      && (forall i :: 0 <= i < o ==> bs[i] == 0)
      && bs[o + 4] as int + 256 * (bs[o + 5] as int) == n
      && bs[o + 6] == (if n < |data| then if begin then 2 else 3 else if begin then 1 else 4)
      && bs[o + 7..] == data[..n]
      && Unmask(DecodeFixed32(bs[o..])) == crc(bs[o + 6..])
      // as much as the block takes, and all of the record if it fits
      && (n < |data| ==> HeaderFrom(p) % 32768 + 7 + n == 32768)
  {
    hide Mask, Unmask, Fixed32, DecodeFixed32;
    var n, o := FragLen(p, data), HeaderFrom(p) - p;
    assert o == Pad(p);
    var t, d := FragType(begin, n == |data|), data[..n];
    var bs := Fragment(crc, p, data, begin);
    var sum := Mask(crc([t] + d));
    var head := Fixed32(sum);
    assert bs == Zeros(o) + (head + [n % 256, n / 256, t] + d);
    assert bs[o..] == head + ([n % 256, n / 256, t] + d);
    Fixed32RoundTrip(sum, [n % 256, n / 256, t] + d);
    UnmaskMask(crc([t] + d));
    assert bs[o + 6..] == [t] + d;
  }

  // ---------------------------------------------------- one physical record

  /** How a header at o is judged, by the bytes alone.  With `end` the end of its
      block or of the file: fewer than seven bytes end the reading and are
      reported; a length beyond the block or a wrong checksum drops the rest of
      the block and reports its size; a zero type without payload drops it
      silently; only a record that passes all this is returned. */
  ghost predicate Judged(crc: Checksum, file: seq<Byte>, o: nat, t: Byte, data: seq<Byte>, next: nat, said: seq<nat>)
    requires o <= |file|
  {
    if |file| - o < 7 then
      t == EOF && data == [] && next == |file| && said == if o == |file| then [] else [|file| - o]
    else
      var end := if |file| < o - o % 32768 + 32768 then |file| else o - o % 32768 + 32768;
      var len := file[o + 4] as int + 256 * (file[o + 5] as int);
      if o + 7 + len > end then t == BAD && data == [] && next == end && said == [end - o]
      else if file[o + 6] == 0 && len == 0 then t == BAD && data == [] && next == end && said == []
      else if crc(file[o + 6..o + 7 + len]) != Unmask(DecodeFixed32(file[o..])) then
        t == BAD && data == [] && next == end && said == [end - o]
      else t == file[o + 6] && data == file[o + 7..o + 7 + len] && next == o + 7 + len && said == []
  }

  /** The next physical record: the header is looked for behind the trailer, and a
      file that ends inside the trailer ends there. */
  lemma {:induction false} PhysicalVerdict(crc: Checksum, st: Rest, file: seq<Byte>)
    requires IsRest(st, file)
    ensures
      var (t, data, next) := NextPhysical(crc, st);
      var said := PhysicalReports(crc, st);
      && IsRest(next, file)
      && if HeaderFrom(st.p) <= |file| then Judged(crc, file, HeaderFrom(st.p), t, data, next.p, said)
         else t == EOF && next.p == |file| && said == if st.f == [] then [] else [|file| - st.p]
  {
    hide Parse, ParseReport, Judged;
    var o := HeaderFrom(st.p);
    if o <= |file| {
      var there := Rest(o, file[o..]);
      if o != st.p { assert Drop(st, Room(st.p)) == there; } else { assert st == there; }
      HeaderVerdict(crc, there, file);
    }
  }

  lemma {:induction false} HeaderVerdict(crc: Checksum, st: Rest, file: seq<Byte>)
    requires IsRest(st, file) && st.p % 32768 <= 32761
    ensures
      var (t, data, next) := NextPhysical(crc, st);
      IsRest(next, file) && Judged(crc, file, st.p, t, data, next.p, PhysicalReports(crc, st))
  {
    hide Room, Parse, ParseReport, Judged;
    var o, size := st.p, Min(Room(st.p), |st.f|);
    RoomIs(o);
    if size >= HEADER {
      ParseVerdict(crc, file, o, size);
      assert st.f[..size] == file[o..o + size];
    } else {
      TooShort(crc, file, o);
    }
  }

  lemma {:induction false} TooShort(crc: Checksum, file: seq<Byte>, o: nat)
    requires o <= |file| < o + 7
    ensures Judged(crc, file, o, EOF, [], |file|, if o == |file| then [] else [|file| - o])
  {}

  lemma {:induction false} ParseVerdict(crc: Checksum, file: seq<Byte>, o: nat, size: nat)
    requires HEADER <= size && o + size <= |file| && size == Min(32768 - o % 32768, |file| - o)
    ensures
      var r := Parse(crc, file[o..o + size]);
      Judged(crc, file, o, r.0, r.1, o + r.2, ParseReport(crc, file[o..o + size]))
  {
    hide Unmask, DecodeFixed32;
    var buf := file[o..o + size];
    SameWord(buf, file[o..]);
    var len := buf[4] as int + 256 * (buf[5] as int);
    if HEADER + len <= size {
      SliceOfSlice(file, o, size, 6, HEADER + len);
      SliceOfSlice(file, o, size, HEADER, HEADER + len);
    }
  }

  lemma {:induction false} SliceOfSlice(f: seq<Byte>, o: nat, size: nat, a: nat, b: nat)
    requires o + size <= |f| && a <= b <= size
    ensures f[o..o + size][a..b] == f[o + a..o + b]
  {
    var x, y := f[o..o + size][a..b], f[o + a..o + b];
    assert |x| == |y| && forall i :: 0 <= i < |x| ==> x[i] == y[i];
  }

  lemma {:induction false} RoomIs(p: nat)
    ensures Room(p) == 32768 - p % 32768
  {}

  lemma {:induction false} SameWord(a: seq<Byte>, b: seq<Byte>)
    requires 4 <= |a| <= |b| && a == b[..|a|]
    ensures DecodeFixed32(a) == DecodeFixed32(b)
  {
    assert a[0] == b[0] && a[1] == b[1] && a[2] == b[2] && a[3] == b[3];
  }

  /** A returned fragment is intact and stands right behind where reading began. */
  lemma {:induction false} FragmentSound(crc: Checksum, st: Rest, file: seq<Byte>) returns (f: Frag)
    requires IsRest(st, file)
    ensures IsRest(NextPhysical(crc, st).2, file)
    ensures
      var (t, data, next) := NextPhysical(crc, st);
      t in {FULL, FIRST, MIDDLE, LAST} ==>
        && Intact(crc, file, f) && f.at == HeaderFrom(st.p) && f.End() == next.p
        && file[f.at + 6] == t && file[f.at + 7..f.End()] == data
  {
    hide NextPhysical, PhysicalReports, Unmask, DecodeFixed32;
    PhysicalVerdict(crc, st, file);
    f := Frag(HeaderFrom(st.p), |NextPhysical(crc, st).1|);
  }

  /** The type bytes that the writer never uses: 5 is taken for the end of the file,
      6 for a bad record, and every other one is reported with its payload. */
  lemma {:induction false} OtherTypes(crc: Checksum, st: Rest)
    ensures
      var (t, data, next) := NextPhysical(crc, st);
      var rec, said := NextRecord(crc, st, false, []), RecordReports(crc, st, false, []);
      && (t == 5 ==> rec == (None, next) && said == PhysicalReports(crc, st))
      && (t == 0 || t >= 6 ==>
            && rec == NextRecord(crc, next, false, [])
            && said == PhysicalReports(crc, st) + (if t == 6 then [] else [|data|]) +
                       RecordReports(crc, next, false, []))
  {
    hide NextPhysical, PhysicalReports;
    StepUnfold(crc, st, false, []);
  }

  // -------------------------------------------------------------- whole files

  lemma {:induction false} ChainSnoc(crc: Checksum, file: seq<Byte>, fs: seq<Frag>, f: Frag)
    requires Chain(crc, file, fs) && Intact(crc, file, f) && (fs != [] ==> f.at == HeaderFrom(fs[|fs| - 1].End()))
    ensures Chain(crc, file, fs + [f])
    ensures Payloads(file, fs + [f]) == Payloads(file, fs) + file[f.at + 7..f.End()]
  {
    hide Unmask, DecodeFixed32, HeaderFrom, Payloads;
    var gs := fs + [f];
    forall i | 0 <= i < |gs| ensures Intact(crc, file, gs[i]) { if i < |fs| { assert gs[i] == fs[i]; } }
    forall i | 0 < i < |gs| ensures gs[i].at == HeaderFrom(gs[i - 1].End()) {
      assert gs[i - 1] == fs[i - 1] && (i < |fs| ==> gs[i] == fs[i]);
    }
    PayloadsSnoc(file, fs, f);
  }

  lemma {:induction false} PayloadsSnoc(file: seq<Byte>, fs: seq<Frag>, f: Frag)
    requires Within(file, fs) && Within(file, fs + [f]) && f.End() <= |file|
    ensures Payloads(file, fs + [f]) == Payloads(file, fs) + file[f.at + 7..f.End()]
  {
    assert (fs + [f])[..|fs|] == fs;
  }

  /** A fragment of type MIDDLE joins those gathered, and one of type LAST finishes the record. */
  lemma {:induction false} Joins(crc: Checksum, file: seq<Byte>, fs: seq<Frag>, scratch: seq<Byte>, p: nat, f: Frag)
    requires Gathered(crc, file, fs, scratch, p) && fs != [] && Intact(crc, file, f) && f.at == HeaderFrom(p)
    ensures
      var data := file[f.at + 7..f.End()];
      && (file[f.at + 6] == 3 ==> Gathered(crc, file, fs + [f], scratch + data, f.End()))
      && (file[f.at + 6] == 4 ==> StandsAt(crc, file, fs + [f], scratch + data))
  {
    hide Intact;
    ChainSnoc(crc, file, fs, f);
  }

  /** A fragment of type FIRST starts a record, and one of type FULL is one. */
  lemma {:induction false} Starts(crc: Checksum, file: seq<Byte>, f: Frag)
    requires Intact(crc, file, f)
    ensures
      var data := file[f.at + 7..f.End()];
      && (file[f.at + 6] == 2 ==> Gathered(crc, file, [f], data, f.End()))
      && (file[f.at + 6] == 1 ==> StandsAt(crc, file, [f], data))
  {
    assert [] + [f] == [f];
    ChainSnoc(crc, file, [], f);
  }

  /** A record that reassembly returns stands in the file, ending where reading goes on. */
  lemma {:induction false} RecordSound(crc: Checksum, file: seq<Byte>, st: Rest, fs: seq<Frag>, scratch: seq<Byte>,
      lo: nat)
    returns (gs: seq<Frag>)
    requires IsRest(st, file) && Gathered(crc, file, fs, scratch, st.p)
    requires lo <= st.p && (fs != [] ==> lo <= fs[0].at)
    ensures
      var (r, next) := NextRecord(crc, st, fs != [], scratch);
      && IsRest(next, file)
      && (r.Some? ==> gs != [] && StandsAt(crc, file, gs, r.value) && lo <= gs[0].at && gs[|gs| - 1].End() == next.p)
    decreases |st.f|
  {
    hide NextPhysical, NextRecord, PhysicalReports, RecordReports, Intact, Gathered, StandsAt;
    var (t, data, next) := NextPhysical(crc, st);
    var f := FragmentSound(crc, st, file);
    StepUnfold(crc, st, fs != [], scratch);
    gs := [];
    if t == FULL {
      gs := [f];
      Starts(crc, file, f);
    } else if t == FIRST {
      Starts(crc, file, f);
      gs := RecordSound(crc, file, next, [f], data, lo);
    } else if (t == MIDDLE || t == LAST) && fs != [] {
      Joins(crc, file, fs, scratch, st.p, f);
      gs := fs + [f];
      if t == MIDDLE { gs := RecordSound(crc, file, next, gs, scratch + data, lo); }
    } else if t != EOF {
      if fs == [] { NoScratch(crc, file, scratch, st.p); }
      NothingGathered(crc, file, next.p);
      gs := RecordSound(crc, file, next, [], [], lo);
    }
  }

  lemma {:induction false} NoScratch(crc: Checksum, file: seq<Byte>, scratch: seq<Byte>, p: nat)
    requires Gathered(crc, file, [], scratch, p)
    ensures scratch == []
  {}

  lemma {:induction false} NothingGathered(crc: Checksum, file: seq<Byte>, p: nat)
    ensures Gathered(crc, file, [], [], p)
  {}

  /** Where the i-th record stands, and that it does so from offset p on. */
  ghost predicate AllStand(crc: Checksum, file: seq<Byte>, p: nat, recs: seq<seq<Byte>>, at: seq<seq<Frag>>) {
    && |at| == |recs|
    && (forall i :: 0 <= i < |at| ==> StandsAt(crc, file, at[i], recs[i]) && p <= at[i][0].at)
    && forall i, j :: 0 <= i < j < |at| ==> at[i][|at[i]| - 1].End() <= at[j][0].at
  }

  /** For every file: each record the reader returns stands in the file as
      neighbouring intact fragments, and the records stand there in order. */
  lemma {:induction false} RecordsSound(crc: Checksum, file: seq<Byte>, st: Rest) returns (at: seq<seq<Frag>>)
    requires IsRest(st, file)
    ensures AllStand(crc, file, st.p, ReadAll(crc, st), at)
    decreases |st.f|
  {
    hide NextPhysical, NextRecord, ReadAll, Gathered, StandsAt;
    NothingGathered(crc, file, st.p);
    var fs := RecordSound(crc, file, st, [], [], st.p);
    var (r, next) := NextRecord(crc, st, false, []);
    ReadAllStep(crc, st);
    at := [];
    if r.Some? {
      var more := RecordsSound(crc, file, next);
      at := [fs] + more;
      AllStandCons(crc, file, st.p, next.p, r.value, fs, ReadAll(crc, next), more);
    }
  }

  lemma {:induction false} AllStandCons(crc: Checksum, file: seq<Byte>, p: nat, q: nat, rec: seq<Byte>, fs: seq<Frag>,
      recs: seq<seq<Byte>>, at: seq<seq<Frag>>)
    requires AllStand(crc, file, q, recs, at) && StandsAt(crc, file, fs, rec)
    requires p <= fs[0].at && fs[|fs| - 1].End() <= q && p <= q
    ensures AllStand(crc, file, p, [rec] + recs, [fs] + at)
  {
    hide Chain, Typed, Payloads;
    var all, out := [fs] + at, [rec] + recs;
    forall i | 0 <= i < |all| ensures StandsAt(crc, file, all[i], out[i]) && p <= all[i][0].at {
      if i > 0 { assert all[i] == at[i - 1] && out[i] == recs[i - 1]; }
    }
    forall i, j | 0 <= i < j < |all| ensures all[i][|all[i]| - 1].End() <= all[j][0].at {
      assert all[j] == at[j - 1];
      if i > 0 { assert all[i] == at[i - 1]; }
    }
  }

  // ------------------------------------------------------------ conservation

  ghost function Sum(xs: seq<nat>): nat {
    if xs == [] then 0 else Sum(xs[..|xs| - 1]) + xs[|xs| - 1]
  }

  lemma {:induction false} SumConcat(a: seq<nat>, b: seq<nat>)
    ensures Sum(a + b) == Sum(a) + Sum(b)
  {
    if b == [] { assert a + b == a; } else {
      assert (a + b)[..|a + b| - 1] == a + b[..|b| - 1];
      SumConcat(a, b[..|b| - 1]);
    }
  }

  ghost function Bytes(recs: seq<seq<Byte>>): nat {
    if recs == [] then 0 else |recs[0]| + Bytes(recs[1..])
  }

  /** The payload bytes of the records that pass the header checks, and the bytes
      those checks reported, until the file ends. */
  ghost function Offered(crc: Checksum, st: Rest): nat
    decreases |st.f|
  {
    var (t, data, next) := NextPhysical(crc, st);
    Sum(PhysicalReports(crc, st)) + if t == EOF then 0 else (if t == BAD then 0 else |data|) + Offered(crc, next)
  }

  lemma {:induction false} RecordConserves(crc: Checksum, st: Rest, inFragment: bool, scratch: seq<Byte>)
    requires !inFragment ==> scratch == []
    ensures
      var (r, next) := NextRecord(crc, st, inFragment, scratch);
      |scratch| + Offered(crc, st) ==
        Sum(RecordReports(crc, st, inFragment, scratch)) + if r.None? then 0 else |r.value| + Offered(crc, next)
    decreases |st.f|
  {
    hide NextPhysical, NextRecord, PhysicalReports, RecordReports, Sum, FragmentReport;
    var (t, data, next) := NextPhysical(crc, st);
    var said := PhysicalReports(crc, st);
    var more := FragmentReport(t, data, inFragment, scratch);
    StepUnfold(crc, st, inFragment, scratch);
    SumConcat(said, more);
    FragmentSum(t, data, inFragment, scratch);
    if !(t == EOF || t == FULL || (t == LAST && inFragment)) {
      var going := t == FIRST || (t == MIDDLE && inFragment);
      var kept := if t == FIRST then data else if going then scratch + data else [];
      RecordConserves(crc, next, going, kept);
      SumConcat(said + more, RecordReports(crc, next, going, kept));
    }
  }

  lemma {:induction false} FragmentSum(t: Byte, data: seq<Byte>, inFragment: bool, scratch: seq<Byte>)
    requires !inFragment ==> scratch == []
    ensures
      var kept := if t == FULL || t == FIRST then |data| else if (t == MIDDLE || t == LAST) && inFragment then
                    |scratch| + |data| else 0;
      |scratch| + (if t == EOF || t == BAD then 0 else |data|) ==
        Sum(FragmentReport(t, data, inFragment, scratch)) + kept
  {
    var r := FragmentReport(t, data, inFragment, scratch);
    if r != [] { assert r[..0] == []; }
  }

  /** For every file: what passes the header checks is returned in a record or
      reported as dropped, byte for byte. */
  lemma {:induction false} ReadingConserves(crc: Checksum, st: Rest)
    ensures Offered(crc, st) == Bytes(ReadAll(crc, st)) + Sum(AllReports(crc, st))
    decreases |st.f|
  {
    hide NextPhysical, NextRecord, PhysicalReports, RecordReports, Sum, Offered, ReadAll, AllReports;
    var (r, next) := NextRecord(crc, st, false, []);
    RecordConserves(crc, st, false, []);
    ReadAllStep(crc, st);
    AllReportsStep(crc, st);
    if r.Some? {
      ReadingConserves(crc, next);
      SumConcat(RecordReports(crc, st, false, []), AllReports(crc, next));
      assert ([r.value] + ReadAll(crc, next))[1..] == ReadAll(crc, next);
    } else {
      assert RecordReports(crc, st, false, []) + [] == RecordReports(crc, st, false, []);
    }
  }
}
