/** The inverting merge: document streams, each sorted by id, become one posting
    list per term. The array of streams is kept sorted by the id at its head. */
module Dsort {
  datatype Doc = Doc(id: nat, terms: seq<nat>)

  type Postings = map<nat, seq<nat>>

  /** An open document file: the document read last and those still to come. */
  class Source {
    var doc: Doc
    var ahead: seq<Doc>

    ghost function Docs(): seq<Doc>
      reads this
    {
      [doc] + ahead
    }

    method Read() returns (ok: bool)
      modifies this
      ensures ok <==> old(ahead) != []
      ensures ok ==> Docs() == old(ahead)
    {
      if ahead == [] { return false; }
      doc, ahead := ahead[0], ahead[1..];
      return true;
    }
  }

  // ------------------------------------------------------------ what is asked

  predicate Nondecreasing(s: seq<nat>) { forall i, j :: 0 <= i < j < |s| ==> s[i] <= s[j] }

  ghost predicate ById(ds: seq<Doc>) { forall i, j :: 0 <= i < j < |ds| ==> ds[i].id <= ds[j].id }

  /** How often the documents with id x hold the term t. */
  ghost function Count(t: nat, x: nat, d: Doc): nat { if d.id == x then multiset(d.terms)[t] else 0 }

  ghost function CountIn(t: nat, x: nat, ds: seq<Doc>): nat {
    if ds == [] then 0 else Count(t, x, ds[0]) + CountIn(t, x, ds[1..])
  }

  ghost function CountOver(t: nat, x: nat, ss: seq<seq<Doc>>): nat {
    if ss == [] then 0 else CountIn(t, x, ss[0]) + CountOver(t, x, ss[1..])
  }

  ghost function Times(s: seq<nat>, x: nat): nat { multiset(s)[x] }

  ghost function Posting(m: Postings, t: nat): seq<nat> { if t in m then m[t] else [] }

  /** Documents left. */
  ghost function Left(ss: seq<seq<Doc>>): nat { if ss == [] then 0 else |ss[0]| + Left(ss[1..]) }

  // -------------------------------------------------------------- the streams

  ghost predicate Streams(ss: seq<seq<Doc>>) {
    && (forall i :: 0 <= i < |ss| ==> ss[i] != [] && ById(ss[i]))
    && forall i, j :: 0 <= i < j < |ss| ==> ss[i][0].id <= ss[j][0].id
  }

  /** Posted lists sorted, nothing in them above what is still to come, and
      together with that exactly what there was. */
  ghost predicate Merged(m: Postings, ss: seq<seq<Doc>>, all: seq<seq<Doc>>) {
    && (forall t :: Nondecreasing(Posting(m, t)))
    && (forall t, x, i :: x in Posting(m, t) && 0 <= i < |ss| && ss[i] != [] ==> x <= ss[i][0].id)
    && (forall t, x :: Times(Posting(m, t), x) + CountOver(t, x, ss) == CountOver(t, x, all))
    && (forall t :: t in m ==> m[t] != [])
  }

  lemma {:induction false} OverConcat(t: nat, x: nat, ss: seq<seq<Doc>>, ts: seq<seq<Doc>>)
    ensures CountOver(t, x, ss + ts) == CountOver(t, x, ss) + CountOver(t, x, ts)
    ensures Left(ss + ts) == Left(ss) + Left(ts)
  {
    hide CountIn;
    if ss == [] {
      assert ss + ts == ts;
    } else {
      assert (ss + ts)[1..] == ss[1..] + ts;
      OverConcat(t, x, ss[1..], ts);
    }
  }

  /** The streams after the head of the first is taken and the first, if it has
      more, put back behind c others. */
  ghost function Taken(ss: seq<seq<Doc>>, c: nat): seq<seq<Doc>>
    requires ss != [] && ss[0] != [] && c < |ss|
  {
    if |ss[0]| == 1 then ss[1..] else ss[1..c + 1] + [ss[0][1..]] + ss[c + 1..]
  }

  lemma {:induction false} TakenCount(t: nat, x: nat, ss: seq<seq<Doc>>, c: nat)
    requires ss != [] && ss[0] != [] && c < |ss|
    ensures CountOver(t, x, ss) == Count(t, x, ss[0][0]) + CountOver(t, x, Taken(ss, c))
    ensures Left(Taken(ss, c)) < Left(ss)
  {
    hide Count;
    assert CountIn(t, x, ss[0]) == Count(t, x, ss[0][0]) + CountIn(t, x, ss[0][1..]);
    if |ss[0]| == 1 {
      assert CountIn(t, x, ss[0][1..]) == 0 by { assert ss[0][1..] == []; }
    } else {
      var a, one, b := ss[1..c + 1], [ss[0][1..]], ss[c + 1..];
      OverConcat(t, x, a, one + b);
      OverConcat(t, x, a, b);
      assert (one + b)[1..] == b;
      assert Taken(ss, c) == a + (one + b) && a + b == ss[1..];
    }
  }

  /** Where the first stream belongs among the others once its head is taken. */
  ghost predicate Place(ss: seq<seq<Doc>>, c: nat) {
    && ss != [] && c < |ss| && (forall i :: 0 <= i < |ss| ==> ss[i] != [])
    && (|ss[0]| > 1 ==>
          && (forall i :: 0 < i <= c ==> ss[i][0].id < ss[0][1].id)
          && (forall i :: c < i < |ss| ==> ss[0][1].id <= ss[i][0].id))
  }

  lemma {:induction false} TakenStreams(ss: seq<seq<Doc>>, c: nat)
    requires Streams(ss) && Place(ss, c)
    ensures Streams(Taken(ss, c))
    ensures forall i :: 0 <= i < |Taken(ss, c)| ==> ss[0][0].id <= Taken(ss, c)[i][0].id
  {
    hide ById;
    if |ss[0]| > 1 {
      var ts := Taken(ss, c);
      NextById(ss[0]);
      hide Taken;
      forall i | 0 <= i < |ts|
        ensures i < |ss| && ts[i] == if i == c then ss[0][1..] else ss[Origin(c, i)]
      {
        TakenAt(ss, c, i);
      }
    }
  }

  lemma {:induction false} NextById(ds: seq<Doc>)
    requires ById(ds) && |ds| > 1
    ensures ById(ds[1..]) && ds[0].id <= ds[1].id
  {}

  /** Slot i of the moved array comes from this slot. */
  function Origin(c: nat, i: nat): nat { if i < c then i + 1 else if i == c then 0 else i }

  lemma {:induction false} TakenAt(ss: seq<seq<Doc>>, c: nat, i: nat)
    requires ss != [] && ss[0] != [] && c < |ss| && i < |Taken(ss, c)| && (|ss[0]| == 1 ==> c == |ss| - 1)
    ensures i < |ss| && (|ss[0]| == 1 ==> i < c)
    ensures Taken(ss, c)[i] == if i == c then ss[0][1..] else ss[Origin(c, i)]
  {}

  // ------------------------------------------------------------------ posting

  function Repeat(x: nat, n: nat): (s: seq<nat>)
    ensures |s| == n && forall i :: 0 <= i < n ==> s[i] == x
  {
    if n == 0 then [] else Repeat(x, n - 1) + [x]
  }

  lemma {:induction false} RepeatTimes(y: nat, n: nat, x: nat)
    ensures Times(Repeat(y, n), x) == if x == y then n else 0
  {
    if n > 0 {
      RepeatTimes(y, n - 1, x);
      TimesConcat(Repeat(y, n - 1), [y], x);
    }
  }

  lemma {:induction false} TimesConcat(a: seq<nat>, b: seq<nat>, x: nat)
    ensures Times(a + b, x) == Times(a, x) + Times(b, x)
  {}

  ghost predicate PostedAt(m: Postings, r: Postings, id: nat, terms: seq<nat>, t: nat) {
    Posting(r, t) == Posting(m, t) + Repeat(id, Times(terms, t))
  }

  ghost predicate Posted(m: Postings, r: Postings, id: nat, terms: seq<nat>) {
    && (forall t :: PostedAt(m, r, id, terms, t))
    && (Nonempty(m) ==> Nonempty(r))
  }

  ghost predicate Nonempty(m: Postings) { forall t :: t in m ==> m[t] != [] }

  lemma {:induction false} TimesOne(y: nat, x: nat)
    ensures Times([y], x) == if x == y then 1 else 0
  {}

  lemma {:induction false} PostingUpdated(m: Postings, term: nat, s: seq<nat>, t: nat)
    ensures Posting(m[term := s], t) == if t == term then s else Posting(m, t)
  {}

  lemma {:induction false} NonemptyUpdated(m: Postings, term: nat, s: seq<nat>)
    requires s != []
    ensures Nonempty(m) ==> Nonempty(m[term := s])
  {}

  lemma {:induction false} PostOne(m: Postings, r: Postings, id: nat, terms: seq<nat>, term: nat)
    requires Posted(m, r, id, terms)
    ensures Posted(m, r[term := Posting(r, term) + [id]], id, terms + [term])
  {
    hide Posting, Times, Nonempty;
    var s := r[term := Posting(r, term) + [id]];
    forall t ensures PostedAt(m, s, id, terms + [term], t) {
      assert PostedAt(m, r, id, terms, t);
      TimesConcat(terms, [term], t);
      TimesOne(term, t);
      PostingUpdated(r, term, Posting(r, term) + [id], t);
    }
    NonemptyUpdated(r, term, Posting(r, term) + [id]);
  }

  /** Every term of the document gets its id, as often as it occurs. */
  method Post(m: Postings, d: Doc) returns (r: Postings)
    ensures Posted(m, r, d.id, d.terms)
  {
    hide Posted, Repeat;
    r := m;
    PostedNone(m, d.id);
    assert d.terms[..0] == [];
    for k := 0 to |d.terms|
      invariant Posted(m, r, d.id, d.terms[..k])
    {
      var term := d.terms[k];
      PostOne(m, r, d.id, d.terms[..k], term);
      assert d.terms[..k + 1] == d.terms[..k] + [term];
      r := r[term := (if term in r then r[term] else []) + [d.id]];
    }
    assert d.terms[..|d.terms|] == d.terms;
  }

  lemma {:induction false} PostedNone(m: Postings, id: nat)
    ensures Posted(m, m, id, [])
  {
    forall t ensures PostedAt(m, m, id, [], t) {
      assert Times([], t) == 0;
    }
  }

  /** Posting the smallest head keeps the merge. */
  lemma {:induction false} MergedStep(m: Postings, r: Postings, ss: seq<seq<Doc>>, c: nat, all: seq<seq<Doc>>)
    requires Streams(ss) && Place(ss, c) && Merged(m, ss, all)
    requires Posted(m, r, ss[0][0].id, ss[0][0].terms)
    ensures Merged(r, Taken(ss, c), all)
  {
    var ts := Taken(ss, c);
    TakenStreams(ss, c);
    hide Streams, Place, Repeat, Taken, CountOver, Times, Posting, Nondecreasing;
    forall t ensures Nondecreasing(Posting(r, t)) && forall x :: x in Posting(r, t) ==> x <= ss[0][0].id {
      PostingSorted(m, r, ss, all, t);
    }
    forall t, x ensures Times(Posting(r, t), x) + CountOver(t, x, ts) == CountOver(t, x, all) {
      PostingCount(m, r, ss, c, all, t, x);
    }
  }

  lemma {:induction false} PostingSorted(m: Postings, r: Postings, ss: seq<seq<Doc>>, all: seq<seq<Doc>>, t: nat)
    requires ss != [] && ss[0] != [] && Merged(m, ss, all)
    requires Posted(m, r, ss[0][0].id, ss[0][0].terms)
    ensures Nondecreasing(Posting(r, t)) && forall x :: x in Posting(r, t) ==> x <= ss[0][0].id
  {
    hide CountOver, Times, Posting;
    var p, d := Posting(m, t), ss[0][0];
    assert PostedAt(m, r, d.id, d.terms, t);
    assert Nondecreasing(p);
    assert forall i :: 0 <= i < |p| ==> p[i] <= d.id by {
      forall i | 0 <= i < |p| ensures p[i] <= d.id { assert p[i] in p; }
    }
  }

  lemma {:induction false} PostingCount(m: Postings, r: Postings, ss: seq<seq<Doc>>, c: nat, all: seq<seq<Doc>>,
      t: nat, x: nat)
    requires ss != [] && ss[0] != [] && c < |ss| && Merged(m, ss, all)
    requires Posted(m, r, ss[0][0].id, ss[0][0].terms)
    ensures Times(Posting(r, t), x) + CountOver(t, x, Taken(ss, c)) == CountOver(t, x, all)
  {
    hide CountOver, Posting, Nondecreasing, Taken, Repeat;
    var d := ss[0][0];
    assert PostedAt(m, r, d.id, d.terms, t);
    TakenCount(t, x, ss, c);
    RepeatTimes(d.id, Times(d.terms, t), x);
    TimesConcat(Posting(m, t), Repeat(d.id, Times(d.terms, t)), x);
    assert Times(Posting(m, t), x) + CountOver(t, x, ss) == CountOver(t, x, all);
  }

  // -------------------------------------------------------------- the array

  /** The first n slots hold distinct sources with these documents left. */
  ghost predicate Holding(files: seq<Source>, n: nat, ss: seq<seq<Doc>>)
    reads files
  {
    && |ss| == n <= |files|
    && (forall i, j :: 0 <= i < j < n ==> files[i] != files[j])
    && forall i :: 0 <= i < n ==> files[i].Docs() == ss[i]
  }

  /** How many of the sources behind the first come before its new document. */
  method FindPlace(files: array<Source>, n: nat) returns (count: nat)
    requires 1 < n <= files.Length
    requires forall i, j :: 0 < i < j < n ==> files[i].doc.id <= files[j].doc.id
    ensures count < n
    ensures forall i :: 0 < i <= count ==> files[i].doc.id < files[0].doc.id
    ensures forall i :: count < i < n ==> files[0].doc.id <= files[i].doc.id
  {
    var lo, hi := 1, n;
    var probe := lo;
    while lo < hi
      invariant 1 <= lo <= hi <= n && lo <= probe <= hi && (lo < hi ==> probe < hi)
      invariant forall i :: 0 < i < lo ==> files[i].doc.id < files[0].doc.id
      invariant forall i :: hi <= i < n ==> files[0].doc.id <= files[i].doc.id
      decreases hi - lo
    {
      if files[0].doc.id <= files[probe].doc.id {
        hi := probe;
      } else {
        lo := probe + 1;
      }
      probe := (lo + hi) / 2;
    }
    count := lo - 1;
  }

  /** The first slot moves to slot c; those between come down by one. */
  method MoveDown(files: array<Source>, c: nat)
    requires c < files.Length
    modifies files
    ensures files[..] == old(files[1..c + 1]) + [old(files[0])] + old(files[c + 1..])
  {
    var temp := files[0];
    forall i | 0 <= i < c { files[i] := files[i + 1]; }
    files[c] := temp;
  }

  /** The array between reading and reinserting. */
  ghost predicate ReadOn(fs: seq<Source>, n: nat, ss: seq<seq<Doc>>)
    reads fs
  {
    && 0 < n == |ss| <= |fs| && ss[0] != []
    && (forall i, j :: 0 <= i < j < n ==> fs[i] != fs[j])
    && (forall i :: 0 < i < n ==> fs[i].Docs() == ss[i])
    && (|ss[0]| > 1 ==> fs[0].Docs() == ss[0][1..])
  }

  lemma {:induction false} MovedAt(fs: seq<Source>, c: nat, i: nat)
    requires c < |fs| && i < |fs|
    ensures Origin(c, i) < |fs|
    ensures (fs[1..c + 1] + [fs[0]] + fs[c + 1..])[i] == fs[Origin(c, i)]
  {}

  lemma {:induction false} OriginIn(c: nat, n: nat, i: nat)
    requires c < n && i < n
    ensures Origin(c, i) < n && (Origin(c, i) == 0 <==> i == c)
  {}

  lemma {:induction false} OriginApart(c: nat, i: nat, j: nat)
    requires i < j
    ensures Origin(c, i) != Origin(c, j)
  {}

  lemma {:induction false} Reinserted(fs: seq<Source>, gs: seq<Source>, n: nat, c: nat, ss: seq<seq<Doc>>)
    requires ReadOn(fs, n, ss) && c < n && gs == fs[1..c + 1] + [fs[0]] + fs[c + 1..]
    requires |ss[0]| == 1 ==> c == n - 1
    ensures Holding(gs, if |ss[0]| == 1 then n - 1 else n, Taken(ss, c))
  {
    var k, ts := if |ss[0]| == 1 then n - 1 else n, Taken(ss, c);
    assert |ts| == k;
    hide Taken, Origin;
    forall i | 0 <= i < k ensures gs[i].Docs() == ts[i] {
      MovedAt(fs, c, i);
      TakenAt(ss, c, i);
      OriginIn(c, n, i);
    }
    forall i, j | 0 <= i < j < k ensures gs[i] != gs[j] {
      MovedAt(fs, c, i);
      MovedAt(fs, c, j);
      OriginIn(c, n, i);
      OriginIn(c, n, j);
      OriginApart(c, i, j);
    }
  }

  lemma {:induction false} HeadsSorted(fs: seq<Source>, n: nat, ss: seq<seq<Doc>>)
    requires ReadOn(fs, n, ss) && Streams(ss)
    ensures forall i, j :: 0 < i < j < n ==> fs[i].doc.id <= fs[j].doc.id
    ensures forall i :: 0 < i < n ==> fs[i].doc == ss[i][0]
    ensures |ss[0]| > 1 ==> fs[0].doc == ss[0][1]
  {
    forall i | 0 < i < n ensures fs[i].doc == ss[i][0] { assert fs[i].doc == fs[i].Docs()[0]; }
    assert |ss[0]| > 1 ==> fs[0].doc == fs[0].Docs()[0];
  }

  /** Reads the first source on; the others stay as they are. */
  method ReadFirst(files: array<Source>, n: nat, ghost ss: seq<seq<Doc>>) returns (more: bool)
    requires 0 < n && Holding(files[..], n, ss)
    modifies files[0]
    ensures ReadOn(files[..], n, ss) && (more <==> |ss[0]| > 1)
  {
    assert files[0].Docs() == ss[0];
    more := files[0].Read();
  }

  /** Puts the first source where its new document belongs, or last if it has none. */
  method Reinsert(files: array<Source>, n: nat, more: bool, ghost ss: seq<seq<Doc>>, ghost objs: set<Source>)
    returns (k: nat, count: nat)
    requires ReadOn(files[..], n, ss) && Streams(ss) && (more <==> |ss[0]| > 1)
    requires forall f :: f in files[..] ==> f in objs
    modifies files
    ensures Place(ss, count) && Holding(files[..], k, Taken(ss, count))
    ensures forall f :: f in files[..] ==> f in objs
  {
    hide Taken, Streams, Place, Origin;
    ghost var fs := files[..];
    HeadsSorted(fs, n, ss);
    k, count := n, 0;
    if !more {
      k, count := n - 1, n - 1;
    } else if n > 1 {
      count := FindPlace(files, n);
    }
    PlaceIs(fs, n, count, ss);
    MoveDown(files, count);
    Reinserted(fs, files[..], n, count, ss);
  }

  /** One round: the smallest head is posted and its source read on. */
  method Round(files: array<Source>, n: nat, m: Postings, ghost ss: seq<seq<Doc>>, ghost all: seq<seq<Doc>>,
      ghost objs: set<Source>)
    returns (k: nat, r: Postings, ghost ts: seq<seq<Doc>>)
    requires 0 < n && Holding(files[..], n, ss) && Streams(ss) && Merged(m, ss, all)
    requires forall f :: f in files[..] ==> f in objs
    modifies files, objs
    ensures Holding(files[..], k, ts) && Streams(ts) && Merged(r, ts, all)
    ensures Left(ts) < Left(ss)
    ensures forall f :: f in files[..] ==> f in objs
  {
    hide Merged, Posted, Left, CountOver, Count, Taken, Streams, Place, Repeat;
    assert files[0].doc == files[0].Docs()[0] == ss[0][0];
    r := Post(m, files[0].doc);
    assert files[0] in files[..];
    var more := ReadFirst(files, n, ss);
    var count;
    k, count := Reinsert(files, n, more, ss, objs);
    PlaceBounds(ss, count);
    ts := Taken(ss, count);
    TakenStreams(ss, count);
    TakenCount(0, 0, ss, count);
    MergedStep(m, r, ss, count, all);
  }

  lemma {:induction false} PlaceBounds(ss: seq<seq<Doc>>, c: nat)
    requires Place(ss, c)
    ensures ss != [] && ss[0] != [] && c < |ss|
  {}

  lemma {:induction false} PlaceIs(fs: seq<Source>, n: nat, c: nat, ss: seq<seq<Doc>>)
    requires ReadOn(fs, n, ss) && Streams(ss) && c < n
    requires |ss[0]| > 1 ==>
               && (forall i :: 0 < i <= c ==> fs[i].doc.id < fs[0].doc.id)
               && (forall i :: c < i < n ==> fs[0].doc.id <= fs[i].doc.id)
    ensures Place(ss, c)
  {
    HeadsSorted(fs, n, ss);
  }

  /** The whole merge, from sources sorted by their first document: every posting
      list ascends and holds each id as often as its documents hold the term. */
  method Merge(files: array<Source>, ghost ss: seq<seq<Doc>>) returns (m: Postings)
    requires Holding(files[..], files.Length, ss) && Streams(ss)
    modifies files, files[..]
    ensures forall t :: Nondecreasing(Posting(m, t))
    ensures forall t, x :: Times(Posting(m, t), x) == CountOver(t, x, ss)
    ensures forall t :: t in m ==> m[t] != []
  {
    m := map[];
    ghost var ts, objs := ss, set f | f in files[..];
    var n: nat := files.Length;
    MergedNone(ss);
    while n > 0
      invariant Holding(files[..], n, ts) && Streams(ts) && Merged(m, ts, ss)
      invariant forall f :: f in files[..] ==> f in objs
      decreases Left(ts)
    {
      n, m, ts := Round(files, n, m, ts, ss, objs);
    }
  }

  lemma {:induction false} MergedNone(ss: seq<seq<Doc>>)
    ensures Merged(map[], ss, ss)
  {}
}
