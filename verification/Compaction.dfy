/**
 Compaction of two adjacent levels: which entries the merge loop drops, what
 the outputs are, and why no reader at or above the smallest live snapshot can
 tell the difference.
 */
module Compaction {
  import opened Wrappers
  import opened Entries

  const NUM_LEVELS: nat := 7

  // ------------------------------------------------------- the drop rules

  /** Rule (A): a newer entry of the same key is already visible to every snapshot. */
  ghost predicate Hidden(e: Entry, ins: set<Entry>, smallest: nat) {
    exists f :: f in ins && f.key == e.key && e.num < f.num <= smallest
  }

  /** A deletion marker that every snapshot sees and that has nothing left to hide. */
  ghost predicate Obsolete(e: Entry, smallest: nat, base: iset<Key>) {
    e.val.None? && e.num <= smallest && e.key in base
  }

  ghost predicate Keeps(e: Entry, ins: set<Entry>, smallest: nat, base: iset<Key>) {
    !Hidden(e, ins, smallest) && !Obsolete(e, smallest, base)
  }

  ghost function Kept(ins: set<Entry>, smallest: nat, base: iset<Key>): set<Entry> {
    set e | e in ins && Keeps(e, ins, smallest, base)
  }

  /** The inputs hold every entry of their keys that is older than some input,
      except those in `deeper`. */
  ghost predicate Closed(ins: set<Entry>, rest: set<Entry>, deeper: set<Entry>) {
    forall e, f :: e in ins && f in rest && f !in deeper && e.key == f.key ==> f.num > e.num
  }

  /** Replacing the inputs by the kept entries is invisible at every snapshot
      from `smallest` on. */
  lemma {:induction false} ReadsPreserved(ins: set<Entry>, rest: set<Entry>, deeper: set<Entry>,
                       smallest: nat, base: iset<Key>, k: Key, s: nat)
    requires Unique(ins + rest) && deeper <= rest
    requires Closed(ins, rest, deeper)
    requires forall e, f :: e in ins && f in deeper && e.key == f.key ==> f.num < e.num && e.key !in base
    requires smallest <= s
    ensures Read(rest + Kept(ins, smallest, base), k, s) == Read(rest + ins, k, s)
  {
    var outs := Kept(ins, smallest, base);
    assert ins + rest == rest + ins;
    assert Unique(rest + outs);
    var r := Lookup(rest + ins, k, s);
    if r.Some? {
      var e := r.value;
      ReadIs(rest + ins, k, s, e);
      if e in rest + outs {
        assert Newest(e, rest + outs, k, s);
        ReadIs(rest + outs, k, s, e);
      } else {
        assert !Hidden(e, ins, smallest);
        assert Obsolete(e, smallest, base);
        forall f | f in rest + outs && f.key == k && f.num <= s ensures false {
          if f in outs { assert Hidden(f, ins, smallest); }
        }
        assert !Sees(rest + outs, k, s);
      }
    }
  }

  /** The rules drop all they may: an input is kept exactly when some reader from
      `smallest` on would find it first among the inputs, unless it is a deletion
      that every such reader sees and that hides nothing deeper. */
  lemma {:induction false} KeptIffNeeded(ins: set<Entry>, smallest: nat, base: iset<Key>, e: Entry)
    requires Unique(ins)
    ensures e in Kept(ins, smallest, base) <==>
              && (exists s :: smallest <= s && Newest(e, ins, e.key, s))
              && !(e.val.None? && e.num <= smallest && e.key in base)
  {
    var s := if e.num <= smallest then smallest else e.num;
    if e in ins && !Hidden(e, ins, smallest) {
      assert Newest(e, ins, e.key, s);
    }
    if x :| smallest <= x && Newest(e, ins, e.key, x) {
      forall f | f in ins && f.key == e.key && f.num <= smallest ensures f.num <= e.num {}
    }
  }

  // ------------------------------------------------- compaction on layers

  /** Layers 0..t lose the inputs and layer t gains the outputs. */
  ghost function Compacted(ls: Layers, t: nat, ins: set<Entry>, outs: set<Entry>): Layers
    requires t < |ls|
  {
    seq(|ls|, i requires 0 <= i < |ls| =>
      if i < t then ls[i] - ins else if i == t then (ls[t] - ins) + outs else ls[i])
  }

  /** The inputs come from layers 0..t and hold every older entry of their keys there. */
  ghost predicate InputsClosed(ls: Layers, t: nat, ins: set<Entry>)
    requires t < |ls|
  {
    && ins <= Union(ls[..t + 1])
    && forall i, e, f :: 0 <= i <= t && e in ins && f in ls[i] && f !in ins && e.key == f.key ==> f.num > e.num
  }

  /** Keys in `base` that the inputs mention do not occur below layer t. */
  ghost predicate BaseOk(ls: Layers, t: nat, ins: set<Entry>, base: iset<Key>)
    requires t < |ls|
  {
    forall i, e, f :: t < i < |ls| && e in ins && f in ls[i] && e.key == f.key ==> e.key !in base
  }

  lemma {:induction false} InputPlace(ls: Layers, t: nat, ins: set<Entry>, e: Entry) returns (i: nat)
    requires t < |ls| && InputsClosed(ls, t, ins) && e in ins
    ensures i <= t && e in ls[i]
  {
    InUnion(ls[..t + 1], e);
    var j :| 0 <= j < t + 1 && e in ls[..t + 1][j];
    i := j;
  }

  lemma {:induction false} CompactedOrdered(ls: Layers, t: nat, ins: set<Entry>, outs: set<Entry>)
    requires t < |ls| && Ordered(ls) && InputsClosed(ls, t, ins) && outs <= ins
    ensures Ordered(Compacted(ls, t, ins, outs))
  {
    var cs := Compacted(ls, t, ins, outs);
    forall i, j, e: Entry, f: Entry | 0 <= i < j < |cs| && e in cs[i] && f in cs[j] && e.key == f.key
        ensures e.num > f.num {
      if i < t && j == t && f in outs {
        assert e in ls[i] && e !in ins;
      } else if i == t && e in outs {
        var h := InputPlace(ls, t, ins, e);
        assert e in ls[h] && f in ls[j] && h < j;
      }
    }
  }

  lemma {:induction false} CompactedUnion(ls: Layers, t: nat, ins: set<Entry>, outs: set<Entry>)
    requires t < |ls| && InputsClosed(ls, t, ins) && outs <= ins && Disjoint(ls)
    ensures Union(Compacted(ls, t, ins, outs)) == (Union(ls) - ins) + outs
    ensures ins <= Union(ls)
  {
    var cs := Compacted(ls, t, ins, outs);
    forall e ensures e in Union(cs) <==> e in (Union(ls) - ins) + outs {
      InUnion(cs, e);
      InUnion(ls, e);
      if e in Union(cs) {
        var i :| 0 <= i < |cs| && e in cs[i];
        if e in ins && i > t {
          var h := InputPlace(ls, t, ins, e);
        }
      }
      if e in outs { assert e in cs[t]; }
      if e in Union(ls) - ins {
        var i :| 0 <= i < |ls| && e in ls[i];
        assert e in cs[i];
      }
    }
    forall e | e in ins ensures e in Union(ls) {
      var h := InputPlace(ls, t, ins, e);
      InUnion(ls, e);
    }
  }

  /** Ordered layers with unique sequence numbers are disjoint. */
  lemma {:induction false} OrderedDisjoint(ls: Layers)
    requires Ordered(ls)
    ensures Disjoint(ls)
  {
    forall i, j, e: Entry | 0 <= i < j < |ls| && e in ls[i] ensures e !in ls[j] {
      assert e in ls[j] ==> e.num > e.num;
    }
  }

  /** The compaction theorem on a whole version: order is kept, nothing new
      appears, and every read from `smallest` on is unchanged. */
  lemma {:induction false} CompactionPreserves(ls: Layers, t: nat, ins: set<Entry>, smallest: nat, base: iset<Key>)
    requires t < |ls| && Ordered(ls) && Unique(Union(ls))
    requires InputsClosed(ls, t, ins) && BaseOk(ls, t, ins, base)
    ensures var cs := Compacted(ls, t, ins, Kept(ins, smallest, base));
            && Ordered(cs) && Union(cs) <= Union(ls)
            && forall k, s :: smallest <= s ==> Read(Union(cs), k, s) == Read(Union(ls), k, s)
    ensures var cs := Compacted(ls, t, ins, Kept(ins, smallest, base));
            forall k, s :: smallest <= s ==> Get(cs, k, s) == Get(ls, k, s)
  {
    var cs := Compacted(ls, t, ins, Kept(ins, smallest, base));
    CompactedOrdered(ls, t, ins, Kept(ins, smallest, base));
    OrderedDisjoint(ls);
    CompactedUnion(ls, t, ins, Kept(ins, smallest, base));
    forall k, s | smallest <= s
      ensures Read(Union(cs), k, s) == Read(Union(ls), k, s) && Get(cs, k, s) == Get(ls, k, s)
    {
      UnionReads(ls, t, ins, smallest, base, k, s);
      FindIsLookup(ls, k, s);
      FindIsLookup(cs, k, s);
    }
  }

  lemma {:induction false} UnionReads(ls: Layers, t: nat, ins: set<Entry>, smallest: nat, base: iset<Key>, k: Key,
      s: nat)
    requires t < |ls| && Ordered(ls) && Unique(Union(ls)) && ins <= Union(ls)
    requires InputsClosed(ls, t, ins) && BaseOk(ls, t, ins, base) && smallest <= s
    ensures Read((Union(ls) - ins) + Kept(ins, smallest, base), k, s) == Read(Union(ls), k, s)
  {
    var rest, deeper := Union(ls) - ins, Union(ls[t + 1..]) - ins;
    DeeperOld(ls, t, ins);
    DeeperNotBase(ls, t, ins, base);
    assert rest + ins == Union(ls) == ins + rest;
    ReadsPreserved(ins, rest, deeper, smallest, base, k, s);
  }

  lemma {:induction false} DeeperNotBase(ls: Layers, t: nat, ins: set<Entry>, base: iset<Key>)
    requires t < |ls| && BaseOk(ls, t, ins, base)
    ensures forall e, f :: e in ins && f in Union(ls[t + 1..]) && e.key == f.key ==> e.key !in base
  {
    forall e, f | e in ins && f in Union(ls[t + 1..]) && e.key == f.key ensures e.key !in base {
      InUnion(ls[t + 1..], f);
      var j :| 0 <= j < |ls[t + 1..]| && f in ls[t + 1..][j];
      assert f in ls[t + 1 + j];
    }
  }

  lemma {:induction false} DeeperOld(ls: Layers, t: nat, ins: set<Entry>)
    requires t < |ls| && Ordered(ls) && InputsClosed(ls, t, ins)
    ensures var deeper := Union(ls[t + 1..]) - ins;
            && deeper <= Union(ls) - ins
            && Closed(ins, Union(ls) - ins, deeper)
            && forall e, f :: e in ins && f in deeper && e.key == f.key ==> f.num < e.num
  {
    var deeper := Union(ls[t + 1..]) - ins;
    forall f | f in deeper
      ensures f in Union(ls) && forall e :: e in ins && e.key == f.key ==> f.num < e.num
    {
      InUnion(ls[t + 1..], f);
      var j :| 0 <= j < |ls[t + 1..]| && f in ls[t + 1..][j];
      assert f in ls[t + 1 + j];
      InUnion(ls, f);
      forall e | e in ins && e.key == f.key ensures f.num < e.num {
        var h := InputPlace(ls, t, ins, e);
      }
    }
    forall e, f | e in ins && f in Union(ls) - ins && f !in deeper && e.key == f.key ensures f.num > e.num {
      InUnion(ls, f);
      var i :| 0 <= i < |ls| && f in ls[i];
      if i > t {
        assert ls[t + 1..][i - t - 1] == ls[i];
        InUnion(ls[t + 1..], f);
      }
    }
  }

  // ---------------------------------------------------------- trivial move

  /** BackgroundCompaction's shortcut: one file goes down to layer t unmerged. */
  ghost function Moved(ls: Layers, t: nat, file: set<Entry>): Layers
    requires t < |ls|
  {
    Compacted(ls, t, file, file)
  }

  /** No user key of the file has an older entry in layers a to t - 1 outside it. */
  ghost predicate NoOlderLeft(ls: Layers, a: nat, t: nat, file: set<Entry>)
    requires t <= |ls|
  {
    forall i, e, f :: a <= i < t && e in file && f in ls[i] && f !in file && e.key == f.key ==> f.num > e.num
  }

  /** Moving a file of any layer above t leaves every read as it was exactly when
      it leaves no older entry of a moved key behind: a key whose versions
      straddle two files must not lose the newer file first. */
  lemma {:induction false} MoveExactIff(ls: Layers, a: nat, t: nat, file: set<Entry>)
    requires a < t < |ls| && Ordered(ls) && Unique(Union(ls)) && file <= ls[a]
    ensures NoOlderLeft(ls, a, t, file) <==> forall k, s :: Find(Moved(ls, t, file), k, s) == Find(ls, k, s)
  {
    hide Unique, Union, Find, Lookup, Disjoint, Ordered, Moved, NoOlderLeft;
    var ms := Moved(ls, t, file);
    OrderedDisjoint(ls);
    MovedFacts(ls, a, t, file);
    SearchExactIffOrdered(ms);
    forall k, s ensures Find(ls, k, s) == Lookup(Union(ms), k, s) { FindIsLookup(ls, k, s); }
    if NoOlderLeft(ls, a, t, file) { MovedOrdered(ls, a, t, file); } else { MovedDisordered(ls, a, t, file); }
  }

  lemma {:induction false} MovedDisordered(ls: Layers, a: nat, t: nat, file: set<Entry>)
    requires a < t < |ls| && !NoOlderLeft(ls, a, t, file)
    ensures !Ordered(Moved(ls, t, file))
  {
    var i, e, f :| a <= i < t && e in file && f in ls[i] && f !in file && e.key == f.key && f.num <= e.num;
    var ms := Moved(ls, t, file);
    assert f in ms[i] && e in ms[t];
  }

  lemma {:induction false} MovedOrdered(ls: Layers, a: nat, t: nat, file: set<Entry>)
    requires a < t < |ls| && Ordered(ls) && file <= ls[a] && NoOlderLeft(ls, a, t, file)
    ensures Ordered(Moved(ls, t, file))
  {
    var ms := Moved(ls, t, file);
    forall i, j, e: Entry, f: Entry | 0 <= i < j < |ms| && e in ms[i] && f in ms[j] && e.key == f.key
      ensures e.num > f.num
    {
      if i == t && e in file { assert e in ls[a] && f in ls[j]; }
      if i < t && j == t && f in file { assert e in ls[i] && f in ls[a]; }
    }
  }

  lemma {:induction false} MovedFacts(ls: Layers, a: nat, t: nat, file: set<Entry>)
    requires a < t < |ls| && Disjoint(ls) && file <= ls[a]
    ensures Union(Moved(ls, t, file)) == Union(ls) && Disjoint(Moved(ls, t, file))
  {
    var ms := Moved(ls, t, file);
    forall e ensures e in Union(ms) <==> e in Union(ls) {
      InUnion(ms, e);
      InUnion(ls, e);
      if i :| 0 <= i < |ms| && e in ms[i] { assert e in ls[i] || e in ls[a]; }
      if i :| 0 <= i < |ls| && e in ls[i] { assert e in ms[i] || e in ms[t]; }
    }
    forall i, j, e: Entry | 0 <= i < j < |ms| && e in ms[i] ensures e !in ms[j] {
      assert e in ls[i] || e in ls[a];
    }
  }

  // --------------------------------------------------------- the merge loop

  /** User-key range of a table file. */
  datatype Range = Range(smallest: Key, largest: Key)

  ghost predicate SortedFiles(files: seq<Range>) {
    && (forall i :: 0 <= i < |files| ==> files[i].smallest <= files[i].largest)
    && forall i, j :: 0 <= i < j < |files| ==> files[i].smallest <= files[j].smallest
  }

  ghost predicate Covers(files: seq<Range>, k: Key) {
    exists i :: 0 <= i < |files| && files[i].smallest <= k <= files[i].largest
  }

  /** The part of class Compaction the merge loop consults: the files of the
      levels below the outputs, with one cursor per level. */
  class LevelCursors {
    const files: seq<seq<Range>>
    const level: nat
    const levelPtrs: array<nat>
    /** The key of the last query; queries come in ascending order. */
    ghost var asked: Key

    constructor (files: seq<seq<Range>>, level: nat, ghost first: Key)
      requires |files| == NUM_LEVELS
      requires forall l :: 0 <= l < NUM_LEVELS ==> SortedFiles(files[l])
      ensures Valid() && this.files == files && this.level == level && asked == first && fresh(levelPtrs)
    {
      this.files, this.level, this.asked := files, level, first;
      this.levelPtrs := new nat[NUM_LEVELS](_ => 0);
    }

    ghost predicate Valid()
      reads this, levelPtrs
    {
      && |files| == levelPtrs.Length == NUM_LEVELS
      && (forall l :: 0 <= l < NUM_LEVELS ==> SortedFiles(files[l]))
      && forall l :: 0 <= l < NUM_LEVELS ==> Passed(files[l], levelPtrs[l], asked)
    }

    static ghost predicate Passed(fs: seq<Range>, p: nat, k: Key) {
      p <= |fs| && forall i :: 0 <= i < p ==> fs[i].largest < k
    }

    /** Keys that fall in no file of the levels below the outputs. */
    ghost predicate IsBase(k: Key) {
      forall l :: level + 2 <= l < |files| ==> !Covers(files[l], k)
    }

    method IsBaseLevelForKey(k: Key) returns (r: bool)
      requires Valid() && asked <= k
      modifies this`asked, levelPtrs
      ensures Valid() && asked == k
      ensures r <==> IsBase(k)
    {
      asked := k;
      var lvl := level + 2;
      while lvl < NUM_LEVELS
        invariant level + 2 <= lvl && asked == k && Valid()
        invariant forall l :: level + 2 <= l < lvl && l < NUM_LEVELS ==> !Covers(files[l], k)
      {
        var p, covered := Advance(files[lvl], levelPtrs[lvl], k);
        levelPtrs[lvl] := p;
        if covered {
          return false;
        }
        lvl := lvl + 1;
      }
      r := true;
    }

    /** Move one level's cursor to the first file that does not end before `k`. */
    static method Advance(fs: seq<Range>, start: nat, k: Key) returns (p: nat, covered: bool)
      requires SortedFiles(fs) && Passed(fs, start, k)
      ensures start <= p && Passed(fs, p, k)
      ensures covered <==> Covers(fs, k)
    {
      p := start;
      while p < |fs|
        invariant start <= p && Passed(fs, p, k)
      {
        var f := fs[p];
        if k <= f.largest {
          return p, f.smallest <= k;
        }
        p := p + 1;
      }
      covered := false;
    }
  }

  /** Internal key order: ascending key, then descending sequence number. */
  predicate Before(a: Entry, b: Entry) {
    a.key < b.key || (a.key == b.key && a.num > b.num)
  }

  ghost predicate Sorted(es: seq<Entry>) {
    forall i, j :: 0 <= i < j < |es| ==> Before(es[i], es[j])
  }

  ghost function Set(es: seq<Entry>): set<Entry> { set e | e in es }

  /** The entries among the first n that the set-level rules keep, in order. */
  ghost function KeptPrefix(es: seq<Entry>, n: nat, smallest: nat, base: iset<Key>): seq<Entry>
    requires n <= |es|
  {
    if n == 0 then [] else
      KeptPrefix(es, n - 1, smallest, base) + (if Keeps(es[n - 1], Set(es), smallest, base) then [es[n - 1]] else [])
  }

  /** In a sorted input an entry is hidden exactly when its direct predecessor
      has the same key and is visible to every snapshot. */
  lemma {:induction false} HiddenByPredecessor(es: seq<Entry>, i: nat, smallest: nat)
    requires Sorted(es) && i < |es|
    ensures Hidden(es[i], Set(es), smallest) <==> i > 0 && es[i - 1].key == es[i].key && es[i - 1].num <= smallest
  {
    if Hidden(es[i], Set(es), smallest) {
      var f :| f in Set(es) && f.key == es[i].key && es[i].num < f.num <= smallest;
      var j :| 0 <= j < |es| && es[j] == f;
      if j < i - 1 { assert Before(es[j], es[i - 1]); }
      assert Before(es[i - 1], es[i]);
    }
    if i > 0 && es[i - 1].key == es[i].key && es[i - 1].num <= smallest {
      assert Before(es[i - 1], es[i]) && es[i - 1] in Set(es);
    }
  }

  /** The kept entries, in order, are a sorted subsequence holding exactly the kept set. */
  lemma {:induction false} KeptPrefixFacts(es: seq<Entry>, n: nat, smallest: nat, base: iset<Key>)
    requires Sorted(es) && n <= |es|
    ensures var ks := KeptPrefix(es, n, smallest, base);
            && Sorted(ks)
            && (forall e :: e in ks <==> e in es[..n] && Keeps(e, Set(es), smallest, base))
  {
    if n > 0 {
      KeptPrefixFacts(es, n - 1, smallest, base);
      var ks := KeptPrefix(es, n - 1, smallest, base);
      assert es[..n] == es[..n - 1] + [es[n - 1]];
      forall i | 0 <= i < |ks| ensures Before(ks[i], es[n - 1]) {
        assert ks[i] in ks;
        var j :| 0 <= j < n - 1 && es[..n - 1][j] == ks[i];
        assert Before(es[j], es[n - 1]);
      }
    }
  }

  lemma {:induction false} KeptIsSortedFilter(es: seq<Entry>, smallest: nat, base: iset<Key>)
    requires Sorted(es)
    ensures Sorted(KeptPrefix(es, |es|, smallest, base))
    ensures Set(KeptPrefix(es, |es|, smallest, base)) == Kept(Set(es), smallest, base)
  {
    KeptPrefixFacts(es, |es|, smallest, base);
    assert es[..|es|] == es;
  }

  // ---------------------------------------------------- what the loop reads

  /** A key of the merged input: parsed, or bytes that do not parse. */
  datatype Item = Good(entry: Entry) | Bad(raw: seq<Byte>)

  function Items(es: seq<Entry>): seq<Item> { seq(|es|, i requires 0 <= i < |es| => Good(es[i])) }

  /** Parsed keys are in order, whatever lies between them. */
  ghost predicate GoodSorted(input: seq<Item>) {
    forall i, j :: 0 <= i < j < |input| && input[i].Good? && input[j].Good? ==> Before(input[i].entry, input[j].entry)
  }

  /** The direct predecessor shadows entry i for every snapshot. */
  ghost predicate Shadowed(input: seq<Item>, i: nat, smallest: nat)
    requires i < |input| && input[i].Good?
  {
    && i > 0 && input[i - 1].Good?
    && input[i - 1].entry.key == input[i].entry.key && input[i - 1].entry.num <= smallest
  }

  ghost predicate Dropped(input: seq<Item>, i: nat, smallest: nat, base: iset<Key>)
    requires i < |input|
  {
    input[i].Good? && (Shadowed(input, i, smallest) || Obsolete(input[i].entry, smallest, base))
  }

  /** The first n keys without the dropped ones; a key that does not parse is never dropped. */
  ghost function Survivors(input: seq<Item>, n: nat, smallest: nat, base: iset<Key>): seq<Item>
    requires n <= |input|
  {
    if n == 0 then [] else
      Survivors(input, n - 1, smallest, base) + (if Dropped(input, n - 1, smallest, base) then [] else [input[n - 1]])
  }

  /** On intact input the one-pass test drops exactly what the two rules drop. */
  lemma {:induction false} DroppedIffNotKept(es: seq<Entry>, i: nat, smallest: nat, base: iset<Key>)
    requires Sorted(es) && i < |es|
    ensures Dropped(Items(es), i, smallest, base) <==> !Keeps(es[i], Set(es), smallest, base)
  {
    HiddenByPredecessor(es, i, smallest);
  }

  lemma {:induction false} IntactSurvivors(es: seq<Entry>, n: nat, smallest: nat, base: iset<Key>)
    requires Sorted(es) && n <= |es|
    ensures Survivors(Items(es), n, smallest, base) == Items(KeptPrefix(es, n, smallest, base))
  {
    hide Dropped, Keeps;
    if n > 0 {
      IntactSurvivors(es, n - 1, smallest, base);
      DroppedIffNotKept(es, n - 1, smallest, base);
      ItemsSnoc(KeptPrefix(es, n - 1, smallest, base), es[n - 1]);
    }
  }

  /** The keys among these that do not parse. */
  ghost function Bads(items: seq<Item>): seq<Item> {
    if items == [] then [] else
      Bads(items[..|items| - 1]) + if items[|items| - 1].Bad? then [items[|items| - 1]] else []
  }

  /** Damaged input: no key that does not parse is lost, and the key after it is not
      held against anything before it. */
  lemma {:induction false} DamagedKept(input: seq<Item>, n: nat, smallest: nat, base: iset<Key>)
    requires n <= |input|
    ensures Bads(Survivors(input, n, smallest, base)) == Bads(input[..n])
    ensures forall i :: 0 < i < n && AfterDamage(input, i) ==> input[i] in Survivors(input, n, smallest, base)
  {
    hide Bads, Dropped, AfterDamage;
    if n > 0 {
      var before, x := Survivors(input, n - 1, smallest, base), input[n - 1];
      DamagedKept(input, n - 1, smallest, base);
      assert input[..n] == input[..n - 1] + [x];
      BadsSnoc(input[..n - 1], x);
      BadsSnoc(before, x);
      assert x.Bad? || AfterDamage(input, n - 1) ==> !Dropped(input, n - 1, smallest, base) by {
        NotDropped(input, n - 1, smallest, base);
      }
      assert Survivors(input, n, smallest, base) == before ||
             (Survivors(input, n, smallest, base) == before + [x] && !Dropped(input, n - 1, smallest, base));
    }
  }

  /** A value right behind a key that does not parse. */
  ghost predicate AfterDamage(input: seq<Item>, i: nat) {
    0 < i < |input| && input[i - 1].Bad? && input[i].Good? && input[i].entry.val.Some?
  }

  lemma {:induction false} NotDropped(input: seq<Item>, i: nat, smallest: nat, base: iset<Key>)
    requires i < |input|
    ensures input[i].Bad? || AfterDamage(input, i) ==> !Dropped(input, i, smallest, base)
  {}

  lemma {:induction false} BadsSnoc(items: seq<Item>, x: Item)
    ensures Bads(items + [x]) == Bads(items) + if x.Bad? then [x] else []
  {
    assert (items + [x])[..|items|] == items;
  }

  lemma {:induction false} ItemsSnoc(es: seq<Entry>, e: Entry)
    ensures Items(es + [e]) == Items(es) + [Good(e)]
  {}

  // ---------------------------------------------------------- the output files

  /** One output table with the range recorded for it in the version edit. */
  datatype Output = Output(smallest: Item, largest: Item, items: seq<Item>)

  ghost predicate TrueRange(o: Output) {
    o.items != [] && o.smallest == o.items[0] && o.largest == o.items[|o.items| - 1]
  }

  ghost function Concat(os: seq<Output>): seq<Item> {
    if os == [] then [] else Concat(os[..|os| - 1]) + os[|os| - 1].items
  }

  /** The finished outputs and the one being built, as in CompactionState. */
  datatype Outputs = Outputs(done: seq<Output>, open: Option<Output>) {
    ghost predicate Valid() {
      (forall o :: o in done ==> TrueRange(o)) && (open.Some? ==> TrueRange(open.value))
    }

    ghost function Contents(): seq<Item> {
      Concat(done) + if open.Some? then open.value.items else []
    }

    /** FinishCompactionOutputFile, if a file is open. */
    function Finish(): (r: Outputs)
      requires Valid()
      ensures r.Valid() && r.open.None? && r.Contents() == Contents()
    {
      if open.None? then this else
      assert (done + [open.value])[..|done|] == done;
      Outputs(done + [open.value], None)
    }

    /** Open a file if necessary, then add the key and widen the recorded range. */
    function Add(e: Item): (r: Outputs)
      requires Valid()
      ensures r.Valid() && r.Contents() == Contents() + [e]
    {
      match open
      case None => Outputs(done, Some(Output(e, e, [e])))
      case Some(o) => Outputs(done, Some(Output(o.smallest, e, o.items + [e])))
    }
  }

  /** The drop test, given the number kept from the previous key; it agrees with
      the predecessor test and so, on intact input, with the two rules. */
  method ShouldDrop(c: LevelCursors, e: Entry, last: nat, smallest: nat, ghost input: seq<Item>, ghost i: nat)
    returns (drop: bool)
    requires c.Valid() && c.asked <= e.key && i < |input| && input[i] == Good(e) && smallest < MAX_SEQUENCE
    requires last == if i > 0 && input[i - 1].Good? && input[i - 1].entry.key == e.key
                     then input[i - 1].entry.num else MAX_SEQUENCE
    modifies c`asked, c.levelPtrs
    ensures c.Valid() && c.asked <= e.key
    ensures drop <==> Dropped(input, i, smallest, iset k | c.IsBase(k))
  {
    if last <= smallest {
      drop := true;
    } else if e.val.None? && e.num <= smallest {
      drop := c.IsBaseLevelForKey(e.key);
    } else {
      drop := false;
    }
  }

  /** Where the files are cut: `stop[i]` is what ShouldStopBefore answers for key
      i, and `full[i]` whether the output reached its size limit with it. */
  ghost function Cut(input: seq<Item>, n: nat, smallest: nat, base: iset<Key>, stop: seq<bool>,
      full: seq<bool>): (r: Outputs)
    requires n <= |input| == |stop| == |full|
    ensures r.Valid() && r.Contents() == Survivors(input, n, smallest, base)
  {
    if n == 0 then Outputs([], None) else
      var before := Cut(input, n - 1, smallest, base, stop, full);
      var state := if stop[n - 1] then before.Finish() else before;
      if Dropped(input, n - 1, smallest, base) then state else
        var more := state.Add(input[n - 1]);
        if full[n - 1] then more.Finish() else more
  }

  /** Key i was the last one kept before n, and nothing closed its file since. */
  ghost predicate StaysOpen(input: seq<Item>, i: nat, n: nat, smallest: nat, base: iset<Key>, stop: seq<bool>,
      full: seq<bool>)
    requires i < n <= |input| == |stop| == |full|
  {
    && !Dropped(input, i, smallest, base) && !full[i]
    && forall m :: i < m < n ==> Dropped(input, m, smallest, base) && !stop[m]
  }

  lemma {:induction false} StaysOpenStep(input: seq<Item>, i: nat, n: nat, smallest: nat, base: iset<Key>,
      stop: seq<bool>, full: seq<bool>)
    requires i < n < |input| == |stop| == |full|
    ensures StaysOpen(input, i, n + 1, smallest, base, stop, full) <==>
              StaysOpen(input, i, n, smallest, base, stop, full) && Dropped(input, n, smallest, base) && !stop[n]
  {}

  /** A file is open exactly while neither its size nor the levels below have closed it. */
  lemma {:induction false} OpenIff(input: seq<Item>, n: nat, smallest: nat, base: iset<Key>, stop: seq<bool>,
      full: seq<bool>)
    requires n <= |input| == |stop| == |full|
    ensures
      var open := Cut(input, n, smallest, base, stop, full).open;
      && (open.Some? <==> exists i :: 0 <= i < n && StaysOpen(input, i, n, smallest, base, stop, full))
      && forall i :: 0 <= i < n && StaysOpen(input, i, n, smallest, base, stop, full) && open.Some? ==>
           open.value.largest == input[i]
  {
    hide Dropped, Survivors, Concat, StaysOpen, TrueRange, Outputs.Contents;
    if n > 0 {
      var m := n - 1;
      var open, now := Cut(input, m, smallest, base, stop, full).open, Cut(input, n, smallest, base, stop, full).open;
      OpenIff(input, m, smallest, base, stop, full);
      forall i | 0 <= i < m
        ensures StaysOpen(input, i, n, smallest, base, stop, full) <==>
                  StaysOpen(input, i, m, smallest, base, stop, full) && Dropped(input, m, smallest, base) && !stop[m]
      {
        StaysOpenStep(input, i, m, smallest, base, stop, full);
      }
      assert StaysOpen(input, m, n, smallest, base, stop, full) <==> !Dropped(input, m, smallest, base) && !full[m] by {
        LastStaysOpen(input, m, smallest, base, stop, full);
      }
      if Dropped(input, m, smallest, base) {
        assert now == if stop[m] then None else open;
      } else {
        assert now.None? <==> full[m];
        assert now.Some? ==> now.value.largest == input[m];
      }
    }
  }

  lemma {:induction false} LastStaysOpen(input: seq<Item>, m: nat, smallest: nat, base: iset<Key>, stop: seq<bool>,
      full: seq<bool>)
    requires m < |input| == |stop| == |full|
    ensures StaysOpen(input, m, m + 1, smallest, base, stop, full) <==> !Dropped(input, m, smallest, base) && !full[m]
  {}

  /** A kept key goes into the file of the one kept before it unless that file was
      full or a stop came in between; otherwise it starts a file of its own. */
  lemma {:induction false} FileBoundary(input: seq<Item>, j: nat, smallest: nat, base: iset<Key>, stop: seq<bool>,
      full: seq<bool>)
    requires j < |input| == |stop| == |full| && !Dropped(input, j, smallest, base)
    ensures
      var files := Cut(input, j + 1, smallest, base, stop, full).Finish().done;
      && files != []
      && var last := files[|files| - 1].items;
      && last != [] && last[|last| - 1] == input[j]
      && (|last| == 1 <==> stop[j] || forall i :: 0 <= i < j ==> !StaysOpen(input, i, j, smallest, base, stop, full))
      && forall i :: 0 <= i < j && StaysOpen(input, i, j, smallest, base, stop, full) && |last| > 1 ==>
           last[|last| - 2] == input[i]
  {
    hide Dropped, Survivors, Concat, StaysOpen, Outputs.Contents;
    OpenIff(input, j, smallest, base, stop, full);
  }

  lemma {:induction false} LaterKeys(input: seq<Item>, i: nat)
    requires GoodSorted(input) && i < |input| && input[i].Good?
    ensures forall j :: i < j < |input| && input[j].Good? ==> input[i].entry.key <= input[j].entry.key
  {}

  /** The loop of DoCompactionWork.  `shutdown` is the round before which the
      database starts shutting down, if it does; the results are then given up. */
  method DoCompactionWork(c: LevelCursors, input: seq<Item>, smallest: nat, stop: seq<bool>, full: seq<bool>,
      shutdown: Option<nat>)
    returns (outputs: Option<seq<Output>>)
    requires c.Valid() && GoodSorted(input) && smallest < MAX_SEQUENCE
    requires |stop| == |full| == |input|
    requires forall i :: 0 <= i < |input| && input[i].Good? ==> c.asked <= input[i].entry.key
    modifies c`asked, c.levelPtrs
    ensures outputs.None? <==> shutdown.Some? && shutdown.value <= |input|
    ensures outputs.Some? ==>
              var base := iset k | c.IsBase(k);
              && outputs.value == Cut(input, |input|, smallest, base, stop, full).Finish().done
              && Concat(outputs.value) == Survivors(input, |input|, smallest, base)
              && forall o :: o in outputs.value ==> TrueRange(o)
  {
    hide Survivors, Concat, TrueRange;
    ghost var base := iset k | c.IsBase(k);
    var state := Outputs([], None);
    var hasCurrentUserKey, currentUserKey := false, 0;
    var lastSequenceForKey := MAX_SEQUENCE;
    var i := 0;
    while i < |input| && !(shutdown.Some? && shutdown.value <= i)
      invariant i <= |input| && c.Valid() && (shutdown.Some? ==> i <= shutdown.value)
      invariant forall j :: i <= j < |input| && input[j].Good? ==> c.asked <= input[j].entry.key
      invariant hasCurrentUserKey <==> i > 0 && input[i - 1].Good?
      invariant hasCurrentUserKey ==>
                currentUserKey == input[i - 1].entry.key && lastSequenceForKey == input[i - 1].entry.num
      invariant !hasCurrentUserKey ==> lastSequenceForKey == MAX_SEQUENCE
      invariant state.Valid() && state == Cut(input, i, smallest, base, stop, full)
    {
      if stop[i] {
        state := state.Finish();
      }
      var drop := false;
      match input[i] {
        case Bad(_) =>
          hasCurrentUserKey := false;
          lastSequenceForKey := MAX_SEQUENCE;
        case Good(e) =>
          if !hasCurrentUserKey || e.key != currentUserKey {
            currentUserKey, hasCurrentUserKey := e.key, true;
            lastSequenceForKey := MAX_SEQUENCE;
          }
          drop := ShouldDrop(c, e, lastSequenceForKey, smallest, input, i);
          lastSequenceForKey := e.num;
          LaterKeys(input, i);
      }
      if !drop {
        state := state.Add(input[i]);
        if full[i] {
          state := state.Finish();
        }
      }
      i := i + 1;
    }
    if shutdown.Some? && shutdown.value <= |input| {
      return None;
    }
    return Some(state.Finish().done);
  }

  // ------------------------------------------------- the loop on a version

  /** Layer l of the levels: layers are the level-0 files, then levels 1 to 6. */
  function LayerOf(ls: Layers, level: nat): int { |ls| - NUM_LEVELS + level }

  /** The keys of every layer below the outputs lie in that level's file ranges. */
  ghost predicate InRanges(ls: Layers, files: seq<seq<Range>>, level: nat) {
    && |ls| >= NUM_LEVELS - 1 && |files| == NUM_LEVELS
    && forall l, e :: level + 2 <= l < NUM_LEVELS && 0 <= LayerOf(ls, l) && e in ls[LayerOf(ls, l)] ==>
         Covers(files[l], e.key)
  }

  /** What the cursors call a base level is one. */
  lemma {:induction false} CursorsSound(c: LevelCursors, ls: Layers, ins: set<Entry>)
    requires InRanges(ls, c.files, c.level) && 0 <= LayerOf(ls, c.level + 1) < |ls|
    ensures BaseOk(ls, LayerOf(ls, c.level + 1), ins, iset k | c.IsBase(k))
  {
    var t := LayerOf(ls, c.level + 1);
    forall i, e, f | t < i < |ls| && e in ins && f in ls[i] && e.key == f.key ensures !c.IsBase(e.key) {
      var l := i + NUM_LEVELS - |ls|;
      assert LayerOf(ls, l) == i;
      assert Covers(c.files[l], f.key);
    }
  }

  ghost function EntriesOf(items: seq<Item>): set<Entry> { set x | x in items && x.Good? :: x.entry }

  /** Merging intact inputs and installing the files: whatever the files and the
      cuts, order is kept and no read from `smallest` on changes. */
  method CompactVersion(c: LevelCursors, ghost ls: Layers, es: seq<Entry>, smallest: nat, stop: seq<bool>,
      full: seq<bool>)
    returns (outputs: seq<Output>)
    requires c.Valid() && Sorted(es) && smallest < MAX_SEQUENCE && |stop| == |full| == |es|
    requires es != [] ==> c.asked <= es[0].key
    requires Ordered(ls) && Unique(Union(ls)) && InRanges(ls, c.files, c.level) && 0 <= LayerOf(ls, c.level + 1) < |ls|
    requires InputsClosed(ls, LayerOf(ls, c.level + 1), Set(es))
    modifies c`asked, c.levelPtrs
    ensures var cs := Compacted(ls, LayerOf(ls, c.level + 1), Set(es), EntriesOf(Concat(outputs)));
            Ordered(cs) && forall k, s :: smallest <= s ==> Get(cs, k, s) == Get(ls, k, s)
    ensures forall e :: e in EntriesOf(Concat(outputs)) ==>
              && (exists s :: smallest <= s && Newest(e, Set(es), e.key, s))
              && (e.val.None? && e.num <= smallest ==>
                    exists l :: c.level + 2 <= l < NUM_LEVELS && Covers(c.files[l], e.key))
  {
    hide Ordered, Unique, InputsClosed, BaseOk, Covers, Compacted, Kept, Survivors, Concat, Cut, KeptPrefix;
    ghost var base := iset k | c.IsBase(k);
    CursorsSound(c, ls, Set(es));
    CompactionPreserves(ls, LayerOf(ls, c.level + 1), Set(es), smallest, base);
    ItemsSorted(es);
    forall i | 0 <= i < |es| ensures c.asked <= es[i].key { if i > 0 { assert Before(es[0], es[i]); } }
    var input := Items(es);
    var r := DoCompactionWork(c, input, smallest, stop, full, None);
    outputs := r.value;
    IntactSurvivors(es, |es|, smallest, base);
    KeptIsSortedFilter(es, smallest, base);
    EntriesOfItems(KeptPrefix(es, |es|, smallest, base));
    SortedUnique(es);
    forall e ensures e in Kept(Set(es), smallest, base) <==>
                       && (exists s :: smallest <= s && Newest(e, Set(es), e.key, s))
                       && !(e.val.None? && e.num <= smallest && e.key in base) {
      KeptIffNeeded(Set(es), smallest, base, e);
    }
  }

  lemma {:induction false} SortedUnique(es: seq<Entry>)
    requires Sorted(es)
    ensures Unique(Set(es))
  {
    forall i, j | 0 <= i < |es| && 0 <= j < |es| && i != j ensures es[i].key != es[j].key || es[i].num != es[j].num {
      assert if i < j then Before(es[i], es[j]) else Before(es[j], es[i]);
    }
  }

  lemma {:induction false} ItemsSorted(es: seq<Entry>)
    requires Sorted(es)
    ensures GoodSorted(Items(es))
  {}

  lemma {:induction false} EntriesOfItems(es: seq<Entry>)
    ensures EntriesOf(Items(es)) == Set(es)
  {
    forall e ensures e in EntriesOf(Items(es)) <==> e in Set(es) {
      if e in es {
        var i :| 0 <= i < |es| && es[i] == e;
        assert Items(es)[i] == Good(e);
      }
    }
  }

  // ------------------------------------------------------- a straddling key

  /** Two versions that a live snapshot keeps apart, and a size limit that closes
      the file between them: the merge loop itself leaves one user key in two
      files of a level.  When the file with the newer one is moved on alone, a
      reader of the newest state gets the overwritten value back. */
  method StraddlingKeyBreaks() returns (files: seq<Output>)
    ensures |files| == 2
    ensures var newer, older := EntriesOf(files[0].items), EntriesOf(files[1].items);
            var ls: Layers := [newer + older, {}];
            && Ordered(ls) && Unique(Union(ls))
            && Get(ls, 7, 5) == Some([1])
            && Get(Moved(ls, 1, newer), 7, 5) == Some([2])
  {
    var newer, older := Entry(7, 5, Some([1])), Entry(7, 3, Some([2]));
    var c := new LevelCursors(seq(NUM_LEVELS, _ => []), 0, 7);
    hide Cut, Survivors, Get, Ordered, Unique, Union, EntriesOf, Moved;
    var r := DoCompactionWork(c, [Good(newer), Good(older)], 0, [false, false], [true, true], None);
    files := r.value;
    CutBetween(newer, older, iset k | c.IsBase(k));
    OldValueReturns(newer, older);
  }

  /** With the older entry kept, a full file after each one separates them. */
  lemma {:induction false} CutBetween(newer: Entry, older: Entry, base: iset<Key>)
    requires newer.val.Some? && older.val.Some? && newer.num > 0
    ensures var files := Cut([Good(newer), Good(older)], 2, 0, base, [false, false], [true, true]).Finish().done;
            |files| == 2 && EntriesOf(files[0].items) == {newer} && EntriesOf(files[1].items) == {older}
  {
    hide Survivors, Concat, Outputs.Contents;
    var input, stop, full := [Good(newer), Good(older)], [false, false], [true, true];
    var one, two := Output(Good(newer), Good(newer), [Good(newer)]), Output(Good(older), Good(older), [Good(older)]);
    assert Cut(input, 0, 0, base, stop, full) == Outputs([], None);
    assert Cut(input, 1, 0, base, stop, full) == Outputs([one], None);
    assert Cut(input, 2, 0, base, stop, full) == Outputs([one, two], None);
    assert EntriesOf(one.items) == {newer} && EntriesOf(two.items) == {older};
  }

  lemma {:induction false} OldValueReturns(newer: Entry, older: Entry)
    requires newer.key == older.key && older.num < newer.num
    ensures var ls: Layers := [{newer} + {older}, {}];
            && Ordered(ls) && Unique(Union(ls))
            && Get(ls, newer.key, newer.num) == newer.val
            && Get(Moved(ls, 1, {newer}), newer.key, newer.num) == older.val
  {
    var ls: Layers := [{newer} + {older}, {}];
    var k, s := newer.key, newer.num;
    assert Union(ls[1..]) == {};
    assert Newest(newer, ls[0], k, s);
    ReadIs(ls[0], k, s, newer);
    var ms := Moved(ls, 1, {newer});
    assert ms[0] == {older};
    assert Newest(older, ms[0], k, s);
    ReadIs(ms[0], k, s, older);
  }
}
