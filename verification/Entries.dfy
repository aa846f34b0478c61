/**
 Entries of the LevelDB store and what a read means.

 An entry is one version of a user key: the key, the sequence number it was
 written with, and its value, or `None` for a deletion marker.  User keys are
 represented by their rank under the user comparator, so `<` on `Key` is the
 comparator's order.  The meaning of a set of entries at snapshot `s` is the
 newest entry of each key whose sequence number is at most `s`.
 */
module Entries {
  import opened Wrappers

  type Key = int
  type Value = seq<Byte>

  datatype Entry = Entry(key: Key, num: nat, val: Option<Value>)

  /** `e` is the newest entry of `k` in `es` at snapshot `s`. */
  ghost predicate Newest(e: Entry, es: set<Entry>, k: Key, s: nat) {
    && e in es && e.key == k && e.num <= s
    && forall f :: f in es && f.key == k && f.num <= s ==> f.num <= e.num
  }

  /** No two entries of one key share a sequence number. */
  ghost predicate Unique(es: set<Entry>) {
    forall e, f :: e in es && f in es && e.key == f.key && e.num == f.num ==> e == f
  }

  ghost predicate Sees(es: set<Entry>, k: Key, s: nat) {
    exists e :: e in es && e.key == k && e.num <= s
  }

  /** The newest entry of `k` at snapshot `s`, if there is one. */
  ghost function Lookup(es: set<Entry>, k: Key, s: nat): (r: Option<Entry>)
    ensures r.Some? ==> Newest(r.value, es, k, s)
    ensures r.None? ==> !Sees(es, k, s)
  {
    if e: Entry :| Newest(e, es, k, s) then Some(e) else
    assert !Sees(es, k, s) by { if Sees(es, k, s) { NewestExists(es, k, s); } }
    None
  }

  /** The value a reader of `es` at snapshot `s` gets for `k`. */
  ghost function Read(es: set<Entry>, k: Key, s: nat): Option<Value> {
    var r := Lookup(es, k, s);
    if r.Some? then r.value.val else None
  }

  lemma {:induction false} NewestExists(es: set<Entry>, k: Key, s: nat)
    requires Sees(es, k, s)
    ensures exists e :: Newest(e, es, k, s)
    decreases es
  {
    var e :| e in es && e.key == k && e.num <= s;
    var rest := es - {e};
    if Sees(rest, k, s) {
      NewestExists(rest, k, s);
      var m :| Newest(m, rest, k, s);
      var top := if e.num > m.num then e else m;
      assert Newest(top, es, k, s);
    } else {
      assert forall f :: f in es && f.key == k && f.num <= s ==> f == e || f in rest;
      assert Newest(e, es, k, s);
    }
  }

  /** In a set with unique sequence numbers the newest entry is what `Read` returns. */
  lemma {:induction false} ReadIs(es: set<Entry>, k: Key, s: nat, e: Entry)
    requires Unique(es) && Newest(e, es, k, s)
    ensures Lookup(es, k, s) == Some(e) && Read(es, k, s) == e.val
  {
    var r := Lookup(es, k, s);
    assert Sees(es, k, s);
    assert r.Some? && r.value.num == e.num;
  }

  /** Sets that agree on the visible entries of `k` give the same read. */
  lemma {:induction false} SameRead(a: set<Entry>, b: set<Entry>, k: Key, s: nat)
    requires Unique(a) && Unique(b)
    requires forall e: Entry :: e.key == k && e.num <= s ==> (e in a <==> e in b)
    ensures Read(a, k, s) == Read(b, k, s) && Lookup(a, k, s) == Lookup(b, k, s)
  {
    var r := Lookup(a, k, s);
    if r.Some? {
      assert Newest(r.value, b, k, s);
      ReadIs(b, k, s, r.value);
    }
  }

  // ---------------------------------------------------------------- layers

  /** Tables searched one after the other: memtables, level-0 files, levels 1 to 6. */
  type Layers = seq<set<Entry>>

  ghost function Union(ls: Layers): set<Entry> {
    if ls == [] then {} else ls[0] + Union(ls[1..])
  }

  lemma {:induction false} InUnion(ls: Layers, e: Entry)
    ensures e in Union(ls) <==> exists i :: 0 <= i < |ls| && e in ls[i]
  {
    if ls != [] {
      InUnion(ls[1..], e);
      if e in Union(ls[1..]) {
        var i :| 0 <= i < |ls[1..]| && e in ls[1..][i];
        assert e in ls[i + 1];
      }
      if i :| 0 <= i < |ls| && e in ls[i] {
        if i > 0 { assert ls[1..][i - 1] == ls[i]; }
      }
    }
  }

  lemma {:induction false} UnionConcat(a: Layers, b: Layers)
    ensures Union(a + b) == Union(a) + Union(b)
  {
    if a == [] { assert a + b == b; } else {
      assert (a + b)[1..] == a[1..] + b;
      UnionConcat(a[1..], b);
    }
  }

  /** Entries of a key only get older from one layer to the next. */
  ghost predicate Ordered(ls: Layers) {
    forall i, j, e, f :: 0 <= i < j < |ls| && e in ls[i] && f in ls[j] && e.key == f.key ==> e.num > f.num
  }

  /** The search of DBImpl::Get and Version::Get: the first layer that holds a
      visible entry of the key answers. */
  ghost function Find(ls: Layers, k: Key, s: nat): (r: Option<Entry>)
    ensures r.Some? ==> r.value.key == k && r.value.num <= s
  {
    if ls == [] then None
    else
      var r := Lookup(ls[0], k, s);
      if r.Some? then r else Find(ls[1..], k, s)
  }

  ghost function Get(ls: Layers, k: Key, s: nat): Option<Value> {
    var r := Find(ls, k, s);
    if r.Some? then r.value.val else None
  }

  /** Searching ordered layers first-hit gives the newest entry of their union. */
  lemma {:induction false} FindIsLookup(ls: Layers, k: Key, s: nat)
    requires Ordered(ls) && Unique(Union(ls))
    ensures Find(ls, k, s) == Lookup(Union(ls), k, s)
    ensures Get(ls, k, s) == Read(Union(ls), k, s)
  {
    if ls != [] {
      FindIsLookup(ls[1..], k, s);
      var r := Lookup(ls[0], k, s);
      if r.Some? {
        HeadIsNewest(ls, k, s);
        ReadIs(Union(ls), k, s, r.value);
      } else {
        SameRead(Union(ls), Union(ls[1..]), k, s);
      }
    }
  }

  lemma {:induction false} HeadIsNewest(ls: Layers, k: Key, s: nat)
    requires Ordered(ls) && ls != [] && Lookup(ls[0], k, s).Some?
    ensures Newest(Lookup(ls[0], k, s).value, Union(ls), k, s)
  {
    var rest, e := ls[1..], Lookup(ls[0], k, s).value;
    forall f | f in Union(rest) && f.key == k ensures f.num < e.num {
      InUnion(rest, f);
      var j :| 0 <= j < |rest| && f in rest[j];
      assert rest[j] == ls[j + 1];
    }
  }

  /** Distinct layers hold distinct entries. */
  ghost predicate Disjoint(ls: Layers) {
    forall i, j, e :: 0 <= i < j < |ls| && e in ls[i] ==> e !in ls[j]
  }

  /** The first-hit search is right for every key and snapshot exactly when the
      layers are ordered, so order is just what the search relies on. */
  lemma {:induction false} SearchExactIffOrdered(ls: Layers)
    requires Unique(Union(ls)) && Disjoint(ls)
    ensures Ordered(ls) <==> forall k, s :: Find(ls, k, s) == Lookup(Union(ls), k, s)
  {
    if Ordered(ls) {
      forall k, s ensures Find(ls, k, s) == Lookup(Union(ls), k, s) { FindIsLookup(ls, k, s); }
    } else {
      var i, j, e, f :| 0 <= i < j < |ls| && e in ls[i] && f in ls[j] && e.key == f.key && e.num <= f.num;
      InversionMisleads(ls, i, j, e, f);
    }
  }

  /** An older entry above a newer one of the same key hides it. */
  lemma {:induction false} InversionMisleads(ls: Layers, i: nat, j: nat, e: Entry, f: Entry)
    requires Unique(Union(ls)) && Disjoint(ls)
    requires i < j < |ls| && e in ls[i] && f in ls[j] && e.key == f.key && e.num <= f.num
    ensures Lookup(Union(ls), f.key, f.num) == Some(f)
    ensures Find(ls, f.key, f.num) != Some(f)
  {
    InUnion(ls, f);
    assert Newest(f, Union(ls), f.key, f.num);
    ReadIs(Union(ls), f.key, f.num, f);
    FirstHit(ls, f.key, f.num, i);
  }

  lemma {:induction false} FirstHit(ls: Layers, k: Key, s: nat, i: nat)
    requires i < |ls| && Sees(ls[i], k, s)
    ensures Find(ls, k, s).Some?
    ensures exists h :: 0 <= h <= i && Find(ls, k, s).value in ls[h]
  {
    var r := Lookup(ls[0], k, s);
    if r.None? {
      assert ls[1..][i - 1] == ls[i];
      FirstHit(ls[1..], k, s, i - 1);
      var h :| 0 <= h <= i - 1 && Find(ls[1..], k, s).value in ls[1..][h];
      assert ls[1..][h] == ls[h + 1];
    } else {
      assert r.value in ls[0];
    }
  }
}
