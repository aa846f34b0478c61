/**
 DBIter: a user-level iterator over a sorted run of internal entries.  It shows
 each user key once, with the value a reader at snapshot `sequence` gets.
 */
module DbIter {
  import opened Wrappers
  import opened Entries
  import opened Compaction

  // ------------------------------------------------- what is to be shown

  /** Entry i is the one a reader at snapshot s gets for its key. */
  ghost predicate Shown(es: seq<Entry>, s: nat, i: int) {
    && 0 <= i < |es| && es[i].num <= s && es[i].val.Some?
    && forall j :: 0 <= j < i && es[j].key == es[i].key ==> es[j].num > s
  }

  /** `at` is the first shown index from `lo` on, or |es|. */
  ghost predicate FirstFrom(es: seq<Entry>, s: nat, lo: int, at: int) {
    && lo <= at <= |es| && (at < |es| ==> Shown(es, s, at))
    && forall j :: lo <= j < at ==> !Shown(es, s, j)
  }

  /** `at` is the last shown index before `hi`, or -1. */
  ghost predicate LastBefore(es: seq<Entry>, s: nat, hi: int, at: int) {
    && -1 <= at < hi && (at >= 0 ==> Shown(es, s, at))
    && forall j :: at < j < hi ==> !Shown(es, s, j)
  }

  ghost predicate Seen(es: seq<Entry>, s: nat, k: Key) {
    exists m :: 0 <= m < |es| && es[m].key == k && es[m].num <= s
  }

  /** Entry j is the last one whose key is smaller than that of entry i. */
  ghost predicate Precedes(es: seq<Entry>, j: int, i: int) {
    && 0 <= j < i < |es| && es[j].key < es[i].key
    && forall m :: j < m < i ==> es[m].key == es[i].key
  }

  /** The last user key before that of entry i, if any, has an entry visible at s. */
  ghost predicate PrecedingKeySeen(es: seq<Entry>, s: nat, i: int) {
    forall j :: Precedes(es, j, i) ==> Seen(es, s, es[j].key)
  }

  /** Being shown is being the newest visible entry of the key, and a value. */
  lemma {:induction false} ShownIsNewest(es: seq<Entry>, s: nat, i: nat)
    requires Sorted(es) && i < |es|
    ensures Shown(es, s, i) <==> Newest(es[i], Set(es), es[i].key, s) && es[i].val.Some?
  {
    if Shown(es, s, i) {
      forall f | f in Set(es) && f.key == es[i].key && f.num <= s ensures f.num <= es[i].num {
        var j :| 0 <= j < |es| && es[j] == f;
        if i < j { assert Before(es[i], es[j]); }
      }
    }
    if Newest(es[i], Set(es), es[i].key, s) {
      forall j | 0 <= j < i && es[j].key == es[i].key ensures es[j].num > s {
        assert Before(es[j], es[i]) && es[j] in Set(es);
      }
    }
  }

  /** The pairs shown from index lo on, in order. */
  ghost function Live(es: seq<Entry>, s: nat, lo: nat): seq<(Key, Value)>
    decreases |es| - lo
  {
    if lo >= |es| then []
    else if Shown(es, s, lo) then [(es[lo].key, es[lo].val.value)] + Live(es, s, lo + 1)
    else Live(es, s, lo + 1)
  }

  lemma {:induction false} InLive(es: seq<Entry>, s: nat, lo: nat, p: (Key, Value))
    ensures p in Live(es, s, lo) <==>
            exists i :: lo <= i < |es| && Shown(es, s, i) && p == (es[i].key, es[i].val.value)
    decreases |es| - lo
  {
    if lo < |es| { InLive(es, s, lo + 1, p); }
  }

  lemma {:induction false} LiveSorted(es: seq<Entry>, s: nat, lo: nat)
    requires Sorted(es)
    ensures var ps := Live(es, s, lo); forall i, j :: 0 <= i < j < |ps| ==> ps[i].0 < ps[j].0
    decreases |es| - lo
  {
    if lo < |es| {
      LiveSorted(es, s, lo + 1);
      var ps := Live(es, s, lo + 1);
      if Shown(es, s, lo) {
        forall j | 0 <= j < |ps| ensures es[lo].key < ps[j].0 {
          InLive(es, s, lo + 1, ps[j]);
          var i :| lo + 1 <= i < |es| && Shown(es, s, i) && ps[j] == (es[i].key, es[i].val.value);
          assert Before(es[lo], es[i]);
        }
      }
    }
  }

  /** The shown pairs are exactly the snapshot's map, in ascending key order. */
  lemma {:induction false} LiveIsSnapshot(es: seq<Entry>, s: nat)
    requires Sorted(es)
    ensures forall k, v :: (k, v) in Live(es, s, 0) <==> Read(Set(es), k, s) == Some(v)
    ensures var ps := Live(es, s, 0); forall i, j :: 0 <= i < j < |ps| ==> ps[i].0 < ps[j].0
  {
    LiveSorted(es, s, 0);
    SortedUnique(es);
    forall k, v ensures (k, v) in Live(es, s, 0) <==> Read(Set(es), k, s) == Some(v) {
      InLive(es, s, 0, (k, v));
      if (k, v) in Live(es, s, 0) {
        var i :| 0 <= i < |es| && Shown(es, s, i) && (k, v) == (es[i].key, es[i].val.value);
        ShownIsNewest(es, s, i);
        ReadIs(Set(es), k, s, es[i]);
      }
      if Read(Set(es), k, s) == Some(v) {
        var e := Lookup(Set(es), k, s).value;
        var i :| 0 <= i < |es| && es[i] == e;
        ShownIsNewest(es, s, i);
      }
    }
  }

  // ------------------------------------------------------------ the iterator

  datatype Direction = Forward | Reverse

  class DBIter {
    const es: seq<Entry>
    const sequence: nat
    /** The inner iterator; it is valid when 0 <= pos < |es|. */
    var pos: int
    var direction: Direction
    var valid: bool
    var savedKey: Option<Key>
    var savedValue: Value
    /** The entry being shown; -1 or |es| when there is none. */
    ghost var at: int

    constructor (es: seq<Entry>, sequence: nat)
      requires Sorted(es)
      ensures Valid() && !valid && this.es == es && this.sequence == sequence
    {
      this.es, this.sequence := es, sequence;
      pos, direction, valid, savedKey, savedValue, at := -1, Forward, false, None, [], |es|;
    }

    ghost predicate Valid()
      reads this
    {
      && Sorted(es) && -1 <= pos <= |es| && -1 <= at <= |es|
      && (valid <==> 0 <= at < |es|)
      && (valid ==> Shown(es, sequence, at))
      && (valid && direction == Forward ==> pos == at)
      && (valid && direction == Reverse ==>
            && savedKey == Some(es[at].key) && Some(savedValue) == es[at].val
            && ParkedBefore(at))
    }

    /** In reverse the inner iterator rests on the nearest visible entry of a smaller key. */
    ghost predicate ParkedBefore(i: int)
      requires 0 <= i < |es|
      reads this
    {
      && -1 <= pos < i
      && (forall j :: pos < j < i ==> es[j].num > sequence)
      && (pos >= 0 ==> es[pos].num <= sequence && es[pos].key < es[i].key)
    }

    method CurrentKey() returns (k: Key)
      requires Valid() && valid
      ensures k == es[at].key
    {
      k := if direction == Forward then es[pos].key else savedKey.value;
    }

    method CurrentValue() returns (v: Value)
      requires Valid() && valid
      ensures Some(v) == es[at].val
    {
      v := if direction == Forward then es[pos].val.value else savedValue;
    }

    // ------------------------------------------------------------- forward

    /** What the skipping state of FindNextUserEntry knows when it looks for
        the first shown entry from `lo` on and has come to index p. */
    ghost predicate Skips(p: int, lo: int, skipping: bool, skip: Option<Key>) {
      && 0 <= p <= |es| && 0 <= lo && (skipping ==> skip.Some?)
      && (forall j :: lo <= j < p ==> !Shown(es, sequence, j))
      && (forall j :: p <= j < lo && j < |es| ==>
            skipping && es[j].key <= skip.value && (es[j].num <= sequence ==> es[j].val.Some?))
      && (skipping ==> forall j :: lo <= j < |es| && es[j].key <= skip.value ==> !Shown(es, sequence, j))
      && (forall i, j :: 0 <= i < p <= j < |es| && lo <= j && es[i].num <= sequence && es[i].key == es[j].key ==>
            skipping && es[j].key <= skip.value)
    }

    method FindNextUserEntry(skipping0: bool, skip0: Option<Key>, ghost lo: int)
      requires Sorted(es) && 0 <= pos < |es| && lo <= |es| && direction == Forward
      requires Skips(pos, lo, skipping0, skip0)
      modifies this
      ensures Valid() && direction == Forward && FirstFrom(es, sequence, lo, at)
    {
      hide Skips, Shown;
      var skipping, skip := skipping0, skip0;
      SkipsHasKey(pos, lo, skipping, skip);
      while true
        invariant 0 <= pos < |es| && direction == Forward && (skipping ==> skip.Some?) && Skips(pos, lo, skipping, skip)
        decreases |es| - pos
      {
        var e := es[pos];
        if e.num <= sequence {
          if e.val.None? {
            DeletionSkips(pos, lo, skipping, skip);
            skip, skipping := Some(e.key), true;
          } else if skipping && e.key <= skip.value {
            // entry hidden
          } else {
            FoundShown(pos, lo, skipping, skip);
            valid, savedKey, at := true, None, pos;
            return;
          }
        }
        StepSkips(pos, lo, skipping, skip);
        pos := pos + 1;
        if pos >= |es| {
          break;
        }
      }
      NoneShown(lo, skipping, skip);
      savedKey, valid, at := None, false, |es|;
    }

    lemma {:induction false} SkipsHasKey(p: int, lo: int, skipping: bool, skip: Option<Key>)
      requires Skips(p, lo, skipping, skip)
      ensures skipping ==> skip.Some?
    {}

    lemma {:induction false} NoneShown(lo: int, skipping: bool, skip: Option<Key>)
      requires Skips(|es|, lo, skipping, skip) && lo <= |es|
      ensures FirstFrom(es, sequence, lo, |es|)
    {}

    /** A visible deletion marker hides what is left of its key. */
    lemma {:induction false} DeletionSkips(p: int, lo: int, skipping: bool, skip: Option<Key>)
      requires Sorted(es) && Skips(p, lo, skipping, skip) && p < |es| && es[p].num <= sequence && es[p].val.None?
      ensures Skips(p, lo, true, Some(es[p].key))
    {
      assert lo <= p;
      forall j | lo <= j < |es| && es[j].key <= es[p].key ensures !Shown(es, sequence, j) {
        if p < j { assert Before(es[p], es[j]); }
      }
      forall i, j | 0 <= i < p <= j < |es| && es[i].num <= sequence && es[i].key == es[j].key
          ensures es[j].key <= es[p].key {
        assert Before(es[i], es[p]);
      }
    }

    lemma {:induction false} StepSkips(p: int, lo: int, skipping: bool, skip: Option<Key>)
      requires Sorted(es) && Skips(p, lo, skipping, skip) && p < |es|
      requires es[p].num <= sequence ==> skipping && es[p].key <= skip.value
      ensures Skips(p + 1, lo, skipping, skip)
    {}

    lemma {:induction false} FoundShown(p: int, lo: int, skipping: bool, skip: Option<Key>)
      requires Sorted(es) && Skips(p, lo, skipping, skip) && p < |es|
      requires es[p].num <= sequence && es[p].val.Some? && !(skipping && es[p].key <= skip.value)
      ensures FirstFrom(es, sequence, lo, p)
    {
      assert lo <= p;
    }

    method SeekToFirst()
      requires Valid()
      modifies this
      ensures Valid() && direction == Forward && FirstFrom(es, sequence, 0, at)
    {
      direction, savedValue := Forward, [];
      pos := 0;
      if pos < |es| {
        FindNextUserEntry(false, savedKey, 0);
      } else {
        valid, at := false, |es|;
      }
    }

    /** The inner iterator's Seek to the internal key (target, sequence). */
    method SeekInner(target: Key)
      requires Sorted(es)
      modifies this`pos
      ensures 0 <= pos <= |es|
      ensures forall j :: 0 <= j < pos ==> Before(es[j], Entry(target, sequence, None))
      ensures forall j :: pos <= j < |es| ==> !Before(es[j], Entry(target, sequence, None))
    {
      pos := 0;
      while pos < |es| && Before(es[pos], Entry(target, sequence, None))
        invariant 0 <= pos <= |es|
        invariant forall j :: 0 <= j < pos ==> Before(es[j], Entry(target, sequence, None))
      {
        pos := pos + 1;
      }
      forall j | pos < j < |es| ensures !Before(es[j], Entry(target, sequence, None)) {
        assert Before(es[pos], es[j]);
      }
    }

    method Seek(target: Key)
      requires Valid()
      modifies this
      ensures Valid() && direction == Forward
      ensures 0 <= at <= |es| && (valid ==> es[at].key >= target)
      ensures forall j :: 0 <= j < at && es[j].key >= target ==> !Shown(es, sequence, j)
    {
      direction, savedValue, savedKey := Forward, [], None;
      SeekInner(target);
      ghost var lo := pos;
      if pos < |es| {
        FindNextUserEntry(false, savedKey, pos);
      } else {
        valid, at := false, |es|;
      }
      forall j | 0 <= j < at && es[j].key >= target ensures !Shown(es, sequence, j) {
        assert j < lo ==> Before(es[j], Entry(target, sequence, None));
      }
    }

    /** Next finds the exact successor, except when it turns round and the key
        just before the current one has no visible entry: then it shows the
        current entry again. */
    method Next()
      requires Valid() && valid
      modifies this
      ensures Valid() && direction == Forward
      ensures old(direction == Forward || PrecedingKeySeen(es, sequence, at)) ==>
              FirstFrom(es, sequence, old(at) + 1, at)
      ensures old(direction == Reverse && !PrecedingKeySeen(es, sequence, at)) ==> at == old(at)
    {
      hide Skips, PrecedingKeySeen;
      ghost var lo := at + 1;
      if direction == Reverse {
        direction := Forward;
        TurnForward();
        if es[pos + 1].key != es[at].key { lo := pos + 1; }
        pos := pos + 1;
      }
      savedKey := Some(es[pos].key);
      assert Skips(pos, lo, true, savedKey) by { StartSkips(pos, lo, at); }
      FindNextUserEntry(true, savedKey, lo);
    }

    /** The entry after the parking position has the current key exactly when
        the preceding key is visible. */
    lemma {:induction false} TurnForward()
      requires Sorted(es) && 0 <= at < |es| && Shown(es, sequence, at) && ParkedBefore(at)
      ensures PrecedingKeySeen(es, sequence, at) <==> es[pos + 1].key == es[at].key
      ensures es[pos + 1].key <= es[at].key
    {
      assert pos + 1 < at ==> Before(es[pos + 1], es[at]);
      if es[pos + 1].key == es[at].key {
        forall j | Precedes(es, j, at) ensures Seen(es, sequence, es[j].key) {
          assert j == pos;
        }
      } else {
        var j := LastSmaller(pos + 1, at);
        forall m | 0 <= m < |es| && es[m].key == es[j].key ensures es[m].num > sequence {
          assert pos < m < at;
        }
      }
    }

    lemma {:induction false} LastSmaller(i: int, a: int) returns (j: int)
      requires Sorted(es) && 0 <= i < a < |es| && es[i].key < es[a].key
      ensures i <= j && Precedes(es, j, a)
    {
      j := a - 1;
      while es[j].key == es[a].key
        invariant i <= j < a
        invariant forall m :: j < m < a ==> es[m].key == es[a].key
        decreases j
      {
        j := j - 1;
      }
      assert Before(es[j], es[a]);
    }

    lemma {:induction false} StartSkips(p: int, lo: int, a: int)
      requires Sorted(es) && 0 <= p <= a < |es| && Shown(es, sequence, a)
      requires forall j :: p <= j < a ==> es[j].num > sequence
      requires if es[p].key == es[a].key then lo == a + 1
               else lo == p && forall i :: 0 <= i < |es| && es[i].key == es[p].key ==> es[i].num > sequence
      ensures Skips(p, lo, true, Some(es[p].key))
    {
    }

    // ------------------------------------------------------------- reverse

    /** What FindPrevUserEntry has gathered when everything from p + 1 up to
        `hi` is behind it: m is the foremost visible entry there, or hi. */
    ghost predicate Gathered(p: int, hi: int, m: int) {
      && -1 <= p < m <= hi <= |es|
      && (forall j :: p < j < m ==> es[j].num > sequence)
      && (forall j :: m < j < hi ==> !Shown(es, sequence, j))
      && (m < hi ==> es[m].num <= sequence)
    }

    /** Passing over the next visible entry: the one gathered before is hidden
        by it, or was a deletion. */
    lemma {:induction false} GatherVisible(p: int, hi: int, m: int)
      requires Sorted(es) && Gathered(p, hi, m) && 0 <= p && es[p].num <= sequence
      requires m < hi && es[m].val.Some? ==> es[p].key >= es[m].key
      ensures Gathered(p - 1, hi, p)
    {
      if m < hi { assert Before(es[p], es[m]); }
    }

    lemma {:induction false} GatheredIsShown(p: int, hi: int, m: int)
      requires Sorted(es) && Gathered(p, hi, m) && m < hi && es[m].val.Some?
      requires p >= 0 ==> es[p].num <= sequence && es[p].key < es[m].key
      ensures LastBefore(es, sequence, hi, m)
    {
      forall j | 0 <= j < m && es[j].key == es[m].key ensures es[j].num > sequence {
        assert p < j;
      }
    }

    lemma {:induction false} GatheredNothing(hi: int, m: int)
      requires Gathered(-1, hi, m) && (m < hi ==> es[m].val.None?)
      ensures LastBefore(es, sequence, hi, -1)
    {}

    method FindPrevUserEntry(ghost hi: int)
      requires Sorted(es) && -1 <= pos < |es| && hi == pos + 1 && direction == Reverse
      modifies this
      ensures Valid() && LastBefore(es, sequence, hi, at) && (valid ==> direction == Reverse)
    {
      var isDeletion := true;
      ghost var m := hi;
      while pos >= 0
        invariant Gathered(pos, hi, m) && direction == Reverse
        invariant isDeletion <==> (m == hi || es[m].val.None?)
        invariant !isDeletion ==> savedKey == Some(es[m].key) && Some(savedValue) == es[m].val
        decreases pos
      {
        var e := es[pos];
        if e.num <= sequence {
          if !isDeletion && e.key < savedKey.value {
            break;
          }
          GatherVisible(pos, hi, m);
          m := pos;
          isDeletion := e.val.None?;
          if isDeletion {
            savedKey, savedValue := None, [];
          } else {
            savedKey, savedValue := Some(e.key), e.val.value;
          }
        }
        pos := pos - 1;
      }
      if isDeletion {
        GatheredNothing(hi, m);
        valid, savedKey, savedValue, direction, at := false, None, [], Forward, -1;
      } else {
        GatheredIsShown(pos, hi, m);
        valid, at := true, m;
      }
    }

    method SeekToLast()
      requires Valid()
      modifies this
      ensures Valid() && LastBefore(es, sequence, |es|, at) && (valid ==> direction == Reverse)
    {
      direction, savedValue := Reverse, [];
      pos := |es| - 1;
      FindPrevUserEntry(|es|);
    }

    /** Prev finds the exact predecessor, whichever way the iterator was going. */
    method Prev()
      requires Valid() && valid
      modifies this
      ensures Valid() && LastBefore(es, sequence, old(at), at) && (valid ==> direction == Reverse)
    {
      ghost var here := at;
      if direction == Forward {
        savedKey := Some(es[pos].key);
        while true
          invariant 0 <= pos <= here && savedKey == Some(es[here].key) && valid && at == here
          invariant forall j :: pos <= j < here ==> es[j].key == es[here].key
          decreases pos
        {
          pos := pos - 1;
          if pos < 0 {
            valid, savedKey, savedValue, at := false, None, [], -1;
            return;
          }
          if es[pos].key < savedKey.value {
            break;
          }
          assert Before(es[pos], es[here]);
        }
        direction := Reverse;
      }
      FindPrevUserEntry(pos + 1);
    }
  }

  // ---------------------------------------------------------- whole scans

  lemma {:induction false} LiveSkip(es: seq<Entry>, s: nat, lo: nat, at: nat)
    requires FirstFrom(es, s, lo, at)
    ensures Live(es, s, lo) == Live(es, s, at)
    decreases at - lo
  {
    if lo < at { LiveSkip(es, s, lo + 1, at); }
  }

  /** A full forward scan returns the snapshot's pairs in ascending order. */
  method ScanForward(es: seq<Entry>, s: nat) returns (pairs: seq<(Key, Value)>)
    requires Sorted(es)
    ensures pairs == Live(es, s, 0)
  {
    hide Shown;
    var it := new DBIter(es, s);
    it.SeekToFirst();
    pairs := [];
    LiveSkip(es, s, 0, it.at);
    while it.valid
      invariant it.Valid() && it.es == es && it.sequence == s && fresh(it) && it.direction == Forward && it.at >= 0
      invariant pairs + Live(es, s, it.at) == Live(es, s, 0)
      decreases |es| - it.at
    {
      ghost var at := it.at;
      var k := it.CurrentKey();
      var v := it.CurrentValue();
      pairs := pairs + [(k, v)];
      it.Next();
      LiveSkip(es, s, at + 1, it.at);
      assert Live(es, s, at) == [(k, v)] + Live(es, s, at + 1);
    }
  }

  /** The pairs shown before index hi, last first. */
  ghost function LiveDown(es: seq<Entry>, s: nat, hi: nat): seq<(Key, Value)>
    requires hi <= |es|
  {
    if hi == 0 then []
    else if Shown(es, s, hi - 1) then [(es[hi - 1].key, es[hi - 1].val.value)] + LiveDown(es, s, hi - 1)
    else LiveDown(es, s, hi - 1)
  }

  lemma {:induction false} LiveDownSkip(es: seq<Entry>, s: nat, hi: nat, at: int)
    requires hi <= |es| && LastBefore(es, s, hi, at)
    ensures LiveDown(es, s, hi) == LiveDown(es, s, at + 1)
  {
    if at + 1 < hi { LiveDownSkip(es, s, hi - 1, at); }
  }

  /** A full backward scan, SeekToLast and then Prev. */
  method ScanBackward(es: seq<Entry>, s: nat) returns (pairs: seq<(Key, Value)>)
    requires Sorted(es)
    ensures pairs == LiveDown(es, s, |es|)
  {
    hide Shown;
    var it := new DBIter(es, s);
    it.SeekToLast();
    pairs := [];
    LiveDownSkip(es, s, |es|, it.at);
    while it.valid
      invariant it.Valid() && it.es == es && it.sequence == s && fresh(it) && it.at < |es|
      invariant pairs + LiveDown(es, s, it.at + 1) == LiveDown(es, s, |es|)
      decreases it.at + 1
    {
      ghost var at := it.at;
      var k := it.CurrentKey();
      var v := it.CurrentValue();
      pairs := pairs + [(k, v)];
      it.Prev();
      LiveDownSkip(es, s, at, it.at);
      assert LiveDown(es, s, at + 1) == [(k, v)] + LiveDown(es, s, at);
    }
  }

  ghost function Reversed(ps: seq<(Key, Value)>): seq<(Key, Value)> {
    if ps == [] then [] else Reversed(ps[1..]) + [ps[0]]
  }

  /** Going backward shows the forward pairs in reverse. */
  lemma {:induction false} BackwardIsReverse(es: seq<Entry>, s: nat)
    ensures LiveDown(es, s, |es|) == Reversed(Live(es, s, 0))
  {
    MeetInMiddle(es, s, 0);
  }

  lemma {:induction false} MeetInMiddle(es: seq<Entry>, s: nat, lo: nat)
    requires lo <= |es|
    ensures LiveDown(es, s, |es|) == Reversed(Live(es, s, lo)) + LiveDown(es, s, lo)
    decreases |es| - lo
  {
    if lo < |es| { MeetInMiddle(es, s, lo + 1); }
  }

  /** Turning round next to a key that only has newer entries repeats the current key. */
  method TurningRepeatsKey() returns (before: Key, after: Key)
    ensures before == 2 && after == 2
  {
    var es := [Entry(1, 9, Some([])), Entry(2, 5, Some([])), Entry(3, 5, Some([]))];
    var it := new DBIter(es, 5);
    it.SeekToLast();
    assert Shown(es, 5, 2) && Shown(es, 5, 1);
    it.Prev();
    before := it.CurrentKey();
    assert Precedes(es, 0, 1) && !Seen(es, 5, 1);
    it.Next();
    after := it.CurrentKey();
  }
}
