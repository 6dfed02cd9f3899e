/** The hash table of lib/kernel/hash.c. */
module Hash {
  import opened Common
  import opened Bits
  import opened HashSpec

  /** C is the largest power of two not above the larger of 4 and N / 2. */
  ghost predicate BestCount(c: nat, n: nat) {
    Power2(c) && c <= (if n / 2 < 4 then 4 else n / 2) < 2 * c
  }

  /** There is exactly one best number of buckets. */
  lemma BestCountExists(n: nat) returns (c: nat)
    ensures BestCount(c, n) && forall d :: BestCount(d, n) ==> d == c
  {
    var m := if n / 2 < 4 then 4 else n / 2;
    c := PowerBelow(m);
    forall d | BestCount(d, n) ensures d == c {
      PowerUnique(m, c, d);
    }
  }

  lemma BestAtLeastFour(c: nat, n: nat)
    requires BestCount(c, n)
    ensures c >= 4
  {
    assert !Power2(3);
  }

  lemma BestForNone(c: nat)
    ensures BestCount(c, 0) <==> c == 4
  {
    assert Power2(2) && Power2(4);
    if BestCount(c, 0) {
      PowerUnique(4, c, 4);
    }
  }

  /** During rehash: FROM and TO together hold TOTAL, and share nothing. */
  ghost predicate Moving(k: Keying, from: Buckets, to: Buckets, total: set<Elem>) {
    && |from| > 0 && |to| > 0 && Placed(k, from) && Placed(k, to)
    && Contents(from) !! Contents(to) && Contents(from) + Contents(to) == total
  }

  /** One turn of rehash's inner loop. */
  lemma MoveOne(k: Keying, from: Buckets, to: Buckets, i: nat, total: set<Elem>)
    requires i < |from| && from[i] != [] && Moving(k, from, to, total)
    ensures var e := from[i][0]; var s := Slot(k, e, |to|);
            Moving(k, from[i := from[i][1..]], to[s := [e] + to[s]], total)
  {
    var e := from[i][0];
    UnlinkAt(k, from, i, 0);
    assert Without(from[i], 0) == from[i][1..];
    PushFront(k, to, Slot(k, e, |to|), e);
  }

  class HashTable {
    const key: Keying
    var buckets: Buckets
    var bucketCnt: nat
    var elemCnt: nat

    /** The buckets are a table of pairwise different elements. */
    ghost predicate Valid()
      reads this
    {
      && bucketCnt == |buckets| && Power2(bucketCnt) && bucketCnt >= 4
      && Placed(key, buckets) && OnePerClass(key, Contents(buckets))
      && elemCnt == |Contents(buckets)|
    }

    /** hash_init, when its allocation succeeds. */
    constructor (k: Keying)
      ensures Valid() && key == k && Contents(buckets) == {} && BestCount(bucketCnt, elemCnt)
    {
      key := k;
      elemCnt, bucketCnt := 0, 4;
      buckets := [[], [], [], []];
      new;
      EmptyBuckets(key, buckets);
      assert Power2(2) && Power2(4);
    }

    /** find_bucket. */
    method FindBucket(e: Elem) returns (i: nat)
      requires bucketCnt == |buckets| > 0 && Power2(bucketCnt)
      ensures i == Slot(key, e, |buckets|)
    {
      i := And(key.hash(e), bucketCnt - 1);
      MaskIsMod(key.hash(e), bucketCnt);
    }

    /** find_elem, which also tells where in the bucket the element is. */
    method FindElem(i: nat, e: Elem) returns (found: Option<Elem>, p: nat)
      requires i < |buckets|
      ensures found.Some? ==> p < |buckets[i]| && buckets[i][p] == found.value && Same(key, found.value, e)
      ensures found.None? ==> forall x :: x in buckets[i] ==> !Same(key, x, e)
    {
      p := 0;
      while p < |buckets[i]|
        invariant p <= |buckets[i]| && forall x :: x in buckets[i][..p] ==> !Same(key, x, e)
      {
        var hi := buckets[i][p];
        if !key.less(hi, e) && !key.less(e, hi) {
          return Some(hi), p;
        }
        assert buckets[i][..p + 1] == buckets[i][..p] + [hi];
        p := p + 1;
      }
      assert buckets[i][..p] == buckets[i];
      found := None;
    }

    /** find_bucket and find_elem. */
    method Search(e: Elem) returns (i: nat, found: Option<Elem>, p: nat)
      requires Valid() && Compatible(key)
      ensures i == Slot(key, e, |buckets|) && Match(key, Contents(buckets), e, found)
      ensures found.Some? ==> p < |buckets[i]| && buckets[i][p] == found.value
    {
      i := FindBucket(e);
      found, p := FindElem(i, e);
      MatchInBucket(key, buckets, e, found);
    }

    /** hash_find. */
    method Find(e: Elem) returns (found: Option<Elem>)
      requires Valid() && Compatible(key)
      ensures Match(key, Contents(buckets), e, found)
    {
      var i, p;
      i, found, p := Search(e);
    }

    /** insert_elem. */
    method InsertElem(i: nat, e: Elem)
      requires Valid() && i == Slot(key, e, |buckets|)
      requires Match(key, Contents(buckets), e, None) && Same(key, e, e)
      modifies this`buckets, this`elemCnt
      ensures Valid() && Contents(buckets) == old(Contents(buckets)) + {e}
    {
      PushNew(key, buckets, i, e);
      elemCnt := elemCnt + 1;
      buckets := buckets[i := [e] + buckets[i]];
    }

    /** remove_elem. */
    method RemoveElem(i: nat, p: nat)
      requires Valid() && i < |buckets| && p < |buckets[i]|
      modifies this`buckets, this`elemCnt
      ensures Valid() && Contents(buckets) == old(Contents(buckets)) - {old(buckets)[i][p]}
    {
      UnlinkAt(key, buckets, i, p);
      elemCnt := elemCnt - 1;
      buckets := buckets[i := Without(buckets[i], p)];
    }

    /** remove_elem of the element that is the same as E. */
    method RemoveMatch(i: nat, p: nat, e: Elem)
      requires Valid() && Compatible(key) && i < |buckets| && p < |buckets[i]| && Same(key, buckets[i][p], e)
      modifies this`buckets, this`elemCnt
      ensures Valid() && |buckets| == old(|buckets|)
      ensures Contents(buckets) == old(Contents(buckets)) - {old(buckets)[i][p]}
      ensures Match(key, Contents(buckets), e, None)
    {
      assert buckets[i][p] in buckets[i];
      OnlyMatch(key, Contents(buckets), e, buckets[i][p]);
      RemoveElem(i, p);
    }

    /** The bucket count rehash aims for. */
    method IdealCount() returns (c: nat)
      ensures BestCount(c, elemCnt)
    {
      c := elemCnt / 2;
      if c < 4 {
        c := 4;
      }
      ghost var m := c;
      ghost var top := PowerBelow(m);
      while !(c != 0 && And(c, c - 1) == 0)
        invariant top <= c <= m
        decreases c
      {
        PowerOfTwoTest(c);
        TurnOffKeepsTop(c, top);
        c := And(c, c - 1);
      }
      PowerOfTwoTest(c);
      PowerUnique(c, c, top);
    }

    /** rehash: the elements of old bucket I move, each to the front of its new
        bucket. */
    method MoveBucket(from: Buckets, i: nat, ghost total: set<Elem>) returns (rest: Buckets)
      requires bucketCnt == |buckets| > 0 && Power2(bucketCnt) && i < |from| && Moving(key, from, buckets, total)
      modifies this`buckets
      ensures |buckets| == old(|buckets|) && rest == from[i := []] && Moving(key, rest, buckets, total)
    {
      rest := from;
      while rest[i] != []
        invariant |buckets| == old(|buckets|) && |rest| == |from| && rest == from[i := rest[i]]
        invariant Moving(key, rest, buckets, total)
        decreases |rest[i]|
      {
        var e := rest[i][0];
        var idx := FindBucket(e);
        MoveOne(key, rest, buckets, i, total);
        rest := rest[i := rest[i][1..]];
        buckets := buckets[idx := [e] + buckets[idx]];
      }
    }

    /** rehash; ALLOC says whether its allocation succeeds. */
    method Rehash(alloc: bool)
      requires Valid()
      modifies this`buckets, this`bucketCnt
      ensures Valid() && Contents(buckets) == old(Contents(buckets))
      ensures alloc ==> BestCount(bucketCnt, elemCnt)
      ensures !alloc ==> bucketCnt == old(bucketCnt)
    {
      var c := IdealCount();
      if c == bucketCnt || !alloc {
        return;
      }
      BestAtLeastFour(c, elemCnt);
      ghost var total := Contents(buckets);
      var from := buckets;
      buckets := seq(c, _ => []);
      bucketCnt := c;
      EmptyBuckets(key, buckets);
      MoveAll(from, total);
    }

    /** rehash: the loop over the old buckets. */
    method MoveAll(from: Buckets, ghost total: set<Elem>)
      requires bucketCnt == |buckets| > 0 && Power2(bucketCnt) && |from| > 0 && Moving(key, from, buckets, total)
      modifies this`buckets
      ensures |buckets| == old(|buckets|) && Placed(key, buckets) && Contents(buckets) == total
    {
      var rest := from;
      var i := 0;
      while i < |from|
        invariant i <= |from| == |rest| && |buckets| == old(|buckets|)
        invariant Moving(key, rest, buckets, total) && forall j :: 0 <= j < i ==> rest[j] == []
      {
        rest := MoveBucket(rest, i, total);
        i := i + 1;
      }
      EmptyBuckets(key, rest);
    }

    /** hash_insert. */
    method Insert(e: Elem, alloc: bool) returns (found: Option<Elem>)
      requires Valid() && Compatible(key)
      modifies this`buckets, this`bucketCnt, this`elemCnt
      ensures Valid() && Match(key, old(Contents(buckets)), e, found)
      ensures Contents(buckets) == if found.None? then old(Contents(buckets)) + {e} else old(Contents(buckets))
      ensures alloc ==> BestCount(bucketCnt, elemCnt)
    {
      var i, p;
      i, found, p := Search(e);
      if found.None? {
        InsertElem(i, e);
      }
      Rehash(alloc);
    }

    /** hash_replace. */
    method Replace(e: Elem, alloc: bool) returns (found: Option<Elem>)
      requires Valid() && Compatible(key)
      modifies this`buckets, this`bucketCnt, this`elemCnt
      ensures Valid() && Match(key, old(Contents(buckets)), e, found)
      ensures Contents(buckets) == old(Contents(buckets)) - (if found.Some? then {found.value} else {}) + {e}
      ensures alloc ==> BestCount(bucketCnt, elemCnt)
    {
      var i, p;
      i, found, p := Search(e);
      if found.Some? {
        RemoveMatch(i, p, e);
      }
      AddAndRehash(i, e, alloc);
    }

    /** The end of hash_replace. */
    method AddAndRehash(i: nat, e: Elem, alloc: bool)
      requires Valid() && i == Slot(key, e, |buckets|) && Match(key, Contents(buckets), e, None) && Same(key, e, e)
      modifies this`buckets, this`bucketCnt, this`elemCnt
      ensures Valid() && Contents(buckets) == old(Contents(buckets)) + {e} && (alloc ==> BestCount(bucketCnt, elemCnt))
    {
      InsertElem(i, e);
      Rehash(alloc);
    }

    /** hash_delete. */
    method Delete(e: Elem, alloc: bool) returns (found: Option<Elem>)
      requires Valid() && Compatible(key)
      modifies this`buckets, this`bucketCnt, this`elemCnt
      ensures Valid() && Match(key, old(Contents(buckets)), e, found)
      ensures Contents(buckets) == old(Contents(buckets)) - if found.Some? then {found.value} else {}
      ensures alloc && old(BestCount(bucketCnt, elemCnt)) ==> BestCount(bucketCnt, elemCnt)
    {
      var i, p;
      i, found, p := Search(e);
      if found.Some? {
        RemoveElem(i, p);
        Rehash(alloc);
      }
    }

    /** hash_clear: empties bucket I. */
    method ClearBucket(i: nat, gone: seq<Elem>, ghost was: set<Elem>) returns (more: seq<Elem>)
      requires i < |buckets| && Clearing(key, buckets, gone, was)
      modifies this`buckets
      ensures buckets == old(buckets)[i := []] && Clearing(key, buckets, more, was)
    {
      more := gone;
      while buckets[i] != []
        invariant |buckets| == |old(buckets)| && buckets == old(buckets)[i := buckets[i]]
        invariant Clearing(key, buckets, more, was)
        decreases |buckets[i]|
      {
        ClearOne(key, buckets, i, more, was);
        SetAgain(old(buckets), i, buckets[i], buckets[i][1..]);
        more := more + [buckets[i][0]];
        buckets := buckets[i := buckets[i][1..]];
      }
    }

    /** hash_clear: GONE are the elements the destructor is called on, in order.
        The number of buckets stays, so it is the best one only if it was four. */
    method Clear() returns (gone: seq<Elem>)
      requires Valid()
      modifies this`buckets, this`elemCnt
      ensures Valid() && Contents(buckets) == {}
      ensures Listed(gone, old(Contents(buckets)))
      ensures BestCount(bucketCnt, elemCnt) <==> bucketCnt == 4
    {
      BestForNone(bucketCnt);
      ClearStart(key, buckets);
      gone := ClearAll(Contents(buckets));
      elemCnt := 0;
      assert OnePerClass(key, {});
    }

    /** hash_clear: the loop over the buckets. */
    method ClearAll(ghost was: set<Elem>) returns (gone: seq<Elem>)
      requires bucketCnt == |buckets| && Clearing(key, buckets, [], was)
      modifies this`buckets
      ensures |buckets| == bucketCnt > 0 && Placed(key, buckets) && Contents(buckets) == {} && Listed(gone, was)
    {
      gone := [];
      var i := 0;
      while i < bucketCnt
        invariant 0 <= i <= bucketCnt == |buckets| && Clearing(key, buckets, gone, was)
        invariant forall j :: 0 <= j < i ==> buckets[j] == []
      {
        gone := ClearBucket(i, gone, was);
        i := i + 1;
      }
      ClearDone(key, buckets, gone, was);
    }
  }

  /** An iterator: the element at position POS of bucket BUCKET, the list head
      when POS is -1, or null. */
  class HashIterator {
    const table: HashTable
    var bucket: nat
    var pos: int
    var atEnd: bool

    ghost predicate Valid()
      reads this, table
    {
      table.Valid() && (!atEnd ==> bucket < |table.buckets| && -1 <= pos < |table.buckets[bucket]|)
    }

    /** The elements returned so far. */
    ghost function Seen(): set<Elem>
      requires Valid()
      reads this, table
    {
      if atEnd then Contents(table.buckets) else Visited(table.buckets, bucket, pos)
    }

    /** hash_first. */
    constructor (t: HashTable)
      requires t.Valid()
      ensures Valid() && table == t && !atEnd && Seen() == {}
    {
      table, bucket, pos, atEnd := t, 0, -1, false;
    }

    /** hash_next: an element not returned before, or null when there is none. */
    method Next() returns (e: Option<Elem>)
      requires Valid() && !atEnd
      modifies this
      ensures Valid() && (e.None? <==> atEnd)
      ensures match e
              case Some(x) => x in Contents(table.buckets) && x !in old(Seen()) && Seen() == old(Seen()) + {x}
              case None => old(Seen()) == Contents(table.buckets)
    {
      var b := table.buckets;
      pos := pos + 1;
      while pos == |b[bucket]|
        invariant bucket < |b| && 0 <= pos <= |b[bucket]| && !atEnd
        invariant Visited(b, bucket, pos - 1) == old(Seen())
        decreases |b| - bucket
      {
        VisitBucket(b, bucket);
        bucket := bucket + 1;
        if bucket >= table.bucketCnt {
          assert b[..bucket] == b;
          atEnd := true;
          return None;
        }
        pos := 0;
      }
      VisitNext(table.key, b, bucket, pos - 1);
      e := Some(b[bucket][pos]);
    }
  }

  /** OUT lists the elements of S, once each. */
  ghost predicate Listed(out: seq<Elem>, s: set<Elem>) {
    NoDup(out) && (forall e :: e in out <==> e in s) && |out| == |s|
  }

  lemma ListedNext(out: seq<Elem>, s: set<Elem>, e: Elem)
    requires Listed(out, s) && e !in s
    ensures Listed(out + [e], s + {e})
  {
    NoDupPush(out, e);
  }

  /** During hash_clear: GONE lists what has left the buckets. */
  ghost predicate Clearing(k: Keying, b: Buckets, gone: seq<Elem>, was: set<Elem>) {
    |b| > 0 && Placed(k, b) && Contents(b) <= was && Listed(gone, was - Contents(b))
  }

  lemma SetAgain(b: Buckets, i: nat, s: seq<Elem>, t: seq<Elem>)
    requires i < |b|
    ensures b[i := s][i := t] == b[i := t]
  {
  }

  lemma ClearOne(k: Keying, b: Buckets, i: nat, gone: seq<Elem>, was: set<Elem>)
    requires i < |b| && b[i] != [] && Clearing(k, b, gone, was)
    ensures Clearing(k, b[i := b[i][1..]], gone + [b[i][0]], was)
  {
    var e, now := b[i][0], Contents(b);
    UnlinkAt(k, b, i, 0);
    assert Without(b[i], 0) == b[i][1..];
    ListedNext(gone, was - now, e);
    assert was - (now - {e}) == was - now + {e};
  }

  lemma ClearStart(k: Keying, b: Buckets)
    requires |b| > 0 && Placed(k, b)
    ensures Clearing(k, b, [], Contents(b))
  {
    assert Contents(b) - Contents(b) == {};
  }

  lemma ClearDone(k: Keying, b: Buckets, gone: seq<Elem>, was: set<Elem>)
    requires Clearing(k, b, gone, was) && forall i :: 0 <= i < |b| ==> b[i] == []
    ensures Contents(b) == {} && Listed(gone, was)
  {
    EmptyBuckets(k, b);
    assert was - {} == was;
  }

  lemma OnlyMatch(k: Keying, s: set<Elem>, e: Elem, x: Elem)
    requires Compatible(k) && OnePerClass(k, s) && x in s && Same(k, x, e)
    ensures Match(k, s - {x}, e, None)
  {
    forall y | y in s - {x} ensures !Same(k, y, e) {
      assert Same(k, y, e) ==> Same(k, e, x) && Same(k, y, x);
    }
  }

  /** The iteration idiom: on an unmodified table, every element comes exactly
      once, and null follows after elem_cnt elements. */
  method Iterate(t: HashTable) returns (out: seq<Elem>)
    requires t.Valid()
    ensures Listed(out, Contents(t.buckets)) && |out| == t.elemCnt
  {
    var it := new HashIterator(t);
    ghost var all := Contents(t.buckets);
    out := [];
    var e := it.Next();
    ghost var seen: set<Elem> := {};
    while e.Some?
      invariant it.Valid() && it.table == t && fresh(it) && (e.None? <==> it.atEnd)
      invariant Listed(out, seen) && seen <= all
      invariant match e
                case Some(x) => x !in seen && x in all && it.Seen() == seen + {x}
                case None => seen == all
      decreases |all| - |seen|
    {
      ListedNext(out, seen, e.value);
      out := out + [e.value];
      seen := seen + {e.value};
      SubsetSize(seen, all);
      e := it.Next();
    }
  }
}
