/** What a hash table holds, and when its buckets are in order. */
module HashSpec {
  import opened Common

  /** Elements are known by their address. */
  type Elem = nat
  type Buckets = seq<seq<Elem>>

  /** The client's hash_hash_func and hash_less_func. */
  datatype Keying = Keying(hash: Elem -> nat, less: (Elem, Elem) -> bool)

  /** Neither element is less than the other. */
  predicate Same(k: Keying, a: Elem, b: Elem) {
    !k.less(a, b) && !k.less(b, a)
  }

  /** What the client's functions must satisfy: being the same is an equivalence
      and the hash respects it. */
  ghost predicate Compatible(k: Keying) {
    && (forall a :: Same(k, a, a))
    && (forall a, b, c :: Same(k, a, b) && Same(k, b, c) ==> Same(k, a, c))
    && (forall a, b :: Same(k, a, b) ==> k.hash(a) == k.hash(b))
  }

  /** The elements in the table. */
  ghost function Contents(b: Buckets): set<Elem> {
    set i, e | 0 <= i < |b| && e in b[i] :: e
  }

  /** No two elements are the same: the table is a partial map from classes of
      the same elements to elements. */
  ghost predicate OnePerClass(k: Keying, s: set<Elem>) {
    forall x, y :: x in s && y in s && Same(k, x, y) ==> x == y
  }

  /** The bucket an element belongs in, of N buckets. */
  function Slot(k: Keying, e: Elem, n: nat): (i: nat)
    requires n > 0
    ensures i < n
  {
    k.hash(e) % n
  }

  /** Every element is in the bucket its hash selects, once. */
  ghost predicate Placed(k: Keying, b: Buckets)
    requires |b| > 0
  {
    forall i :: 0 <= i < |b| ==> NoDup(b[i]) && forall e :: e in b[i] ==> Slot(k, e, |b|) == i
  }

  /** The element the same as E in set S, if any. */
  ghost predicate Match(k: Keying, s: set<Elem>, e: Elem, r: Option<Elem>) {
    match r
    case Some(x) => x in s && Same(k, x, e)
    case None => forall x :: x in s ==> !Same(k, x, e)
  }

  /** There is only one answer to a lookup. */
  lemma MatchUnique(k: Keying, s: set<Elem>, e: Elem, r: Option<Elem>, r': Option<Elem>)
    requires Compatible(k) && OnePerClass(k, s) && Match(k, s, e, r) && Match(k, s, e, r')
    ensures r == r'
  {
    if r.Some? && r'.Some? {
      assert Same(k, r.value, e) && Same(k, e, r'.value);
      assert Same(k, r.value, r'.value);
    }
  }

  /** Same elements are found in the same bucket. */
  lemma MatchInBucket(k: Keying, b: Buckets, e: Elem, r: Option<Elem>)
    requires Compatible(k) && |b| > 0 && Placed(k, b)
    requires match r
             case Some(x) => x in b[Slot(k, e, |b|)] && Same(k, x, e)
             case None => forall x :: x in b[Slot(k, e, |b|)] ==> !Same(k, x, e)
    ensures Match(k, Contents(b), e, r)
  {
    if r.None? {
      forall x | x in Contents(b) ensures !Same(k, x, e) {
        var i :| 0 <= i < |b| && x in b[i];
        assert Slot(k, x, |b|) == i;
        assert Same(k, x, e) ==> k.hash(x) == k.hash(e);
      }
    }
  }

  /** list_push_front on a bucket. */
  lemma PushFront(k: Keying, b: Buckets, i: nat, e: Elem)
    requires |b| > 0 && Placed(k, b) && i == Slot(k, e, |b|) && e !in Contents(b)
    ensures var b' := b[i := [e] + b[i]];
            Placed(k, b') && Contents(b') == Contents(b) + {e} && |Contents(b')| == |Contents(b)| + 1
  {
    var b' := b[i := [e] + b[i]];
    assert e !in b[i];
    forall j | 0 <= j < |b'| ensures NoDup(b'[j]) && forall x :: x in b'[j] ==> Slot(k, x, |b'|) == j {
      assert NoDup(b[j]);
    }
    forall x ensures x in Contents(b') <==> x in Contents(b) + {e} {
      if x in Contents(b) {
        var j :| 0 <= j < |b| && x in b[j];
        assert x in b'[j];
      }
      if x == e {
        assert x in b'[i];
      }
    }
  }

  lemma PushNew(k: Keying, b: Buckets, i: nat, e: Elem)
    requires |b| > 0 && Placed(k, b) && i == Slot(k, e, |b|) && OnePerClass(k, Contents(b))
    requires Match(k, Contents(b), e, None) && Same(k, e, e)
    ensures var b' := b[i := [e] + b[i]];
            && Placed(k, b') && Contents(b') == Contents(b) + {e} && |Contents(b')| == |Contents(b)| + 1
            && OnePerClass(k, Contents(b'))
  {
    assert e !in Contents(b);
    PushFront(k, b, i, e);
  }

  /** Sequence Q without its element at P. */
  function Without(q: seq<Elem>, p: nat): seq<Elem>
    requires p < |q|
  {
    q[..p] + q[p + 1..]
  }

  lemma WithoutMembers(q: seq<Elem>, p: nat)
    requires p < |q| && NoDup(q)
    ensures NoDup(Without(q, p)) && forall x :: x in Without(q, p) <==> x in q && x != q[p]
  {
    var w := Without(q, p);
    forall x | x in q && x != q[p] ensures x in w {
      var i :| 0 <= i < |q| && q[i] == x;
      assert i < p ==> w[i] == x;
      assert i > p ==> w[i - 1] == x;
    }
  }

  /** list_remove on a bucket. */
  lemma UnlinkAt(k: Keying, b: Buckets, i: nat, p: nat)
    requires |b| > 0 && Placed(k, b) && i < |b| && p < |b[i]|
    ensures var b' := b[i := Without(b[i], p)];
            && Placed(k, b') && Contents(b') == Contents(b) - {b[i][p]}
            && b[i][p] in Contents(b) && |Contents(b')| == |Contents(b)| - 1
  {
    var b', e := b[i := Without(b[i], p)], b[i][p];
    WithoutMembers(b[i], p);
    assert e in b[i] && Slot(k, e, |b|) == i;
    forall j | 0 <= j < |b'| ensures NoDup(b'[j]) && forall x :: x in b'[j] ==> Slot(k, x, |b'|) == j {
      assert NoDup(b[j]);
    }
    forall x ensures x in Contents(b') <==> x in Contents(b) - {e} {
      if x in Contents(b) && x != e {
        var j :| 0 <= j < |b| && x in b[j];
        assert x in b'[j];
      }
      if x in Contents(b') {
        var j :| 0 <= j < |b'| && x in b'[j];
        assert x in b[j];
      }
    }
    assert Contents(b) == Contents(b') + {e};
  }

  /** Initialised buckets are in order and empty. */
  lemma EmptyBuckets(k: Keying, b: Buckets)
    requires |b| > 0 && forall i :: 0 <= i < |b| ==> b[i] == []
    ensures Placed(k, b) && Contents(b) == {}
  {
  }

  // ----- iteration order

  /** Elements up to position P (inclusive) of bucket I. */
  ghost function Visited(b: Buckets, i: nat, p: int): set<Elem>
    requires i < |b| && -1 <= p < |b[i]|
  {
    Contents(b[..i]) + set j | 0 <= j <= p :: b[i][j]
  }

  /** Stepping inside a bucket visits one new element. */
  lemma VisitNext(k: Keying, b: Buckets, i: nat, p: int)
    requires i < |b| && -1 <= p < |b[i]| - 1 && Placed(k, b)
    ensures b[i][p + 1] in Contents(b)
    ensures b[i][p + 1] !in Visited(b, i, p) && Visited(b, i, p + 1) == Visited(b, i, p) + {b[i][p + 1]}
  {
    var e := b[i][p + 1];
    assert e in b[i] && Slot(k, e, |b|) == i;
    assert forall j :: 0 <= j < i ==> b[..i][j] == b[j];
    assert NoDup(b[i]);
  }

  /** At the end of a bucket all of it has been visited. */
  lemma VisitBucket(b: Buckets, i: nat)
    requires i < |b|
    ensures Visited(b, i, |b[i]| - 1) == Contents(b[..i + 1])
  {
    var seen, all := Visited(b, i, |b[i]| - 1), Contents(b[..i + 1]);
    forall e | e in seen ensures e in all {
      if e in Contents(b[..i]) {
        var j :| 0 <= j < i && e in b[..i][j];
        assert e in b[..i + 1][j];
      } else {
        assert e in b[..i + 1][i];
      }
    }
    forall e | e in all ensures e in seen {
      var j :| 0 <= j < i + 1 && e in b[..i + 1][j];
      assert j < i ==> e in b[..i][j];
    }
  }
}
