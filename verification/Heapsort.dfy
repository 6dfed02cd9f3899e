/** sort and binary_search of lib/stdlib.c. Indexes count from 1, as there. */
module Heapsort {
  import opened Common

  /** A strcmp()-type function: a total preorder. */
  ghost predicate TotalPreorder<T(!new)>(cmp: (T, T) -> int) {
    && (forall x, y :: cmp(x, y) < 0 <==> cmp(y, x) > 0)
    && (forall x, y, z :: cmp(x, y) <= 0 && cmp(y, z) <= 0 ==> cmp(x, z) <= 0)
  }

  ghost predicate Sorted<T>(cmp: (T, T) -> int, s: seq<T>) {
    forall i, j :: 0 <= i < j < |s| ==> cmp(s[i], s[j]) <= 0
  }

  // ----- weights

  /** Integer weights that order the elements of S as CMP does. */
  ghost predicate Weighs<T>(cmp: (T, T) -> int, w: T -> int, s: seq<T>) {
    forall x, y {:trigger cmp(x, y)} :: x in s && y in s ==>
      (cmp(x, y) < 0 <==> w(x) < w(y)) && (cmp(x, y) > 0 <==> w(x) > w(y))
  }

  ghost function Lower<T>(cmp: (T, T) -> int, s: seq<T>, x: T): set<nat> {
    set i: nat | i < |s| && cmp(s[i], x) < 0
  }

  lemma LessTransitive<T(!new)>(cmp: (T, T) -> int, x: T, y: T, z: T)
    requires TotalPreorder(cmp) && cmp(x, y) <= 0 && cmp(y, z) <= 0 && (cmp(x, y) < 0 || cmp(y, z) < 0)
    ensures cmp(x, z) < 0
  {
    assert cmp(x, z) == 0 ==> cmp(z, x) == 0;
    assert cmp(z, x) <= 0 ==> cmp(z, y) <= 0 && cmp(y, x) <= 0;
  }

  lemma LowerAgrees<T(!new)>(cmp: (T, T) -> int, s: seq<T>, x: T, y: T)
    requires TotalPreorder(cmp) && x in s
    ensures cmp(x, y) < 0 <==> |Lower(cmp, s, x)| < |Lower(cmp, s, y)|
  {
    var a, b := Lower(cmp, s, x), Lower(cmp, s, y);
    if cmp(x, y) < 0 {
      forall i | i in a ensures i in b {
        LessTransitive(cmp, s[i], x, y);
      }
      var i: nat :| i < |s| && s[i] == x;
      assert i in b && i !in a;
      SubsetSize(a, b);
    } else {
      assert cmp(y, x) <= 0;
      forall i | i in b ensures i in a {
        LessTransitive(cmp, s[i], y, x);
      }
      SubsetSize(b, a);
    }
  }

  /** Every total preorder has weights on finitely many elements. */
  lemma WeightsFor<T(!new)>(cmp: (T, T) -> int, s: seq<T>) returns (w: T -> int)
    requires TotalPreorder(cmp)
    ensures Weighs(cmp, w, s)
  {
    w := x => |Lower(cmp, s, x)|;
    forall x, y | x in s && y in s ensures (cmp(x, y) < 0 <==> w(x) < w(y)) && (cmp(x, y) > 0 <==> w(x) > w(y)) {
      LowerAgrees(cmp, s, x, y);
      LowerAgrees(cmp, s, y, x);
    }
  }

  // ----- heaps

  /** Element C is not above its parent. */
  ghost predicate ParentOk<T>(w: T -> int, s: seq<T>, c: nat)
    requires 2 <= c <= |s|
  {
    w(s[c - 1]) <= w(s[c / 2 - 1])
  }

  /** A heap below index LO, as far as CNT, but for the children of HOLE. */
  ghost predicate HeapBut<T>(w: T -> int, s: seq<T>, lo: nat, cnt: nat, hole: nat) {
    cnt <= |s| && forall c :: 2 <= c <= cnt && c / 2 >= lo && c / 2 != hole ==> ParentOk(w, s, c)
  }

  ghost predicate Heap<T>(w: T -> int, s: seq<T>, lo: nat, cnt: nat) {
    cnt <= |s| && forall c :: 2 <= c <= cnt && c / 2 >= lo ==> ParentOk(w, s, c)
  }

  /** What lies below the hole fits under its parent. */
  ghost predicate Bridged<T>(w: T -> int, s: seq<T>, lo: nat, cnt: nat, hole: nat) {
    1 <= hole <= |s| && (hole / 2 >= lo && lo >= 1 ==>
      (2 * hole <= cnt <= |s| ==> w(s[2 * hole - 1]) <= w(s[hole / 2 - 1])) &&
      (2 * hole + 1 <= cnt <= |s| ==> w(s[2 * hole]) <= w(s[hole / 2 - 1])))
  }

  function Swapped<T>(s: seq<T>, i: nat, j: nat): seq<T>
    requires 1 <= i <= |s| && 1 <= j <= |s|
  {
    s[i - 1 := s[j - 1]][j - 1 := s[i - 1]]
  }

  lemma SwapPermutes<T>(s: seq<T>, i: nat, j: nat)
    requires 1 <= i <= |s| && 1 <= j <= |s|
    ensures multiset(Swapped(s, i, j)) == multiset(s)
  {
  }

  /** One step of the float-down: the larger child goes up. */
  lemma SwapDown<T>(w: T -> int, s: seq<T>, lo: nat, cnt: nat, i: nat, max: nat)
    requires 1 <= lo <= i && cnt <= |s| && HeapBut(w, s, lo, cnt, i) && Bridged(w, s, lo, cnt, i)
    requires (max == 2 * i || max == 2 * i + 1) && max <= cnt && w(s[i - 1]) < w(s[max - 1])
    requires 2 * i <= cnt ==> w(s[2 * i - 1]) <= w(s[max - 1])
    requires 2 * i + 1 <= cnt ==> w(s[2 * i]) <= w(s[max - 1])
    ensures HeapBut(w, Swapped(s, i, max), lo, cnt, max) && Bridged(w, Swapped(s, i, max), lo, cnt, max)
  {
    var t := Swapped(s, i, max);
    forall c | 2 <= c <= cnt && c / 2 >= lo && c / 2 != max ensures ParentOk(w, t, c) {
      if c / 2 != i {
        assert ParentOk(w, s, c);
      }
    }
    if 2 * max <= cnt {
      assert ParentOk(w, s, 2 * max);
    }
    if 2 * max + 1 <= cnt {
      assert ParentOk(w, s, 2 * max + 1);
    }
  }

  /** Nothing in a heap is above its root. */
  lemma {:induction false} RootIsMax<T>(w: T -> int, s: seq<T>, cnt: nat, k: nat)
    requires Heap(w, s, 1, cnt) && 1 <= k <= cnt
    ensures w(s[k - 1]) <= w(s[0])
  {
    if k > 1 {
      assert ParentOk(w, s, k);
      RootIsMax(w, s, cnt, k / 2);
    }
  }

  /** The first N elements weigh at most M. */
  ghost predicate AtMost<T>(w: T -> int, s: seq<T>, n: nat, m: int) {
    n <= |s| && forall k :: 0 <= k < n ==> w(s[k]) <= m
  }

  ghost predicate From<T>(s: seq<T>, dom: seq<T>) {
    forall k :: 0 <= k < |s| ==> s[k] in dom
  }

  /** Where the element at I would sink to first: its greater child, or I itself when
      no child is greater. */
  method Largest<T>(a: array<T>, i: nat, cnt: nat, cmp: (T, T) -> int, ghost w: T -> int, ghost dom: seq<T>)
    returns (max: nat)
    requires 1 <= i <= a.Length && cnt <= a.Length && Weighs(cmp, w, dom) && From(a[..], dom)
    ensures max == i || ((max == 2 * i || max == 2 * i + 1) && max <= cnt && w(a[i - 1]) < w(a[max - 1]))
    ensures 2 * i <= cnt ==> w(a[2 * i - 1]) <= w(a[max - 1])
    ensures 2 * i + 1 <= cnt ==> w(a[2 * i]) <= w(a[max - 1])
  {
    var left, right := 2 * i, 2 * i + 1;
    max := i;
    assert forall k :: 0 <= k < a.Length ==> a[..][k] in dom;
    if left <= cnt && cmp(a[left - 1], a[max - 1]) > 0 {
      max := left;
    }
    if right <= cnt && cmp(a[right - 1], a[max - 1]) > 0 {
      max := right;
    }
  }

  /** do_swap. */
  method Swap<T>(a: array<T>, i: nat, j: nat)
    requires 1 <= i <= a.Length && 1 <= j <= a.Length
    modifies a
    ensures a[..] == Swapped(old(a[..]), i, j) && multiset(a[..]) == multiset(old(a[..]))
  {
    SwapPermutes(a[..], i, j);
    a[i - 1], a[j - 1] := a[j - 1], a[i - 1];
    assert a[..] == Swapped(old(a[..]), i, j);
  }

  /** Positions outside LO to CNT hold what they held. */
  ghost predicate SameEnds<T>(s: seq<T>, t: seq<T>, lo: nat, cnt: nat) {
    |s| == |t| && forall k :: 0 <= k < |s| && (k < lo - 1 || k >= cnt) ==> t[k] == s[k]
  }

  /** heapify: restores the heap below index LO and keeps the elements. */
  method Heapify<T>(a: array<T>, lo: nat, cnt: nat, cmp: (T, T) -> int, ghost w: T -> int, ghost dom: seq<T>,
                    ghost m: int)
    requires 1 <= lo <= a.Length && cnt <= a.Length && Weighs(cmp, w, dom) && From(a[..], dom)
    requires Heap(w, a[..], lo + 1, cnt) && AtMost(w, a[..], cnt, m)
    modifies a
    ensures Heap(w, a[..], lo, cnt) && AtMost(w, a[..], cnt, m) && From(a[..], dom)
    ensures multiset(a[..]) == multiset(old(a[..])) && SameEnds(old(a[..]), a[..], lo, cnt)
  {
    var i := lo;
    while true
      invariant lo <= i <= a.Length && (i <= cnt || i == lo)
      invariant HeapBut(w, a[..], lo, cnt, i) && Bridged(w, a[..], lo, cnt, i) && AtMost(w, a[..], cnt, m) &&
                From(a[..], dom)
      invariant multiset(a[..]) == multiset(old(a[..])) && SameEnds(old(a[..]), a[..], lo, cnt)
      decreases a.Length - i
    {
      var max := Largest(a, i, cnt, cmp, w, dom);
      if max == i {
        Settled(w, a[..], lo, cnt, i);
        break;
      }
      SwapDown(w, a[..], lo, cnt, i, max);
      SwapKeeps(w, a[..], lo, cnt, i, max, dom, m);
      Swap(a, i, max);
      i := max;
    }
  }

  lemma SwapKeeps<T>(w: T -> int, s: seq<T>, lo: nat, cnt: nat, i: nat, j: nat, dom: seq<T>, m: int)
    requires 1 <= lo <= i <= cnt <= |s| && lo <= j <= cnt && AtMost(w, s, cnt, m) && From(s, dom)
    ensures var t := Swapped(s, i, j); AtMost(w, t, cnt, m) && From(t, dom) && SameEnds(s, t, lo, cnt)
  {
  }

  lemma Settled<T>(w: T -> int, s: seq<T>, lo: nat, cnt: nat, i: nat)
    requires 1 <= i && HeapBut(w, s, lo, cnt, i) && i <= |s|
    requires 2 * i <= cnt ==> w(s[2 * i - 1]) <= w(s[i - 1])
    requires 2 * i + 1 <= cnt ==> w(s[2 * i]) <= w(s[i - 1])
    ensures Heap(w, s, lo, cnt)
  {
    forall c | 2 <= c <= cnt && c / 2 >= lo ensures ParentOk(w, s, c) {
      assert c / 2 == i ==> c == 2 * i || c == 2 * i + 1;
    }
  }

  /** The elements from N on are sorted, and nothing before them weighs more. */
  ghost predicate Tail<T>(w: T -> int, s: seq<T>, n: nat) {
    && n <= |s| && (forall i, j :: n <= i < j < |s| ==> w(s[i]) <= w(s[j]))
    && (n < |s| ==> AtMost(w, s, n, w(s[n])))
  }

  /** The root of the heap joins the sorted tail. */
  lemma TailGrows<T>(w: T -> int, s: seq<T>, i: nat)
    requires 2 <= i <= |s| && Heap(w, s, 1, i) && Tail(w, s, i)
    ensures var t := Swapped(s, 1, i);
            Tail(w, t, i - 1) && Heap(w, t, 2, i - 1) && AtMost(w, t, i - 1, w(s[0]))
  {
    var t := Swapped(s, 1, i);
    forall k | 0 <= k < i ensures w(s[k]) <= w(s[0]) {
      RootIsMax(w, s, i, k + 1);
    }
    forall c | 2 <= c <= i - 1 && c / 2 >= 2 ensures ParentOk(w, t, c) {
      assert ParentOk(w, s, c);
    }
  }

  /** The tail does not mind what happens before it. */
  lemma TailStays<T>(w: T -> int, s: seq<T>, t: seq<T>, n: nat, m: int)
    requires n < |s| && Tail(w, s, n) && SameEnds(s, t, 1, n) && AtMost(w, t, n, m) && m == w(s[n])
    ensures Tail(w, t, n)
  {
  }

  /** The first loop of sort: every position from the last parent down. */
  method BuildHeap<T>(a: array<T>, cmp: (T, T) -> int, ghost w: T -> int, ghost dom: seq<T>, ghost m: int)
    requires Weighs(cmp, w, dom) && From(a[..], dom) && AtMost(w, a[..], a.Length, m)
    modifies a
    ensures Heap(w, a[..], 1, a.Length) && From(a[..], dom) && multiset(a[..]) == multiset(old(a[..]))
  {
    var cnt := a.Length;
    var i := cnt / 2;
    while i > 0
      invariant 0 <= i <= cnt / 2 && Heap(w, a[..], i + 1, cnt) && From(a[..], dom) && AtMost(w, a[..], cnt, m)
      invariant multiset(a[..]) == multiset(old(a[..]))
    {
      Heapify(a, i, cnt, cmp, w, dom, m);
      i := i - 1;
    }
  }

  /** The second loop of sort: the largest goes to the end, again and again. */
  method SortHeap<T>(a: array<T>, cmp: (T, T) -> int, ghost w: T -> int, ghost dom: seq<T>)
    requires Weighs(cmp, w, dom) && From(a[..], dom) && Heap(w, a[..], 1, a.Length)
    modifies a
    ensures Tail(w, a[..], if a.Length < 1 then a.Length else 1) && multiset(a[..]) == multiset(old(a[..])) &&
            From(a[..], dom)
  {
    var i := a.Length;
    while i > 1
      invariant 0 <= i <= a.Length && (i == 0 ==> a.Length == 0) && Heap(w, a[..], 1, i) && Tail(w, a[..], i) &&
                From(a[..], dom)
      invariant multiset(a[..]) == multiset(old(a[..]))
    {
      ghost var m := w(a[0]);
      TailGrows(w, a[..], i);
      Swap(a, 1, i);
      ghost var s := a[..];
      Heapify(a, 1, i - 1, cmp, w, dom, m);
      TailStays(w, s, a[..], i - 1, m);
      i := i - 1;
    }
  }

  lemma {:induction false} Heaviest<T>(w: T -> int, s: seq<T>) returns (m: int)
    ensures AtMost(w, s, |s|, m)
  {
    if s == [] {
      m := 0;
    } else {
      m := Heaviest(w, s[..|s| - 1]);
      m := if w(s[|s| - 1]) > m then w(s[|s| - 1]) else m;
    }
  }

  /** sort: a sorted permutation, for any total preorder. */
  method Sort<T(!new)>(a: array<T>, cmp: (T, T) -> int)
    requires TotalPreorder(cmp)
    modifies a
    ensures Sorted(cmp, a[..]) && multiset(a[..]) == multiset(old(a[..]))
  {
    ghost var dom := a[..];
    ghost var w := WeightsFor(cmp, dom);
    ghost var m := Heaviest(w, dom);
    BuildHeap(a, cmp, w, dom, m);
    SortHeap(a, cmp, w, dom);
    TailSorted(cmp, w, a[..], dom);
  }

  lemma TailSorted<T>(cmp: (T, T) -> int, w: T -> int, s: seq<T>, dom: seq<T>)
    requires Weighs(cmp, w, dom) && From(s, dom) && Tail(w, s, if |s| < 1 then |s| else 1)
    ensures Sorted(cmp, s)
  {
    forall i, j | 0 <= i < j < |s| ensures cmp(s[i], s[j]) <= 0 {
      assert s[i] in dom && s[j] in dom;
      assert w(s[i]) <= w(s[j]);
    }
  }

  // ----- binary_search

  /** binary_search finds a match in sorted elements exactly when there is one. */
  method BinarySearch<T(!new)>(key: T, s: seq<T>, cmp: (T, T) -> int) returns (r: Option<nat>)
    requires TotalPreorder(cmp) && Sorted(cmp, s)
    ensures match r
            case Some(k) => k < |s| && cmp(key, s[k]) == 0
            case None => forall k :: 0 <= k < |s| ==> cmp(key, s[k]) != 0
  {
    var first, last := 0, |s|;
    while first < last
      invariant 0 <= first <= last <= |s|
      invariant forall k :: 0 <= k < first ==> cmp(key, s[k]) > 0
      invariant forall k :: last <= k < |s| ==> cmp(key, s[k]) < 0
    {
      var middle := first + (last - first) / 2;
      var c := cmp(key, s[middle]);
      if c < 0 {
        KeyBefore(key, s, cmp, middle);
        last := middle;
      } else if c > 0 {
        KeyAfter(key, s, cmp, middle);
        first := middle + 1;
      } else {
        return Some(middle);
      }
    }
    r := None;
  }

  lemma KeyBefore<T(!new)>(key: T, s: seq<T>, cmp: (T, T) -> int, m: nat)
    requires TotalPreorder(cmp) && Sorted(cmp, s) && m < |s| && cmp(key, s[m]) < 0
    ensures forall k :: m <= k < |s| ==> cmp(key, s[k]) < 0
  {
    forall k | m < k < |s| ensures cmp(key, s[k]) < 0 {
      LessTransitive(cmp, key, s[m], s[k]);
    }
  }

  lemma KeyAfter<T(!new)>(key: T, s: seq<T>, cmp: (T, T) -> int, m: nat)
    requires TotalPreorder(cmp) && Sorted(cmp, s) && m < |s| && cmp(key, s[m]) > 0
    ensures forall k :: 0 <= k <= m ==> cmp(key, s[k]) > 0
  {
    forall k | 0 <= k < m ensures cmp(key, s[k]) > 0 {
      LessTransitive(cmp, s[k], s[m], key);
    }
  }

  /** Sorting and then searching finds what was there before. */
  method SortThenSearch<T(!new)>(a: array<T>, key: T, cmp: (T, T) -> int) returns (found: bool)
    requires TotalPreorder(cmp)
    modifies a
    ensures found <==> exists x :: x in old(a[..]) && cmp(key, x) == 0
  {
    Sort(a, cmp);
    var r := BinarySearch(key, a[..], cmp);
    found := r.Some?;
    SameMembers(a[..], old(a[..]));
  }

  lemma SameMembers<T>(s: seq<T>, t: seq<T>)
    requires multiset(s) == multiset(t)
    ensures forall x :: x in s <==> x in t
  {
    forall x ensures x in s <==> x in t {
      assert x in multiset(s) <==> x in multiset(t);
    }
  }
}
