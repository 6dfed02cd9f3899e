/** Sequences of list nodes: order, stability and natural runs.

    On the nodes of one list every strict weak order agrees with the order of
    integer weights, so the sort is analysed over weights W. */
module ListSpec {
  import opened Common

  /** struct list_elem together with the key its containing structure holds. */
  class Elem<T> {
    var prev: Elem?<T>
    var next: Elem?<T>
    const key: T

    constructor (key: T)
      ensures this.key == key && prev == null && next == null
    {
      this.key := key;
      prev, next := null, null;
    }
  }

  type Weight<!T> = Elem<T> -> int

  ghost predicate Apart<T>(s: seq<Elem<T>>, t: seq<Elem<T>>) {
    forall i, j :: 0 <= i < |s| && 0 <= j < |t| ==> s[i] != t[j]
  }

  lemma CutDistinct<T>(s: seq<Elem<T>>, i: nat, j: nat)
    requires i <= j <= |s| && NoDup(s)
    ensures NoDup(s[..i] + s[j..]) && NoDup(s[i..j]) && Apart(s[i..j], s[..i] + s[j..])
  {
  }

  lemma PasteDistinct<T>(s: seq<Elem<T>>, b: nat, block: seq<Elem<T>>)
    requires b <= |s| && NoDup(s) && NoDup(block) && Apart(block, s)
    ensures NoDup(s[..b] + block + s[b..])
  {
    var t := s[..b] + block + s[b..];
    forall x, y | 0 <= x < y < |t| ensures t[x] != t[y] {
      var n := |block|;
      if b <= x < b + n {
        assert t[x] == block[x - b];
        assert b + n <= y ==> t[y] == s[y - n];
      } else if b <= y < b + n {
        assert t[y] == block[y - b] && t[x] == s[x];
      } else {
        assert t[x] == s[if x < b then x else x - n] && t[y] == s[if y < b then y else y - n];
      }
    }
  }

  // ----- order

  ghost predicate SortedRange<T>(w: Weight<T>, s: seq<Elem<T>>, lo: nat, hi: nat)
    requires hi <= |s|
  {
    forall i, j :: lo <= i < j < hi ==> w(s[i]) <= w(s[j])
  }

  /** Nodes of equal weight stand in the order of their ranks. */
  ghost predicate Stable<T>(w: Weight<T>, rank: Weight<T>, s: seq<Elem<T>>) {
    forall i, j :: 0 <= i < j < |s| && w(s[i]) == w(s[j]) ==> rank(s[i]) < rank(s[j])
  }

  // ----- natural runs

  /** Number of places where a node is less than its predecessor. */
  ghost function Descents<T>(w: Weight<T>, s: seq<Elem<T>>): nat {
    if |s| < 2 then 0 else (if w(s[1]) < w(s[0]) then 1 else 0) + Descents(w, s[1..])
  }

  ghost function Runs<T>(w: Weight<T>, s: seq<Elem<T>>): nat {
    if s == [] then 0 else 1 + Descents(w, s)
  }

  lemma {:induction false} RunsConcat<T>(w: Weight<T>, s: seq<Elem<T>>, t: seq<Elem<T>>)
    requires s != [] && t != []
    ensures Runs(w, s + t) == Runs(w, s) + Runs(w, t) - (if w(t[0]) < w(s[|s| - 1]) then 0 else 1)
    decreases |s|
  {
    assert (s + t)[1..] == s[1..] + t;
    if |s| > 1 {
      RunsConcat(w, s[1..], t);
    } else {
      assert s[1..] == [];
      assert [] + t == t;
    }
  }

  lemma {:induction false} SortedIsOneRun<T>(w: Weight<T>, s: seq<Elem<T>>)
    requires SortedRange(w, s, 0, |s|)
    ensures Runs(w, s) <= 1
    decreases |s|
  {
    if |s| > 1 {
      assert w(s[0]) <= w(s[1]);
      SortedIsOneRun(w, s[1..]);
    }
  }

  lemma {:induction false} OneRunIsSorted<T>(w: Weight<T>, s: seq<Elem<T>>)
    requires Runs(w, s) <= 1
    ensures SortedRange(w, s, 0, |s|)
    decreases |s|
  {
    if |s| > 1 {
      OneRunIsSorted(w, s[1..]);
      forall i, j | 0 <= i < j < |s| ensures w(s[i]) <= w(s[j]) {
        assert s[j] == s[1..][j - 1] && s[1] == s[1..][0];
        if i > 0 {
          assert s[i] == s[1..][i - 1];
        } else if j > 1 {
          assert w(s[1..][0]) <= w(s[1..][j - 1]);
        }
      }
    }
  }

  // ----- moving a block of nodes

  /** Where the node at position K stood before s[i..j] moved in front of s[b]. */
  function Source(b: nat, i: nat, j: nat, k: nat): nat
    requires b <= i <= j
  {
    if k < b || k >= j then k else if k < b + (j - i) then k - b + i else k - (j - i)
  }

  /** The sequence after list_splice has moved s[i..j] in front of s[b]. */
  function Moved<T>(s: seq<T>, b: nat, i: nat, j: nat): (t: seq<T>)
    requires b <= i <= j <= |s|
    ensures |t| == |s| && forall k {:trigger t[k]} :: 0 <= k < |s| ==> t[k] == s[Source(b, i, j, k)]
  {
    seq(|s|, k requires 0 <= k < |s| => s[Source(b, i, j, k)])
  }

  lemma MovedIs<T>(s: seq<T>, b: nat, i: nat, j: nat)
    requires b <= i <= j <= |s|
    ensures Moved(s, b, i, j) == s[..b] + s[i..j] + s[b..i] + s[j..]
  {
  }

  lemma MovedMultiset<T>(s: seq<T>, b: nat, i: nat, j: nat)
    requires b <= i <= j <= |s|
    ensures multiset(Moved(s, b, i, j)) == multiset(s)
  {
    MovedIs(s, b, i, j);
    assert s == s[..b] + s[b..i] + s[i..j] + s[j..];
  }

  /** Cutting s[i..j] out and pasting it in front of the old s[b]. */
  lemma CutPaste<T>(s: seq<T>, b: nat, i: nat, j: nat)
    requires i < j <= |s| && b <= |s| && (b < i || j <= b)
    ensures var cut := s[..i] + s[j..]; var b' := if b < i then b else b - (j - i);
            cut[..b'] + s[i..j] + cut[b'..] == if b < i then Moved(s, b, i, j) else Moved(s, i, j, b)
  {
    var cut := s[..i] + s[j..];
    MovedIs(s, if b < i then b else i, if b < i then i else j, if b < i then j else b);
    if b < i {
      assert cut[..b] == s[..b];
      assert cut[b..] == s[b..i] + s[j..];
    } else {
      var b' := b - (j - i);
      assert cut[..b'] == s[..i] + s[j..b];
      assert cut[b'..] == s[b..];
    }
  }

  // ----- the natural merge sort, on sequences with both sentinels

  /** find_end_of_run, the search standing at position K. */
  ghost function RunEnd<T>(w: Weight<T>, s: seq<Elem<T>>, k: nat, j: nat): (e: nat)
    requires 1 <= k <= j < |s|
    ensures k <= e <= j
    decreases j - k
  {
    if k < j && w(s[k - 1]) <= w(s[k]) then RunEnd(w, s, k + 1, j) else k
  }

  /** inplace_merge, standing at positions M of the first and Q of the second run. */
  ghost function Merge<T>(w: Weight<T>, s: seq<Elem<T>>, m: nat, q: nat, r: nat): (t: seq<Elem<T>>)
    requires m <= q <= r <= |s|
    ensures |t| == |s|
    decreases r - q, q - m
  {
    if m == q || q == r then s
    else if w(s[m]) <= w(s[q]) then Merge(w, s, m + 1, q, r)
    else Merge(w, Moved(s, m, q, q + 1), m + 1, q + 1, r)
  }

  /** One pass of list_sort from position P on, with the number of runs output. */
  ghost function Pass<T>(w: Weight<T>, s: seq<Elem<T>>, p: nat, cnt: nat): (t: (seq<Elem<T>>, nat))
    requires 1 <= p < |s|
    ensures |t.0| == |s|
    decreases |s| - p
  {
    var n := |s| - 1;
    if p == n then (s, cnt)
    else
      var k := RunEnd(w, s, p + 1, n);
      if k == n then (s, cnt + 1)
      else
        var r := RunEnd(w, s, k + 1, n);
        Pass(w, Merge(w, s, p, k, r), r, cnt + 1)
  }

  // ----- merging

  /** The run found is sorted and cannot be extended. */
  lemma {:induction false} RunEndIsRun<T>(w: Weight<T>, s: seq<Elem<T>>, i: nat, k: nat, j: nat)
    requires i < k <= j < |s| && SortedRange(w, s, i, k)
    ensures SortedRange(w, s, i, RunEnd(w, s, k, j))
    ensures var e := RunEnd(w, s, k, j); e < j ==> w(s[e]) < w(s[e - 1])
    decreases j - k
  {
    if k < j && w(s[k - 1]) <= w(s[k]) {
      RunEndIsRun(w, s, i, k + 1, j);
    }
  }

  /** s[p..m) is merged, s[m..q) and s[q..r) are the rests of the two runs. */
  ghost predicate Merging<T>(w: Weight<T>, s: seq<Elem<T>>, p: nat, m: nat, q: nat, r: nat) {
    && p <= m <= q <= r <= |s|
    && SortedRange(w, s, p, q) && SortedRange(w, s, q, r)
    && forall x, y :: p <= x < m && q <= y < r ==> w(s[x]) <= w(s[y])
  }

  lemma MergeKeep<T>(w: Weight<T>, s: seq<Elem<T>>, p: nat, m: nat, q: nat, r: nat)
    requires Merging(w, s, p, m, q, r) && m < q < r && w(s[m]) <= w(s[q])
    ensures Merging(w, s, p, m + 1, q, r)
  {
    forall y | q <= y < r ensures w(s[m]) <= w(s[y]) {
      assert w(s[q]) <= w(s[y]);
    }
  }

  lemma MergeTake<T>(w: Weight<T>, s: seq<Elem<T>>, p: nat, m: nat, q: nat, r: nat)
    requires Merging(w, s, p, m, q, r) && m < q < r && w(s[q]) < w(s[m])
    ensures Merging(w, Moved(s, m, q, q + 1), p, m + 1, q + 1, r)
  {
    assert forall k :: m <= k < q ==> w(s[m]) <= w(s[k]);
  }

  /** Moving a node in front of heavier ones reorders no equivalents. */
  lemma TakeStable<T>(w: Weight<T>, rank: Weight<T>, s: seq<Elem<T>>, p: nat, m: nat, q: nat, r: nat)
    requires Merging(w, s, p, m, q, r) && Stable(w, rank, s) && m < q < r && w(s[q]) < w(s[m])
    ensures Stable(w, rank, Moved(s, m, q, q + 1))
  {
    assert forall k :: m <= k < q ==> w(s[m]) <= w(s[k]);
  }

  /** Merging touches nothing outside the two runs. */
  lemma {:induction false} MergeOutside<T>(w: Weight<T>, s: seq<Elem<T>>, m: nat, q: nat, r: nat)
    requires m <= q <= r <= |s|
    ensures var t := Merge(w, s, m, q, r); forall k :: 0 <= k < |s| && (k < m || k >= r) ==> t[k] == s[k]
    decreases r - q, q - m
  {
    if m == q || q == r {
    } else if w(s[m]) <= w(s[q]) {
      MergeOutside(w, s, m + 1, q, r);
    } else {
      var s' := Moved(s, m, q, q + 1);
      MergeOutside(w, s', m + 1, q + 1, r);
      assert forall k :: 0 <= k < |s| && (k < m || k >= r) ==> s'[k] == s[k];
    }
  }

  /** Merging two sorted runs sorts them. */
  lemma {:induction false} MergeSorts<T>(w: Weight<T>, s: seq<Elem<T>>, p: nat, m: nat, q: nat, r: nat)
    requires Merging(w, s, p, m, q, r)
    ensures SortedRange(w, Merge(w, s, m, q, r), p, r)
    decreases r - q, q - m
  {
    if m == q || q == r {
    } else if w(s[m]) <= w(s[q]) {
      MergeKeep(w, s, p, m, q, r);
      MergeSorts(w, s, p, m + 1, q, r);
    } else {
      MergeTake(w, s, p, m, q, r);
      MergeSorts(w, Moved(s, m, q, q + 1), p, m + 1, q + 1, r);
    }
  }

  /** Merging never swaps equivalent nodes. */
  lemma {:induction false} MergeStable<T>(w: Weight<T>, rank: Weight<T>, s: seq<Elem<T>>, p: nat, m: nat, q: nat,
                                          r: nat)
    requires Merging(w, s, p, m, q, r) && Stable(w, rank, s)
    ensures Stable(w, rank, Merge(w, s, m, q, r))
    decreases r - q, q - m
  {
    if m == q || q == r {
    } else if w(s[m]) <= w(s[q]) {
      MergeKeep(w, s, p, m, q, r);
      MergeStable(w, rank, s, p, m + 1, q, r);
    } else {
      TakeStable(w, rank, s, p, m, q, r);
      MergeTake(w, s, p, m, q, r);
      MergeStable(w, rank, Moved(s, m, q, q + 1), p, m + 1, q + 1, r);
    }
  }

  lemma {:induction false} MergePermutes<T>(w: Weight<T>, s: seq<Elem<T>>, m: nat, q: nat, r: nat)
    requires m <= q <= r <= |s|
    ensures multiset(Merge(w, s, m, q, r)) == multiset(s)
    decreases r - q, q - m
  {
    if m == q || q == r {
    } else if w(s[m]) <= w(s[q]) {
      MergePermutes(w, s, m + 1, q, r);
    } else {
      MovedMultiset(s, m, q, q + 1);
      MergePermutes(w, Moved(s, m, q, q + 1), m + 1, q + 1, r);
    }
  }

  // ----- passes

  lemma RangeIsRun<T>(w: Weight<T>, s: seq<Elem<T>>, lo: nat, hi: nat)
    requires lo < hi <= |s| && SortedRange(w, s, lo, hi)
    ensures Runs(w, s[lo..hi]) == 1
  {
    SortedIsOneRun(w, s[lo..hi]);
  }

  /** find_end_of_run cuts exactly one natural run off. */
  lemma CutRun<T>(w: Weight<T>, s: seq<Elem<T>>, p: nat, n: nat)
    requires p < n < |s|
    ensures var k := RunEnd(w, s, p + 1, n);
            SortedRange(w, s, p, k) && Runs(w, s[p..n]) == 1 + Runs(w, s[k..n])
  {
    RunEndIsRun(w, s, p, p + 1, n);
    var k := RunEnd(w, s, p + 1, n);
    RangeIsRun(w, s, p, k);
    if k < n {
      assert s[p..n] == s[p..k] + s[k..n];
      RunsConcat(w, s[p..k], s[k..n]);
    } else {
      assert s[p..n] == s[p..k];
    }
  }

  lemma {:induction false} PassOutside<T>(w: Weight<T>, s: seq<Elem<T>>, p: nat, cnt: nat)
    requires 1 <= p < |s|
    ensures var t := Pass(w, s, p, cnt).0;
            t[|s| - 1] == s[|s| - 1] && forall k :: 0 <= k < p ==> t[k] == s[k]
    decreases |s| - p
  {
    var n := |s| - 1;
    if p < n {
      var k := RunEnd(w, s, p + 1, n);
      if k < n {
        var r := RunEnd(w, s, k + 1, n);
        MergeOutside(w, s, p, k, r);
        PassOutside(w, Merge(w, s, p, k, r), r, cnt + 1);
      }
    }
  }

  lemma PairMerging<T>(w: Weight<T>, s: seq<Elem<T>>, p: nat, n: nat)
    requires p < n < |s| && RunEnd(w, s, p + 1, n) < n
    ensures var k := RunEnd(w, s, p + 1, n); Merging(w, s, p, p, k, RunEnd(w, s, k + 1, n))
  {
    var k := RunEnd(w, s, p + 1, n);
    RunEndIsRun(w, s, p, p + 1, n);
    RunEndIsRun(w, s, k, k + 1, n);
  }

  /** The two runs in front of a pass merge into one sorted stretch. */
  lemma MergePair<T>(w: Weight<T>, s: seq<Elem<T>>, p: nat, n: nat)
    requires p < n < |s| && RunEnd(w, s, p + 1, n) < n
    ensures var k := RunEnd(w, s, p + 1, n); var r := RunEnd(w, s, k + 1, n);
            && SortedRange(w, Merge(w, s, p, k, r), p, r)
            && Merge(w, s, p, k, r)[r..n] == s[r..n]
            && Runs(w, s[p..n]) == 2 + Runs(w, s[r..n])
  {
    var k := RunEnd(w, s, p + 1, n);
    var r := RunEnd(w, s, k + 1, n);
    assert Runs(w, s[p..n]) == 2 + Runs(w, s[r..n]) by {
      CutRun(w, s, p, n);
      CutRun(w, s, k, n);
    }
    PairMerging(w, s, p, n);
    MergeSorts(w, s, p, p, k, r);
    MergeOutside(w, s, p, k, r);
  }

  lemma {:induction false} PassPermutes<T>(w: Weight<T>, s: seq<Elem<T>>, p: nat, cnt: nat)
    requires 1 <= p < |s|
    ensures multiset(Pass(w, s, p, cnt).0) == multiset(s)
    decreases |s| - p
  {
    var n := |s| - 1;
    if p < n {
      var k := RunEnd(w, s, p + 1, n);
      if k < n {
        var r := RunEnd(w, s, k + 1, n);
        MergePermutes(w, s, p, k, r);
        PassPermutes(w, Merge(w, s, p, k, r), r, cnt + 1);
      }
    }
  }

  lemma {:induction false} PassStable<T>(w: Weight<T>, rank: Weight<T>, s: seq<Elem<T>>, p: nat, cnt: nat)
    requires 1 <= p < |s| && Stable(w, rank, s)
    ensures Stable(w, rank, Pass(w, s, p, cnt).0)
    decreases |s| - p
  {
    var n := |s| - 1;
    if p < n && RunEnd(w, s, p + 1, n) < n {
      var k := RunEnd(w, s, p + 1, n);
      var r := RunEnd(w, s, k + 1, n);
      assert Stable(w, rank, Merge(w, s, p, k, r)) by {
        PairMerging(w, s, p, n);
        MergeStable(w, rank, s, p, p, k, r);
      }
      PassStable(w, rank, Merge(w, s, p, k, r), r, cnt + 1);
    }
  }

  /** A pass over r natural runs counts ceil(r/2) of them and leaves no more. */
  lemma {:induction false} PassHalves<T>(w: Weight<T>, s: seq<Elem<T>>, p: nat, cnt: nat)
    requires 1 <= p < |s|
    ensures var n := |s| - 1; var t := Pass(w, s, p, cnt);
            && t.1 == cnt + (Runs(w, s[p..n]) + 1) / 2
            && Runs(w, t.0[p..n]) <= (Runs(w, s[p..n]) + 1) / 2
    decreases |s| - p, 0
  {
    var n := |s| - 1;
    if p < n {
      var k := RunEnd(w, s, p + 1, n);
      CutRun(w, s, p, n);
      if k < n {
        var r := RunEnd(w, s, k + 1, n);
        MergePair(w, s, p, n);
        PassRest(w, s, p, r, Merge(w, s, p, k, r), cnt);
      }
    }
  }

  lemma {:induction false} PassRest<T>(w: Weight<T>, s: seq<Elem<T>>, p: nat, r: nat, m: seq<Elem<T>>, cnt: nat)
    requires 1 <= p < r < |s| && |m| == |s|
    requires SortedRange(w, m, p, r) && m[r..|s| - 1] == s[r..|s| - 1]
    requires Runs(w, s[p..|s| - 1]) == 2 + Runs(w, s[r..|s| - 1])
    ensures var n := |s| - 1; var t := Pass(w, m, r, cnt + 1);
            && t.1 == cnt + (Runs(w, s[p..n]) + 1) / 2
            && Runs(w, t.0[p..n]) <= (Runs(w, s[p..n]) + 1) / 2
    decreases |s| - r, 1
  {
    var n := |s| - 1;
    var t := Pass(w, m, r, cnt + 1).0;
    PassHalves(w, m, r, cnt + 1);
    PassOutside(w, m, r, cnt + 1);
    assert t[p..r] == m[p..r];
    RangeIsRun(w, m, p, r);
    if r < n {
      assert t[p..n] == t[p..r] + t[r..n];
      RunsConcat(w, t[p..r], t[r..n]);
    }
  }
}
