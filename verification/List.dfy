/** Doubly linked lists with two sentinels, updated in place as in list.c. */
module List {
  import opened Common
  import opened ListSpec
  import opened ListOrder

  /** Consecutive nodes point at each other. */
  ghost predicate Chain<T>(s: seq<Elem<T>>)
    reads s
  {
    && (forall k {:trigger s[k].next} :: 0 <= k < |s| - 1 ==> s[k].next == s[k + 1])
    && (forall k {:trigger s[k].prev} :: 1 <= k < |s| ==> s[k].prev == s[k - 1])
  }

  ghost function ElemsOf<T>(s: seq<Elem<T>>): set<Elem<T>> {
    set e | e in s
  }

  class List<T(!new)> {
    const head: Elem<T>
    const tail: Elem<T>
    /** The sentinels and the interior nodes between them, in list order. */
    ghost var all: seq<Elem<T>>
    ghost var repr: set<Elem<T>>

    ghost predicate Valid()
      reads this, repr
    {
      && |all| >= 2
      && all[0] == head && all[|all| - 1] == tail
      && (forall k :: 0 <= k < |all| ==> all[k] in repr)
      && NoDup(all)
      && (forall k {:trigger all[k].next} :: 0 <= k < |all| - 1 ==> all[k].next == all[k + 1])
      && (forall k {:trigger all[k].prev} :: 1 <= k < |all| ==> all[k].prev == all[k - 1])
      && head.prev == null && tail.next == null
    }

    /** The interior nodes. */
    ghost function Nodes(): (s: seq<Elem<T>>)
      requires |all| >= 2
      reads this
    {
      all[1..|all| - 1]
    }

    /** list_init on two fresh sentinels. */
    constructor (h: Elem<T>, t: Elem<T>)
      requires h != t
      modifies h, t
      ensures Valid() && Nodes() == [] && head == h && tail == t && repr == {h, t}
    {
      head, tail := h, t;
      all, repr := [h, t], {h, t};
      new;
      h.prev, h.next := null, t;
      t.prev, t.next := h, null;
    }

    /** list_insert: ELEM goes just before BEFORE, an interior node or the tail. */
    method Insert(before: Elem<T>, elem: Elem<T>, ghost b: nat)
      requires Valid() && 1 <= b < |all| && all[b] == before && elem !in repr
      modifies this, repr, elem
      ensures Valid() && all == old(all[..b] + [elem] + all[b..]) && repr == old(repr) + {elem}
    {
      elem.prev := before.prev;
      elem.next := before;
      before.prev.next := elem;
      before.prev := elem;
      all, repr := all[..b] + [elem] + all[b..], repr + {elem};
    }

    /** list_remove: returns the node after ELEM. */
    method Remove(elem: Elem<T>, ghost i: nat) returns (after: Elem<T>)
      requires Valid() && 1 <= i < |all| - 1 && all[i] == elem
      modifies this, repr
      ensures Valid() && all == old(all[..i] + all[i + 1..]) && repr == old(repr) - {elem}
      ensures after == old(all[i + 1]) && elem.prev == old(elem.prev) && elem.next == old(elem.next)
    {
      CutDistinct(all, i, i + 1);
      elem.prev.next := elem.next;
      elem.next.prev := elem.prev;
      all, repr := all[..i] + all[i + 1..], repr - {elem};
      after := elem.next;
    }

    /** The first half of list_splice: cut FIRST..LAST (inclusive) out. */
    method Detach(first: Elem<T>, last: Elem<T>, ghost i: nat, ghost j: nat)
      requires Valid() && 1 <= i < j < |all| && all[i] == first && all[j - 1] == last
      modifies this`all, repr
      ensures Valid() && all == old(all[..i] + all[j..])
      ensures Chain(old(all[i..j]))
    {
      ghost var was, block := all, all[i..j];
      CutDistinct(was, i, j);
      first.prev.next := last.next;
      last.next.prev := first.prev;
      all := all[..i] + all[j..];
      forall k | 0 <= k < |block| - 1 ensures block[k].next == block[k + 1] {
        assert block[k] == was[i + k] && block[k + 1] == was[i + k + 1];
      }
      forall k | 1 <= k < |block| ensures block[k].prev == block[k - 1] {
        assert block[k] == was[i + k] && block[k - 1] == was[i + k - 1];
      }
    }

    /** The second half: a chain FIRST..LAST (inclusive) goes before BEFORE. */
    method Attach(before: Elem<T>, first: Elem<T>, last: Elem<T>, ghost block: seq<Elem<T>>, ghost b: nat)
      requires Valid() && 1 <= b < |all| && all[b] == before
      requires block != [] && block[0] == first && block[|block| - 1] == last
      requires NoDup(block) && Chain(block) && Apart(block, all)
      requires forall k :: 0 <= k < |block| ==> block[k] in repr
      modifies this`all, repr
      ensures Valid() && all == old(all[..b]) + block + old(all[b..])
    {
      PasteDistinct(all, b, block);
      first.prev := before.prev;
      last.next := before;
      before.prev.next := first;
      before.prev := last;
      all := all[..b] + block + all[b..];
    }

    /** list_splice within one list: FIRST up to LAST (exclusive) move in front
        of BEFORE, which lies outside that range. */
    method Splice(before: Elem<T>, first: Elem<T>, last: Elem<T>, ghost b: nat, ghost i: nat, ghost j: nat)
      requires Valid() && 1 <= i <= j < |all| && 1 <= b < |all|
      requires all[b] == before && all[i] == first && all[j] == last
      requires i == j || b < i || j <= b
      modifies this`all, repr
      ensures Valid()
      ensures all == if i == j then old(all) else if b < i then Moved(old(all), b, i, j) else Moved(old(all), i, j, b)
    {
      if first == last {
        return;
      }
      var last' := last.prev;
      ghost var was, block := all, all[i..j];
      CutDistinct(was, i, j);
      CutPaste(was, b, i, j);
      Detach(first, last', i, j);
      Attach(before, first, last', block, if b < i then b else b - (j - i));
    }

    /** list_splice from another list: FIRST up to LAST (exclusive) of OTHER move in
        front of BEFORE. */
    method SpliceFrom(other: List<T>, before: Elem<T>, first: Elem<T>, last: Elem<T>, ghost b: nat, ghost i: nat,
                      ghost j: nat)
      requires Valid() && other.Valid() && other != this && repr !! other.repr
      requires 1 <= b < |all| && all[b] == before
      requires 1 <= i <= j < |other.all| && other.all[i] == first && other.all[j] == last
      modifies this, repr, other, other.repr
      ensures Valid() && other.Valid()
      ensures all == old(all[..b]) + old(other.all[i..j]) + old(all[b..])
      ensures other.all == old(other.all[..i]) + old(other.all[j..])
      ensures var block := old(other.all[i..j]);
              repr == old(repr) + ElemsOf(block) && other.repr == old(other.repr) - ElemsOf(block)
    {
      if first == last {
        return;
      }
      var last' := last.prev;
      ghost var was, block := other.all, other.all[i..j];
      CutDistinct(was, i, j);
      other.Detach(first, last', i, j);
      GiveAway(other, block);
      Attach(before, first, last', block, b);
    }

    /** The nodes cut out of OTHER belong to this list. */
    ghost method GiveAway(other: List<T>, block: seq<Elem<T>>)
      requires Valid() && other.Valid() && other != this && repr !! other.repr && Apart(block, other.all)
      modifies this`repr, other`repr
      ensures Valid() && other.Valid()
      ensures repr == old(repr) + ElemsOf(block) && other.repr == old(other.repr) - ElemsOf(block)
    {
      repr, other.repr := repr + ElemsOf(block), other.repr - ElemsOf(block);
    }

    /** find_end_of_run. */
    method FindEndOfRun(a: Elem<T>, b: Elem<T>, less: (T, T) -> bool, ghost w: Weight<T>, ghost i: nat, ghost j: nat)
      returns (e: Elem<T>, ghost k: nat)
      requires Valid() && Agrees(less, w, repr) && 1 <= i < j < |all| && all[i] == a && all[j] == b
      ensures k == RunEnd(w, all, i + 1, j) && all[k] == e
    {
      e, k := a.next, i + 1;
      while e != b && !less(e.key, e.prev.key)
        invariant i < k <= j && all[k] == e
        invariant RunEnd(w, all, k, j) == RunEnd(w, all, i + 1, j)
        decreases j - k
      {
        e, k := e.next, k + 1;
      }
    }

    /** The branch of inplace_merge that moves B, the head of the second run, in
        front of A, the head of the first. */
    method TakeSecond(a: Elem<T>, b: Elem<T>, ghost m: nat, ghost q: nat) returns (b': Elem<T>)
      requires Valid() && 1 <= m < q < |all| - 1 && all[m] == a && all[q] == b
      modifies this`all, repr
      ensures Valid() && all == Moved(old(all), m, q, q + 1)
      ensures all[m + 1] == a && all[q + 1] == b'
    {
      b' := b.next;
      Splice(a, b'.prev, b', m, q, q + 1);
    }

    /** inplace_merge. */
    method InplaceMerge(a0: Elem<T>, a1b0: Elem<T>, b1: Elem<T>, less: (T, T) -> bool, ghost w: Weight<T>,
                        ghost p: nat, ghost q0: nat, ghost r: nat)
      requires Valid() && Agrees(less, w, repr) && 1 <= p < q0 < r < |all|
      requires all[p] == a0 && all[q0] == a1b0 && all[r] == b1
      modifies this`all, repr
      ensures Valid() && all == Merge(w, old(all), p, q0, r) && all[r] == b1
    {
      var a, b := a0, a1b0;
      ghost var m, q := p, q0;
      while a != b && b != b1
        invariant Valid() && |all| == |old(all)|
        invariant 1 <= m <= q <= r < |all|
        invariant all[m] == a && all[q] == b && all[r] == b1
        invariant Merge(w, all, m, q, r) == Merge(w, old(all), p, q0, r)
        decreases r - q, q - m
      {
        if !less(b.key, a.key) {
          a, m := a.next, m + 1;
        } else {
          b := TakeSecond(a, b, m, q);
          m, q := m + 1, q + 1;
        }
      }
    }

    /** list_sort: merges the run at A0 with the one after it. */
    method MergeRuns(a0: Elem<T>, a1b0: Elem<T>, less: (T, T) -> bool, ghost w: Weight<T>, ghost p: nat, ghost k: nat)
      returns (b1: Elem<T>, ghost r: nat)
      requires Valid() && Agrees(less, w, repr) && 1 <= p < k < |all| - 1 && all[p] == a0 && all[k] == a1b0
      modifies this`all, repr
      ensures Valid() && |all| == |old(all)| && k < r < |all| && all[r] == b1
      ensures r == RunEnd(w, old(all), k + 1, |all| - 1) && all == Merge(w, old(all), p, k, r)
    {
      b1, r := FindEndOfRun(a1b0, tail, less, w, k, |all| - 1);
      InplaceMerge(a0, a1b0, b1, less, w, p, k, r);
    }

    /** One turn of the inner loop of list_sort: NEXT is where it goes on, or the
        pass is OVER since the run at A0 was the last. */
    method PassTurn(a0: Elem<T>, less: (T, T) -> bool, ghost w: Weight<T>, ghost p: nat, ghost cnt: nat)
      returns (next: Elem<T>, over: bool, ghost r: nat)
      requires Valid() && Agrees(less, w, repr) && 1 <= p < |all| - 1 && all[p] == a0
      modifies this`all, repr
      ensures Valid() && |all| == |old(all)| && p < r < |all| && all[r] == next
      ensures Pass(w, old(all), p, cnt) == if over then (all, cnt + 1) else Pass(w, all, r, cnt + 1)
    {
      ghost var s := all;
      next, r := FindEndOfRun(a0, tail, less, w, p, |all| - 1);
      over := next == tail;
      if over {
        PassLast(w, s, p, cnt);
      } else {
        ghost var k := r;
        next, r := MergeRuns(a0, next, less, w, p, k);
        PassStep(w, s, p, cnt, k, r);
      }
    }

    /** One pass of list_sort: merges adjacent pairs of runs. */
    method SortPass(less: (T, T) -> bool, ghost w: Weight<T>) returns (outputRunCnt: nat)
      requires Valid() && Agrees(less, w, repr)
      modifies this`all, repr
      ensures Valid() && |all| == |old(all)| && (all, outputRunCnt) == Pass(w, old(all), 1, 0)
    {
      outputRunCnt := 0;
      var a0 := head.next;
      ghost var p := 1;
      while a0 != tail
        invariant Valid() && |all| == |old(all)| && 1 <= p < |all| && all[p] == a0
        invariant Pass(w, all, p, outputRunCnt) == Pass(w, old(all), 1, 0)
        decreases |all| - p
      {
        var over;
        a0, over, p := PassTurn(a0, less, w, p, outputRunCnt);
        outputRunCnt := outputRunCnt + 1;
        if over {
          return;
        }
      }
      PassOver(w, all, p, outputRunCnt);
    }

    /** list_sort over weights. */
    method SortWeighted(less: (T, T) -> bool, ghost w: Weight<T>, ghost rank: Weight<T>)
      requires Valid() && Agrees(less, w, repr) && Stable(w, rank, all)
      modifies this`all, repr
      ensures Valid() && |all| == |old(all)| && multiset(all) == multiset(old(all))
      ensures SortedRange(w, all, 1, |all| - 1) && Stable(w, rank, all)
    {
      PassFacts(w, rank, all);
      var cnt := SortPass(less, w);
      while cnt > 1
        invariant Valid() && |all| == |old(all)| && multiset(all) == multiset(old(all))
        invariant Stable(w, rank, all) && Runs(w, all[1..|all| - 1]) <= cnt
        decreases cnt
      {
        PassFacts(w, rank, all);
        cnt := SortPass(less, w);
      }
      OneRangeIsSorted(w, all);
    }

    /** list_sort by weights that agree with LESS, with the nodes ranked as they are. */
    method SortRanked(less: (T, T) -> bool, ghost w: Weight<T>, ghost rank: Weight<T>)
      requires Valid() && Agrees(less, w, repr) && Ranks(rank, all)
      modifies this`all, repr
      ensures Valid() && |all| == |old(all)| && multiset(all) == multiset(old(all))
      ensures SortedRange(w, all, 1, |all| - 1) && Stable(w, rank, all)
    {
      RankStable(w, rank, all);
      SortWeighted(less, w, rank);
    }

    /** list_sort by weights that agree with LESS. */
    method SortAgreeing(less: (T, T) -> bool, ghost w: Weight<T>)
      requires Valid() && Agrees(less, w, repr)
      modifies this`all, repr
      ensures Valid() && multiset(Nodes()) == multiset(old(Nodes()))
      ensures SortedRange(w, all, 1, |all| - 1) && KeepsTies(less, old(Nodes()), Nodes())
    {
      ghost var rank := RanksExist(all);
      SortRanked(less, w, rank);
      TiesKept(less, w, rank, old(all), all, repr);
    }

    /** list_sort: the same nodes, in nondecreasing order, equivalent ones in
        the order they had. */
    method Sort(less: (T, T) -> bool)
      requires Valid() && StrictWeak(less)
      modifies this`all, repr
      ensures Valid() && multiset(Nodes()) == multiset(old(Nodes()))
      ensures SortedBy(less, Nodes()) && KeepsTies(less, old(Nodes()), Nodes())
    {
      ghost var w := WeightsExist(less, repr);
      SortAgreeing(less, w);
      InnerSorted(less, w, all, repr);
    }
  }

  lemma InnerSorted<T>(less: (T, T) -> bool, w: Weight<T>, s: seq<Elem<T>>, repr: set<Elem<T>>)
    requires |s| >= 2 && Agrees(less, w, repr) && SortedRange(w, s, 1, |s| - 1)
    requires forall k :: 0 <= k < |s| ==> s[k] in repr
    ensures SortedBy(less, Inner(s))
  {
  }

  /** One turn of a pass that finds two runs. */
  lemma {:induction false} PassStep<T>(w: Weight<T>, s: seq<Elem<T>>, p: nat, cnt: nat, k: nat, r: nat)
    requires 1 <= p < k < |s| - 1 && k == RunEnd(w, s, p + 1, |s| - 1) && k < r < |s| &&
             r == RunEnd(w, s, k + 1, |s| - 1)
    ensures Pass(w, s, p, cnt) == Pass(w, Merge(w, s, p, k, r), r, cnt + 1)
  {
  }

  /** One turn of a pass that finds one run. */
  lemma {:induction false} PassLast<T>(w: Weight<T>, s: seq<Elem<T>>, p: nat, cnt: nat)
    requires 1 <= p < |s| - 1 && RunEnd(w, s, p + 1, |s| - 1) == |s| - 1
    ensures Pass(w, s, p, cnt) == (s, cnt + 1)
  {
  }

  lemma PassOver<T>(w: Weight<T>, s: seq<Elem<T>>, p: nat, cnt: nat)
    requires p == |s| - 1 >= 1
    ensures Pass(w, s, p, cnt) == (s, cnt)
  {
  }

  /** A list is stable with respect to its own positions. */
  lemma RankStable<T>(w: Weight<T>, rank: Weight<T>, s: seq<Elem<T>>)
    requires Ranks(rank, s)
    ensures Stable(w, rank, s)
  {
  }

  lemma PassFacts<T>(w: Weight<T>, rank: Weight<T>, s: seq<Elem<T>>)
    requires |s| >= 2 && Stable(w, rank, s)
    ensures var t := Pass(w, s, 1, 0);
            && t.1 == (Runs(w, s[1..|s| - 1]) + 1) / 2
            && Runs(w, t.0[1..|s| - 1]) <= t.1
            && Stable(w, rank, t.0)
            && multiset(t.0) == multiset(s)
  {
    PassHalves(w, s, 1, 0);
    PassStable(w, rank, s, 1, 0);
    PassPermutes(w, s, 1, 0);
  }

  lemma OneRangeIsSorted<T>(w: Weight<T>, s: seq<Elem<T>>)
    requires |s| >= 2 && Runs(w, s[1..|s| - 1]) <= 1
    ensures SortedRange(w, s, 1, |s| - 1)
  {
    var t := s[1..|s| - 1];
    OneRunIsSorted(w, t);
    forall i, j | 1 <= i < j < |s| - 1 ensures w(s[i]) <= w(s[j]) {
      assert s[i] == t[i - 1] && s[j] == t[j - 1];
    }
  }
}
