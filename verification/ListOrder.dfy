/** On finitely many nodes a strict weak order is the order of integer weights. */
module ListOrder {
  import opened Common
  import opened ListSpec

  /** What list.h asks of a list_less_func: a strict weak order, that is, an
      asymmetric relation whose complement is transitive. */
  ghost predicate StrictWeak<T(!new)>(less: (T, T) -> bool) {
    && (forall x, y :: less(x, y) ==> !less(y, x))
    && (forall x, y, z :: less(x, y) ==> less(x, z) || less(z, y))
  }

  /** Positions of the nodes that are less than key X. */
  ghost function Below<T>(less: (T, T) -> bool, s: seq<Elem<T>>, x: T): set<nat> {
    set i: nat | i < |s| && less(s[i].key, x)
  }

  lemma BelowAgrees<T(!new)>(less: (T, T) -> bool, s: seq<Elem<T>>, i: nat, y: T)
    requires StrictWeak(less) && i < |s|
    ensures less(s[i].key, y) <==> |Below(less, s, s[i].key)| < |Below(less, s, y)|
  {
    var x := s[i].key;
    var a, b := Below(less, s, x), Below(less, s, y);
    if less(x, y) {
      assert a <= b && i in b && i !in a;
      SubsetSize(a, b);
    } else {
      assert b <= a;
      SubsetSize(b, a);
    }
  }

  /** LESS and the weights W order the nodes of REPR alike. */
  ghost predicate Agrees<T>(less: (T, T) -> bool, w: Weight<T>, repr: set<Elem<T>>) {
    forall x, y {:trigger less(x.key, y.key)} :: x in repr && y in repr ==> (less(x.key, y.key) <==> w(x) < w(y))
  }

  lemma {:induction false} Listing<T>(repr: set<Elem<T>>) returns (s: seq<Elem<T>>)
    ensures forall x :: x in repr ==> x in s
  {
    if repr == {} {
      s := [];
    } else {
      var x :| x in repr;
      s := Listing(repr - {x});
      s := s + [x];
    }
  }

  /** Every strict weak order has weights on a finite set of nodes. */
  lemma WeightsExist<T(!new)>(less: (T, T) -> bool, repr: set<Elem<T>>) returns (w: Weight<T>)
    requires StrictWeak(less)
    ensures Agrees(less, w, repr)
  {
    var s := Listing(repr);
    w := (e: Elem<T>) => |Below(less, s, e.key)|;
    forall x, y | x in repr && y in repr ensures less(x.key, y.key) <==> w(x) < w(y) {
      var i: nat :| i < |s| && s[i] == x;
      BelowAgrees(less, s, i, y.key);
    }
  }

  /** The position of a node in a list without repetitions. */
  ghost function Position<T>(s: seq<Elem<T>>, e: Elem<T>): int {
    if s == [] then 0 else if s[0] == e then 0 else 1 + Position(s[1..], e)
  }

  lemma {:induction false} PositionAt<T>(s: seq<Elem<T>>, k: nat)
    requires NoDup(s) && k < |s|
    ensures Position(s, s[k]) == k
    decreases k
  {
    if k > 0 {
      assert s[k] == s[1..][k - 1];
      PositionAt(s[1..], k - 1);
    }
  }

  /** RANK gives the nodes of S their positions. */
  ghost predicate Ranks<T>(rank: Weight<T>, s: seq<Elem<T>>) {
    forall k :: 0 <= k < |s| ==> rank(s[k]) == k
  }

  lemma RanksExist<T>(s: seq<Elem<T>>) returns (rank: Weight<T>)
    requires NoDup(s)
    ensures Ranks(rank, s)
  {
    rank := (e: Elem<T>) => Position(s, e);
    forall k | 0 <= k < |s| ensures rank(s[k]) == k {
      PositionAt(s, k);
    }
  }

  /** No node is less than one before it. */
  ghost predicate SortedBy<T>(less: (T, T) -> bool, s: seq<Elem<T>>) {
    forall i, j :: 0 <= i < j < |s| ==> !less(s[j].key, s[i].key)
  }

  ghost predicate Precedes<T>(s: seq<Elem<T>>, x: Elem<T>, y: Elem<T>) {
    exists a, b :: 0 <= a < b < |s| && s[a] == x && s[b] == y
  }

  /** Nodes of T that tie stand in the order they have in S. */
  ghost predicate KeepsTies<T>(less: (T, T) -> bool, s: seq<Elem<T>>, t: seq<Elem<T>>) {
    forall i, j :: 0 <= i < j < |t| && !less(t[i].key, t[j].key) && !less(t[j].key, t[i].key) ==>
      Precedes(s, t[i], t[j])
  }

  ghost function Inner<T>(s: seq<Elem<T>>): seq<Elem<T>>
    requires |s| >= 2
  {
    s[1..|s| - 1]
  }

  lemma InnerMultiset<T>(s: seq<Elem<T>>, t: seq<Elem<T>>)
    requires |s| == |t| >= 2 && multiset(s) == multiset(t) && s[0] == t[0] && s[|s| - 1] == t[|t| - 1]
    ensures multiset(Inner(s)) == multiset(Inner(t))
  {
    assert s == [s[0]] + Inner(s) + [s[|s| - 1]];
    assert t == [t[0]] + Inner(t) + [t[|t| - 1]];
    var ends := multiset{s[0]} + multiset{s[|s| - 1]};
    assert multiset(Inner(s)) == multiset(s) - ends;
    assert multiset(Inner(t)) == multiset(t) - ends;
  }

  lemma Occurs<T>(rank: Weight<T>, s: seq<Elem<T>>, t: seq<Elem<T>>, k: nat) returns (a: nat)
    requires NoDup(s) && NoDup(t) && |s| == |t| >= 2 && multiset(s) == multiset(t) && Ranks(rank, s)
    requires s[0] == t[0] && s[|s| - 1] == t[|t| - 1] && 1 <= k < |t| - 1
    ensures 1 <= a < |s| - 1 && s[a] == t[k] && rank(t[k]) == a
  {
    assert t[k] in multiset(t);
    assert t[k] in s;
    a :| 0 <= a < |s| && s[a] == t[k];
  }

  lemma TiesKept<T>(less: (T, T) -> bool, w: Weight<T>, rank: Weight<T>, s: seq<Elem<T>>, t: seq<Elem<T>>,
                    repr: set<Elem<T>>)
    requires NoDup(s) && NoDup(t) && |s| == |t| >= 2 && multiset(s) == multiset(t) && Ranks(rank, s)
    requires s[0] == t[0] && s[|s| - 1] == t[|t| - 1]
    requires Agrees(less, w, repr) && forall k :: 0 <= k < |t| ==> t[k] in repr
    requires Stable(w, rank, t)
    ensures KeepsTies(less, Inner(s), Inner(t)) && multiset(Inner(s)) == multiset(Inner(t))
  {
    InnerMultiset(s, t);
    var u := Inner(t);
    forall i, j | 0 <= i < j < |u| && !less(u[i].key, u[j].key) && !less(u[j].key, u[i].key)
      ensures Precedes(Inner(s), u[i], u[j])
    {
      var a := Occurs(rank, s, t, i + 1);
      var b := Occurs(rank, s, t, j + 1);
      assert Inner(s)[a - 1] == u[i] && Inner(s)[b - 1] == u[j];
    }
  }
}
