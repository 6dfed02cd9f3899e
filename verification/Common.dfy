/** Small definitions shared by the component models. */
module Common {

  datatype Option<+T> = None | Some(value: T)

  type Byte = b: nat | b < 256

  /** Bytes in a page. */
  const PGSIZE := 4096

  /** A subset has no more elements, and as many only if it is the whole set. */
  lemma SubsetSize<T>(a: set<T>, b: set<T>)
    requires a <= b
    ensures |a| <= |b| && (|a| == |b| ==> a == b)
  {
    assert b == a + (b - a);
  }

  /** No element occurs twice. */
  ghost predicate NoDup<T>(s: seq<T>) {
    forall i, j :: 0 <= i < j < |s| ==> s[i] != s[j]
  }

  lemma NoDupCons<T>(s: seq<T>)
    requires s != []
    ensures NoDup(s) <==> NoDup(s[1..]) && s[0] !in s[1..]
  {
    forall i, j | NoDup(s[1..]) && s[0] !in s[1..] && 0 <= i < j < |s| ensures s[i] != s[j] {
      assert s[j] == s[1..][j - 1] && (i > 0 ==> s[i] == s[1..][i - 1]);
    }
    if NoDup(s) {
      NoDupTail(s);
    }
  }

  lemma NoDupTail<T>(s: seq<T>)
    requires NoDup(s) && s != []
    ensures NoDup(s[1..]) && s[0] !in s[1..]
    ensures forall x :: x in s <==> x == s[0] || x in s[1..]
  {
    assert s == [s[0]] + s[1..];
  }

  lemma NoDupPush<T>(s: seq<T>, x: T)
    requires NoDup(s) && x !in s
    ensures NoDup(s + [x])
    ensures forall y :: y in s + [x] <==> y in s || y == x
  {
  }

  /** list_remove on a list without repetitions. */
  function Unlink<T(==)>(q: seq<T>, x: T): seq<T> {
    if q == [] then [] else if q[0] == x then q[1..] else [q[0]] + Unlink(q[1..], x)
  }

  lemma {:induction false} UnlinkMembers<T>(q: seq<T>, x: T)
    requires NoDup(q)
    ensures NoDup(Unlink(q, x))
    ensures forall y :: y in Unlink(q, x) <==> y in q && y != x
  {
    if q != [] {
      NoDupTail(q);
      if q[0] != x {
        UnlinkMembers(q[1..], x);
        var t := Unlink(q[1..], x);
        assert q[0] !in t;
        assert forall y :: y in [q[0]] + t <==> y == q[0] || y in t;
      }
    }
  }
}
