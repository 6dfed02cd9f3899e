/** The run queue and the wait lists as linked lists: every thread has a single
    list_elem, which the run queue and all semaphores share. */
module KernelQueues {
  import opened Common
  import opened KernelModel
  import opened ListSpec
  import L = List

  datatype Queue = RunQueue | WaitList(sem: Sem)

  /** T is on no queue. */
  ghost predicate OnNone(c: map<Queue, seq<Tid>>, t: Tid) {
    forall q :: q in c ==> t !in c[q]
  }

  method NewList() returns (l: L.List<Tid>)
    ensures l.Valid() && |l.all| == 2 && (forall e :: e in l.repr ==> e in l.all) && fresh(l) && fresh(l.repr)
  {
    var h := new Elem(0);
    var t := new Elem(0);
    l := new L.List<Tid>(h, t);
  }

  class Queues {
    /** The elem member of each struct thread. */
    var elem: map<Tid, Elem<Tid>>
    var lists: map<Queue, L.List<Tid>>
    ghost var contents: map<Queue, seq<Tid>>
    ghost var Repr: set<object>

    ghost predicate ElemOk(t: Tid)
      reads this, Repr
    {
      t in elem ==> elem[t] in Repr && elem[t].key == t
    }

    /** The nodes of list Q are the elems of the threads it should hold. */
    ghost predicate ListOk(q: Queue)
      reads this, Repr
    {
      q in lists ==>
        var l := lists[q];
        && q in contents && l in Repr && l.repr <= Repr && l.Valid() && |l.all| == |contents[q]| + 2
        && (forall e :: e in l.repr ==> e in l.all)
        && (forall i :: 0 <= i < |contents[q]| ==> contents[q][i] in elem && l.all[i + 1] == elem[contents[q][i]])
        && (forall t :: t in elem ==> elem[t] != l.head && elem[t] != l.tail)
    }

    /** No node is on two lists. */
    ghost predicate Apart(p: Queue, q: Queue)
      reads this, Repr
    {
      p in lists && q in lists && p != q && lists[p] in Repr && lists[q] in Repr ==>
        lists[p] != lists[q] && lists[p].repr !! lists[q].repr
    }

    ghost predicate Valid()
      reads this, Repr
    {
      && this !in Repr && lists.Keys == contents.Keys
      && (forall t :: ElemOk(t)) && (forall q :: ListOk(q)) && (forall p, q :: Apart(p, q))
    }

    constructor ()
      ensures Valid() && fresh(Repr) && contents == map[] && elem == map[]
    {
      elem, lists, contents, Repr := map[], map[], map[], {};
    }

    /** A new struct thread; its page may have been another's before. */
    method AddThread(t: Tid)
      requires Valid()
      modifies this`elem, this`Repr
      ensures Valid() && elem.Keys == old(elem).Keys + {t} && contents == old(contents) && lists == old(lists)
      ensures Repr >= old(Repr) && fresh(Repr - old(Repr))
    {
      if t !in elem {
        var e := new Elem(t);
        elem, Repr := elem[t := e], Repr + {e};
        forall u ensures ElemOk(u) {
          assert u != t ==> old(ElemOk(u));
        }
        forall p ensures ListOk(p) {
          assert old(ListOk(p));
        }
        forall p, r ensures Apart(p, r) {
          assert old(Apart(p, r)) && old(ListOk(p)) && old(ListOk(r));
        }
      } else {
        assert elem.Keys + {t} == elem.Keys;
      }
    }

    /** list_init of a list that nobody is on. */
    method AddQueue(q: Queue)
      requires Valid() && (q in contents ==> contents[q] == [])
      modifies this`lists, this`contents, this`Repr
      ensures Valid() && contents == old(contents)[q := []] && elem == old(elem)
      ensures Repr >= old(Repr) && fresh(Repr - old(Repr))
    {
      var l := NewList();
      lists, contents, Repr := lists[q := l], contents[q := []], Repr + {l} + l.repr;
      forall u ensures ElemOk(u) {
        assert old(ElemOk(u));
      }
      forall p ensures ListOk(p) {
        assert old(ListOk(p));
      }
      forall p, r ensures Apart(p, r) {
        assert old(Apart(p, r)) && old(ListOk(p)) && old(ListOk(r));
      }
    }

    /** A thread's elem is a node of no list the thread is not on. */
    lemma NotOnList(q: Queue, t: Tid)
      requires Valid() && q in lists && t in elem && t !in contents[q]
      ensures elem[t] !in lists[q].repr
    {
      assert ListOk(q) && ElemOk(t);
      var l, c := lists[q], contents[q];
      forall k | 0 <= k < |l.all| ensures l.all[k] != elem[t] {
        if 0 < k < |l.all| - 1 {
          assert ElemOk(c[k - 1]) && l.all[k - 1 + 1] == elem[c[k - 1]];
        }
      }
    }

    /** list_push_back of T's elem. */
    method PushBack(q: Queue, t: Tid)
      requires Valid() && q in lists && t in elem && OnNone(contents, t)
      modifies this`contents, Repr
      ensures Valid() && contents == old(contents)[q := old(contents)[q] + [t]]
      ensures elem == old(elem) && lists == old(lists) && Repr == old(Repr)
    {
      assert ListOk(q) && ElemOk(t);
      var l := lists[q];
      forall p | p in lists ensures elem[t] !in lists[p].repr {
        NotOnList(p, t);
      }
      l.Insert(l.tail, elem[t], |contents[q]| + 1);
      contents := contents[q := contents[q] + [t]];
      forall u ensures ElemOk(u) {
        assert old(ElemOk(u));
      }
      forall p ensures ListOk(p) {
        assert old(ListOk(p)) && old(Apart(p, q));
      }
      forall p, r ensures Apart(p, r) {
        assert old(Apart(p, r)) && old(ListOk(p)) && old(ListOk(r)) && old(Apart(p, q)) && old(Apart(r, q));
      }
    }

    /** list_remove of the first node of list Q. */
    method RemoveFront(q: Queue)
      requires Valid() && q in lists && contents[q] != []
      modifies this`contents, Repr
      ensures Valid() && contents == old(contents)[q := old(contents)[q][1..]]
      ensures elem == old(elem) && lists == old(lists) && Repr == old(Repr)
    {
      assert ListOk(q);
      var l := lists[q];
      assert l.all[0].next == l.all[0 + 1];
      var _ := l.Remove(l.head.next, 1);
      contents := contents[q := contents[q][1..]];
      forall u ensures ElemOk(u) {
        assert old(ElemOk(u));
      }
      forall p ensures ListOk(p) {
        assert old(ListOk(p)) && old(Apart(p, q));
      }
      forall p, r ensures Apart(p, r) {
        assert old(Apart(p, r)) && old(ListOk(p)) && old(ListOk(r));
      }
    }

    /** list_pop_front; list_entry gives the thread back. */
    method PopFront(q: Queue) returns (t: Tid)
      requires Valid() && q in lists && contents[q] != []
      modifies this`contents, Repr
      ensures Valid() && t == old(contents)[q][0] && contents == old(contents)[q := old(contents)[q][1..]]
      ensures elem == old(elem) && lists == old(lists) && Repr == old(Repr) && OnNone(contents, t)
    {
      assert ListOk(q) && ElemOk(contents[q][0]);
      var l := lists[q];
      assert l.all[0].next == l.all[0 + 1] && l.all[0 + 1] == elem[contents[q][0]];
      t := l.head.next.key;
      Alone(q);
      RemoveFront(q);
    }

    /** The thread in front of a list is on no other, and on this one once: the
        lists share no node. */
    lemma Alone(q: Queue)
      requires Valid() && q in lists && contents[q] != []
      ensures contents[q][0] !in contents[q][1..]
      ensures forall p :: p in contents && p != q ==> contents[q][0] !in contents[p]
    {
      assert ListOk(q);
      var l, c := lists[q], contents[q];
      var t := c[0];
      assert l.all[0 + 1] == elem[t];
      forall i | 1 <= i < |c| ensures c[i] != t {
        assert l.all[i + 1] == elem[c[i]];
      }
      forall p | p in contents && p != q ensures t !in contents[p] {
        assert ListOk(p) && Apart(p, q);
        forall i | 0 <= i < |contents[p]| ensures contents[p][i] != t {
          assert lists[p].all[i + 1] == elem[contents[p][i]];
        }
      }
    }

    /** list_empty. */
    method IsEmpty(q: Queue) returns (r: bool)
      requires Valid() && q in lists
      ensures r <==> contents[q] == []
    {
      assert ListOk(q);
      var l := lists[q];
      assert l.all[0].next == l.all[0 + 1];
      assert contents[q] != [] ==> l.all[0 + 1] == elem[contents[q][0]];
      r := l.head.next == l.tail;
    }
  }
}
