/** Bits packed in words: lib/kernel/bitmap.c. */
module Bitmap {
  import opened Common
  import opened Bits

  const ELEM_BITS := 32

  type Word = w: nat | w < 0x1_0000_0000

  lemma WordRange()
    ensures Pow2(ELEM_BITS) == 0x1_0000_0000
  {
    assert Pow2(8) == 256;
    assert Pow2(16) == 65536 by {
      assert Pow2(12) == 4096;
    }
    assert Pow2(20) == 0x10_0000;
    assert Pow2(24) == 0x100_0000;
    assert Pow2(28) == 0x1000_0000;
  }

  /** elem_cnt. */
  function ElemCnt(n: nat): nat {
    (n + 31) / 32
  }

  /** Bits START to START + CNT of V all have the value X. */
  ghost predicate AllAre(v: seq<bool>, start: nat, cnt: nat, x: bool)
    requires start + cnt <= |v|
  {
    forall i :: start <= i < start + cnt ==> v[i] == x
  }

  /** V with CNT bits from START set to X. */
  ghost function Fill(v: seq<bool>, start: nat, cnt: nat, x: bool): seq<bool> {
    seq(|v|, i requires 0 <= i < |v| => if start <= i < start + cnt then x else v[i])
  }

  /** Where, among CNT bits from START, V is X. */
  ghost function Places(v: seq<bool>, start: nat, cnt: nat, x: bool): set<nat> {
    set i: nat | start <= i < start + cnt && i < |v| && v[i] == x
  }

  lemma PlacesNext(v: seq<bool>, start: nat, i: nat, x: bool)
    requires start + i < |v|
    ensures |Places(v, start, i + 1, x)| == |Places(v, start, i, x)| + if v[start + i] == x then 1 else 0
  {
    var more := if v[start + i] == x then {start + i} else {};
    assert Places(v, start, i + 1, x) == Places(v, start, i, x) + more;
  }

  /** R is the first place at or after START with CNT bits X, if there is one. */
  ghost predicate FirstRun(v: seq<bool>, start: nat, cnt: nat, x: bool, r: Option<nat>) {
    match r
    case Some(i) => start <= i && i + cnt <= |v| && AllAre(v, i, cnt, x) && NoRun(v, start, i, cnt, x)
    case None => NoRun(v, start, |v| + 1, cnt, x)
  }

  ghost predicate NoRun(v: seq<bool>, start: nat, end: nat, cnt: nat, x: bool) {
    forall j: nat :: start <= j < end && j + cnt <= |v| ==> !AllAre(v, j, cnt, x)
  }

  class Bitmap {
    const bitCnt: nat
    const bits: array<Word>

    ghost predicate Valid() {
      bits.Length == ElemCnt(bitCnt)
    }

    /** The bitmap as a sequence of bits. */
    ghost function View(): seq<bool>
      requires Valid()
      reads bits
    {
      seq(bitCnt, k requires 0 <= k < bitCnt reads bits => Bit(bits[k / ELEM_BITS], k % ELEM_BITS))
    }

    /** bitmap_create_in_buf over storage with any contents. */
    constructor (n: nat, storage: array<Word>)
      requires storage.Length == ElemCnt(n)
      modifies storage
      ensures Valid() && bitCnt == n && bits == storage && View() == seq(n, _ => false)
    {
      bitCnt := n;
      bits := storage;
      new;
      SetMultiple(0, n, false);
    }

    /** bitmap_mark. */
    method Mark(k: nat)
      requires Valid() && k < bitCnt
      modifies bits
      ensures View() == old(View())[k := true]
    {
      var idx, mask := k / ELEM_BITS, Pow2(k % ELEM_BITS);
      WordFacts(bits[idx], k % ELEM_BITS);
      bits[idx] := Or(bits[idx], mask);
      forall j | 0 <= j < bitCnt ensures View()[j] == old(View())[k := true][j] {
        BitwiseOps(old(bits[idx]), mask, j % ELEM_BITS);
        MaskBit(k % ELEM_BITS, j % ELEM_BITS);
      }
    }

    /** bitmap_reset. */
    method Reset(k: nat)
      requires Valid() && k < bitCnt
      modifies bits
      ensures View() == old(View())[k := false]
    {
      var idx, mask := k / ELEM_BITS, Pow2(k % ELEM_BITS);
      WordFacts(bits[idx], k % ELEM_BITS);
      bits[idx] := And(bits[idx], Not(mask, ELEM_BITS));
      forall j | 0 <= j < bitCnt ensures View()[j] == old(View())[k := false][j] {
        ClearedBit(old(bits[idx]), k % ELEM_BITS, j % ELEM_BITS);
        SamePlace(k, j);
      }
    }

    /** bitmap_flip. */
    method Flip(k: nat)
      requires Valid() && k < bitCnt
      modifies bits
      ensures View() == old(View())[k := !old(View())[k]]
    {
      var idx, mask := k / ELEM_BITS, Pow2(k % ELEM_BITS);
      WordFacts(bits[idx], k % ELEM_BITS);
      bits[idx] := Xor(bits[idx], mask);
      forall j | 0 <= j < bitCnt ensures View()[j] == old(View())[k := !old(View())[k]][j] {
        FlippedBit(old(bits[idx]), k % ELEM_BITS, j % ELEM_BITS);
        SamePlace(k, j);
      }
    }

    /** bitmap_test. */
    method Test(k: nat) returns (r: bool)
      requires Valid() && k < bitCnt
      ensures r == View()[k]
    {
      r := And(bits[k / ELEM_BITS], Pow2(k % ELEM_BITS)) != 0;
      TestBit(bits[k / ELEM_BITS], k % ELEM_BITS);
    }

    /** The end of bitmap_read: bits past the last are cleared in storage. */
    method TrimLast()
      requires Valid() && bitCnt > 0
      modifies bits
      ensures View() == old(View())
      ensures forall k :: bitCnt <= k < ELEM_BITS * bits.Length ==> !Bit(bits[k / ELEM_BITS], k % ELEM_BITS)
    {
      var last, mask := ElemCnt(bitCnt) - 1, LastMask(bitCnt);
      LastMaskBit(bitCnt, ELEM_BITS * last);
      WordRange();
      OpsFit(bits[last], mask, ELEM_BITS);
      bits[last] := And(bits[last], mask);
      forall k | 0 <= k < ELEM_BITS * bits.Length
        ensures Bit(bits[k / ELEM_BITS], k % ELEM_BITS) <==> k < bitCnt && old(Bit(bits[k / ELEM_BITS], k % ELEM_BITS))
      {
        if k / ELEM_BITS == last {
          LastMaskBit(bitCnt, k);
          BitwiseOps(old(bits[last]), mask, k % ELEM_BITS);
        }
      }
    }

    /** bitmap_set_multiple. */
    method SetMultiple(start: nat, cnt: nat, x: bool)
      requires Valid() && start + cnt <= bitCnt
      modifies bits
      ensures View() == Fill(old(View()), start, cnt, x)
    {
      var i := 0;
      while i < cnt
        invariant i <= cnt && View() == Fill(old(View()), start, i, x)
      {
        if x {
          Mark(start + i);
        } else {
          Reset(start + i);
        }
        i := i + 1;
      }
    }

    /** bitmap_count. */
    method Count(start: nat, cnt: nat, x: bool) returns (n: nat)
      requires Valid() && start + cnt <= bitCnt
      ensures n == |Places(View(), start, cnt, x)|
    {
      n := 0;
      var i := 0;
      ghost var v := View();
      while i < cnt
        invariant i <= cnt && n == |Places(v, start, i, x)|
      {
        PlacesNext(v, start, i, x);
        var b := Test(start + i);
        if b == x {
          n := n + 1;
        }
        i := i + 1;
      }
    }

    /** bitmap_contains; bitmap_all is its negation for false. */
    method Contains(start: nat, cnt: nat, x: bool) returns (r: bool)
      requires Valid() && start + cnt <= bitCnt
      ensures r <==> !AllAre(View(), start, cnt, !x)
    {
      var i := 0;
      while i < cnt
        invariant i <= cnt && AllAre(View(), start, i, !x)
      {
        var b := Test(start + i);
        if b == x {
          return true;
        }
        i := i + 1;
      }
      r := false;
    }

    /** bitmap_scan: the least index where the group fits. */
    method Scan(start: nat, cnt: nat, x: bool) returns (r: Option<nat>)
      requires Valid() && start <= bitCnt
      ensures FirstRun(View(), start, cnt, x, r)
      ensures cnt == 0 ==> r == Some(start)
    {
      if cnt <= bitCnt {
        var last := bitCnt - cnt;
        var i := start;
        while i <= last
          invariant start <= i && NoRun(View(), start, i, cnt, x)
          invariant cnt == 0 ==> i == start
        {
          var other := Contains(i, cnt, !x);
          if !other {
            return Some(i);
          }
          i := i + 1;
        }
      }
      r := None;
    }

    /** bitmap_scan_and_flip. */
    method ScanAndFlip(start: nat, cnt: nat, x: bool) returns (r: Option<nat>)
      requires Valid() && start <= bitCnt
      modifies bits
      ensures FirstRun(old(View()), start, cnt, x, r)
      ensures View() == if r.Some? then Fill(old(View()), r.value, cnt, !x) else old(View())
    {
      r := Scan(start, cnt, x);
      if r.Some? {
        SetMultiple(r.value, cnt, !x);
      }
    }
  }

  /** last_mask: the bits of the last word that are used. */
  function LastMask(n: nat): nat {
    if n % ELEM_BITS != 0 then Pow2(n % ELEM_BITS) - 1 else Pow2(ELEM_BITS) - 1
  }

  lemma {:induction false} LastMaskBit(n: nat, k: nat)
    requires n > 0 && k / ELEM_BITS == ElemCnt(n) - 1
    ensures LastMask(n) < Pow2(ELEM_BITS)
    ensures Bit(LastMask(n), k % ELEM_BITS) <==> k < n
  {
    LastWord(n, k);
    if n % ELEM_BITS != 0 {
      LowMask(n % ELEM_BITS, k % ELEM_BITS);
      PowLess(n % ELEM_BITS, ELEM_BITS);
    } else {
      LowMask(ELEM_BITS, k % ELEM_BITS);
    }
  }

  /** Bit K in the last word of N bits. */
  lemma LastWord(n: nat, k: nat)
    requires n > 0 && k / ELEM_BITS == ElemCnt(n) - 1
    ensures if n % ELEM_BITS != 0 then k < n <==> k % ELEM_BITS < n % ELEM_BITS else k < n
  {
  }

  lemma FlippedBit(w: nat, i: nat, j: nat)
    ensures Bit(Xor(w, Pow2(i)), j) <==> (Bit(w, j) != (i == j))
  {
    BitwiseOps(w, Pow2(i), j);
    MaskBit(i, j);
  }

  lemma ClearedBit(w: nat, i: nat, j: nat)
    requires Pow2(i) < Pow2(ELEM_BITS) && j < ELEM_BITS
    ensures Bit(And(w, Not(Pow2(i), ELEM_BITS)), j) <==> Bit(w, j) && i != j
  {
    BitwiseOps(w, Not(Pow2(i), ELEM_BITS), j);
    NotBit(Pow2(i), ELEM_BITS, j);
    MaskBit(i, j);
  }

  lemma SamePlace(k: nat, j: nat)
    ensures k / ELEM_BITS == j / ELEM_BITS && k % ELEM_BITS == j % ELEM_BITS <==> k == j
  {
  }

  lemma WordFacts(w: Word, i: nat)
    requires i < ELEM_BITS
    ensures Pow2(i) < Pow2(ELEM_BITS) == 0x1_0000_0000
    ensures Or(w, Pow2(i)) < Pow2(ELEM_BITS) && Xor(w, Pow2(i)) < Pow2(ELEM_BITS)
    ensures And(w, Not(Pow2(i), ELEM_BITS)) < Pow2(ELEM_BITS)
  {
    WordRange();
    PowLess(i, ELEM_BITS);
    OpsFit(w, Pow2(i), ELEM_BITS);
    OpsFit(w, Not(Pow2(i), ELEM_BITS), ELEM_BITS);
  }
}
