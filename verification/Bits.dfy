/** Bitwise AND on unsigned words, and the power-of-two tricks built on it. */
module Bits {
  import opened DivMod

  /** A & B. */
  function And(a: nat, b: nat): nat {
    if a == 0 || b == 0 then 0 else 2 * And(a / 2, b / 2) + if a % 2 == 1 && b % 2 == 1 then 1 else 0
  }

  ghost predicate Power2(x: nat) {
    x == 1 || (x > 0 && x % 2 == 0 && Power2(x / 2))
  }

  lemma {:induction false} AndSelf(x: nat)
    ensures And(x, x) == x
  {
    if x > 0 {
      AndSelf(x / 2);
    }
  }

  /** One step of x & (x - 1). */
  lemma {:induction false} AndPrev(x: nat)
    requires x > 0
    ensures And(x, x - 1) == if x % 2 == 1 then x - 1 else 2 * And(x / 2, x / 2 - 1)
  {
    if x % 2 == 1 {
      AndSelf(x / 2);
      assert (x - 1) / 2 == x / 2 && (x - 1) % 2 == 0;
      if x > 1 {
        assert And(x, x - 1) == 2 * And(x / 2, x / 2);
      }
    } else {
      assert (x - 1) / 2 == x / 2 - 1;
      assert And(x, x - 1) == 2 * And(x / 2, x / 2 - 1);
    }
  }

  /** is_power_of_2: x & (x - 1) is zero exactly for powers of two. */
  lemma {:induction false} PowerOfTwoTest(x: nat)
    requires x > 0
    ensures And(x, x - 1) == 0 <==> Power2(x)
  {
    AndPrev(x);
    if x % 2 == 0 {
      PowerOfTwoTest(x / 2);
    } else if x > 1 {
      assert !Power2(x);
    }
  }

  /** turn_off_least_1bit: a number that is not a power of two gets smaller but
      stays above the same power of two. */
  lemma {:induction false} TurnOffKeepsTop(x: nat, c: nat)
    requires Power2(c) && c <= x < 2 * c
    ensures And(x, x - 1) < x
    ensures !Power2(x) ==> c <= And(x, x - 1)
  {
    AndPrev(x);
    if x % 2 == 0 && c > 1 {
      TurnOffKeepsTop(x / 2, c / 2);
    }
  }

  /** H & (N - 1) is H mod N for a power of two N. */
  lemma {:induction false} MaskIsMod(x: nat, n: nat)
    requires Power2(n)
    ensures And(x, n - 1) == x % n
  {
    if n > 1 {
      var m := n / 2;
      MaskIsMod(x / 2, m);
      assert (n - 1) / 2 == m - 1 && (n - 1) % 2 == 1;
      ModDouble(x, m);
      if x > 0 {
        assert And(x, n - 1) == 2 * And(x / 2, m - 1) + x % 2;
      }
    }
  }

  lemma ModDouble(x: nat, m: nat)
    requires m > 0
    ensures x % (2 * m) == 2 * ((x / 2) % m) + x % 2
  {
    var q, r := (x / 2) / m, (x / 2) % m;
    DivUnique(x, 2 * m, q, 2 * r + x % 2);
  }

  /** A power of two fits between X / 2 and X. */
  lemma {:induction false} PowerBelow(x: nat) returns (c: nat)
    requires x > 0
    ensures Power2(c) && c <= x < 2 * c
  {
    if x == 1 {
      c := 1;
    } else {
      c := PowerBelow(x / 2);
      c := 2 * c;
    }
  }

  lemma {:induction false} PowerUnique(x: nat, c: nat, d: nat)
    requires Power2(c) && c <= x < 2 * c && Power2(d) && d <= x < 2 * d
    ensures c == d
  {
    if c > 1 && d > 1 {
      PowerUnique(x / 2, c / 2, d / 2);
    }
  }

  // ----- single bits

  /** A | B and A ^ B. */
  function Or(a: nat, b: nat): nat {
    if a == 0 then b else if b == 0 then a
    else 2 * Or(a / 2, b / 2) + if a % 2 == 1 || b % 2 == 1 then 1 else 0
  }

  function Xor(a: nat, b: nat): nat {
    if a == 0 then b else if b == 0 then a
    else 2 * Xor(a / 2, b / 2) + if a % 2 != b % 2 then 1 else 0
  }

  /** 1 << I. */
  function Pow2(i: nat): (r: nat)
    ensures r >= 1
  {
    if i == 0 then 1 else 2 * Pow2(i - 1)
  }

  /** X << N, without a limit on its width. */
  function Shl(x: nat, n: nat): nat {
    if n == 0 then x else 2 * Shl(x, n - 1)
  }

  /** ~A in words of N bits. */
  function Not(a: nat, n: nat): nat
    requires a < Pow2(n)
  {
    Pow2(n) - 1 - a
  }

  /** Bit I of word W. */
  predicate Bit(w: nat, i: nat) {
    if i == 0 then w % 2 == 1 else Bit(w / 2, i - 1)
  }

  lemma {:induction false} ZeroBit(i: nat)
    ensures !Bit(0, i)
  {
    if i > 0 {
      ZeroBit(i - 1);
    }
  }

  /** The operators work bit by bit. */
  lemma {:induction false} BitwiseOps(a: nat, b: nat, i: nat)
    ensures Bit(And(a, b), i) <==> Bit(a, i) && Bit(b, i)
    ensures Bit(Or(a, b), i) <==> Bit(a, i) || Bit(b, i)
    ensures Bit(Xor(a, b), i) <==> (Bit(a, i) != Bit(b, i))
  {
    ZeroBit(i);
    if i > 0 {
      BitwiseOps(a / 2, b / 2, i - 1);
      Halves(a, b);
    }
  }

  lemma {:induction false} Halves(a: nat, b: nat)
    ensures And(a, b) / 2 == And(a / 2, b / 2) && Or(a, b) / 2 == Or(a / 2, b / 2) && Xor(a, b) / 2 == Xor(a / 2, b / 2)
  {
  }

  lemma {:induction false} MaskBit(i: nat, j: nat)
    ensures Bit(Pow2(i), j) <==> i == j
  {
    ZeroBit(j);
    if i > 0 && j > 0 {
      MaskBit(i - 1, j - 1);
    } else if j > 0 {
      ZeroBit(j - 1);
    }
  }

  /** (1 << I) - 1 has exactly its low I bits set. */
  lemma {:induction false} LowMask(i: nat, j: nat)
    ensures Bit(Pow2(i) - 1, j) <==> j < i
  {
    ZeroBit(j);
    if i > 0 && j > 0 {
      LowMask(i - 1, j - 1);
      assert (Pow2(i) - 1) / 2 == Pow2(i - 1) - 1;
    }
  }

  lemma {:induction false} NotBit(a: nat, n: nat, j: nat)
    requires a < Pow2(n) && j < n
    ensures Bit(Not(a, n), j) <==> !Bit(a, j)
  {
    assert Not(a, n) / 2 == Pow2(n - 1) - 1 - a / 2;
    if j > 0 {
      NotBit(a / 2, n - 1, j - 1);
    }
  }

  /** Words of N bits stay words of N bits. */
  lemma {:induction false} OpsFit(a: nat, b: nat, n: nat)
    requires a < Pow2(n) && b < Pow2(n)
    ensures And(a, b) < Pow2(n) && Or(a, b) < Pow2(n) && Xor(a, b) < Pow2(n)
  {
    if n > 0 {
      OpsFit(a / 2, b / 2, n - 1);
    }
  }

  lemma {:induction false} PowLess(i: nat, n: nat)
    requires i < n
    ensures Pow2(i) < Pow2(n)
  {
    if n > i + 1 {
      PowLess(i, n - 1);
    }
  }

  /** Testing with a one-bit mask reads the bit. */
  lemma {:induction false} TestBit(w: nat, i: nat)
    ensures And(w, Pow2(i)) != 0 <==> Bit(w, i)
  {
    if i > 0 {
      TestBit(w / 2, i - 1);
      Halves(w, Pow2(i));
      if w == 0 {
        ZeroBit(i);
      }
    } else if w > 0 {
      assert And(w, 1) == 2 * And(w / 2, 0) + w % 2;
    }
  }
}
