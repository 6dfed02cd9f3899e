/** 64-bit division built from the DIVL instruction, as in arithmetic.c. */
module Arithmetic {
  import opened Bits
  import opened DivMod

  const B: int := 0x1_0000_0000              // 2^32
  const W: int := 0x1_0000_0000_0000_0000    // 2^64

  type U32 = x: int | 0 <= x < B
  type U64 = x: int | 0 <= x < W
  type I64 = x: int | -(W / 2) <= x < W / 2
  type I32 = x: int | -(B / 2) <= x < B / 2

  const INT64_MIN: int := -(W / 2)

  lemma {:induction false} Pow2Add(a: nat, b: nat)
    ensures Pow2(a + b) == Pow2(a) * Pow2(b)
    decreases b
  {
    if b > 0 {
      Pow2Add(a, b - 1);
      assert Pow2(a + b) == 2 * Pow2(a + b - 1);
      assert Pow2(a) * (2 * Pow2(b - 1)) == 2 * (Pow2(a) * Pow2(b - 1));
    }
  }

  lemma {:induction false} ShlAdd(x: nat, a: nat, b: nat)
    ensures Shl(Shl(x, a), b) == Shl(x, a + b)
    decreases b
  {
    if b > 0 {
      ShlAdd(x, a, b - 1);
    }
  }

  lemma {:induction false} ShlIsMul(x: nat, k: nat)
    ensures Shl(x, k) == x * Pow2(k)
    decreases k
  {
    if k > 0 {
      ShlIsMul(x, k - 1);
      assert x * (2 * Pow2(k - 1)) == 2 * (x * Pow2(k - 1));
    }
  }

  lemma Shl8(x: nat)
    ensures Shl(x, 1) == 2 * x && Shl(x, 2) == 4 * x && Shl(x, 4) == 16 * x && Shl(x, 8) == 256 * x
  {
    assert Shl(x, 1) == 2 * x;
    assert Shl(x, 2) == 4 * x;
    assert Shl(x, 4) == 16 * x;
    assert Shl(x, 6) == 64 * x;
  }

  lemma ShlSmall(x: nat)
    ensures Shl(x, 1) == 2 * x && Shl(x, 2) == 4 * x && Shl(x, 4) == 16 * x
    ensures Shl(x, 8) == 256 * x && Shl(x, 16) == 65536 * x
  {
    Shl8(x);
    Shl8(256 * x);
    ShlAdd(x, 8, 8);
  }

  lemma Pow2Big()
    ensures Pow2(16) == 65536 && Pow2(32) == B && Pow2(31) == B / 2
  {
    assert Pow2(4) == 16;
    assert Pow2(8) == 256 by { assert Pow2(6) == 64; }
    Pow2Add(8, 8);
    Pow2Add(16, 16);
    assert Pow2(32) == 2 * Pow2(31);
  }

  // ----- DIVL and the count of leading zeros

  /** DIVL traps when the quotient does not fit in 32 bits. */
  predicate Traps(n: U64, d: U32) {
    d == 0 || n / d >= B
  }

  function Divl(n: U64, d: U32): (q: U32)
    requires !Traps(n, d)
  {
    assert 0 <= n / d by { DivNonneg(n, d); }
    n / d
  }

  lemma DivNonneg(n: nat, d: nat)
    requires d > 0
    ensures 0 <= n / d
  {
  }

  /** N is the number of leading zero bits of X: shifting X left by N brings
      its highest bit to the top. */
  ghost predicate LeadingZeros(x: U32, n: nat) {
    n <= 31 && B / 2 <= Shl(x, n) < B
  }

  /** The shifts of nlz. */
  lemma ShiftMore(x: nat, n: nat)
    ensures Shl(x, n + 1) == 2 * Shl(x, n) && Shl(x, n + 2) == 4 * Shl(x, n) && Shl(x, n + 4) == 16 * Shl(x, n)
    ensures Shl(x, n + 8) == 256 * Shl(x, n) && Shl(x, n + 16) == 65536 * Shl(x, n)
  {
    ShlAdd(x, n, 2);
    ShlAdd(x, n, 4);
    ShlAdd(x, n, 8);
    ShlAdd(x, n, 16);
    ShlSmall(Shl(x, n));
  }

  /** The shifts by 16 and 8 at the start of nlz. */
  method NlzBytes(x: U32) returns (n: nat, y: U32)
    requires x != 0
    ensures y == Shl(x, n) && y > 0xFFFFFF && n <= 24
  {
    n, y := 0, x;
    if y <= 0x0000FFFF {
      ShiftMore(x, n);
      n, y := n + 16, y * 65536;
    }
    if y <= 0x00FFFFFF {
      ShiftMore(x, n);
      n, y := n + 8, y * 256;
    }
  }

  method Nlz(x: U32) returns (n: nat)
    requires x != 0
    ensures LeadingZeros(x, n)
  {
    var y: U32;
    n, y := NlzBytes(x);
    if y <= 0x0FFFFFFF {
      ShiftMore(x, n);
      n, y := n + 4, y * 16;
    }
    if y <= 0x3FFFFFFF {
      ShiftMore(x, n);
      n, y := n + 2, y * 4;
    }
    if y <= 0x7FFFFFFF {
      ShiftMore(x, n);
      n := n + 1;
    }
  }

  // ----- unsigned division

  /** Small divisors: one long-division step per word, and DIVL cannot trap. */
  lemma SmallDivisor(n: U64, d: U32)
    requires d > 0
    ensures var m := B * (n / B % d) + n % B;
            0 <= m < W && !Traps(m, d) && m / d + B * (n / B / d) == n / d
  {
    var n1, n0 := n / B, n % B;
    DivModEq(n1, d);
    var a, r := n1 / d, n1 % d;
    var m := B * r + n0;
    assert m < B * d;
    DivModEq(m, d);
    DivLess(m, d, B);
    var q := m / d;
    assert n == B * (a * d + r) + n0;
    assert (B * a + q) * d == B * (a * d) + q * d;
    DivUnique(n, d, B * a + q, m % d);
  }

  /** D lies in [h * 2^32, 2h * 2^32) for H = 2^(31-s), and P = 2^s. */
  ghost predicate Normalises(d: U64, p: nat, h: nat) {
    p > 0 && p * h == B / 2 && h * B <= d < 2 * h * B
  }

  lemma HighWord(d1: nat, p: nat, h: nat)
    requires p > 0 && p * h == B / 2 && B / 2 <= d1 * p < B
    ensures h <= d1 < 2 * h
  {
    assert h * p == B / 2 && (2 * h) * p == B;
    if d1 < h {
      MulMono(d1 + 1, h, p);
    }
    if d1 >= 2 * h {
      MulMono(2 * h, d1, p);
    }
  }

  lemma Normalised(d: U64, s: nat)
    requires d >= B && LeadingZeros(d / B, s)
    ensures Normalises(d, Pow2(s), Pow2(31 - s))
  {
    var d1 := d / B;
    assert Pow2(s) * Pow2(31 - s) == B / 2 by {
      Pow2Add(s, 31 - s);
      Pow2Big();
    }
    assert d1 * Pow2(s) == Shl(d1, s) by {
      ShlIsMul(d1, s);
    }
    HighWord(d1, Pow2(s), Pow2(31 - s));
  }

  /** N / D < 2P, because D is at least 2^64 / 2P. */
  lemma QuotientSmall(n: nat, d: nat, p: nat, h: nat)
    requires p > 0 && p * h == B / 2 && h * B <= d && n < W
    ensures d > 0 && n / d < 2 * p
  {
    assert (2 * p) * d >= W by {
      MulMono(h * B, d, p);
      assert (h * B) * p == (p * h) * B;
      assert d * p == p * d;
    }
    DivLess(n, d, 2 * p);
  }

  /** The low bits cleared from D, times the quotient, stay below D. */
  lemma ErrorSmall(q: nat, e: nat, p: nat, h: nat, dd: nat)
    requires q < 2 * p && e < 2 * h && p * h == B / 2 && h * B <= dd
    ensures (q + 1) * e <= dd
  {
    MulMono(q + 1, 2 * p, e);
    MulMono(e, 2 * h - 1, 2 * p);
    assert (2 * h - 1) * (2 * p) == 4 * (p * h) - 2 * p;
    assert e * (2 * p) == (2 * p) * e;
    if h == 1 {
      assert p * h == p;
    } else {
      MulMono(2, h, B);
    }
  }

  lemma Bracket(n: nat, d: nat, q: nat, dd: nat, e: nat)
    requires d == dd + e && q * d <= n < q * d + d && (q + 1) * e <= dd
    ensures q * dd <= n < (q + 2) * dd
  {
    assert q * d == q * dd + q * e;
    assert (q + 1) * e == q * e + e;
    assert (q + 2) * dd == q * dd + 2 * dd;
    assert q * e >= 0;
  }

  /** The top word V of the normalised divisor, and D with its low bits cleared. */
  lemma Cleared(d: nat, h: nat, v: nat)
    requires h > 0 && h * B <= d < 2 * h * B && v == d / (2 * h)
    ensures B / 2 <= v < B && h * B <= v * (2 * h) <= d < v * (2 * h) + 2 * h
  {
    var r := 2 * h;
    assert (B / 2) * r == h * B && B * r == 2 * h * B;
    DivAtLeast(d, r, B / 2);
    DivLess(d, r, B);
    DivModEq(d, r);
    MulMono(B / 2, v, r);
  }

  /** The estimate of a large-divisor quotient divides by D with its low bits
      cleared; it is right or one too big. */
  lemma Estimate(n: nat, d: U64, p: nat, h: nat, dd: nat)
    requires Normalises(d, p, h) && n < W
    requires h * B <= dd <= d < dd + 2 * h
    ensures d > 0 && dd > 0 && n / d <= n / dd <= n / d + 1
  {
    QuotientSmall(n, d, p, h);
    DivModEq(n, d);
    var q := n / d;
    ErrorSmall(q, d - dd, p, h, dd);
    Bracket(n, d, q, dd, d - dd);
    assert dd > 0;
    DivAtLeast(n, dd, q);
    DivLess(n, dd, q + 2);
  }

  /** (d << s) >> 32 is D with all but its top 32 bits dropped. */
  lemma ShiftedTop(d: U64, p: nat, h: nat)
    requires Normalises(d, p, h) && h > 0
    ensures 0 <= d * p < W && d * p / B == d / (2 * h)
  {
    assert d * p < W by {
      assert (2 * h * B) * p == (2 * (p * h)) * B;
      assert d * p <= (2 * h * B - 1) * p by { MulMono(d, 2 * h * B - 1, p); }
    }
    assert p * (2 * h) == 2 * (p * h);
    DivCancel(d, p, 2 * h);
  }

  /** Halving N first and shifting the quotient right afterwards divides by V * 2H. */
  lemma ShiftedQuotient(n: U64, v: nat, h: nat)
    requires v > 0 && h > 0
    ensures v * (2 * h) > 0 && n / 2 / v / h == n / (v * (2 * h))
  {
    DivDiv(n / 2, v, h);
    DivDiv(n, 2, v * h);
    assert 2 * (v * h) == v * (2 * h);
  }

  /** DIVL does not trap on half of N and a 32-bit divisor with its top bit set. */
  lemma HalfFits(n: U64, v: U32)
    requires v >= B / 2
    ensures 0 <= n / 2 < W && !Traps(n / 2, v)
  {
    assert n / 2 < B * v by { MulMono(B / 2, v, B); }
    DivLess(n / 2, v, B);
  }

  /** Arithmetic on uint64_t. */
  function Wrap(x: int): U64 {
    x % W
  }

  lemma WrapSmall(x: int)
    requires 0 <= x < W
    ensures Wrap(x) == x
  {
  }

  /** What is left of N after subtracting E - 1 divisors. */
  lemma LeftOver(n: nat, d: nat, e: nat)
    requires 0 < d <= n && n / d <= e <= n / d + 1
    ensures e >= 1 && 0 <= (e - 1) * d <= n
    ensures n - (e - 1) * d < d <==> e == n / d + 1
  {
    DivModEq(n, d);
    DivAtLeast(n, d, 1);
    var q := n / d;
    assert (e - 1) * d >= 0 by { MulMono(0, e - 1, d); }
    if e == q {
      assert (q - 1) * d == q * d - d;
    }
  }

  /** The final comparison corrects an estimate that is one too big. */
  lemma Corrected(n: U64, d: U64, e: nat)
    requires 0 < d <= n && n / d <= e <= n / d + 1
    ensures e >= 1 && (if Wrap(n - Wrap(Wrap(e - 1) * d)) < d then e - 1 else e) == n / d
  {
    LeftOver(n, d, e);
    DivLe(n, d);
    WrapSmall(e - 1);
    WrapSmall((e - 1) * d);
    WrapSmall(n - (e - 1) * d);
  }

  /** All facts the large-divisor branch needs. */
  lemma LargeDivisor(n: U64, d: U64, s: nat)
    requires B <= d <= n && LeadingZeros(d / B, s)
    ensures Shl(d, s) < W && B / 2 <= Shl(d, s) / B < B
    ensures var v := Shl(d, s) / B;
            0 <= n / 2 < W && !Traps(n / 2, v) && n / d <= n / 2 / v / Pow2(31 - s) <= n / d + 1
  {
    var p, h := Pow2(s), Pow2(31 - s);
    Normalised(d, s);
    ShlIsMul(d, s);
    ShiftedTop(d, p, h);
    var v := d / (2 * h);
    Cleared(d, h, v);
    Estimate(n, d, p, h, v * (2 * h));
    ShiftedQuotient(n, v, h);
    HalfFits(n, v);
  }

  /** The small-divisor branch of udiv64. */
  method UDivSmall(n: U64, d: U32) returns (q: U64)
    requires d != 0
    ensures q == n / d
  {
    var n1, n0 := n / B, n % B;
    SmallDivisor(n, d);
    DivLe(n, d);
    var low := Divl(B * (n1 % d) + n0, d);
    q := Wrap(low + B * (n1 / d));
  }

  /** The large-divisor branch of udiv64. */
  method UDivLarge(n: U64, d: U64) returns (q: U64)
    requires B <= d <= n
    ensures q == n / d
  {
    var s := Nlz(d / B);
    LargeDivisor(n, d, s);
    DivLe(n, d);
    var e := Divl(n / 2, Wrap(Shl(d, s)) / B) / Pow2(31 - s);
    Corrected(n, d, e);
    q := if Wrap(n - Wrap(Wrap(e - 1) * d)) < d then e - 1 else e;
  }

  method UDiv64(n: U64, d: U64) returns (q: U64)
    requires d != 0
    ensures q == n / d
  {
    if d / B == 0 {
      q := UDivSmall(n, d);
    } else if n < d {
      DivUnique(n, d, 0, n);
      q := 0;
    } else {
      q := UDivLarge(n, d);
    }
  }

  // ----- remainders and signed division

  /** umod64 returns the remainder in 32 bits. */
  method UMod64(n: U64, d: U64) returns (r: U32)
    requires d != 0
    ensures r == n % d % B
  {
    var q := UDiv64(n, d);
    DivModEq(n, d);
    WrapSmall(d * q);
    WrapSmall(n - d * q);
    r := Wrap(n - Wrap(d * q)) % B;
  }

  /** umod64 is the remainder for every dividend exactly when D is at most 2^32. */
  lemma UModExact(d: U64)
    requires d != 0
    ensures (forall n: U64 :: n % d % B == n % d) <==> d <= B
  {
    if d <= B {
      forall n: U64 ensures n % d % B == n % d {
        DivModEq(n, d);
      }
    } else {
      var n: U64 := B;
      DivUnique(n, d, 0, n);
      assert n % d % B != n % d;
    }
  }

  function Abs(x: int): nat {
    if x >= 0 then x else -x
  }

  /** C's quotient: rounded toward zero. */
  function Quotient(n: int, d: int): int
    requires d != 0
  {
    if (n < 0) == (d < 0) then Abs(n) / Abs(d) else -(Abs(n) / Abs(d))
  }

  /** C's remainder: it has the sign of the dividend. */
  function Remainder(n: int, d: int): int
    requires d != 0
  {
    n - d * Quotient(n, d)
  }

  /** The value of a 64-bit pattern read as a two's complement number. */
  function Signed(x: U64): I64 {
    if x < W / 2 then x else x - W
  }

  function Signed32(x: int): I32 {
    var y := x % B;
    if y < B / 2 then y else y - B
  }

  lemma SignedSmall(q: nat)
    requires q <= W / 2
    ensures Signed(q) == (if q == W / 2 then INT64_MIN else q) && Signed(Wrap(0 - Signed(q))) == 0 - q
  {
    if q == 0 {
      WrapSmall(0);
    } else if q < W / 2 {
      assert Wrap(0 - q) == W - q by { DivUnique(W - q, W, 0, W - q); assert (0 - q) % W == (W - q) % W; }
    } else {
      WrapSmall(W / 2);
    }
  }

  lemma AbsPattern(x: I64)
    ensures (if x >= 0 then Wrap(x) else Wrap(0 - Wrap(x))) == Abs(x)
  {
    if x >= 0 {
      WrapSmall(x);
    } else {
      assert Wrap(x) == x + W by { WrapSmall(x + W); assert x % W == (x + W) % W; }
      WrapSmall(0 - x);
      assert (0 - (x + W)) % W == (0 - x) % W;
    }
  }

  /** Only INT64_MIN / -1 leaves the signed 64-bit range. */
  lemma QuotientFits(n: I64, d: I64)
    requires d != 0
    ensures Abs(n) / Abs(d) <= W / 2
    ensures Abs(n) / Abs(d) == W / 2 <==> n == INT64_MIN && (d == 1 || d == -1)
  {
    DivLe(Abs(n), Abs(d));
    DivModEq(Abs(n), Abs(d));
    if Abs(d) == 1 {
      DivUnique(Abs(n), 1, Abs(n), 0);
    } else if Abs(n) / Abs(d) == W / 2 {
      MulMono(2, Abs(d), W / 2);
    }
  }

  /** sdiv64: the quotient, except that INT64_MIN / -1 is INT64_MIN. */
  method SDiv64(n: I64, d: I64) returns (r: I64)
    requires d != 0
    ensures r == if n == INT64_MIN && d == -1 then INT64_MIN else Quotient(n, d)
  {
    AbsPattern(n);
    AbsPattern(d);
    var nAbs := if n >= 0 then Wrap(n) else Wrap(0 - Wrap(n));
    var dAbs := if d >= 0 then Wrap(d) else Wrap(0 - Wrap(d));
    var qAbs := UDiv64(nAbs, dAbs);
    QuotientFits(n, d);
    SignedSmall(qAbs);
    r := if (n < 0) == (d < 0) then Signed(qAbs) else Signed(Wrap(0 - Signed(qAbs)));
  }

  /** The quotient rounds toward zero, and the remainder is smaller than the
      divisor and has the sign of the dividend. */
  lemma TruncatedDivision(n: int, d: int)
    requires d != 0
    ensures n == d * Quotient(n, d) + Remainder(n, d) && Abs(Remainder(n, d)) < Abs(d)
    ensures n >= 0 ==> Remainder(n, d) == n % Abs(d)
    ensures n < 0 ==> Remainder(n, d) == -((-n) % Abs(d))
  {
    DivModEq(Abs(n), Abs(d));
    var q := Abs(n) / Abs(d);
    assert d * Quotient(n, d) == if n >= 0 then q * Abs(d) else -(q * Abs(d));
  }

  /** smod64 returns the remainder in 32 bits. */
  method SMod64(n: I64, d: I64) returns (r: I32)
    requires d != 0
    ensures r == Signed32(Remainder(n, d))
  {
    var q := SDiv64(n, d);
    r := Signed32(Signed(Wrap(n - Signed(Wrap(d * q)))));
    SModWraps(n, d, q);
  }

  lemma SModWraps(n: I64, d: I64, q: I64)
    requires d != 0 && q == if n == INT64_MIN && d == -1 then INT64_MIN else Quotient(n, d)
    ensures Signed32(Signed(Wrap(n - Signed(Wrap(d * q))))) == Signed32(Remainder(n, d))
  {
    TruncatedDivision(n, d);
    if n == INT64_MIN && d == -1 {
      DivUnique(Abs(n), 1, Abs(n), 0);
      assert Remainder(n, d) == 0;
    } else {
      SignedWrap(d * q);
      SignedWrap(Remainder(n, d));
    }
  }

  /** A value in the signed range survives the trip through its bit pattern. */
  lemma SignedWrap(x: int)
    requires -(W / 2) <= x < W / 2
    ensures Signed(Wrap(x)) == x
  {
    if x >= 0 {
      WrapSmall(x);
    } else {
      WrapSmall(x + W);
      assert x % W == (x + W) % W;
    }
  }

  /** smod64 is the remainder for every dividend exactly when |D| is at most 2^31. */
  lemma SModExact(d: I64)
    requires d != 0
    ensures (forall n: I64 :: Signed32(Remainder(n, d)) == Remainder(n, d)) <==> Abs(d) <= B / 2
  {
    if Abs(d) <= B / 2 {
      forall n: I64 ensures Signed32(Remainder(n, d)) == Remainder(n, d) {
        TruncatedDivision(n, d);
      }
    } else {
      var n: I64 := B / 2;
      TruncatedDivision(n, d);
      DivUnique(n, Abs(d), 0, n);
      assert Signed32(Remainder(n, d)) != Remainder(n, d);
    }
  }
}
