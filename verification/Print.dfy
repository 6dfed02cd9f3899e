/** Printing integers (format_integer in lib/stdio.c) and reading them back (atoi
    in lib/stdlib.c). Characters are their codes. */
module Print {
  import opened Common
  import opened DivMod

  type Text = seq<Byte>

  const BUF_SIZE := 64
  const UINT64 := 0x1_0000_0000_0000_0000
  const INT_LIMIT := 0x8000_0000

  const SP: Byte := 32
  const PLUS: Byte := 43
  const COMMA: Byte := 44
  const DASH: Byte := 45
  const ZERO: Byte := 48

  /** struct integer_base; the letter for a prefix is 0 if there is none. */
  datatype Base = Base(base: nat, x: Byte, group: nat, upper: bool)

  const DEC := Base(10, 0, 3, false)
  const OCT := Base(8, 0, 3, false)
  const HEX := Base(16, 120, 4, false)
  const HEX_UPPER := Base(16, 88, 4, true)

  predicate IsBase(b: Base) {
    b == DEC || b == OCT || b == HEX || b == HEX_UPPER
  }

  /** struct printf_conversion. */
  datatype Conv = Conv(minus: bool, plus: bool, space: bool, pound: bool, zero: bool, group: bool, width: nat,
                       precision: int)

  /** Entry D of a base's digits. */
  function DigitChar(b: Base, d: nat): Byte
    requires d < 16
  {
    if d < 10 then ZERO + d else if b.upper then 55 + d else 87 + d
  }

  /** The value of a digit in any base. */
  function DigitVal(c: Byte): nat {
    if 48 <= c <= 57 then c - 48 else if 97 <= c <= 102 then c - 87 else if 65 <= c <= 70 then c - 55 else 0
  }

  /** C is a digit of base B. */
  ghost predicate IsDigit(b: Base, c: Byte) {
    DigitVal(c) < b.base && DigitVal(c) < 16 && DigitChar(b, DigitVal(c)) == c
  }

  /** The number a text of digits in base N stands for, commas dropped. */
  function Read(t: Text, n: nat): nat {
    if t == [] then 0
    else
      var c, rest := t[|t| - 1], t[..|t| - 1];
      if c == COMMA then Read(rest, n) else Read(rest, n) * n + DigitVal(c)
  }

  /** Buffer contents are output last character first. */
  function Reversed(t: Text): Text {
    if t == [] then [] else Reversed(t[1..]) + [t[0]]
  }

  lemma {:induction false} ReversedFacts(t: Text, k: nat)
    ensures |Reversed(t)| == |t|
    ensures k < |t| ==> Reversed(t)[k] == t[|t| - 1 - k]
  {
    if t != [] {
      ReversedFacts(t[1..], k);
    }
  }

  lemma {:induction false} ReversedPush(t: Text, c: Byte)
    ensures Reversed(t + [c]) == [c] + Reversed(t)
  {
    if t == [] {
      assert t + [c] == [c] && Reversed([c]) == Reversed([]) + [c];
    } else {
      ReversedPush(t[1..], c);
      assert (t + [c])[1..] == t[1..] + [c];
    }
  }

  /** N to the power K. */
  function Pow(n: nat, k: nat): nat {
    if k == 0 then 1 else n * Pow(n, k - 1)
  }

  /** How many digits a text has. */
  function DigitCount(t: Text): nat {
    if t == [] then 0 else DigitCount(t[1..]) + if t[0] == COMMA then 0 else 1
  }

  /** A digit written in front counts with the weight of the digits behind it. */
  lemma {:induction false} ReadPush(c: Byte, t: Text, n: nat)
    ensures Read([c] + t, n) == (if c == COMMA then 0 else DigitVal(c) * Pow(n, DigitCount(t))) + Read(t, n)
  {
    if t == [] {
      assert [c] + t == [c] && [c][..0] == [];
      assert Read([c], n) == if c == COMMA then Read([], n) else Read([], n) * n + DigitVal(c);
    } else {
      var last, rest := t[|t| - 1], t[..|t| - 1];
      assert ([c] + t)[..|t|] == [c] + rest;
      ReadPush(c, rest, n);
      CountLast(rest, last);
      assert rest + [last] == t;
      if c != COMMA && last != COMMA {
        MulPow(DigitVal(c), n, DigitCount(rest), Read(rest, n));
      }
    }
  }

  lemma {:induction false} MulPow(d: nat, n: nat, k: nat, r: nat)
    ensures (d * Pow(n, k) + r) * n == d * Pow(n, k + 1) + r * n
  {
    assert d * Pow(n, k + 1) == d * (n * Pow(n, k));
  }

  lemma {:induction false} CountLast(t: Text, c: Byte)
    ensures DigitCount(t + [c]) == DigitCount(t) + if c == COMMA then 0 else 1
  {
    if t == [] {
      assert t + [c] == [c];
    } else {
      CountLast(t[1..], c);
      assert (t + [c])[1..] == t[1..] + [c];
    }
  }

  // ----- digits into the buffer

  /** T, read backwards, is what of V0 has been converted: all but VALUE times the
      weight of the N digits so far. */
  ghost predicate Converted(t: Text, base: nat, v0: nat, value: nat, n: nat) {
    Read(Reversed(t), base) + value * Pow(base, n) == v0 && DigitCount(Reversed(t)) == n
  }

  /** Place K, counted from the right, is for a comma: the last of every G + 1. */
  predicate LastOfGroup(g: nat, k: nat)
    requires g > 0
  {
    if k <= g then k == g else LastOfGroup(g, k - g - 1)
  }

  predicate CommaPlace(b: Base, group: bool, k: nat)
    requires b.group > 0
  {
    group && LastOfGroup(b.group, k)
  }

  /** T, right to left, holds commas at their places below M and digits of base B
      elsewhere. */
  ghost predicate Digits(t: Text, b: Base, group: bool, m: nat)
    requires b.group > 0
  {
    forall k :: 0 <= k < |t| ==> if k < m && CommaPlace(b, group, k) then t[k] == COMMA else IsDigit(b, t[k])
  }

  /** Division by one of the bases, each a constant. */
  function Quotient(v: nat, b: Base): nat
    requires IsBase(b)
  {
    if b.base == 10 then v / 10 else if b.base == 8 then v / 8 else v / 16
  }

  function Remainder(v: nat, b: Base): nat
    requires IsBase(b)
  {
    if b.base == 10 then v % 10 else if b.base == 8 then v % 8 else v % 16
  }

  lemma QuotientIs(v: nat, b: Base)
    requires IsBase(b)
    ensures Quotient(v, b) == v / b.base && Remainder(v, b) == v % b.base
  {
  }

  /** How many digits V has in base B. */
  function NumDigits(v: nat, b: Base): nat
    requires IsBase(b)
    decreases v
  {
    if v == 0 then 0 else 1 + NumDigits(Quotient(v, b), b)
  }

  /** They are enough, and no fewer are. */
  lemma {:induction false} NumDigitsLeast(v: nat, b: Base, k: nat)
    requires IsBase(b)
    ensures v < Pow(b.base, k) <==> NumDigits(v, b) <= k
    decreases v
  {
    if v > 0 && k == 0 {
      assert Pow(b.base, 0) == 1;
    } else if v > 0 {
      NumDigitsLeast(Quotient(v, b), b, k - 1);
      QuotientIs(v, b);
      QuotientBelow(v, b.base, Pow(b.base, k - 1));
    } else {
      PowPositive(b.base, k);
    }
  }

  lemma {:induction false} QuotientBelow(v: nat, n: nat, p: nat)
    requires n > 0
    ensures v < n * p <==> v / n < p
  {
    var q := v / n;
    assert v == n * q + v % n;
    if q < p {
      MulGe(p - q, n);
      assert n * p == n * q + n * (p - q);
    } else {
      assert n * q == n * p + n * (q - p);
    }
  }

  /** Commas among N digits in groups of G. */
  function Breaks(g: nat, n: nat): nat
    requires g > 0
  {
    if n <= g then 0 else 1 + Breaks(g, n - g)
  }

  function Commas(b: Base, group: bool, n: nat): nat
    requires b.group > 0
  {
    if group then Breaks(b.group, n) else 0
  }

  /** N is a multiple of G. */
  predicate Multiple(g: nat, n: nat)
    requires g > 0
  {
    if n < g then n == 0 else Multiple(g, n - g)
  }

  lemma {:induction false} MultipleIs(g: nat, n: nat)
    requires g > 0
    ensures Multiple(g, n) <==> n % g == 0
  {
    if n < g {
      ModSmall(n, g);
    } else {
      MultipleIs(g, n - g);
      ModStep(n, g);
    }
  }

  /** Places and commas in closed form. */
  lemma {:induction false} GroupsClosed(g: nat, k: nat)
    requires g > 0
    ensures LastOfGroup(g, k) <==> k % (g + 1) == g
    ensures k > 0 ==> Breaks(g, k) == (k - 1) / g
    decreases k
  {
    if k > g {
      GroupsClosed(g, k - g - 1);
      ModStep(k, g + 1);
      GroupsClosed(g, k - g);
      ModStep(k - 1, g);
    } else {
      ModSmall(k, g + 1);
      if k > 0 {
        DivSmall(k - 1, g);
      }
    }
  }

  /** The next comma is due after every G digits, and comes to its place. */
  lemma {:induction false} CommaDue(g: nat, n: nat)
    requires g > 0
    ensures var at := n + Breaks(g, n);
            var due := n > 0 && Multiple(g, n);
            && (due <==> LastOfGroup(g, at)) && (due ==> !LastOfGroup(g, at + 1))
            && n + 1 + Breaks(g, n + 1) == at + 1 + if due then 1 else 0
  {
    if n > g {
      CommaDue(g, n - g);
    }
  }

  lemma {:induction false} BreaksBelow(g: nat, n: nat)
    requires g > 0 && n > 0
    ensures Breaks(g, n) < n
  {
    if n > g {
      BreaksBelow(g, n - g);
    }
  }

  lemma ModSmall(k: nat, m: nat)
    requires k < m
    ensures k % m == k
  {
  }

  lemma DivSmall(k: nat, m: nat)
    requires k < m
    ensures k / m == 0
  {
  }

  lemma ModStep(k: nat, m: nat)
    requires 0 < m <= k
    ensures k % m == (k - m) % m && k / m == (k - m) / m + 1
  {
    DivModEq(k - m, m);
    var q := (k - m) / m;
    assert q * m + m == (q + 1) * m;
    DivUnique(k, m, q + 1, (k - m) % m);
  }

  lemma {:induction false} ConvertedStart(base: nat, v0: nat)
    ensures Converted([], base, v0, v0, 0)
  {
  }

  lemma {:induction false} ConvertedComma(t: Text, base: nat, v0: nat, value: nat, n: nat)
    requires Converted(t, base, v0, value, n)
    ensures Converted(t + [COMMA], base, v0, value, n)
  {
    ReversedPush(t, COMMA);
    ReadPush(COMMA, Reversed(t), base);
    CountPush(COMMA, Reversed(t));
  }

  lemma {:induction false} DigitBack(b: Base, d: nat)
    requires IsBase(b) && d < b.base
    ensures DigitVal(DigitChar(b, d)) == d && DigitChar(b, d) != COMMA && IsDigit(b, DigitChar(b, d))
  {
  }

  lemma {:induction false} ConvertedDigit(t: Text, b: Base, v0: nat, value: nat, n: nat)
    requires IsBase(b) && Converted(t, b.base, v0, value, n)
    ensures Converted(t + [DigitChar(b, Remainder(value, b))], b.base, v0, Quotient(value, b), n + 1)
  {
    var c := DigitChar(b, Remainder(value, b));
    DigitBack(b, Remainder(value, b));
    QuotientIs(value, b);
    ReversedPush(t, c);
    ReadPush(c, Reversed(t), b.base);
    WeightStep(value, b.base, n);
    CountPush(c, Reversed(t));
  }

  lemma {:induction false} CountPush(c: Byte, t: Text)
    ensures DigitCount([c] + t) == DigitCount(t) + if c == COMMA then 0 else 1
  {
    assert ([c] + t)[1..] == t;
  }

  lemma {:induction false} WeightStep(value: nat, n: nat, k: nat)
    requires n > 0
    ensures value * Pow(n, k) == (value / n) * Pow(n, k + 1) + (value % n) * Pow(n, k)
  {
    var q, r, p := value / n, value % n, Pow(n, k);
    assert value == q * n + r;
    assert value * p == q * n * p + r * p;
    assert q * n * p == q * (n * p);
  }

  lemma {:induction false} PowPositive(n: nat, k: nat)
    requires n > 0
    ensures Pow(n, k) >= 1
  {
    if k > 0 {
      PowPositive(n, k - 1);
      MulGe(n, Pow(n, k - 1));
    }
  }

  lemma {:induction false} Pow8()
    ensures UINT64 <= Pow(8, 22)
  {
    assert Pow(8, 4) == 4096;
    assert Pow(8, 8) == 0x100_0000;
    assert Pow(8, 12) == 0x10_0000_0000;
    assert Pow(8, 16) == 0x1_0000_0000_0000;
    assert Pow(8, 20) == 0x1000_0000_0000_0000;
  }

  lemma {:induction false} PowBase(n: nat, k: nat)
    requires n >= 8
    ensures Pow(8, k) <= Pow(n, k)
  {
    if k > 0 {
      PowBase(n, k - 1);
      assert 8 * Pow(8, k - 1) <= 8 * Pow(n, k - 1);
      MulGe(n - 7, Pow(n, k - 1));
      assert n * Pow(n, k - 1) == 8 * Pow(n, k - 1) + (n - 8) * Pow(n, k - 1);
    }
  }

  /** A 64-bit number has at most 22 digits. */
  lemma {:induction false} AtMost22(v: nat, b: Base)
    requires IsBase(b) && v < UINT64
    ensures NumDigits(v, b) <= 22
  {
    Pow8();
    PowBase(b.base, 22);
    NumDigitsLeast(v, b, 22);
  }

  /** A comma is written before the next digit. */
  predicate Due(b: Base, group: bool, n: nat)
    requires b.group > 0
  {
    group && n > 0 && Multiple(b.group, n)
  }

  lemma DuePlace(b: Base, group: bool, n: nat)
    requires b.group > 0
    ensures var at := n + Commas(b, group, n);
            && (Due(b, group, n) <==> CommaPlace(b, group, at)) && (Due(b, group, n) ==> !CommaPlace(b, group, at + 1))
            && n + 1 + Commas(b, group, n + 1) == at + 1 + if Due(b, group, n) then 1 else 0
  {
    CommaDue(b.group, n);
  }

  lemma SpanBound(b: Base, group: bool, n: nat)
    requires b.group > 0 && n <= 22
    ensures n + Commas(b, group, n) <= 44
  {
    if n > 0 {
      BreaksBelow(b.group, n);
    }
  }

  /** T is N digits with their commas. */
  ghost predicate Shaped(t: Text, b: Base, group: bool, n: nat)
    requires b.group > 0
  {
    |t| == n + Commas(b, group, n) && Digits(t, b, group, |t|)
  }

  lemma {:induction false} DigitsPush(t: Text, b: Base, group: bool, c: Byte)
    requires b.group > 0 && Digits(t, b, group, |t|)
    requires if CommaPlace(b, group, |t|) then c == COMMA else IsDigit(b, c)
    ensures Digits(t + [c], b, group, |t| + 1)
  {
  }

  /** What the loop writes in one turn. */
  function Turn(b: Base, group: bool, value: nat, n: nat): Text
    requires IsBase(b)
  {
    (if Due(b, group, n) then [COMMA] else []) + [DigitChar(b, Remainder(value, b))]
  }

  lemma {:induction false} TurnShaped(t: Text, b: Base, group: bool, value: nat, n: nat)
    requires IsBase(b) && Shaped(t, b, group, n)
    ensures Shaped(t + Turn(b, group, value, n), b, group, n + 1)
  {
    var c := DigitChar(b, Remainder(value, b));
    DuePlace(b, group, n);
    DigitBack(b, Remainder(value, b));
    var u := if Due(b, group, n) then t + [COMMA] else t;
    if Due(b, group, n) {
      DigitsPush(t, b, group, COMMA);
    }
    DigitsPush(u, b, group, c);
    assert t + Turn(b, group, value, n) == u + [c];
  }

  lemma {:induction false} TurnConverted(t: Text, b: Base, group: bool, v0: nat, value: nat, n: nat)
    requires IsBase(b) && Converted(t, b.base, v0, value, n)
    ensures Converted(t + Turn(b, group, value, n), b.base, v0, Quotient(value, b), n + 1)
  {
    var c := DigitChar(b, Remainder(value, b));
    var u := if Due(b, group, n) then t + [COMMA] else t;
    if Due(b, group, n) {
      ConvertedComma(t, b.base, v0, value, n);
    }
    ConvertedDigit(u, b, v0, value, n);
    assert t + Turn(b, group, value, n) == u + [c];
  }

  /** T is all digits of VALUE with their commas. */
  ghost predicate Complete(t: Text, b: Base, group: bool, value: nat)
    requires IsBase(b)
  {
    var n := NumDigits(value, b);
    && |t| == n + Commas(b, group, n) && Filled(t, value, b, group, |t|, Commas(b, group, n))
    && (t != [] ==> t[|t| - 1] != ZERO)
  }

  /** What the loop writes in all. */
  function AllTurns(b: Base, group: bool, value: nat, n: nat): Text
    requires IsBase(b)
    decreases value
  {
    if value == 0 then [] else Turn(b, group, value, n) + AllTurns(b, group, Quotient(value, b), n + 1)
  }

  lemma Rejoin(t: Text, u: Text, v: Text)
    ensures t + (u + v) == t + u + v
  {
  }

  lemma {:induction false} TurnsShaped(t: Text, b: Base, group: bool, value: nat, n: nat)
    requires IsBase(b) && Shaped(t, b, group, n)
    ensures Shaped(t + AllTurns(b, group, value, n), b, group, n + NumDigits(value, b))
    decreases value
  {
    if value == 0 {
      assert t + [] == t;
    } else {
      TurnShaped(t, b, group, value, n);
      TurnsShaped(t + Turn(b, group, value, n), b, group, Quotient(value, b), n + 1);
      Rejoin(t, Turn(b, group, value, n), AllTurns(b, group, Quotient(value, b), n + 1));
    }
  }

  lemma {:induction false} TurnsConverted(t: Text, b: Base, group: bool, v0: nat, value: nat, n: nat)
    requires IsBase(b) && Converted(t, b.base, v0, value, n)
    ensures Converted(t + AllTurns(b, group, value, n), b.base, v0, 0, n + NumDigits(value, b))
    decreases value
  {
    if value == 0 {
      assert t + [] == t;
    } else {
      TurnConverted(t, b, group, v0, value, n);
      TurnsConverted(t + Turn(b, group, value, n), b, group, v0, Quotient(value, b), n + 1);
      Rejoin(t, Turn(b, group, value, n), AllTurns(b, group, Quotient(value, b), n + 1));
    }
  }

  /** The first digit is not zero. */
  lemma {:induction false} TopDigit(b: Base, group: bool, value: nat, n: nat)
    requires IsBase(b)
    ensures var t := AllTurns(b, group, value, n); t != [] ==> t[|t| - 1] != ZERO
    decreases value
  {
    if value > 0 {
      TopDigit(b, group, Quotient(value, b), n + 1);
    }
  }

  lemma {:induction false} DigitsShaped(b: Base, group: bool, v: nat)
    requires IsBase(b)
    ensures Shaped(AllTurns(b, group, v, 0), b, group, NumDigits(v, b))
  {
    NoneShaped(b, group);
    TurnsShaped([], b, group, v, 0);
    Unprefixed(AllTurns(b, group, v, 0));
  }

  lemma NoneShaped(b: Base, group: bool)
    requires IsBase(b)
    ensures Shaped([], b, group, 0)
  {
  }

  lemma Unprefixed(t: Text)
    ensures [] + t == t
  {
  }

  lemma {:induction false} DigitsRead(b: Base, group: bool, v: nat)
    requires IsBase(b)
    ensures var t := Reversed(AllTurns(b, group, v, 0)); Read(t, b.base) == v && DigitCount(t) == NumDigits(v, b)
  {
    ConvertedStart(b.base, v);
    TurnsConverted([], b, group, v, v, 0);
    assert [] + AllTurns(b, group, v, 0) == AllTurns(b, group, v, 0);
  }

  lemma {:induction false} DigitsComplete(b: Base, group: bool, v: nat)
    requires IsBase(b)
    ensures Complete(AllTurns(b, group, v, 0), b, group, v)
  {
    DigitsShaped(b, group, v);
    DigitsRead(b, group, v);
    TopDigit(b, group, v, 0);
  }

  /** The buffer is big enough for any number. */
  lemma {:induction false} DigitsFit(b: Base, group: bool, v: nat)
    requires IsBase(b) && v < UINT64
    ensures |AllTurns(b, group, v, 0)| <= 44
  {
    DigitsShaped(b, group, v);
    AtMost22(v, b);
    SpanBound(b, group, NumDigits(v, b));
  }

  /** One turn of the digit loop of format_integer. */
  method PutDigit(buf: array<Byte>, at: nat, b: Base, group: bool, value: nat, n: nat) returns (cp: nat)
    requires IsBase(b) && at + |Turn(b, group, value, n)| <= buf.Length
    modifies buf
    ensures cp <= buf.Length && buf[..cp] == old(buf[..at]) + Turn(b, group, value, n)
  {
    cp := at;
    MultipleIs(b.group, n);
    QuotientIs(value, b);
    if group && n > 0 && n % b.group == 0 {
      buf[cp] := COMMA;
      cp := cp + 1;
    }
    buf[cp] := DigitChar(b, value % b.base);
    cp := cp + 1;
  }

  /** The digit loop of format_integer. */
  method PutDigits(buf: array<Byte>, v0: nat, b: Base, group: bool) returns (cp: nat)
    requires IsBase(b) && |AllTurns(b, group, v0, 0)| <= buf.Length
    modifies buf
    ensures cp <= buf.Length && buf[..cp] == AllTurns(b, group, v0, 0)
  {
    var value: nat, digitCnt: nat := v0, 0;
    cp := 0;
    while value > 0
      invariant cp <= buf.Length && buf[..cp] + AllTurns(b, group, value, digitCnt) == AllTurns(b, group, v0, 0)
      decreases value
    {
      Rejoin(buf[..cp], Turn(b, group, value, digitCnt), AllTurns(b, group, Quotient(value, b), digitCnt + 1));
      cp := PutDigit(buf, cp, b, group, value, digitCnt);
      QuotientIs(value, b);
      value := value / b.base;
      digitCnt := digitCnt + 1;
    }
  }

  // ----- the whole conversion

  /** The precision format_integer renders. */
  function Precision(c: Conv): nat {
    if c.precision < 0 then 1 else c.precision
  }

  function Min(a: nat, b: nat): nat {
    if a < b then a else b
  }

  /** How many characters a value is rendered as: its digits and commas, filled up
      to the precision as far as the buffer goes, and with # the zero octal
      numbers start with. */
  function RenderedLength(value: nat, b: Base, c: Conv): nat
    requires IsBase(b)
  {
    var n := NumDigits(value, b);
    var m, p := n + Commas(b, c.group, n), Min(Precision(c), BUF_SIZE - 1);
    if m < p then p else if c.pound && b.base == 8 then m + 1 else m
  }

  /** D is the rendering of VALUE: it reads back to it and has exactly the length
      and the commas it should have. */
  ghost predicate Rendered(d: Text, value: nat, b: Base, c: Conv)
    requires IsBase(b)
  {
    var n := NumDigits(value, b);
    && Read(d, b.base) == value && |d| == RenderedLength(value, b, c)
    && Digits(Reversed(d), b, c.group, n + Commas(b, c.group, n)) && DigitCount(d) == |d| - Commas(b, c.group, n)
    && (c.pound && b.base == 8 ==> d != [] && d[0] == ZERO)
  }

  /** The text has all the digits asked for if and only if the value has them, or
      they fit the buffer and there are no commas, or the one missing is the zero
      octal numbers start with. */
  lemma PrecisionReached(d: Text, value: nat, b: Base, c: Conv)
    requires IsBase(b) && value < UINT64 && Rendered(d, value, b, c)
    ensures var n, p := NumDigits(value, b), Precision(c);
            DigitCount(d) >= p <==>
            n >= p || (p < BUF_SIZE && Commas(b, c.group, n) == 0) || (c.pound && b.base == 8 && p == n + 1)
  {
    AtMost22(value, b);
  }

  /** There is no zero too many: without need for one, the digits are the fewest that
      the value can be written in. */
  lemma NoZeroTooMany(d: Text, value: nat, b: Base, c: Conv)
    requires IsBase(b) && Rendered(d, value, b, c) && Precision(c) <= NumDigits(value, b) && !(c.pound && b.base == 8)
    ensures DigitCount(d) == NumDigits(value, b)
  {
  }

  /** No precision of 64 or more is reached. */
  lemma PrecisionCut(d: Text, value: nat, b: Base, c: Conv)
    requires IsBase(b) && value < UINT64 && Rendered(d, value, b, c) && c.precision >= BUF_SIZE
    ensures DigitCount(d) < c.precision
  {
    PrecisionReached(d, value, b, c);
    AtMost22(value, b);
  }

  /** With commas and precision 5, the text of 1000 has four digits. */
  lemma CommasCounted(d: Text, c: Conv)
    requires c == Conv(false, false, false, false, false, true, 0, 5) && Rendered(d, 1000, DEC, c)
    ensures DigitCount(d) == 4
  {
    assert NumDigits(1000, DEC) == 1 + NumDigits(100, DEC) && NumDigits(100, DEC) == 1 + NumDigits(10, DEC);
    assert NumDigits(10, DEC) == 1 + NumDigits(1, DEC) && NumDigits(1, DEC) == 1 + NumDigits(0, DEC);
  }

  /** T, right to left, in the middle of being filled with zeros. */
  ghost predicate Filled(t: Text, value: nat, b: Base, group: bool, m: nat, commas: nat)
    requires IsBase(b)
  {
    && Read(Reversed(t), b.base) == value && Digits(t, b, group, m) && DigitCount(Reversed(t)) + commas == |t|
  }

  lemma {:induction false} ZeroReads(t: Text, n: nat)
    ensures Read(Reversed(t + [ZERO]), n) == Read(Reversed(t), n)
    ensures DigitCount(Reversed(t + [ZERO])) == DigitCount(Reversed(t)) + 1
  {
    ReversedPush(t, ZERO);
    ReadPush(ZERO, Reversed(t), n);
    CountPush(ZERO, Reversed(t));
  }

  lemma {:induction false} ZeroDigits(t: Text, b: Base, group: bool, m: nat)
    requires b.group > 0 && b.base >= 2 && Digits(t, b, group, m) && m <= |t|
    ensures Digits(t + [ZERO], b, group, m)
  {
    assert IsDigit(b, ZERO);
  }

  lemma {:induction false} ZeroPush(t: Text, value: nat, b: Base, group: bool, m: nat, commas: nat)
    requires IsBase(b) && Filled(t, value, b, group, m, commas) && m <= |t|
    ensures Filled(t + [ZERO], value, b, group, m, commas)
  {
    ZeroReads(t, b.base);
    ZeroDigits(t, b, group, m);
  }

  lemma {:induction false} ReversedTwice(t: Text)
    ensures Reversed(Reversed(t)) == t
  {
    if t != [] {
      ReversedTwice(t[1..]);
      ReversedPush(Reversed(t[1..]), t[0]);
    }
  }

  /** The digits of format_integer, in the order they are output. */
  method Render(value: nat, b: Base, c: Conv) returns (d: Text)
    requires IsBase(b) && value < UINT64
    ensures Rendered(d, value, b, c)
  {
    var buf := new Byte[BUF_SIZE];
    DigitsFit(b, c.group, value);
    DigitsComplete(b, c.group, value);
    var cp := PutDigits(buf, value, b, c.group);
    ReversedRendered(buf[..cp], value, b, c);
    cp := PutZeros(buf, cp, b, c);
    d := Reversed(buf[..cp]);
  }

  lemma {:induction false} ZerosPush(t: Text, value: nat, b: Base, group: bool, m: nat, commas: nat, k: nat)
    requires IsBase(b) && Filled(t, value, b, group, m, commas) && m <= |t|
    ensures Filled(t + Dup(ZERO, k), value, b, group, m, commas)
  {
    if k > 0 {
      ZerosPush(t, value, b, group, m, commas, k - 1);
      ZeroPush(t + Dup(ZERO, k - 1), value, b, group, m, commas);
      assert t + Dup(ZERO, k) == t + Dup(ZERO, k - 1) + [ZERO];
    } else {
      assert t + Dup(ZERO, 0) == t;
    }
  }

  /** How many zeros go in front of text T. */
  function ZerosFor(t: Text, b: Base, c: Conv): nat {
    var p := Min(Precision(c), BUF_SIZE - 1);
    if |t| < p then p - |t| else if c.pound && b.base == 8 then 1 else 0
  }

  /** The leading zeros of format_integer. */
  method PutZeros(buf: array<Byte>, at: nat, b: Base, c: Conv) returns (cp: nat)
    requires buf.Length == BUF_SIZE && at <= 44 && (at > 0 ==> buf[at - 1] != ZERO)
    modifies buf
    ensures cp <= BUF_SIZE && buf[..cp] == old(buf[..at]) + Dup(ZERO, ZerosFor(old(buf[..at]), b, c))
  {
    cp := at;
    var precision := Precision(c);
    while cp < precision && cp < BUF_SIZE - 1
      invariant at <= cp <= BUF_SIZE - 1 && (cp == at || cp <= precision)
      invariant buf[..cp] == old(buf[..at]) + Dup(ZERO, cp - at)
    {
      buf[cp] := ZERO;
      cp := cp + 1;
      assert buf[..cp] == old(buf[..at]) + Dup(ZERO, cp - 1 - at) + [ZERO];
    }
    assert cp > at ==> buf[..cp][cp - 1] == ZERO;
    if c.pound && b.base == 8 && (cp == 0 || buf[cp - 1] != ZERO) {
      buf[cp] := ZERO;
      cp := cp + 1;
    }
  }

  lemma {:induction false} ReversedRendered(t: Text, value: nat, b: Base, c: Conv)
    requires IsBase(b) && Complete(t, b, c.group, value)
    ensures Rendered(Reversed(t + Dup(ZERO, ZerosFor(t, b, c))), value, b, c)
  {
    var k, commas := ZerosFor(t, b, c), Commas(b, c.group, NumDigits(value, b));
    var u := t + Dup(ZERO, k);
    ZerosPush(t, value, b, c.group, |t|, commas, k);
    FilledRendered(u, |t|, value, b, c);
  }

  lemma {:induction false} FilledRendered(u: Text, m: nat, value: nat, b: Base, c: Conv)
    requires IsBase(b)
    requires var n := NumDigits(value, b);
             m == n + Commas(b, c.group, n) && Filled(u, value, b, c.group, m, Commas(b, c.group, n))
    requires |u| == RenderedLength(value, b, c) && (c.pound && b.base == 8 ==> u != [] && u[|u| - 1] == ZERO)
    ensures Rendered(Reversed(u), value, b, c)
  {
    ReversedTwice(u);
    ReversedFacts(u, 0);
  }

  /** output_dup. */
  function Dup(ch: Byte, cnt: nat): Text {
    seq(cnt, _ => ch)
  }

  /** S is the sign of a number: - for negative ones; for others + or a space if the
      flag asks for it; unsigned numbers have none. */
  ghost predicate SignFor(s: Text, isSigned: bool, negative: bool, c: Conv) {
    && (s == [DASH] <==> isSigned && negative)
    && (s == [PLUS] <==> isSigned && !negative && c.plus)
    && (s == [SP] <==> isSigned && !negative && !c.plus && c.space)
    && (s == [] || s == [DASH] || s == [PLUS] || s == [SP])
  }

  /** X is the prefix of a number: 0x or 0X with the # flag, for hexadecimal numbers
      other than zero. */
  ghost predicate PrefixFor(x: Text, value: nat, b: Base, c: Conv) {
    && (x == [ZERO, 120] <==> c.pound && value != 0 && b == HEX)
    && (x == [ZERO, 88] <==> c.pound && value != 0 && b == HEX_UPPER)
    && (x == [] || x == [ZERO, 120] || x == [ZERO, 88])
  }

  /** OUT is sign S, prefix X and digits D in a field of the width asked for: to the
      left of it with the - flag, apart with zeros between them with the 0 flag, else
      to the right; and no wider than needed. */
  ghost predicate InField(out: Text, s: Text, x: Text, d: Text, c: Conv) {
    var n := |s| + |x| + |d|;
    && |out| == (if c.width > n then c.width else n)
    && (c.minus ==> out[..n] == s + x + d && forall i :: n <= i < |out| ==> out[i] == SP)
    && (c.zero ==> out[..|s| + |x|] == s + x && out[|out| - |d|..] == d &&
                   forall i :: |s| + |x| <= i < |out| - |d| ==> out[i] == ZERO)
    && (!c.minus && !c.zero ==> out[|out| - n..] == s + x + d && forall i :: 0 <= i < |out| - n ==> out[i] == SP)
  }

  /** OUT is the text of a number. */
  ghost predicate TextOf(out: Text, s: Text, x: Text, d: Text, value: nat, isSigned: bool, negative: bool, b: Base,
                         c: Conv)
    requires IsBase(b)
  {
    && SignFor(s, isSigned, negative, c) && PrefixFor(x, value, b, c)
    && Rendered(d, value, b, c) && InField(out, s, x, d, c)
  }

  /** format_integer. The parser of conversions never leaves both the - and the 0
      flag set. */
  method FormatInteger(value: nat, isSigned: bool, negative: bool, b: Base, c: Conv) returns (out: Text)
    requires IsBase(b) && value < UINT64 && !(c.minus && c.zero)
    ensures exists s, x, d :: TextOf(out, s, x, d, value, isSigned, negative, b, c)
  {
    var sign := if isSigned then (if c.plus then [if negative then DASH else PLUS]
                                  else if c.space then [if negative then DASH else SP]
                                  else if negative then [DASH] else []) else [];
    var x := if c.pound && value != 0 then b.x else 0;
    var prefix := if x != 0 then [ZERO, x] else [];
    var d := Render(value, b, c);
    out := Emit(sign, prefix, d, c);
    assert TextOf(out, sign, prefix, d, value, isSigned, negative, b, c);
  }

  /** The output statements of format_integer. */
  method Emit(sign: Text, prefix: Text, d: Text, c: Conv) returns (out: Text)
    requires !(c.minus && c.zero)
    ensures InField(out, sign, prefix, d, c)
  {
    var padCnt: int := c.width - |d| - |prefix| - |sign|;
    if padCnt < 0 {
      padCnt := 0;
    }
    var spaces := Dup(SP, padCnt);
    out := if !c.minus && !c.zero then spaces else [];
    out := out + sign;
    out := out + prefix;
    out := out + if c.zero then Dup(ZERO, padCnt) else [];
    out := out + d;
    out := out + if c.minus then spaces else [];
    if c.minus {
      assert out == sign + prefix + d + spaces;
      OnTheLeft(sign + prefix + d, padCnt);
    } else if c.zero {
      assert out == sign + prefix + Dup(ZERO, padCnt) + d;
      ZerosBetween(sign + prefix, d, padCnt);
    } else {
      assert out == spaces + (sign + prefix + d);
      OnTheRight(sign + prefix + d, padCnt);
    }
  }

  lemma OnTheLeft(t: Text, k: nat)
    ensures var out := t + Dup(SP, k);
            |out| == |t| + k && out[..|t|] == t && forall i :: |t| <= i < |out| ==> out[i] == SP
  {
  }

  lemma OnTheRight(t: Text, k: nat)
    ensures var out := Dup(SP, k) + t;
            |out| == |t| + k && out[|out| - |t|..] == t && forall i :: 0 <= i < |out| - |t| ==> out[i] == SP
  {
  }

  lemma ZerosBetween(t: Text, d: Text, k: nat)
    ensures var out := t + Dup(ZERO, k) + d;
            && |out| == |t| + k + |d| && out[..|t|] == t && out[|out| - |d|..] == d
            && forall i :: |t| <= i < |out| - |d| ==> out[i] == ZERO
  {
  }

  /** Padding with zeros changes nothing. */
  lemma {:induction false} ZerosRead(n: nat, d: Text, base: nat)
    ensures Read(Dup(ZERO, n) + d, base) == Read(d, base)
  {
    if n == 0 {
      assert Dup(ZERO, 0) + d == d;
    } else {
      ZerosRead(n - 1, d, base);
      assert Dup(ZERO, n) + d == [ZERO] + (Dup(ZERO, n - 1) + d);
      ReadPush(ZERO, Dup(ZERO, n - 1) + d, base);
    }
  }

  // ----- atoi

  predicate IsSpace(c: Byte) {
    c == SP || 9 <= c <= 13
  }

  predicate IsDecimal(c: Byte) {
    48 <= c <= 57
  }

  function SkipSpaces(s: Text): Text {
    if s != [] && IsSpace(s[0]) then SkipSpaces(s[1..]) else s
  }

  /** The decimal digits S starts with. */
  function DigitPrefix(s: Text): Text {
    if s != [] && IsDecimal(s[0]) then [s[0]] + DigitPrefix(s[1..]) else []
  }

  predicate Negative(s: Text) {
    var t := SkipSpaces(s);
    t != [] && t[0] == DASH
  }

  /** The digits atoi reads: after white space and a sign. */
  function Magnitude(s: Text): Text {
    var t := SkipSpaces(s);
    DigitPrefix(if t != [] && (t[0] == DASH || t[0] == PLUS) then t[1..] else t)
  }

  /** S is white space W, sign G, digits M and a rest that continues none of them. */
  ghost predicate Numeral(s: Text, w: Text, g: Text, m: Text, rest: Text) {
    && s == w + g + m + rest && (forall k :: 0 <= k < |w| ==> IsSpace(w[k]))
    && (forall k :: 0 <= k < |m| ==> IsDecimal(m[k])) && (rest != [] ==> !IsDecimal(rest[0]))
    && (g == [DASH] || g == [PLUS] || g == [])
    && (g == [] && m + rest != [] ==> var c := (m + rest)[0]; !IsSpace(c) && c != DASH && c != PLUS)
  }

  /** The number S stands for. */
  function IntOf(s: Text): int {
    var m := Read(Magnitude(s), 10);
    if Negative(s) then 0 - m else m
  }

  lemma {:induction false} SpacesSkipped(w: Text, t: Text)
    requires (forall k :: 0 <= k < |w| ==> IsSpace(w[k])) && (t != [] ==> !IsSpace(t[0]))
    ensures SkipSpaces(w + t) == t
  {
    if w == [] {
      assert w + t == t;
    } else {
      SpacesSkipped(w[1..], t);
      assert (w + t)[1..] == w[1..] + t;
    }
  }

  lemma {:induction false} DigitsTaken(m: Text, rest: Text)
    requires (forall k :: 0 <= k < |m| ==> IsDecimal(m[k])) && (rest != [] ==> !IsDecimal(rest[0]))
    ensures DigitPrefix(m + rest) == m
  {
    if m == [] {
      assert m + rest == rest;
    } else {
      DigitsTaken(m[1..], rest);
      assert (m + rest)[1..] == m[1..] + rest;
    }
  }

  lemma {:induction false} SpacesInFront(s: Text) returns (w: Text)
    ensures s == w + SkipSpaces(s) && (forall k :: 0 <= k < |w| ==> IsSpace(w[k]))
    ensures SkipSpaces(s) != [] ==> !IsSpace(SkipSpaces(s)[0])
  {
    if s != [] && IsSpace(s[0]) {
      w := SpacesInFront(s[1..]);
      assert s == [s[0]] + s[1..] == [s[0]] + w + SkipSpaces(s);
      w := [s[0]] + w;
    } else {
      w := [];
    }
  }

  lemma {:induction false} DigitsInFront(s: Text) returns (rest: Text)
    ensures s == DigitPrefix(s) + rest && (rest != [] ==> !IsDecimal(rest[0]))
  {
    if s != [] && IsDecimal(s[0]) {
      rest := DigitsInFront(s[1..]);
      assert s == [s[0]] + s[1..] == [s[0]] + DigitPrefix(s[1..]) + rest;
    } else {
      rest := s;
    }
  }

  /** Every text is a numeral, perhaps without digits. */
  lemma NumeralExists(s: Text) returns (w: Text, g: Text, m: Text, rest: Text)
    ensures Numeral(s, w, g, m, rest)
  {
    w := SpacesInFront(s);
    var t := SkipSpaces(s);
    g := if t != [] && (t[0] == DASH || t[0] == PLUS) then [t[0]] else [];
    var u := t[|g|..];
    m := DigitPrefix(u);
    PrefixDigits(u);
    rest := DigitsInFront(u);
    assert t == g + u;
    Regrouped(w, g, m, rest);
  }

  lemma Regrouped(w: Text, g: Text, m: Text, rest: Text)
    ensures w + (g + (m + rest)) == w + g + m + rest
  {
  }

  /** White space, a sign and digits: the digits, with the sign. */
  lemma IntOfNumeral(s: Text, w: Text, g: Text, m: Text, rest: Text)
    requires Numeral(s, w, g, m, rest)
    ensures IntOf(s) == if g == [DASH] then 0 - Read(m, 10) else Read(m, 10)
  {
    var t := g + m + rest;
    assert s == w + t;
    SpacesSkipped(w, t);
    DigitsTaken(m, rest);
    if g == [] {
      assert t == m + rest;
    } else {
      assert t[1..] == m + rest;
    }
  }

  lemma {:induction false} ReadNext(t: Text, c: Byte)
    requires c != COMMA
    ensures Read(t + [c], 10) == Read(t, 10) * 10 + DigitVal(c)
  {
    assert (t + [c])[..|t|] == t;
  }

  lemma {:induction false} ReadPrefix(t: Text, u: Text)
    requires forall k :: 0 <= k < |u| ==> u[k] != COMMA
    ensures Read(t, 10) <= Read(t + u, 10)
  {
    if u == [] {
      assert t + u == t;
    } else {
      var last := u[|u| - 1];
      ReadPrefix(t, u[..|u| - 1]);
      ReadNext(t + u[..|u| - 1], last);
      assert t + u == t + u[..|u| - 1] + [last];
    }
  }

  lemma {:induction false} PrefixDigits(s: Text)
    ensures forall k :: 0 <= k < |DigitPrefix(s)| ==> IsDecimal(DigitPrefix(s)[k])
  {
    if s != [] && IsDecimal(s[0]) {
      PrefixDigits(s[1..]);
    }
  }

  lemma {:induction false} DigitStep(done: Text, t: Text, all: Text)
    requires t != [] && IsDecimal(t[0]) && done + DigitPrefix(t) == all
    ensures done + [t[0]] + DigitPrefix(t[1..]) == all
    ensures Read(done + [t[0]], 10) == Read(done, 10) * 10 + (t[0] - ZERO) <= Read(all, 10)
  {
    var u := DigitPrefix(t[1..]);
    assert all == done + [t[0]] + u by {
      assert DigitPrefix(t) == [t[0]] + u;
    }
    PrefixDigits(t[1..]);
    StepRead(done, t[0], u);
  }

  lemma {:induction false} StepRead(done: Text, c: Byte, u: Text)
    requires IsDecimal(c) && forall k :: 0 <= k < |u| ==> IsDecimal(u[k])
    ensures Read(done + [c], 10) == Read(done, 10) * 10 + (c - ZERO) <= Read(done + [c] + u, 10)
  {
    ReadNext(done, c);
    ReadPrefix(done + [c], u);
  }

  /** The digit loop of atoi, which counts down; None is an overflow of int. */
  method ReadDigits(s: Text) returns (value: Option<int>)
    ensures value == if Read(DigitPrefix(s), 10) <= INT_LIMIT then Some(0 - Read(DigitPrefix(s), 10)) else None
  {
    var t: Text := s;
    var v := 0;
    ghost var all, done: Text := DigitPrefix(s), [];
    assert done + all == all;
    while t != [] && IsDecimal(t[0])
      invariant done + DigitPrefix(t) == all && v == 0 - Read(done, 10) >= -INT_LIMIT
      decreases |t|
    {
      DigitStep(done, t, all);
      if v * 10 < -INT_LIMIT || v * 10 - (t[0] - ZERO) < -INT_LIMIT {
        return None;
      }
      v := v * 10 - (t[0] - ZERO);
      done := done + [t[0]];
      t := t[1..];
    }
    assert done + [] == done;
    value := Some(v);
  }

  /** atoi: an overflow if and only if the text does not stand for an int. */
  method Atoi(s: Text) returns (value: Option<int>)
    ensures value == if -INT_LIMIT <= IntOf(s) < INT_LIMIT then Some(IntOf(s)) else None
  {
    var t: Text := s;
    while t != [] && IsSpace(t[0])
      invariant SkipSpaces(t) == SkipSpaces(s)
      decreases |t|
    {
      t := t[1..];
    }
    var negative := false;
    if t != [] && t[0] == PLUS {
      t := t[1..];
    } else if t != [] && t[0] == DASH {
      negative := true;
      t := t[1..];
    }
    value := ReadDigits(t);
    if value.Some? && !negative {
      value := if value.value == -INT_LIMIT then None else Some(0 - value.value);
    }
  }

  /** The text "%d" makes of V. */
  method PrintDecimal(v: int) returns (out: Text)
    requires -INT_LIMIT <= v < INT_LIMIT
    ensures IntOf(out) == v
  {
    var c := Conv(false, false, false, false, false, false, 0, -1);
    var m: nat := if v < 0 then 0 - v else v;
    out := FormatInteger(m, true, v < 0, DEC, c);
    ghost var s, x, d :| TextOf(out, s, x, d, m, true, v < 0, DEC, c);
    assert out == s + d;
    ghost var n := NumDigits(m, DEC);
    AllDigits(d, DEC, n + Commas(DEC, false, n));
    DecimalText(d, v < 0);
  }

  /** Without commas there are digits only. */
  lemma {:induction false} AllDigits(d: Text, b: Base, m: nat)
    requires b.group > 0 && Digits(Reversed(d), b, false, m)
    ensures forall k :: 0 <= k < |d| ==> IsDigit(b, d[k])
  {
    var t := Reversed(d);
    forall k | 0 <= k < |d| ensures IsDigit(b, d[k]) {
      ReversedFacts(d, |d| - 1 - k);
      assert IsDigit(b, t[|d| - 1 - k]);
    }
  }

  lemma {:induction false} DecimalText(d: Text, negative: bool)
    requires d != [] && forall k :: 0 <= k < |d| ==> IsDecimal(d[k])
    ensures IntOf((if negative then [DASH] else []) + d) == if negative then 0 - Read(d, 10) else Read(d, 10)
  {
    AllPrefix(d);
    if negative {
      assert ([DASH] + d)[1..] == d;
    } else {
      assert [] + d == d;
    }
  }

  lemma {:induction false} AllPrefix(d: Text)
    requires forall k :: 0 <= k < |d| ==> IsDecimal(d[k])
    ensures DigitPrefix(d) == d
  {
    if d != [] {
      AllPrefix(d[1..]);
    }
  }

  /** Printing any int and reading the text gives it back. */
  method PrintThenRead(v: int) returns (r: int)
    requires -INT_LIMIT <= v < INT_LIMIT
    ensures r == v
  {
    var text := PrintDecimal(v);
    var back := Atoi(text);
    r := back.value;
  }
}
