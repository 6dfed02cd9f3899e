/** Archive headers: lib/ustar.c. */
module Ustar {
  import opened Common
  import opened Print

  const HEADER_SIZE := 512
  const REGULAR: Byte := 48     // '0'
  const DIRECTORY: Byte := 53   // '5'
  const SLASH: Byte := 47
  const DOT: Byte := 46
  const ULONG := 0x1_0000_0000

  // Offsets of the fields that matter when a header is read.
  const SIZE_AT := 124
  const SIZE_LEN := 12
  const CHKSUM_AT := 148
  const CHKSUM_LEN := 8
  const TYPE_AT := 156
  const MAGIC_AT := 257
  const VERSION_AT := 263
  const PREFIX_AT := 345

  const MAGIC: Text := [117, 115, 116, 97, 114, 0]   // "ustar"

  // ----- names

  /** The name starts with one of the prefixes to drop. */
  predicate Antisocial(s: Text) {
    || (|s| >= 1 && s[0] == SLASH)
    || (|s| >= 2 && s[0] == DOT && s[1] == SLASH)
    || (|s| >= 3 && s[0] == DOT && s[1] == DOT && s[2] == SLASH)
  }

  /** What follows the first slash. */
  function AfterSlash(s: Text): (r: Text)
    requires Antisocial(s)
    ensures |r| < |s|
  {
    if s[0] == SLASH then s[1..] else if s[1] == SLASH then s[2..] else s[3..]
  }

  function Stripped(s: Text): Text
    decreases |s|
  {
    if Antisocial(s) then Stripped(AfterSlash(s))
    else if s == [] || s == [DOT, DOT] then [DOT] else s
  }

  /** Stripping leaves nothing to strip, so it is idempotent. */
  lemma {:induction false} StripIdempotent(s: Text)
    ensures !Antisocial(Stripped(s)) && Stripped(s) != [] && Stripped(Stripped(s)) == Stripped(s)
    decreases |s|
  {
    if Antisocial(s) {
      StripIdempotent(AfterSlash(s));
    }
  }

  lemma {:induction false} StripNoNull(s: Text)
    requires 0 !in s
    ensures 0 !in Stripped(s)
    decreases |s|
  {
    if Antisocial(s) {
      StripNoNull(AfterSlash(s));
    }
  }

  /** The pieces that are dropped from the front of a name. */
  predicate Piece(p: Text) {
    p == [SLASH] || p == [DOT, SLASH] || p == [DOT, DOT, SLASH]
  }

  ghost function Joined(ps: seq<Text>): Text {
    if ps == [] then [] else ps[0] + Joined(ps[1..])
  }

  ghost predicate AllPieces(ps: seq<Text>) {
    forall i :: 0 <= i < |ps| ==> Piece(ps[i])
  }

  /** NAME is pieces followed by REST, which starts with none. */
  ghost predicate Splits(name: Text, ps: seq<Text>, rest: Text) {
    AllPieces(ps) && name == Joined(ps) + rest && forall p :: Piece(p) ==> !(p <= rest)
  }

  /** R is what follows the pieces, or "." where that would be nothing or "..". */
  ghost predicate RestOf(name: Text, r: Text) {
    exists ps, rest :: Splits(name, ps, rest) && r == if rest == [] || rest == [DOT, DOT] then [DOT] else rest
  }

  lemma NoPiece(s: Text)
    ensures Antisocial(s) <==> exists p :: Piece(p) && p <= s
  {
    if Antisocial(s) {
      var p := if s[0] == SLASH then s[..1] else if s[1] == SLASH then s[..2] else s[..3];
      assert Piece(p) && p <= s;
    }
  }

  /** The first piece, and what follows it. */
  lemma FirstPiece(s: Text) returns (p: Text)
    requires Antisocial(s)
    ensures Piece(p) && s == p + AfterSlash(s)
  {
    p := if s[0] == SLASH then s[..1] else if s[1] == SLASH then s[..2] else s[..3];
  }

  lemma AddPiece(p: Text, tail: Text, ps: seq<Text>, rest: Text)
    requires Piece(p) && Splits(tail, ps, rest)
    ensures Splits(p + tail, [p] + ps, rest)
  {
    assert ([p] + ps)[1..] == ps;
    assert p + (Joined(ps) + rest) == Joined([p] + ps) + rest;
  }

  lemma {:induction false} StrippedSplits(s: Text) returns (ps: seq<Text>, rest: Text)
    ensures Splits(s, ps, rest) && Stripped(s) == if rest == [] || rest == [DOT, DOT] then [DOT] else rest
    decreases |s|
  {
    NoPiece(s);
    if Antisocial(s) {
      var p := FirstPiece(s);
      ps, rest := StrippedSplits(AfterSlash(s));
      AddPiece(p, AfterSlash(s), ps, rest);
      ps := [p] + ps;
    } else {
      ps, rest := [], s;
    }
  }

  lemma SplitsHead(name: Text, ps: seq<Text>, rest: Text)
    requires Splits(name, ps, rest)
    ensures ps == [] <==> !Antisocial(name)
  {
    NoPiece(name);
    if ps == [] {
      assert name == rest;
    } else {
      assert Piece(ps[0]) && ps[0] <= name;
    }
  }

  /** There is only one way to split a name. */
  lemma {:induction false} SplitOnce(name: Text, ps: seq<Text>, rest: Text, ps': seq<Text>, rest': Text)
    requires Splits(name, ps, rest) && Splits(name, ps', rest')
    ensures ps == ps' && rest == rest'
    decreases |ps|
  {
    SplitsHead(name, ps, rest);
    SplitsHead(name, ps', rest');
    if ps == [] {
      assert [] + rest == rest && [] + rest' == rest';
    } else {
      var p, p' := ps[0], ps'[0];
      SamePiece(name, p, p');
      var tail := name[|p|..];
      assert name == p + (Joined(ps[1..]) + rest) && name == p + (Joined(ps'[1..]) + rest');
      assert Splits(tail, ps[1..], rest) && Splits(tail, ps'[1..], rest');
      SplitOnce(tail, ps[1..], rest, ps'[1..], rest');
      assert ps == [p] + ps[1..] && ps' == [p] + ps'[1..];
    }
  }

  lemma SamePiece(s: Text, p: Text, p': Text)
    requires Piece(p) && Piece(p') && p <= s && p' <= s
    ensures p == p'
  {
    assert s[0] == p[0] == p'[0];
    if s[0] == DOT {
      assert s[1] == p[1] == p'[1];
      if s[1] == DOT {
        assert s[2] == p[2] == p'[2];
      }
    }
  }

  lemma StrippedIsRest(s: Text)
    ensures RestOf(s, Stripped(s))
  {
    var ps, rest := StrippedSplits(s);
  }

  /** strip_antisocial_prefixes: what follows all pieces at the front. */
  method Strip(name: Text) returns (r: Text)
    ensures RestOf(name, r) && r == Stripped(name)
  {
    StrippedIsRest(name);
    r := name;
    while Antisocial(r)
      invariant Stripped(r) == Stripped(name)
      decreases |r|
    {
      r := AfterSlash(r);
    }
    if r == [] || r == [DOT, DOT] {
      r := [DOT];
    }
  }

  // ----- octal fields

  predicate IsOctal(c: Byte) {
    48 <= c <= 55
  }

  /** How many octal digits T starts with. */
  function OctalRun(t: Text): (n: nat)
    ensures n <= |t| && (forall i :: 0 <= i < n ==> IsOctal(t[i])) && (n < |t| ==> !IsOctal(t[n]))
  {
    if t != [] && IsOctal(t[0]) then 1 + OctalRun(t[1..]) else 0
  }

  /** The value of a field: digits that end in a space or a null byte. */
  function Field(t: Text): Option<nat> {
    var n := OctalRun(t);
    if 0 < n < |t| && (t[n] == SP || t[n] == 0) && Read(t[..n], 8) < ULONG then Some(Read(t[..n], 8)) else None
  }

  lemma {:induction false} OctalNext(t: Text, c: Byte)
    requires c != COMMA
    ensures Read(t + [c], 8) == Read(t, 8) * 8 + DigitVal(c)
  {
    assert (t + [c])[..|t|] == t;
  }

  lemma {:induction false} OctalGrows(t: Text, j: nat, k: nat)
    requires j <= k <= |t| && forall i :: 0 <= i < k ==> IsOctal(t[i])
    ensures Read(t[..j], 8) <= Read(t[..k], 8)
  {
    if j < k {
      OctalGrows(t, j, k - 1);
      OctalNext(t[..k - 1], t[k - 1]);
      assert t[..k] == t[..k - 1] + [t[k - 1]];
    }
  }

  /** parse_octal_field. */
  method ParseOctal(t: Text) returns (r: Option<nat>)
    ensures r == Field(t)
  {
    var value: nat, ofs: nat := 0, 0;
    while ofs < |t|
      invariant ofs <= OctalRun(t) && value == Read(t[..ofs], 8) < ULONG
    {
      var c := t[ofs];
      if 48 <= c <= 55 {
        OctalNext(t[..ofs], c);
        assert t[..ofs + 1] == t[..ofs] + [c];
        if value > (ULONG - 1) / 8 {
          OctalGrows(t, ofs + 1, OctalRun(t));
          return None;
        }
        value := c - 48 + value * 8;
      } else if c == SP || c == 0 {
        return if ofs > 0 then Some(value) else None;
      } else {
        return None;
      }
      ofs := ofs + 1;
    }
    r := None;
  }

  /** A value printed in WIDTH octal digits. */
  method OctalText(v: nat, width: nat) returns (t: Text)
    requires width > 0 && v < Pow(8, width) && v < UINT64
    ensures |t| == width && Read(t, 8) == v && forall i :: 0 <= i < width ==> IsOctal(t[i])
  {
    var c := Conv(false, false, false, false, true, false, width, -1);
    t := FormatInteger(v, false, false, OCT, c);
    ghost var s, x, d :| TextOf(t, s, x, d, v, false, false, OCT, c);
    assert s == [] && x == [];
    OctalField(t, d, v, c);
  }

  lemma OctalField(t: Text, d: Text, v: nat, c: Conv)
    requires c.zero && !c.pound && !c.group && c.precision == -1 && v < Pow(8, c.width) && c.width > 0
    requires Rendered(d, v, OCT, c) && InField(t, [], [], d, c)
    ensures |t| == c.width && Read(t, 8) == v && forall i :: 0 <= i < c.width ==> IsOctal(t[i])
  {
    var n := NumDigits(v, OCT);
    NumDigitsLeast(v, OCT, c.width);
    ZerosThenDigits(t, d, c);
    ZerosRead(c.width - |d|, d, 8);
    AllDigits(d, OCT, n + Commas(OCT, false, n));
  }

  lemma ZerosThenDigits(t: Text, d: Text, c: Conv)
    requires c.zero && |d| <= c.width && InField(t, [], [], d, c)
    ensures t == Dup(ZERO, c.width - |d|) + d
  {
    var n := c.width - |d|;
    assert t == t[..n] + t[n..];
    assert t[..n] == Dup(ZERO, n);
  }

  // ----- checksums

  /** The sum of the first N bytes, those of the checksum field counted as spaces. */
  function Sum(b: Text, n: nat): nat
    requires n <= |b|
  {
    if n == 0 then 0
    else Sum(b, n - 1) + if CHKSUM_AT <= n - 1 < CHKSUM_AT + CHKSUM_LEN then SP else b[n - 1]
  }

  lemma {:induction false} SumBound(b: Text, n: nat)
    requires n <= |b|
    ensures Sum(b, n) <= 255 * n
  {
    if n > 0 {
      SumBound(b, n - 1);
    }
  }

  /** The checksum does not depend on its own field. */
  lemma {:induction false} SumIgnoresField(b: Text, c: Text, n: nat)
    requires n <= |b| == |c|
    requires forall i :: 0 <= i < |b| && !(CHKSUM_AT <= i < CHKSUM_AT + CHKSUM_LEN) ==> b[i] == c[i]
    ensures Sum(b, n) == Sum(c, n)
  {
    if n > 0 {
      SumIgnoresField(b, c, n - 1);
    }
  }

  /** It is the plain sum of the other bytes: a change in one of them changes it by as
      much, and with all of them zero it is that of eight spaces. */
  lemma {:induction false} SumChanges(b: Text, c: Text, n: nat, i: nat)
    requires n <= |b| == |c| && i < |b| && forall j :: 0 <= j < |b| && j != i ==> b[j] == c[j]
    ensures var counted := i < n && !(CHKSUM_AT <= i < CHKSUM_AT + CHKSUM_LEN);
            if counted then Sum(c, n) + b[i] == Sum(b, n) + c[i] else Sum(c, n) == Sum(b, n)
  {
    if n > 0 {
      SumChanges(b, c, n - 1, i);
    }
  }

  lemma {:induction false} SumOfZeros(b: Text, n: nat)
    requires n <= |b| && forall j :: 0 <= j < n ==> b[j] == 0
    ensures Sum(b, n) == if n <= CHKSUM_AT then 0 else if n < CHKSUM_AT + CHKSUM_LEN then SP * (n - CHKSUM_AT)
                         else SP * CHKSUM_LEN
  {
    if n > 0 {
      SumOfZeros(b, n - 1);
    }
  }

  /** calculate_chksum. */
  method Checksum(b: Text) returns (s: nat)
    requires |b| == HEADER_SIZE
    ensures s == Sum(b, HEADER_SIZE)
  {
    s := 0;
    var i := 0;
    while i < HEADER_SIZE
      invariant 0 <= i <= HEADER_SIZE && s == Sum(b, i)
    {
      s := s + if CHKSUM_AT <= i < CHKSUM_AT + CHKSUM_LEN then SP else b[i];
      i := i + 1;
    }
  }

  // ----- headers

  /** A field of LEN bytes that holds T and then zeros. */
  ghost predicate TextAt(b: Text, at: nat, len: nat, t: Text) {
    at + len <= |b| && |t| <= len && forall i :: at <= i < at + len ==> b[i] == if i - at < |t| then t[i - at] else 0
  }

  ghost predicate ZerosIn(b: Text, lo: nat, hi: nat) {
    hi <= |b| && forall i :: lo <= i < hi ==> b[i] == 0
  }

  ghost predicate SameBut(b: Text, c: Text, lo: nat, hi: nat) {
    |b| == |c| && forall i :: 0 <= i < |b| && !(lo <= i < hi) ==> c[i] == b[i]
  }

  /** strlcpy and snprintf into a field of LEN bytes that is zero. */
  method PutText(h: array<Byte>, at: nat, t: Text, len: nat)
    requires h.Length == HEADER_SIZE && |t| < len && at + len <= HEADER_SIZE
    modifies h
    ensures SameBut(old(h[..]), h[..], at, at + len)
    ensures forall i :: at <= i < at + |t| ==> h[i] == t[i - at]
    ensures h[at + |t|] == 0 && forall i :: at + |t| < i < at + len ==> h[i] == old(h[i])
  {
    var i := 0;
    while i < |t|
      invariant i <= |t|
      invariant forall j :: 0 <= j < HEADER_SIZE ==> h[j] == if at <= j < at + i then t[j - at] else old(h[j])
    {
      h[at + i] := t[i];
      i := i + 1;
    }
    h[at + i] := 0;
  }

  /** A field of LEN bytes that holds V in octal. */
  ghost predicate OctalAt(b: Text, at: nat, len: nat, v: nat) {
    && 0 < len && at + len <= |b| && b[at + len - 1] == 0
    && Read(b[at..at + len - 1], 8) == v && forall i :: at <= i < at + len - 1 ==> IsOctal(b[i])
  }

  ghost predicate MagicAt(b: Text) {
    && |b| == HEADER_SIZE && b[VERSION_AT] == ZERO && b[VERSION_AT + 1] == ZERO
    && forall i :: 0 <= i < 6 ==> b[MAGIC_AT + i] == MAGIC[i]
  }

  const ROOT: Text := [114, 111, 111, 116]   // "root"
  const MTIME := 1136102400

  /** rw-r--r-- for files, rwxr-xr-x for directories. */
  function Mode(typ: Byte): nat {
    if typ == REGULAR then 0x1a4 else 0x1ed
  }

  /** A header for a file of SIZE bytes, but for the checksum: what every other byte
      is. */
  ghost predicate BodyFor(b: Text, name: Text, typ: Byte, size: nat) {
    && |b| == HEADER_SIZE && |name| <= 99 && TextAt(b, 0, 100, name) && OctalAt(b, 100, 8, Mode(typ))
    && OctalAt(b, 108, 8, 0) && OctalAt(b, 116, 8, 0) && OctalAt(b, SIZE_AT, SIZE_LEN, size)
    && OctalAt(b, 136, 12, MTIME) && b[TYPE_AT] == typ && ZerosIn(b, 157, MAGIC_AT) && MagicAt(b)
    && TextAt(b, 265, 32, ROOT) && TextAt(b, 297, 32, ROOT) && ZerosIn(b, 329, HEADER_SIZE)
  }

  ghost predicate HeaderFor(b: Text, name: Text, typ: Byte, size: nat) {
    BodyFor(b, name, typ, size) && OctalAt(b, CHKSUM_AT, CHKSUM_LEN, Sum(b, HEADER_SIZE))
  }

  /** A text of octal digits that fills its field. */
  ghost predicate DigitsAt(b: Text, at: nat, len: nat, t: Text) {
    TextAt(b, at, len, t) && |t| + 1 == len && forall i :: 0 <= i < |t| ==> IsOctal(t[i])
  }

  lemma {:induction false} DigitsOctal(b: Text, at: nat, len: nat, t: Text)
    requires DigitsAt(b, at, len, t)
    ensures OctalAt(b, at, len, Read(t, 8))
  {
    assert b[at..at + len - 1] == t;
    forall i | at <= i < at + len - 1 ensures IsOctal(b[i]) {
      assert b[i] == t[i - at];
    }
  }

  lemma {:induction false} OctalKept(b: Text, c: Text, at: nat, len: nat, v: nat)
    requires OctalAt(b, at, len, v) && |c| == |b| && forall i :: at <= i < at + len ==> c[i] == b[i]
    ensures OctalAt(c, at, len, v)
  {
    assert c[at..at + len - 1] == b[at..at + len - 1];
  }

  lemma {:induction false} Limits()
    ensures ULONG <= Pow(8, 11) && 255 * HEADER_SIZE < Pow(8, 7) && MTIME < Pow(8, 11) && 0x1ed < Pow(8, 7)
  {
    assert Pow(8, 4) == 4096;
    assert Pow(8, 7) == 0x20_0000;
    assert Pow(8, 11) == 0x2_0000_0000;
  }

  lemma {:induction false} ZeroText(n: nat)
    ensures Read(Dup(ZERO, n), 8) == 0
  {
    ZerosRead(n, [], 8);
    assert Dup(ZERO, n) + [] == Dup(ZERO, n);
  }

  /** The fields in front of the checksum, as texts. */
  ghost predicate FrontIs(b: Text, name: Text, mode: Text, size: Text, mtime: Text) {
    && TextAt(b, 0, 100, name) && DigitsAt(b, 100, 8, mode) && DigitsAt(b, 108, 8, Dup(ZERO, 7))
    && DigitsAt(b, 116, 8, Dup(ZERO, 7)) && DigitsAt(b, SIZE_AT, SIZE_LEN, size) && DigitsAt(b, 136, 12, mtime)
  }

  /** The name, mode and owner fields. */
  method FillNames(h: array<Byte>, name: Text, mode: Text)
    requires h.Length == HEADER_SIZE && |name| <= 99 && |mode| == 7 && ZerosIn(h[..], 0, HEADER_SIZE)
    modifies h
    ensures TextAt(h[..], 0, 100, name) && TextAt(h[..], 100, 8, mode) && TextAt(h[..], 108, 8, Dup(ZERO, 7))
    ensures TextAt(h[..], 116, 8, Dup(ZERO, 7)) && ZerosIn(h[..], SIZE_AT, HEADER_SIZE)
  {
    PutText(h, 0, name, 100);
    PutText(h, 100, mode, 8);
    PutText(h, 108, Dup(ZERO, 7), 8);
    PutText(h, 116, Dup(ZERO, 7), 8);
  }

  /** The fields in front of the checksum. */
  method FillFront(h: array<Byte>, name: Text, typ: Byte, size: nat)
    returns (ghost mode: Text, ghost sizeText: Text, ghost mtime: Text)
    requires h.Length == HEADER_SIZE && |name| <= 99 && size < ULONG && ZerosIn(h[..], 0, HEADER_SIZE)
    modifies h
    ensures FrontIs(h[..], name, mode, sizeText, mtime) && ZerosIn(h[..], CHKSUM_AT, HEADER_SIZE)
    ensures Read(mode, 8) == Mode(typ) && Read(sizeText, 8) == size && Read(mtime, 8) == MTIME
  {
    Limits();
    var m := OctalText(Mode(typ), 7);
    FillNames(h, name, m);
    var text := OctalText(size, 11);
    PutText(h, SIZE_AT, text, SIZE_LEN);
    var time := OctalText(MTIME, 11);
    PutText(h, 136, time, 12);
    mode, sizeText, mtime := m, text, time;
  }

  /** The type, magic and owner names. */
  method FillBack(h: array<Byte>, typ: Byte)
    requires h.Length == HEADER_SIZE && ZerosIn(h[..], CHKSUM_AT, HEADER_SIZE)
    modifies h
    ensures SameBut(old(h[..]), h[..], CHKSUM_AT, HEADER_SIZE) && h[TYPE_AT] == typ && MagicAt(h[..])
    ensures ZerosIn(h[..], CHKSUM_AT, TYPE_AT) && ZerosIn(h[..], 157, MAGIC_AT) && ZerosIn(h[..], 329, HEADER_SIZE)
    ensures TextAt(h[..], 265, 32, ROOT) && TextAt(h[..], 297, 32, ROOT)
  {
    h[TYPE_AT] := typ;
    PutText(h, MAGIC_AT, MAGIC[..5], 6);
    h[VERSION_AT], h[VERSION_AT + 1] := ZERO, ZERO;
    PutText(h, 297, ROOT, 32);
    PutText(h, 265, ROOT, 32);
  }

  lemma BodyIs(b: Text, name: Text, typ: Byte, mode: Text, size: Text, mtime: Text)
    requires |b| == HEADER_SIZE && |name| <= 99 && FrontIs(b, name, mode, size, mtime)
    requires Read(mode, 8) == Mode(typ) && Read(mtime, 8) == MTIME && b[TYPE_AT] == typ && MagicAt(b)
    requires ZerosIn(b, 157, MAGIC_AT) && ZerosIn(b, 329, HEADER_SIZE)
    requires TextAt(b, 265, 32, ROOT) && TextAt(b, 297, 32, ROOT)
    ensures BodyFor(b, name, typ, Read(size, 8))
  {
    ZeroText(7);
    DigitsOctal(b, 100, 8, mode);
    DigitsOctal(b, 108, 8, Dup(ZERO, 7));
    DigitsOctal(b, 116, 8, Dup(ZERO, 7));
    DigitsOctal(b, SIZE_AT, SIZE_LEN, size);
    DigitsOctal(b, 136, 12, mtime);
  }

  lemma BodyKept(b: Text, c: Text, name: Text, typ: Byte, size: nat)
    requires BodyFor(b, name, typ, size) && SameBut(b, c, CHKSUM_AT, CHKSUM_AT + CHKSUM_LEN)
    ensures BodyFor(c, name, typ, size)
  {
    OctalKept(b, c, 100, 8, Mode(typ));
    OctalKept(b, c, 108, 8, 0);
    OctalKept(b, c, 116, 8, 0);
    OctalKept(b, c, SIZE_AT, SIZE_LEN, size);
    OctalKept(b, c, 136, 12, MTIME);
  }

  /** The checksum goes in last and does not spoil itself. */
  method FillChecksum(h: array<Byte>, ghost name: Text, typ: Byte, ghost size: nat)
    requires h.Length == HEADER_SIZE && BodyFor(h[..], name, typ, size) && ZerosIn(h[..], CHKSUM_AT, TYPE_AT)
    modifies h
    ensures HeaderFor(h[..], name, typ, size)
  {
    var b := h[..];
    var sum := Checksum(b);
    SumBound(b, HEADER_SIZE);
    Limits();
    var text := OctalText(sum, 7);
    PutText(h, CHKSUM_AT, text, CHKSUM_LEN);
    DigitsOctal(h[..], CHKSUM_AT, CHKSUM_LEN, text);
    SumIgnoresField(b, h[..], HEADER_SIZE);
    BodyKept(b, h[..], name, typ, size);
  }

  /** ustar_make_header; a size below zero is printed as its 32-bit pattern. */
  method MakeHeader(fileName: Text, typ: Byte, size: int, h: array<Byte>) returns (ok: bool)
    requires h.Length == HEADER_SIZE && (typ == REGULAR || typ == DIRECTORY) && -INT_LIMIT <= size < INT_LIMIT
    modifies h
    ensures ok <==> |Stripped(fileName)| <= 99
    ensures ok ==> HeaderFor(h[..], Stripped(fileName), typ, if size < 0 then size + ULONG else size)
  {
    var name := Strip(fileName);
    if |name| > 99 {
      return false;
    }
    var i := 0;
    while i < HEADER_SIZE
      invariant 0 <= i <= HEADER_SIZE && forall j :: 0 <= j < i ==> h[j] == 0
    {
      h[i] := 0;
      i := i + 1;
    }
    FillHeader(h, name, typ, if size < 0 then size + ULONG else size);
    ok := true;
  }

  /** The same once the header is all zeros. */
  method FillHeader(h: array<Byte>, name: Text, typ: Byte, size: nat)
    requires h.Length == HEADER_SIZE && |name| <= 99 && size < ULONG && ZerosIn(h[..], 0, HEADER_SIZE)
    modifies h
    ensures HeaderFor(h[..], name, typ, size)
  {
    ghost var mode, sizeText, mtime := FillFront(h, name, typ, size);
    FillBack(h, typ);
    assert FrontIs(h[..], name, mode, sizeText, mtime);
    BodyIs(h[..], name, typ, mode, sizeText, mtime);
    FillChecksum(h, name, typ, size);
  }

  // ----- reading

  /** What ustar_parse_header finds. */
  datatype Parsed = EndOfArchive | File(name: Text, typ: Byte, size: nat) | Bad(reason: Reason)

  datatype Reason =
    NotUstar | BadVersion | CorruptChksum | ChksumMismatch | NameTooLong | BadType | CorruptSize | TooLarge

  ghost predicate AllZeros(b: Text) {
    forall i :: 0 <= i < |b| ==> b[i] == 0
  }

  /** The bytes of T before the first null byte. */
  function CString(t: Text): Text {
    if t == [] || t[0] == 0 then [] else [t[0]] + CString(t[1..])
  }

  /** The headers that are accepted, and as what. */
  ghost predicate Accepts(b: Text, f: Parsed)
    requires |b| == HEADER_SIZE && f.File?
  {
    && !AllZeros(b) && MagicAt(b) && Field(b[CHKSUM_AT..CHKSUM_AT + CHKSUM_LEN]) == Some(Sum(b, HEADER_SIZE))
    && b[99] == 0 && b[PREFIX_AT] == 0 && f.typ == b[TYPE_AT] && f.name == Stripped(CString(b[..100]))
    && if f.typ == REGULAR then Field(b[SIZE_AT..SIZE_AT + SIZE_LEN]) == Some(f.size) && f.size < INT_LIMIT
       else f.typ == DIRECTORY && f.size == 0
  }

  /** What can be wrong with a header. */
  ghost predicate Defect(b: Text, reason: Reason)
    requires |b| == HEADER_SIZE
  {
    match reason
    case NotUstar => b[MAGIC_AT..MAGIC_AT + 6] != MAGIC
    case BadVersion => b[VERSION_AT] != ZERO || b[VERSION_AT + 1] != ZERO
    case CorruptChksum => Field(b[CHKSUM_AT..CHKSUM_AT + CHKSUM_LEN]).None?
    case ChksumMismatch => Field(b[CHKSUM_AT..CHKSUM_AT + CHKSUM_LEN]) != Some(Sum(b, HEADER_SIZE))
    case NameTooLong => b[99] != 0 || b[PREFIX_AT] != 0
    case BadType => b[TYPE_AT] != REGULAR && b[TYPE_AT] != DIRECTORY
    case CorruptSize => b[TYPE_AT] == REGULAR && Field(b[SIZE_AT..SIZE_AT + SIZE_LEN]).None?
    case TooLarge =>
      var size := Field(b[SIZE_AT..SIZE_AT + SIZE_LEN]);
      b[TYPE_AT] == REGULAR && size.Some? && size.value >= INT_LIMIT
  }

  /** The order in which they are looked for. */
  function Rank(reason: Reason): nat {
    match reason
    case NotUstar => 0
    case BadVersion => 1
    case CorruptChksum => 2
    case ChksumMismatch => 3
    case NameTooLong => 4
    case BadType => 5
    case CorruptSize => 6
    case TooLarge => 7
  }

  /** A header is accepted as some file exactly when nothing is wrong with it. */
  lemma AcceptedExactly(b: Text)
    requires |b| == HEADER_SIZE && !AllZeros(b)
    ensures (exists f: Parsed :: f.File? && Accepts(b, f)) <==> forall q :: !Defect(b, q)
  {
    MagicBytes(b);
    if forall q :: !Defect(b, q) {
      assert !Defect(b, NotUstar) && !Defect(b, BadVersion) && !Defect(b, ChksumMismatch) && !Defect(b, NameTooLong);
      assert !Defect(b, BadType) && !Defect(b, CorruptSize) && !Defect(b, TooLarge);
      var size := if b[TYPE_AT] == REGULAR then Field(b[SIZE_AT..SIZE_AT + SIZE_LEN]).value else 0;
      assert Accepts(b, File(Stripped(CString(b[..100])), b[TYPE_AT], size));
    }
  }

  method IsAllZeros(b: Text) returns (r: bool)
    ensures r <==> AllZeros(b)
  {
    var i := 0;
    while i < |b|
      invariant i <= |b| && forall j :: 0 <= j < i ==> b[j] == 0
    {
      if b[i] != 0 {
        return false;
      }
      i := i + 1;
    }
    r := true;
  }

  /** ustar_parse_header: the end of the archive, a file, or the first defect. */
  method ParseHeader(b: Text) returns (r: Parsed)
    requires |b| == HEADER_SIZE
    ensures r.EndOfArchive? <==> AllZeros(b)
    ensures r.File? ==> Accepts(b, r)
    ensures r.Bad? ==> forall f: Parsed :: f.File? ==> !Accepts(b, f)
    ensures r.Bad? ==> Defect(b, r.reason) && forall q :: Rank(q) < Rank(r.reason) ==> !Defect(b, q)
  {
    var zeros := IsAllZeros(b);
    if zeros {
      return EndOfArchive;
    }
    MagicBytes(b);
    if b[MAGIC_AT..MAGIC_AT + 6] != MAGIC {
      return Bad(NotUstar);
    }
    if b[VERSION_AT] != ZERO || b[VERSION_AT + 1] != ZERO {
      return Bad(BadVersion);
    }
    var chksum := ParseOctal(b[CHKSUM_AT..CHKSUM_AT + CHKSUM_LEN]);
    if chksum.None? {
      return Bad(CorruptChksum);
    }
    var sum := Checksum(b);
    if chksum.value != sum {
      return Bad(ChksumMismatch);
    }
    if b[99] != 0 || b[PREFIX_AT] != 0 {
      return Bad(NameTooLong);
    }
    if b[TYPE_AT] != REGULAR && b[TYPE_AT] != DIRECTORY {
      return Bad(BadType);
    }
    var size := Some(0);
    if b[TYPE_AT] == REGULAR {
      size := ParseOctal(b[SIZE_AT..SIZE_AT + SIZE_LEN]);
      if size.None? {
        return Bad(CorruptSize);
      } else if size.value >= INT_LIMIT {
        return Bad(TooLarge);
      }
    }
    var name := Strip(CString(b[..100]));
    r := File(name, b[TYPE_AT], size.value);
  }

  lemma {:induction false} MagicBytes(b: Text)
    requires |b| == HEADER_SIZE
    ensures MagicAt(b) <==> b[MAGIC_AT..MAGIC_AT + 6] == MAGIC && b[VERSION_AT] == ZERO && b[VERSION_AT + 1] == ZERO
  {
    var m := b[MAGIC_AT..MAGIC_AT + 6];
    assert forall i :: 0 <= i < 6 ==> m[i] == b[MAGIC_AT + i];
    assert (forall i :: 0 <= i < 6 ==> m[i] == MAGIC[i]) <==> m == MAGIC;
  }

  /** A field written in octal parses to its value. */
  lemma {:induction false} OctalParses(b: Text, at: nat, len: nat, v: nat)
    requires OctalAt(b, at, len, v) && len > 1 && v < ULONG
    ensures Field(b[at..at + len]) == Some(v)
  {
    var t := b[at..at + len];
    forall i | 0 <= i < len - 1 ensures IsOctal(t[i]) {
      assert t[i] == b[at + i];
    }
    assert t[len - 1] == 0;
    RunIs(t, len - 1);
    assert t[..len - 1] == b[at..at + len - 1];
  }

  lemma {:induction false} RunIs(t: Text, n: nat)
    requires n < |t| && (forall i :: 0 <= i < n ==> IsOctal(t[i])) && !IsOctal(t[n])
    ensures OctalRun(t) == n
  {
  }

  lemma {:induction false} CStringIs(t: Text, s: Text)
    requires |s| < |t| && t[|s|] == 0 && forall i :: 0 <= i < |s| ==> t[i] == s[i] && s[i] != 0
    ensures CString(t) == s
  {
    if s != [] {
      assert t[0] == s[0];
      CStringIs(t[1..], s[1..]);
    }
  }

  /** A header that was made is accepted as what it was made for. */
  lemma {:induction false} MadeIsAccepted(b: Text, name: Text, typ: Byte, size: nat)
    requires HeaderFor(b, name, typ, size) && 0 !in name && Stripped(name) == name && size < INT_LIMIT
    requires typ == REGULAR || typ == DIRECTORY
    ensures Accepts(b, File(name, typ, if typ == REGULAR then size else 0))
  {
    SumBound(b, HEADER_SIZE);
    OctalParses(b, CHKSUM_AT, CHKSUM_LEN, Sum(b, HEADER_SIZE));
    OctalParses(b, SIZE_AT, SIZE_LEN, size);
    assert b[TYPE_AT] != 0;
    forall i | 0 <= i < |name| ensures b[..100][i] == name[i] && name[i] != 0 {
      assert name[i] in name;
    }
    CStringIs(b[..100], name);
  }

  /** Making a header and parsing it returns the stripped name, the type and the
      size, which is 0 for directories. */
  method MakeThenParse(fileName: Text, typ: Byte, size: nat) returns (r: Option<Parsed>)
    requires 0 !in fileName && (typ == REGULAR || typ == DIRECTORY) && size < INT_LIMIT
    ensures var name := Stripped(fileName);
            r == if |name| <= 99 then Some(File(name, typ, if typ == REGULAR then size else 0)) else None
  {
    var h := new Byte[HEADER_SIZE];
    var ok := MakeHeader(fileName, typ, size, h);
    if !ok {
      return None;
    }
    StripIdempotent(fileName);
    StripNoNull(fileName);
    MadeIsAccepted(h[..], Stripped(fileName), typ, size);
    var p := ParseHeader(h[..]);
    r := Some(p);
  }
}
