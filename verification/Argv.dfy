/** The initial stack of a process: setup_stack, and strtok_r under it. */
module Argv {
  import opened Common
  import opened DivMod
  import opened Pte
  import opened UserMemory
  import opened Loader

  const SPACES: seq<Byte> := [32]
  const MAX_ARGS := 128

  // ----- words of a string

  /** The length of the run of bytes not in D that S starts with. */
  function RunLen(s: seq<Byte>, d: seq<Byte>): (n: nat)
    ensures n <= |s| && (forall i :: 0 <= i < n ==> s[i] !in d) && (n < |s| ==> s[n] in d)
  {
    if s == [] || s[0] in d then 0 else 1 + RunLen(s[1..], d)
  }

  /** The maximal runs of bytes not in D in S, in order. */
  function Tokens(s: seq<Byte>, d: seq<Byte>): seq<seq<Byte>>
    decreases |s|
  {
    if s == [] then []
    else if s[0] in d then Tokens(s[1..], d)
    else [s[..RunLen(s, d)]] + Tokens(s[RunLen(s, d)..], d)
  }

  /** Tokens are not empty and hold no delimiters. */
  lemma {:induction false} TokensSolid(s: seq<Byte>, d: seq<Byte>, k: nat)
    requires k < |Tokens(s, d)|
    ensures Tokens(s, d)[k] != [] && forall x :: x in Tokens(s, d)[k] ==> x !in d
    decreases |s|
  {
    if s[0] in d {
      TokensSolid(s[1..], d, k);
    } else if k > 0 {
      TokensSolid(s[RunLen(s, d)..], d, k - 1);
    }
  }

  /** Gaps and tokens by turns. */
  ghost function Woven(gaps: seq<seq<Byte>>, t: seq<seq<Byte>>): seq<Byte>
    requires |gaps| == |t| + 1
    decreases |t|
  {
    if t == [] then gaps[0] else gaps[0] + t[0] + Woven(gaps[1..], t[1..])
  }

  /** S is tokens T with delimiters before, between and after them. */
  ghost predicate SplitBy(s: seq<Byte>, d: seq<Byte>, gaps: seq<seq<Byte>>, t: seq<seq<Byte>>) {
    && |gaps| == |t| + 1 && s == Woven(gaps, t)
    && (forall k, x :: 0 <= k < |gaps| && x in gaps[k] ==> x in d)
    && (forall k :: 0 < k < |t| ==> gaps[k] != [])
    && (forall k :: 0 <= k < |t| ==> t[k] != [])
    && (forall k, x :: 0 <= k < |t| && x in t[k] ==> x !in d)
  }

  lemma SplitDelim(c: Byte, s: seq<Byte>, d: seq<Byte>, gaps: seq<seq<Byte>>, t: seq<seq<Byte>>)
    requires c in d && SplitBy(s, d, gaps, t)
    ensures SplitBy([c] + s, d, [[c] + gaps[0]] + gaps[1..], t)
  {
    var gaps' := [[c] + gaps[0]] + gaps[1..];
    assert gaps'[1..] == gaps[1..];
    if t != [] {
      assert [c] + (gaps[0] + t[0] + Woven(gaps[1..], t[1..])) == [c] + gaps[0] + t[0] + Woven(gaps[1..], t[1..]);
    }
  }

  lemma SplitToken(w: seq<Byte>, s: seq<Byte>, d: seq<Byte>, gaps: seq<seq<Byte>>, t: seq<seq<Byte>>)
    requires w != [] && (forall x :: x in w ==> x !in d) && SplitBy(s, d, gaps, t) && (s != [] ==> s[0] in d)
    ensures SplitBy(w + s, d, [[]] + gaps, [w] + t)
  {
    var gaps', t' := [[]] + gaps, [w] + t;
    assert gaps'[1..] == gaps && t'[1..] == t;
    assert [] + w + Woven(gaps, t) == w + s;
    if t != [] {
      FirstByte(s, d, gaps, t);
    }
  }

  lemma FirstByte(s: seq<Byte>, d: seq<Byte>, gaps: seq<seq<Byte>>, t: seq<seq<Byte>>)
    requires SplitBy(s, d, gaps, t) && t != []
    ensures s != [] && (gaps[0] == [] ==> s[0] !in d)
  {
    assert s == gaps[0] + t[0] + Woven(gaps[1..], t[1..]);
    assert t[0][0] in t[0];
  }

  /** So the tokens are the maximal runs of bytes that are no delimiters: nothing else
      of S is missing, and two of them are apart. */
  lemma {:induction false} TokensSplit(s: seq<Byte>, d: seq<Byte>) returns (gaps: seq<seq<Byte>>)
    ensures SplitBy(s, d, gaps, Tokens(s, d))
    decreases |s|
  {
    if s == [] {
      gaps := [[]];
    } else if s[0] in d {
      gaps := TokensSplit(s[1..], d);
      SplitDelim(s[0], s[1..], d, gaps, Tokens(s[1..], d));
      assert [s[0]] + s[1..] == s;
      gaps := [[s[0]] + gaps[0]] + gaps[1..];
    } else {
      var n := RunLen(s, d);
      gaps := TokensSplit(s[n..], d);
      SplitToken(s[..n], s[n..], d, gaps, Tokens(s[n..], d));
      assert s[..n] + s[n..] == s;
      gaps := [[]] + gaps;
    }
  }

  /** The string at I of a buffer, up to its null byte, is S. */
  ghost predicate IsString(b: seq<Byte>, i: nat, s: seq<Byte>) {
    i + |s| < |b| && b[i + |s|] == 0 && forall k :: 0 <= k < |s| ==> b[i + k] == s[k] && s[k] != 0
  }

  /** The first loop of strtok_r: past the delimiters at S; a null byte ends it. */
  method SkipDelims(buf: array<Byte>, s: nat, d: seq<Byte>, ghost str: seq<Byte>)
    returns (p: nat, ghost left: seq<Byte>)
    requires IsString(buf[..], s, str)
    ensures IsString(buf[..], p, left) && Tokens(left, d) == Tokens(str, d) && |left| <= |str|
    ensures (left == [] <==> buf[p] == 0) && (left != [] ==> buf[p] == left[0] && left[0] !in d)
  {
    p, left := s, str;
    while buf[p] != 0 && buf[p] in d
      invariant IsString(buf[..], p, left) && Tokens(left, d) == Tokens(str, d) && |left| <= |str|
      decreases |left|
    {
      assert buf[..][p + 0] == left[0];
      left := left[1..];
      p := p + 1;
    }
    assert left != [] ==> buf[..][p + 0] == left[0];
  }

  /** The second loop of strtok_r: the end of the token at P. */
  method TokenEnd(buf: array<Byte>, p: nat, d: seq<Byte>, ghost left: seq<Byte>) returns (q: nat)
    requires IsString(buf[..], p, left)
    ensures q == p + RunLen(left, d) < buf.Length && (buf[q] == 0 <==> RunLen(left, d) == |left|)
  {
    q := p;
    while buf[q] !in d && buf[q] != 0
      invariant p <= q <= p + RunLen(left, d)
      decreases p + RunLen(left, d) - q
    {
      assert q - p < |left| ==> buf[..][p + (q - p)] == left[q - p];
      q := q + 1;
    }
    assert q - p < |left| ==> buf[..][p + (q - p)] == left[q - p] != 0;
  }

  /** strtok_r: the next token of the string STR at S, and where and how it goes
      on. */
  method StrtokR(buf: array<Byte>, s: nat, d: seq<Byte>, ghost str: seq<Byte>)
    returns (token: Option<nat>, save: nat, ghost rest: seq<Byte>)
    requires IsString(buf[..], s, str)
    modifies buf
    ensures IsString(buf[..], save, rest) && (token.Some? ==> |rest| < |str|)
    ensures token.None? ==> Tokens(str, d) == []
    ensures token.Some? ==> Tokens(str, d) != [] && Tokens(str, d)[1..] == Tokens(rest, d) &&
                            IsString(buf[..], token.value, Tokens(str, d)[0])
  {
    ghost var left;
    var p;
    p, left := SkipDelims(buf, s, d, str);
    if buf[p] == 0 {
      return None, p, left;
    }
    save, rest := EndToken(buf, p, d, left);
    TokensHead(left, d, rest);
    token := Some(p);
  }

  /** The rest of the string after its first token. */
  ghost function AfterToken(s: seq<Byte>, d: seq<Byte>): seq<Byte> {
    if RunLen(s, d) < |s| then s[RunLen(s, d) + 1..] else []
  }

  /** The end of strtok_r: a null byte ends the token at P. */
  method EndToken(buf: array<Byte>, p: nat, d: seq<Byte>, ghost left: seq<Byte>)
    returns (save: nat, ghost rest: seq<Byte>)
    requires IsString(buf[..], p, left)
    modifies buf
    ensures rest == AfterToken(left, d) && IsString(buf[..], save, rest) &&
            IsString(buf[..], p, left[..RunLen(left, d)])
  {
    var q := TokenEnd(buf, p, d, left);
    rest := AfterToken(left, d);
    CutString(buf[..], p, d, left);
    if buf[q] != 0 {
      ghost var b := buf[..];
      buf[q] := 0;
      save := q + 1;
      assert buf[..] == b[q := 0];
    } else {
      save := q;
    }
  }

  /** A null byte behind the first token makes two strings of one. */
  lemma {:induction false} CutString(b: seq<Byte>, p: nat, d: seq<Byte>, s: seq<Byte>)
    requires IsString(b, p, s)
    ensures var n := RunLen(s, d);
            if n < |s| then IsString(b[p + n := 0], p, s[..n]) && IsString(b[p + n := 0], p + n + 1, s[n + 1..])
            else IsString(b, p, s[..n]) && IsString(b, p + n, [])
  {
    var n := RunLen(s, d);
    if n < |s| {
      var rest := s[n + 1..];
      forall k | 0 <= k < |rest| ensures b[p + n := 0][p + n + 1 + k] == rest[k] != 0 {
        assert b[p + (n + 1 + k)] == s[n + 1 + k];
      }
    }
  }

  lemma {:induction false} EndOfString(b: seq<Byte>, i: nat, s: seq<Byte>, k: nat)
    requires IsString(b, i, s) && k <= |s|
    ensures b[i + k] == 0 <==> k == |s|
  {
    assert k < |s| ==> b[i + k] == s[k];
  }

  lemma {:induction false} TokensHead(s: seq<Byte>, d: seq<Byte>, rest: seq<Byte>)
    requires s != [] && s[0] !in d && rest == AfterToken(s, d)
    ensures Tokens(s, d) != [] && Tokens(s, d)[0] == s[..RunLen(s, d)] && Tokens(s, d)[1..] == Tokens(rest, d) &&
            |rest| < |s|
  {
    var t := s[RunLen(s, d)..];
    assert Tokens(s, d) == [s[..RunLen(s, d)]] + Tokens(t, d);
    if t != [] {
      assert t[1..] == rest;
    }
  }

  // ----- user memory

  type Bytes = map<nat, Byte>

  function Get(b: Bytes, x: nat): Byte {
    if x in b then b[x] else 0
  }

  /** The 32-bit word at A, low byte first. */
  function WordAt(m: Bytes, a: nat): nat {
    Get(m, a) + 0x100 * Get(m, a + 1) + 0x1_0000 * Get(m, a + 2) + 0x100_0000 * Get(m, a + 3)
  }

  ghost predicate StringIs(m: Bytes, a: nat, s: seq<Byte>) {
    Get(m, a + |s|) == 0 && forall k :: 0 <= k < |s| ==> Get(m, a + k) == s[k]
  }

  /** Only bytes from LO up to HI differ. */
  ghost predicate SameOutside(m: Bytes, m': Bytes, lo: nat, hi: nat) {
    forall x: nat :: x < lo || hi <= x ==> Get(m', x) == Get(m, x)
  }

  lemma {:induction false} StringKept(m: Bytes, m': Bytes, lo: nat, hi: nat, a: nat, s: seq<Byte>)
    requires SameOutside(m, m', lo, hi) && hi <= a && StringIs(m, a, s)
    ensures StringIs(m', a, s)
  {
  }

  lemma {:induction false} WordKept(m: Bytes, m': Bytes, lo: nat, hi: nat, a: nat)
    requires SameOutside(m, m', lo, hi) && hi <= a
    ensures WordAt(m', a) == WordAt(m, a)
  {
  }

  /** Only the word at A differs, and is V. */
  ghost predicate WordPut(m: Bytes, m': Bytes, a: nat, v: nat) {
    WordAt(m', a) == v && SameOutside(m, m', a, a + 4)
  }

  lemma {:induction false} BytesMakeWord(m: Bytes, a: nat, v: nat)
    requires v < WORD_LIMIT
    ensures v / 0x100_0000 < 0x100
    ensures WordPut(m, m[a := v % 0x100][a + 1 := v / 0x100 % 0x100][a + 2 := v / 0x1_0000 % 0x100]
                        [a + 3 := v / 0x100_0000], a, v)
  {
    WordBytes(v);
  }

  /** Bytes the strings of T take, each with its null byte. */
  function Size(t: seq<seq<Byte>>): nat {
    if t == [] then 0 else Size(t[..|t| - 1]) + |t[|t| - 1]| + 1
  }

  lemma {:induction false} SizeGrows(t: seq<seq<Byte>>, k: nat)
    requires k <= |t|
    ensures Size(t[..k]) <= Size(t)
  {
    if k < |t| {
      SizeGrows(t[..|t| - 1], k);
      assert t[..|t| - 1][..k] == t[..k];
    } else {
      assert t[..k] == t;
    }
  }

  lemma {:induction false} SizeCons(x: seq<Byte>, t: seq<seq<Byte>>)
    ensures Size([x] + t) == |x| + 1 + Size(t)
  {
    var all := [x] + t;
    if t != [] {
      SizeCons(x, t[..|t| - 1]);
      assert all[..|all| - 1] == [x] + t[..|t| - 1];
    } else {
      assert all[..|all| - 1] == [];
    }
  }

  /** Tokens, each with its null byte, take at most one byte more than the string
      they are cut from. */
  lemma {:induction false} TokensSize(s: seq<Byte>, d: seq<Byte>)
    ensures Size(Tokens(s, d)) <= |s| + 1
    decreases |s|
  {
    if s != [] && s[0] in d {
      TokensSize(s[1..], d);
    } else if s != [] {
      var rest := AfterToken(s, d);
      TokensHead(s, d, rest);
      TokensSize(rest, d);
      assert Tokens(s, d) == [Tokens(s, d)[0]] + Tokens(rest, d);
      SizeCons(Tokens(s, d)[0], Tokens(rest, d));
    }
  }

  lemma {:induction false} CountFits(t: seq<seq<Byte>>)
    ensures |t| <= Size(t)
  {
    if t != [] {
      CountFits(t[..|t| - 1]);
    }
  }

  /** Everything setup_stack writes for arguments T: the strings, the pointers to
      them and a null, argv, argc and a return address. */
  function Layout(t: seq<seq<Byte>>): nat {
    Size(t) + 4 * (|t| + 1) + 12
  }

  /** Where argument K is put. */
  function Place(t: seq<seq<Byte>>, k: nat): int
    requires k < |t|
  {
    PHYS_BASE - Size(t[..k + 1])
  }

  ghost predicate ArgIs(m: Bytes, t: seq<seq<Byte>>, k: nat) {
    k < |t| && Place(t, k) >= 0 && StringIs(m, Place(t, k), t[k])
  }

  /** Read from ESP: a return address, argc, argv, the pointers argv leads to and
      the strings they lead to are exactly T, followed by a null pointer. */
  ghost predicate ArgvAt(m: Bytes, esp: nat, t: seq<seq<Byte>>) {
    && WordAt(m, esp) == 0 && WordAt(m, esp + 4) == |t|
    && var argv := WordAt(m, esp + 8);
       && WordAt(m, argv + 4 * |t|) == 0
       && forall k :: 0 <= k < |t| ==> ArgRead(m, argv, t, k)
  }

  /** Word J above the stack pointer: a return address, argc, argv, the pointers and
      a null. */
  function StackWord(t: seq<seq<Byte>>, j: nat): int
    requires j < |t| + 4
  {
    if j == 0 then 0 else if j == 1 then |t| else if j == 2 then PHYS_BASE - Layout(t) + 12
    else if j - 3 < |t| then Place(t, j - 3) else 0
  }

  ghost predicate FrameAt(m: Bytes, esp: nat, t: seq<seq<Byte>>) {
    forall j :: 0 <= j < |t| + 4 ==> StackWordAt(m, esp, t, j)
  }

  ghost predicate StackWordAt(m: Bytes, esp: nat, t: seq<seq<Byte>>, j: nat)
    requires j < |t| + 4
  {
    WordAt(m, esp + 4 * j) == StackWord(t, j)
  }

  ghost predicate ArgRead(m: Bytes, argv: nat, t: seq<seq<Byte>>, k: nat)
    requires k < |t|
  {
    StringIs(m, WordAt(m, argv + 4 * k), t[k])
  }

  /** Where the string that pointer K leads to must end: at the string before it, or
      at PHYS_BASE. */
  ghost predicate PackedAt(m: Bytes, esp: nat, t: seq<seq<Byte>>, k: nat)
    requires k < |t|
  {
    WordAt(m, esp + 12 + 4 * k) + |t[k]| + 1 == if k == 0 then PHYS_BASE else WordAt(m, esp + 12 + 4 * (k - 1))
  }

  /** No byte is wasted: argv follows itself, each string ends where the one before it
      begins, and the last begins where the words end. */
  lemma StackPacked(m: Bytes, t: seq<seq<Byte>>)
    requires Layout(t) <= PHYS_BASE && FrameAt(m, PHYS_BASE - Layout(t), t)
    ensures var esp := PHYS_BASE - Layout(t);
            && WordAt(m, esp + 8) == esp + 12 && (forall k :: 0 <= k < |t| ==> PackedAt(m, esp, t, k))
            && esp + 4 * (|t| + 4) == if t == [] then PHYS_BASE else WordAt(m, esp + 12 + 4 * (|t| - 1))
  {
    var esp := PHYS_BASE - Layout(t);
    assert StackWordAt(m, esp, t, 2);
    forall k | 0 <= k < |t| ensures PackedAt(m, esp, t, k) {
      PointerWord(m, esp, t, k);
      SizeNext(t, k);
      if k > 0 {
        PointerWord(m, esp, t, k - 1);
      }
    }
    if t != [] {
      PointerWord(m, esp, t, |t| - 1);
      assert t[..|t|] == t;
    }
  }

  lemma PointerWord(m: Bytes, esp: nat, t: seq<seq<Byte>>, k: nat)
    requires FrameAt(m, esp, t) && k < |t|
    ensures WordAt(m, esp + 12 + 4 * k) == PHYS_BASE - Size(t[..k + 1])
  {
    assert StackWordAt(m, esp, t, k + 3);
    assert esp + 4 * (k + 3) == esp + 12 + 4 * k;
  }

  lemma SizeNext(t: seq<seq<Byte>>, k: nat)
    requires k < |t|
    ensures Size(t[..k + 1]) == Size(t[..k]) + |t[k]| + 1
  {
    assert t[..k + 1][..k] == t[..k] && t[..k + 1][k] == t[k];
  }

  // ----- page protection

  /** The page below PHYS_BASE. */
  const TOP := USER_PAGES - 1

  predicate TopWritable(pages: map<nat, bool>) {
    TOP in pages && pages[TOP]
  }

  ghost predicate AllWritable(pages: map<nat, bool>, lo: nat, hi: nat) {
    forall x: nat :: lo <= x < hi ==> CanWrite(pages, x)
  }

  lemma InTop(x: nat)
    ensures PageOf(x) == TOP <==> PHYS_BASE - PGSIZE <= x < PHYS_BASE
  {
  }

  lemma WordPages(pages: map<nat, bool>, a: nat)
    ensures AllWritable(pages, a, a + 4) <==> CanWrite(pages, a) && CanWrite(pages, a + 3)
  {
    forall x: nat | a <= x < a + 4 ensures PageOf(x) == PageOf(a) || PageOf(x) == PageOf(a + 3) {
    }
  }

  /** How writing the arguments ends: a store to a page that is not mapped or not
      writable, a store behind the kernel's array of 128 pointers, or neither. */
  datatype Stop = Fine | Fault | Overrun

  function TokensStop(pages: map<nat, bool>, t: seq<seq<Byte>>): Stop {
    if t == [] then Fine else if !TopWritable(pages) then Fault else if |t| > MAX_ARGS then Overrun else Fine
  }

  ghost function BuildStop(pages: map<nat, bool>, t: seq<seq<Byte>>): Stop
    requires Size(t) <= PGSIZE
  {
    CountFits(t);
    if !TopWritable(pages) then Fault
    else if |t| > MAX_ARGS then Overrun
    else if !AllWritable(pages, PHYS_BASE - Layout(t), PHYS_BASE) then Fault
    else Fine
  }

  /** Page by page memory M holds bytes B. */
  ghost predicate Shows(m: Memory, b: Bytes) {
    forall x: nat :: ShowsAt(m, b, x)
  }

  ghost predicate ShowsAt(m: Memory, b: Bytes, x: nat) {
    ByteAt(m, x) == Get(b, x)
  }

  /** The bytes in M. */
  ghost function BytesOf(m: Memory): Bytes {
    map x: nat | x < PHYS_BASE && PageOf(x) in m :: ByteAt(m, x)
  }

  lemma ShowsBytes(m: Memory)
    requires forall p :: p in m ==> p < USER_PAGES
    ensures Shows(m, BytesOf(m))
  {
    forall x: nat ensures ShowsAt(m, BytesOf(m), x) {
    }
  }

  lemma ShowsStored(m: Memory, m': Memory, b: Bytes, x: nat, v: Byte)
    requires Shows(m, b) && ByteStored(m, m', x, v)
    ensures Shows(m', b[x := v])
  {
    var b' := b[x := v];
    forall y: nat ensures ShowsAt(m', b', y) {
      assert ShowsAt(m, b, y);
    }
  }

  /** A new page of zeros at the top. */
  lemma TopShows(m: Memory, m': Memory, b: Bytes)
    requires Shows(m, b) && m' == m[TOP := Page(PageOfFile([], 0, 0), true)]
    ensures Shows(m', Zeroed(b))
  {
    var b' := Zeroed(b);
    forall y: nat ensures ShowsAt(m', b', y) {
      assert ShowsAt(m, b, y);
    }
  }

  /** The memory of a process as bytes, and which of its pages are writable. */
  class Stack {
    const proc: Process
    ghost var mem: Bytes
    ghost var pages: map<nat, bool>

    ghost predicate Valid()
      reads this, proc, proc.pagedir
    {
      proc.Valid() && Shows(proc.memory, mem) && pages == Prot(proc.memory)
    }

    constructor (proc: Process)
      requires proc.Valid()
      ensures Valid() && this.proc == proc && mem == BytesOf(proc.memory)
    {
      this.proc := proc;
      mem, pages := BytesOf(proc.memory), Prot(proc.memory);
      new;
      SeenBelow(proc.State(), proc.memory);
      ShowsBytes(proc.memory);
    }

    /** A store of one byte. */
    method StoreByte(x: nat, v: Byte) returns (ok: bool)
      requires Valid() && x < PHYS_BASE
      modifies this`mem, proc`frames, proc`memory
      ensures Valid() && (ok <==> CanWrite(pages, x)) && mem == if ok then old(mem)[x := v] else old(mem)
    {
      ghost var m := proc.memory;
      ok := proc.StoreByte(x, v);
      if ok {
        ShowsStored(m, proc.memory, mem, x, v);
        mem := mem[x := v];
      }
    }

    /** A store of 32 bits; the processor checks all bytes first. */
    method PutWord(a: nat, v: nat) returns (ok: bool)
      requires Valid() && v < WORD_LIMIT && a + 4 <= PHYS_BASE
      modifies this`mem, proc`frames, proc`memory
      ensures Valid() && (ok <==> AllWritable(pages, a, a + 4))
      ensures if ok then WordPut(old(mem), mem, a, v) else mem == old(mem)
    {
      WordPages(pages, a);
      var lo := proc.Translate(a);
      var hi := proc.Translate(a + 3);
      ok := lo.Some? && hi.Some?;
      if ok {
        BytesMakeWord(mem, a, v);
        PutBytes(a, v % 0x100, v / 0x100 % 0x100, v / 0x1_0000 % 0x100, v / 0x100_0000);
      }
    }

    /** The bytes of a word. */
    method PutBytes(a: nat, v: Byte, w: Byte, x: Byte, y: Byte)
      requires Valid() && a + 4 <= PHYS_BASE && AllWritable(pages, a, a + 4)
      modifies this`mem, proc`frames, proc`memory
      ensures Valid() && mem == old(mem)[a := v][a + 1 := w][a + 2 := x][a + 3 := y]
    {
      PutHalf(a, v, w);
      PutHalf(a + 2, x, y);
    }

    /** Two bytes of a word. */
    method PutHalf(a: nat, v: Byte, w: Byte)
      requires Valid() && a + 2 <= PHYS_BASE && AllWritable(pages, a, a + 2)
      modifies this`mem, proc`frames, proc`memory
      ensures Valid() && mem == old(mem)[a := v][a + 1 := w]
    {
      var _ := StoreByte(a, v);
      var _ := StoreByte(a + 1, w);
    }

    /** strlcpy of the string at I of BUF to A, in the top page. */
    method PutString(a: nat, buf: array<Byte>, i: nat, ghost s: seq<Byte>) returns (ok: bool)
      requires Valid() && IsString(buf[..], i, s) && PHYS_BASE - PGSIZE <= a && a + |s| + 1 <= PHYS_BASE
      modifies this`mem, proc`frames, proc`memory
      ensures Valid()
      ensures ok <==> TopWritable(pages)
      ensures ok ==> StringIs(mem, a, s)
      ensures SameOutside(old(mem), mem, a, a + |s| + 1) && (!ok ==> mem == old(mem))
    {
      var k := 0;
      while buf[i + k] != 0
        invariant Valid() && pages == old(pages)
        invariant k <= |s| && SameOutside(old(mem), mem, a, a + |s| + 1)
        invariant if k > 0 then TopWritable(pages) else mem == old(mem)
        invariant forall j :: 0 <= j < k ==> Get(mem, a + j) == s[j]
        decreases |s| - k
      {
        EndOfString(buf[..], i, s, k);
        InTop(a + k);
        ok := StoreByte(a + k, buf[i + k]);
        if !ok {
          return;
        }
        k := k + 1;
      }
      EndOfString(buf[..], i, s, k);
      InTop(a + k);
      ok := StoreByte(a + k, 0);
    }

    /** setup_stack: one token, at I of BUF, is copied below KP. */
    method PushToken(buf: array<Byte>, i: nat, pointers: array<nat>, count: nat, kp: nat, ghost t: seq<seq<Byte>>)
      returns (stop: Stop, kp': nat)
      requires Valid() && Size(t) <= PGSIZE && count < |t| && IsString(buf[..], i, t[count]) &&
               pointers.Length == MAX_ARGS
      requires Pushed(mem, t, count, kp, pointers[..], count)
      modifies this`mem, proc`frames, proc`memory, pointers
      ensures Valid() && PHYS_BASE - Size(t) <= kp' <= PHYS_BASE && SameOutside(old(mem), mem, kp', kp) && kp' <= kp
      ensures stop == if count >= MAX_ARGS then Overrun else if TopWritable(pages) then Fine else Fault
      ensures if stop.Fine? then Pushed(mem, t, count + 1, kp', pointers[..], count + 1) else mem == old(mem)
    {
      ghost var m, p := mem, pointers[..];
      PushRoom(t, count);
      var len := StrLen(buf, i, t[count]);
      kp' := kp - (len + 1);
      if count >= MAX_ARGS {
        return Overrun, kp';
      }
      pointers[count] := kp';
      var ok := PutString(kp', buf, i, t[count]);
      if !ok {
        return Fault, kp';
      }
      assert pointers[..] == p[count := kp'];
      PushedNext(m, mem, t, count, kp, p, kp');
      stop := Fine;
    }

    /** setup_stack: every token of the command line is copied to the stack, each
        below the one before. */
    method PushTokens(buf: array<Byte>, pointers: array<nat>, ghost str: seq<Byte>)
      returns (stop: Stop, kp: nat, count: nat)
      requires Valid() && IsString(buf[..], 0, str) && Size(Tokens(str, SPACES)) <= PGSIZE &&
               pointers.Length == MAX_ARGS
      modifies this`mem, proc`frames, proc`memory, buf, pointers
      ensures Valid() && stop == TokensStop(pages, Tokens(str, SPACES))
      ensures stop.Fine? ==> Pushed(mem, Tokens(str, SPACES), |Tokens(str, SPACES)|, kp, pointers[..], count)
      ensures PHYS_BASE - Size(Tokens(str, SPACES)) <= kp <= PHYS_BASE && SameOutside(old(mem), mem, kp, PHYS_BASE)
      ensures !TopWritable(pages) ==> mem == old(mem)
    {
      ghost var t, rest := Tokens(str, SPACES), str;
      kp, count, stop := PHYS_BASE, 0, Fine;
      var token, save;
      token, save, rest := StrtokR(buf, 0, SPACES, str);
      while token.Some? && stop.Fine?
        invariant Valid() && Pushing(old(mem), mem, pages, t, count, kp, pointers[..], stop)
        invariant stop.Fine? ==> IsString(buf[..], save, rest)
        invariant stop.Fine? && token.Some? ==> Upcoming(buf[..], token.value, t, count, rest)
        invariant stop.Fine? && token.None? ==> count == |t|
        decreases if stop.Fine? then 1 else 0, |t| - count, if token.Some? then 1 else 0
      {
        ghost var m, hi := mem, kp;
        stop, kp := PushToken(buf, token.value, pointers, count, kp, t);
        PushingNext(old(mem), m, mem, pages, t, count, hi, kp, pointers[..], stop);
        if stop.Fine? {
          count := count + 1;
          token, save, rest := StrtokR(buf, save, SPACES, rest);
          assert token.Some? ==> t[count..][1..] == t[count + 1..];
        }
      }
    }

    /** setup_stack: a null pointer and, below it, the pointers, the first lowest. */
    method PushPointers(kp: nat, pointers: array<nat>, count: nat) returns (ok: bool, argv: nat)
      requires Valid() && count <= pointers.Length && 4 * (count + 1) <= kp <= PHYS_BASE
      requires forall k :: 0 <= k < count ==> pointers[k] < WORD_LIMIT
      modifies this`mem, proc`frames, proc`memory
      ensures Valid() && argv >= kp - 4 * (count + 1) && SameOutside(old(mem), mem, kp - 4 * (count + 1), kp)
      ensures ok <==> AllWritable(pages, kp - 4 * (count + 1), kp)
      ensures !CanWrite(pages, kp - 1) ==> mem == old(mem)
      ensures ok ==> argv == kp - 4 * (count + 1) && Pointers(mem, argv, kp, pointers[..], count, 0)
    {
      argv := kp - 4;
      ghost var base, i := kp - 4 * (count + 1), count;
      ok := PutWord(argv, 0);
      PointingStart(old(mem), mem, pages, base, kp, pointers[..], count, ok);
      if ok {
        ok, argv, i := PushEach(kp, pointers, count, old(mem));
      }
      PointingDone(old(mem), mem, pages, base, kp, pointers[..], count, i, ok);
    }

    /** The pointers one by one, below the null; M0 is memory before it. */
    method PushEach(kp: nat, pointers: array<nat>, count: nat, ghost m0: Bytes)
      returns (ok: bool, argv: nat, ghost i: nat)
      requires Valid() && count <= pointers.Length && 4 * (count + 1) <= kp <= PHYS_BASE
      requires forall k :: 0 <= k < count ==> pointers[k] < WORD_LIMIT
      requires Pointing(m0, mem, pages, kp - 4 * (count + 1), kp, pointers[..], count, count, true)
      modifies this`mem, proc`frames, proc`memory
      ensures Valid() && i <= count && (ok ==> i == 0) && argv == kp - 4 * (count + 1) + 4 * i
      ensures Pointing(m0, mem, pages, kp - 4 * (count + 1), kp, pointers[..], count, i, ok)
    {
      ghost var base := kp - 4 * (count + 1);
      var left: nat := count;
      ok, argv := true, kp - 4;
      while ok && left > 0
        invariant Valid() && left <= count && argv == base + 4 * left
        invariant Pointing(m0, mem, pages, base, kp, pointers[..], count, left, ok)
        decreases left
      {
        ghost var m := mem;
        argv, left := argv - 4, left - 1;
        ok := PutWord(argv, pointers[left]);
        PointingNext(m0, m, mem, pages, base, kp, pointers[..], count, left, ok);
      }
      i := left;
    }

    /** The three words under the pointers. */
    method PushFrame(argv: nat, count: nat) returns (ok: bool)
      requires Valid() && 12 <= argv <= PHYS_BASE && count < WORD_LIMIT
      modifies this`mem, proc`frames, proc`memory
      ensures Valid() && (ok <==> AllWritable(pages, argv - 12, argv)) && SameOutside(old(mem), mem, argv - 12, argv)
      ensures ok ==> FramePut(old(mem), mem, argv, count)
    {
      WordsWritable(pages, argv - 12, argv);
      ok := PushTwo(argv, count);
      if ok {
        ghost var m := mem;
        ok := PutWord(argv - 12, 0);
        if ok {
          WordKept(m, mem, argv - 12, argv - 8, argv - 8);
          WordKept(m, mem, argv - 12, argv - 8, argv - 4);
        }
      }
    }

    /** The upper two of them. */
    method PushTwo(argv: nat, count: nat) returns (ok: bool)
      requires Valid() && 12 <= argv <= PHYS_BASE && count < WORD_LIMIT
      modifies this`mem, proc`frames, proc`memory
      ensures Valid() && (ok <==> AllWritable(pages, argv - 8, argv)) && SameOutside(old(mem), mem, argv - 8, argv)
      ensures ok ==> WordAt(mem, argv - 8) == count && WordAt(mem, argv - 4) == argv
    {
      WordsWritable(pages, argv - 8, argv);
      ok := PutWord(argv - 4, argv);
      if ok {
        ghost var m := mem;
        ok := PutWord(argv - 8, count);
        if ok {
          WordKept(m, mem, argv - 8, argv - 4, argv - 4);
        }
      }
    }

    /** setup_stack once the command line is copied to BUF: the arguments read back
        as the tokens, if every store is allowed. */
    method Build(buf: array<Byte>, ghost str: seq<Byte>) returns (stop: Stop, esp: nat)
      requires Valid() && IsString(buf[..], 0, str) && Size(Tokens(str, SPACES)) <= PGSIZE
      modifies this`mem, proc`frames, proc`memory, buf
      ensures Valid()
      ensures stop == BuildStop(pages, Tokens(str, SPACES))
      ensures stop.Fine? ==> esp == PHYS_BASE - Layout(Tokens(str, SPACES)) && ArgvAt(mem, esp, Tokens(str, SPACES))
      ensures stop.Fine? ==> FrameAt(mem, esp, Tokens(str, SPACES))
      ensures Layout(Tokens(str, SPACES)) < PHYS_BASE
      ensures SameOutside(old(mem), mem, PHYS_BASE - Layout(Tokens(str, SPACES)), PHYS_BASE)
      ensures !TopWritable(pages) ==> mem == old(mem)
    {
      ghost var t := Tokens(str, SPACES);
      CountFits(t);
      var pointers := new nat[MAX_ARGS];
      var kp, count;
      stop, kp, count := PushTokens(buf, pointers, str);
      esp := kp;
      if !stop.Fine? {
        return;
      }
      PlacesFit(t, pointers[..]);
      stop, esp := PushRest(kp, pointers, count, t);
    }

    /** setup_stack once the strings are on the stack. */
    method PushRest(kp: nat, pointers: array<nat>, count: nat, ghost t: seq<seq<Byte>>) returns (stop: Stop, esp: nat)
      requires Valid() && Size(t) <= PGSIZE && |t| <= pointers.Length == MAX_ARGS
      requires Pushed(mem, t, |t|, kp, pointers[..], count)
      requires forall k :: 0 <= k < |t| ==> pointers[k] < WORD_LIMIT
      requires t == [] || TopWritable(pages)
      modifies this`mem, proc`frames, proc`memory
      ensures Valid()
      ensures stop == BuildStop(pages, t)
      ensures stop.Fine? ==> esp == PHYS_BASE - Layout(t) && ArgvAt(mem, esp, t) && FrameAt(mem, esp, t)
      ensures SameOutside(old(mem), mem, PHYS_BASE - Layout(t), PHYS_BASE)
      ensures !TopWritable(pages) ==> mem == old(mem)
    {
      ghost var m1, base := mem, kp - 4 * (count + 1);
      assert t[..|t|] == t;
      RestStart(pages, t, kp, base);
      var ok, argv := PushPointers(kp, pointers, count);
      if !ok {
        return Fault, argv;
      }
      ok := PushLast(kp, pointers[..], argv, count, t, m1);
      stop, esp := if ok then Fine else Fault, if ok then argv - 12 else argv;
    }

    /** argv, argc and the return address below the pointers; the strings were there
        in M1. */
    method PushLast(ghost kp: nat, ghost pointers: seq<nat>, argv: nat, count: nat, ghost t: seq<seq<Byte>>,
                    ghost m1: Bytes)
      returns (ok: bool)
      requires Valid() && 12 <= argv <= kp <= PHYS_BASE && count == |t| < WORD_LIMIT && kp == argv + 4 * (count + 1)
      requires Pushed(m1, t, count, kp, pointers, count)
      requires SameOutside(m1, mem, argv, kp) && Pointers(mem, argv, kp, pointers, count, 0)
      modifies this`mem, proc`frames, proc`memory
      ensures Valid() && (ok <==> AllWritable(pages, argv - 12, argv)) && SameOutside(m1, mem, argv - 12, kp)
      ensures ok ==> ArgvAt(mem, argv - 12, t) && FrameAt(mem, argv - 12, t)
    {
      ghost var m2 := mem;
      ok := PushFrame(argv, count);
      if ok {
        ReadBack(m1, m2, mem, t, kp, pointers, argv);
      }
    }

    /** setup_stack; INPUT is the command line without its null byte. */
    method SetupStack(input: seq<Byte>) returns (success: bool, o: Outcome)
      requires Valid() && 0 !in input
      modifies this, proc, proc.pagedir
      ensures Valid() && o == OutcomeOf(input, old(pages), old(proc.room))
      ensures o.NoCopy? <==> old(proc.room).tables == 0
      ensures o.NoCopy? ==> success && mem == old(mem) && pages == old(pages) && proc.memory == old(proc.memory)
      ensures o.Built? ==> ArgvAt(mem, o.esp, Args(input)) && FrameAt(mem, o.esp, Args(input)) && (success <==> o.own)
      ensures !o.NoCopy? ==> pages == if Installs(old(proc.room)) then old(pages)[TOP := true] else old(pages)
      ensures !o.NoCopy? ==>
                Layout(Args(input)) < PHYS_BASE &&
                SameOutside(Based(old(mem), old(proc.room)), mem, PHYS_BASE - Layout(Args(input)), PHYS_BASE)
      ensures o.Faulted? && !Installs(old(proc.room)) && !TopWritable(old(pages)) ==> mem == old(mem)
    {
      var copied := proc.TakeKernelPage();
      if !copied {
        return true, NoCopy;
      }
      var copy := new Byte[PGSIZE];
      StrLcpy(copy, input);
      var stop, esp;
      success, stop, esp := Arrange(copy, input);
      match stop {
        case Fine => o := Built(esp, success);
        case Fault => o := Faulted;
        case Overrun => o := Overran;
      }
    }

    /** setup_stack with the command line copied. */
    method Arrange(copy: array<Byte>, ghost input: seq<Byte>) returns (success: bool, stop: Stop, esp: nat)
      requires Valid() && IsString(copy[..], 0, Cut(input))
      modifies this, proc, proc.pagedir, copy
      ensures Valid() && (success <==> Fits(old(proc.room), TOP)) && Size(Args(input)) <= PGSIZE
      ensures pages == (if success then old(pages)[TOP := true] else old(pages)) &&
              stop == BuildStop(pages, Args(input))
      ensures stop.Fine? ==>
                esp == PHYS_BASE - Layout(Args(input)) && ArgvAt(mem, esp, Args(input)) &&
                FrameAt(mem, esp, Args(input))
      ensures Layout(Args(input)) < PHYS_BASE &&
              SameOutside(if success then Zeroed(old(mem)) else old(mem), mem,
                          PHYS_BASE - Layout(Args(input)), PHYS_BASE)
      ensures !TopWritable(pages) ==> mem == old(mem)
    {
      success := MapTop();
      TokensSize(Cut(input), SPACES);
      stop, esp := Build(copy, Cut(input));
    }

    /** The attempt to map a zeroed page at the top. */
    method MapTop() returns (success: bool)
      requires Valid()
      modifies this, proc, proc.pagedir
      ensures Valid() && (success <==> Fits(old(proc.room), TOP))
      ensures if success then pages == old(pages)[TOP := true] && mem == Zeroed(old(mem))
              else pages == old(pages) && mem == old(mem)
    {
      ghost var m := proc.memory;
      success := proc.LoadPage([], 0, TOP, 0, true);
      if success {
        TopShows(m, proc.memory, mem);
        mem, pages := Zeroed(mem), Prot(proc.memory);
      }
    }
  }

  /** The arguments in a command line. */
  function Args(input: seq<Byte>): seq<seq<Byte>> {
    Tokens(Cut(input), SPACES)
  }

  // ----- how setup_stack ends

  /** How setup_stack ends: with the result true and nothing done for want of a
      copy of the command line; with a store the processor refuses; with stores
      behind the kernel's array; or with the arguments written down to ESP, in a
      page just mapped if OWN. */
  datatype Outcome = NoCopy | Faulted | Overran | Built(esp: nat, own: bool)

  /** With a kernel page taken for the copy, the stack page can be mapped: nothing
      is mapped at the top yet, and there are frames for it and its page table. */
  predicate Installs(r: Room) {
    r.tables > 0 && Fits(r.(tables := r.tables - 1), TOP)
  }

  /** A page of zeros at the top. */
  ghost function Zeroed(b: Bytes): Bytes {
    map x | x in b && PageOf(x) != TOP :: b[x]
  }

  lemma BelowTop(b: Bytes, a: nat)
    requires PageOf(a) != TOP
    ensures Get(Zeroed(b), a) == Get(b, a)
  {
  }

  /** Memory before the first store. */
  ghost function Based(b: Bytes, r: Room): Bytes {
    if Installs(r) then Zeroed(b) else b
  }

  ghost function OutcomeOf(input: seq<Byte>, pages: map<nat, bool>, r: Room): Outcome {
    var t := Args(input);
    TokensSize(Cut(input), SPACES);
    CountFits(t);
    if r.tables == 0 then NoCopy else
    match BuildStop(if Installs(r) then pages[TOP := true] else pages, t)
    case Fault => Faulted
    case Overrun => Overran
    case Fine => Built(PHYS_BASE - Layout(t), Installs(r))
  }

  /** The only stores are to a stack page just mapped. */
  ghost predicate Contained(o: Outcome) {
    o.NoCopy? || (o.Built? && o.own && PHYS_BASE - PGSIZE <= o.esp)
  }

  /** setup_stack stays within a new stack page if and only if it stops for want of
      a copy, or the page could be mapped and the arguments, at most 128, fit. */
  lemma ContainedExactly(input: seq<Byte>, pages: map<nat, bool>, r: Room)
    ensures var t := Args(input);
            Contained(OutcomeOf(input, pages, r)) <==>
              r.tables == 0 || (Installs(r) && |t| <= MAX_ARGS && Layout(t) <= PGSIZE)
  {
    var t := Args(input);
    TokensSize(Cut(input), SPACES);
    if Installs(r) {
      TwoPages(pages[TOP := true], t);
    }
  }

  /** At most 128 arguments take the top page and at most the one below it. */
  lemma TwoPages(pages: map<nat, bool>, t: seq<seq<Byte>>)
    requires Size(t) <= PGSIZE
    ensures Layout(t) < PHYS_BASE
    ensures |t| <= MAX_ARGS ==>
              (AllWritable(pages, PHYS_BASE - Layout(t), PHYS_BASE) <==>
               TopWritable(pages) && (Layout(t) > PGSIZE ==> TOP - 1 in pages && pages[TOP - 1]))
  {
    CountFits(t);
    if |t| <= MAX_ARGS {
      forall x: nat | PHYS_BASE - Layout(t) <= x < PHYS_BASE
        ensures PageOf(x) == if x < PHYS_BASE - PGSIZE then TOP - 1 else TOP
      {
      }
      assert CanWrite(pages, PHYS_BASE - 1) <==> TopWritable(pages);
      if Layout(t) > PGSIZE {
        assert CanWrite(pages, PHYS_BASE - PGSIZE - 1) <==> TOP - 1 in pages && pages[TOP - 1];
      }
    }
  }

  /** Without a page for the stack the first store faults. */
  lemma NoPageFaults(input: seq<Byte>, pages: map<nat, bool>, r: Room)
    requires TOP !in pages && r.tables > 0 && !Installs(r)
    ensures OutcomeOf(input, pages, r) == Faulted
  {
  }

  /** When a segment has the top page, the arguments of the command line "a" are
      written over its last 22 bytes, though the result is false. */
  lemma SegmentOverwritten(pages: map<nat, bool>, r: Room)
    requires TopWritable(pages) && TOP in r.mapped && r.tables > 0
    ensures OutcomeOf([97], pages, r) == Built(PHYS_BASE - 22, false)
  {
    var t := Args([97]);
    assert [97][..1] == [97];
    assert t == [[97]];
    assert Size(t) == 2;
    TwoPages(pages, t);
  }

  /** What fits in the page that holds the copy. */
  function Cut(s: seq<Byte>): seq<Byte> {
    if |s| < PGSIZE then s else s[..PGSIZE - 1]
  }

  /** strlcpy (dst, src, PGSIZE). */
  method StrLcpy(dst: array<Byte>, src: seq<Byte>)
    requires dst.Length == PGSIZE && 0 !in src
    modifies dst
    ensures IsString(dst[..], 0, Cut(src))
    ensures var n := if |src| < PGSIZE then |src| else PGSIZE - 1; dst[..n] == src[..n] && dst[n] == 0
  {
    var n := if |src| < PGSIZE then |src| else PGSIZE - 1;
    var i := 0;
    while i < n
      invariant i <= n && forall k :: 0 <= k < i ==> dst[k] == src[k]
    {
      dst[i] := src[i];
      i := i + 1;
    }
    dst[n] := 0;
    forall k | 0 <= k < n ensures dst[..][0 + k] == Cut(src)[k] && Cut(src)[k] != 0 {
      assert src[k] in src;
    }
  }

  method StrLen(buf: array<Byte>, i: nat, ghost s: seq<Byte>) returns (n: nat)
    requires IsString(buf[..], i, s)
    ensures n == |s|
  {
    n := 0;
    while buf[i + n] != 0
      invariant n <= |s|
      decreases |s| - n
    {
      EndOfString(buf[..], i, s, n);
      n := n + 1;
    }
    EndOfString(buf[..], i, s, n);
  }

  /** The token at I of BUF is number N of T, and the others are those of REST. */
  ghost predicate Upcoming(buf: seq<Byte>, i: nat, t: seq<seq<Byte>>, n: nat, rest: seq<Byte>) {
    n < |t| && IsString(buf, i, t[n]) && t[n + 1..] == Tokens(rest, SPACES)
  }

  /** The first N arguments are on the stack, down to KP. */
  ghost predicate Pushed(m: Bytes, t: seq<seq<Byte>>, n: nat, kp: nat, pointers: seq<nat>, count: nat) {
    && n == count <= |t| && n <= |pointers| && kp == PHYS_BASE - Size(t[..n])
    && forall k :: 0 <= k < n ==> pointers[k] == Place(t, k) && ArgIs(m, t, k)
  }

  ghost predicate PointerIs(m: Bytes, argv: nat, pointers: seq<nat>, k: nat) {
    k < |pointers| && WordAt(m, argv + 4 * k) == pointers[k]
  }

  /** From M0, the first N arguments are pushed and memory is M, or pushing ended. */
  ghost predicate Pushing(m0: Bytes, m: Bytes, pages: map<nat, bool>, t: seq<seq<Byte>>, n: nat, kp: nat,
                          pointers: seq<nat>, stop: Stop)
  {
    && PHYS_BASE - Size(t) <= kp <= PHYS_BASE && SameOutside(m0, m, kp, PHYS_BASE)
    && (if n > 0 then TopWritable(pages) else m == m0)
    && if stop.Fine? then Pushed(m, t, n, kp, pointers, n) && n <= MAX_ARGS else t != [] && stop == TokensStop(pages, t)
  }

  lemma {:induction false} PushingNext(m0: Bytes, m: Bytes, m': Bytes, pages: map<nat, bool>, t: seq<seq<Byte>>, n: nat,
                                       hi: nat, kp: nat, pointers: seq<nat>, stop: Stop)
    requires n < |t| && n <= MAX_ARGS && PHYS_BASE - Size(t) <= kp <= hi <= PHYS_BASE
    requires SameOutside(m0, m, hi, PHYS_BASE) && (if n > 0 then TopWritable(pages) else m == m0) &&
             SameOutside(m, m', kp, hi)
    requires stop == if n >= MAX_ARGS then Overrun else if TopWritable(pages) then Fine else Fault
    requires if stop.Fine? then Pushed(m', t, n + 1, kp, pointers, n + 1) else m' == m
    ensures Pushing(m0, m', pages, t, if stop.Fine? then n + 1 else n, kp, pointers, stop)
  {
  }

  /** There is room for argument N. */
  lemma {:induction false} PushRoom(t: seq<seq<Byte>>, n: nat)
    requires n < |t| && Size(t) <= PGSIZE
    ensures Size(t[..n + 1]) == Size(t[..n]) + |t[n]| + 1 <= Size(t) <= PGSIZE
  {
    SizeGrows(t, n + 1);
    assert t[..n + 1][..n] == t[..n];
  }

  lemma {:induction false} PushedNext(m: Bytes, m': Bytes, t: seq<seq<Byte>>, n: nat, hi: nat, pointers: seq<nat>,
                                      kp: nat)
    requires n < |t| && n < |pointers| && Size(t) <= PGSIZE && Pushed(m, t, n, hi, pointers, n)
    requires kp == hi - (|t[n]| + 1) && SameOutside(m, m', kp, hi) && StringIs(m', kp, t[n])
    ensures Pushed(m', t, n + 1, kp, pointers[n := kp], n + 1)
  {
    PushRoom(t, n);
    forall k | 0 <= k < n ensures ArgIs(m', t, k) {
      assert ArgIs(m, t, k);
      SizeGrows(t[..n], k + 1);
      assert t[..n][..k + 1] == t[..k + 1];
      StringKept(m, m', kp, hi, Place(t, k), t[k]);
    }
  }

  lemma {:induction false} PlacesFit(t: seq<seq<Byte>>, pointers: seq<nat>)
    requires Size(t) <= PGSIZE && |pointers| >= |t| && forall k :: 0 <= k < |t| ==> pointers[k] == Place(t, k)
    ensures t[..|t|] == t && forall k :: 0 <= k < |t| ==> pointers[k] < WORD_LIMIT
  {
    assert t[..|t|] == t;
  }

  /** Pointers I and up are in their places over BASE, below a null. */
  ghost predicate Pointers(m: Bytes, base: nat, kp: nat, pointers: seq<nat>, count: nat, i: nat) {
    && kp >= 4 && WordAt(m, kp - 4) == 0 && count <= |pointers|
    && forall k :: i <= k < count ==> PointerIs(m, base, pointers, k)
  }

  lemma {:induction false} NextPointer(m: Bytes, m': Bytes, base: nat, kp: nat, pointers: seq<nat>, count: nat, i: nat)
    requires Pointers(m, base, kp, pointers, count, i + 1) && i < count && kp == base + 4 * (count + 1)
    requires WordPut(m, m', base + 4 * i, pointers[i])
    ensures Pointers(m', base, kp, pointers, count, i)
  {
    var a := base + 4 * i;
    WordKept(m, m', a, a + 4, kp - 4);
    forall k | i <= k < count ensures PointerIs(m', base, pointers, k) {
      if k > i {
        assert PointerIs(m, base, pointers, k);
        WordKept(m, m', a, a + 4, base + 4 * k);
      }
    }
  }

  /** From M0, pointers I and up are pushed and memory is M, or a store was refused. */
  ghost predicate Pointing(m0: Bytes, m: Bytes, pages: map<nat, bool>, base: nat, kp: nat, pointers: seq<nat>,
                           count: nat, i: nat, ok: bool)
  {
    && SameOutside(m0, m, base + 4 * i, kp) && (ok <==> AllWritable(pages, base + 4 * i, kp))
    && kp > 0 && (if CanWrite(pages, kp - 1) then true else !ok && m == m0)
    && (ok ==> Pointers(m, base, kp, pointers, count, i))
  }

  lemma {:induction false} PointingStart(m0: Bytes, m: Bytes, pages: map<nat, bool>, base: nat, kp: nat,
                                         pointers: seq<nat>, count: nat, ok: bool)
    requires kp == base + 4 * (count + 1) && count <= |pointers| && (ok <==> AllWritable(pages, kp - 4, kp))
    requires if ok then WordPut(m0, m, kp - 4, 0) else m == m0
    ensures Pointing(m0, m, pages, base, kp, pointers, count, count, ok)
  {
  }

  lemma {:induction false} PointingDone(m0: Bytes, m: Bytes, pages: map<nat, bool>, base: nat, kp: nat,
                                        pointers: seq<nat>, count: nat, i: nat, ok: bool)
    requires Pointing(m0, m, pages, base, kp, pointers, count, i, ok) && kp == base + 4 * (count + 1) && i <= count &&
             (ok ==> i == 0)
    ensures SameOutside(m0, m, base, kp) && (ok <==> AllWritable(pages, base, kp)) &&
            (!CanWrite(pages, kp - 1) ==> m == m0)
    ensures ok ==> Pointers(m, base, kp, pointers, count, 0)
  {
    WritableFrom(pages, base, base + 4 * i, kp);
  }

  lemma {:induction false} PointingNext(m0: Bytes, m: Bytes, m': Bytes, pages: map<nat, bool>, base: nat, kp: nat,
                                        pointers: seq<nat>, count: nat, i: nat, ok: bool)
    requires i < count <= |pointers| && kp == base + 4 * (count + 1) &&
             Pointing(m0, m, pages, base, kp, pointers, count, i + 1, true)
    requires ok <==> AllWritable(pages, base + 4 * i, base + 4 * i + 4)
    requires if ok then WordPut(m, m', base + 4 * i, pointers[i]) else m' == m
    ensures Pointing(m0, m', pages, base, kp, pointers, count, i, ok)
  {
    WordsWritable(pages, base + 4 * i, kp);
    if ok {
      NextPointer(m, m', base, kp, pointers, count, i);
    }
  }

  /** Only the three words under ARGV differ: argv, argc and a return address. */
  ghost predicate FramePut(m: Bytes, m': Bytes, argv: nat, count: nat) {
    && argv >= 12 && SameOutside(m, m', argv - 12, argv)
    && WordAt(m', argv - 12) == 0 && WordAt(m', argv - 8) == count && WordAt(m', argv - 4) == argv
  }

  lemma WritableFrom(pages: map<nat, bool>, lo: nat, mid: nat, hi: nat)
    requires lo <= mid <= hi
    ensures AllWritable(pages, lo, hi) ==> AllWritable(pages, mid, hi)
  {
  }

  lemma WordsWritable(pages: map<nat, bool>, a: nat, hi: nat)
    requires a + 4 <= hi
    ensures AllWritable(pages, a, hi) <==> AllWritable(pages, a, a + 4) && AllWritable(pages, a + 4, hi)
  {
  }

  /** What BuildStop says in terms of the two ranges written after the strings. */
  /** What decides the rest once the strings are pushed down to KP. */
  lemma RestStart(pages: map<nat, bool>, t: seq<seq<Byte>>, kp: nat, base: nat)
    requires Size(t) <= PGSIZE && |t| <= MAX_ARGS && (t == [] || TopWritable(pages))
    requires kp == PHYS_BASE - Size(t) && base == kp - 4 * (|t| + 1)
    ensures BuildStop(pages, t) ==
            if AllWritable(pages, base, kp) && AllWritable(pages, base - 12, base) then Fine else Fault
    ensures base == PHYS_BASE - Layout(t) + 12 && (!TopWritable(pages) ==> !CanWrite(pages, kp - 1))
  {
    StopByRange(pages, t, base);
    InTop(PHYS_BASE - 1);
  }

  lemma StopByRange(pages: map<nat, bool>, t: seq<seq<Byte>>, base: nat)
    requires Size(t) <= PGSIZE && |t| <= MAX_ARGS && base == PHYS_BASE - Layout(t) + 12 &&
             (t == [] || TopWritable(pages))
    ensures BuildStop(pages, t) ==
            if AllWritable(pages, base, base + 4 * (|t| + 1)) && AllWritable(pages, base - 12, base) then Fine
            else Fault
  {
    CountFits(t);
    var mid := base + 4 * (|t| + 1);
    InTop(PHYS_BASE - 1);
    if TopWritable(pages) {
      forall x: nat | mid <= x < PHYS_BASE ensures CanWrite(pages, x) {
        InTop(x);
      }
    } else {
      assert !CanWrite(pages, PHYS_BASE - 1);
    }
  }

  /** From the memory after the strings (M1), the pointers (M2) and the rest (M3). */
  lemma {:induction false} ReadBack(m1: Bytes, m2: Bytes, m3: Bytes, t: seq<seq<Byte>>, kp: nat, pointers: seq<nat>,
                                    argv: nat)
    requires Pushed(m1, t, |t|, kp, pointers, |t|) && kp == argv + 4 * (|t| + 1)
    requires SameOutside(m1, m2, argv, kp) && Pointers(m2, argv, kp, pointers, |t|, 0) && FramePut(m2, m3, argv, |t|)
    ensures ArgvAt(m3, argv - 12, t) && FrameAt(m3, argv - 12, t)
  {
    WordKept(m2, m3, argv - 12, argv, argv + 4 * |t|);
    forall k | 0 <= k < |t| ensures WordAt(m3, argv + 4 * k) == Place(t, k) && ArgRead(m3, argv, t, k) {
      ArgBack(m1, m2, m3, t, kp, pointers, argv, k);
    }
    assert t[..|t|] == t;
    FrameBack(m3, t, argv);
  }

  lemma {:induction false} ArgBack(m1: Bytes, m2: Bytes, m3: Bytes, t: seq<seq<Byte>>, kp: nat, pointers: seq<nat>,
                                   argv: nat, k: nat)
    requires Pushed(m1, t, |t|, kp, pointers, |t|) && kp == argv + 4 * (|t| + 1) && argv >= 12 && k < |t|
    requires SameOutside(m1, m2, argv, kp) && Pointers(m2, argv, kp, pointers, |t|, 0) &&
             SameOutside(m2, m3, argv - 12, argv)
    ensures WordAt(m3, argv + 4 * k) == Place(t, k) && ArgRead(m3, argv, t, k)
  {
    assert PointerIs(m2, argv, pointers, k) && ArgIs(m1, t, k);
    WordKept(m2, m3, argv - 12, argv, argv + 4 * k);
    SizeGrows(t, k + 1);
    assert t[..|t|] == t;
    StringKept(m1, m2, argv, kp, Place(t, k), t[k]);
    StringKept(m2, m3, argv - 12, argv, Place(t, k), t[k]);
  }

  lemma {:induction false} FrameBack(m: Bytes, t: seq<seq<Byte>>, argv: nat)
    requires argv >= 12 && argv == PHYS_BASE - Layout(t) + 12
    requires WordAt(m, argv - 12) == 0 && WordAt(m, argv - 8) == |t| && WordAt(m, argv - 4) == argv &&
             WordAt(m, argv + 4 * |t|) == 0
    requires forall k :: 0 <= k < |t| ==> WordAt(m, argv + 4 * k) == Place(t, k)
    ensures FrameAt(m, argv - 12, t)
  {
    var esp := argv - 12;
    forall j | 0 <= j < |t| + 4 ensures StackWordAt(m, esp, t, j) {
      if 3 <= j < |t| + 3 {
        assert WordAt(m, argv + 4 * (j - 3)) == Place(t, j - 3);
      }
    }
  }

  lemma {:induction false} WordBytes(v: nat)
    requires v < WORD_LIMIT
    ensures v == v % 0x100 + 0x100 * (v / 0x100 % 0x100) + 0x1_0000 * (v / 0x1_0000 % 0x100) +
                 0x100_0000 * (v / 0x100_0000)
    ensures v / 0x100_0000 < 0x100
  {
    DivDiv(v, 0x100, 0x100);
    DivDiv(v, 0x1_0000, 0x100);
    DivModEq(v, 0x100);
    DivModEq(v / 0x100, 0x100);
    DivModEq(v / 0x1_0000, 0x100);
  }
}
