/** load of userprog/process.c as a whole: the program headers, then the stack. */
module Exec {
  import opened Common
  import opened Pte
  import opened UserMemory
  import opened Loader
  import opened Argv

  /** load returns, or a store of setup_stack is one the kernel does not survive. */
  datatype End = Returned(success: bool) | Stopped

  ghost predicate HeadersOk(file: seq<Byte>, phdrs: seq<Phdr>) {
    forall i :: 0 <= i < |phdrs| ==> HeaderOk(file, phdrs[i])
  }

  /** How load ends, for a process with pages PAGES and room R. */
  ghost function EndOf(file: seq<Byte>, phdrs: seq<Phdr>, input: seq<Byte>, pages: map<nat, bool>, r: Room): End {
    if !HeadersOk(file, phdrs) || !FitAll(r, AllPages(phdrs)) then Returned(false)
    else EndAfter(OutcomeOf(input, ProtectAll(pages, phdrs), TakeAll(r, AllPages(phdrs))))
  }

  function EndAfter(o: Outcome): End {
    match o
    case NoCopy => Returned(true)
    case Built(_, own) => Returned(own)
    case _ => Stopped
  }

  /** load returns true if and only if the headers are in order, there is room for
      all segments, and either no page is left for a copy of the command line, or
      the stack page can be mapped, the arguments are at most 128, and what of them
      goes below the stack page goes to a writable page. */
  lemma TrueExactly(file: seq<Byte>, phdrs: seq<Phdr>, input: seq<Byte>, pages: map<nat, bool>, r: Room)
    ensures var r', prot, t := TakeAll(r, AllPages(phdrs)), ProtectAll(pages, phdrs), Args(input);
            EndOf(file, phdrs, input, pages, r) == Returned(true) <==>
            && HeadersOk(file, phdrs) && FitAll(r, AllPages(phdrs))
            && (r'.tables == 0 ||
                (Installs(r') && |t| <= MAX_ARGS && (Layout(t) > PGSIZE ==> TOP - 1 in prot && prot[TOP - 1])))
  {
    var r', prot, t := TakeAll(r, AllPages(phdrs)), ProtectAll(pages, phdrs), Args(input);
    TokensSize(Cut(input), SPACES);
    if Installs(r') {
      TwoPages(prot[TOP := true], t);
    }
  }

  // ----- what is left of the segments

  ghost predicate AllLoaded(m: Memory, file: seq<Byte>, phdrs: seq<Phdr>) {
    forall i :: 0 <= i < |phdrs| && phdrs[i].kind.Load? ==> Loaded(m, file, phdrs[i])
  }

  /** Byte I of a word, low byte first. */
  function WordByte(w: nat, i: nat): nat {
    if i == 0 then w % 0x100 else if i == 1 then w / 0x100 % 0x100
    else if i == 2 then w / 0x1_0000 % 0x100 else w / 0x100_0000
  }

  lemma WordBytes(b0: Byte, b1: Byte, b2: Byte, b3: Byte)
    ensures var w := b0 + 0x100 * b1 + 0x1_0000 * b2 + 0x100_0000 * b3;
            WordByte(w, 0) == b0 && WordByte(w, 1) == b1 && WordByte(w, 2) == b2 && WordByte(w, 3) == b3
  {
    var w := b0 + 0x100 * b1 + 0x1_0000 * b2 + 0x100_0000 * b3;
    assert w / 0x100 == b1 + 0x100 * b2 + 0x1_0000 * b3;
    assert w / 0x1_0000 == b2 + 0x100 * b3;
  }

  lemma ByteOfWord(b: Bytes, a: nat, i: nat)
    requires i < 4
    ensures Get(b, a + i) == WordByte(WordAt(b, a), i)
  {
    WordBytes(Get(b, a), Get(b, a + 1), Get(b, a + 2), Get(b, a + 3));
  }

  /** Byte O above the stack pointer, up to the strings. */
  function FrameByte(t: seq<seq<Byte>>, o: nat): nat
    requires o < 4 * (|t| + 4)
  {
    var w := StackWord(t, o / 4);
    if w < 0 then 0 else WordByte(w, o % 4)
  }

  lemma FrameByteAt(b: Bytes, esp: nat, t: seq<seq<Byte>>, o: nat)
    requires FrameAt(b, esp, t) && o < 4 * (|t| + 4)
    ensures Get(b, esp + o) == FrameByte(t, o)
  {
    assert StackWordAt(b, esp, t, o / 4);
    ByteOfWord(b, esp + 4 * (o / 4), o % 4);
  }

  /** Byte X of a segment. */
  function SegmentByte(file: seq<Byte>, ph: Phdr, x: nat): nat {
    if x < ph.filesz && ph.offset + x < |file| then file[ph.offset + x] else 0
  }

  /** Byte X of the segment is not among those that arguments T take below the
      stack page, or happens to be what is stored there. */
  ghost predicate SparedAt(file: seq<Byte>, ph: Phdr, t: seq<seq<Byte>>, x: nat)
    requires Size(t) <= PGSIZE
  {
    CountFits(t);
    var a, esp := ph.vaddr + x, PHYS_BASE - Layout(t);
    x < ph.memsz && esp <= a < PHYS_BASE - PGSIZE ==> SegmentByte(file, ph, x) == FrameByte(t, a - esp)
  }

  ghost predicate Spared(file: seq<Byte>, phdrs: seq<Phdr>, t: seq<seq<Byte>>)
    requires Size(t) <= PGSIZE
  {
    forall i, x: nat :: 0 <= i < |phdrs| && phdrs[i].kind.Load? ==> SparedAt(file, phdrs[i], t, x)
  }

  /** Nothing of the segments lies where the arguments take room below the stack
      page: that is enough. */
  lemma ClearIsSpared(file: seq<Byte>, phdrs: seq<Phdr>, t: seq<seq<Byte>>)
    requires Size(t) <= PGSIZE
    requires Layout(t) <= PGSIZE ||
             forall i :: 0 <= i < |phdrs| && phdrs[i].kind.Load? && phdrs[i].vaddr < PHYS_BASE - PGSIZE ==>
                           phdrs[i].vaddr + phdrs[i].memsz <= PHYS_BASE - Layout(t)
    ensures Spared(file, phdrs, t)
  {
  }

  // ----- before and after the stack is built

  /** Memory M with the stack of arguments T on it is M'. */
  ghost predicate Stacked(m: Memory, m': Memory, t: seq<seq<Byte>>)
    requires Size(t) <= PGSIZE
  {
    && (forall p :: p in m ==> p < TOP) && Prot(m') == Prot(m)[TOP := true]
    && (forall p :: p in m' ==> |m'[p].bytes| == PGSIZE)
    && (forall a: nat :: StackedAt(m, m', t, a))
  }

  /** Below the stack page, the byte at A is the old one or the one of the frame. */
  ghost predicate StackedAt(m: Memory, m': Memory, t: seq<seq<Byte>>, a: nat)
    requires Size(t) <= PGSIZE
  {
    CountFits(t);
    var esp := PHYS_BASE - Layout(t);
    a < PHYS_BASE - PGSIZE ==> ByteAt(m', a) as nat == if a < esp then ByteAt(m, a) as nat else FrameByte(t, a - esp)
  }

  /** One byte of a segment is still there if and only if it is spared. */
  lemma ByteSpared(m: Memory, m': Memory, t: seq<seq<Byte>>, file: seq<Byte>, ph: Phdr, x: nat)
    requires Size(t) <= PGSIZE && Stacked(m, m', t) && x < ph.memsz && ByteLoaded(m, file, ph, x)
    ensures ByteLoaded(m', file, ph, x) <==> SparedAt(file, ph, t, x)
  {
    var a := ph.vaddr + x;
    assert StackedAt(m, m', t, a);
    SameProt(m, m', PageOf(a));
    LoadedByte(m, file, ph, x);
    LoadedByte(m', file, ph, x);
  }

  /** ByteLoaded in terms of the byte at the address. */
  lemma LoadedByte(m: Memory, file: seq<Byte>, ph: Phdr, x: nat)
    requires var p := PageOf(ph.vaddr + x); p in m && |m[p].bytes| == PGSIZE && m[p].writable == ph.writable
    requires x < ph.filesz ==> ph.offset + x < |file|
    ensures ByteLoaded(m, file, ph, x) <==> ByteAt(m, ph.vaddr + x) as nat == SegmentByte(file, ph, x)
  {
  }

  lemma SameProt(m: Memory, m': Memory, p: nat)
    requires p in m && p != TOP && Prot(m') == Prot(m)[TOP := true]
    ensures p in m' && m'[p].writable == m[p].writable
  {
    assert p in Prot(m);
    assert p in Prot(m') && Prot(m')[p] == Prot(m)[p];
  }

  /** The segments are still there if and only if they are spared. */
  lemma AllSpared(m: Memory, m': Memory, t: seq<seq<Byte>>, file: seq<Byte>, phdrs: seq<Phdr>)
    requires Size(t) <= PGSIZE && Stacked(m, m', t) && AllLoaded(m, file, phdrs)
    ensures AllLoaded(m', file, phdrs) <==> Spared(file, phdrs, t)
  {
    forall i, x: nat | 0 <= i < |phdrs| && phdrs[i].kind.Load? && x < phdrs[i].memsz
      ensures ByteLoaded(m', file, phdrs[i], x) <==> SparedAt(file, phdrs[i], t, x)
    {
      assert Loaded(m, file, phdrs[i]);
      assert ByteLoaded(m, file, phdrs[i], x);
      ByteSpared(m, m', t, file, phdrs[i], x);
    }
    if AllLoaded(m', file, phdrs) {
      forall i, x: nat | 0 <= i < |phdrs| && phdrs[i].kind.Load? ensures SparedAt(file, phdrs[i], t, x) {
        if x < phdrs[i].memsz {
          assert Loaded(m', file, phdrs[i]);
          assert ByteLoaded(m', file, phdrs[i], x);
        }
      }
    }
  }

  lemma StackedByte(m: Memory, m': Memory, b: Bytes, b': Bytes, t: seq<seq<Byte>>, a: nat)
    requires Size(t) <= PGSIZE && Layout(t) < PHYS_BASE && Shows(m, b) && Shows(m', b')
    requires SameOutside(Zeroed(b), b', PHYS_BASE - Layout(t), PHYS_BASE)
    requires FrameAt(b', PHYS_BASE - Layout(t), t)
    ensures StackedAt(m, m', t, a)
  {
    CountFits(t);
    var esp := PHYS_BASE - Layout(t);
    assert ShowsAt(m', b', a) && ShowsAt(m, b, a);
    if a < PHYS_BASE - PGSIZE {
      if a < esp {
        BelowTop(b, a);
      } else {
        FrameByteAt(b', esp, t, a - esp);
      }
    }
  }

  /** Memory M with the page at the top and the stack on it, byte for byte. */
  lemma BuiltIsStacked(m: Memory, m': Memory, b: Bytes, b': Bytes, t: seq<seq<Byte>>)
    requires Size(t) <= PGSIZE && Layout(t) < PHYS_BASE && Shows(m, b) && Shows(m', b')
    requires SameOutside(Zeroed(b), b', PHYS_BASE - Layout(t), PHYS_BASE)
    requires FrameAt(b', PHYS_BASE - Layout(t), t)
    requires (forall p :: p in m ==> p < TOP) && Prot(m') == Prot(m)[TOP := true]
    requires forall p :: p in m' ==> |m'[p].bytes| == PGSIZE
    ensures Stacked(m, m', t)
  {
    forall a: nat ensures StackedAt(m, m', t, a) {
      StackedByte(m, m', b, b', t, a);
    }
  }

  /** The pages of a process with room for the stack page lie below it. */
  lemma PagesBelow(s: Phys, m: Memory, r: Room)
    requires PhysOk(s) && Sees(s, m) && HasRoom(s, r) && Installs(r)
    ensures forall p :: p in m ==> p < TOP
  {
    SeenBelow(s, m);
    SeenIsMapped(s, m, r, TOP);
  }

  lemma ArgvShown(m: Memory, b: Bytes, esp: nat, t: seq<seq<Byte>>)
    requires (forall p :: p in m ==> p < USER_PAGES) && Shows(m, b) && ArgvAt(b, esp, t)
    ensures ArgvAt(BytesOf(m), esp, t)
  {
    var b' := BytesOf(m);
    ShowsBytes(m);
    forall x: nat ensures Get(b', x) == Get(b, x) {
      assert ShowsAt(m, b, x) && ShowsAt(m, b', x);
    }
    ArgvSame(b, b', esp, t);
  }

  lemma ArgvSame(b: Bytes, b': Bytes, esp: nat, t: seq<seq<Byte>>)
    requires (forall x: nat :: Get(b', x) == Get(b, x)) && ArgvAt(b, esp, t)
    ensures ArgvAt(b', esp, t)
  {
    var argv := WordAt(b, esp + 8);
    forall k | 0 <= k < |t| ensures ArgRead(b', argv, t, k) {
      assert ArgRead(b, argv, t, k);
    }
  }

  /** What setup_stack has done to memory M when load is to return true. */
  ghost predicate Made(m: Memory, m': Memory, b': Bytes, r: Room, t: seq<seq<Byte>>, o: Outcome) {
    (o.NoCopy? <==> r.tables == 0) &&
    if o.NoCopy? then m' == m
    else
      && Layout(t) < PHYS_BASE && Installs(r) && Shows(m', b') && Prot(m') == Prot(m)[TOP := true]
      && SameOutside(Zeroed(BytesOf(m)), b', PHYS_BASE - Layout(t), PHYS_BASE)
      && FrameAt(b', PHYS_BASE - Layout(t), t) && ArgvAt(b', PHYS_BASE - Layout(t), t)
  }

  /** What holds when load returns true, for room R when the segments are loaded. */
  ghost predicate Ready(m: Memory, r: Room, file: seq<Byte>, phdrs: seq<Phdr>, t: seq<seq<Byte>>) {
    && Size(t) <= PGSIZE
    && (AllLoaded(m, file, phdrs) <==> r.tables == 0 || Spared(file, phdrs, t))
    && (r.tables > 0 ==> Layout(t) <= PHYS_BASE && ArgvAt(BytesOf(m), PHYS_BASE - Layout(t), t))
  }

  lemma MadeIsReady(s: Phys, s': Phys, m: Memory, m': Memory, b': Bytes, r: Room, t: seq<seq<Byte>>, o: Outcome,
                    file: seq<Byte>, phdrs: seq<Phdr>)
    requires PhysOk(s) && Sees(s, m) && HasRoom(s, r) && PhysOk(s') && Sees(s', m')
    requires Size(t) <= PGSIZE && Made(m, m', b', r, t, o) && AllLoaded(m, file, phdrs)
    ensures Ready(m', r, file, phdrs, t)
  {
    if !o.NoCopy? {
      MadeIsStacked(s, s', m, m', b', r, t, o);
      AllSpared(m, m', t, file, phdrs);
      SeenBelow(s', m');
      ArgvShown(m', b', PHYS_BASE - Layout(t), t);
    }
  }

  lemma MadeIsStacked(s: Phys, s': Phys, m: Memory, m': Memory, b': Bytes, r: Room, t: seq<seq<Byte>>, o: Outcome)
    requires PhysOk(s) && Sees(s, m) && HasRoom(s, r) && PhysOk(s') && Sees(s', m')
    requires Size(t) <= PGSIZE && Made(m, m', b', r, t, o) && !o.NoCopy?
    ensures Stacked(m, m', t)
  {
    SeenBelow(s, m);
    ShowsBytes(m);
    PagesBelow(s, m, r);
    SeenSized(s', m');
    BuiltIsStacked(m, m', BytesOf(m), b', t);
  }

  lemma OnlyTop(m: Memory, m': Memory)
    requires Prot(m') == Prot(m) || Prot(m') == Prot(m)[TOP := true]
    ensures forall p :: p in m' ==> p in m || p == TOP
  {
    forall p | p in m' ensures p in m || p == TOP {
      assert p in Prot(m');
    }
  }

  // ----- load

  /** load, from the loop over the program headers on. It ends as EndOf says; it
      maps no other page than those of the segments and the stack page; and when it
      returns true with the command line copied, argv can be read back, and the
      segments are all in memory if and only if the arguments spare them. */
  method Load(u: Process, file: seq<Byte>, phdrs: seq<Phdr>, input: seq<Byte>) returns (end: End)
    requires u.Valid() && (forall i :: 0 <= i < |phdrs| ==> Words(phdrs[i])) && 0 !in input
    modifies u, u.pagedir
    ensures u.Valid() && end == EndOf(file, phdrs, input, Prot(old(u.memory)), old(u.room))
    ensures NewPages(old(u.memory), u.memory, AllPages(phdrs) + [TOP])
    ensures end == Returned(true) ==>
              Ready(u.memory, TakeAll(old(u.room), AllPages(phdrs)), file, phdrs, Args(input))
  {
    var ok := u.LoadAll(file, phdrs);
    if !ok {
      return Returned(false);
    }
    end := Finish(u, file, phdrs, input);
  }

  /** The end of load, with the segments in memory. */
  method Finish(u: Process, ghost file: seq<Byte>, ghost phdrs: seq<Phdr>, input: seq<Byte>) returns (end: End)
    requires u.Valid() && AllLoaded(u.memory, file, phdrs) && 0 !in input
    modifies u, u.pagedir
    ensures u.Valid() && end == EndAfter(OutcomeOf(input, Prot(old(u.memory)), old(u.room)))
    ensures forall p :: p in u.memory ==> p in old(u.memory) || p == TOP
    ensures end == Returned(true) ==> Ready(u.memory, old(u.room), file, phdrs, Args(input))
  {
    TokensSize(Cut(input), SPACES);
    var o, b := MakeStack(u, input);
    end := EndAfter(o);
    OnlyTop(old(u.memory), u.memory);
    if end == Returned(true) {
      MadeIsReady(old(u.State()), u.State(), old(u.memory), u.memory, b, old(u.room), Args(input), o, file, phdrs);
    }
  }

  /** setup_stack on the memory of the process; B is what is in it then. */
  method MakeStack(u: Process, input: seq<Byte>) returns (o: Outcome, ghost b: Bytes)
    requires u.Valid() && 0 !in input
    modifies u, u.pagedir
    ensures u.Valid() && o == OutcomeOf(input, Prot(old(u.memory)), old(u.room))
    ensures Prot(u.memory) == Prot(old(u.memory)) || Prot(u.memory) == Prot(old(u.memory))[TOP := true]
    ensures EndAfter(o) == Returned(true) ==> Made(old(u.memory), u.memory, b, old(u.room), Args(input), o)
  {
    var stack := new Stack(u);
    var success;
    success, o := stack.SetupStack(input);
    b := stack.mem;
    OutcomeRoom(input, Prot(old(u.memory)), old(u.room));
  }

  /** Only when the stack page was mapped does setup_stack succeed with a copy. */
  lemma OutcomeRoom(input: seq<Byte>, pages: map<nat, bool>, r: Room)
    ensures var o := OutcomeOf(input, pages, r);
            o.Built? && o.own ==> Installs(r) && o.esp == PHYS_BASE - Layout(Args(input))
  {
  }

  // ----- a segment that is lost

  /** A writable segment of zeros, the page below the stack page. */
  function NextToStack(): Phdr {
    Phdr(Kind.Load, 0, PHYS_BASE - 2 * PGSIZE, 0, PGSIZE, true)
  }

  /** A command line of one word. */
  function OneWord(n: nat): seq<Byte> {
    seq(n, i => 97)
  }

  lemma {:induction false} OneWordTokens(n: nat)
    requires 0 < n < PGSIZE
    ensures Args(OneWord(n)) == [OneWord(n)] && Size([OneWord(n)]) == n + 1
  {
    var s := OneWord(n);
    OneRun(s);
    assert s[..|s|] == s && Tokens(s[|s|..], SPACES) == [];
    var t: seq<seq<Byte>> := [s];
    assert Size(t[..0]) == 0;
  }

  lemma {:induction false} OneRun(s: seq<Byte>)
    requires forall i :: 0 <= i < |s| ==> s[i] == 97
    ensures RunLen(s, SPACES) == |s|
  {
    if s != [] {
      OneRun(s[1..]);
    }
  }

  lemma NextToStackPages()
    ensures HeadersOk([], [NextToStack()]) && AllPages([NextToStack()]) == [TOP - 1]
    ensures forall pages :: ProtectAll(pages, [NextToStack()]) == pages[TOP - 1 := true]
  {
    var ph := NextToStack();
    ValidateExact(ph, 0);
    assert ReadBytes(ph) == 0 && ZeroBytes(ph) == PGSIZE;
    assert SegmentPages(ph) == [TOP - 1];
    var phdrs: seq<Phdr> := [ph];
    assert AllPages(phdrs[..0]) == [];
    forall pages ensures ProtectAll(pages, [ph]) == pages[TOP - 1 := true] {
      assert ProtectAll(pages, []) == pages;
    }
  }

  /** With that segment and 4090 letters of command line load returns true, and the
      segment is not spared: the low byte of argc lies in it. */
  lemma SegmentLost(pages: map<nat, bool>, r: Room)
    requires TOP !in r.mapped && TOP - 1 !in r.mapped && r.pages >= 2 && r.tables >= 2
    ensures EndOf([], [NextToStack()], OneWord(4090), pages, r) == Returned(true)
    ensures TakeAll(r, AllPages([NextToStack()])).tables > 0
    ensures Size(Args(OneWord(4090))) <= PGSIZE && !Spared([], [NextToStack()], Args(OneWord(4090)))
  {
    var ph, t := NextToStack(), Args(OneWord(4090));
    NextToStackPages();
    OneWordTokens(4090);
    OneTaken(r);
    TrueExactly([], [ph], OneWord(4090), pages, r);
    LowByteOfArgc(ph, t);
  }

  lemma LowByteOfArgc(ph: Phdr, t: seq<seq<Byte>>)
    requires ph == NextToStack() && |t| == 1 && Size(t) == 4091
    ensures Layout(t) == 4111 && !SparedAt([], ph, t, 4085)
  {
    assert FrameByte(t, 4) == 1;
  }

  lemma OneTaken(r: Room)
    requires TOP !in r.mapped && TOP - 1 !in r.mapped && r.pages >= 2 && r.tables >= 2
    ensures var r' := TakeAll(r, [TOP - 1]);
            FitAll(r, [TOP - 1]) && r'.tables > 0 && Installs(r')
  {
    assert (TOP - 1) / ENTRIES == TOP / ENTRIES;
    assert TakeAll(r, [TOP - 1]) == Take(r, TOP - 1);
  }

  /** With 4076 letters only the low byte of the return address lies in it, a zero
      among zeros. */
  lemma OverlapHarmless()
    ensures var t := Args(OneWord(4076));
            Size(t) <= PGSIZE && Layout(t) == PGSIZE + 1 && Spared([], [NextToStack()], t)
  {
    var ph, t := NextToStack(), Args(OneWord(4076));
    OneWordTokens(4076);
    assert Layout(t) == PGSIZE + 1;
    assert FrameByte(t, 0) == 0;
    forall x: nat ensures SparedAt([], ph, t, x) {
    }
  }
}
