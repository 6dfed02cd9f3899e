/** The memory of a user process, page by page. */
module UserMemory {
  import opened Common
  import opened Pte

  datatype Page = Page(bytes: seq<Byte>, writable: bool)

  type Memory = map<nat, Page>

  /** The page that holds address X. */
  function PageOf(x: nat): nat {
    x / PGSIZE
  }

  /** The byte at X, zero if there is none. */
  function ByteAt(m: Memory, x: nat): Byte {
    if PageOf(x) in m && x % PGSIZE < |m[PageOf(x)].bytes| then m[PageOf(x)].bytes[x % PGSIZE] else 0
  }

  /** Of each page that is mapped, whether it is writable. */
  function Prot(m: Memory): map<nat, bool> {
    map p | p in m :: m[p].writable
  }

  predicate CanWrite(pages: map<nat, bool>, x: nat) {
    PageOf(x) in pages && pages[PageOf(x)]
  }

  /** The bytes with V at I. */
  function SetByte(b: seq<Byte>, i: nat, v: Byte): seq<Byte>
    requires i < |b|
  {
    b[i := v]
  }

  /** M with byte V at X. */
  function Put(m: Memory, x: nat, v: Byte): Memory
    requires PageOf(x) in m && x % PGSIZE < |m[PageOf(x)].bytes|
  {
    var page := m[PageOf(x)];
    m[PageOf(x) := page.(bytes := SetByte(page.bytes, x % PGSIZE, v))]
  }

  /** Only the byte at X differs, and is V; no page is mapped or protected. */
  ghost predicate ByteStored(m: Memory, m': Memory, x: nat, v: Byte) {
    ByteAt(m', x) == v && (forall y: nat :: y != x ==> ByteAt(m', y) == ByteAt(m, y)) && Prot(m') == Prot(m)
  }

  lemma PutStores(m: Memory, x: nat, v: Byte)
    requires PageOf(x) in m && x % PGSIZE < |m[PageOf(x)].bytes|
    ensures ByteStored(m, Put(m, x, v), x, v)
  {
    forall y: nat | y != x ensures ByteAt(Put(m, x, v), y) == ByteAt(m, y) {
      assert y == PGSIZE * PageOf(y) + y % PGSIZE && x == PGSIZE * PageOf(x) + x % PGSIZE;
    }
  }

  /** User memory only grows. */
  ghost predicate Extends(m: Memory, m': Memory) {
    forall p :: p in m ==> p in m' && m'[p] == m[p]
  }
}
