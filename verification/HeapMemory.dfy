/** The memory the boot heap lives in: records at byte addresses. A write destroys
    every record it overlaps, so reading a record back proves that nothing was
    written over it in between. */
module HeapMemory {
  import opened HeapSizes
  import opened HeapView

  const MAGIC: int := 0xF9125937

  datatype BlockHdr = BlockHdr(
    magic: int, size: int, isFree: bool, isLarge: bool, page: int, prev: int, next: int)

  datatype PageHdr = PageHdr(
    magic: int, freeSize: int, blockList: int, numPages: int, next: int, prev: int)

  /** Page headers, block headers, size words and program bytes, by address. */
  datatype Mem = Mem(
    pages: map<int, PageHdr>,
    blocks: map<int, BlockHdr>,
    ends: map<int, int>,
    bytes: map<int, int>)

  /** Bytes of the packed header records: two 32-bit fields and one or two more small
      fields, and three pointers. */
  function BlockBytes(w: WordSize): int { 10 + 3 * w }
  function PageBytes(w: WordSize): int { 12 + 3 * w }

  predicate Away(k: int, len: int, lo: int, hi: int) {
    k + len <= lo || hi <= k
  }

  /** Every record that lies outside [lo, hi) is the same in both memories. */
  ghost predicate Kept(w: WordSize, m: Mem, m': Mem, lo: int, hi: int) {
    && (forall k | k in m.pages && Away(k, PageBytes(w), lo, hi) :: k in m'.pages && m'.pages[k] == m.pages[k])
    && (forall k | k in m.blocks && Away(k, BlockBytes(w), lo, hi) :: k in m'.blocks && m'.blocks[k] == m.blocks[k])
    && (forall k | k in m.ends && Away(k, w, lo, hi) :: k in m'.ends && m'.ends[k] == m.ends[k])
    && (forall k | k in m.bytes && Away(k, 1, lo, hi) :: k in m'.bytes && m'.bytes[k] == m.bytes[k])
  }

  /** What a write of the bytes [lo, hi) leaves of the records. */
  function Clobber(w: WordSize, m: Mem, lo: int, hi: int): (m': Mem)
    ensures Kept(w, m, m', lo, hi)
  {
    Mem(map k | k in m.pages && Away(k, PageBytes(w), lo, hi) :: m.pages[k],
        map k | k in m.blocks && Away(k, BlockBytes(w), lo, hi) :: m.blocks[k],
        map k | k in m.ends && Away(k, w, lo, hi) :: m.ends[k],
        map k | k in m.bytes && Away(k, 1, lo, hi) :: m.bytes[k])
  }

  function PutPage(w: WordSize, m: Mem, b: int, h: PageHdr): (m': Mem)
    ensures Kept(w, m, m', b, b + PageBytes(w)) && b in m'.pages && m'.pages[b] == h
  {
    var c := Clobber(w, m, b, b + PageBytes(w));
    c.(pages := c.pages[b := h])
  }

  function PutBlock(w: WordSize, m: Mem, a: int, h: BlockHdr): (m': Mem)
    ensures Kept(w, m, m', a, a + BlockBytes(w)) && a in m'.blocks && m'.blocks[a] == h
  {
    var c := Clobber(w, m, a, a + BlockBytes(w));
    c.(blocks := c.blocks[a := h])
  }

  function PutEnd(w: WordSize, m: Mem, k: int, x: int): (m': Mem)
    ensures Kept(w, m, m', k, k + w) && k in m'.ends && m'.ends[k] == x
  {
    var c := Clobber(w, m, k, k + w);
    c.(ends := c.ends[k := x])
  }

  function PutByte(w: WordSize, m: Mem, k: int, x: int): (m': Mem)
    ensures Kept(w, m, m', k, k + 1) && k in m'.bytes && m'.bytes[k] == x
  {
    var c := Clobber(w, m, k, k + 1);
    c.(bytes := c.bytes[k := x])
  }

  // ----- what the records of one page say -----

  function EndOf(w: WordSize, t: map<int, Tile>, a: int): int
    requires a in t
  {
    a + t[a].size - w
  }

  /** The header and the end word of block a describe it. */
  predicate BlockRep(w: WordSize, m: Mem, b: int, a: int, size: int, free: bool) {
    && a in m.blocks && m.blocks[a].magic == MAGIC && m.blocks[a].size == size
    && m.blocks[a].isFree == free && !m.blocks[a].isLarge && m.blocks[a].page == b
    && a + size - w in m.ends && m.ends[a + size - w] == (if free then size else 0)
  }

  /** All blocks but those in skip are described by their records. */
  ghost predicate TilesRep(w: WordSize, m: Mem, b: int, t: map<int, Tile>, skip: set<int>) {
    forall a | a in t && a !in skip :: BlockRep(w, m, b, a, t[a].size, t[a].free)
  }

  function Item(s: seq<int>, i: int): int {
    if 0 <= i < |s| then s[i] else 0
  }

  predicate NodeRep(m: Mem, s: seq<int>, i: int)
    requires 0 <= i < |s|
  {
    && s[i] in m.blocks
    && m.blocks[s[i]].next == Item(s, i + 1)
    && m.blocks[s[i]].prev == Item(s, i - 1)
  }

  /** The blocks of s are linked in this order, both ways. */
  ghost predicate Linked(m: Mem, s: seq<int>) {
    forall i | 0 <= i < |s| :: NodeRep(m, s, i)
  }

  /** The records of page b, apart from its free size and the blocks in skip. */
  ghost predicate PageCore(w: WordSize, m: Mem, b: int, t: map<int, Tile>, free: seq<int>, skip: set<int>) {
    && b in m.pages && m.pages[b].magic == MAGIC && m.pages[b].blockList == Item(free, 0)
    && TilesRep(w, m, b, t, skip)
    && Linked(m, free)
  }

  ghost predicate PageRep(w: WordSize, m: Mem, b: int, v: PageView) {
    && PageCore(w, m, b, v.tiles, v.free, {})
    && m.pages[b].freeSize == SumFree(v.tiles, b + PAGE_HEADER, b + PAGE_SIZE)
  }

  // ----- writes inside one page -----

  ghost predicate HeadersKept(m: Mem, m': Mem, t: map<int, Tile>, heads: set<int>) {
    forall a | a in t && a !in heads && a in m.blocks :: a in m'.blocks && m'.blocks[a] == m.blocks[a]
  }

  ghost predicate EndsKept(w: WordSize, m: Mem, m': Mem, t: map<int, Tile>, bodies: set<int>) {
    forall a | a in t && a !in bodies && EndOf(w, t, a) in m.ends ::
      EndOf(w, t, a) in m'.ends && m'.ends[EndOf(w, t, a)] == m.ends[EndOf(w, t, a)]
  }

  ghost predicate BytesKept(w: WordSize, m: Mem, m': Mem, t: map<int, Tile>, bodies: set<int>) {
    forall a, x | a in t && a !in bodies && a + BLOCK_HEADER <= x < EndOf(w, t, a) && x in m.bytes ::
      x in m'.bytes && m'.bytes[x] == m.bytes[x]
  }

  /** The records of page b are the same except the headers of the blocks in heads
      and what lies past the headers of the blocks in bodies. The page header is not
      covered. Everything outside the page is the same. */
  ghost predicate Frame(w: WordSize, m: Mem, m': Mem, b: int, t: map<int, Tile>, heads: set<int>, bodies: set<int>) {
    && Kept(w, m, m', b, b + PAGE_SIZE)
    && HeadersKept(m, m', t, heads)
    && EndsKept(w, m, m', t, bodies)
    && BytesKept(w, m, m', t, bodies)
  }

  predicate SamePage(m: Mem, m': Mem, b: int) {
    b in m.pages ==> b in m'.pages && m'.pages[b] == m.pages[b]
  }

  lemma FrameCompose(w: WordSize, m: Mem, m1: Mem, m2: Mem, b: int, t: map<int, Tile>,
      heads1: set<int>, bodies1: set<int>, heads2: set<int>, bodies2: set<int>, heads: set<int>, bodies: set<int>)
    requires Frame(w, m, m1, b, t, heads1, bodies1) && Frame(w, m1, m2, b, t, heads2, bodies2)
    requires heads1 <= heads && heads2 <= heads && bodies1 <= bodies && bodies2 <= bodies
    ensures Frame(w, m, m2, b, t, heads, bodies)
  {
  }

  lemma PutPageFrame(w: WordSize, m: Mem, b: int, t: map<int, Tile>, h: PageHdr)
    requires Tiled(t, b + PAGE_HEADER, b + PAGE_SIZE)
    ensures Frame(w, m, PutPage(w, m, b, h), b, t, {}, {})
  {
  }

  lemma PutBlockFrame(w: WordSize, m: Mem, b: int, t: map<int, Tile>, a: int, h: BlockHdr)
    requires Tiled(t, b + PAGE_HEADER, b + PAGE_SIZE) && a in t
    ensures Frame(w, m, PutBlock(w, m, a, h), b, t, {a}, {}) && SamePage(m, PutBlock(w, m, a, h), b)
  {
  }

  lemma PutEndFrame(w: WordSize, m: Mem, b: int, t: map<int, Tile>, a: int, k: int, x: int)
    requires Tiled(t, b + PAGE_HEADER, b + PAGE_SIZE) && a in t && a + BLOCK_HEADER - w <= k <= EndOf(w, t, a)
    ensures Frame(w, m, PutEnd(w, m, k, x), b, t, {}, {a}) && SamePage(m, PutEnd(w, m, k, x), b)
  {
  }
}
