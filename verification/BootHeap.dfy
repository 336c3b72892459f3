/** The boot heap itself: malloc and free over the records of HeapMemory, proved
    against the functions of HeapRuns. */
module BootHeap {
  import opened HeapSizes
  import opened HeapView
  import opened HeapRuns
  import opened HeapMemory

  /** Headers differ at most in their list links. */
  predicate SameButLinks(h: BlockHdr, h': BlockHdr) {
    h' == h.(prev := h'.prev, next := h'.next)
  }

  ghost predicate ListIn(free: seq<int>, t: map<int, Tile>) {
    NoDuplicates(free) && forall i | 0 <= i < |free| :: free[i] in t && free[i] != 0
  }

  /** Position j's neighbours in the list. */
  function Near(s: seq<int>, j: int): set<int> {
    (if 0 <= j - 1 < |s| then {s[j - 1]} else {}) + (if 0 <= j + 1 < |s| then {s[j + 1]} else {})
  }

  /** The neighbours of position j now name x as their next and y as their previous block. */
  ghost predicate NeighboursSet(m: Mem, m': Mem, free: seq<int>, j: nat, x: int, y: int) {
    && (0 <= j - 1 < |free| ==>
          && free[j - 1] in m.blocks && free[j - 1] in m'.blocks
          && m'.blocks[free[j - 1]] == m.blocks[free[j - 1]].(next := x))
    && (0 <= j + 1 < |free| ==>
          && free[j + 1] in m.blocks && free[j + 1] in m'.blocks
          && m'.blocks[free[j + 1]] == m.blocks[free[j + 1]].(prev := y))
  }

  lemma UnlinkedList(m: Mem, m': Mem, t: map<int, Tile>, free: seq<int>, j: nat)
    requires ListIn(free, t) && Linked(m, free) && j < |free|
    requires NeighboursSet(m, m', free, j, Item(free, j + 1), Item(free, j - 1))
    requires HeadersKept(m, m', t, Near(free, j))
    ensures Linked(m', RemoveAt(free, j))
  {
    var rest := RemoveAt(free, j);
    forall i | 0 <= i < |rest| ensures NodeRep(m', rest, i) {
      assert NodeRep(m, free, if i < j then i else i + 1);
    }
  }

  lemma SubstitutedList(m: Mem, m': Mem, t: map<int, Tile>, free: seq<int>, j: nat, c: int)
    requires ListIn(free, t) && Linked(m, free) && j < |free| && c in t && c !in free && c in m.blocks
    requires m.blocks[c].next == Item(free, j + 1) && m.blocks[c].prev == Item(free, j - 1)
    requires NeighboursSet(m, m', free, j, c, c) && HeadersKept(m, m', t, Near(free, j))
    ensures Linked(m', free[j := c])
  {
    var list := free[j := c];
    forall i | 0 <= i < |list| ensures NodeRep(m', list, i) {
      assert NodeRep(m, free, i);
    }
  }

  lemma PrependedList(m: Mem, m': Mem, t: map<int, Tile>, free: seq<int>, a: int)
    requires ListIn(free, t) && Linked(m, free) && a !in free
    requires a in m'.blocks && m'.blocks[a].next == Item(free, 0) && m'.blocks[a].prev == 0
    requires NeighboursSet(m, m', [a] + free, 0, 0, a) && HeadersKept(m, m', t, {a} + Near([a] + free, 0))
    ensures Linked(m', [a] + free)
  {
    var list := [a] + free;
    forall i | 0 <= i < |list| ensures NodeRep(m', list, i) {
      if i > 0 {
        assert list[i] == free[i - 1];
        assert NodeRep(m, free, i - 1);
      }
    }
  }

  /** Rewritten list links do not change what the records say about the blocks. */
  lemma TilesRepFrame(w: WordSize, m: Mem, m': Mem, b: int, t: map<int, Tile>, heads: set<int>, bodies: set<int>,
      skip: set<int>, skip': set<int>)
    requires skip <= skip' && bodies <= skip'
    requires TilesRep(w, m, b, t, skip) && Frame(w, m, m', b, t, heads, bodies)
    requires forall a | a in heads && a !in skip' && a in t ::
      a in m.blocks && a in m'.blocks && SameButLinks(m.blocks[a], m'.blocks[a])
    ensures TilesRep(w, m', b, t, skip')
  {
    forall a | a in t && a !in skip' ensures BlockRep(w, m', b, a, t[a].size, t[a].free) {
      assert BlockRep(w, m, b, a, t[a].size, t[a].free);
      assert EndOf(w, t, a) in m.ends;
    }
  }

  lemma LinkedFrame(w: WordSize, m: Mem, m': Mem, b: int, t: map<int, Tile>, free: seq<int>, heads: set<int>, bodies: set<int>)
    requires Linked(m, free) && ListIn(free, t) && Frame(w, m, m', b, t, heads, bodies)
    requires forall i | 0 <= i < |free| :: free[i] !in heads
    ensures Linked(m', free)
  {
    forall i | 0 <= i < |free| ensures NodeRep(m', free, i) {
      assert NodeRep(m, free, i);
    }
  }

  lemma MarkedRep(w: WordSize, m: Mem, m': Mem, b: int, t: map<int, Tile>, a: int)
    requires TilesRep(w, m, b, t, {a}) && Frame(w, m, m', b, t, {a}, {a}) && a in t
    requires BlockRep(w, m', b, a, t[a].size, false)
    ensures TilesRep(w, m', b, Mark(t, a, false), {})
  {
    TilesRepFrame(w, m, m', b, t, {a}, {a}, {a}, {a});
  }

  lemma ListInReplaced(free: seq<int>, t: map<int, Tile>, j: nat, c: int)
    requires ListIn(free, t) && j < |free| && c in t && c !in free && c != 0
    ensures ListIn(free[j := c], t) && free[j := c][j] == c
    ensures Item(free[j := c], 0) == if j == 0 then c else Item(free, 0)
    ensures j > 0 ==> Item(free, j - 1) != free[j]
  {
  }

  lemma ListInRemoved(free: seq<int>, t: map<int, Tile>, j: nat)
    requires ListIn(free, t) && j < |free|
    ensures ListIn(RemoveAt(free, j), t)
    ensures forall i | 0 <= i < |RemoveAt(free, j)| :: RemoveAt(free, j)[i] !in {free[j]}
  {
  }

  /** Rewriting the header of block a, but not its links, keeps the list. */
  lemma RelinkedList(m: Mem, m': Mem, free: seq<int>, t: map<int, Tile>, a: int)
    requires Linked(m, free) && ListIn(free, t) && HeadersKept(m, m', t, {a})
    requires a in m.blocks && a in m'.blocks
    requires m'.blocks[a].next == m.blocks[a].next && m'.blocks[a].prev == m.blocks[a].prev
    ensures Linked(m', free)
  {
    forall i | 0 <= i < |free| ensures NodeRep(m', free, i) {
      assert NodeRep(m, free, i);
    }
  }

  /** Block a is described again, so it leaves the set of skipped blocks. */
  lemma MarkedRep1(w: WordSize, m: Mem, m': Mem, b: int, t: map<int, Tile>, a: int, skip: set<int>, skip': set<int>)
    requires TilesRep(w, m, b, t, skip) && Frame(w, m, m', b, t, {a}, {a}) && a in t
    requires BlockRep(w, m', b, a, t[a].size, t[a].free) && skip <= skip' + {a}
    ensures TilesRep(w, m', b, t, skip')
  {
    TilesRepFrame(w, m, m', b, t, {a}, {a}, skip, skip' + {a});
  }

  /** Cutting a block in two leaves the records of the others valid. */
  lemma CutPageCore(w: WordSize, m: Mem, b: int, t: map<int, Tile>, free: seq<int>, a: int, n: int)
    requires Tiled(t, b + PAGE_HEADER, b + PAGE_SIZE) && ListIn(free, t) && PageCore(w, m, b, t, free, {})
    requires a in t && BLOCK_HEADER <= n && n + BLOCK_HEADER <= t[a].size && 0 < b
    ensures PageCore(w, m, b, Cut(t, a, n), free, {a, a + n})
    ensures ListIn(free, Cut(t, a, n)) && a + n !in free && a + n != 0
    ensures BlockRep(w, m, b, a, t[a].size, t[a].free)
  {
    assert a + n !in t;
  }

  /** The step stays inside page b, does not touch the bytes of blocks in use, and keeps the
      page's place in the page list. */
  ghost predicate PageStep(w: WordSize, m: Mem, m': Mem, b: int, t: map<int, Tile>) {
    && Kept(w, m, m', b, b + PAGE_SIZE)
    && UsedBytesKept(w, m, m', t)
    && b in m.pages && b in m'.pages
    && m'.pages[b] == m.pages[b].(freeSize := m'.pages[b].freeSize, blockList := m'.pages[b].blockList)
  }

  ghost predicate UsedBytesKept(w: WordSize, m: Mem, m': Mem, t: map<int, Tile>) {
    forall a, x | a in t && !t[a].free && a + BLOCK_HEADER <= x < EndOf(w, t, a) && x in m.bytes ::
      x in m'.bytes && m'.bytes[x] == m.bytes[x]
  }

  lemma PageCoreSame(w: WordSize, m: Mem, m': Mem, b: int, t: map<int, Tile>, free: seq<int>)
    requires PageCore(w, m, b, t, free, {}) && ListIn(free, t) && Frame(w, m, m', b, t, {}, {})
    requires b in m'.pages && m'.pages[b] == m.pages[b].(freeSize := m'.pages[b].freeSize)
    ensures PageCore(w, m', b, t, free, {})
  {
    TilesRepFrame(w, m, m', b, t, {}, {}, {}, {});
    LinkedFrame(w, m, m', b, t, free, {}, {});
  }

  lemma FrameUsedBytes(w: WordSize, m: Mem, m': Mem, b: int, t: map<int, Tile>, heads: set<int>, a: int)
    requires a in t && t[a].free && Frame(w, m, m', b, t, heads, {a})
    ensures Kept(w, m, m', b, b + PAGE_SIZE) && UsedBytesKept(w, m, m', t)
  {
  }

  lemma PageStepCompose(w: WordSize, m: Mem, m1: Mem, m2: Mem, b: int, t: map<int, Tile>)
    requires PageStep(w, m, m1, b, t) && PageStep(w, m1, m2, b, t)
    ensures PageStep(w, m, m2, b, t)
  {
  }

  lemma CutFits(b: int, t: map<int, Tile>, a: int, n: int)
    requires Tiled(t, b + PAGE_HEADER, b + PAGE_SIZE) && a in t && 0 < n < t[a].size
    ensures a + n !in t
  {
  }

  lemma CutUsedBytes(w: WordSize, m: Mem, m': Mem, b: int, t: map<int, Tile>, heads: set<int>, a: int, n: int)
    requires a in t && t[a].free && n <= t[a].size && a + n !in t
    requires Frame(w, m, m', b, Cut(t, a, n), heads, {a, a + n})
    ensures Kept(w, m, m', b, b + PAGE_SIZE) && UsedBytesKept(w, m, m', t)
  {
    var t' := Cut(t, a, n);
    forall c | c in t && !t[c].free ensures c in t' && t'[c] == t[c] && EndOf(w, t', c) == EndOf(w, t, c) {}
  }

  /** Once block a carries the joint size, the records describe the absorbed tiling. */
  lemma AbsorbedRep(w: WordSize, m: Mem, m': Mem, b: int, t: map<int, Tile>, a: int, heads: set<int>, bodies: set<int>)
    requires a in t && a + t[a].size in t && t[a + t[a].size].size > 0 && t[a].size > 0
    requires Frame(w, m, m', b, t, heads, bodies) && bodies <= {a, a + t[a].size}
    requires TilesRep(w, m', b, t, {a, a + t[a].size})
    requires BlockRep(w, m', b, a, t[a].size + t[a + t[a].size].size, true)
    ensures var t' := Absorb(Mark(t, a, true), a);
      TilesRep(w, m', b, t', {}) && Kept(w, m, m', b, b + PAGE_SIZE) && UsedBytesKept(w, m, m', t')
  {
    var t' := Absorb(Mark(t, a, true), a);
    forall c | c in t' && c != a ensures c in t && t'[c] == t[c] && EndOf(w, t', c) == EndOf(w, t, c) {}
    assert TilesRep(w, m', b, t', {}) by {
      forall c | c in t' ensures BlockRep(w, m', b, c, t'[c].size, t'[c].free) {
        assert c != a ==> BlockRep(w, m', b, c, t[c].size, t[c].free);
      }
    }
  }

  lemma PrependedIn(free: seq<int>, t: map<int, Tile>, a: int)
    requires ListIn(free, t) && a in t && a !in free && a != 0
    ensures ListIn([a] + free, t)
    ensures Item([a] + free, 0) == a && Item([a] + free, 1) == Item(free, 0)
  {
  }

  lemma FreedRep(w: WordSize, m: Mem, m': Mem, b: int, t: map<int, Tile>, a: int, heads: set<int>)
    requires a in t && Frame(w, m, m', b, t, heads, {a}) && TilesRep(w, m', b, t, {a})
    requires BlockRep(w, m', b, a, t[a].size, true)
    ensures TilesRep(w, m', b, Mark(t, a, true), {})
    ensures Kept(w, m, m', b, b + PAGE_SIZE) && UsedBytesKept(w, m, m', Mark(t, a, true))
  {
  }

  /** A step that keeps the bytes of the blocks in use of t1 keeps those of t2, when both
      differ from t at most by the block at a. */
  lemma PageStepWithin(w: WordSize, m: Mem, m': Mem, b: int, t: map<int, Tile>, t1: map<int, Tile>, t2: map<int, Tile>, a: int)
    requires Kept(w, m, m', b, b + PAGE_SIZE) && b in m.pages && b in m'.pages
    requires m'.pages[b] == m.pages[b].(freeSize := m'.pages[b].freeSize, blockList := m'.pages[b].blockList)
    requires t1 == t || Gains(t1, t, a)
    requires Gains(t2, t, a) && (UsedBytesKept(w, m, m', t1) || Frame(w, m, m', b, t1, {}, {}))
    ensures PageStep(w, m, m', b, t2)
  {
    forall c | c in t2 && !t2[c].free ensures c in t1 && !t1[c].free && EndOf(w, t2, c) == EndOf(w, t1, c) {}
  }

  lemma PageStepSame(w: WordSize, m: Mem, b: int, t: map<int, Tile>)
    requires b in m.pages
    ensures PageStep(w, m, m, b, t)
  {
  }

  lemma ListInSubset(free: seq<int>, t: map<int, Tile>, t': map<int, Tile>)
    requires ListIn(free, t) && forall i | 0 <= i < |free| :: free[i] in t'
    ensures ListIn(free, t')
  {
  }

  lemma PageListIn(b: int, pg: PageView)
    requires PageOk(b, pg) && 0 < b
    ensures ListIn(pg.free, pg.tiles)
  {
  }

  lemma GrownTiling(t: map<int, Tile>, lo: int, hi: int, a: int)
    requires Tiled(t, lo, hi) && a in t
    ensures Tiled(GrownRight(t, hi, a), lo, hi)
  {
    MarkKeepsTiling(t, lo, hi, a, true);
    if MergesRight(t, hi, a) {
      AbsorbKeepsTiling(Mark(t, a, true), lo, hi, a);
    }
  }

  /** The step to the right does not change what lies left of the block. */
  lemma GrownLeft(t: map<int, Tile>, lo: int, hi: int, a: int)
    requires Tiled(t, lo, hi) && a in t && !t[a].free && Tiled(GrownRight(t, hi, a), lo, hi)
    ensures a != lo ==> LeftOf(GrownRight(t, hi, a), lo, hi, a) == LeftOf(t, lo, hi, a)
    ensures MergesLeft(GrownRight(t, hi, a), lo, hi, a) == MergesLeft(t, lo, hi, a)
  {
    if a != lo {
      var l := LeftOf(t, lo, hi, a);
      assert EndsAt(GrownRight(t, hi, a), l, a);
    }
  }

  lemma GrownListIn(b: int, pg: PageView, a: int, i: nat)
    requires PageOk(b, pg) && a in pg.tiles && !pg.tiles[a].free && 0 < b && MergesRight(pg.tiles, b + PAGE_SIZE, a)
    requires i == IndexOf(pg.free, a + pg.tiles[a].size)
    ensures ListIn(pg.free[i := a], GrownRight(pg.tiles, b + PAGE_SIZE, a))
    ensures RemoveAt(pg.free[i := a], i) == RemoveAt(pg.free, i)
  {
    ListInReplaced(pg.free, pg.tiles, i, a);
    ListInSubset(pg.free[i := a], pg.tiles, GrownRight(pg.tiles, b + PAGE_SIZE, a));
  }

  /** What a release amounts to once block a has taken the place of its right neighbour. */
  lemma GrownReady(t: map<int, Tile>, lo: int, hi: int, a: int)
    requires Tiled(t, lo, hi) && a in t && !t[a].free
    ensures var g := GrownRight(t, hi, a);
      && Tiled(g, lo, hi) && a in g && g[a].free
      && MergesLeft(g, lo, hi, a) == MergesLeft(t, lo, hi, a)
      && ReleaseTiles(t, lo, hi, a) == if MergesLeft(g, lo, hi, a) then Absorb(g, LeftOf(g, lo, hi, a)) else g
  {
    GrownTiling(t, lo, hi, a);
    GrownLeft(t, lo, hi, a);
  }

  lemma AbsorbedUnmarked(t: map<int, Tile>, lo: int, hi: int, a: int)
    requires Tiled(t, lo, hi) && a in t && !t[a].free && !MergesRight(t, hi, a) && MergesLeft(t, lo, hi, a)
    ensures Absorb(t, LeftOf(t, lo, hi, a)) == ReleaseTiles(t, lo, hi, a)
  {
  }

  lemma ReleasedPageRep(w: WordSize, m: Mem, b: int, pg: PageView, a: int)
    requires PageOk(b, pg) && a in pg.tiles && !pg.tiles[a].free
    requires var pg' := Release(pg, b + PAGE_HEADER, b + PAGE_SIZE, a); PageCore(w, m, b, pg'.tiles, pg'.free, {})
    requires m.pages[b].freeSize == SumFree(pg.tiles, b + PAGE_HEADER, b + PAGE_SIZE) + pg.tiles[a].size
    ensures PageRep(w, m, b, Release(pg, b + PAGE_HEADER, b + PAGE_SIZE, a))
  {
    ReleaseKeepsTiling(pg.tiles, b + PAGE_HEADER, b + PAGE_SIZE, a);
  }

  // ----- the whole heap -----

  predicate PageNode(m: Mem, order: seq<int>, i: int)
    requires 0 <= i < |order|
  {
    && order[i] in m.pages
    && m.pages[order[i]].next == Item(order, i + 1)
    && m.pages[order[i]].prev == Item(order, i - 1)
  }

  ghost predicate PagesLinked(m: Mem, order: seq<int>) {
    forall i | 0 <= i < |order| :: PageNode(m, order, i)
  }

  predicate LargeRep(m: Mem, b: int, n: int) {
    && b in m.pages && m.pages[b].magic == MAGIC && m.pages[b].numPages == n
    && b + PAGE_HEADER in m.blocks && m.blocks[b + PAGE_HEADER].magic == MAGIC
    && m.blocks[b + PAGE_HEADER].isLarge && !m.blocks[b + PAGE_HEADER].isFree && m.blocks[b + PAGE_HEADER].page == b
  }

  ghost predicate ListedRep(w: WordSize, m: Mem, v: View, b: int)
    requires b in v.pages
  {
    PageRep(w, m, b, v.pages[b])
  }

  /** The memory holds exactly the heap that the view describes. */
  ghost predicate HeapRep(w: WordSize, m: Mem, v: View, pageList: int) {
    pageList == Item(v.order, 0) && PagesLinked(m, v.order) && AllRep(w, m, v)
  }

  /** No byte that the program stored in a live allocation has changed. */
  ghost predicate LiveKept(m: Mem, m': Mem, live: map<int, int>) {
    forall p, x | p in live && p <= x < p + live[p] && x in m.bytes :: x in m'.bytes && m'.bytes[x] == m.bytes[x]
  }

  lemma KeptCompose(w: WordSize, m: Mem, m1: Mem, m2: Mem, lo1: int, hi1: int, lo2: int, hi2: int, lo: int, hi: int)
    requires Kept(w, m, m1, lo1, hi1) && Kept(w, m1, m2, lo2, hi2)
    requires lo <= lo1 && hi1 <= hi && lo <= lo2 && hi2 <= hi
    ensures Kept(w, m, m2, lo, hi)
  {
  }

  /** What is written outside page b leaves its records alone. */
  lemma PageRepKept(w: WordSize, m: Mem, m': Mem, b: int, pg: PageView, lo: int, hi: int)
    requires PageOk(b, pg) && PageRep(w, m, b, pg) && Kept(w, m, m', lo, hi) && Away(b, PAGE_SIZE, lo, hi)
    ensures PageRep(w, m', b, pg) && SamePage(m, m', b)
  {
    forall a | a in pg.tiles ensures BlockRep(w, m', b, a, pg.tiles[a].size, pg.tiles[a].free) {
      assert BlockRep(w, m, b, a, pg.tiles[a].size, pg.tiles[a].free);
    }
    forall i | 0 <= i < |pg.free| ensures NodeRep(m', pg.free, i) {
      assert NodeRep(m, pg.free, i);
    }
  }

  /** So do changed links in its own page header. */
  lemma PageRepRelinked(w: WordSize, m: Mem, m': Mem, b: int, pg: PageView)
    requires PageOk(b, pg) && PageRep(w, m, b, pg) && Kept(w, m, m', b, b + PAGE_HEADER)
    requires b in m'.pages && m'.pages[b] == m.pages[b].(next := m'.pages[b].next, prev := m'.pages[b].prev)
    ensures PageRep(w, m', b, pg)
  {
    forall a | a in pg.tiles ensures BlockRep(w, m', b, a, pg.tiles[a].size, pg.tiles[a].free) {
      assert BlockRep(w, m, b, a, pg.tiles[a].size, pg.tiles[a].free);
    }
    forall i | 0 <= i < |pg.free| ensures NodeRep(m', pg.free, i) {
      assert NodeRep(m, pg.free, i);
    }
  }

  lemma LargeRepKept(w: WordSize, m: Mem, m': Mem, b: int, n: int, lo: int, hi: int)
    requires LargeRep(m, b, n) && Kept(w, m, m', lo, hi) && Away(b, PAGE_SIZE, lo, hi)
    ensures LargeRep(m', b, n)
  {
  }

  lemma KeptWiden(w: WordSize, m: Mem, m': Mem, lo1: int, hi1: int, lo: int, hi: int)
    requires Kept(w, m, m', lo1, hi1) && lo <= lo1 && hi1 <= hi
    ensures Kept(w, m, m', lo, hi)
  {
  }

  lemma FirstListed(w: WordSize, v: View, m: Mem, pageList: int)
    requires Inv(w, v) && HeapRep(w, m, v, pageList)
    ensures pageList in v.pages && pageList != 0 && pageList in m.pages
    ensures PageNode(m, v.order, 0) && PageRep(w, m, pageList, v.pages[pageList])
  {
    assert PageNode(m, v.order, 0);
    assert ListedRep(w, m, v, v.order[0]);
  }

  /** Bytes of live allocations lie in the listed pages, past the page headers, and in the
      large allocations. */
  lemma LiveKeptOutside(w: WordSize, v: View, m: Mem, m': Mem, lo: int, hi: int)
    requires Inv(w, v) && Kept(w, m, m', lo, hi)
    requires forall c | c in v.pages :: Away(c + PAGE_HEADER, PAGE_SIZE - PAGE_HEADER, lo, hi)
    requires forall c | c in v.large :: Away(c, Bytes(v.large[c]), lo, hi)
    ensures LiveKept(m, m', v.live)
  {
    forall p, x | p in v.live && p <= x < p + v.live[p] && x in m.bytes ensures Away(x, 1, lo, hi) {
      assert Backed(w, v, p);
      if !HoldsLarge(w, v, p) {
        var b := PageOf(w, v, p);
        assert PageOk(b, v.pages[b]);
      }
    }
  }

  lemma LiveKeptCompose(m: Mem, m1: Mem, m2: Mem, live: map<int, int>)
    requires LiveKept(m, m1, live) && LiveKept(m1, m2, live)
    ensures LiveKept(m, m2, live)
  {
  }

  /** The records of all listed pages and large allocations. */
  ghost predicate AllRep(w: WordSize, m: Mem, v: View) {
    && (forall b {:trigger ListedRep(w, m, v, b)} | b in v.pages :: ListedRep(w, m, v, b))
    && (forall b {:trigger LargeRep(m, b, v.large[b])} | b in v.large :: LargeRep(m, b, v.large[b]))
  }

  /** Writing to fresh memory leaves the heap alone. */
  lemma FreshWrite(w: WordSize, v: View, m: Mem, m': Mem, base: int, n: int)
    requires Inv(w, v) && AllRep(w, m, v) && Fresh(v, base, n) && Kept(w, m, m', base, base + Bytes(n))
    ensures AllRep(w, m', v) && LiveKept(m, m', v.live)
    ensures forall c | c in v.pages || c in v.large :: SamePage(m, m', c)
  {
    forall c {:trigger ListedRep(w, m', v, c)} | c in v.pages ensures ListedRep(w, m', v, c) {
      assert ListedRep(w, m, v, c);
      PageRepKept(w, m, m', c, v.pages[c], base, base + Bytes(n));
    }
    forall c {:trigger LargeRep(m', c, v.large[c])} | c in v.large ensures LargeRep(m', c, v.large[c]) {
      assert LargeRep(m, c, v.large[c]);
      LargeRepKept(w, m, m', c, v.large[c], base, base + Bytes(n));
    }
    LiveKeptOutside(w, v, m, m', base, base + Bytes(n));
  }

  /** Relinking the first page keeps all records. */
  lemma FirstRelinked(w: WordSize, v: View, m: Mem, m': Mem, first: int, prev: int)
    requires Inv(w, v) && AllRep(w, m, v) && first in v.pages && first in m.pages
    requires Kept(w, m, m', first, first + PageBytes(w)) && first in m'.pages && m'.pages[first] == m.pages[first].(prev := prev)
    ensures AllRep(w, m', v) && LiveKept(m, m', v.live)
    ensures forall c | c in v.pages && c != first :: SamePage(m, m', c)
  {
    KeptWiden(w, m, m', first, first + PageBytes(w), first, first + PAGE_HEADER);
    forall c {:trigger ListedRep(w, m', v, c)} | c in v.pages ensures ListedRep(w, m', v, c) {
      assert ListedRep(w, m, v, c);
      if c == first {
        PageRepRelinked(w, m, m', c, v.pages[c]);
      } else {
        PageRepKept(w, m, m', c, v.pages[c], first, first + PAGE_HEADER);
      }
    }
    forall c {:trigger LargeRep(m', c, v.large[c])} | c in v.large ensures LargeRep(m', c, v.large[c]) {
      assert LargeRep(m, c, v.large[c]);
      LargeRepKept(w, m, m', c, v.large[c], first, first + PAGE_HEADER);
    }
    LiveKeptOutside(w, v, m, m', first, first + PAGE_HEADER);
  }

  lemma FreshWriteHeader(w: WordSize, v: View, m: Mem, m': Mem, base: int)
    requires Inv(w, v) && AllRep(w, m, v) && Fresh(v, base, 1) && Kept(w, m, m', base, base + PageBytes(w))
    ensures AllRep(w, m', v) && LiveKept(m, m', v.live)
    ensures forall c | c in v.pages || c in v.large :: SamePage(m, m', c)
  {
    KeptWiden(w, m, m', base, base + PageBytes(w), base, base + Bytes(1));
    FreshWrite(w, v, m, m', base, 1);
  }

  lemma FreshWritePage(w: WordSize, v: View, m: Mem, m': Mem, base: int)
    requires Inv(w, v) && AllRep(w, m, v) && Fresh(v, base, 1) && Kept(w, m, m', base, base + PAGE_SIZE)
    ensures AllRep(w, m', v) && LiveKept(m, m', v.live)
    ensures forall c | c in v.pages || c in v.large :: SamePage(m, m', c)
  {
    KeptWiden(w, m, m', base, base + PAGE_SIZE, base, base + Bytes(1));
    FreshWrite(w, v, m, m', base, 1);
  }

  lemma FreshPageSum(base: int)
    ensures SumFree(FreshPage(base).tiles, base + PAGE_HEADER, base + PAGE_SIZE) == PAGE_SIZE - PAGE_HEADER
  {
    var t := FreshPage(base).tiles;
    assert SumFree(t, base + PAGE_HEADER, base + PAGE_SIZE)
      == t[base + PAGE_HEADER].size + SumFree(t, base + PAGE_SIZE, base + PAGE_SIZE);
  }

  /** The page list with a page pushed on its front. */
  lemma PushedOrder(m: Mem, m': Mem, order: seq<int>, base: int)
    requires PagesLinked(m, order) && NoDuplicates(order) && order != []
    requires base in m'.pages && m'.pages[base].next == order[0] && m'.pages[base].prev == 0
    requires order[0] in m.pages && order[0] in m'.pages && m'.pages[order[0]] == m.pages[order[0]].(prev := base)
    requires forall i | 0 < i < |order| :: SamePage(m, m', order[i])
    ensures PagesLinked(m', [base] + order)
  {
    var list := [base] + order;
    forall i | 0 <= i < |list| ensures PageNode(m', list, i) {
      if i > 0 {
        assert list[i] == order[i - 1];
        assert PageNode(m, order, i - 1);
      }
    }
  }

  lemma PushedRep(w: WordSize, m: Mem, v: View, base: int)
    requires AllRep(w, m, v) && PageRep(w, m, base, FreshPage(base))
    ensures AllRep(w, m, AddPage(v, base))
  {
    var v' := AddPage(v, base);
    forall c {:trigger ListedRep(w, m, v', c)} | c in v'.pages ensures ListedRep(w, m, v', c) {
      assert c != base ==> ListedRep(w, m, v, c);
    }
    forall c {:trigger LargeRep(m, c, v'.large[c])} | c in v'.large ensures LargeRep(m, c, v'.large[c]) {
      assert LargeRep(m, c, v.large[c]);
    }
  }

  /** Page counts in the headers of the listed pages and of the page at base are not touched. */
  ghost predicate NumPagesKept(m: Mem, m': Mem, v: View, base: int) {
    forall c | c in m.pages && (c == base || c in v.pages) ::
      c in m'.pages && m'.pages[c].numPages == m.pages[c].numPages
  }

  /** The new page's header is written and the old first page points back to it. */
  ghost predicate PageLinked(w: WordSize, v: View, m: Mem, m2: Mem, first: int, base: int) {
    && AllRep(w, m2, v) && LiveKept(m, m2, v.live)
    && first in v.pages && first in m.pages && first in m2.pages
    && m2.pages[first] == m.pages[first].(prev := base)
    && (forall c | c in v.pages && c != first :: SamePage(m, m2, c))
    && base in m2.pages && m2.pages[base].magic == MAGIC && m2.pages[base].freeSize == PAGE_SIZE - PAGE_HEADER
    && m2.pages[base].next == first && m2.pages[base].prev == 0
    && (base in m.pages ==> m2.pages[base].numPages == m.pages[base].numPages)
  }

  /** Setting up its only block completes the pushed page. */
  lemma FinishedHeap(w: WordSize, v: View, m: Mem, m2: Mem, m': Mem, first: int, base: int)
    requires Inv(w, v) && PagesLinked(m, v.order) && first == Item(v.order, 0) && Fresh(v, base, 1)
    requires PageLinked(w, v, m, m2, first, base)
    requires Kept(w, m2, m', base, base + PAGE_SIZE) && PageRep(w, m', base, FreshPage(base))
    requires m'.pages[base] == m2.pages[base].(blockList := base + PAGE_HEADER)
    ensures Inv(w, AddPage(v, base)) && HeapRep(w, m', AddPage(v, base), base)
    ensures LiveKept(m, m', v.live) && NumPagesKept(m, m', v, base)
  {
    FreshWritePage(w, v, m2, m', base);
    LiveKeptCompose(m, m2, m', v.live);
    PushedOrder(m, m', v.order, base);
    PushedRep(w, m', v, base);
    AddPageKeepsInv(w, v, base);
  }

  lemma FreshAway(w: WordSize, v: View, base: int, first: int)
    requires Inv(w, v) && Fresh(v, base, 1) && first in v.pages
    ensures base != first && Away(base, PageBytes(w), first, first + PageBytes(w)) && PageBase(base)
  {
  }

  /** free takes a pointer with this header for a corrupted one. */
  predicate Rejected(h: BlockHdr) {
    h.magic != MAGIC || h.page == 0 || h.isFree
  }

  lemma GrownRep(w: WordSize, m: Mem, b: int, t: map<int, Tile>, a: int)
    requires a in t && TilesRep(w, m, b, GrownRight(t, b + PAGE_SIZE, a), {})
    ensures a in m.blocks && m.blocks[a].isFree
  {
    var g := GrownRight(t, b + PAGE_SIZE, a);
    assert BlockRep(w, m, b, a, g[a].size, g[a].free);
  }

  /** A step inside page b carries the whole heap along. */
  lemma PageStepHeap(w: WordSize, v: View, m: Mem, m': Mem, b: int, t: map<int, Tile>, v': View, pageList: int)
    requires Inv(w, v) && HeapRep(w, m, v, pageList) && b in v.pages && PageStep(w, m, m', b, t)
    requires v'.order == v.order && v'.large == v.large && b in v'.pages && v'.pages == v.pages[b := v'.pages[b]]
    requires PageRep(w, m', b, v'.pages[b])
    ensures HeapRep(w, m', v', pageList)
  {
    forall c {:trigger ListedRep(w, m', v', c)} | c in v'.pages ensures ListedRep(w, m', v', c) && (c != b ==> SamePage(m, m', c)) {
      if c != b {
        assert ListedRep(w, m, v, c);
        PageRepKept(w, m, m', c, v.pages[c], b, b + PAGE_SIZE);
      }
    }
    forall c {:trigger LargeRep(m', c, v'.large[c])} | c in v'.large ensures LargeRep(m', c, v'.large[c]) {
      assert LargeRep(m, c, v.large[c]);
      LargeRepKept(w, m, m', c, v.large[c], b, b + PAGE_SIZE);
    }
    forall i | 0 <= i < |v'.order| ensures PageNode(m', v'.order, i) {
      assert PageNode(m, v.order, i);
      var c := v.order[i];
      assert c != b ==> ListedRep(w, m', v', c);
    }
  }

  /** A step inside page b that keeps the bytes of its blocks in use keeps all live bytes. */
  lemma PageStepLive(w: WordSize, v: View, m: Mem, m': Mem, b: int)
    requires Inv(w, v) && b in v.pages && PageStep(w, m, m', b, v.pages[b].tiles)
    ensures LiveKept(m, m', v.live)
  {
    forall p, x | p in v.live && p <= x < p + v.live[p] && x in m.bytes ensures x in m'.bytes && m'.bytes[x] == m.bytes[x] {
      assert Backed(w, v, p);
      if !HoldsLarge(w, v, p) {
        var c := PageOf(w, v, p);
        assert PageOk(c, v.pages[c]);
      }
    }
  }

  /** The 32-bit size field of a large block of n pages. */
  function LargeSize(n: int): (size: int)
    requires 0 < n
    ensures PAGE_SIZE - PAGE_HEADER <= size <= Bytes(n) - PAGE_HEADER
  {
    assert Bytes(n) % 0x1_0000_0000 == 4096 * (n % 0x10_0000);
    (Bytes(n) % 0x1_0000_0000 - PAGE_HEADER) % 0x1_0000_0000
  }

  lemma LargeAdded(w: WordSize, m: Mem, m': Mem, v: View, v': View, base: int, pageList: int)
    requires HeapRep(w, m, v, pageList) && AllRep(w, m', v) && ListsPages(v)
    requires forall c | c in v.pages || c in v.large :: SamePage(m, m', c)
    requires v'.order == v.order && v'.pages == v.pages && base in v'.large && v'.large == v.large[base := v'.large[base]]
    requires LargeRep(m', base, v'.large[base])
    ensures HeapRep(w, m', v', pageList)
  {
    forall c {:trigger ListedRep(w, m', v', c)} | c in v'.pages ensures ListedRep(w, m', v', c) {
      assert ListedRep(w, m', v, c);
    }
    forall c {:trigger LargeRep(m', c, v'.large[c])} | c in v'.large ensures LargeRep(m', c, v'.large[c]) {
      assert c != base ==> LargeRep(m', c, v.large[c]);
    }
    forall i | 0 <= i < |v'.order| ensures PageNode(m', v'.order, i) {
      assert PageNode(m, v.order, i) && SamePage(m, m', v.order[i]);
    }
  }

  lemma LargeDropped(w: WordSize, m: Mem, v: View, v': View, base: int, pageList: int)
    requires HeapRep(w, m, v, pageList) && base in v.large
    requires v'.order == v.order && v'.pages == v.pages && v'.large == v.large - {base}
    ensures HeapRep(w, m, v', pageList)
  {
    forall c {:trigger ListedRep(w, m, v', c)} | c in v'.pages ensures ListedRep(w, m, v', c) {
      assert ListedRep(w, m, v, c);
    }
    forall c {:trigger LargeRep(m, c, v'.large[c])} | c in v'.large ensures LargeRep(m, c, v'.large[c]) {
      assert LargeRep(m, c, v.large[c]);
    }
  }

  /** The next page of a freed large allocation overlaps nothing of the heap so far. */
  lemma NextFresh(w: WordSize, v: View, base: int, n: int, i: nat)
    requires Inv(w, v) && Fresh(v, base, n) && i < n
    ensures Fresh(AddPages(v, base, i), base + Bytes(i), 1) && AddPages(v, base, i).live == v.live
    ensures i > 0 ==> base in AddPages(v, base, i).pages
  {
    assert i > 0 ==> Fresh(v, base, i);
    AddPagesKeepsInv(w, v, base, i);
    PageBaseStep(base, i);
    if i > 0 {
      AddPagesContents(v, base, i, base);
      assert base == base + Bytes(0);
    }
  }

  lemma FirstFreed(w: WordSize, v: View, m: Mem, base: int, n: nat)
    requires Fresh(v, base, n) && AllRep(w, m, AddPages(v, base, n))
    ensures base + PAGE_HEADER in m.blocks && m.blocks[base + PAGE_HEADER].isFree
  {
    var v' := AddPages(v, base, n);
    AddPagesContents(v, base, n, base);
    assert base == base + Bytes(0);
    assert ListedRep(w, m, v', base);
    assert BlockRep(w, m, base, base + PAGE_HEADER, PAGE_SIZE - PAGE_HEADER, true);
  }

  /** The header before a live pointer passes all checks, and tells where its block is. */
  lemma LiveHeader(w: WordSize, m: Mem, v: View, p: int)
    requires Inv(w, v) && AllRep(w, m, v)
    ensures p in v.live ==>
      && p - BLOCK_HEADER in m.blocks && !Rejected(m.blocks[p - BLOCK_HEADER])
      && (m.blocks[p - BLOCK_HEADER].isLarge <==> HoldsLarge(w, v, p))
      && (HoldsLarge(w, v, p) ==> LargeRep(m, p - BLOCK_HEADER - PAGE_HEADER, v.large[p - BLOCK_HEADER - PAGE_HEADER]))
  {
    if p in v.live {
      var a := p - BLOCK_HEADER;
      if HoldsLarge(w, v, p) {
        assert LargeRep(m, a - PAGE_HEADER, v.large[a - PAGE_HEADER]);
        assert PageBase(a - PAGE_HEADER);
      } else {
        var b := PageOf(w, v, p);
        assert ListedRep(w, m, v, b) && PageBase(b);
        assert BlockRep(w, m, b, a, v.pages[b].tiles[a].size, false);
      }
    }
  }

  /** Storing inside a live allocation reaches no record of the heap. */
  lemma StoreKeepsHeap(w: WordSize, m: Mem, m': Mem, v: View, pageList: int, p: int, k: int)
    requires Inv(w, v) && HeapRep(w, m, v, pageList) && p in v.live && InPayload(v, p, k)
    requires Kept(w, m, m', k, k + 1)
    ensures HeapRep(w, m', v, pageList)
  {
    forall c {:trigger ListedRep(w, m', v, c)} | c in v.pages ensures ListedRep(w, m', v, c) && SamePage(m, m', c) {
      assert ListedRep(w, m, v, c);
      StoreKeepsPage(w, m, m', v, c, p, k);
    }
    forall c {:trigger LargeRep(m', c, v.large[c])} | c in v.large ensures LargeRep(m', c, v.large[c]) {
      assert LargeRep(m, c, v.large[c]);
      PayloadByteAvoids(w, v, p, k, c, 0);
    }
    forall i | 0 <= i < |v.order| ensures PageNode(m', v.order, i) {
      assert PageNode(m, v.order, i) && ListedRep(w, m', v, v.order[i]);
    }
  }

  lemma StoreKeepsPage(w: WordSize, m: Mem, m': Mem, v: View, b: int, p: int, k: int)
    requires Inv(w, v) && b in v.pages && PageRep(w, m, b, v.pages[b]) && p in v.live && InPayload(v, p, k)
    requires Kept(w, m, m', k, k + 1)
    ensures PageRep(w, m', b, v.pages[b]) && SamePage(m, m', b)
  {
    var t, free := v.pages[b].tiles, v.pages[b].free;
    assert PageOk(b, v.pages[b]);
    PayloadByteAvoids(w, v, p, k, b, 0);
    forall a | a in t ensures BlockRep(w, m', b, a, t[a].size, t[a].free) {
      assert BlockRep(w, m, b, a, t[a].size, t[a].free);
      PayloadByteAvoids(w, v, p, k, b, a);
    }
    forall i | 0 <= i < |free| ensures NodeRep(m', free, i) {
      assert NodeRep(m, free, i);
      PayloadByteAvoids(w, v, p, k, b, free[i]);
    }
  }

  lemma {:induction false} ListedLive(v: View, base: int, n: nat)
    ensures AddPages(v, base, n).live == v.live
  {
    if n > 0 {
      ListedLive(v, base, n - 1);
    }
  }

  /** The memory after i of the n pages of a large allocation were listed. */
  ghost predicate Listing(w: WordSize, v: View, m: Mem, m': Mem, pageList: int, base: int, n: int, i: nat) {
    && i <= n && Inv(w, v) && Fresh(v, base, n)
    && Inv(w, AddPages(v, base, i)) && HeapRep(w, m', AddPages(v, base, i), pageList)
    && LiveKept(m, m', v.live)
    && base in m'.pages && m'.pages[base].numPages == n
  }

  class Heap {
    const w: WordSize
    var mem: Mem
    var pageList: int
    ghost var view: View

    // ----- single writes -----

    method SetPage(b: int, h: PageHdr, ghost t: map<int, Tile>)
      requires Tiled(t, b + PAGE_HEADER, b + PAGE_SIZE)
      modifies this`mem
      ensures Frame(w, old(mem), mem, b, t, {}, {}) && b in mem.pages && mem.pages[b] == h
    {
      PutPageFrame(w, mem, b, t, h);
      mem := PutPage(w, mem, b, h);
    }

    method SetBlock(a: int, h: BlockHdr, ghost b: int, ghost t: map<int, Tile>)
      requires Tiled(t, b + PAGE_HEADER, b + PAGE_SIZE) && a in t
      modifies this`mem
      ensures Frame(w, old(mem), mem, b, t, {a}, {}) && SamePage(old(mem), mem, b)
      ensures a in mem.blocks && mem.blocks[a] == h
    {
      PutBlockFrame(w, mem, b, t, a, h);
      mem := PutBlock(w, mem, a, h);
    }

    method SetEnd(k: int, x: int, ghost a: int, ghost b: int, ghost t: map<int, Tile>)
      requires Tiled(t, b + PAGE_HEADER, b + PAGE_SIZE) && a in t && a + BLOCK_HEADER - w <= k <= EndOf(w, t, a)
      modifies this`mem
      ensures Frame(w, old(mem), mem, b, t, {}, {a}) && SamePage(old(mem), mem, b)
      ensures k in mem.ends && mem.ends[k] == x
    {
      PutEndFrame(w, mem, b, t, a, k, x);
      mem := PutEnd(w, mem, k, x);
    }

    method SetNext(k: int, x: int, ghost b: int, ghost t: map<int, Tile>)
      requires Tiled(t, b + PAGE_HEADER, b + PAGE_SIZE) && k in t && k in mem.blocks
      modifies this`mem
      ensures Frame(w, old(mem), mem, b, t, {k}, {}) && SamePage(old(mem), mem, b)
      ensures k in mem.blocks && mem.blocks[k] == old(mem.blocks[k]).(next := x)
    {
      SetBlock(k, mem.blocks[k].(next := x), b, t);
    }

    method SetPrev(k: int, x: int, ghost b: int, ghost t: map<int, Tile>)
      requires Tiled(t, b + PAGE_HEADER, b + PAGE_SIZE) && k in t && k in mem.blocks
      modifies this`mem
      ensures Frame(w, old(mem), mem, b, t, {k}, {}) && SamePage(old(mem), mem, b)
      ensures k in mem.blocks && mem.blocks[k] == old(mem.blocks[k]).(prev := x)
    {
      SetBlock(k, mem.blocks[k].(prev := x), b, t);
    }

    // ----- the free list of a page -----

    /** Points the neighbours of position j, where there are any, at x and y. */
    method SetNeighbours(prev: int, next: int, x: int, y: int,
        ghost b: int, ghost t: map<int, Tile>, ghost free: seq<int>, ghost j: nat)
      requires Tiled(t, b + PAGE_HEADER, b + PAGE_SIZE)
      requires NoDuplicates(free) && forall i | 0 <= i < |free| :: free[i] in t && free[i] != 0
      requires prev == Item(free, j - 1) && next == Item(free, j + 1)
      requires (prev != 0 ==> prev in mem.blocks) && (next != 0 ==> next in mem.blocks)
      modifies this`mem
      ensures Frame(w, old(mem), mem, b, t, Near(free, j), {}) && SamePage(old(mem), mem, b)
      ensures NeighboursSet(old(mem), mem, free, j, x, y)
    {
      if prev != 0 {
        SetNext(prev, x, b, t);
      }
      if next != 0 {
        SetPrev(next, y, b, t);
      }
    }

    /** Takes the j-th block out of the free list of page b. */
    method Unlink(b: int, a: int, ghost t: map<int, Tile>, ghost free: seq<int>, ghost j: nat, ghost skip: set<int>)
      requires Tiled(t, b + PAGE_HEADER, b + PAGE_SIZE) && ListIn(free, t) && PageCore(w, mem, b, t, free, skip)
      requires j < |free| && free[j] == a
      modifies this`mem
      ensures Frame(w, old(mem), mem, b, t, Near(free, j), {})
      ensures NeighboursSet(old(mem), mem, free, j, Item(free, j + 1), Item(free, j - 1))
      ensures PageCore(w, mem, b, t, RemoveAt(free, j), skip)
      ensures mem.pages[b] == old(mem.pages[b]).(blockList := Item(RemoveAt(free, j), 0))
    {
      assert NodeRep(mem, free, j);
      assert j > 0 ==> NodeRep(mem, free, j - 1);
      assert j + 1 < |free| ==> NodeRep(mem, free, j + 1);
      var h := mem.blocks[a];
      SetNeighbours(h.prev, h.next, h.next, h.prev, b, t, free, j);
      ghost var m1 := mem;
      if a == mem.pages[b].blockList {
        SetPage(b, mem.pages[b].(blockList := h.next), t);
        FrameCompose(w, old(mem), m1, mem, b, t, Near(free, j), {}, {}, {}, Near(free, j), {});
      }
      UnlinkedList(old(mem), mem, t, free, j);
      TilesRepFrame(w, old(mem), mem, b, t, Near(free, j), {}, skip, skip);
    }

    /** Puts block c in the place of the j-th block of the free list; its links were copied. */
    method Substitute(b: int, a: int, c: int, ghost t: map<int, Tile>, ghost free: seq<int>, ghost j: nat, ghost skip: set<int>)
      requires Tiled(t, b + PAGE_HEADER, b + PAGE_SIZE) && ListIn(free, t) && PageCore(w, mem, b, t, free, skip)
      requires j < |free| && free[j] == a
      requires c in t && c !in free && c != 0 && c in mem.blocks
      requires mem.blocks[c].next == Item(free, j + 1) && mem.blocks[c].prev == Item(free, j - 1)
      modifies this`mem
      ensures Frame(w, old(mem), mem, b, t, Near(free, j), {})
      ensures NeighboursSet(old(mem), mem, free, j, c, c)
      ensures PageCore(w, mem, b, t, free[j := c], skip)
      ensures mem.pages[b] == old(mem.pages[b]).(blockList := Item(free[j := c], 0))
    {
      assert j > 0 ==> NodeRep(mem, free, j - 1);
      assert j + 1 < |free| ==> NodeRep(mem, free, j + 1);
      ListInReplaced(free, t, j, c);
      var h := mem.blocks[c];
      SetNeighbours(h.prev, h.next, c, c, b, t, free, j);
      ghost var m1 := mem;
      if mem.pages[b].blockList == a {
        SetPage(b, mem.pages[b].(blockList := c), t);
        FrameCompose(w, old(mem), m1, mem, b, t, Near(free, j), {}, {}, {}, Near(free, j), {});
      }
      SubstitutedList(old(mem), mem, t, free, j, c);
      TilesRepFrame(w, old(mem), mem, b, t, Near(free, j), {}, skip, skip);
    }

    /** Puts block a at the front of the free list and marks it free. */
    method Prepend(b: int, a: int, ghost t: map<int, Tile>, ghost free: seq<int>)
      requires Tiled(t, b + PAGE_HEADER, b + PAGE_SIZE)
      requires ListIn(free, t) && Linked(mem, free) && a in t && a !in free && a != 0 && a in mem.blocks
      requires b in mem.pages && mem.pages[b].blockList == Item(free, 0)
      modifies this`mem
      ensures Frame(w, old(mem), mem, b, t, {a} + Near([a] + free, 0), {})
      ensures NeighboursSet(old(mem), mem, [a] + free, 0, 0, a)
      ensures a in mem.blocks
      ensures mem.blocks[a] == old(mem.blocks[a]).(isFree := true, next := Item(free, 0), prev := 0)
      ensures Linked(mem, [a] + free)
      ensures b in mem.pages && mem.pages[b] == old(mem.pages[b]).(blockList := a)
    {
      assert |free| > 0 ==> NodeRep(mem, free, 0);
      var first := mem.pages[b].blockList;
      SetBlock(a, mem.blocks[a].(isFree := true, next := first), b, t);
      if first != 0 {
        assert free[0] == ([a] + free)[1];
        SetPrev(first, a, b, t);
      }
      SetBlock(a, mem.blocks[a].(prev := 0), b, t);
      SetPage(b, mem.pages[b].(blockList := a), t);
      PrependedList(old(mem), mem, t, free, a);
    }

    // ----- taking a block -----

    /** Gives block a the size given and marks it used, in its header and in its end word. */
    method WriteUsed(a: int, size: int, ghost b: int, ghost t: map<int, Tile>)
      requires Tiled(t, b + PAGE_HEADER, b + PAGE_SIZE) && a in t && a in mem.blocks
      requires BLOCK_HEADER <= size <= t[a].size
      modifies this`mem
      ensures Frame(w, old(mem), mem, b, t, {a}, {a}) && SamePage(old(mem), mem, b)
      ensures a in mem.blocks && mem.blocks[a] == old(mem.blocks[a]).(size := size, isFree := false)
      ensures a + size - w in mem.ends && mem.ends[a + size - w] == 0
    {
      SetBlock(a, mem.blocks[a].(size := size, isFree := false), b, t);
      SetEnd(a + mem.blocks[a].size - w, 0, a, b, t);
    }

    /** Hands out block a, which has exactly the size asked for. */
    method TakeExact(b: int, a: int, ghost t: map<int, Tile>, ghost free: seq<int>, ghost j: nat)
      requires Tiled(t, b + PAGE_HEADER, b + PAGE_SIZE) && ListIn(free, t) && PageCore(w, mem, b, t, free, {})
      requires j < |free| && free[j] == a
      modifies this`mem
      ensures PageCore(w, mem, b, Mark(t, a, false), RemoveAt(free, j), {})
      ensures Frame(w, old(mem), mem, b, t, {a} + Near(free, j), {a})
      ensures mem.pages[b] == old(mem.pages[b]).(blockList := mem.pages[b].blockList)
    {
      assert BlockRep(w, mem, b, a, t[a].size, t[a].free);
      Unlink(b, a, t, free, j, {});
      ghost var m1 := mem;
      WriteUsed(a, mem.blocks[a].size, b, t);
      FrameCompose(w, old(mem), m1, mem, b, t, Near(free, j), {}, {a}, {a}, {a} + Near(free, j), {a});
      MarkedRep(w, m1, mem, b, t, a);
      ListInRemoved(free, t, j);
      LinkedFrame(w, m1, mem, b, t, RemoveAt(free, j), {a}, {a});
    }

    /** Adds the slack to used block a and takes it off the free size of its page. */
    method AddSlack(a: int, slack: int, ghost b: int, ghost t: map<int, Tile>)
      requires Tiled(t, b + PAGE_HEADER, b + PAGE_SIZE) && a in t && a in mem.blocks && !mem.blocks[a].isFree
      requires mem.blocks[a].page == b && b in mem.pages && BLOCK_HEADER <= mem.blocks[a].size + slack <= t[a].size
      modifies this`mem
      ensures Frame(w, old(mem), mem, b, t, {a}, {a})
      ensures a in mem.blocks && mem.blocks[a] == old(mem.blocks[a]).(size := old(mem.blocks[a].size) + slack)
      ensures a + mem.blocks[a].size - w in mem.ends && mem.ends[a + mem.blocks[a].size - w] == 0
      ensures b in mem.pages && mem.pages[b] == old(mem.pages[b]).(freeSize := old(mem.pages[b].freeSize) - slack)
    {
      var page := mem.blocks[a].page;
      SetPage(page, mem.pages[page].(freeSize := mem.pages[page].freeSize - slack), t);
      ghost var m1 := mem;
      WriteUsed(a, mem.blocks[a].size + slack, b, t);
      FrameCompose(w, old(mem), m1, mem, b, t, {}, {}, {a}, {a}, {a}, {a});
    }

    /** Hands out all of block a although it is larger than n: the rest is too small to stay free. */
    method TakeSlack(b: int, a: int, n: int, ghost t: map<int, Tile>, ghost free: seq<int>, ghost j: nat)
      requires Tiled(t, b + PAGE_HEADER, b + PAGE_SIZE) && ListIn(free, t) && PageCore(w, mem, b, t, free, {})
      requires j < |free| && free[j] == a && BLOCK_HEADER <= n <= t[a].size
      modifies this`mem
      ensures PageCore(w, mem, b, Mark(t, a, false), RemoveAt(free, j), {})
      ensures Frame(w, old(mem), mem, b, t, {a} + Near(free, j), {a})
      ensures mem.pages[b] == old(mem.pages[b]).(
        blockList := mem.pages[b].blockList, freeSize := old(mem.pages[b].freeSize) - (t[a].size - n))
    {
      assert BlockRep(w, mem, b, a, t[a].size, t[a].free);
      assert NodeRep(mem, free, j);
      var splitSize := mem.blocks[a].size - n;
      WriteUsed(a, n, b, t);
      ghost var m1 := mem;
      TilesRepFrame(w, old(mem), m1, b, t, {a}, {a}, {}, {a});
      RelinkedList(old(mem), m1, free, t, a);
      Unlink(b, a, t, free, j, {a});
      ghost var m2 := mem;
      FrameCompose(w, old(mem), m1, m2, b, t, {a}, {a}, Near(free, j), {}, {a} + Near(free, j), {a});
      AddSlack(a, splitSize, b, t);
      FrameCompose(w, old(mem), m2, mem, b, t, {a} + Near(free, j), {a}, {a}, {a}, {a} + Near(free, j), {a});
      MarkedRep(w, m2, mem, b, t, a);
      ListInRemoved(free, t, j);
      LinkedFrame(w, m2, mem, b, t, RemoveAt(free, j), {a}, {a});
    }

    /** Gives block c its size, page and mark as a free block. */
    method WriteFree(c: int, size: int, b: int, ghost t: map<int, Tile>)
      requires Tiled(t, b + PAGE_HEADER, b + PAGE_SIZE) && c in t && c in mem.blocks && size == t[c].size
      modifies this`mem
      ensures Frame(w, old(mem), mem, b, t, {c}, {c}) && SamePage(old(mem), mem, b)
      ensures c in mem.blocks && mem.blocks[c] == old(mem.blocks[c]).(size := size, page := b, isFree := true)
      ensures EndOf(w, t, c) in mem.ends && mem.ends[EndOf(w, t, c)] == size
    {
      SetBlock(c, mem.blocks[c].(size := size, page := b, isFree := true), b, t);
      SetEnd(c + mem.blocks[c].size - w, size, c, b, t);
    }

    /** Shrinks block a to n used bytes and starts a header behind it with a copy of its links. */
    method Carve(b: int, a: int, n: int, ghost t: map<int, Tile>, ghost free: seq<int>, ghost j: nat)
      requires Tiled(t, b + PAGE_HEADER, b + PAGE_SIZE) && ListIn(free, t) && PageCore(w, mem, b, t, free, {a, a + n})
      requires a in t && a + n in t && t[a] == Tile(n, false) && a + n !in free && j < |free| && free[j] == a
      requires a in mem.blocks && mem.blocks[a].magic == MAGIC && mem.blocks[a].page == b && !mem.blocks[a].isLarge
      modifies this`mem
      ensures PageCore(w, mem, b, t, free, {a + n})
      ensures Frame(w, old(mem), mem, b, t, {a, a + n}, {a}) && SamePage(old(mem), mem, b)
      ensures a + n in mem.blocks && mem.blocks[a + n]
        == BlockHdr(MAGIC, 0, false, false, 0, Item(free, j - 1), Item(free, j + 1))
    {
      assert NodeRep(mem, free, j);
      WriteUsed(a, n, b, t);
      ghost var m1 := mem;
      RelinkedList(old(mem), m1, free, t, a);
      MarkedRep1(w, old(mem), m1, b, t, a, {a, a + n}, {a + n});
      SetBlock(a + n, BlockHdr(MAGIC, 0, false, false, 0, mem.blocks[a].prev, mem.blocks[a].next), b, t);
      FrameCompose(w, old(mem), m1, mem, b, t, {a}, {a}, {a + n}, {}, {a, a + n}, {a});
      LinkedFrame(w, m1, mem, b, t, free, {a + n}, {});
      TilesRepFrame(w, m1, mem, b, t, {a + n}, {}, {a + n}, {a + n});
    }

    /** Completes the records of the listed block c. */
    method CompleteFree(c: int, size: int, b: int, ghost t: map<int, Tile>, ghost free: seq<int>)
      requires Tiled(t, b + PAGE_HEADER, b + PAGE_SIZE) && ListIn(free, t) && PageCore(w, mem, b, t, free, {c})
      requires c in t && t[c] == Tile(size, true)
      requires c in mem.blocks && mem.blocks[c].magic == MAGIC && !mem.blocks[c].isLarge
      modifies this`mem
      ensures PageCore(w, mem, b, t, free, {})
      ensures Frame(w, old(mem), mem, b, t, {c}, {c}) && SamePage(old(mem), mem, b)
    {
      WriteFree(c, size, b, t);
      RelinkedList(old(mem), mem, free, t, c);
      MarkedRep1(w, old(mem), mem, b, t, c, {c}, {});
    }

    /** Hands out the first n bytes of block a; the rest becomes a free block in its place. */
    method TakeFront(b: int, a: int, n: int, ghost t: map<int, Tile>, ghost free: seq<int>, ghost j: nat)
      requires Tiled(t, b + PAGE_HEADER, b + PAGE_SIZE) && ListIn(free, t) && PageCore(w, mem, b, t, free, {})
      requires j < |free| && free[j] == a && BLOCK_HEADER <= n && n + BLOCK_HEADER <= t[a].size && 0 < b
      modifies this`mem
      ensures PageCore(w, mem, b, Cut(t, a, n), free[j := a + n], {})
      ensures Frame(w, old(mem), mem, b, Cut(t, a, n), {a, a + n} + Near(free, j), {a, a + n})
      ensures mem.pages[b] == old(mem.pages[b]).(blockList := mem.pages[b].blockList)
    {
      ghost var t' := Cut(t, a, n);
      ghost var heads := {a, a + n} + Near(free, j);
      CutKeepsTiling(t, b + PAGE_HEADER, b + PAGE_SIZE, a, n);
      CutPageCore(w, mem, b, t, free, a, n);
      var splitSize := mem.blocks[a].size - n;
      var c := a + n;
      Carve(b, a, n, t', free, j);
      ghost var m1 := mem;
      Substitute(b, a, c, t', free, j, {c});
      ghost var m2 := mem;
      FrameCompose(w, old(mem), m1, m2, b, t', {a, c}, {a}, Near(free, j), {}, heads, {a, c});
      ListInReplaced(free, t', j, c);
      CompleteFree(c, splitSize, b, t', free[j := c]);
      FrameCompose(w, old(mem), m2, mem, b, t', heads, {a, c}, {c}, {c}, heads, {a, c});
    }

    /** The first block of the free list with at least n bytes, or 0. */
    method FindBlock(b: int, n: int, ghost pg: PageView) returns (cur: int, ghost j: nat)
      requires PageOk(b, pg) && PageCore(w, mem, b, pg.tiles, pg.free, {}) && 0 < b
      ensures j == FirstFit(pg.tiles, pg.free, n) && cur == Item(pg.free, j)
    {
      cur, j := mem.pages[b].blockList, 0;
      while cur != 0
        invariant j <= |pg.free| && cur == Item(pg.free, j)
        invariant forall k | 0 <= k < j :: pg.tiles[pg.free[k]].size < n
        decreases |pg.free| - j
      {
        assert NodeRep(mem, pg.free, j);
        assert BlockRep(w, mem, b, cur, pg.tiles[cur].size, true);
        if mem.blocks[cur].magic != MAGIC {
          assert false;
        }
        if mem.blocks[cur].size >= n {
          break;
        }
        cur, j := mem.blocks[cur].next, j + 1;
      }
    }

    /** Takes n bytes from block a, which is the j-th of the free list. */
    method TakeBlock(b: int, a: int, n: int, ghost pg: PageView, ghost j: nat)
      requires PageOk(b, pg) && PageCore(w, mem, b, pg.tiles, pg.free, {}) && 0 < b
      requires j < |pg.free| && pg.free[j] == a && BLOCK_HEADER <= n <= pg.tiles[a].size
      modifies this`mem
      ensures PageCore(w, mem, b, Take(pg, j, n).tiles, Take(pg, j, n).free, {})
      ensures PageStep(w, old(mem), mem, b, pg.tiles)
      ensures mem.pages[b].freeSize == old(mem.pages[b].freeSize) - (Take(pg, j, n).tiles[a].size - n)
    {
      ghost var t, free := pg.tiles, pg.free;
      assert BlockRep(w, mem, b, a, t[a].size, true);
      var size := mem.blocks[a].size;
      if size == n {
        TakeExact(b, a, t, free, j);
        FrameUsedBytes(w, old(mem), mem, b, t, {a} + Near(free, j), a);
      } else if size - n < BLOCK_HEADER {
        TakeSlack(b, a, n, t, free, j);
        FrameUsedBytes(w, old(mem), mem, b, t, {a} + Near(free, j), a);
      } else {
        CutFits(b, t, a, n);
        TakeFront(b, a, n, t, free, j);
        CutUsedBytes(w, old(mem), mem, b, t, {a, a + n} + Near(free, j), a, n);
      }
    }

    /** Takes a block of n bytes from page b, or returns 0 when the page has none. */
    method AllocBlockInPage(b: int, n: int, ghost pg: PageView) returns (p: int)
      requires PageOk(b, pg) && PageRep(w, mem, b, pg) && BLOCK_HEADER <= n && 0 < b
      modifies this`mem
      ensures var j := FirstFit(pg.tiles, pg.free, n);
        if j == |pg.free| then p == 0 && mem == old(mem)
        else
          && p == pg.free[j] + BLOCK_HEADER && PageRep(w, mem, b, Take(pg, j, n))
          && PageStep(w, old(mem), mem, b, pg.tiles)
    {
      var cur, j := FindBlock(b, n, pg);
      if cur == 0 {
        return 0;
      }
      SetPage(b, mem.pages[b].(freeSize := mem.pages[b].freeSize - n), pg.tiles);
      ghost var m1 := mem;
      PageCoreSame(w, old(mem), m1, b, pg.tiles, pg.free);
      TakeBlock(b, cur, n, pg, j);
      PageStepCompose(w, old(mem), m1, mem, b, pg.tiles);
      TakeSum(b, pg, j, n);
      p := cur + BLOCK_HEADER;
    }

    // ----- giving a block back -----

    /** Block a absorbs its free right neighbour n, which is the i-th of the free list. */
    method MergeRight(b: int, a: int, n: int, ghost t: map<int, Tile>, ghost free: seq<int>, ghost i: nat)
      requires Tiled(t, b + PAGE_HEADER, b + PAGE_SIZE) && ListIn(free, t) && PageCore(w, mem, b, t, free, {})
      requires a in t && !t[a].free && a !in free && a != 0 && n == a + t[a].size
      requires n in t && t[n].free && i < |free| && free[i] == n
      modifies this`mem
      ensures PageCore(w, mem, b, Absorb(Mark(t, a, true), a), free[i := a], {})
      ensures PageStep(w, old(mem), mem, b, Absorb(Mark(t, a, true), a))
      ensures mem.pages[b].freeSize == old(mem.pages[b].freeSize)
    {
      assert BlockRep(w, mem, b, a, t[a].size, false) && BlockRep(w, mem, b, n, t[n].size, true);
      assert NodeRep(mem, free, i);
      SetBlock(a, mem.blocks[a].(isFree := true, size := mem.blocks[a].size + mem.blocks[n].size,
        next := mem.blocks[n].next, prev := mem.blocks[n].prev), b, t);
      ghost var m1 := mem;
      TilesRepFrame(w, old(mem), m1, b, t, {a}, {}, {}, {a});
      LinkedFrame(w, old(mem), m1, b, t, free, {a}, {});
      ListInReplaced(free, t, i, a);
      Substitute(b, n, a, t, free, i, {a});
      ghost var m2 := mem;
      FrameCompose(w, old(mem), m1, m2, b, t, {a}, {}, Near(free, i), {}, {a, n} + Near(free, i), {n});
      EraseAndMark(a, n, a + mem.blocks[a].size - w, b, t, free[i := a], {a}, {a, n});
      FrameCompose(w, old(mem), m2, mem, b, t, {a, n} + Near(free, i), {n}, {n}, {n}, {a, n} + Near(free, i), {n});
      AbsorbedRep(w, old(mem), mem, b, t, a, {a, n} + Near(free, i), {n});
    }

    /** Wipes the magic number of the absorbed block n and writes the new size of block a to its
        end word at k. */
    method EraseAndMark(a: int, n: int, k: int, ghost b: int, ghost t: map<int, Tile>, ghost free: seq<int>,
        ghost skip: set<int>, ghost skip': set<int>)
      requires Tiled(t, b + PAGE_HEADER, b + PAGE_SIZE) && ListIn(free, t) && PageCore(w, mem, b, t, free, skip)
      requires a in mem.blocks && n in t && n in mem.blocks && n != a && a in t && k == EndOf(w, t, n)
      requires skip <= skip' && n in skip'
      modifies this`mem
      ensures PageCore(w, mem, b, t, free, skip')
      ensures Frame(w, old(mem), mem, b, t, {n}, {n}) && SamePage(old(mem), mem, b)
      ensures n in mem.blocks && mem.blocks[n] == old(mem.blocks[n]).(magic := 0)
      ensures k in mem.ends && mem.ends[k] == mem.blocks[a].size
    {
      SetBlock(n, mem.blocks[n].(magic := 0), b, t);
      ghost var m1 := mem;
      SetEnd(k, mem.blocks[a].size, n, b, t);
      FrameCompose(w, old(mem), m1, mem, b, t, {n}, {}, {}, {n}, {n}, {n});
      TilesRepFrame(w, old(mem), mem, b, t, {n}, {n}, skip, skip');
      RelinkedList(old(mem), mem, free, t, n);
    }

    /** The free left neighbour l absorbs block a, which leaves the free list if it had a place in it. */
    method MergeLeft(b: int, l: int, a: int, merged: bool, ghost t: map<int, Tile>, ghost free: seq<int>, ghost i: nat)
      requires Tiled(t, b + PAGE_HEADER, b + PAGE_SIZE) && ListIn(free, t) && PageCore(w, mem, b, t, free, {})
      requires a in t && l in t && l + t[l].size == a && t[l].free && t[a].free == merged
      requires merged ==> i < |free| && free[i] == a
      modifies this`mem
      ensures PageCore(w, mem, b, Absorb(Mark(t, l, true), l), if merged then RemoveAt(free, i) else free, {})
      ensures PageStep(w, old(mem), mem, b, Absorb(Mark(t, l, true), l))
      ensures mem.pages[b].freeSize == old(mem.pages[b].freeSize)
      ensures a in mem.blocks && mem.blocks[a].magic == 0
    {
      assert BlockRep(w, mem, b, a, t[a].size, merged) && BlockRep(w, mem, b, l, t[l].size, true);
      SetBlock(l, mem.blocks[l].(size := mem.blocks[l].size + mem.blocks[a].size), b, t);
      ghost var m1 := mem;
      TilesRepFrame(w, old(mem), m1, b, t, {l}, {}, {}, {l});
      RelinkedList(old(mem), m1, free, t, l);
      EraseAndMark(l, a, l + mem.blocks[l].size - w, b, t, free, {l}, {l, a});
      ghost var m2 := mem;
      FrameCompose(w, old(mem), m1, m2, b, t, {l}, {}, {a}, {a}, {l, a}, {a});
      if merged {
        Unlink(b, a, t, free, i, {l, a});
        FrameCompose(w, old(mem), m2, mem, b, t, {l, a}, {a}, Near(free, i), {}, {l, a} + Near(free, i), {a});
        assert l in Near(free, i) ==> SameButLinks(m2.blocks[l], mem.blocks[l]);
        AbsorbedRep(w, old(mem), mem, b, t, l, {l, a} + Near(free, i), {a});
      } else {
        AbsorbedRep(w, old(mem), mem, b, t, l, {l, a}, {a});
      }
    }

    /** Block a has no free neighbour: it goes to the front of the free list. */
    method EnterList(b: int, a: int, ghost t: map<int, Tile>, ghost free: seq<int>)
      requires Tiled(t, b + PAGE_HEADER, b + PAGE_SIZE) && ListIn(free, t) && PageCore(w, mem, b, t, free, {})
      requires a in t && !t[a].free && a !in free && a != 0
      modifies this`mem
      ensures PageCore(w, mem, b, Mark(t, a, true), [a] + free, {})
      ensures PageStep(w, old(mem), mem, b, Mark(t, a, true))
      ensures mem.pages[b].freeSize == old(mem.pages[b].freeSize)
      ensures a in mem.blocks && mem.blocks[a].isFree
    {
      ghost var heads := {a} + Near([a] + free, 0);
      assert BlockRep(w, mem, b, a, t[a].size, false);
      Prepend(b, a, t, free);
      ghost var m1 := mem;
      SetEnd(a + mem.blocks[a].size - w, mem.blocks[a].size, a, b, t);
      FrameCompose(w, old(mem), m1, mem, b, t, heads, {}, {}, {a}, heads, {a});
      TilesRepFrame(w, old(mem), mem, b, t, heads, {a}, {}, {a});
      PrependedIn(free, t, a);
      LinkedFrame(w, m1, mem, b, t, [a] + free, {}, {a});
      FreedRep(w, old(mem), mem, b, t, a, heads);
    }

    /** Looks right of block a and absorbs a free neighbour. */
    method TryMergeRight(b: int, a: int, ghost pg: PageView) returns (merged: bool)
      requires PageOk(b, pg) && PageCore(w, mem, b, pg.tiles, pg.free, {}) && 0 < b
      requires a in pg.tiles && !pg.tiles[a].free
      modifies this`mem
      ensures merged == MergesRight(pg.tiles, b + PAGE_SIZE, a)
      ensures !merged ==> mem == old(mem)
      ensures PageCore(w, mem, b, if merged then GrownRight(pg.tiles, b + PAGE_SIZE, a) else pg.tiles,
        if merged then pg.free[IndexOf(pg.free, a + pg.tiles[a].size) := a] else pg.free, {})
      ensures merged ==> PageStep(w, old(mem), mem, b, GrownRight(pg.tiles, b + PAGE_SIZE, a))
      ensures mem.pages[b].freeSize == old(mem.pages[b].freeSize)
    {
      assert BlockRep(w, mem, b, a, pg.tiles[a].size, false);
      assert Joined(pg.tiles, b + PAGE_HEADER, b + PAGE_SIZE, a);
      merged := false;
      var next := a + mem.blocks[a].size;
      if next + BLOCK_HEADER < mem.blocks[a].page + PAGE_SIZE {
        assert BlockRep(w, mem, b, next, pg.tiles[next].size, pg.tiles[next].free);
        if mem.blocks[next].magic != MAGIC || mem.blocks[next].page == 0 {
          assert false;
        }
        if mem.blocks[next].isFree {
          MergeRight(b, a, next, pg.tiles, pg.free, IndexOf(pg.free, next));
          merged := true;
        }
      }
    }

    /** Looks at the size word left of block a and lets a free neighbour absorb it. */
    method TryMergeLeft(b: int, a: int, merged: bool, ghost t: map<int, Tile>, ghost free: seq<int>, ghost i: nat)
        returns (absorbed: bool)
      requires Tiled(t, b + PAGE_HEADER, b + PAGE_SIZE) && ListIn(free, t) && PageCore(w, mem, b, t, free, {}) && 0 < b
      requires a in t && t[a].free == merged && (merged ==> i < |free| && free[i] == a)
      modifies this`mem
      ensures absorbed == MergesLeft(t, b + PAGE_HEADER, b + PAGE_SIZE, a)
      ensures absorbed ==>
        var t' := Absorb(t, LeftOf(t, b + PAGE_HEADER, b + PAGE_SIZE, a));
        PageCore(w, mem, b, t', if merged then RemoveAt(free, i) else free, {}) && PageStep(w, old(mem), mem, b, t')
      ensures absorbed ==> mem.pages[b].freeSize == old(mem.pages[b].freeSize)
      ensures absorbed ==> a in mem.blocks && Rejected(mem.blocks[a])
      ensures !absorbed ==> mem == old(mem)
    {
      absorbed := false;
      assert BlockRep(w, mem, b, a, t[a].size, merged);
      if a != mem.blocks[a].page + PAGE_HEADER {
        ghost var left := LeftOf(t, b + PAGE_HEADER, b + PAGE_SIZE, a);
        assert BlockRep(w, mem, b, left, t[left].size, t[left].free);
        var sz := mem.ends[a - w];
        if sz != 0 {
          var l := a - sz;
          if mem.blocks[l].magic != MAGIC || mem.blocks[l].page == 0 || !mem.blocks[l].isFree {
            assert false;
          }
          MergeLeft(b, l, a, merged, t, free, i);
          assert Mark(t, l, true) == t;
          absorbed := true;
        }
      }
    }

    /** The second half of a release, when block a did not absorb its right neighbour. */
    method JoinLeftOrEnter(b: int, a: int, ghost pg: PageView)
      requires PageOk(b, pg) && PageCore(w, mem, b, pg.tiles, pg.free, {}) && 0 < b
      requires a in pg.tiles && !pg.tiles[a].free && !MergesRight(pg.tiles, b + PAGE_SIZE, a)
      modifies this`mem
      ensures var pg' := Release(pg, b + PAGE_HEADER, b + PAGE_SIZE, a);
        PageCore(w, mem, b, pg'.tiles, pg'.free, {}) && PageStep(w, old(mem), mem, b, pg'.tiles)
      ensures mem.pages[b].freeSize == old(mem.pages[b].freeSize)
      ensures a in mem.blocks && Rejected(mem.blocks[a])
    {
      PageListIn(b, pg);
      var absorbed := TryMergeLeft(b, a, false, pg.tiles, pg.free, 0);
      if absorbed {
        AbsorbedUnmarked(pg.tiles, b + PAGE_HEADER, b + PAGE_SIZE, a);
      } else {
        EnterList(b, a, pg.tiles, pg.free);
      }
    }

    /** The second half of a release, when block a took the list place of its right neighbour. */
    method JoinLeft(b: int, a: int, ghost pg: PageView, ghost i: nat)
      requires PageOk(b, pg) && a in pg.tiles && !pg.tiles[a].free && MergesRight(pg.tiles, b + PAGE_SIZE, a) && 0 < b
      requires i == IndexOf(pg.free, a + pg.tiles[a].size)
      requires PageCore(w, mem, b, GrownRight(pg.tiles, b + PAGE_SIZE, a), pg.free[i := a], {})
      modifies this`mem
      ensures var pg' := Release(pg, b + PAGE_HEADER, b + PAGE_SIZE, a);
        PageCore(w, mem, b, pg'.tiles, pg'.free, {}) && PageStep(w, old(mem), mem, b, pg'.tiles)
      ensures mem.pages[b].freeSize == old(mem.pages[b].freeSize)
      ensures a in mem.blocks && Rejected(mem.blocks[a])
    {
      GrownReady(pg.tiles, b + PAGE_HEADER, b + PAGE_SIZE, a);
      GrownListIn(b, pg, a, i);
      var absorbed := TryMergeLeft(b, a, true, GrownRight(pg.tiles, b + PAGE_SIZE, a), pg.free[i := a], i);
      if !absorbed {
        PageStepSame(w, mem, b, GrownRight(pg.tiles, b + PAGE_SIZE, a));
        GrownRep(w, mem, b, pg.tiles, a);
      }
    }

    /** Joins block a with its free neighbours or lists it. */
    method JoinNeighbours(b: int, a: int, ghost pg: PageView)
      requires PageOk(b, pg) && PageCore(w, mem, b, pg.tiles, pg.free, {}) && 0 < b
      requires a in pg.tiles && !pg.tiles[a].free
      modifies this`mem
      ensures var pg' := Release(pg, b + PAGE_HEADER, b + PAGE_SIZE, a);
        PageCore(w, mem, b, pg'.tiles, pg'.free, {}) && PageStep(w, old(mem), mem, b, pg'.tiles)
      ensures mem.pages[b].freeSize == old(mem.pages[b].freeSize)
      ensures a in mem.blocks && Rejected(mem.blocks[a])
    {
      var merged := TryMergeRight(b, a, pg);
      if merged {
        ghost var m1 := mem;
        ghost var final := ReleaseTiles(pg.tiles, b + PAGE_HEADER, b + PAGE_SIZE, a);
        ReleaseLoses(pg.tiles, b + PAGE_HEADER, b + PAGE_SIZE, a);
        GrownRightLoses(pg.tiles, b + PAGE_SIZE, a);
        PageStepWithin(w, old(mem), m1, b, pg.tiles, GrownRight(pg.tiles, b + PAGE_SIZE, a), final, a);
        JoinLeft(b, a, pg, IndexOf(pg.free, a + pg.tiles[a].size));
        PageStepCompose(w, old(mem), m1, mem, b, final);
      } else {
        JoinLeftOrEnter(b, a, pg);
      }
    }

    /** Counts the n bytes of block a as free again. */
    method AddFreeSize(b: int, n: int, ghost pg: PageView, ghost final: map<int, Tile>, ghost a: int)
      requires PageOk(b, pg) && PageCore(w, mem, b, pg.tiles, pg.free, {}) && 0 < b && Gains(final, pg.tiles, a)
      modifies this`mem
      ensures PageCore(w, mem, b, pg.tiles, pg.free, {}) && PageStep(w, old(mem), mem, b, final)
      ensures mem.pages[b].freeSize == old(mem.pages[b].freeSize) + n
    {
      SetPage(b, mem.pages[b].(freeSize := mem.pages[b].freeSize + n), pg.tiles);
      PageListIn(b, pg);
      PageCoreSame(w, old(mem), mem, b, pg.tiles, pg.free);
      PageStepWithin(w, old(mem), mem, b, pg.tiles, pg.tiles, final, a);
    }

    /** Returns the small block a to its page. */
    method ReleaseBlock(a: int, ghost b: int, ghost pg: PageView)
      requires PageOk(b, pg) && PageRep(w, mem, b, pg) && 0 < b
      requires a in pg.tiles && !pg.tiles[a].free
      modifies this`mem
      ensures var pg' := Release(pg, b + PAGE_HEADER, b + PAGE_SIZE, a);
        PageRep(w, mem, b, pg') && PageStep(w, old(mem), mem, b, pg'.tiles)
      ensures a in mem.blocks && Rejected(mem.blocks[a])
    {
      ghost var final := ReleaseTiles(pg.tiles, b + PAGE_HEADER, b + PAGE_SIZE, a);
      assert BlockRep(w, mem, b, a, pg.tiles[a].size, false);
      var page := mem.blocks[a].page;
      ReleaseLoses(pg.tiles, b + PAGE_HEADER, b + PAGE_SIZE, a);
      AddFreeSize(page, mem.blocks[a].size, pg, final, a);
      ghost var m1 := mem;
      JoinNeighbours(page, a, pg);
      PageStepCompose(w, old(mem), m1, mem, b, final);
      ReleasedPageRep(w, mem, b, pg, a);
    }

    // ----- the page list -----

    ghost predicate Valid()
      reads this
    {
      Inv(w, view) && HeapRep(w, mem, view, pageList)
    }

    method WritePage(b: int, h: PageHdr)
      modifies this`mem
      ensures Kept(w, old(mem), mem, b, b + PageBytes(w)) && b in mem.pages && mem.pages[b] == h
    {
      mem := PutPage(w, mem, b, h);
    }

    /** Sets up the records of one block that fills the page at base. */
    method InitBlock(base: int)
      modifies this`mem
      ensures Kept(w, old(mem), mem, base + PAGE_HEADER, base + PAGE_SIZE)
      ensures BlockRep(w, mem, base, base + PAGE_HEADER, PAGE_SIZE - PAGE_HEADER, true)
      ensures mem.blocks[base + PAGE_HEADER].next == 0 && mem.blocks[base + PAGE_HEADER].prev == 0
    {
      var a, size := base + PAGE_HEADER, PAGE_SIZE - PAGE_HEADER;
      mem := PutBlock(w, mem, a, BlockHdr(MAGIC, size, true, false, base, 0, 0));
      ghost var m1 := mem;
      mem := PutEnd(w, mem, a + size - w, size);
      KeptCompose(w, old(mem), m1, mem, a, a + BlockBytes(w), a + size - w, a + size, a, base + PAGE_SIZE);
    }

    /** Writes the header of a new first page and points the old first page back to it. */
    method LinkPage(base: int, ghost v: View)
      requires Inv(w, v) && HeapRep(w, mem, v, pageList) && Fresh(v, base, 1)
      modifies this`mem, this`pageList
      ensures PageLinked(w, v, old(mem), mem, old(pageList), base) && pageList == base
    {
      ghost var m, first := mem, pageList;
      FirstListed(w, v, m, first);
      FreshAway(w, v, base, first);
      var numPages := if base in mem.pages then mem.pages[base].numPages else 0;
      WritePage(base, PageHdr(MAGIC, PAGE_SIZE - PAGE_HEADER, 0, numPages, pageList, 0));
      ghost var m1 := mem;
      FreshWriteHeader(w, v, m, m1, base);
      WritePage(pageList, mem.pages[pageList].(prev := base));
      FirstRelinked(w, v, m1, mem, first, base);
      LiveKeptCompose(m, m1, mem, v.live);
      pageList := base;
    }

    /** Puts the entirely free page at base on the front of the page list. The number of
        pages in its header is left as it was. */
    method PushPage(base: int, ghost v: View)
      requires Inv(w, v) && HeapRep(w, mem, v, pageList) && Fresh(v, base, 1)
      modifies this`mem, this`pageList
      ensures Inv(w, AddPage(v, base)) && HeapRep(w, mem, AddPage(v, base), pageList)
      ensures LiveKept(old(mem), mem, v.live) && NumPagesKept(old(mem), mem, v, base)
    {
      ghost var m, first := mem, pageList;
      LinkPage(base, v);
      ghost var m2 := mem;
      FinishPage(base);
      FinishedHeap(w, v, m, m2, mem, first, base);
    }

    /** Sets up the only block of the page at base, whose header is in place. */
    method FinishPage(base: int)
      requires base in mem.pages && mem.pages[base].magic == MAGIC && mem.pages[base].freeSize == PAGE_SIZE - PAGE_HEADER
      requires PageBase(base)
      modifies this`mem
      ensures Kept(w, old(mem), mem, base, base + PAGE_SIZE) && PageRep(w, mem, base, FreshPage(base))
      ensures mem.pages[base] == old(mem.pages[base]).(blockList := base + PAGE_HEADER)
    {
      InitBlock(base);
      ghost var m1 := mem;
      WritePage(base, mem.pages[base].(blockList := base + PAGE_HEADER));
      KeptCompose(w, old(mem), m1, mem, base + PAGE_HEADER, base + PAGE_SIZE, base, base + PageBytes(w), base, base + PAGE_SIZE);
      FreshPageSum(base);
    }

    // ----- malloc -----

    /** Start-up: the first page from the firmware, entirely free. */
    constructor (w: WordSize, base: int)
      requires PageBase(base)
      ensures Valid() && this.w == w && view == HeapRuns.Init(base)
    {
      this.w := w;
      mem := Mem(map[], map[], map[], map[]);
      pageList := base;
      view := HeapRuns.Init(base);
      new;
      WritePage(base, PageHdr(MAGIC, PAGE_SIZE - PAGE_HEADER, 0, 0, 0, 0));
      FinishPage(base);
      InitInv(w, base);
      assert ListedRep(w, mem, view, base);
    }

    /** Serves a request of sz bytes from page b, or returns 0 when the page has no room. */
    method ServeFrom(b: int, n: int, sz: int) returns (p: int)
      requires Valid() && b in view.pages
      requires 0 < sz && sz + BLOCK_HEADER + w <= n && Multiple16(n)
      modifies this`mem, this`view
      ensures Valid() && LiveKept(old(mem), mem, old(view.live))
      ensures if HasRoom(old(view).pages[b], n)
        then p != 0 && p == Taken(old(view), b, n) && view == TakeFrom(old(view), b, n, sz)
        else p == 0 && view == old(view) && mem == old(mem)
    {
      ghost var v, m := view, mem;
      assert ListedRep(w, mem, view, b) && PageOk(b, view.pages[b]);
      p := AllocBlockInPage(b, n, view.pages[b]);
      if p != 0 {
        view := TakeFrom(view, b, n, sz);
        TakeFromKeepsInv(w, v, b, n, sz);
        PageStepHeap(w, v, m, mem, b, v.pages[b].tiles, view, pageList);
        PageStepLive(w, v, m, mem, b);
      }
    }

    /** The first listed page that serves the request; 0 when none does. */
    method ServeFromList(n: int, sz: int) returns (p: int)
      requires Valid() && 0 < sz && sz + BLOCK_HEADER + w <= n && Multiple16(n)
      modifies this`mem, this`view
      ensures Valid() && LiveKept(old(mem), mem, old(view.live))
      ensures var i := FirstPage(old(view).pages, old(view).order, n);
        if i < |old(view).order|
        then p != 0 && p == Taken(old(view), old(view).order[i], n) && view == TakeFrom(old(view), old(view).order[i], n, sz)
        else p == 0 && view == old(view) && mem == old(mem)
    {
      var curPage := pageList;
      ghost var i := 0;
      ghost var order := view.order;
      while curPage != 0
        invariant mem == old(mem) && view == old(view)
        invariant i <= |order| && curPage == Item(order, i)
        invariant forall k | 0 <= k < i :: order[k] in view.pages && !HasRoom(view.pages[order[k]], n)
        decreases |order| - i
      {
        assert PageNode(mem, order, i) && ListedRep(w, mem, view, curPage);
        if mem.pages[curPage].magic != MAGIC {
          assert false;
        }
        NoRoomBySum(curPage, view.pages[curPage], n);
        if mem.pages[curPage].freeSize >= n {
          p := ServeFrom(curPage, n, sz);
          if p != 0 {
            return;
          }
        }
        curPage, i := mem.pages[curPage].next, i + 1;
      }
      p := 0;
    }

    /** Sets up n pages from base on as one large block in use. */
    method InitLarge(base: int, n: int)
      requires PageBase(base) && 0 < n
      modifies this`mem
      ensures Kept(w, old(mem), mem, base, base + Bytes(n)) && LargeRep(mem, base, n)
    {
      var a := base + PAGE_HEADER;
      WritePage(base, PageHdr(MAGIC, 0, 0, n, 0, 0));
      ghost var m1 := mem;
      InitBlock(base);
      ghost var m2 := mem;
      KeptCompose(w, old(mem), m1, m2, base, base + PageBytes(w), base + PAGE_HEADER, base + PAGE_SIZE, base, base + Bytes(n));
      MarkLarge(base, n);
      KeptCompose(w, old(mem), m2, mem, base, base + Bytes(n), a, base + Bytes(n), base, base + Bytes(n));
    }

    /** Turns the block of a page into a used block of n pages. */
    method MarkLarge(base: int, n: int)
      requires 0 < n && base + PAGE_HEADER in mem.blocks
      modifies this`mem
      ensures Kept(w, old(mem), mem, base + PAGE_HEADER, base + Bytes(n))
      ensures base + PAGE_HEADER in mem.blocks && mem.blocks[base + PAGE_HEADER]
        == old(mem.blocks[base + PAGE_HEADER]).(size := LargeSize(n), isLarge := true, isFree := false)
    {
      var a := base + PAGE_HEADER;
      var size := LargeSize(n);
      mem := PutBlock(w, mem, a, mem.blocks[a].(size := size, isLarge := true, isFree := false));
      ghost var m1 := mem;
      mem := PutEnd(w, mem, a + size - w, size);
      KeptCompose(w, old(mem), m1, mem, a, a + BlockBytes(w), a + size - w, a + size, a, base + Bytes(n));
    }

    /** malloc. The answer of the firmware, if it is asked, is grant; asked is the number of
        pages it is asked for. */
    method Malloc(sz: int, grant: int) returns (p: int, asked: int)
      requires Valid() && MallocOk(w, view, sz, grant)
      modifies this
      ensures Valid() && (view, p) == HeapRuns.Malloc(w, old(view), sz, grant)
      ensures asked == Asked(w, old(view), sz)
      ensures InNumbers(w, old(view), sz, grant, asked, view, p)
      ensures LiveKept(old(mem), mem, old(view.live))
    {
      ghost var v := view;
      MallocInNumbers(w, v, sz, grant);
      if sz == 0 {
        return 0, 0;
      }
      var n := AlignSize(w, sz);
      AlignedSize(w, sz);
      if IsLarge(w, n) {
        asked := PageCount(w, n);
        if grant == 0 {
          return 0, asked;
        }
        p := MallocLarge(grant, asked, sz);
        return;
      }
      p := ServeFromList(n, sz);
      if p != 0 {
        return p, 0;
      }
      asked := 1;
      if grant == 0 {
        return 0, asked;
      }
      FreshPageOk(view, grant, n);
      ghost var m := mem;
      PushPage(grant, view);
      view := AddPage(view, grant);
      ghost var m1 := mem;
      p := ServeFrom(grant, n, sz);
      LiveKeptCompose(m, m1, mem, v.live);
    }

    /** Hands out n fresh pages as one allocation. */
    method MallocLarge(base: int, n: int, sz: int) returns (p: int)
      requires Valid() && Fresh(view, base, n) && 0 < sz && sz + PAGE_HEADER + BLOCK_HEADER + w <= Bytes(n)
      modifies this`mem, this`view
      ensures Valid() && LiveKept(old(mem), mem, old(view.live))
      ensures p == base + PAGE_HEADER + BLOCK_HEADER
      ensures view == old(view).(large := old(view).large[base := n], live := old(view).live[p := sz])
    {
      ghost var v, m := view, mem;
      p := base + PAGE_HEADER + BLOCK_HEADER;
      InitLarge(base, n);
      FreshWrite(w, v, m, mem, base, n);
      view := v.(large := v.large[base := n], live := v.live[p := sz]);
      LargeKeepsInv(w, v, base, n, sz);
      LargeAdded(w, m, mem, v, view, base, pageList);
    }

    // ----- free -----

    /** Puts the n pages from base on on the page list one by one; the count is read from the
        header of the first of them before every step. */
    method ListPages(base: int, ghost n: int, ghost v: View, ghost m: Mem)
      requires Listing(w, v, m, mem, pageList, base, n, 0)
      modifies this`mem, this`pageList
      ensures Listing(w, v, m, mem, pageList, base, n, n)
    {
      var curPage, i := base, 0;
      while i < mem.pages[base].numPages
        invariant 0 <= i <= n && curPage == base + Bytes(i) && base in mem.pages && mem.pages[base].numPages == n
        invariant Listing(w, v, m, mem, pageList, base, n, i)
        decreases n - i
      {
        curPage, i := ListNextPage(curPage, i, base, n, v, m);
      }
      assert i == n;
    }

    method ListNextPage(curPage: int, i: nat, ghost base: int, ghost n: int, ghost v: View, ghost m: Mem)
        returns (curPage': int, i': nat)
      requires Listing(w, v, m, mem, pageList, base, n, i)
      requires i < n && curPage == base + Bytes(i)
      modifies this`mem, this`pageList
      ensures i' == i + 1 && curPage' == base + Bytes(i')
      ensures base in mem.pages && mem.pages[base].numPages == n
      ensures Listing(w, v, m, mem, pageList, base, n, i')
    {
      NextFresh(w, v, base, n, i);
      ghost var before := mem;
      PushPage(curPage, AddPages(v, base, i));
      LiveKeptCompose(m, before, mem, v.live);
      assert AddPages(v, base, i + 1) == AddPage(AddPages(v, base, i), base + Bytes(i));
      return curPage + PAGE_SIZE, i + 1;
    }

    /** Turns a large allocation back into single free pages on the page list. */
    method FreeLarge(base: int, ghost p: int)
      requires Valid() && HoldsLarge(w, view, p) && base == p - BLOCK_HEADER - PAGE_HEADER
      modifies this
      ensures Valid() && view == HeapRuns.Free(w, old(view), p)
      ensures LiveKept(old(mem), mem, view.live)
      ensures base + PAGE_HEADER in mem.blocks && Rejected(mem.blocks[base + PAGE_HEADER])
    {
      ghost var v, n := view, view.large[base];
      assert LargeRep(mem, base, n);
      view := v.(large := v.large - {base}, live := v.live - {p});
      ghost var v1 := view;
      DropLargeKeepsInv(w, v, p);
      LargeDropped(w, mem, v, v1, base, pageList);
      ListPages(base, n, v1, mem);
      view := AddPages(v1, base, n);
      ListedLive(v1, base, n);
      FirstFreed(w, v1, mem, base, n);
    }

    /** Gives a block back to the page it lies in. */
    method FreeSmall(a: int, ghost p: int)
      requires Valid() && p in view.live && !HoldsLarge(w, view, p) && p != 0 && a == p - BLOCK_HEADER
      modifies this`mem, this`view
      ensures Valid() && view == HeapRuns.Free(w, old(view), p)
      ensures LiveKept(old(mem), mem, view.live)
      ensures a in mem.blocks && Rejected(mem.blocks[a])
    {
      ghost var v, m, b := view, mem, PageOf(w, view, p);
      assert ListedRep(w, m, v, b) && PageOk(b, v.pages[b]);
      ReleaseBlock(a, b, v.pages[b]);
      view := HeapRuns.Free(w, v, p);
      FreeKeepsInv(w, v, p);
      PageStepHeap(w, v, m, mem, b, view.pages[b].tiles, view, pageList);
      PageStepLive(w, view, m, mem, b);
    }

    /** free. The result is false when the header is rejected and the loader stops. */
    method Free(p: int) returns (ok: bool)
      requires Valid()
      requires p != 0 ==> p - BLOCK_HEADER in mem.blocks || p in view.live
      requires p != 0 && p !in view.live ==> Rejected(mem.blocks[p - BLOCK_HEADER])
      modifies this
      ensures Valid() && (ok <==> p == 0 || p in old(view.live))
      ensures ok ==> view == HeapRuns.Free(w, old(view), p) && LiveKept(old(mem), mem, view.live)
      ensures ok && p != 0 ==>
        p !in view.live && p - BLOCK_HEADER in mem.blocks && Rejected(mem.blocks[p - BLOCK_HEADER])
      ensures !ok ==> mem == old(mem) && view == old(view)
    {
      if p == 0 {
        return true;
      }
      LiveHeader(w, mem, view, p);
      var a := p - BLOCK_HEADER;
      if mem.blocks[a].magic != MAGIC || mem.blocks[a].page == 0 || mem.blocks[a].isFree {
        return false;
      }
      ok := true;
      FreeKeepsInv(w, view, p);
      if mem.blocks[a].isLarge {
        var page := a - PAGE_HEADER;
        if mem.pages[page].magic != MAGIC {
          assert false;
        }
        FreeLarge(page, p);
        return;
      }
      FreeSmall(a, p);
    }

    /** Freeing the same pointer twice in a row is always detected. */
    method FreeTwice(p: int) returns (second: bool)
      requires Valid() && p in view.live && p != 0
      modifies this
      ensures !second
    {
      var first := Free(p);
      second := Free(p);
    }

    /** The program stores x at byte k of one of its live allocations. */
    method Store(ghost p: int, k: int, x: int)
      requires Valid() && p in view.live && InPayload(view, p, k)
      modifies this`mem
      ensures Valid() && view == old(view)
      ensures k in mem.bytes && mem.bytes[k] == x
      ensures forall y | y in old(mem.bytes) && y != k :: y in mem.bytes && mem.bytes[y] == old(mem.bytes[y])
    {
      ghost var m := mem;
      mem := PutByte(w, mem, k, x);
      StoreKeepsHeap(w, m, mem, view, pageList, p, k);
    }
  }
}
