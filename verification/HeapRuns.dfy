/** The whole boot heap as a value: what malloc and free do to it, and what
    holds after every sequence of requests. */
module HeapRuns {
  import opened HeapSizes
  import opened HeapView

  // ----- what a well-formed heap is -----

  predicate PageBase(b: int) {
    0 < b && b % 4096 == 0
  }

  /** Bytes in n pages. */
  function Bytes(n: int): int {
    4096 * n
  }

  /** The block before pointer p is in use in the listed page b. */
  predicate UsedTile(v: View, b: int, p: int) {
    && b in v.pages
    && p - BLOCK_HEADER in v.pages[b].tiles
    && !v.pages[b].tiles[p - BLOCK_HEADER].free
  }

  /** Pointer p lies in page b, and its request and the end word fit its block. */
  predicate HoldsSmall(w: WordSize, v: View, b: int, p: int) {
    UsedTile(v, b, p) && p in v.live && v.live[p] + BLOCK_HEADER + w <= v.pages[b].tiles[p - BLOCK_HEADER].size
  }

  predicate HoldsLarge(w: WordSize, v: View, p: int) {
    && p - BLOCK_HEADER - PAGE_HEADER in v.large && p in v.live
    && v.live[p] + PAGE_HEADER + BLOCK_HEADER + w <= Bytes(v.large[p - BLOCK_HEADER - PAGE_HEADER])
  }

  ghost predicate Backed(w: WordSize, v: View, p: int)
    requires p in v.live
  {
    0 < v.live[p] && (HoldsLarge(w, v, p) || exists b :: HoldsSmall(w, v, b, p))
  }

  /** The live pointers are exactly the blocks in use. */
  ghost predicate LiveExact(w: WordSize, v: View) {
    && (forall p {:trigger Backed(w, v, p)} | p in v.live :: Backed(w, v, p))
    && (forall b, p | UsedTile(v, b, p) :: p in v.live)
    && (forall b | b in v.large :: b + PAGE_HEADER + BLOCK_HEADER in v.live)
  }

  /** No two pages or large allocations share a byte. */
  ghost predicate Apart(v: View) {
    && (forall b, c | b in v.pages && c in v.pages && b < c :: b + PAGE_SIZE <= c)
    && (forall b, c | b in v.pages && c in v.large :: b + PAGE_SIZE <= c || c + Bytes(v.large[c]) <= b)
    && (forall b, c | b in v.large && c in v.large && b < c :: b + Bytes(v.large[b]) <= c)
  }

  ghost predicate ListsPages(v: View) {
    && v.order != []
    && NoDuplicates(v.order)
    && (forall i | 0 <= i < |v.order| :: v.order[i] in v.pages)
    && (forall b | b in v.pages :: b in v.order)
  }

  ghost predicate PagesOk(v: View) {
    && (forall b | b in v.pages :: PageBase(b) && PageOk(b, v.pages[b]))
    && (forall b | b in v.large :: PageBase(b) && 0 < v.large[b])
  }

  ghost predicate Inv(w: WordSize, v: View) {
    ListsPages(v) && PagesOk(v) && Apart(v) && LiveExact(w, v)
  }

  // ----- what the requests do -----

  /** n pages from base on are the program's to use and overlap nothing. */
  ghost predicate Fresh(v: View, base: int, n: int) {
    && PageBase(base) && 0 < n
    && (forall c | c in v.pages :: c + PAGE_SIZE <= base || base + Bytes(n) <= c)
    && (forall c | c in v.large :: c + Bytes(v.large[c]) <= base || base + Bytes(n) <= c)
  }

  function FreshPage(base: int): PageView {
    PageView(map[base + PAGE_HEADER := Tile(PAGE_SIZE - PAGE_HEADER, true)], [base + PAGE_HEADER])
  }

  /** Puts an entirely free page at the front of the page list. */
  function AddPage(v: View, base: int): View {
    v.(order := [base] + v.order, pages := v.pages[base := FreshPage(base)])
  }

  function AddPages(v: View, base: int, n: nat): View {
    if n == 0 then v else AddPage(AddPages(v, base, n - 1), base + Bytes(n - 1))
  }

  predicate HasRoom(pg: PageView, n: int)
  {
    FirstFit(pg.tiles, pg.free, n) < |pg.free|
  }

  /** Position in the page list of the first page with a block of n bytes, or its length. */
  function FirstPage(pages: map<int, PageView>, order: seq<int>, n: int): (i: nat)
    ensures i <= |order|
    ensures i < |order| ==> order[i] in pages && HasRoom(pages[order[i]], n)
    ensures forall k | 0 <= k < i :: order[k] in pages ==> !HasRoom(pages[order[k]], n)
  {
    if order == [] || (order[0] in pages && HasRoom(pages[order[0]], n)) then 0 else 1 + FirstPage(pages, order[1..], n)
  }

  /** Takes the first fitting block of page b for a request of sz bytes. */
  function TakeFrom(v: View, b: int, n: int, sz: int): View
    requires b in v.pages && HasRoom(v.pages[b], n)
  {
    var pg := v.pages[b];
    var j := FirstFit(pg.tiles, pg.free, n);
    v.(pages := v.pages[b := Take(pg, j, n)], live := v.live[pg.free[j] + BLOCK_HEADER := sz])
  }

  function Taken(v: View, b: int, n: int): int
    requires b in v.pages && HasRoom(v.pages[b], n)
  {
    v.pages[b].free[FirstFit(v.pages[b].tiles, v.pages[b].free, n)] + BLOCK_HEADER
  }

  lemma FreshPageOk(v: View, base: int, n: int)
    requires PageBase(base) && BLOCK_HEADER <= n <= PAGE_SIZE - PAGE_HEADER
    ensures PageOk(base, FreshPage(base))
    ensures HasRoom(FreshPage(base), n)
  {
    var t := FreshPage(base).tiles;
    var lo := base + PAGE_HEADER;
    PageBaseAligned(base);
    forall a {:trigger Joined(t, lo, base + PAGE_SIZE, a)} | a in t ensures Joined(t, lo, base + PAGE_SIZE, a) {}
    forall a {:trigger Merged(t, base + PAGE_SIZE, a)} | a in t ensures Merged(t, base + PAGE_SIZE, a) {}
    assert FreshPage(base).free[0] == lo;
  }

  /** Pages asked from the firmware by a request of sz bytes. */
  function Asked(w: WordSize, v: View, sz: int): nat
    requires 0 <= sz
  {
    var n := AlignSize(w, sz);
    if sz == 0 then 0
    else if IsLarge(w, n) then PageCount(w, n)
    else if FirstPage(v.pages, v.order, n) < |v.order| then 0
    else 1
  }

  /** A request within the limit; the firmware's answer is null or as many fresh pages as asked. */
  ghost predicate MallocOk(w: WordSize, v: View, sz: int, grant: int) {
    && Inv(w, v) && 0 <= sz <= RequestLimit(w) && 0 <= grant
    && (grant != 0 ==> Fresh(v, grant, if Asked(w, v, sz) == 0 then 1 else Asked(w, v, sz)))
  }

  /** malloc: the heap after a request of sz bytes and the pointer returned, where grant is
      what the firmware answers if it is asked. */
  ghost function Malloc(w: WordSize, v: View, sz: int, grant: int): (View, int)
    requires MallocOk(w, v, sz, grant)
  {
    var n := AlignSize(w, sz);
    if sz == 0 then (v, 0)
    else if IsLarge(w, n) then
      if grant == 0 then (v, 0)
      else
        var p := grant + PAGE_HEADER + BLOCK_HEADER;
        (v.(large := v.large[grant := PageCount(w, n)], live := v.live[p := sz]), p)
    else
      var i := FirstPage(v.pages, v.order, n);
      if i < |v.order| then (TakeFrom(v, v.order[i], n, sz), Taken(v, v.order[i], n))
      else if grant == 0 then (v, 0)
      else
        BlockCoversIff(w, sz);
        FreshPageOk(v, grant, n);
        (TakeFrom(AddPage(v, grant), grant, n, sz), Taken(AddPage(v, grant), grant, n))
  }

  /** The page that holds the block of a small live pointer. */
  ghost function PageOf(w: WordSize, v: View, p: int): (b: int)
    requires LiveExact(w, v) && p in v.live && !HoldsLarge(w, v, p)
    ensures HoldsSmall(w, v, b, p)
  {
    assert Backed(w, v, p);
    var b :| HoldsSmall(w, v, b, p); b
  }

  /** free: the heap after pointer p is given back. */
  ghost function Free(w: WordSize, v: View, p: int): View
    requires Inv(w, v) && (p == 0 || p in v.live)
  {
    var base := p - BLOCK_HEADER - PAGE_HEADER;
    if p == 0 then v
    else if HoldsLarge(w, v, p) then
      AddPages(v.(large := v.large - {base}, live := v.live - {p}), base, v.large[base])
    else
      var b := PageOf(w, v, p);
      v.(pages := v.pages[b := Release(v.pages[b], b + PAGE_HEADER, b + PAGE_SIZE, p - BLOCK_HEADER)],
         live := v.live - {p})
  }

  // ----- every request keeps the heap well formed -----

  /** The blocks in use of page t' are those of page t and the one at a. */
  ghost predicate Gains(t: map<int, Tile>, t': map<int, Tile>, a: int) {
    && (a !in t || t[a].free)
    && (forall x :: x in t' && !t'[x].free <==> x == a || (x in t && !t[x].free))
    && (forall x | x in t && !t[x].free :: x in t' && t'[x].size == t[x].size)
  }

  lemma FreeBlockNotLive(w: WordSize, v: View, b: int, a: int)
    requires Inv(w, v) && b in v.pages && a in v.pages[b].tiles && v.pages[b].tiles[a].free
    ensures a + BLOCK_HEADER !in v.live
  {
    assert a + BLOCK_HEADER in v.live ==> Backed(w, v, a + BLOCK_HEADER);
  }

  /** A pointer has one block: in one page, or in one large allocation. */
  lemma OneBlock(v: View, b: int, c: int, p: int)
    requires PagesOk(v) && Apart(v) && UsedTile(v, b, p)
    ensures UsedTile(v, c, p) ==> c == b
    ensures p - BLOCK_HEADER - PAGE_HEADER !in v.large
  {
  }

  lemma PageGainsBlock(w: WordSize, v: View, b: int, pg: PageView, p: int, sz: int)
    requires Inv(w, v) && b in v.pages && PageOk(b, pg) && p !in v.live
    requires Gains(v.pages[b].tiles, pg.tiles, p - BLOCK_HEADER)
    requires 0 < sz && sz + BLOCK_HEADER + w <= pg.tiles[p - BLOCK_HEADER].size
    ensures Inv(w, v.(pages := v.pages[b := pg], live := v.live[p := sz]))
  {
    var v' := v.(pages := v.pages[b := pg], live := v.live[p := sz]);
    forall q {:trigger Backed(w, v', q)} | q in v'.live ensures Backed(w, v', q) {
      if q == p {
        assert HoldsSmall(w, v', b, p);
      } else {
        assert Backed(w, v, q);
        if !HoldsLarge(w, v, q) {
          var c :| HoldsSmall(w, v, c, q);
          assert HoldsSmall(w, v', c, q);
        }
      }
    }
    forall c, q | UsedTile(v', c, q) ensures q in v'.live {
      assert q == p || UsedTile(v, c, q);
    }
  }

  lemma PageLosesBlock(w: WordSize, v: View, b: int, pg: PageView, p: int)
    requires Inv(w, v) && PageOk(b, pg) && HoldsSmall(w, v, b, p)
    requires Gains(pg.tiles, v.pages[b].tiles, p - BLOCK_HEADER)
    ensures Inv(w, v.(pages := v.pages[b := pg], live := v.live - {p}))
  {
    var v' := v.(pages := v.pages[b := pg], live := v.live - {p});
    forall q {:trigger Backed(w, v', q)} | q in v'.live ensures Backed(w, v', q) {
      LosingKeepsBacking(w, v, b, pg, p, q);
    }
    forall c, q | UsedTile(v', c, q) ensures q in v'.live {
      assert UsedTile(v, c, q);
      OneBlock(v, b, c, p);
    }
    OneBlock(v, b, b, p);
  }

  lemma LosingKeepsBacking(w: WordSize, v: View, b: int, pg: PageView, p: int, q: int)
    requires LiveExact(w, v) && HoldsSmall(w, v, b, p) && q in v.live && q != p
    requires Gains(pg.tiles, v.pages[b].tiles, p - BLOCK_HEADER)
    ensures Backed(w, v.(pages := v.pages[b := pg], live := v.live - {p}), q)
  {
    assert Backed(w, v, q);
    if !HoldsLarge(w, v, q) {
      var c :| HoldsSmall(w, v, c, q);
      assert HoldsSmall(w, v.(pages := v.pages[b := pg], live := v.live - {p}), c, q);
    }
  }

  lemma TakeGains(b: int, pg: PageView, j: nat, n: int)
    requires PageOk(b, pg) && j < |pg.free| && BLOCK_HEADER <= n <= pg.tiles[pg.free[j]].size
    ensures Gains(pg.tiles, Take(pg, j, n).tiles, pg.free[j])
    ensures n <= Take(pg, j, n).tiles[pg.free[j]].size
  {
  }

  lemma ReleaseLoses(t: map<int, Tile>, lo: int, hi: int, a: int)
    requires Tiled(t, lo, hi) && a in t && !t[a].free
    ensures Gains(ReleaseTiles(t, lo, hi, a), t, a)
  {
    GrownRightLoses(t, hi, a);
    if MergesLeft(t, lo, hi, a) {
      AbsorbKeepsUsed(GrownRight(t, hi, a), t, LeftOf(t, lo, hi, a), a);
    }
  }

  lemma GrownRightLoses(t: map<int, Tile>, hi: int, a: int)
    requires a in t && !t[a].free
    ensures Gains(GrownRight(t, hi, a), t, a)
  {
  }

  lemma AbsorbKeepsUsed(g: map<int, Tile>, t: map<int, Tile>, l: int, a: int)
    requires Gains(g, t, a) && l in g && g[l].free && l + g[l].size == a && a in g
    ensures Gains(Absorb(g, l), t, a)
  {
  }

  lemma TakeFromKeepsInv(w: WordSize, v: View, b: int, n: int, sz: int)
    requires Inv(w, v) && b in v.pages && HasRoom(v.pages[b], n)
    requires 0 < sz && sz + BLOCK_HEADER + w <= n && Multiple16(n)
    ensures Inv(w, TakeFrom(v, b, n, sz))
    ensures Taken(v, b, n) !in v.live && HoldsSmall(w, TakeFrom(v, b, n, sz), b, Taken(v, b, n))
  {
    var pg := v.pages[b];
    var j := FirstFit(pg.tiles, pg.free, n);
    FreeBlockNotLive(w, v, b, pg.free[j]);
    TakeKeepsPage(b, pg, j, n);
    TakeGains(b, pg, j, n);
    PageGainsBlock(w, v, b, Take(pg, j, n), Taken(v, b, n), sz);
  }

  lemma AddPageKeepsInv(w: WordSize, v: View, base: int)
    requires Inv(w, v) && Fresh(v, base, 1)
    ensures Inv(w, AddPage(v, base))
  {
    var v' := AddPage(v, base);
    FreshPageOk(v, base, BLOCK_HEADER);
    forall q {:trigger Backed(w, v', q)} | q in v'.live ensures Backed(w, v', q) {
      assert Backed(w, v, q);
      if !HoldsLarge(w, v, q) {
        var c :| HoldsSmall(w, v, c, q);
        assert HoldsSmall(w, v', c, q);
      }
    }
    forall c, q | UsedTile(v', c, q) ensures q in v'.live {
      assert UsedTile(v, c, q);
    }
  }

  lemma PageBaseStep(b: int, n: nat)
    requires PageBase(b)
    ensures PageBase(b + Bytes(n))
  {
  }

  /** What adding the pages of a freed large allocation has done after n of them. */
  ghost predicate PagesAdded(w: WordSize, v: View, v': View, base: int, n: nat) {
    && Inv(w, v') && v'.large == v.large && v'.live == v.live && |v'.order| == |v.order| + n
    && (forall c | c in v'.pages :: c in v.pages || c + PAGE_SIZE <= base + Bytes(n))
  }

  lemma AddNextPage(w: WordSize, v: View, v': View, base: int, n: nat)
    requires n > 0 && Fresh(v, base, n) && PagesAdded(w, v, v', base, n - 1)
    ensures PagesAdded(w, v, AddPage(v', base + Bytes(n - 1)), base, n)
  {
    PageBaseStep(base, n - 1);
    AddPageKeepsInv(w, v', base + Bytes(n - 1));
  }

  lemma FewerFresh(v: View, base: int, n: int)
    requires Fresh(v, base, n)
    ensures n > 1 ==> Fresh(v, base, n - 1)
  {
  }

  lemma {:induction false} AddPagesKeepsInv(w: WordSize, v: View, base: int, n: nat)
    requires Inv(w, v) && (n > 0 ==> Fresh(v, base, n))
    ensures PagesAdded(w, v, AddPages(v, base, n), base, n)
  {
    if n > 0 {
      var v1 := AddPages(v, base, n - 1);
      FewerFresh(v, base, n);
      AddPagesKeepsInv(w, v, base, n - 1);
      AddNextPage(w, v, v1, base, n);
      assert AddPages(v, base, n) == AddPage(v1, base + Bytes(n - 1));
    }
  }

  /** Freeing n pages adds exactly n entirely free pages and leaves the others as they were. */
  lemma {:induction false} AddPagesContents(v: View, base: int, n: nat, c: int)
    requires n > 0 ==> Fresh(v, base, n)
    ensures var v' := AddPages(v, base, n);
      && (c in v.pages ==> c in v'.pages && v'.pages[c] == v.pages[c])
      && (forall k: nat | k < n && c == base + Bytes(k) :: c in v'.pages && v'.pages[c] == FreshPage(c))
      && (c in v'.pages ==> c in v.pages || exists k: nat :: k < n && c == base + Bytes(k))
  {
    if n > 0 {
      FewerFresh(v, base, n);
      AddPagesContents(v, base, n - 1, c);
    }
  }

  /** They are listed one by one, each in front of those before it. */
  lemma {:induction false} AddPagesOrder(v: View, base: int, n: nat)
    ensures var order' := AddPages(v, base, n).order;
      |order'| == n + |v.order| && order'[n..] == v.order && forall k | 0 <= k < n :: order'[k] == base + 4096 * (n - 1 - k)
  {
    if n > 0 {
      AddPagesOrder(v, base, n - 1);
    }
  }

  /** free of a large block lists its pages in front of the others, the last of them first, and free of a small
      one changes nothing but its own page. */
  lemma FreeListsPages(w: WordSize, v: View, p: int)
    requires Inv(w, v) && p in v.live
    ensures var v' := Free(w, v, p);
      if HoldsLarge(w, v, p) then
        var base := p - 128;
        var n := v.large[base];
        && |v'.order| == n + |v.order| && v'.order[n..] == v.order
        && (forall k | 0 <= k < n :: v'.order[k] == base + 4096 * (n - 1 - k))
        && v'.large == v.large - {base}
      else
        && v'.order == v.order && v'.large == v.large && v'.pages.Keys == v.pages.Keys
        && exists b {:trigger HoldsSmall(w, v, b, p)} ::
          HoldsSmall(w, v, b, p) && forall c | c in v.pages && c != b :: v'.pages[c] == v.pages[c]
  {
    if HoldsLarge(w, v, p) {
      var base := p - BLOCK_HEADER - PAGE_HEADER;
      var v1 := v.(large := v.large - {base}, live := v.live - {p});
      AddPagesOrder(v1, base, v.large[base]);
      AddPagesLarge(v1, base, v.large[base]);
    } else {
      var b := PageOf(w, v, p);
      assert HoldsSmall(w, v, b, p);
    }
  }

  lemma {:induction false} AddPagesLarge(v: View, base: int, n: nat)
    ensures AddPages(v, base, n).large == v.large
  {
    if n > 0 {
      AddPagesLarge(v, base, n - 1);
    }
  }

  // ----- pages are conserved -----

  ghost function SumPages(m: map<int, int>): int {
    if exists k :: k in m then var k :| k in m; m[k] + SumPages(m - {k}) else 0
  }

  lemma {:induction false} SumPagesRemove(m: map<int, int>, k: int)
    requires k in m
    ensures SumPages(m) == m[k] + SumPages(m - {k})
    decreases |m|
  {
    var j :| j in m && SumPages(m) == m[j] + SumPages(m - {j});
    if j != k {
      SumPagesRemove(m - {j}, k);
      SumPagesRemove(m - {k}, j);
      assert m - {j} - {k} == m - {k} - {j};
    }
  }

  /** Pages obtained from the firmware that the heap still accounts for. */
  ghost function Owned(v: View): int {
    |v.order| + SumPages(v.large)
  }

  // ----- one request -----

  lemma LargeKeepsInv(w: WordSize, v: View, base: int, n: int, sz: int)
    requires Inv(w, v) && Fresh(v, base, n)
    requires 0 < sz && sz + PAGE_HEADER + BLOCK_HEADER + w <= Bytes(n)
    ensures var p := base + PAGE_HEADER + BLOCK_HEADER;
      p !in v.live && Inv(w, v.(large := v.large[base := n], live := v.live[p := sz]))
  {
    var p := base + PAGE_HEADER + BLOCK_HEADER;
    var v' := v.(large := v.large[base := n], live := v.live[p := sz]);
    assert p in v.live ==> Backed(w, v, p);
    forall q {:trigger Backed(w, v', q)} | q in v'.live ensures Backed(w, v', q) {
      if q != p {
        assert Backed(w, v, q);
        if !HoldsLarge(w, v, q) {
          var c :| HoldsSmall(w, v, c, q);
          assert HoldsSmall(w, v', c, q);
        }
      }
    }
    forall c, q | UsedTile(v', c, q) ensures q in v'.live {
      assert UsedTile(v, c, q);
    }
  }

  lemma AlignedSize(w: WordSize, sz: int)
    requires 0 <= sz <= RequestLimit(w)
    ensures Multiple16(AlignSize(w, sz)) && sz + BLOCK_HEADER + w <= AlignSize(w, sz)
    ensures !IsLarge(w, AlignSize(w, sz)) ==> AlignSize(w, sz) <= PAGE_SIZE - PAGE_HEADER
    ensures IsLarge(w, AlignSize(w, sz)) ==> AlignSize(w, sz) + PAGE_HEADER <= Bytes(PageCount(w, AlignSize(w, sz)))
  {
    BlockCoversIff(w, sz);
    AlignSizeMultiple(w, sz);
  }

  /** The heap v' after a pointer p was handed out for sz bytes, with asked new pages. */
  ghost predicate HandsOut(w: WordSize, v: View, v': View, p: int, sz: int, asked: int) {
    && Inv(w, v') && p != 0 && p !in v.live && v'.live == v.live[p := sz]
    && Owned(v') == Owned(v) + asked
  }

  lemma LargeMalloc(w: WordSize, v: View, sz: int, grant: int)
    requires MallocOk(w, v, sz, grant) && 0 < sz && IsLarge(w, AlignSize(w, sz)) && grant != 0
    ensures HandsOut(w, v, Malloc(w, v, sz, grant).0, Malloc(w, v, sz, grant).1, sz, PageCount(w, AlignSize(w, sz)))
  {
    var n := PageCount(w, AlignSize(w, sz));
    AlignedSize(w, sz);
    LargeKeepsInv(w, v, grant, n, sz);
    SumPagesRemove(v.large[grant := n], grant);
    assert v.large[grant := n] - {grant} == v.large;
  }

  lemma SmallMalloc(w: WordSize, v: View, b: int, n: int, sz: int)
    requires Inv(w, v) && b in v.pages && HasRoom(v.pages[b], n)
    requires 0 < sz && sz + BLOCK_HEADER + w <= n && Multiple16(n)
    ensures HandsOut(w, v, TakeFrom(v, b, n, sz), Taken(v, b, n), sz, 0)
  {
    TakeFromKeepsInv(w, v, b, n, sz);
  }

  lemma NewPageMalloc(w: WordSize, v: View, grant: int, n: int, sz: int)
    requires Inv(w, v) && Fresh(v, grant, 1)
    requires 0 < sz && sz + BLOCK_HEADER + w <= n <= PAGE_SIZE - PAGE_HEADER && Multiple16(n)
    ensures var v1 := AddPage(v, grant);
      && HasRoom(v1.pages[grant], n)
      && HandsOut(w, v, TakeFrom(v1, grant, n, sz), Taken(v1, grant, n), sz, 1)
  {
    FreshPageOk(v, grant, n);
    AddPageKeepsInv(w, v, grant);
    SmallMalloc(w, AddPage(v, grant), grant, n, sz);
  }

  /** malloc keeps the heap well formed, returns a new pointer that is live for exactly the
      request, and returns null only for size 0 or when the firmware has no pages. */
  lemma MallocKeepsInv(w: WordSize, v: View, sz: int, grant: int)
    requires MallocOk(w, v, sz, grant)
    ensures var (v', p) := Malloc(w, v, sz, grant);
      if sz == 0 || (Asked(w, v, sz) > 0 && grant == 0) then p == 0 && v' == v
      else HandsOut(w, v, v', p, sz, Asked(w, v, sz))
  {
    var n := AlignSize(w, sz);
    AlignedSize(w, sz);
    if sz == 0 {
    } else if IsLarge(w, n) {
      if grant != 0 {
        LargeMalloc(w, v, sz, grant);
      }
    } else {
      var i := FirstPage(v.pages, v.order, n);
      if i < |v.order| {
        SmallMalloc(w, v, v.order[i], n, sz);
      } else if grant != 0 {
        NewPageMalloc(w, v, grant, n, sz);
      }
    }
  }

  lemma DropLargeKeepsInv(w: WordSize, v: View, p: int)
    requires Inv(w, v) && HoldsLarge(w, v, p)
    ensures var base := p - BLOCK_HEADER - PAGE_HEADER;
      var v' := v.(large := v.large - {base}, live := v.live - {p});
      Inv(w, v') && Fresh(v', base, v.large[base])
  {
    var base := p - BLOCK_HEADER - PAGE_HEADER;
    var v' := v.(large := v.large - {base}, live := v.live - {p});
    forall q {:trigger Backed(w, v', q)} | q in v'.live ensures Backed(w, v', q) {
      assert Backed(w, v, q);
      if !HoldsLarge(w, v, q) {
        var c :| HoldsSmall(w, v, c, q);
        assert HoldsSmall(w, v', c, q);
      }
    }
    forall c, q | UsedTile(v', c, q) ensures q in v'.live {
      assert UsedTile(v, c, q);
      OneBlock(v, c, c, q);
    }
  }

  lemma SmallFreeKeepsInv(w: WordSize, v: View, b: int, p: int)
    requires Inv(w, v) && HoldsSmall(w, v, b, p)
    ensures var pg := Release(v.pages[b], b + PAGE_HEADER, b + PAGE_SIZE, p - BLOCK_HEADER);
      Inv(w, v.(pages := v.pages[b := pg], live := v.live - {p}))
  {
    var pg := Release(v.pages[b], b + PAGE_HEADER, b + PAGE_SIZE, p - BLOCK_HEADER);
    ReleaseKeepsPage(b, v.pages[b], p - BLOCK_HEADER);
    ReleaseLoses(v.pages[b].tiles, b + PAGE_HEADER, b + PAGE_SIZE, p - BLOCK_HEADER);
    PageLosesBlock(w, v, b, pg, p);
  }

  lemma LargeFreeKeepsInv(w: WordSize, v: View, p: int)
    requires Inv(w, v) && HoldsLarge(w, v, p)
    ensures var base := p - BLOCK_HEADER - PAGE_HEADER;
      var v1 := v.(large := v.large - {base}, live := v.live - {p});
      && PagesAdded(w, v1, AddPages(v1, base, v.large[base]), base, v.large[base])
      && Owned(AddPages(v1, base, v.large[base])) == Owned(v)
  {
    var base := p - BLOCK_HEADER - PAGE_HEADER;
    DropLargeKeepsInv(w, v, p);
    AddPagesKeepsInv(w, v.(large := v.large - {base}, live := v.live - {p}), base, v.large[base]);
    SumPagesRemove(v.large, base);
  }

  /** free keeps the heap well formed, ends exactly one allocation and loses no page. */
  lemma FreeKeepsInv(w: WordSize, v: View, p: int)
    requires Inv(w, v) && (p == 0 || p in v.live)
    ensures Inv(w, Free(w, v, p))
    ensures Free(w, v, p).live == v.live - (if p == 0 then {} else {p})
    ensures Owned(Free(w, v, p)) == Owned(v)
  {
    if p == 0 {
    } else if HoldsLarge(w, v, p) {
      LargeFreeKeepsInv(w, v, p);
    } else {
      SmallFreeKeepsInv(w, v, PageOf(w, v, p), p);
    }
  }

  // ----- runs -----

  datatype Request = Allocate(sz: int, grant: int) | Deallocate(p: int)

  ghost predicate RequestOk(w: WordSize, v: View, r: Request) {
    match r
    case Allocate(sz, grant) => MallocOk(w, v, sz, grant)
    case Deallocate(p) => Inv(w, v) && (p == 0 || p in v.live)
  }

  ghost function Step(w: WordSize, v: View, r: Request): View
    requires RequestOk(w, v, r)
  {
    match r
    case Allocate(sz, grant) => Malloc(w, v, sz, grant).0
    case Deallocate(p) => Free(w, v, p)
  }

  /** Pages the firmware hands over while serving a request. */
  ghost function Obtained(w: WordSize, v: View, r: Request): int
    requires RequestOk(w, v, r)
  {
    if r.Allocate? && r.grant != 0 then Asked(w, v, r.sz) else 0
  }

  lemma StepKeepsInv(w: WordSize, v: View, r: Request)
    requires RequestOk(w, v, r)
    ensures Inv(w, Step(w, v, r))
    ensures Owned(Step(w, v, r)) == Owned(v) + Obtained(w, v, r)
  {
    match r
    case Allocate(sz, grant) => MallocKeepsInv(w, v, sz, grant);
    case Deallocate(p) => FreeKeepsInv(w, v, p);
  }

  /** Every request is one the heap accepts in the state it then has. */
  ghost predicate RunOk(w: WordSize, v: View, rs: seq<Request>)
    decreases |rs|
  {
    rs != [] ==> RequestOk(w, v, rs[0]) && RunOk(w, Step(w, v, rs[0]), rs[1..])
  }

  ghost function Run(w: WordSize, v: View, rs: seq<Request>): View
    requires RunOk(w, v, rs)
    decreases |rs|
  {
    if rs == [] then v else Run(w, Step(w, v, rs[0]), rs[1..])
  }

  ghost function TotalObtained(w: WordSize, v: View, rs: seq<Request>): int
    requires RunOk(w, v, rs)
    decreases |rs|
  {
    if rs == [] then 0 else Obtained(w, v, rs[0]) + TotalObtained(w, Step(w, v, rs[0]), rs[1..])
  }

  /** The heap right after start-up: one entirely free page. */
  function Init(base: int): View {
    View([base], map[base := FreshPage(base)], map[], map[])
  }

  lemma InitInv(w: WordSize, base: int)
    requires PageBase(base)
    ensures Inv(w, Init(base)) && Owned(Init(base)) == 1
  {
    FreshPageOk(Init(base), base, BLOCK_HEADER);
    assert Init(base).order[0] == base;
  }

  /** Every sequence of requests keeps the heap well formed and accounts for every page. */
  lemma {:induction false} RunKeepsInv(w: WordSize, v: View, rs: seq<Request>)
    requires Inv(w, v) && RunOk(w, v, rs)
    ensures Inv(w, Run(w, v, rs))
    ensures Owned(Run(w, v, rs)) == Owned(v) + TotalObtained(w, v, rs)
    decreases |rs|
  {
    if rs != [] {
      StepKeepsInv(w, v, rs[0]);
      RunKeepsInv(w, Step(w, v, rs[0]), rs[1..]);
    }
  }

  // ----- what a well-formed heap guarantees -----

  predicate BlockMetadata(w: WordSize, v: View, b: int, a: int, x: int) {
    && b in v.pages && a in v.pages[b].tiles
    && (a <= x < a + BLOCK_HEADER || a + v.pages[b].tiles[a].size - w <= x < a + v.pages[b].tiles[a].size)
  }

  predicate PageMetadata(v: View, b: int, x: int) {
    b in v.pages && b <= x < b + PAGE_HEADER
  }

  predicate LargeMetadata(w: WordSize, v: View, b: int, x: int) {
    && b in v.large
    && (b <= x < b + PAGE_HEADER + BLOCK_HEADER || b + Bytes(v.large[b]) - w <= x < b + Bytes(v.large[b]))
  }

  /** Byte x is part of a header or of an end word. */
  ghost predicate Metadata(w: WordSize, v: View, x: int) {
    || (exists b :: PageMetadata(v, b, x))
    || (exists b, a :: BlockMetadata(w, v, b, a, x))
    || (exists b :: LargeMetadata(w, v, b, x))
  }

  predicate InPayload(v: View, p: int, x: int)
    requires p in v.live
  {
    p <= x < p + v.live[p]
  }

  lemma SmallPayloadAvoidsMetadata(w: WordSize, v: View, b: int, p: int, x: int, c: int, a: int)
    requires Inv(w, v) && HoldsSmall(w, v, b, p) && InPayload(v, p, x)
    ensures !PageMetadata(v, c, x) && !BlockMetadata(w, v, c, a, x) && !LargeMetadata(w, v, c, x)
  {
    assert PageOk(b, v.pages[b]);
    assert c in v.pages && c != b ==> c + PAGE_SIZE <= b || b + PAGE_SIZE <= c;
  }

  lemma LargePayloadAvoidsMetadata(w: WordSize, v: View, p: int, x: int, c: int, a: int)
    requires Inv(w, v) && HoldsLarge(w, v, p) && InPayload(v, p, x)
    ensures !PageMetadata(v, c, x) && !BlockMetadata(w, v, c, a, x) && !LargeMetadata(w, v, c, x)
  {
    assert c in v.pages ==> PageOk(c, v.pages[c]);
  }

  lemma PayloadAvoidsMetadata(w: WordSize, v: View, p: int, x: int)
    requires Inv(w, v) && p in v.live && InPayload(v, p, x)
    ensures !Metadata(w, v, x)
  {
    forall c, a ensures !BlockMetadata(w, v, c, a, x) {
      PayloadByteAvoids(w, v, p, x, c, a);
    }
    forall c ensures !PageMetadata(v, c, x) && !LargeMetadata(w, v, c, x) {
      PayloadByteAvoids(w, v, p, x, c, 0);
    }
  }

  lemma PayloadByteAvoids(w: WordSize, v: View, p: int, x: int, c: int, a: int)
    requires Inv(w, v) && p in v.live && InPayload(v, p, x)
    ensures !PageMetadata(v, c, x) && !BlockMetadata(w, v, c, a, x) && !LargeMetadata(w, v, c, x)
  {
    if HoldsLarge(w, v, p) {
      LargePayloadAvoidsMetadata(w, v, p, x, c, a);
    } else {
      SmallPayloadAvoidsMetadata(w, v, PageOf(w, v, p), p, x, c, a);
    }
  }

  /** The payloads of two live pointers share no byte. */
  lemma PayloadsDisjoint(w: WordSize, v: View, p: int, q: int, x: int)
    requires Inv(w, v) && p in v.live && q in v.live && InPayload(v, p, x) && InPayload(v, q, x)
    ensures p == q
  {
    assert Backed(w, v, p) && Backed(w, v, q);
    if !HoldsLarge(w, v, p) {
      var b := PageOf(w, v, p);
      if !HoldsLarge(w, v, q) {
        var c := PageOf(w, v, q);
        assert b == c;
      }
    }
  }

  lemma PageBaseAligned(b: int)
    requires PageBase(b)
    ensures Multiple16(b) && Multiple16(b + PAGE_HEADER) && Multiple16(b + PAGE_HEADER + BLOCK_HEADER)
  {
    assert b == 16 * (256 * (b / 4096));
  }

  lemma PayloadAligned(w: WordSize, v: View, p: int)
    requires Inv(w, v) && p in v.live
    ensures Multiple16(p)
  {
    assert Backed(w, v, p);
    if HoldsLarge(w, v, p) {
      PageBaseAligned(p - BLOCK_HEADER - PAGE_HEADER);
    } else {
      var b := PageOf(w, v, p);
      assert PageOk(b, v.pages[b]);
      Multiple16Sums(p - BLOCK_HEADER, 64);
    }
  }

  lemma AllFreeTiles(t: map<int, Tile>, lo: int, hi: int)
    requires Tiled(t, lo, hi) && Coalesced(t, hi) && hi == lo + 4032 && forall a | a in t :: t[a].free
    ensures t == map[lo := Tile(4032, true)] || t == map[lo := Tile(3968, true), lo + 3968 := Tile(64, true)]
  {
    assert Joined(t, lo, hi, lo) && Merged(t, hi, lo);
    var r := lo + t[lo].size;
    if r in t {
      assert forall a | a in t :: a == lo || a == r;
    } else {
      assert forall a | a in t :: a == lo;
    }
  }

  /** A page without a block in use holds one free block, or two when the 64 bytes at its end
      were left alone, and all of its 4032 bytes count as free. */
  lemma EmptyPage(w: WordSize, v: View, b: int)
    requires Inv(w, v) && b in v.pages && forall p :: !UsedTile(v, b, p)
    ensures var t, lo := v.pages[b].tiles, b + PAGE_HEADER;
      && (t == map[lo := Tile(4032, true)] || t == map[lo := Tile(3968, true), lo + 3968 := Tile(64, true)])
      && SumFree(t, lo, b + PAGE_SIZE) == 4032
  {
    var t, lo, hi := v.pages[b].tiles, b + PAGE_HEADER, b + PAGE_SIZE;
    forall a | a in t ensures t[a].free {
      assert !UsedTile(v, b, a + BLOCK_HEADER);
    }
    AllFreeTiles(t, lo, hi);
    var r := lo + t[lo].size;
    assert SumFree(t, lo, hi) == t[lo].size + SumFree(t, r, hi);
    assert r in t ==> SumFree(t, r, hi) == 64 + SumFree(t, hi, hi);
  }

  /** Block a of page b is free and has n bytes. */
  predicate Fitting(v: View, b: int, a: int, n: int) {
    b in v.pages && a in v.pages[b].tiles && v.pages[b].tiles[a].free && n <= v.pages[b].tiles[a].size
  }

  /** A page whose free bytes add up to less than n has no block of n bytes. */
  lemma NoRoomBySum(b: int, pg: PageView, n: int)
    requires PageOk(b, pg)
    ensures SumFree(pg.tiles, b + PAGE_HEADER, b + PAGE_SIZE) < n ==> !HasRoom(pg, n)
  {
    var j := FirstFit(pg.tiles, pg.free, n);
    if j < |pg.free| {
      FreeBlockWithinSum(pg.tiles, b + PAGE_HEADER, b + PAGE_SIZE, b + PAGE_HEADER, pg.free[j]);
    }
  }

  lemma HasRoomIff(b: int, v: View, n: int)
    requires b in v.pages && PageOk(b, v.pages[b])
    ensures HasRoom(v.pages[b], n) <==> exists a :: Fitting(v, b, a, n)
  {
    var pg := v.pages[b];
    var j := FirstFit(pg.tiles, pg.free, n);
    if j < |pg.free| {
      assert Fitting(v, b, pg.free[j], n);
    } else {
      forall a ensures !Fitting(v, b, a, n) {
        assert Fitting(v, b, a, n) ==> a in pg.free;
      }
    }
  }

  /** A small request asks the firmware only when no listed page has a large enough free block. */
  lemma SmallRequestAsksIff(w: WordSize, v: View, sz: int)
    requires Inv(w, v) && 0 < sz <= RequestLimit(w) && !IsLarge(w, AlignSize(w, sz))
    ensures Asked(w, v, sz) == 0 <==> exists b, a :: Fitting(v, b, a, AlignSize(w, sz))
  {
    var n := AlignSize(w, sz);
    var i := FirstPage(v.pages, v.order, n);
    if i < |v.order| {
      HasRoomIff(v.order[i], v, n);
    } else if b, a :| Fitting(v, b, a, n) {
      HasRoomIff(b, v, n);
    }
  }

  /** What the firmware is asked for, in numbers: the fewest pages that hold a large block with the page
      header, one page for a small block when no listed block has room for it, and otherwise nothing. */
  lemma AskedIs(w: WordSize, v: View, sz: int, n: nat)
    requires Inv(w, v) && 0 < sz <= RequestLimit(w) && BlockFor(w, sz, n)
    ensures n > 4032 ==> (Asked(w, v, sz) - 1) * 4096 < n + 64 <= Asked(w, v, sz) * 4096
    ensures n <= 4032 ==> Asked(w, v, sz) == if exists b, a :: Fitting(v, b, a, n) then 0 else 1
  {
    RequestSizes(w, sz, n);
    if n <= 4032 {
      SmallRequestAsksIff(w, v, sz);
    }
  }

  /** The block of a small request starts 64 bytes before the pointer, is in use, and is less than 64
      bytes larger than it has to be. */
  ghost predicate Serves(v: View, p: int, n: int) {
    exists b {:trigger UsedTile(v, b, p)} :: UsedTile(v, b, p) && n <= v.pages[b].tiles[p - 64].size < n + 64
  }

  lemma TakeFits(b: int, pg: PageView, j: nat, n: int)
    requires PageOk(b, pg) && j < |pg.free| && 0 < n <= pg.tiles[pg.free[j]].size
    ensures var t := Take(pg, j, n).tiles; pg.free[j] in t && !t[pg.free[j]].free && n <= t[pg.free[j]].size < n + 64
  {
  }

  lemma TakenServes(v: View, b: int, n: int, sz: int)
    requires b in v.pages && PageOk(b, v.pages[b]) && HasRoom(v.pages[b], n) && 0 < n
    ensures Serves(TakeFrom(v, b, n, sz), Taken(v, b, n), n)
  {
    var pg := v.pages[b];
    TakeFits(b, pg, FirstFit(pg.tiles, pg.free, n), n);
    assert UsedTile(TakeFrom(v, b, n, sz), b, Taken(v, b, n));
  }

  /** What is handed out, in numbers: a block from a page, which is the first one of a page that was asked
      for, and that page comes first in the page list; or the bytes behind the two headers of fresh pages. */
  lemma MallocServes(w: WordSize, v: View, sz: int, grant: int, n: nat)
    requires MallocOk(w, v, sz, grant) && 0 < sz && BlockFor(w, sz, n)
    ensures var (v', p) := Malloc(w, v, sz, grant);
      p != 0 ==>
        && (Asked(w, v, sz) > 0 ==> p == grant + 128)
        && v'.order == (if n <= 4032 && Asked(w, v, sz) == 1 then [grant] + v.order else v.order)
        && (if n <= 4032 then Serves(v', p, n) && v'.large == v.large else v'.large == v.large[grant := Asked(w, v, sz)])
  {
    RequestSizes(w, sz, n);
    if n <= 4032 {
      var i := FirstPage(v.pages, v.order, n);
      if i < |v.order| {
        TakenServes(v, v.order[i], n, sz);
      } else if grant != 0 {
        FreshPageOk(v, grant, n);
        assert FreshPage(grant).free == [grant + 64];
        TakenServes(AddPage(v, grant), grant, n, sz);
      }
    }
  }

  /** A request whose least block has n bytes, in numbers: it is served from a listed page that has room, from
      one fresh page that is listed first, or from the fewest fresh pages that hold it. */
  ghost predicate ServedWith(v: View, n: nat, grant: int, asked: int, v': View, p: int) {
    && (if n > 4032 then (asked - 1) * 4096 < n + 64 <= asked * 4096
        else asked == if exists b, a :: Fitting(v, b, a, n) then 0 else 1)
    && (p != 0 ==>
      && (asked > 0 ==> p == grant + 128)
      && v'.order == (if n <= 4032 && asked == 1 then [grant] + v.order else v.order)
      && (if n <= 4032 then Serves(v', p, n) && v'.large == v.large else v'.large == v.large[grant := asked]))
  }

  ghost predicate InNumbers(w: WordSize, v: View, sz: int, grant: int, asked: int, v': View, p: int) {
    0 < sz ==>
      forall n: nat {:trigger BlockFor(w, sz, n)} | BlockFor(w, sz, n) :: ServedWith(v, n, grant, asked, v', p)
  }

  lemma MallocInNumbers(w: WordSize, v: View, sz: int, grant: int)
    requires MallocOk(w, v, sz, grant)
    ensures InNumbers(w, v, sz, grant, Asked(w, v, sz), Malloc(w, v, sz, grant).0, Malloc(w, v, sz, grant).1)
  {
    if 0 < sz {
      forall n: nat {:trigger BlockFor(w, sz, n)} | BlockFor(w, sz, n)
        ensures ServedWith(v, n, grant, Asked(w, v, sz), Malloc(w, v, sz, grant).0, Malloc(w, v, sz, grant).1)
      {
        AskedIs(w, v, sz, n);
        MallocServes(w, v, sz, grant, n);
      }
    }
  }

  /** A block served from the listed pages is the first that fits: it is in some listed page and in
      some place of its free list, no page earlier in the page list has a block that fits, nor has an
      earlier place of that free list. */
  lemma MallocIsFirstFit(w: WordSize, v: View, sz: int, grant: int) returns (i: nat, j: nat)
    requires MallocOk(w, v, sz, grant) && 0 < sz && Asked(w, v, sz) == 0
    ensures i < |v.order| && v.order[i] in v.pages && j < |v.pages[v.order[i]].free|
    ensures var n, b := AlignSize(w, sz), v.order[i];
      && v.pages[b].free[j] == Malloc(w, v, sz, grant).1 - BLOCK_HEADER && Fitting(v, b, v.pages[b].free[j], n)
      && (forall h, a | 0 <= h < i :: !Fitting(v, v.order[h], a, n))
      && (forall k | 0 <= k < j :: !Fitting(v, b, v.pages[b].free[k], n))
  {
    var n := AlignSize(w, sz);
    AlignedSize(w, sz);
    i := FirstPage(v.pages, v.order, n);
    var b := v.order[i];
    j := FirstFit(v.pages[b].tiles, v.pages[b].free, n);
    assert PageOk(b, v.pages[b]);
    forall h, a | 0 <= h < i ensures !Fitting(v, v.order[h], a, n) {
      HasRoomIff(v.order[h], v, n);
    }
  }

  /** Freeing a block right after taking it restores the blocks of its page exactly, unless the
      rest of the cut was the 64 bytes at the end of the page. */
  lemma TakeReleaseRestoresIff(b: int, pg: PageView, j: nat, n: int)
    requires PageOk(b, pg) && j < |pg.free| && BLOCK_HEADER < n <= pg.tiles[pg.free[j]].size
    requires Tiled(Take(pg, j, n).tiles, b + PAGE_HEADER, b + PAGE_SIZE)
    ensures var a := pg.free[j];
      (ReleaseTiles(Take(pg, j, n).tiles, b + PAGE_HEADER, b + PAGE_SIZE, a) == pg.tiles)
      <==> !(pg.tiles[a].size == n + BLOCK_HEADER && a + pg.tiles[a].size == b + PAGE_SIZE)
  {
    var lo, hi := b + PAGE_HEADER, b + PAGE_SIZE;
    var a, t := pg.free[j], pg.tiles;
    var t' := Take(pg, j, n).tiles;
    assert Merged(t, hi, a);
    if a != lo {
      assert Merged(t, hi, LeftOf(t', lo, hi, a));
    }
    assert !MergesLeft(t', lo, hi, a);
    if t[a].size == n + BLOCK_HEADER && a + t[a].size == hi {
      assert GrownRight(t', hi, a)[a].size == n;
    } else {
      assert GrownRight(t', hi, a) == t;
    }
  }

  /** Allocating 3896 bytes on a fresh heap and freeing them leaves two adjacent free blocks. */
  lemma EndBlockStaysApart(base: int)
    requires PageBase(base)
    ensures MallocOk(8, Init(base), 3896, 0)
    ensures var (v, p) := Malloc(8, Init(base), 3896, 0);
      && Inv(8, v) && p in v.live && base in Free(8, v, p).pages
      && Free(8, v, p).pages[base].tiles == map[base + 64 := Tile(3968, true), base + 4032 := Tile(64, true)]
  {
    var v0 := Init(base);
    InitInv(8, base);
    FreshPageOk(v0, base, 3968);
    MallocKeepsInv(8, v0, 3896, 0);
    var (v, p) := Malloc(8, v0, 3896, 0);
    var t := v.pages[base].tiles;
    assert t == map[base + 64 := Tile(3968, false), base + 4032 := Tile(64, true)];
    assert UsedTile(v, base, p);
    OneBlock(v, base, PageOf(8, v, p), p);
    assert !MergesLeft(t, base + PAGE_HEADER, base + PAGE_SIZE, base + 64);
  }
}
