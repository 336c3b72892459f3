/** The boot heap as values: what the pages, the free lists and the live
    allocations are, what one request does to them, and which facts every
    request keeps. BootHeap.dfy shows that the pointer code does exactly this. */
module HeapView {
  import opened HeapSizes

  datatype Tile = Tile(size: int, free: bool)

  /** One listed page: its blocks by address, and its free list from front to back. */
  datatype PageView = PageView(tiles: map<int, Tile>, free: seq<int>)

  /** The heap: listed pages by base and in list order, page counts of the large
      allocations by base, and the requested size of every live pointer. */
  datatype View = View(
    order: seq<int>,
    pages: map<int, PageView>,
    large: map<int, int>,
    live: map<int, int>)

  // ----- lists -----

  ghost predicate NoDuplicates<T>(s: seq<T>) {
    forall i, j | 0 <= i < j < |s| :: s[i] != s[j]
  }

  function RemoveAt<T>(s: seq<T>, i: nat): (r: seq<T>)
    requires i < |s|
    ensures |r| == |s| - 1
    ensures forall k | 0 <= k < |r| :: r[k] == if k < i then s[k] else s[k + 1]
  {
    s[..i] + s[i + 1..]
  }

  function IndexOf<T(==)>(s: seq<T>, x: T): (i: nat)
    requires x in s
    ensures i < |s| && s[i] == x
  {
    if s[0] == x then 0 else 1 + IndexOf(s[1..], x)
  }

  lemma RemoveAtElements<T>(s: seq<T>, i: nat)
    requires i < |s| && NoDuplicates(s)
    ensures NoDuplicates(RemoveAt(s, i))
    ensures forall x :: x in RemoveAt(s, i) <==> x in s && x != s[i]
  {
    var r := RemoveAt(s, i);
    forall x | x in s && x != s[i] ensures x in r {
      var k :| 0 <= k < |s| && s[k] == x;
      assert r[if k < i then k else k - 1] == x;
    }
    forall x | x in r ensures x in s && x != s[i] {
      var k :| 0 <= k < |r| && r[k] == x;
    }
  }

  lemma ReplaceElements<T>(s: seq<T>, i: nat, y: T)
    requires i < |s| && NoDuplicates(s) && y !in s
    ensures NoDuplicates(s[i := y])
    ensures forall x :: x in s[i := y] <==> x == y || (x in s && x != s[i])
  {
    var r := s[i := y];
    forall x | x in s && x != s[i] ensures x in r {
      var k :| 0 <= k < |s| && s[k] == x;
      assert r[k] == x;
    }
    assert r[i] == y;
  }

  // ----- one page -----

  predicate EndsAt(t: map<int, Tile>, l: int, a: int) {
    l in t && l + t[l].size == a
  }

  /** The block at a is followed by another one unless it ends at hi, and it
      follows another one unless it starts at lo. */
  ghost predicate Joined(t: map<int, Tile>, lo: int, hi: int, a: int)
    requires a in t
  {
    && (a + t[a].size < hi ==> a + t[a].size in t)
    && (a != lo ==> exists l :: EndsAt(t, l, a))
  }

  ghost predicate AllJoined(t: map<int, Tile>, lo: int, hi: int) {
    forall a {:trigger Joined(t, lo, hi, a)} | a in t :: Joined(t, lo, hi, a)
  }

  ghost predicate Bounded(t: map<int, Tile>, lo: int, hi: int) {
    forall a | a in t :: lo <= a && BLOCK_HEADER <= t[a].size && a + t[a].size <= hi
  }

  ghost predicate Disjoint(t: map<int, Tile>) {
    forall a, c | a in t && c in t && a < c :: a + t[a].size <= c
  }

  /** The blocks lie side by side without a gap from lo to hi. */
  ghost predicate Tiled(t: map<int, Tile>, lo: int, hi: int) {
    lo in t && Bounded(t, lo, hi) && AllJoined(t, lo, hi) && Disjoint(t)
  }

  ghost predicate Aligned(t: map<int, Tile>) {
    forall a | a in t :: Multiple16(a) && Multiple16(t[a].size)
  }

  /** If the block at a and the next one are both free, the next one is the
      64-byte block that ends the page. */
  predicate Merged(t: map<int, Tile>, hi: int, a: int)
    requires a in t
  {
    var n := a + t[a].size;
    t[a].free && n in t && t[n].free ==> n + BLOCK_HEADER == hi
  }

  ghost predicate Coalesced(t: map<int, Tile>, hi: int) {
    forall a {:trigger Merged(t, hi, a)} | a in t :: Merged(t, hi, a)
  }

  ghost predicate FreeListExact(t: map<int, Tile>, free: seq<int>) {
    && NoDuplicates(free)
    && (forall k | 0 <= k < |free| :: free[k] in t && t[free[k]].free)
    && (forall x | x in t && t[x].free :: x in free)
  }

  ghost predicate PageOk(b: int, v: PageView) {
    && Tiled(v.tiles, b + PAGE_HEADER, b + PAGE_SIZE)
    && Aligned(v.tiles)
    && Coalesced(v.tiles, b + PAGE_SIZE)
    && FreeListExact(v.tiles, v.free)
  }

  /** Total size of the free blocks met when walking from x to hi. */
  ghost function SumFree(t: map<int, Tile>, x: int, hi: int): nat
    decreases hi - x
  {
    if x < hi && x in t && t[x].size > 0 then
      (if t[x].free then t[x].size else 0) + SumFree(t, x + t[x].size, hi)
    else 0
  }

  /** Every byte of a tiled range lies in exactly one block. */
  lemma {:induction false} TilesPartition(t: map<int, Tile>, lo: int, hi: int, a: int, x: int) returns (c: int)
    requires Tiled(t, lo, hi) && a in t && a <= x < hi
    ensures c in t && c <= x < c + t[c].size
    ensures forall d | d in t && d <= x < d + t[d].size :: d == c
    decreases hi - a
  {
    assert Joined(t, lo, hi, a);
    if x < a + t[a].size {
      c := a;
    } else {
      c := TilesPartition(t, lo, hi, a + t[a].size, x);
    }
  }

  predicate SameBlock(t: map<int, Tile>, t': map<int, Tile>, k: int) {
    (k in t <==> k in t') && (k in t ==> t[k] == t'[k])
  }

  lemma {:induction false} SumFreeSame(t: map<int, Tile>, t': map<int, Tile>, x: int, hi: int)
    requires forall k | x <= k :: SameBlock(t, t', k)
    ensures SumFree(t, x, hi) == SumFree(t', x, hi)
    decreases hi - x
  {
    assert SameBlock(t, t', x);
    if x < hi && x in t && t[x].size > 0 {
      SumFreeSame(t, t', x + t[x].size, hi);
    }
  }

  /** Changing blocks only from a on changes the sum by what it changes the sum from a on. */
  lemma {:induction false} SumFreeUpTo(t: map<int, Tile>, t': map<int, Tile>, lo: int, hi: int, x: int, a: int)
    requires Tiled(t, lo, hi) && x in t && a in t && x <= a
    requires forall k | k < a :: SameBlock(t, t', k)
    ensures SumFree(t', x, hi) - SumFree(t', a, hi) == SumFree(t, x, hi) - SumFree(t, a, hi)
    decreases hi - x
  {
    if x < a {
      assert Joined(t, lo, hi, x) && SameBlock(t, t', x);
      SumFreeUpTo(t, t', lo, hi, x + t[x].size, a);
    }
  }

  /** No free block is larger than the sum: the freeSize test skips no usable page. */
  lemma {:induction false} FreeBlockWithinSum(t: map<int, Tile>, lo: int, hi: int, x: int, a: int)
    requires Tiled(t, lo, hi) && x in t && a in t && x <= a && t[a].free
    ensures t[a].size <= SumFree(t, x, hi)
    decreases hi - x
  {
    if x < a {
      assert Joined(t, lo, hi, x);
      FreeBlockWithinSum(t, lo, hi, x + t[x].size, a);
    }
  }

  lemma {:induction false} SumFreeBound(t: map<int, Tile>, x: int, hi: int)
    requires x <= hi
    requires forall a | a in t :: a + t[a].size <= hi
    ensures SumFree(t, x, hi) <= hi - x
    decreases hi - x
  {
    if x < hi && x in t && t[x].size > 0 {
      SumFreeBound(t, x + t[x].size, hi);
    }
  }

  // ----- cutting, joining and marking blocks -----

  /** Marks the block at a as free or used. */
  function Mark(t: map<int, Tile>, a: int, free: bool): map<int, Tile>
    requires a in t
  {
    t[a := Tile(t[a].size, free)]
  }

  /** Cuts n bytes off the front of the block at a, as a used block; the rest is free. */
  function Cut(t: map<int, Tile>, a: int, n: int): map<int, Tile>
    requires a in t && n <= t[a].size
  {
    t[a := Tile(n, false)][a + n := Tile(t[a].size - n, true)]
  }

  /** Absorbs the block after a into the block at a. */
  function Absorb(t: map<int, Tile>, a: int): map<int, Tile>
    requires a in t && a + t[a].size in t
  {
    var n := a + t[a].size;
    (t - {n})[a := Tile(t[a].size + t[n].size, t[a].free)]
  }

  lemma MarkKeepsTiling(t: map<int, Tile>, lo: int, hi: int, a: int, free: bool)
    requires Tiled(t, lo, hi) && a in t
    ensures Tiled(Mark(t, a, free), lo, hi)
  {
    var t' := Mark(t, a, free);
    forall c {:trigger Joined(t', lo, hi, c)} | c in t' ensures Joined(t', lo, hi, c) {
      assert Joined(t, lo, hi, c);
      if c != lo {
        var l :| EndsAt(t, l, c);
        assert EndsAt(t', l, c);
      }
    }
  }

  lemma CutKeepsTiling(t: map<int, Tile>, lo: int, hi: int, a: int, n: int)
    requires Tiled(t, lo, hi) && a in t && BLOCK_HEADER <= n && n + BLOCK_HEADER <= t[a].size
    ensures Tiled(Cut(t, a, n), lo, hi)
  {
    var t' := Cut(t, a, n);
    assert Joined(t, lo, hi, a);
    forall c {:trigger Joined(t', lo, hi, c)} | c in t' ensures Joined(t', lo, hi, c) {
      if c == a + n {
        assert EndsAt(t', a, c);
      } else {
        assert Joined(t, lo, hi, c);
        if c != lo {
          var l :| EndsAt(t, l, c);
          assert EndsAt(t', if l == a then a + n else l, c);
        }
      }
    }
  }

  lemma AbsorbKeepsTiling(t: map<int, Tile>, lo: int, hi: int, a: int)
    requires Tiled(t, lo, hi) && a in t && a + t[a].size in t
    ensures Tiled(Absorb(t, a), lo, hi)
  {
    var n := a + t[a].size;
    var t' := Absorb(t, a);
    assert Joined(t, lo, hi, n);
    forall c {:trigger Joined(t', lo, hi, c)} | c in t' ensures Joined(t', lo, hi, c) {
      assert Joined(t, lo, hi, c);
      if c != lo {
        var l :| EndsAt(t, l, c);
        assert EndsAt(t', if l == n then a else l, c);
      }
    }
  }

  lemma CutKeepsAlignment(t: map<int, Tile>, a: int, n: int)
    requires Aligned(t) && a in t && n <= t[a].size && Multiple16(n)
    ensures Aligned(Cut(t, a, n))
  {
    Multiple16Sums(a, n);
    Multiple16Sums(n, t[a].size);
  }

  lemma AbsorbKeepsAlignment(t: map<int, Tile>, a: int)
    requires Aligned(t) && a in t && a + t[a].size in t
    ensures Aligned(Absorb(t, a))
  {
    Multiple16Sums(t[a].size, t[a + t[a].size].size);
  }

  lemma MarkSum(t: map<int, Tile>, lo: int, hi: int, a: int, free: bool)
    requires Tiled(t, lo, hi) && a in t && t[a].free != free
    ensures SumFree(Mark(t, a, free), lo, hi) == SumFree(t, lo, hi) + (if free then t[a].size else -t[a].size)
  {
    var t' := Mark(t, a, free);
    SumFreeUpTo(t, t', lo, hi, lo, a);
    SumFreeSame(t, t', a + t[a].size, hi);
    assert SumFree(t, a, hi) == (if t[a].free then t[a].size else 0) + SumFree(t, a + t[a].size, hi);
  }

  lemma CutSum(t: map<int, Tile>, lo: int, hi: int, a: int, n: int)
    requires Tiled(t, lo, hi) && a in t && t[a].free && 0 < n < t[a].size
    ensures SumFree(Cut(t, a, n), lo, hi) + n == SumFree(t, lo, hi)
  {
    var t', e := Cut(t, a, n), a + t[a].size;
    SumFreeUpTo(t, t', lo, hi, lo, a);
    SumFreeSame(t, t', e, hi);
    assert SumFree(t, a, hi) == t[a].size + SumFree(t, e, hi);
    assert SumFree(t', a + n, hi) == t[a].size - n + SumFree(t', e, hi);
  }

  lemma AbsorbSum(t: map<int, Tile>, lo: int, hi: int, a: int)
    requires Tiled(t, lo, hi) && a in t && a + t[a].size in t
    requires t[a].free && t[a + t[a].size].free
    ensures SumFree(Absorb(t, a), lo, hi) == SumFree(t, lo, hi)
  {
    var t', n := Absorb(t, a), a + t[a].size;
    SumFreeUpTo(t, t', lo, hi, lo, a);
    SumFreeSame(t, t', n + t[n].size, hi);
    assert SumFree(t, a, hi) == t[a].size + SumFree(t, n, hi);
    assert SumFree(t, n, hi) == t[n].size + SumFree(t, n + t[n].size, hi);
  }

  // ----- taking a block -----

  /** Position in the free list of the first block of at least n bytes, or its length. */
  function FirstFit(t: map<int, Tile>, free: seq<int>, n: int): (j: nat)
    ensures j <= |free|
    ensures j < |free| ==> free[j] in t && n <= t[free[j]].size
    ensures forall k | 0 <= k < j :: free[k] in t ==> t[free[k]].size < n
  {
    if free == [] || (free[0] in t && n <= t[free[0]].size) then 0 else 1 + FirstFit(t, free[1..], n)
  }

  /** Takes n bytes from the j-th free block. A rest of 64 bytes or more stays free
      in the same place of the list; a smaller rest goes with the block. */
  function Take(v: PageView, j: nat, n: int): PageView
    requires j < |v.free| && v.free[j] in v.tiles && n <= v.tiles[v.free[j]].size
  {
    var a := v.free[j];
    if v.tiles[a].size - n < BLOCK_HEADER then
      PageView(Mark(v.tiles, a, false), RemoveAt(v.free, j))
    else
      PageView(Cut(v.tiles, a, n), v.free[j := a + n])
  }

  lemma TakeKeepsPage(b: int, v: PageView, j: nat, n: int)
    requires PageOk(b, v) && j < |v.free| && BLOCK_HEADER <= n <= v.tiles[v.free[j]].size && Multiple16(n)
    ensures PageOk(b, Take(v, j, n))
  {
    var lo, hi := b + PAGE_HEADER, b + PAGE_SIZE;
    var t, a := v.tiles, v.free[j];
    if t[a].size - n < BLOCK_HEADER {
      MarkKeepsTiling(t, lo, hi, a, false);
      RemoveAtElements(v.free, j);
    } else {
      CutKeepsTiling(t, lo, hi, a, n);
      ReplaceElements(v.free, j, a + n);
      CutKeepsAlignment(t, a, n);
    }
    TakeKeepsCoalescing(b, v, j, n);
  }

  lemma TakeKeepsCoalescing(b: int, v: PageView, j: nat, n: int)
    requires PageOk(b, v) && j < |v.free| && BLOCK_HEADER <= n <= v.tiles[v.free[j]].size
    ensures Coalesced(Take(v, j, n).tiles, b + PAGE_SIZE)
  {
    var hi := b + PAGE_SIZE;
    var t, t' := v.tiles, Take(v, j, n).tiles;
    assert Merged(t, hi, v.free[j]);
    forall c {:trigger Merged(t', hi, c)} | c in t' ensures Merged(t', hi, c) {
      if c in t {
        assert Merged(t, hi, c);
      }
    }
  }

  /** Where the rest of a block that was cut comes to stand: in the place of the block; a block that is used as a
      whole leaves the list. All others keep their order. */
  lemma TakePlaces(v: PageView, j: nat, n: int, a: int)
    requires j < |v.free| && a == v.free[j] && a in v.tiles && 0 < n <= v.tiles[a].size
    ensures a in Take(v, j, n).tiles
    ensures v.tiles[a].size < n + 64 ==>
      Take(v, j, n).free == v.free[..j] + v.free[j + 1..] && Take(v, j, n).tiles[a] == Tile(v.tiles[a].size, false)
    ensures v.tiles[a].size >= n + 64 ==>
      && Take(v, j, n).free == v.free[..j] + [a + n] + v.free[j + 1..]
      && Take(v, j, n).tiles[a] == Tile(n, false) && a + n in Take(v, j, n).tiles
      && Take(v, j, n).tiles[a + n] == Tile(v.tiles[a].size - n, true)
  {
  }

  lemma TakeSum(b: int, v: PageView, j: nat, n: int)
    requires PageOk(b, v) && j < |v.free| && BLOCK_HEADER <= n <= v.tiles[v.free[j]].size
    ensures var t' := Take(v, j, n).tiles;
      SumFree(t', b + PAGE_HEADER, b + PAGE_SIZE) + t'[v.free[j]].size == SumFree(v.tiles, b + PAGE_HEADER, b + PAGE_SIZE)
  {
    var t, a := v.tiles, v.free[j];
    if t[a].size - n < BLOCK_HEADER {
      MarkSum(t, b + PAGE_HEADER, b + PAGE_SIZE, a, false);
    } else {
      CutSum(t, b + PAGE_HEADER, b + PAGE_SIZE, a, n);
    }
  }

  // ----- giving a block back -----

  ghost function LeftOf(t: map<int, Tile>, lo: int, hi: int, a: int): (l: int)
    requires Tiled(t, lo, hi) && a in t && a != lo
    ensures EndsAt(t, l, a)
  {
    assert Joined(t, lo, hi, a);
    var l :| EndsAt(t, l, a); l
  }

  /** The block right of a is free and absorbed; a last block of 64 bytes is never looked at. */
  predicate MergesRight(t: map<int, Tile>, hi: int, a: int)
    requires a in t
  {
    var n := a + t[a].size;
    n + BLOCK_HEADER < hi && n in t && t[n].free
  }

  ghost predicate MergesLeft(t: map<int, Tile>, lo: int, hi: int, a: int)
    requires Tiled(t, lo, hi) && a in t
  {
    a != lo && t[LeftOf(t, lo, hi, a)].free
  }

  /** The block at a turned free and joined with a free right neighbour. */
  function GrownRight(t: map<int, Tile>, hi: int, a: int): map<int, Tile>
    requires a in t
  {
    if MergesRight(t, hi, a) then Absorb(Mark(t, a, true), a) else Mark(t, a, true)
  }

  /** The blocks once the block at a is given back. */
  ghost function ReleaseTiles(t: map<int, Tile>, lo: int, hi: int, a: int): map<int, Tile>
    requires Tiled(t, lo, hi) && a in t
  {
    if MergesLeft(t, lo, hi, a) then Absorb(GrownRight(t, hi, a), LeftOf(t, lo, hi, a)) else GrownRight(t, hi, a)
  }

  /** The free list once the block at a is given back: a takes the position of an absorbed
      right neighbour n, needs none inside a free left neighbour, and else goes to the front. */
  function ReleaseList(free: seq<int>, a: int, n: int, right: bool, left: bool): seq<int>
    requires right ==> n in free
  {
    if right then
      if left then RemoveAt(free, IndexOf(free, n)) else free[IndexOf(free, n) := a]
    else if left then free
    else [a] + free
  }

  ghost function Release(v: PageView, lo: int, hi: int, a: int): PageView
    requires Tiled(v.tiles, lo, hi) && FreeListExact(v.tiles, v.free) && a in v.tiles
  {
    PageView(
      ReleaseTiles(v.tiles, lo, hi, a),
      ReleaseList(v.free, a, a + v.tiles[a].size, MergesRight(v.tiles, hi, a), MergesLeft(v.tiles, lo, hi, a)))
  }

  lemma ReleaseKeepsTiling(t: map<int, Tile>, lo: int, hi: int, a: int)
    requires Tiled(t, lo, hi) && a in t && !t[a].free
    ensures Tiled(ReleaseTiles(t, lo, hi, a), lo, hi)
    ensures SumFree(ReleaseTiles(t, lo, hi, a), lo, hi) == SumFree(t, lo, hi) + t[a].size
  {
    var freed := Mark(t, a, true);
    MarkKeepsTiling(t, lo, hi, a, true);
    MarkSum(t, lo, hi, a, true);
    if MergesRight(t, hi, a) {
      AbsorbKeepsTiling(freed, lo, hi, a);
      AbsorbSum(freed, lo, hi, a);
    }
    if MergesLeft(t, lo, hi, a) {
      AbsorbKeepsTiling(GrownRight(t, hi, a), lo, hi, LeftOf(t, lo, hi, a));
      AbsorbSum(GrownRight(t, hi, a), lo, hi, LeftOf(t, lo, hi, a));
    }
  }

  lemma ReleaseKeepsAlignment(t: map<int, Tile>, lo: int, hi: int, a: int)
    requires Tiled(t, lo, hi) && Aligned(t) && a in t
    ensures Aligned(ReleaseTiles(t, lo, hi, a))
  {
    if MergesRight(t, hi, a) {
      AbsorbKeepsAlignment(Mark(t, a, true), a);
    }
    if MergesLeft(t, lo, hi, a) {
      AbsorbKeepsAlignment(GrownRight(t, hi, a), LeftOf(t, lo, hi, a));
    }
  }

  /** After the step to the right, only the left neighbour can still be unmerged. */
  lemma GrownRightCoalesced(t: map<int, Tile>, lo: int, hi: int, a: int, c: int)
    requires Tiled(t, lo, hi) && Coalesced(t, hi) && a in t && !t[a].free
    requires c in GrownRight(t, hi, a) && !EndsAt(t, c, a)
    ensures Merged(GrownRight(t, hi, a), hi, c)
  {
    assert Merged(t, hi, c);
    if MergesRight(t, hi, a) {
      assert Merged(t, hi, a + t[a].size);
    } else if c == a {
      assert Joined(t, lo, hi, a);
    }
  }

  lemma ReleaseKeepsCoalescing(t: map<int, Tile>, lo: int, hi: int, a: int)
    requires Tiled(t, lo, hi) && Coalesced(t, hi) && a in t && !t[a].free
    ensures Coalesced(ReleaseTiles(t, lo, hi, a), hi)
  {
    var g, t' := GrownRight(t, hi, a), ReleaseTiles(t, lo, hi, a);
    forall c {:trigger Merged(t', hi, c)} | c in t' ensures Merged(t', hi, c) {
      if EndsAt(t, c, a) {
        if MergesLeft(t, lo, hi, a) {
          GrownRightCoalesced(t, lo, hi, a, a);
          assert Merged(g, hi, a);
        }
      } else {
        GrownRightCoalesced(t, lo, hi, a, c);
        assert Merged(t, hi, c);
      }
    }
  }

  /** Which blocks are free afterwards. */
  lemma ReleaseFreeBlocks(t: map<int, Tile>, lo: int, hi: int, a: int, x: int)
    requires Tiled(t, lo, hi) && a in t && !t[a].free
    ensures var t' := ReleaseTiles(t, lo, hi, a);
      x in t' && t'[x].free <==>
        || (x == a && !MergesLeft(t, lo, hi, a))
        || (x in t && t[x].free && !(MergesRight(t, hi, a) && x == a + t[a].size))
  {
  }

  lemma ReleaseKeepsPage(b: int, v: PageView, a: int)
    requires PageOk(b, v) && a in v.tiles && !v.tiles[a].free
    ensures PageOk(b, Release(v, b + PAGE_HEADER, b + PAGE_SIZE, a))
  {
    var lo, hi := b + PAGE_HEADER, b + PAGE_SIZE;
    ReleaseKeepsTiling(v.tiles, lo, hi, a);
    ReleaseKeepsAlignment(v.tiles, lo, hi, a);
    ReleaseKeepsCoalescing(v.tiles, lo, hi, a);
    ReleaseKeepsFreeList(v, lo, hi, a);
  }

  lemma ReleaseListElements(free: seq<int>, a: int, n: int, right: bool, left: bool)
    requires NoDuplicates(free) && a !in free && (right ==> n in free)
    ensures NoDuplicates(ReleaseList(free, a, n, right, left))
    ensures forall x :: x in ReleaseList(free, a, n, right, left) <==>
      (x == a && !left) || (x in free && !(right && x == n))
  {
    if right {
      if left {
        RemoveAtElements(free, IndexOf(free, n));
      } else {
        ReplaceElements(free, IndexOf(free, n), a);
      }
    }
  }

  lemma ReleaseKeepsFreeList(v: PageView, lo: int, hi: int, a: int)
    requires Tiled(v.tiles, lo, hi) && FreeListExact(v.tiles, v.free) && a in v.tiles && !v.tiles[a].free
    ensures FreeListExact(Release(v, lo, hi, a).tiles, Release(v, lo, hi, a).free)
  {
    var v' := Release(v, lo, hi, a);
    ReleaseListElements(v.free, a, a + v.tiles[a].size, MergesRight(v.tiles, hi, a), MergesLeft(v.tiles, lo, hi, a));
    forall x ensures x in v'.tiles && v'.tiles[x].free <==> x in v'.free {
      ReleaseFreeBlocks(v.tiles, lo, hi, a, x);
    }
  }

  lemma LeftIs(t: map<int, Tile>, lo: int, hi: int, a: int)
    requires Tiled(t, lo, hi) && a in t
    ensures MergesLeft(t, lo, hi, a) <==> FreeLeft(t, a)
  {
    if l :| EndsAt(t, l, a) && t[l].free {
      assert a != lo;
      var m := LeftOf(t, lo, hi, a);
      assert EndsAt(t, m, a);
    }
  }

  /** A block is free and ends where a starts. */
  ghost predicate FreeLeft(t: map<int, Tile>, a: int) {
    exists l :: EndsAt(t, l, a) && t[l].free
  }

  /** A block is free and starts where a ends, and more than 64 bytes before the end of the page. */
  predicate FreeRight(v: PageView, hi: int, a: int)
    requires a in v.tiles
  {
    a + v.tiles[a].size in v.free && a + v.tiles[a].size + 64 < hi
  }

  /** Where a block given back comes to stand in the free list: in front, if no neighbour is free, so that it is
      the first to be tried; in the place of the block right of it, if that is absorbed; and nowhere, if
      the block left of it absorbs it. All others keep their order. */
  lemma ReleasePlaces(v: PageView, lo: int, hi: int, a: int, n: int)
    requires Tiled(v.tiles, lo, hi) && FreeListExact(v.tiles, v.free) && a in v.tiles && !v.tiles[a].free
    requires n == a + v.tiles[a].size
    ensures !FreeLeft(v.tiles, a) && !FreeRight(v, hi, a) ==> Release(v, lo, hi, a).free == [a] + v.free
    ensures FreeLeft(v.tiles, a) && !FreeRight(v, hi, a) ==> Release(v, lo, hi, a).free == v.free
    ensures !FreeLeft(v.tiles, a) && FreeRight(v, hi, a) ==>
      exists k :: 0 <= k < |v.free| && v.free[k] == n && Release(v, lo, hi, a).free == v.free[k := a]
    ensures FreeLeft(v.tiles, a) && FreeRight(v, hi, a) ==>
      exists k :: 0 <= k < |v.free| && v.free[k] == n && Release(v, lo, hi, a).free == v.free[..k] + v.free[k + 1..]
  {
    LeftIs(v.tiles, lo, hi, a);
    assert MergesRight(v.tiles, hi, a) <==> FreeRight(v, hi, a);
    if n in v.free {
      var k := IndexOf(v.free, n);
      assert v.free[k] == n;
    }
  }
}
