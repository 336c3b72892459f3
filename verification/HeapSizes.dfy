/** The sizes of the boot heap: what a request comes to in blocks and pages, computed in machine words that
    wrap around. */
module HeapSizes {
  const PAGE_SIZE: int := 4096
  /** Bytes taken by the page header, and by the header of each block. */
  const PAGE_HEADER: int := 64
  const BLOCK_HEADER: int := 64
  const ALIGN: int := 16

  /** Bytes in a size_t or a pointer: 4 on i386, 8 on the 64-bit targets. */
  type WordSize = w: nat | w == 4 || w == 8 witness 4

  /** Number of values of a size_t. */
  function Modulus(w: WordSize): nat {
    if w == 4 then 0x1_0000_0000 else 0x1_0000_0000_0000_0000
  }

  /** Result of a size_t computation whose exact value is x. */
  function Wrap(w: WordSize, x: nat): (r: nat)
    ensures r < Modulus(w)
    ensures x < Modulus(w) ==> r == x
    ensures Modulus(w) <= x < 2 * Modulus(w) ==> r == x - Modulus(w)
  {
    if w == 4 then x % 0x1_0000_0000 else x % 0x1_0000_0000_0000_0000
  }

  predicate Multiple16(x: int) {
    x % 16 == 0
  }

  /** Cutting and joining keep addresses and sizes multiples of the alignment. */
  lemma Multiple16Sums(x: int, y: int)
    requires Multiple16(x) && Multiple16(y)
    ensures Multiple16(x + y)
    ensures Multiple16(y - x)
  {
    assert x == 16 * (x / 16) && y == 16 * (y / 16);
    assert x + y == 16 * (x / 16 + y / 16) && y - x == 16 * (y / 16 - x / 16);
  }

  /** The block size for a request, with size_t wrap-around at every addition. */
  function AlignSize(w: WordSize, sz: nat): nat {
    RoundedUp(w, Wrap(w, Wrap(w, sz + BLOCK_HEADER) + w))
  }

  /** The next multiple of the alignment, also with wrap-around. */
  function RoundedUp(w: WordSize, s: nat): nat {
    if s % ALIGN != 0 then Wrap(w, s - s % ALIGN + ALIGN) else s
  }

  /** Whether an aligned size is sent to whole pages. */
  predicate IsLarge(w: WordSize, n: nat) {
    Wrap(w, n + PAGE_HEADER) > PAGE_SIZE
  }

  /** Pages for a large block; the count is kept in 32 bits. */
  function PageCount(w: WordSize, n: nat): nat {
    Wrap(w, Wrap(w, n + PAGE_HEADER) + (PAGE_SIZE - 1)) / PAGE_SIZE % 0x1_0000_0000
  }

  /** The largest request whose size computations neither wrap nor truncate. The firmware takes the
      count of pages as a signed number of 32 bits, so it is asked for a negative one from 8 TiB on, which
      is below this limit with words of 64 bits. */
  function RequestLimit(w: WordSize): nat {
    (if w == 4 then 0x1_0000_0000 else 0x1000_0000_0000) - 4224 - w
  }

  /** The pages taken for a block size, one or several, have room for it with the page header. */
  predicate PagesCover(w: WordSize, n: nat) {
    if IsLarge(w, n) then n + PAGE_HEADER <= PageCount(w, n) * PAGE_SIZE else n + PAGE_HEADER <= PAGE_SIZE
  }

  /** The block that would be used holds the request, its header and its end word. */
  predicate BlockCovers(w: WordSize, sz: nat) {
    sz + BLOCK_HEADER + w <= AlignSize(w, sz) && PagesCover(w, AlignSize(w, sz))
  }

  lemma NextMultiple(s: nat, m: nat)
    requires Multiple16(m) && s < m && s % ALIGN != 0
    ensures Multiple16(s - s % ALIGN + ALIGN) && s < s - s % ALIGN + ALIGN <= m && s - s % ALIGN + ALIGN < s + ALIGN
  {
    assert s == 16 * (s / 16) + s % 16 && m == 16 * (m / 16);
    assert s - s % 16 + 16 == 16 * (s / 16 + 1);
  }

  /** Rounding up wraps to 0 only, so even a size that wrapped is a multiple of the alignment. */
  lemma RoundedUpIs(w: WordSize, s: nat)
    requires s < Modulus(w)
    ensures Multiple16(RoundedUp(w, s)) && (RoundedUp(w, s) == 0 || s <= RoundedUp(w, s) < s + ALIGN)
  {
    if s % ALIGN != 0 {
      var up := s - s % ALIGN + ALIGN;
      assert Multiple16(Modulus(w));
      NextMultiple(s, Modulus(w));
      if up == Modulus(w) {
        assert Wrap(w, up) == 0;
      } else {
        assert Wrap(w, up) == up;
      }
    }
  }

  lemma AlignSizeMultiple(w: WordSize, sz: nat)
    ensures Multiple16(AlignSize(w, sz))
  {
    RoundedUpIs(w, Wrap(w, Wrap(w, sz + BLOCK_HEADER) + w));
  }

  /** The size of a block whose computation does not wrap before it is rounded up. */
  lemma AlignSizeIs(w: WordSize, sz: nat)
    requires sz + BLOCK_HEADER + w < Modulus(w)
    ensures AlignSize(w, sz) == RoundedUp(w, sz + BLOCK_HEADER + w)
    ensures var n := AlignSize(w, sz); n % ALIGN == 0 && (n == 0 || sz + BLOCK_HEADER + w <= n < sz + BLOCK_HEADER + w + ALIGN)
  {
    RoundedUpIs(w, sz + BLOCK_HEADER + w);
  }

  lemma PagesCoverIff(w: WordSize, n: nat)
    requires n % ALIGN == 0 && n < Modulus(w)
    ensures PagesCover(w, n) <==> n <= (if w == 4 then 0x1_0000_0000 else 0x1000_0000_0000) - 4160
  {
    if n + PAGE_HEADER + (PAGE_SIZE - 1) < Modulus(w) {
      assert Wrap(w, Wrap(w, n + PAGE_HEADER) + (PAGE_SIZE - 1)) == n + PAGE_HEADER + (PAGE_SIZE - 1);
    } else if n + PAGE_HEADER < Modulus(w) {
      assert PageCount(w, n) == 0;
    }
  }

  /** The exact range of requests that the size computation handles. */
  lemma BlockCoversIff(w: WordSize, sz: nat)
    requires sz < Modulus(w)
    ensures BlockCovers(w, sz) <==> sz <= RequestLimit(w)
  {
    if sz + BLOCK_HEADER + w < Modulus(w) {
      AlignSizeIs(w, sz);
      PagesCoverIff(w, AlignSize(w, sz));
    }
  }

  /** n bytes are a block for a request: the least multiple of 16 with room for the request, the header
      of 64 bytes and the end word. */
  predicate BlockFor(w: WordSize, sz: nat, n: nat) {
    n % 16 == 0 && sz + 64 + w <= n < sz + 80 + w
  }

  /** Any two multiples of 16 are 16 apart. */
  lemma OnlyMultiple(s: nat, n: nat, m: nat)
    requires n % 16 == 0 && m % 16 == 0 && s <= n < s + 16 && s <= m < s + 16
    ensures n == m
  {
    assert n == 16 * (n / 16) && m == 16 * (m / 16);
  }

  lemma PagesAreFewest(w: WordSize, n: nat)
    requires n % ALIGN == 0 && n <= (if w == 4 then 0x1_0000_0000 else 0x1000_0000_0000) - 4160
    ensures IsLarge(w, n) <==> n > 4032
    ensures (PageCount(w, n) - 1) * 4096 < n + 64 <= PageCount(w, n) * 4096
  {
    assert Wrap(w, Wrap(w, n + PAGE_HEADER) + (PAGE_SIZE - 1)) == n + 4159;
    assert (n + 4159) / 4096 < 0x1_0000_0000;
  }

  /** What a request of the range that is handled comes to: the least block, and the fewest pages for it
      when it does not fit in one page. */
  lemma RequestSizes(w: WordSize, sz: nat, n: nat)
    requires sz <= RequestLimit(w) && BlockFor(w, sz, n)
    ensures AlignSize(w, sz) == n && (IsLarge(w, n) <==> n > 4032)
    ensures n > 4032 ==> (PageCount(w, n) - 1) * 4096 < n + 64 <= PageCount(w, n) * 4096
  {
    BlockCoversIff(w, sz);
    AlignSizeIs(w, sz);
    OnlyMultiple(sz + 64 + w, n, AlignSize(w, sz));
    PagesCoverIff(w, n);
    PagesAreFewest(w, n);
  }

  /** The largest 64-bit value asks for an 80-byte block. */
  lemma LargestRequestWraps()
    ensures AlignSize(8, 0xFFFF_FFFF_FFFF_FFFF) == 80
    ensures !BlockCovers(8, 0xFFFF_FFFF_FFFF_FFFF)
  {
  }
}
