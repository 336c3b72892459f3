/** Pages, and the positions of pages as the loaders compute them: a product of two signed numbers of
    32 bits. */
module Pages {
  const PAGE_SIZE: nat := 4096
  /** The number of bytes up to which all those positions are right. */
  const OFFSET_LIMIT: nat := 0x8000_0000

  function PageCount(bytes: nat): nat {
    (bytes + (PAGE_SIZE - 1)) / PAGE_SIZE
  }

  /** The pages of an area are the fewest that hold it. */
  lemma PageCountIs(bytes: nat)
    ensures PageCount(bytes) * 4096 >= bytes
    ensures bytes > 0 ==> (PageCount(bytes) - 1) * 4096 < bytes
    ensures PageCount(0) == 0
  {
  }

  /** A number as its lowest 32 bits, read as a signed number. */
  function Signed32(x: nat): int {
    var low := x % 0x1_0000_0000;
    if low < 0x8000_0000 then low else low - 0x1_0000_0000
  }

  /** Where page i is taken to be. */
  function PageOffset(i: nat): int {
    Signed32(i * PAGE_SIZE)
  }

  /** All pages of an area are where they are taken to be if and only if the area is within the limit. */
  lemma PageOffsetsIff(bytes: nat)
    ensures (forall i: nat | i < PageCount(bytes) :: PageOffset(i) == i * PAGE_SIZE) <==> bytes <= OFFSET_LIMIT
  {
    if bytes > OFFSET_LIMIT {
      assert 0x8_0000 < PageCount(bytes) && PageOffset(0x8_0000) != 0x8_0000 * PAGE_SIZE;
    }
  }
}
