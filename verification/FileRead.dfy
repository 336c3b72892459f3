/** Reading files: block-wise reads through the file system, and the loader that reads a whole file
    page by page. */
module FileRead {
  import opened Multiples
  import opened Pages

  /** Sizes and positions are numbers of 32 bits. */
  const LIMIT: nat := 0x1_0000_0000

  function Min(a: int, b: int): int {
    if a <= b then a else b
  }

  /** n bytes of the contents copied into a buffer. */
  ghost predicate Filled(buf: seq<int>, buf': seq<int>, at: nat, contents: seq<int>, from: nat, n: nat) {
    && |buf'| == |buf| && at + n <= |buf| && (n == 0 || from + n <= |contents|)
    && forall k | 0 <= k < |buf| :: buf'[k] == if at <= k < at + n then contents[from + k - at] else buf[k]
  }

  lemma FilledMore(a: seq<int>, b: seq<int>, c: seq<int>, at: nat, contents: seq<int>, from: nat, n: nat, m: nat)
    requires from <= |contents| && Filled(a, b, at, contents, from, n) && Filled(b, c, at + n, contents, from + n, m)
    ensures Filled(a, c, at, contents, from, n + m)
  {
  }

  /** An open file. Blocks are read by a file system driver: disk gives each block of the file, and
      readable whether it can be read, which may differ from one read to the next. */
  class File {
    const size: nat
    const blockSz: nat
    const blockBuf: array<int>
    const disk: nat -> seq<int>
    const readable: (nat, nat) -> bool
    ghost const contents: seq<int>
    var pos: nat
    /** How many blocks were asked for. */
    var tries: nat

    /** The blocks of the disk hold the contents of the file. */
    ghost predicate Valid()
    {
      && 0 < blockSz <= PAGE_SIZE && blockBuf.Length == blockSz && |contents| == size <= LIMIT - 2 * PAGE_SIZE
      && (forall b :: |disk(b)| == blockSz)
      && (forall b, j | 0 <= j < blockSz && Times(b, blockSz) + j < size :: disk(b)[j] == contents[Times(b, blockSz) + j])
    }

    /** No read of a block with bytes from one position up to another fails. */
    ghost predicate Readable(from: int, to: int) {
      forall t: nat, b: nat | from < Times(b, blockSz) + blockSz && Times(b, blockSz) < to :: readable(t, b)
    }

    /** A read of the block that holds a position has failed. */
    ghost predicate Failed(at: int)
      reads this`tries
    {
      exists t: nat, b: nat :: t < tries && Times(b, blockSz) <= at < Times(b, blockSz) + blockSz && !readable(t, b)
    }

    constructor (blockSz: nat, disk: nat -> seq<int>, readable: (nat, nat) -> bool, size: nat, ghost contents: seq<int>)
      requires 0 < blockSz <= PAGE_SIZE && |contents| == size <= LIMIT - 2 * PAGE_SIZE && (forall b :: |disk(b)| == blockSz)
      requires forall b, j | 0 <= j < blockSz && Times(b, blockSz) + j < size :: disk(b)[j] == contents[Times(b, blockSz) + j]
      ensures Valid() && pos == 0 && tries == 0 && fresh(blockBuf) && this.contents == contents && this.blockSz == blockSz
      ensures this.readable == readable && this.disk == disk && this.size == size
    {
      this.blockSz, this.disk, this.readable, this.size, this.contents := blockSz, disk, readable, size, contents;
      blockBuf := new int[blockSz];
      pos, tries := 0, 0;
    }

    /** Fills the block buffer with the block that holds a position. */
    method ReadBlock(at: nat) returns (ok: bool)
      requires Valid()
      modifies this`tries, blockBuf
      ensures tries == old(tries) + 1
      ensures ok == readable(old(tries), at / blockSz) && (ok ==> blockBuf[..] == disk(at / blockSz))
    {
      var b := at / blockSz;
      ok := readable(tries, b);
      tries := tries + 1;
      if ok {
        forall j | 0 <= j < blockSz {
          blockBuf[j] := disk(b)[j];
        }
      }
    }

    /** How many bytes one block read copies from off bytes into the block on. */
    function Chunk(count: nat, off: nat): int
      reads this`pos
    {
      if pos + Min(count, blockSz) > size then size - pos else if blockSz > count then count else blockSz - off
    }

    /** Those bytes are in the block buffer. */
    predicate InBuffer(count: nat, off: nat)
      reads this`pos
    {
      off + Chunk(count, off) <= blockSz
    }

    /** The bytes that one block read copies are in the block buffer if and only if not more are asked for
        than the rest of the block, or the file has not more than that, or a whole block is asked for and
        the file goes on for one. Then they are what is asked for, up to the end of the block and of the
        file. */
    lemma InBufferIff(count: nat, off: nat)
      requires Valid() && pos <= size && off < blockSz
      ensures InBuffer(count, off) <==>
        count <= blockSz - off || size - pos <= blockSz - off || (blockSz <= count && pos + blockSz <= size)
      ensures InBuffer(count, off) ==> Chunk(count, off) == Min(Min(count, blockSz - off), size - pos)
    {
    }

    /** Copies n bytes of the block buffer, from base on. */
    method CopyOut(buf: array<int>, at: nat, base: nat, n: nat)
      requires base + n <= blockBuf.Length && at + n <= buf.Length && buf != blockBuf
      modifies buf
      ensures forall k | 0 <= k < buf.Length :: buf[k] == if at <= k < at + n then blockBuf[base + k - at] else old(buf[k])
    {
      forall j | 0 <= j < n {
        buf[at + j] := blockBuf[base + j];
      }
    }

    /** Bytes of a block are bytes of the file. */
    lemma BlockPart(b: nat, off: nat, n: nat)
      requires Valid() && off + n <= blockSz && Times(b, blockSz) + off + n <= size
      ensures forall j {:trigger disk(b)[j]} | off <= j < off + n :: disk(b)[j] == contents[Times(b, blockSz) + j]
    {
    }

    /** Reads at most one block at the position of the file, which is off bytes into block b. */
    method ReadNext(buf: array<int>, at: nat, count: nat, ghost b: nat, ghost off: nat) returns (ok: bool, n: nat)
      requires Valid() && buf != blockBuf && pos <= size && pos == Times(b, blockSz) + off && off < blockSz
      requires InBuffer(count, off) && at + Chunk(count, off) <= buf.Length
      modifies this`pos, this`tries, buf, blockBuf
      ensures tries == old(tries) + 1 && ok == readable(old(tries), b) && (!ok ==> n == 0) && (ok ==> n == old(Chunk(count, off)))
      ensures pos == old(pos) + n <= size && Filled(old(buf[..]), buf[..], at, contents, old(pos), n)
    {
      DivIs(b, off, blockSz);
      n := 0;
      ok := ReadBlock(pos);
      if !ok {
        return;
      }
      if pos + (if count > blockSz then blockSz else count) > size {
        n := size - pos;
      } else if blockSz > count {
        n := count;
      } else {
        n := blockSz - pos % blockSz;
      }
      var base := pos % blockSz;
      BlockPart(b, off, n);
      CopyOut(buf, at, base, n);
      pos := pos + n;
    }

    /** Reads at most one block after the got bytes that were read from a position on. */
    method ReadMore(buf: array<int>, at: nat, got: nat, count: nat, ghost b: nat, ghost off: nat, ghost was: seq<int>,
        ghost from: nat) returns (ok: bool, n: nat)
      requires Valid() && buf != blockBuf && pos <= size && pos == Times(b, blockSz) + off && off < blockSz
      requires InBuffer(count, off) && at + got + Chunk(count, off) <= buf.Length
      requires pos == from + got && Filled(was, buf[..], at, contents, from, got)
      modifies this`pos, this`tries, buf, blockBuf
      ensures tries == old(tries) + 1 && ok == readable(old(tries), b) && (!ok ==> n == 0) && (ok ==> n == old(Chunk(count, off)))
      ensures pos == old(pos) + n <= size && Filled(was, buf[..], at, contents, from, got + n)
    {
      ghost var between := buf[..];
      ok, n := ReadNext(buf, at + got, count, b, off);
      FilledMore(was, between, buf[..], at, contents, from, got, n);
    }

    /** Reads numBlocks blocks, or a part of one, from the position of the file, which is off bytes into
        block b. */
    method ReadBlocks(buf: array<int>, at: nat, count: nat, numBlocks: nat, ghost b: nat, ghost off: nat)
        returns (ok: bool, bytesRead: nat, ghost bad: nat)
      requires Valid() && buf != blockBuf && pos < size && pos == Times(b, blockSz) + off && off < blockSz
      requires (off == 0 && count == Times(numBlocks, blockSz))
        || (InBuffer(count, off) && (off > 0 || count <= blockSz)
          && (numBlocks == 0 <==> count == 0) && (count <= blockSz ==> numBlocks <= 1))
      requires at + count <= buf.Length
      modifies this`pos, this`tries, buf, blockBuf
      ensures pos == old(pos) + bytesRead <= size && bytesRead <= count
      ensures Filled(old(buf[..]), buf[..], at, contents, old(pos), bytesRead)
      ensures ok ==> bytesRead == Min(if off == 0 then count else Min(count, blockSz - off), size - old(pos))
      ensures old(tries) <= tries && (!ok ==> 0 < tries && !readable(tries - 1, bad))
      ensures !ok ==> bytesRead < count && pos == Times(bad, blockSz) + off
      ensures !ok && bytesRead > 0 ==> off == 0
    {
      bytesRead := 0;
      ok, bad := true, b;
      ghost var was, from := buf[..], pos;
      for i := 0 to numBlocks
        invariant ok && bytesRead == Times(i, blockSz) <= count && (i > 0 ==> off == 0 && count == Times(numBlocks, blockSz))
        invariant old(tries) <= tries && pos == from + bytesRead <= size && pos == Times(bad, blockSz) + off
        invariant Filled(was, buf[..], at, contents, from, bytesRead)
      {
        TimesApart(i, numBlocks, blockSz);
        InBufferIff(count, off);
        var n;
        ok, n := ReadMore(buf, at, bytesRead, count, bad, off, was, from);
        bytesRead := bytesRead + n;
        if !ok || n != blockSz {
          return;
        }
        bad := bad + 1;
      }
    }

    /** What can be asked for: whole blocks from the start of one, or a read that copies from one block
        only, and not from behind the block buffer. */
    ghost predicate Askable(count: nat)
      reads this`pos
      requires 0 < blockSz
    {
      var off := Offset(pos, blockSz);
      || (off == 0 && Multiple(count, blockSz))
      || (InBuffer(count, off) && (off > 0 || count <= blockSz))
    }

    /** Where a read of count bytes ends when all blocks can be read: from within a block, at its end. */
    ghost function End(count: nat): int
      reads this`pos
      requires 0 < blockSz
    {
      var off := Offset(pos, blockSz);
      var asked := if off == 0 then count else Min(count, blockSz - off);
      if pos >= size then pos else pos + Min(asked, size - pos)
    }

    lemma BadBlock(bad: nat, off: nat, from: int, t: nat)
      requires off < blockSz && pos == Times(bad, blockSz) + off && t < tries && !readable(t, bad) && from <= pos
      ensures Failed(pos) && forall to | pos < to :: !Readable(from, to)
    {
    }

    /** Reads from a position in the file, which is off bytes behind the start of a block, up to the block bad when it
        fails. */
    method ReadInside(buf: array<int>, at: nat, count: nat)
        returns (ok: bool, bytesRead: nat, ghost bad: nat, ghost off: nat)
      requires Valid() && Askable(count) && at + count <= buf.Length && buf != blockBuf && count < LIMIT - PAGE_SIZE
      requires pos < size
      modifies this`pos, this`tries, buf, blockBuf
      ensures off == old(Offset(pos, blockSz)) && off < blockSz && old(tries) <= tries
      ensures pos == old(pos) + bytesRead <= old(End(count)) && (ok ==> pos == old(End(count)))
      ensures Filled(old(buf[..]), buf[..], at, contents, old(pos), bytesRead)
      ensures !ok ==> bytesRead < count && pos == Times(bad, blockSz) + off && 0 < tries && !readable(tries - 1, bad)
    {
      var numBlocks := (count + (blockSz - 1)) / blockSz;
      BlockCount(count, blockSz);
      ghost var b;
      b, off := BlockOf(pos, blockSz);
      ok, bytesRead, bad := ReadBlocks(buf, at, count, numBlocks, b, off);
    }

    /** Reads up to count bytes from the position of the file: what is there, up to the first block that
        cannot be read. A read that reaches the end of the file may still fail, on what follows it. */
    method Read(buf: array<int>, at: nat, count: nat) returns (ok: bool, bytesRead: nat)
      requires Valid() && Askable(count) && at + count <= buf.Length && buf != blockBuf && count < LIMIT - PAGE_SIZE
      modifies this`pos, this`tries, buf, blockBuf
      ensures pos == old(pos) + bytesRead <= old(End(count))
      ensures Filled(old(buf[..]), buf[..], at, contents, old(pos), bytesRead)
      ensures if ok then pos == old(End(count)) else old(pos) < size && bytesRead < count && Failed(pos)
      ensures old(tries) <= tries && (Readable(old(pos), old(End(count))) ==> pos == old(End(count)))
      ensures old(Offset(pos, blockSz)) == 0 && old(pos) < size && Multiple(count, blockSz) ==> Offset(pos, blockSz) == 0 || pos == size
    {
      bytesRead := 0;
      if pos >= size {
        return true, 0;
      }
      ghost var bad, off;
      ok, bytesRead, bad, off := ReadInside(buf, at, count);
      AlignedEnd(old(pos), pos, count, blockSz, bad, off, ok);
      if !ok {
        BadBlock(bad, off, old(pos), tries - 1);
      }
    }

    /** Reads from the file: the number of bytes, as a signed number of 32 bits, or -1 when a block could
        not be read. */
    method ReadFile(buf: array<int>, at: nat, count: nat) returns (res: int)
      requires Valid() && Askable(count) && at + count <= buf.Length && buf != blockBuf && count < LIMIT - PAGE_SIZE
      modifies this`pos, this`tries, buf, blockBuf
      ensures old(pos) <= pos <= old(End(count))
      ensures if res == -1 then old(pos) < size && pos < old(pos) + count && Failed(pos)
        else res == Signed32(pos - old(pos)) && pos == old(End(count))
      ensures count <= OFFSET_LIMIT - 1 && res != -1 ==> res == pos - old(pos)
      ensures Filled(old(buf[..]), buf[..], at, contents, old(pos), pos - old(pos))
      ensures old(tries) <= tries && (Readable(old(pos), old(End(count))) ==> pos == old(End(count)))
      ensures old(Offset(pos, blockSz)) == 0 && old(pos) < size && Multiple(count, blockSz) ==> Offset(pos, blockSz) == 0 || pos == size
    {
      var ok, bytesRead := Read(buf, at, count);
      res := if ok then Signed32(bytesRead) else -1;
    }
  }

  /** A number of whole blocks. */
  ghost predicate Multiple(n: nat, b: nat) {
    exists k: nat :: n == Times(k, b)
  }

  lemma MultipleIff(n: nat, b: nat)
    requires 0 < b
    ensures Multiple(n, b) <==> n % b == 0
  {
    DivMod(n, b);
    if k: nat :| n == Times(k, b) {
      DivIs(k, 0, b);
    }
  }

  lemma BlockOf(n: nat, b: nat) returns (k: nat, off: nat)
    requires 0 < b
    ensures n == Times(k, b) + off && off < b && off == Offset(n, b)
  {
    k, off := n / b, Offset(n, b);
    OffsetIs(n, b);
  }

  lemma AlignedSum(m: nat, n: nat, b: nat)
    requires 0 < b && Offset(m, b) == 0 && Multiple(n, b)
    ensures Offset(m + n, b) == 0
  {
    var k: nat :| n == Times(k, b);
    OffsetIs(m, b);
    TimesSum(m / b, k, b);
    OffsetOf(m / b + k, 0, b);
  }

  /** Where a read of whole blocks stops before the end of the file, a block starts. */
  lemma AlignedEnd(from: nat, to: nat, count: nat, b: nat, bad: nat, off: nat, ok: bool)
    requires 0 < b && off < b && off == Offset(from, b) && (!ok ==> to == Times(bad, b) + off)
    ensures off == 0 && Multiple(count, b) && (!ok || to == from + count) ==> Offset(to, b) == 0
  {
    if off == 0 && Multiple(count, b) {
      AlignedSum(from, count, b);
    }
    OffsetOf(bad, off, b);
  }

  /** How many blocks are read. */
  lemma BlockCount(count: nat, b: nat)
    requires 0 < b
    ensures Multiple(count, b) ==> count == Times((count + (b - 1)) / b, b)
    ensures (count + (b - 1)) / b == 0 <==> count == 0
    ensures count <= b ==> (count + (b - 1)) / b <= 1
  {
    var q, r := count / b, count % b;
    DivMod(count, b);
    MultipleIff(count, b);
    RoundUp(q, r, b);
    if 0 < count < b {
      Unique(b, q, r, 0, count);
    } else if count == b {
      Unique(b, q, r, 1, 0);
    } else if count == 0 {
      Unique(b, q, r, 0, 0);
    }
  }

  /** Loads a whole file into memory, page by page. A read that fails goes unnoticed: the result is never
      null, and holds the file up to the first block whose read failed; the whole file if none does. */
  method OsReadFile(file: File) returns (fileBase: array?<int>, ghost loaded: nat)
    requires file.Valid() && file.pos == 0 && Multiple(PAGE_SIZE, file.blockSz) && file.size <= OFFSET_LIMIT
    modifies file, file.blockBuf
    ensures fileBase != null && fresh(fileBase) && file.size <= fileBase.Length < file.size + PAGE_SIZE
    ensures loaded <= file.size && fileBase[..loaded] == file.contents[..loaded]
    ensures loaded < file.size ==> file.Failed(loaded)
    ensures file.Readable(0, file.size) ==> fileBase[..file.size] == file.contents
  {
    var numPages := (file.size + (PAGE_SIZE - 1)) / PAGE_SIZE;
    PageOffsetsIff(file.size);
    fileBase := new int[numPages * PAGE_SIZE];
    loaded := 0;
    for i := 0 to numPages
      invariant file.pos <= i * PAGE_SIZE && (Offset(file.pos, file.blockSz) == 0 || file.pos == file.size)
      invariant loaded <= Min(i * PAGE_SIZE, file.size) && forall k | 0 <= k < loaded :: fileBase[k] == file.contents[k]
      invariant file.pos == loaded == Min(i * PAGE_SIZE, file.size) || (loaded < file.size && file.Failed(loaded))
    {
      assert PageOffset(i) == i * PAGE_SIZE;
      ghost var whole := file.pos == loaded == Min(i * PAGE_SIZE, file.size);
      var res := file.ReadFile(fileBase, PageOffset(i), PAGE_SIZE);
      if res == 0 {
        return null, loaded;
      }
      if whole {
        loaded := file.pos;
      }
    }
    if loaded < file.size {
      NotReadable(file, loaded);
    }
  }

  lemma NotReadable(file: File, at: nat)
    requires file.Valid() && at < file.size && file.Failed(at)
    ensures !file.Readable(0, file.size)
  {
  }
}
