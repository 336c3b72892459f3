/** The display with two buffers: the back buffer is a ring of scan lines that starts at a moving
    pointer, and regions of it are copied to the front buffer, which is what is seen. */
module Display {
  import opened Multiples

  /** The byte x of scan line y in a buffer with bpl bytes for each line. */
  function At(s: seq<int>, bpl: nat, y: int, x: int): int {
    if 0 <= y && 0 <= x < bpl && Times(y, bpl) + x < |s| then s[Times(y, bpl) + x] else 0
  }

  /** The scan line of the ring that is y lines after its start. */
  function Ring(first: nat, height: nat, y: int): int {
    if first + y < height then first + y else first + y - height
  }

  /** Only the last line ends where the buffer ends. */
  lemma LineEnds(r: nat, height: nat, bpl: nat)
    requires r <= height
    ensures r < height ==> Times(r, bpl) + bpl <= Times(height, bpl)
  {
    if r < height {
      TimesApart(r, height, bpl);
    }
  }

  lemma {:induction false} PixelsFit(x: nat, w: nat, width: nat, bytesPerPx: nat)
    requires x + w <= width
    ensures Times(x, bytesPerPx) + Times(w, bytesPerPx) <= Times(width, bytesPerPx)
  {
    TimesSum(x, w, bytesPerPx);
    if x + w < width {
      TimesApart(x + w, width, bytesPerPx);
    }
  }

  /** Where a region starts in the ring. */
  lemma RingStart(first: nat, y: nat, height: nat, bpl: nat, x: nat, n: nat)
    requires first < height && y < height && 0 < n && x + n <= bpl
    ensures var from, end := Times(first, bpl) + (Times(y, bpl) + x), Times(height, bpl);
      (if from >= end then from - end else from) == Times(Ring(first, height, y), bpl) + x
  {
    TimesSum(first, y, bpl);
    if first + y < height {
      TimesApart(first + y, height, bpl);
    } else {
      TimesSum(first + y - height, height, bpl);
    }
  }

  /** The bytes from position to on replaced by n bytes of b from position from on. */
  ghost predicate Copied(a: seq<int>, a': seq<int>, to: int, b: seq<int>, from: int, n: int) {
    && |a'| == |a|
    && (0 < n ==> 0 <= to && to + n <= |a| && 0 <= from && from + n <= |b|)
    && forall k | 0 <= k < |a| :: a'[k] == if to <= k < to + n then b[from + k - to] else a[k]
  }

  /** Copying a part of line r of b to the same part of line y of a changes nothing else. */
  lemma PartCopied(a: seq<int>, a': seq<int>, b: seq<int>, bpl: nat, y: nat, r: nat, x: nat, n: nat, z: nat, w: int)
    requires x + n <= bpl && Copied(a, a', Times(y, bpl) + x, b, Times(r, bpl) + x, n)
    ensures At(a', bpl, z, w) == if z == y && x <= w < x + n then At(b, bpl, r, w) else At(a, bpl, z, w)
  {
    if 0 <= w < bpl && Times(z, bpl) + w < |a| {
      var k := Times(z, bpl) + w;
      if Times(y, bpl) + x <= k < Times(y, bpl) + x + n {
        Unique(bpl, z, w, y, k - Times(y, bpl));
      }
    }
  }

  class Display {
    const width: nat
    const height: nat
    const bytesPerLine: nat
    const bytesPerPx: nat
    const lfbSize: nat
    const frontBuffer: array<int>
    const backBuffer: array<int>
    /** Where the ring starts: a position in the back buffer. */
    var backBufferLoc: int
    /** The scan line it is the start of. */
    ghost var first: nat

    /** The buffers hold all lines, and the ring starts on one of them. */
    ghost predicate Valid()
      reads this
    {
      && 0 < height && 0 < bytesPerPx && Times(width, bytesPerPx) <= bytesPerLine && 0 < bytesPerLine
      && lfbSize == Times(height, bytesPerLine) == frontBuffer.Length == backBuffer.Length && frontBuffer != backBuffer
      && first < height && backBufferLoc == Times(first, bytesPerLine)
    }

    /** A byte of the screen that the ring holds, counted in lines from its start. */
    ghost function Drawn(y: int, x: int): int
      reads this, backBuffer
    {
      At(backBuffer[..], bytesPerLine, Ring(first, height, y), x)
    }

    /** The screen that the ring holds: the byte drawn at each line and place. */
    ghost function Screen(): (int, int) -> int
      reads this, backBuffer
    {
      var bytes, start := backBuffer[..], first;
      (y: int, x: int) => At(bytes, bytesPerLine, Ring(start, height, y), x)
    }

    /** A byte that is seen. */
    ghost function Seen(y: int, x: int): int
      reads frontBuffer
    {
      At(frontBuffer[..], bytesPerLine, y, x)
    }

    constructor (width: nat, height: nat, bytesPerLine: nat, bytesPerPx: nat, front: array<int>, back: array<int>)
      requires 0 < height && 0 < bytesPerPx && width * bytesPerPx <= bytesPerLine && 0 < bytesPerLine
      requires front.Length == back.Length == height * bytesPerLine && front != back
      ensures Valid() && first == 0 && frontBuffer == front && backBuffer == back
      ensures this.width == width && this.height == height && this.bytesPerLine == bytesPerLine && this.bytesPerPx == bytesPerPx
    {
      TimesIs(height, bytesPerLine);
      TimesIs(width, bytesPerPx);
      this.width, this.height, this.bytesPerLine, this.bytesPerPx := width, height, bytesPerLine, bytesPerPx;
      lfbSize, frontBuffer, backBuffer, backBufferLoc, first := height * bytesPerLine, front, back, 0, 0;
    }

    /** Moves the start of the ring to the next line. */
    method SetRender()
      requires Valid()
      modifies this
      ensures Valid() && first == Ring(old(first), height, 1)
    {
      LineEnds(first + 1, height, bytesPerLine);
      backBufferLoc := backBufferLoc + bytesPerLine;
      if backBufferLoc >= lfbSize {
        var diff := backBufferLoc - lfbSize;
        backBufferLoc := 0 - diff;
      }
      first := if first + 1 < height then first + 1 else 0;
    }

    /** Copies n bytes of the back buffer to the front buffer. */
    method CopyBytes(to: int, from: int, n: nat)
      requires 0 < n ==> 0 <= to && to + n <= frontBuffer.Length && 0 <= from && from + n <= backBuffer.Length
      requires frontBuffer != backBuffer
      modifies frontBuffer
      ensures Copied(old(frontBuffer[..]), frontBuffer[..], to, backBuffer[..], from, n)
    {
      forall k | to <= k < to + n {
        frontBuffer[k] := backBuffer[from + k - to];
      }
    }

    /** Copies a region of the screen to the front buffer; false when it is not on the display. */
    method Invalidate(startX: nat, startY: nat, w: nat, h: nat) returns (ok: bool)
      requires Valid()
      modifies frontBuffer
      ensures ok <==> startX + w <= width && startY + h <= height
      ensures !ok ==> frontBuffer[..] == old(frontBuffer[..])
      ensures ok ==>
        forall y, x | 0 <= y ::
          Seen(y, x) == if InRegion(startY, h, Times(startX, bytesPerPx), Times(w, bytesPerPx), y, x) then Drawn(y, x) else old(Seen(y, x))
    {
      if startX + w > width || startY + h > height {
        return false;
      }
      TimesIs(startY, bytesPerLine);
      TimesIs(height, bytesPerLine);
      TimesIs(startX, bytesPerPx);
      TimesIs(w, bytesPerPx);
      PixelsFit(startX, w, width, bytesPerPx);
      var startLoc := startY * bytesPerLine + startX * bytesPerPx;
      var regionWidth := bytesPerPx * w;
      var backBufEnd := height * bytesPerLine;
      var backBuf := backBufferLoc + startLoc;
      if backBuf >= backBufEnd {
        backBuf := backBuf - backBufEnd;
      }
      if startY < height && 0 < regionWidth {
        RingStart(first, startY, height, bytesPerLine, Times(startX, bytesPerPx), regionWidth);
      }
      CopyLines(startLoc, backBuf, regionWidth, startY, h, Times(startX, bytesPerPx));
      ok := true;
    }

    /** Copies a part of h lines from line y0 of the screen on, following the ring. */
    method CopyLines(to: int, from: int, n: nat, ghost y0: nat, h: nat, ghost x0: nat)
      requires Valid() && y0 + h <= height && x0 + n <= bytesPerLine && to == Times(y0, bytesPerLine) + x0
      requires h == 0 || n == 0 || from == Times(Ring(first, height, y0), bytesPerLine) + x0
      modifies frontBuffer
      ensures forall y, x | 0 <= y ::
        Seen(y, x) == if InRegion(y0, h, x0, n, y, x) then Drawn(y, x) else old(Seen(y, x))
    {
      var front, backBuf := to, from;
      ghost var r: nat := Ring(first, height, y0);
      for i := 0 to h
        invariant front == Times(y0 + i, bytesPerLine) + x0
        invariant r <= height && (if r == height then 0 else r) == Ring(first, height, y0 + i)
        invariant h == 0 || n == 0 || backBuf == Times(r, bytesPerLine) + x0
        invariant forall y, x | 0 <= y ::
          Seen(y, x) == if InRegion(y0, i, x0, n, y, x) then Drawn(y, x) else old(Seen(y, x))
      {
        LineEnds(r, height, bytesPerLine);
        if backBuf >= lfbSize {
          backBuf := backBuf - lfbSize;
        }
        r := if r == height then 0 else r;
        CopyLine(front, backBuf, n, y0 + i, r, x0);
        front := front + bytesPerLine;
        backBuf := backBuf + bytesPerLine;
        r := r + 1;
      }
    }

    /** Copies a part of line r of the back buffer to line y of the front buffer. */
    method CopyLine(to: int, from: int, n: nat, ghost y: nat, ghost r: nat, ghost x0: nat)
      requires Valid() && y < height && r < height && x0 + n <= bytesPerLine
      requires to == Times(y, bytesPerLine) + x0 && (0 < n ==> from == Times(r, bytesPerLine) + x0)
      modifies frontBuffer
      ensures forall z, w | 0 <= z ::
        Seen(z, w) == if z == y && x0 <= w < x0 + n then At(backBuffer[..], bytesPerLine, r, w) else old(Seen(z, w))
    {
      TimesApart(y, height, bytesPerLine);
      TimesApart(r, height, bytesPerLine);
      ghost var was := frontBuffer[..];
      CopyBytes(to, from, n);
      forall z, w | 0 <= z
        ensures Seen(z, w) == if z == y && x0 <= w < x0 + n then At(backBuffer[..], bytesPerLine, r, w) else At(was, bytesPerLine, z, w)
      {
        PartCopied(was, frontBuffer[..], backBuffer[..], bytesPerLine, y, r, x0, n, z, w);
      }
    }

    /** Draws a pixel of a line that starts at a position of the back buffer. */
    method Plot(buf: nat, pixel: seq<int>, x: nat)
      requires Valid() && |pixel| == bytesPerPx && buf + Times(x, bytesPerPx) + bytesPerPx <= backBuffer.Length
      modifies backBuffer
      ensures forall k | 0 <= k < backBuffer.Length ::
        backBuffer[k] == if buf + Times(x, bytesPerPx) <= k < buf + Times(x, bytesPerPx) + bytesPerPx
          then pixel[k - buf - Times(x, bytesPerPx)] else old(backBuffer[k])
    {
      TimesIs(x, bytesPerPx);
      var at := buf + x * bytesPerPx;
      forall k | at <= k < at + bytesPerPx {
        backBuffer[k] := pixel[k - at];
      }
    }

    /** Draws all pixels of a line in one color. */
    method PlotLine(buf: nat, pixel: seq<int>, ghost r: nat)
      requires Valid() && |pixel| == bytesPerPx && r < height && buf == Times(r, bytesPerLine)
      modifies backBuffer
      ensures forall z: nat, w ::
        At(backBuffer[..], bytesPerLine, z, w) ==
        if z == r && 0 <= w < Times(width, bytesPerPx) then PixelByte(pixel, w) else old(At(backBuffer[..], bytesPerLine, z, w))
    {
      TimesApart(r, height, bytesPerLine);
      ghost var was := backBuffer[..];
      for x := 0 to width
        invariant forall k | 0 <= k < backBuffer.Length ::
          backBuffer[k] == if buf <= k < buf + Times(x, bytesPerPx) then PixelByte(pixel, k - buf) else was[k]
      {
        PixelsFit(x, 1, width, bytesPerPx);
        PixelStart(pixel, x);
        Plot(buf, pixel, x);
      }
      forall z: nat, w
        ensures At(backBuffer[..], bytesPerLine, z, w) ==
          if z == r && 0 <= w < Times(width, bytesPerPx) then PixelByte(pixel, w) else At(was, bytesPerLine, z, w)
      {
        PartDrawn(was, backBuffer[..], pixel, bytesPerLine, r, Times(width, bytesPerPx), z, w);
      }
    }
  }

  /** The byte is in h lines from y0 on and in n bytes from x0 on. */
  predicate InRegion(y0: int, h: int, x0: int, n: int, y: int, x: int) {
    y0 <= y < y0 + h && x0 <= x < x0 + n
  }

  /** A byte of a line of equal pixels. */
  function PixelByte(pixel: seq<int>, x: nat): int
    requires pixel != []
    decreases x
  {
    if x < |pixel| then pixel[x] else PixelByte(pixel, x - |pixel|)
  }

  lemma {:induction false} PixelStart(pixel: seq<int>, x: nat)
    requires pixel != []
    ensures forall k | 0 <= k < |pixel| :: PixelByte(pixel, Times(x, |pixel|) + k) == pixel[k]
  {
    if x > 0 {
      PixelStart(pixel, x - 1);
      forall k | 0 <= k < |pixel| ensures PixelByte(pixel, Times(x, |pixel|) + k) == pixel[k] {
        assert PixelByte(pixel, Times(x - 1, |pixel|) + k) == pixel[k];
      }
    }
  }

  /** Drawing in a line changes no other line. */
  lemma PartDrawn(a: seq<int>, a': seq<int>, pixel: seq<int>, bpl: nat, r: nat, n: nat, z: nat, w: int)
    requires |a'| == |a| && n <= bpl && pixel != [] && Times(r, bpl) + bpl <= |a|
    requires forall k | 0 <= k < |a| ::
      a'[k] == if Times(r, bpl) <= k < Times(r, bpl) + n then PixelByte(pixel, k - Times(r, bpl)) else a[k]
    ensures At(a', bpl, z, w) == if z == r && 0 <= w < n then PixelByte(pixel, w) else At(a, bpl, z, w)
  {
    if 0 <= w < bpl && Times(z, bpl) + w < |a| {
      var k := Times(z, bpl) + w;
      if Times(r, bpl) <= k < Times(r, bpl) + n {
        Unique(bpl, z, w, r, k - Times(r, bpl));
      }
    }
  }
}
