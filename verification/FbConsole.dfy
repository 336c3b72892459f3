/** The text console over the display: scrolling moves the start of the ring, and the screen looks
    as if all its lines had been moved. */
module FbConsole {
  import opened Multiples
  import opened Display

  class Console {
    const display: Display
    const rows: nat
    const charHeight: nat
    /** The background color as bytes of a pixel. */
    var background: seq<int>

    /** The rows of text fit on the display, whose sizes are numbers of 16 bits. */
    ghost predicate Valid()
      reads this, display
    {
      && display.Valid() && 0 < rows && 0 < charHeight && Times(rows, charHeight) <= display.height < 0x10000
      && display.width < 0x10000 && |background| == display.bytesPerPx
    }

    constructor (display: Display, charHeight: nat, background: seq<int>)
      requires display.Valid() && display.height < 0x10000 && display.width < 0x10000
      requires 0 < charHeight <= display.height && |background| == display.bytesPerPx
      ensures Valid() && this.display == display && this.charHeight == charHeight && this.background == background
      ensures rows == display.height / charHeight
    {
      this.display, this.charHeight, this.background := display, charHeight, background;
      rows := display.height / charHeight;
      TimesIs(display.height / charHeight, charHeight);
    }

    /** Draws h lines of the background color from line y0 of the screen on, following the ring. */
    method ClearLines(y0: nat, h: nat)
      requires Valid() && y0 + h <= display.height && 0 < h
      modifies display.backBuffer
      ensures Valid()
      ensures forall y, x | 0 <= y < display.height ::
        display.Drawn(y, x) ==
        if y0 <= y < y0 + h && 0 <= x < Times(display.width, display.bytesPerPx) then PixelByte(background, x)
        else old(display.Drawn(y, x))
    {
      var buf := display.backBufferLoc + display.bytesPerLine * y0;
      TimesIs(y0, display.bytesPerLine);
      RingStart(display.first, y0, display.height, display.bytesPerLine, 0, display.bytesPerLine);
      if buf >= display.lfbSize {
        buf := buf - display.lfbSize;
      }
      ghost var r: nat := Ring(display.first, display.height, y0);
      for i := 0 to h
        invariant r < display.height && r == Ring(display.first, display.height, if y0 + i == display.height then 0 else y0 + i)
        invariant buf == Times(r, display.bytesPerLine)
        invariant forall y, x | 0 <= y < display.height ::
          display.Drawn(y, x) ==
          if y0 <= y < y0 + i && 0 <= x < Times(display.width, display.bytesPerPx) then PixelByte(background, x)
          else old(display.Drawn(y, x))
      {
        display.PlotLine(buf, background, r);
        buf := buf + display.bytesPerLine;
        LineEnds(r + 1, display.height, display.bytesPerLine);
        if buf >= display.lfbSize {
          buf := buf - display.lfbSize;
        }
        r := if r + 1 == display.height then 0 else r + 1;
      }
    }

    /** Where a line of the screen was before it was moved up by n lines around the ring. */
    function Before(y: int, n: int): int {
      if y + n < display.height then y + n else y + n - display.height
    }

    /** Moves the start of the ring down by the height of a row of text. */
    method MoveUp()
      requires Valid()
      modifies display
      ensures Valid()
      ensures forall y, x | 0 <= y < display.height :: display.Drawn(y, x) == old(display.Drawn(Before(y, charHeight), x))
    {
      RowsFit(rows, charHeight);
      for i := 0 to charHeight
        invariant display.Valid() && display.first == Ring(old(display.first), display.height, i)
      {
        display.SetRender();
      }
    }

    /** Scrolls by one row of text: every line of text takes what was charHeight lines below it, the
        last row is background, and the text area is seen as it is drawn. */
    method Scroll()
      requires Valid()
      modifies display, display.backBuffer, display.frontBuffer
      ensures Valid()
      ensures forall y, x | 0 <= y < display.height ::
        display.Drawn(y, x) ==
        if InLastRow(y) && 0 <= x < LineBytes() then PixelByte(background, x) else old(display.Drawn(Before(y, charHeight), x))
      ensures forall y, x | 0 <= y < display.height ::
        display.Seen(y, x) ==
        if y < Times(rows, charHeight) && 0 <= x < LineBytes() then display.Drawn(y, x) else old(display.Seen(y, x))
    {
      RowsFit(rows, charHeight);
      var lastRow := (rows - 1) * charHeight;
      MoveUp();
      var ok := display.Invalidate(0, 0, display.width, lastRow);
      ClearLines(lastRow, charHeight);
      ok := display.Invalidate(0, lastRow, display.width, charHeight);
    }

    /** A scroll moves the text up by a row. */
    method ScrollText()
      requires Valid()
      modifies display, display.backBuffer, display.frontBuffer
      ensures Valid()
      ensures MovedUp(old(display.Screen()), display.Screen(), Times(rows, charHeight), LineBytes(), charHeight, background)
      ensures TextSeen()
    {
      RowsFit(rows, charHeight);
      ghost var was := display.Screen();
      assert forall y, x :: display.Drawn(y, x) == was(y, x);
      Scroll();
      assert forall y, x :: display.Drawn(y, x) == display.Screen()(y, x);
    }

    /** Scrolls by n rows, as the terminal does when the cursor is that far below the screen: the text
        moves up by all of them. */
    method ScrollRows(n: nat)
      requires Valid()
      modifies display, display.backBuffer, display.frontBuffer
      ensures Valid()
      ensures MovedUp(old(display.Screen()), display.Screen(), Times(rows, charHeight), LineBytes(), Times(n, charHeight), background)
      ensures 0 < n ==> TextSeen()
    {
      for i := 0 to n
        invariant Valid()
        invariant MovedUp(old(display.Screen()), display.Screen(), Times(rows, charHeight), LineBytes(), Times(i, charHeight), background)
        invariant 0 < i ==> TextSeen()
      {
        ghost var between := display.Screen();
        ScrollText();
        MovedTwice(old(display.Screen()), between, display.Screen(), Times(rows, charHeight), LineBytes(),
          Times(i, charHeight), charHeight, Times(i + 1, charHeight), background);
      }
    }

    /** The text area is seen as it is drawn. */
    ghost predicate TextSeen()
      reads this, display, display.backBuffer, display.frontBuffer
    {
      forall y, x | 0 <= y < Times(rows, charHeight) && 0 <= x < LineBytes() :: display.Seen(y, x) == display.Drawn(y, x)
    }

    /** Fills the display with the background color, from a ring that starts at its first line. */
    method ClearScreen()
      requires Valid()
      modifies display, display.backBuffer, display.frontBuffer
      ensures Valid() && display.first == 0
      ensures forall y, x | 0 <= y < display.height && 0 <= x < LineBytes() ::
        display.Drawn(y, x) == PixelByte(background, x) && display.Seen(y, x) == PixelByte(background, x)
    {
      display.backBufferLoc := 0;
      display.first := 0;
      ClearLines(0, display.height);
      var ok := display.Invalidate(0, 0, display.width, display.height);
    }

    ghost predicate InLastRow(y: int)
      requires 0 < rows
    {
      Times(rows - 1, charHeight) <= y < Times(rows, charHeight)
    }

    /** The bytes of the pixels of a line. */
    ghost function LineBytes(): int {
      Times(display.width, display.bytesPerPx)
    }
  }

  /** The first lines of a screen moved up by k lines, with background below them. */
  ghost predicate MovedUp(d: (int, int) -> int, d': (int, int) -> int, lines: int, bytes: int, k: nat, pixel: seq<int>) {
    pixel != [] &&
    forall y, x | 0 <= y < lines && 0 <= x < bytes ::
      d'(y, x) == if y + k < lines then d(y + k, x) else PixelByte(pixel, x)
  }

  lemma MovedTwice(d: (int, int) -> int, d': (int, int) -> int, d'': (int, int) -> int, lines: int, bytes: int,
      k: nat, m: nat, both: nat, pixel: seq<int>)
    requires both == k + m && MovedUp(d, d', lines, bytes, k, pixel) && MovedUp(d', d'', lines, bytes, m, pixel)
    ensures MovedUp(d, d'', lines, bytes, both, pixel)
  {
  }

  lemma RowsFit(rows: nat, charHeight: nat)
    requires 0 < rows
    ensures (rows - 1) * charHeight == Times(rows - 1, charHeight) && Times(rows - 1, charHeight) + charHeight == Times(rows, charHeight)
  {
    TimesIs(rows - 1, charHeight);
  }
}
