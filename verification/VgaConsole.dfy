/** The text console: a grid of character cells in the memory of the display, row after row. */
module VgaConsole {
  import opened Multiples

  /** Colors of the console, as the display numbers them. */
  const COLORS: seq<bv8> := [0, 4, 2, 10, 1, 5, 3, 7]
  const BLACK: int := 0
  const WHITE: int := 7

  /** A byte as a character, whose sign bits fill the upper half. */
  function Extended(c: int): bv16 {
    if 0 <= c < 0x80 then c as bv16 else if 0x80 <= c < 0x100 then (c + 0xFF00) as bv16 else 0
  }

  /** A cell: a character with background and foreground color. */
  function Entry(c: int, bg: bv8, fg: bv8): bv16 {
    Extended(c) | ((((bg as bv16) << 4) | (fg as bv16)) << 8)
  }

  /** What a cell shows: the low byte is the character, and the next two groups of four bits are the
      foreground and the background color. */
  predicate CellShows(cell: bv16, c: bv16, bg: bv8, fg: bv8) {
    cell & 0xFF == c && (cell >> 8) & 0xF == fg as bv16 && (cell >> 12) & 0xF == bg as bv16
  }

  /** The parts of a cell do not meet. */
  lemma CellParts(x: bv16, bg: bv16, fg: bv16)
    requires x < 0x80 && bg < 0x10 && fg < 0x10
    ensures var cell := x | (((bg << 4) | fg) << 8);
      cell & 0xFF == x && (cell >> 8) & 0xF == fg && (cell >> 12) & 0xF == bg
  {
  }

  /** A cell that is written shows the character in the colors. */
  lemma EntryShows(c: int, bg: bv8, fg: bv8)
    requires 0 <= c < 0x80 && bg < 0x10 && fg < 0x10
    ensures CellShows(Entry(c, bg, fg), c as bv16, bg, fg)
  {
    var x := c as bv16;
    assert x < 0x80;
    CellParts(x, bg as bv16, fg as bv16);
  }

  /** What is on the screen, the colors of what is printed next, and the bytes that are read as colors:
      those of the table, and behind it whatever lies there. */
  datatype Screen = Screen(cells: seq<bv16>, bg: bv8, fg: bv8, palette: int -> bv8)

  function Blank(s: Screen): bv16 {
    Entry(' ' as int, s.bg, s.fg)
  }

  function Blanks(n: nat, cell: bv16): seq<bv16> {
    seq(n, _ => cell)
  }

  /** A character written to a position, which changes the screen if it is one of the screen. */
  function Printed(s: Screen, c: int, loc: int): Screen {
    if 0 <= loc < |s.cells| then s.(cells := s.cells[loc := Entry(c, s.bg, s.fg)]) else s
  }

  function Cleared(s: Screen): Screen {
    s.(cells := Blanks(|s.cells|, Blank(s)))
  }

  /** One row further: the first row is gone, the last one is blank. */
  function ScrolledDown(s: Screen, cols: nat): Screen
    requires cols <= |s.cells|
  {
    s.(cells := s.cells[cols..] + Blanks(cols, Blank(s)))
  }

  /** Products of a row number with the number of columns. */
  lemma RowFits(row: nat, rows: nat, cols: nat)
    requires row < rows
    ensures row * cols + cols <= rows * cols
  {
    TimesIs(row, cols);
    TimesIs(rows, cols);
    TimesApart(row, rows, cols);
  }

  class Console {
    const cols: nat
    const rows: nat
    const cells: array<bv16>
    const palette: int -> bv8
    var bgColor: bv8
    var fgColor: bv8

    ghost predicate Valid()
    {
      && cells.Length == rows * cols && 0 < rows && 0 < cols
      && forall i | 0 <= i < |COLORS| :: palette(i) == COLORS[i]
    }

    ghost function Shown(): Screen
      reads this, cells
    {
      Screen(cells[..], bgColor, fgColor, palette)
    }

    constructor (cols: nat, rows: nat, cells: array<bv16>, palette: int -> bv8)
      requires cells.Length == rows * cols && 0 < rows && 0 < cols
      requires forall i | 0 <= i < |COLORS| :: palette(i) == COLORS[i]
      ensures Valid() && this.cols == cols && this.rows == rows && this.cells == cells
      ensures bgColor == COLORS[BLACK] && fgColor == COLORS[WHITE]
    {
      this.cols, this.rows, this.cells, this.palette := cols, rows, cells, palette;
      bgColor, fgColor := COLORS[BLACK], COLORS[WHITE];
    }

    /** Writes a character to a place, given by row and column; a place outside of the screen is other
        memory. */
    method WriteChar(c: int, x: int, y: int)
      modifies cells
      ensures Shown() == Printed(old(Shown()), c, y * cols + x)
    {
      var location := y * cols + x;
      if 0 <= location < cells.Length {
        cells[location] := Entry(c, bgColor, fgColor);
      }
    }

    /** Fills the screen with spaces. */
    method ClearScreen()
      requires Valid()
      modifies cells
      ensures Shown() == Cleared(old(Shown()))
    {
      ghost var blank := Entry(' ' as int, bgColor, fgColor);
      ghost var base := 0;
      for i := 0 to rows
        invariant base == i * cols && base <= cells.Length
        invariant forall k | 0 <= k < base :: cells[k] == blank
      {
        RowFits(i, rows, cols);
        for j := 0 to cols
          invariant forall k | 0 <= k < base + j :: cells[k] == blank
        {
          WriteChar(' ' as int, j, i);
        }
        base := base + cols;
      }
      TimesIs(rows, cols);
    }

    /** Copies each row from the one below it, and fills the last row with spaces. */
    method ScrollDown()
      requires Valid()
      modifies cells
      ensures cols <= cells.Length && Shown() == ScrolledDown(old(Shown()), cols)
    {
      RowFits(0, rows, cols);
      ghost var blank := Entry(' ' as int, bgColor, fgColor);
      ghost var was := cells[..];
      var base := 0;
      for i := 0 to rows - 1
        invariant base == i * cols
        invariant forall k | 0 <= k < base && k + cols < cells.Length :: cells[k] == was[k + cols]
        invariant forall k | base <= k < cells.Length :: cells[k] == was[k]
      {
        RowFits(i + 1, rows, cols);
        forall k | base <= k < base + cols {
          cells[k] := cells[k + cols];
        }
        base := base + cols;
      }
      assert base + cols == cells.Length;
      for i := 0 to cols
        invariant forall k | 0 <= k < base :: cells[k] == was[k + cols]
        invariant forall k | base <= k < base + i :: cells[k] == blank
      {
        RowFits(rows - 1, rows, cols);
        WriteChar(' ' as int, i, rows - 1);
      }
      assert cells[..] == was[cols..] + Blanks(cols, blank);
    }

    method SetBgColor(color: nat)
      modifies this`bgColor
      ensures Shown() == old(Shown()).(bg := palette(color))
    {
      bgColor := palette(color);
    }

    method SetFgColor(color: nat)
      modifies this`fgColor
      ensures Shown() == old(Shown()).(fg := palette(color))
    {
      fgColor := palette(color);
    }
  }
}
