/** The terminal shows the end of an unbounded page of text: what plain text looks like on a page
    that never scrolls, and how the screen follows it. */
module TerminalPage {
  import opened VgaConsole
  import opened Terminal

  /** A page without a last row, and the cursor on it. The cell in row r and column c has the
      number r * cols + c; cells without an entry are blank. */
  datatype Page = Page(row: int, col: int, cells: map<int, bv16>)

  /** Text with newlines, carriage returns and tabs, but without backspaces and escapes. */
  predicate Plain(c: int) {
    0 <= c < 0x80 && c != 0x08 && c != ESC
  }

  predicate Printable(c: int) {
    Plain(c) && c != '\n' as int && c != '\r' as int && c != '\t' as int
  }

  function Cell(cells: map<int, bv16>, k: int, blank: bv16): bv16 {
    if k in cells then cells[k] else blank
  }

  /** One byte of text on the page, in fixed colors. */
  function Write(p: Page, cols: int, c: int, bg: bv8, fg: bv8): Page {
    if c == '\n' as int || c == '\r' as int then p.(row := p.row + 1, col := 0)
    else if c == '\t' as int then
      var col := (p.col / TAB_STOP + 1) * TAB_STOP;
      if col < cols then p.(col := col) else p.(row := p.row + 1, col := col - cols)
    else
      var q := p.(cells := p.cells[p.row * cols + p.col := Entry(c, bg, fg)]);
      if p.col + 1 < cols then q.(col := p.col + 1) else q.(row := p.row + 1, col := 0)
  }

  function WriteAll(p: Page, cols: int, s: seq<int>, bg: bv8, fg: bv8): Page {
    if s == [] then p else Write(WriteAll(p, cols, s[..|s| - 1], bg, fg), cols, s[|s| - 1], bg, fg)
  }

  /** The first row of the page that is on the screen. */
  function Top(p: Page, rows: int): int {
    if p.row < rows then 0 else p.row - rows + 1
  }

  /** The screen shows the cells of a page from the first one on. */
  ghost predicate Shows(s: Screen, cells: map<int, bv16>, first: int) {
    forall k | 0 <= k < |s.cells| :: s.cells[k] == Cell(cells, first + k, Blank(s))
  }

  /** The screen shows the end of the page, and the cursor is where the cursor of the page is. */
  ghost predicate ShowsEnd(t: Term, p: Page, cols: nat, rows: nat) {
    && t.row == p.row - Top(p, rows) && t.col == p.col && 0 <= p.row
    && Shows(t.screen, p.cells, Top(p, rows) * cols)
    && (forall k | k in p.cells :: k < p.row * cols + p.col)
  }

  /** Scrolling shows the page one row further, when that row is still blank. */
  lemma ScrollShows(s: Screen, cells: map<int, bv16>, cols: nat, first: int)
    requires Shows(s, cells, first) && cols <= |s.cells|
    requires forall k | k in cells :: k < first + |s.cells|
    ensures Shows(ScrolledDown(s, cols), cells, first + cols)
  {
  }

  /** What is printed on the screen is printed at its place on the page. */
  lemma PrintShows(s: Screen, cells: map<int, bv16>, c: int, loc: int, first: int, at: int)
    requires Shows(s, cells, first) && 0 <= loc < |s.cells| && at == first + loc
    ensures Shows(Printed(s, c, loc), cells[at := Entry(c, s.bg, s.fg)], first)
  {
  }

  /** Where the cursor of the page is, counted in cells, from where that of the screen is. */
  lemma CursorCell(t: Term, p: Page, cols: nat, rows: nat)
    requires OnScreen(t, cols, rows) && t.row == p.row - Top(p, rows) && t.col == p.col && 0 <= p.row
    ensures 0 <= t.row * cols + t.col < |t.screen.cells|
    ensures p.row * cols + p.col == Top(p, rows) * cols + (t.row * cols + t.col)
    ensures (p.row + 1) * cols == p.row * cols + cols
  {
    RowFits(t.row, rows, cols);
    assert p.row == Top(p, rows) + t.row;
  }

  lemma TypedPrints(t: Term, cols: nat, c: int)
    requires Printable(c)
    ensures Typed(t, cols, c).screen == Printed(t.screen, c, t.row * cols + t.col)
  {
  }

  lemma PrintedShows(t: Term, p: Page, cols: nat, rows: nat, c: int)
    requires OnScreen(t, cols, rows) && ShowsEnd(t, p, cols, rows) && Printable(c)
    ensures var at := p.row * cols + p.col;
      && Shows(Typed(t, cols, c).screen, p.cells[at := Entry(c, t.screen.bg, t.screen.fg)], Top(p, rows) * cols)
      && (forall k | k in p.cells :: k < at)
  {
    CursorCell(t, p, cols, rows);
    TypedPrints(t, cols, c);
    PrintShows(t.screen, p.cells, c, t.row * cols + t.col, Top(p, rows) * cols, p.row * cols + p.col);
  }

  /** A byte outside of escape sequences, before the screen is scrolled: it does the same on the
      page, moves down one row at most, and leaves the rows from the cursor's on as they were. */
  lemma TypedShows(t: Term, p: Page, cols: nat, rows: nat, c: int)
    requires OnScreen(t, cols, rows) && TAB_STOP <= cols && ShowsEnd(t, p, cols, rows) && Plain(c)
    ensures var u, q := Typed(t, cols, c), Write(p, cols, c, t.screen.bg, t.screen.fg);
      && u.row == q.row - Top(p, rows) && u.col == q.col && p.row <= q.row <= p.row + 1
      && Shows(u.screen, q.cells, Top(p, rows) * cols)
      && (forall k | k in q.cells :: k < q.row * cols + q.col)
      && (q.row > p.row ==> forall k | k in q.cells :: k < q.row * cols)
  {
    CursorCell(t, p, cols, rows);
    if Printable(c) {
      PrintedShows(t, p, cols, rows, c);
    }
  }

  /** The number of the first cell of a row that is rows below another one. */
  lemma RowProducts(row: int, top: int, rows: nat, cols: nat)
    requires row == top + rows
    ensures row * cols == top * cols + rows * cols
    ensures (top + 1) * cols == top * cols + cols
  {
  }

  lemma ScrolledOnceShows(s: Screen, cells: map<int, bv16>, cols: nat, first: int, next: int)
    requires Shows(s, cells, first) && cols <= |s.cells| && next == first + cols
    requires forall k | k in cells :: k < first + |s.cells|
    ensures Shows(ScrolledBy(s, cols, 1), cells, next)
  {
    ScrollShows(s, cells, cols, first);
    assert ScrolledBy(s, cols, 1) == ScrolledBy(ScrolledDown(s, cols), cols, 0);
  }

  lemma ScrolledRow(u: Term, q: Page, top: int, cols: nat, rows: nat)
    requires |u.screen.cells| == rows * cols && u.row == rows && 0 < rows && cols <= rows * cols
    requires u.row == q.row - top && 0 <= top && Shows(u.screen, q.cells, top * cols)
    requires forall k | k in q.cells :: k < q.row * cols
    ensures Shows(ScrolledBy(u.screen, cols, 1), q.cells, (top + 1) * cols)
  {
    RowProducts(q.row, top, rows, cols);
    ScrolledOnceShows(u.screen, q.cells, cols, top * cols, (top + 1) * cols);
  }

  /** Scrolling at most one row brings the end of the page on the screen again. */
  lemma ScrolledShows(u: Term, q: Page, top: int, cols: nat, rows: nat)
    requires |u.screen.cells| == rows * cols && 0 <= u.row <= rows && 0 < rows && cols <= rows * cols
    requires u.row == q.row - top && u.col == q.col && 0 <= top && (u.row < rows ==> top == Top(q, rows))
    requires Shows(u.screen, q.cells, top * cols) && forall k | k in q.cells :: k < q.row * cols + q.col
    requires u.row == rows ==> forall k | k in q.cells :: k < q.row * cols
    ensures ShowsEnd(Scrolled(u, cols, rows), q, cols, rows)
  {
    if u.row == rows {
      ScrolledRow(u, q, top, cols, rows);
      assert Top(q, rows) == top + 1;
    } else {
      assert ScrolledBy(u.screen, cols, 0) == u.screen;
    }
  }

  lemma StepShows(t: Term, p: Page, cols: nat, rows: nat, c: int)
    requires OnScreen(t, cols, rows) && TAB_STOP <= cols && ShowsEnd(t, p, cols, rows) && Plain(c) && t.escState == 0
    ensures Step(t, cols, rows, c).Running?
    ensures var u := Step(t, cols, rows, c).term;
      && OnScreen(u, cols, rows) && u.escState == 0 && u.screen.bg == t.screen.bg && u.screen.fg == t.screen.fg
      && ShowsEnd(u, Write(p, cols, c, t.screen.bg, t.screen.fg), cols, rows)
  {
    RowFitsScreen(cols, rows);
    TypedShows(t, p, cols, rows, c);
    var u := Typed(t, cols, c);
    ScrolledByKeeps(u.screen, cols, u.row - rows + 1);
    ScrolledShows(u, Write(p, cols, c, t.screen.bg, t.screen.fg), Top(p, rows), cols, rows);
  }

  /** For every plain text on a cleared screen, the screen shows the last rows of the page. */
  lemma {:induction false} ScreenShowsPage(t: Term, cols: nat, rows: nat, s: seq<int>)
    requires OnScreen(t, cols, rows) && TAB_STOP <= cols && t.row == 0 && t.col == 0 && t.escState == 0
    requires t.screen == Cleared(t.screen) && forall i | 0 <= i < |s| :: Plain(s[i])
    ensures var r, p := Run(t, cols, rows, s), WriteAll(Page(0, 0, map[]), cols, s, t.screen.bg, t.screen.fg);
      && r.Running? && OnScreen(r.term, cols, rows) && r.term.escState == 0
      && r.term.screen.bg == t.screen.bg && r.term.screen.fg == t.screen.fg && ShowsEnd(r.term, p, cols, rows)
    decreases |s|
  {
    if s != [] {
      var init := s[..|s| - 1];
      ScreenShowsPage(t, cols, rows, init);
      var p := WriteAll(Page(0, 0, map[]), cols, init, t.screen.bg, t.screen.fg);
      StepShows(Run(t, cols, rows, init).term, p, cols, rows, s[|s| - 1]);
    }
  }

  /** On the page, printable text runs on from cell to cell. */
  lemma {:induction false} PrintableRunsOn(cols: nat, s: seq<int>, bg: bv8, fg: bv8)
    requires 0 < cols && forall i | 0 <= i < |s| :: Printable(s[i])
    ensures var p := WriteAll(Page(0, 0, map[]), cols, s, bg, fg);
      && 0 <= p.col < cols && p.row * cols + p.col == |s|
      && (forall k :: k in p.cells <==> 0 <= k < |s|)
      && forall k | 0 <= k < |s| :: p.cells[k] == Entry(s[k], bg, fg)
    decreases |s|
  {
    if s != [] {
      PrintableRunsOn(cols, s[..|s| - 1], bg, fg);
      NextCell(WriteAll(Page(0, 0, map[]), cols, s[..|s| - 1], bg, fg), cols, s[|s| - 1], bg, fg);
    }
  }

  lemma NextCell(p: Page, cols: nat, c: int, bg: bv8, fg: bv8)
    requires 0 <= p.col < cols && Printable(c)
    ensures var q := Write(p, cols, c, bg, fg);
      0 <= q.col < cols && q.row * cols + q.col == p.row * cols + p.col + 1
      && q.cells == p.cells[p.row * cols + p.col := Entry(c, bg, fg)]
  {
    assert (p.row + 1) * cols == p.row * cols + cols;
  }
}
