/** What a terminal shows: the colors that attributes select, and text that can be read on the screen. */
module TerminalColors {
  import opened VgaConsole
  import opened Terminal
  import opened TerminalPage
  import opened TerminalMoves

  // ----- colors -----

  lemma {:induction false} AttributesMore(s: Screen, params: seq<int>, i: int, n: int)
    requires 0 <= i <= n < |params|
    ensures Attributes(s, params, i, n + 1) == Colored(Attributes(s, params, i, n), params[n])
    decreases n - i
  {
    if i < n {
      AttributesMore(Colored(s, params[i]), params, i + 1, n);
    } else {
      assert Attributes(Colored(s, params[n]), params, n + 1, n + 1) == Colored(s, params[n]);
    }
  }

  lemma {:induction false} AttributesOf(s: Screen, params: seq<int>, params': seq<int>, i: int, n: int)
    requires 0 <= i <= n <= |params| && n <= |params'| && params[..n] == params'[..n]
    ensures Attributes(s, params, i, n) == Attributes(s, params', i, n)
    decreases n - i
  {
    if i < n {
      assert params[i] == params[..n][i] == params'[..n][i] == params'[i];
      AttributesOf(Colored(s, params[i]), params, params', i + 1, n);
    }
  }

  /** ESC [ a m: an attribute from 30 on is a foreground color, one from 40 on a background color, 0 is white
      on black, and any other one is ignored. */
  lemma Attribute(t: Term, cols: nat, rows: nat, d: seq<int>, a: nat)
    requires RowOnScreen(t, cols, rows) && t.escState == 0 && Numeral(d) && a == Value(d)
    ensures var o := Run(t, cols, rows, Sequence([d], 'm' as int));
      && o.Running? && o.term.row == t.row && o.term.col == t.col && o.term.escState == 0
      && o.term.screen == t.screen.(
        fg := if a == 0 then t.screen.palette(7) else if 30 <= a < 40 then t.screen.palette(a - 30) else t.screen.fg,
        bg := if a == 0 then t.screen.palette(0) else if 40 <= a then t.screen.palette(a - 40) else t.screen.bg)
  {
    AttributesSent(t, cols, rows, [d]);
    assert Values([d])[0] == a;
    AttributesMore(t.screen, Values([d]), 0, 0);
  }

  lemma NumbersFirst(t: Term, u: Term, ns: seq<int>)
    requires HasRead(t, u, ns)
    ensures |ns| <= |u.params| && u.params[..|ns|] == ns[..|ns|] && u.escPos == |ns|
    ensures u.screen == t.screen && u.row == t.row && u.col == t.col
  {
  }

  lemma AttributesStep(u: Term, cols: nat, rows: nat)
    requires RowOnScreen(u, cols, rows) && Acted(u, cols, 'm' as int) == Running(Letter(u, cols, 'm' as int))
    ensures Step(u, cols, rows, 'm' as int) ==
      Running(u.(escState := 0, screen := Attributes(u.screen, u.params, 0, u.escPos)))
  {
  }

  lemma AttributesSent(t: Term, cols: nat, rows: nat, ds: seq<seq<int>>)
    requires RowOnScreen(t, cols, rows) && t.escState == 0 && Sendable(ds)
    ensures var o := Run(t, cols, rows, Sequence(ds, 'm' as int));
      && o.Running? && o.term.row == t.row && o.term.col == t.col && o.term.escState == 0
      && o.term.screen == Attributes(t.screen, Values(ds), 0, |ds|)
  {
    var u := SequenceRead(t, cols, rows, ds, 'm' as int);
    AttributesStep(u, cols, rows);
    NumbersFirst(t, u, Values(ds));
    AttributesOf(t.screen, u.params, Values(ds), 0, |ds|);
  }

  /** Several attributes in one sequence have the effect of one sequence for each of them, in order. */
  lemma OneByOne(t: Term, cols: nat, rows: nat, ds: seq<seq<int>>, d: seq<int>)
    requires RowOnScreen(t, cols, rows) && t.escState == 0 && Sendable(ds) && Sendable(ds + [d])
    ensures var o, u := Run(t, cols, rows, Sequence(ds + [d], 'm' as int)), Run(t, cols, rows, Sequence(ds, 'm' as int));
      && o.Running? && u.Running? && u.term.escState == 0
      && var v := Run(u.term, cols, rows, Sequence([d], 'm' as int));
        v.Running? && o.term.screen == v.term.screen
  {
    MoreValues(ds, d);
    AttributesSent(t, cols, rows, ds);
    AttributesSent(t, cols, rows, ds + [d]);
    AttributesSent(Run(t, cols, rows, Sequence(ds, 'm' as int)).term, cols, rows, [d]);
    AttributesSplit(t.screen, Values(ds), Value(d));
  }

  lemma MoreValues(ds: seq<seq<int>>, d: seq<int>)
    requires Sendable(ds) && Sendable(ds + [d])
    ensures Numeral(d) && Sendable([d]) && Values([d]) == [Value(d)] && Values(ds + [d]) == Values(ds) + [Value(d)]
  {
    assert (ds + [d])[..|ds|] == ds && (ds + [d])[|ds|] == d;
  }

  lemma AttributesSplit(s: Screen, ns: seq<int>, n: int)
    ensures Attributes(s, ns + [n], 0, |ns| + 1) == Attributes(Attributes(s, ns, 0, |ns|), [n], 0, 1)
  {
    AttributesMore(s, ns + [n], 0, |ns|);
    assert (ns + [n])[..|ns|] == ns[..|ns|];
    AttributesOf(s, ns + [n], ns, 0, |ns|);
    AttributesMore(Attributes(s, ns, 0, |ns|), [n], 0, 0);
  }

  /** The colors of the console as the display numbers them. */
  lemma ColorNumbers()
    ensures |COLORS| == 8 && COLORS[0] == 0 && COLORS[1] == 4 && COLORS[2] == 2 && COLORS[3] == 10
    ensures COLORS[4] == 1 && COLORS[5] == 5 && COLORS[6] == 3 && COLORS[7] == 7
  {
  }

  lemma ColorSmall(i: int)
    requires 0 <= i < 8
    ensures i < |COLORS| && COLORS[i] < 0x10
  {
  }

  lemma AttributeThenText(t: Term, cols: nat, rows: nat, d: seq<int>, a: nat, c: int, bg: bv8, fg: bv8)
    requires OnScreen(t, cols, rows) && t.escState == 0 && CursorAt(t, cols) + 1 < rows * cols
    requires Numeral(d) && a == Value(d) && 30 <= a && 0x20 <= c < 0x80 && bg < 0x10 && fg < 0x10
    requires bg == if a < 40 then t.screen.bg else t.screen.palette(a - 40)
    requires fg == if a < 40 then t.screen.palette(a - 30) else t.screen.fg
    ensures var o, at := Run(t, cols, rows, Sequence([d], 'm' as int) + [c]), CursorAt(t, cols);
      o.Running? && 0 <= at < |o.term.screen.cells| && CellShows(o.term.screen.cells[at], c as bv16, bg, fg)
  {
    Attribute(t, cols, rows, d, a);
    RunThen(t, cols, rows, Sequence([d], 'm' as int), c);
    PrintShowsCell(Run(t, cols, rows, Sequence([d], 'm' as int)).term, cols, rows, c);
  }

  /** A character printed behind a color attribute shows in that color, with the other color as it was. */
  lemma ColoredText(t: Term, cols: nat, rows: nat, d: seq<int>, a: nat, c: int)
    requires OnScreen(t, cols, rows) && t.escState == 0 && CursorAt(t, cols) + 1 < rows * cols
    requires forall i | 0 <= i < |COLORS| :: t.screen.palette(i) == COLORS[i]
    requires t.screen.bg < 0x10 && t.screen.fg < 0x10 && 0x20 <= c < 0x80
    requires Numeral(d) && a == Value(d) && (30 <= a < 38 || 40 <= a < 48)
    ensures var o, at := Run(t, cols, rows, Sequence([d], 'm' as int) + [c]), CursorAt(t, cols);
      && o.Running? && 0 <= at < |o.term.screen.cells|
      && CellShows(o.term.screen.cells[at], c as bv16,
           if a < 40 then t.screen.bg else COLORS[a - 40], if a < 40 then COLORS[a - 30] else t.screen.fg)
  {
    ColorSmall(if a < 40 then a - 30 else a - 40);
    if a < 40 {
      AttributeThenText(t, cols, rows, d, a, c, t.screen.bg, COLORS[a - 30]);
    } else {
      AttributeThenText(t, cols, rows, d, a, c, COLORS[a - 40], t.screen.fg);
    }
  }

  lemma PrintShowsCell(u: Term, cols: nat, rows: nat, c: int)
    requires OnScreen(u, cols, rows) && u.escState == 0 && CursorAt(u, cols) + 1 < rows * cols
    requires u.screen.bg < 0x10 && u.screen.fg < 0x10 && 0x20 <= c < 0x80
    ensures var o, at := Step(u, cols, rows, c), CursorAt(u, cols);
      && o.Running? && 0 <= at < |o.term.screen.cells|
      && CellShows(o.term.screen.cells[at], c as bv16, u.screen.bg, u.screen.fg)
  {
    CellBounds(u.row, u.col, cols, rows);
    PrintStep(u, cols, rows, c);
    EntryShows(c, u.screen.bg, u.screen.fg);
  }

  // ----- text -----

  /** The cells of a page show a text, and the others are not there. */
  ghost predicate PageHolds(cells: map<int, bv16>, s: seq<int>, bg: bv8, fg: bv8) {
    && (forall k :: k in cells <==> 0 <= k < |s|)
    && forall k | 0 <= k < |s| :: cells[k] == Entry(s[k], bg, fg)
  }

  predicate Readable(s: seq<int>) {
    forall i | 0 <= i < |s| :: 0x20 <= s[i] < 0x80
  }

  /** The character of a text at a place, or a space behind the text. */
  function CharAt(s: seq<int>, at: int): (c: int)
    ensures Readable(s) ==> 0x20 <= c < 0x80
  {
    if 0 <= at < |s| then s[at] else 0x20
  }

  lemma PageCell(cells: map<int, bv16>, s: seq<int>, at: int, bg: bv8, fg: bv8)
    requires 0 <= at && PageHolds(cells, s, bg, fg)
    ensures Cell(cells, at, Entry(0x20, bg, fg)) == Entry(CharAt(s, at), bg, fg)
  {
  }

  /** The screen shows a text from some place of it on. */
  ghost predicate ReadsFrom(u: Screen, s: seq<int>, first: int) {
    forall k | 0 <= k < |u.cells| :: u.cells[k] == Entry(CharAt(s, first + k), u.bg, u.fg)
  }

  lemma ScreenReads(u: Screen, cells: map<int, bv16>, s: seq<int>, first: int)
    requires PageHolds(cells, s, u.bg, u.fg) && Shows(u, cells, first) && 0 <= first
    ensures ReadsFrom(u, s, first)
  {
    forall k | 0 <= k < |u.cells| ensures u.cells[k] == Entry(CharAt(s, first + k), u.bg, u.fg) {
      PageCell(cells, s, first + k, u.bg, u.fg);
    }
  }

  /** What a screen that shows a text looks like. */
  lemma CellReads(u: Screen, s: seq<int>, first: int, k: int)
    requires ReadsFrom(u, s, first) && Readable(s) && u.bg < 0x10 && u.fg < 0x10 && 0 <= k < |u.cells|
    ensures CellShows(u.cells[k], CharAt(s, first + k) as bv16, u.bg, u.fg)
  {
    EntryShows(CharAt(s, first + k), u.bg, u.fg);
  }

  lemma TextOnPage(cols: nat, s: seq<int>, bg: bv8, fg: bv8)
    requires 0 < cols && Readable(s)
    ensures var p := WriteAll(Page(0, 0, map[]), cols, s, bg, fg);
      p.row * cols + p.col == |s| && PageHolds(p.cells, s, bg, fg)
  {
    PrintableRunsOn(cols, s, bg, fg);
  }

  lemma CursorOnPage(t: Term, p: Page, cols: nat, rows: nat, n: int)
    requires OnScreen(t, cols, rows) && ShowsEnd(t, p, cols, rows) && p.row * cols + p.col == n
    ensures Top(p, rows) * cols == n - CursorAt(t, cols) && 0 <= Top(p, rows) * cols
    ensures n < rows * cols ==> n == CursorAt(t, cols)
  {
    CursorCell(t, p, cols, rows);
    if p.row >= rows {
      RowFits(rows - 1, p.row, cols);
      RowStart(rows - 1, cols);
    }
  }

  /** The screen shows the end of a text, up to the cursor, and all of it if it is shorter than the screen. */
  ghost predicate ShowsText(u: Term, cols: nat, rows: nat, s: seq<int>) {
    var first := |s| - CursorAt(u, cols);
    0 <= first && (|s| < rows * cols ==> first == 0) && ReadsFrom(u.screen, s, first)
  }

  lemma PageShowsText(u: Term, p: Page, cols: nat, rows: nat, s: seq<int>)
    requires OnScreen(u, cols, rows) && ShowsEnd(u, p, cols, rows) && p.row * cols + p.col == |s|
    requires PageHolds(p.cells, s, u.screen.bg, u.screen.fg)
    ensures ShowsText(u, cols, rows, s)
  {
    CursorOnPage(u, p, cols, rows, |s|);
    ScreenReads(u.screen, p.cells, s, Top(p, rows) * cols);
  }

  /** Text on a cleared screen can be read there: the cells show its characters in order, in the colors of
      the screen, and spaces behind them; of a text that is longer than the screen they show the end. */
  lemma TextReads(t: Term, cols: nat, rows: nat, s: seq<int>)
    requires OnScreen(t, cols, rows) && TAB_STOP <= cols && t.row == 0 && t.col == 0 && t.escState == 0
    requires t.screen == Cleared(t.screen) && Readable(s)
    ensures var r := Run(t, cols, rows, s);
      && r.Running? && OnScreen(r.term, cols, rows) && ShowsText(r.term, cols, rows, s)
      && r.term.screen.bg == t.screen.bg && r.term.screen.fg == t.screen.fg
  {
    ScreenShowsPage(t, cols, rows, s);
    TextOnPage(cols, s, t.screen.bg, t.screen.fg);
    PageShowsText(
      Run(t, cols, rows, s).term, WriteAll(Page(0, 0, map[]), cols, s, t.screen.bg, t.screen.fg), cols, rows, s);
  }
}
