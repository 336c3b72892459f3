/** The terminal over a text console: a machine that takes one byte at a time, keeps a cursor,
    wraps and scrolls, and follows escape sequences. */
module Terminal {
  import opened VgaConsole

  const ESC: int := 0x1B
  const TAB_STOP: int := 4
  const MAX_PARAMS: int := 16

  /** Cursor, state of the current escape sequence, and screen. */
  datatype Term = Term(
    row: int, col: int, escState: int, escPos: int, numSize: int, params: seq<int>, screen: Screen)

  /** What a byte leads to, or what stops the terminal: an assertion of the program, or a write before
      the first parameter. */
  datatype Outcome = Running(term: Term) | AssertFails | NoParameter

  predicate IsDigit(c: int) {
    '0' as int <= c <= '9' as int
  }

  // ----- what a byte does -----

  predicate Natural(params: seq<int>) {
    forall i | 0 <= i < |params| :: 0 <= params[i]
  }

  /** Sizes fit, parameters are natural numbers, and the row is not above the screen. */
  predicate Sized(t: Term, cols: nat, rows: nat) {
    && |t.screen.cells| == rows * cols && |t.params| == MAX_PARAMS && 0 <= t.escPos < MAX_PARAMS
    && Natural(t.params) && 0 <= t.row
  }

  /** The row of the cursor is on the screen; its column may be anywhere. */
  predicate RowOnScreen(t: Term, cols: nat, rows: nat) {
    Sized(t, cols, rows) && t.row < rows
  }

  predicate OnScreen(t: Term, cols: nat, rows: nat) {
    RowOnScreen(t, cols, rows) && 0 <= t.col < cols
  }

  /** The next column divisible by four, which may be in the next row. */
  function Tabbed(t: Term, cols: int): Term {
    var col := t.col - t.col % TAB_STOP + TAB_STOP;
    if col >= cols then t.(row := t.row + 1, col := col - cols) else t.(col := col)
  }

  /** A byte outside of escape sequences. */
  function Typed(t: Term, cols: int, c: int): Term {
    if c == '\n' as int || c == '\r' as int then t.(row := t.row + 1, col := 0)
    else if c == '\t' as int then Tabbed(t, cols)
    else if c == 0x08 then
      if t.col > 0 then t.(col := t.col - 1)
      else if t.row == 0 then t.(col := 0)
      else t.(row := t.row - 1, col := cols - 1)
    else if c == ESC then t.(escState := c, escPos := 0, numSize := 0)
    else
      var u := t.(screen := Printed(t.screen, c, t.row * cols + t.col));
      if t.col + 1 >= cols then u.(col := 0, row := t.row + 1) else u.(col := t.col + 1)
  }

  /** The byte after ESC. */
  function AfterEsc(t: Term, cols: int, c: int): Term {
    var u := t.(escState := c);
    if c == 'D' as int then u.(row := t.row + 1)
    else if c == 'M' as int then u.(row := if t.row != 0 then t.row - 1 else 0)
    else if c == 'H' as int then Tabbed(u, cols)
    else u
  }

  /** The first digit of a parameter. */
  function FirstDigit(t: Term, c: int): Outcome
    requires 0 <= t.escPos < |t.params|
  {
    if t.escPos + 1 >= MAX_PARAMS then AssertFails
    else Running(t.(params := t.params[t.escPos := c - '0' as int], escPos := t.escPos + 1, numSize := 1, escState := c))
  }

  /** One more digit of a parameter. */
  function NextDigit(t: Term, c: int): Outcome
    requires 0 <= t.escPos <= |t.params|
  {
    if t.numSize > 2 then AssertFails
    else if t.escPos == 0 then NoParameter
    else
      var n := t.params[t.escPos - 1] * 10 + (c - '0' as int);
      Running(t.(params := t.params[t.escPos - 1 := n], numSize := t.numSize + 1))
  }

  /** The first parameter, or 1. */
  function Count(t: Term): int
    requires t.params != []
  {
    if t.params[0] != 0 then t.params[0] else 1
  }

  /** The colors after one attribute. */
  function Colored(s: Screen, attr: int): Screen {
    if attr >= 40 then s.(bg := s.palette(attr - 40))
    else if attr >= 30 then s.(fg := s.palette(attr - 30))
    else if attr == 0 then s.(bg := s.palette(BLACK), fg := s.palette(WHITE))
    else s
  }

  /** The colors after the attributes from the i-th on. */
  function Attributes(s: Screen, params: seq<int>, i: int, n: int): Screen
    requires 0 <= i <= n <= |params|
    decreases n - i
  {
    if i == n then s else Attributes(Colored(s, params[i]), params, i + 1, n)
  }

  /** Letters that take one parameter at most. */
  predicate TakesOne(c: int) {
    'A' as int <= c <= 'D' as int || c == 'J' as int
  }

  /** The letter that ends an escape sequence. */
  function Letter(t: Term, cols: int, c: int): Term
    requires 2 <= |t.params| && 0 <= t.escPos <= |t.params|
  {
    var u := t.(escState := 0);
    if c == 'H' as int || c == 'f' as int then
      if t.params[0] != 0 && t.params[1] != 0 then u.(row := t.params[0], col := t.params[1])
      else if t.escPos == 1 then u
      else u.(row := 0, col := 0)
    else if TakesOne(c) && t.escPos > 1 then u
    else if c == 'A' as int then u.(row := if t.row < Count(t) then 0 else t.row - Count(t))
    else if c == 'B' as int then u.(row := t.row + Count(t))
    else if c == 'C' as int then
      var col := t.col + Count(t);
      if col >= cols then u.(row := t.row + 1, col := col - cols) else u.(col := col)
    else if c == 'D' as int then
      var col := t.col - Count(t);
      if col < 0 then u.(col := cols + col, row := if t.row - 1 < 0 then 0 else t.row - 1) else u.(col := col)
    else if c == 'J' as int then
      if t.params[0] != 2 then u
      else
        var s := Cleared(t.screen);
        u.(row := 0, col := 0, screen := s.(bg := s.palette(BLACK), fg := s.palette(WHITE)))
    else if c == 'm' as int then u.(screen := Attributes(t.screen, t.params, 0, t.escPos))
    else u
  }

  /** A byte inside of an escape sequence. */
  function Escaped(t: Term, cols: int, c: int): Outcome
    requires 2 <= |t.params| && 0 <= t.escPos < |t.params|
  {
    if t.escState == ESC then Running(AfterEsc(t, cols, c))
    else if t.escState == '[' as int then
      if IsDigit(c) then FirstDigit(t, c) else Running(Letter(t, cols, c))
    else if IsDigit(t.escState) then
      if c == ';' as int then Running(t.(escState := c))
      else if IsDigit(c) then NextDigit(t, c)
      else Running(Letter(t, cols, c))
    else if t.escState == ';' as int then
      if IsDigit(c) then FirstDigit(t, c) else Running(t.(escState := 0))
    else Running(Letter(t, cols, c))
  }

  function ScrolledBy(s: Screen, cols: nat, n: int): Screen
    requires cols <= |s.cells|
    decreases n
  {
    if n <= 0 then s else ScrolledBy(ScrolledDown(s, cols), cols, n - 1)
  }

  /** Scrolls until the cursor is on the screen. */
  function Scrolled(t: Term, cols: nat, rows: nat): Term
    requires cols <= |t.screen.cells|
  {
    if t.row < rows then t
    else t.(screen := ScrolledBy(t.screen, cols, t.row - rows + 1), row := rows - 1)
  }

  /** What a byte does before the screen is scrolled. */
  function Acted(t: Term, cols: int, c: int): Outcome
    requires 2 <= |t.params| && 0 <= t.escPos < |t.params|
  {
    if t.escState != 0 then Escaped(t, cols, c) else Running(Typed(t, cols, c))
  }

  lemma {:induction false} AttributesKeep(s: Screen, params: seq<int>, i: int, n: int)
    requires 0 <= i <= n <= |params|
    ensures Attributes(s, params, i, n).cells == s.cells && Attributes(s, params, i, n).palette == s.palette
    decreases n - i
  {
    if i < n {
      AttributesKeep(Colored(s, params[i]), params, i + 1, n);
    }
  }

  lemma LetterKeepsSizes(t: Term, cols: nat, rows: nat, c: int)
    requires RowOnScreen(t, cols, rows)
    ensures Sized(Letter(t, cols, c), cols, rows)
  {
    assert 0 <= t.params[0] && 0 <= Count(t);
    AttributesKeep(t.screen, t.params, 0, t.escPos);
  }

  /** Whatever the column and the parameters, no byte moves the cursor above the screen. */
  lemma ActedKeepsSizes(t: Term, cols: nat, rows: nat, c: int)
    requires RowOnScreen(t, cols, rows)
    ensures Acted(t, cols, c).Running? ==> Sized(Acted(t, cols, c).term, cols, rows)
  {
    LetterKeepsSizes(t, cols, rows, c);
  }

  lemma RowFitsScreen(cols: nat, rows: nat)
    requires 0 < rows
    ensures cols <= rows * cols
  {
    RowFits(0, rows, cols);
  }

  lemma {:induction false} ScrolledByKeeps(s: Screen, cols: nat, n: int)
    requires cols <= |s.cells|
    ensures var r := ScrolledBy(s, cols, n);
      |r.cells| == |s.cells| && r.bg == s.bg && r.fg == s.fg && r.palette == s.palette
    decreases n
  {
    if n > 0 {
      ScrolledByKeeps(ScrolledDown(s, cols), cols, n - 1);
    }
  }

  /** One byte: the row is on the screen again after it, whatever the column. */
  function Step(t: Term, cols: nat, rows: nat, c: int): (r: Outcome)
    requires RowOnScreen(t, cols, rows)
    ensures r.Running? ==> RowOnScreen(r.term, cols, rows)
  {
    RowFitsScreen(cols, rows);
    ActedKeepsSizes(t, cols, rows, c);
    match Acted(t, cols, c)
    case Running(u) =>
      ScrolledByKeeps(u.screen, cols, u.row - rows + 1);
      Running(Scrolled(u, cols, rows))
    case other => other
  }

  /** A stream of bytes, up to one that stops the terminal. */
  function Run(t: Term, cols: nat, rows: nat, s: seq<int>): (r: Outcome)
    requires RowOnScreen(t, cols, rows)
    ensures r.Running? ==> RowOnScreen(r.term, cols, rows)
  {
    if s == [] then Running(t)
    else
      match Run(t, cols, rows, s[..|s| - 1])
      case Running(u) => Step(u, cols, rows, s[|s| - 1])
      case other => other
  }

  // ----- the driver -----

  class Terminal {
    const numCols: nat
    const numRows: nat
    const out: Console
    const escParams: array<int>
    var row: int
    var col: int
    var escState: int
    var escPos: int
    var numSize: int

    /** The terminal and its console have the same size, and the parameter table its place. */
    ghost predicate Fits()
    {
      && out.Valid() && out.cols == numCols && out.rows == numRows
      && escParams.Length == MAX_PARAMS && (escParams as object) != out.cells
    }

    ghost function State(): Term
      reads this, escParams, out, out.cells
    {
      Term(row, col, escState, escPos, numSize, escParams[..], out.Shown())
    }

    ghost predicate Ready()
      reads this, escParams, out, out.cells
    {
      Fits() && RowOnScreen(State(), numCols, numRows)
    }

    constructor (out: Console)
      requires out.Valid()
      ensures Ready() && this.out == out && fresh(escParams)
      ensures row == 0 && col == 0 && escState == 0 && escPos == 0 && numSize == 0
      ensures forall i | 0 <= i < MAX_PARAMS :: escParams[i] == 0
    {
      this.out, numCols, numRows := out, out.cols, out.rows;
      escParams := new int[MAX_PARAMS](_ => 0);
      row, col, escState, escPos, numSize := 0, 0, 0, 0, 0;
    }

    /** Moves the cursor to the next tab stop. */
    method Tab()
      requires Fits()
      modifies this`row, this`col
      ensures State() == Tabbed(old(State()), numCols)
    {
      col := col - col % TAB_STOP;
      col := col + TAB_STOP;
      if col >= numCols {
        row := row + 1;
        col := col - numCols;
      }
    }

    /** A byte outside of escape sequences. */
    method Type(c: int)
      requires Ready()
      modifies this, out.cells
      ensures State() == old(Typed(State(), numCols, c))
    {
      if c == '\n' as int || c == '\r' as int {
        row := row + 1;
        col := 0;
      } else if c == '\t' as int {
        Tab();
      } else if c == 0x08 {
        col := col - 1;
        if col < 0 {
          if row == 0 {
            col := 0;
          } else {
            row := row - 1;
            col := numCols - 1;
          }
        }
      } else if c == ESC {
        escState := c;
        escPos := 0;
        numSize := 0;
      } else {
        out.WriteChar(c, col, row);
        col := col + 1;
        if col >= numCols {
          col := 0;
          row := row + 1;
        }
      }
    }

    /** The colors that the attributes given as parameters set. */
    method SetAttributes()
      requires Fits() && 0 <= escPos <= MAX_PARAMS
      modifies out
      ensures State() == old(State().(screen := Attributes(out.Shown(), escParams[..], 0, escPos)))
    {
      for i := 0 to escPos
        invariant escPos == old(escPos) && escParams[..] == old(escParams[..]) && out.cells[..] == old(out.cells[..])
        invariant old(Attributes(out.Shown(), escParams[..], 0, escPos)) == Attributes(out.Shown(), escParams[..], i, escPos)
      {
        SetAttribute(escParams[i]);
      }
    }

    method SetAttribute(attr: int)
      modifies out
      ensures out.Shown() == Colored(old(out.Shown()), attr)
    {
      if attr >= 40 {
        out.SetBgColor(attr - 40);
      } else if attr >= 30 {
        out.SetFgColor(attr - 30);
      } else if attr == 0 {
        out.SetBgColor(BLACK);
        out.SetFgColor(WHITE);
      }
    }

    /** The first parameter, or 1. */
    method FirstParam() returns (count: int)
      requires Fits()
      ensures count == Count(State())
    {
      count := 1;
      if escParams[0] != 0 {
        count := escParams[0];
      }
    }

    /** The letter that ends an escape sequence. */
    method ProcessLetter(c: int)
      requires Ready()
      modifies this, out, out.cells
      ensures State() == old(Letter(State(), numCols, c))
    {
      if c == 'H' as int || c == 'f' as int {
        var r, k := 0, 0;
        if escParams[0] != 0 && escParams[1] != 0 {
          r := escParams[0];
          k := escParams[1];
        } else if escPos == 1 {
          escState := 0;
          return;
        }
        row := r;
        col := k;
      } else if c == 'A' as int {
        var count := FirstParam();
        if escPos > 1 {
          escState := 0;
          return;
        }
        row := row - count;
        if row < 0 {
          row := 0;
        }
      } else if c == 'B' as int {
        var count := FirstParam();
        if escPos > 1 {
          escState := 0;
          return;
        }
        row := row + count;
      } else if c == 'C' as int {
        var count := FirstParam();
        if escPos > 1 {
          escState := 0;
          return;
        }
        col := col + count;
        if col >= numCols {
          row := row + 1;
          col := col - numCols;
        }
      } else if c == 'D' as int {
        var count := FirstParam();
        if escPos > 1 {
          escState := 0;
          return;
        }
        col := col - count;
        if col < 0 {
          col := numCols + col;
          row := row - 1;
          if row < 0 {
            row := 0;
          }
        }
      } else if c == 'J' as int {
        if escPos > 1 || escParams[0] != 2 {
          escState := 0;
          return;
        }
        out.ClearScreen();
        col, row := 0, 0;
        out.SetBgColor(BLACK);
        out.SetFgColor(WHITE);
      } else if c == 'm' as int {
        SetAttributes();
      }
      escState := 0;
    }

    /** A digit that starts a parameter. */
    method StartNumber(c: int) returns (ok: bool)
      requires Ready()
      modifies this, escParams
      ensures var r := old(FirstDigit(State(), c)); ok == r.Running? && (ok ==> State() == r.term)
    {
      escParams[escPos] := c - '0' as int;
      escPos := escPos + 1;
      numSize := 1;
      if !(escPos < MAX_PARAMS) {
        return false;
      }
      escState := c;
      ok := true;
    }

    /** A byte inside of an escape sequence. */
    method Escape(c: int) returns (ok: bool)
      requires Ready() && escState != 0
      modifies this, escParams, out, out.cells
      ensures var r := old(Escaped(State(), numCols, c)); ok == r.Running? && (ok ==> State() == r.term)
    {
      ok := true;
      if escState == ESC {
        escState := c;
        if escState == 'D' as int {
          row := row + 1;
        } else if escState == 'M' as int {
          if row != 0 {
            row := row - 1;
          }
        } else if escState == 'H' as int {
          Tab();
        }
      } else if escState == '[' as int {
        if IsDigit(c) {
          ok := StartNumber(c);
        } else {
          ProcessLetter(c);
        }
      } else if IsDigit(escState) {
        if c == ';' as int {
          escState := c;
        } else if IsDigit(c) {
          if numSize > 2 || escPos == 0 {
            return false;
          }
          escParams[escPos - 1] := escParams[escPos - 1] * 10;
          escParams[escPos - 1] := escParams[escPos - 1] + (c - '0' as int);
          numSize := numSize + 1;
        } else {
          ProcessLetter(c);
        }
      } else if escState == ';' as int {
        if IsDigit(c) {
          ok := StartNumber(c);
        } else {
          escState := 0;
        }
      } else {
        ProcessLetter(c);
      }
    }

    /** Scrolls the console until the cursor is on the screen. */
    method Scroll()
      requires Fits() && numCols <= out.cells.Length
      modifies this`row, out.cells
      ensures State() == old(Scrolled(State(), numCols, numRows))
    {
      if row >= numRows {
        var rowsToScroll := row - numRows + 1;
        for i := 0 to rowsToScroll
          invariant out.bgColor == old(out.bgColor) && out.fgColor == old(out.fgColor)
          invariant ScrolledBy(out.Shown(), numCols, rowsToScroll - i) == old(ScrolledBy(out.Shown(), numCols, row - numRows + 1))
        {
          out.ScrollDown();
        }
        row := numRows - 1;
      }
    }

    /** One byte written to the terminal. When ok is false an assertion of the program fails, or a
        parameter is missing. */
    method WriteChar(c: int) returns (ok: bool)
      requires Ready()
      modifies this, escParams, out, out.cells
      ensures var r := old(Step(State(), numCols, numRows, c)); ok == r.Running? && (ok ==> State() == r.term && Ready())
    {
      RowFitsScreen(numCols, numRows);
      ActedKeepsSizes(State(), numCols, numRows, c);
      ok := true;
      if escState != 0 {
        ok := Escape(c);
      } else {
        Type(c);
      }
      if ok {
        Scroll();
      }
    }

    /** Writes bytes, up to one that stops the terminal. */
    method Write(s: seq<int>) returns (ok: bool)
      requires Ready()
      modifies this, escParams, out, out.cells
      ensures var r := old(Run(State(), numCols, numRows, s)); ok == r.Running? && (ok ==> State() == r.term && Ready())
    {
      ghost var t := State();
      for i := 0 to |s|
        invariant Ready() && Run(t, numCols, numRows, s[..i]) == Running(State())
      {
        assert s[..i + 1][..i] == s[..i];
        ok := WriteChar(s[i]);
        if !ok {
          RunStops(t, numCols, numRows, s, i + 1);
          return;
        }
      }
      assert s[..|s|] == s;
      ok := true;
    }
  }

  // ----- the cursor stays on the screen -----

  /** The byte is the letter that ends an escape sequence. */
  predicate EndsSequence(t: Term, c: int) {
    && t.escState != 0 && t.escState != ESC && t.escState != ';' as int
    && ((t.escState == '[' as int || IsDigit(t.escState)) ==> !IsDigit(c))
    && (IsDigit(t.escState) ==> c != ';' as int)
  }

  /** The parameters of a letter that moves the cursor do not move it past the side of the screen. */
  predicate MoveFits(t: Term, cols: int, c: int)
    requires 2 <= |t.params|
  {
    if c == 'H' as int || c == 'f' as int then t.params[0] != 0 ==> t.params[1] < cols
    else if c == 'C' as int && t.escPos <= 1 then t.col + Count(t) < 2 * cols
    else if c == 'D' as int && t.escPos <= 1 then Count(t) <= t.col + cols
    else true
  }

  lemma LetterColumnIff(t: Term, cols: nat, rows: nat, c: int)
    requires OnScreen(t, cols, rows)
    ensures 0 <= Letter(t, cols, c).col < cols <==> MoveFits(t, cols, c)
  {
  }

  /** On a screen of at least 4 columns the column stays on the screen with a byte exactly when it is
      not a letter that moves the cursor past the side. */
  lemma StepColumnIff(t: Term, cols: nat, rows: nat, c: int)
    requires OnScreen(t, cols, rows) && TAB_STOP <= cols
    ensures match Step(t, cols, rows, c)
      case Running(u) => 0 <= u.col < cols <==> EndsSequence(t, c) ==> MoveFits(t, cols, c)
      case _ => true
  {
    LetterColumnIff(t, cols, rows, c);
  }

  /** After something stops the terminal nothing else happens. */
  lemma {:induction false} RunStops(t: Term, cols: nat, rows: nat, s: seq<int>, i: nat)
    requires RowOnScreen(t, cols, rows) && i <= |s| && !Run(t, cols, rows, s[..i]).Running?
    ensures Run(t, cols, rows, s) == Run(t, cols, rows, s[..i])
    decreases |s|
  {
    if i == |s| {
      assert s[..i] == s;
    } else {
      assert s[..|s| - 1][..i] == s[..i];
      RunStops(t, cols, rows, s[..|s| - 1], i);
    }
  }

  /** Every ESC is followed by one of the four bytes that the terminal knows after it. */
  predicate EscFollowed(s: seq<int>) {
    forall i | 0 <= i < |s| - 1 && s[i] == ESC :: s[i + 1] in ['[' as int, 'D' as int, 'M' as int, 'H' as int]
  }

  /** After a digit there is a parameter, and ESC was the last byte if it is the state. */
  predicate Followed(t: Term, s: seq<int>) {
    && |t.params| == MAX_PARAMS && 0 <= t.escPos < MAX_PARAMS
    && (IsDigit(t.escState) ==> t.escPos >= 1)
    && (t.escState == ESC ==> s != [] && s[|s| - 1] == ESC)
  }

  lemma FollowedStep(t: Term, cols: nat, rows: nat, c: int, s: seq<int>)
    requires RowOnScreen(t, cols, rows) && Followed(t, s) && EscFollowed(s + [c])
    ensures match Step(t, cols, rows, c)
      case Running(u) => Followed(u, s + [c])
      case NoParameter => false
      case AssertFails => true
  {
    if t.escState == ESC {
      assert (s + [c])[|s| - 1] == ESC && (s + [c])[|s|] == c;
    }
  }

  lemma EscFollowedPrefix(s: seq<int>)
    requires s != [] && EscFollowed(s)
    ensures EscFollowed(s[..|s| - 1])
  {
    var init := s[..|s| - 1];
    forall i | 0 <= i < |init| - 1 && init[i] == ESC
      ensures init[i + 1] in ['[' as int, 'D' as int, 'M' as int, 'H' as int]
    {
      assert s[i] == ESC && s[i + 1] == init[i + 1];
    }
  }

  /** Through every stream in which ESC is followed by a known byte, on a screen of any size, from any
      column and with any numbers, the row stays on the screen, and no parameter is missing. */
  lemma {:induction false} RowStaysOnScreen(t: Term, cols: nat, rows: nat, s: seq<int>)
    requires RowOnScreen(t, cols, rows) && t.escState == 0 && EscFollowed(s)
    ensures match Run(t, cols, rows, s)
      case Running(u) => 0 <= u.row < rows && Followed(u, s)
      case NoParameter => false
      case AssertFails => true
    decreases |s|
  {
    if s != [] {
      var init, c := s[..|s| - 1], s[|s| - 1];
      assert s == init + [c];
      EscFollowedPrefix(s);
      RowStaysOnScreen(t, cols, rows, init);
      var r := Run(t, cols, rows, init);
      if r.Running? {
        FollowedStep(r.term, cols, rows, c, init);
      }
    }
  }

  /** The column stays on the screen after every byte of a stream if and only if no letter in it moves
      the cursor past the side. */
  lemma ColumnStaysIff(t: Term, cols: nat, rows: nat, s: seq<int>)
    requires OnScreen(t, cols, rows) && TAB_STOP <= cols
    ensures (forall i | 0 <= i <= |s| :: ColumnOk(t, cols, rows, s[..i])) <==>
      forall i | 0 <= i < |s| :: LetterOk(t, cols, rows, s[..i], s[i])
  {
    if forall i | 0 <= i < |s| :: LetterOk(t, cols, rows, s[..i], s[i]) {
      forall i | 0 <= i <= |s| ensures ColumnOk(t, cols, rows, s[..i]) {
        LettersKeepColumn(t, cols, rows, s, i);
      }
    }
    if forall i | 0 <= i <= |s| :: ColumnOk(t, cols, rows, s[..i]) {
      forall i | 0 <= i < |s| ensures LetterOk(t, cols, rows, s[..i], s[i]) {
        assert ColumnOk(t, cols, rows, s[..i]) && ColumnOk(t, cols, rows, s[..i + 1]);
        assert s[..i + 1][..i] == s[..i];
        var r := Run(t, cols, rows, s[..i]);
        if r.Running? {
          StepColumnIff(r.term, cols, rows, s[i]);
        }
      }
    }
  }

  predicate ColumnOk(t: Term, cols: nat, rows: nat, s: seq<int>)
    requires RowOnScreen(t, cols, rows)
  {
    match Run(t, cols, rows, s) case Running(u) => 0 <= u.col < cols case _ => true
  }

  predicate LetterOk(t: Term, cols: nat, rows: nat, s: seq<int>, c: int)
    requires RowOnScreen(t, cols, rows)
  {
    match Run(t, cols, rows, s) case Running(u) => EndsSequence(u, c) ==> MoveFits(u, cols, c) case _ => true
  }

  lemma {:induction false} LettersKeepColumn(t: Term, cols: nat, rows: nat, s: seq<int>, n: nat)
    requires OnScreen(t, cols, rows) && TAB_STOP <= cols && n <= |s|
    requires forall i | 0 <= i < |s| :: LetterOk(t, cols, rows, s[..i], s[i])
    ensures ColumnOk(t, cols, rows, s[..n])
  {
    if n > 0 {
      LettersKeepColumn(t, cols, rows, s, n - 1);
      assert s[..n][..n - 1] == s[..n - 1] && LetterOk(t, cols, rows, s[..n - 1], s[n - 1]);
      var r := Run(t, cols, rows, s[..n - 1]);
      if r.Running? {
        StepColumnIff(r.term, cols, rows, s[n - 1]);
      }
    }
  }

  // ----- numbers in escape sequences -----

  predicate Digits(s: seq<int>) {
    forall i | 0 <= i < |s| :: IsDigit(s[i])
  }

  function Number(s: seq<int>): int {
    if s == [] then 0 else Number(s[..|s| - 1]) * 10 + (s[|s| - 1] - '0' as int)
  }

  /** Which part of an escape sequence a stream ends in, 0 outside of them; digits stand for one another. */
  function Mode(s: seq<int>): int {
    if s == [] then 0
    else
      var m, c := Mode(s[..|s| - 1]), s[|s| - 1];
      if m == 0 then if c == ESC then ESC else 0
      else if m == ESC then c
      else if IsDigit(m) && (IsDigit(c) || c == ';' as int) then if IsDigit(c) then m else c
      else if (m == '[' as int || m == ';' as int) && IsDigit(c) then c
      else 0
  }

  /** A number of an escape sequence: digits where a parameter starts, or none, which is 0. */
  predicate EscapeNumberAt(s: seq<int>, i: int, j: int, v: int) {
    && 0 <= i <= j <= |s| && Digits(s[i..j]) && v == Number(s[i..j])
    && (i < j ==> Mode(s[..i]) == '[' as int || Mode(s[..i]) == ';' as int)
  }

  /** All numbers of escape sequences in the stream are below n; text may have any. */
  ghost predicate EscapeNumbersBelow(s: seq<int>, n: int) {
    forall i, j, v | EscapeNumberAt(s, i, j, v) :: v < n
  }

  ghost predicate IsNumberIn(s: seq<int>, v: int) {
    exists i, j :: EscapeNumberAt(s, i, j, v)
  }

  ghost predicate EndsWithNumber(s: seq<int>, v: int) {
    exists i :: i < |s| && EscapeNumberAt(s, i, |s|, v)
  }

  /** Parameters are numbers of the escape sequences of the stream, and the current one is being read. */
  ghost predicate ReadFrom(t: Term, s: seq<int>) {
    && |t.params| == MAX_PARAMS && 0 <= t.escPos < MAX_PARAMS
    && t.escState == Mode(s) && (t.escState == ESC ==> t.escPos == 0)
    && (forall k | 0 <= k < MAX_PARAMS :: IsNumberIn(s, t.params[k]))
    && (IsDigit(t.escState) && 1 <= t.escPos ==> EndsWithNumber(s, t.params[t.escPos - 1]))
  }

  lemma NumberStays(s: seq<int>, c: int, v: int)
    requires IsNumberIn(s, v)
    ensures IsNumberIn(s + [c], v)
  {
    var i, j :| EscapeNumberAt(s, i, j, v);
    assert (s + [c])[i..j] == s[i..j] && (s + [c])[..i] == s[..i];
    assert EscapeNumberAt(s + [c], i, j, v);
  }

  lemma NumberStarts(s: seq<int>, c: int)
    requires IsDigit(c) && (Mode(s) == '[' as int || Mode(s) == ';' as int)
    ensures EndsWithNumber(s + [c], c - '0' as int)
  {
    assert (s + [c])[|s|..|s| + 1] == [c] && [c][..0] == [] && (s + [c])[..|s|] == s;
    assert EscapeNumberAt(s + [c], |s|, |s| + 1, c - '0' as int);
  }

  lemma NumberGoesOn(s: seq<int>, c: int, v: int)
    requires EndsWithNumber(s, v) && IsDigit(c)
    ensures EndsWithNumber(s + [c], v * 10 + (c - '0' as int))
  {
    var i :| i < |s| && EscapeNumberAt(s, i, |s|, v);
    var d := s[i..|s|];
    assert (s + [c])[i..|s| + 1] == d + [c] && (d + [c])[..|d|] == d && (s + [c])[..i] == s[..i];
    assert EscapeNumberAt(s + [c], i, |s| + 1, v * 10 + (c - '0' as int));
  }

  lemma EndsIsIn(s: seq<int>, v: int)
    requires EndsWithNumber(s, v)
    ensures IsNumberIn(s, v)
  {
    var i :| i < |s| && EscapeNumberAt(s, i, |s|, v);
  }

  lemma NumbersStay(params: seq<int>, s: seq<int>, c: int)
    requires forall k | 0 <= k < |params| :: IsNumberIn(s, params[k])
    ensures forall k | 0 <= k < |params| :: IsNumberIn(s + [c], params[k])
  {
    forall k | 0 <= k < |params| ensures IsNumberIn(s + [c], params[k]) {
      NumberStays(s, c, params[k]);
    }
  }

  lemma ModeNext(s: seq<int>, c: int)
    ensures (s + [c])[..|s|] == s && (s + [c])[|s|] == c
  {
  }

  lemma ModeStays(s: seq<int>, c: int)
    requires IsDigit(Mode(s)) && IsDigit(c)
    ensures Mode(s + [c]) == Mode(s)
  {
    ModeNext(s, c);
  }

  lemma ReadFirstDigit(t: Term, c: int, s: seq<int>)
    requires ReadFrom(t, s) && IsDigit(c) && (t.escState == '[' as int || t.escState == ';' as int)
    ensures match FirstDigit(t, c) case Running(u) => ReadFrom(u, s + [c]) case _ => true
  {
    ModeNext(s, c);
    NumbersStay(t.params, s, c);
    NumberStarts(s, c);
    EndsIsIn(s + [c], c - '0' as int);
  }

  lemma LongerNumber(params: seq<int>, s: seq<int>, c: int, v: int)
    requires EndsWithNumber(s, v) && IsDigit(c) && forall k | 0 <= k < |params| :: IsNumberIn(s, params[k])
    ensures EndsWithNumber(s + [c], v * 10 + (c - '0' as int)) && IsNumberIn(s + [c], v * 10 + (c - '0' as int))
    ensures forall k | 0 <= k < |params| :: IsNumberIn(s + [c], params[k])
  {
    NumbersStay(params, s, c);
    NumberGoesOn(s, c, v);
    EndsIsIn(s + [c], v * 10 + (c - '0' as int));
  }

  lemma ReadNextDigit(t: Term, c: int, s: seq<int>)
    requires ReadFrom(t, s) && IsDigit(c) && IsDigit(t.escState)
    ensures match NextDigit(t, c) case Running(u) => ReadFrom(u, s + [c]) case _ => true
  {
    ModeStays(s, c);
    if 1 <= t.escPos {
      var v := t.params[t.escPos - 1];
      LongerNumber(t.params, s, c, v);
    }
  }

  /** A byte that is no digit of a parameter leaves the parameters as they are. */
  lemma ReadOther(t: Term, cols: nat, c: int, s: seq<int>)
    requires ReadFrom(t, s)
    requires !(IsDigit(c) && (IsDigit(t.escState) || t.escState == '[' as int || t.escState == ';' as int))
    ensures match Acted(t, cols, c) case Running(u) => ReadFrom(u, s + [c]) case _ => true
  {
    ModeNext(s, c);
    NumbersStay(t.params, s, c);
    OtherKeeps(t, cols, c);
  }

  lemma OtherKeeps(t: Term, cols: nat, c: int)
    requires |t.params| == MAX_PARAMS && 0 <= t.escPos < MAX_PARAMS && (t.escState == ESC ==> t.escPos == 0)
    requires !(IsDigit(c) && (IsDigit(t.escState) || t.escState == '[' as int || t.escState == ';' as int))
    ensures match Acted(t, cols, c)
      case Running(u) => u.params == t.params && 0 <= u.escPos < MAX_PARAMS && (u.escState == ESC ==> u.escPos == 0)
      case _ => false
  {
  }

  /** What a byte does to the parameters: nothing, or one digit. */
  lemma ReadByte(t: Term, cols: nat, c: int, s: seq<int>)
    requires ReadFrom(t, s)
    ensures match Acted(t, cols, c) case Running(u) => ReadFrom(u, s + [c]) case _ => true
  {
    if IsDigit(c) && IsDigit(t.escState) {
      ReadNextDigit(t, c, s);
    } else if IsDigit(c) && (t.escState == '[' as int || t.escState == ';' as int) {
      ReadFirstDigit(t, c, s);
    } else {
      ReadOther(t, cols, c, s);
    }
  }

  lemma ReadStep(t: Term, cols: nat, rows: nat, c: int, s: seq<int>)
    requires RowOnScreen(t, cols, rows) && ReadFrom(t, s)
    ensures match Step(t, cols, rows, c) case Running(u) => ReadFrom(u, s + [c]) case _ => true
  {
    ReadByte(t, cols, c, s);
  }

  /** Numbers below the number of columns do not move the cursor past the side. */
  lemma NumbersFit(t: Term, cols: nat, rows: nat, c: int, s: seq<int>)
    requires OnScreen(t, cols, rows) && ReadFrom(t, s) && EscapeNumbersBelow(s, cols)
    ensures MoveFits(t, cols, c)
  {
    assert IsNumberIn(s, t.params[0]) && IsNumberIn(s, t.params[1]);
    var i, j :| EscapeNumberAt(s, i, j, t.params[0]);
    var k, l :| EscapeNumberAt(s, k, l, t.params[1]);
  }

  lemma NumbersBelowPrefix(s: seq<int>, n: int)
    requires s != [] && EscapeNumbersBelow(s, n)
    ensures EscapeNumbersBelow(s[..|s| - 1], n)
  {
    var init := s[..|s| - 1];
    forall i, j, v | EscapeNumberAt(init, i, j, v) ensures v < n {
      assert s[i..j] == init[i..j] && s[..i] == init[..i];
      assert EscapeNumberAt(s, i, j, v);
    }
  }

  /** A terminal of at least 4 columns that was just opened also keeps the column on the screen, through
      every stream in which all numbers of escape sequences are below the number of columns. */
  lemma {:induction false} ColumnStaysOnScreen(t: Term, cols: nat, rows: nat, s: seq<int>)
    requires OnScreen(t, cols, rows) && TAB_STOP <= cols
    requires t.escState == 0 && forall k | 0 <= k < MAX_PARAMS :: t.params[k] == 0
    requires EscapeNumbersBelow(s, cols)
    ensures match Run(t, cols, rows, s)
      case Running(u) => OnScreen(u, cols, rows) && ReadFrom(u, s)
      case _ => true
    decreases |s|
  {
    if s == [] {
      assert EscapeNumberAt(s, 0, 0, 0);
      return;
    }
    var init, c := s[..|s| - 1], s[|s| - 1];
    assert s == init + [c];
    NumbersBelowPrefix(s, cols);
    ColumnStaysOnScreen(t, cols, rows, init);
    var r := Run(t, cols, rows, init);
    if r.Running? {
      NumbersFit(r.term, cols, rows, c, init);
      ReadStep(r.term, cols, rows, c, init);
      StepColumnIff(r.term, cols, rows, c);
    }
  }

  /** Numbers in text do not count: without ESC there are no numbers of escape sequences. */
  lemma TextHasNone(s: seq<int>, n: int)
    requires 0 < n && ESC !in s
    ensures EscapeNumbersBelow(s, n)
  {
    forall i, j, v | EscapeNumberAt(s, i, j, v) ensures v < n {
      TextMode(s[..i]);
    }
  }

  lemma {:induction false} TextMode(s: seq<int>)
    requires ESC !in s
    ensures Mode(s) == 0
  {
    if s != [] {
      TextMode(s[..|s| - 1]);
    }
  }

  // ----- a column off the screen -----

  ghost predicate Leads(t: Term, c: int, u: Term) {
    RowOnScreen(t, 80, 25) && Acted(t, 80, c) == Running(u) && u.row < 25
  }

  lemma {:induction false} RunAlong(v: seq<Term>, s: seq<int>, k: nat)
    requires k <= |s| && |v| == |s| + 1 && RowOnScreen(v[0], 80, 25)
    requires forall i | 0 <= i < |s| :: Leads(v[i], s[i], v[i + 1])
    ensures Run(v[0], 80, 25, s[..k]) == Running(v[k])
  {
    if k > 0 {
      RunAlong(v, s, k - 1);
      assert s[..k][..k - 1] == s[..k - 1];
      assert Leads(v[k - 1], s[k - 1], v[k]);
    }
  }

  /** ESC [ 5 ; 2 0 0 H */
  const MOVE_5_200: seq<int> := [0x1B, 0x5B, 0x35, 0x3B, 0x32, 0x30, 0x30, 0x48]

  /** The states that the bytes of this sequence lead through. */
  lemma MoveStarts(t: Term) returns (v: seq<Term>)
    requires OnScreen(t, 80, 25) && t.escState == 0
    ensures |v| == 5 && v[0] == t && forall i | 0 <= i < 4 :: Leads(v[i], MOVE_5_200[i], v[i + 1])
    ensures v[4] == t.(escState := 0x3B, escPos := 1, numSize := 1, params := t.params[0 := 5])
  {
    var t1 := t.(escState := 0x1B, escPos := 0, numSize := 0);
    var t2 := t1.(escState := 0x5B);
    var t3 := t2.(escState := 0x35, escPos := 1, numSize := 1, params := t.params[0 := 5]);
    v := [t, t1, t2, t3, t3.(escState := 0x3B)];
  }

  lemma MoveEnds(t: Term) returns (v: seq<Term>)
    requires OnScreen(t, 80, 25) && t.escState == 0x3B && t.escPos == 1 && t.params[0] == 5
    ensures |v| == 5 && v[0] == t && forall i | 0 <= i < 4 :: Leads(v[i], MOVE_5_200[4 + i], v[i + 1])
    ensures v[4].row == 5 && v[4].col == 200
  {
    var t1 := t.(escState := 0x32, escPos := 2, numSize := 1, params := t.params[1 := 2]);
    var t2 := t1.(numSize := 2, params := t1.params[1 := 20]);
    var t3 := t2.(numSize := 3, params := t2.params[1 := 200]);
    v := [t, t1, t2, t3, t3.(escState := 0, row := 5, col := 200)];
  }

  /** A position that is sent to a terminal of 80 columns moves the column off the screen. */
  lemma ColumnLeavesScreen(t: Term)
    requires OnScreen(t, 80, 25) && t.escState == 0
    ensures var r := Run(t, 80, 25, MOVE_5_200); r.Running? && r.term.row == 5 && r.term.col == 200
  {
    var v := MoveStarts(t);
    var u := MoveEnds(v[4]);
    RunAlong(v + u[1..], MOVE_5_200, 8);
    assert MOVE_5_200[..8] == MOVE_5_200;
  }

  // ----- how far the column goes -----

  /** Parameters have at most three digits, and the current one as many as were read. */
  predicate Short(t: Term) {
    && |t.params| == MAX_PARAMS && 0 <= t.escPos < MAX_PARAMS
    && (forall k | 0 <= k < MAX_PARAMS :: 0 <= t.params[k] <= 999) && (t.escState == ESC ==> t.escPos == 0)
    && (IsDigit(t.escState) && 1 <= t.escPos ==>
          1 <= t.numSize && (t.numSize == 1 ==> t.params[t.escPos - 1] <= 9) && (t.numSize == 2 ==> t.params[t.escPos - 1] <= 99))
  }

  /** The column does not move further than 1000 from where it was, the start, or the side. */
  predicate Near(col: int, col': int, cols: nat) {
    (if col < 0 then col else 0) - 1000 <= col' <= (if col > cols then col else cols) + 1000
  }

  lemma ShortLetter(t: Term, cols: nat, c: int)
    requires Short(t)
    ensures Short(Letter(t, cols, c)) && Near(t.col, Letter(t, cols, c).col, cols)
  {
  }

  lemma ShortDigit(t: Term, c: int)
    requires Short(t) && IsDigit(c)
    ensures match FirstDigit(t, c) case Running(u) => Short(u) && u.col == t.col case _ => true
    ensures IsDigit(t.escState) ==>
      match NextDigit(t, c) case Running(u) => Short(u) && u.col == t.col case _ => true
  {
  }

  lemma ShortActed(t: Term, cols: nat, c: int)
    requires Short(t)
    ensures match Acted(t, cols, c) case Running(u) => Short(u) && Near(t.col, u.col, cols) case _ => true
  {
    ShortLetter(t, cols, c);
    if IsDigit(c) {
      ShortDigit(t, c);
    }
  }

  lemma ShortStep(t: Term, cols: nat, rows: nat, c: int)
    requires RowOnScreen(t, cols, rows) && Short(t)
    ensures match Step(t, cols, rows, c) case Running(u) => Short(u) && Near(t.col, u.col, cols) case _ => true
  {
    ShortActed(t, cols, c);
  }

  /** How far from the screen any stream can take the column, and so how long a stream may be before
      the column leaves the numbers of 32 bits. */
  lemma {:induction false} ColumnWithin(t: Term, cols: nat, rows: nat, s: seq<int>)
    requires OnScreen(t, cols, rows) && t.escState == 0 && forall k | 0 <= k < MAX_PARAMS :: t.params[k] == 0
    ensures match Run(t, cols, rows, s)
      case Running(u) => Short(u) && -1000 * |s| <= u.col <= cols + 1000 * |s|
      case _ => true
    decreases |s|
  {
    if s != [] {
      ColumnWithin(t, cols, rows, s[..|s| - 1]);
      var r := Run(t, cols, rows, s[..|s| - 1]);
      if r.Running? {
        ShortStep(r.term, cols, rows, s[|s| - 1]);
      }
    }
  }
}
