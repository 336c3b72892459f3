/** What is sent to a terminal, and where the cursor then is: backspaces, and whole escape sequences with
    their numbers written out. */
module TerminalMoves {
  import opened VgaConsole
  import opened Terminal

  /** The cells of the screen, counted row by row, up to the cursor. */
  function CursorAt(t: Term, cols: nat): int {
    t.row * cols + t.col
  }

  /** Only the cursor is elsewhere. */
  ghost predicate OnlyCursor(t: Term, u: Term) {
    u == t.(row := u.row, col := u.col)
  }

  /** A byte that is printed. */
  predicate Ordinary(c: int) {
    c != '\n' as int && c != '\r' as int && c != '\t' as int && c != 0x08 && c != ESC
  }

  lemma RowStart(row: int, cols: nat)
    ensures (row + 1) * cols == row * cols + cols && (row - 1) * cols == row * cols - cols
  {
  }

  lemma {:induction false} CellBounds(row: int, col: int, cols: nat, rows: nat)
    requires 0 <= row < rows && 0 <= col < cols
    ensures 0 <= row * cols && row * cols + col < rows * cols
    ensures row * cols + col == 0 <==> row == 0 && col == 0
    ensures row * cols + col == rows * cols - 1 <==> row == rows - 1 && col == cols - 1
  {
    RowFits(row, rows, cols);
    RowFits(0, rows, cols);
    if row > 0 {
      RowFits(0, row, cols);
    }
    if row < rows - 1 {
      RowFits(row, rows - 1, cols);
      RowStart(rows - 1, cols);
    } else {
      RowStart(row, cols);
    }
  }

  // ----- backspaces -----

  /** A backspace moves the cursor one cell back, except in the top left corner, and changes nothing else. */
  lemma Backspace(t: Term, cols: nat, rows: nat)
    requires OnScreen(t, cols, rows) && t.escState == 0
    ensures var r := Step(t, cols, rows, 0x08);
      && r.Running? && OnScreen(r.term, cols, rows) && OnlyCursor(t, r.term)
      && CursorAt(r.term, cols) == if CursorAt(t, cols) == 0 then 0 else CursorAt(t, cols) - 1
  {
    CellBounds(t.row, t.col, cols, rows);
    RowStart(t.row, cols);
  }

  lemma Two(t: Term, cols: nat, rows: nat, a: int, b: int)
    requires RowOnScreen(t, cols, rows)
    ensures Run(t, cols, rows, [a, b]) ==
      match Step(t, cols, rows, a) case Running(u) => Step(u, cols, rows, b) case other => other
  {
    assert [a, b][..1] == [a] && [a][..0] == [];
    assert Run(t, cols, rows, [a]) == Step(t, cols, rows, a);
  }

  /** A byte that is printed goes to the cursor, which moves one cell on; behind the last cell the screen
      scrolls and the cursor is at the start of the last row. */
  lemma PrintStep(t: Term, cols: nat, rows: nat, c: int)
    requires OnScreen(t, cols, rows) && t.escState == 0 && Ordinary(c)
    ensures var r, at := Step(t, cols, rows, c), CursorAt(t, cols);
      && r.Running? && OnScreen(r.term, cols, rows) && r.term.escState == 0
      && at < |t.screen.cells|
      && if at + 1 < rows * cols then
           CursorAt(r.term, cols) == at + 1
           && r.term.screen == t.screen.(cells := t.screen.cells[at := Entry(c, t.screen.bg, t.screen.fg)])
         else r.term.row == rows - 1 && r.term.col == 0
  {
    CellBounds(t.row, t.col, cols, rows);
    RowStart(t.row, cols);
  }

  /** A printed byte and a backspace bring the cursor back, unless the byte scrolled the screen. */
  lemma PrintThenBack(t: Term, cols: nat, rows: nat, c: int)
    requires OnScreen(t, cols, rows) && t.escState == 0 && Ordinary(c) && CursorAt(t, cols) + 1 < rows * cols
    ensures var r := Run(t, cols, rows, [c, 0x08]);
      && r.Running? && r.term.row == t.row && r.term.col == t.col
      && r.term.screen == t.screen.(cells := t.screen.cells[CursorAt(t, cols) := Entry(c, t.screen.bg, t.screen.fg)])
  {
    Two(t, cols, rows, c, 0x08);
    PrintStep(t, cols, rows, c);
    var u := Step(t, cols, rows, c).term;
    Backspace(u, cols, rows);
    SameCell(t, Step(u, cols, rows, 0x08).term, cols, rows);
  }

  lemma SameCell(t: Term, u: Term, cols: nat, rows: nat)
    requires OnScreen(t, cols, rows) && OnScreen(u, cols, rows) && CursorAt(t, cols) == CursorAt(u, cols)
    ensures t.row == u.row && t.col == u.col
  {
    if t.row < u.row {
      RowFits(t.row, u.row, cols);
    } else if u.row < t.row {
      RowFits(u.row, t.row, cols);
    }
  }

  // ----- escape sequences, written out -----

  /** A number as it is sent: one to three digits. */
  predicate Numeral(d: seq<int>) {
    1 <= |d| <= 3 && forall i | 0 <= i < |d| :: IsDigit(d[i])
  }

  function Value(d: seq<int>): nat
    requires Numeral(d)
  {
    var a := d[0] - '0' as int;
    if |d| == 1 then a
    else
      var b := a * 10 + (d[1] - '0' as int);
      if |d| == 2 then b else b * 10 + (d[2] - '0' as int)
  }

  /** Every number below 1000 can be sent. */
  lemma Written(n: nat) returns (d: seq<int>)
    requires n < 1000
    ensures Numeral(d) && Value(d) == n
  {
    d := [n / 100 + '0' as int, n / 10 % 10 + '0' as int, n % 10 + '0' as int];
  }

  /** What a sequence can have: at most 15 numbers. */
  predicate Sendable(ds: seq<seq<int>>) {
    |ds| < MAX_PARAMS && forall i | 0 <= i < |ds| :: Numeral(ds[i])
  }

  function Values(ds: seq<seq<int>>): (ns: seq<int>)
    requires Sendable(ds)
    ensures |ns| == |ds| && forall i | 0 <= i < |ns| :: ns[i] == Value(ds[i])
  {
    if ds == [] then [] else Values(ds[..|ds| - 1]) + [Value(ds[|ds| - 1])]
  }

  /** Numbers with ';' between them. */
  function Joined(ds: seq<seq<int>>): seq<int> {
    if ds == [] then [] else Joined(ds[..|ds| - 1]) + Next(ds[..|ds| - 1], ds[|ds| - 1])
  }

  /** What is sent for the number that follows others. */
  function Next(ds: seq<seq<int>>, d: seq<int>): seq<int> {
    (if ds == [] then [] else [';' as int]) + d
  }

  /** ESC, '[', the numbers, and a letter. */
  function Sequence(ds: seq<seq<int>>, letter: int): seq<int> {
    [ESC, '[' as int] + Joined(ds) + [letter]
  }

  lemma Assoc(a: seq<int>, b: seq<int>, c: seq<int>)
    ensures a + (b + c) == (a + b) + c
  {
  }

  lemma RunSplit(t: Term, cols: nat, rows: nat, s: seq<int>, c: int)
    requires RowOnScreen(t, cols, rows)
    ensures Run(t, cols, rows, s + [c]) ==
      match Run(t, cols, rows, s) case Running(u) => Step(u, cols, rows, c) case other => other
  {
    assert (s + [c])[..|s|] == s;
  }

  lemma RunThen(t: Term, cols: nat, rows: nat, s: seq<int>, c: int)
    requires RowOnScreen(t, cols, rows) && Run(t, cols, rows, s).Running?
    ensures Run(t, cols, rows, s + [c]) == Step(Run(t, cols, rows, s).term, cols, rows, c)
  {
    RunSplit(t, cols, rows, s, c);
  }

  lemma {:induction false} RunConcat(t: Term, cols: nat, rows: nat, a: seq<int>, b: seq<int>)
    requires RowOnScreen(t, cols, rows) && Run(t, cols, rows, a).Running?
    ensures Run(t, cols, rows, a + b) == Run(Run(t, cols, rows, a).term, cols, rows, b)
    decreases |b|
  {
    if b == [] {
      assert a + b == a;
    } else {
      var init, c := b[..|b| - 1], b[|b| - 1];
      RunConcat(t, cols, rows, a, init);
      assert b == init + [c];
      Assoc(a, init, [c]);
      RunSplit(t, cols, rows, a + init, c);
      RunSplit(Run(t, cols, rows, a).term, cols, rows, init, c);
    }
  }

  /** A terminal in a sequence, outside of which it is t, has read the numbers. */
  ghost predicate HasRead(t: Term, u: Term, ns: seq<int>) {
    && |ns| < MAX_PARAMS <= |t.params|
    && u == t.(params := ns + t.params[|ns|..], escPos := |ns|, numSize := u.numSize, escState := u.escState)
  }

  /** From u on, a sequence has read the digits of one more number, which is k so far. */
  ghost predicate Reading(u: Term, v: Term, k: int, digits: int) {
    && 0 <= u.escPos < MAX_PARAMS - 1 && |u.params| == MAX_PARAMS && IsDigit(v.escState)
    && v == u.(params := u.params[u.escPos := k], escPos := u.escPos + 1, numSize := digits, escState := v.escState)
  }

  lemma FirstRead(u: Term, cols: nat, rows: nat, c: int)
    requires RowOnScreen(u, cols, rows) && IsDigit(c)
    requires u.escPos + 1 < MAX_PARAMS && (u.escState == '[' as int || u.escState == ';' as int)
    ensures var r := Step(u, cols, rows, c); r.Running? && Reading(u, r.term, c - '0' as int, 1)
  {
  }

  lemma NextRead(u: Term, v: Term, cols: nat, rows: nat, c: int, k: int, digits: int)
    requires RowOnScreen(v, cols, rows) && IsDigit(c) && Reading(u, v, k, digits) && digits <= 2
    ensures var r := Step(v, cols, rows, c); r.Running? && Reading(u, r.term, k * 10 + (c - '0' as int), digits + 1)
  {
    assert v.params[v.escPos - 1] == k;
    assert u.params[u.escPos := k][u.escPos := k * 10 + (c - '0' as int)] == u.params[u.escPos := k * 10 + (c - '0' as int)];
  }

  lemma OneRun(u: Term, cols: nat, rows: nat, a: int)
    requires RowOnScreen(u, cols, rows) && IsDigit(a)
    requires u.escPos + 1 < MAX_PARAMS && (u.escState == '[' as int || u.escState == ';' as int)
    ensures var r := Run(u, cols, rows, [a]); r.Running? && Reading(u, r.term, a - '0' as int, 1)
  {
    assert [a][..0] == [];
    FirstRead(u, cols, rows, a);
  }

  lemma TwoRun(u: Term, cols: nat, rows: nat, a: int, b: int)
    requires RowOnScreen(u, cols, rows) && IsDigit(a) && IsDigit(b)
    requires u.escPos + 1 < MAX_PARAMS && (u.escState == '[' as int || u.escState == ';' as int)
    ensures var r := Run(u, cols, rows, [a, b]);
      r.Running? && Reading(u, r.term, (a - '0' as int) * 10 + (b - '0' as int), 2)
  {
    OneRun(u, cols, rows, a);
    assert [a, b][..1] == [a];
    NextRead(u, Run(u, cols, rows, [a]).term, cols, rows, b, a - '0' as int, 1);
  }

  lemma ThreeRun(u: Term, cols: nat, rows: nat, a: int, b: int, c: int)
    requires RowOnScreen(u, cols, rows) && IsDigit(a) && IsDigit(b) && IsDigit(c)
    requires u.escPos + 1 < MAX_PARAMS && (u.escState == '[' as int || u.escState == ';' as int)
    ensures var r := Run(u, cols, rows, [a, b, c]);
      r.Running? && Reading(u, r.term, ((a - '0' as int) * 10 + (b - '0' as int)) * 10 + (c - '0' as int), 3)
  {
    TwoRun(u, cols, rows, a, b);
    assert [a, b, c][..2] == [a, b];
    NextRead(u, Run(u, cols, rows, [a, b]).term, cols, rows, c, (a - '0' as int) * 10 + (b - '0' as int), 2);
  }

  /** The digits of a number inside of a sequence become the next parameter. */
  lemma NumberRun(u: Term, cols: nat, rows: nat, d: seq<int>)
    requires RowOnScreen(u, cols, rows) && Numeral(d)
    requires u.escPos + 1 < MAX_PARAMS && (u.escState == '[' as int || u.escState == ';' as int)
    ensures var r := Run(u, cols, rows, d); r.Running? && Reading(u, r.term, Value(d), |d|)
  {
    if |d| == 1 {
      assert d == [d[0]];
      OneRun(u, cols, rows, d[0]);
    } else if |d| == 2 {
      assert d == [d[0], d[1]];
      TwoRun(u, cols, rows, d[0], d[1]);
    } else {
      assert d == [d[0], d[1], d[2]];
      ThreeRun(u, cols, rows, d[0], d[1], d[2]);
    }
  }

  lemma NumberRead(t: Term, cols: nat, rows: nat, s: seq<int>, u: Term, d: seq<int>)
    requires RowOnScreen(t, cols, rows) && Run(t, cols, rows, s) == Running(u) && Numeral(d)
    requires u.escPos + 1 < MAX_PARAMS && (u.escState == '[' as int || u.escState == ';' as int)
    ensures var r := Run(t, cols, rows, s + d); r.Running? && Reading(u, r.term, Value(d), |d|)
  {
    RunConcat(t, cols, rows, s, d);
    NumberRun(u, cols, rows, d);
  }

  lemma Opened(t: Term, cols: nat, rows: nat)
    requires RowOnScreen(t, cols, rows) && t.escState == 0
    ensures Run(t, cols, rows, [ESC, '[' as int]) == Running(t.(escState := '[' as int, escPos := 0, numSize := 0))
  {
    Two(t, cols, rows, ESC, '[' as int);
  }

  lemma ReadMore(t: Term, u: Term, v: Term, w: Term, ns: seq<int>, n: int, digits: int)
    requires HasRead(t, u, ns) && |t.params| == MAX_PARAMS && |ns| + 1 < MAX_PARAMS
    requires v == u.(escState := v.escState) && Reading(v, w, n, digits)
    ensures HasRead(t, w, ns + [n])
  {
    assert (ns + t.params[|ns|..])[|ns| := n] == (ns + [n]) + t.params[|ns| + 1..];
  }

  lemma Separated(u: Term, cols: nat, rows: nat)
    requires RowOnScreen(u, cols, rows) && IsDigit(u.escState)
    ensures Step(u, cols, rows, ';' as int) == Running(u.(escState := ';' as int))
  {
  }

  /** A first or a further number is read. */
  lemma MoreRead(t: Term, cols: nat, rows: nat, s: seq<int>, ds: seq<seq<int>>, ns: seq<int>, d: seq<int>)
    requires RowOnScreen(t, cols, rows) && |ns| == |ds| && |ns| + 1 < MAX_PARAMS && Numeral(d)
    requires var r := Run(t, cols, rows, s);
      && r.Running? && HasRead(t, r.term, ns)
      && (if ds == [] then r.term.escState == '[' as int else IsDigit(r.term.escState))
    ensures var r := Run(t, cols, rows, s + Next(ds, d));
      r.Running? && HasRead(t, r.term, ns + [Value(d)]) && IsDigit(r.term.escState)
  {
    var u := Run(t, cols, rows, s).term;
    var s', v := s, u;
    if ds == [] {
      assert [] + d == d;
    } else {
      RunThen(t, cols, rows, s, ';' as int);
      Separated(u, cols, rows);
      s', v := s + [';' as int], u.(escState := ';' as int);
      Assoc(s, [';' as int], d);
    }
    NumberRead(t, cols, rows, s', v, d);
    ReadMore(t, u, v, Run(t, cols, rows, s' + d).term, ns, Value(d), |d|);
  }

  /** The bytes up to the letter of a sequence: the parameters are its numbers. */
  lemma {:induction false} NumbersRead(t: Term, cols: nat, rows: nat, ds: seq<seq<int>>)
    requires RowOnScreen(t, cols, rows) && t.escState == 0 && Sendable(ds)
    ensures var r := Run(t, cols, rows, [ESC, '[' as int] + Joined(ds));
      && r.Running? && HasRead(t, r.term, Values(ds))
      && (if ds == [] then r.term.escState == '[' as int else IsDigit(r.term.escState))
    decreases |ds|
  {
    var start := [ESC, '[' as int];
    if ds == [] {
      Opened(t, cols, rows);
      assert start + Joined(ds) == start;
      assert Values(ds) + t.params[0..] == t.params;
    } else {
      var init, d := ds[..|ds| - 1], ds[|ds| - 1];
      NumbersRead(t, cols, rows, init);
      Assoc(start, Joined(init), Next(init, d));
      MoreRead(t, cols, rows, start + Joined(init), init, Values(init), d);
    }
  }

  /** A letter that ends a sequence takes effect with the numbers of the sequence. */
  lemma SequenceRead(t: Term, cols: nat, rows: nat, ds: seq<seq<int>>, letter: int) returns (u: Term)
    requires RowOnScreen(t, cols, rows) && t.escState == 0 && Sendable(ds) && !IsDigit(letter) && letter != ';' as int
    ensures HasRead(t, u, Values(ds)) && u.escState != 0 && RowOnScreen(u, cols, rows)
    ensures Acted(u, cols, letter) == Running(Letter(u, cols, letter))
    ensures Run(t, cols, rows, Sequence(ds, letter)) == Step(u, cols, rows, letter)
  {
    NumbersRead(t, cols, rows, ds);
    var s := [ESC, '[' as int] + Joined(ds);
    u := Run(t, cols, rows, s).term;
    RunThen(t, cols, rows, s, letter);
  }

  /** A fourth digit of a number fails an assertion. */
  lemma FourDigits(t: Term, cols: nat, rows: nat, d: seq<int>, c: int)
    requires RowOnScreen(t, cols, rows) && t.escState == 0 && Numeral(d) && |d| == 3 && IsDigit(c)
    ensures Run(t, cols, rows, [ESC, '[' as int] + d + [c]) == AssertFails
  {
    var start := [ESC, '[' as int];
    Opened(t, cols, rows);
    NumberRead(t, cols, rows, start, Run(t, cols, rows, start).term, d);
    RunSplit(t, cols, rows, start + d, c);
  }

  /** So does a sixteenth number. */
  lemma SixteenNumbers(t: Term, cols: nat, rows: nat, ds: seq<seq<int>>, c: int)
    requires RowOnScreen(t, cols, rows) && t.escState == 0 && Sendable(ds) && |ds| == 15 && IsDigit(c)
    ensures Run(t, cols, rows, [ESC, '[' as int] + Joined(ds) + [';' as int] + [c]) == AssertFails
  {
    NumbersRead(t, cols, rows, ds);
    var s := [ESC, '[' as int] + Joined(ds);
    RunSplit(t, cols, rows, s, ';' as int);
    Separated(Run(t, cols, rows, s).term, cols, rows);
    RunSplit(t, cols, rows, s + [';' as int], c);
  }

  // ----- what the sequences do -----

  /** The screen is as before, and the terminal is outside of sequences. */
  ghost predicate Settled(t: Term, u: Term) {
    u.screen == t.screen && u.escState == 0
  }

  /** ESC [ n A moves the cursor up by n rows at most, and ESC [ n B down, in its column. */
  lemma UpAndDown(t: Term, cols: nat, rows: nat, d: seq<int>, n: nat)
    requires RowOnScreen(t, cols, rows) && t.escState == 0 && Numeral(d) && n == Value(d) && 1 <= n
    ensures var r := Run(t, cols, rows, Sequence([d], 'A' as int));
      r.Running? && Settled(t, r.term) && r.term.col == t.col && r.term.row == if n <= t.row then t.row - n else 0
    ensures var r := Run(t, cols, rows, Sequence([d], 'B' as int));
      && r.Running? && r.term.escState == 0 && r.term.col == t.col
      && (if t.row + n < rows then r.term.row == t.row + n && Settled(t, r.term) else r.term.row == rows - 1)
  {
    var u := SequenceRead(t, cols, rows, [d], 'A' as int);
    var v := SequenceRead(t, cols, rows, [d], 'B' as int);
    assert Count(u) == n == Count(v);
  }

  lemma MovedOn(t: Term, cols: nat, rows: nat, n: nat)
    requires OnScreen(t, cols, rows) && n <= cols && CursorAt(t, cols) + n < rows * cols
    ensures if t.col + n < cols then true else t.row + 1 < rows
    ensures (t.row + 1) * cols + (t.col + n - cols) == CursorAt(t, cols) + n
  {
    CellBounds(t.row, t.col, cols, rows);
    RowStart(t.row, cols);
  }

  lemma MovedBack(t: Term, cols: nat, rows: nat, n: nat)
    requires OnScreen(t, cols, rows) && n <= cols && n <= CursorAt(t, cols)
    ensures if n <= t.col then true else 0 < t.row
    ensures (t.row - 1) * cols + (t.col - n + cols) == CursorAt(t, cols) - n
  {
    CellBounds(t.row, t.col, cols, rows);
    RowStart(t.row, cols);
  }

  /** ESC [ n C moves the cursor n cells on, also past the end of a row. */
  lemma MovesOn(t: Term, cols: nat, rows: nat, d: seq<int>, n: nat)
    requires OnScreen(t, cols, rows) && t.escState == 0 && Numeral(d) && n == Value(d) && 1 <= n
    requires n <= cols && CursorAt(t, cols) + n < rows * cols
    ensures var r := Run(t, cols, rows, Sequence([d], 'C' as int));
      && r.Running? && Settled(t, r.term) && OnScreen(r.term, cols, rows)
      && CursorAt(r.term, cols) == CursorAt(t, cols) + n
  {
    var u := SequenceRead(t, cols, rows, [d], 'C' as int);
    assert Count(u) == n;
    MovedOn(t, cols, rows, n);
  }

  /** ESC [ n D moves it n cells back, also past the start of a row. */
  lemma MovesBack(t: Term, cols: nat, rows: nat, d: seq<int>, n: nat)
    requires OnScreen(t, cols, rows) && t.escState == 0 && Numeral(d) && n == Value(d) && 1 <= n
    requires n <= cols && n <= CursorAt(t, cols)
    ensures var r := Run(t, cols, rows, Sequence([d], 'D' as int));
      && r.Running? && Settled(t, r.term) && OnScreen(r.term, cols, rows)
      && CursorAt(r.term, cols) == CursorAt(t, cols) - n
  {
    var u := SequenceRead(t, cols, rows, [d], 'D' as int);
    assert Count(u) == n;
    MovedBack(t, cols, rows, n);
  }

  /** Inside of the screen, up undoes down, and back undoes on. */
  lemma Undone(t: Term, cols: nat, rows: nat, d: seq<int>, n: nat)
    requires OnScreen(t, cols, rows) && t.escState == 0 && Numeral(d) && n == Value(d) && 1 <= n
    ensures t.row + n < rows ==>
      var r := Run(t, cols, rows, Sequence([d], 'B' as int) + Sequence([d], 'A' as int));
      r.Running? && Settled(t, r.term) && r.term.row == t.row && r.term.col == t.col
    ensures n <= cols && CursorAt(t, cols) + n < rows * cols ==>
      var r := Run(t, cols, rows, Sequence([d], 'C' as int) + Sequence([d], 'D' as int));
      r.Running? && Settled(t, r.term) && r.term.row == t.row && r.term.col == t.col
  {
    if t.row + n < rows {
      UpAndDown(t, cols, rows, d, n);
      RunConcat(t, cols, rows, Sequence([d], 'B' as int), Sequence([d], 'A' as int));
      UpAndDown(Run(t, cols, rows, Sequence([d], 'B' as int)).term, cols, rows, d, n);
    }
    if n <= cols && CursorAt(t, cols) + n < rows * cols {
      MovesOn(t, cols, rows, d, n);
      RunConcat(t, cols, rows, Sequence([d], 'C' as int), Sequence([d], 'D' as int));
      var u := Run(t, cols, rows, Sequence([d], 'C' as int)).term;
      CellBounds(t.row, t.col, cols, rows);
      MovesBack(u, cols, rows, d, n);
      SameCell(t, Run(u, cols, rows, Sequence([d], 'D' as int)).term, cols, rows);
    }
  }

  /** ESC [ r ; c H and ESC [ r ; c f put the cursor into row r and column c. */
  lemma Placed(t: Term, cols: nat, rows: nat, r: seq<int>, c: seq<int>, letter: int)
    requires RowOnScreen(t, cols, rows) && t.escState == 0 && Numeral(r) && Numeral(c)
    requires 1 <= Value(r) < rows && 1 <= Value(c)
    requires letter == 'H' as int || letter == 'f' as int
    ensures var o := Run(t, cols, rows, Sequence([r, c], letter));
      o.Running? && Settled(t, o.term) && o.term.row == Value(r) && o.term.col == Value(c)
  {
    var u := SequenceRead(t, cols, rows, [r, c], letter);
    assert Values([r, c])[0] == Value(r) && Values([r, c])[1] == Value(c);
  }

  /** Without numbers, and without numbers of earlier sequences, they put it into the top left corner. */
  lemma PlacedFirst(t: Term, cols: nat, rows: nat, letter: int)
    requires RowOnScreen(t, cols, rows) && t.escState == 0 && t.params[0] == 0
    requires letter == 'H' as int || letter == 'f' as int
    ensures var o := Run(t, cols, rows, Sequence([], letter));
      o.Running? && Settled(t, o.term) && o.term.row == 0 && o.term.col == 0
  {
    var u := SequenceRead(t, cols, rows, [], letter);
  }

  /** ESC [ 2 J fills the screen with spaces in the colors of before, puts the cursor into the top left corner,
      and goes on in white on black. */
  lemma Erased(t: Term, cols: nat, rows: nat)
    requires RowOnScreen(t, cols, rows) && t.escState == 0 && t.screen.bg < 0x10 && t.screen.fg < 0x10
    ensures var o := Run(t, cols, rows, Sequence([['2' as int]], 'J' as int));
      && o.Running? && o.term.row == 0 && o.term.col == 0 && o.term.escState == 0
      && |o.term.screen.cells| == |t.screen.cells|
      && (forall k | 0 <= k < |t.screen.cells| :: CellShows(o.term.screen.cells[k], 0x20, t.screen.bg, t.screen.fg))
      && o.term.screen.bg == t.screen.palette(0) && o.term.screen.fg == t.screen.palette(7)
      && o.term.screen.palette == t.screen.palette
  {
    var u := SequenceRead(t, cols, rows, [['2' as int]], 'J' as int);
    assert u.params[0] == 2;
    EntryShows(0x20, t.screen.bg, t.screen.fg);
  }

  // ----- escapes of one byte -----

  /** ESC D moves down and ESC M up by one row; the terminal then takes the next byte for the letter of a
      sequence. */
  lemma ShortEscapes(t: Term, cols: nat, rows: nat)
    requires RowOnScreen(t, cols, rows) && t.escState == 0
    ensures var o := Run(t, cols, rows, [ESC, 'D' as int]);
      && o.Running? && o.term.escState == 'D' as int && o.term.col == t.col
      && (if t.row + 1 < rows then o.term.row == t.row + 1 && o.term.screen == t.screen else o.term.row == rows - 1)
    ensures var o := Run(t, cols, rows, [ESC, 'M' as int]);
      && o.Running? && o.term.escState == 'M' as int && o.term.col == t.col && o.term.screen == t.screen
      && o.term.row == if t.row == 0 then 0 else t.row - 1
  {
    Two(t, cols, rows, ESC, 'D' as int);
    Two(t, cols, rows, ESC, 'M' as int);
  }

  /** ESC H moves like a tab. */
  lemma TabEscape(t: Term, cols: nat, rows: nat)
    requires RowOnScreen(t, cols, rows) && t.escState == 0
    ensures var o, u := Run(t, cols, rows, [ESC, 'H' as int]), Step(t, cols, rows, 0x09);
      && o.Running? && u.Running? && o.term.escState == 'H' as int
      && o.term.row == u.term.row && o.term.col == u.term.col && o.term.screen == u.term.screen
  {
    Two(t, cols, rows, ESC, 'H' as int);
  }
}
