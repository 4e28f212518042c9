/**
 * The in-memory stand-in for the 20x4 character LCD (src/mock_display.rs):
 * a grid of 4 lines of 20 characters and a write cursor that advances in
 * row-major order and wraps around the whole grid.
 *
 * The pure part (Screen, MoveCursor, Put, PutAll) is the specification; the
 * class MockDisplay updates its fields in place and is proved against it.
 */
module Mock {
  import opened Common

  const Rows: nat := 4
  const Cols: nat := 20
  const Cells: nat := Rows * Cols

  /** The cursor as the source stores it: (row, column). */
  type Pos = (nat, nat)

  datatype Screen = Screen(lines: seq<seq<char>>, pos: Pos)

  predicate InBounds(p: Pos)
  {
    p.0 < Rows && p.1 < Cols
  }

  predicate ValidScreen(st: Screen)
  {
    |st.lines| == Rows &&
    (forall r :: 0 <= r < Rows ==> |st.lines[r]| == Cols) &&
    InBounds(st.pos)
  }

  /** Row-major index of a cursor position. */
  function Linear(p: Pos): nat
  {
    Cols * p.0 + p.1
  }

  /** The character in the cell with row-major index `k`. */
  function CellAt(st: Screen, k: nat): char
    requires ValidScreen(st) && k < Cells
  {
    st.lines[k / Cols][k % Cols]
  }

  /** How many writes after the cursor `p` the cell with row-major index `k` is reached. */
  function Offset(p: Pos, k: nat): nat
  {
    (k - Linear(p)) % Cells
  }

  /** The character shown for a raw byte written to the display. */
  function CharOf(b: u8): char
  {
    if b == 0 then ' '
    else if b <= 7 then (0x2580 + b as int) as char
    else if b == 0xDF then '\U{B0}'
    else (b as int) as char
  }

  /** The characters shown for a run of bytes. */
  function Chars(bs: seq<u8>): (cs: seq<char>)
    ensures |cs| == |bs|
    ensures forall i :: 0 <= i < |bs| ==> cs[i] == CharOf(bs[i])
  {
    seq(|bs|, i requires 0 <= i < |bs| => CharOf(bs[i]))
  }

  /** The state a fresh display starts in. */
  function Blank(): Screen
  {
    Screen(seq(Rows, _ => seq(Cols, _ => ' ')), (0, 0))
  }

  /** `position(col, row)`: clamp both coordinates and store them as (row, col). */
  function MoveCursor(st: Screen, col: u8, row: u8): (r: Screen)
    ensures r.lines == st.lines && InBounds(r.pos)
    ensures r.pos.0 == (if row as int < Rows then row as int else Rows - 1)
    ensures r.pos.1 == (if col as int < Cols then col as int else Cols - 1)
  {
    Screen(st.lines, (Min(row as int, Rows - 1), Min(col as int, Cols - 1)))
  }

  /** The cursor step of `write`: next column, then next row, then back to the top. */
  function Advance(p: Pos): (q: Pos)
    requires InBounds(p)
    ensures InBounds(q)
    ensures Linear(q) == (Linear(p) + 1) % Cells
  {
    var (row, col) := if p.1 + 1 == Cols then (p.0 + 1, 0) else (p.0, p.1 + 1);
    if row == Rows then (0, col) else (row, col)
  }

  /** `write(byte)`: store the byte's character under the cursor, then advance. */
  function Put(st: Screen, b: u8): (r: Screen)
    requires ValidScreen(st)
    ensures ValidScreen(r)
    ensures Linear(r.pos) == (Linear(st.pos) + 1) % Cells
  {
    Screen(st.lines[st.pos.0 := st.lines[st.pos.0][st.pos.1 := CharOf(b)]], Advance(st.pos))
  }

  /** `print(s)`: `write` each byte of `s` in order. */
  function PutAll(st: Screen, s: seq<u8>): (r: Screen)
    requires ValidScreen(st)
    ensures ValidScreen(r)
    ensures Linear(r.pos) == (Linear(st.pos) + |s|) % Cells
    decreases |s|
  {
    if s == [] then st
    else
      var prev := PutAll(st, s[..|s| - 1]);
      ModStep(Linear(st.pos), |s| - 1, Linear(prev.pos));
      Put(prev, s[|s| - 1])
  }

  lemma ModStep(a: nat, n: nat, m: nat)
    requires m == (a + n) % Cells
    ensures (m + 1) % Cells == (a + n + 1) % Cells
  {
    var q := (a + n) / Cells;
    if m + 1 < Cells {
      assert a + n + 1 == Cells * q + (m + 1);
    } else {
      assert a + n + 1 == Cells * (q + 1);
    }
  }

  /** Overwrite `text` into `line` starting at column `col`. */
  function Overwrite(line: seq<char>, col: nat, text: seq<char>): (r: seq<char>)
    requires col + |text| <= |line|
    ensures |r| == |line|
    ensures forall c :: 0 <= c < |line| ==>
      r[c] == if col <= c < col + |text| then text[c - col] else line[c]
  {
    line[..col] + text + line[col + |text|..]
  }

  /** Printing `a` then `b` is printing `a + b`: a formatted write may be split into pieces freely. */
  lemma {:induction false} PutAllAppend(st: Screen, a: seq<u8>, b: seq<u8>)
    requires ValidScreen(st)
    ensures PutAll(st, a + b) == PutAll(PutAll(st, a), b)
    decreases |b|
  {
    if b == [] {
      assert a + b == a;
    } else {
      assert (a + b)[..|a + b| - 1] == a + b[..|b| - 1];
      PutAllAppend(st, a, b[..|b| - 1]);
    }
  }

  /** Writing one byte changes exactly the cell with the cursor's row-major index. */
  lemma PutCell(st: Screen, b: u8, k: nat)
    requires ValidScreen(st) && k < Cells
    ensures CellAt(Put(st, b), k) == if k == Linear(st.pos) then CharOf(b) else CellAt(st, k)
  {
    var row, col := k / Cols, k % Cols;
    assert k == Cols * row + col;
    if k != Linear(st.pos) {
      assert (row, col) != st.pos;
    }
  }

  /** The cell reached after `n` more writes is the one at offset `n`, and no other is. */
  lemma OffsetStep(p: Pos, n: nat, k: nat)
    requires InBounds(p) && n < Cells && k < Cells
    ensures (k == (Linear(p) + n) % Cells) == (Offset(p, k) == n)
  {
    var a := Linear(p);
    if k >= a {
      assert Offset(p, k) == k - a;
    } else {
      assert Offset(p, k) == k - a + Cells;
    }
    if a + n >= Cells {
      assert (a + n) % Cells == a + n - Cells;
    }
  }

  /**
   * After printing at most one screenful, the cell `Offset` steps after the
   * starting cursor holds the character of that byte; every cell not reached
   * keeps its old character.
   */
  lemma {:induction false} PutAllCells(st: Screen, s: seq<u8>, k: nat)
    requires ValidScreen(st) && |s| <= Cells && k < Cells
    ensures CellAt(PutAll(st, s), k) ==
      if Offset(st.pos, k) < |s| then CharOf(s[Offset(st.pos, k)]) else CellAt(st, k)
    decreases |s|
  {
    if s != [] {
      var n := |s| - 1;
      var prev := PutAll(st, s[..n]);
      assert PutAll(st, s) == Put(prev, s[n]);
      PutCell(prev, s[n], k);
      PutAllCells(st, s[..n], k);
      OffsetStep(st.pos, n, k);
    }
  }

  /** Overwriting one more character right after a run extends the run. */
  lemma OverwriteExtend(line: seq<char>, col: nat, text: seq<char>, c: char)
    requires col + |text| < |line|
    ensures Overwrite(line, col, text)[col + |text| := c] == Overwrite(line, col, text + [c])
  {
    var x := Overwrite(line, col, text)[col + |text| := c];
    var y := Overwrite(line, col, text + [c]);
    assert forall i :: 0 <= i < |line| ==> x[i] == y[i];
  }

  /**
   * Printing a run that fits in the rest of the cursor's row overwrites
   * exactly those columns of that row, and leaves the cursor just after it.
   */
  lemma {:induction false} PrintInRow(st: Screen, s: seq<u8>)
    requires ValidScreen(st) && st.pos.1 + |s| <= Cols
    ensures PutAll(st, s).lines == st.lines[st.pos.0 := Overwrite(st.lines[st.pos.0], st.pos.1, Chars(s))]
    ensures st.pos.1 + |s| < Cols ==> PutAll(st, s).pos == (st.pos.0, st.pos.1 + |s|)
    decreases |s|
  {
    var row, col := st.pos.0, st.pos.1;
    if s == [] {
      assert Overwrite(st.lines[row], col, []) == st.lines[row];
    } else {
      var n := |s| - 1;
      var prev := PutAll(st, s[..n]);
      var line := Overwrite(st.lines[row], col, Chars(s[..n]));
      assert prev.lines == st.lines[row := line] && prev.pos == (row, col + n) by {
        PrintInRow(st, s[..n]);
      }
      assert PutAll(st, s) == Put(prev, s[n]);
      assert line[col + n := CharOf(s[n])] == Overwrite(st.lines[row], col, Chars(s)) by {
        assert Chars(s) == Chars(s[..n]) + [CharOf(s[n])];
        OverwriteExtend(st.lines[row], col, Chars(s[..n]), CharOf(s[n]));
      }
    }
  }

  /**
   * Two different bytes show the same character only for the pairs
   * 0 / 0x20 (both a space) and 0xB0 / 0xDF (both a degree sign).
   */
  lemma CharOfCollisions(a: u8, b: u8)
    requires a != b && CharOf(a) == CharOf(b)
    ensures (a, b) in {(0, 0x20), (0x20, 0), (0xB0, 0xDF), (0xDF, 0xB0)}
  {
  }

  class MockDisplay {
    var lines: seq<seq<char>>
    var pos: Pos

    ghost function State(): Screen
      reads this
    {
      Screen(lines, pos)
    }

    ghost predicate Valid()
      reads this
    {
      ValidScreen(State())
    }

    /** `MockDisplay::new`: four lines of twenty spaces, cursor at the top left. */
    constructor ()
      ensures Valid() && State() == Blank()
      ensures forall r, c :: 0 <= r < Rows && 0 <= c < Cols ==> lines[r][c] == ' '
      ensures pos == (0, 0)
    {
      lines := seq(Rows, _ => seq(Cols, _ => ' '));
      pos := (0, 0);
    }

    method Position(col: u8, row: u8)
      requires Valid()
      modifies this
      ensures Valid() && State() == MoveCursor(old(State()), col, row)
    {
      var r := if row as int < Rows - 1 then row as nat else Rows - 1;
      var c := if col as int < Cols - 1 then col as nat else Cols - 1;
      pos := (r, c);
    }

    method Write(b: u8)
      requires Valid()
      modifies this
      ensures Valid() && State() == Put(old(State()), b)
    {
      var c := CharOf(b);
      lines := lines[pos.0 := lines[pos.0][pos.1 := c]];
      pos := (pos.0, pos.1 + 1);
      if pos.1 == Cols {
        pos := (pos.0 + 1, 0);
      }
      if pos.0 == Rows {
        pos := (0, pos.1);
      }
    }

    method Print(s: seq<u8>)
      requires Valid()
      modifies this
      ensures Valid() && State() == PutAll(old(State()), s)
    {
      for i := 0 to |s|
        invariant Valid() && State() == PutAll(old(State()), s[..i])
      {
        assert s[..i + 1][..i] == s[..i];
        Write(s[i]);
      }
      assert s[..|s|] == s;
    }

    /** The `fmt::Write` implementation: print the string and report success. */
    method WriteStr(s: seq<u8>) returns (r: Result<(), FmtError>)
      requires Valid()
      modifies this
      ensures Valid() && State() == PutAll(old(State()), s)
      ensures r == Ok(())
    {
      Print(s);
      r := Ok(());
    }
  }

  /** `std::fmt::Error`; the mock never produces it. */
  datatype FmtError = FmtError
}
