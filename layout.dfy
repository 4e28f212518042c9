/**
 * What a frame looks like on the 20x4 screen. Interface `k` owns columns
 * 4k..4k+3 of rows 0-2: its label on row 0, its tx rate on row 1 and its
 * rx rate on row 2, each right-aligned in three columns; row 3 reads
 * "cpu " followed by the per-core loads. Cells nothing is printed over
 * keep what they held before.
 */
module Layout {
  import opened Common
  import opened Mock
  import opened Format
  import opened Frame

  /** Every rate fits the four columns of its slot. */
  predicate FieldsFit(rates: seq<(u16, u16)>)
  {
    forall k :: 0 <= k < |rates| ==> rates[k].0 < 10000 && rates[k].1 < 10000
  }

  /** The character cell (`r`, `c`) of rows 0-2 shows after the interface slots are drawn over `under`. */
  function NetCell(rates: seq<(u16, u16)>, r: nat, c: nat, under: char): char
  {
    var k := c / SlotWidth;
    if r < 3 && k < |rates| && c % SlotWidth < |FieldText(k, rates[k], r)| then
      CharOf(FieldText(k, rates[k], r)[c % SlotWidth])
    else under
  }

  /** The character cell (`r`, `c`) shows after slot `i` alone is drawn over `under`. */
  function SlotChar(i: nat, speeds: (u16, u16), r: nat, c: nat, under: char): char
  {
    var col := SlotWidth * i;
    if r < 3 && col <= c < col + |FieldText(i, speeds, r)| then CharOf(FieldText(i, speeds, r)[c - col])
    else under
  }

  /** A field of interface `i` < 5 whose rates are below 10000 takes at most four columns. */
  lemma FieldWidth(i: nat, speeds: (u16, u16), row: nat)
    requires i < MaxShown && speeds.0 < 10000 && speeds.1 < 10000
    ensures |FieldText(i, speeds, row)| <= SlotWidth
  {
    if row == 0 {
      DecimalWidth(i, 1);
      assert Pow10(1) == 10;
    } else {
      var n := if row == 1 then speeds.1 as nat else speeds.0 as nat;
      assert Pow10(4) == 10000;
      DecimalWidth(n, 4);
    }
  }

  /** Printing `text` at (`col`, `row`) within one row overwrites exactly those columns of that row. */
  lemma AtInRow(st: Screen, col: nat, row: nat, text: seq<u8>)
    requires ValidScreen(st) && row < Rows && col < Cols && col + |text| <= Cols
    ensures Run(st, At(col as u8, row as u8, text)).lines ==
      st.lines[row := Overwrite(st.lines[row], col, Chars(text))]
  {
    RunAt(st, col as u8, row as u8, text);
    PrintInRow(MoveCursor(st, col as u8, row as u8), text);
  }

  /**
   * Drawing interface `i` writes its three fields at column 4i of rows
   * 0, 1 and 2 and changes no other cell.
   */
  lemma SlotLines(st: Screen, i: nat, speeds: (u16, u16))
    requires ValidScreen(st) && i < MaxShown && speeds.0 < 10000 && speeds.1 < 10000
    ensures forall r, c :: 0 <= r < Rows && 0 <= c < Cols ==>
      Run(st, InterfaceCmds(i, speeds)).lines[r][c] == SlotChar(i, speeds, r, c, st.lines[r][c])
  {
    var col := SlotWidth * i;
    FieldWidth(i, speeds, 0);
    FieldWidth(i, speeds, 1);
    FieldWidth(i, speeds, 2);
    InterfaceRuns(st, i, speeds);
    var s1 := Run(st, At(col as u8, 0, FieldText(i, speeds, 0)));
    var s2 := Run(s1, At(col as u8, 1, FieldText(i, speeds, 1)));
    var s3 := Run(s2, At(col as u8, 2, FieldText(i, speeds, 2)));
    AtInRow(st, col, 0, FieldText(i, speeds, 0));
    AtInRow(s1, col, 1, FieldText(i, speeds, 1));
    AtInRow(s2, col, 2, FieldText(i, speeds, 2));
    RowsCells(st, s1.lines, s2.lines, s3.lines, i, speeds);
  }

  /** Overwriting rows 0, 1 and 2 in turn with the fields of slot `i`, cell by cell. */
  lemma RowsCells(st: Screen, l1: seq<seq<char>>, l2: seq<seq<char>>, l3: seq<seq<char>>,
                  i: nat, speeds: (u16, u16))
    requires ValidScreen(st) && i < MaxShown
    requires |FieldText(i, speeds, 0)| <= SlotWidth && |FieldText(i, speeds, 1)| <= SlotWidth
    requires |FieldText(i, speeds, 2)| <= SlotWidth
    requires l1 == st.lines[0 := Overwrite(st.lines[0], SlotWidth * i, Chars(FieldText(i, speeds, 0)))]
    requires l2 == l1[1 := Overwrite(l1[1], SlotWidth * i, Chars(FieldText(i, speeds, 1)))]
    requires l3 == l2[2 := Overwrite(l2[2], SlotWidth * i, Chars(FieldText(i, speeds, 2)))]
    ensures forall r, c :: 0 <= r < Rows && 0 <= c < Cols ==>
      l3[r][c] == SlotChar(i, speeds, r, c, st.lines[r][c])
  {
    var col := SlotWidth * i;
    forall r, c | 0 <= r < Rows && 0 <= c < Cols
      ensures l3[r][c] ==
        if r < 3 && col <= c < col + |FieldText(i, speeds, r)| then CharOf(FieldText(i, speeds, r)[c - col])
        else st.lines[r][c]
    {
      if r < 3 {
        assert l3[r] == Overwrite(st.lines[r], col, Chars(FieldText(i, speeds, r)));
        OverwriteCell(st.lines[r], col, FieldText(i, speeds, r), c);
      }
    }
  }

  /** One cell of a row after printing `text` at `col`. */
  lemma OverwriteCell(line: seq<char>, col: nat, text: seq<u8>, c: nat)
    requires col + |text| <= |line| && c < |line|
    ensures Overwrite(line, col, Chars(text))[c] == if col <= c < col + |text| then CharOf(text[c - col]) else line[c]
  {
  }

  /** The three pairs of a slot, one after the other. */
  lemma InterfaceRuns(st: Screen, i: nat, speeds: (u16, u16))
    requires ValidScreen(st) && i < MaxShown
    ensures
      var col := (SlotWidth * i) as u8;
      Run(st, InterfaceCmds(i, speeds)) ==
        Run(Run(Run(st, At(col, 0, FieldText(i, speeds, 0))), At(col, 1, FieldText(i, speeds, 1))),
            At(col, 2, FieldText(i, speeds, 2)))
  {
    var col := (SlotWidth * i) as u8;
    var a, b, c := At(col, 0, FieldText(i, speeds, 0)), At(col, 1, FieldText(i, speeds, 1)),
      At(col, 2, FieldText(i, speeds, 2));
    RunAppend(st, a + b, c);
    RunAppend(st, a, b);
  }

  /**
   * Drawing the slots of `rates` (each fitting its four columns) writes
   * NetCell into every cell of rows 0-2 and leaves row 3 as it was.
   */
  lemma {:induction false} NetLayout(st: Screen, rates: seq<(u16, u16)>)
    requires ValidScreen(st) && |rates| <= MaxShown && FieldsFit(rates)
    ensures forall r, c :: 0 <= r < Rows && 0 <= c < Cols ==>
      Run(st, NetCmds(rates)).lines[r][c] == NetCell(rates, r, c, st.lines[r][c])
    decreases |rates|
  {
    if rates != [] {
      var i := |rates| - 1;
      var init := rates[..i];
      NetLayout(st, init);
      var mid := Run(st, NetCmds(init));
      RunAppend(st, NetCmds(init), InterfaceCmds(i, rates[i]));
      SlotLines(mid, i, rates[i]);
      forall r, c | 0 <= r < Rows && 0 <= c < Cols
        ensures Run(st, NetCmds(rates)).lines[r][c] == NetCell(rates, r, c, st.lines[r][c])
      {
        NetCellStep(rates, r, c, st.lines[r][c]);
      }
    }
  }

  /** Drawing the last slot over NetCell of the earlier ones is NetCell of all of them. */
  lemma NetCellStep(rates: seq<(u16, u16)>, r: nat, c: nat, under: char)
    requires 0 < |rates| <= MaxShown && FieldsFit(rates)
    ensures
      var i := |rates| - 1;
      SlotChar(i, rates[i], r, c, NetCell(rates[..i], r, c, under)) == NetCell(rates, r, c, under)
  {
    var i := |rates| - 1;
    var k := c / SlotWidth;
    FieldWidth(i, rates[i], r);
    if k < i {
      assert rates[..i][k] == rates[k];
    }
  }

  /** The load loop prints LoadsText. */
  lemma {:induction false} LoadsRun(st: Screen, loads: seq<u8>)
    requires ValidScreen(st)
    ensures Run(st, LoadCmds(loads)) == PutAll(st, LoadsText(loads))
    decreases |loads|
  {
    if loads != [] {
      var init, last := loads[..|loads| - 1], loads[|loads| - 1];
      LoadsRun(st, init);
      RunThen(st, LoadCmds(init), Text(LoadText(last)));
      PutAllAppend(st, LoadsText(init), LoadText(last));
    }
  }

  /** When it fits, the CPU row overwrites the start of row 3 with CpuText and nothing else. */
  lemma CpuRow(st: Screen, loads: seq<u8>)
    requires ValidScreen(st) && |CpuText(loads)| <= Cols
    ensures Run(st, CpuHeader() + LoadCmds(loads)).lines ==
      st.lines[3 := Overwrite(st.lines[3], 0, Chars(CpuText(loads)))]
  {
    var home := MoveCursor(st, 0, 3);
    RunAppend(st, CpuHeader(), LoadCmds(loads));
    RunAt(st, 0, 3, CpuLabel);
    LoadsRun(PutAll(home, CpuLabel), loads);
    PutAllAppend(home, CpuLabel, LoadsText(loads));
    PrintInRow(home, CpuText(loads));
  }

  /** Each core's `"{:>2} "` is three bytes below 100% and four at 100%. */
  lemma LoadTextWidth(load: u8)
    requires load <= 100
    ensures |LoadText(load)| == if load < 100 then 3 else 4
  {
    assert Pow10(2) == 100 && Pow10(3) == 1000;
    DecimalWidth(load as nat, 2);
    DecimalWidth(load as nat, 3);
  }

  /**
   * With every load below 100%, the CPU row is "cpu " plus three columns
   * per core, so it stays on row 3 exactly when there are at most five cores.
   */
  lemma {:induction false} CpuTextLength(loads: seq<u8>)
    requires forall j :: 0 <= j < |loads| ==> loads[j] < 100
    ensures |CpuText(loads)| == 4 + 3 * |loads|
    ensures |CpuText(loads)| <= Cols <==> |loads| <= 5
    decreases |loads|
  {
    if loads != [] {
      CpuTextLength(loads[..|loads| - 1]);
      LoadTextWidth(loads[|loads| - 1]);
    }
  }

  /**
   * A whole frame, when every field fits: rows 0-2 hold the interface
   * slots (NetCell), row 3 starts with CpuText, and every other cell of
   * row 3 keeps its character.
   */
  lemma FrameLayout(st: Screen, rates: seq<(u16, u16)>, loads: seq<u8>)
    requires ValidScreen(st) && |rates| <= MaxShown && FieldsFit(rates)
    requires |CpuText(loads)| <= Cols
    ensures forall r, c :: 0 <= r < Rows && 0 <= c < Cols ==>
      Run(st, FrameCmds(rates, loads)).lines[r][c] ==
        if r == 3 then (if c < |CpuText(loads)| then CharOf(CpuText(loads)[c]) else st.lines[3][c])
        else NetCell(rates, r, c, st.lines[r][c])
  {
    var home := MoveCursor(st, 0, 0);
    var mid := Run(home, NetCmds(rates));
    FrameRuns(st, rates, loads);
    NetLayout(home, rates);
    CpuRow(mid, loads);
    FrameCells(st, mid, Run(mid, CpuHeader() + LoadCmds(loads)).lines, rates, loads);
  }

  /** The frame's commands: home the cursor, draw the slots, then the CPU row. */
  lemma FrameRuns(st: Screen, rates: seq<(u16, u16)>, loads: seq<u8>)
    requires ValidScreen(st) && |rates| <= MaxShown
    ensures Run(st, FrameCmds(rates, loads)) ==
      Run(Run(MoveCursor(st, 0, 0), NetCmds(rates)), CpuHeader() + LoadCmds(loads))
  {
    var net := [MoveTo(0, 0)] + NetCmds(rates);
    RunThen(st, [], MoveTo(0, 0));
    assert [] + [MoveTo(0, 0)] == [MoveTo(0, 0)];
    RunAppend(st, [MoveTo(0, 0)], NetCmds(rates));
    RunAppend(st, net, CpuHeader() + LoadCmds(loads));
  }

  /** Cell by cell: the slots drawn over `st`, then row 3 overwritten with CpuText. */
  lemma FrameCells(st: Screen, mid: Screen, fin: seq<seq<char>>, rates: seq<(u16, u16)>, loads: seq<u8>)
    requires ValidScreen(st) && ValidScreen(mid) && |CpuText(loads)| <= Cols
    requires forall r, c :: 0 <= r < Rows && 0 <= c < Cols ==>
      mid.lines[r][c] == NetCell(rates, r, c, st.lines[r][c])
    requires fin == mid.lines[3 := Overwrite(mid.lines[3], 0, Chars(CpuText(loads)))]
    ensures forall r, c :: 0 <= r < Rows && 0 <= c < Cols ==>
      fin[r][c] ==
        if r == 3 then (if c < |CpuText(loads)| then CharOf(CpuText(loads)[c]) else st.lines[3][c])
        else NetCell(rates, r, c, st.lines[r][c])
  {
    forall r, c | 0 <= r < Rows && 0 <= c < Cols
      ensures fin[r][c] ==
        if r == 3 then (if c < |CpuText(loads)| then CharOf(CpuText(loads)[c]) else st.lines[3][c])
        else NetCell(rates, r, c, st.lines[r][c])
    {
      if r == 3 {
        OverwriteCell(mid.lines[3], 0, CpuText(loads), c);
      }
    }
  }

  /**
   * Frames are drawn over the previous one without clearing it: when
   * interface 0's tx rate drops from 1000 to 5 between two frames, the
   * `{:>3}` field covers only columns 0-2 and the last digit of "1000"
   * stays in column 3, so the row reads "  50", whatever the other
   * interfaces and the cores show.
   */
  lemma LeftoverDigit(st: Screen, before: seq<(u16, u16)>, after: seq<(u16, u16)>,
                      loads1: seq<u8>, loads2: seq<u8>)
    requires ValidScreen(st) && 0 < |before| <= MaxShown && 0 < |after| <= MaxShown
    requires FieldsFit(before) && FieldsFit(after)
    requires |CpuText(loads1)| <= Cols && |CpuText(loads2)| <= Cols
    requires before[0].1 == 1000 && after[0].1 == 5
    ensures
      var first := Run(st, FrameCmds(before, loads1));
      var row := Run(first, FrameCmds(after, loads2)).lines[1];
      row[0] == ' ' && row[1] == ' ' && row[2] == '5' && row[3] == '0'
  {
    var first := Run(st, FrameCmds(before, loads1));
    TxCells(before, after, st.lines[1][3], first.lines[1][3]);
    FrameRowCell(st, before, loads1, 3);
    FrameRowCell(first, after, loads2, 0);
    FrameRowCell(first, after, loads2, 1);
    FrameRowCell(first, after, loads2, 2);
    FrameRowCell(first, after, loads2, 3);
  }

  /** One cell of row 1 after a frame: the CPU row leaves row 1 alone. */
  lemma FrameRowCell(st: Screen, rates: seq<(u16, u16)>, loads: seq<u8>, c: nat)
    requires ValidScreen(st) && |rates| <= MaxShown && FieldsFit(rates)
    requires |CpuText(loads)| <= Cols && c < Cols
    ensures Run(st, FrameCmds(rates, loads)).lines[1][c] == NetCell(rates, 1, c, st.lines[1][c])
  {
    var home := MoveCursor(st, 0, 0);
    var mid := Run(home, NetCmds(rates));
    FrameRuns(st, rates, loads);
    CpuRow(mid, loads);
    assert Run(st, FrameCmds(rates, loads)).lines[1] == mid.lines[1];
    NetLayout(home, rates);
    assert mid.lines[1][c] == NetCell(rates, 1, c, home.lines[1][c]);
  }

  /** Row 1 of slot 0 for a tx rate of 1000, then of 5. */
  lemma TxCells(before: seq<(u16, u16)>, after: seq<(u16, u16)>, u1: char, u2: char)
    requires 0 < |before| && 0 < |after| && before[0].1 == 1000 && after[0].1 == 5
    ensures NetCell(before, 1, 3, u1) == '0'
    ensures NetCell(after, 1, 0, u2) == ' ' && NetCell(after, 1, 1, u2) == ' '
    ensures NetCell(after, 1, 2, u2) == '5' && NetCell(after, 1, 3, u2) == u2
  {
    TxTexts(before[0], after[0]);
    SlotZeroCell(before, 3, u1);
    SlotZeroCell(after, 0, u2);
    SlotZeroCell(after, 1, u2);
    SlotZeroCell(after, 2, u2);
    SlotZeroCell(after, 3, u2);
  }

  /** A cell of row 1 within slot 0 shows that column of interface 0's tx field, if it has one. */
  lemma SlotZeroCell(rates: seq<(u16, u16)>, c: nat, under: char)
    requires 0 < |rates| && c < SlotWidth
    ensures NetCell(rates, 1, c, under) ==
      if c < |FieldText(0, rates[0], 1)| then CharOf(FieldText(0, rates[0], 1)[c]) else under
  {
    assert c / SlotWidth == 0 && c % SlotWidth == c;
  }

  /** The `{:>3}` texts of 1000 and 5. */
  lemma TxTexts(before: (u16, u16), after: (u16, u16))
    requires before.1 == 1000 && after.1 == 5
    ensures FieldText(0, before, 1) == [Zero + 1, Zero, Zero, Zero]
    ensures FieldText(0, after, 1) == [Space, Space, Zero + 5]
  {
    assert Decimal(1) == [Zero + 1] && Decimal(10) == [Zero + 1, Zero];
    assert Decimal(100) == [Zero + 1, Zero, Zero];
    assert Decimal(1000) == [Zero + 1, Zero, Zero, Zero];
    assert Decimal(5) == [Zero + 5];
    assert before.1 as nat == 1000 && after.1 as nat == 5;
  }
}
