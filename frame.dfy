/**
 * One pass of the poll loop's body in src/main.rs: for each of the first
 * five interfaces, poll its rates and print a label and the two rates in a
 * 4-column slot of rows 0-2; then print the per-core CPU loads on row 3.
 * The display calls are described as a list of commands (Cmd) whose effect
 * on the screen is Run; DrawFrame issues them on a MockDisplay.
 */
module Frame {
  import opened Common
  import opened Mock
  import opened Format
  import opened Net

  /** At most this many interfaces are shown (`take(5)`). */
  const MaxShown: nat := 5

  /** Each interface owns a slot of this many columns. */
  const SlotWidth: nat := 4

  /** The width of a rate field (`{:>3}`). */
  const RateWidth: nat := 3

  /** The width of a load field (`{:>2}`). */
  const LoadWidth: nat := 2

  /** A display call: `position(col, row)` or `print`/`write!` of some bytes. */
  datatype Cmd = MoveTo(col: u8, row: u8) | Text(bytes: seq<u8>)

  function Step(st: Screen, c: Cmd): (r: Screen)
    requires ValidScreen(st)
    ensures ValidScreen(r)
  {
    match c
    case MoveTo(col, row) => MoveCursor(st, col, row)
    case Text(bytes) => PutAll(st, bytes)
  }

  /** The screen after issuing `cmds` in order. */
  function Run(st: Screen, cmds: seq<Cmd>): (r: Screen)
    requires ValidScreen(st)
    ensures ValidScreen(r)
    decreases |cmds|
  {
    if cmds == [] then st else Step(Run(st, cmds[..|cmds| - 1]), cmds[|cmds| - 1])
  }

  lemma RunThen(st: Screen, cmds: seq<Cmd>, c: Cmd)
    requires ValidScreen(st)
    ensures Run(st, cmds + [c]) == Step(Run(st, cmds), c)
  {
    assert (cmds + [c])[..|cmds|] == cmds;
  }

  lemma RunAt(st: Screen, col: u8, row: u8, text: seq<u8>)
    requires ValidScreen(st)
    ensures Run(st, At(col, row, text)) == PutAll(MoveCursor(st, col, row), text)
  {
    RunThen(st, [], MoveTo(col, row));
    assert [MoveTo(col, row)] + [Text(text)] == At(col, row, text);
    RunThen(st, [MoveTo(col, row)], Text(text));
  }

  lemma {:induction false} RunAppend(st: Screen, a: seq<Cmd>, b: seq<Cmd>)
    requires ValidScreen(st)
    ensures Run(st, a + b) == Run(Run(st, a), b)
    decreases |b|
  {
    if b == [] {
      assert a + b == a;
    } else {
      var init := b[..|b| - 1];
      assert a + b == (a + init) + [b[|b| - 1]];
      RunThen(st, a + init, b[|b| - 1]);
      RunAppend(st, a, init);
      RunThen(Run(st, a), init, b[|b| - 1]);
    }
  }

  /** `"e{i}"`. */
  function Label(i: nat): seq<u8>
  {
    [0x65] + Decimal(i)
  }

  /** What interface `i` shows on gauge row `row` < 3: its label, its tx rate, its rx rate. */
  function FieldText(i: nat, speeds: (u16, u16), row: nat): seq<u8>
  {
    if row == 0 then Label(i)
    else if row == 1 then Right(speeds.1 as nat, RateWidth)
    else Right(speeds.0 as nat, RateWidth)
  }

  /** `position(col, row)` followed by printing `text`. */
  function At(col: u8, row: u8, text: seq<u8>): seq<Cmd>
  {
    [MoveTo(col, row), Text(text)]
  }

  /** The calls for interface `i`, whose `mbps` returned `speeds` = (rx, tx). */
  function InterfaceCmds(i: nat, speeds: (u16, u16)): seq<Cmd>
    requires i < MaxShown
  {
    var col := (SlotWidth * i) as u8;
    At(col, 0, FieldText(i, speeds, 0)) + At(col, 1, FieldText(i, speeds, 1)) + At(col, 2, FieldText(i, speeds, 2))
  }

  function NetCmds(rates: seq<(u16, u16)>): seq<Cmd>
    requires |rates| <= MaxShown
  {
    if rates == [] then []
    else NetCmds(rates[..|rates| - 1]) + InterfaceCmds(|rates| - 1, rates[|rates| - 1])
  }

  /** `"cpu "`. */
  const CpuLabel: seq<u8> := [0x63, 0x70, 0x75, 0x20]

  /** `"{:>2} "` of one core's load. */
  function LoadText(load: u8): seq<u8>
  {
    Right(load as nat, LoadWidth) + [Space]
  }

  function LoadsText(loads: seq<u8>): seq<u8>
  {
    if loads == [] then [] else LoadsText(loads[..|loads| - 1]) + LoadText(loads[|loads| - 1])
  }

  /** Everything row 3 receives, in order. */
  function CpuText(loads: seq<u8>): seq<u8>
  {
    CpuLabel + LoadsText(loads)
  }

  function CpuHeader(): seq<Cmd>
  {
    At(0, 3, CpuLabel)
  }

  function LoadCmds(loads: seq<u8>): seq<Cmd>
  {
    if loads == [] then [] else LoadCmds(loads[..|loads| - 1]) + [Text(LoadText(loads[|loads| - 1]))]
  }

  /** The whole frame: home the cursor, the interface slots, then the CPU row. */
  function FrameCmds(rates: seq<(u16, u16)>, loads: seq<u8>): seq<Cmd>
    requires |rates| <= MaxShown
  {
    [MoveTo(0, 0)] + NetCmds(rates) + (CpuHeader() + LoadCmds(loads))
  }

  /** The number of interfaces polled before the first failed read, at most `shown`. */
  function FirstFailed(readings: seq<Option<Sample>>, shown: nat): (k: nat)
    requires shown <= |readings|
    ensures k <= shown
    ensures forall j :: 0 <= j < k ==> readings[j].Some?
    ensures k < shown ==> readings[k].None?
    decreases shown
  {
    if shown == 0 then 0
    else
      var k := FirstFailed(readings, shown - 1);
      if k < shown - 1 then k else if readings[shown - 1].None? then shown - 1 else shown
  }

  /**
   * The three `position`/`write!` pairs of one interface slot. `write!` on
   * the display goes through `write_str`, which never fails, so `unwrap`
   * never panics.
   */
  method DrawInterface(d: MockDisplay, i: nat, speeds: (u16, u16))
    requires d.Valid() && i < MaxShown
    modifies d
    ensures d.Valid() && d.State() == Run(old(d.State()), InterfaceCmds(i, speeds))
  {
    ghost var st0 := d.State();
    var col := (SlotWidth * i) as u8;
    ghost var a, b, c := At(col, 0, Label(i)), At(col, 1, Right(speeds.1 as nat, RateWidth)),
      At(col, 2, Right(speeds.0 as nat, RateWidth));
    d.Position(col, 0);
    var wroteLabel := d.WriteStr(Label(i));
    assert wroteLabel.Ok?;
    RunAt(st0, col, 0, Label(i));
    ghost var st1 := d.State();
    d.Position(col, 1);
    var wroteTx := d.WriteStr(Right(speeds.1 as nat, RateWidth));
    assert wroteTx.Ok?;
    RunAt(st1, col, 1, Right(speeds.1 as nat, RateWidth));
    RunAppend(st0, a, b);
    ghost var st2 := d.State();
    d.Position(col, 2);
    var wroteRx := d.WriteStr(Right(speeds.0 as nat, RateWidth));
    assert wroteRx.Ok?;
    RunAt(st2, col, 2, Right(speeds.0 as nat, RateWidth));
    RunAppend(st0, a + b, c);
  }

  /** Printing one more core's load extends the CPU row's commands by one. */
  lemma LoadStep(st: Screen, cores: seq<u8>, j: nat)
    requires ValidScreen(st) && j < |cores|
    ensures Run(st, LoadCmds(cores[..j + 1])) == PutAll(Run(st, LoadCmds(cores[..j])), LoadText(cores[j]))
  {
    assert cores[..j + 1][..j] == cores[..j];
    RunThen(st, LoadCmds(cores[..j]), Text(LoadText(cores[j])));
  }

  /** The loop printing `"{:>2} "` for each core. */
  method DrawLoads(d: MockDisplay, cores: seq<u8>)
    requires d.Valid()
    modifies d
    ensures d.Valid() && d.State() == Run(old(d.State()), LoadCmds(cores))
  {
    ghost var st0 := d.State();
    for j := 0 to |cores|
      invariant d.Valid()
      invariant d.State() == Run(st0, LoadCmds(cores[..j]))
    {
      var wrote := d.WriteStr(LoadText(cores[j]));
      assert wrote.Ok?;
      LoadStep(st0, cores, j);
    }
    assert cores[..|cores|] == cores;
  }

  /** One turn of the interface loop: poll `dev`, then draw its slot unless the poll failed. */
  method PollInterface(d: MockDisplay, dev: NetStats, i: nat, reading: Option<Sample>)
    returns (r: Result<(u16, u16), Error>)
    requires d.Valid() && i < MaxShown
    requires reading.Some? ==> Follows(dev.last, reading.value)
    modifies d, dev
    ensures d.Valid()
    ensures reading.None? ==>
      r == Err(StatsUnavailable(dev.name)) && dev.last == old(dev.last) && d.State() == old(d.State())
    ensures reading.Some? ==>
      r == Ok(Speeds(old(dev.last), reading.value)) && dev.last == reading.value &&
      d.State() == Run(old(d.State()), InterfaceCmds(i, r.value))
  {
    r := dev.Mbps(reading);
    if r.Ok? {
      DrawInterface(d, i, r.value);
    }
  }

  /** Drawing one more interface slot extends the interface part of the frame. */
  lemma NetStep(st: Screen, rates: seq<(u16, u16)>, speeds: (u16, u16))
    requires ValidScreen(st) && |rates| < MaxShown
    ensures Run(st, NetCmds(rates + [speeds])) == Run(Run(st, NetCmds(rates)), InterfaceCmds(|rates|, speeds))
  {
    assert (rates + [speeds])[..|rates|] == rates;
    RunAppend(st, NetCmds(rates), InterfaceCmds(|rates|, speeds));
  }

  /** The first failed read is at `i` when all reads before it succeed and it fails (or is past the end). */
  lemma FirstFailedAt(readings: seq<Option<Sample>>, shown: nat, i: nat)
    requires i <= shown <= |readings|
    requires forall j :: 0 <= j < i ==> readings[j].Some?
    requires i < shown ==> readings[i].None?
    ensures FirstFailed(readings, shown) == i
  {
  }

  /** The last sample each interface's `NetStats` holds. */
  ghost function Lasts(devs: seq<NetStats>): (r: seq<Sample>)
    reads devs
    ensures |r| == |devs| && forall j {:trigger r[j]} :: 0 <= j < |devs| ==> r[j] == devs[j].last
  {
    seq(|devs|, j requires 0 <= j < |devs| reads devs => devs[j].last)
  }

  /** The samples held once the first `n` interfaces have been polled with `readings`. */
  function Polled(lasts: seq<Sample>, readings: seq<Option<Sample>>, n: nat): (r: seq<Sample>)
    requires n <= |lasts| && n <= |readings|
    requires forall j :: 0 <= j < n ==> readings[j].Some?
    ensures |r| == |lasts|
    ensures forall j :: 0 <= j < n ==> r[j] == readings[j].value
    ensures forall j :: n <= j < |lasts| ==> r[j] == lasts[j]
  {
    seq(|lasts|, j requires 0 <= j < |lasts| => if j < n then readings[j].value else lasts[j])
  }

  /** Every successful reading is a later snapshot of the counters it replaces. */
  predicate Fresh(lasts: seq<Sample>, readings: seq<Option<Sample>>, n: nat)
    requires n <= |lasts| && n <= |readings|
  {
    forall j :: 0 <= j < n && readings[j].Some? ==> Follows(lasts[j], readings[j].value)
  }

  /** The speeds the first `n` polls report. */
  function Rates(lasts: seq<Sample>, readings: seq<Option<Sample>>, n: nat): (r: seq<(u16, u16)>)
    requires n <= |lasts| && n <= |readings| && Fresh(lasts, readings, n)
    requires forall j :: 0 <= j < n ==> readings[j].Some?
    ensures |r| == n
    ensures forall j :: 0 <= j < n ==> r[j] == Speeds(lasts[j], readings[j].value)
  {
    seq(n, j requires 0 <= j < n => Speeds(lasts[j], readings[j].value))
  }

  lemma PolledStep(lasts: seq<Sample>, readings: seq<Option<Sample>>, n: nat)
    requires n < |lasts| && n < |readings|
    requires forall j :: 0 <= j <= n ==> readings[j].Some?
    ensures Polled(lasts, readings, n + 1) == Polled(lasts, readings, n)[n := readings[n].value]
  {
  }

  lemma RatesStep(lasts: seq<Sample>, readings: seq<Option<Sample>>, n: nat)
    requires n < |lasts| && n < |readings| && Fresh(lasts, readings, n + 1)
    requires forall j :: 0 <= j <= n ==> readings[j].Some?
    ensures Rates(lasts, readings, n + 1) == Rates(lasts, readings, n) + [Speeds(lasts[n], readings[n].value)]
  {
  }

  /** Changing only interface `i`'s sample changes only entry `i` of `Lasts`. */
  lemma LastsUpdate(devs: seq<NetStats>, i: nat, before: seq<Sample>)
    requires i < |devs| == |before|
    requires forall j :: 0 <= j < |devs| && j != i ==> devs[j].last == before[j]
    ensures Lasts(devs) == before[i := devs[i].last]
  {
    assert forall j :: 0 <= j < |devs| ==> Lasts(devs)[j] == before[i := devs[i].last][j];
  }

  /**
   * One turn of the interface loop with the loop's bookkeeping: poll and
   * draw interface `i`; no other interface's counters change.
   */
  method PollNext(d: MockDisplay, devs: seq<NetStats>, readings: seq<Option<Sample>>, i: nat,
                  ghost st0: Screen, rates: seq<(u16, u16)>)
    returns (r: Result<(u16, u16), Error>)
    requires d.Valid() && ValidScreen(st0) && i < |devs| && i < |readings| && i < MaxShown
    requires forall a, b :: 0 <= a < b < |devs| ==> devs[a] != devs[b]
    requires readings[i].Some? ==> Follows(devs[i].last, readings[i].value)
    requires |rates| == i && d.State() == Run(st0, NetCmds(rates))
    modifies d, devs[i]
    ensures d.Valid()
    ensures r.Err? ==>
      readings[i].None? && r.error == StatsUnavailable(devs[i].name) &&
      Lasts(devs) == old(Lasts(devs)) && d.State() == old(d.State())
    ensures r.Ok? ==>
      readings[i].Some? && r.value == Speeds(old(devs[i].last), readings[i].value) &&
      Lasts(devs) == old(Lasts(devs))[i := readings[i].value] &&
      d.State() == Run(st0, NetCmds(rates + [r.value]))
  {
    ghost var before := Lasts(devs);
    r := PollInterface(d, devs[i], i, readings[i]);
    forall j | 0 <= j < |devs| && j != i
      ensures devs[j].last == before[j]
    {
      assert devs[j] != devs[i] by {
        if j < i { assert 0 <= j < i < |devs|; } else { assert 0 <= i < j < |devs|; }
      }
    }
    LastsUpdate(devs, i, before);
    if r.Ok? {
      NetStep(st0, rates, r.value);
    }
  }

  /**
   * The interface loop: poll and draw the first `shown` interfaces in
   * order, stopping at the first failed read; `failed` says whether it
   * stopped early, at interface `|rates|`.
   */
  method PollLoop(d: MockDisplay, devs: seq<NetStats>, readings: seq<Option<Sample>>, shown: nat)
    returns (rates: seq<(u16, u16)>, failed: bool)
    requires d.Valid() && shown <= |devs| && shown <= |readings| && shown <= MaxShown
    requires forall i, j :: 0 <= i < j < |devs| ==> devs[i] != devs[j]
    requires Fresh(Lasts(devs), readings, shown)
    modifies d, devs
    ensures d.Valid()
    ensures |rates| <= shown && (failed <==> |rates| < shown)
    ensures forall j :: 0 <= j < |rates| ==> readings[j].Some?
    ensures failed ==> readings[|rates|].None?
    ensures Lasts(devs) == Polled(old(Lasts(devs)), readings, |rates|)
    ensures rates == Rates(old(Lasts(devs)), readings, |rates|)
    ensures d.State() == Run(old(d.State()), NetCmds(rates))
  {
    ghost var st0 := d.State();
    ghost var lasts := Lasts(devs);
    rates := [];
    for i := 0 to shown
      invariant d.Valid()
      invariant |rates| == i
      invariant forall j :: 0 <= j < i ==> readings[j].Some?
      invariant Lasts(devs) == Polled(lasts, readings, i)
      invariant rates == Rates(lasts, readings, i)
      invariant d.State() == Run(st0, NetCmds(rates))
    {
      assert devs[i].last == lasts[i];
      var polled := PollNext(d, devs, readings, i, st0, rates);
      if polled.Err? {
        return rates, true;
      }
      PolledStep(lasts, readings, i);
      RatesStep(lasts, readings, i);
      rates := rates + [polled.value];
    }
    failed := false;
  }

  /**
   * The interface part of the frame: home the cursor, then the interface
   * loop, with the error the first failed read raises.
   */
  method DrawInterfaces(d: MockDisplay, devs: seq<NetStats>, readings: seq<Option<Sample>>)
    returns (rates: seq<(u16, u16)>, err: Option<Error>)
    requires d.Valid()
    requires Min(|devs|, MaxShown) <= |readings|
    requires forall i, j :: 0 <= i < j < |devs| ==> devs[i] != devs[j]
    requires forall i :: 0 <= i < Min(|devs|, MaxShown) && readings[i].Some? ==>
      Follows(devs[i].last, readings[i].value)
    modifies d, devs
    ensures d.Valid()
    ensures |rates| == FirstFailed(readings, Min(|devs|, MaxShown)) <= MaxShown
    ensures forall i :: 0 <= i < |rates| ==>
      rates[i] == Speeds(old(devs[i].last), readings[i].value) && devs[i].last == readings[i].value
    ensures forall i :: |rates| <= i < |devs| ==> devs[i].last == old(devs[i].last)
    ensures err == if |rates| < Min(|devs|, MaxShown) then Some(StatsUnavailable(devs[|rates|].name)) else None
    ensures d.State() == Run(old(d.State()), [MoveTo(0, 0)] + NetCmds(rates))
  {
    ghost var st0, lasts := d.State(), Lasts(devs);
    d.Position(0, 0);
    RunThen(st0, [], MoveTo(0, 0));
    assert [] + [MoveTo(0, 0)] == [MoveTo(0, 0)];
    var shown := Min(|devs|, MaxShown);
    assert Lasts(devs) == lasts;
    var failed;
    rates, failed := PollLoop(d, devs, readings, shown);
    RunAppend(st0, [MoveTo(0, 0)], NetCmds(rates));
    assert forall i :: 0 <= i < |devs| ==> devs[i].last == Lasts(devs)[i];
    FirstFailedAt(readings, shown, |rates|);
    err := if failed then Some(StatsUnavailable(devs[|rates|].name)) else None;
  }

  /** The CPU row: `"cpu "` at the start of row 3, then each core's load unless `get_load` fails. */
  method DrawCpu(d: MockDisplay, loads: Option<seq<u8>>) returns (err: Option<Error>)
    requires d.Valid()
    modifies d
    ensures d.Valid()
    ensures loads.None? ==> err == Some(CpuLoadUnavailable) && d.State() == Run(old(d.State()), CpuHeader())
    ensures loads.Some? ==>
      err == None && d.State() == Run(old(d.State()), CpuHeader() + LoadCmds(loads.value))
  {
    ghost var st0 := d.State();
    d.Position(0, 3);
    d.Print(CpuLabel);
    RunAt(st0, 0, 3, CpuLabel);
    if loads.None? {
      return Some(CpuLoadUnavailable);
    }
    DrawLoads(d, loads.value);
    RunAppend(st0, CpuHeader(), LoadCmds(loads.value));
    err := None;
  }

  /** The frame is the interface part followed by the CPU row. */
  lemma FrameSplit(st: Screen, rates: seq<(u16, u16)>, loads: Option<seq<u8>>)
    requires ValidScreen(st) && |rates| <= MaxShown
    ensures Run(st, [MoveTo(0, 0)] + NetCmds(rates) + CpuHeader()) ==
      Run(Run(st, [MoveTo(0, 0)] + NetCmds(rates)), CpuHeader())
    ensures loads.Some? ==>
      (Run(st, FrameCmds(rates, loads.value)) ==
       Run(Run(st, [MoveTo(0, 0)] + NetCmds(rates)), CpuHeader() + LoadCmds(loads.value)))
  {
    var net := [MoveTo(0, 0)] + NetCmds(rates);
    RunAppend(st, net, CpuHeader());
    if loads.Some? {
      RunAppend(st, net, CpuHeader() + LoadCmds(loads.value));
    }
  }

  /**
   * One iteration of the poll loop, up to the sleep. `readings[i]` is the
   * snapshot `mbps` takes for interface `i` (`None`: the read fails) and
   * `loads` the per-core loads (`None`: `get_load` fails). A failure stops
   * the frame where it happens and is returned; what was drawn stays drawn.
   */
  method DrawFrame(d: MockDisplay, devs: seq<NetStats>, readings: seq<Option<Sample>>, loads: Option<seq<u8>>)
    returns (rates: seq<(u16, u16)>, err: Option<Error>)
    requires d.Valid()
    requires Min(|devs|, MaxShown) <= |readings|
    requires forall i, j :: 0 <= i < j < |devs| ==> devs[i] != devs[j]
    requires forall i :: 0 <= i < Min(|devs|, MaxShown) && readings[i].Some? ==>
      Follows(devs[i].last, readings[i].value)
    modifies d, devs
    ensures d.Valid()
    ensures |rates| == FirstFailed(readings, Min(|devs|, MaxShown))
    ensures forall i :: 0 <= i < |rates| ==>
      rates[i] == Speeds(old(devs[i].last), readings[i].value) && devs[i].last == readings[i].value
    ensures forall i :: |rates| <= i < |devs| ==> devs[i].last == old(devs[i].last)
    ensures |rates| < Min(|devs|, MaxShown) ==>
      err == Some(StatsUnavailable(devs[|rates|].name)) &&
      d.State() == Run(old(d.State()), [MoveTo(0, 0)] + NetCmds(rates))
    ensures |rates| == Min(|devs|, MaxShown) && loads.None? ==>
      err == Some(CpuLoadUnavailable) &&
      d.State() == Run(old(d.State()), [MoveTo(0, 0)] + NetCmds(rates) + CpuHeader())
    ensures |rates| == Min(|devs|, MaxShown) && loads.Some? ==>
      err == None && d.State() == Run(old(d.State()), FrameCmds(rates, loads.value))
  {
    ghost var st0 := d.State();
    rates, err := DrawInterfaces(d, devs, readings);
    if err.Some? {
      return;
    }
    label Mid:
    err := DrawCpu(d, loads);
    assert forall i :: 0 <= i < |devs| ==> devs[i].last == old@Mid(devs[i].last);
    FrameSplit(st0, rates, loads);
  }
}
