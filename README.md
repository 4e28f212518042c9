# h2-net-lcd: the network dashboard frame, modelled in Dafny

h2-net-lcd drives a 20x4 character LCD. Every half second it shows up to five
network interfaces and one row of CPU loads:

- Each interface has a four-column slot on rows 0-2. Row 0 holds the label
  `e<i>`. Row 1 holds the transmit rate and row 2 the receive rate. Both are
  megabytes per second, right-aligned in three columns.
- Row 3 reads `cpu ` and then the load of each core, as `{:>2} `.

This project models the parts of the program that compute and draw a frame,
and proves properties about them:

- `Mock` (`src/mock_display.rs`). The in-memory display: four lines of
  twenty characters and a cursor.
  - `position` clamps the cursor.
  - `write` stores one byte's character, then advances the cursor. It moves
    to the next column, then the next row, and wraps from the bottom right
    back to the top left.
  - `print` and `fmt::Write::write_str` write every byte in turn.
  - The class `MockDisplay` updates its fields in place. It is proved
    against the pure functions `MoveCursor`, `Put` and `PutAll` on a
    `Screen` value.
- `LcdDisplay` (`src/lcd_display.rs`). The glyph set-up loop of
  `init_display`: eight uploads of a bitmap that grows by one solid row from
  the bottom each time. The uploads are recorded, not sent to the
  controller.
- `Format`. The integer formatting the frame uses: `{}` and `{:>w}`.
- `Net` (`src/main.rs`).
  - `NetStats::mbps` turns two counter snapshots into a pair of rates.
  - `ifstats` keeps the `eth*` and `wlan*` interfaces, sorts their names and
    builds one `NetStats` per name.
- `Frame` (`src/main.rs`). One pass of the poll loop's body.
  - The display calls are described as a list of commands, and `Run` gives
    the screen those commands produce.
  - `DrawFrame` issues the calls on a `MockDisplay` and stops at the first
    failed read, as the `?` operators do.
- `Layout`. What the screen shows after a frame, cell by cell.

The binary itself draws on the hardware driver's `Display`. The model draws
on `MockDisplay`, which has the same `position`, `print` and `fmt::Write`
interface. That driver is not part of this model.

Notes on the code:

- `mbps` divides the byte delta by the interval in seconds and by 10^6, so
  it reports megabytes per second. A zero interval is not rejected and
  behaves as the float division does.
- Counters are subtracted without wraparound correction (see
  Net.NetStats.Mbps under "## Left out").
- The glyph upload loop belongs to `init_display` in `src/lcd_display.rs`.
  This `main.rs` does not call it: it opens the display itself and uploads
  no glyph, and the frame prints numbers, not bars.

## Model

| member | source | states |
|---|---|---|
| Mock.MoveCursor | src/mock_display.rs:22-24 | the grid is untouched; the row is clamped to 3 and the column to 19; the cursor stays on the grid |
| Mock.Advance | src/mock_display.rs:41-48 | the cursor step stays on the grid and moves to the next cell in row-major order, wrapping from the last cell to the first |
| Mock.Put | src/mock_display.rs:32-49 | writing a byte keeps the screen well formed and moves the cursor one cell on, modulo the 80 cells |
| Mock.PutAll | src/mock_display.rs:26-30 | printing n bytes keeps the screen well formed and moves the cursor n cells on, modulo 80 |
| Mock.PutAllAppend | src/mock_display.rs:26-30 | printing a then b gives the same screen as printing a + b |
| Mock.PutCell | src/mock_display.rs:40-48 | a write changes exactly the cell under the cursor, to the byte's character |
| Mock.PutAllCells | src/mock_display.rs:26-49 | after printing at most 80 bytes, the cell k writes after the cursor holds the character of byte k; every cell not reached keeps its character |
| Mock.PrintInRow | src/mock_display.rs:26-49 | a run that fits in the rest of the cursor's row overwrites exactly those columns of that row; when the run ends before the last column, the cursor ends just after it |
| Mock.CharOfCollisions | src/mock_display.rs:33-38 | two different bytes show the same character only for 0 and 0x20 (a space) or 0xB0 and 0xDF (a degree sign) |
| Mock.MockDisplay.constructor | src/mock_display.rs:15-20 | a new display is four lines of twenty spaces, with the cursor at the top left |
| Mock.MockDisplay.Position | src/mock_display.rs:22-24 | the new state is MoveCursor of the old one |
| Mock.MockDisplay.Write | src/mock_display.rs:32-49 | the new state is Put of the old one |
| Mock.MockDisplay.Print | src/mock_display.rs:26-30 | the new state is PutAll of the old one over the whole string |
| Mock.MockDisplay.WriteStr | src/mock_display.rs:61-65 | prints the whole string and always reports success |
| Format.Decimal | src/main.rs:126 | `{}` of a number is a non-empty run of digits with no leading zero |
| Format.ValueOfDecimal | src/main.rs:126-135 | reading the digits of `{}` back gives the number |
| Format.DecimalWidth | src/main.rs:128-135 | a number needs at most k digits exactly when it is below 10^k |
| Format.PadLeft | src/main.rs:128-135 | `{:>w}` has length max(w, len); the text ends the field and only spaces come before it |
| Format.RightWidth | src/main.rs:128-130 | a number below 10^w fills a `{:>w}` field exactly |
| LcdDisplay.Column | src/lcd_display.rs:29-31 | a glyph column has the requested number of rows |
| LcdDisplay.Height | src/lcd_display.rs:29-31 | the lit-row count of a glyph is at most its number of rows |
| LcdDisplay.ColumnHeight | src/lcd_display.rs:29-33 | every column is a bar (empty rows above solid rows) of exactly its height |
| LcdDisplay.BarOfHeight | src/lcd_display.rs:29-33 | every bar-shaped glyph is the column of its own height, so bars and heights correspond one to one |
| LcdDisplay.BarGrows | src/lcd_display.rs:30-31 | bar h+1 is bar h with row 7-h made solid |
| LcdDisplay.UploadGlyphs | src/lcd_display.rs:29-33 | slot i receives the bar of height i+1, for i = 0..7, in that order; the buffer ends fully solid |
| Net.CeilDiv | src/main.rs:51 | the quotient is the least whole number whose multiple of b reaches a |
| Net.Rate | src/main.rs:47-51 | below the u16 cap, the rate is the least whole number of MB/s not below the true rate; otherwise it is 65535; a zero interval gives 0 for no bytes and 65535 otherwise |
| Net.RateMonotone | src/main.rs:48-51 | more bytes in the same interval never show a lower rate |
| Net.PollsCountEveryByte | src/main.rs:48-50 | over a run of snapshots, each following the one before, the deltas between consecutive snapshots add up to the change of each counter from the first snapshot to the last |
| Net.NetStats.constructor | src/main.rs:28-34 | a NetStats holds its name and its first snapshot |
| Net.NetStats.Mbps | src/main.rs:45-52 | a failed read returns the interface's error and keeps the stored snapshot; otherwise it returns (rx, tx) rates between the stored and the new snapshot, and stores the new one |
| Net.NewNetStats | src/main.rs:28-34 | fails with the interface's error when the first read fails; otherwise a fresh NetStats holding the name and that snapshot |
| Net.Filter | src/main.rs:60-64 | every wanted name keeps its number of occurrences and every other name is dropped |
| Net.LexRefl | src/main.rs:65 | the string order is reflexive |
| Net.LexTotal | src/main.rs:65 | any two strings are ordered one way or the other |
| Net.LexTrans | src/main.rs:65 | the string order is transitive |
| Net.LexAntisym | src/main.rs:65 | two strings ordered both ways are equal |
| Net.Insert | src/main.rs:65 | inserting into a sorted run gives a sorted run with that one name added |
| Net.Sort | src/main.rs:65 | the result is sorted and a permutation of the input |
| Net.SortedUnique | src/main.rs:65 | two sorted permutations of the same names are equal, so any correct sort gives Sort's result |
| Net.SelectNames | src/main.rs:57-65 | the names kept are sorted and are exactly the eth/wlan names with their multiplicities, equal to Sort(Filter(networks)) |
| Net.FirstUnreadable | src/main.rs:67-69 | every name before the index can be read and the name at the index cannot |
| Net.IfStats | src/main.rs:55-71 | a failed interface listing gives its error; otherwise the first sorted name whose snapshot fails gives that name's error; if none fails, one fresh, distinct NetStats per sorted name, in order, holding its snapshot |
| Net.BuildStats | src/main.rs:66-70 | the first name whose snapshot fails gives its error; otherwise one fresh, distinct NetStats per name, in order |
| Frame.Step | src/main.rs:121-135 | a position or print call keeps the screen well formed |
| Frame.Run | src/main.rs:120-136 | a run of display calls keeps the screen well formed |
| Frame.RunAppend | src/main.rs:120-136 | running a + b is running a, then b |
| Frame.FirstFailed | src/main.rs:122-124 | the count is at most the number shown; every read before it succeeds, and the read at it fails when it is below that number |
| Frame.DrawInterface | src/main.rs:125-130 | the display ends as the three position/`write!` pairs of the slot leave it; each `write!` goes through write_str, whose unwrap never fails |
| Frame.DrawLoads | src/main.rs:134-135 | the display ends as printing each core's `{:>2} ` in order leaves it |
| Frame.PollInterface | src/main.rs:124-130 | a failed read returns the error and touches neither the display nor the snapshot; otherwise it returns the rates, stores the new snapshot and draws the slot |
| Frame.PollNext | src/main.rs:122-130 | one turn of the interface loop; only interface i's snapshot changes, and the slot is drawn when the read succeeds |
| Frame.PollLoop | src/main.rs:122-131 | polls the first `shown` interfaces in order and stops at the first failed read; the snapshots, the rates and the display are those of the polls done |
| Frame.DrawInterfaces | src/main.rs:121-131 | homes the cursor, then polls and draws min(5, n) interfaces, stopping at the first failed read with that interface's error; polled interfaces hold their readings, the others are unchanged |
| Frame.DrawCpu | src/main.rs:132-136 | prints `cpu ` at the start of row 3; a failed load read returns its error; otherwise it prints each core's load |
| Frame.DrawFrame | src/main.rs:120-136 | one frame: a failed interface read stops it with that error after the slots before it; a failed load read stops it after `cpu `; otherwise the whole frame is drawn; each polled interface holds its reading and reports Speeds |
| Layout.FieldWidth | src/main.rs:125-130 | a label or rate field of an interface takes at most four columns when its rates are below 10000 |
| Layout.SlotLines | src/main.rs:125-130 | when both of its rates are below 10000, drawing interface i writes its three fields at column 4i of rows 0-2 and changes no other cell |
| Layout.NetLayout | src/main.rs:121-131 | when every rate is below 10000, after the interface loop each cell of rows 0-2 shows the field of the slot it lies in, or keeps its old character; row 3 is untouched |
| Layout.LoadsRun | src/main.rs:134-135 | the load loop prints the concatenation of the `{:>2} ` texts |
| Layout.CpuRow | src/main.rs:132-135 | when it fits, the CPU part overwrites the start of row 3 with `cpu ` and the loads, and nothing else |
| Layout.LoadTextWidth | src/main.rs:135 | a load's text is three bytes below 100 and four at 100 |
| Layout.CpuTextLength | src/main.rs:133-135 | with every load below 100, row 3's text is 4 + 3 per core and fits in 20 columns exactly when there are at most five cores |
| Layout.FrameLayout | src/main.rs:120-136 | the whole frame, cell by cell: the interface slots on rows 0-2, the CPU text at the start of row 3, every other cell unchanged |
| Layout.LeftoverDigit | src/main.rs:120-136 | frames are drawn without clearing the screen: over two whole frames that fit, interface 0's tx rate 1000 followed by 5 leaves row 1 starting "  50", whatever the other interfaces and the cores show |

## Left out

- Hardware. This covers the I2C bus, the controller calls and `stop_display`. The glyph uploads are recorded in a list instead of being sent.
- Operating-system reads. These are the interface list, the byte counters and the CPU loads. Each becomes a parameter. `None` stands for a failed read; in `Net.IfStats` and `Net.BuildStats`, which take a map of readings, a name missing from the map is the failed read.
- `Instant`. A time becomes a count of nanoseconds.
- `CPUStats::get_load` and its float arithmetic. The loads are inputs to the frame.
- The outer loop of `main`: the Ctrl-C flag, the 500 ms sleep and the repetition. `DrawFrame` models one pass.
- `MockDisplay::dump` and the `println!` in `get_load`. They only print to the console.
- `print` takes the UTF-8 bytes of its string. The model takes the byte sequence directly; every string the frame prints is ASCII.
- `Vec::sort` is modelled by an insertion sort. `Net.SortedUnique` shows that every sorted permutation of the same names is that same result.
- `ifstats` iterates over what the system returns. The model takes the interface names as a sequence in that order; the sort removes the order anyway.
- Net.Rate: uses exact rational arithmetic where the source uses `f64` division and `ceil`. When the exact rate is a whole number, or just below one, float rounding can push the quotient over it, and the source then reports one more. For example, 100168 bytes in 100168000 ns is exactly 1 MB/s. The float steps give 0.100168 s, then a quotient of 1.0000000000000002, and `ceil` gives 2 where `Rate` gives 1.
- Net.NetStats.Mbps: requires that neither the clock nor a counter went back (`Follows`). The source's `u64` subtraction would panic or wrap on a counter reset, and that case is not modelled.
- Frame.DrawFrame: carries the same `Follows` requirement for every interface it polls.
- Layout.SlotLines: holds only when both of the slot's rates are below 10000. A longer field does not fit the slot's four columns.
- Layout.NetLayout: holds only for rates below 10000. In slots 0-3 a longer rate runs into the next slot. Slot 4 starts at column 16, so there a five-digit rate runs past column 19 and wraps to the start of the next row. `Mock.PutAll` still models both, but no cell-by-cell statement is made for them.
- Layout.FrameLayout: holds only for rates below 10000 and a CPU row that fits in 20 columns. A longer row wraps to row 0, which `Mock.PutAll` models but the lemma does not describe.
- Layout.LeftoverDigit: holds under the same conditions as FrameLayout, for both frames. With 14 or more cores the CPU text wraps on into row 1 and would cover the leftover digit.
