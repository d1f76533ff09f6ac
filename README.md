# vtop dashboard core, modelled in Dafny

vtop is a terminal system monitor. It keeps an application object with a
`running` flag. While the flag holds, it loops: it draws a screen, waits
briefly for one input event, refreshes its metrics and sleeps a second. The
screen holds a process table with four text cells per process: pid, name,
CPU usage with a `%` sign, and memory in "MB". The rows are sorted in place,
descending by the number read back from the memory cell. Esc, `q`, or
Ctrl+`c`/`C` clears the flag and ends the loop.

The model has five modules:

- `Text` (text.dfy): the text operations the table relies on, with their
  round trips proved:
  - decimal rendering of a pid;
  - rendering with two decimals;
  - removal of every occurrence of a pattern;
  - parsing of an unsigned decimal number into an exact `real`.
- `Rows` (rows.dfy): a process sample, the four-cell row built from it, the
  memory sort key with its 0.0 fallback, and the rounding of memory / 1024
  to hundredths.
- `RowSort` (sort.dfy): the stable descending sort.
  - `SortDesc` is its specification. It is proved to be a permutation,
    sorted, stable, and the only sequence with those three properties.
  - `SortInPlace` is an insertion sort on an `array`, proved to compute
    `SortDesc`.
  - The sort is generic in its key function, the way `sort_by` takes a
    comparison closure.
- `Input` (input.dfy): terminal events, key events and the quit-key
  decision.
- `Dashboard` (app.dfy): the `App` class and its methods. Fields:
  - `running`;
  - the process snapshot;
  - the table on screen;
  - a ghost history of the snapshots each frame showed;
  - the ghost snapshot the table on screen was built from.

The run loop's outside world is a finite sequence of `Tick`s, one per
iteration. A tick gives:

- whether the draw succeeds;
- what the bounded wait for input yields: nothing, an event, or a failed
  wait or read;
- the process snapshot the metrics refresh produces.

`App.Run` is proved to follow `Simulate`, the same loop written over values.
The lemmas about `Simulate` then say:

- when the loop stops;
- how many frames it draws;
- what each frame shows.

`App.Run` also says what is on screen when it returns: the sorted table of
the last frame it drew, or the table shown before the run when it drew none.

The key match at src/main.rs:140-144 is narrower than the usual quit
bindings:

- Only a lower-case `'q'` quits. Upper-case `'Q'` does not.
- Ctrl+`c`/`C` quits only when the modifier set is exactly Control.
  Ctrl+Shift+`C` does not quit.
- Esc and `q` quit whatever modifiers are held.
- Only key presses reach the key handler. Releases and repeats are ignored.

## Model

| member | source | states |
|---|---|---|
| Text.NatToString | src/main.rs:91 | a pid's text is a non-empty string of digits, with no leading zero unless it is "0" |
| Text.NatToStringRoundTrip | src/main.rs:91 | reading a pid's digits back gives the pid |
| Text.IndexOf | src/main.rs:100-101 | the position of the first decimal point, or the length if there is none; no point occurs before it |
| Text.FracValue | src/main.rs:100-101 | the digits after the point are worth between 0 and 1 |
| Text.ParseDecimal | src/main.rs:100-101 | a successful parse of the memory text gives a non-negative number, and only a non-empty text parses |
| Text.Fixed2 | src/main.rs:93-94 | the two-decimal text of a number of hundredths; Text.Fixed2RoundTrip states what it means |
| Text.Fixed2RoundTrip | src/main.rs:93-94 | the two-decimal text of n hundredths parses back to exactly n / 100 |
| Text.RemoveAll | src/main.rs:100 | removal of every occurrence of a pattern; Text.RemoveSuffix states what it does to a memory cell |
| Text.RemoveSuffix | src/main.rs:100-101 | removing every " MB" from a number's text followed by " MB" leaves the number's text |
| Rows.Cells | src/main.rs:90-95 | a row has exactly four cells, and the fourth (index 3, the one the sort reads) is the memory cell |
| Rows.MemoryHundredths | src/main.rs:94 | the memory shown in MB is memory / 1024 to within half a hundredth, and an exact half rounds to an even number of hundredths |
| Rows.MemoryHundredthsMonotone | src/main.rs:94 | more memory never shows as a smaller number of MB |
| Rows.MemoryKey | src/main.rs:100-101 | the sort key of a memory cell is never negative; text that fails to parse ranks as 0.0 |
| Rows.UnparsableMemoryRanksZero | src/main.rs:100-101 | a memory cell that does not parse after removing " MB" ranks as 0.0 |
| Rows.Key | src/main.rs:100-101 | the sort key of a row is the memory key of its fourth cell; Rows.MemoryCellRoundTrip and Rows.BuildRowReadsBack state its value on built rows |
| Rows.BuildRow | src/main.rs:89-96 | the four cells of a process's row; Rows.BuildRowReadsBack states what each cell reads back as |
| Rows.BuildRowReadsBack | src/main.rs:89-96 | a built row reads back as its process: the pid's digits give the pid, the name is unchanged, the CPU cell ends in '%' and parses to the usage, and the memory key is the rounded MB value |
| Rows.PercentCellRoundTrip | src/main.rs:93 | a CPU cell ends with '%' and parses, without it, to the usage |
| Rows.MemoryCellRoundTrip | src/main.rs:94-101 | every memory cell the table writes parses back, under the sort's key, to the value it shows |
| Rows.BuildRows | src/main.rs:85-97 | one row per process, in the same order, row i built from process i |
| RowSort.Insert | src/main.rs:99-103 | one step of the stable sort; RowSort.InsertPermutation, RowSort.InsertSorted and RowSort.InsertKeepsKeyOrder state what it does |
| RowSort.SortDesc | src/main.rs:99-103 | the stable descending sort by key; RowSort.SortDescPermutation, RowSort.SortDescSorted, RowSort.SortDescStable and RowSort.SortDescUnique state what it does |
| RowSort.InsertPermutation | src/main.rs:99-103 | one insertion step adds exactly the inserted element |
| RowSort.InsertSorted | src/main.rs:99-103 | one insertion step keeps a descending sequence descending |
| RowSort.InsertKeepsKeyOrder | src/main.rs:99-103 | one insertion step puts the new element behind every element with the same key |
| RowSort.SortDescPermutation | src/main.rs:99-103 | sorting keeps the length and the multiset of rows |
| RowSort.SortDescSorted | src/main.rs:99-103 | after sorting, memory keys never increase from one row to the next |
| RowSort.SortDescStable | src/main.rs:99-103 | rows with equal keys keep their input order, as the stable `sort_by` does |
| RowSort.SortedDeterminedByKeys | src/main.rs:99-103 | two descending sequences that agree on the rows of every key are equal |
| RowSort.SortDescUnique | src/main.rs:99-103 | any sorted, stable rearrangement of the rows is exactly the sorted table, so the ordering is fully determined |
| RowSort.SortThree | src/main.rs:99-103 | three rows with keys b > c > a come out as b, c, a |
| RowSort.InsertAt | src/main.rs:99-103 | moving one element of the array left into its place gives the insertion step on the sorted prefix and leaves the rest alone |
| RowSort.SortInPlace | src/main.rs:99-103 | the array is sorted in place into the stable descending sort of its old contents |
| Input.IsQuitKey | src/main.rs:140-144 | whether a key quits; Input.QuitKeys, Input.EscAndQQuitWithAnyModifiers, Input.UpperQIgnored and Input.CtrlCNeedsExactlyControl state which keys do |
| Input.QuitsOn | src/main.rs:129-134 | whether an event quits; Input.QuitsOnlyOnPress, Input.ReleaseAndRepeatIgnored and Input.NonKeyEventsIgnored state which events do |
| Input.QuitKeys | src/main.rs:139-145 | the quit keys are exactly Esc, 'q', and 'c' or 'C' with exactly the Control modifier |
| Input.QuitsOnlyOnPress | src/main.rs:129-134 | an event quits exactly when it is a key press of a quit key |
| Input.ReleaseAndRepeatIgnored | src/main.rs:130 | release and repeat events never quit, whatever the key, 'q' included |
| Input.EscAndQQuitWithAnyModifiers | src/main.rs:141 | a pressed Esc or 'q' quits with any modifiers held |
| Input.UpperQIgnored | src/main.rs:141 | upper-case 'Q' never quits |
| Input.CtrlCNeedsExactlyControl | src/main.rs:142 | a pressed 'c' or 'C' quits exactly when the modifiers are Control alone |
| Input.NonKeyEventsIgnored | src/main.rs:131-133 | mouse, resize, focus and paste events never quit |
| Dashboard.Simulate | src/main.rs:51-60 | the run loop over values; Dashboard.SimulateStopsAtFirstEnd and the lemmas below state when it stops and what it draws |
| Dashboard.LastFrame | src/main.rs:54 | the snapshot of the last frame drawn, or the one on screen before if none was drawn; Dashboard.App.Run states that it is what the screen shows |
| Dashboard.FirstEnd | src/main.rs:53-58 | the first iteration at which the loop stops: no earlier tick stops it and that tick does |
| Dashboard.SimulateStopsAtFirstEnd | src/main.rs:53-58 | the loop ends at the first stopping tick with that tick's outcome, having drawn one frame per iteration (the last only if its draw succeeded); with no such tick it draws once per tick |
| Dashboard.QuitIffQuitKeyFirst | src/main.rs:53-55 | the run ends successfully exactly when a quitting key press arrives before any failure |
| Dashboard.DrawsUpToQuit | src/main.rs:53-55 | if the first quitting event arrives in iteration k + 1, the loop stops after exactly k + 1 draws |
| Dashboard.DrawsOncePerTick | src/main.rs:53-58 | without a quitting event or a failure the loop draws once per tick and is still running |
| Dashboard.FramesShowSnapshots | src/main.rs:54-56 | frame i shows the snapshot held then: the first one, or the one refreshed in the previous iteration |
| Dashboard.Table | src/main.rs:85-103 | the table drawn for a snapshot; Dashboard.TableSpec states what it is |
| Dashboard.TableSpec | src/main.rs:85-103 | the table has one row per process, is a permutation of the built rows, is sorted by memory key and is stable |
| Dashboard.ZeroKeysLast | src/main.rs:99-103 | rows ranked 0.0, unparsable ones included, come after every other row |
| Dashboard.ThreeRowKeys | src/main.rs:94-101 | processes using 100, 5000 and 2000 units of memory get the sort keys 0.10, 4.88 and 1.95 |
| Dashboard.ThreeProcessExample | src/main.rs:85-103 | processes using 100, 5000 and 2000 units of memory are listed in the order 5000, 2000, 100 |
| Dashboard.ProcessTable | src/main.rs:85-103 | building the rows into an array and sorting it in place gives the specified table: one row per process, descending by memory |
| Dashboard.App.Valid | src/main.rs:54 | the screen holds the sorted table of the snapshot it was built from |
| Dashboard.App.constructor | src/main.rs:42-49 | a new application is running, holds the provider's first snapshot, and has drawn nothing: its empty screen is the table of no processes |
| Dashboard.App.Quit | src/main.rs:147-149 | `running` becomes false and nothing else changes |
| Dashboard.App.OnKeyEvent | src/main.rs:139-145 | a quit key clears `running`; any other key leaves it as it was; `running` is never set |
| Dashboard.App.HandleCrosstermEvents | src/main.rs:127-137 | only a failed wait or read is an error; a quitting key press clears `running`; every other outcome leaves it unchanged; only `running` can change |
| Dashboard.App.Render | src/main.rs:85-103 | the screen shows the sorted table of the current snapshot, that snapshot is the one on screen, and the frame is recorded |
| Dashboard.App.Refresh | src/main.rs:56 | the refreshed snapshot replaces the old one |
| Dashboard.App.Run | src/main.rs:51-60 | the loop's exit, frames and final snapshot are those of `Simulate`; `running` is false at the end exactly when a quit key stopped the loop; the screen shows the sorted table of the last frame drawn, or the table it showed before if the run drew nothing |

## Left out

- Terminal setup and teardown, `main` and error-report installation
  (src/main.rs:15-33): foreign I/O.
- Layout, widgets, styles and the "System Info" header with its
  formatted CPU and memory totals (src/main.rs:63-83, 105-124): rendering
  through foreign widgets. Drawing is reduced to the table on screen and a
  success or failure per frame.
- The metrics provider: the provider is a foreign black box. Its process
  list is an arbitrary sequence because map iteration order is unspecified.
  Each refresh's result comes from the tick.
- The 100 ms input wait and the one-second sleep: timing. Each iteration
  consumes one tick instead.
- App.Run: the loop is bounded by the supplied ticks. `OutOfTicks` is a
  modelling artefact that stands for the loop still running.
- Rows.BuildRow: the process name is taken as already converted text; the
  lossy conversion of non-UTF-8 names is not modelled.
- Rows.BuildRow: the CPU usage is a single-precision float. It is given
  here already rounded to hundredths of a percent, so the float formatting
  is not modelled.
- Rows.MemoryHundredths: assumes two-decimal formatting rounds the exact
  quotient memory / 1024 to nearest, ties to even. Memory amounts too large
  for a double's 53-bit mantissa are not modelled.
- Text.ParseDecimal: accepts only unsigned decimal digits with an optional
  point. A sign, an exponent, "inf" and "NaN", which the float parser also
  accepts, are not modelled. Every cell the table writes has the modelled
  form.
- Rows.MemoryKey: keys are exact `real`s rather than doubles. Two-decimal
  values of realistic size parse to distinct, equally ordered doubles.
  The panic of the comparison on NaN cannot occur on the modelled keys.
- Input key codes with payloads (function keys, media and modifier keys)
  carry a number only. Mouse events carry no data.
