# Getting Over It autosplitter: split and timer decision logic

This project models the decision logic of the LiveSplit autosplitter for
*Getting Over It with Bennett Foddy*, and proves properties of that model.
On every tick the autosplitter reads three values from the game: the elapsed
time and the player's x and y position. It also reads the timer's state. From
these it decides which commands to send to the timer: Reset, Start,
SetGameTime in milliseconds, or Split. A Split is taken when the player
enters the next of ten rectangular regions on the climb, in order.

The game uses sentinel values in its time field. -3 means the game is
closing, and the loop exits. -2 means the reward screen, and nothing happens.
-1 means the main menu, and a running or ended run is reset. Any other value
is the time of a run in progress.

Files:

- `geometry.dfy` (module `Geometry`): points, rectangles stored as top-left
  and bottom-right corners, and the strict containment test.
- `splits.dfy` (module `Splits`): the table of ten split regions and its
  properties. The table is well-formed, every region can be entered, and the
  regions climb, so no two of them overlap.
- `timer.dfy` (module `Timer`): timer states, commands, and the conversion
  from seconds to milliseconds. The conversion truncates toward zero, then
  casts to 64 bits with saturation, as Rust's float-to-`i64` cast does.
- `autosplitter.dfy` (module `Autosplitter`): the loop body as a
  specification function `Tick`, and the class `Splitter`. The class holds
  the retained `lastTime`, the split cursor `split`, and the command stream
  sent so far. Its `Step` method performs the loop body imperatively and is
  proved equal to `Tick`. The lemmas state each behaviour of a tick.
- `session.dfy` (module `Session`): one attached session. The method
  `RunSession` is the loop over a sequence of readings, followed by the final
  Reset. It is proved equal to the function `Session`. The lemmas bound the
  number of Splits per Reset and show that readings after a stop are ignored.

Notes on `src/lib.rs` that shape the model:

- All of the game's state reaches the splitter through the time sentinels.
  There is no status word, no pause handling and no alternate map.
- `in_bounds` does not normalise corner order; it trusts the order that
  `Rect::new` produces. The model keeps that behaviour. `Geometry.InBounds`
  states that a rectangle with swapped corners contains nothing, and
  `Splits.SplitsWellFormed` shows that every table entry has the expected
  order.

## Model

| member | source | states |
|---|---|---|
| `Geometry.NewRect` | src/lib.rs:37-42 | the left and top bounds become the first corner and the right and bottom bounds the second; the rectangle is well-formed exactly when left < right and bottom < top |
| `Geometry.InBounds` | src/lib.rs:22-28 | a point inside is strictly between the left and right bounds and strictly between the bottom and top bounds; it is never a corner; a rectangle with swapped corners contains nothing |
| `Geometry.Midpoint` | src/lib.rs:22-28 | every well-formed rectangle has a point strictly inside it |
| `Geometry.InBoundsOfNewRect` | src/lib.rs:22-42 | containment in `Rect::new(left, right, bottom, top)` holds exactly when left < x < right and bottom < y < top |
| `Geometry.EdgeIsOutside` | src/lib.rs:22-42 | a point whose x equals left or right, or whose y equals bottom or top, is never inside |
| `Geometry.StackedAreDisjoint` | src/lib.rs:22-28 | two rectangles, one wholly above the other, never both contain a point |
| `Splits.SplitsWellFormed` | src/lib.rs:45-56 | the table has exactly 10 regions, each with left < right and bottom < top |
| `Splits.RegionHasInterior` | src/lib.rs:45-56 | every region of the table holds some point strictly inside it |
| `Splits.SplitsAscend` | src/lib.rs:45-56 | each region lies wholly below every later region |
| `Splits.RegionsDisjoint` | src/lib.rs:45-56 | no point is inside two different regions of the table |
| `Timer.Trunc` | src/lib.rs:175 | `trunc` keeps the sign and drops the fractional part of the magnitude |
| `Timer.Saturate64` | src/lib.rs:175 | the cast to `i64` keeps in-range values and clamps the rest to the nearest bound |
| `Timer.GameTimeMillis` | src/lib.rs:173-178 | the game time in milliseconds is an `i64` of the sign of the time; when in range, its magnitude is the whole part of the time times 1000 |
| `Timer.TruncatesNotRounds` | src/lib.rs:175 | 1.9999 s gives 1999 ms, not 2000 ms |
| `Timer.TruncatesTowardZero` | src/lib.rs:175 | -0.0025 s gives -2 ms, not the -3 ms a floor would give |
| `Autosplitter.Tick` | src/lib.rs:134-186 | the loop exits exactly on time -3, and then sends nothing and keeps its state; otherwise the time becomes the retained time; the cursor rises by at most one per tick and never goes past 10 |
| `Autosplitter.Splitter.constructor` | src/lib.rs:100-101 | the loop starts with retained time 0, cursor 0, and nothing sent |
| `Autosplitter.Splitter.Step` | src/lib.rs:134-187 | one pass of the loop body appends exactly `Tick`'s commands to the stream and sets the retained time, the cursor and the exit flag to `Tick`'s; the cursor stays within 0..10 |
| `Autosplitter.ClosingExits` | src/lib.rs:138-140 | on time -3 the loop exits with no Start, Split, Reset or SetGameTime |
| `Autosplitter.ScreensSetNoTime` | src/lib.rs:142-161 | on time -2 or -1 no SetGameTime, Split or Start is sent, the loop continues, and the retained time becomes the sentinel |
| `Autosplitter.RewardScreenIsQuiet` | src/lib.rs:142-149 | on the reward screen nothing is sent and the cursor is kept |
| `Autosplitter.MenuResetsActiveRun` | src/lib.rs:151-161 | in the menu, Reset is sent, alone, and the cursor set to 0 exactly when the timer is Running or Ended; otherwise nothing is sent and the cursor is kept |
| `Autosplitter.InGameOrder` | src/lib.rs:163-186 | an in-game tick sends Start if the previous time was -1, or Reset then Start if the time went backwards; then SetGameTime of the truncated milliseconds; then at most one Split; Reset is sent exactly when the time went backwards; the cursor becomes 0 on a restart and is kept otherwise, plus one exactly when a Split is sent |
| `Autosplitter.NegativeTimeOnlySetsTime` | src/lib.rs:163-178 | a time below -1 that is not a sentinel sends neither Start nor Reset; its first command is a SetGameTime of at most -1000 ms |
| `Autosplitter.SplitOnlyAtNextRegion` | src/lib.rs:180-184 | a Split is sent exactly when the tick is in game and the position is strictly inside the region at the cursor (0 after a restart); the cursor then moves one past that region |
| `Autosplitter.OtherRegionIgnored` | src/lib.rs:180-184 | being inside any region other than the one at the cursor, earlier or later, sends no Split (unless a restart makes it region 0), and without a Reset the cursor is unchanged |
| `Autosplitter.CursorDropsOnlyOnReset` | src/lib.rs:151-184 | the cursor only decreases on a tick that sends Reset; a tick that sends Reset leaves the cursor at 0, or at 1 when it also sends a Split |
| `Autosplitter.TickSplitBudget` | src/lib.rs:155-183 | the Splits a tick sends plus the regions ahead afterwards are at most the regions ahead before, plus 10 per Reset sent |
| `Autosplitter.NoDoubleSplit` | src/lib.rs:180-186 | after a Split, staying in the same region on the next tick sends no Split and keeps the cursor, unless the next tick restarts the run or returns to the menu |
| `Session.Run` | src/lib.rs:103-188 | the loop stops at a failed read or at time -3, and otherwise feeds each tick's retained time and cursor to the next tick |
| `Session.Session` | src/lib.rs:96-191 | a session's command stream always ends with the Reset sent after the loop |
| `Session.RunSession` | src/lib.rs:96-191 | the loop over the readings followed by the final Reset sends exactly `Session`'s commands |
| `Session.RunSplitBudget` | src/lib.rs:155-184 | over any stretch of the loop, the Splits sent are at most the regions ahead of the starting cursor plus 10 per Reset |
| `Session.SessionSplitBudget` | src/lib.rs:96-191 | a whole session sends at most 10 Splits per Reset |
| `Session.StopIgnoresRest` | src/lib.rs:104-140 | after a failed read or time -3, later readings change nothing the loop sends |
| `Session.SessionStopsAtExit` | src/lib.rs:138-191 | after the loop stops, the only command left in the session is the final Reset |
| `Session.MenuToFirstSplit` | src/lib.rs:151-191 | a reset in the menu, a start on leaving it inside the Tutorial region, and closing give Reset, Start, SetGameTime(0), Split, Reset |

## Left out

- Process attach and runtime lookup (`Process::wait_attach`, `Module::attach`, `get_image`, `wait_get_class`, `wait_get_static_table`, `wait_get_field_offset`, src/lib.rs:59-95): these are calls into the `asr` crate, outside this model. The outer attach loop is not modelled; `Session.RunSession` models one attached session.
- Memory reads (src/lib.rs:104-132): a reading is either the three values or `ReadFailed`. Which of the three reads failed is not distinguished, because each failure ends the loop the same way.
- Async scheduling (`async_main!`, `next_tick().await`, `until_closes`): ticks are the elements of a sequence. The process going away is the end of that sequence.
- Diagnostics sent with `print_message` (src/lib.rs:98, 107-109, 143-145): output only, with no effect on the commands.
- The timing application: `timer::state()` is an input of each reading, and the commands are appended to a sequence. How the timer's state reacts to the commands is not modelled.
- Single-precision floats: time and coordinates are exact reals. f32 rounding of `time * 1000.0`, infinities and NaN are not modelled. Saturation of the `i64` cast is modelled.
- Other timer states: the timer state has the four values NotRunning, Running, Paused and Ended. Any further state the timer crate may report would behave like NotRunning or Paused, since only Running and Ended are tested.
