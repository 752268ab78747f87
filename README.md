# Focus Tool: timer, checklist and window geometry

A Dafny model of the logic inside `FocusTool` (`focus_tool.py`), the desktop focus widget's main
class, with the Tk widgets stripped away. Three parts remain:

- **The countdown timer**: `time_remaining` (seconds), `timer_running` and
  `original_time_minutes`. These change through Start, Stop, the 20/50/120-minute presets, the
  custom-minutes dialog, Reset and one tick of the timer loop, and the session completes at zero.
  The label renders the seconds left as zero-padded `MM:SS`.
- **The task checklist**: an ordered list of `{text, created, completed}` records that Add,
  Complete, Delete and Clear All edit in place. The listbox shows each task as `✓ ` or `□ `
  followed by its text.
- **The window geometry**: which resize handle a pointer grabs, the clamped size a drag asks for,
  the minimum-size corrections, centring on the screen, and the `WxH+X+Y` geometry strings that
  are written out and parsed back when the window configuration is saved.

Modules:

- `Wrappers`: the `Option` type.
- `PyText`: the Python built-ins the code depends on. These are `str.isspace`, `strip`,
  `split` on one character, `str(int)`, `int(str)` and `02d` padding.
- `Clock`: the timer label, the custom-minutes entry and the completion message.
- `Checklist`: the task record. The list edits are functions from the old list to the new one.
- `WindowGeometry`: the resize arithmetic and the geometry strings.
- `App`: the class `FocusTool`. Its fields are updated in place by methods, and each method is
  proved against the specification functions above.

Everything the program gets from outside becomes a parameter:

- the text the user typed;
- the listbox selection, as `Option<nat>`;
- the yes/no answer to "clear all tasks?", as a `bool`;
- the creation timestamp, as an opaque string;
- pointer coordinates, window and screen sizes, and the window's current position.

What the program would display or request becomes a result: the label text, the listbox rows,
the completion message and the geometry requests.

## Model

| member | source | states |
|---|---|---|
| `PyText.IsSpace` | focus_tool.py:940 | `str.isspace`: the full set of characters Python calls whitespace, which `strip()` removes (its meaning is stated through `StripSlice` and `StripIgnoresPadding`) |
| `PyText.Strip` | focus_tool.py:940 | `strip()` leaves no whitespace at either end and never lengthens the text |
| `PyText.StripBlanks` | focus_tool.py:338-342 | stripping either kind of padding (what `strip()` removes, or the narrower set `int()` skips) leaves none of it at either end and never lengthens the text |
| `PyText.StripSlice` | focus_tool.py:940 | what stripping keeps is a contiguous slice of the input, and everything cut from either side is padding of the kind stripped |
| `PyText.StripIgnoresPadding` | focus_tool.py:888 | surrounding padding of the kind stripped makes no difference to the result, for `strip()` and for `int()`'s own stripping alike |
| `PyText.NatToString` | focus_tool.py:932 | `str(n)` is a non-empty digit string with no leading zero (except for 0), one character exactly when n < 10, and it denotes n |
| `PyText.Pad2` | focus_tool.py:923 | `02d` gives at least two digits, exactly two below 100, with no leading zero once longer than two, and denotes the number |
| `PyText.IntToString` | focus_tool.py:286 | `str(i)` starts with `-` exactly for negative `i`, followed by a non-empty digit string with no leading zero (except `0` itself); `IntRoundTrip` shows `int()` reads it back as `i` |
| `PyText.ParseInt` | focus_tool.py:338-342 | `int(s)`: its meaning is stated by `IntRoundTrip`, `DigitsParse`, `ParseIntIgnoresPadding` and `IntRejectsSeparator` |
| `PyText.IntRoundTrip` | focus_tool.py:338-342 | `int(str(i)) == i` for every integer, negative ones included |
| `PyText.DigitsParse` | focus_tool.py:338-342 | `int()` reads a plain digit string, with or without a leading minus sign, as the number those digits denote |
| `PyText.ParseIntIgnoresPadding` | focus_tool.py:338-342 | `int()` ignores the whitespace it skips (ASCII whitespace and the non-ASCII `isspace` characters) around the number |
| `PyText.IntRejectsSeparator` | focus_tool.py:338-342 | a U+001C..U+001F character before the digits is removed by `strip()` but makes `int()` fail |
| `PyText.Split` | focus_tool.py:334 | `split(sep)` yields at least one piece, no piece holds the separator, and joining the pieces with it gives back the input |
| `PyText.SplitJoin` | focus_tool.py:334-338 | splitting the join of separator-free pieces gives back exactly those pieces |
| `Clock.Render` | focus_tool.py:920-923 | the label is minutes, a colon and two seconds digits; it is exactly `MM:SS` (5 characters) when less than 100 minutes are left, and longer labels have no leading zero |
| `Clock.RenderDecodes` | focus_tool.py:920-923 | the seconds shown are below 60, and minutes × 60 + seconds equals the seconds left |
| `Clock.RenderInjective` | focus_tool.py:920-923 | two different times never show the same label |
| `Clock.RenderWholeMinutes` | focus_tool.py:831-833 | after setting `m` minutes the label reads `m` zero-padded, then `:00` |
| `Clock.ReadCustomMinutes` | focus_tool.py:885-899 | the entry is accepted exactly when `int()` reads the stripped entry as a number in 1..1440; it is "Invalid Input" exactly when `int()` fails on it and "Invalid Time" otherwise |
| `Clock.CustomEntryAccepted` | focus_tool.py:887-889 | every minute count in 1..1440 is accepted, with any whitespace around it |
| `Clock.CompletionMessage` | focus_tool.py:932 | the completion message; `CompletionMessageNamesMinutes` states what it says |
| `Clock.CompletionMessageNamesMinutes` | focus_tool.py:932 | read up to its first `-`, the message is the session's minute count |
| `Checklist.Added` | focus_tool.py:939-953 | empty-after-strip text leaves the list unchanged; otherwise exactly one incomplete task with the stripped text and the given timestamp is appended, and earlier tasks are untouched |
| `Checklist.Toggled` | focus_tool.py:955-969 | an in-range selection flips `completed` of that task only, keeping its text and timestamp; no selection or an out-of-range one changes nothing |
| `Checklist.ToggleTwice` | focus_tool.py:955-969 | completing the same selection twice restores the list |
| `Checklist.Deleted` | focus_tool.py:971-984 | an in-range selection `i` removes that task, so the list is one shorter and the others keep their order; otherwise nothing changes |
| `Checklist.DeleteRemovesOne` | focus_tool.py:978 | deletion loses exactly the selected task (multiset equation) |
| `Checklist.DeleteUndoesAdd` | focus_tool.py:939-984 | deleting the task just added restores the previous list |
| `Checklist.EditsKeepEntered` | focus_tool.py:939-984 | if every task has non-empty, stripped text, that stays true after add, complete and delete |
| `Checklist.DisplayLine` | focus_tool.py:999-1001 | a row is `✓ ` exactly for completed tasks and `□ ` exactly for open ones, followed by the text unchanged |
| `Checklist.DisplayLineInjective` | focus_tool.py:1000-1001 | two tasks show the same row exactly when they agree on text and completion |
| `WindowGeometry.Classify` | focus_tool.py:501-525 | no handle exactly when the pointer is near no border; a corner exactly when it is near a vertical and a horizontal border; the west and north sides win over east and south |
| `WindowGeometry.StartResize` | focus_tool.py:501-531 | a handle passed in is recorded as is; otherwise the classified handle is recorded, or nothing when the pointer is near no border; the pointer's screen position and the window size are recorded |
| `WindowGeometry.DraggedSize` | focus_tool.py:544-559 | a moved border follows the pointer but never goes below 400 wide or 600 high; width stays fixed for `n`/`s` and height for `e`/`w` |
| `WindowGeometry.OnResize` | focus_tool.py:535-563 | nothing happens before the first start of a resize; a geometry request is issued exactly when the dragged size differs from the starting size |
| `WindowGeometry.ResizeKeepsMinimum` | focus_tool.py:550-559 | a drag that starts at least 400×600 never asks for a smaller window |
| `WindowGeometry.ResizeAtStartIsNoOp` | focus_tool.py:561-563 | with the pointer back at the drag's start, no geometry request is issued |
| `WindowGeometry.MinimumSizeRequests` | focus_tool.py:801-805 | no correction exactly when the size is at least 400×600; a width below 400 first asks for `400 x height`, and a height below 600 finally asks for `width x 600`, using the width from the event; one request per dimension that is too small, no more |
| `WindowGeometry.CenteredPosition` | focus_tool.py:370-377 | the window is centred to within one pixel, and exactly when the screen and the window have the same parity; otherwise floor division rounds the position down |
| `WindowGeometry.ParseSize` | focus_tool.py:333-338 | a size is read only from text containing `x` |
| `WindowGeometry.ParseGeometry` | focus_tool.py:326-368 | nothing is saved unless the string has an `x`; without two `+` parts the current position is used |
| `WindowGeometry.FormatGeometry` | focus_tool.py:376 | `f'{width}x{height}+{x}+{y}'`; `GeometryRoundTrip` shows the save path reads it back |
| `WindowGeometry.FormatSize` | focus_tool.py:563 | `f"{width}x{height}"`; `SizeRoundTrip` shows the save path reads it back |
| `WindowGeometry.SplitSize` | focus_tool.py:337-338 | a written `WxH` splits on `x` into its two numbers |
| `WindowGeometry.GeometryRoundTrip` | focus_tool.py:333-346 | a geometry written as `WxH+X+Y` (lines 286 and 376) parses back to the same size and position |
| `WindowGeometry.SizeRoundTrip` | focus_tool.py:341-346 | a geometry written as `WxH` (lines 312 and 563) parses back to that size at the current position |
| `App.FocusTool.constructor` | focus_tool.py:288-291 | a new tool has a stopped 50-minute timer (3000 s) and the loaded tasks |
| `App.FocusTool.StartTimer` | focus_tool.py:810-819 | a running timer is left as it is; a stopped one starts and its loop is launched; no other field changes |
| `App.FocusTool.StopTimer` | focus_tool.py:821-825 | the timer stops and the seconds left are kept |
| `App.FocusTool.SetTimer` | focus_tool.py:827-833 | the timer stops, `time_remaining = m × 60` and `original_time_minutes = m`, and the session invariant holds (the label it then shows is stated by `Clock.RenderWholeMinutes`) |
| `App.FocusTool.ApplyCustomTimer` | focus_tool.py:885-899 | an accepted entry stops the timer and loads that many minutes, repeating `set_timer`'s assignments; a rejected entry leaves all three timer fields unchanged |
| `App.FocusTool.ResetTimer` | focus_tool.py:901-906 | the timer stops with 50 minutes loaded |
| `App.FocusTool.Tick` | focus_tool.py:910-917 | one pass removes one second and reports completion exactly when none is left |
| `App.FocusTool.TimerLoop` | focus_tool.py:908-918 | a running timer makes exactly as many passes as it had seconds and ends at zero; completion is posted exactly when it was running with time left; a stopped timer makes no pass |
| `App.FocusTool.TimerComplete` | focus_tool.py:925-937 | the timer stops, the message names the finished session's minutes, and a 50-minute session is loaded |
| `App.FocusTool.AddTask` | focus_tool.py:939-953 | the list becomes `Checklist.Added` of the old list; timer fields untouched |
| `App.FocusTool.CompleteTask` | focus_tool.py:955-969 | the list becomes `Checklist.Toggled` of the old list, and the result says whether the selection was in range |
| `App.FocusTool.DeleteTask` | focus_tool.py:971-984 | the list becomes `Checklist.Deleted` of the old list, and the result says whether the selection was in range |
| `App.FocusTool.ClearTasks` | focus_tool.py:986-994 | the list is emptied when the user confirms, and only then |
| `App.FocusTool.RefreshTaskList` | focus_tool.py:996-1004 | one row per task in order, each `Checklist.DisplayLine` of its task; the rows coloured green are exactly those of completed tasks |
| `App.FocusTool.StartResize` | focus_tool.py:501-531 | records the drag start `WindowGeometry.StartResize` gives, or keeps the previous record when the pointer is near no border |
| `App.FocusTool.OnResize` | focus_tool.py:535-563 | issues the request `WindowGeometry.OnResize` gives for the recorded drag; nothing before the first start |

`FocusTool.Valid()` is the timer's invariant: the seconds left never exceed the session's minutes
× 60. Every timer method keeps it.

## Left out

- The timer thread: `time.sleep`, `root.after` and the concurrent button presses it allows are
  not modelled. `TimerLoop` runs the loop body one pass after another with nobody stopping it.
  A Stop or a preset pressed during a sleep, or two loops started in quick succession, are not
  modelled.
- All Tk widget work is left out: building and styling widgets, enabling and disabling buttons,
  listbox insertion, the custom-timer dialog window, message boxes, the custom title bar and its
  dragging and expand/collapse, and creating the resize handles.
- The static hexagon background is left out. Its grid is cosmetic, and its drawing uses
  floating-point `cos` and `sin`.
- JSON file I/O is left out: `load_tasks`, `save_tasks`, `load_window_config` and the file write
  in `save_window_config`. The loaded task list is a constructor argument. `ParseGeometry`
  returns the values that would be written.
- `launch_app`, `browse_app` (subprocess and file dialog), logging and `main` are left out.
- `on_window_resize` is modelled only in its minimum-size corrections. Resizing the background
  canvas and the call to save the configuration are not modelled.
- run_focus_tool.py and run_focus_tool_debug.py are not part of this model. They are process
  launchers.
- `PyText.ParseInt` does not accept the non-ASCII Unicode decimal digits that Python's `int()`
  accepts. It does model the whitespace `int()` skips (ASCII whitespace and non-ASCII `isspace`
  characters, but not U+001C..U+001F), the sign and `_` separators.
- `PyText.ParseInt` and `PyText.IntToString` do not model the limit of 4300 decimal digits that
  Python 3.11 and later put on `int()` and `str()` by default. The limit depends on the interpreter
  version and settings, and no size, position or minute count the program handles comes near it.
- `App.FocusTool.SetTimer` takes a `nat`. Negative minute counts, which no caller passes, are not
  modelled: the presets pass 20, 50 and 120, and `apply_custom_timer` repeats `set_timer`'s
  assignments only for 1..1440.
- Task records are assumed to have the three fields. A `tasks.json` with other shapes is not
  modelled.
- `WindowGeometry.ParseSize`, `WindowGeometry.ParseGeometry`: their own contracts state only
  what a successful parse needs. What they read back is stated by `GeometryRoundTrip` and
  `SizeRoundTrip`, for the strings the program itself writes.
