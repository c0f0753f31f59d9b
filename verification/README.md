# A verified model of TabOS services

TabOS is a small operating environment in C. This project models twelve of its portable services in Dafny and
proves what they promise. Each service has a specification on values, lemmas about every input, run or reachable
state, and, where the C code updates structures and buffers in place, a class or methods that do the same and are
proved equal to the specification.

| service | files |
|---|---|
| Terminal: scrollback ring, escape parser, wrapping, reflow | TerminalSpec.dfy, TerminalReflow.dfy, TerminalCursor.dfy, TerminalBackspace.dfy, TerminalCommands.dfy, Terminal.dfy |
| Power manager: dependency order, suspend and resume protocol | PowerGraph.dfy, PowerFailure.dfy, PowerCycle.dfy, PowerTokens.dfy, PowerUpdates.dfy, PowerReasons.dfy, Power.dfy |
| Calendar | WallClock.dfy |
| Host I/O jobs: ownership between threads | HostIo.dfy, HostIoProgress.dfy |
| Raster fill and blit | Raster.dfy, RasterSampling.dfy |
| Camera streams and frame leases | CameraSpec.dfy, CameraRuns.dfy, CameraCallers.dfy, Camera.dfy |
| Touch contact tracking | TouchSpec.dfy, TouchRuns.dfy, TouchMatching.dfy, Touch.dfy |
| Wi-Fi configuration file | ConfigSpec.dfy, ConfigRoundTrip.dfy, ConfigUpdate.dfy, ConfigSaves.dfy, ConfigTexts.dfy, ConfigFile.dfy |
| Path normalisation | PathSpec.dfy, PathLaws.dfy, Path.dfy |
| Foreground process stack | ProcessSpec.dfy, ProcessRuns.dfy, ProcessExit.dfy, ProcessStatus.dfy, Process.dfy |
| Device registry and its event queues | DeviceSpec.dfy, DeviceRuns.dfy, DeviceCallers.dfy, DeviceRegistry.dfy |
| ELF loader | ElfSpec.dfy, Elf.dfy, ElfRelocation.dfy, ElfRelocate.dfy, ElfLoad.dfy, ElfWords.dfy, ElfAccepts.dfy, ElfNotes.dfy |

`dafny verify dfyconfig.toml` checks all of it.

## How to read it

- A *run* is a sequence of calls or of steps of threads; lemmas about runs hold for every such sequence. What the
  environment answers (callbacks of drivers, the controller's readings, memory and console being granted, the
  platform starting) is part of the sequence, so the lemmas hold whatever it answers.
- Histories (frames acquired, events published, statuses taken) are functions of the run, not part of the state.
- A method's contract equates the new state with the specification applied to the old one; the lemmas then speak
  of the specification.
- What a caller sees of a service is stated once more in its own terms, of bytes, pixels, fields and identifiers and
  not of the functions that compute them: TerminalCommands, PowerUpdates, PowerReasons, RasterSampling, CameraCallers,
  TouchMatching, ConfigTexts, PathLaws, ProcessStatus, DeviceCallers, ElfWords, ElfAccepts and ElfNotes.
- Generations, sequence numbers, process identifiers, tokens and line counters are unbounded; wrap-around of these
  counters is not part of any claim. Widths that matter are explicit: 16-bit colours, coordinates and escape
  parameters, 32-bit ELF fields and the size type of the note walk.

## Where the code does something a reader might not expect

- `ESC 8` can put the cursor on a line past the last one (graphics/terminal.c:206-215): TailCoversCursor says
  exactly when, RestoreOutrunsTail gives a case. All other invariants hold on that path too.
- docs/console.md:56 and docs/display.md:30 say that a resize preserves the cursor. The code leaves it at the end
  of the text: ResizeKeepsCursor says exactly when that is where it stood, ResizeMovesCursor gives a case where it
  is not.
- A Wi-Fi configuration written with a buffer larger than the parser accepts need not read back, nor need one with a
  line end in its settings; UpdateReadsBack gives the exact condition, LongFileIsLost and TwoLineNameIsLost a case
  each. The buffer of the save path is never that large.
- Every rewrite of the Wi-Fi configuration keeps the section header of the one before and adds its own, so the file
  grows by eight bytes each time (UpdatesGrow) until a save fails as too large; SameSettingsFillTheFile says which.
- An application that asks to exit and then launches a child that stays has the child ended in its place: UpdateEnds
  says exactly when an update ends the process it ran, ExitThenExecEndsTheChild gives a case.
- A path is refused when a directory on its way does not fit the buffer, even if a later `..` leaves it again:
  NormalizeSucceeds gives the exact condition, DetourIsRefused a case.
- The test of a relocation's target wraps for an image that ends below address 4 (AcceptedIsInside). PlanFitsExactly
  says what that means for a load, TinyFilePatchesOutside gives a file.
- Finalizing the power manager keeps the last failure, which may be a dependency cycle that is not there, or that the
  participant named is not on: FalseAlarm is the exact condition (Finalize, Alarm), FinalizeChainToNobody and
  CycleBesideAlarms a case each. The first failure of a sort is always true.
- A backspace at the start of a line takes the line end before it and the character before that. BackspaceUndoes says
  exactly when a backspace undoes what was written before it.

## Model

| member | source | states |
|---|---|---|
| Terminal.Terminal.constructor | graphics/terminal.c:352-399 | a terminal of an accepted geometry starts as the empty screen |
| Terminal.Terminal.StepLine | graphics/terminal.c:90-103 | the cursor moves to the next line; a full ring gives up its oldest line |
| Terminal.Terminal.AppendLine | graphics/terminal.c:90-103 | the ring after a line end or a wrap is the screen the value model computes |
| Terminal.Terminal.Ink | graphics/terminal.c:105-123 | one cell is written in the current pen and the line length covers it |
| Terminal.Terminal.PutCharacter | graphics/terminal.c:105-123 | a character is written and the cursor advances, wrapping at the last column into a soft line |
| Terminal.Terminal.TrimLine | graphics/terminal.c:125-132 | the line length becomes the shortest that keeps every non-NUL cell |
| Terminal.Terminal.Backspace | graphics/terminal.c:134-159 | erasing to the left, inside a line and over a line start, equals the value model |
| Terminal.Terminal.Tab | graphics/terminal.c:161-170 | spaces up to the next tab stop, wrapping as characters do |
| Terminal.Terminal.AnsiSgrAll | graphics/terminal.c:181-204 | the parameters of an m command change the pen one after the other |
| Terminal.Terminal.RestoreCursor | graphics/terminal.c:206-215 | the saved position, clamped to the live window and the columns, becomes the cursor |
| Terminal.Terminal.EraseLine | graphics/terminal.c:249-257 | erasing from the cursor or the whole line blanks exactly those cells and fixes the length |
| Terminal.Terminal.MoveCursor | graphics/terminal.c:229-246 | absolute and relative cursor commands, clamped to the live window |
| Terminal.Terminal.ExtendTail | graphics/terminal.c:268-270 | every line between the old tail and the cursor is taken in empty |
| Terminal.Terminal.AnsiCommand | graphics/terminal.c:217-271 | each control-sequence command equals its meaning on the value model |
| Terminal.Terminal.WriteBytes | graphics/terminal.c:514-609 | after any byte string the terminal holds the screen that feeding the bytes one by one gives, with the viewport at the live end |
| Terminal.Terminal.ScrollLines | graphics/terminal.c:647-666 | the viewport moves inside the retained history, and the result says whether it moved |
| Terminal.Terminal.Clear | graphics/terminal.c:467-484 | one empty line, the cursor at its start |
| Terminal.Terminal.Resize | graphics/terminal.c:418-465 | the in-place reflow equals the reflow of the token stream; a refused geometry or missing memory changes nothing |
| TerminalSpec.Feed | graphics/terminal.c:514-609 | from any valid screen every byte string keeps: column inside the line, first line <= live top <= cursor line < live top + rows, the retained lines inside the ring, cells past a line length blank, eight escape parameters of 16 bits |
| TerminalSpec.FeedSplit | graphics/terminal.c:514-609 | splitting a write anywhere, even inside an escape sequence, changes nothing |
| TerminalSpec.TailCoversCursor | graphics/terminal.c:206-215 | a byte keeps the cursor at or before the last line exactly when it is not an ESC 8 whose saved line, clamped to the live window, lies past it |
| TerminalSpec.RestoreOutrunsTail | graphics/terminal.c:541-546 | newline, ESC 7, backspace, ESC 8 put the cursor on a line past the last one |
| TerminalSpec.BackspaceToFirstLine | graphics/terminal.c:134-159 | a backspace at the start of the second line gives that line up |
| TerminalReflow.FeedTokensAppend | graphics/terminal.c:437-450 | pouring a text behind the end of a screen keeps a suffix of the joined text, all of it exactly when no line is evicted |
| TerminalReflow.ResizeKeepsText | graphics/terminal.c:418-465 | after a resize the text, its colours, reverse video and hard breaks are a suffix of the old text, and all of it exactly when its layout fits the new ring; the cursor is at its end |
| TerminalCursor.CursorDivides | graphics/terminal.c:418-465 | the text before the cursor and the text from it on are the retained text |
| TerminalCursor.ResizeKeepsCursor | graphics/terminal.c:418-465 | after a resize all text lies before the cursor; so it keeps its place in the text exactly when no text lay under it, behind it on its line or below |
| TerminalCursor.ResizeMovesCursor | graphics/terminal.c:418-465 | behind a letter and a carriage return the cursor stands before the letter, and any resize puts it behind |
| TerminalReflow.SameTextResizesAlike | graphics/terminal.c:437-450 | the text after a resize depends on nothing but the text before it |
| TerminalReflow.ResizeTwice | graphics/terminal.c:418-465 | a resize through an intermediate geometry that evicts nothing equals the direct one |
| TerminalReflow.PlainTextIsReflow | graphics/terminal.c:105-123 | writing plain text is the same as pouring it |
| TerminalReflow.WritingAppendsText | graphics/terminal.c:514-609 | plain text written at the end of the screen is appended to the retained text; only the oldest lines go |
| TerminalBackspace.BackspaceTakes | graphics/terminal.c:134-159 | behind the end of the text a backspace takes its last tokens and leaves every other: the last cell with the cells never written just before it, and at the start of a line the break before it as well |
| TerminalBackspace.BackspaceUndoes | graphics/terminal.c:90-158 | behind the end of the text a character or line end followed by a backspace gives the old text back exactly when no old line left a full ring, a line end is written at the start of a line, and a character not behind a gap |
| TerminalBackspace.BackspaceByteUndoes | graphics/terminal.c:514-609 | the same of the two bytes written to the terminal |
| TerminalCommands.SequenceRead | graphics/terminal.c:551-585 | from any screen outside a sequence, ESC, a bracket, one to eight decimal parameters of 16 bits with semicolons between them and a letter run that command with those numbers |
| TerminalCommands.CursorUp | graphics/terminal.c:234-236 | A goes up by the number, none or zero being one, as far as the top of the window |
| TerminalCommands.CursorDown | graphics/terminal.c:237-239 | B goes down likewise, as far as the bottom of the window; the text grows by empty lines as far as the cursor |
| TerminalCommands.CursorRight | graphics/terminal.c:240-242 | C goes right likewise, as far as the last column |
| TerminalCommands.CursorLeft | graphics/terminal.c:243-244 | D goes left likewise, as far as the first column |
| TerminalCommands.CursorColumn | graphics/terminal.c:245-246 | G goes to a column counted from one, as far as there are columns |
| TerminalCommands.CursorPosition | graphics/terminal.c:229-233 | H and f go to a row of the window and a column, in that order, both counted from one, as far as they reach |
| TerminalCommands.CursorRow | graphics/terminal.c:229-233 | with one parameter, or none, they go to the first column of that row, or of the first |
| TerminalCommands.ErasesLine | graphics/terminal.c:249-257 | K blanks exactly the cells of the line of the cursor from the cursor on, and with 2 all of them; no other line changes |
| TerminalCommands.ClearsScreen | graphics/terminal.c:247-248 | J with 2 leaves one empty line with the cursor at its start, and with any other number nothing happens |
| TerminalCommands.SavesCursor | graphics/terminal.c:262-264 | s keeps where the cursor stands |
| TerminalCommands.RestoresCursor | graphics/terminal.c:206-215 | u goes back there, as far as it lies in the window and the columns |
| TerminalCommands.EscapeSaves | graphics/terminal.c:541-543 | ESC 7 keeps where the cursor stands |
| TerminalCommands.EscapeRestores | graphics/terminal.c:544-546 | ESC 8 goes back there, and the text does not grow as far as the cursor |
| TerminalCommands.ShowsCursor | graphics/terminal.c:223-228 | CSI ? 25 h shows the cursor and CSI ? 25 l hides it |
| TerminalCommands.ChangesPen | graphics/terminal.c:172-204 | m changes foreground, background and reverse video code by code, with the colour of each code written out, and nothing else |
| TerminalCommands.UnknownCommand | graphics/terminal.c:217-271 | a command there is none of does nothing |
| TerminalCommands.Overflows | graphics/terminal.c:552-561 | a sequence with a number above 16 bits does nothing |
| TerminalCommands.SpoiledBy | graphics/terminal.c:551-581 | inside a sequence an odd byte, a late question mark and a ninth parameter spoil it |
| TerminalCommands.SpoiledDoesNothing | graphics/terminal.c:577-589 | a spoiled sequence goes on to its letter and does nothing |
| TerminalCommands.PrivateIgnored | graphics/terminal.c:223-228 | a private sequence that is neither of the two does nothing |
| TerminalCommands.OtherEscape | graphics/terminal.c:525-550 | ESC before any other byte is forgotten with it, and NUL is nothing anywhere |
| TerminalCommands.ReturnGoesBack | graphics/terminal.c:597-598 | a carriage return goes to the start of the line |
| TerminalCommands.TabGoesOn | graphics/terminal.c:161-170 | a tab goes to the next column that is a multiple of four, over spaces in the colours of the pen |
| TerminalCommands.ScrollsWithin | graphics/terminal.c:647-666 | the view moves by that many lines, as far as there are retained lines and no further than the live window |
| TerminalCommands.ResizeKeepsView | graphics/terminal.c:428-458 | a resize keeps the view as far from the live end as it was or as there is history, and the colours; a kept position and a sequence half read are forgotten |
| Power.PowerManager.constructor | kernel/power.c:121-139 | a fresh manager has no participants and may suspend |
| Power.PowerManager.Find | kernel/power.c:13-21 | the index of the participant of a name, or the capacity |
| Power.PowerManager.Register | kernel/power.c:141-179 | accepted exactly when the manager is open and has room, the name is new and every name is usable; a refusal makes suspend unavailable and records why |
| Power.PowerManager.Visit | kernel/power.c:181-205 | the depth-first visit appends each participant after all its dependencies, and terminates on the number of unmarked participants; a failed visit records an unmet dependency or a participant, and before any failure what it records is true |
| Power.PowerManager.SortAll | kernel/power.c:212-217 | sorting all participants makes suspend unavailable exactly when a visit fails; the failure of the first failed visit is true of the participants |
| Power.PowerManager.Finalize | kernel/power.c:207-221 | true exactly when no registration failed, every dependency exists and the graph is acyclic; then the order is a permutation with each participant after its dependencies; otherwise the first failure recorded is true, and the last, which stays, is that of the last troubled participant and is true exactly when there is no false alarm |
| PowerFailure.Alarm | kernel/power.c:181-221 | for all graphs the last failure is true exactly when the last participant that leads to an unmet name or a cycle is on a cycle itself, if an earlier search ended at it, and else its first trouble is unmet or on a cycle |
| PowerFailure.ResolvedAlarmsAtCycles | kernel/power.c:181-221 | when every dependency is registered a false alarm still means that there is a cycle |
| PowerFailure.CycleBesideAlarms | kernel/power.c:181-221 | A naming itself, B naming A and C naming B: the last failure is a dependency cycle at B, which is on none |
| PowerFailure.TruthfulMeans | kernel/power.c:186-197 | a true failure names a cycle the graph has or a dependency that nobody is |
| PowerFailure.ChainToNobodyAlarms | kernel/power.c:181-221 | B naming A, and A naming nobody, is a false alarm |
| Power.FinalizeChainToNobody | kernel/power.c:207-221 | a manager with these two, finalized, reports a dependency cycle that is not there |
| Power.PowerManager.RestingIsValid | kernel/power.c:207-221 | a finalized manager that has not begun a cycle is ready for the protocol |
| Power.PowerManager.Complete | kernel/power.c:307-320 | a completion is stored exactly when it carries the awaited token and is the first |
| Power.PowerManager.Rollback | kernel/power.c:343-350 | the resumes start from what is suspended |
| Power.PowerManager.Finish | kernel/power.c:372-382 | the cycle ends: nothing is suspended and the state is ACTIVE again |
| Power.PowerManager.Step | kernel/power.c:388-468 | one turn of the driver loop equals one step of the protocol |
| Power.PowerManager.Drive | kernel/power.c:384-469 | the loop equals the protocol run to its end, and never uses up its budget |
| Power.PowerManager.Start | kernel/power.c:471-508 | a cycle begins unless a failed registration, an inhibitor or a blocker forbids it |
| Power.PowerManager.Update | kernel/power.c:510-563 | an update equals the protocol update: requests, idle policy, wake-up, and one drive |
| Power.PowerManager.Act | kernel/power.c:232-320 | requests, completions, policy changes and shutdown keep the protocol |
| PowerCycle.RunKeeps | kernel/power.c:384-562 | the protocol invariant holds after any sequence of requests, completions, policy changes, updates and a shutdown, whatever the callbacks answer |
| PowerCycle.EveryCycleBalances | kernel/power.c:384-469 | over every run each finished cycle resumed exactly what it suspended, and while the manager is ACTIVE or IDLE nothing is suspended |
| PowerCycle.CycleResumesWhatItSuspended | kernel/power.c:384-469 | a whole cycle suspends a prefix of the reverse dependency order, enters sleep only with all suspended, and resumes the suspended ones once each in exact reverse order |
| PowerCycle.DriveReturns | kernel/power.c:386-468 | with the budget of 2*capacity+8 turns the loop always returns by itself, in NONE, SLEEP, WAIT_SUSPEND or WAIT_RESUME |
| PowerCycle.BudgetSuffices | kernel/power.c:386-388 | the budget suffices from every reachable state |
| PowerCycle.StaleTokenIgnored | kernel/power.c:307-320 | while a completion is awaited, any number of completions with other tokens change nothing, neither now nor in a drive that follows |
| PowerCycle.FirstCompletionDecides | kernel/power.c:307-320 | of any completions the first that carries the awaited token decides, and only when none has come in |
| PowerCycle.LateTokenForgotten | kernel/power.c:351-469 | outside the waiting phases completions never show in what a whole drive does |
| PowerTokens.TokensGoOnce | kernel/power.c:384-469 | over every run no token is handed out twice |
| PowerTokens.LearnedFromItsToken | kernel/power.c:307-320 | over every run, what the driver learns by waiting it learns from the first completion that came in with exactly the token of the callback it waits for, after that token was handed out |
| PowerTokens.TraceIsTheLogs | kernel/power.c:384-469 | these traces hold the callbacks and outcomes of the cycles' logs, in order |
| PowerGraph.OrderResolves | kernel/power.c:181-221 | a topological order exists only when every dependency exists |
| PowerGraph.OrderIsAcyclic | kernel/power.c:181-221 | and only when the graph is acyclic |
| PowerGraph.DependencyPrecedes | kernel/power.c:181-205 | in the order every participant stands after its dependencies, however far |
| PowerGraph.DependentsGoFirst | kernel/power.c:384-469 | in every whole cycle a participant is suspended before what it depends on and resumed after it |
| PowerUpdates.WakesExactly | kernel/power.c:541-556 | an update of a sleeping system resumes and notes the wake exactly when there is a power event with a cause to wake; otherwise its state, phase, log and finished cycles stay |
| PowerUpdates.BeginsExactly | kernel/power.c:471-562 | an update of a system that is up begins a cycle exactly when one is asked for, by a request or by the deadlines, and it is available, not inhibited and not blocked; otherwise it stays up |
| PowerUpdates.BeginsNothing | kernel/power.c:557-561 | in every other state no update begins a cycle |
| PowerUpdates.BeginsWith | kernel/power.c:471-508 | a cycle that begins calls the last participant of the order first, and prepares the platform when there is none |
| PowerUpdates.CallsTell | kernel/power.c:232-320 | a request waits for the next update; going idle or active, and inhibitors, count at once in a system that is up; a shutdown ends the cycle |
| PowerReasons.FailureWhenUp | kernel/power.c:471-508 | an update of a system that is up leaves the failure alone without a request; a refused request leaves a failed registration or what blocks it; and a cycle begun leaves the last failure it tells |
| PowerReasons.FailureInCycle | kernel/power.c:384-562 | an update during a cycle leaves the last failure the cycle tells in it, of a callback, the preparation, the sleep or the restoring, or else that of a request out of turn, or the one before |
| WallClock.DaysFromCivilCounts | time/wall_clock.c:19-31 | the closed formula counts days: whole years since 1970, whole months, and days |
| WallClock.NextDayIsOneMore | time/wall_clock.c:19-31 | the next calendar day is one day later |
| WallClock.CivilFromDaysInverts | time/wall_clock.c:53-86 | the date decoded from a day count is a valid date with that day count |
| WallClock.CivilFromDaysOf | time/wall_clock.c:53-86 | decoding the day count of a date gives the date back |
| WallClock.YearRange | time/wall_clock.c:43-61 | a date lies in 1970..9999 exactly when its day lies in the epoch range |
| WallClock.DateTimeRoundTrip | time/wall_clock.c:33-86 | every valid date and time survives the trip through epoch seconds; the weekday comes back as the day count says |
| WallClock.EpochRoundTrip | time/wall_clock.c:53-86 | exactly the seconds of 1970..9999 decode, to a valid date that encodes back to them |
| WallClock.EncodingIsInjective | time/wall_clock.c:43-51 | different dates and times have different epoch seconds |
| WallClock.ClockTicks | time/wall_clock.c:53-86 | each second of the epoch range the decoded date, time and weekday go on as a clock does |
| WallClock.ClockStarts | time/wall_clock.c:53-86 | they start on Thursday the first of January 1970 at midnight |
| HostIo.RunKeeps | platform/posix/host_io.c:24-141 | ownership of every job is kept under any interleaving of owners and workers |
| HostIo.JobsAreSafe | platform/posix/host_io.c:24-141 | no freed job is touched; a job is disposed at most once, with delivered true exactly if its result was copied back, and freed only after; at most 16 jobs are alive |
| HostIo.NothingLeaks | platform/posix/host_io.c:24-92 | when all is quiet every job ever created has been disposed once and freed, and its place given back |
| HostIoProgress.JobCanMove | platform/posix/host_io.c:35-141 | every job whose place is not given back has a thread, its worker or the owner holding it, that can take a step for it |
| HostIoProgress.StepsRunOut | platform/posix/host_io.c:35-141 | without new calls only a bounded number of steps change anything, under any interleaving |
| HostIoProgress.RestMeansDone | platform/posix/host_io.c:35-141 | a run with no step left but new calls has disposed of and freed every job exactly once and given every place back |
| HostIoProgress.EveryJobEnds | platform/posix/host_io.c:35-141 | from every reachable state a run without new calls, of no more moves than remain, brings every job to its end |
| Raster.MixWithin | graphics/raster.c:71-80 | a mixed channel lies between the two it mixes |
| Raster.BlendChannels | graphics/raster.c:71-80 | blending mixes each of the three channels by itself |
| Raster.BlendEnds | graphics/raster.c:71-80 | an opaque source replaces the destination, a transparent one leaves it |
| Raster.SourceOffset | graphics/raster.c:144-193 | for all rotations, mirrors and scales every sample lies inside the source rectangle |
| Raster.HalfTurnIsTwoMirrors | graphics/raster.c:175-191 | turning by 180 degrees is mirroring both ways |
| Raster.ThreeQuartersIsQuarterAndMirrors | graphics/raster.c:175-191 | turning by 270 degrees is turning by 90 and mirroring both ways |
| Raster.UnscaledDrawsOnce | graphics/raster.c:169-193 | without scaling no source pixel is drawn twice |
| Raster.UnscaledDrawsAll | graphics/raster.c:169-193 | without scaling every source pixel is drawn |
| Raster.SpanIsBlit | graphics/raster.c:97-140 | the clipped span of an unrotated, unmirrored, unscaled, opaque blit is what the per-pixel definition draws in that row, with or without colour key |
| Raster.SkipHidden | graphics/raster.c:131-133 | the end of a run the colour key hides |
| Raster.SkipVisible | graphics/raster.c:134-137 | the end of a run the colour key lets through |
| Raster.Framebuffer.FillSpan | graphics/raster.c:7-18 | exactly the span takes the colour |
| Raster.Framebuffer.CopySpan | graphics/raster.c:20-33 | exactly the span takes the source pixels |
| Raster.Framebuffer.Fill | graphics/raster.c:35-60 | every visible pixel inside the rectangle and no other takes the colour; padding and memory behind stay |
| Raster.Framebuffer.CopyRuns | graphics/raster.c:129-139 | copying the visible runs writes exactly the pixels the key does not hide |
| Raster.Framebuffer.SpanRow | graphics/raster.c:97-140 | one clipped row of the span path equals the per-pixel definition |
| Raster.Framebuffer.BlitSpans | graphics/raster.c:94-142 | the span path equals the per-pixel definition on every row |
| Raster.Framebuffer.PaintRow | graphics/raster.c:169-202 | the inner loop, clipped beforehand, equals the per-pixel definition of its row |
| Raster.Framebuffer.BlitGeneral | graphics/raster.c:144-203 | the pre-clipped general path writes the same pixels as testing every framebuffer pixel against the destination |
| Raster.Framebuffer.Blit | graphics/raster.c:82-204 | refused exactly on unusable options, changing nothing; otherwise both paths draw what the per-pixel definition draws |
| RasterSampling.PixelDrawn | graphics/raster.c:169-202 | every destination pixel inside the framebuffer is drawn from the source pixel that its place falls in, whatever the scale, the rotation and the mirrors |
| RasterSampling.PixelLands | graphics/raster.c:175-186 | without scaling source pixel (sx, sy) lands at (sy, w-1-sx) turned by 90 degrees, at (w-1-sx, h-1-sy) by 180 and at (h-1-sy, sx) by 270 |
| RasterSampling.MirrorLands | graphics/raster.c:187-192 | one mirror alone draws the columns, the other the rows, in the other order |
| RasterSampling.OthersStay | graphics/raster.c:156-203 | every pixel outside the destination stays |
| RasterSampling.RefusedExactly | graphics/raster.c:84-93 | a blit is refused exactly when a rectangle is empty, the source is not inside the bitmap or the rotation is none of the four |
| RasterSampling.KeyIsRange | graphics/raster.c:62-69 | the key hides exactly the colours whose three channels lie in its three ranges |
| RasterSampling.BlendIsNearest | graphics/raster.c:71-80 | blending gives, channel by channel, the integer nearest to the mean weighted by opacity |
| RasterSampling.FilledExactly | graphics/raster.c:35-60 | a pixel takes the colour exactly when it is visible and inside the rectangle |
| Camera.FindFree | camera/camera.c:434-440 | the first slot neither leased nor ready |
| Camera.FindOldest | camera/camera.c:297-307 | the eligible slot of lowest sequence number |
| Camera.CameraService.constructor | camera/camera.c:113-133 | no stream is open |
| Camera.CameraService.BeginOpen | camera/camera.c:204-253 | the checks and the new stream up to the platform start |
| Camera.CameraService.FinishOpen | camera/camera.c:254-262 | the handle is given out, or the stream is freed again when the platform does not start |
| Camera.CameraService.Find | camera/camera.c:83-93 | a handle is accepted exactly for its owner, its slot and its generation |
| Camera.CameraService.BeginClose | camera/camera.c:268-277 | the stream is hung up while the platform stops |
| Camera.CameraService.FinishClose | camera/camera.c:278-284 | the stream is freed, its generation kept |
| Camera.CameraService.BeginCloseOwner | camera/camera.c:397-414 | one owned stream is hung up while the platform stops |
| Camera.CameraService.Acquire | camera/camera.c:286-321 | the oldest ready frame is leased, or the error tells why there is none |
| Camera.CameraService.Copy | camera/camera.c:323-347 | the bytes of an active lease from an offset, cut to the capacity |
| Camera.CameraService.Release | camera/camera.c:349-365 | an active lease ends |
| Camera.CameraService.Poll | camera/camera.c:367-395 | of the events asked for: readable exactly when an acquire would hand out a frame, error when faulted, hangup when hung up; refused exactly for a handle that is not the owner's |
| Camera.CameraService.OfferTo | camera/camera.c:425-479 | what one stream does with a submission: store, replace the oldest, drop or fault |
| Camera.CameraService.Submit | camera/camera.c:416-485 | a submission is offered to every stream |
| Camera.CameraService.Fault | camera/camera.c:487-496 | every open stream faults |
| Camera.CameraService.Unplug | camera/camera.c:498-514 | every open stream hangs up |
| Camera.CameraService.HasRoom | camera/camera.c:50-70 | whether the first capturing stream has room for a frame |
| CameraSpec.ReadyMeansNoFault | camera/camera.c:51-71 | a worker that asked first does not fault an H.264 stream with a frame that fits |
| CameraRuns.OfferCases | camera/camera.c:434-479 | a submission a stream listens to ends in exactly one of four ways |
| CameraRuns.RunKeeps | camera/camera.c:193-546 | the slot, order, content, lease and counting invariants hold of every handle after every run |
| CameraRuns.AcquiredInOrder | camera/camera.c:286-485 | acquired sequence numbers strictly increase, without a gap on an H.264 stream, and each frame describes the submission of its number |
| CameraRuns.NothingLost | camera/camera.c:416-485 | on an unfaulted stream matching submissions = frames acquired + frames ready + drops; an H.264 stream never drops |
| CameraRuns.ReadyOrLeased | camera/camera.c:286-320 | a slot is never both ready and leased |
| CameraRuns.LeaseAccepted | camera/camera.c:83-111 | a lease is accepted exactly when it was handed out, not taken back, and its stream is still open for its owner |
| CameraRuns.RefusedForever | camera/camera.c:83-111 | a released lease, or any lease of a closed handle, is refused ever after |
| CameraRuns.ClosedForever | camera/camera.c:83-92 | a handle that is closed is never accepted again |
| CameraRuns.CopiesAreTheFrame | camera/camera.c:323-347 | a copy reads the bytes submitted under the frame's sequence number |
| CameraRuns.LeaseBytesStay | camera/camera.c:286-365 | the bytes readable through a lease never change while it lasts |
| CameraRuns.OneStream | camera/camera.c:223-265 | at most one stream is open, and an open never finds the table full |
| CameraCallers.PiecesAreTheFrame | camera/camera.c:323-347 | an application that copies a frame in pieces, each from where the one before ended, and whatever happens in between, joins them to exactly the bytes submitted |
| CameraCallers.OpenBegins | camera/camera.c:193-253 | in every reachable state an open begins exactly when the camera is there, the mode is offered, memory is there and no stream is open, and otherwise says which was missing first |
| CameraCallers.OpenEnds | camera/camera.c:254-265 | an open ends with a handle its owner holds, or with the stream free again when the platform does not start |
| CameraCallers.CloseBegins | camera/camera.c:268-277 | a close begins exactly for the owner of the handle: the stream hangs up and every other stays |
| CameraCallers.CloseEnds | camera/camera.c:278-284 | it ends with the stream free |
| CameraCallers.CapturesExactly | camera/camera.c:50-70 | the worker captures exactly when the first capturing stream takes raw frames or has a free slot |
| CameraCallers.SubmitTouches | camera/camera.c:416-433 | a submission changes a stream exactly when it is open, neither faulted nor hung up, and the frame is one for it |
| CameraCallers.SubmitWhenFree | camera/camera.c:434-479 | the first free slot takes the frame, every field as submitted under the next number; one too large for it faults the stream instead |
| CameraCallers.SubmitWhenFull | camera/camera.c:434-479 | without a free slot the frame replaces the one captured first of those not leased, or is dropped, counted; an H.264 stream faults instead |
| CameraCallers.AcquireTells | camera/camera.c:297-320 | an acquire gives the frame captured first of those ready, with the drops so far, or says: faulted, else unplugged, else try again |
| CameraCallers.FrameTellsDrops | camera/camera.c:309-318 | on an unfaulted stream a frame says how many of the matching submissions before it are neither handed out nor waiting |
| Touch.TouchTracker.constructor | platform/esp32p4/touch_interrupt.c:64-69 | no contact is active |
| Touch.TouchTracker.FindNearest | platform/esp32p4/touch_interrupt.c:12-25 | the nearest unmatched active contact, the first of equals |
| Touch.TouchTracker.MatchPoints | platform/esp32p4/touch_interrupt.c:9-37 | points are matched greedily and matched contacts move |
| Touch.TouchTracker.EndContacts | platform/esp32p4/touch_interrupt.c:38-44 | unmatched contacts end, one event each |
| Touch.TouchTracker.PlacePoints | platform/esp32p4/touch_interrupt.c:45-61 | unmatched points take the first inactive contacts |
| Touch.TouchTracker.ReconcilePoints | platform/esp32p4/touch_interrupt.c:6-62 | the contacts and events of a report equal the value model |
| Touch.TouchTracker.CancelContacts | platform/esp32p4/touch_interrupt.c:97-110 | every active contact is cancelled |
| Touch.TouchTracker.DrainInterrupt | platform/esp32p4/touch_interrupt.c:71-95 | the bounded loop equals draining the readings; no passes at all changes nothing |
| TouchRuns.ReportIsHeld | platform/esp32p4/touch_interrupt.c:6-62 | after a report of at most as many points as contacts the multiset of active positions equals the reported points |
| TouchRuns.NeverUpAndDown | platform/esp32p4/touch_interrupt.c:6-62 | one report never emits both an UP and a DOWN, and never a CANCEL |
| TouchRuns.UnmatchedMeansExhausted | platform/esp32p4/touch_interrupt.c:9-37 | a point stays unmatched only when every active contact is taken |
| TouchRuns.ReconcileReplays | platform/esp32p4/touch_interrupt.c:6-62 | replaying the events of a report on the old contacts gives the new ones |
| TouchRuns.SameReportIsSilent | platform/esp32p4/touch_interrupt.c:6-62 | a report of what the contacts hold, in any order, changes nothing and emits nothing |
| TouchRuns.EveryTouchIsWhole | platform/esp32p4/touch_interrupt.c:6-105 | over any run each contact's events form DOWN, MOVE*, then UP or CANCEL, the last one unfinished exactly while the contact is active |
| TouchRuns.DrainEnds | platform/esp32p4/touch_interrupt.c:71-95 | a drain ends with its first reading that fails or leaves the line quiet, or with the last; a failure leaves no contact active, otherwise the contacts are where that reading says |
| TouchMatching.PointsGoToNearest | platform/esp32p4/touch_interrupt.c:9-37 | the points of a report in order each go to the active contact nearest by the square of the distance, of those not taken, the first of equals; each such contact ends up at its point |
| ConfigFile.TrimInPlace | net/config.c:15-26 | the C string left in the buffer is the trimmed text |
| ConfigFile.ParseQuoted | net/config.c:28-56 | the unquoted value, or a refusal |
| ConfigFile.ReadLineInPlace | net/config.c:116-156 | what one line does to the settings read so far, cut up in the buffer |
| ConfigFile.ParseConfig | net/config.c:86-163 | parsing in a buffer equals reading the text line by line |
| ConfigFile.AppendBytes | net/config.c:212-220 | all of the bytes are appended or none |
| ConfigFile.AppendQuoted | net/config.c:222-236 | the quoted value and its line end are appended, exactly when they fit |
| ConfigFile.IsOwnedLine | net/config.c:238-258 | whether a line holds a setting the update replaces |
| ConfigFile.TrackSection | net/config.c:283-294 | the section after a line |
| ConfigFile.AppendKept | net/config.c:271-300 | the version line and every line not owned, in order |
| ConfigFile.Update | net/config.c:260-322 | on success the output is the rewritten file and its terminator; the errors are exactly unusable settings and a full buffer |
| ConfigFile.CarriageReturn | net/config.c:112-116 | taking a carriage return off first changes nothing about the trimmed line |
| ConfigRoundTrip.QuoteInverse | net/config.c:28-57 | a value unquotes to s exactly when it is the quoted form of s and s fits the buffer |
| ConfigRoundTrip.ReadKept | net/config.c:277-300 | reading the lines an update keeps succeeds exactly when each of them can be read, and only moves the section |
| ConfigRoundTrip.ReadableIsFine | net/config.c:103-157 | a file that reads holds only lines that can be kept |
| ConfigUpdate.CutText | net/config.c:28-57 | a quoted value that holds a line end cannot be read back |
| ConfigUpdate.UpdateReadsBack | net/config.c:260-322 | an updated file reads back as the settings given (name or the default) exactly when it is at most 4096 bytes, ssid and password hold no line end and every kept line can be read |
| ConfigUpdate.UpdateOfReadable | net/config.c:260-322 | for an old file that is empty or reads, and settings of one line: exactly when the new file is at most 4096 bytes |
| ConfigUpdate.SavedFileReadsBack | net/config.c:359-374 | with the buffer of the save path the new file always reads back |
| ConfigUpdate.UnownedLinesSurvive | net/config.c:271-303 | every unowned line survives in order, byte for byte; an update adds at most a line end, a blank line and the section header |
| ConfigSaves.UpdatesGrow | net/config.c:271-315 | each further update of a file makes it eight bytes longer: rewriting is not idempotent |
| ConfigSaves.SavedIs | net/config.c:271-315 | after any number of updates the file is the kept head, one blank line and section header for each earlier update, and the newest settings |
| ConfigSaves.SavedGrows | net/config.c:260-322 | the n-th update succeeds exactly when those before did, left a readable size, and eight bytes for each of them still fit |
| ConfigSaves.SameSettingsFillTheFile | net/config.c:359-374 | saving the same settings again and again: which save first fails, and that it fails as too large |
| ConfigSaves.TwoLineNameIsLost | net/config.c:260-322 | a network name of two lines is written but does not read back |
| ConfigSaves.LongFileIsLost | net/config.c:260-322 | a file filled by a comment is rewritten with any settings in a buffer large enough, and is then too long to read |
| ConfigTexts.UpdateWrites | net/config.c:260-322 | for every file of settings, headers and remarks, with any blanks, an update writes exactly the version line, the lines that are not the four wifi settings in the wifi section or the version outside it, and the new settings, each with its key; or it says that the settings or the old file are unusable, or the buffer too small |
| ConfigTexts.UnendedWrites | net/config.c:271-303 | a last line without its end is treated like one with it |
| ConfigTexts.QuotedSettingRead | net/config.c:129-153 | a quoted setting of the wifi section sets what its key says to what its value says, within its length, whatever blanks are around it |
| ConfigTexts.AcceptedIsQuoted | net/config.c:28-56 | a value of those settings is accepted only in quotes, with a backslash before quotes and backslashes and nowhere else |
| ConfigTexts.PlainSettingRead | net/config.c:136-156 | the version is 1 and outside the wifi section, the flag true or false and inside it; settings that are not known are passed over |
| ConfigTexts.HeaderRead | net/config.c:120-128 | a header opens or leaves the wifi section by its name |
| ConfigTexts.RemarkRead | net/config.c:112-132 | blank lines and comments are passed over, other lines that are neither setting nor header refused |
| ConfigTexts.DefaultsRead | net/config.c:86-163 | a file with nothing but the version and a network gives no password, the name of the system and connecting by itself |
| ConfigTexts.TooLongIsSaid | net/config.c:86-163 | a file of more than 4096 bytes is refused as too large, and no other |
| Path.AppendComponent | fs/path.c:7-24 | a name is appended exactly when it is short enough and fits |
| Path.RemoveComponent | fs/path.c:26-38 | the last name goes, and at the root nothing does |
| Path.ConsumePath | fs/path.c:40-67 | the buffer after a path holds the walk of its components, and failure is the walk's |
| Path.NormalizePath | fs/path.c:69-93 | success and output equal the fold of the components onto a stack |
| PathSpec.NormalizeMeans | fs/path.c:40-93 | a successful normalisation renders the fold: . ignored, .. pops and stops at the root |
| PathSpec.NormalizeCanonical | fs/path.c:40-93 | the output has an upper-case drive, single separators, no . or .., no trailing slash, and fits the buffer |
| PathSpec.NormalizeIdempotent | fs/path.c:68-93 | normalising the output again, from any directory and into any buffer it fits, returns it unchanged |
| PathSpec.RelativeIsAppended | fs/path.c:89-92 | a relative path names what it names behind its working directory |
| PathSpec.WalkSucceeds | fs/path.c:9-66 | a walk succeeds exactly when every name is short enough and every directory passed through fits the buffer, even one that .. leaves again |
| PathSpec.NormalizeSucceeds | fs/path.c:68-93 | so a path is normalised exactly when it is well formed and every name and directory along the way fits |
| PathSpec.DetourIsRefused | fs/path.c:9-66 | entering a directory that the buffer has no room for and leaving it again is refused, although the root that is named fits |
| PathSpec.ShortDetour | fs/path.c:9-66 | for one, /a/.. in a buffer of four bytes |
| PathSpec.SplitJoin | fs/path.c:40-66 | splitting undoes joining |
| PathLaws.NameEnters | fs/path.c:9-66 | a name behind a path is entered, exactly when it is short enough and its path fits the buffer: the output is that of the path, a slash unless at a root, and the name |
| PathLaws.DotDotLeaves | fs/path.c:40-66 | two dots behind a path leave its last name, and at a root nothing |
| PathLaws.DotStays | fs/path.c:40-66 | a dot behind a path changes nothing |
| PathLaws.RootsAre | fs/path.c:68-93 | a drive in either case names its upper-case root, and a slash alone the root of the working directory |
| PathLaws.AbsoluteIsOnDrive | fs/path.c:68-93 | a path from the root is one on the drive of the working directory |
| ProcessTable.ProcessManager.constructor | process/process.c:150-161 | an empty table |
| ProcessTable.ProcessManager.FindProcess | process/process.c:58-66 | the slot of a process, or none |
| ProcessTable.ProcessManager.AskExit | process/process.c:437-447 | only the process in front can ask to exit |
| ProcessTable.ProcessManager.FailProcess | process/process.c:449-459 | only the process in front fails, with its cause |
| ProcessTable.ProcessManager.Force | process/process.c:461-469 | only the process in front can be terminated |
| ProcessTable.ProcessManager.TakeStatus | process/process.c:417-425 | a status is there for one taking |
| ProcessTable.ProcessManager.PanicRoot | process/process.c:44-56 | process 0 is panicked and its status recorded |
| ProcessTable.ProcessManager.AcquireConsole | process/process.c:102-112 | the console is given to a process that wants it, or denied |
| ProcessTable.ProcessManager.FinishChild | process/process.c:122-148 | the child is gone, its parent in front with the status and, if granted, the console |
| ProcessTable.ProcessManager.LaunchRootProcess | process/process.c:215-279 | process 0 starts only in an empty foreground; a failed entry leaves the table empty |
| ProcessTable.ProcessManager.LaunchChildProcess | process/process.c:315-370 | a child is pushed by the running process in front; a failed or finished entry pops it again |
| ProcessTable.ProcessManager.UpdateForeground | process/process.c:163-180 | an update runs the process in front and then ends whatever is in front when the updated process asked to exit |
| ProcessTable.ProcessManager.ShutDownAll | process/process.c:202-213 | every process is destroyed |
| ProcessRuns.RunKeeps | process/process.c:122-370 | the table is the stack, and pending statuses are what children left, in every reachable state |
| ProcessRuns.StackIsTable | process/process.c:122-370 | in every reachable state with a foreground process: process 0 at the bottom, each parent the process below, all but the one in front blocked, only that one may have the console |
| ProcessRuns.PlaceHasSlot | process/process.c:122-370 | each place on the stack has exactly one occupied slot |
| ProcessRuns.NobodyMeansEmpty | process/process.c:122-370 | without a foreground process the table is empty |
| ProcessRuns.TakenIsAChilds | process/process.c:122-147 | a status taken is that of an ended child of the taker, not taken since |
| ProcessRuns.TakenOnce | process/process.c:417-425 | no child's end is taken twice |
| ProcessTable.ProcessManager.DestroyProcess | process/process.c:78-100 | the slot of the process is empty |
| ProcessExit.UpdateEnds | process/process.c:163-180 | in every reachable state an update ends the updated process exactly when it asked to exit and no child it launched stayed in front; if one stayed it is ended in its place; both are read off the calls of the update |
| ProcessExit.LaunchEither | process/process.c:315-370 | a launched child is over at once exactly when it is denied the console it wants, does not start, or asks to exit while it enters |
| ProcessExit.ExitThenExecEndsTheChild | process/process.c:163-180 | a root process that asks to exit and launches a child has the child ended in its place |
| ProcessStatus.ChildReports | process/process.c:122-147 | a child whose calls ask for its end leaves its parent, in front again, the status of the last call that asked |
| ProcessStatus.RootPanics | process/process.c:44-56 | process 0 panics with the status of its last call that asked and the cause: a failure or termination over a request |
| ProcessStatus.LaunchAnswers | process/process.c:315-370 | a launch is busy exactly when its process is not in front or not running, has failed when there is no room, no console or no start, and else succeeded |
| ProcessStatus.LaunchReports | process/process.c:315-370 | a child that is over at once leaves -1 when it has no console or does not start, and else the status it asked with |
| ProcessStatus.ConsoleGoesUp | process/process.c:315-370 | a child that stays has the console exactly when it wants it, and the process that launched it no longer |
| ProcessStatus.ConsoleComesBack | process/process.c:122-148 | its parent has it again exactly when it wants it and is given it; otherwise it is made to exit with -1, or, being process 0, panics with -1 |
| ProcessStatus.RootAnswers | process/process.c:215-279 | process 0 starts exactly when nobody is in front, the console is there if wanted and its entry says so; a failed start leaves an empty table, and -1 from its entry on |
| DeviceRegistry.Registry.constructor | kernel/device_registry.c:154-172 | an empty registry |
| DeviceRegistry.Registry.PublishEvent | kernel/device_registry.c:46-63 | the event is queued for every subscriber, pushing the oldest out of a full ring |
| DeviceRegistry.Registry.FindActive | kernel/device_registry.c:135-142 | an identifier is accepted exactly for a present device of this registry's life |
| DeviceRegistry.Registry.AddDevice | kernel/device_registry.c:190-231 | a device with a new name and valid fields takes the first unused slot and is announced |
| DeviceRegistry.Registry.RemoveDevice | kernel/device_registry.c:233-249 | a present device goes and its removal is announced |
| DeviceRegistry.Registry.ChangeState | kernel/device_registry.c:251-271 | a changed state or error is stored and announced, an unchanged one is not |
| DeviceRegistry.Registry.AddSubscriber | kernel/device_registry.c:339-361 | the first free subscription is taken with a new generation |
| DeviceRegistry.Registry.RemoveSubscriber | kernel/device_registry.c:363-378 | an owned subscription is freed |
| DeviceRegistry.Registry.RemoveOwner | kernel/device_registry.c:380-394 | all subscriptions of an owner are freed |
| DeviceRegistry.Registry.ReadEvent | kernel/device_registry.c:396-420 | the oldest waiting event with the overflow flag, or why there is none |
| DeviceRegistry.Registry.DeviceAt | kernel/device_registry.c:284-304 | the present devices are numbered in slot order |
| DeviceRuns.EnqueueWaits | kernel/device_registry.c:46-63 | the ring holds what it held, without the oldest when it was full, and the new event last |
| DeviceRuns.DequeueWaits | kernel/device_registry.c:411-417 | a read takes the oldest event |
| DeviceRuns.ReadingsInOrder | kernel/device_registry.c:46-63 | over any run of calls the events read are an in-order subsequence of those published since the subscription, flagged exactly when one was dropped between it and the one read before |
| DeviceRuns.QueueIsTheRest | kernel/device_registry.c:46-63 | what waits is what was published last, and the next reading will be flagged exactly when something was dropped |
| DeviceRuns.PublishedTells | kernel/device_registry.c:189-271 | a published event tells exactly what the call did to the devices |
| DeviceRuns.SubscriberKnows | kernel/device_registry.c:46-63 | a subscriber that started from the device list and has read every event, none flagged, knows the devices there are |
| DeviceRuns.CountIsPresent | kernel/device_registry.c:273-282 | the counter is the number of devices present |
| DeviceCallers.RegisterTells | kernel/device_registry.c:190-231 | a registration is taken exactly when its texts and numbers are valid, nobody ever had its name and an entry was never used; then every field is stored, under the identifier of the first such entry, and announced to every subscriber |
| DeviceCallers.RemoveTells | kernel/device_registry.c:233-249 | a removal is taken exactly when a present device has the identifier; it goes, and every subscriber hears of it with what was known of it |
| DeviceCallers.SetStateTells | kernel/device_registry.c:251-271 | a state is taken exactly when it is one of three and a present device has the identifier; ready, offline and fault are each announced as such, with the new fields, unless nothing changed |
| DeviceCallers.SubscribeTells | kernel/device_registry.c:339-361 | a subscription is given exactly when one is free, empty, under a handle of its own |
| DeviceCallers.ReadTells | kernel/device_registry.c:396-420 | a read through an owned handle hands out the oldest waiting event and whether any was pushed out, or says to try again; any other handle is refused |
| DeviceCallers.UnsubscribeTells | kernel/device_registry.c:363-378 | a subscription ends exactly for its owner |
| DeviceCallers.OwnerTells | kernel/device_registry.c:380-394 | when an owner goes all of its subscriptions end and no other |
| Elf.CheckAllSections | loader/elf_loader.c:176-200 | the loop finds the first section that is refused, or none |
| Elf.WalkNotesOf | loader/elf_loader.c:123-171 | the note walk terminates and equals the walk over values |
| Elf.ReadMetadata | loader/elf_loader.c:100-174 | the settings of the one application note, or the defaults, or a refusal |
| Elf.MeasureSegments | loader/elf_loader.c:349-385 | the bounds accumulated over the loadable segments, or the first refusal |
| Elf.InspectFile | loader/elf_loader.c:318-409 | the inspection equals its specification on values |
| Elf.CopySegment | loader/elf_loader.c:437-440 | exactly the segment's file part is copied |
| Elf.FillImage | loader/elf_loader.c:427-441 | every byte of the image is that of the last segment whose file part covers it, or zero |
| ElfSpec.Payload | loader/elf_loader.c:132-140 | a note payload that overflows the machine's size type is refused just as one that is too long |
| ElfSpec.WalkAccepts | loader/elf_loader.c:353-385 | the segments are accepted exactly when none is dynamic and every loadable one is valid |
| ElfSpec.InspectBounds | loader/elf_loader.c:318-409 | after a successful inspection every loadable segment lies within minimum..maximum and its file range in the input, and the bounds are reached |
| ElfSpec.InspectEntry | loader/elf_loader.c:351-391 | the entry lies in an executable segment |
| ElfSpec.InspectRequests | loader/elf_loader.c:105-169 | what an accepted executable asks for is inside the limits; without a note it is the default |
| ElfSpec.NotesSizeless | loader/elf_loader.c:132-140 | the width of the machine's size type makes no difference to the note walk |
| ElfSpec.LastCovering | loader/elf_loader.c:427-441 | where segments overlap, a byte is the file byte of the covering segment of largest index |
| ElfSpec.NoneCovering | loader/elf_loader.c:427-441 | a byte no file part covers is zero |
| ElfSpec.SegmentLaidOut | loader/elf_loader.c:427-441 | when segments do not overlap each one's memory starts with its file bytes and goes on with zeros |
| ElfRelocation.PairI | loader/elf_loader.c:282-295 | a HI20 and a LO12_I relocated to the same value add up to it |
| ElfRelocation.PairS | loader/elf_loader.c:282-301 | so do a HI20 and a LO12_S |
| ElfRelocation.FieldsStay | loader/elf_loader.c:285-301 | relocating leaves opcodes, registers and function codes alone |
| ElfRelocation.AcceptedIsInside | loader/elf_loader.c:265-267 | the target test accepts exactly the words inside the image, if and only if the image does not end below address 4 |
| ElfRelocate.PatchWord | loader/elf_loader.c:279-302 | one word takes what its relocation makes of it |
| ElfRelocate.RelocateEntries | loader/elf_loader.c:247-313 | the entries of a section are patched in order, or the first refused one refuses the file |
| ElfRelocate.RelocateSection | loader/elf_loader.c:218-245 | which sections are relocated, by which symbols, and which are refused |
| ElfRelocate.Relocate | loader/elf_loader.c:202-316 | the image with every planned patch applied in order, or the refusal; without a bias nothing is done |
| ElfRelocate.PlanFits | loader/elf_loader.c:265-280 | every word patched lies inside an image that ends at or above address 4 |
| ElfRelocate.UncoveredStays | loader/elf_loader.c:280-302 | a byte that no patch covers stays |
| ElfRelocate.EachWordPatched | loader/elf_loader.c:280-302 | when the patched words do not overlap each becomes its own patch of the word there |
| ElfLoad.Load | loader/elf_loader.c:411-461 | a loaded image holds the bytes of its segments, with the words of its relocations patched and nothing else; every refusal is the source's |
| ElfLoad.NoPatchesInside | loader/elf_loader.c:258-313 | a load that plans no patch patches nothing, wherever its image ends |
| ElfLoad.PatchedIsLoadedFrom | loader/elf_loader.c:427-456 | each byte of a loaded image is that of its patched word or that of the copied segments |
| ElfLoad.PlanFitsExactly | loader/elf_loader.c:265-280 | the planned patches lie inside the image exactly when it ends at or above address 4 or there are none |
| ElfLoad.TinyFilePatchesOutside | loader/elf_loader.c:265-280 | a file that is accepted and whose only patch lies outside its image |
| ElfWords.AddressIsHeld | loader/elf_loader.c:258-284 | read off the bytes of the file: the word at an R_RISCV_32 target of a loaded image is st_value plus the signed addend, plus the bias unless st_shndx is 0xFFF1, modulo 2^32 |
| ElfWords.PairIsHeld | loader/elf_loader.c:258-301 | a LUI and an instruction with the lower part, relocated for the same address, add up to it in the processor |
| ElfWords.EntryHeld | loader/elf_loader.c:247-302 | every entry of a relocated section has changed its word by its kind for that address; no entry is of an unknown kind |
| ElfWords.OtherBytesStay | loader/elf_loader.c:247-302 | a byte that no entry names is what the segments left there |
| ElfWords.SegmentIsLoaded | loader/elf_loader.c:427-441 | the k-th byte of a segment at p_vaddr + k is the byte of the file at p_offset + k, or zero from p_filesz on, where no entry names it and no other segment shares it |
| ElfWords.EntryIsExecutable | loader/elf_loader.c:351-391 | the entry point is e_entry and lies in a loadable segment with the executable flag |
| ElfNotes.TakenExactly | loader/elf_loader.c:318-409 | a file is taken exactly when it is a 32-bit little-endian RISC-V executable, its tables lie in it, its sections, notes and program headers are fine, the entry point lies in an executable segment and no two segments span more than a megabyte |
| ElfNotes.NotesTaken | loader/elf_loader.c:123-171 | the notes of a section are taken exactly when they fill it and at most one, well formed, is the system's own |
| ElfAccepts.AskedByNote | loader/elf_loader.c:105-169 | what a file asks for is what the bytes of its only system note say, or, without one, the defaults |
| ElfAccepts.RefusedAsWhole | loader/elf_loader.c:386-400 | with all parts fine a file is refused for its entry point, or else for the size of its image |
| ElfAccepts.RelocatedExactly | loader/elf_loader.c:205-315 | a moved image is relocated exactly when a loaded section has relocations and every entry is of a known kind, for a word inside the image and a symbol that is defined |

## Left out

- Power.PowerManager.Rollback: the participant named with a failure during a cycle, and the cycle number kept with any
  failure, are not modelled.
- Power.PowerManager.Update: brightness, panel and deadline arithmetic are inputs; the trace of callbacks kept for
  diagnosis is not modelled.
- Terminal.Terminal.WriteBytes: pixels, fonts, cursor blinking and the redrawing of dirty cells are not modelled,
  nor the cells of the ring slot behind the last line.
- Raster.Framebuffer.Blit: the source bitmap is a value, so a bitmap that overlaps the framebuffer is not covered.
- Raster.Framebuffer.FillSpan: the platform's own fill and copy routines are taken to do what the loop does.
- HostIo.RunKeeps: a job called without a scope runs on the caller's thread and is not modelled; each scope has one
  owner thread.
- Camera.CameraService.BeginOpen: allocation and the platform's start and stop are answers in the run; starting and
  shutting down the whole service are not modelled.
- CameraRuns.RunKeeps: the end of the sequence numbers, where no frame is older than the sentinel, is not reached
  by unbounded numbers.
- ConfigFile.Update: the file operations around it (read, temporary file, rename) are not modelled; settings are C
  strings, so they hold no NUL.
- ConfigUpdate.UpdateReadsBack: an old file that holds a NUL is outside it.
- ProcessTable.ProcessManager.UpdateForeground: entry functions do not launch children and cleanup functions do
  nothing that lasts; application data, the console session itself and the owner of touch input are not modelled.
- DeviceRegistry.Registry.AddDevice: starting and shutting down the registry more than once is not modelled, one life
  of it is.
- ElfLoad.Load: memory, preparation, finishing and the distance between where an image lies and where it was linked
  are answers of the platform; an image that ends below address 4 is loaded only when no word of it is patched before
  the load succeeds or is refused, since any other patch lies outside it (see PlanFitsExactly), and the entry pointer
  is left to the caller.
- ElfSpec.Inspect: clearing the lowest set bit of an alignment is written as the arithmetic test for a power of two.
- WallClock.DateTimeRoundTrip: the weekday given with a date is not checked by the source and comes back computed.
- Device drivers, networking, graphics fonts, the application library, file systems below the path layer, the shell
  and the applications: not modelled.
