# The terminal engine, modelled and verified

A terminal engine turns the bytes of a process into two screens of styled cells. These files model the engine of this
repository, the package `com.pangbai.terminal`, and prove what it keeps, what it conserves and where it falls short.
`dafny verify dfyconfig.toml` checks the whole project.

The source's objects are classes whose methods change their fields in place: `TerminalRow` (packed UTF-16 text for a
fixed number of cells), `TerminalBuffer` (a ring of row objects with a moving origin), `TerminalEmulator` (cursor,
margins, modes, parser and UTF-8 decoder) and `ByteQueue` (a ring of bytes shared by two threads). Every method is
proved against a value: a row is a list of cells (`Row`, `RowCopy`), a buffer is a list of history rows and a list of
screen rows (`Page`, `FastResize`, `Reflow`), an emulator is a record (`TerminalState`, `Commands`, `Interpreter`), a
queue is a list of bytes. What the engine promises is then proved about these values.

- `WcWidth`, `Utf16`, `Row`, `RowCopy`, `CellCopy`, `StyleCopy`, `TerminalRow`: widths, cells, and what writing and
  copying do to each of them.
- `Ring`, `Page`, `TerminalBuffer`: scrolling as a permutation of slots, block copies as memmove, effects.
- `FastResize`, `Reflow`, `ReflowLines`, `ReflowText`, `ReflowStyles`, `ReflowCursor`, `ReflowLayout`, `ResizeText`:
  what a change of size does to the rows, the text, the styles and the cursor.
- `ByteQueue`, `QueueMonitor`, `Session`: the monitor and the hand-off between threads, in every interleaving.
- `Utf8`, `TextStyle`, `Sgr`, `CsiArgs`, `Styles`: the codecs, and the styles that cells can have.
- `Display`, `TerminalState`, `Commands`, `Interpreter`, `TerminalEmulator`: the emulator.
- `Runs`, `AlternateScreen`, `Sequences`: properties of whole runs and of sequences of bytes.
- `LineOps`, `CharOps`, `CellOps`, `EraseOps`, `RectangleOps`: what the commands do to every cell of the screen.
- `WriteOps`, `TypedText`, `FeedOps`, `CursorOps`, `TabOps`, `SgrOps`, `ModeOps`, `EditOps`, `MotionOps`, `SettingOps`,
  `ResetOps`, `ResizeOps`: what each character or sequence does to the terminal, from its first byte to its last
  (`Sequences.Yields`), and what it leaves alone.

The Unicode tables and the line drawing character set are constants about which only their shape is known
(`WcWidth.Tables`), so everything holds for every such choice. What is said about a run holds for every sequence of
bytes and window sizes that `Runs.CanRun` admits; "Left out" says what it does not admit.

## Model

| member | source | states |
|---|---|---|
| `WcWidth.Intable` | app/src/main/java/com/pangbai/terminal/WcWidth.java:467-485 | The binary search finds a code point exactly when some interval of a sorted table contains it. |
| `WcWidth.ComputeWidth` | app/src/main/java/com/pangbai/terminal/WcWidth.java:488-507 | The width is 0, 1 or 2 as a linear scan of the tables says. |
| `WcWidth.LatinIsNarrow` | app/src/main/java/com/pangbai/terminal/WcWidth.java:488-507 | Printable Latin-1 characters, the space among them, take one column. |
| `Utf16.UnitsInjective` | app/src/main/java/com/pangbai/terminal/TerminalRow.java:36-60 | UTF-16 text determines its code points. |
| `Row.PlaceKeeps` | app/src/main/java/com/pangbai/terminal/TerminalRow.java:126-238 | Writing any code point at any column where it fits leaves a well-formed row of the same width. |
| `Row.PlaceNarrowAt` | app/src/main/java/com/pangbai/terminal/TerminalRow.java:126-238 | Every cell after a narrow character was written: the column itself, blanks for the halves of wide cells it cuts, all others unchanged. |
| `Row.PlaceWideAt` | app/src/main/java/com/pangbai/terminal/TerminalRow.java:126-238 | Every cell after a wide character was written, with the marks it takes over from the column it covers (none in the last column), all others unchanged. |
| `Row.PlaceMarkAt` | app/src/main/java/com/pangbai/terminal/TerminalRow.java:126-238 | A combining mark goes to the cell covering its column; all other cells are unchanged. |
| `Row.TextDeterminesCells` | app/src/main/java/com/pangbai/terminal/TerminalRow.java:8-26 | The packed UTF-16 text of a well-formed row determines its cells. |
| `TerminalRows.TerminalRow.FindStartOfColumn` | app/src/main/java/com/pangbai/terminal/TerminalRow.java:66-102 | The search stops in bounds at the code unit where the cell covering the column starts. |
| `TerminalRows.TerminalRow.WideDisplayCharacterStartingAt` | app/src/main/java/com/pangbai/terminal/TerminalRow.java:104-116 | True exactly when a wide cell starts at the column. |
| `TerminalRows.TerminalRow.SetChar` | app/src/main/java/com/pangbai/terminal/TerminalRow.java:126-238 | The in-place shifting, growing and splitting, with the recursive calls, makes exactly the specified cell update and the specified style update. |
| `TerminalRows.TerminalRow.Clear` | app/src/main/java/com/pangbai/terminal/TerminalRow.java:118-123 | The row becomes blank in the style given, and keeps its line wrap mark. |
| `TerminalRows.TerminalRow.IsBlank` | app/src/main/java/com/pangbai/terminal/TerminalRow.java:240-244 | True exactly when every code point of the row is a space. |
| `TerminalRows.TerminalRow.CopyInterval` | app/src/main/java/com/pangbai/terminal/TerminalRow.java:36-59 | The row becomes what the cell-level copy says, also when it copies to itself. |
| `RowCopy.CopyKeeps` | app/src/main/java/com/pangbai/terminal/TerminalRow.java:36-59 | A copy leaves a well-formed row of the same width. |
| `RowCopy.CopySimple` | app/src/main/java/com/pangbai/terminal/TerminalRow.java:36-59 | On rows of single code points a copy is memmove on the text, and on the styles unless the row copies to its own right; then they are smeared. |
| `RowCopy.SmearIsMoveWhenPeriodic` | app/src/main/java/com/pangbai/terminal/TerminalRow.java:41-57 | A copy to the right within a row moves the styles exactly when they repeat with the distance of the copy; else it smears them. |
| `RowCopy.SmearsStyles` | app/src/main/java/com/pangbai/terminal/TerminalRow.java:41-57 | Three styles that a copy by one column smears. |
| `CellCopy.CopiedCell` | app/src/main/java/com/pangbai/terminal/TerminalRow.java:36-59 | For all rows, every cell of the target after a copy: what was read, a wide character entered in its middle as a space and one cut at the end not at all; wide ones with the marks they take over; spaces where wide ones of the target are cut. |
| `CellCopy.RowOverExactly` | app/src/main/java/com/pangbai/terminal/TerminalRow.java:226-236 | A row copied over another one arrives as it is exactly when no wide character in it takes over marks. |
| `CellCopy.MarkTakenOver` | app/src/main/java/com/pangbai/terminal/TerminalRow.java:226-236 | Two rows for which it does not. |
| `StyleCopy.CopiedStyle` | app/src/main/java/com/pangbai/terminal/TerminalRow.java:36-59 | For all rows, every style of the target after a copy, unless the row copies to its own right: the second column of a wide character keeps the style it had, but where it cuts another one. |
| `Page.InitialIsBlanked` | app/src/main/java/com/pangbai/terminal/TerminalBuffer.java:31-38 | A new buffer, blanked by blockSet, has the initial screen rows and no history. |
| `TerminalBuffers.TerminalBuffer.constructor` | app/src/main/java/com/pangbai/terminal/TerminalBuffer.java:31-38 | A new buffer stands for the initial page. |
| `TerminalBuffers.TerminalBuffer.ExternalToInternalRow` | app/src/main/java/com/pangbai/terminal/TerminalBuffer.java:176-181 | A screen or history row is found at its slot of the ring. |
| `TerminalBuffers.TerminalBuffer.SetChar` | app/src/main/java/com/pangbai/terminal/TerminalBuffer.java:451-456 | Writes one cell of one row; every other row of the page, history and spare slots included, is unchanged. |
| `TerminalBuffers.TerminalBuffer.BlockSet` | app/src/main/java/com/pangbai/terminal/TerminalBuffer.java:437-445 | The nested loops fill the rectangle as the page-level fill says. |
| `Page.BlockSetRows` | app/src/main/java/com/pangbai/terminal/TerminalBuffer.java:437-445 | Exactly the rows of the rectangle are filled. |
| `Page.FillRowAt` | app/src/main/java/com/pangbai/terminal/TerminalBuffer.java:437-445 | Every cell and style of a row after part of it was filled. |
| `TerminalBuffers.TerminalBuffer.BlockCopy` | app/src/main/java/com/pangbai/terminal/TerminalBuffer.java:420-431 | The row-by-row copy, upwards or downwards, is the page-level block copy. |
| `Page.CopyRowsIsMove` | app/src/main/java/com/pangbai/terminal/TerminalBuffer.java:420-431 | Overlapping or not, every target row is copied from its source row as it was before the call; the other rows are unchanged. |
| `Page.BlockCopyIsMemmove` | app/src/main/java/com/pangbai/terminal/TerminalBuffer.java:420-431 | On rows of single code points a block copy is memmove on the text of the rectangle, and on its styles unless it goes to the right within the same rows. |
| `Page.BlockCopyCell` | app/src/main/java/com/pangbai/terminal/TerminalBuffer.java:420-431 | For all rows, every cell of the page after a block copy. |
| `Page.BlockCopyStyle` | app/src/main/java/com/pangbai/terminal/TerminalBuffer.java:420-431 | For all rows, every style of the page after a block copy that does not go to the right within the same rows. |
| `TerminalBuffers.TerminalBuffer.BlockCopyLinesDown` | app/src/main/java/com/pangbai/terminal/TerminalBuffer.java:363-375 | Moves a block of slots down by one, with the slot below it on top: a permutation of the ring. |
| `Ring.ScrolledAt` | app/src/main/java/com/pangbai/terminal/TerminalBuffer.java:384-406 | The slot each row of the ring comes from when one line is scrolled. |
| `Ring.ScrolledFromInjective` | app/src/main/java/com/pangbai/terminal/TerminalBuffer.java:363-406 | No two slots hold the same row after a scroll. |
| `TerminalBuffers.TerminalBuffer.ScrollDownOneLine` | app/src/main/java/com/pangbai/terminal/TerminalBuffer.java:384-406 | The pointer permutation and the blanking are the list operation of the page, also when the ring is no longer than the screen, and no two slots alias. |
| `Page.ScrollSlots` | app/src/main/java/com/pangbai/terminal/TerminalBuffer.java:384-406 | What every slot of the ring holds after a scroll, and the wrap mark its blank row inherits. |
| `Page.ScrollsAreList` | app/src/main/java/com/pangbai/terminal/TerminalBuffer.java:384-406 | Scrolling n times appends the top n rows of the region to the history, which keeps the newest that fit; the other rows move up and blank ones follow. |
| `Page.BlankRowIsWrapped` | app/src/main/java/com/pangbai/terminal/TerminalBuffer.java:384-406 | A screen whose scroll leaves a blank row marked as wrapped. |
| `TerminalBuffers.TerminalBuffer.SetOrClearEffect` | app/src/main/java/com/pangbai/terminal/TerminalBuffer.java:463-485 | The nested loops change the effects of the region as the page-level operation says. |
| `Page.ChangedRow` | app/src/main/java/com/pangbai/terminal/TerminalBuffer.java:463-485 | Exactly the rows of the region are changed, each as its own columns say. |
| `TerminalBuffers.TerminalBuffer.ClearTranscript` | app/src/main/java/com/pangbai/terminal/TerminalBuffer.java:487-495 | Forgets the history and keeps the screen. |
| `TerminalBuffers.TerminalBuffer.Resize` | app/src/main/java/com/pangbai/terminal/TerminalBuffer.java:203-355 | Both paths of resize compute the specified page and cursor, whose rows, text, styles and cursor the modules on resizing characterise. |
| `FastResize.ShiftIsCounted` | app/src/main/java/com/pangbai/terminal/TerminalBuffer.java:210-216 | A shrinking screen gives up blank rows anywhere below the cursor first, not only those at the end. |
| `FastResize.ShrinkConserves` | app/src/main/java/com/pangbai/terminal/TerminalBuffer.java:205-232 | Fewer rows: history and screen lose nothing but rows at the bottom, all below the cursor. |
| `FastResize.GrowConserves` | app/src/main/java/com/pangbai/terminal/TerminalBuffer.java:205-232 | More rows: history and screen are kept, and the rows added at the bottom are blank ones. |
| `FastResize.CursorFollows` | app/src/main/java/com/pangbai/terminal/TerminalBuffer.java:205-232 | The cursor stays on its row unless that row left the screen. |
| `FastResize.ShrinkThenGrow` | app/src/main/java/com/pangbai/terminal/TerminalBuffer.java:205-232 | Shrinking and growing back is the identity when no row was dropped. |
| `FastResize.ShrinkThenGrowExactly` | app/src/main/java/com/pangbai/terminal/TerminalBuffer.java:205-232 | Shrinking and growing back restores history and screen exactly when no row was dropped, or there is no history and the dropped rows were blank in the new style. |
| `ResizeText.ShrinkKeepsTextExactly` | app/src/main/java/com/pangbai/terminal/TerminalBuffer.java:205-232 | Fewer rows: all text that is not space is kept exactly when the bottom rows given up, as many as there are blank ones anywhere below the cursor, are blank themselves. |
| `ResizeText.ShrinkLosesText` | app/src/main/java/com/pangbai/terminal/TerminalBuffer.java:210-216 | A page that loses text when it shrinks. |
| `ResizeText.GrowingBackLosesText` | app/src/main/java/com/pangbai/terminal/TerminalBuffer.java:205-232 | Growing that page back does not restore it. |
| `ResizeText.AlternateShrinkExactly` | app/src/main/java/com/pangbai/terminal/TerminalBuffer.java:227-232 | Fewer rows on the alternate screen: the rows shown are the right ones in order exactly when the screen then starts at the first slot of the ring. |
| `ResizeText.AlternateShrinkScrambles` | app/src/main/java/com/pangbai/terminal/TerminalBuffer.java:227-232 | A page of the alternate screen on which they are not, and the cursor leaves its row. |
| `Reflow.ResizedCursorOnScreen` | app/src/main/java/com/pangbai/terminal/TerminalBuffer.java:203-355 | After any resize the cursor is on the new screen. |
| `Reflow.ResizedNumbers` | app/src/main/java/com/pangbai/terminal/TerminalBuffer.java:203-355 | After any resize the ring numbers are in range, and the alternate screen has no history. |
| `ReflowText.ReflowConservesText` | app/src/main/java/com/pangbai/terminal/TerminalBuffer.java:233-353 | After a change of columns the text that is not space, in evicted rows, history and screen, is the old text in order, with the cursor row cut after the cursor; rows are evicted only when the ring is full. |
| `ReflowText.KeptToCell` | app/src/main/java/com/pangbai/terminal/TerminalBuffer.java:277-333 | The cursor row is kept up to the base character in the cursor column, when that column starts a cell. |
| `ReflowText.KeptWhole` | app/src/main/java/com/pangbai/terminal/TerminalBuffer.java:277-333 | When it does not, the whole row is kept. |
| `ResizeText.ReflowKeepsTextExactly` | app/src/main/java/com/pangbai/terminal/TerminalBuffer.java:233-353 | Other columns: all text that is not space is kept, evicted rows included, exactly when nothing but spaces is behind the character at the cursor on its row. |
| `ResizeText.ReflowLosesText` | app/src/main/java/com/pangbai/terminal/TerminalBuffer.java:333 | A page that loses text whatever the new size. |
| `ReflowCursor.ReflowKeepsCursor` | app/src/main/java/com/pangbai/terminal/TerminalBuffer.java:233-353 | The cursor is placed exactly when its old column starts a cell of a row in the buffer, and then on the row and column where that cell went, except for the scrolls it did not follow. |
| `ReflowLayout.CursorStaysExactly` | app/src/main/java/com/pangbai/terminal/TerminalBuffer.java:270-341 | The cursor is left on the row of its character exactly when the lowest blank row inserted after it, in a layout computed from the old rows and the new columns, lies within the new number of rows. |
| `ReflowLayout.CursorStaysOnCharacter` | app/src/main/java/com/pangbai/terminal/TerminalBuffer.java:270-341 | Under that condition the cursor is on its character, unless that has left the screen. |
| `ReflowLayout.BlankAtEndStays` | app/src/main/java/com/pangbai/terminal/TerminalBuffer.java:262-269 | With blank rows only at the end below the cursor, the condition holds for every new size. |
| `ReflowLayout.CursorLeftBehind` | app/src/main/java/com/pangbai/terminal/TerminalBuffer.java:270-281 | A page where it fails: the character ends on the top row and the cursor below it. |
| `ReflowStyles.ReflowConservesStyles` | app/src/main/java/com/pangbai/terminal/TerminalBuffer.java:233-353 | Every code point that is not a space keeps the style of its cell: the pairs of code point and style in evicted rows, history and screen are those of the old rows in order, with the cursor row cut after the cursor. |
| `ReflowLines.ReflowFillsLines` | app/src/main/java/com/pangbai/terminal/TerminalBuffer.java:233-353 | All that a reflow outputs, row by row: the cells of the old rows, spaces, marks and styles included, fill lines of the new width greedily; a row is marked as wrapped exactly when its line is continued or it took the slot of a marked row; the newest rows stay. |
| `ReflowLines.MarksStayExactly` | app/src/main/java/com/pangbai/terminal/TerminalBuffer.java:298-304 | The wrap marks are those of the lines exactly when every row that takes the slot of a continued line is itself continued. |
| `ReflowLines.MarkIsInherited` | app/src/main/java/com/pangbai/terminal/TerminalBuffer.java:298-304 | A page on which a line that ends is marked as wrapped after a reflow. |
| `TextStyle.RoundTrip` | app/src/main/java/com/pangbai/terminal/TextStyle.java:49-88 | Decoding an encoded style returns colours in the encodable domain and the nine effect bits exactly. |
| `TextStyle.ChangeKeepsColors` | app/src/main/java/com/pangbai/terminal/TerminalBuffer.java:468-482 | Changing effects keeps the colours and does to the effect bits what is asked for. |
| `TextStyle.ReverseTwice` | app/src/main/java/com/pangbai/terminal/TerminalBuffer.java:472-482 | Reversing the effects of a cell twice restores its style. |
| `Styles.ReverseTwice` | app/src/main/java/com/pangbai/terminal/TerminalBuffer.java:463-485 | Reversing the effects of any region of a buffer twice restores all its rows. |
| `Styles.ResizeEncoded` | app/src/main/java/com/pangbai/terminal/TerminalBuffer.java:203-355 | A resize leaves every style in the buffer an encoding. |
| `Sgr.SelectKeeps` | app/src/main/java/com/pangbai/terminal/TerminalEmulator.java:1758-1862 | Every parameter list leaves colours and effect in the domain that encoding keeps. |
| `Sgr.SelectedStyleIsExact` | app/src/main/java/com/pangbai/terminal/TerminalEmulator.java:1758-1862 | After every parameter list the style stored in a cell decodes to exactly the selected colours and effect. |
| `SgrOps.SelectsColor` | app/src/main/java/com/pangbai/terminal/TerminalEmulator.java:1807-1856 | ESC [ 30+k m and ESC [ 90+k m set the foreground to entry k and k + 8, and 40+k and 100+k the background; nothing else changes. |
| `SgrOps.SelectsDefault` | app/src/main/java/com/pangbai/terminal/TerminalEmulator.java:1762-1852 | 39 and 49 set the one colour back, and 0 or no code at all the whole pen. |
| `SgrOps.SetsEffect` | app/src/main/java/com/pangbai/terminal/TerminalEmulator.java:1772-1788 | Codes 1 to 5 and 7 to 9 set exactly their effect. |
| `SgrOps.ClearsEffect` | app/src/main/java/com/pangbai/terminal/TerminalEmulator.java:1789-1806 | Codes 22 to 25 and 27 to 29 clear exactly theirs; 22 clears bold and dim. |
| `SgrOps.OtherCodesSelectNothing` | app/src/main/java/com/pangbai/terminal/TerminalEmulator.java:1758-1862 | No other code does anything. |
| `SgrOps.SelectsIndexed` | app/src/main/java/com/pangbai/terminal/TerminalEmulator.java:1809-1848 | 38;5;k and 48;5;k set the one colour to entry k below 259; other numbers are ignored. |
| `SgrOps.SelectsRgb` | app/src/main/java/com/pangbai/terminal/TerminalEmulator.java:1809-1848 | 38;2;r;g;b and 48;2;r;g;b set the one colour to these bytes; larger numbers are ignored. |
| `SgrOps.ListComposes` | app/src/main/java/com/pangbai/terminal/TerminalEmulator.java:1758-1862 | A list selects what its front and its rest select one after the other, if the front does not break off in the middle of a colour. |
| `SgrOps.ListSelects` | app/src/main/java/com/pangbai/terminal/TerminalEmulator.java:1758-1862 | So ESC [ a ; b m does what ESC [ a m and ESC [ b m do. |
| `ByteQueues.ByteQueue.Read` | app/src/main/java/com/pangbai/terminal/ByteQueue.java:21-53 | One section of read: waits, returns -1 once closed, or takes the oldest bytes out of the ring; notifies when the ring was full. |
| `ByteQueues.ByteQueue.Write` | app/src/main/java/com/pangbai/terminal/ByteQueue.java:61-106 | One section of write: waits, gives up once closed, or appends what fits; notifies when the ring was empty. |
| `ByteQueues.ByteQueue.Close` | app/src/main/java/com/pangbai/terminal/ByteQueue.java:16-19 | Closes the queue and keeps its contents. |
| `QueueMonitor.EveryRun` | app/src/main/java/com/pangbai/terminal/ByteQueue.java:16-106 | In every interleaving bytes leave in the order they came and none is lost while the queue is open; with any capacity there is no lost wakeup and both threads never wait together. |
| `QueueMonitor.SomeoneProceeds` | app/src/main/java/com/pangbai/terminal/ByteQueue.java:21-106 | When one thread waits, the other one's next call does something. |
| `QueueMonitor.DeadlockExactlyWithoutCapacity` | app/src/main/java/com/pangbai/terminal/ByteQueue.java:12-106 | Some run deadlocks exactly when the capacity is 0. |
| `QueueMonitor.ClosedDeliversExactly` | app/src/main/java/com/pangbai/terminal/ByteQueue.java:21-53 | Once a queue is closed no step of any run changes its bytes, what was stored or what was delivered; so all that was stored is delivered exactly when the queue was empty by then. |
| `QueueMonitor.ClosedLosesBytes` | app/src/main/java/com/pangbai/terminal/ByteQueue.java:33 | A run after which a stored byte is never delivered. |
| `Session.EveryRun` | app/src/main/java/com/pangbai/terminal/TerminalSession.java:156-167 | With sizes that fit, in every interleaving a blocked reader has a message pending, an idle one leaves no byte without a message, and no byte is lost. |
| `Session.SourceIsSafe` | app/src/main/java/com/pangbai/terminal/TerminalSession.java:33-46 | The sizes of the source are such, and bytes of a session that is not blocked are drained by the pending messages. |
| `Session.SafeExactlyWhenChunksFit` | app/src/main/java/com/pangbai/terminal/TerminalSession.java:156-167 | Every run is safe exactly when a chunk fits both the queue and the handler's buffer. |
| `Utf8.WriteCodePoint` | app/src/main/java/com/pangbai/terminal/TerminalSession.java:223-257 | Writes the UTF-8 bytes of a code point, after an optional escape; rejects exactly the surrogates and what is beyond Unicode. |
| `Utf8.RoundTrip` | app/src/main/java/com/pangbai/terminal/TerminalEmulator.java:485-548 | Decoding the encoding of assigned code points returns them (section 3 of RFC 3629). |
| `Utf8.SelfSynchronisation` | app/src/main/java/com/pangbai/terminal/TerminalEmulator.java:485-548 | After any bytes, encoded text costs at most one replacement character and is then decoded exactly, ending between characters. |
| `Utf8.OverlongReplaced` | app/src/main/java/com/pangbai/terminal/TerminalEmulator.java:497-501 | Every complete overlong sequence is decoded to one replacement character, but for E0 9F BF when U+07FF is assigned. |
| `Utf8.OverlongAccepted` | app/src/main/java/com/pangbai/terminal/TerminalEmulator.java:497-501 | The two overlong sequences that the range checks let through, and what they are decoded to. |
| `CsiArgs.ParsePrinted` | app/src/main/java/com/pangbai/terminal/TerminalEmulator.java:2103-2141 | Numbers printed in decimal and separated by semicolons are parsed back; of more than sixteen the first sixteen are kept. |
| `Sequences.ParametersRoundTrip` | app/src/main/java/com/pangbai/terminal/TerminalEmulator.java:550-883 | ESC [ and printed parameters are read back exactly, and nothing else happens. |
| `Sequences.ReportedPositionRestores` | app/src/main/java/com/pangbai/terminal/TerminalEmulator.java:1665-1669 | With origin mode off, a cursor report (section 8.3.14 of ECMA-48) sent back as a position puts the cursor where it was. |
| `CursorOps.CursorUp` | app/src/main/java/com/pangbai/terminal/TerminalEmulator.java:1464-1466 | CUU n: row Max(0, row - n), same column, no pending wrap, nothing else changes. |
| `CursorOps.CursorDown` | app/src/main/java/com/pangbai/terminal/TerminalEmulator.java:1467-1469 | CUD n: row Min(rows - 1, row + n), likewise. |
| `CursorOps.CursorForward` | app/src/main/java/com/pangbai/terminal/TerminalEmulator.java:1470-1473 | CUF n: column Min(columns - 1, column + n), likewise. |
| `CursorOps.PositionForward` | app/src/main/java/com/pangbai/terminal/TerminalEmulator.java:1471-1473 | HPR n: the same. |
| `CursorOps.CursorBackward` | app/src/main/java/com/pangbai/terminal/TerminalEmulator.java:1474-1476 | CUB n: column Max(0, column - n), likewise. |
| `CursorOps.CursorColumn` | app/src/main/java/com/pangbai/terminal/TerminalEmulator.java:1483-1485 | CHA n: column Min(n, columns) - 1, likewise. |
| `CursorOps.CursorRow` | app/src/main/java/com/pangbai/terminal/TerminalEmulator.java:1626-1628 | VPA n: row Min(n, rows) - 1, likewise. |
| `CursorOps.CursorPosition` | app/src/main/java/com/pangbai/terminal/TerminalEmulator.java:1486-1489 | CUP: the row and column asked for, counted from the top margin in origin mode, as far as the region or the screen goes. |
| `CursorOps.HorizontalVerticalPosition` | app/src/main/java/com/pangbai/terminal/TerminalEmulator.java:1486-1489 | HVP: the same. |
| `CursorOps.CursorNextLine` | app/src/main/java/com/pangbai/terminal/TerminalEmulator.java:1477-1479 | CNL n: the first column, n rows further down. |
| `CursorOps.CursorPreviousLine` | app/src/main/java/com/pangbai/terminal/TerminalEmulator.java:1480-1482 | CPL n: the first column, n rows further up. |
| `CursorOps.HorizontalPosition` | app/src/main/java/com/pangbai/terminal/TerminalEmulator.java:1612-1614 | HPA n: column n. |
| `CursorOps.VerticalPosition` | app/src/main/java/com/pangbai/terminal/TerminalEmulator.java:1629-1631 | VPR n: n rows further down. |
| `CursorOps.RowIsKeptExactly` | app/src/main/java/com/pangbai/terminal/TerminalEmulator.java:1612-1614 | HPA keeps the cursor's row exactly when positions count from the top of the screen and the cursor is above the end of the region they refer to, or the cursor is on the last row of that region. |
| `TabOps.Tabulates` | app/src/main/java/com/pangbai/terminal/TerminalEmulator.java:572-581 | HT moves to the next tab stop, or else to the last column. |
| `TabOps.TabulatesForward` | app/src/main/java/com/pangbai/terminal/TerminalEmulator.java:1490-1492 | CHT n moves to the column of a stop with n - 1 stops between, or else to the last column. |
| `TabOps.TabulatesBackward` | app/src/main/java/com/pangbai/terminal/TerminalEmulator.java:1594-1605 | CBT n likewise to the left, or else to the first column. |
| `TabOps.StopAfterIsUnique` | app/src/main/java/com/pangbai/terminal/TerminalEmulator.java:1007-1011 | There is only one such column. |
| `TabOps.StopBeforeIsUnique` | app/src/main/java/com/pangbai/terminal/TerminalEmulator.java:1594-1605 | There is only one such column to the left, too. |
| `TabOps.SetsTabStop` | app/src/main/java/com/pangbai/terminal/TerminalEmulator.java:1369-1371 | HTS sets a stop in the cursor's column, and leaves the others. |
| `TabOps.ClearsTabStop` | app/src/main/java/com/pangbai/terminal/TerminalEmulator.java:1633-1647 | TBC clears the stop in the cursor's column, or all of them. |
| `FeedOps.LineFeedCharacter` | app/src/main/java/com/pangbai/terminal/TerminalEmulator.java:1284-1299 | LF, VT and FF above the last row move down. On the last line of the region they scroll it instead: its first line goes to the history, the others move up, a blank line comes last, and the cursor's row stays; below the region nothing scrolls. |
| `FeedOps.Index` | app/src/main/java/com/pangbai/terminal/TerminalEmulator.java:1359-1361 | IND is a line feed. |
| `FeedOps.NextLineFeeds` | app/src/main/java/com/pangbai/terminal/TerminalEmulator.java:1362-1365 | NEL is a line feed from the first column. |
| `FeedOps.CarriageReturns` | app/src/main/java/com/pangbai/terminal/TerminalEmulator.java:587-589 | CR moves to the first column. |
| `FeedOps.LineFeedsScroll` | app/src/main/java/com/pangbai/terminal/TerminalEmulator.java:1284-1299 | n line feeds on the last line of the region are n scrolls of it. |
| `WriteOps.WritesCharacter` | app/src/main/java/com/pangbai/terminal/TerminalEmulator.java:2206-2353 | A character of width w that fits is written at the cursor in the pen's style, with every other cell and style of the row said; the cursor goes to Min(column + w, columns - 1), and with automatic wrapping a wrap is then pending exactly when the row is full. |
| `WriteOps.StyleIsThatOfPen` | app/src/main/java/com/pangbai/terminal/TerminalEmulator.java:2046-2048 | That style decodes to the colours and effects of the pen. |
| `WriteOps.IgnoresWide` | app/src/main/java/com/pangbai/terminal/TerminalEmulator.java:2327-2331 | Without automatic wrapping a wide character in the last column is not written. |
| `WriteOps.WritesMark` | app/src/main/java/com/pangbai/terminal/TerminalEmulator.java:2340-2348 | A combining mark joins the cell before the cursor, or the one at it when a wrap is pending or it is in the first column; the cursor stays. |
| `WriteOps.WrapLineWraps` | app/src/main/java/com/pangbai/terminal/TerminalEmulator.java:2317-2326 | A wrap marks the row as continued and goes to the first column of the next one, for which the region scrolls when the row is its last one or below it. |
| `WriteOps.WritesWrapped` | app/src/main/java/com/pangbai/terminal/TerminalEmulator.java:2317-2326 | A character that has to wrap is written as if the cursor were there already. |
| `WriteOps.InsertsCharacter` | app/src/main/java/com/pangbai/terminal/TerminalEmulator.java:2333-2338 | In insert mode the rest of the row first moves right by the width of the character. |
| `WriteOps.CharacterIsWritten` | app/src/main/java/com/pangbai/terminal/TerminalEmulator.java:618-620 | Every character from the space on, outside sequences, is written so. |
| `TypedText.TypedCells` | app/src/main/java/com/pangbai/terminal/TerminalEmulator.java:2206-2353 | Any cells that fit, wide ones and marks included, typed one code point after the other: they stand from the cursor on, in the pen's style, and the cursor is behind them. |
| `TypedText.TextIsShown` | app/src/main/java/com/pangbai/terminal/TerminalEmulator.java:550-2353 | The same for these code points as input. |
| `TypedText.RowIsReproduced` | app/src/main/java/com/pangbai/terminal/TerminalEmulator.java:550-2353 | On a blank row the code points of any row reproduce its cells. |
| `EditOps.FeedsInsertCharacters` | app/src/main/java/com/pangbai/terminal/TerminalEmulator.java:1454-1463 | ICH inserts the number of characters given, or one, as `CellOps` says. |
| `EditOps.FeedsEraseInDisplay` | app/src/main/java/com/pangbai/terminal/TerminalEmulator.java:1493-1516 | ED with its parameter, or 0. |
| `EditOps.FeedsEraseInLine` | app/src/main/java/com/pangbai/terminal/TerminalEmulator.java:1517-1533 | EL with its parameter, or 0. |
| `EditOps.FeedsInsertLines` | app/src/main/java/com/pangbai/terminal/TerminalEmulator.java:1534-1542 | IL with its parameter, or 1, as `LineOps` says. |
| `EditOps.FeedsDeleteLines` | app/src/main/java/com/pangbai/terminal/TerminalEmulator.java:1543-1552 | DL with its parameter, or 1. |
| `EditOps.FeedsDeleteCharacters` | app/src/main/java/com/pangbai/terminal/TerminalEmulator.java:1553-1567 | DCH with its parameter, or 1. |
| `EditOps.FeedsScrollUp` | app/src/main/java/com/pangbai/terminal/TerminalEmulator.java:1568-1573 | SU with its parameter, or 1. |
| `EditOps.FeedsScrollDown` | app/src/main/java/com/pangbai/terminal/TerminalEmulator.java:1574-1589 | SD with its parameter, or 1; with several parameters nothing happens. |
| `EditOps.FeedsEraseCharacters` | app/src/main/java/com/pangbai/terminal/TerminalEmulator.java:1590-1593 | ECH with its parameter, or 1. |
| `EditOps.FeedsRepeat` | app/src/main/java/com/pangbai/terminal/TerminalEmulator.java:1615-1619 | REP types the last character again, as often as told. |
| `EditOps.FeedsSelectiveErase` | app/src/main/java/com/pangbai/terminal/TerminalEmulator.java:1016-1055 | DECSED and DECSEL with their parameter, or 0. |
| `EditOps.FeedsCopyAndFill` | app/src/main/java/com/pangbai/terminal/TerminalEmulator.java:656-706 | DECCRA and DECFRA with their parameters. |
| `EditOps.FeedsEraseArea` | app/src/main/java/com/pangbai/terminal/TerminalEmulator.java:679-706 | DECERA, and DECSERA, which spares protected characters and keeps styles. |
| `EditOps.FeedsAttributes` | app/src/main/java/com/pangbai/terminal/TerminalEmulator.java:707-767 | DECCARA and DECRARA with their parameters. |
| `MotionOps.BacksUp` | app/src/main/java/com/pangbai/terminal/TerminalEmulator.java:560-571 | BS moves left; from the first column it moves to the end of the row above and takes its mark off, if that was marked as continued. |
| `MotionOps.ReverseIndexMoves` | app/src/main/java/com/pangbai/terminal/TerminalEmulator.java:1372-1381 | RI moves up, or inserts a line at the top margin. |
| `MotionOps.GoesToTopRow` | app/src/main/java/com/pangbai/terminal/TerminalEmulator.java:1366-1368 | ESC F goes to the top row, to the column with the number of the last row of the region, or else to the last column. |
| `MotionOps.MovesBack` | app/src/main/java/com/pangbai/terminal/TerminalEmulator.java:1329-1337 | DECBI moves left; from the first column it inserts a blank column there, on every line of the region. |
| `MotionOps.MovesForward` | app/src/main/java/com/pangbai/terminal/TerminalEmulator.java:1344-1352 | DECFI moves right; from the last column it deletes the first one, on every line of the region. |
| `MotionOps.StyleOver` | app/src/main/java/com/pangbai/terminal/TerminalEmulator.java:1329-1352 | The blank column of these has the colours of the pen and no effects. |
| `MotionOps.InsertsColumns` | app/src/main/java/com/pangbai/terminal/TerminalEmulator.java:790-795 | DECIC inserts blank columns at the cursor on every line. |
| `MotionOps.DeletesColumns` | app/src/main/java/com/pangbai/terminal/TerminalEmulator.java:796-800 | DECDC moves the columns behind those deleted to the left on every line. |
| `MotionOps.MovedLeftIsDeletedExactly` | app/src/main/java/com/pangbai/terminal/TerminalEmulator.java:796-800 | That deletes columns of a line, with blanks at its end, exactly when its last columns are blank. |
| `ModeOps.SetsRegion` | app/src/main/java/com/pangbai/terminal/TerminalEmulator.java:1674-1689 | DECSTBM sets the scrolling region and sends the cursor to its first line in origin mode, else to the first one of the screen. |
| `ModeOps.RegionIsAskedExactly` | app/src/main/java/com/pangbai/terminal/TerminalEmulator.java:1674-1689 | The region is the one asked for exactly when that is at least two lines of the screen. |
| `ModeOps.SetsInsertMode` | app/src/main/java/com/pangbai/terminal/TerminalEmulator.java:2051-2072 | SM and RM of 4 turn insert mode on and off. |
| `ModeOps.SetsFlag` | app/src/main/java/com/pangbai/terminal/TerminalEmulator.java:1098-1196 | DECSET and DECRST of a mode change exactly its flag, and for a mouse mode that of the other one; origin mode set also sends the cursor home. |
| `ModeOps.SetsFlags` | app/src/main/java/com/pangbai/terminal/TerminalEmulator.java:1056-1061 | A list of modes is set or reset one after the other. |
| `ModeOps.SavesMode` | app/src/main/java/com/pangbai/terminal/TerminalEmulator.java:1073-1089 | Saving a mode marks it as saved and set. |
| `ModeOps.RestoresMode` | app/src/main/java/com/pangbai/terminal/TerminalEmulator.java:1073-1089 | Restoring a mode sets it if it was ever saved, and else resets it. |
| `ModeOps.SaveAndRestoreExactly` | app/src/main/java/com/pangbai/terminal/TerminalEmulator.java:1073-1089 | Saving a mode and restoring it keeps the modes exactly when it was set, and the other mouse mode not. |
| `ModeOps.SavingTurnsOn` | app/src/main/java/com/pangbai/terminal/TerminalEmulator.java:1073-1089 | On a new terminal saving reverse video and restoring it turns it on. |
| `ModeOps.EntersBlank` | app/src/main/java/com/pangbai/terminal/TerminalEmulator.java:1161-1188 | Entering the alternate screen blanks every row of it in the current style, and saves the cursor with pen, modes and character sets. |
| `ModeOps.ShowsAlternate` | app/src/main/java/com/pangbai/terminal/TerminalEmulator.java:1161-1188 | ESC [ ? 47 h, 1047 and 1049 do that. |
| `ModeOps.ShowsMain` | app/src/main/java/com/pangbai/terminal/TerminalEmulator.java:1161-1188 | ESC [ ? 47 l, 1047 and 1049 leave it. |
| `ModeOps.ShowsAlready` | app/src/main/java/com/pangbai/terminal/TerminalEmulator.java:1161-1188 | They do nothing when that screen is shown already. |
| `ModeOps.ChangesColumnMode` | app/src/main/java/com/pangbai/terminal/TerminalEmulator.java:1106-1119 | DECCOLM blanks the screen, opens the margins and sends the cursor home, set or reset. |
| `SettingOps.SavesCursor` | app/src/main/java/com/pangbai/terminal/TerminalEmulator.java:1338-1340 | DECSC saves the cursor for the screen shown. |
| `SettingOps.RestoresCursor` | app/src/main/java/com/pangbai/terminal/TerminalEmulator.java:1341-1343 | DECRC restores it, on the screen and within the size. |
| `SettingOps.SavesCursorToo` | app/src/main/java/com/pangbai/terminal/TerminalEmulator.java:1690-1701 | ESC [ s saves it, too. |
| `SettingOps.RestoresCursorToo` | app/src/main/java/com/pangbai/terminal/TerminalEmulator.java:1745-1747 | ESC [ u restores it. |
| `SettingOps.SavesCursorAsMode` | app/src/main/java/com/pangbai/terminal/TerminalEmulator.java:1155-1160 | ESC [ ? 1048 h saves it as well. |
| `SettingOps.RestoresCursorAsMode` | app/src/main/java/com/pangbai/terminal/TerminalEmulator.java:1155-1160 | ESC [ ? 1048 l restores it. |
| `SettingOps.RestoresWhatWasSaved` | app/src/main/java/com/pangbai/terminal/TerminalEmulator.java:1409-1434 | Saving and restoring bring cursor, pen, character sets, and wrap and origin modes back, whatever happened in between on a screen of that size. |
| `SettingOps.DesignatesSet` | app/src/main/java/com/pangbai/terminal/TerminalEmulator.java:627-632 | ESC ( and ESC ) designate G0 and G1. |
| `SettingOps.ShiftsSet` | app/src/main/java/com/pangbai/terminal/TerminalEmulator.java:590-595 | SO and SI select between them. |
| `SettingOps.SelectsProtection` | app/src/main/java/com/pangbai/terminal/TerminalEmulator.java:772-788 | DECSCA sets or clears exactly the protected effect. |
| `SettingOps.SelectsExtent` | app/src/main/java/com/pangbai/terminal/TerminalEmulator.java:866-874 | DECSACE 2 selects rectangles and 0 and 1 streams. |
| `SettingOps.SelectsKeypad` | app/src/main/java/com/pangbai/terminal/TerminalEmulator.java:1392-1401 | DECKPAM and DECKPNM set and reset their mode. |
| `ResetOps.SoftResets` | app/src/main/java/com/pangbai/terminal/TerminalEmulator.java:636-642 | DECSTR puts all settings back and leaves screens and cursor. |
| `ResetOps.Resets` | app/src/main/java/com/pangbai/terminal/TerminalEmulator.java:1353-1358 | RIS does so, too, forgets the history, blanks the screen and sends the cursor home. |
| `ResetOps.FillsScreen` | app/src/main/java/com/pangbai/terminal/TerminalEmulator.java:1306-1316 | DECALN fills every cell of the screen with the letter E. |
| `ResetOps.ReportsCursor` | app/src/main/java/com/pangbai/terminal/TerminalEmulator.java:1657-1673 | DSR 6 replies with row and column, counted from one. |
| `ResetOps.ReportsPosition` | app/src/main/java/com/pangbai/terminal/TerminalEmulator.java:1062-1072 | DECXCPR replies with these and page 1. |
| `ResetOps.SkipsCommand` | app/src/main/java/com/pangbai/terminal/TerminalEmulator.java:1864-1892 | An operating system command of at most 8192 code units changes nothing but the parser. |
| `ResetOps.SkipsDeviceControl` | app/src/main/java/com/pangbai/terminal/TerminalEmulator.java:885-1005 | Nor does a device control string of at most that length. |
| `ResetOps.BreaksOff` | app/src/main/java/com/pangbai/terminal/TerminalEmulator.java:552-603 | CAN and SUB break a sequence off and write DEL; outside sequences they do nothing, and NUL nowhere. |
| `ResizeOps.Resizes` | app/src/main/java/com/pangbai/terminal/TerminalEmulator.java:369-402 | A new window size gives the screen shown the page and cursor that the buffer's resize computes, opens the margins of the sides that change, keeps the tab stops of the columns that stay and adds default ones, and changes nothing else. |
| `ResizeOps.TabStopsComeBackExactly` | app/src/main/java/com/pangbai/terminal/TerminalEmulator.java:381-391 | A change of columns and back restores the tab stops exactly when those of the columns lost were the default ones. |
| `Display.Resize` | app/src/main/java/com/pangbai/terminal/TerminalEmulator.java:396-402 | The screen that is shown gets the terminal's size, the other one is left alone, and the cursor is on the screen. |
| `Display.SwitchTo` | app/src/main/java/com/pangbai/terminal/TerminalEmulator.java:1161-1188 | Showing the other buffer leaves the first one alone and brings the second one to the terminal's size. |
| `TerminalState.EmitCodePoint` | app/src/main/java/com/pangbai/terminal/TerminalEmulator.java:2206-2353 | Writing a character, with wrapping, insert mode and character sets, keeps the whole-run invariant and the screen that is not shown; what it writes is said by `WriteOps`. |
| `TerminalState.Linefeed` | app/src/main/java/com/pangbai/terminal/TerminalEmulator.java:1284-1299 | A line feed keeps the invariant, below the scrolling region as well; what it does is said by `FeedOps`. |
| `TerminalState.RestoreCursor` | app/src/main/java/com/pangbai/terminal/TerminalEmulator.java:1423-1434 | Restoring a cursor, also one saved at another size, keeps the invariant. |
| `TerminalState.Resize` | app/src/main/java/com/pangbai/terminal/TerminalEmulator.java:369-402 | A new window size keeps the invariant and is the size of the terminal. |
| `Interpreter.ProcessCodePoint` | app/src/main/java/com/pangbai/terminal/TerminalEmulator.java:550-883 | Every supported character in every parser state keeps the invariant; on the alternate screen it leaves the main one alone. |
| `LineOps.InsertLinesInserts` | app/src/main/java/com/pangbai/terminal/TerminalEmulator.java:1534-1542 | IL inserts blank lines at the cursor and drops the last lines of the region, exactly when no wide character moved takes over marks of the line it comes to. |
| `LineOps.DeleteLinesDeletes` | app/src/main/java/com/pangbai/terminal/TerminalEmulator.java:1543-1552 | DL deletes lines at the cursor and adds blank ones at the end of the region, exactly then. |
| `LineOps.ScrollUpScrolls` | app/src/main/java/com/pangbai/terminal/TerminalEmulator.java:1568-1573 | SU is that many scrolls of the region. |
| `LineOps.ScrollDownInserts` | app/src/main/java/com/pangbai/terminal/TerminalEmulator.java:1574-1589 | SD inserts blank lines at the top margin, exactly then. |
| `LineOps.ReverseIndexInserts` | app/src/main/java/com/pangbai/terminal/TerminalEmulator.java:1372-1381 | RI at the top margin inserts a line there, exactly then; elsewhere it does not change the text. |
| `LineOps.DeleteUndoesInsert` | app/src/main/java/com/pangbai/terminal/TerminalEmulator.java:1534-1552 | Lines inserted and then deleted restore the region but for its last lines, which are blank, exactly when no line takes over marks on its way down and up. |
| `LineOps.NothingBelowMargin` | app/src/main/java/com/pangbai/terminal/TerminalEmulator.java:1534-1552 | Below the bottom margin IL and DL do nothing to the screen. |
| `CellOps.EraseInLineErases` | app/src/main/java/com/pangbai/terminal/TerminalEmulator.java:1517-1533 | What EL does to every cell of the screen. |
| `CellOps.EraseInDisplayErases` | app/src/main/java/com/pangbai/terminal/TerminalEmulator.java:1493-1516 | What ED does to every cell of the screen; its form that forgets the history changes none. |
| `CellOps.EraseCharactersErases` | app/src/main/java/com/pangbai/terminal/TerminalEmulator.java:1590-1593 | What ECH does to every cell of the screen. |
| `CellOps.InsertCharactersInserts` | app/src/main/java/com/pangbai/terminal/TerminalEmulator.java:1454-1463 | ICH inserts spaces at the cursor exactly when no wide character is cut, at the cursor or at the end of the line, and none takes over marks. |
| `CellOps.DeleteCharactersDeletes` | app/src/main/java/com/pangbai/terminal/TerminalEmulator.java:1553-1567 | DCH deletes characters at the cursor exactly when no wide character is cut at either end, and none takes over marks. |
| `CellOps.DeleteUndoesInsert` | app/src/main/java/com/pangbai/terminal/TerminalEmulator.java:1454-1567 | Characters inserted and then deleted restore the line but for its last columns, which are blank, exactly when both do what they should. |
| `EraseOps.ErasedColumn` | app/src/main/java/com/pangbai/terminal/TerminalEmulator.java:1048-1053 | Every cell and style of a row whose columns are erased one by one, protected ones spared: only columns written to change, and the other halves of wide characters. |
| `EraseOps.ProtectedSurvivesExactly` | app/src/main/java/com/pangbai/terminal/TerminalEmulator.java:1048-1053 | A protected character survives a selective erasure exactly when it is narrow, or its second column is protected, too, or outside the area. |
| `EraseOps.ProtectedWideLost` | app/src/main/java/com/pangbai/terminal/TerminalEmulator.java:1048-1053 | A wide character written with protection to a blank row does not. |
| `EraseOps.SelectiveEraseErases` | app/src/main/java/com/pangbai/terminal/TerminalEmulator.java:1016-1055 | What DECSED and DECSEL do to every cell and style of the screen. |
| `EraseOps.SelectiveIsDisplayExactly` | app/src/main/java/com/pangbai/terminal/TerminalEmulator.java:1016-1055 | DECSED goes through the columns that ED erases exactly when the cursor's line is the last one to erase, or is erased as a whole. |
| `EraseOps.SelectiveSparesColumn` | app/src/main/java/com/pangbai/terminal/TerminalEmulator.java:1016-1055 | With the cursor in the second column of the top line, DECSED spares the first column of the next one, which ED erases. |
| `EraseOps.EraseRectangleErases` | app/src/main/java/com/pangbai/terminal/TerminalEmulator.java:679-706 | What DECERA, DECSERA and DECFRA do to every cell and style of the screen. |
| `EraseOps.AreaIsAsked` | app/src/main/java/com/pangbai/terminal/TerminalEmulator.java:694-697 | Their rectangle is the one asked for, counted from the margins in origin mode, as far as it is inside them. |
| `RectangleOps.CopyRectangleCopies` | app/src/main/java/com/pangbai/terminal/TerminalEmulator.java:656-678 | What DECCRA does to every cell of the screen, and to every style unless it goes to the right within the same rows. |
| `RectangleOps.AttributeChanges` | app/src/main/java/com/pangbai/terminal/TerminalEmulator.java:707-767 | Exactly the cells of their area get the changed effect from DECCARA and DECRARA; no text changes. |
| `RectangleOps.AttributesAreThoseOfSgr` | app/src/main/java/com/pangbai/terminal/TerminalEmulator.java:718-757 | Their attributes are those of SGR with the same code, but that 22 leaves dim alone. |
| `Commands.FitsOutsideOriginMode` | app/src/main/java/com/pangbai/terminal/TerminalEmulator.java:712-716 | Outside origin mode the area of DECCARA and DECRARA is on the screen. |
| `RectangleOps.AttributeAreaExactly` | app/src/main/java/com/pangbai/terminal/TerminalEmulator.java:712-716 | There the area has the lines asked for, and in rectangular mode the columns, exactly when the last one asked for is the last but one of the screen, or the first one is beyond the screen or more than one behind the last. |
| `RectangleOps.LastLineStays` | app/src/main/java/com/pangbai/terminal/TerminalEmulator.java:712-716 | There no argument makes DECCARA or DECRARA change the last line of the screen. |
| `Runs.EveryRun` | app/src/main/java/com/pangbai/terminal/TerminalEmulator.java:369-402 | After every run of bytes and window sizes: the cursor on the screen, the margins at least two rows apart, tab stops and the buffer shown of the terminal's size, all rows sound. |
| `Runs.ReverseTwiceAlways` | app/src/main/java/com/pangbai/terminal/TerminalBuffer.java:463-485 | In every terminal that a run reaches all cell styles are encodings, and reversing the effects of any region twice restores them. |
| `Runs.BrokenSequence` | app/src/main/java/com/pangbai/terminal/TerminalEmulator.java:523-538 | A byte that breaks a UTF-8 sequence off puts a replacement on the screen and starts afresh. |
| `Runs.AlternateIsolated` | app/src/main/java/com/pangbai/terminal/TerminalEmulator.java:1161-1188 | No input that stays on the alternate screen, resets included, changes a row of the main screen. |
| `Runs.SavedIsolated` | app/src/main/java/com/pangbai/terminal/TerminalEmulator.java:1409-1421 | Without resets the cursor saved for the main screen stays as it is, too. |
| `Runs.AlternateRoundTrip` | app/src/main/java/com/pangbai/terminal/TerminalEmulator.java:1161-1188 | Leaving the alternate screen after such input restores the main screen, cursor, colours, effect, character sets, and wrap and origin modes. |
| `AlternateScreen.RoundTripByInput` | app/src/main/java/com/pangbai/terminal/TerminalEmulator.java:1014-1188 | The same for the bytes of ESC [ ? 1049 h, input without resets, and ESC [ ? 1049 l. |
| `TerminalEmulators.TerminalEmulator.constructor` | app/src/main/java/com/pangbai/terminal/TerminalEmulator.java:313-322 | A new emulator has two blank screens and all settings as a reset leaves them. |
| `TerminalEmulators.TerminalEmulator.Resize` | app/src/main/java/com/pangbai/terminal/TerminalEmulator.java:369-402 | Margins, tab stops, buffer and cursor take the new size as the terminal value says. |
| `TerminalEmulators.TerminalEmulator.Append` | app/src/main/java/com/pangbai/terminal/TerminalEmulator.java:480-483 | The effect of a chunk of bytes is that of a run over its bytes. |
| `TerminalEmulators.TerminalEmulator.ProcessByte` | app/src/main/java/com/pangbai/terminal/TerminalEmulator.java:485-548 | The byte-by-byte decoder acts as the decoder value and the interpreter say. |
| `TerminalEmulators.TerminalEmulator.Collect` | app/src/main/java/com/pangbai/terminal/TerminalEmulator.java:489-503 | The loop over the bytes of a sequence computes its code point, overlong ones replaced. |
| `TerminalEmulators.TerminalEmulator.ProcessCodePoint` | app/src/main/java/com/pangbai/terminal/TerminalEmulator.java:550-883 | One character acts as the interpreter says, in every parser state. |
| `TerminalEmulators.TerminalEmulator.DoEsc` | app/src/main/java/com/pangbai/terminal/TerminalEmulator.java:1318-1406 | Escape sequences act as the interpreter says. |
| `TerminalEmulators.TerminalEmulator.DoCsi` | app/src/main/java/com/pangbai/terminal/TerminalEmulator.java:1437-1755 | Control sequences act as the interpreter says, for which `CursorOps`, `TabOps`, `EditOps`, `SgrOps`, `ModeOps` and `SettingOps` give the effect of each. |
| `TerminalEmulators.TerminalEmulator.DoCsiQuestionMark` | app/src/main/java/com/pangbai/terminal/TerminalEmulator.java:1014-1096 | Private control sequences act as the interpreter says. |
| `TerminalEmulators.TerminalEmulator.DecSetAll` | app/src/main/java/com/pangbai/terminal/TerminalEmulator.java:1056-1061 | DECSET and DECRST go through all arguments in order. |
| `TerminalEmulators.TerminalEmulator.SaveOrRestoreAll` | app/src/main/java/com/pangbai/terminal/TerminalEmulator.java:1073-1089 | Saving or restoring modes goes through all arguments in order. |
| `TerminalEmulators.TerminalEmulator.DecSetOrReset` | app/src/main/java/com/pangbai/terminal/TerminalEmulator.java:1098-1196 | Sets or clears one mode with everything that comes with it. |
| `TerminalEmulators.TerminalEmulator.UseAlternate` | app/src/main/java/com/pangbai/terminal/TerminalEmulator.java:1161-1188 | Switches the screen as the terminal value says. |
| `TerminalEmulators.TerminalEmulator.SelectPen` | app/src/main/java/com/pangbai/terminal/TerminalEmulator.java:1758-1862 | The loop over the parameters selects the pen that `SgrOps` gives for each code and list. |
| `TerminalEmulators.TerminalEmulator.ParseArg` | app/src/main/java/com/pangbai/terminal/TerminalEmulator.java:2103-2124 | One character of the arguments. |
| `TerminalEmulators.TerminalEmulator.EmitCodePoint` | app/src/main/java/com/pangbai/terminal/TerminalEmulator.java:2206-2353 | Writes a character as the terminal value says, for which `WriteOps` gives cells, cursor and wrap. |
| `TerminalEmulators.TerminalEmulator.DoLinefeed` | app/src/main/java/com/pangbai/terminal/TerminalEmulator.java:1284-1299 | Line feed as the terminal value says, for which `FeedOps` gives history, screen and cursor. |
| `TerminalEmulators.TerminalEmulator.Backspace` | app/src/main/java/com/pangbai/terminal/TerminalEmulator.java:561-572 | Backspace as the terminal value says. |
| `TerminalEmulators.TerminalEmulator.NextTabStop` | app/src/main/java/com/pangbai/terminal/TerminalEmulator.java:1007-1011 | The loop finds the n-th tab stop, or the last column. |
| `TerminalEmulators.TerminalEmulator.SaveCursor` | app/src/main/java/com/pangbai/terminal/TerminalEmulator.java:1409-1421 | Saves the cursor of the screen that is shown. |
| `TerminalEmulators.TerminalEmulator.RestoreCursor` | app/src/main/java/com/pangbai/terminal/TerminalEmulator.java:1423-1434 | Restores it. |
| `TerminalEmulators.TerminalEmulator.SetCursorPosition` | app/src/main/java/com/pangbai/terminal/TerminalEmulator.java:2075-2084 | Puts the cursor within the margins of origin mode, or the screen. |
| `TerminalEmulators.TerminalEmulator.SetTopBottom` | app/src/main/java/com/pangbai/terminal/TerminalEmulator.java:1674-1689 | DECSTBM as the interpreter says. |
| `TerminalEmulators.TerminalEmulator.Reset` | app/src/main/java/com/pangbai/terminal/TerminalEmulator.java:2387-2417 | Puts all settings back. |
| `TerminalEmulators.TerminalEmulator.EraseInDisplay` | app/src/main/java/com/pangbai/terminal/TerminalEmulator.java:1493-1516 | ED as the commands say. |
| `TerminalEmulators.TerminalEmulator.SelectiveErase` | app/src/main/java/com/pangbai/terminal/TerminalEmulator.java:1016-1055 | DECSED and DECSEL as the commands say. |
| `TerminalEmulators.TerminalEmulator.CopyRectangle` | app/src/main/java/com/pangbai/terminal/TerminalEmulator.java:656-678 | DECCRA as the commands say. |
| `TerminalEmulators.TerminalEmulator.EraseRectangle` | app/src/main/java/com/pangbai/terminal/TerminalEmulator.java:679-706 | DECERA, DECSERA and DECFRA as the commands say. |
| `TerminalEmulators.TerminalEmulator.ChangeAttributes` | app/src/main/java/com/pangbai/terminal/TerminalEmulator.java:707-767 | DECCARA and DECRARA as the commands say. |
| `TerminalEmulators.TerminalEmulator.Repeat` | app/src/main/java/com/pangbai/terminal/TerminalEmulator.java:1615-1619 | REP writes the last character that often. |

## Findings

Where the code does not do what one would expect, the model follows the code. Each line names the member with an input
that shows it and the one with the exact condition.

- A reflow can leave the cursor below its character: the loop that inserts skipped blank rows scrolls the screen without
  moving the cursor (app/src/main/java/com/pangbai/terminal/TerminalBuffer.java:275-279), as the other two places do.
  `ReflowLayout.CursorLeftBehind` is such a page, and `ReflowLayout.CursorStaysExactly` the exact condition.
- A reflow drops what is behind the cursor's character on the cursor's row: it keeps all text exactly when that is blank
  (`ResizeText.ReflowKeepsTextExactly`). With the cursor on "a", "ab" loses its "b" (`ResizeText.ReflowLosesText`).
- A shrink counts blank rows anywhere below the cursor and gives up as many at the bottom, blank or not: it keeps all
  text exactly when those are blank (`ResizeText.ShrinkKeepsTextExactly`). Below "a" with the cursor, a blank row and
  "b" lose the "b" when they shrink by one (`ResizeText.ShrinkLosesText`), and growing back does not restore it
  (`ResizeText.GrowingBackLosesText`, and `FastResize.ShrinkThenGrowExactly` for the condition).
- A shrink of the alternate screen shortens its ring without moving rows. Unless the screen then starts at the first
  slot it shows the wrong rows (`ResizeText.AlternateShrinkExactly`): of "a", "b" and "c" with the cursor on the last
  one there remain "b" and "a", in this order, with the cursor on "a" (`ResizeText.AlternateShrinkScrambles`).
- The check for overlong UTF-8 compares with `<` where `<=` is meant, twice: E0 9F BF is decoded to U+07FF
  (`Utf8.OverlongReplaced` for all sequences, `Utf8.OverlongAccepted` for these two).
- Copying columns to the right within a row smears the styles, unless they are periodic
  (`RowCopy.SmearIsMoveWhenPeriodic`); `RowCopy.SmearsStyles` is such a row.
- A copied wide character takes over the marks of the narrow cell that its second column covers. So IL, DL, SD, RI, ICH
  and DCH move text unchanged only when there are none: `CellCopy.MarkTakenOver` is an example, `CellCopy.RowOverExactly`
  the condition for one row, and the rows of `LineOps` and `CellOps` state it for the commands.
- Writing a wide character styles its first column only. So the selective erasures can destroy a protected one through
  its second column: `EraseOps.ProtectedWideLost`, and `EraseOps.ProtectedSurvivesExactly` for the condition.
- DECSED erases a rectangle: on the lines below (or above) the cursor it spares the columns to the left (or right) of
  the cursor, which ED erases (`EraseOps.SelectiveSparesColumn`, and `EraseOps.SelectiveIsDisplayExactly` for the
  condition).
- Outside origin mode DECCARA and DECRARA go one line and one column further than asked for, but never reach the last
  line (`RectangleOps.LastLineStays`) or column; `RectangleOps.AttributeAreaExactly` is the condition.
- A recycled row keeps its line wrap mark, because clearing a row does not reset it (`Page.ScrollSlots`); in
  `Page.BlankRowIsWrapped` a blank row is marked as wrapped.
- In origin mode CNL, CPL, HPA and VPR add the top margin to a row that already counts from the top of the screen, so
  HPA, which should change the column only, moves the cursor down: `CursorOps.RowIsKeptExactly` says when it does not.
- A wrap below the scrolling region scrolls the region and stays on its row, which the text behind the wrap overwrites
  (`WriteOps.WrapLineWraps`).
- Saving a private mode always saves it as set, so saving and restoring turns it on: `ModeOps.SavingTurnsOn`, and
  `ModeOps.SaveAndRestoreExactly` for the condition.
- ESC F, meant for the lower left corner, gives row and column the wrong way round (`MotionOps.GoesToTopRow`).
- DECDC moves columns to the left and blanks none at the right edge (`MotionOps.MovedLeftIsDeletedExactly`).
- After a reflow that fills the ring a row can be marked as wrapped whose line ends, as it took over the mark of a
  dropped row: `ReflowLines.MarkIsInherited`, and `ReflowLines.MarksStayExactly` for the condition.
- `read` of a closed queue returns -1 even when bytes remain: they are never delivered, so all bytes stored are
  delivered exactly when the queue was empty on closing (`QueueMonitor.ClosedDeliversExactly`,
  `QueueMonitor.ClosedLosesBytes`).

## Left out

- Left and right margins (DECLRMM with DECSLRM): without them the margins are the edges of the screen; with them the
  cursor can leave the margins. The branch of the scroll for such margins is not modelled.
- DECCARA and DECRARA with an area that leaves the screen at the bottom, as it can in origin mode, because the top margin
  is added after clipping (`Commands.AttributeFits`): the source throws there, or goes on in a slot below the screen.
- Windows with more rows than the main buffer has slots (at least 100): the source accepts them, and then rows of the
  screen share slots of the ring. Sizes below 2 by 2, which it rejects.
- TerminalEmulators.TerminalEmulator.Resize: requires at least 2 columns and 2 rows, and no more rows than the main
  buffer's ring; the source throws for the first and lets rows share slots for the second.
- TerminalEmulators.TerminalEmulator.constructor: the same for the first size; the choice of the ring's length from the
  preferences is not modelled.
- TerminalEmulators.TerminalEmulator.Append: requires `Runs.CanRun`, so no sequence that sets left and right margins, and
  no DECCARA or DECRARA whose area leaves the screen.
- TerminalEmulators.TerminalEmulator.ProcessByte: the same for one byte.
- TerminalEmulators.TerminalEmulator.ProcessCodePoint: the same for one character.
- TerminalEmulators.TerminalEmulator.DoCsi: leaves the final character s out while left and right margins are enabled.
- Interpreter.ProcessCodePoint: the same as the method of that name.
- Runs.EveryRun: admits neither these sequences nor windows with more rows than the main buffer's ring.
- TerminalState.Resize: requires no more rows than the main buffer's ring.
- TerminalBuffers.TerminalBuffer.Resize: requires no more new rows than the ring will have slots; the source lets rows
  share slots then.
- TerminalBuffers.TerminalBuffer.constructor: requires two columns and no more screen rows than slots; the source does
  not check.
- TerminalBuffers.TerminalBuffer.BlockSet: requires a fill character of width 1; all callers fill with spaces or
  the letter E.
- RowCopy.CopySimple: leaves out rows with wide characters or marks, for which `CellCopy.CopiedCell` gives the cells, and
  `StyleCopy.CopiedStyle` the styles unless the row copies to its own right.
- Page.BlockCopyIsMemmove: leaves out such rows; `Page.BlockCopyCell` and `Page.BlockCopyStyle` are about all rows.
- StyleCopy.CopiedStyle: leaves out copies to the right within a row; on rows of single code points
  `RowCopy.CopySimple` says what they do.
- TerminalRows.TerminalRow.SetChar: requires the column and the character to fit in the row; the source throws for a bad
  column, and for a wide character in the last column its callers wrap first or give up.
- The used length of a row's text is unbounded; in the source it is a 16-bit number.
- Arguments of control sequences are unbounded; in the source they can overflow 32 bits.
- What operating system commands and device control strings do: titles, colours, clipboard, status strings. Their
  characters are counted, and their effect on the parser is kept.
- Replies other than cursor reports: device attributes and status, mode and size reports.
- Text lookup (selected text, words, links), mouse and key input, bracketed paste, the shape and blinking of the cursor,
  the scroll counter, colour schemes and logging.
- `Character.getType` and the width tables as literals: they are arbitrary tables of the shape the code relies on.
- In `QueueMonitor` and `Session` a section under the monitor's lock is one step, and any waiting thread may wake up
  without a notification. Fairness of the scheduler, interrupts, and the end of the process beyond its message are not
  modelled.
- In the alternate-screen properties the input on the alternate screen has no change of window size.
