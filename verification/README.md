# Roboot: verified models of its stateful core

Roboot is a hub that connects a daemon with terminals, phones, a browser page
and chat surfaces. Most of it is input and output; this project models the
small stateful algorithms in between and proves what they promise, in Dafny.
`dafny verify dfyconfig.toml` checks everything.

## What is modelled

**Terminal colours** (`Ansi`, `CellPrinter`, `TerminalRoundTrip`,
`TerminalMeaning`). The bridge
prints styled cells as text with SGR control sequences (ECMA-48, sections 5.4
and 8.3.117), only where the style changes. The browser's parser keeps an
unfinished tail in a buffer and carries the style from call to call. Proved:
how a stream is cut into calls makes no difference, for any text, style and
leftover buffer; and printing then parsing gives back every character with its
look, exactly for lines and screens whose cells hold no ESC. What each colour,
code, sequence and hyperlink means is also stated in plain numbers.

**Reminders** (`Reminders`, `DispatchProtocol`, `DispatchTheorems`,
`DisjointOrigins`). Several dispatchers share one table. The SELECT, each
UPDATE, each delivery and each finalization is a step of its own; adds and
cancels fall anywhere between. Proved over all runs: one claim per reminder at a
time, at-most-once delivery of one-shots, conservation, the retry bound, and
that a cancelled reminder stays silent. With disjoint origins also: claims are
fresh, retries are counted exactly, due times move forward, and recurring
reminders keep their rhythm.

**Base32** (`Base32`). The browser's accumulator loop is never masked and relies
on 32-bit shifts dropping old bits. It computes the encoding of section 6 of
RFC 4648 without padding, and agrees with the daemon's fingerprint.

**Chat search** (`ChatSearch`, `ChatIndex`, `ChatConnections`). Triggers keep a
full-text index equal to the table; a one-time rebuild, run by whichever
connection comes first, brings in older rows. Both query routes find exactly
the messages in scope that contain the query.

**Approvals** (`Approval`). Requests with futures, settled by a decision from
any surface, a timeout or a cancellation, for both `tool_guard.py` and
`soul_review.py`. The model tells a timeout from an explicit no, where the code
returns REJECTED for both.

**Relay** (`Relay`, `RateLimiter`). The session object with its sockets, stored
token and alarm; the sliding-window limiter in front of it.

**Terminal reads, watcher, speech** (`Cursor`, `SessionWatcher`, `PromptLine`,
`PromptLineMeaning`, `TtsSegments`). The cursor protocol between bridge and browser, the watcher that
notifies once per prompt, the cleaning of prompt lines, and the cutting of
replies into spoken chunks.

`Text` holds the string operations of Python and JavaScript that several of
these use.

Code that updates state is a class or a method with loops, proved against a
specification function; protocols are step systems (`Step`, `Enabled`, `Next`,
`Run`) over the same functions, with an invariant kept by every step.

## Where the code differs from its comments

The models follow the code.

- `iterm_bridge.py:106`: the final `rstrip()` removes nothing, because the line
  always ends in a reset (`CellPrinter.RenderLineKeepsAll`).
- `static/ansi_up.js:161`: the anchor of the CSI expression belongs to its first
  alternative only, so an illegal sequence later in the buffer can make the
  parser give up a front that is not itself illegal
  (`Ansi.UnanchoredGivesUpTheFront`), though only one that holds a character
  above `~` (`Ansi.UnanchoredOnlyPastTilde`). No further input could have
  completed such a front (`Ansi.NoCsiAcrossTheCut`), so splitting stays harmless.
- `tools/scheduler.py:19-22`: the claim alone keeps two dispatchers from
  delivering at the same time, but only disjoint origins keep a claim's values
  fresh (`DisjointOrigins.FreshIffDisjoint`: exactly these do).
- `tool_guard.py:600-602`: "always clean up" does not cover a gate cancelled
  during its broadcast, which lies before the `try`
  (`Approval.CancelledBroadcastLeaks`; `Approval.LeftBehindByItsRun` says when).
- `tool_guard.py:422-423`: with Python 3.12 or later, a True from
  `resolve_decision` can still end in a timeout (`Approval.AcceptedMayTimeOut`;
  `Approval.AcceptedTakesEffectExactly` says when it takes effect).
- `chat_store.py:117-119`: the swallowed backfill error can end in a corrupt
  index with the marker set (`ChatConnections.FailedBackfillCanCorrupt`;
  `ChatConnections.BuiltIsExactUnlessDamaged` says when).
- `session_watcher.py:48-49`: sanitising is idempotent except for lines that the
  200-character cut ends in `&l` or `&g` (`PromptLine.IdempotentExactly`; 198
  letters and a `<` are such a line: `PromptLine.SanitizeCanLeaveAnAmpersand`).
- `session_watcher.py:71`: the cut can still leave part of an entity, namely
  `&a`, `&am`, `&l` or `&g` (`PromptLine.CleanExactly`, with the same line).
- `relay/src/pair-page.ts:1234-1235`: the chunks are not newline-terminated
  (`iterm_bridge.py:299` joins without a final newline), so what is proved of
  the cursor is about line numbers and about the text as received. Text that
  reads exactly like the page's own placeholder is erased
  (`Cursor.FirstLineCanBeErased`; `Cursor.ShowsAllTextUnlessMistaken` says when).
- `adapters/tts_streamer.py:69-72`: a cap of zero is no cap
  (`TtsSegments.ZeroIsNoCap`; `TtsSegments.CapKeptExactly` says which caps are
  kept).

## Model

| member | source | states |
|---|---|---|
| Ansi.MatchCsiIs | static/ansi_up.js:159-163 | The matcher finds a legal CSI sequence at the front if and only if one is there by the expression's grammar; there is at most one way to match |
| Ansi.MatchOscIs | static/ansi_up.js:225-228 | The same for the hyperlink expression: parameters, URL of at most 512 characters, terminator, text, closing sequence |
| Ansi.NextMarkIs | static/ansi_up.js:195-224 | The scan for a string terminator or an illegal character stops at the first one after its start, or at the end |
| Ansi.NextPacket | static/ansi_up.js:249-258 | A packet that stops the parser leaves the buffer alone; every other packet shortens it, so the loop ends |
| Ansi.NextPacketStable | static/ansi_up.js:125-248 | A packet once recognised is recognised in every extension of the buffer, with the rest extended accordingly, inside CSI, OSC 8 and `ESC (` too |
| Ansi.NoCsiAcrossTheCut | static/ansi_up.js:159-173 | Where an illegal sequence stands anywhere in the buffer and the front is no legal one, no further input makes the front legal |
| Ansi.UnanchoredOnlyPastTilde | static/ansi_up.js:161 | If an illegal sequence stands in the buffer but none starts it, a character above `~` stands in it |
| Ansi.UnanchoredGivesUpTheFront | static/ansi_up.js:161-173 | A concrete buffer whose unfinished front is given up because of an illegal sequence later on |
| Ansi.DrainText | static/ansi_up.js:134-146 | ESC-free text is shown character by character in the current style, whatever follows it |
| Ansi.DrainSplit | static/ansi_up.js:121-268 | For every style, buffer and cut: parsing the first part, then the leftover with the second part, shows the same glyphs and ends in the same style and buffer as parsing everything at once |
| Ansi.CutsDoNotMatter | static/ansi_up.js:249-268 | Any number of calls, cut anywhere, equals one call with the whole text |
| Ansi.AnsiUp.constructor | static/ansi_up.js:17-33 | A new parser has the full palette, an empty buffer and the default style |
| Ansi.AnsiUp.SetupPalettes | static/ansi_up.js:60-104 | The nested loops build 256 entries: 16 named colours, the cube by base-6 digits of n - 16, the grey ramp |
| Ansi.AnsiUp.AppendBuffer | static/ansi_up.js:121-124 | Appends to the buffer and touches nothing else |
| Ansi.AnsiUp.GetNextPacket | static/ansi_up.js:125-248 | Takes exactly the packet of the specification off the buffer |
| Ansi.AnsiUp.GetLink | static/ansi_up.js:183-241 | The hyperlink branch, with its incomplete and illegal cases |
| Ansi.AnsiUp.ProcessAnsi | static/ansi_up.js:272-356 | Shifting parameters off one by one has the effect of the whole parameter list, with its 38/48 sub-lists, truncated ones included |
| Ansi.AnsiUp.SetCode | static/ansi_up.js:277-327 | The effect of one parameter on the seven style fields |
| Ansi.AnsiUp.SetChannel | static/ansi_up.js:334-351 | Sets the foreground or the background, and only that |
| Ansi.AnsiUp.AnsiToHtml | static/ansi_up.js:249-271 | A call shows the glyphs, and leaves the style and the buffer, that the specification gives for leftover plus input |
| CellPrinter.StyleSgr | iterm_bridge.py:52-73 | The parameters in source order, joined by semicolons; nothing for a plain style |
| CellPrinter.RenderLineAnsi | iterm_bridge.py:87-106 | The loop with `last_key` prints the line as specified: a reset and the style only where the key changes |
| CellPrinter.RenderLineKeepsAll | iterm_bridge.py:105-106 | The final strip removes nothing |
| TerminalRoundTrip.SplitParams | iterm_bridge.py:19-73 | Splitting the printed parameters gives the style's single codes back |
| TerminalRoundTrip.ApplyStyle | static/ansi_up.js:272-356 | From the default style, a printed style's codes give exactly its colours and flags |
| TerminalRoundTrip.DrainStyleChange | iterm_bridge.py:97-102 | A style change in the stream sets exactly its cell's style, whatever the style was before |
| TerminalRoundTrip.KeyDeterminesLook | iterm_bridge.py:76-84 | Cells with equal keys look equal, so leaving the change out is safe |
| TerminalRoundTrip.CellsRoundTrip | iterm_bridge.py:91-105 | From any column on, with the style and key reached there, the rest of the line is shown right |
| TerminalRoundTrip.LineThenTail | iterm_bridge.py:87-106 | A printed line followed by any text: its cells, then the text in the default style |
| TerminalRoundTrip.NeverShowsEsc | static/ansi_up.js:134-158 | The parser never shows an ESC character, in any state |
| TerminalRoundTrip.LineRoundTrip | iterm_bridge.py:87-106 | From any style, parsing a printed line gives back every character with its cell's look and ends in the default style with an empty buffer, if and only if no cell holds ESC |
| TerminalRoundTrip.ScreenRoundTrip | iterm_bridge.py:281-299 | The same for one or more lines joined by newlines, again if and only if no cell holds ESC |
| TerminalRoundTrip.StreamedScreen | static/ansi_up.js:249-268 | A fresh parser that receives a printed screen in chunks, cut anywhere, has shown exactly the cells and is back in its initial state, if and only if no cell holds ESC |
| TerminalMeaning.NamedPalette | static/ansi_up.js:61-83 | Palette entries 0 to 15, channel by channel: red, green and blue are bits 1, 2 and 4, with the class names |
| TerminalMeaning.CubePalette | static/ansi_up.js:90-98 | Entry 16 + 36 r + 6 g + b has channels 0 or 55 + 40 times each coordinate |
| TerminalMeaning.GreyPalette | static/ansi_up.js:99-103 | Entry 232 + i is the grey 8 + 10 i |
| TerminalMeaning.ResetCodesMean | static/ansi_up.js:277-315 | An empty code and 0 reset everything, 39 and 49 one colour |
| TerminalMeaning.SettingCodesMean | static/ansi_up.js:285-296 | 1, 2, 3 and 4 set bold, faint, italic and underline, and only that |
| TerminalMeaning.ClearingCodesMean | static/ansi_up.js:297-309 | 21, 22, 23 and 24 clear bold, bold and faint, italic, underline |
| TerminalMeaning.ColorCodesMean | static/ansi_up.js:316-327 | 30, 40, 90 and 100 plus n set the foreground or background to the palette's entry n or 8 + n |
| TerminalMeaning.OtherCodesMeanNothing | static/ansi_up.js:274-355 | Every other code, 38 and 48 aside, changes nothing |
| TerminalMeaning.ChannelsMean | static/ansi_up.js:341-352 | 38 or 48 with 2 sets exactly the channels given, in the order red, green, blue, if all are at most 255, and uses up the list's five parts either way |
| TerminalMeaning.IndexMeans | static/ansi_up.js:332-340 | 38 or 48 with 5 sets the palette's entry if the index is at most 255, and uses up three parts either way |
| TerminalMeaning.CutOffColors | static/ansi_up.js:328-354 | What a colour list that is cut off, or of another mode, does to the parts after it |
| TerminalMeaning.Classes | static/ansi_up.js:161-227 | The expressions' character classes by code |
| TerminalMeaning.GlyphsAre | static/ansi_up.js:269-271 | Text becomes one glyph a character, with exactly the style of the moment |
| TerminalMeaning.OtherSequencesMeanNothing | static/ansi_up.js:174-181 | Every control sequence other than SGR, private ones included, is taken as a whole and has no effect |
| TerminalMeaning.CharsetMeansNothing | static/ansi_up.js:242-246 | `ESC (` takes one more character along and has no effect |
| TerminalMeaning.LoneEscMeansNothing | static/ansi_up.js:152-158 | Before any other character ESC alone is dropped |
| TerminalMeaning.UnfinishedWaits | static/ansi_up.js:163-167 | A sequence that is cut off shows nothing and stays in the buffer |
| TerminalMeaning.IllegalGivesUp | static/ansi_up.js:168-173 | A character that cannot stand in a sequence costs it its ESC, and the rest is read again |
| TerminalMeaning.OscMarks | static/ansi_up.js:195-211 | What ends an operating-system command and what must not stand in one, by code |
| TerminalMeaning.OtherCommandsMeanNothing | static/ansi_up.js:188-194 | Of a command other than `8;` ESC alone is dropped |
| TerminalMeaning.UnfinishedLinkWaits | static/ansi_up.js:200-204 | A hyperlink without its terminator shows nothing and stays in the buffer |
| TerminalMeaning.BrokenLinkGivesUp | static/ansi_up.js:205-210 | One with an illegal character before the terminator loses its ESC |
| TerminalMeaning.LinksAreShown | static/ansi_up.js:183-241 | A well-formed hyperlink is shown as one, with its own URL and text, if its URL has at most 512 characters; otherwise its ESC is dropped |
| TerminalMeaning.ColorsPrint | iterm_bridge.py:19-49 | The parameters of each kind of colour, foreground and background |
| TerminalMeaning.CellsLook | iterm_bridge.py:19-84 | How a cell is meant to look, channel by channel and flag by flag |
| TerminalMeaning.CodesOnlyOnChange | iterm_bridge.py:91-104 | Cells with one key are printed as their codes, if the cell before had another key, and then as bare text |
| TerminalMeaning.PrintedLine | iterm_bridge.py:87-106 | The exact text printed for a line of three cells |
| Reminders.LateFrom | tools/scheduler.py:209-213 | Slot j is later than now if and only if j has reached the slot count |
| Reminders.NextSlotIsLeast | tools/scheduler.py:209-213 | The next slot is the least of due + k * repeat, k >= 1, that is later than now, and later than the old due time |
| Reminders.FindNextSlot | tools/scheduler.py:209-213 | The loop ends with that slot |
| Reminders.ReminderStore.constructor | tools/scheduler.py:54-68 | An empty table |
| Reminders.ReminderStore.Add | tools/scheduler.py:89-101 | A new id, one new unfired row, the other rows as they were |
| Reminders.ReminderStore.Cancel | tools/scheduler.py:136-154 | True exactly for a pending row in the caller's scope, which is then gone |
| Reminders.ReminderStore.SelectDue | tools/scheduler.py:165-169 | Exactly the due, unfired rows of the origins, each once, in some order |
| Reminders.ReminderStore.TryClaim | tools/scheduler.py:172-176 | Affects the row exactly if it was unfired |
| Reminders.ReminderStore.ClaimDue | tools/scheduler.py:157-188 | Undisturbed, the claim loop returns exactly the due rows with their stored values and fires exactly these |
| Reminders.ReminderStore.Finalize | tools/scheduler.py:191-238 | Each of the six outcomes by delivered, retries left and recurring |
| Reminders.ReminderStore.Reschedule | tools/scheduler.py:219-237 | The un-firing UPDATE; no effect on a missing row |
| DispatchProtocol.InitInv | tools/scheduler.py:266-272 | The invariant holds of an empty table and idle dispatchers |
| DispatchProtocol.NextKeeps | tools/scheduler.py:157-289 | Every step of every interleaving keeps the invariant: claims distinct and held once, rows fired while held, books of deliveries and drops |
| DispatchProtocol.RunKeeps | tools/scheduler.py:266-293 | So does every run |
| DispatchTheorems.AtMostOneClaim | tools/scheduler.py:19-22 | In every reachable state no id is held twice, by two dispatchers or by one |
| DispatchTheorems.OneShotAtMostOnce | tools/scheduler.py:217-238 | A one-shot is reported delivered at most once over the whole run, and not at all once cancelled |
| DispatchTheorems.Conservation | tools/scheduler.py:157-238 | Every added reminder is in exactly one of: pending, held, delivered, dropped, cancelled |
| DispatchTheorems.AttemptsBelowLimit | tools/scheduler.py:224-229 | Stored attempts stay below MAX_RETRIES |
| DispatchTheorems.CancelledForGood | tools/scheduler.py:136-176 | After a successful cancel nothing more happens to that id in any continuation, even if the cancel fell between a SELECT and its UPDATE |
| DispatchTheorems.CancelReportsTruth | tools/scheduler.py:150-154 | A cancel that reports success cancels, with nobody holding the id; one that does not changes nothing |
| DispatchTheorems.FinalizeExactly | tools/scheduler.py:209-238 | The row after a finalization, in numbers: the least due + k * repeat later than now after a delivery or 4320 failures, now + 20 seconds and one more attempt after any other failure, unchanged for a one-shot that is through; nothing else changes |
| DispatchTheorems.SelectExactly | tools/scheduler.py:165-169 | A SELECT reads exactly the unfired rows of its origins with `due_at` at most now |
| DispatchTheorems.CancelExactly | tools/scheduler.py:136-154 | A cancel takes exactly a pending row with the caller's origin and target, where given |
| DispatchTheorems.AddExactly | tools/scheduler.py:89-101 | An add stores the row as given, unfired and without attempts, under a new id |
| DispatchTheorems.BooksAreSteps | tools/scheduler.py:273-289 | The counts of deliveries and failures are those of the run's delivery steps |
| DispatchTheorems.OneShotReportedOnce | tools/scheduler.py:217-238 | No run has two steps that report one one-shot reminder as delivered |
| DispatchTheorems.NothingAfterCancel | tools/scheduler.py:136-176 | After a successful cancel no step of any continuation hands the reminder to a surface |
| DisjointOrigins.NextStrict | tools/scheduler.py:157-289 | With disjoint origins every step keeps claims fresh and failures counted |
| DisjointOrigins.ClaimCarriesStoredValues | tools/scheduler.py:157-188 | A successful claim carries the row's stored values, its due time and attempts among them, and is due |
| DisjointOrigins.DroppedAfterMaxRetries | tools/scheduler.py:224-238 | A one-shot is dropped after exactly MAX_RETRIES failed deliveries; until then `attempts` counts them |
| DisjointOrigins.UnfireMovesForward | tools/scheduler.py:217-237 | A row given back to the table is due strictly later than before and later than the pass's clock |
| DisjointOrigins.KeepsItsRhythm | tools/scheduler.py:209-223 | Without failed deliveries every due time of a recurring reminder is the first plus a whole number of periods |
| DisjointOrigins.SharedOriginGoesStale | tools/scheduler.py:165-187 | Whenever two dispatchers share an origin, a run leads to a claim that is neither due nor fresh |
| DisjointOrigins.FreshIffDisjoint | tools/scheduler.py:13-22 | For every assignment of origins: all successful claims of all runs carry the stored, due row if and only if no two dispatchers share an origin |
| Base32.Base32 | relay/src/pair-page.ts:796-809 | The unmasked 32-bit loop outputs the encoding of RFC 4648, section 6, without padding, for bytes of any length |
| Base32.Encode | relay/src/pair-page.ts:794-809 | That encoding has ceil(8n / 5) characters |
| Base32.StepIn | relay/src/pair-page.ts:800-801 | Shifting in a byte keeps the loop's state right although old bits stay in the word until the shift drops them |
| Base32.StepOut | relay/src/pair-page.ts:802-805 | Taking five bits writes the next group of the stream |
| Base32.StepEnd | relay/src/pair-page.ts:807 | The last one to four bits, filled up with zeros, complete the encoding |
| Base32.RoundTrip | relay/src/pair-page.ts:794-809 | Decoding an encoding gives the bytes back, at any length |
| Base32.TestVectors | relay/src/pair-page.ts:794-809 | Two test vectors of section 10 of RFC 4648 |
| Base32.PaddingStripsOff | identity.py:34 | Stripping `=` from the padded encoding leaves the unpadded one |
| Base32.PaddingIs | identity.py:33-34 | The daemon's padding is `=` up to a multiple of eight characters |
| Base32.BrowserFingerprint | relay/src/pair-page.ts:867 | The browser's fingerprint equals the daemon's (identity.py:30-34): 26 characters, each from a to z or 2 to 7 |
| ChatSearch.EscapesOnce | chat_store.py:240 | Three replacements in this order escape each character exactly once |
| ChatSearch.LikeLiteral | chat_store.py:240-245 | Escaped text matches itself and nothing else |
| ChatSearch.LikeIsContains | chat_store.py:240-248 | The LIKE route accepts a content exactly if it contains the query |
| ChatSearch.QuoteReadsBack | chat_store.py:222-224 | The quoted phrase reads back as one string with the query as its text and nothing after it |
| ChatSearch.PhraseIsContains | chat_store.py:219-235 | For three or more characters the phrase of consecutive trigrams occurs in an indexed row exactly if the row contains the query |
| ChatIndex.InsertKeepsExact | chat_store.py:72-74 | The insert trigger keeps the index equal to the table's postings |
| ChatIndex.DeleteKeepsExact | chat_store.py:75-78 | So does the delete trigger, without corrupting the index |
| ChatIndex.UpdateKeepsExact | chat_store.py:79-83 | So does the update trigger |
| ChatIndex.DeleteOneMore | chat_store.py:75-78 | A DELETE of many rows does not depend on the order in which its trigger fires |
| ChatIndex.DeletedKeepsExact | chat_store.py:122-124 | A DELETE of any set of rows keeps the index exact |
| ChatIndex.ChatStore.Backfill | chat_store.py:105-116 | Sets the marker; rebuilds exactly when it was missing and there are rows |
| ChatIndex.ChatStore.Record | chat_store.py:146-157 | One new row, indexed; the session's time stamp moves if the session is there |
| ChatIndex.ChatStore.DeleteRows | chat_store.py:124 | Row by row, each with its trigger, the rows are gone and an exact index stays exact |
| ChatIndex.ChatStore.PurgeOld | chat_store.py:122-130 | Drops messages past the configured retention period and old sessions without messages; the index stays exact |
| ChatIndex.ChatStore.WipeAll | chat_store.py:272-286 | Deletes everything and returns the count; an exact index ends empty |
| ChatConnections.NextKeeps | chat_store.py:92-157 | Every step, failed backfills included, keeps: the index has entries of table rows only, and all of them once anyone relies on it |
| ChatConnections.BlindExactly | chat_store.py:70-83 | As long as nothing was rebuilt, a write feeds the index a delete of something it lacks exactly if it touches a row of the old file with at least three characters |
| ChatConnections.RebuildLasts | chat_store.py:112-113 | A rebuild makes the index exact for the rest of the run |
| ChatConnections.WithoutRebuild | chat_store.py:70-83 | Without a rebuild the index is corrupt in the end exactly if a searchable row of the old file was deleted or updated |
| ChatConnections.BuiltIsExactUnlessDamaged | chat_store.py:105-119 | In every run, failed backfills included, with the marker set: the index is exactly the table's if and only if the run has a rebuild, or no write touches a row of the old file with at least three characters |
| ChatConnections.NoStepIsBlind | chat_store.py:70-83 | With the marker set, no write feeds the index a delete of something it lacks |
| ChatConnections.RebuiltOnce | chat_store.py:105-116 | Once the marker is set and the backfills under way are through, no run rebuilds again |
| ChatConnections.BuiltMeansExact | chat_store.py:105-116 | If nobody writes before the marker is set, the marker means an exact index in every reachable state |
| ChatConnections.CarefulWithoutFailure | chat_store.py:92-102 | Without failed backfills the code's own order guarantees that |
| ChatConnections.SearchFindsExactly | chat_store.py:198-257 | In every run, failed backfills included, with the marker set and under that condition: both routes find exactly the messages in scope that contain the stripped query |
| ChatConnections.NobodyElsesMessages | chat_store.py:205-217 | A search with a surface and a user returns messages of that user's sessions on that surface only |
| ChatConnections.ReadyCanSearch | chat_store.py:92-102 | A connection in use, in a run without failed backfills, meets that condition |
| ChatConnections.FailedBackfillCanCorrupt | chat_store.py:117-119 | A concrete run with a failed backfill that ends with the marker set over a corrupt index |
| Approval.NextKeeps | tool_guard.py:573-609 | Every step keeps: a future is set by its one registered decision only, outcomes agree with it, an entry is there until heard or removed |
| Approval.SettledAtMostOnce | tool_guard.py:419-429 | At most one decision per request id is heard while it is registered |
| Approval.ApprovedOnlyByApproval | tool_guard.py:594-609 | A gate ends approved (or explicitly rejected) only if that one decision for its own id said so and was accepted |
| Approval.LeftBehindExactly | soul_review.py:183-199 | Which entries outlive their gate, for both modules: exactly those cancelled at the points that clean nothing up and never decided |
| Approval.LeftBehindByItsRun | tool_guard.py:588-603 | For every run: an ended gate's entry is left behind if and only if no decision for it came after its start and a cancellation struck, for tool_guard during its broadcast, for soul_review (soul_review.py:183-192) at any time |
| Approval.CancelledBroadcastLeaks | tool_guard.py:588-603 | A concrete run in which an entry outlives its gate |
| Approval.AcceptedMayTimeOut | tool_guard.py:422-429 | A concrete run in which an accepted approval ends in a timeout |
| Approval.AcceptedTakesEffectExactly | tool_guard.py:422-429 | For every run and either module: the outcome of an ended gate is that of the decision accepted for it if and only if neither its timeout nor a cancellation struck |
| Approval.FirstAnswerDecides | tool_guard.py:594-609 | For every run: a gate that ends approved, or explicitly rejected, passes on the first answer given for its id after it started |
| Approval.TimedOutByExpiry | tool_guard.py:596-598 | A gate times out only in a run in which its timeout expired |
| Approval.AllAreCalled | tool_guard.py:588-595 | A gate waits only after it has called every broadcaster it found; one cancelled before leaves some out |
| Approval.Registry.constructor | tool_guard.py:386 | An empty registry |
| Approval.Registry.Open | tool_guard.py:573-576 | Registers an unset future under the id |
| Approval.Registry.ResolveDecision | soul_review.py:117-127 | The entry is gone; only an unset future takes the value, and only then is the answer True |
| RateLimiter.AfterAfter | relay/src/index.ts:39-42 | Pruning twice is pruning once with the later cutoff |
| RateLimiter.AdmitKeepsBound | relay/src/index.ts:130-133 | One request keeps the bound on every window |
| RateLimiter.WindowBound | relay/src/index.ts:27-50 | With a clock that never runs backwards, no window of one hour, wherever it lies, holds more than ten recorded sessions of an address |
| RateLimiter.TenPerHour | relay/src/index.ts:27-30 | From an address's first request on: counted over its whole history, at most 10 sessions in any 3 600 000 ms |
| RateLimiter.AdmittedExactly | relay/src/index.ts:40-43 | A request is let through, and recorded, exactly if fewer than ten sessions were recorded in the hour before the check |
| RateLimiter.Limiter.constructor | relay/src/index.ts:28 | No timestamps |
| RateLimiter.Limiter.IsRateLimited | relay/src/index.ts:32-44 | The pruned list decides exactly as the full history would |
| RateLimiter.Limiter.RecordSession | relay/src/index.ts:46-50 | Appends to that address's list only |
| RateLimiter.Limiter.AdmitDaemon | relay/src/index.ts:129-133 | Checks, then records exactly if let through |
| Relay.NextKeeps | relay/src/relay-session.ts:137-321 | Every handler keeps the session's invariant |
| Relay.SocketBounds | relay/src/relay-session.ts:138-185 | In every reachable state at most one daemon, at most five clients, and clients only with a daemon |
| Relay.WhileDaemonConnected | relay/src/relay-session.ts:424-429 | While a daemon is connected the stored token is absent or its own, of 32 characters or more, and the alarm is last activity plus one hour |
| Relay.DaemonGoneLeavesNobody | relay/src/relay-session.ts:271-296 | A daemon's close or error leaves no sockets and no alarm |
| Relay.RevokedStaysShut | relay/src/relay-session.ts:169-176 | After a revoke no run without a new daemon upgrade admits a client, whatever its token |
| Relay.RevokeShuts | relay/src/relay-session.ts:239-242 | A revoke by the daemon removes all clients and the token and keeps the daemon |
| Relay.AdmittedExactly | relay/src/relay-session.ts:119-195 | A client is let in exactly if a daemon is connected, its token passes the test against the stored one, which is that of the daemon, and fewer than five are in; which status stands for which obstacle |
| Relay.DaemonJoinsExactly | relay/src/relay-session.ts:108-157 | A daemon joins exactly with a token of 32 characters or more and no other daemon; 401 and 409 otherwise |
| Relay.MessageIsActivity | relay/src/relay-session.ts:201-242 | A message re-arms the alarm and marks its sender; only the daemon's revocation closes sockets |
| Relay.SocketGoneExactly | relay/src/relay-session.ts:271-296 | What a close and an error of a client and of the daemon take along |
| Relay.AlarmExactly | relay/src/relay-session.ts:299-321 | The alarm ends the session after an hour, or if the daemon has been silent for over 90 seconds; otherwise it closes exactly the silent clients |
| Relay.AlarmOutcome | relay/src/relay-session.ts:299-321 | After the alarm the session is empty, or has its daemon and a re-armed alarm |
| Relay.RelaySession.constructor | relay/src/relay-session.ts:81-83 | An empty session |
| Relay.RelaySession.TouchActivity | relay/src/relay-session.ts:424-429 | Last activity and alarm, nothing else |
| Relay.RelaySession.HandleDaemonUpgrade | relay/src/relay-session.ts:108-157 | 401, 409 or admission with the token stored |
| Relay.RelaySession.HandleClientUpgrade | relay/src/relay-session.ts:119-195 | 401, 404, 403, 429 or admission, in this order |
| Relay.RelaySession.DisconnectAllClients | relay/src/relay-session.ts:363-372 | Closes exactly the clients |
| Relay.RelaySession.WebSocketMessage | relay/src/relay-session.ts:201-259 | Activity, last-seen time, and a revoke only from the daemon |
| Relay.RelaySession.WebSocketClose | relay/src/relay-session.ts:271-288 | A client goes alone; a daemon takes clients, token and alarm with it |
| Relay.RelaySession.WebSocketError | relay/src/relay-session.ts:290-296 | The same, but the token stays |
| Relay.RelaySession.FireAlarm | relay/src/relay-session.ts:299-321 | Zombie sweep, then timeout or re-arming |
| Cursor.ReadSessionIncremental | iterm_bridge.py:239-303 | The branches deliver the lines from the first one asked for, the number of the last, and the dropped flag |
| Cursor.ReadsExactly | iterm_bridge.py:239-303 | The newest `initial` lines at first and after a dropped prefix, all lines after the cursor otherwise, each with the number of the last; the cursor itself where there is nothing new |
| Cursor.Browser.constructor | relay/src/pair-page.ts:1451 | No cursor, and the loading text |
| Cursor.Browser.OnSessionContent | relay/src/pair-page.ts:1213-1239 | What a reply does to cursor and text of the current session; replies for others change nothing |
| Cursor.NextKeeps | relay/src/pair-page.ts:1213-1468 | Every step of terminal, bridge and browser keeps the invariant |
| Cursor.ShownIsAStretch | iterm_bridge.py:239-303 | In every run, the lines received since the last full refresh are consecutive without gap or repeat, the cursor is the last of them, and the text is theirs |
| Cursor.DroppedExactly | iterm_bridge.py:249-253 | A dropped prefix is reported exactly for a delta whose cursor lies below the overflow |
| Cursor.DisplayIsAllTextUnlessMistaken | relay/src/pair-page.ts:1230-1238 | Replies put on the screen one after another leave all their text if and only if that text never read exactly like the placeholder before more came |
| Cursor.ShowsAllTextUnlessMistaken | relay/src/pair-page.ts:1213-1239 | In every run, once something was received, the page shows all the text received since the last full refresh, or the placeholder for none, if and only if that text never read exactly like the placeholder before more came |
| Cursor.FirstLineCanBeErased | relay/src/pair-page.ts:1236 | A concrete run in which the page loses the terminal's first line |
| PromptLine.CleanedIsClean | session_watcher.py:59-69 | Before the cut: no control characters or angle brackets, blanks single and inside, every `&` starts an entity |
| PromptLine.FittingIsClean | session_watcher.py:56-77 | The result is clean for every line whose escaped, collapsed form fits in 200 characters |
| PromptLine.AlwaysPlain | session_watcher.py:56-77 | No control character and no angle bracket, for every line |
| PromptLine.CleanExactly | session_watcher.py:70-77 | For every line, cut or not, the result is clean if and only if the cut does not leave `&a`, `&am`, `&l` or `&g` |
| PromptLine.SanitizeCanLeaveAnAmpersand | session_watcher.py:70-76 | A concrete line, 198 letters and a `<`, whose result is neither clean nor stable under a second pass |
| PromptLine.IdempotentExactly | session_watcher.py:48-77 | Sanitising twice is sanitising once, if and only if the cut does not leave `&l` or `&g` at the end |
| PromptLineMeaning.SequencesGo | session_watcher.py:47-59 | An escape sequence goes as a whole, wherever it stands |
| PromptLineMeaning.ControlsGo | session_watcher.py:62-66 | Which characters stay, by code |
| PromptLineMeaning.AnglesBecomeEntities | session_watcher.py:68 | Each angle bracket becomes its own entity and nothing else changes |
| PromptLineMeaning.AmpersandsBecomeEntities | session_watcher.py:50-67 | An ampersand becomes an entity unless it starts one of the three |
| PromptLineMeaning.WordsStay | session_watcher.py:69 | Words stay, and white space between two becomes one blank |
| PromptLineMeaning.CleanIsKept | session_watcher.py:56-77 | A clean line of up to 200 characters is left alone |
| PromptLineMeaning.CutsAtTwoHundred | session_watcher.py:70-76 | A longer one is cut at 200, or up to four before that where an entity would be cut, and gets an ellipsis |
| PromptLineMeaning.ResultIsSafe | session_watcher.py:54-77 | Of any result: no control character, no angle bracket, and where nothing is cut only ampersands of entities |
| SessionWatcher.MatchPromptLine | session_watcher.py:80-89 | The reversed loop finds the specified line |
| SessionWatcher.LastPromptIsLast | session_watcher.py:80-89 | That line is a prompt line with none after it; none is found only if there is none |
| SessionWatcher.PromptsAre | session_watcher.py:37-40 | The prompt lines are those that hold one of the two phrases, in capitals or not |
| SessionWatcher.Watcher.constructor | session_watcher.py:103-113 | Nothing tracked, no previous listing |
| SessionWatcher.Watcher.PollOnce | session_watcher.py:172-236 | What a poll sends out and the state it leaves, failed listings and reads included |
| SessionWatcher.ListingCounts | session_watcher.py:203-230 | In one listing, a session's notices are the prompts newly come up among its sightings |
| SessionWatcher.NotifiedOncePerRise | session_watcher.py:172-236 | Over any run of polls a session is notified exactly as often as a prompt newly comes up in what was seen of it |
| SessionWatcher.NoticesAreSanitized | session_watcher.py:212-225 | Every notice is about a listed session with a prompt and carries its last prompt line, stripped and sanitised |
| SessionWatcher.ChangedExactly | session_watcher.py:194-201 | The sessions-changed event fires exactly when a successful listing differs from the previous successful one, never on the first |
| TtsSegments.SegmentForTts | adapters/tts_streamer.py:30-74 | The whole function, pass by pass, for every text and every cap |
| TtsSegments.SplitSentences | adapters/tts_streamer.py:43-57 | The loop over pieces gives the specified sentences |
| TtsSegments.MergeForward | adapters/tts_streamer.py:62-67 | The loop that grows the last element gives the specified merge |
| TtsSegments.PiecesJoin | adapters/tts_streamer.py:43 | The pieces of the split put together are the text |
| TtsSegments.EndAtIs | adapters/tts_streamer.py:25 | What ends a sentence: a longest run of the five stops, or of dots before white space or the end |
| TtsSegments.NextEndIsFirst | adapters/tts_streamer.py:43 | The split cuts at the first such end |
| TtsSegments.FullMatchIs | adapters/tts_streamer.py:50 | A piece closes a sentence if it is all stops or all dots, text between two matches included |
| TtsSegments.ScanKeeps | adapters/tts_streamer.py:44-54 | The scan loses blanks only; every match closes one sentence, which ends in a mark |
| TtsSegments.SentencesKeep | adapters/tts_streamer.py:43-57 | The sentences are the text but for blanks; all but the last end in a mark |
| TtsSegments.MergedIsGreedy | adapters/tts_streamer.py:62-67 | Each merged chunk is a run of sentences, at least 25 characters unless last, and shorter than that without its last sentence |
| TtsSegments.CappedIsGood | adapters/tts_streamer.py:69-72 | The cap folds everything beyond it, joined with blanks, into the last chunk and leaves the chunks before alone; what a cap of zero or below does |
| TtsSegments.SegmentsAreGood | adapters/tts_streamer.py:30-74 | For every text: no empty chunk, at most `max_chunks` of them if that is at least one, at least 25 characters and a sentence end in all but the last, and together the text but for blanks |
| TtsSegments.ChunksAre | adapters/tts_streamer.py:38-74 | A text of up to 40 characters stays whole; a longer one becomes its greedily merged sentences, with those beyond the cap joined by blanks |
| TtsSegments.CapKeptExactly | adapters/tts_streamer.py:69-74 | The number of chunks keeps to the cap if and only if the cap is at least one, or is zero for a blank text |
| TtsSegments.ZeroIsNoCap | adapters/tts_streamer.py:69-72 | A cap of zero leaves all chunks |

## Left out

- Ansi.AnsiUp.AnsiToHtml: states the styled fragments, not the HTML made of them
  (`static/ansi_up.js:357-417`: tags, escaping, the URL allow-list), because
  faint-only text loses its style there.
- UTF-16: strings are sequences of characters, so a cut between the two halves
  of a surrogate pair is not represented; nor is `ord` on such halves.
- Reminders.FindNextSlot: due times and periods are reals, so the rounding of
  repeated floating-point addition is not captured.
- Crashes of a dispatcher and failing SQLite calls in the scheduler: a claimed
  row is then left fired, so conservation is about runs without them.
- The dispatcher's sleeping and waking (`tools/scheduler.py:241-248`, `290-311`)
  and the listing of pending reminders; when a pass starts is left open.
- Ranking, LIMIT, snippets and case folding of searches; text counts as folded.
  `tools_used` and the VACUUM are not kept.
- Which calls are gated at all (`tool_guard.py:479-571`, `soul_review.py:144-169`):
  modes, danger patterns, allow-list, size limits, and `confirmation_callback`
  would add case tables. Audit files and logs are not state here.
- `timingSafeEqual` (`relay/src/relay-session.ts:66-76`) is a parameter: nothing
  rests on it being equality.
- Message forwarding and its allow-list in the relay, and close events that
  arrive after a later handler has run; a disconnect and its handler are one
  step. Several isolates of the relay worker, each with a limiter of its own.
- The gap between a read's line info and its contents in the bridge,
  overlapping requests from the page, edits of lines already read, and
  scrolling and prompt detection on the page.
- The project name in the watcher's payload and failing subscribers.
- Cancellation of a gate before its first await, and event loops other than
  the one the registry assumes.
- Cryptography, LLM streaming, Telegram, MCP, speech synthesis, cameras, web
  fetching, the iTerm2 API itself, `soul.md` editing, todos and memory: foreign
  calls, or state that would add only easy members.
