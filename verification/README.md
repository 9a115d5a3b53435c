# Verified models of openyak's stateful cores

This project models the algorithms of the openyak repository that carry unbounded state, and proves what
they promise. Each module follows one component of the source:

- **The line editor** (`EditorModel`, `TextOffsets`, `LineEditor`, `EditorLaws`, `EditorKeys`,
  `EditorMotions`, `EditorAnswers`). A modal
  vim/plain editor over UTF-8 text. `LineEditor` holds the mutable classes with byte offsets, as the source
  does; every handler is proved equal to a transition of the character-level machine in `EditorModel`, and
  the classes' `Valid()` says that all byte offsets lie on character boundaries. `EditorLaws`,
  `EditorKeys` and `EditorMotions` state the text algebra of keys and whole key sequences against the rows
  of the buffer (`Rows`), and `EditorAnswers` says which line comes back for what is typed.
- **Session compaction** (`SummaryText`, `SummaryLaws`, `SummaryMerge`, `Compaction`, `CompactionRuns`,
  `CompactionFiring`, `Summarizer`, `SummaryContents`, `SummaryForms`, `WordFree`, `SummarizerLaws`,
  `MarkedSummaries`). The message log, the usage ledger, when a compaction fires, the printer and parser of
  the continuation text, and the program's own summariser, over whole runs of appends and compactions.
- **Server-sent events** (`SseFraming`, `SseEvents`, `SsePrinter`; `ThreadStream` for the TypeScript
  client; `FramePayloads` for the frames of both). Incremental framing in the style of section 9.2 of the WHATWG HTML Living Standard, for every way
  of cutting a stream into chunks.
- **Edit distance** (`Levenshtein`), **language-server framing and request correlation** (`LspFraming`,
  `LspHeaders`, `LspRequests`; the Base Protocol of LSP 3.17), **plugin installation and bundled-plugin sync** (`Disk`,
  `PluginInstall`, `PluginSync`), **run events** (`RunEvents`) and **streaming Markdown**
  (`MarkdownStream`, `MarkdownFences`).

Code that changes state in the source is a class or a loop here, proved against a specification function;
the laws are lemmas about that function. Interleaved tasks (`LspRequests`) are a state machine over their
steps. Effects enter as parameters: key events, byte chunks, the JSON decoder, lossy and strict UTF-8
decoding, manifest loading, the clock, the list of faults that disk steps meet, and the snapshot a client
reads when it reconciles.

Where a property does not hold of the code on all inputs, a lemma states exactly when it does:

- `dd` followed by `p` restores the text exactly under `EditorLaws.PasteRestores`; `j` followed by `k`
  returns exactly when the next row is long enough (`EditorKeys.DownUpReturnsExactly`).
- Deleting in Visual mode can leave the selection anchor inside a character, where drawing the selection
  then slices the text. No other key does. Over every run the anchor is on a boundary all the time exactly
  when no key strands it (`EditorKeys.AnchorStaysOnBoundary`, per key `EditorKeys.AnchorStep`);
  `EditorKeys.DeleteCanStrandAnchor` gives the keys of such a run, typed into a fresh session.
- The continuation text gives its summary back exactly when the formatted summary contains neither marker
  (`SummaryLaws.ContinuationRecoversExactly`). A message whose text ends with the note marker puts it there
  (`MarkedSummaries.MarkedSessionIsLost`); messages without the words of the markers do not
  (`SummarizerLaws.UnmarkedSummary`).
- A first message that looks like a compacted summary but carries usage drops out of the books, whole,
  when a compaction fires. Over every run, from any session a program may have loaded, turns are conserved
  exactly when the log does not start like that or nothing was compacted, and otherwise exactly one is lost
  (`CompactionRuns.ConservedExactly`); `CompactionRuns.TurnLost` is such a run.
- SSE framing is independent of chunking exactly for streams without a CRLF blank line that is followed by
  an LF blank line (`SseFraming.ChunkingIsHarmlessExactly`); `SseFraming.MixedStream` is one with such a line.
- A failing `push` drops the events already decoded in that call
  (`SseEvents.FailureDropsThroughFirstBad`), so what a caller is handed over all pushes is the same for
  every chunking exactly when every frame decodes or nothing that decodes stands before the first bad frame
  (`SseEvents.HandedOverExactly`). `SsePrinter.OneChunkLosesAnEvent` is a printed stream that hands over one
  event in two chunks and none in one.
- The TypeScript client normalises line ends per chunk, which equals normalising the stream exactly when
  no chunk starts between a CR and its LF (`ThreadStream.NormalizePerChunkExactly`).
- A bundled-plugin sync is complete exactly when no leftover record shares its sanitised id with a plugin
  found (`PluginSync.PluginManager.SyncBundledPlugins`); two ids share a path exactly as
  `PluginSync.SanitizeCollidesExactly` says, and `PluginSync.LeftoverCollides` is a registry and a disk where
  they do. A further sync that succeeds is complete in any case.
- A cut of the Markdown stream is harmless except when a closing fence without its newline meets a fence
  marker (`MarkdownStream.CutIsHarmlessExactly`). Over every list of pushes, scanning the pending text tells
  whether the whole document ends inside a fence exactly when an even number of slices meet the text after
  them like that (`MarkdownStream.FenceOfWholeDocumentExactly`); `MarkdownStream.HalvedFenceMisleads` is a
  fence marker in two halves.
- A language-server frame that is cut short is an error at most places, but a cut inside the digits of the
  length or right after the header line reads as a clean end of input (`LspFraming.TruncationOutcome`).
- A language-server reader that sees a clean end of input leaves waiting requests waiting for ever
  (`LspRequests.StoppedReaderAnswersNobody`).

`dafny verify dfyconfig.toml` checks everything.

## Model

| member | source | states |
|---|---|---|
| EditorModel.StepKeepsInv | rust/crates/openyak-cli/src/input.rs:369-788 | Every key keeps the editor's invariant: cursors inside their buffers, the Command buffer starting with ':' and its cursor after it, history index in range and set exactly with its backup, a non-empty yank linewise, completion state well formed; nothing but yank and completion of the editor changes |
| EditorModel.CompleteKeepsInv | rust/crates/openyak-cli/src/input.rs:689-746 | Tab completion keeps that invariant and touches only the completion state of the editor |
| LineEditor.EditSession.constructor | rust/crates/openyak-cli/src/input.rs:63-81 | A new session is valid and is the machine's initial state |
| LineEditor.EditSession.SetTextFromHistory | rust/crates/openyak-cli/src/input.rs:103-111 | Replaces the text by a history entry with the cursor at its end, as the machine does, on a boundary |
| LineEditor.EditSession.EnterVisualMode | rust/crates/openyak-cli/src/input.rs:125-129 | Opens a selection anchored at the cursor's byte offset |
| LineEditor.EditSession.EnterCommandMode | rust/crates/openyak-cli/src/input.rs:131-138 | Starts the command buffer with ':' and its cursor after it |
| LineEditor.EditSession.ExitCommandMode | rust/crates/openyak-cli/src/input.rs:140-144 | Drops the command buffer and returns to Normal mode |
| LineEditor.LineEditor.PushHistory | rust/crates/openyak-cli/src/input.rs:271-278 | Appends an entry unless it is blank, and changes nothing else |
| LineEditor.LineEditor.MoveLeft | rust/crates/openyak-cli/src/input.rs:573-580 | One character to the left on bytes is one to the left on characters, not past the ':' in Command mode |
| LineEditor.LineEditor.MoveRight | rust/crates/openyak-cli/src/input.rs:582-588 | One character to the right on bytes is one to the right on characters |
| LineEditor.LineEditor.MoveLineStart | rust/crates/openyak-cli/src/input.rs:590-596 | Goes to the first character of the current row |
| LineEditor.LineEditor.MoveLineEnd | rust/crates/openyak-cli/src/input.rs:598-604 | Goes to the end of the current row |
| LineEditor.LineEditor.MoveUp | rust/crates/openyak-cli/src/input.rs:606-611 | Moves one row up by character columns |
| LineEditor.LineEditor.MoveDown | rust/crates/openyak-cli/src/input.rs:613-618 | Moves one row down by character columns |
| LineEditor.LineEditor.InsertActiveText | rust/crates/openyak-cli/src/input.rs:561-571 | Inserts at the active cursor and advances it by the inserted characters |
| LineEditor.LineEditor.HandleBackspace | rust/crates/openyak-cli/src/input.rs:524-538 | Removes the character before the active cursor, leaving Command mode when only ':' is left |
| LineEditor.LineEditor.DeleteCharUnderCursor | rust/crates/openyak-cli/src/input.rs:620-635 | Removes the character under the active cursor and leaves the anchor's byte offset alone |
| LineEditor.LineEditor.DeleteCurrentLine | rust/crates/openyak-cli/src/input.rs:637-644 | Removes the current row's range from the text and yanks the row, the cursor landing on a boundary |
| LineEditor.LineEditor.YankCurrentLine | rust/crates/openyak-cli/src/input.rs:646-651 | Yanks the current row with its newline, linewise |
| LineEditor.LineEditor.PasteAfter | rust/crates/openyak-cli/src/input.rs:653-687 | Inserts the yanked row after the current one as the machine does, separators and cursor included |
| LineEditor.LineEditor.CompleteSlashCommand | rust/crates/openyak-cli/src/input.rs:689-746 | Starts or continues cycling through the matching commands |
| LineEditor.LineEditor.HistoryUp | rust/crates/openyak-cli/src/input.rs:748-762 | Recalls the previous entry, keeping the draft on the first recall |
| LineEditor.LineEditor.HistoryDown | rust/crates/openyak-cli/src/input.rs:764-788 | Recalls the next entry, or the draft after the last |
| LineEditor.LineEditor.HandleNormalChar | rust/crates/openyak-cli/src/input.rs:463-490 | Every Normal-mode character, pending operators included, acts as in the machine |
| LineEditor.LineEditor.HandleVisualChar | rust/crates/openyak-cli/src/input.rs:492-501 | Every Visual-mode character acts as in the machine |
| LineEditor.LineEditor.HandleChar | rust/crates/openyak-cli/src/input.rs:453-461 | A typed character goes to the handler of its mode |
| LineEditor.LineEditor.HandleEscape | rust/crates/openyak-cli/src/input.rs:503-522 | Escape leaves each mode as in the machine |
| LineEditor.LineEditor.HandleKeyEvent | rust/crates/openyak-cli/src/input.rs:369-451 | One key press on the mutable classes is one machine step, action included, and validity (all offsets on character boundaries) is kept; `EditorAnswers.ActionExactly` says which action that is |
| LineEditor.LineEditor.ReadLine | rust/crates/openyak-cli/src/input.rs:280-333 | A whole line-reading loop is the machine's run, through any number of vim toggles, and leaves the editor's invariant intact; `EditorAnswers.TypedIsSubmitted` says which line comes back |
| LineEditor.SlashCommandPrefix | rust/crates/openyak-cli/src/input.rs:953-964 | The byte-level prefix test is the character-level one |
| TextOffsets.PreviousBoundary | rust/crates/openyak-cli/src/input.rs:812-821 | The result is the byte offset of the previous character, or the start |
| TextOffsets.PreviousCommandBoundary | rust/crates/openyak-cli/src/input.rs:823-825 | Likewise, but never before the character after ':' |
| TextOffsets.NextBoundary | rust/crates/openyak-cli/src/input.rs:827-836 | The result is the byte offset of the next character, or the end |
| TextOffsets.LineStart | rust/crates/openyak-cli/src/input.rs:848-850 | The result is the byte offset at which the row holding the cursor starts |
| TextOffsets.LineEnd | rust/crates/openyak-cli/src/input.rs:852-856 | The result is the byte offset at which that row ends |
| TextOffsets.LineStarts | rust/crates/openyak-cli/src/input.rs:881-889 | One offset per row of the '\n'-split text, each that row's start |
| TextOffsets.ByteIndexForCharColumn | rust/crates/openyak-cli/src/input.rs:891-898 | The byte offset of a character column, clamped to the row's length |
| TextOffsets.MoveVertical | rust/crates/openyak-cli/src/input.rs:858-879 | The byte offset reached is that of the character-level vertical move |
| TextOffsets.DeleteRangeOnBoundaries | rust/crates/openyak-cli/src/input.rs:900-914 | All three offsets of the delete range are ordered character boundaries, and which they are |
| LineEditor.RemovePreviousChar | rust/crates/openyak-cli/src/input.rs:838-846 | Removes exactly the character before the offset and moves to its start |
| EditorLaws.RunConcat | rust/crates/openyak-cli/src/input.rs:369-451 | Running two key sequences one after the other is running their concatenation; with `Run`'s contract every reachable state satisfies the invariant |
| EditorLaws.PasteDuplicates | rust/crates/openyak-cli/src/input.rs:653-687 | Pasting the yanked current row after itself inserts exactly that row among the rows |
| EditorLaws.PasteCursor | rust/crates/openyak-cli/src/input.rs:653-687 | After such a paste the cursor is at column zero of the new row |
| EditorLaws.DeletedRows | rust/crates/openyak-cli/src/input.rs:637-644 | Deleting a row removes exactly that row, with the two special cases of a sole row and of an empty final row |
| EditorLaws.DeletedCursor | rust/crates/openyak-cli/src/input.rs:637-644 | Row and column of the cursor after a row is deleted, in both cases |
| EditorLaws.RestoreExactly | rust/crates/openyak-cli/src/input.rs:637-682 | Delete then paste gives the text back if and only if the rows satisfy `PasteRestores` |
| EditorLaws.VerticalLands | rust/crates/openyak-cli/src/input.rs:858-879 | A vertical move lands on the row clamped to first..last at the column min(old column, row length) |
| EditorLaws.DownUp | rust/crates/openyak-cli/src/input.rs:858-898 | Down then up returns to the position if and only if the next row reaches the column (or the only row is the first) |
| EditorKeys.YankPasteDuplicatesRow | rust/crates/openyak-cli/src/input.rs:463-490 | The keys y y p duplicate the current row right after itself for every text and cursor, except that on an empty final row nothing changes; cursor position included |
| EditorKeys.DeleteRemovesRow | rust/crates/openyak-cli/src/input.rs:463-490 | The keys d d remove exactly the current row, keep the others in order, yank the row with its newline, and leave the cursor at the start of the row that moved up, or at the end of the row above when the deleted row reached the end of the text |
| EditorKeys.DeletePasteRestoresExactly | rust/crates/openyak-cli/src/input.rs:463-490 | The keys d d p restore the text if and only if the rows satisfy `PasteRestores` |
| EditorKeys.DownUpReturnsExactly | rust/crates/openyak-cli/src/input.rs:463-490 | The keys j k return to the start state if and only if the stated row condition holds |
| EditorKeys.TypeThenErase | rust/crates/openyak-cli/src/input.rs:524-571 | Typing any word and erasing it character by character restores the whole session, in every typing mode; only a stored completion is forgotten |
| EditorKeys.UpsRecall | rust/crates/openyak-cli/src/input.rs:748-762 | n presses of Up recall the n-th latest entry, stopping at the oldest, and keep the draft, from any state outside the history |
| EditorKeys.DownsRestore | rust/crates/openyak-cli/src/input.rs:764-788 | n presses of Down from the n-th entry bring the draft back |
| EditorKeys.HistoryRoundTrip | rust/crates/openyak-cli/src/input.rs:748-788 | Going up and down the history shows the entries in order and returns to the draft |
| EditorKeys.TabCycles | rust/crates/openyak-cli/src/input.rs:689-746 | m presses of Tab give match number m-1 modulo the number of matches, from any prefix |
| EditorKeys.AnchorStep | rust/crates/openyak-cli/src/input.rs:369-788 | From every state whose open anchor is a boundary of the text and of every stored completion, a key leaves the anchor on a boundary, and the state like that, if and only if it does not delete a character before the anchor so that the anchor comes to lie inside one; Tab never strands it |
| EditorKeys.AnchorStaysOnBoundary | rust/crates/openyak-cli/src/input.rs:369-788 | Over every run from such a state, a new session say, the anchor is on a boundary all the time if and only if no key of the run strands it |
| EditorKeys.DeleteKeepsAnchorExactly | rust/crates/openyak-cli/src/input.rs:620-635 | In Visual mode Delete leaves the anchor on a boundary if and only if the anchor is not after the cursor or lies a width before a boundary |
| EditorKeys.DeleteCanStrandAnchor | rust/crates/openyak-cli/src/input.rs:369-635 | Typing a, é, é into a fresh session and then Esc v h h Delete leaves the anchor inside a character, between cursor and end of the text, where `selection_bounds` (lines 916-928) slices |
| EditorKeys.ReadLineOutcome | rust/crates/openyak-cli/src/input.rs:280-333 | However a line is read, history and completions are untouched, completion state is cleared on an outcome, and a submitted line is never the vim toggle |
| EditorAnswers.ActionExactly | rust/crates/openyak-cli/src/input.rs:369-451 | In every state of the invariant: Enter without Shift submits exactly the command in Command mode and the text in any other, unless that trims to the vim switch, which is what toggles vim; Ctrl-C cancels a non-empty line and leaves on an empty one, as Ctrl-D does; no other key ends a line, and none of these touches the session |
| EditorAnswers.TrimDrops | rust/crates/openyak-cli/src/input.rs:540-546 | Trimming takes white space off both ends of a line and nothing else |
| EditorAnswers.TrimmedIsTrim | rust/crates/openyak-cli/src/input.rs:540-546 | Whatever is left of a line between white space, and neither starts nor ends with any, is what trimming leaves |
| EditorAnswers.TypedIsSubmitted | rust/crates/openyak-cli/src/input.rs:280-333 | From a new session in either vim setting, typing any word that does not trim to the switch and pressing Enter returns exactly that word |
| EditorAnswers.SwitchThenLine | rust/crates/openyak-cli/src/input.rs:280-333 | A line that trims to the switch returns nothing, turns vim over, and the next line typed is returned from a session in the other setting |
| EditorAnswers.OthersAreIgnored | rust/crates/openyak-cli/src/input.rs:289-294 | Events that are no key presses can be deleted from the input without changing what is read |
| EditorMotions.CursorKeysLand | rust/crates/openyak-cli/src/input.rs:573-604 | Where Left, Right, Home and End put the active cursor, in rows and columns, in every mode |
| EditorMotions.LettersMove | rust/crates/openyak-cli/src/input.rs:463-501 | In Normal and Visual mode h and l are Left and Right, j and k move one row down and up, and characters without a meaning change nothing |
| EditorMotions.PendingForgotten | rust/crates/openyak-cli/src/input.rs:463-490 | An operator that is not doubled is forgotten and the next character counts for itself |
| EditorMotions.NewlineSplitsRow | rust/crates/openyak-cli/src/input.rs:369-413 | Ctrl-J and Shift-Enter cut the current row in two at the cursor and go to the start of the second half in the typing modes, go into the command in Command mode, and do nothing otherwise |
| EditorMotions.BackspaceIsLeftDelete | rust/crates/openyak-cli/src/input.rs:524-538 | Backspace is Left and then Delete in the typing modes away from the start, and Left in Normal and Visual mode |
| EditorMotions.DeleteRemoves | rust/crates/openyak-cli/src/input.rs:620-635 | Delete and Ctrl-D take out exactly the character under the active cursor and leave all else, the anchor included |
| EditorMotions.PasteNothing | rust/crates/openyak-cli/src/input.rs:653-657 | With nothing yanked p changes nothing |
| EditorMotions.ModeRoundTrips | rust/crates/openyak-cli/src/input.rs:463-538 | A selection opened and closed, a command begun and given up, and Insert mode entered and left give the session back, the cursor one to the left after Insert mode |
| EditorMotions.SelectionStarts | rust/crates/openyak-cli/src/input.rs:125-129 | A selection is anchored at the number of UTF-8 bytes before the cursor |
| EditorMotions.RecallKeeps | rust/crates/openyak-cli/src/input.rs:748-788 | While they stay in the history, Up and Down show an entry with the cursor at its end, keep Insert and Plain mode, and give up a selection and a pending operator; where there is nothing to go to they do nothing |
| EditorMotions.TypedCommand | rust/crates/openyak-cli/src/input.rs:540-546 | A command typed from Normal mode comes back with its colon, whatever the text holds |
| EditorMotions.MatchesExactly | rust/crates/openyak-cli/src/input.rs:714-719 | The completions offered are exactly those that go on after the prefix |
| EditorMotions.MatchesInOrder | rust/crates/openyak-cli/src/input.rs:714-719 | They keep the order of the list, repetitions included |
| EditorMotions.TabActsExactly | rust/crates/openyak-cli/src/input.rs:689-746 | Outside a cycle Tab completes if and only if the text up to the cursor at its end is a slash word that some completion goes on after; otherwise nothing changes |
| Rows.SplitRoundTrip | rust/crates/openyak-cli/src/input.rs:848-889 | Splitting at newlines loses nothing and gives one row more than there are newlines |
| Rows.PositionRoundTrip | rust/crates/openyak-cli/src/input.rs:858-898 | Row and column determine the position and are determined by it |
| Compaction.SlicesInRange | rust/crates/runtime/src/compact.rs:57-67 | When compaction fires the removed range is non-empty and inside the log (no slice panic), and exactly the configured number of messages is preserved; `CompactionFiring.FiresExactly` says when it fires |
| CompactionFiring.FiresExactly | rust/crates/runtime/src/compact.rs:57-67 | A compaction removes something if and only if the messages after a recognised head number more than the ones to preserve and their estimate reaches the threshold; it then removes all but those, and otherwise changes nothing |
| CompactionFiring.RecognisedExactly | rust/crates/runtime/src/compact.rs:222-230 | A head is recognised if and only if the first message is a system message whose first block that is not blank starts with the preamble |
| CompactionFiring.EstimateBounds | rust/crates/runtime/src/compact.rs:502-518 | On the bytes of the UTF-8 encoding: four times the estimate lies between the bytes plus one per block and the bytes plus four per block, and the estimate is at least one per block |
| CompactionFiring.EstimateConcat | rust/crates/runtime/src/compact.rs:47-50 | The estimates of two stretches of a log add up |
| CompactionFiring.HighThresholdNeverFires | rust/crates/runtime/src/compact.rs:57-67 | A threshold above that upper bound leaves every session as it is |
| CompactionFiring.LowThresholdFires | rust/crates/runtime/src/compact.rs:57-67 | A threshold at most the number of blocks, or at most the lower bound, fires whenever there are messages enough |
| CompactionFiring.ShortSessionIsKept | rust/crates/runtime/src/compact.rs:57-67 | Five short messages under the default configuration are long enough to lose some and are kept |
| CompactionFiring.CompactReports | rust/crates/runtime/src/compact.rs:109-177 | The estimates reported are those of the log before and after, the formatted summary is the summary formatted, the version stays, the status is the one the new session has, and the first message continues the summary with the request to resume and, if messages are kept, the note about them |
| CompactionFiring.RunKeepsVersion | rust/crates/runtime/src/compact.rs:109-177 | No run of appends and compactions changes the session's version |
| Compaction.CompactionShape | rust/crates/runtime/src/compact.rs:109-177 | A compaction that fires leaves one recognisable summary message and the last messages verbatim, and removes at least one |
| Compaction.CompactAgainChangesNothing | rust/crates/runtime/src/compact.rs:109-177 | Compacting again with the same configuration returns the same session and removes nothing, for every session |
| Compaction.SummaryMessageRecognised | rust/crates/runtime/src/compact.rs:557-571 | The summary message a compaction writes is recognised as such later |
| CompactionRuns.UsageFromIsCappedSum | rust/crates/runtime/src/compact.rs:192-220 | The saturating left-to-right usage fold is the exact sum capped once per counter |
| CompactionRuns.RunKeepsBalance | rust/crates/runtime/src/compact.rs:109-220 | After every run of appends and compactions from any session: until a compaction fires the session is what it was loaded with and what was appended; afterwards its head is a summary without usage; and ledger plus live messages account for what the ledger held at the start and for everything that counts |
| CompactionRuns.UsageIsConserved | rust/crates/runtime/src/compact.rs:109-220 | For every run from any session: compacted usage plus live usage is the capped sum of what the ledger held and of all usage there ever was, and turns likewise without u32 overflow, save that a first message that looks like a summary and carries usage is left out once a compaction has fired |
| CompactionRuns.ConservedExactly | rust/crates/runtime/src/compact.rs:109-230 | For every run: turns are conserved if and only if the first message is no such message or no compaction fired, else exactly one is lost; usage is conserved in the same cases and when the lost message makes no difference to the capped sum |
| CompactionRuns.TurnLost | rust/crates/runtime/src/compact.rs:109-230 | A concrete run that keeps one turn of two and seven input tokens of fourteen |
| CompactionRuns.StatusIsDecidedAtTheStart | rust/crates/runtime/src/compact.rs:179-190 | In every run from any session the accounting status stays what a ledger says from the start; without one it is Complete if and only if the first message there ever was does not look like a summary |
| CompactionRuns.CompactionMerges | rust/crates/runtime/src/compact.rs:109-177 | A later compaction's recognised summary is the formatted merge of the earlier one with the new one |
| CompactionRuns.HighlightsOutliveRuns | rust/crates/runtime/src/compact.rs:109-177 | Over any run, with any summariser whose summaries hold no tag, highlight lines survive consecutively and in order, indented once per compaction that fired |
| Summarizer.SummarizeMessages | rust/crates/runtime/src/compact.rs:232-319 | Pushing the lines section by section gives the summary as a function of the messages |
| Summarizer.SortDedupSorts | rust/crates/runtime/src/compact.rs:425-441 | Sorting and dropping repetitions gives the strictly increasing list of the same strings |
| SummaryContents.SectionPlaces | rust/crates/runtime/src/compact.rs:232-319 | A summary starts with its title and scope row and ends with the timeline, one row for every message in order |
| SummaryContents.SectionsInPlace | rust/crates/runtime/src/compact.rs:232-319 | Each section that has something to say stands whole in its place: tools, requests and pending work under their headings, files, current work, timeline; the others take no row |
| SummaryContents.ToolsAreThoseInvolved | rust/crates/runtime/src/compact.rs:243-275 | The tools listed are exactly those used or answering anywhere in the messages, sorted and once each |
| SummaryContents.DashedRows | rust/crates/runtime/src/compact.rs:277-300 | Each entry of a list has a row of its own, in order |
| SummaryContents.CountsAreThoseOfRoles | rust/crates/runtime/src/compact.rs:232-256 | The scope row names the number of messages and the numbers of those of each role, counted from the other end |
| SummaryContents.RequestsAreTheLast | rust/crates/runtime/src/compact.rs:386-402 | The recent requests are the last three first texts of user messages, in order, each quoted up to 160 characters |
| SummaryContents.OneText | rust/crates/runtime/src/compact.rs:452-464 | The text of a message is that of its first block that says something |
| SummaryContents.PendingAreTheLast | rust/crates/runtime/src/compact.rs:404-423 | The pending work is the last three texts that speak of work, in order |
| SummaryContents.OneWorkText | rust/crates/runtime/src/compact.rs:404-423 | A text is among the work texts if and only if it speaks of work |
| SummaryContents.MentionsExactly | rust/crates/runtime/src/compact.rs:404-423 | A text speaks of work if and only if one of the five words occurs in it in any case of letters |
| SummaryContents.CurrentIsTheLatest | rust/crates/runtime/src/compact.rs:443-450 | The current work is the latest text, quoted up to 200 characters, and is missing only when there is no text |
| SummaryContents.FilesAreTheFirst | rust/crates/runtime/src/compact.rs:425-441 | The key files are sorted without repetition, at most eight, all mentioned, and a mentioned file is left out only when eight come before it |
| SummaryContents.MentionedExactly | rust/crates/runtime/src/compact.rs:425-491 | A file is mentioned if and only if some token of what a block is searched in, by its kind, is the file's name between punctuation, holds a slash and has a known extension |
| SummaryContents.WordsAreTokens | rust/crates/runtime/src/compact.rs:477-491 | Words with any white space before, between and after them come apart again into those words |
| SummaryContents.PunctuationGoes | rust/crates/runtime/src/compact.rs:477-491 | Punctuation around a word is taken off on both sides and nothing else is |
| SummaryContents.ExtensionExactly | rust/crates/runtime/src/compact.rs:466-475 | A file's extension is known if and only if it is one of the six, in any case of letters |
| SummaryContents.FileNameExactly | rust/crates/runtime/src/compact.rs:466-475 | The name of a file is what follows the last slash; a slash or a lone dot at the end does not count |
| SummaryContents.NoExtension | rust/crates/runtime/src/compact.rs:466-475 | A name without a dot, or with only the one it starts with, has no known extension |
| SummaryContents.RowQuotesBlocks | rust/crates/runtime/src/compact.rs:356-384 | A timeline row names the role and quotes every block in order, each kind with its own words, up to 160 characters |
| SummarizerLaws.TagFreeMessagesAreReady | rust/crates/runtime/src/compact.rs:232-319 | Messages without tags are summarised in a text that formats without tags and whose highlights and timeline a merge can take over |
| SummarizerLaws.PlainRunsAreReady | rust/crates/runtime/src/compact.rs:109-177 | When no live and no appended message holds a tag, no message ever does, summary messages included, and every summary written in the run is ready to be merged |
| SummarizerLaws.OwnHighlightsOutliveRuns | rust/crates/runtime/src/compact.rs:109-177 | With the program's own summariser highlight lines survive every run as long as no message holds a tag |
| SummarizerLaws.FirstSummaryReadsBack | rust/crates/runtime/src/compact.rs:85-177 | The summary of a first compaction reads back whole if and only if it holds neither marker of the continuation text |
| SummarizerLaws.FirstHighlightsOutliveRuns | rust/crates/runtime/src/compact.rs:109-177 | What the first summary says of the removed messages survives every later run without tags, as long as that summary holds neither marker |
| WordFree.SummaryRowsLack | rust/crates/runtime/src/compact.rs:232-319 | A word of a stated kind that no text and no tool name of the messages holds is in no row of their summary |
| SummarizerLaws.UnmarkedSummary | rust/crates/runtime/src/compact.rs:232-319 | The summary of messages that hold neither tags nor the words of the markers formats to a text without either marker |
| SummarizerLaws.UnmarkedHighlightsOutliveRuns | rust/crates/runtime/src/compact.rs:109-177 | What the first summary says survives every later run, on conditions about the texts of messages alone |
| MarkedSummaries.MarkedTextIsLost | rust/crates/runtime/src/compact.rs:85-177 | The summary of a first compaction does not read back when the last removed message ends with the note marker |
| MarkedSummaries.MarkedSessionIsLost | rust/crates/runtime/src/compact.rs:85-177 | A session of one such message |
| SummaryText.CollapseBlankLines | rust/crates/runtime/src/compact.rs:542-555 | The loop with its flag computes the recursive collapsing |
| SummaryForms.CollapsedExactly | rust/crates/runtime/src/compact.rs:542-555 | What is left out is exactly every blank line right after a blank line |
| SummaryForms.DistinctBlanks | rust/crates/runtime/src/compact.rs:542-555 | No two blank lines in a row are left |
| SummaryForms.NothingRepeats | rust/crates/runtime/src/compact.rs:542-555 | Text without repeated blank lines keeps all its lines |
| SummaryForms.AnalysisIsDropped | rust/crates/runtime/src/compact.rs:70-82 | A summary with its analysis formats as it does without |
| SummaryForms.BlockIsDropped | rust/crates/runtime/src/compact.rs:528-540 | A tagged block goes with its tags, for any tag, and the text around it joins up |
| SummaryForms.BlocksAreUnwrapped | rust/crates/runtime/src/compact.rs:70-82 | Every copy of the summary block gives way to its trimmed content under a heading |
| SummaryForms.AnswerFormatted | rust/crates/runtime/src/compact.rs:70-82 | An analysis and then a summary of clean lines come out as those lines under the heading |
| SummaryText.ExtractSummaryHighlights | rust/crates/runtime/src/compact.rs:573-593 | The loop yields the lines before the timeline, headings and blanks apart |
| SummaryText.ExtractSummaryTimeline | rust/crates/runtime/src/compact.rs:595-615 | The loop yields the lines after the timeline heading up to a blank one |
| SummaryForms.HighlightsAddUp | rust/crates/runtime/src/compact.rs:573-593 | The highlights of two stretches of lines add up, as long as no timeline starts in the first |
| SummaryForms.OneHighlight | rust/crates/runtime/src/compact.rs:573-593 | A line is a highlight without the white space at its end unless nothing or one of the two titles is left of it, and nothing is from the timeline on |
| SummaryForms.TimelineIsBetween | rust/crates/runtime/src/compact.rs:595-615 | The timeline is exactly what stands between its heading and the next blank line or the end, whatever comes before and after |
| SummaryText.MergeCompactSummaries | rust/crates/runtime/src/compact.rs:321-354 | The loop builds the sections of the merged summary in order |
| SummaryLaws.ContinuationRecoversExactly | rust/crates/runtime/src/compact.rs:70-106 | For all flags, parsing the continuation text gives back the formatted summary if and only if that contains neither marker |
| SummaryLaws.FormatIsTight | rust/crates/runtime/src/compact.rs:70-82 | A formatted summary has no white space at either end |
| SummaryLaws.ExtractedClean | rust/crates/runtime/src/compact.rs:573-615 | Extracted lines are newline-free, trimmed at the end and never headings |
| SummaryMerge.FormatWrapped | rust/crates/runtime/src/compact.rs:70-82 | Formatting a merged summary unwraps exactly its rows |
| SummaryMerge.FormatAgain | rust/crates/runtime/src/compact.rs:70-82 | Formatting such a text again changes nothing |
| SummaryMerge.MergeReadsBack | rust/crates/runtime/src/compact.rs:321-354 | The highlights read back from a merge are the old ones indented under their heading, then the new ones; the timeline is the new one indented |
| SummaryMerge.MergedContinuationRecovers | rust/crates/runtime/src/compact.rs:85-106 | Merged summaries never contain a marker, so their continuation text always parses back |
| SummaryMerge.HighlightsSurvive | rust/crates/runtime/src/compact.rs:321-354 | After m merges a block of highlight lines is still there, consecutive, in order, indented m times |
| SummaryMerge.IndentedTimesSpaces | rust/crates/runtime/src/compact.rs:321-354 | Indented n times means exactly 2n extra spaces |
| SseFraming.DrainLeavesNoFrame | rust/crates/api/src/sse.rs:40-60 | Between pushes the buffer holds no complete frame |
| SseFraming.DrainCutAnywhere | rust/crates/api/src/sse.rs:40-60 | Draining early at any cut of an unmixed stream changes neither frames nor residue |
| SseFraming.ChunkingIsHarmlessExactly | rust/crates/api/src/sse.rs:40-60 | Every cut is harmless if and only if no CRLF blank line is followed by an LF blank line |
| SseFraming.MixedCutDiffers | rust/crates/api/src/sse.rs:40-60 | In a mixed stream cutting right after the first CRLF blank line changes the frames |
| SseFraming.MixedStream | rust/crates/api/src/sse.rs:40-60 | A concrete mixed stream: two frames when cut between its events, one frame in one piece |
| SseFraming.DrainAnyChunking | rust/crates/api/src/sse.rs:15-26 | Any list of chunks of an unmixed stream gives the frames and residue of the whole |
| SseFraming.CutAfterFrames | rust/crates/api/src/sse.rs:40-60 | For every k there is a prefix of the stream that drains into exactly its first k frames and nothing else |
| SseEvents.Parser.TakeFrame | rust/crates/api/src/sse.rs:40-60 | Takes the first complete frame off the buffer, or leaves it as it is |
| SseEvents.Parser.ParseFrame | rust/crates/api/src/sse.rs:63-101 | The field loop computes the frame's payload: comments, pings and the end marker skipped, data lines joined; `FramePayloads.PayloadOfLines` says what that is on lists of lines |
| FramePayloads.PayloadOfLines | rust/crates/api/src/sse.rs:63-101 | For every frame of event lines, data lines and any other lines in any order: the payload is the data texts joined by newlines, or nothing without data lines, for the end marker, or when the last event line names a ping |
| FramePayloads.PayloadOfEitherEnd | rust/crates/api/src/sse.rs:63-101 | The payload is the same whichever of the lines are ended by CR LF and which by LF |
| FramePayloads.TwoDataLines | rust/crates/api/src/sse.rs:63-101 | A payload that is sent in two data lines comes back in two lines |
| SseEvents.Parser.Push | rust/crates/api/src/sse.rs:15-26 | One push consumes all complete frames of the buffer or stops at the first that does not decode |
| SseEvents.Parser.Finish | rust/crates/api/src/sse.rs:28-38 | Takes the whole buffer and parses it as a last frame |
| SseEvents.ConsumeIsOutcome | rust/crates/api/src/sse.rs:15-26 | A push returns the outcome of decoding the drained frames in order |
| SseEvents.FailureDropsThroughFirstBad | rust/crates/api/src/sse.rs:15-26 | A failing push has dropped the frames up to and including the first bad one and keeps the rest for later; the events lost are those of the frames before it |
| SseEvents.EventsAnyChunking | rust/crates/api/src/providers/openyak_provider.rs:600-624 | For an unmixed stream the error does not depend on the chunks; a caller that keeps what each push returned holds all events and the buffer the residue when every frame decodes, and otherwise a prefix of the events before the first bad frame |
| SseEvents.HandedOverExactly | rust/crates/api/src/providers/openyak_provider.rs:600-624 | For an unmixed stream the events handed over are the same for every chunking if and only if every frame decodes or every frame before the first bad one parses to nothing |
| SseEvents.ChunkingsDiffer | rust/crates/api/src/sse.rs:15-26 | Of a stream with a bad frame the whole in one chunk hands over nothing, and a cut before the bad frame hands over every event before it |
| SsePrinter.PrintBody | rust/crates/mock-anthropic-service/src/lib.rs:798-860 | Appending the events of a body one by one prints their list |
| SsePrinter.BlockPayload | rust/crates/api/src/sse.rs:63-101 | A printed block parses to its payload, or to nothing for pings and the end marker |
| SsePrinter.PrintedDrains | rust/crates/mock-anthropic-service/src/lib.rs:1075-1080 | A printed body drains into exactly one frame per event and an empty residue |
| SsePrinter.PrintedStreamDelivers | rust/crates/mock-anthropic-service/src/lib.rs:1075-1080 | Pushing a printed body in any chunking hands the decoder exactly the payloads in order: all events and an empty buffer when all decode, else the first error after a prefix of the events before it |
| SsePrinter.OneChunkLosesAnEvent | rust/crates/api/src/providers/openyak_provider.rs:600-624 | A printed body of a payload that decodes and one that does not hands over the first event in two chunks and none in one |
| Levenshtein.LevenshteinDistance | rust/crates/commands/src/lib.rs:581-608 | The two-row computation with swapped arrays returns the recursive edit distance |
| Levenshtein.ZeroDistanceMeansEqual | rust/crates/commands/src/lib.rs:581-608 | The distance is zero exactly on equal strings |
| Levenshtein.Symmetric | rust/crates/commands/src/lib.rs:581-608 | The distance is symmetric |
| Levenshtein.Triangle | rust/crates/commands/src/lib.rs:581-608 | The triangle inequality |
| Levenshtein.DistanceBounds | rust/crates/commands/src/lib.rs:581-608 | Between the length difference and the longer length |
| Levenshtein.DistanceIsShortestEditPath | rust/crates/commands/src/lib.rs:581-608 | The distance is the length of the shortest chain of single-character edits: one exists and none is shorter |
| LspFraming.ParseInvertsDecimal | rust/crates/lsp/src/client.rs:385-433 | Parsing a printed length gives it back, for every usize |
| LspFraming.Reader.ReadLine | rust/crates/lsp/src/client.rs:397-415 | Takes the bytes up to and including the next line feed |
| LspFraming.Reader.ReadMessage | rust/crates/lsp/src/client.rs:397-433 | The header loop, the exact body read and the decoding of the body take one message, with every error case |
| LspFraming.Reader.ReadUntilClosed | rust/crates/lsp/src/client.rs:251-282 | Reading messages until the end of input or an error, a body that is no JSON included |
| LspFraming.Writer.SendMessage | rust/crates/lsp/src/client.rs:385-394 | Appends one framed message to the output |
| LspFraming.HeaderLineMeaning | rust/crates/lsp/src/client.rs:413-425 | What each header line does to the length, for every name and value |
| LspFraming.OtherHeadersSkipped | rust/crates/lsp/src/client.rs:413-425 | Headers other than Content-Length never affect the message |
| LspHeaders.HeadersDecide | rust/crates/lsp/src/client.rs:397-433 | For every list of headers and any content: the last Content-Length counts, in any case of letters; without one the message is refused and the content left; with more than is left the input ends; the first length that is no number is the error |
| LspHeaders.LineWithoutColon | rust/crates/lsp/src/client.rs:413-425 | A line without a colon after any headers is the error, and what follows it is left |
| LspHeaders.LineThatIsNoText | rust/crates/lsp/src/client.rs:404-411 | So is a line that is no UTF-8 |
| LspHeaders.HeadersWithoutEnd | rust/crates/lsp/src/client.rs:404-411 | Headers that stop before the empty line read as the end of the input |
| LspHeaders.ParseExactly | rust/crates/lsp/src/client.rs:413-425 | A text is read as a number if and only if it is that number in decimal after any zeros and perhaps a plus sign, and fits in 64 bits |
| LspHeaders.SameNameExactly | rust/crates/lsp/src/client.rs:413-425 | Two names are the same if and only if they agree character by character up to the case of ASCII letters |
| LspFraming.FrameRoundTrip | rust/crates/lsp/src/client.rs:385-433 | Reading a sent frame gives exactly its body and leaves exactly what follows, for arbitrary bytes |
| LspFraming.FramesRoundTrip | rust/crates/lsp/src/client.rs:251-433 | Reading any list of sent frames gives the messages of the bodies in order and then a clean end, or ends at the first body that is no JSON |
| LspFraming.TruncationOutcome | rust/crates/lsp/src/client.rs:397-433 | What every proper prefix of a frame reads as, never a message: a clean end, an error of the header, a missing length or an unexpected end, for each cut |
| LspRequests.StepKeepsInv | rust/crates/lsp/src/client.rs:244-374 | Every interleaved step of callers and reader keeps ids increasing, the table equal to the waiting calls, and channels holding own answers |
| LspRequests.AnswersAreOwn | rust/crates/lsp/src/client.rs:244-374 | In every run a returned answer is the first message with the caller's own id read since the request was registered |
| LspRequests.AnswersArriveExactly | rust/crates/lsp/src/client.rs:244-374 | In every run the channel of a registered, sent or returned call holds an answer if and only if a message with its id has been read since it was registered; a sent call with a filled channel can return |
| LspRequests.AnswersAreNotShared | rust/crates/lsp/src/client.rs:244-374 | No message answers two calls |
| LspRequests.AnswersAreFinal | rust/crates/lsp/src/client.rs:256-270 | Whatever a channel holds it keeps through every later step |
| LspRequests.BreakLeavesNoneWaiting | rust/crates/lsp/src/client.rs:285-296 | A reader error wakes every waiting call |
| LspRequests.StoppedReaderAnswersNobody | rust/crates/lsp/src/client.rs:251-296 | After the reader has stopped, a call with an empty channel never returns |
| Disk.MovedTree | rust/crates/plugins/src/lib.rs:2116-2158 | A renamed tree is whole at its new path and gone from the old one |
| Disk.MovedElsewhere | rust/crates/plugins/src/lib.rs:2116-2158 | Renaming leaves trees apart from both paths alone |
| Disk.CopyWorks | rust/crates/plugins/src/lib.rs:2167-2179 | A copy to a free place is the tree copied |
| Disk.CopyKeeps | rust/crates/plugins/src/lib.rs:2167-2179 | A copy, finished or broken off, leaves alone what is apart from its target |
| PluginInstall.CommitPreparedInstall | rust/crates/plugins/src/lib.rs:2116-2158 | With any step failing: success means the prepared tree is installed; failure leaves the old install in place, or whole at the backup path when the restore failed too; trees elsewhere are untouched; without faults success is characterised exactly |
| PluginSync.SanitizeCollidesExactly | rust/crates/plugins/src/lib.rs:2041-2049 | Two ids sanitise alike if and only if they differ only among the separators and '-' |
| PluginSync.NamesCollide | rust/crates/plugins/src/lib.rs:2037-2049 | Two different bundled names that share an install path |
| PluginSync.InstalledUnderName | rust/crates/plugins/src/lib.rs:2037-2049 | A bundled plugin lies under its name with separators replaced and the marketplace appended; the name is kept if and only if it has no separator |
| PluginSync.ChangedIsNotReady | rust/crates/plugins/src/lib.rs:1258-1304 | A plugin that is in order for one manifest is in order for no other with its name, so a changed version or description is noticed |
| PluginSync.LeftoverCollides | rust/crates/plugins/src/lib.rs:1306-1326 | A registry with a leftover and a disk with an active plugin that share an install path, while all else a complete sync asks for holds |
| PluginSync.PluginManager.SyncOne | rust/crates/plugins/src/lib.rs:1258-1304 | One plugin is renewed exactly when its record or copy is out of order, and is then in order; trees apart from its path are untouched |
| PluginSync.PluginManager.SyncActive | rust/crates/plugins/src/lib.rs:1258-1304 | After the loop all plugins found are recorded as bundled and, with distinct names, all are in order; other records are as before |
| PluginSync.PluginManager.RemoveStale | rust/crates/plugins/src/lib.rs:1306-1326 | Exactly the leftover records are dropped, and exactly the copies sharing their paths are lost |
| PluginSync.PluginManager.StoreRegistry | rust/crates/plugins/src/lib.rs:1367-1374 | The file holds the registry, or on failure what it held before, nothing, or a part that no longer parses |
| PluginSync.PluginManager.SyncRegistry | rust/crates/plugins/src/lib.rs:1246-1326 | The records kept, given the registry read: exactly the plugins found are bundled, all others as before; the sync is complete if and only if no leftover collides |
| PluginSync.PluginManager.SyncBundledPlugins | rust/crates/plugins/src/lib.rs:1246-1332 | On success the bundled records are exactly the plugins found and all other kinds are untouched; with distinct names and usual paths a further sync has nothing to do if and only if no leftover shares a sanitised id; no leftover remains and names and paths stay as they should be, so that a further successful sync is complete in any case; a sync that has nothing to do changes nothing; a registry file cut short is an error; nothing outside the install root changes |
| ThreadStream.NormalizePerChunkExactly | sdk/typescript/src/client.ts:682-700 | Per-chunk line-end normalisation equals normalising the stream if and only if no chunk starts between a CR and its LF |
| ThreadStream.SplitMakesAFrame | sdk/typescript/src/client.ts:682-700 | For any two lines, a chunk boundary inside CRLF turns one frame into two |
| ThreadStream.PlainStaysPlain | sdk/typescript/src/client.ts:682-700 | A stream without CR is not changed |
| ThreadStream.LineEndsAreNewlines | sdk/typescript/src/client.ts:682-700 | Lines sent with any mixture of the three line ends come out with newlines, unless an empty line's line feed follows a carriage return |
| ThreadStream.DrainFrames | sdk/typescript/src/client.ts:721-733 | The loop cuts off every frame up to the last blank line |
| ThreadStream.DrainLeavesNoBlankLine | sdk/typescript/src/client.ts:721-733 | Between chunks the buffer holds no blank line |
| ThreadStream.DrainEarly | sdk/typescript/src/client.ts:721-733 | Draining before more text arrives changes neither frames nor rest, for every text |
| ThreadStream.ParseSseFrame | sdk/typescript/src/client.ts:735-762 | The loop finds the last event name and joins the data lines, or nothing without data |
| FramePayloads.FrameOfLines | sdk/typescript/src/client.ts:735-762 | For every frame made of such lines the client's frame holds the data texts joined by newlines and the name of the last event line, or is nothing without data lines |
| ThreadStream.DecodeThreadEvents | sdk/typescript/src/client.ts:682-719 | The events delivered are those of the drained whole, up to the first payload that does not decode |
| ThreadStream.EventsAnyChunking | sdk/typescript/src/client.ts:682-719 | The events delivered are the same for every chunking that splits no CRLF |
| RunEvents.Thread.RunEvents | sdk/typescript/src/client.ts:354-387 | The iterator yields exactly the run's own events up to its end, says how it stopped, and remembers the last snapshot consumed |
| RunEvents.Thread.ConsumeBufferedRun | sdk/typescript/src/client.ts:389-475 | The buffered result is the specified outcome for every stream, ending and reread snapshot, and the snapshot remembered is the reread one or the last consumed |
| RunEvents.OthersDoNotMatter | sdk/typescript/src/client.ts:354-475 | Deleting all snapshots and all other runs' events from a stream leaves the buffered result as it is: status, events, text, usage, or the error thrown |
| RunEvents.RelevantSuffices | sdk/typescript/src/client.ts:354-387 | Deleting snapshots and other runs' events changes neither the events yielded nor how the run stops |
| RunEvents.LaterEventsDoNotMatter | sdk/typescript/src/client.ts:354-387 | After the run's end no later event and no ending changes the result |
| RunEvents.DeliveredExactly | sdk/typescript/src/client.ts:389-446 | The result comes from the stream alone if and only if a terminal event of the run precedes any resync; its text is then the concatenation of the run's text deltas |
| RunEvents.TerminalDecides | sdk/typescript/src/client.ts:389-446 | In terms of the run's terminal event: completed gives its cumulative usage, waiting for input its request, failed its error, the last two with the usage last reported before it or none; events and text are those of the run up to it |
| RunEvents.RereadDecides | sdk/typescript/src/client.ts:448-549 | Without a terminal event the reread snapshot decides by run id, status and pending input; text and usage of the stream are kept, and where it gave none those of the assistant messages appended since are taken |
| RunEvents.OwnIsFromStream | sdk/typescript/src/client.ts:354-387 | The events, the text and the last usage of a run, read off the stream from the front |
| RunEvents.UsageOfAssistant | sdk/typescript/src/client.ts:477-549 | The usage taken from a snapshot is the sum over its assistant messages that report any, kind by kind, or none |
| RunEvents.TextOfAssistant | sdk/typescript/src/client.ts:477-549 | The text taken from a snapshot is that of its assistant messages in order |
| RunEvents.OtherErrorThrows | sdk/typescript/src/client.ts:389-475 | An error that is none of the transport goes to the caller |
| RunEvents.PartialTextIsKept | sdk/typescript/src/client.ts:477-510 | Text delivered before the stream broke off is never replaced by snapshot text |
| MarkdownStream.FindStreamSafeBoundary | rust/crates/openyak-cli/src/render.rs:638-666 | The scan finds the byte offset after the last safe line; `MarkdownFences` says on characters which line that is |
| MarkdownStream.BoundaryIsLastSafeCut | rust/crates/openyak-cli/src/render.rs:638-666 | What is found is a safe cut and every safe cut is at or before it; nothing is found only when there is none |
| MarkdownFences.MarkerExactly | rust/crates/openyak-cli/src/render.rs:646-650 | A line is a fence marker if and only if it goes on with three backticks or three tildes after white space |
| MarkdownFences.OpenFenceHasNoCut | rust/crates/openyak-cli/src/render.rs:638-666 | After a marker of either kind and any lines that are none, blank ones included, there is no place to cut |
| MarkdownFences.ClosedFenceIsCut | rust/crates/openyak-cli/src/render.rs:638-666 | A closing marker of either kind, whichever opened the fence, makes its end the place to cut |
| MarkdownFences.CutAfterBlank | rust/crates/openyak-cli/src/render.rs:638-666 | Outside fences the place to cut is right after the last blank line |
| MarkdownFences.NoBlankNoCut | rust/crates/openyak-cli/src/render.rs:638-666 | Without blank lines and markers there is none |
| MarkdownFences.CutAfterWholeLines | rust/crates/openyak-cli/src/render.rs:638-666 | Text before that ends outside a fence moves the place to cut and nothing else |
| MarkdownStream.PushesConserveText | rust/crates/openyak-cli/src/render.rs:605-613 | Over any pushes the slices followed by the pending text are the deltas concatenated |
| MarkdownStream.SliceEndsOutside | rust/crates/openyak-cli/src/render.rs:605-613 | Every slice, scanned on its own, ends outside any fence |
| MarkdownStream.SliceIsSafe | rust/crates/openyak-cli/src/render.rs:605-613 | The end of every slice is a safe cut of the slice itself, which is what `CutIsHarmlessExactly` asks for |
| MarkdownStream.PushLeavesNoCut | rust/crates/openyak-cli/src/render.rs:605-613 | What stays pending offers no safe cut |
| MarkdownStream.LinesSplitExactly | rust/crates/openyak-cli/src/render.rs:638-666 | The lines of a text are those of its two parts if and only if the first part is empty or ends with a newline, or the second is empty |
| MarkdownStream.CutIsHarmlessExactly | rust/crates/openyak-cli/src/render.rs:638-666 | After a cut the rest has the fence state it has in the whole document, except exactly when a closing fence without newline meets a fence marker |
| MarkdownStream.FenceOfWholeDocumentExactly | rust/crates/openyak-cli/src/render.rs:605-666 | For every list of pushes, scanning the pending text alone gives the fence state of the whole document if and only if an even number of slices end with an unfinished fence line while the text after them starts with a fence marker |
| MarkdownStream.FenceOfWholeDocument | rust/crates/openyak-cli/src/render.rs:605-613 | When every slice ends with a newline, scanning the pending text alone gives the fence state of the whole document |
| MarkdownStream.HalvedFenceMisleads | rust/crates/openyak-cli/src/render.rs:605-666 | Two concrete pushes after which the pending text looks to be inside a fence and the whole document is not |

## Left out

- Terminal drawing, raw mode, cursor layout and the highlighting of a selection: rendering. The selection anchor itself is modelled as a byte offset.
- The non-terminal fallback of `read_line` and the prompt: plain input and output.
- Summarizer.SummarizeMessages: file names are split as on Unix; characters are the scalar values of Dafny's `char`.
- Overflow of the token estimate: estimates are unbounded here, usize in the source.
- CompactionRuns.UsageIsConserved: turns are conserved only while they fit in u32, because the source adds them with plain addition; the wrap-around of a release build is modelled, the panic of a debug build is not.
- SummaryMerge.MergeReadsBack: for tag-free texts, because a `<summary>` or `<analysis>` tag inside a line changes what formatting extracts.
- JSON parsing, lossy and strict UTF-8 decoding and manifest loading: parameters. Where a law needs it, they are required to invert encoding.
- `SseEvents.Parser.Finish` after a failed push: no promise is made about what it returns.
- Rendering of the slices that `MarkdownStreamState` hands out.
- LspRequests.AnswersAreOwn: request ids are unbounded here and wrap at 2^63 in the source; dropped futures and the order in which tasks are scheduled beyond the modelled steps are not modelled.
- Diagnostics notifications and open documents of the language-server client: single map insertions and removals; decoding a diagnostics payload is part of the JSON parameter.
- PluginSync.PluginManager.SyncBundledPlugins: the bundled root lies outside the install root and is listed once; symbolic links and path canonicalisation are not modelled. The source removes leftovers in id order, the model in any order, so a failure may come earlier or later.
- PluginInstall.CommitPreparedInstall: the prepared path is apart from the install path and from the backup path, as the callers build them; a rename onto an existing empty directory replaces it, one onto anything else fails.
- `install`, `update`, `uninstall`, `enable` and `disable` beyond the commit: each is one insertion into or removal from a map that is then written out.
- The retry loop that rereads a thread, sleeping and aborting: its result is a parameter.
- ThreadStream.DecodeThreadEvents: whether a decoded event has a supported type and protocol version is part of the decoding parameter.
- The Python tree, hooks, onboarding, bash validation, slugs and report rendering: classification or single-pass formatting.
