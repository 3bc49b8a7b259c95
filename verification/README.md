# Verified model of a coding-agent runtime

This project models self-contained cores of a coding-agent runtime in Dafny and proves what they promise.

- `CodebaseIndex`: the codebase-graph index actor, which coalesces file events per path, against an actor that applies
  every event singly.
- `ImageBudget`, `EvictedImages`: keeping a request under a byte budget by evicting inline images, oldest first, on a
  running estimate; `JsonText` and `SerializedBody` hold the JSON text whose bytes are counted.
- `ToolRepair`, `Pairing`: pairing tool results with the calls they answer (`Conversation` holds the items).
- `SummaryCleaning`: cleaning a compaction summary of live control tags.
- `UserQuery`, `CompactedHistory`: the last human query and the agent message as anchors that survive compactions.
- `BudgetFit`: fitting a history to a token budget without orphaning tool results.
- `Interner`: the arena string interner, for every hash function.
- `WaitProtocol`, `StableWait`, `RawTail`: waiting on a terminal grid that a feeder and resize calls change.
- `WorktreeRebuild`: registering worktrees from ranked mount identities.
- `LineReader`: the cancel-safe line reader.
- `UsageLedger`: the saturating billing ledger.
- `CrashBlob`, `Utf8`: the crash file and the two-phase handler that writes it.
- `TreeSearch`, `StyledRuns`, `SegmentStore`: identifier search, styled screen lines, segment files.
- `Text`, `Arithmetic`, `ByteStrings`, `Options`: searching, trimming, digits and bytes used above.

State that the source changes step by step is a class whose methods refine functions on values; the lemmas are about
those functions. Strings are sequences of Unicode scalar values; where the source counts bytes, their UTF-8 length is
counted.

## Where the code and its documentation differ

The model follows the code.

- Repairing a history is documented as idempotent. It is not when an assistant declares one id twice without an answer
  behind it (`ToolRepair.SecondRepairIsQuiet`, `ToolRepair.TwinCallsAreRepairedTwice`).
- A waiter that sees the end of the session treats the grid as final. A resize after the end still changes it
  (`WaitProtocol.EndIsWrongExactly`, `WaitProtocol.ResizeAfterTheEndIsMissed`).
- The coalesced index actor lets a removal cancel an earlier create or modify. For a file already indexed that leaves a
  stale entry (`CodebaseIndex.CoalescingIsExactUnlessStale`).
- The segment cap does not count the breaks between turns (`SegmentStore.CapIsKeptExactly`,
  `SegmentStore.HeadersExceedTheCap`).
- A stable wait takes it that nothing changes the grid after the session has ended. A resize does
  (`StableWait.QuietIsWrongExactly`, `StableWait.SilentResizeIsMissed`).
- An image budget pass can end above its target, because its estimate takes nothing for an image smaller than the
  placeholder (`ImageBudget.TargetIsMissedExactly`, `ImageBudget.LimitsAreMetExactly`,
  `ImageBudget.SmallImagesDefeatTheEstimate`).
- A truncated text is documented to stay within its limit with the marker included. The marker alone can be longer than
  the limit, and its count longer than the reserve (`BudgetFit.TruncatedText`).
- The plain and the styled view treat a zero-width mark under the cursor differently (`StyledRuns.SameText`).

## Model

| member | source | states |
|---|---|---|
| CodebaseIndex.CoalescingIsExactUnlessStale | crates/codegen/xai-codebase-graph/src/index_manager.rs:1466-1507 | applying a coalesced batch leaves the index that its events one by one leave if and only if no indexed, indexable path ends the batch with a create or modify directly followed by a removal |
| CodebaseIndex.CoalescedAgreesAt | crates/codegen/xai-codebase-graph/src/index_manager.rs:1087-1125 | the same equivalence key by key: at one index key the two forms differ exactly when the path of that key leaves a stale entry |
| CodebaseIndex.PendingInClosedForm | crates/codegen/xai-codebase-graph/src/index_manager.rs:1483-1507 | what is pending for a path is decided by its last two events alone, so the order among different paths is irrelevant |
| CodebaseIndex.CleanTurnsAgree | crates/codegen/xai-codebase-graph/src/index_manager.rs:792-828 | one turn of the command loop, however much of the channel it drains, replies and leaves the index as the one-event-at-a-time actor does, when the turn is clean |
| CodebaseIndex.SnapshotBehindFlush | crates/codegen/xai-codebase-graph/src/index_manager.rs:812-816 | a query right behind a flushed batch sees a different index exactly when the batch left a stale entry |
| CodebaseIndex.CleanRunsAgree | crates/codegen/xai-codebase-graph/src/index_manager.rs:756-787 | a clean run of the batched actor gives the replies and the index of handling every command on its own, one after the other, in the worlds of their time |
| CodebaseIndex.DrainingDoesNotShow | crates/codegen/xai-codebase-graph/src/index_manager.rs:802-817 | in one world and with turns enough, a clean run equals the one-by-one run of the channel, which knows no turns: how the channel is drained does not show |
| CodebaseIndex.QuietChannelIsClean | crates/codegen/xai-codebase-graph/src/index_manager.rs:1483-1507 | a channel in which no stretch of file commands ends, on any path, in a create or modify directly followed by a removal is clean from any index and however it is drained |
| CodebaseIndex.TurnIsOneByOne | crates/codegen/xai-codebase-graph/src/index_manager.rs:792-828 | a turn takes each command of the channel exactly once and in order |
| CodebaseIndex.AbsolutePathsAreAliasFree | crates/codegen/xai-grok-paths/src/lib.rs:38-43 | absolute event paths never share an index key |
| CodebaseIndex.CancelledRemovalKeepsStaleEntry | crates/codegen/xai-codebase-graph/src/index_manager.rs:1490-1495 | concrete input on which the coalesced actor keeps an entry for a removed file |
| CodebaseIndex.FlushOneMore | crates/codegen/xai-codebase-graph/src/index_manager.rs:1087-1115 | the pending entries can be flushed in any order: one more entry is one more single event |
| CodebaseIndex.CoalescedEvents.Insert | crates/codegen/xai-codebase-graph/src/index_manager.rs:1483-1507 | the pending map after one event on one path, with cancellation and re-creation |
| CodebaseIndex.CoalescedEvents.Add | crates/codegen/xai-codebase-graph/src/index_manager.rs:1466-1481 | a rename of two paths counts as a removal and a creation, any other event as one per path |
| CodebaseIndex.IndexManager.RemoveFile | crates/codegen/xai-codebase-graph/src/index_manager.rs:1194-1197 | the entry stored for the path is gone, all others stay |
| CodebaseIndex.IndexManager.ReindexFile | crates/codegen/xai-codebase-graph/src/index_manager.rs:1130-1192 | a file that parses is stored under its relative path; one that is missing or unsupported is dropped |
| CodebaseIndex.IndexManager.ApplyPending | crates/codegen/xai-codebase-graph/src/index_manager.rs:1090-1113 | one pending path is applied as one event, and counted when it is indexable |
| CodebaseIndex.IndexManager.ApplyCoalesced | crates/codegen/xai-codebase-graph/src/index_manager.rs:1087-1125 | whatever order the hash map yields, the index is the flushed one and the update counter grows by the indexable paths |
| CodebaseIndex.IndexManager.ProcessOther | crates/codegen/xai-codebase-graph/src/index_manager.rs:829-906 | queries leave the index alone; rebuild and background refresh replace or patch it; shutdown ends the loop |
| CodebaseIndex.IndexManager.DrainFileCommands | crates/codegen/xai-codebase-graph/src/index_manager.rs:802-817 | what is taken from the channel is a run of file commands at its head, all of them pending afterwards |
| CodebaseIndex.IndexManager.ProcessCommandCoalesced | crates/codegen/xai-codebase-graph/src/index_manager.rs:792-828 | one turn refines the turn function that the refinement lemmas are about |
| CodebaseIndex.IndexManager.AddEvents | crates/codegen/xai-codebase-graph/src/index_manager.rs:821-828 | the events of a batch command become pending in order |
| CodebaseIndex.IndexManager.RunLoop | crates/codegen/xai-codebase-graph/src/index_manager.rs:756-787 | the loop gives the replies and the index of the run function |
| CodebaseIndex.RenameMovesTheEntry | crates/codegen/xai-codebase-graph/src/index_manager.rs:1466-1481 | key by key: a rename takes the first path's entry out and stores what the second path's file parses to, and changes no other key |
| CodebaseIndex.EventWorksPathByPath | crates/codegen/xai-codebase-graph/src/index_manager.rs:1087-1115 | key by key: a removal takes the entry of every indexable path of the event out, the other kinds store what its file parses to or nothing, and no other key changes |
| CodebaseIndex.OneEventIsExact | crates/codegen/xai-codebase-graph/src/index_manager.rs:1466-1507 | a single event never cancels itself, so coalescing it leaves what it leaves on its own |
| CodebaseIndex.EventTurnDoesTheSame | crates/codegen/xai-codebase-graph/src/index_manager.rs:792-828 | a batched turn on a channel with one event leaves the index of the two lemmas above |
| CodebaseIndex.FilesUnderTheRoot | crates/codegen/xai-codebase-graph/src/index_manager.rs:1049-1051 | a file under the root is stored under its path from there, and events on files below a name with a leading dot change nothing |
| CodebaseIndex.BatchIsItsEvents | crates/codegen/xai-codebase-graph/src/index_manager.rs:821-828 | a batch command does what its events do as commands of their own, in order |
| CodebaseIndex.WhatATurnTakes | crates/codegen/xai-codebase-graph/src/index_manager.rs:792-828 | a batch is a turn of its own; a single event takes the file commands that are visible behind it, and one other command if that comes first |
| CodebaseIndex.RefreshKeyByKey | crates/codegen/xai-codebase-graph/src/index_manager.rs:1054-1081 | key by key: a refresh stores each supported stale file anew or drops it, and of the other keys exactly the deleted ones are gone |
| CodebaseIndex.OtherCommandsAct | crates/codegen/xai-codebase-graph/src/index_manager.rs:829-906 | a rebuild leaves what a walk finds, a query is answered from the index and leaves it alone, nothing behind a shutdown is handled |
| ImageBudget.BodyMeasuredExactly | crates/codegen/xai-chat-state/src/image_budget.rs:152-193 | the measured body equals the serialized JSON length exactly when no base64 payload holds a character that JSON escapes, and is below it otherwise |
| ImageBudget.MeasuredInPlace | crates/codegen/xai-chat-state/src/image_budget.rs:173-207 | blanking every URL, serializing and adding URL bytes back measures each URL in place |
| ImageBudget.EncodedUrlNeverOvercounts | crates/codegen/xai-chat-state/src/image_budget.rs:152-161 | skipping the payload scan never counts too much, and is exact without dirty payloads |
| ImageBudget.EvictOldestCounts | crates/codegen/xai-chat-state/src/image_budget.rs:251-291 | each eviction takes exactly one image out |
| ImageBudget.EvictsAnOldestFirstPrefix | crates/codegen/xai-chat-state/src/image_budget.rs:210-291 | after n evictions the images left are the ones found up front without the first n, so the recorded positions stay good |
| ImageBudget.EvictionInClosedForm | crates/codegen/xai-chat-state/src/image_budget.rs:257-289 | n single evictions equal replacing or dropping the n oldest images at once; nothing else changes, and the note is added once |
| ImageBudget.RunningTracksBody | crates/codegen/xai-chat-state/src/image_budget.rs:251-289 | the running estimate is exact after any number of evictions: estimate plus shortfall is body plus dropped fields, so it never saturates |
| ImageBudget.EvictionReachesTarget | crates/codegen/xai-chat-state/src/image_budget.rs:123-150 | a pass ends with no image left or a body within the target plus shortfall less dropped fields, and stops as early as its estimate allows |
| ImageBudget.TargetIsMissedExactly | crates/codegen/xai-chat-state/src/image_budget.rs:123-150 | a pass ends above its target with an image left if and only if it stopped early with a shortfall above the dropped fields and the room its estimate saw |
| ImageBudget.LimitsAreMetExactly | crates/codegen/xai-chat-state/src/image_budget.rs:113-150 | every pair of limits is met if and only if, wherever the estimate reaches a new low before the last image, the shortfall is covered by dropped fields |
| ImageBudget.ShortfallIsDeficit | crates/codegen/xai-chat-state/src/image_budget.rs:219-267 | the shortfall is a sum over the image list found up front, so that condition can be read off the history before the call |
| ImageBudget.ShortfallIsText | crates/codegen/xai-chat-state/src/image_budget.rs:254-267 | the placeholders that make up the shortfall are still in the body, which leaves room for every subtraction of the estimate |
| ImageBudget.SecondApplication | crates/codegen/xai-chat-state/src/image_budget.rs:123-150 | a second pass evicts again exactly when the first left images and a body above both limits |
| ImageBudget.SmallImagesDefeatTheEstimate | crates/codegen/xai-chat-state/src/image_budget.rs:257-267 | for every nonempty placeholder, a history whose images cost less than it: the pass ends one escaped placeholder above its target and a second pass evicts again |
| ImageBudget.EvictionBoundsSerializedLength | crates/codegen/xai-chat-state/src/image_budget.rs:119-150 | with clean payloads the reached bound is one on the real JSON length |
| ImageBudget.NoteIsContained | crates/codegen/xai-chat-state/src/image_budget.rs:281-285 | a tool result that lost an image contains the note, and adding it again changes nothing |
| ImageBudget.BlankImageUrls | crates/codegen/xai-chat-state/src/image_budget.rs:195-207 | URLs are emptied in place and their bytes returned |
| ImageBudget.BlankItem | crates/codegen/xai-chat-state/src/image_budget.rs:176-190 | one item of the copy is blanked with its URL bytes |
| ImageBudget.MeasureConversation | crates/codegen/xai-chat-state/src/image_budget.rs:175-193 | the measurement of a history as the body with URLs measured in place |
| ImageBudget.FindImagesInUser | crates/codegen/xai-chat-state/src/image_budget.rs:223-233 | the images of a user item in order, with their slots |
| ImageBudget.FindImagesInToolResult | crates/codegen/xai-chat-state/src/image_budget.rs:234-243 | the images of a tool result in order |
| ImageBudget.FindAllImages | crates/codegen/xai-chat-state/src/image_budget.rs:221-249 | all images, oldest first |
| ImageBudget.PositionOfImage | crates/codegen/xai-chat-state/src/image_budget.rs:273-278 | the first image still in a tool result, which the search always finds |
| ImageBudget.EvictImagesToBudget | crates/codegen/xai-chat-state/src/image_budget.rs:210-291 | the in-place loop evicts the first images until the estimate is within the target |
| ImageBudget.ApplyImageBudgetWithLimits | crates/codegen/xai-chat-state/src/image_budget.rs:123-150 | the whole pass with its report |
| EvictedImages.PassIsReported | crates/codegen/xai-chat-state/src/image_budget.rs:123-150 | the history changes exactly if the body has reached the trigger, is above the target and holds an image; the report gives the bytes before and after, the images there were, whether the trigger was reached, and how many went |
| EvictedImages.EvictedUserSlot | crates/codegen/xai-chat-state/src/image_budget.rs:257-267 | slot by slot: after n evictions exactly the images of user items with fewer than n images before them are the placeholder, all else is as it was |
| EvictedImages.EvictedToolResult | crates/codegen/xai-chat-state/src/image_budget.rs:268-288 | a tool result that lost images kept its id, lost its first ones and no other part, and has the note below its text unless it was there already |
| EvictedImages.OtherItemsStay | crates/codegen/xai-chat-state/src/image_budget.rs:244-247 | items of the other kinds are not touched |
| EvictedImages.UrlIsMeasured | crates/codegen/xai-chat-state/src/image_budget.rs:152-161 | behind the first comma of a base64 data URI bytes are counted, everywhere else the JSON escapes |
| JsonText.WrittenReadsBack | crates/codegen/xai-chat-state/src/image_budget.rs:50-66 | the text written for a string reads back as the string, and the reader stops at its closing quote |
| JsonText.EscapedIsShortest | crates/codegen/xai-chat-state/src/image_budget.rs:50-66 | the bytes counted for a string are those of the literal written for it, and no literal that reads as the string is shorter |
| JsonText.EscapedTextBytes | crates/codegen/xai-chat-state/src/image_budget.rs:50-66 | the bytes counted for a string are the length of its JSON text |
| SerializedBody.SerializedIsPrinted | crates/codegen/xai-chat-state/src/image_budget.rs:50-66 | the serialized length is the length of the printed conversation: brackets, commas, part frames and all, whatever the fields are that the budget never looks at |
| SerializedBody.PartsReadBack | crates/codegen/xai-grok-sampling-types/src/conversation.rs:379-384 | the parts of a content read back out of its text, in order |
| SerializedBody.ResultReadsBack | crates/codegen/xai-grok-sampling-types/src/conversation.rs:290-299 | a tool result reads back as a whole, the images left out exactly if there are none |
| ToolRepair.RepairedIsPaired | crates/codegen/xai-chat-state/src/compaction_utils.rs:1052-1068 | a repaired history answers every call exactly once, in place, if and only if no assistant declares an id twice without an answer behind it |
| ToolRepair.ReportsChangeIffUnpaired | crates/codegen/xai-chat-state/src/compaction_utils.rs:1031-1050 | the report says unchanged exactly for histories that already pair |
| ToolRepair.SecondRepairIsQuiet | crates/codegen/xai-chat-state/src/compaction_utils.rs:1045-1068 | the documented idempotence holds exactly when the first history has no unanswered twin calls |
| ToolRepair.TwinCallsAreRepairedTwice | crates/codegen/xai-chat-state/src/compaction_utils.rs:1052-1068 | concrete twin call for which a second repair still changes the history |
| ToolRepair.RepairKeepsNonResults | crates/codegen/xai-chat-state/src/compaction_utils.rs:1052-1068 | everything but tool results stays, in order |
| ToolRepair.RepairBlock | crates/codegen/xai-grok-sampling-types/src/conversation.rs:2056-2114 | an assistant and the results behind it are repaired on their own |
| ToolRepair.StripKeepsExactlyTheRuns | crates/codegen/xai-chat-state/src/compaction_utils.rs:1070-1096 | stripping removes exactly the results outside their owner's run |
| ToolRepair.StripIsIdempotent | crates/codegen/xai-chat-state/src/compaction_utils.rs:1070-1096 | stripping twice is stripping once, and reports nothing the second time |
| ToolRepair.SanitizedIsValid | crates/codegen/xai-chat-state/src/compaction_utils.rs:981-1029 | sanitizing leaves no result without an earlier call, and strips the ids validation reports |
| ToolRepair.StrippingSubsumesSanitizing | crates/codegen/xai-chat-state/src/compaction_utils.rs:1070-1096 | stripping a sanitized history is stripping the history itself |
| ToolRepair.StrippedIsValid | crates/codegen/xai-chat-state/src/compaction_utils.rs:981-1029 | a stripped history validates |
| ToolRepair.ValidateCompactedHistory | crates/codegen/xai-chat-state/src/compaction_utils.rs:981-1000 | the ids of results with no earlier call, in order |
| ToolRepair.SanitizeCompactedHistory | crates/codegen/xai-chat-state/src/compaction_utils.rs:1002-1029 | the history without those results, and their ids |
| ToolRepair.History.RunEnd | crates/codegen/xai-grok-sampling-types/src/conversation.rs:2066-2077 | the end of the run of results behind an assistant |
| ToolRepair.History.FindSuperseded | crates/codegen/xai-grok-sampling-types/src/conversation.rs:2079-2093 | the positions of results that a later result of the run repeats |
| ToolRepair.History.RemoveSuperseded | crates/codegen/xai-grok-sampling-types/src/conversation.rs:2094-2104 | those positions are removed, from the highest down, keeping the last answer of each id |
| ToolRepair.History.DedupRun | crates/codegen/xai-grok-sampling-types/src/conversation.rs:2060-2110 | one assistant's run keeps the last result of each id |
| ToolRepair.History.DedupDuplicateToolResults | crates/codegen/xai-grok-sampling-types/src/conversation.rs:2056-2114 | every run keeps the last result of each id, and the number removed is returned |
| ToolRepair.History.StripDisplacedToolResults | crates/codegen/xai-chat-state/src/compaction_utils.rs:1070-1096 | the history without displaced results, and their ids |
| ToolRepair.History.AnsweredIds | crates/codegen/xai-grok-sampling-types/src/conversation.rs:1966-1976 | the ids answered in the run behind an assistant |
| ToolRepair.History.SyntheticResults | crates/codegen/xai-grok-sampling-types/src/conversation.rs:1978-1988 | one placeholder result for each unanswered call, in call order |
| ToolRepair.History.FindDangling | crates/codegen/xai-grok-sampling-types/src/conversation.rs:1946-1990 | where results are missing, and which |
| ToolRepair.History.RepairDanglingToolCalls | crates/codegen/xai-grok-sampling-types/src/conversation.rs:1946-2006 | the missing results are inserted behind their runs, and counted |
| ToolRepair.History.RepairHistory | crates/codegen/xai-chat-state/src/compaction_utils.rs:1052-1068 | dedup, strip and backfill in this order give the repaired history and its report |
| ToolRepair.ReportCounts | crates/codegen/xai-chat-state/src/compaction_utils.rs:1031-1050 | the duplicates reported are the results beyond one for each id of their run, the insertions are the calls that their run did not answer |
| ToolRepair.RepairedRunHoldsLastAnswers | crates/codegen/xai-grok-sampling-types/src/conversation.rs:2056-2114 | a repaired run holds, of each declared id, the last real answer unchanged, for each unanswered call a result that names its tool, and nothing else |
| ToolRepair.StrippedIdsAreTheDisplaced | crates/codegen/xai-chat-state/src/compaction_utils.rs:1070-1096 | the ids stripping reports are those of exactly the results outside their owner's run, in order |
| ToolRepair.SanitizeKeepsExactlyTheAnswers | crates/codegen/xai-chat-state/src/compaction_utils.rs:981-1029 | sanitizing removes exactly the results without an earlier call, and validation reports their ids in order |
| SummaryCleaning.NeutralizeIsOnePass | crates/codegen/xai-chat-state/src/compaction_utils.rs:785-792 | the six replacement passes equal one simultaneous pass that puts a zero-width space behind each bracket opening a live token, so the order of the passes does not matter |
| SummaryCleaning.DefusedHasNoToken | crates/codegen/xai-chat-state/src/compaction_utils.rs:782-792 | no live token is left and none appears |
| SummaryCleaning.DefusingOnlyInserts | crates/codegen/xai-chat-state/src/compaction_utils.rs:782-792 | erasing the inserted spaces gives what erasing gives of the original |
| SummaryCleaning.NeutralizingIsReversible | crates/codegen/xai-chat-state/src/compaction_utils.rs:782-792 | erasing recovers the text exactly when it held no such pair before |
| SummaryCleaning.ShorteningKeepsCap | crates/codegen/xai-chat-state/src/compaction_utils.rs:758-760 | a shortening pass keeps the capped form of the text |
| SummaryCleaning.CappedHasNoRun | crates/codegen/xai-chat-state/src/compaction_utils.rs:758-760 | the capped text has no run of three newlines and leaves texts without one alone |
| SummaryCleaning.CleanedHasNoToken | crates/codegen/xai-chat-state/src/compaction_utils.rs:699-762 | whatever the model replied, the cleaned summary contains none of the six tokens |
| SummaryCleaning.CleanedIsTight | crates/codegen/xai-chat-state/src/compaction_utils.rs:757-761 | no triple newline and no outer white space in a cleaned summary |
| SummaryCleaning.CleaningIsIdempotent | crates/codegen/xai-chat-state/src/compaction_utils.rs:699-762 | cleaning a cleaned summary changes nothing |
| SummaryCleaning.TokenFreeTextIsOnlyTightened | crates/codegen/xai-chat-state/src/compaction_utils.rs:699-762 | a reply without control tokens loses white space only |
| SummaryCleaning.NumberedBlockIsKept | crates/codegen/xai-chat-state/src/compaction_utils.rs:763-781 | a block that starts with a numbered section is kept whole; any other has no closing scratchpad tag left |
| SummaryCleaning.NoLeadingScratchpadLeft | crates/codegen/xai-chat-state/src/compaction_utils.rs:701-741 | the stripping loop ends with no closed leading scratchpad, however many there were |
| SummaryCleaning.WellFormedReplyIsUnwrapped | crates/codegen/xai-chat-state/src/compaction_utils.rs:696-762 | a reply in the asked-for form becomes its summary body under the plain heading, with no trace of the scratchpad; text around its tags is kept, whatever brackets there are short of a control token |
| SummaryCleaning.CollapseBlankLines | crates/codegen/xai-chat-state/src/compaction_utils.rs:758-760 | the loop ends, with at most two newlines in a row and nothing else changed |
| SummaryCleaning.StripAnalysisBlocks | crates/codegen/xai-chat-state/src/compaction_utils.rs:701-741 | the loop ends, with the leading scratchpad blocks gone |
| SummaryCleaning.FormatCompactSummary | crates/codegen/xai-chat-state/src/compaction_utils.rs:699-762 | the imperative cleaning computes the cleaned text |
| SummaryCleaning.FirstScratchpad | crates/codegen/xai-chat-state/src/compaction_utils.rs:705-736 | the first scratchpad: one that does not lead stays with all that follows, a closed one goes and the search begins again, one that is not closed runs to the summary tag, or to the end if there is none |
| SummaryCleaning.UnclosedRunsToTheSummary | crates/codegen/xai-chat-state/src/compaction_utils.rs:727-736 | a leading scratchpad that is never closed takes nothing from the summary tag on |
| SummaryCleaning.UnclosedReplyIsUnwrapped | crates/codegen/xai-chat-state/src/compaction_utils.rs:696-762 | a reply whose scratchpad is never closed becomes its summary body under the plain heading |
| SummaryCleaning.BlockIsUnwrapped | crates/codegen/xai-chat-state/src/compaction_utils.rs:743-757 | what stands between the first opening and the last closing summary tag comes under the heading, with what is around it kept |
| SummaryCleaning.UntaggedIsKept | crates/codegen/xai-chat-state/src/compaction_utils.rs:743-757 | without both summary tags nothing is unwrapped |
| SummaryCleaning.ReversedTagsAreKept | crates/codegen/xai-chat-state/src/compaction_utils.rs:740-743 | a closing summary tag in front of the only opening one makes no block |
| SummaryCleaning.DraftGoesAlone | crates/codegen/xai-chat-state/src/compaction_utils.rs:763-781 | drafting in front of a block goes with its last closing tag, a summary tag behind it goes too, and nothing else |
| UserQuery.WrapRoundTrip | crates/codegen/xai-chat-state/src/compaction_utils.rs:293-309 | wrapping a query and extracting it gives it back if and only if it is trimmed, has no closing query tag and no complete metadata block; otherwise the result is shorter |
| UserQuery.WrappedReadsAs | crates/codegen/xai-chat-state/src/compaction_utils.rs:862-865 | what extraction makes of any wrapped text, in closed form |
| UserQuery.StripInsideWrap | crates/codegen/xai-chat-state/src/compaction_utils.rs:275-290 | stripping a metadata tag commutes with wrapping |
| UserQuery.StripAllKeepsExactly | crates/codegen/xai-chat-state/src/compaction_utils.rs:259-290 | stripping all tags leaves a text alone exactly when it holds no complete block |
| UserQuery.StripKnownTags | crates/codegen/xai-chat-state/src/compaction_utils.rs:275-290 | the nested loops end and compute the stripped, trimmed text |
| UserQuery.BlockGoes | crates/codegen/xai-chat-state/src/compaction_utils.rs:275-290 | a metadata block goes from its opening tag to the next closing one, and the search begins again |
| UserQuery.NoBlockLeft | crates/codegen/xai-chat-state/src/compaction_utils.rs:275-290 | no complete block of the tag is left |
| UserQuery.QueryIsBetweenTags | crates/codegen/xai-chat-state/src/compaction_utils.rs:293-309 | in a message without metadata the query stands between the first opening query tag and the next closing one, or is all of it if one of them is missing |
| UserQuery.UntaggedMessageIsQuery | crates/codegen/xai-chat-state/src/compaction_utils.rs:293-309 | a message without tags is its own query, trimmed |
| CompactedHistory.AnchorsReadBack | crates/codegen/xai-chat-state/src/compaction_utils.rs:425-501 | the anchors read back out of a written history are the ones written, with the agent message on its side while the query is a human turn |
| CompactedHistory.CompactIsWritten | crates/codegen/xai-chat-state/src/compaction_utils.rs:675-694 | with or without the working tail, a compaction writes a history fixed by its inputs and the anchors it read |
| CompactedHistory.CompactionIsIdempotentExactly | crates/codegen/xai-chat-state/src/compaction_utils.rs:903-970 | compacting again with the same inputs changes nothing if and only if the query can be read back and is no runtime prompt; with a caller's objective, if and only if it is seen as a human turn where the agent message stands before it |
| CompactedHistory.AnchorsSurvive | crates/codegen/xai-chat-state/src/compaction_utils.rs:634-694 | over any number of compactions with any inputs the agent message, its side, a stable query and a kept tail are the first history's own |
| CompactedHistory.LatestAgentMessageIsCarriedOnce | crates/codegen/xai-chat-state/src/compaction_utils.rs:932-958 | any number of compactions carries exactly one agent message, the latest, unchanged, whatever the query |
| CompactedHistory.CompactionSettles | crates/codegen/xai-chat-state/src/compaction_utils.rs:372-378 | a query that cannot be read back shrinks with each compaction or is dropped, so the history settles after at most its length plus one rounds |
| CompactedHistory.ImageOnlyQueryIsLost | crates/codegen/xai-chat-state/src/compaction_utils.rs:341-358 | a prompt of images alone is the last query of the first compaction and lost in the second |
| CompactedHistory.CompactionKeepsPairing | crates/codegen/xai-chat-state/src/compaction_utils.rs:457-501 | where every call had its one answer behind it, so has every kept call in the compacted history, with placeholders for answers |
| CompactedHistory.RecentIsTail | crates/codegen/xai-chat-state/src/compaction_utils.rs:457-501 | the recent messages are assistant turns and placeholders behind the last anchor, led by the agent message when it is that anchor |
| CompactedHistory.LastAnchorIsLater | crates/codegen/xai-chat-state/src/compaction_utils.rs:439-456 | the compaction boundary is the later of the last human turn and the last agent message |
| CompactedHistory.BuildCompactedHistory | crates/codegen/xai-chat-state/src/compaction_utils.rs:903-970 | the pushes build the compacted history |
| CompactedHistory.WriteOpening | crates/codegen/xai-chat-state/src/compaction_utils.rs:914-931 | system, prefix, and the instructions chosen by the directory generation |
| CompactedHistory.CompactionWritesItsSummary | crates/codegen/xai-chat-state/src/compaction_utils.rs:903-970 | position by position: system text and prefix first, the instructions of the directory generation behind them if there are any; the summary last, with only the reminder behind it |
| CompactedHistory.CompactionCarriesTheTask | crates/codegen/xai-chat-state/src/compaction_utils.rs:932-958 | exactly one human turn comes out: the objective, or else what the last real human turn asked for |
| CompactedHistory.CompactionCarriesTheWork | crates/codegen/xai-chat-state/src/compaction_utils.rs:457-501 | where the tail is kept all work behind the last anchor stands in order right in front of the summary; where it is not, no assistant turn or result is left |
| CompactedHistory.PlainQueryIsReal | crates/codegen/xai-chat-state/src/compaction_utils.rs:332-358 | a human turn with a plain query is real unless the query is one that the runtime itself sends, or nothing |
| CompactedHistory.TextsAreJoined | crates/codegen/xai-chat-state/src/compaction_utils.rs:341-358 | a content reads as its texts, in order, one below the other |
| BudgetFit.FitKeepsPairing | crates/codegen/xai-chat-state/src/compaction_utils.rs:144-211 | in both branches results stay in the run of their declaring assistant, and a history that pairs each call with one result still does |
| BudgetFit.FitKeepsLongestSuffix | crates/codegen/xai-chat-state/src/compaction_utils.rs:144-175 | what is kept is the system head and the longest affordable suffix that does not start with a tool result |
| BudgetFit.StartIsFirstCandidate | crates/codegen/xai-chat-state/src/compaction_utils.rs:157-171 | the backward walk and the skip find the first possible start, and none exactly when there is none |
| BudgetFit.FittedCost | crates/codegen/xai-chat-state/src/compaction_utils.rs:144-175 | the fitted cost is at most the budget, or the head's cost if that alone is above it |
| BudgetFit.FitIsIdempotent | crates/codegen/xai-chat-state/src/compaction_utils.rs:144-175 | fitting a fitted history changes nothing |
| BudgetFit.TrailingRunHasOwner | crates/codegen/xai-chat-state/src/compaction_utils.rs:179-200 | results at the end of a well-formed history have their assistant right in front |
| BudgetFit.TruncatedText | crates/codegen/xai-chat-state/src/compaction_utils.rs:242-257 | the kept part is the longest character prefix within the limit less the reserve, the marker counts the rest, and the whole stays within the limit if and only if the marker fits beside that part |
| BudgetFit.PrefixIsLongest | crates/codegen/xai-chat-state/src/compaction_utils.rs:247-251 | no longer prefix of whole characters fits |
| BudgetFit.KeptCharacters | crates/codegen/xai-chat-state/src/compaction_utils.rs:247-256 | backing up to a character boundary finds the longest prefix |
| BudgetFit.TotalTokens | crates/codegen/xai-chat-state/src/compaction_utils.rs:148-151 | the sum of the estimates |
| BudgetFit.RecoverTruncatedTailUnit | crates/codegen/xai-chat-state/src/compaction_utils.rs:179-211 | the last turn with its owner, truncated in place |
| BudgetFit.FitConversationToBudget | crates/codegen/xai-chat-state/src/compaction_utils.rs:144-175 | the loops compute the fitted history |
| BudgetFit.LastTurnIsKept | crates/codegen/xai-chat-state/src/compaction_utils.rs:173-211 | when no turn fits, the last one is kept behind the head: without results the last item with each text shortened to the budget, otherwise its assistant unchanged and every result with its id, its images and its share of the budget |
| BudgetFit.RecoveredIsLastTurn | crates/codegen/xai-chat-state/src/compaction_utils.rs:179-211 | the same of the recovery by itself, for every body and budget |
| Interner.InternRefines | crates/codegen/xai-codebase-graph/src/interner.rs:108-134 | for every hash function, interning returns the old id or appends, as adding to a list without repetitions |
| Interner.LookupIsExact | crates/codegen/xai-codebase-graph/src/interner.rs:143-155 | lookup returns the id of a string exactly when it was interned |
| Interner.InternKeepsOldIds | crates/codegen/xai-codebase-graph/src/interner.rs:108-134 | no call changes what an old id reads as, with or without overflowing casts |
| Interner.InternKeepsBounds | crates/codegen/xai-codebase-graph/src/interner.rs:121-127 | with the 32-bit and 16-bit casts no span ever leaves the arena |
| Interner.InternedReadsBackExactly | crates/codegen/xai-codebase-graph/src/interner.rs:121-127 | the returned id reads back as the string exactly for strings under 64 KiB |
| Interner.LongStringsAreNeverFound | crates/codegen/xai-codebase-graph/src/interner.rs:112-134 | a longer string is never found and stored again on each call |
| Interner.RebuiltAnswersAlike | crates/codegen/xai-codebase-graph/src/interner.rs:261-278 | rebuilding from arena and offsets gives the same table, and with another hash one that answers alike |
| Interner.RunKeepsFirstOccurrences | crates/codegen/xai-codebase-graph/src/interner.rs:108-134 | a run of interned strings leaves their first occurrences in order |
| Interner.IdsDoNotDependOnTheHash | crates/codegen/xai-codebase-graph/src/interner.rs:199-204 | the ids are the same for every hash function |
| Interner.StringInterner.GetBytesId | crates/codegen/xai-codebase-graph/src/interner.rs:143-155 | the search through the bucket |
| Interner.StringInterner.InternBytes | crates/codegen/xai-codebase-graph/src/interner.rs:108-134 | the state and id after interning |
| Interner.StringInterner.FromParts | crates/codegen/xai-codebase-graph/src/interner.rs:261-278 | the loop rebuilds the buckets |
| Interner.StringInterner.Clear | crates/codegen/xai-codebase-graph/src/interner.rs:234-238 | the empty table |
| WaitProtocol.NoLostWakeup | crates/codegen/ptyctl/src/wait.rs:90-121 | over all interleavings, a waiter parked on a condition true of a settled grid can wake, while the feeder runs and after it has gone, unless a resize since its check found the sender gone |
| WaitProtocol.SettledConditionIsMatched | crates/codegen/ptyctl/src/wait.rs:90-121 | from any reachable state with a settled grid the waiter's own steps find the condition, under the same exception for a parked waiter |
| WaitProtocol.RunKeepsInv | crates/codegen/ptyctl/src/session.rs:158-173 | every interleaving keeps the lock discipline and the waiter invariant |
| WaitProtocol.GridStepKeepsWaiter | crates/codegen/ptyctl/src/session.rs:272-283 | feeder and resize steps keep it: each change is followed by a bump or counted as unsignalled |
| WaitProtocol.ReportsWhatItChecked | crates/codegen/ptyctl/src/wait.rs:93-121 | a waiter reports a match only for a grid that met the condition, and a failure only for one that did not |
| WaitProtocol.EndIsWrongExactly | crates/codegen/ptyctl/src/wait.rs:110-114 | a waiter that gives up at the end of the session is wrong about the grid if and only if resizes came after its last check and the last of them meets its condition; its counter tells exactly whether there were any |
| WaitProtocol.EndIsFinalUnlessResized | crates/codegen/ptyctl/src/wait.rs:110-114 | without a resize since its last check, whenever that was, the grid is the one it checked and does not meet the condition |
| WaitProtocol.RunKeepsHistory | crates/codegen/ptyctl/src/session.rs:272-283 | as long as nothing was signalled to a parked waiter, the grid is the one it checked with the later resizes on top, each counted |
| WaitProtocol.ResizeAfterTheEndIsMissed | crates/codegen/ptyctl/src/session.rs:272-283 | concrete run in which such a resize makes the condition true and the waiter still reports failure |
| StableWait.WaitStable | crates/codegen/ptyctl/src/wait.rs:125-158 | a match comes at the end of the first window without an event, by the deadline; a timeout comes at the deadline and only if every window that would have ended by then was broken |
| StableWait.QuietIsWrongExactly | crates/codegen/ptyctl/src/wait.rs:124-158 | a window that counts as quiet is wrong about the grid if and only if a resize after the end falls into it, and then it begins at the end or at the start of the wait |
| StableWait.SilentResizeIsMissed | crates/codegen/ptyctl/src/session.rs:272-283 | concrete session in which such a resize changes the grid within a quiet window |
| RawTail.TailIsEndOfStream | crates/codegen/ptyctl/src/wait.rs:195-206 | after any pushes the tail is the last 2048 bytes of everything pushed |
| RawTail.Tail.Push | crates/codegen/ptyctl/src/wait.rs:195-206 | the deque after one push |
| WorktreeRebuild.RowsInClosedForm | crates/codegen/xai-fast-worktree/src/discovery.rs:292-437 | every row and every claimed place after any number of identities, in closed form |
| WorktreeRebuild.RebuildKeepsRowsApart | crates/codegen/xai-fast-worktree/src/discovery.rs:292-437 | no row is lost or moved or relabelled, and a new row stands at a place no other row has |
| WorktreeRebuild.RebuildIsIdempotent | crates/codegen/xai-fast-worktree/src/discovery.rs:229-290 | running again on the resulting database registers nothing and changes no row |
| WorktreeRebuild.RankDecides | crates/codegen/xai-fast-worktree/src/discovery.rs:305-328 | a live identity goes without a row if and only if a row, or an identity of at least its rank, has its place |
| WorktreeRebuild.ClaimsAreLiveAndSkipped | crates/codegen/xai-fast-worktree/src/discovery.rs:312-345 | aborted identities never claim, and every claimed place is on the skip list |
| WorktreeRebuild.CreateTimeKeysSurvive | crates/codegen/xai-fast-worktree/src/discovery.rs:500-516 | metadata recorded when a row was created survives the refresh of its grove object |
| WorktreeRebuild.CountersAddUp | crates/codegen/xai-fast-worktree/src/discovery.rs:299-304 | registrations are new rows, and registered plus already tracked is at most the number of identities |
| WorktreeRebuild.OrderIsDetermined | crates/codegen/xai-fast-worktree/src/discovery.rs:305-309 | the order of the identities does not depend on how the map is iterated |
| WorktreeRebuild.StepTouchesOwnRow | crates/codegen/xai-fast-worktree/src/discovery.rs:316-437 | an identity changes no row but its own |
| WorktreeRebuild.WorktreeDb.Register | crates/codegen/xai-fast-worktree/src/db/queries.rs:33-66 | a row replaces the rows with its id or its path |
| WorktreeRebuild.Rebuild.ClaimDest | crates/codegen/xai-fast-worktree/src/discovery.rs:439-452 | a place is added to both lists unless an equivalent one is there |
| WorktreeRebuild.Rebuild.SkipIfGroveMount | crates/codegen/xai-fast-worktree/src/discovery.rs:454-468 | a place that may be mounted is added to the skip list |
| WorktreeRebuild.Rebuild.RegisterIdentity | crates/codegen/xai-fast-worktree/src/discovery.rs:314-383 | one identity: taken, aborted, tracked or adopted |
| WorktreeRebuild.Rebuild.AdoptIdentity | crates/codegen/xai-fast-worktree/src/discovery.rs:384-435 | an identity without a row: equivalent row, no backing, missing backing, or a new row |
| WorktreeRebuild.Rebuild.RegisterFromUnion | crates/codegen/xai-fast-worktree/src/discovery.rs:292-437 | the loop over the ordered identities |
| WorktreeRebuild.PlaceGoesToTheBest | crates/codegen/xai-fast-worktree/src/discovery.rs:305-328 | whatever order the map gives, a new place goes to the identity of highest rank that claims it, among equals to the one with the smallest id |
| WorktreeRebuild.DictionaryOrder | crates/codegen/xai-fast-worktree/src/discovery.rs:305-309 | ids compare as in a dictionary |
| WorktreeRebuild.RefreshReachesTheRow | crates/codegen/xai-fast-worktree/src/discovery.rs:346-383 | a grove row whose identity ranks above the database and was not aborted holds the identity's grove object, nothing else of it changes, and every other row stays |
| WorktreeRebuild.NewRowIsItsIdentity | crates/codegen/xai-fast-worktree/src/discovery.rs:384-435 | a new row belongs to a live identity with a backing and holds its place, source, mode, times and grove object |
| WorktreeRebuild.TrackedInClosedForm | crates/codegen/xai-fast-worktree/src/discovery.rs:316-437 | the identities counted as tracked are those with a row that were not aborted, and those whose place is taken |
| WorktreeRebuild.SkippedInClosedForm | crates/codegen/xai-fast-worktree/src/discovery.rs:439-468 | the skip list holds exactly the claimed places and the places where an aborted identity, or one whose backing is gone, may have left a mount |
| LineReader.RunPreservesStream | crates/codegen/xai-acp-lib/src/line_reader.rs:57-133 | for every schedule and every read size, delivered, held and unread bytes make up the source, and the reader task stops behind a newline or at an end |
| LineReader.EverythingArrives | crates/codegen/xai-acp-lib/src/line_reader.rs:85-133 | without long lines or failures an end of input comes only after every byte, and no error is reported |
| LineReader.StreamIsDelivered | crates/codegen/xai-acp-lib/src/line_reader.rs:57-133 | after one run of the reader task per byte and one more, and as many polls behind them, in any schedule, everything before the first failing line has been delivered and the end is all there is to read |
| LineReader.TaskAdvances | crates/codegen/xai-acp-lib/src/line_reader.rs:57-74 | every run of the reader task reads on or ends it, and at most one error is sent |
| LineReader.PollLightens | crates/codegen/xai-acp-lib/src/line_reader.rs:85-133 | a poll that asks for bytes shortens what is held or takes the error, or there is nothing to take |
| LineReader.NothingReadMeansEnd | crates/codegen/xai-acp-lib/src/line_reader.rs:94-128 | a zero-length read into a nonempty buffer means the reader task ended with nothing held |
| LineReader.PendingOnlyAtBoundary | crates/codegen/xai-acp-lib/src/line_reader.rs:107-129 | a poll is pending only at a line boundary or an end of the source |
| LineReader.PollTakesFromHeld | crates/codegen/xai-acp-lib/src/line_reader.rs:85-133 | a poll delivers the front of what is held |
| LineReader.ReadLineCapped | crates/codegen/xai-acp-lib/src/line_reader.rs:138-177 | the result depends on the remaining bytes only, not on the chunks: the line, a failure, or the cap error exactly for a line over the cap |
| LineReader.AfterChunk | crates/codegen/xai-acp-lib/src/line_reader.rs:150-163 | what one chunk contributes to the line |
| LineReader.ChunkedSource.Consume | crates/codegen/xai-acp-lib/src/line_reader.rs:164-164 | consumed bytes leave the front of the source |
| LineReader.LineBufferedRead.RunTaskOnce | crates/codegen/xai-acp-lib/src/line_reader.rs:57-74 | one round of the reader task sends a line, an error, or ends |
| LineReader.LineBufferedRead.PollRead | crates/codegen/xai-acp-lib/src/line_reader.rs:85-133 | one poll and the state it leaves |
| LineReader.WhatComesNext | crates/codegen/xai-acp-lib/src/line_reader.rs:138-177 | a line that a newline ends comes with it and fails only by its length; without a newline the rest is a line unless it is too long, the source fails, or nothing is left |
| LineReader.WhatIsReadable | crates/codegen/xai-acp-lib/src/line_reader.rs:57-74 | what is readable are exactly the good lines in front of the first message that is no line |
| UsageLedger.RunInClosedForm | crates/codegen/xai-chat-state/src/usage.rs:113-152 | after any run each counter of the totals and of each model is the plain sum of what was recorded, cut off once, and the totals are the sum over the models, whatever the costs are; without negative costs the same holds of the cost |
| UsageLedger.SessionBillIsItsCalls | crates/codegen/xai-grok-shell/src/agent/subagent/attempt_runner.rs:324-365 | a session whose subagents, at any depth, report their bill by model has the bill of all calls recorded in one ledger, cost included, and is incomplete exactly if usage may be missing somewhere below |
| UsageLedger.SessionCostIsAbsentExactly | crates/codegen/xai-chat-state/src/usage.rs:46-63 | in such a session the cost, in total and for a model, is absent exactly if every call below was missing it |
| UsageLedger.ChildBillEqualsItsCalls | crates/codegen/xai-chat-state/src/usage.rs:132-140 | folding a child's bill by model counts what recording its calls directly counts, in every ledger; without negative costs the costs agree, too |
| UsageLedger.OrderDoesNotMatter | crates/codegen/xai-chat-state/src/usage.rs:120-152 | two runs that record the same entries in any order and portions count alike everywhere; without negative costs the costs agree, too |
| UsageLedger.CounterIsSaturatedSum | crates/codegen/xai-chat-state/src/usage.rs:73-96 | each counter is the plain sum cut off once at the largest 64-bit value |
| UsageLedger.FoldLaws | crates/codegen/xai-chat-state/src/usage.rs:73-104 | without negative costs, folding is associative and commutative with the empty totals as unit |
| UsageLedger.CostIsAbsentExactly | crates/codegen/xai-chat-state/src/usage.rs:46-63 | over any calls the cost is absent exactly if every call was missing it, and missing calls are among the calls |
| UsageLedger.DebtBreaksGrouping | crates/codegen/xai-chat-state/src/usage.rs:99-104 | concrete negative cost for which grouping changes the saturated sum |
| UsageLedger.RunKeepsCallCount | crates/codegen/xai-chat-state/src/usage.rs:120-144 | main-loop calls never exceed model calls, and incomplete never resets |
| UsageLedger.AmountAfterEntries | crates/codegen/xai-chat-state/src/usage.rs:132-152 | entries add their plain sum to each counter of any amount, cut off once; without negative costs they add all they fold to |
| UsageLedger.UsageLedger.FoldOne | crates/codegen/xai-chat-state/src/usage.rs:146-152 | one entry in the totals and in the model's row |
| UsageLedger.UsageLedger.RecordMainLoopCall | crates/codegen/xai-chat-state/src/usage.rs:120-130 | one main-loop call |
| UsageLedger.UsageLedger.RecordSubagent | crates/codegen/xai-chat-state/src/usage.rs:132-140 | the loop over a subagent's bill |
| UsageLedger.UsageLedger.SetIncomplete | crates/codegen/xai-chat-state/src/usage.rs:142-144 | the flag is set, nothing else changes |
| UsageLedger.CallsAreCounted | crates/codegen/xai-chat-state/src/usage.rs:113-130 | after any main-loop calls each counter, in total and of a model, is the sum of the calls' own figures, cut off once; the cost is the sum of the positive costs, or absent without any |
| CrashBlob.PrintedParses | crates/codegen/xai-crash-handler/src/format.rs:40-89 | what the writer prints parses back to its fields, frames and shown version, whatever follows, if and only if there are at most 64 frames |
| CrashBlob.VersionRoundTrip | crates/codegen/xai-crash-handler/src/format.rs:57-61 | the version comes back if and only if its UTF-8 bytes fit 32 and it does not end in a null character |
| CrashBlob.ParsesAfterEitherWrite | crates/codegen/xai-crash-handler/src/handler.rs:343-383 | the file parses after either write, with the same fields, and the second frame list extends the first |
| CrashBlob.WalkIsChain | crates/codegen/xai-crash-handler/src/handler.rs:152-185 | the walk visits aligned frames that link upward to each other |
| CrashBlob.ChainGoesUp | crates/codegen/xai-crash-handler/src/handler.rs:180-184 | the visited frame pointers strictly increase, so none is visited twice |
| CrashBlob.WalkFramePointers | crates/codegen/xai-crash-handler/src/handler.rs:152-185 | the loop writes the return addresses of the walk and ends within the room |
| CrashBlob.WriteHeader | crates/codegen/xai-crash-handler/src/format.rs:101-158 | the first 64 bytes of the buffer are the header |
| CrashBlob.WriteVersion | crates/codegen/xai-crash-handler/src/format.rs:144-155 | the version field, cut or padded with zeros |
| CrashBlob.WriteFrame | crates/codegen/xai-crash-handler/src/format.rs:163-169 | one frame appended, or nothing without room |
| CrashBlob.WriteBlob | crates/codegen/xai-crash-handler/src/handler.rs:357-363 | the buffer holds the printed blob |
| CrashBlob.CrashFile.Write | crates/codegen/xai-crash-handler/src/handler.rs:363-381 | a write at the start of the file |
| CrashBlob.WriteCrashBlob | crates/codegen/xai-crash-handler/src/handler.rs:343-383 | both phases leave the final file |
| CrashBlob.HeaderParts | crates/codegen/xai-crash-handler/src/format.rs:101-158 | every field of the header at its offset |
| CrashBlob.LittleEndian | crates/codegen/xai-crash-handler/src/format.rs:40-56 | each byte of a number is its digit to the base 256, lowest first |
| CrashBlob.LongVersionIsCut | crates/codegen/xai-crash-handler/src/format.rs:57-61 | of a version that does not fit what is shown is the text that fills the field, or nothing if the field ends inside a character |
| CrashBlob.WalkIsLongest | crates/codegen/xai-crash-handler/src/handler.rs:152-185 | the walk gives up only for want of room, or at what is no frame, or where the chain does not go up |
| Utf8.DecodeEncoded | crates/codegen/xai-crash-handler/src/format.rs:57-59 | decoding gives back an encoded text |
| Utf8.DecodedEncodes | crates/codegen/xai-crash-handler/src/format.rs:57-59 | only encodings decode, so a cut character makes the field invalid |
| Utf8.BytesAreEncoded | crates/codegen/xai-crash-handler/src/format.rs:57-59 | the length of a text's encoding is the UTF-8 length that the other modules count |
| Utf8.KnownCharacters | crates/codegen/xai-crash-handler/src/format.rs:57-59 | one character of each length, as in section 3 of RFC 3629 |
| TreeSearch.NestedSearch | crates/codegen/xai-codebase-graph/src/navigation.rs:309-340 | on nested ranges: a hit is an identifier at the point with no identifier at the point below it, and there is one if and only if the tree has an identifier at the point |
| TreeSearch.FoundExactly | crates/codegen/xai-codebase-graph/src/navigation.rs:309-340 | on any tree: a hit exists if and only if an identifier is reached through nodes that contain the point |
| TreeSearch.FoundIsInnermost | crates/codegen/xai-codebase-graph/src/index_manager.rs:1541-1572 | on any tree: a hit is an identifier reached through such nodes, and the search finds nothing below it |
| StyledRuns.ViewsAgree | crates/codegen/ptyctl/src/styled.rs:91-163 | neighbouring runs differ in style, none is empty, and joined and trimmed they are the plain line if and only if the cursor hides no zero-width mark, as far as marks are not white space |
| StyledRuns.SameText | crates/codegen/ptyctl/src/term.rs:271-285 | the two views read the same text exactly when the cursor cell carries no zero-width mark |
| StyledRuns.CursorHidesAMark | crates/codegen/ptyctl/src/term.rs:274-277 | concrete line on which the two views differ |
| StyledRuns.NoLineIsDropped | crates/codegen/ptyctl/src/term.rs:309-335 | for all rows of cells and any cursor the styled screen keeps every line the plain screen keeps, with the same text unless the cursor hides a mark there |
| StyledRuns.CoalesceCells | crates/codegen/ptyctl/src/styled.rs:99-149 | the loop over the cells makes one run of neighbouring cells of one style |
| StyledRuns.ExtractStyledLine | crates/codegen/ptyctl/src/styled.rs:91-163 | the runs of a line without its invisible end |
| StyledRuns.GlyphsAreKept | crates/codegen/ptyctl/src/styled.rs:99-149 | making runs loses, moves and restyles no character |
| StyledRuns.EachCellIsPainted | crates/codegen/ptyctl/src/term.rs:271-285 | without spacers and marks there is one character for each cell, in its place and style, and the cursor's in its own |
| StyledRuns.LineEndsWithTheLastThatShows | crates/codegen/ptyctl/src/styled.rs:150-163 | a line of runs ends with the last run that has a colour, is bold, or holds a character that is not white space |
| StyledRuns.PlainScreenEnds | crates/codegen/ptyctl/src/term.rs:285-299 | the plain screen ends with the last line that is not blank, and the lines up to there lose only white space at their end |
| StyledRuns.StyledScreenEnds | crates/codegen/ptyctl/src/term.rs:327-332 | the styled screen ends with the last line that has a run, and the lines up to there are unchanged |
| SegmentStore.NameRoundTrip | crates/codegen/xai-compaction-transcript/src/lib.rs:83-99 | each 64-bit index is read back from its file name |
| SegmentStore.KeptIsMaximal | crates/codegen/xai-compaction-transcript/src/lib.rs:488-500 | the kept turns are the longest prefix of whole turns within the budget |
| SegmentStore.RenderedLength | crates/codegen/xai-compaction-transcript/src/lib.rs:482-510 | the exact length of a document, line breaks between turns included |
| SegmentStore.CapIsKeptExactly | crates/codegen/xai-compaction-transcript/src/lib.rs:482-510 | a document keeps the cap if and only if the breaks between its turns, and the notice if turns are omitted, fit beside preamble and turns; the preamble need not fit |
| SegmentStore.SegmentBound | crates/codegen/xai-compaction-transcript/src/lib.rs:482-510 | with a preamble that fits, the cap is exceeded by at most one byte for each break, and kept by documents of up to 55 turns |
| SegmentStore.ShortTurnsExceedTheCap | crates/codegen/xai-compaction-transcript/src/lib.rs:439-510 | for arbitrary turns: the cap is exceeded when they fill the budget up to less than their breaks, and when the document is cut behind more turns than the first omitted one and the slack have bytes |
| SegmentStore.HeadersExceedTheCap | crates/codegen/xai-compaction-transcript/src/lib.rs:394-432 | every session of 30000 or more turns without text, each with its own index, exceeds the cap behind any preamble up to 500000 bytes |
| SegmentStore.RenderSegment | crates/codegen/xai-compaction-transcript/src/lib.rs:482-510 | the loop computes the document |
| SegmentStore.NameHasThreeDigits | crates/codegen/xai-compaction-transcript/src/lib.rs:83-89 | below a thousand a name has three digits, most significant first |
| SegmentStore.WhatIsWritten | crates/codegen/xai-compaction-transcript/src/lib.rs:482-510 | a document is its preamble and its turns; if not all fit, the ones that fit and a notice that names the cap and counts the turns left out |
| SegmentStore.JoinedInOrder | crates/codegen/xai-compaction-transcript/src/lib.rs:482-510 | turns stand in order with one line break between neighbours |

## Left out

- The index stores per-file symbols only; import aliases and the order of definitions inside one symbol depend on hash order in the source and are not modelled.
- Runs in which two event paths share one index key, which the watcher's absolute paths never do, are outside the refinement lemmas.
- Definition merging in `goto_references` and the other navigation queries: every query is some function of the index.
- Cache saving, file locks, threads and background walks of the index actor.
- ImageBudget.ApplyImageBudgetWithLimits: byte counts are unbounded naturals, so saturation of machine words is not captured; the placeholder and note texts are parameters.
- BudgetFit.FitConversationToBudget: the token estimate of an item is an arbitrary function, and sums do not overflow; nothing is said about the estimate of a truncated turn.
- CompactedHistory.BuildCompactedHistory: the wording of the summary item and of the reminders is a parameter, and the alternate summary carrier, which is not compiled in, is absent.
- The remaining context fields of a compaction (edited paths, tasks, todos, servers), which are only copied.
- Detection of degenerate summaries, bounds on captured command output, and the note that says where a transcript lies.
- CompactedHistory.CompactionIsIdempotentExactly: the prompt sent after an automatic compaction is a short stand-in; only that a query can equal it matters.
- UsageLedger.RunInClosedForm: which calls a ledger sees when a subagent's report is lost or late is not modelled; its cost part is stated for bills without negative costs, which is what calls produce.
- UserQuery.StripKnownTags: byte positions are character positions; both name the same cut, since tags are ASCII.
- The terminal emulator, the regular-expression engine and the parser: a grid is its screen text, a condition an arbitrary predicate, a tree its nodes with ranges.
- WaitProtocol.SettledConditionIsMatched: fairness of the scheduler is not modelled; the lemma says what the waiter's own steps reach.
- StableWait.WaitStable: a waiter that is due runs at once; scheduling delays are not modelled, and ties are settled by a parameter.
- WorktreeRebuild.RebuildIsIdempotent: the scan of the managed directories that follows the registration is not modelled; mounts, backing stores and path equivalence are functions that do not change between runs.
- Columns of a worktree row that the rebuild neither reads nor changes, and rows whose paths are not valid text.
- LineReader.RunPreservesStream: the capacity of the channel and a dropped receiver are not modelled; the schedule of reader task and polls is arbitrary.
- The order in which models first appear in a bill is kept by the model; wire projections of the ledger are not modelled.
- CrashBlob.ParsesAfterEitherWrite: each write is atomic and memory reads do not fault; signal installation, register extraction and the Windows handler are left out.
- StyledRuns.NoLineIsDropped: row and column ranges, HTML rendering, scrollback and native copy are left out.
- SegmentStore.RenderSegment: the preamble and the rendered turns are inputs; turn statistics, index rows and keywords are left out.
- Process spawning, servers, command lines, message enums, persistence wrappers, telemetry and prompt wording.
