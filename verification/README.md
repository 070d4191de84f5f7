# Verified models of eight components

A Dafny 4.11 model of eight components of the repository and the properties they are there for.  Each module
follows one source file or one part of it; code that works by changing things step by step is modelled by methods
over arrays and classes, each proved against functions on values, and the main results are lemmas about those.

- **Image byte budget** (`Conversation`, `BodyMeasurement`, `ImageEviction`, `ImageAccounting`, `ImageBudget`,
  `ImageBudgetTheorems`, `ImageCharges`): the JSON a history is written as (string escaping as in section 7 of
  RFC 8259), its size measured without scanning base64 tails, and the eviction of the oldest images by a list
  collected beforehand and a running count.
- **Compaction** (`SummaryScrubber`, `SummaryKept`, `ToolPairing`, `HistoryRepair`, `HistoryRepairPasses`,
  `Utf8Truncation`, `BudgetFit`, `BudgetFitCosts`): cleaning a summary, the passes that keep tool calls and results
  paired, and fitting a history into a token budget, with the estimate of crates/codegen/xai-chat-state/src/actor/state.rs:61-98.
- **Wait protocol** (`WaitProtocol`, in the same file `RawTail`): feeder, resize and waiters as the steps between
  which another party can act; the results hold of every reachable state.
- **Index manager** (`EventCoalescing`; `IndexRuns` and `IndexManager` in one file): coalescing of file events, the
  draining command loop, and its relation to a loop that handles one command at a time.
- **Patch queue** (`PatchManifest` and `PatchQueue` in one file, `ConflictSplit`): apply, conflict, resume and the
  contract gate over any number of rounds; splitting a conflicted file and checking a resolution.
- **Interner**, **line reader** and **segment renderer** (`Interner`, `LineReader`, `SegmentRenderer`).

`Sequences` holds facts about searching and slicing that several modules use.

## What the models found

Where the code and its comments or names disagree the models follow the code.

- Measuring a body is exact only if base64 tails hold nothing that JSON escapes; the code does not look
  (image_budget.rs:203-208).
- A user image shorter than the placeholder is replaced at a cost that is never charged, so eviction can stop above
  its target (image_budget.rs:297).
- `repair_history` is called idempotent; it is not when a turn repeats a call id that nothing answers
  (compaction_utils.rs:1163).
- Truncated text can exceed its limit below 64 bytes (compaction_utils.rs:259).
- A fitted history can exceed any limit: each text of a turn is cut to the whole limit by itself, and images, call
  arguments, the turn that called for a run of results, reasoning and backend calls are never cut
  (compaction_utils.rs:161, 231-257).  `FittedWithinBudgetIff` says exactly when it does not.
- A leading analysis block survives when a summary opens with it and an unclosed one before the summary is dropped
  (compaction_utils.rs:802-810).
- After the feeder's exit a grid is called final, but a resize can still change it, unannounced; and the screen
  reported with a timeout is the text that was checked only if nothing changed the grid in between, or the last
  change drew it again (wait.rs:44, 120).
- A file that was indexed before a group of events and is modified and removed within it stays in the index
  (index_manager.rs:833-834).
- Strings of 2^16 bytes or more are interned anew each time and read back cut (interner.rs:133).
- A segment of many short turns exceeds its cap by the newlines between them, and a summary over 512 KiB does so by
  itself (lib.rs:478-482, 497).
- A conflicted file with an unclosed region, such as a lone opening marker, splits into two more segments than regions
  (patchctl.py:548-549).
- The trailer check of a resume searches for the id, so that an id that begins another passes for it; and contracts
  taken out of the manifest between rounds escape the gate while another record still declares one
  (patchctl.py:1214, 821-837).

## Model

| member | source | states |
|---|---|---|
| `Json.EscapeConcat` | crates/codegen/xai-chat-state/src/image_budget.rs:203-208 | JSON escaping of a concatenation is the concatenation of the escapings, the fact the base64 shortcut rests on |
| `Json.EscapeRoundTrip` | crates/codegen/xai-chat-state/src/image_budget.rs:183-192 | what is written for a text is a JSON string and reads back as the text (section 7 of RFC 8259) |
| `Json.EscapeKeepsLengthIff` | crates/codegen/xai-chat-state/src/image_budget.rs:203-208 | a text is written byte for byte exactly when none of its bytes needs escaping |
| `ImageBytes.Base64TailIff` | crates/codegen/xai-chat-state/src/image_budget.rs:183-192 | the unscanned shortcut is taken for exactly those URLs whose part before the first comma begins with data: and ends with ;base64, and for what follows that comma |
| `BodyMeasurement.BodyBytesPlusExcess` | crates/codegen/xai-chat-state/src/image_budget.rs:183-227 | for every history, the measured size plus what escaping adds to base64 tails is the length of the whole serialization |
| `BodyMeasurement.MeasurementExactIff` | crates/codegen/xai-chat-state/src/image_budget.rs:183-227 | the measurement never exceeds the serialized size, and equals it exactly when what follows the first comma of every base64 data URL needs no escaping |
| `BodyMeasurement.Base64TailsAreClean` | crates/codegen/xai-chat-state/src/image_budget.rs:203-208 | tails over the base64 alphabet (section 4 of RFC 4648) are measured exactly |
| `BodyMeasurement.OtherUrlsAreExact` | crates/codegen/xai-chat-state/src/image_budget.rs:183-192 | a history none of whose images is such a URL is measured exactly, whatever its URLs hold |
| `BodyMeasurement.MeasurementCanUndercount` | crates/codegen/xai-chat-state/src/image_budget.rs:183-192 | a data URL with a quotation mark in its tail is measured too small |
| `BodyMeasurement.BlankImageUrls` | crates/codegen/xai-chat-state/src/image_budget.rs:229-236 | blanking empties every image URL, leaves all else, and adds the URLs' encoded lengths to the running total |
| `BodyMeasurement.ConversationBodyBytes` | crates/codegen/xai-chat-state/src/image_budget.rs:209-227 | blank, serialize, add back: the loop over the copy yields the size that counts every URL in place |
| `ImageEviction.NoteIsAppendedOnce` | crates/codegen/xai-chat-state/src/image_budget.rs:311-315 | adding the tool note to a text that has it changes nothing, so repeated evictions add one note |
| `ImageEviction.EvictItemStep` | crates/codegen/xai-chat-state/src/image_budget.rs:287-317 | within an item, the recorded location and size of the q-th image still denote that image when q images are gone, and evicting there makes it q + 1 |
| `ImageEviction.EvictStep` | crates/codegen/xai-chat-state/src/image_budget.rs:255-320 | after k evictions the k-th entry of the list collected beforehand names the k-th image of the original history with its recorded size, so no unreachable branch is hit, and evicting there evicts the first k + 1 |
| `ImageAccounting.HistoryCoversDeficit` | crates/codegen/xai-chat-state/src/image_budget.rs:285-317 | what is still in the history always outweighs the placeholder bytes never charged and the next image together, so taking it from the running count never saturates |
| `ImageAccounting.RunningStep` | crates/codegen/xai-chat-state/src/image_budget.rs:287-317 | one trip round the loop takes the running count to the true size plus 12 bytes for each vanished field minus the uncharged placeholder bytes, exactly, for user and tool images alike |
| `ImageBudget.CollectLocations` | crates/codegen/xai-chat-state/src/image_budget.rs:255-283 | the nested loops list every image with location and size in document order |
| `ImageBudget.EvictOne` | crates/codegen/xai-chat-state/src/image_budget.rs:291-316 | one iteration, in place: the next image goes and the running count follows |
| `ImageBudget.EvictImagesToBudget` | crates/codegen/xai-chat-state/src/image_budget.rs:244-321 | the loop evicts the first k images for the first k at which the running count meets the target, or all |
| `ImageBudget.StopIsUnique` | crates/codegen/xai-chat-state/src/image_budget.rs:285-290 | that k is determined by history and target |
| `ImageBudget.ApplyImageBudgetWithLimits` | crates/codegen/xai-chat-state/src/image_budget.rs:154-181 | nothing below the trigger or at the target; otherwise the eviction up to the first count that meets the target; and every field of the outcome, the sizes before and after included |
| `ImageBudget.ApplyImageBudget` | crates/codegen/xai-chat-state/src/image_budget.rs:141-147 | the same, every field of the outcome included, with the production limits of 47 and 25 MiB |
| `ImageBudget.ImagesLeft` | crates/codegen/xai-chat-state/src/image_budget.rs:255-320 | k evictions remove exactly the first k images; the others stay in order; images before are images after plus k |
| `ImageBudgetTheorems.EvictionKeepsTheRest` | crates/codegen/xai-chat-state/src/image_budget.rs:291-316 | every other part, id, text and item keeps its content and order, apart from one note on a tool result that lost an image |
| `ImageBudgetTheorems.NoDeficitIff` | crates/codegen/xai-chat-state/src/image_budget.rs:297 | the saturating subtraction for user images loses nothing exactly when every user image part is at least as long as the placeholder part |
| `ImageBudgetTheorems.RunningNeverUndercounts` | crates/codegen/xai-chat-state/src/image_budget.rs:285-317 | under that condition the running count is never below the true size, at any iteration |
| `ImageBudgetTheorems.LargeUserImagesMeetTarget` | crates/codegen/xai-chat-state/src/image_budget.rs:154-171 | under that condition, if an image is left after eviction ran, the size afterwards is at most the reclaim target, whatever the target |
| `ImageBudgetTheorems.GuaranteeIff` | crates/codegen/xai-chat-state/src/image_budget.rs:285-317 | for all targets at once, the guarantee holds exactly when at no point where the loop can stop the uncharged bytes outweigh the uncredited fields |
| `ImageCharges.RunningByCharges` | crates/codegen/xai-chat-state/src/image_budget.rs:285-317 | the running count after k evictions is the initial size less a charge for each of the first k images of the original history: what a user image is longer than the placeholder, what a tool image and its comma take, less the note where it is new |
| `ImageCharges.GuaranteeByChargesIff` | crates/codegen/xai-chat-state/src/image_budget.rs:285-317 | so the condition of the guarantee is one on the sizes of the listed images, to be checked before the call: at no new high of the charges may the undersized user images outweigh 12 bytes for each emptied field |
| `ImageBudgetTheorems.UndersizedThenOversized` | crates/codegen/xai-chat-state/src/image_budget.rs:297 | a user turn with an image shorter than the placeholder, a longer one and a third misses some target, whatever the texts say |
| `ImageBudgetTheorems.TinyImagesMissTheTarget` | crates/codegen/xai-chat-state/src/image_budget.rs:297 | there is a history and a target that is missed with an image left |
| `ImageBudgetTheorems.SecondApplicationIdleIff` | crates/codegen/xai-chat-state/src/image_budget.rs:56-60 | a second application changes nothing exactly when the first ended below the trigger, at the target, or without images |
| `ImageBudgetTheorems.BudgetIsIdempotent` | crates/codegen/xai-chat-state/src/image_budget.rs:43-60 | with the target below the trigger, applying the budget twice is applying it once |
| `SummaryScrubber.DefusingAddsNoTag` | crates/codegen/xai-chat-state/src/compaction_utils.rs:851-862 | replacing one token by its defused form removes it everywhere and creates no occurrence of any tag |
| `SummaryScrubber.NeutralizedIsTokenFree` | crates/codegen/xai-chat-state/src/compaction_utils.rs:855-862 | after the six replacements none of the six control tokens is left, for every text |
| `SummaryScrubber.NeutralizedKeepsText` | crates/codegen/xai-chat-state/src/compaction_utils.rs:851-862 | neutralizing inserts zero-width spaces and does nothing else |
| `SummaryScrubber.CollapsedKeepsText` | crates/codegen/xai-chat-state/src/compaction_utils.rs:823-825 | the newline loop removes newlines and nothing else |
| `SummaryScrubber.NumberLeadsIff` | crates/codegen/xai-chat-state/src/compaction_utils.rs:840-841 | a text leads with a number exactly when the first character behind list marks and blanks is an ASCII digit |
| `SummaryScrubber.ScratchpadIsPeeled` | crates/codegen/xai-chat-state/src/compaction_utils.rs:828-850 | what is peeled is everything up to and including the last closing analysis tag, and besides it only blanks and the tag that opens a summary; no closing tag is left; a text that leads with a numbered section is kept as it is |
| `SummaryScrubber.StripLeadingScratchpad` | crates/codegen/xai-chat-state/src/compaction_utils.rs:838-850 | the code that peels: what it returns is such a remainder, free of closing analysis tags unless a numbered section leads |
| `SummaryScrubber.AnalysisLeftIff` | crates/codegen/xai-chat-state/src/compaction_utils.rs:789-812 | after the loop a leading analysis block is left exactly when the closed ones are followed by an unclosed one behind which a summary opens, but for blanks, with another |
| `SummaryScrubber.DropAnalysis` | crates/codegen/xai-chat-state/src/compaction_utils.rs:790-812 | the loop that drops leading analysis blocks terminates with all slices in range, and leaves one exactly in that case |
| `SummaryScrubber.FormatCompactSummary` | crates/codegen/xai-chat-state/src/compaction_utils.rs:789-827 | the whole cleaner, loop by loop, terminates and computes the function the lemmas are about |
| `SummaryScrubber.FormattedIsScrubbed` | crates/codegen/xai-chat-state/src/compaction_utils.rs:779-827 | whatever the model wrote, the result holds none of the six tokens and no three newlines in a row, and is trimmed |
| `SummaryScrubber.TokenFreeIsOnlyTidied` | crates/codegen/xai-chat-state/src/compaction_utils.rs:789-827 | a text without tokens is only collapsed and trimmed |
| `SummaryScrubber.FormattedUnchangedIff` | crates/codegen/xai-chat-state/src/compaction_utils.rs:789-827 | cleaning twice is cleaning once, and the texts left alone are exactly the scrubbed ones |
| `SummaryKept.HiddenAnalysisIsLeft` | crates/codegen/xai-chat-state/src/compaction_utils.rs:802-810 | a family of texts in which that happens: an unclosed block goes up to the summary behind it, and the block the summary opens with stays |
| `SummaryKept.AnalysisCanBeLeft` | crates/codegen/xai-chat-state/src/compaction_utils.rs:802-810 | its shortest member: an opening analysis tag, a summary tag and an analysis tag again |
| `SummaryKept.LeadingBlockGoes` | crates/codegen/xai-chat-state/src/compaction_utils.rs:790-801 | a closed leading analysis block goes without a trace, whatever other tags it quotes |
| `SummaryKept.NumberedSummaryIsKept` | crates/codegen/xai-chat-state/src/compaction_utils.rs:782-827 | of a reply whose summary leads with a numbered section just the closed analysis blocks go, any number of them in front of the summary, with text between, and right inside it; the summary is kept whole, whatever tags it quotes further on, and with the text around it is only defused, collapsed and trimmed. The text around holds no opening tag in front and no closing summary tag behind |
| `SummaryKept.PlainSummaryIsKept` | crates/codegen/xai-chat-state/src/compaction_utils.rs:813-850 | the same of any summary that closes no analysis, numbered or not: trimmed, and out of an opening tag of its own, it is kept whole behind the heading |
| `SummaryKept.PeeledSummaryIsKept` | crates/codegen/xai-chat-state/src/compaction_utils.rs:828-850 | and of a summary that closes one and leads with no number: what stands behind the last closing tag is kept so |
| `SummaryKept.BlockLeadsIff` | crates/codegen/xai-chat-state/src/compaction_utils.rs:791-798 | the first analysis block is a leading one exactly when only blanks stand between the first summary tag before it and the block, or, with none before it, one comes behind it or only blanks stand before it |
| `SummaryKept.NoSummaryToUnwrap` | crates/codegen/xai-chat-state/src/compaction_utils.rs:813-822 | a text without a leading block and without a summary tag is only defused, collapsed and trimmed |
| `SummaryKept.UnclosedSummaryStays` | crates/codegen/xai-chat-state/src/compaction_utils.rs:813-816 | so is one whose first summary tag is never followed by a closing one |
| `SummaryKept.CollapsedIsSqueezed` | crates/codegen/xai-chat-state/src/compaction_utils.rs:823-825 | the newline loop cuts each run of newlines to at most two and does nothing else |
| `SummaryKept.TokenIsDefused` | crates/codegen/xai-chat-state/src/compaction_utils.rs:851-862 | whatever stands around a control token, all six replacements together put a zero-width space behind its bracket, and act on either side by themselves |
| `ToolPairing.ValidateCompactedHistory` | crates/codegen/xai-chat-state/src/compaction_utils.rs:1077-1094 | the scan with a growing set of ids |
| `ToolPairing.SanitizeCompactedHistory` | crates/codegen/xai-chat-state/src/compaction_utils.rs:1111-1138 | the filter strips just the ids that validation reports |
| `ToolPairing.StripDisplacedToolResults` | crates/codegen/xai-chat-state/src/compaction_utils.rs:1190-1216 | the retain pass with its set of the current run's ids |
| `ToolPairing.ValidIff` | crates/codegen/xai-chat-state/src/compaction_utils.rs:1068-1076 | validation is clean exactly when every result has its call somewhere before it, and sanitizing keeps just what does |
| `ToolPairing.PairedIff` | crates/codegen/xai-chat-state/src/compaction_utils.rs:1179-1189 | nothing is displaced exactly when every result sits in the contiguous run after its owner, and stripping keeps just what does |
| `ToolPairing.SanitizedIsValid` | crates/codegen/xai-chat-state/src/compaction_utils.rs:1095-1105 | sanitized histories validate clean |
| `ToolPairing.StrippedIsPaired` | crates/codegen/xai-chat-state/src/compaction_utils.rs:1179-1189 | stripped histories are paired; stripping twice is stripping once; and the fixed points are exactly the paired histories |
| `ToolPairing.StrippingIsStricter` | crates/codegen/xai-chat-state/src/compaction_utils.rs:1184-1189 | what stripping keeps is a subsequence of what sanitizing keeps, and validates clean |
| `ToolPairing.PassesKeepNonResults` | crates/codegen/xai-chat-state/src/compaction_utils.rs:1107-1110 | neither pass touches an item that is not a result |
| `HistoryRepair.RepairedByBlocks` | crates/codegen/xai-chat-state/src/compaction_utils.rs:1158-1178 | the three passes together treat each assistant turn and its run on their own |
| `HistoryRepair.RepairedIsPaired` | crates/codegen/xai-chat-state/src/compaction_utils.rs:1158-1162 | after repair every result is in its owner's run, every call is answered there, validation is clean, and no other item was touched |
| `HistoryRepair.TurnIsRepaired` | crates/codegen/xai-chat-state/src/compaction_utils.rs:1158-1178 | behind each assistant turn the results that are the last for one of its calls stay, in order, then one comes for each call without a result, in call order; the rest is repaired by itself |
| `HistoryRepair.OtherItemsStay` | crates/codegen/xai-chat-state/src/compaction_utils.rs:1158-1178 | any other item stays; a result that no turn stands before goes |
| `HistoryRepair.RepairIdempotentIff` | crates/codegen/xai-chat-state/src/compaction_utils.rs:1163-1178 | repairing is idempotent exactly on histories in which no turn repeats an id that its run leaves unanswered |
| `HistoryRepair.RepairCanChangeItsOutput` | crates/codegen/xai-chat-state/src/compaction_utils.rs:1163 | a turn that declares one id twice and gets no answer is changed again by a second repair |
| `HistoryRepairPasses.RepeatedLater` | crates/codegen/xai-grok-sampling-types/src/conversation.rs:2193-2204 | the scan with a map of last positions marks exactly the results whose id comes again in the run |
| `HistoryRepairPasses.RemoveMarked` | crates/codegen/xai-grok-sampling-types/src/conversation.rs:2206-2212 | removing from the back keeps positions valid and leaves the last result of each id |
| `HistoryRepairPasses.DedupDuplicateToolResults` | crates/codegen/xai-grok-sampling-types/src/conversation.rs:2171-2226 | the scan that thins out a run and looks at it again terminates and keeps, in each run, the last result of each id; its count is what went |
| `HistoryRepairPasses.FindRepairs` | crates/codegen/xai-grok-sampling-types/src/conversation.rs:2054-2102 | the places and items found in one forward scan are, spliced in, the answered history |
| `HistoryRepairPasses.SplicedInFront` | crates/codegen/xai-grok-sampling-types/src/conversation.rs:2104-2108 | insertions made at earlier places leave what is behind them alone |
| `HistoryRepairPasses.RepairDanglingToolCalls` | crates/codegen/xai-grok-sampling-types/src/conversation.rs:2050-2110 | splicing from the back, with positions taken before any insertion, answers every call left dangling in its run; the count is what was inserted |
| `HistoryRepairPasses.RepairHistory` | crates/codegen/xai-chat-state/src/compaction_utils.rs:1139-1178 | the report accounts for every item, and it is empty exactly when the history is left as it was |
| `HistoryRepairPasses.FixedPointIsIdle` | crates/codegen/xai-chat-state/src/compaction_utils.rs:1150-1157 | a history that repair reproduces gives none of the three passes anything to do |
| `Utf8Truncation.DigitCountIff` | crates/codegen/xai-chat-state/src/compaction_utils.rs:270-274 | a number has at most k decimal digits exactly when it is below the k-th power of ten |
| `Utf8Truncation.DigitsStandForNumber` | crates/codegen/xai-chat-state/src/compaction_utils.rs:270-274 | the digits in the marker stand for the number of dropped bytes, without leading zeros |
| `Utf8Truncation.TruncatedIsPrefixAndMarker` | crates/codegen/xai-chat-state/src/compaction_utils.rs:259-275 | a text over the limit becomes its longest prefix that ends at a character boundary and leaves 64 bytes, followed by the marker with the number of bytes that went |
| `Utf8Truncation.TruncateTextToBytes` | crates/codegen/xai-chat-state/src/compaction_utils.rs:260-275 | the loop that walks back to a character boundary |
| `Utf8Truncation.TruncatedIsValid` | crates/codegen/xai-chat-state/src/compaction_utils.rs:259-275 | the cut is a boundary of UTF-8 (section 4 of RFC 3629) at most three bytes below the reserve point, and the result is well-formed |
| `Utf8Truncation.TruncatedFitsIff` | crates/codegen/xai-chat-state/src/compaction_utils.rs:259-275 | the result fits the limit exactly when the room behind the cut takes 56 bytes and the digits of the dropped count |
| `Utf8Truncation.TruncatedFits` | crates/codegen/xai-chat-state/src/compaction_utils.rs:259-275 | it always fits from a limit of 64 bytes on, with fewer than 10^8 bytes dropped |
| `BudgetFit.RecoverTruncatedTailUnit` | crates/codegen/xai-chat-state/src/compaction_utils.rs:197-229 | popping the trailing results, finding their owner and sharing out the budget |
| `BudgetFit.FitConversationToBudget` | crates/codegen/xai-chat-state/src/compaction_utils.rs:162-195 | the backward walk, the skip of leading results and the fallback |
| `BudgetFit.AffordableIff` | crates/codegen/xai-chat-state/src/compaction_utils.rs:176-185 | a suffix fits the budget exactly when it starts no earlier than where the walk stops |
| `BudgetFit.LongestSuffixIsKept` | crates/codegen/xai-chat-state/src/compaction_utils.rs:176-190 | the longest suffix that starts with no result and fits what the system prompt leaves is kept, behind the prompt |
| `BudgetFit.NewestTurnIsCut` | crates/codegen/xai-chat-state/src/compaction_utils.rs:197-258 | when none fits, the newest item is cut to the budget, or all results at the end are kept in order, each cut to an equal share of at least a token of what their owner leaves, behind the owner |
| `BudgetFit.TruncatedItemIsCut` | crates/codegen/xai-chat-state/src/compaction_utils.rs:230-258 | cutting an item cuts each of its texts by itself and changes nothing else |
| `BudgetFit.SuffixWithinBudget` | crates/codegen/xai-chat-state/src/compaction_utils.rs:186-190 | in the suffix branch the result is within the limit exactly when the system prompt alone is, and never costs more than the larger of the two |
| `BudgetFit.FittingKeepsPairing` | crates/codegen/xai-chat-state/src/compaction_utils.rs:161-195 | if every result sits in its owner's run, the same holds of the output, in all three branches |
| `BudgetFit.NewestItemStays` | crates/codegen/xai-chat-state/src/compaction_utils.rs:161 | the newest item stays, whole or with its text cut |
| `BudgetFitCosts.FittedWithinBudgetIff` | crates/codegen/xai-chat-state/src/compaction_utils.rs:161-195 | the fitted history is within the limit exactly when it was so from the start, or the system prompt alone is and either whole turns could be kept or the most recent turn fits when cut |
| `BudgetFitCosts.KeepsWholeTurnsIff` | crates/codegen/xai-chat-state/src/compaction_utils.rs:176-190 | whole turns are kept exactly when some affordable suffix starts with an item that is no result |
| `BudgetFitCosts.TailUnitFitsIff` | crates/codegen/xai-chat-state/src/compaction_utils.rs:197-229 | the most recent turn fits when cut exactly when sizes of the input say so: a single item by its cut texts and its uncut rest, a run of results by its owner in full and each result cut to its share |
| `BudgetFitCosts.CutTextFitsIff` | crates/codegen/xai-chat-state/src/compaction_utils.rs:259-275 | a text over the limit counts as within it exactly when the room behind the cut takes all but three bytes of the marker: from 16 tokens on for texts below 10^11 bytes, below 14 tokens never |
| `BudgetFitCosts.LoneItemFitsIff` | crates/codegen/xai-chat-state/src/compaction_utils.rs:230-258 | kind by kind, when a single turn over the limit is brought under it: user texts are cut one by one and images never, call arguments never, and reasoning and backend calls come back as they were |
| `BudgetFitCosts.TailRunWithinBudget` | crates/codegen/xai-chat-state/src/compaction_utils.rs:220-228 | so a run of results is within the budget whenever its owner is and leaves each result 16 tokens, for results below 10^8 bytes |
| `BudgetFitCosts.TwoTextsExceedEveryLimit` | crates/codegen/xai-chat-state/src/compaction_utils.rs:241-248 | every limit of at least one token is exceeded twofold by a turn of two texts that each just fill it: nothing is cut |
| `BudgetFitCosts.ShortTextsGrow` | crates/codegen/xai-chat-state/src/compaction_utils.rs:259-275 | a turn of one text shorter than the marker and over the limit costs more after fitting than before |
| `WaitProtocol.RunKeepsInv` | crates/codegen/ptyctl/src/wait.rs:97-128 | every step of the feeder, a resize or a waiter keeps the accounting of grid changes, bumps and checks, over every run of any number of waiters |
| `WaitProtocol.NoLostWakeUp` | crates/codegen/ptyctl/src/wait.rs:97-128 | while the feeder is alive, a parked waiter that has seen the current generation, with no bump owed, has checked the current screen and found its condition false |
| `WaitProtocol.MetConditionWakes` | crates/codegen/ptyctl/src/wait.rs:117-123 | when a parked waiter's condition holds, a bump is owed or its wake-up is possible |
| `WaitProtocol.WokenWaiterMatches` | crates/codegen/ptyctl/src/wait.rs:97-116 | once the bumps are paid and the lock is free, that waiter by itself goes on to report the match |
| `WaitProtocol.MatchedWasMet` | crates/codegen/ptyctl/src/wait.rs:109-115 | a match is never spurious |
| `WaitProtocol.EndedSawFinalScreenIff` | crates/codegen/ptyctl/src/wait.rs:118-122 | the last check before an ended outcome saw the final screen exactly when no resize after the feeder's exit followed it |
| `WaitProtocol.EndedMeansNeverMet` | crates/codegen/ptyctl/src/wait.rs:118-122 | then neither the reported nor the final screen meets the condition |
| `WaitProtocol.ClosedIsFinal` | crates/codegen/ptyctl/src/session.rs:88-92 | after the last sender is gone the generation never changes, and the screen only by a resize |
| `WaitProtocol.EndedCanBeWrong` | crates/codegen/ptyctl/src/session.rs:272-283 | a resize after the feeder's exit shows the text waited for and the wait still ends as hopeless |
| `WaitProtocol.ReportedTextIsCheckedIff` | crates/codegen/ptyctl/src/wait.rs:41-45 | over every run: the text reported with a timeout is the text last checked, which does not meet the condition, exactly when no feed and no resize came between that waiter's last check and its snapshot, or the last of them drew that text again |
| `WaitProtocol.ReportedScreenIsCheckedIff` | crates/codegen/ptyctl/src/wait.rs:167-193 | in the sequence of screens shown, the one the snapshot saw is the one last checked exactly when no feed and no resize changed the grid between that waiter's last check and its snapshot, and then it does not meet the condition |
| `WaitProtocol.ReportedGenerationBoundsChanges` | crates/codegen/ptyctl/src/wait.rs:167-196 | the generation reported with it, less the one the waiter had seen, plus the bumps still owed bounds the changes in between; if nothing is counted and nothing owed, the screen does not meet the condition |
| `WaitProtocol.TimeoutScreenCanMatch` | crates/codegen/ptyctl/src/wait.rs:41-45 | the screen reported with a timeout need not be the one checked: here it meets the condition |
| `RawTail.LastOfLast` | crates/codegen/ptyctl/src/wait.rs:201-213 | keeping only the last bytes can be done piece by piece |
| `RawTail.Tail.Push` | crates/codegen/ptyctl/src/wait.rs:201-213 | however output is cut into pushes, the tail is the last 2048 bytes of all of it |
| `EventCoalescing.CoalescedByPath` | crates/codegen/xai-codebase-graph/src/index_manager.rs:1545-1569 | the map of pending events treats every path on its own |
| `EventCoalescing.OutcomeByLastEvents` | crates/codegen/xai-codebase-graph/src/index_manager.rs:1513-1519 | only the end of a path's history matters: a removal right after a creation or modification cancels, anything else acts like the last event |
| `EventCoalescing.CoalescedEvents.Insert` | crates/codegen/xai-codebase-graph/src/index_manager.rs:1545-1569 | the in-place update of one entry is one step of the per-path automaton |
| `EventCoalescing.CoalescedEvents.Add` | crates/codegen/xai-codebase-graph/src/index_manager.rs:1531-1543 | a two-path rename is a removal of the first path and then a creation of the second; any other event is one of its kind for each of its paths, in order |
| `EventCoalescing.RenameMoves` | crates/codegen/xai-codebase-graph/src/index_manager.rs:1532-1538 | after a rename the new path holds what its file parses to, the old one, if it is another, has no entry, and no other path has changed |
| `EventCoalescing.OtherEventsTouchTheirPaths` | crates/codegen/xai-codebase-graph/src/index_manager.rs:1540-1542 | any other event stands in the history of each path as often as it lists the path, and removes its indexable paths or reads them again |
| `EventCoalescing.CoalescedAgreesIff` | crates/codegen/xai-codebase-graph/src/index_manager.rs:1133-1161 | a coalesced group agrees with one-at-a-time processing on a path exactly when it does not cancel the path while it is indexed; then the old entry stays |
| `EventCoalescing.ModifiedThenRemovedStays` | crates/codegen/xai-codebase-graph/src/index_manager.rs:830-837 | an indexed file that is modified and removed stays in the index |
| `IndexRuns.RunsAgree` | crates/codegen/xai-codebase-graph/src/index_manager.rs:838-874 | over every run and every way the drain cuts it into groups, the two indexes agree on every path but the stale ones, which only the coalesced index holds |
| `IndexRuns.QueriesAnsweredInPlace` | crates/codegen/xai-codebase-graph/src/index_manager.rs:856-861 | every query is answered after exactly the commands queued before it, from an index that lacks nothing the reference has |
| `IndexRuns.AnswersAreCurrent` | crates/codegen/xai-codebase-graph/src/index_manager.rs:856-861 | one at a time, each query gets one answer, in order, from the index as the commands before it left it |
| `IndexRuns.BatchIsItsEvents` | crates/codegen/xai-codebase-graph/src/index_manager.rs:869-876 | a batch does to the index what its events, sent one by one, would do |
| `IndexManager.Manager.ProcessOther` | crates/codegen/xai-codebase-graph/src/index_manager.rs:877-953 | a query is answered from the index of the moment and changes nothing; a rebuild puts in the fresh index; only shutdown stops the loop |
| `IndexRuns.CleanIffAgreeThroughout` | crates/codegen/xai-codebase-graph/src/index_manager.rs:838-866 | coalescing is invisible exactly in the runs in which no group cancels an indexed path |
| `IndexManager.Manager.ReindexFile` | crates/codegen/xai-codebase-graph/src/index_manager.rs:1182-1243 | the entry becomes what the file parses to, or goes if it cannot be parsed; no other entry changes |
| `IndexManager.Manager.ApplyCoalesced` | crates/codegen/xai-codebase-graph/src/index_manager.rs:1133-1161 | the result does not depend on the order in which the map is gone through, and each indexable path counts once |
| `IndexManager.Manager.ProcessBackgroundRefresh` | crates/codegen/xai-codebase-graph/src/index_manager.rs:1100-1127 | deleted files go, stale ones are read again if supported |
| `IndexManager.Manager.ProcessCommandCoalesced` | crates/codegen/xai-codebase-graph/src/index_manager.rs:838-953 | one turn of the loop takes the given command and what it drained, in order, as well-formed groups, and stops exactly at shutdown |
| `IndexManager.Manager.RunLoop` | crates/codegen/xai-codebase-graph/src/index_manager.rs:797-828 | the loop handles the commands a plain loop would, and ends in the same state if the run is clean |
| `Interner.SlotOfKey` | crates/codegen/xai-codebase-graph/src/interner.rs:131-138 | while starts do not wrap, an id gives back its string cut to its length modulo 2^16 |
| `Interner.BucketMembers` | crates/codegen/xai-codebase-graph/src/interner.rs:140-141 | a bucket holds exactly the ids whose strings have its hash, in ascending order, for any hash function |
| `Interner.StringInterner.InternBytes` | crates/codegen/xai-codebase-graph/src/interner.rs:119-144 | interning a known string returns its id; a new one gets the next id; earlier ids keep their bytes for ever; an id gives back its string exactly when that is shorter than 2^16 bytes |
| `Interner.StringInterner.GetBytesId` | crates/codegen/xai-codebase-graph/src/interner.rs:157-168 | while everything fits, a string is found exactly when it was interned, under its id |
| `Interner.RebuildRoundTrip` | crates/codegen/xai-codebase-graph/src/interner.rs:286-303 | rebuilding from arena and offsets gives the same buckets in the same order |
| `Interner.StringInterner.FromParts` | crates/codegen/xai-codebase-graph/src/interner.rs:286-303 | the rebuilding loop, and that it restores a saved interner |
| `LineReader.NextLineIsLine` | crates/codegen/xai-acp-lib/src/line_reader.rs:135-139 | a line has at most one newline, at its end, and lacks it only at the end of the source |
| `LineReader.ReadLineCapped` | crates/codegen/xai-acp-lib/src/line_reader.rs:140-177 | however the source cuts its bytes, short of a failure of its own the next line is read if it is at most 64 MiB long and refused if it is longer |
| `LineReader.LineBufferedRead.Produce` | crates/codegen/xai-acp-lib/src/line_reader.rs:68-85 | one round of the producer queues the next line, or the failure, or ends at the end of the source |
| `LineReader.LineBufferedRead.PollRead` | crates/codegen/xai-acp-lib/src/line_reader.rs:96-132 | it waits exactly when no line is being served, the queue is empty and the producer runs; it fails exactly when a failure is first in the queue and no line is being served; otherwise it delivers as much of the current or next line as the buffer takes. Delivered bytes, the line being served, the queue and the rest always make up the source |
| `LineReader.LineBufferedRead.ReadToEnd` | crates/codegen/xai-acp-lib/src/line_reader.rs:8-12 | under any schedule, and with read sizes that may differ from poll to poll but are not zero, the bytes delivered are the source, or a prefix of it at a line boundary if a failure is reported, and a line over the cap is reported only if there is one |
| `LineReader.QueueTaken` | crates/codegen/xai-acp-lib/src/line_reader.rs:117-127 | taking a line from the channel moves the delivered bytes from one line boundary to the next |
| `SegmentRenderer.KeptIsLongestAffordable` | crates/codegen/xai-compaction-transcript/src/lib.rs:484-495 | the kept blocks are the longest prefix whose sizes sum within the budget |
| `SegmentRenderer.RenderSegment` | crates/codegen/xai-compaction-transcript/src/lib.rs:437-507 | the loop and the notice, which names just the turns left out |
| `SegmentRenderer.JoinedConcat` | crates/codegen/xai-compaction-transcript/src/lib.rs:497 | turns are joined in order, each two by one newline |
| `SegmentRenderer.DocumentKeepsLongest` | crates/codegen/xai-compaction-transcript/src/lib.rs:476-507 | a document is the preamble, the longest run of first turns that 512 KiB less the preamble and 128 bytes pay for, and a notice with the number of those left out, if any |
| `SegmentRenderer.DocumentLength` | crates/codegen/xai-compaction-transcript/src/lib.rs:478-506 | the exact size of a document |
| `SegmentRenderer.WithinCapIff` | crates/codegen/xai-compaction-transcript/src/lib.rs:476-507 | for every preamble: when it leaves room, a document is within the cap exactly when the joins fit the slack; when it does not, exactly when joins and notice fit beside it; so a preamble over the cap exceeds it |
| `SegmentRenderer.FewTurnsWithinCap` | crates/codegen/xai-compaction-transcript/src/lib.rs:476-482 | when the preamble leaves room, documents that keep at most 55 turns are within the cap |
| `SegmentRenderer.ManyTurnsOverflow` | crates/codegen/xai-compaction-transcript/src/lib.rs:497 | when the preamble leaves room, documents that keep many turns and leave out a short one are not |
| `SegmentRenderer.ShortTurnsExceedCap` | crates/codegen/xai-compaction-transcript/src/lib.rs:479-480 | ten thousand turns of a hundred bytes exceed the cap |
| `ConflictSplit.LinesAreLines` | maint/scripts/patchctl.py:555 | lines with their breaks kept make up the text again |
| `ConflictSplit.SplitConflictFile` | maint/scripts/patchctl.py:545-573 | the loop with its depth count |
| `ConflictSplit.SplitRoundTrip` | maint/scripts/patchctl.py:545-550 | interleaving segments and regions gives back the file, always; there is one more segment than regions exactly when every region is closed, and else two more |
| `ConflictSplit.SplitRegionsAreWhole` | maint/scripts/patchctl.py:545-573 | every region starts with its opening line and ends with the closing line that makes up for it, and no line before that does; in a closed file nothing outside the regions opens one |
| `ConflictSplit.UnclosedIff` | maint/scripts/patchctl.py:545-573 | a file has an unclosed region exactly when it has an opening line from which on no stretch has as many closing lines as opening ones |
| `ConflictSplit.LoneOpening` | maint/scripts/patchctl.py:548-549 | a file that is one opening marker is split into two segments and no region |
| `ConflictSplit.ResolutionHasNoOpening` | maint/scripts/patchctl.py:744-774 | when every region is closed, acceptable replacements leave no line that starts an opening marker |
| `ConflictSplit.ResolutionPreservesCommon` | maint/scripts/patchctl.py:615-626 | the check accepts exactly when the segments occur in order without overlap |
| `ConflictSplit.GreedyIff` | maint/scripts/patchctl.py:615-626 | taking the leftmost place never spoils a later one |
| `ConflictSplit.RebuiltIsAccepted` | maint/scripts/patchctl.py:771-777 | a resolution put together from a file whose regions are closed always passes the check |
| `ConflictSplit.TextHasConflictMarkers` | maint/scripts/patchctl.py:889-893 | the scan for marker lines |
| `PatchManifest.IsTrailingSkippable` | maint/scripts/patchctl.py:476-485 | true exactly when all patches from there on are known and not critical |
| `PatchManifest.VerifyAutoResolved` | maint/scripts/patchctl.py:801-848 | passes only if the gate does not refuse and the contracts declared by all records were verified |
| `PatchManifest.GateIsSound` | maint/scripts/patchctl.py:801-848 | with one manifest throughout the gate never has to refuse, and what it lets through is covered: declared contracts verified, or an explicit opt-in |
| `PatchManifest.GateHoldsIff` | maint/scripts/patchctl.py:801-848 | whatever manifest each conflict was resolved under, in however many rounds, and whatever one the gate reads: every record is covered or the gate refuses exactly when all contracts declared then are still declared by some record, or none is declared any more and some patch was resolved on the strength of a contract |
| `PatchManifest.RefusalVouchesIff` | maint/scripts/patchctl.py:801-848 | patch by patch: a resolution that leaves a patch without a contract is refused exactly when no record has one |
| `PatchManifest.DroppedContractsEscape` | maint/scripts/patchctl.py:821-837 | contracts that leave the manifest before a resume escape the gate if another record declares any |
| `PatchQueue.HeadCheckExactIff` | maint/scripts/patchctl.py:1209-1220 | searching the newest commit for the trailer says exactly whether the patch is the last one committed if and only if no patch just before it or anywhere after it has an id that begins like its own |
| `PatchQueue.Repository.GivenUpPassesIff` | maint/scripts/patchctl.py:1209-1220 | in any saved state whose patch was given up, a resume takes it for committed exactly when the id of the patch before begins like its own |
| `PatchQueue.Repository.SkippedPatchPasses` | maint/scripts/patchctl.py:1212-1214 | a saved state that satisfies all invariants in which that happens |
| `PatchQueue.Repository.AttemptAutoResolve` | maint/scripts/patchctl.py:671-798 | a record is made only when the patch was committed, and the resolver ran only where manifest and run allow it |
| `PatchQueue.Repository.ApplySeries` | maint/scripts/patchctl.py:932-1058 | it stops at, or skips from, only a patch that git was given and did not apply, and skips only where all that is left is known and not critical, stopping otherwise; applied is the series up to where the loop stands, what was committed is what was applied, the end is reached with applied and skipped making up the series, and a kept conflict saves just that |
| `PatchQueue.Repository.ConfirmResolved` | maint/scripts/patchctl.py:1170-1221 | a resume goes on only when the branch ends with the patch stopped at, if the condition of HeadCheckExactIff holds of every patch with an id |
| `PatchQueue.Repository.CmdApplyContinue` | maint/scripts/patchctl.py:1147-1267 | from any saved state: exit 0 only with nothing skipped, 4 only with something skipped, and the invariant over all rounds |
| `PatchQueue.Repository.CmdApply` | maint/scripts/patchctl.py:2037-2165 | an interrupted apply is given up only by force; exit 0 only with nothing skipped, 4 only with something skipped, with or without a final run of the contracts; no state is saved unless the conflict is kept |
| `PatchQueue.Repository.Session` | maint/scripts/patchctl.py:1147-1267 | over any number of commands and interventions, each time the tail is reached: applied and skipped together are the series, only non-critical patches are skipped, the gate covers every record, and, if the condition of HeadCheckExactIff holds of every patch with an id, the branch holds just what is reported and every resolver commit has its record |

## Left out

- Wording: the placeholder, the notes, the truncation marker, the synthetic results and the control prompts have
  their real lengths where lengths matter and are otherwise left open, so the results hold whatever they say.
- Machine integers: byte counts and token sums are unbounded; only the interner's casts to 32 and 16 bits are written
  out.  No overflow of a 64-bit counter is modelled.
- The JSON of fields that no operation here touches (synthetic tags, model ids, encoded backend calls) is one
  uninterpreted run of bytes per item; failures of serialization are not modelled.
- WaitProtocol: time itself; a deadline may pass at any moment, and `wait_stable` is left out because its two timers
  may fire in either order.  Cursor, modes and elapsed time are left out of the diagnostics.
- IndexRuns: one fixed file system throughout a run, event paths that name files uniquely, and an index that is a map
  from paths to parsed content; saving the cache, aliases and positions of symbols are left out.
- PatchQueue: git is a nondeterministic success or failure, a commit's message names its own patch's id and no other,
  only the tool starts a `git am`, and one manifest holds throughout a session; overlays, lock policy, branch names
  and the status file are reduced to one success or failure.
- ConflictSplit: text is read in text mode, so a carriage return is not a line break; the share of echoed lines and
  the stripping of code fences only restrict which replacements are accepted and are left out.
- LineReader: the capacity of the channel, a receiver that goes away, and wake-ups; a read into a buffer of size zero
  returns 0 without losing anything, and is not taken for the end.
- SegmentRenderer: the renderings of single turns, the statistics and the index file; the preamble is any text.
- `usage.rs`, the actor and its commands, prompts, terminal emulation, servers, parsing of keys and the rest of
  `patchctl.py` would only add easy members or are foreign calls.
