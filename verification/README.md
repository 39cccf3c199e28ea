# Verified model of bootty's domain logic

bootty is a terminal workspace. This project models, in Dafny 4.11, the parts of it that are pure
logic or protocol, and proves what they promise over every input, every run and every interleaving.
`dafny verify dfyconfig.toml` verifies it.

Code that updates fields is a class whose methods are proved against functions on values; the
properties are lemmas about those functions. Protocols between threads are state machines over their
atomic steps.

| part | files | main results |
|---|---|---|
| pane layout | `PaneTree`, `PaneGeometry`, `PaneNavigation`, `PaneOrder`, `PaneEdits`, `LayoutEdits`, `PaneLayout` | `NormalizeKeepsRects`, `NavigationComplete`, `NeighborTouchesIff`, `EveryRunKeepsValid`, `ReconcileExact` |
| control plane | `Subscriptions`, `Tasks`, `ControlState`, `WaitProtocol` | `StreamExact`, `EveryRunKeepsInv`, `NeverSleepsOnStaleSnapshot` |
| keymap file | `JsoncText`, `JsoncArray`, `JsoncLists`, `JsoncEdits`, `JsoncAppend`, `JsoncCommas`, `JsoncRuns` | `RunActsOnList`, `RunSeparatesIff`, `ResetContext` |
| keymap | `Keys`, `KeyNames`, `KeymapMatcher`, `TriggerText`, `SequenceText`, `SequenceStable` | `Select`, `PendingIsBounded`, `RoundTrip`, `CanonicalSpellingIsStable` |
| jobs | `JobOutput`, `JobCancel`, `JobRegistry` | `ReaderIsExact`, `CancellationIsNotLost`, `RetiredMeansSettled` |
| topology | `Sessions`, `Controller`, `MuxController`, `Targets` | `SameGenerationIsContinuous`, `RevisionNeverFalls`, `HeldTargetResolves` |
| session order | `GroupOrder`, `Membership`, `SessionMembership` | `MoveBySteps`, `EveryRunKeepsOrder` |
| saved history | `HistoryGrammar`, `History`, `HistorySanitize` | `WalkIsItems`, `SanitizeIs`, `FixedPointsAreValid` |
| file reader | `FileReads`, `FileReader` | `EveryRunOverTimeAgrees`, `ServedAfterFailureIff` |
| session names | `SessionNames` | `UniqueSessionName`, `RecognisedIffWhole` |

What the model takes from outside: random ids, fresh binding generations, the connected peer, the
content of files over time, the text of a section to write, the serialised size of an event, the
lower-casing of characters and the text encoding of target paths are parameters. The encoding is only
assumed to decode what it encodes. `Wrappers` and `Sequences` hold what several parts share.

Where the code does less than one might expect, the model follows the code and the exact condition is
proved:

- The neighbour in a direction always exists away from the edge, but it need not be adjacent
  (`NeighborMaySkip`); `NeighborTouchesIff` says when it is.
- After a failed read every later read fails (`FailureIsFinal`), with one exception: the check of the
  file can itself meet an I/O failure, which leaves the cache in place. `ServedAfterFailureIff` says
  that bytes are served after a failed read exactly then, and `FailedCheckCanServe` shows it over a
  file that never changes.
- The check of a log sees its tail alone (`RewrittenLogPasses`).
- A terminal target for a session named `active_terminal` is spelled like the binding's own, and can
  resolve to the binding (`RoundTrip`, `ShadowedResolvesToBinding`), as it does after the first
  snapshot of a new binding (`ShadowedIsReached`).
- A key written `SPACE` is read as the blank character, whose printed form is not read back
  (`SpaceIsNotStable`); `ParsedIsPrintable` and `CanonicalSpellingIsStable` say when this happens.
- Appending a section to an array that is empty but for a comma leaves a comma with nothing before it,
  which a JSON parser refuses (`AppendSeparates`). Moving a binding out of the only section of a file
  with a trailing comma reaches this in one edit (`StrandedComma`); `MoveSeparatesIff` and
  `RunSeparatesIff` say exactly when it happens.
- A reader of job output makes no progress at a chunk above the read limit (`ReadProgress`,
  `LargeChunkHoldsReader`). A local job never writes one, since it reads 16 KiB at a time; only a remote
  peer that breaks its own limit can send one.

## Model

| member | source | states |
|---|---|---|
| `PaneTree.NormalizeTree` | crates/bootty-mux/src/pane_layout.rs:55-106 | the loop that collapses and splices computes the normal form, or refuses exactly as the recursive definition does |
| `PaneTree.NormalizeCorrect` | crates/bootty-mux/src/pane_layout.rs:55-106 | normalising succeeds exactly on trees whose splits have children and matching positive weights; the result is canonical and has the same panes from left to right |
| `PaneTree.NormalizeCanonical` | crates/bootty-mux/src/pane_layout.rs:55-106 | a canonical tree is its own normal form |
| `PaneTree.NormalizeIdempotent` | crates/bootty-mux/src/pane_layout.rs:55-106 | normalising twice is normalising once |
| `PaneGeometry.VisitRects` | crates/bootty-mux/src/pane_layout.rs:288-338 | the traversal that accumulates an offset lists the rectangles of the recursive definition |
| `PaneGeometry.RectsNamePanes` | crates/bootty-mux/src/pane_layout.rs:288-338 | there is one rectangle per pane, in the order of the panes |
| `PaneGeometry.NormalizeKeepsRects` | crates/bootty-mux/src/pane_layout.rs:55-106 | at gap zero every pane keeps the rectangle it has in the tree read with each weight as its share of its split |
| `PaneNavigation.RectsPlaced` | crates/bootty-mux/src/pane_layout.rs:288-338 | in a canonical tree over a positive area the rectangles are positive, lie within the area and do not overlap |
| `PaneNavigation.RectsCover` | crates/bootty-mux/src/pane_layout.rs:288-338 | every point of the area is in some rectangle, on either side of a shared edge as asked |
| `PaneNavigation.Neighbor` | crates/bootty-mux/src/pane_layout.rs:341-359 | the scan returns the first pane of least score, or nothing when no pane is a candidate |
| `PaneNavigation.TouchingCandidate` | crates/bootty-mux/src/pane_layout.rs:407-447 | at every level of its far side a pane away from the edge has a candidate that touches it |
| `PaneNavigation.NavigationComplete` | crates/bootty-mux/src/pane_layout.rs:341-359 | there is a neighbour exactly when the pane is shown and does not touch the edge of the area in that direction |
| `PaneNavigation.NeighborTouchesIff` | crates/bootty-mux/src/pane_layout.rs:341-359 | the neighbour shares an edge with the pane exactly when every candidate at a distance is outdone by one that touches: a thousandth of what it overlaps more is less than its distance, or equal and it comes later |
| `PaneNavigation.NeighborTouches` | crates/bootty-mux/src/pane_layout.rs:341-359 | so it does when no pane is thinner than a thousandth of the area across |
| `PaneNavigation.NeighborMaySkip` | crates/bootty-mux/src/pane_layout.rs:341-359 | it need not: in a concrete layout the pane behind the adjacent ones is chosen |
| `PaneEdits.SameStructureIsShape` | crates/bootty-mux/src/pane_layout.rs:386-403 | two trees compare as equal exactly when they differ in weights alone |
| `PaneEdits.InsertLeafLeaves` | crates/bootty-mux/src/pane_layout.rs:449-472 | inserting a leaf puts the new pane right before or right after the target, and moves no other |
| `PaneEdits.PruneLeafLeaves` | crates/bootty-mux/src/pane_layout.rs:474-491 | pruning takes out exactly the pane and leaves every split with a child |
| `PaneEdits.SwapLeavesLeaves` | crates/bootty-mux/src/pane_layout.rs:374-384 | swapping exchanges the two panes and keeps the tree canonical |
| `LayoutEdits.FromMuxLayoutValid` | crates/bootty-mux/src/pane_layout.rs:124-132 | a saved tree is taken exactly when it is well-formed with distinct panes, and then gives a valid layout of the same panes |
| `LayoutEdits.InsertBesideCorrect` | crates/bootty-mux/src/pane_layout.rs:212-223 | an insertion succeeds exactly for a new pane beside a present one; it focuses the pane and places it beside the target |
| `LayoutEdits.RemoveCorrect` | crates/bootty-mux/src/pane_layout.rs:236-251 | a removal succeeds exactly for a present pane that is not the only one; the others keep their order and the focus stays unless it was removed |
| `LayoutEdits.MoveBesideCorrect` | crates/bootty-mux/src/pane_layout.rs:225-234 | a move succeeds exactly for two distinct present panes |
| `LayoutEdits.MoveBesidePermutes` | crates/bootty-mux/src/pane_layout.rs:225-234 | a move permutes the panes, sets the pane next to its target and keeps the order of the others |
| `LayoutEdits.MergeCorrect` | crates/bootty-mux/src/pane_layout.rs:180-193 | a merge succeeds exactly for disjoint layouts and concatenates their panes |
| `LayoutEdits.SwapCorrect` | crates/bootty-mux/src/pane_layout.rs:195-200 | a swap succeeds exactly for two distinct present panes and exchanges them |
| `LayoutEdits.ReplaceCorrect` | crates/bootty-mux/src/pane_layout.rs:202-210 | a replacement succeeds exactly from a present to an absent pane, in its place |
| `LayoutEdits.ResizeCorrect` | crates/bootty-mux/src/pane_layout.rs:275-284 | a resize succeeds exactly when the proposed tree normalises to the same shape, and changes only weights |
| `LayoutEdits.ReconcileExact` | crates/bootty-mux/src/pane_layout.rs:256-273 | after a non-empty report the layout has exactly the reported panes, the survivors in their earlier order |
| `LayoutEdits.ApplyKeepsValid` | crates/bootty-mux/src/pane_layout.rs:165-284 | every edit keeps the tree canonical, its panes distinct and its focus one of them |
| `LayoutEdits.EveryRunKeepsValid` | crates/bootty-mux/src/pane_layout.rs:165-284 | so does every run of edits |
| `LayoutEdits.InsertHalvesTarget` | crates/bootty-mux/src/pane_layout.rs:212-223 | a new pane takes half of its target's rectangle, and every other pane keeps its own |
| `PaneLayouts.PaneLayout.InsertBeside` | crates/bootty-mux/src/pane_layout.rs:212-223 | the method updates root and focus as the edit says, and keeps the layout valid |
| `PaneLayouts.PaneLayout.Remove` | crates/bootty-mux/src/pane_layout.rs:236-251 | likewise for a removal |
| `PaneLayouts.PaneLayout.MoveBeside` | crates/bootty-mux/src/pane_layout.rs:225-234 | likewise for a move, which changes nothing when it is refused |
| `PaneLayouts.PaneLayout.Merge` | crates/bootty-mux/src/pane_layout.rs:180-193 | likewise for a merge |
| `PaneLayouts.PaneLayout.Swap` | crates/bootty-mux/src/pane_layout.rs:195-200 | likewise for a swap |
| `PaneLayouts.PaneLayout.Replace` | crates/bootty-mux/src/pane_layout.rs:202-210 | likewise for a replacement |
| `PaneLayouts.PaneLayout.Resize` | crates/bootty-mux/src/pane_layout.rs:275-284 | likewise for a resize |
| `PaneLayouts.PaneLayout.Reconcile` | crates/bootty-mux/src/pane_layout.rs:256-273 | the two loops remove the unlisted and add the missing panes as the edit says |
| `PaneLayouts.PaneLayout.NeighborOf` | crates/bootty-mux/src/pane_layout.rs:341-359 | the neighbour of a pane of a valid layout, present exactly when the pane is away from the edge |
| `Subscriptions.TakeBatch` | crates/bootty-control/src/state.rs:195-258 | the loop takes the longest front of the queue within half the request limit |
| `Subscriptions.StreamExact` | crates/bootty-control/src/state.rs:195-328 | in every run of publishes and polls the delivered events are the beginning of the matching ones, numbered from one; without a gap the queue holds precisely the rest and at most 64 |
| `Subscriptions.GapIsSticky` | crates/bootty-control/src/state.rs:195-258 | after a gap nothing more is delivered and every poll asks for a rebase |
| `Subscriptions.PollProgress` | crates/bootty-control/src/state.rs:195-258 | a poll at the cursor delivers something, finds the queue empty, or opens a gap on an event too large to send |
| `Tasks.MakeRoomDropsOldest` | crates/bootty-control/src/state.rs:94-115 | making room drops at most one task, the oldest completed one, and only when the table is full |
| `Tasks.StartRefusedOnlyWhenBusy` | crates/bootty-control/src/state.rs:94-115 | a start is refused for capacity exactly when 64 tasks are held and none is completed |
| `Tasks.EveryRunKeepsInv` | crates/bootty-control/src/state.rs:94-163 | in every run at most 64 tasks are held and the queue lists each completed task still held once, in the order of completion |
| `Tasks.OutcomeIsFinal` | crates/bootty-control/src/state.rs:94-163 | a step keeps a recorded outcome, and drops it only as the oldest of a full table |
| `Tasks.OutcomeNeverChanges` | crates/bootty-control/src/state.rs:94-163 | a recorded outcome stays for as long as the task is held |
| `ControlStates.ControlState.StartTask` | crates/bootty-control/src/state.rs:94-115 | the eviction loop and the insertion make the table step |
| `ControlStates.ControlState.FinishTask` | crates/bootty-control/src/state.rs:121-129 | finishing records the first outcome and queues the task once |
| `ControlStates.ControlState.CancelTask` | crates/bootty-control/src/state.rs:145-154 | cancelling marks a task whose command has not started |
| `ControlStates.ControlState.CreateSubscription` | crates/bootty-control/src/state.rs:165-193 | a subscription starts empty at the scope's revision, up to the limit |
| `ControlStates.ControlState.PollSubscription` | crates/bootty-control/src/state.rs:195-258 | a poll changes the subscription and answers as the model of polling says |
| `ControlStates.ControlState.Unsubscribe` | crates/bootty-control/src/state.rs:260-265 | unsubscribing removes the subscription and wakes waiters |
| `ControlStates.ControlState.PublishEvent` | crates/bootty-control/src/state.rs:291-329 | publishing steps the scope's revision and every subscription, and wakes waiters |
| `WaitProtocol.NextKeepsInv` | crates/bootty-control/src/wait.rs:121-189 | every step of client, server and publishers keeps each announced change in the snapshot, on its way, or about to force a new read |
| `WaitProtocol.NeverSleepsOnStaleSnapshot` | crates/bootty-control/src/server.rs:547-581 | in every interleaving a request that sleeps with no notification left to see has a snapshot that includes every announced change |
| `WaitProtocol.MatchedIsGenuine` | crates/bootty-control/src/wait.rs:121-189 | a match carries a state the server was in and that meets the condition |
| `WaitProtocol.RebaseOnlyOnGap` | crates/bootty-control/src/wait.rs:121-189 | the client subscribes anew only when its subscription has a gap |
| `WaitProtocol.OwnCompletionLosesWakeup` | crates/bootty-control/src/wait.rs:173-202 | why the client demands a read-only snapshot command: a change that a completion of that command announced could be slept through |
| `JsoncText.StripComments` | crates/bootty-config/src/keymap_file.rs:913-976 | the loop blanks comments as the scanner's modes say, or finds one unterminated |
| `JsoncText.RemoveTrailingCommas` | crates/bootty-config/src/keymap_file.rs:978-1011 | the loop blanks the commas outside strings that a closing bracket follows |
| `JsoncText.SanitizeKeepsText` | crates/bootty-config/src/keymap_file.rs:909-1011 | sanitising keeps the length and every byte but those of comments, and commas outside strings whose next visible byte closes a bracket or brace; these turn blank |
| `JsoncArray.MatchingDelimiter` | crates/bootty-config/src/keymap_file.rs:1072-1100 | the loop finds the first bracket that closes the root, outside strings |
| `JsoncArray.FindElements` | crates/bootty-config/src/keymap_file.rs:1013-1070 | the elements are the trimmed pieces between the commas of the root array |
| `JsoncEdits.ReplaceActsOnList` | crates/bootty-config/src/keymap_file.rs:842-858 | replacing a section of a balanced file replaces it in the list of sections, and leaves the file balanced |
| `JsoncEdits.EditsKeepRest` | crates/bootty-config/src/keymap_file.rs:814-879 | replacing, removing and appending leave the text outside the section, the cut or the insertion as it was |
| `JsoncAppend.RemoveActsOnList` | crates/bootty-config/src/keymap_file.rs:860-879 | removing a section of a balanced file removes it from the list and leaves the file balanced, as long as the section before a removed last one does not end in a slash, as no JSON does |
| `JsoncAppend.RemoveUnlessSlash` | crates/bootty-config/src/keymap_file.rs:860-879 | more generally, as long as such a slash does not meet a comment mark after the cut |
| `JsoncAppend.AppendActsOnList` | crates/bootty-config/src/keymap_file.rs:814-840 | appending changes no other text; it extends the list by the section exactly when no object is left open at the closing bracket, and a balanced file stays balanced |
| `JsoncCommas.Counts` | crates/bootty-config/src/keymap_file.rs:1013-1070 | the commas of an array stand between its elements exactly when there is one less of them than elements; it is blank exactly without both |
| `JsoncCommas.ReplaceSeparates` | crates/bootty-config/src/keymap_file.rs:842-858 | replacing leaves the commas between sections, and a comma before the closing bracket there or not there |
| `JsoncCommas.RemoveSeparates` | crates/bootty-config/src/keymap_file.rs:860-879 | so does removing a section, the only one included |
| `JsoncCommas.AppendSeparates` | crates/bootty-config/src/keymap_file.rs:814-840 | so does appending, exactly unless the array is empty but for a comma; no comma stands before the closing bracket afterwards |
| `JsoncRuns.EditActsOnList` | crates/bootty-config/src/keymap_file.rs:814-879 | on a file whose sections do not end in slashes, one edit of the text is the edit of the list, errors included |
| `JsoncRuns.RunActsOnList` | crates/bootty-config/src/keymap_file.rs:574-640 | so is every run of edits, each working on the text the one before it left |
| `JsoncRuns.MoveActsOnList` | crates/bootty-config/src/keymap_file.rs:616-620 | rewriting or removing a section and then appending another does both to the list |
| `JsoncRuns.EditSeparates` | crates/bootty-config/src/keymap_file.rs:814-879 | the three rows of JsoncCommas for one edit of the text |
| `JsoncRuns.RunSeparatesIff` | crates/bootty-config/src/keymap_file.rs:574-640 | every text of a run has its commas between sections, exactly unless the file starts with a comma before its closing bracket and the run removes all sections before it appends one |
| `JsoncRuns.MoveSeparatesIff` | crates/bootty-config/src/keymap_file.rs:616-620 | moving a binding leaves the commas between sections, exactly unless its section is the only one, is removed, and a comma follows it |
| `JsoncRuns.MoveStrandsComma` | crates/bootty-config/src/keymap_file.rs:616-620 | on every file of one section and a comma it does not |
| `JsoncRuns.StrandedComma` | crates/bootty-config/src/keymap_file.rs:616-620 | such a file: the move leaves one section and a comma with nothing before it |
| `JsoncRuns.ResetContext` | crates/bootty-config/src/keymap_file.rs:740-761 | resetting a context, from last to first with the indices of the file as parsed, rewrites or drops exactly the sections of that context that have bindings, leaves every other in its place, and leaves the commas between sections |
| `KeymapMatcher.Select` | crates/bootty-config/src/keymap.rs:960-1017 | one reverse pass that collects unbinds selects the last active binding that extends the prefix and that no later active unbind names |
| `KeymapMatcher.KeymapProgram.NextCandidates` | crates/bootty-config/src/keymap.rs:960-1017 | the result and the new active sequence are those of the declarative matcher |
| `KeymapMatcher.NextStaysOnTrack` | crates/bootty-config/src/keymap.rs:960-1017 | a pending result extends the active sequence by one along some binding; any other input resets it |
| `KeymapMatcher.RunStaysOnTrack` | crates/bootty-config/src/keymap.rs:960-1017 | in every run the active sequence is empty or a proper prefix of some binding |
| `KeymapMatcher.PendingIsBounded` | crates/bootty-config/src/keymap.rs:960-1017 | there are fewer pending results in a row than the longest sequence has triggers |
| `KeyNames.KeyRead` | crates/bootty-config/src/keymap.rs:167-282 | every key is read back from its canonical name, which names no modifier |
| `KeyNames.ModifierRead` | crates/bootty-config/src/keymap.rs:344-363 | every modifier, with or without a side, is read back from its name |
| `TriggerText.SplitTriggerParts` | crates/bootty-config/src/keymap.rs:477-499 | the loop splits at plus signs, except one in the first place of a part, and refuses empty parts |
| `TriggerText.ParseTrigger` | crates/bootty-config/src/keymap.rs:379-475 | the loop over the parts is the recursive reading of a trigger |
| `TriggerText.TriggerRoundTrip` | crates/bootty-config/src/keymap.rs:301-335 | a printed trigger is read back, but for sides without their modifier |
| `SequenceText.ParseLegacyTrigger` | crates/bootty-config/src/keymap.rs:671-703 | the loop over dashes is the recursive reading of the legacy spelling |
| `SequenceText.SplitLegacyTriggers` | crates/bootty-config/src/keymap.rs:620-635 | the loop splits a word at each ">" that follows a complete trigger |
| `SequenceText.ParseSequenceFlags` | crates/bootty-config/src/keymap.rs:637-669 | the loop reads flags before colons and refuses a duplicate |
| `SequenceText.ParseKeymapSequence` | crates/bootty-config/src/keymap.rs:600-618 | flags, words, steps and triggers are read in turn, with the first error |
| `SequenceText.FormatEntry` | crates/bootty-config/src/keymap.rs:555-580 | the printed flags and triggers of a sequence |
| `SequenceText.ReadBackSequence` | crates/bootty-config/src/keymap.rs:555-635 | what the parser makes of any printed sequence, error cases included |
| `SequenceText.RoundTrip` | crates/bootty-config/src/keymap.rs:555-618 | a sequence is read back from its text exactly when it has triggers, sides imply modifiers, no key is ASCII whitespace, and a chord has no global or all flag |
| `SequenceStable.BlankIsOddSpace` | crates/bootty-config/src/keymap.rs:434-467 | a part without blanks names the blank character exactly when it spells "space" with other capitals than Space and space |
| `SequenceStable.ParsedIsPrintable` | crates/bootty-config/src/keymap.rs:600-703 | what the parser returns is printable exactly when no key is the blank, and a key is the blank exactly where its step has such a part |
| `SequenceStable.SpaceIsNotStable` | crates/bootty-config/src/keymap.rs:434-467 | SPACE is read as the blank, whose printed form is refused as empty |
| `SequenceStable.CanonicalSpellingIsStable` | crates/bootty-config/src/keymap.rs:1294-1310 | so printing what was parsed and parsing that gives the same, with that exception |
| `JobOutput.EvictionResumes` | crates/bootty-host/src/jobs.rs:172-205 | evicting from the front after each chunk keeps the longest suffix of the whole output within both limits |
| `JobOutput.Job.Output` | crates/bootty-host/src/jobs.rs:172-205 | an output appends one numbered chunk and keeps the ring the longest fitting suffix, with its byte count; an exhausted sequence cancels and fails the job |
| `JobOutput.Job.Read` | crates/bootty-host/src/jobs.rs:228-263 | a read returns the retained chunks after the cursor up to the read limit, the new cursor, and whether there is a gap |
| `JobOutput.Job.Cancel` | crates/bootty-host/src/jobs.rs:206-227 | a cancel marks an unfinished job and leaves a finished one |
| `JobOutput.ReadProgress` | crates/bootty-host/src/jobs.rs:228-263 | a read moves on exactly when something is retained after the cursor and the next chunk is within the read limit |
| `JobOutput.LargeChunkHoldsReader` | crates/bootty-host/src/jobs.rs:228-263 | a chunk above the read limit, alone in the log, is retained, and a read before it returns nothing and stays |
| `JobOutput.ReaderIsExact` | crates/bootty-host/src/jobs.rs:172-263 | in every run of outputs and reads, a reader that saw no gap has received exactly the output between its start and its cursor |
| `JobOutput.ReadsReachHead` | crates/bootty-host/src/jobs.rs:228-263 | with chunks within the read limit, as many reads as there are chunks reach the head |
| `JobCancel.NextKeepsInv` | crates/bootty-host/src/jobs.rs:142-227 | every step of cancelling and installing threads keeps the invariant behind the next row |
| `JobCancel.CancellationIsNotLost` | crates/bootty-host/src/jobs.rs:142-227 | in every interleaving, once a cancel that took effect and an installation have completed, the installed process tree has been told to terminate |
| `JobCancel.IgnoredMeansFinished` | crates/bootty-host/src/jobs.rs:206-227 | a cancel is without effect only on a finished job |
| `JobRegistry.RetiredMeansSettled` | crates/bootty-host/src/jobs.rs:303-315 | once retiring has returned, every listed job is finished or asked to stop and no start is about to insert one |
| `JobRegistry.NoStartAfterRetiring` | crates/bootty-host/src/jobs.rs:303-447 | and no later step inserts one |
| `JobRegistry.LimitsHold` | crates/bootty-host/src/jobs.rs:364-447 | in every run at most eight jobs are unfinished and at most sixty-four are listed |
| `Sessions.StableSessionOrder` | crates/bootty-mux/src/controller.rs:265-280 | the loop gives the stable order |
| `Sessions.StableOrderPermutes` | crates/bootty-mux/src/controller.rs:265-280 | no refreshed session is lost or repeated |
| `Sessions.SameSessionsKeepOrder` | crates/bootty-mux/src/controller.rs:265-280 | a refresh of the same sessions in another order keeps the order they have |
| `Sessions.SurvivorsKeepOrder` | crates/bootty-mux/src/controller.rs:265-280 | without renames the survivors come first in their old order, the new sessions after them in theirs |
| `Sessions.OrderSessionsByNames` | crates/bootty-mux/src/controller.rs:282-292 | the loop gives the order by names |
| `Sessions.OrderByNamesIsOrder` | crates/bootty-mux/src/controller.rs:282-292 | the result has the distinct names asked for that exist, in that order |
| `Sessions.SelectionAfterRefresh` | crates/bootty-mux/src/snapshot.rs:107-122 | the selection after a refresh is the id of a reported session, and none only when none is reported |
| `Sessions.SelectionPrefers` | crates/bootty-mux/src/snapshot.rs:107-122 | it is the first session that the current selection names, else the first active one, else the first |
| `Controllers.RecordObserves` | crates/bootty-mux/src/controller.rs:481-525 | a recorded snapshot observes exactly the sessions, windows and panes that the sessions have |
| `Controllers.StepTracks` | crates/bootty-mux/src/controller.rs:481-525 | a step never lowers a key's generation, and leaves it exactly when the same occupant stays under the same server |
| `Controllers.SameGenerationIsContinuous` | crates/bootty-mux/src/controller.rs:481-525 | an observed resource has the same generation at two moments of a run exactly when it was observed, with the same occupant and server, at every moment between |
| `Controllers.StepAdvances` | crates/bootty-mux/src/controller.rs:1042-1094 | an applied snapshot is not older than the one it replaces, or comes from another server; a refused one changes nothing |
| `Controllers.RevisionNeverFalls` | crates/bootty-mux/src/controller.rs:1071-1094 | within a server generation the applied revision never falls, for every order of pushes and completions |
| `Controllers.RunHoldsSnapshot` | crates/bootty-mux/src/controller.rs:1071-1120 | the sessions held are always those of one offered snapshot, the one of the applied revision |
| `Controllers.OnlyCurrentIsAwaited` | crates/bootty-mux/src/controller.rs:1042-1055 | in every run the inline results awaited are of commands sent to the server of now |
| `MuxControllers.MuxController.RecordResourceSnapshot` | crates/bootty-mux/src/controller.rs:481-525 | the loops over sessions and keys record the snapshot |
| `MuxControllers.MuxController.ObserveServerGeneration` | crates/bootty-mux/src/controller.rs:1042-1055 | a new server takes a new binding generation, and what was observed and the inline results awaited are forgotten |
| `MuxControllers.MuxController.ApplyServerSnapshot` | crates/bootty-mux/src/controller.rs:1071-1094 | a snapshot is applied exactly when it is from the expected server and not older |
| `MuxControllers.MuxController.AcceptServerSnapshot` | crates/bootty-mux/src/controller.rs:1057-1061 | a pushed snapshot is recorded when it was applied |
| `MuxControllers.MuxController.RefreshSessions` | crates/bootty-mux/src/controller.rs:698-709 | a refreshed snapshot is applied if accepted, and the resources are recorded either way |
| `MuxControllers.MuxController.CompleteAuthoritativeCommand` | crates/bootty-mux/src/controller.rs:722-776 | a completion of another configuration is stale; any other applies its snapshot or selection and records |
| `MuxControllers.MuxController.ExecuteInline` | crates/bootty-mux/src/controller.rs:992-1037 | an inline command selects what it names if that is there, and its result is awaited |
| `MuxControllers.MuxController.ExecuteCommand` | crates/bootty-mux/src/controller.rs:892-902 | likewise, and the resources are recorded |
| `MuxControllers.MuxController.CollectReady` | crates/bootty-mux/src/controller.rs:678-691 | the results that are in are taken, and the others stay awaited |
| `MuxControllers.MuxController.ApplySessionOrder` | crates/bootty-mux/src/controller.rs:640-656 | the order of a Space filters the sessions and moves a selection that is gone |
| `Targets.RoundTrip` | crates/bootty-mux/src/target.rs:43-134 | a target resolves to the resource it was made from, exactly unless it is the terminal of a session named active_terminal |
| `Targets.TargetsAreUnique` | crates/bootty-mux/src/target.rs:43-134 | otherwise one target never belongs to two resources |
| `Targets.HeldTargetResolves` | crates/bootty-mux/src/target.rs:95-134 | in every run a held target resolves to its own resource exactly while nothing has replaced the resource, and else to nothing |
| `Targets.ShadowedResolvesToBinding` | crates/bootty-mux/src/target.rs:106-113 | the exception resolves to the binding exactly when the session's generation is the binding's |
| `Targets.ShadowedIsReached` | crates/bootty-mux/src/controller.rs:30-34 | the exception is reached: with the first snapshot of a new controller, a session of that id has a terminal target that resolves to the binding |
| `GroupOrder.GroupOfLabelIs` | crates/bootty-mux/src/session_membership.rs:6-8 | a label's group is what precedes its first slash, and empty for a label that has none or starts with one |
| `Membership.ClaimKeepsOrder` | crates/bootty-mux/src/session_membership.rs:104-122 | a claimed session joins its group, and identities stay distinct and groups contiguous |
| `Membership.ReleaseKeepsOrder` | crates/bootty-mux/src/session_membership.rs:125-131 | a release takes out that session alone |
| `Membership.MoveBeforeRearranges` | crates/bootty-mux/src/session_membership.rs:214-237 | a move before another session permutes the list and keeps groups contiguous |
| `Membership.MoveBeforePlaces` | crates/bootty-mux/src/session_membership.rs:214-237 | the session lands right before a member of its group, or its block right before the other block, or at the end |
| `Membership.MoveBeforeFailsIff` | crates/bootty-mux/src/session_membership.rs:214-237 | a move fails exactly when one of the two sessions is missing, or what is to move is already where it should go |
| `Membership.BlockIsBlock` | crates/bootty-mux/src/session_membership.rs:277-290 | in a contiguous list a block is a whole group or one ungrouped session |
| `Membership.MoveBySteps` | crates/bootty-mux/src/session_membership.rs:240-274 | a step fails only without a session or a place to go; it takes the session up or down, as asked, past its neighbour in the group, or its whole block past the next block |
| `Membership.StepRearranges` | crates/bootty-mux/src/session_membership.rs:240-274 | either loses nothing and keeps groups contiguous |
| `Membership.EveryRunKeepsOrder` | crates/bootty-mux/src/session_membership.rs:104-332 | every run of edits keeps identities distinct and groups contiguous |
| `SessionMemberships.SessionMembership.Claim` | crates/bootty-mux/src/session_membership.rs:104-122 | the method makes the edit and keeps the order sound |
| `SessionMemberships.SessionMembership.Release` | crates/bootty-mux/src/session_membership.rs:125-131 | likewise, returning the released session |
| `SessionMemberships.SessionMembership.MoveBefore` | crates/bootty-mux/src/session_membership.rs:214-237 | likewise for a move before another session |
| `SessionMemberships.SessionMembership.MoveBy` | crates/bootty-mux/src/session_membership.rs:240-274 | likewise for a step |
| `SessionMemberships.SessionMembership.LiftBlock` | crates/bootty-mux/src/session_membership.rs:315-332 | draining a block and splicing it back exchanges two neighbouring parts |
| `SessionMemberships.SessionMembership.MoveWithinGroup` | crates/bootty-mux/src/session_membership.rs:303-312 | removing and inserting one member exchanges two neighbouring parts |
| `HistoryGrammar.ValidateSgr` | crates/bootty-control/src/terminal_history.rs:229-264 | the loop accepts exactly the style parameters of the grammar |
| `HistoryGrammar.ItemsConcat` | crates/bootty-control/src/terminal_history.rs:136-220 | the items of two valid texts put together are the items of each |
| `History.WalkHistory` | crates/bootty-control/src/terminal_history.rs:136-220 | the loop pushes the parts of the recursive walk, or fails as it does |
| `History.WalkIsItems` | crates/bootty-control/src/terminal_history.rs:136-220 | the walk succeeds exactly on texts that have items and render within the limit, and its parts concatenate to what the items render to |
| `History.ValidateIff` | crates/bootty-control/src/terminal_history.rs:28-30 | a text validates exactly when it has items and fits, and its styled parts concatenate to it |
| `History.PlainTextIsPlain` | crates/bootty-control/src/terminal_history.rs:130-134 | readable text has no escape, validates, and is its own readable text |
| `HistorySanitize.CapturePaletteOf` | crates/bootty-control/src/terminal_history.rs:74-109 | the loop collects the colors that the records define |
| `HistorySanitize.ResolvedIsAlone` | crates/bootty-control/src/terminal_history.rs:111-125 | a resolved color is one valid style |
| `HistorySanitize.SanitizeHistory` | crates/bootty-control/src/terminal_history.rs:59-72 | the method resolves each part, joins them and validates the result |
| `HistorySanitize.SanitizeIs` | crates/bootty-control/src/terminal_history.rs:59-72 | sanitising succeeds exactly when the capture has items and the sizes fit, so that the final validation can fail on size alone; the result has the resolved items and shows the same text |
| `HistorySanitize.FixedPointsAreValid` | crates/bootty-control/src/terminal_history.rs:59-72 | sanitising leaves a text as it is exactly when the text validates |
| `HistorySanitize.SanitizeProjects` | crates/bootty-control/src/terminal_history.rs:59-72 | what sanitising returns validates and sanitises to itself |
| `HistorySanitize.SanitizeKeepsShown` | crates/bootty-control/src/terminal_history.rs:59-134 | the readable text of a sanitised capture is what the capture shows |
| `FileReads.ReadAgrees` | crates/bootty-host/src/file_reader.rs:219-267 | a successful read gives the bytes at the position of the content as opened, none only at the end or for an empty buffer, and moves past them |
| `FileReads.TimelineIsHonest` | crates/bootty-host/src/file_reader.rs:83-105 | for a file whose revision found again means no change in between, and for a log that only grows, a range read between two passing checks is read from the opened content |
| `FileReads.FillOverTimeAgrees` | crates/bootty-host/src/file_reader.rs:370-386 | so a range that is read is that range of the content as opened |
| `FileReads.SecondCheckIsNeeded` | crates/bootty-host/src/file_reader.rs:370-386 | a file that changes while it is read passes the first check and fails the second |
| `FileReads.FailuresOfRead` | crates/bootty-host/src/file_reader.rs:219-254 | a read fails because it was cancelled, its first check met an I/O failure or a changed file, or its fill failed; only the last changes the reader, which it empties and cancels |
| `FileReads.ChangedForEver` | crates/bootty-host/src/file_reader.rs:83-105 | over a file or log that behaves as above, a check that finds it changed finds it changed for ever after |
| `FileReads.FailureIsFinal` | crates/bootty-host/src/file_reader.rs:219-254 | so after a failed read, but for a first check that failed on I/O alone, every later read fails, whatever is done in between |
| `FileReads.ServedAfterFailureIff` | crates/bootty-host/src/file_reader.rs:219-254 | bytes can be served after a failed read exactly when its first check failed on I/O alone: the file was as opened, and the reader not cancelled |
| `FileReads.FailedCheckKeepsCache` | crates/bootty-host/src/file_reader.rs:220-234 | after a first check that failed, on I/O or otherwise, the cache is as it was, and serves once the check passes |
| `FileReads.FailedCheckCanServe` | crates/bootty-host/src/file_reader.rs:220-234 | a run over a file that never changes in which it does: a byte is read, a check fails on I/O, and the byte is served again |
| `FileReads.FailedFillEndsReading` | crates/bootty-host/src/file_reader.rs:236-254 | after a fill that failed the cache is empty and every read is refused |
| `FileReads.EveryRunAgrees` | crates/bootty-host/src/file_reader.rs:219-282 | after any seeks and reads the cache still agrees with the content as opened |
| `FileReads.EveryRunOverTimeAgrees` | crates/bootty-host/src/file_reader.rs:219-282 | so it does over a file or log that behaves as above |
| `FileReads.LogAlwaysPasses` | crates/bootty-host/src/file_reader.rs:83-105 | a log that is only appended to never fails its check |
| `FileReads.SteadyReadSucceeds` | crates/bootty-host/src/file_reader.rs:219-267 | over such a log, or a file whose revision stays, every read succeeds that meets no I/O failure |
| `FileReads.ReadsAreConsecutive` | crates/bootty-host/src/file_reader.rs:219-267 | reads in a row give the content between where they start and where they end |
| `FileReads.RewrittenLogPasses` | crates/bootty-host/src/file_reader.rs:80-105 | the check of a log sees its last 64 bytes alone: a rewrite before them passes |
| `FileReaders.FileReader.ReadBytes` | crates/bootty-host/src/file_reader.rs:219-267 | the method makes the read, keeps the cache in agreement, and empties it when a fill fails |
| `FileReaders.FileReader.SeekTo` | crates/bootty-host/src/file_reader.rs:268-282 | a seek moves to the position asked for, or fails outside the range of positions |
| `SessionNames.Truncate` | crates/bootty-mux/src/session_names.rs:24-30 | the longest prefix within the limit that ends between characters |
| `SessionNames.NamedInjective` | crates/bootty-mux/src/session_names.rs:68-75 | distinct suffixes give distinct names, even after truncation |
| `SessionNames.UniqueSessionName` | crates/bootty-mux/src/session_names.rs:55-78 | the loop ends for every set with fewer names than there are 128-bit suffixes; the result is free, is the candidate if that is free, and else has the first free suffix and fits the limit |
| `SessionNames.RecognisedIffWhole` | crates/bootty-mux/src/session_names.rs:82-99 | a suffixed name is recognised exactly when its base was not cut |

## Left out

- The JSON parser that the keymap editor runs before any edit: a file to edit is a balanced one, and what is proved beyond JSON (`RemoveUnlessSlash`, the open objects of `AppendActsOnList`) concerns texts that the editor never reaches.
- Floating-point rounding: weights and coordinates are reals, so the rejections of NaN, overflow and underflow in the layout have no counterpart.
- The in-place form of the edits of the split tree (insert, prune, swap): they are functions from tree to tree, which does not capture aliasing of nodes; `PaneLayout` assigns the new root.
- The waiting loop of the client and the waiting request of the server are one state machine rather than two methods, since what matters is their interleaving; time is a step that may happen.
- Error texts, and the payloads of RPC errors: an error is its kind.
- Wrap-around of generations and revisions of the topology, which are unbounded here; the sequence numbers of subscriptions and of job output keep their 64-bit limit.
- The validation of topics and scopes in subscribe requests, and the parameters of the task requests.
- Waiting for job output with a timeout, the encoding of output as base64, job metadata limits and the spawning of workers.
- Job status after it is finished: it is assumed to stay finished, though setters outside the modelled file could overwrite it.
- Remote file sources and the transport of ranges; opening files and computing their revision.
- The pacing of refreshes, availability errors and the sending of commands to the backend; a completed command is a step that arrives at any time.
- The candidates that an input device makes for a key event, compiling bindings from files and reloading them.
- Renaming a session, which the code does not promise to keep groups contiguous.
- Normalising line breaks for the renderer in `styled_history_bytes`, and control characters in generated session names.
- SQLite persistence, workspaces, process spawning, SSH, WSL, IPC, git facts, settings, fonts and colours.
