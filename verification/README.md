# Chat memory, context planning, approvals and tasks: a verified model

This project models the state-keeping and decision code around a local AI engine and proves what that
code promises. Each module follows one source file, or one question about it.

| part | source | modules |
|---|---|---|
| event log on disk, with crash repair and hot cache | `agents/src/memory/store.rs`, `events.rs` | `Text`, `Json`, `Events`, `Log`, `Folders`, `LogRuns`, `HotLogs`, `OutsideEdits`, `JsonlStores` |
| event log in RAM, and the contract both stores keep | `agents/src/memory/external.rs` | `MemStores`, `Backends` |
| visible transcript and the changes of a request | `agents/src/memory/transcript.rs` | `Transcripts`, `TranscriptRounds` |
| context planner | `context/src/planner.rs` | `Planner` (specification), `PlannerOrder`, `PlannerBudget`, `PlannerPlan`, `PlannerPriority` (theorems), `PlannerMeaning` (what a plan is, said of the segments alone), `PlannerCode` (the loops) |
| compaction | `context/src/compaction.rs` | `Compaction` |
| approvals, canonical params, clones of a call | `cep/src/approval.rs`, `cep/src/registry.rs`, `cep/src/principal.rs` | `Canonical`, `Approvals`, `ApprovalStores`, `Calls` |
| tasks | `cep/src/task.rs` | `Tasks`, `TaskStores` |
| durable notes | `agents/src/memory/notes.rs` | `Notes` (one note, one file), `NoteRuns` (operations and runs), `NoteStores` |
| "allow for this chat" grants | `agents/src/lifecycle/grants.rs` | `Grants` |

`Wrappers`, `Numbers`, `Lists`, `Sorting` and `Folding` are shared helpers: options and results, minimum and
maximum, the first element of a kind, sorting whose outcome does not depend on the algorithm, and folds
whose outcome does not depend on the order of their input.

Objects that the source changes in place are classes (`JsonlStore`, `MemStore`, `ApprovalStore`, `Call`,
`TaskStore`, `NoteStore`, `GrantStore`), and loops are loops; each method is proved against a
specification function or relation, and what the source promises is proved of that; what such a function
means is said again without its name, field by field or by an independent rule. Interleavings
(clones of a call, workers against cancels) are state machines over single steps. Time is a number given
to each step, an id is a parameter that was not used before, and a file is a sequence of characters, one
per byte.

## What turned out not to hold as promised

The code is kept as it is; each finding is a proved condition, with an input that shows it.

- Segment names sort in creation order for at most 9,999 closed segments: with 10,000 the name
  `events-10000` sorts before `events-9999` (`Folders.NamesSortInCreationOrder`, an if-and-only-if).
- A log file that was changed from outside is read again when that changed its stamp
  (`OutsideEdits.StampChanged`). An append after such an edit starts from the size it has cached for the open
  segment. Shared reads stay right if and only if that neither is the size the edit left nor counts as full,
  so that the hot log extended fits no files, or that hot log was right (`OutsideEdits.AppendAfterEdit`). An unreadable line cut to
  a blank, with the chat's state read only after that, makes a shared read wrong: the append ends the line,
  which brings the old stamp back (`OutsideEdits.StaleAfterRepair`, an if-and-only-if over every cached size).
- A request that is sent again is said to log nothing more. A text over 8 KiB is moved into a blob, the
  transcript shows an empty one in its place, and the comparison finds a difference. For every log and every
  request of the kind the engine makes (`api/src/handlers/chat/ingest_events.rs:17-27` adds `tool_calls`,
  `tool_call_id` and `workspace` only), the second comparison is empty if and only if the text of each
  message logged stays in its event or is blank, and its key stays too (`TranscriptRounds.LongTextsDecide`); a text that
  does not stay is logged again by every request that sends it (`TranscriptRounds.LongTextLogsAgain`).
- Extra fields that override `pos`, `key`, `role` or `text`, which the engine never makes, have the same
  effect. For every log and every request the second comparison is empty if and only if the changes settle,
  which the request and its changes tell beforehand (`TranscriptRounds.RequestSettles`); with no position
  overridden, if and only if each logged message still matches (`TranscriptRounds.ExtraFieldsDecide`). One that
  is alone at its position and does not match is logged by every further request
  (`TranscriptRounds.EveryRequestLogsAgain`, with `TranscriptRounds.OtherTextLogsAgain` as an input).
- A clone of a call is said to share the call's approval. In every run a check passes if and only if the flag
  was stored before it began or it made the use itself (`Calls.CheckPasses`); so once the approval was used
  a later check passes exactly when the flag was already stored, and of the earlier ones only the user's
  (`Calls.WhichChecksPass`). `Calls.LateCloneRefused` is a run of six actions in which a clone is refused.
- Protected and used tokens with all reserves stay within the context exactly when the reserves alone do
  (`PlannerPlan.WithinBudget`); the planner's subtraction stops at zero, so a plan that exceeds the context
  comes back exactly when the reserves exceed it and nothing is protected (`PlannerPlan.ExceedsContext`,
  with `PlannerPlan.SmallContext` as an input).
- A note number is said to be given once. At two points of a run the next number is the same if and only if
  each note added between them was dead from the start (superseded, invalidated or moved) with no history
  kept (`NoteRuns.NumberGivenAgain`, with `NoteRuns.NumberGivenTwice` as an input). The engine's own callers
  of `add_with` and `replace` give `confirmed` and `proposed` only (`api/src/cep/methods/notes.rs:157-167`,
  `api/src/handlers/chat/recall.rs:804-859`), so theirs are given once.
- Confirming a proposal to forget a note is said to make the proposal go away. It does so exactly when the
  note is still live; otherwise the proposal stays proposed and names nothing any more
  (`NoteRuns.ConfirmedForget`, and `NoteStores.NoteStore.Update`). Nothing ends it then but another status
  that is no confirmation (turning it down) or marking it as moved, in any run (`NoteRuns.OrphanStep`, `NoteRuns.OrphanStays`). Adding a note, proposing
  to forget it, forgetting it at once and confirming the proposal leads there (`NoteRuns.OrphanReached`).
- A grant marks its chat as read back without reading the log, so the other grants of the log are not held.
  After any run a check answers what the log says if and only if the tool's grant was not lost in this way
  (`Grants.AskTellsLog`); nothing is lost when every grant comes to a chat that was asked about, or when no
  log is older than the run and there is no restart (`Grants.NothingLost`). A search of other chats asks for
  an approval without a look at the grants (`api/src/handlers/chat/api_turn.rs:328-335`), and that approval
  may become a grant, so a grant can come first; `Grants.GrantFirstLoses` is such a run.

## Model

| member | source | states |
|---|---|---|
| Text.QuoteRoundTrip | cep/src/approval.rs:76 | a key or string, quoted and escaped as serde_json does, is read back whole, and reading stops right behind its closing quote whatever follows |
| Text.QuoteIs | cep/src/approval.rs:76 | a quoted string stands between quotes, each character as itself or as JSON's escape for it |
| Text.TrimIs | agents/src/memory/transcript.rs:34-42 | trimming leaves what stands between the blanks around a text, by Unicode's list of blanks |
| Json.ParsePrint | cep/src/approval.rs:66-94 | a parser undoes the printer on every valid value with anything behind it that cannot continue a number: the text is self-delimiting |
| Json.PrefixUnreadable | agents/src/memory/store.rs:228-229 | no proper prefix of an object's text reads as a whole value |
| Json.PrintPrintable | agents/src/memory/store.rs:228-229 | printed JSON holds no raw control character, so no line break |
| Json.PrintIs | cep/src/approval.rs:66-94 | a value's text: items in order between brackets, members between braces with a colon behind each key, commas between |
| Canonical.SortedDecidesSame | cep/src/approval.rs:68-81 | two params have the same form with sorted keys exactly when they are equal up to key order at every depth |
| Canonical.SortedKeysAscend | cep/src/approval.rs:68-70 | at every depth the keys of an object ascend, character by character |
| Canonical.CanonicalReadsBack | cep/src/approval.rs:64-98 | the canonical text parses back to the value with sorted keys and leaves nothing over |
| Canonical.CanonicalDecidesSame | cep/src/approval.rs:64-98 | two params have the same canonical text exactly when they are equal up to object key order at every depth: the digest's input binds an approval to one call |
| Canonical.AppendCanonical | cep/src/approval.rs:66-94 | the recursive printer appends exactly the canonical text to the output it was given |
| Canonical.AppendObject | cep/src/approval.rs:68-81 | sorting only the keys and looking each value up prints the object with its members sorted |
| Canonical.AppendArray | cep/src/approval.rs:82-91 | items are printed in order between brackets, a comma between any two |
| Approvals.StepKeeps | cep/src/approval.rs:109-197 | each step of the protocol keeps its safety, what is known of every kept approval, and the limit on kept ones |
| Approvals.RunSafe | cep/src/approval.rs:109-197 | in every run from an empty store with any clock: an id is used at most once, only after it was asked for and then granted, before it expires, for the same principal, method and digest; it is decided at most once, after it was asked for and before it expires; a rejected id and one forgotten while it was pending are never used, an evicted one never afterwards; at most 256 are kept |
| Approvals.KeptIdsUsed | cep/src/approval.rs:121-122 | a kept approval's id is one a request gave, so a new id never replaces a kept approval |
| ApprovalStores.ApprovalStore.Prune | cep/src/approval.rs:109-115 | used, rejected and expired approvals go; of the rest the soonest to expire go until there is room for one more |
| ApprovalStores.ApprovalStore.PrunedMeans | cep/src/approval.rs:109-115 | what is kept is pending or granted and has not expired; of these all if there are fewer than 256, else the 255 latest to expire |
| ApprovalStores.ApprovalStore.Request | cep/src/approval.rs:117-136 | the request step of the protocol: prunes, then keeps a new pending approval that expires after the store's time |
| ApprovalStores.ApprovalStore.Consume | cep/src/approval.rs:138-152 | true exactly for a granted, unexpired approval of this principal, method and digest, which is then used; otherwise nothing changes |
| ApprovalStores.ApprovalStore.Decide | cep/src/approval.rs:154-172 | succeeds if and only if the approval is kept, pending and not expired, and only its status changes; not found if and only if it is not kept or has expired; else the status it already has; whoever waits is told once, and only on success |
| ApprovalStores.ApprovalStore.Wait | cep/src/approval.rs:174-179 | a new channel for the answer takes the place of an earlier one |
| ApprovalStores.ApprovalStore.Forget | cep/src/approval.rs:181-188 | stops the waiting, and removes the approval exactly when it is still pending |
| ApprovalStores.ApprovalStore.ListPending | cep/src/approval.rs:190-197 | after pruning, each pending approval once, the soonest to expire first |
| Calls.CallStepKeeps | cep/src/registry.rs:145-159 | every load, consume, store and request of any clone, and every step of other callers, keeps: at most one use by this call, and a set flag or passed check stands on that use |
| Calls.ClonesShareOneApproval | cep/src/registry.rs:126-159 | in every interleaving of a call's clones with all other callers: a check passes only after an approval was used by this very call for exactly it, and the call uses one at most |
| Calls.FlagIsFinal | cep/src/registry.rs:135-149 | once stored the flag stays, no further approval is used, and a check passes without touching the store |
| Calls.TryGranted | cep/src/registry.rs:145-156 | in one step, a try uses an approval if and only if the call has used none yet and the one it names can be used for it |
| Calls.CheckPasses | cep/src/registry.rs:145-159 | in every run of a new call, a check passes if and only if the flag was stored before it loaded the flag, or it made the call's one use itself |
| Calls.WhichChecksPass | cep/src/registry.rs:126-159 | once a clone used the approval: a check that begins later passes if and only if the flag was stored before it began; of the earlier ones only the user's passes |
| Calls.LateCloneRefused | cep/src/registry.rs:126-156 | a run from a new call with its approval granted: two clones load the flag, one uses the approval, the other is refused |
| Calls.Call.RequireApproval | cep/src/registry.rs:145-159 | passes exactly when the flag was set or the named approval can be used for this call, which is then used up; otherwise a new pending approval for it is in the store |
| Calls.Call.CheckPath | cep/src/registry.rs:161-171 | paths within the caller's roots pass without a look at the store; others are forbidden where the caller does not ask, else they pass exactly when the call is approved, and a refused call has a new pending approval for the target |
| Calls.WithinRoots | cep/src/principal.rs:80-87 | the loop over the roots finds exactly whether the resolved path lies in one of them |
| Events.DecodeLine | agents/src/memory/events.rs:12-26 | reading an event's line gives the event back, fields and own data |
| Events.CutLineUnreadable | agents/src/memory/store.rs:162-165 | a line cut anywhere holds no event |
| Events.LineShape | agents/src/memory/store.rs:228-229 | an event's line holds no line break and is not blank |
| Events.LineFields | agents/src/memory/store.rs:216-229 | a line is one object with `v`, `id`, `chat`, `seq`, `ts`, `kind` and then the data |
| Events.StampedValid | agents/src/memory/store.rs:211-226 | an event as stamped has none of the reserved fields among its own and its large fields replaced by references, so its line is well formed |
| Events.Stamp | agents/src/memory/store.rs:211-226 | stamps one event and moves each of its strings over 8 KiB into a blob |
| Events.StampAllMeans | agents/src/memory/store.rs:211-226 | of each new event: version 1, the given id and chat, the next number, its own time or else the clock's, its kind; the data is the given fields in order without the event's own names, each with its value or, for a string over 8 KiB, its reference and length |
| Events.AllBlobsKeep | agents/src/memory/store.rs:122-133 | no append loses a text: each field too large for its event is found whole by the reference in its place, and so is every earlier blob |
| Log.ReadConcat | agents/src/memory/store.rs:153-167 | reading up to a line's end and then on is reading the whole |
| Log.LineByLine | agents/src/memory/store.rs:153-167 | a text is read line by line: nothing of a blank one, an event of an event's line, else one more line skipped |
| Log.ReadCutBuffer | agents/src/memory/store.rs:194-235 | any prefix of what an append writes reads as its complete events in order and at most one skipped line |
| Log.CrashReads | agents/src/memory/store.rs:194-235 | whatever prefix of an append's write, with its repair of a cut line, reaches the file: all earlier events and the complete new ones are read, and at most one more line is skipped |
| Folders.NamesSortInCreationOrder | agents/src/memory/store.rs:99-111 | sorting by four-digit names gives creation order if and only if there are at most 9,999 closed segments |
| Folders.NamesLookLike | agents/src/memory/store.rs:95-141 | the files' names: `events.jsonl`, and `events-` with the number in four or more digits and `.jsonl.zst` |
| Folders.RotationReadsSame | agents/src/memory/store.rs:139-151 | closing the open segment changes neither the events nor the skipped lines that are read |
| Folders.WrittenReads | agents/src/memory/store.rs:194-235 | a folder whose open segment got any prefix of an append's write reads as before plus the complete events |
| Folders.AppendedReads | agents/src/memory/store.rs:181-247 | an append that is not interrupted adds exactly its events behind all that was read before |
| LogRuns.AppendedFiles | agents/src/memory/store.rs:190-235 | an append closes the open segment under the next name exactly when that has reached the size, leaves every other file, ends a cut line and writes its lines behind |
| LogRuns.CutFiles | agents/src/memory/store.rs:190-235 | cut short it does the same with so many bytes of what it writes |
| LogRuns.StepFaithful | agents/src/memory/store.rs:181-247 | an append, an append cut by a crash, and a delete each keep the log faithful to what was appended; the numbers given are the ones after the last event reread from the files |
| LogRuns.RunFaithful | agents/src/memory/store.rs:139-334 | for every run of appends, crashes at any byte and deletes, with any segment size: reading gives exactly the events appended since the last delete and the complete ones of crashed appends, in order, numbered from 1, and at most one skipped line for each crash; as long as no segment beyond the 9,999th is closed |
| LogRuns.NumberReread | agents/src/memory/store.rs:169-177 | in a faithful state the number reread from the files is one more than the number of events the chat was told of, and the stamped events go on from there |
| LogRuns.ShortRunFaithful | agents/src/memory/store.rs:139-334 | every run of at most 9,999 operations is faithful, with no condition on the states it comes through |
| LogRuns.DeletedReads | agents/src/memory/store.rs:318-334 | a deleted chat reads as empty |
| HotLogs.WriteStampTells | agents/src/memory/store.rs:232-245 | the stamp before the write equals the stamp before the append exactly when no segment was closed and no cut line ended |
| HotLogs.AppendValid | agents/src/memory/store.rs:181-247 | after an append, each cached state and each hot log whose stamp fits the files is what a fresh read gives, for every chat |
| HotLogs.DeleteValid | agents/src/memory/store.rs:318-334 | after a delete the caches are true of the files that are left |
| HotLogs.PushValid | agents/src/memory/store.rs:290-297 | keeping one more log hot keeps at most one per chat and at most `HOT_LOGS` in all, each true of its files |
| OutsideEdits.StampChanged | agents/src/memory/store.rs:74-75 | an edit from outside that changes the stamp is always read again |
| OutsideEdits.AppendAfterEdit | agents/src/memory/store.rs:181-247 | after an edit from outside, for any cached size: an append keeps shared reads right if and only if it does not start from the open segment's size (by a full segment closed, or by a cached size that is true), or the hot log it extends was right |
| OutsideEdits.FromTrueSize | agents/src/memory/store.rs:181-247 | started from the true size, such an append writes the files and stamps of the append in the runs |
| OutsideEdits.FailedAppend | agents/src/memory/store.rs:139-147 | an append that fails, since the segment to close is gone or the one to repair is empty, changes neither what is read nor a stamp |
| OutsideEdits.StaleAfterRepair | agents/src/memory/store.rs:169-247 | an unreadable line cut to a blank from outside: the next append makes the hot log wrong if and only if the cached size is the one after the edit |
| JsonlStores.JsonlStore.ClosedSegments | agents/src/memory/store.rs:99-111 | lists the closed segments' names in ascending order, each once |
| JsonlStores.JsonlStore.ReadLines | agents/src/memory/store.rs:153-167 | the loop over lines adds each readable event, counts each unreadable line, and passes over blank ones |
| JsonlStores.JsonlStore.Read | agents/src/memory/store.rs:259-274 | reads the closed segments in order and then the open one |
| JsonlStores.JsonlStore.State | agents/src/memory/store.rs:169-177 | the cached state is the next number and the open size that the files say |
| JsonlStores.JsonlStore.Rotate | agents/src/memory/store.rs:139-151 | moves the open segment's text under the next number |
| JsonlStores.JsonlStore.Append | agents/src/memory/store.rs:181-247 | writes the new events, made field by field as said for `Events.StampAllMeans` and numbered on from the last one read, behind all earlier events, and leaves the files the run theorem's append step leaves; their large texts are in blobs; nothing changes in other chats; caches stay true |
| JsonlStores.JsonlStore.AppendUntil | agents/src/memory/store.rs:181-235 | an append cut at any byte of its write leaves the files the run theorem's crash step leaves |
| JsonlStores.Follow | agents/src/memory/store.rs:139-334 | any appends, cut appends and deletes done with the store, opened anew after each crash, leave the files and read the events that the run of these operations says |
| JsonlStores.JsonlStore.Write | agents/src/memory/store.rs:190-245 | leaves exactly the files, the cached state and the hot logs an append of these lines leaves |
| JsonlStores.JsonlStore.Prepare | agents/src/memory/store.rs:190-206 | by the cached size, closes a full segment and ends a cut line; fails exactly where the files do not let it |
| JsonlStores.JsonlStore.WriteLines | agents/src/memory/store.rs:190-245 | for any files and any cached size: the files, the cached state and the hot log an append from that size leaves, or none changed when it fails |
| JsonlStores.JsonlStore.GetBlob | agents/src/memory/store.rs:312-316 | gives the text that a reference names, or none |
| JsonlStores.JsonlStore.UpdateHot | agents/src/memory/store.rs:236-245 | a hot log that fitted the files before the append gets its events and the new stamp, another one is dropped |
| JsonlStores.JsonlStore.ReadShared | agents/src/memory/store.rs:276-298 | a shared read equals a fresh read, also after edits from outside that bring no stale stamp back, and the chat's log becomes the most recently read hot one |
| JsonlStores.JsonlStore.DeleteChat | agents/src/memory/store.rs:318-334 | removes all log files of the chat, its state and its hot log, as the run theorem's delete step does, and reports their number and bytes |
| MemStores.SortBySeqSorts | agents/src/memory/external.rs:24 | imported events are sorted by number, all kept, and those numbered the same stay in order |
| MemStores.LaterIsUnhanded | agents/src/memory/external.rs:38-39 | the events numbered after the last delivered one are exactly those appended and not yet handed out, in order |
| MemStores.AppendBalanced | agents/src/memory/external.rs:66-76 | an appended event is numbered after all others, so it is among those still to be handed out |
| MemStores.MemStore.Load | agents/src/memory/external.rs:22-31 | replaces the chat's events by the imported ones, sorted and under this chat's name, all counted as delivered |
| MemStores.MemStore.Undelivered | agents/src/memory/external.rs:33-44 | hands out exactly the events appended since the last load or delete that were not handed out yet, oldest first, and counts them as given |
| MemStores.MemStore.Append | agents/src/memory/external.rs:48-79 | adds the new events, made field by field as said for `Events.StampAllMeans` and numbered on from the last, with their large texts in blobs |
| MemStores.MemStore.Read | agents/src/memory/external.rs:85-88 | gives the chat's events with no skipped line |
| MemStores.MemStore.DeleteChat | agents/src/memory/external.rs:101-109 | removes the chat's log and its delivery mark, and no other chat's; reports one file with the bytes of the events as JSON, if there was a log |
| MemStores.LogJsonBytes | agents/src/memory/external.rs:106 | these bytes are one more than the lines the disk store writes for the same events, and two for no events |
| Backends.AppendToBoth | agents/src/memory/store.rs:42-45 | given the same append, both stores answer the same events, hold the same log, and keep equal blobs equal |
| Backends.Conform | agents/src/memory/store.rs:352-382 | after any sequence of appends and deletes both stores hold the same events of the chat, and the same blobs if they did |
| Transcripts.Transcript | agents/src/memory/transcript.rs:43-67 | the loop over events gives the transcript the events say, position by position |
| Transcripts.Changes | agents/src/memory/transcript.rs:120-143 | the slot form over the events compares the same transcript |
| Transcripts.CompareLoop | agents/src/memory/transcript.rs:145-164 | the two loops give the changes of the sent positions and then the retractions of the rest |
| TranscriptRounds.TranscriptIs | agents/src/memory/transcript.rs:43-67 | a position shows the id, key, role and text of the last event about it, or nothing when that took the message back or there is none |
| TranscriptRounds.CompareIs | agents/src/memory/transcript.rs:120-164 | at each position sent: no change if and only if the logged text is the one sent up to blanks around it and the role or the key agrees; else new where nothing is logged, edited with the logged event's id where something is; beyond, what is logged is retracted; ascending |
| TranscriptRounds.ListRepresents | agents/src/memory/transcript.rs:122-141 | the slot list filled from the events shows the same message at each position as the transcript map |
| TranscriptRounds.DiffAgrees | agents/src/memory/transcript.rs:94-105 | any slot list that shows the logged transcript gives the same changes as the events themselves |
| TranscriptRounds.Diff | agents/src/memory/transcript.rs:93-105 | `diff` over the transcript map makes the same events as `changes` over the log |
| TranscriptRounds.ChangesAre | agents/src/memory/transcript.rs:145-164 | the changes come in order of position, one for each position that needs one and none for any other |
| TranscriptRounds.ChangeEventDoes | agents/src/memory/transcript.rs:69-88 | the stamped event of a change names its position and carries the message's role, text and key, as far as the extra fields do not override them |
| TranscriptRounds.ChangeEventSays | agents/src/memory/transcript.rs:69-88 | the event of a change: its kind, and each field by its key: the event it supersedes, an extra field, or what the message says |
| TranscriptRounds.OtherFieldsHarmless | agents/src/memory/transcript.rs:81-86 | a message whose extra fields name none of `pos`, `key`, `role`, `text` is shown as sent if and only if its text stays in the event or is blank, and its key stays (or its role, known again) |
| TranscriptRounds.NothingToChange | agents/src/memory/transcript.rs:145-164 | there is no change exactly when the transcript has exactly the request's positions, each matching its message |
| TranscriptRounds.RoundTrip | agents/src/memory/transcript.rs:120-176 | after the events of a request's changes follow any log, when extra fields and size leave each message as sent, the transcript has exactly positions 0 to n-1, each with the message's text up to trim and its role or key, and the same request changes nothing more |
| TranscriptRounds.RequestSettles | agents/src/memory/transcript.rs:69-88 | for any log, any messages and any extra fields, overridden positions too: the second comparison is empty if and only if at each position what the request's events say there in the end matches, or, where they say nothing, no change was needed there |
| TranscriptRounds.ExtraFieldsDecide | agents/src/memory/transcript.rs:81-86 | for any log and any messages that stay at their positions: the second comparison is empty if and only if each message the request logs still matches with its extra fields' overrides |
| TranscriptRounds.EveryRequestLogsAgain | agents/src/memory/transcript.rs:81-86 | a message that does not match, alone at its position and logged by the first request, is logged by every further one |
| TranscriptRounds.OtherTextLogsAgain | agents/src/memory/transcript.rs:81-86 | one message to a new chat whose extra fields give another text is logged by every request |
| TranscriptRounds.LongTextsDecide | agents/src/memory/store.rs:122-133 | for any log and any messages without overriding fields: the second comparison is empty if and only if the text of each message the request logs stays in its event or is blank, and its key stays (or its role, known again) |
| TranscriptRounds.LongTextLogsAgain | agents/src/memory/store.rs:122-133 | in a new chat a text over 8 KiB that is not blank is logged again by every request that sends it |
| Planner.HistoryTurnsAre | context/src/planner.rs:165-170 | the turns that have history, newest first, each once |
| Planner.GatherPermutes | context/src/planner.rs:172-196 | grouping segments into units does not depend on their order |
| Planner.OrderIndependent | context/src/planner.rs:153-275 | permuting the input changes nothing: same error, or same figures and the same kept and dropped decisions with the same reasons, and the same verdict for each segment |
| PlannerOrder.OrderIs | context/src/planner.rs:197-211 | the order of admission holds each unit once and strictly ascends: no two units tie |
| PlannerOrder.OrderUnique | context/src/planner.rs:197-211 | any ascending list of these units is that order, so no sorting algorithm gives another |
| PlannerBudget.AdmitAccounts | context/src/planner.rs:213-246 | the running totals are what the kept units spend, in all and by rank, within the budget and the caps; each unit gets one verdict |
| PlannerBudget.VerdictSettled | context/src/planner.rs:223-245 | a unit's verdict is the one of its turn, whatever comes later |
| PlannerBudget.GreedyBest | context/src/planner.rs:223-246 | at the first unit where another choice within budget and caps differs from the greedy one, the greedy one keeps it |
| PlannerBudget.NothingMoreFits | context/src/planner.rs:223-246 | no unit left out could still be added at the end without passing its cap or the budget |
| PlannerPlan.GatherConserves | context/src/planner.rs:172-196 | grouping neither loses nor invents tokens, whatever units are chosen |
| PlannerPlan.WithinBudget | context/src/planner.rs:154-163 | kept tokens are protected plus used, used is at most available, kept and dropped make up all; with reserves and margin the prompt fits the context exactly when these alone do |
| PlannerPlan.ExceedsContext | context/src/planner.rs:154-163 | a plan that exceeds the context with its reserves comes back if and only if the reserves alone exceed it and no segment's tokens are protected |
| PlannerPlan.SmallContext | context/src/planner.rs:154-163 | one protected segment without tokens and an answer reserve above the context: a plan comes back that exceeds it |
| PlannerPlan.UnderCaps | context/src/planner.rs:213-217 | kept segments of a capped rank stay under its cap |
| PlannerPlan.Maximal | context/src/planner.rs:223-246 | a dropped segment is not protected, and its unit could not be added to the finished plan |
| PlannerPlan.NeedsCompactionMeans | context/src/planner.rs:260-261 | a plan asks for compaction exactly when it leaves out a segment that is not evictable, or fills the available tokens to the policy's threshold |
| PlannerPlan.BestInOrder | context/src/planner.rs:223-246 | no choice the budget allows beats the plan in order of admission |
| PlannerPlan.VerdictFor | context/src/planner.rs:172-196 | a segment is decided as its whole unit is: units are kept or dropped whole |
| PlannerMeaning.VerdictIs | context/src/planner.rs:165-246 | the whole rule, without units, order or totals: a segment is admitted with those it goes together with, unless with the kept ones that go first its class passes its cap or all pass what is available; with the reason; first go new turns from the newest on, then tools in use, evidence, suggestions, older turns and the evictable, by higher score, newer turn and name |
| PlannerMeaning.Preferred | context/src/planner.rs:197-246 | what goes first and weighs no more is kept whenever the later one is: always within a rank, and across ranks when its cap has room |
| PlannerMeaning.PlanIs | context/src/planner.rs:153-275 | a plan comes back exactly when the protected tokens fit; its figures; and a decision for each segment, in input order, kept and dropped apart |
| PlannerPriority.RecentTurnsKept | context/src/planner.rs:165-170 | when the newest history turns fit together all their segments are kept and `recent_short` is false |
| PlannerPriority.RecentShortMeans | context/src/planner.rs:259 | `recent_short` says exactly that a segment of the newest turns was left out |
| PlannerPriority.EvictableIgnored | context/src/planner.rs:197-246 | leaving all evictable segments away changes no other decision |
| PlannerPriority.EvictableIndependent | context/src/planner.rs:197-246 | adding, removing or reordering evictable segments changes neither the error, the available tokens, `recent_short`, nor any decision of another segment |
| PlannerCode.NewestTurns | context/src/planner.rs:165-170 | the newest turns with history, as many as asked for |
| PlannerCode.GatherUnits | context/src/planner.rs:172-196 | the map filled in a loop holds each unit's rank, best score, newest turn, tokens and the places of its members |
| PlannerCode.SortUnits | context/src/planner.rs:197-211 | the units sorted in place are in the order of admission |
| PlannerCode.AdmitUnits | context/src/planner.rs:218-246 | the admission loop computes the specified totals and writes a unit's verdict to each of its members |
| PlannerCode.Plan | context/src/planner.rs:153-275 | the imperative planner computes the specified plan, or the specified error, on every input (what these are: `PlannerMeaning.PlanIs`, `PlannerMeaning.VerdictIs`) |
| Compaction.InReachIs | context/src/compaction.rs:55-72 | in reach are exactly the hints of turns outside the newest and the results with enough steps after them, each once, oldest first, hints first |
| Compaction.CompactionMeans | context/src/compaction.rs:51-82 | the plan frees exactly what it says when applied; it reaches `clear_at_least`, and `need`, exactly when everything that may go would; less of it misses one of them; it clears only hints outside the newest turns and clearable results above their placeholders with enough steps after them, and nothing before an older one |
| Compaction.CompactionUnique | context/src/compaction.rs:51-82 | being the shortest front part that reaches the target determines the plan |
| Compaction.CompactingAgain | context/src/compaction.rs:76-79 | after a plan is applied, the next may clear exactly what this one left: nothing is cleared twice |
| Compaction.FlattenSteps | context/src/compaction.rs:65-70 | all steps of all turns in order |
| Compaction.Compact | context/src/compaction.rs:51-82 | returns a plan exactly when everything in reach frees `clear_at_least`: the shortest front part of the candidates that meets the target, else all of them, with the tokens it frees |
| Tasks.StepKeeps | cep/src/task.rs:121-261 | every start, event, progress, finish and cancel keeps: outcomes only for completed and failed tasks, event numbers consecutive, and each principal's stored running tasks within the limit |
| Tasks.EndsStay | cep/src/task.rs:192-216 | in every run, completed, failed and cancelled are final: the task is gone later or ended just as it was |
| Tasks.ResultRepeats | cep/src/task.rs:226-247 | the first answer of `result` other than a timeout is every later one until the task expires or is gone |
| Tasks.OthersNeverTold | cep/src/task.rs:226-236 | in every run, from a task's start on and at any time every other principal gets not-found, and the task never changes hands |
| Tasks.OutcomeMeansEnded | cep/src/task.rs:192-207 | in every reachable state an outcome is stored exactly for completed and failed tasks, and a principal's running tasks are within the limit |
| Tasks.GoneStaysGone | cep/src/task.rs:160-165 | a task that is gone never comes back |
| Tasks.PollGets | cep/src/task.rs:83-87 | a poll gives what was emitted after the cursor, as far as the last `MAX_EVENTS` are kept |
| Tasks.EmittedGrows | cep/src/task.rs:125-135 | in every run what was emitted for a task only grows at its end |
| Tasks.ReaderGetsAll | cep/src/task.rs:83-135 | in every run of the store, a reader that polls a task's view and passes on each `next` has each event emitted so far once and in order, if and only if never more than `MAX_EVENTS` were emitted between its polls |
| TaskStores.TaskStore.Start | cep/src/task.rs:153-188 | drops expired tasks, refuses exactly when the principal has as many running as allowed, else stores a working task with the time asked for, as far as allowed |
| TaskStores.TaskStore.Emit | cep/src/task.rs:125-134 | the event step: numbers the event and drops the oldest beyond `MAX_EVENTS` |
| TaskStores.TaskStore.Finish | cep/src/task.rs:192-207 | the finish step: a cancelled task stays cancelled, whatever the work returned |
| TaskStores.TaskStore.Cancel | cep/src/task.rs:249-261 | cancels the principal's own running task, or says that there is none or that it has ended |
| TaskStores.TaskStore.Get | cep/src/task.rs:218-222 | the owner's view field by field, with the kept events after the cursor and the number emitted; not found if and only if there is no such task of this principal that has not expired |
| TaskStores.TaskStore.ReadResult | cep/src/task.rs:226-247 | one look at the result: cancelled, the outcome, still running, or no such task |
| Notes.FoldIs | agents/src/memory/notes.rs:163-172 | of any file the newest line of each note is kept, in order of number |
| Notes.FoldWritten | agents/src/memory/notes.rs:211-216 | a file as the engine writes it reads as it stands |
| Notes.RetainIs | agents/src/memory/notes.rs:220-226 | a write drops exactly the dead notes older than the days of history |
| Notes.RetainMeans | agents/src/memory/notes.rs:218-226 | a write keeps every note that is not superseded, invalidated or moved, and of these the ones that ended within the days of history |
| Notes.LiveSurvive | agents/src/memory/notes.rs:218-226 | a write never drops a live note and makes none live |
| Notes.NumberRemembered | agents/src/memory/notes.rs:218-259 | a write that adds a note leaves the number file at or above the note's number if and only if the note is not dead from the start with no history kept |
| Notes.UpdateChanges | agents/src/memory/notes.rs:459-495 | an update leaves id, scope, owner, text, user, kind, sources, author and start of the note alone; the note is live afterwards exactly when it was and no status is given, or when a live status is given and it is not a proposal to forget that this confirms |
| Notes.UpdateMeans | agents/src/memory/notes.rs:459-495 | an update field by field: what confirming a proposal settles, and what any other status does |
| Notes.ConfirmedReplacement | agents/src/memory/notes.rs:325-360 | proposing a newer text and confirming it makes the very note that replacing at once makes, but for the time of change, with scope, owner, user, kind and pin of the old one, and the same live notes |
| NoteRuns.AfterKeeps | agents/src/memory/notes.rs:218-507 | every operation keeps the file ascending with all numbers up to the one beside it, which grows by one exactly when a note is added that the write does not drop at once |
| NoteRuns.NumberGivenAgain | agents/src/memory/notes.rs:246-259 | at two points of any run the next number is the same if and only if no operation between them took one: none added a note but such as were dead from the start with no history kept |
| NoteRuns.NumberGivenTwice | agents/src/memory/notes.rs:218-259 | two notes added dead with no history get the same number |
| NoteRuns.ConfirmedForget | agents/src/memory/notes.rs:450-507 | confirming a proposal to forget a note, on any file: it ends if and only if the note is live in the file, and otherwise stays proposed naming nothing |
| NoteRuns.OrphanStep | agents/src/memory/notes.rs:284-507 | a proposal to forget that names nothing stays so under an operation if and only if that does not turn it down or otherwise set it to a status that is neither live nor proposed, or mark it as moved |
| NoteRuns.OrphanStays | agents/src/memory/notes.rs:284-507 | so it stays through every run without such an operation, however often it is confirmed |
| NoteRuns.OrphanReached | agents/src/memory/notes.rs:362-507 | from an empty file, a note added, proposed to be forgotten and forgotten at once, and then the proposal confirmed: it names nothing |
| NoteStores.NoteStore.Write | agents/src/memory/notes.rs:218-244 | leaves exactly the surviving notes in their order, and the highest number of them or the one there was, whichever is more |
| NoteStores.NoteStore.AddWith | agents/src/memory/notes.rs:284-323 | adds one note with the given fields under the number after the one beside the file and changes no other; the number beside the file is then the note's, unless the note is dead from the start with no history kept |
| NoteStores.NoteStore.Replace | agents/src/memory/notes.rs:325-360 | swaps the live note named for a new one with its scope, owner, user, kind and pin, the trimmed new text, and the old one's number as superseded; proposed, it names that as what it is about and changes no live note; nothing at all when there is no such live note |
| NoteStores.NoteStore.Forget | agents/src/memory/notes.rs:362-393 | removes exactly the live note named, or adds a proposal with its scope, owner, text, user, kind and pin that names it and changes no live note |
| NoteStores.NoteStore.ProposeForFact | agents/src/memory/notes.rs:395-425 | adds a proposal under a number never given before; no live note changes |
| NoteStores.NoteStore.Retire | agents/src/memory/notes.rs:427-434 | in the list exactly the note named is marked, from now on |
| NoteStores.NoteStore.MarkMoved | agents/src/memory/notes.rs:436-448 | exactly the note named stops being live, with the file's path |
| NoteStores.NoteStore.Update | agents/src/memory/notes.rs:450-507 | changes exactly the note named, and confirming a proposal retires at most its live target; a confirmed proposal to forget a note ends if and only if that note was live, and else stays proposed naming nothing; says what was superseded or forgotten |
| Grants.ReplayIs | agents/src/lifecycle/grants.rs:38-58 | reading a log back gives each tool what the last record about it leaves, and touches no other chat |
| Grants.RunDescribes | agents/src/lifecycle/grants.rs:38-86 | through every run of grants, checks, listings, revokes, deletions and restarts in order of time: a grant that was lost is not held, and for every other key what is held agrees with the chat's log |
| Grants.AskTellsLog | agents/src/lifecycle/grants.rs:60-79 | after any run from any logs a check answers yes if and only if the log alone says so at that time and the tool's grant was not lost to an earlier grant of another tool that came before the log was read back |
| Grants.RestartChangesLost | agents/src/lifecycle/grants.rs:38-79 | after any run, a restart with any new clock changes a later answer if and only if the log allows the tool then and its grant was lost |
| Grants.NothingLost | agents/src/lifecycle/grants.rs:34-66 | nothing is lost in runs where each grant comes to a chat asked about, listed or revoked from since the last restart, nor in runs from empty logs without a restart |
| Grants.GrantFirst | agents/src/lifecycle/grants.rs:60-66 | a grant before the log was read back keeps agreement if and only if the log had no other grant running |
| Grants.GrantFirstLoses | agents/src/lifecycle/grants.rs:60-79 | granted, restarted, another tool granted first: the log allows the first tool and the check says no |
| Grants.GrantStore.Replay | agents/src/lifecycle/grants.rs:38-58 | the loop over records computes the replayed grants and marks the chat as read back |
| Grants.GrantStore.Grant | agents/src/lifecycle/grants.rs:60-66 | the grant runs for the minutes asked for, 60 by default, between 1 and 1440, which it returns |
| Grants.GrantStore.Allowed | agents/src/lifecycle/grants.rs:68-79 | true exactly for a grant that has not run out; one that has is removed |
| Grants.GrantStore.Revoke | agents/src/lifecycle/grants.rs:81-86 | removes the chat's grants, or one tool's, and no others; the count is positive exactly when something changed |
| Grants.GrantStore.Of | agents/src/lifecycle/grants.rs:88-98 | the chat's running grants, each once, sorted by tool, with the minutes left rounded up |

## Left out

- SHA-256: a digest is the canonical text itself, and a blob's reference holds its text, so that two texts never collide is taken for granted.
- UUIDs: an id is a parameter that was not used before.
- zstd: a closed segment holds the bytes of the open one; `rotate` is one step, and so are a delete of a chat and the notes' two-file write, so crashes inside these are not modelled.
- Blobs: the limit of 8 KiB counts the model's characters, so in transcripts a text outside ASCII is moved earlier by the engine than here; references that are no references and crashes between a blob and its event are not modelled.
- serde: events are read by a reader of the compact form the engine writes, with its fields in the engine's order; JSON with spaces, other field orders, `\u` pairs beyond the basic plane and numbers other than as printed tokens are not modelled. Keys keep the order of the map they are in.
- Failed reads and writes, and chat folder names that collide. Of edits of a log from outside, what shared reads and a following append from any cached size make of them; the numbers an append then gives, which go on from the cached one, are not compared with the edited files.
- Machine integers: counts, sizes and times are unbounded, so overflow is not modelled; `f32` scores are reals, without NaN and signed zero.
- `usize` positions: the slot list of the transcript is grown to any position a log names.
- Unicode: lower-casing and the hash of a message key are parameters (`Library`); Files are sequences of bytes, transcripts sequences of characters.
- The wording of planner reasons: a reason is a value with its rank and its figures.
- `MemStore`'s locks: each operation is one step.
- Waiting: `tasks.result` and an approval's waiter look again instead of being woken; timeouts and task listing (`TaskStore::list`) are not part of this model.
- Calls.Call.CheckPath: the path is given resolved, since canonicalizing it reads the file system; the wording of its errors is left out.
- Note ids: a note is named by its number, so the spellings `n:7`, `n7` and `7` are one; `similar`, `applies_to` and the word matching are not modelled. Times of notes are whole seconds, and one clock reading serves a whole operation.
- Grants: the event that logs a grant or a revoke carries the time of the step itself; wall and steady clock advance together.
- JsonlStores.JsonlStore.Append: an append that closes a segment needs fewer than 9,999 closed ones, since beyond that the names do not sort in creation order (`Folders.NamesSortInCreationOrder` shows where it ends). The segment size is positive, as it is for every store the engine makes.
- Calls.Call.RequireApproval: the object's method runs alone; interleavings of clones are the state machine of `Calls`.
- Terminal UI, HTTP handlers, installers, processes, policy lists and the inference engine itself.
