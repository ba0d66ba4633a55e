# Task-controller verification

The controller owns the state of task files on disk: a frontmatter map and a markdown body.
Agent results, update, increment, complete and create commands, a planning-retry gate and a
vault scanner all write the same files, and requests can be redelivered or cut off half way.
This project models those writers in Dafny and proves what every run of them keeps.

`dafny verify dfyconfig.toml` checks everything.

| file | what it models |
|---|---|
| `Records.dfy` | values, frontmatter, the accessors, the assignee and stamp helpers |
| `BodyMerge.dfy`, `Escalation.dfy` | bodies as sections, the section merge, escalation sections |
| `FrontmatterMerge.dfy` | the field-ownership merge and its audit |
| `ResultWriter.dfy`, `ResultEffect.dfy` | a result write, whole runs of result writes, and what a write leaves under every key |
| `UpdateCommand.dfy` | the update command: PUT, then PATCH, cut off and redelivered |
| `PlanningRetry.dfy`, `CompleteTask.dfy` | two protocols as state machines over their requests |
| `Writers.dfy` | all writers together, one serialised write at a time |
| `PathIndex.dfy` | the identifier index, the lookup through it, create bookkeeping |
| `VaultScan.dfy`, `VaultScanner.dfy` | a scan cycle as a function, and the scanner object that performs it |
| `ScanEffect.dfy` | when a file is reported, reset, repaired or swept, and what it then says |
| `ScanIdentity.dfy`, `ScanQuiescence.dfy` | unique identifiers, and silence from the third cycle on |
| `ScanBound.dfy`, `ScanChain.dfy`, `ScanDuplicates.dfy` | a bound for all settings and files, and the two ways the third cycle is not silent |
| `IdentifierRepair.dfy`, `RepairText.dfy`, `FileFormat.dfy` | key removal, last-wins view, repair and extraction on file text |
| `RepairCodec.dfy` | the scanner's assumptions on stripping and injecting, met by that surgery |
| `Calendar.dfy`, `PeriodTokens.dfy`, `Supersede.dfy` | dates, ISO weeks, period tokens, ranking and look-back window |
| `Coalescing.dfy` | the escalation ping window under interleaved claims and sends |
| `Text.dfy` | lines and trimming |

## Where code and comments differ

The model follows the code. Each difference is a proved statement.

- Body merge glues a heading onto unterminated text before it. `BodyMerge.MergeIsSectionMerge`
  gives the exact condition (every piece but the last ends in a newline) and
  `BodyMerge.GluedMerge` two bodies for which it fails.
- The reassignment key is said never to reach the disk. It does exactly when there is no
  assignee to re-route (`FrontmatterMerge.DeclarationLands`).
- A negative `planning_retry_count` is clamped by the lookup and not by the write, so such a
  record is neither retried nor escalated (`PlanningRetry.ProgressExact`).
- The `retry 3/3:` idempotency check never sees the list item the gate writes; only the phase
  holds off a second escalation (`PlanningRetry.EscalationMarkUnseen`, `PlanningRetry.EscalatesAgain`).
- An update naming its own `previous_assignee` can be undone by its redelivery;
  `UpdateCommand.RedeliveryExact` says exactly when, `UpdateCommand.RedeliveryForgets` shows one.
- An increment of `status` can reopen a finished record that an agent still owns in review.
  `Writers.IncrementExact` says exactly when an increment breaks the parked-record doctrine.
- An increment counts an absent or non-numeric `max_triggers` as 0 while the effective cap is
  then 3. It raises the effective cap exactly when it adds more than 0 to a numeric cap, or more
  than 3 where there is none (`Writers.IncrementRaisesExact`); smaller increments lower it.
- An index hit can differ from the walk when the hit is not listed or its recorded predecessor
  does not decode as text (`PathIndex.LookupRefinesWalk`, `PathIndex.LookupDiffers`).
- The scanner need not be silent from the third cycle on. It is when every file is settled
  already or can be injected into and, if its counter is due for a reset, has no duplicate keys
  (`ScanQuiescence.Quiescence`). Where nothing can be injected, a chain of stale bookings takes a
  cycle per file (`ScanChain.ThirdCycleReports`); a due reset that fails on duplicate keys delays
  a repair (`ScanDuplicates.LateRepairReports`). In every case at most three cycles per file, and
  one for deletions, report anything (`ScanBound.ReportsAreFew`).
- A send that fails after its own window can free somebody else's slot
  (`Coalescing.FailExact`, `Coalescing.LateFailureSteals`).
- Superseding is documented for strictly older instances, but equal ordinals are included.
  `Supersede.ClosesOnlyOlder` says exactly when only older ones are closed, and
  `Supersede.SameWeekCloses` gives two weekdays of one week that close each other.
- Ordinals of impossible dates, hours, months and weeks carry over and tie with valid ones: the
  order is the calendar's exactly for valid periods (`PeriodTokens.OrderedIffValid`).
- The writers' body reader and the scanner's disagree on some files (`FileFormat.BodiesAgree`).

## Assumptions

- Status and phase accessors belong to a library that is not part of this model. They are the
  parameter `Library`; the stickiness results assume phases are canonical. The default cap is 3.
- Floating-point values are real numbers; rounding is not modelled.
- SHA-256 is injective and never zero, so a stored hash is the hashed text, or None for the
  sentinel. Minted identifiers are new.
- Writes to one record are atomic and serialised; PUT and PATCH are separate requests.
- The laws required of YAML printing and parsing, of the library's section edit and of scalar
  decoding are predicates (`ScanQuiescence.Lawful`, `UpdateCommand.LawfulEdit`,
  `PathIndex.Decoder.Lawful`), required only where used.
- The YAML parser finds keys on the lines where the block mapping has them (`RepairText.Reads`).
- Timestamps and, where a section quotes them, agent names are one line.

## Model

| member | source | states |
|---|---|---|
| BodyMerge.SplitBodyText | pkg/result/result_writer.go:1068-1104 | the splitting loop computes the section split of the text |
| BodyMerge.SplitLossless | pkg/result/result_writer.go:1068-1104 | preamble and sections concatenate to the input |
| BodyMerge.SplitAppend | pkg/result/result_writer.go:1068-1104 | splitting distributes over appending to newline-terminated text |
| BodyMerge.SplitShape | pkg/result/result_writer.go:1068-1116 | every split is well formed and separable; splits of terminated text have terminated pieces |
| BodyMerge.RenderSplitExact | pkg/result/result_writer.go:1068-1116 | splitting undoes rendering exactly for well-formed separable splits |
| BodyMerge.IndexByName | pkg/result/result_writer.go:1129-1142 | incoming sections by name with the last content, names in first-seen order |
| BodyMerge.MergeBody | pkg/result/result_writer.go:1125-1174 | the assembled string is the text of the section-level merge |
| BodyMerge.MergeIsSectionMerge | pkg/result/result_writer.go:1125-1174 | splitting the merged text gives the merged section list, always for terminated bodies and otherwise exactly when no heading is glued |
| BodyMerge.MergeSettles | pkg/result/result_writer.go:1125-1174 | after a merge every incoming name is present, only with its last content |
| BodyMerge.LastNamedIsLast | pkg/result/result_writer.go:1129-1137 | the section that wins is the one behind which its name does not recur |
| BodyMerge.PreambleMerged | pkg/result/result_writer.go:1139-1145 | the incoming preamble wins exactly when something in it is visible |
| BodyMerge.SectionsMerged | pkg/result/result_writer.go:1147-1174 | on-disk sections keep places, names and untouched text; behind them stand the missing incoming names in first-seen order |
| BodyMerge.FirstSeenOrder | pkg/result/result_writer.go:1130-1137 | first-seen order is the order of first occurrences |
| BodyMerge.HeadingNameExact | pkg/result/result_writer.go:1109-1116 | a heading is a line starting with two hashes and a space, named without its LF or CRLF |
| BodyMerge.MergeIdempotent | pkg/result/result_writer.go:1125-1174 | merging the same body again changes nothing, whenever no heading was glued |
| BodyMerge.TerminatedNeverGlues | pkg/result/result_writer.go:1125-1174 | no heading is glued when both bodies end in a newline |
| BodyMerge.GluedSections | pkg/result/result_writer.go:1149-1172 | an unterminated section swallows the new one, and a redelivery appends it a second time |
| BodyMerge.GluedMerge | pkg/result/result_writer.go:1149-1172 | two concrete bodies for which this happens |
| Escalation.ContainsIffVisible | pkg/result/result_writer.go:1045-1054 | the substring guard sees exactly the sections whose heading line stands alone behind other text |
| Escalation.SplitSectionText | pkg/result/result_writer.go:999-1038 | an escalation text splits into one section under its heading |
| Escalation.TriggerSectionSays | pkg/result/result_writer.go:1026-1038 | its lines give the time, the count, the cap and the owner, in that order |
| Escalation.RetrySectionSays | pkg/result/result_writer.go:999-1007 | its lines give the time, the attempts and the owner |
| Escalation.DigitsRead | pkg/result/result_writer.go:1026-1038 | a printed count reads back as the number |
| Escalation.DecimalReads | pkg/result/result_writer.go:1026-1038 | a negative count is printed as its magnitude behind a minus sign |
| Escalation.MergeKeepsOnly | pkg/result/result_writer.go:1125-1174 | a merge without the heading keeps the one section in its place |
| FrontmatterMerge.MergeFrontmatter | pkg/result/result_writer.go:1307-1367 | the guards applied in turn yield the pointwise ownership merge and the audit in guard order |
| FrontmatterMerge.ApplyControllerOwned | pkg/result/result_writer.go:1307-1367 | trigger counter, scope and cap keep their on-disk value or absence |
| FrontmatterMerge.ApplyTerminalStatus | pkg/result/result_writer.go:1307-1367 | a terminal status on disk survives, and a differing one is reported |
| FrontmatterMerge.ApplyOperatorPinned | pkg/result/result_writer.go:1376-1403 | the pinned cluster keeps its on-disk value or absence, reported when it differs |
| FrontmatterMerge.ApplyAssignee | pkg/result/result_writer.go:1415-1507 | assignee, task type and declaration settle as the routing guard decides |
| FrontmatterMerge.ApplyOperatorOwned | pkg/result/result_writer.go:1415-1458 | assignee, previous assignee, task type and declaration are settled |
| FrontmatterMerge.ApplyAccumulated | pkg/result/result_writer.go:1520-1548 | numeric counters are summed, others keep the disk value |
| FrontmatterMerge.AuditExact | pkg/result/result_writer.go:1307-1548 | a value is lost and not exempt exactly when one decision names it, and its kept value is what the merged map holds |
| FrontmatterMerge.AbsentKeysStay | pkg/result/result_writer.go:1307-1458 | a key the payload does not name stays as it is on disk |
| FrontmatterMerge.NewKeysLand | pkg/result/result_writer.go:1307-1458 | a key the disk does not name lands, unless controller-owned, pinned or a used-up declaration |
| FrontmatterMerge.SharedKeys | pkg/result/result_writer.go:1307-1548 | which side wins each key both name |
| Records.ValueEqualExact | pkg/result/result_writer.go:1593-1620 | values are equal when they are the same number, whole or not, or the very same value |
| Records.IntOfExact | pkg/command/task_increment_frontmatter_executor.go:202-215 | an integer is read by truncating toward zero, and defaulted where there is no number |
| FrontmatterMerge.RoutingTupleTogether | pkg/result/result_writer.go:1479-1496 | a rejected assignee keeps the on-disk task type with it |
| FrontmatterMerge.DeclarationLands | pkg/result/result_writer.go:1422-1443 | the reassignment key reaches the disk exactly when no assignee is re-routed |
| ResultWriter.WriteResult | pkg/result/result_writer.go:707-787 | the written record, the discards, and whether an owner was taken away |
| ResultEffect.LiveWrite | pkg/result/result_writer.go:707-908 | what a write leaves under every key of a live record and in its body, on disk and payload alone |
| ResultEffect.FinishedWrite | pkg/result/result_writer.go:789-800 | a finished record is the plain merge |
| ResultEffect.UncappedWrite | pkg/result/result_writer.go:789-908 | with neither budget used up the latest phase, the merged body and the owner stand, unless that phase waits for a human |
| ResultEffect.SpawnIsUsedUp | pkg/result/result_writer.go:789-837 | a spawn notification is removed and is no attempt |
| ResultEffect.RetryCapReached | pkg/result/result_writer.go:891-908 | a live record out of retries ends without an agent, its owner on record, with one Retry section |
| ResultWriter.OwnershipRun | pkg/result/result_writer.go:1307-1403 | no sequence of results changes trigger_count, trigger_scope, max_triggers or cluster |
| ResultWriter.TerminalRun | pkg/result/result_writer.go:1307-1367 | a terminal status is absorbing under result writes |
| ResultWriter.CounterConservation | pkg/result/result_writer.go:1520-1548 | a numeric counter ends at its start plus the sum of all delivered numbers |
| ResultWriter.FirstEscalation | pkg/result/result_writer.go:864-881 | the first write at the cap adds exactly one section and no agent owns the record |
| ResultWriter.StickyStep | pkg/result/result_writer.go:789-881 | one further result keeps the one section, the phase and the missing owner |
| ResultWriter.StickyRun | pkg/result/result_writer.go:789-881 | so does any sequence of them |
| UpdateCommand.BuildUpdatePatch | pkg/command/task_update_frontmatter_executor.go:238-285 | the patch holds exactly the wanted values that are new or differ |
| UpdateCommand.PatchIsMerge | pkg/command/task_update_frontmatter_executor.go:238-285 | the patched record agrees key by key with the whole-record merge, up to int and float |
| UpdateCommand.GuardedExact | pkg/command/task_update_frontmatter_executor.go:373-408 | a cap on disk stands, a new one is let in up to 3, a scope comes only with a count, every other named field lands |
| UpdateCommand.UpdateEffect | pkg/command/task_update_frontmatter_executor.go:238-285 | what the patched record holds under every key |
| UpdateCommand.EscalationExact | pkg/command/task_update_frontmatter_executor.go:418-440 | the update escalates exactly when the guarded record has used up its triggers |
| UpdateCommand.AttemptEffect | pkg/command/task_update_frontmatter_executor.go:164-225 | a full attempt edits the body and appends a section exactly when it escalates and none is shown |
| UpdateCommand.DoctrinesPointwise | pkg/command/task_update_frontmatter_executor.go:238-285 | what the cap, the review chokepoint, the stamp and the stale job leave under each key |
| UpdateCommand.RedeliveryExact | pkg/command/task_update_frontmatter_executor.go:164-285 | a second delivery changes nothing, except exactly when it would forget the owner it cleared |
| UpdateCommand.RedeliveryForgets | pkg/command/task_update_frontmatter_executor.go:238-285 | a command and a record for which the second delivery overwrites the recorded owner |
| UpdateCommand.RetriesEscalateOnce | pkg/command/task_update_frontmatter_executor.go:164-225 | after any cut-off attempts the body holds one escalation section, naming the assignee the first attempt found |
| UpdateCommand.RetryEquivalence | pkg/command/task_update_frontmatter_executor.go:164-225 | cut-off attempts and one full attempt leave what a single attempt would have left |
| UpdateCommand.UpdateKeepsCap | pkg/command/task_update_frontmatter_executor.go:324-408 | an update never raises the effective trigger cap |
| PlanningRetry.StepKeepsInv | pkg/command/planning_retry.go:87-385 | every lookup, write, failure or phase change keeps the counter invariant |
| PlanningRetry.PlanningRetryBound | pkg/command/planning_retry.go:87-385 | over all deliveries the counter moves by one per bump to at most three, an identifier bumps once, and one escalation and comment follow at most |
| PlanningRetry.GateOnlyInPlanning | pkg/command/planning_retry.go:220-385 | the gate leaves a task outside planning untouched |
| PlanningRetry.ProgressExact | pkg/command/planning_retry.go:116-119 | an undisturbed delivery changes the record exactly when the count is not negative and its line is new |
| PlanningRetry.EscalationEffect | pkg/command/planning_retry.go:329-385 | phase human_review, no agent as owner, a cleared owner on record, nothing else but the vault stamp, and the line exactly when no mark is seen |
| PlanningRetry.BumpEffect | pkg/command/planning_retry.go:220-283 | exactly when it happens; count plus one, new identifier, still planning, nothing else but the vault stamp, and the line |
| PlanningRetry.HandleExact | pkg/command/planning_retry.go:87-158 | counts 0 to 2 bump, from 3 on the task goes to a human |
| PlanningRetry.DeliveryExact | pkg/command/planning_retry.go:87-119 | a delivery proceeds exactly when it names the record's identifier and the task is in planning |
| PlanningRetry.ProgressLines | pkg/command/planning_retry.go:387-395 | the lines of the body, then a heading if none is mentioned, then the new line |
| PlanningRetry.OneProgressHeading | pkg/command/planning_retry.go:387-395 | one Progress heading where none was mentioned, else as many as before |
| PlanningRetry.EscalationMarkUnseen | pkg/command/planning_retry.go:353-369 | appending the escalation item never satisfies the idempotency check |
| PlanningRetry.EscalatesAgain | pkg/command/planning_retry.go:329-385 | back in planning, an escalated record is escalated and commented on again |
| CompleteTask.HasResolutionSection | pkg/command/task_complete_task_executor.go:208-216 | the loop finds a Resolution heading exactly when one is there |
| Text.TrimExact | pkg/command/task_complete_task_executor.go:208-216 | trimming takes away spaces only and leaves none at either end |
| CompleteTask.ResolutionAddsOne | pkg/command/task_complete_task_executor.go:192-204 | the PUT body has one Resolution more than the body it was made from |
| CompleteTask.ResolutionSays | pkg/command/task_complete_task_executor.go:192-204 | the whole body comes first, then verdict, SHA if any, and time |
| CompleteTask.CloseEffect | pkg/command/task_complete_task_executor.go:168-189 | status completed, phase done, both dates, the SHA if any, the vault stamp, nothing else |
| CompleteTask.ClosedIsLeftAlone | pkg/command/task_complete_task_executor.go:125-165 | a closer that finds a Resolution writes none and succeeds |
| CompleteTask.ClosesInFour | pkg/command/task_complete_task_executor.go:125-165 | what an undisturbed closer leaves after its four requests |
| CompleteTask.StepKeepsInv | pkg/command/task_complete_task_executor.go:125-165 | every request, landed or not, keeps the closing invariant |
| CompleteTask.CloseTaskSafe | pkg/command/task_complete_task_executor.go:125-216 | no interleaving of closers makes two Resolutions or one on an open task, and success means both are in place |
| Writers.WriteKeepsDoctrine | pkg/result/result_writer.go:980-989 | each write keeps agents from owning a live record in human review, except exactly a reopening increment |
| Writers.ParkedRecordDoctrine | pkg/result/result_writer.go:789-837 | the doctrine holds throughout an interleaving of all writers exactly when no increment in it reopens the record it meets |
| Writers.IncrementExact | pkg/command/task_increment_frontmatter_executor.go:142-169 | an increment breaks the doctrine exactly when it overwrites the terminal status of an agent's record in review |
| Writers.IncrementEffect | pkg/command/task_increment_frontmatter_executor.go:142-169 | what an increment leaves under every key, and when it takes the record from its owner |
| Writers.IncrementingStatusBreaksDoctrine | pkg/command/task_increment_frontmatter_executor.go:142-169 | a record whose status increment breaks the doctrine |
| Writers.IncrementRaisesExact | pkg/command/task_increment_frontmatter_executor.go:142-215 | an increment of max_triggers raises the effective cap exactly above 0, or above the default where the record names no number |
| Writers.IncrementMovesCap | pkg/command/task_increment_frontmatter_executor.go:142-215 | one increment raises a named cap and lowers an unnamed one |
| Writers.WriteKeepsCap | pkg/command/task_update_frontmatter_executor.go:324-408 | a write raises the effective cap exactly when it is such an increment |
| Writers.CapNeverRises | pkg/command/task_update_frontmatter_executor.go:324-408 | the effective cap never rises along a sequence of writes exactly when none of them is such an increment |
| PathIndex.TaskIndex.Resolve | pkg/scanner/vault_scanner.go:481-505 | missing, the one path, or the duplicate error |
| PathIndex.TaskIndex.Record | pkg/scanner/vault_scanner.go:511-525 | replaces a single path, never a known duplicate |
| PathIndex.TaskIndex.RecordDuplicate | pkg/scanner/vault_scanner.go:534-555 | adds a path beside the known ones |
| PathIndex.Walk | pkg/result/result_writer.go:430-509 | no match, the one match, or the first two, and whether it was by predecessor |
| PathIndex.FindTaskFilePath | pkg/result/result_writer.go:365-550 | the lookup's answer and what it leaves in the index |
| PathIndex.LookupIsSound | pkg/result/result_writer.go:365-509 | however stale the index, a returned path matches now |
| PathIndex.LookupRefinesWalk | pkg/result/result_writer.go:365-509 | with at most one match the indexed lookup equals the walk exactly when a hit is listed and decodes |
| PathIndex.LookupDiffers | pkg/result/result_writer.go:365-413 | files that the index finds and the walk misses |
| PathIndex.LookupRecords | pkg/result/result_writer.go:540-550 | only a unique match by the current identifier is recorded |
| PathIndex.LookupExact | pkg/result/result_writer.go:365-413 | known twice is refused, known once and confirmed is found, everything else is walked for |
| PathIndex.LookupLearns | pkg/result/result_writer.go:540-550 | a unique walk match by the current identifier is in the index afterwards |
| PathIndex.WalkIsSound | pkg/result/result_writer.go:430-522 | a walked path names a document whose identifier or recorded predecessor reads as the one asked for |
| PathIndex.WalkIsComplete | pkg/result/result_writer.go:430-522 | every listed document that reads so is seen |
| PathIndex.RecordCreatedTaskPath | pkg/command/task_create_task_executor.go:413-463 | what a create leaves in the index, for every presence answer |
| PathIndex.NoSilentMisroute | pkg/command/task_create_task_executor.go:226-463 | after a create the identifier resolves to that file or a duplicate, except exactly when presence could not be told |
| PathIndex.CreateExact | pkg/command/task_create_task_executor.go:413-463 | the paths known after a create, for every presence answer; other identifiers untouched |
| PathIndex.LivePathStays | pkg/command/task_create_task_executor.go:413-463 | a live path stays known, so the identifier is a reported duplicate |
| PathIndex.PresenceExact | pkg/command/task_create_task_executor.go:226-278 | when presence is known, and when it cannot be told |
| PathIndex.DuplicateStays | pkg/scanner/vault_scanner.go:511-555 | no sequence of records hides a known duplicate |
| VaultScanner.VaultScanner.IsIdentifierUnique | pkg/scanner/task_identifier.go:41-48 | no other path is booked under the identifier |
| VaultScanner.VaultScanner.CollectDeleted | pkg/scanner/vault_scanner.go:883-907 | drops exactly the vanished paths and reports their non-empty identifiers |
| VaultScanner.VaultScanner.ProcessFile | pkg/scanner/vault_scanner.go:561-787 | one file's new bookkeeping, text and report |
| VaultScanner.VaultScanner.EscalateCappedIdleTasks | pkg/scanner/capped_idle.go:79-219 | sweeps every candidate once, in any order, and fails exactly when a sweep failed |
| VaultScanner.VaultScanner.PublishIndex | pkg/scanner/vault_scanner.go:370-381 | the index lists exactly the booked paths of each identifier, without repeats |
| VaultScanner.VaultScanner.ScanFiles | pkg/scanner/vault_scanner.go:293-349 | a cycle: bookkeeping, files, report (files written by processing or sweep), write failure and published index |
| ScanEffect.ReportedExactly | pkg/scanner/vault_scanner.go:640-716 | a file that is news is reported exactly when acceptable, not to be reset, with a status, and owned or out of its booked phase |
| ScanEffect.ReportedInCycle | pkg/scanner/vault_scanner.go:293-349 | the same for a listed file of a cycle |
| ScanEffect.AcceptedExactly | pkg/scanner/vault_scanner.go:640-716 | what is remembered of an accepted file |
| ScanEffect.ResetExactly | pkg/scanner/vault_scanner.go:837-881 | a returned task views as before with trigger_count 0, its body untouched; one that cannot be rewritten is left alone |
| ScanEffect.ResetOnlyReturned | pkg/scanner/vault_scanner.go:561-716 | no other file is reset |
| ScanEffect.RepairExactly | pkg/scanner/vault_scanner.go:749-787 | an unacceptable file is repaired, halted or left, with the predecessor recorded when it is one |
| ScanEffect.NoNews | pkg/scanner/vault_scanner.go:561-640 | an unreadable, remembered or unparsable file is left as it is |
| ScanEffect.SweptExactly | pkg/scanner/capped_idle.go:101-219 | exactly which files are swept; status hold, no owner, the owner on record, nothing else, and a section |
| ScanEffect.SweptOnceNamed | pkg/scanner/capped_idle.go:175-219 | the section is there once if its heading was not |
| ScanEffect.ScannerWrites | pkg/scanner/capped_idle.go:175-219 | the scanner's writes are the writers' counter reset and sweep |
| ScanEffect.DeletedExactly | pkg/scanner/vault_scanner.go:883-907 | which identifiers are reported deleted and which bookings are forgotten |
| ScanIdentity.CycleKeepsUnique | pkg/scanner/vault_scanner.go:293-349 | a cycle over arbitrary files keeps identifiers unique in the bookkeeping |
| ScanIdentity.UniqueRun | pkg/scanner/vault_scanner.go:561-787 | so does any run of cycles with arbitrary edits and failures between them |
| ScanIdentity.BookedNeverReminted | pkg/scanner/vault_scanner.go:640-687 | a file still carrying its booked identifier is not repaired and stays booked |
| ScanIdentity.PublishedResolves | pkg/scanner/vault_scanner.go:370-505 | resolving a published index is exact |
| ScanIdentity.IndexAgreement | pkg/scanner/vault_scanner.go:370-505 | after any run Resolve reports no duplicate and finds p exactly when p is booked under the identifier |
| ScanQuiescence.CycleKeepsBookOk | pkg/scanner/vault_scanner.go:561-787 | a stored hash always describes the text it hashed, or a halted repair |
| ScanQuiescence.RunSettles | pkg/scanner/vault_scanner.go:561-787 | two cycles bring every file to where only a silent re-read is left |
| ScanQuiescence.ProcessAny | pkg/scanner/vault_scanner.go:561-787 | processing settles a file or leaves it silently as it is |
| ScanQuiescence.Quiescence | pkg/scanner/vault_scanner.go:293-349 | left alone, from the third cycle on nothing is written, changed or deleted, when every file is settled by one processing |
| ScanQuiescence.FiresAtMostOnce | pkg/scanner/capped_idle.go:79-219 | over a run a file is repaired or reset at most once, in the first cycle, and swept at most once |
| ScanBound.FileIsNoisyThrice | pkg/scanner/vault_scanner.go:561-787 | left alone, with any settings, a file is written or reported in at most three cycles |
| ScanBound.ReportsAreFew | pkg/scanner/vault_scanner.go:293-349 | left alone, with any settings and files, at most three cycles per file and one more report anything |
| ScanChain.ThirdCycleReports | pkg/scanner/vault_scanner.go:561-716 | where nothing is injected, reachable bookkeeping of three files for which the third cycle still reports a change |
| ScanDuplicates.LateRepairReports | pkg/scanner/vault_scanner.go:640-787 | with injection on, reachable bookkeeping of two files, one with duplicate keys, for which the third cycle still reports a change |
| IdentifierRepair.MarkValueSpan | pkg/scanner/task_identifier.go:161-192 | marks exactly the lines up to the last deeper one, blanks inside included |
| IdentifierRepair.IndentExact | pkg/scanner/task_identifier.go:186-192 | the indent is the run of spaces and tabs at the start |
| IdentifierRepair.BlankExact | pkg/scanner/task_identifier.go:181-183 | a line is blank when nothing but its indent is left of it |
| IdentifierRepair.RemoveKeyLines | pkg/scanner/task_identifier.go:112-135 | keeps, in order, exactly the lines outside the keys and their values |
| IdentifierRepair.RemovalIsExact | pkg/scanner/task_identifier.go:112-178 | on a block mapping the result is the mapping without the key; separators, comments and everything from the closing delimiter on stay |
| IdentifierRepair.DeduplicateFrontmatter | pkg/scanner/frontmatter.go:16-52 | each key once, in first-seen order, with its last value; duplicates reported exactly when there are any |
| RepairText.FrontmatterClosingIndex | pkg/scanner/task_identifier.go:139-149 | the first delimiter line behind an opening one, or none |
| RepairText.RemovalOnText | pkg/scanner/task_identifier.go:112-135 | removal on file text gives the text of the smaller mapping |
| RepairText.InjectOnText | pkg/scanner/task_identifier.go:195-207 | injection puts the key first, with the file's line ending |
| RepairText.InjectedText | pkg/scanner/task_identifier.go:195-207 | whatever follows the opening line, the injected line goes between, with the file's line ending |
| RepairText.UnreadableStays | pkg/scanner/task_identifier.go:112-122 | a file that cannot be read as a block mapping is left as it is, and nothing is injected without an opening line |
| RepairText.PrependSays | pkg/scanner/vault_scanner.go:803-828 | an injected key wins the last-wins view exactly when nothing behind it says otherwise |
| RepairText.RepairOnText | pkg/scanner/task_identifier.go:195-246 | repair of a block mapping's text is the text of the repaired mapping |
| RepairText.RepairedSays | pkg/scanner/vault_scanner.go:803-828 | the last-wins view then gives the minted identifier, the recorded predecessor, and every other key as before |
| RepairCodec.SurgeryConverges | pkg/scanner/vault_scanner.go:749-828 | stripping and injecting on a block mapping passes the convergence guard and keeps the owner |
| RepairCodec.FirstInjectionConverges | pkg/scanner/task_identifier.go:195-207 | so does a first injection |
| FileFormat.FrontmatterRoundTrip | pkg/result/result_writer.go:1624-1641 | a written file reads back exactly when the YAML has no later line starting with the delimiter; the scanner's body is then the written one |
| FileFormat.BodyRoundTrip | pkg/result/result_writer.go:1645-1662 | the body reads back exactly when the YAML has no later bare delimiter line |
| FileFormat.BodiesAgree | pkg/scanner/frontmatter.go:73-96 | writers and scanner see one body exactly when the first delimiter-like line is bare |
| FileFormat.Openings | pkg/scanner/frontmatter.go:73-84 | the opening line may end in LF or CRLF or be followed at once |
| Calendar.WeekYearLength | pkg/command/period_token_ranking.go:32-41 | consecutive week-1 Mondays are 364 or 371 days apart |
| Calendar.WeekOrder | pkg/command/period_token_ranking.go:32-41 | Mondays strictly follow (year, week) over all valid ISO weeks |
| Calendar.ThursdayRule | pkg/command/period_token_ranking.go:32-41 | the valid weeks of a year are exactly those whose Thursday lies in it (section 4.1.4 of ISO 8601:2004) |
| Calendar.DateOrder | pkg/command/period_token_ranking.go:49-107 | day numbers of valid dates are strictly monotone |
| Calendar.ValidIffNoCarry | pkg/command/period_token_ranking.go:49-107 | a day number stays in its month exactly for valid dates |
| Calendar.MonthStarts | pkg/command/period_token_ranking.go:49-107 | the days of a year before each month |
| PeriodTokens.OrdinalExact | pkg/command/period_token_ranking.go:49-107 | within a kind, ordinals order valid periods exactly as the calendar does |
| PeriodTokens.NormalPeriod | pkg/command/period_token_ranking.go:49-107 | every period, possible or not, has the ordinal of a valid one of its kind |
| PeriodTokens.OrderedIffValid | pkg/command/period_token_ranking.go:49-107 | ordinals compare a period with all valid ones of its kind as the calendar does exactly when it is valid |
| PeriodTokens.ImpossibleTies | pkg/command/period_token_ranking.go:49-107 | a day, a week, an hour and a month that tie |
| PeriodTokens.TokenRoundTrip | pkg/command/period_token_ranking.go:49-107 | the token of every writable period parses back to it |
| PeriodTokens.ParseExact | pkg/command/period_token_ranking.go:49-107 | a token is recognised exactly when it is the token of a writable period |
| PeriodTokens.OrdinalStarts | pkg/command/period_token_ranking.go:32-107 | the epoch is zero, days and hours have their length, and longer periods begin with their first day |
| Supersede.Rank | pkg/command/period_token_ranking.go:118-154 | a permutation of the recognised candidates with falling ordinals, equal ones by falling title |
| Supersede.RankableIgnoresOrder | pkg/command/period_token_ranking.go:131-146 | the same titles in another order give the same candidates, as often |
| Supersede.RankingUnique | pkg/command/period_token_ranking.go:131-154 | listings of the same titles in any order are ranked identically |
| Supersede.Collapse | pkg/command/task_create_task_executor.go:606-656 | closes, in rank order, exactly the closable candidates of the look-back window |
| Supersede.WindowIsMostRecent | pkg/command/task_create_task_executor.go:606-656 | every eligible candidate outside the window has an ordinal at most that of every one inside, and the window is full |
| Supersede.WindowSize | pkg/command/task_create_task_executor.go:606-656 | the window holds as many eligible candidates as there are, up to k |
| Supersede.ClosesTheMostRecent | pkg/command/task_create_task_executor.go:606-656 | with a look-back of one, of three older instances the most recent is closed |
| Supersede.ClosesOnlyOlder | pkg/command/task_create_task_executor.go:500-656 | only strictly older instances are closed exactly when no closable candidate of the window has the new ordinal |
| Supersede.SameWeekCloses | pkg/command/task_create_task_executor.go:606-656 | the Monday task of a week is closed by the Tuesday one |
| Coalescing.EscalationWindow.Claim | pkg/result/result_writer.go:277-290 | prunes the expired entries and grants exactly when the key is free |
| Coalescing.EscalationWindow.Release | pkg/result/result_writer.go:297-301 | the next claim of the key is granted whenever it comes, and every other key is answered as before |
| Coalescing.StepExact | pkg/result/result_writer.go:204-301 | a claim or a finished send keeps the protocol safe, except exactly a failing one that frees a live claim not its own |
| Coalescing.PingsAreSpaced | pkg/result/result_writer.go:204-301 | over every interleaving in which failing sends free only their own claims, two delivered pings of a key were claimed 30 minutes apart |
| Coalescing.TimelyIsFair | pkg/result/result_writer.go:204-301 | failing sends that end within their own window free only their own claims |
| Coalescing.ClaimsAndReleases | pkg/result/result_writer.go:277-301 | a claim is granted exactly when the key is free or 30 minutes old; suppressed claims extend nothing, a failed send frees its key and no other, all entries are young after a claim |
| Coalescing.FailExact | pkg/result/result_writer.go:297-301 | a failing send keeps the protocol safe exactly when the live entry of its key is its own claim |
| Coalescing.StealsFromAnother | pkg/result/result_writer.go:297-301 | the entry is not its own exactly when another ping still counts on the key |
| Coalescing.LateFailureSteals | pkg/result/result_writer.go:204-301 | a run that reaches such a state |
| Coalescing.StolenSlotPingsTwice | pkg/result/result_writer.go:204-301 | otherwise the next escalation pings too early |

## Left out

- Quiescence: requires every file to be settled by one processing; ThirdCycleReports and LateRepairReports show why, and ReportsAreFew is what holds without it.
- RunSettles: requires the same as Quiescence.
- FiresAtMostOnce: requires the same as Quiescence; without it FileIsNoisyThrice bounds all writes and reports of a file together.
- PingsAreSpaced: requires that failing sends free only their own claims; StepExact shows the requirement is needed.
- MergeIdempotent: covers every merge that glues no heading; a glued merge may or may not be stable, and GluedSections gives a family that is not.
- StickyStep: covers results whose body ends in a newline and does not carry the escalation heading; a result that carries it replaces the section.
- StickyRun: covers runs of the same results as StickyStep.
- FirstEscalation: covers newline-terminated bodies and one-line assignees.
- SplitSectionText: covers one-line items; a timestamp or name with a newline could smuggle in a heading of its own.
- ResolutionAddsOne: covers a one-line recovery SHA and timestamp, for the same reason.
- RemovalOnText: covers files read as block mappings; a region the parser cannot read as one is left unchanged by definition.
- InjectOnText: says what the mapping becomes; InjectedText covers the text of any file.
- RepairOnText: covers block mappings with unindented keys; flow mappings, indented roots and sequences indented like their key are what the convergence guard stops, and there PrependSays gives the condition.
- CounterConservation: sums are of real numbers, so floating-point rounding is not modelled.
- Rank: sorts by insertion where the source calls a library sort; SortedUnique shows that the result is the same.
- ScanFiles: reports changed and deleted tasks as sets, so the order of publication is not modelled; a rename is both, and no replay of events is claimed.
- Task creation through the API (`createThroughAPI`, `reuseExistingIdentifierTitle`): title conflicts and reuse; only the index bookkeeping after a create is modelled.
- The write that aborts a superseded task, and retirement of build-fix tasks.
- The index built once before the first scan, and trigger-only start-up.
- Cancellation inside loops: a cancelled cycle publishes nothing.
- Republishing of kept state, Kafka, HTTP clients, metrics, gauges, logging and comments on pull requests.
- The YAML grammar and the derivation of coalescing keys and period-token shapes by regular expression; shapes are recognised character by character instead.
- Message texts beyond their headings and the lines the checks look for, deeplinks and reason sanitising.
- The bodies of several escalation or Resolution lines are shortened; only headings, bullets and quoted values matter to the properties.
- Retry of a lookup that finds no file, vault mismatch checks of commands, and expiry filters.
