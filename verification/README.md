# A verified model of the Agentic Layer

Dafny models of the control-flow and data-transformation cores of the Agentic Layer, with proofs of what
they promise. Docker, AWS, GitHub, the language models, the store and the clock appear as inputs: every
result holds for whatever they answer and, for the concurrent parts, for every interleaving of the atomic
segments between two awaits.

| module | what it models |
|---|---|
| `DeliveryHub`, `ScanJobObject` | publishing scan events to sockets, replaying the retained log to late ones (`scan_jobs.py`) |
| `ScanRegistry`, `ScanSegments`, `ScanLife` | one job per project, eviction of settled jobs, the life of a job, of its coroutine and of its hub (`scan_jobs.py`) |
| `RemediationControl` | the approval-gated remediation controller (`remediation.py`) |
| `Findings`, `Grouping`, `CodeRootCauses`, `SupplyRootCauses`, `RootCauseOrder`, `RemediationBatches`, `BatchPlan` | the batch planner (`remediation.py`) |
| `JsonText`, `JsonControlChars`, `JsonQuotes`, `QuoteSafety` | repairing the JSON of a reply (`claude_remediator.py`) |
| `RepoPaths`, `PathSegments`, `ChangeNormalizer`, `ChangeVerdicts`, `GuardedEdits` | from proposed edits to written files (`claude_remediator.py`) |
| `BraceScan` | finding the JSON object in a reply (`claude_deployment_pipeline.py`) |
| `TerraformBundle`, `StructurePlan`, `PlanFollowing` | planning and assembling the Terraform bundle (`claude_deployment_pipeline.py`) |
| `BudgetLedger` | the spend ledger and its two caps (`claude_deployment_pipeline.py`) |
| `ManifestValidation`, `ManifestMeaning`, `AppRoots`, `ManifestCache`, `StreamCollisions`, `StaleManifests` | validating and caching deployment manifests (`deployment_manifest.py`) |
| `PhaseScheduler`, `PhaseProgress`, `ScanRun` | the phases of a scan under a semaphore (`environment.py`) |
| `ApplyRegistry` | the registry of Terraform applies (`main.py`) |
| `PercentEncoding`, `DatabaseUrl` | building a database URL and reading it back (`database_env.py`) |
| `Ordering`, `Lists`, `Text`, `Wrappers` | Python's stable sort, string operations and optional values |

The protocols (`DeliveryHub`, `ScanRegistry`, `RemediationControl`, `PhaseScheduler`, `ApplyRegistry`,
`BudgetLedger`) are state machines: `Enabled` says which step can come next, `Apply` what it does, and the
theorems quantify over every legal run. Where the program keeps the state in an object that it updates in
place, a class with the same fields has one method per atomic segment, and each method's contract says that
it performs exactly one step (or one run of steps) of the machine. The loops of the program are methods with
loops, each proved equal to a specification function about which the theorems are stated.

## What does not hold as promised

Each of these is a theorem below, at an input that shows it, together with the condition under which the promise
does hold. The condition is exact (it holds if and only if) except where the entry says "at least".

- A socket can miss an event and stay subscribed when a sender is cancelled while it fans out
  (`CancelledSenderLeavesGap`; `ExactDelivery` says when delivery is exact).
- The brace scan does not try every outermost balanced object, even when no closing brace is unmatched: an
  open brace in front that nothing closes hides what follows it (`OpenBraceHidesObjects`, `TriedIffNothingOpen`).
- A critical finding with a negative count can be passed over for high ones (`NegativeCountHidesCritical`,
  `StageIsDecided`).
- Two overlapping language-model calls can pass the spending cap together; at least one call at a time cannot
  (`TwoAtOnceCanOverspend`, `CapsHoldOneAtATime`), and `SpendIsBounded` bounds what k calls can do.
- A cached manifest comes back under another project's name (`SecondNameGetsTheFirst`, `SecondNameIsFreshIff`).
- The fingerprint leaves out files that detection looks at: when `bin/rails` comes or goes, a Ruby repository is
  answered from the cache with the start command of before (`RailsGoesStaleIff`, `FingerprintCovers`). The comment
  at `Agentic Layer/deployment_manifest.py:294` says that it hashes the files that can affect resolution; the model
  follows the code.
- A repository with a NUL character in a file can share its fingerprint with another one
  (`DockerfileHidesAPackage`, `CollidesIff`).
- The parent of the repository is accepted as an application root (`ParentIsAccepted`, `AcceptedRootLeaves`).
- With the deterministic plan the report can list duplicate paths, though the bundle never holds one: exactly
  when the root group's worker names one of the group's files twice, with content (`RepeatedReadmeIsReported`,
  `OnlyTheRootCanRepeat`).
- A path can resolve to a file of another name; at least those whose own name has no outer blanks cannot
  (`BlankIsLostInFrontOfAName`, `ResolvingKeepsTheFileName`).
- A file longer than what is read of it can lose more lines than the guard allows; at least a file that is read
  whole cannot (`LargeFilesCanLoseMore`, `WholeFilesKeepEnough`).
- Of the default limits of the destructive-rewrite guard, the two on the fraction deleted and the higher ratio for large
  files never decide anything (`GuardIsTheLines`).
- Cancelling a Terraform worker does not stop its thread, so two threads can work on one key
  (`CancelledWorkerLeavesItsThread`, `OneThreadPerKey`); the apply then reads as running for ever
  (`CancelledApplyReadsAsRunning`, `StatusIsHonest`), and a worker cancelled before it begins keeps its key
  busy for ever (`DroppedKeyStaysBusy`, `RequestsAreServed`).
- A database URL names another host than the line beside it, or no readable host at all, when the host has a
  percent sign or a character that no registered name may have (`PercentNamesAnotherHost`, `BuiltUrlReadsBack`,
  `LinesAgreeWithTheUrl`).
- The comment at `Agentic Layer/scan_jobs.py:75` speaks of 100 settled jobs; the code keeps 99 at that moment,
  and the model follows the code.

## Model

| member | source | states |
|---|---|---|
| DeliveryHub.RunKeepsInv | Agentic Layer/scan_jobs.py:24-51 | every interleaving of senders, attaches and disconnects keeps the log, the numbering and every socket's view consistent |
| DeliveryHub.RetainedWindow | Agentic Layer/scan_jobs.py:18-37 | the retained log is always the last min(500, n) of the n appended events |
| DeliveryHub.StrictOrder | Agentic Layer/scan_jobs.py:24-51 | whatever fails or is cancelled, a socket receives strictly increasing sequence numbers, and only appended events |
| DeliveryHub.ExactDelivery | Agentic Layer/scan_jobs.py:38-51 | a subscribed socket has exactly the log retained at its attach followed by every later event, if and only if no sender was cancelled since that attach while owing it one; a dropped socket then has a prefix of that |
| DeliveryHub.MissedMeansCancelled | Agentic Layer/scan_jobs.py:38-42 | over the steps of every run: a socket counts as having missed an event if and only if, since its latest attach, a sender was cancelled while it owed the socket the current event |
| DeliveryHub.SubscribedIff | Agentic Layer/scan_jobs.py:38-51 | in every run a socket is subscribed if and only if the greeting of some attach of it was delivered and it has neither disconnected nor refused an event since |
| DeliveryHub.CancelledSenderLeavesGap | Agentic Layer/scan_jobs.py:38-42 | a run in which a still subscribed socket misses the only event, because its sender was cancelled |
| DeliveryHub.DenseNumbering | Agentic Layer/scan_jobs.py:29-37 | when no stamped event was lost on the way to the store, the log is numbered 1, 2, 3 and so on without gaps |
| DeliveryHub.FlagMeansPersistRaised | Agentic Layer/scan_jobs.py:31-36 | a job's persistence flag is set exactly when some write of an event raised |
| ScanJobObject.ScanJob.SendJson | Agentic Layer/scan_jobs.py:24-42 | the method performs steps of the machine, holds the lock throughout, appends exactly the stamped event unless persisting fails, and drops exactly the sockets that refuse |
| ScanJobObject.ScanJob.FanOut | Agentic Layer/scan_jobs.py:38-42 | every subscriber is served once; exactly the refusing ones are dropped, and a cancelled send ends the loop |
| ScanJobObject.ScanJob.Attach | Agentic Layer/scan_jobs.py:44-51 | the socket joins exactly when every replayed event and the greeting were delivered, having received exactly the retained log |
| ScanJobObject.ScanJob.Discard | Agentic Layer/main.py:729 | a closed websocket leaves the subscribers without the lock and without disturbing the log |
| ScanRegistry.OneRunningJob | Agentic Layer/scan_jobs.py:69-125 | in every run two jobs of one project are never both running, the running one is the registered one, and the store is told at most once how a job ended, with a terminal status |
| ScanRegistry.EvictionBound | Agentic Layer/scan_jobs.py:75-78 | eviction removes only settled jobs, oldest first, and leaves the latest 99 of them |
| ScanRegistry.StartBoundsSettled | Agentic Layer/scan_jobs.py:69-83 | after a creating start at most 99 settled jobs remain, no running job is dropped, and the new job is the project's |
| ScanRegistry.StartCreatesIff | Agentic Layer/scan_jobs.py:69-83 | in every run a start creates exactly one job, of that project and user, if and only if no job of the project runs and neither the store nor the factory raises; when none runs, the answer says which of them raised |
| ScanRegistry.FailedStartEvictsToo | Agentic Layer/scan_jobs.py:75-82 | a start that fails at the store or the factory has already evicted: the latest 99 settled jobs are left, and every running one |
| ScanRegistry.SettledForever | Agentic Layer/scan_jobs.py:85-121 | over any run a settled job never runs again, its owner never changes, and what the store was told only grows |
| ScanRegistry.RunningJobIsShared | Agentic Layer/scan_jobs.py:70-74 | as long as a job runs, a start for its project gives that job to its owner, refuses every other user, and changes nothing |
| ScanRegistry.CompletedIsHonest | Agentic Layer/scan_jobs.py:98-111 | in every run, a job that is completed or was stored as completed had its runner report success at some step before which none of its events had failed to persist |
| ScanRegistry.VerdictOnlySinks | Agentic Layer/scan_jobs.py:85-121 | over every continuation of a run a verdict is revised only to error, and never once the store was told |
| ScanRegistry.StoreIsToldTheTruth | Agentic Layer/scan_jobs.py:85-121 | in every run the store is told that a job completed if and only if its runner reported success with the calls made at once not raising, no event of the job was lost before, and its awaited hook neither raised nor was cancelled after; otherwise that it ended in error |
| ScanRegistry.EveryPhaseTells | Agentic Layer/scan_jobs.py:114-121 | in every run the store is told exactly when the closing await has ended uncancelled, so a coroutine that is over without telling it was cancelled there |
| ScanRegistry.FailureMessageIsForErrors | Agentic Layer/scan_jobs.py:109-113 | the failure message is sent only for a job in error, and exactly when the work, the completion call or the hook raised |
| ScanSegments.AwaitsEndInOrder | Agentic Layer/scan_jobs.py:85-121 | in every run the awaits of one coroutine end in the order work, hook, failure message, closing, store, last message, each at most once |
| ScanSegments.JobRunsUntilItsWorkEnds | Agentic Layer/scan_jobs.py:88-105 | a job is running if and only if its work has not ended, and its hook can end if and only if the runner returned with an awaitable hook that has not ended yet |
| ScanRegistry.FlagMeansLoss | Agentic Layer/scan_jobs.py:31-36 | over every run a job's flag is raised if and only if an event of that job failed to persist |
| ScanLife.FlagsAgree | Agentic Layer/scan_jobs.py:31-36 | in every joint run of a job's hub and the registry, the flag the verdict reads is the flag the hub raised |
| ScanLife.CompletedMeansPersisted | Agentic Layer/scan_jobs.py:31-105 | in every joint run a job reads as completed, or was stored so, only when its runner reported success at some step before which no store write of its own hub had raised |
| ScanRegistry.ScanJobs.StartJob | Agentic Layer/scan_jobs.py:69-83 | the method returns the running job to its owner, refuses others, and otherwise evicts and creates as the registry machine does, also when the store or the factory raises |
| ScanRegistry.ScanJobs.ResumeJob | Agentic Layer/scan_jobs.py:85-121 | resuming one job's coroutine is one step of the machine, and no other job notices |
| ScanRegistry.JobRun.TakeResult | Agentic Layer/scan_jobs.py:98-105 | after the runner, the calls of on_complete, the verdict and the hook lead where the machine says, whichever of them raises |
| ScanRegistry.JobRun.Resume | Agentic Layer/scan_jobs.py:85-121 | each await of the coroutine is left through its own segment, and together these are the machine's resumption |
| RemediationControl.RunKeepsInv | Agentic Layer/remediation.py:518-553 | in every run the event is set exactly when an action is pending, the action fits the one flag that is up, and both flags are never up together |
| RemediationControl.EveryRunFollowsAScript | Agentic Layer/remediation.py:957-1401 | whatever commands arrive whenever, a run has at most two cycles, one round decision, one operator rescan, one approval wait and one persist, in one of five orders |
| RemediationControl.PersistOnlyApproved | Agentic Layer/remediation.py:881-898 | changes are persisted only right after an approval accepted inside the approval wait, and that ends the run |
| RemediationControl.NoMarkTwice | Agentic Layer/remediation.py:957-1401 | nothing the scripts list happens twice in a run |
| RemediationControl.IngestDecides | Agentic Layer/remediation.py:913-929 | the run fails if and only if the scan was not loaded, ends well if and only if it has no findings, and otherwise starts the first cycle |
| RemediationControl.StrategyDecides | Agentic Layer/remediation.py:964-974 | a cycle starts its work if and only if its strategy is not complete; otherwise the run ends well |
| RemediationControl.FirstReportDecides | Agentic Layer/remediation.py:1258-1300 | for every input, exactly when the report of the first cycle ends the run, skips to the second cycle, asks for a decision or asks for approval |
| RemediationControl.SecondReportDecides | Agentic Layer/remediation.py:1258-1300 | for every input, exactly when the report of the second cycle ends the run or asks for approval |
| RemediationControl.RescanDecides | Agentic Layer/remediation.py:1303-1376 | for every input, after the rescan: the run fails if and only if the rescan did; the second cycle follows if and only if findings remain, not all below the major severities, and the limit exceeds the one or no round without progress; in every other case approval is asked for |
| RemediationControl.FailsOnlyFor | Agentic Layer/remediation.py:957-1401 | a run ends as failed if and only if the scan could not be loaded, the rescan failed or persisting failed |
| RemediationControl.CancelStops | Agentic Layer/remediation.py:905-1401 | a cancelled run stays stopped, neither done nor failed, and nothing but commands can follow |
| RemediationControl.UnknownDecisionUnreachable | Agentic Layer/remediation.py:853-879 | the fallback for an unknown decision is never reached |
| RemediationControl.UnexpectedCommandIgnored | Agentic Layer/remediation.py:518-549 | a command the controller is not waiting for changes nothing |
| RemediationControl.FirstDecisionIsTaken | Agentic Layer/remediation.py:518-549 | the first decision accepted in a decision wait is the one taken: later commands change nothing, the wait can end, and the run goes on to the rescan or to the approval wait accordingly |
| RemediationControl.ApprovalIsTaken | Agentic Layer/remediation.py:881-898 | an approval given in the approval wait is never lost: the wait can end, and persisting is what follows |
| RemediationControl.RemediationRunner.HandleCommand | Agentic Layer/remediation.py:518-549 | accepting or ignoring a command is exactly the machine's command step |
| RemediationControl.RemediationRunner.EndRoundDecision | Agentic Layer/remediation.py:853-879 | leaving the decision wait returns the accepted action, clears it and goes where that action says |
| RemediationControl.RemediationRunner.EndHumanApproval | Agentic Layer/remediation.py:881-898 | the approval wait ends only with an accepted approval, and persisting follows at once |
| RemediationControl.RemediationRunner.ConcludeReport | Agentic Layer/remediation.py:1258-1300 | after a cycle's report the run stops, starts the next cycle, asks for a decision or asks for approval, as the machine does |
| RemediationControl.RemediationRunner.ConcludeRescan | Agentic Layer/remediation.py:1303-1376 | after the rescan the run fails, starts the next cycle or asks for approval, as the machine does |
| Grouping.GroupedIsRecords | Agentic Layer/remediation.py:190-223 | grouping by key leaves one entry per key, in first-met order, each summing up exactly the members with its key |
| Grouping.GroupsConserveTotals | Agentic Layer/remediation.py:169-239 | for any weight, the totals of the groups add up to the total of the items |
| CodeRootCauses.GroupingConservesOccurrences | Agentic Layer/remediation.py:169-239 | the counts of the code root causes add up to the occurrences in scope, a finding without any counting as one, and never exceed the reported raw total |
| CodeRootCauses.RawTotalIsTheSum | Agentic Layer/remediation.py:169-182 | the reported raw total is the sum, over the findings in scope, of the larger of the stated count and what is listed, never nothing |
| CodeRootCauses.KeptAreTheFirst | Agentic Layer/remediation.py:185-223 | a root cause keeps exactly the first three of its occurrences in the order the findings list them, counts every one of its slices, and says its severity and file |
| CodeRootCauses.BuildCodeRootCauses | Agentic Layer/remediation.py:169-239 | the nested loops over findings, paths and occurrences return the ten first of the ranked root causes, the raw total and the number available |
| CodeRootCauses.MergeOccurrences | Agentic Layer/remediation.py:218-223 | the inner loop tops the kept occurrences up to three and stops |
| SupplyRootCauses.UpgradeDescribesItsMembers | Agentic Layer/remediation.py:256-291 | a supply root cause counts its members, has their highest severity, lists exactly their distinct identifiers, names the first one met, and has the package name of its first member |
| SupplyRootCauses.GroupingConservesFindings | Agentic Layer/remediation.py:242-308 | the counts of the supply root causes add up to exactly the findings in scope |
| SupplyRootCauses.BuildSupplyRootCauses | Agentic Layer/remediation.py:242-308 | the loop returns the eight first of the ranked root causes, and the raw total is the number of findings in scope |
| Findings.NothingDroppedOutranks | Agentic Layer/remediation.py:225-234 | selected and dropped root causes together are exactly those found, something is dropped only at the limit, and nothing dropped ranks before anything selected |
| RootCauseOrder.WorstCodeFirst | Agentic Layer/remediation.py:225-234 | no code root cause left out comes before a selected one: the more severe come first, then the larger, then by weakness and file |
| RootCauseOrder.CodeIsInOrder | Agentic Layer/remediation.py:225-234 | the selected code root causes stand in that order, critical first |
| RootCauseOrder.WorstSupplyFirst | Agentic Layer/remediation.py:294-303 | no dependency root cause left out comes before a selected one: the more severe come first, then the larger, then by package and fix |
| RootCauseOrder.SupplyIsInOrder | Agentic Layer/remediation.py:294-303 | the selected dependency root causes stand in that order, critical first |
| RootCauseOrder.OneCausePerWeaknessSeverityAndFile | Agentic Layer/remediation.py:185-206 | there is exactly one code root cause for each weakness, severity and file that some finding in scope has together |
| RootCauseOrder.OneCausePerUpgrade | Agentic Layer/remediation.py:246-267 | there is exactly one dependency root cause for each package, up to case, version, fix and package URL that some finding in scope names together |
| RootCauseOrder.WhatIsInScope | Agentic Layer/remediation.py:185-206 | critical and high findings have their root cause in every scan, medium and low ones exactly in a scan of all severities, others never |
| RemediationBatches.StageIsDecided | Agentic Layer/remediation.py:383-436 | exactly when each branch of the strategy is taken, for any counts; the return after the loop never is |
| RemediationBatches.UnstagedScans | Agentic Layer/remediation.py:401-414 | the whole scan is worked on unstaged exactly when its findings in scope are within the threshold, and nothing is left to work on only when no critical or high finding is counted |
| RemediationBatches.HighWaitsForCritical | Agentic Layer/remediation.py:410-434 | with positive counts, high is staged only when no critical finding of either kind remains |
| RemediationBatches.NegativeCountHidesCritical | Agentic Layer/remediation.py:370-380 | a scan in which a negative count makes high be staged before a critical finding |
| RemediationBatches.EveryBatchIsOnStage | Agentic Layer/remediation.py:383-500 | over the large-repository threshold every root cause of every batch has exactly the stage's severity |
| RemediationBatches.BatchesAreAPrefix | Agentic Layer/remediation.py:453-500 | the batches in order are a prefix of the selection, with nothing reordered, repeated or skipped |
| RemediationBatches.WholeSelectionIffItFits | Agentic Layer/remediation.py:469-475 | the whole selection is batched if and only if its chunks fit the limit on batches |
| RemediationBatches.CodeSelectionIsEmptyIff | Agentic Layer/remediation.py:311-334 | no code root cause is selected if and only if there is no code finding or, when only major ones are in scope, none is critical or high |
| RemediationBatches.SupplySelectionIsEmptyIff | Agentic Layer/remediation.py:311-334 | the same for dependency findings |
| RemediationBatches.SelectCycleScanStrategy | Agentic Layer/remediation.py:383-436 | the loop over the stages computes the strategy the theorems are about |
| RemediationBatches.BuildRemediationBatches | Agentic Layer/remediation.py:311-352 | grouping, ranking, the fallback to raw findings, chunking and the limit give exactly the batches the theorems are about |
| RemediationBatches.ChunkRootCauses | Agentic Layer/remediation.py:453-459 | the chunks are consecutive pieces of the list, and one empty piece for an empty list |
| BatchPlan.CountsAreStated | Agentic Layer/remediation.py:370-380 | a code finding counts as much as it states, and one when it states nothing or zero |
| BatchPlan.WhichCodeIsSelected | Agentic Layer/remediation.py:311-330 | the ten first root causes in scope are selected; findings as they are only in a scan of all severities in which none has one of the four |
| BatchPlan.WhichSupplyIsSelected | Agentic Layer/remediation.py:311-334 | the same for dependencies, of which eight are taken |
| BatchPlan.EverythingSelectedIsBatched | Agentic Layer/remediation.py:462-500 | with the default limits, whatever the scan, there are one to three batches of at most four items of each kind, and together they hold the whole selection in order, so the limit on batches never decides |
| JsonControlChars.SanitizeIdempotent | Agentic Layer/claude_remediator.py:417-460 | escaping control characters twice is escaping them once |
| JsonControlChars.IdentityIffClean | Agentic Layer/claude_remediator.py:417-460 | the pass changes nothing if and only if no raw control character stands inside a string except directly after a backslash |
| JsonControlChars.SanitizeIsClean | Agentic Layer/claude_remediator.py:417-460 | its output has no such character |
| JsonControlChars.SanitizePreservesText | Agentic Layer/claude_remediator.py:417-460 | a lenient reader of section 7 of RFC 8259 finds the same structure and the same decoded characters before and after |
| JsonControlChars.SanitizeJsonControlChars | Agentic Layer/claude_remediator.py:417-460 | the character loop with its two flags computes that pass |
| JsonQuotes.OutlineRenders | Agentic Layer/claude_remediator.py:463-532 | every text is its frame characters and its content bodies put together |
| JsonQuotes.RepairTouchesBodiesOnly | Agentic Layer/claude_remediator.py:463-532 | the pass escapes the quotation marks of the content bodies and changes nothing else |
| JsonQuotes.OutlineOfRepair | Agentic Layer/claude_remediator.py:463-532 | the repaired text splits into the same frame and the repaired bodies |
| JsonQuotes.RepairIdempotent | Agentic Layer/claude_remediator.py:463-532 | repairing twice is repairing once |
| JsonQuotes.RepairedBodiesAreQuoted | Agentic Layer/claude_remediator.py:499-529 | no repaired body has an unescaped quotation mark before its terminator, and it decodes to the same characters as before |
| JsonQuotes.EscapeUnescapedQuotes | Agentic Layer/claude_remediator.py:463-532 | the scanner terminates and its output has all of these properties |
| JsonQuotes.LooksLikeEnd | Agentic Layer/claude_remediator.py:517-525 | a quotation mark ends a body if and only if some comma or closing brace follows it with nothing but whitespace in between |
| QuoteSafety.WellQuotedIff | Agentic Layer/claude_remediator.py:463-532 | the pass leaves a text unchanged if and only if every string-valued content field either has no unescaped quotation mark left in it, or its first one is followed by whitespace and a comma or closing brace |
| QuoteSafety.WellQuotedTextIsKept | Agentic Layer/claude_remediator.py:463-532 | the repaired text, put together from its frame and repaired bodies, is the text itself under exactly that condition |
| RepoPaths.UnsafeMeansEmptyOrClimbing | Agentic Layer/claude_remediator.py:186-201 | a normalised path is safe if and only if it is not empty and has no `..` segment |
| RepoPaths.Resolve | Agentic Layer/claude_remediator.py:212-253 | the first allowed candidate wins, otherwise the one allowed path that matches some candidate by suffix, and nothing when there are several or none |
| RepoPaths.ResolvedIsAllowed | Agentic Layer/claude_remediator.py:212-253 | only allowed paths are returned, and an allowed path resolves to itself |
| RepoPaths.KnownPrefixesResolve | Agentic Layer/claude_remediator.py:225-244 | an allowed path behind one of the known prefixes always resolves, to an allowed candidate |
| RepoPaths.ResolvingKeepsTheFileName | Agentic Layer/claude_remediator.py:212-253 | a path never resolves to a file of another name, as long as the name has no outer blanks |
| RepoPaths.BlankIsLostInFrontOfAName | Agentic Layer/claude_remediator.py:225-244 | the path `repo/ x`, whose name has a blank in front, resolves to the allowed file x |
| PathSegments.MatchesIff | Agentic Layer/claude_remediator.py:247-250 | two paths match if and only if the segments of one of them are the last segments of the other, which has more |
| PathSegments.NormalizeKeepsTheSegments | Agentic Layer/claude_remediator.py:193-201 | a normalised path has exactly the segments its trimmed text names between slashes of either kind, without empty ones and dots, in order |
| ChangeNormalizer.NormalizeChanges | Agentic Layer/claude_remediator.py:836-886 | accepted and rejected changes add up to the changes processed, and processing stops early only at the limit |
| ChangeNormalizer.AcceptedAreTheFirstFits | Agentic Layer/claude_remediator.py:836-886 | at most ten changes are accepted, one per path, each being the first proposal that fits its path; below the limit no path with a fitting proposal is missed |
| ChangeNormalizer.AcceptedAreAllowed | Agentic Layer/claude_remediator.py:857-881 | every accepted change is for an editable path and has at most 80000 bytes |
| ChangeVerdicts.ReportFilesTheVerdicts | Agentic Layer/claude_remediator.py:836-886 | the report is, in order, the verdict on each proposal up to the tenth accepted one, where the verdict depends on the proposals alone: no object, no content, a path that is empty or climbs, one that is not editable, a late one for its file, more than 80000 bytes of UTF-8, or accepted |
| GuardedEdits.ExactlyTheseSizesPass | Agentic Layer/claude_remediator.py:322-364 | a file of at least 220 lines can be rewritten to exactly those sizes that keep 55 percent of its lines or lose at most 279, and at least one |
| GuardedEdits.PassingKeepsEnough | Agentic Layer/claude_remediator.py:322-364 | every rewrite the guard accepts keeps that much |
| GuardedEdits.GuardIsTheLines | Agentic Layer/claude_remediator.py:322-364 | the guard refuses exactly: a file of at least 220 lines that only loses lines, or that loses more than 280 and then keeps less than 55 percent of its lines or, below 600 lines, loses more than six for each line it gains |
| GuardedEdits.LinesAreCutAtBreaks | Agentic Layer/claude_remediator.py:302-303 | the lines counted are those between ten break characters, a carriage return with its line feed counting once |
| GuardedEdits.AppliedIsSafe | Agentic Layer/claude_remediator.py:1284-1305 | over the write loop written files hold validated content, refused and unmentioned files are untouched, and without a failure every change is either written or refused |
| GuardedEdits.EachPathIsWrittenOnce | Agentic Layer/claude_remediator.py:1284-1305 | no file is written twice |
| GuardedEdits.WrittenIffItPasses | Agentic Layer/claude_remediator.py:1284-1305 | in a loop that does not fail a change is written if and only if it passes validation against the files as they were before the loop, whatever was written in between |
| GuardedEdits.WrittenIffEveryCheckPasses | Agentic Layer/claude_remediator.py:291-364 | in a loop that does not fail a change is written if and only if it differs from the file as read before the loop, is not blank, has no NUL, adds nothing that looks harmful, parses, and keeps the lines the guard asks for |
| GuardedEdits.OnlyValidatedContextFilesChange | Agentic Layer/claude_remediator.py:1223-1305 | for every reply only context files change; unless the run fails a changed file holds an accepted change that was validated against the file as read before the run, and kept enough lines |
| GuardedEdits.FailedWriteEndsTheRun | Agentic Layer/claude_remediator.py:1284-1305 | a write that raises ends the run where it stands: nothing before is rolled back, the file holds what the write left of it, and no later change is tried |
| GuardedEdits.ChangedFilesPassedEveryCheck | Agentic Layer/claude_remediator.py:1284-1305 | for every reply, a file that differs after a run that did not fail is a context file and holds content that passes each of these checks |
| GuardedEdits.WholeFilesKeepEnough | Agentic Layer/claude_remediator.py:1284-1305 | a changed file that was read whole keeps at least 55 percent of its lines or loses at most 279, counted over the whole file |
| GuardedEdits.LargeFilesCanLoseMore | Agentic Layer/claude_remediator.py:1291 | for any number of lines over 280, a file of that many lines whose first 200000 bytes are one line can be rewritten to a single line |
| GuardedEdits.CodebaseVolume.Apply | Agentic Layer/claude_remediator.py:1284-1305 | the write loop, with reads, checks and writes that may raise, does what the theorems describe, without rolling back |
| BraceScan.ExtractJsonObject | Agentic Layer/claude_deployment_pipeline.py:305-330 | the leftmost tried piece that parses to an object is returned, and the whole text is the fallback exactly when there is none |
| BraceScan.TriedIffNothingOpen | Agentic Layer/claude_deployment_pipeline.py:310-326 | when the depth never goes negative only outermost balanced pieces are tried, and one is tried if and only if no brace before it stays open |
| BraceScan.NegativeDepthHidesObjects | Agentic Layer/claude_deployment_pipeline.py:310-326 | a text whose balanced object is never tried, because a closing brace comes first |
| BraceScan.OpenBraceHidesObjects | Agentic Layer/claude_deployment_pipeline.py:310-326 | a text with no unmatched closing brace whose outermost object is never tried, because an open brace in front is not closed |
| TerraformBundle.BuildStringList | Agentic Layer/claude_deployment_pipeline.py:1011-1022 | the loop trims, drops blanks and keeps each name once |
| TerraformBundle.StringListIsDistinct | Agentic Layer/claude_deployment_pipeline.py:1011-1022 | its result has each trimmed, non-blank name exactly once |
| TerraformBundle.GroupsStayWithinTheirFiles | Agentic Layer/claude_deployment_pipeline.py:1927-1955 | whatever the worker replies, a group contributes only non-blank files that it owns |
| TerraformBundle.GeneratedFilesAreOwned | Agentic Layer/claude_deployment_pipeline.py:4169-4262 | hence every generated file is owned by some group of the plan |
| TerraformBundle.RepeatsComeFromTheAnswer | Agentic Layer/claude_deployment_pipeline.py:4219-4233 | a group repeats a path only if the worker's own answer does; rescued files never do |
| TerraformBundle.GroupRepeatsIff | Agentic Layer/claude_deployment_pipeline.py:4177-4245 | what a group delivers repeats a path if and only if its worker is asked, answers, and names an owned file twice, with content |
| TerraformBundle.OwnedFilesAreRescued | Agentic Layer/claude_deployment_pipeline.py:4222-4234 | whatever a worker omits or spoils, its group delivers every file it owns that the curated bundle has |
| TerraformBundle.OwnedFilesAreSurfaced | Agentic Layer/claude_deployment_pipeline.py:4169-4289 | and each of these files is in the assembled bundle |
| TerraformBundle.AssembleGeneratedFiles | Agentic Layer/claude_deployment_pipeline.py:1957-1985 | the nested loops keep the first file of each path and note the others |
| TerraformBundle.AssemblyConservesItems | Agentic Layer/claude_deployment_pipeline.py:1957-1985 | items with a path are as many as surfaced files and duplicates together, and surfaced paths differ |
| TerraformBundle.FirstFileWins | Agentic Layer/claude_deployment_pipeline.py:1972-1981 | what is surfaced is exactly the first file of every path |
| TerraformBundle.NoDuplicatesIffNamesDiffer | Agentic Layer/claude_deployment_pipeline.py:1972-1981 | there are no duplicates if and only if no two items name the same path |
| TerraformBundle.SurfaceOrderIsCanonical | Agentic Layer/claude_deployment_pipeline.py:1922-1924 | ordering is a permutation, and does not depend on the order of its input |
| TerraformBundle.BundleIsWellFormed | Agentic Layer/claude_deployment_pipeline.py:4286-4316 | the final paths differ, and the four critical files are all there if and only if the generated files or the curated bundle have them |
| TerraformBundle.GenerateBundle | Agentic Layer/claude_deployment_pipeline.py:4167-4316 | the loop over groups with its fallbacks, the assembly and the full fallback give the bundle the theorems are about |
| PlanFollowing.WhoseVersionIsDelivered | Agentic Layer/claude_deployment_pipeline.py:4177-4245 | of every file a group owns it delivers the first version its worker gives that is not blank, when it is asked, or else the curated one |
| PlanFollowing.WhatTheBundleHolds | Agentic Layer/claude_deployment_pipeline.py:4286-4316 | the bundle holds exactly the first file of every path that was generated, if the four critical paths are among them, and otherwise exactly the readme and the Terraform files of the curated bundle |
| PlanFollowing.SurfaceOrderFollows | Agentic Layer/claude_deployment_pipeline.py:1922-1924 | the files of the order come first and in that order, the others after them by name |
| PlanFollowing.GroupsOfAStrategy | Agentic Layer/claude_deployment_pipeline.py:1733-1765 | for every strategy: the root group owns its nine files, and the only other groups are storage for a static site and networking, iam, compute and data for the rest, each with its three files |
| PlanFollowing.OrderOfAStrategy | Agentic Layer/claude_deployment_pipeline.py:1733-1765 | the order of the deterministic plan lists exactly these files |
| StructurePlan.OwnershipPartitionsTheTree | Agentic Layer/claude_deployment_pipeline.py:1733-1765 | the groups of the deterministic plan own every file of its tree exactly once |
| StructurePlan.DeterministicBundle | Agentic Layer/claude_deployment_pipeline.py:1733-1843 | without a worker for the root group the plan renders, in its own order and without duplicates, exactly the files of its tree that the curated bundle has |
| StructurePlan.OnlyTheRootCanRepeat | Agentic Layer/claude_deployment_pipeline.py:4177-4184 | under the deterministic plan duplicates are reported if and only if the root group's worker is asked, answers, and names one of the group's files twice, with content |
| StructurePlan.RepeatedReadmeIsReported | Agentic Layer/claude_deployment_pipeline.py:1972-1981 | for every strategy and bundle, a root worker that gives two versions of the readme brings a reported duplicate |
| StructurePlan.CoercedPlanIsUsable | Agentic Layer/claude_deployment_pipeline.py:1846-1899 | whatever plan a worker proposes, the plan used has groups, each with distinct, trimmed, named files, and an order |
| StructurePlan.CoercingAgainChangesNothing | Agentic Layer/claude_deployment_pipeline.py:1846-1899 | coercing a coerced plan changes nothing |
| PlanFollowing.GroupsFollowTheProposal | Agentic Layer/claude_deployment_pipeline.py:1846-1899 | the groups used are exactly the proposed ones that name a file, with those files; the deterministic ones only when there are none |
| PlanFollowing.OrderFollowsTheProposal | Agentic Layer/claude_deployment_pipeline.py:1846-1899 | the order used has exactly the names of the proposed one, or is the deterministic one when that names nothing |
| BudgetLedger.SpendIsBounded | Agentic Layer/claude_deployment_pipeline.py:233-302 | whatever the two caps, with at most k calls in flight that use no more than estimated, the total is the sum of the recorded costs, and neither cap is passed by more than k - 1 projections |
| BudgetLedger.CapsHoldOneAtATime | Agentic Layer/claude_deployment_pipeline.py:233-302 | one call at a time, both caps hold at every moment, whatever they are |
| BudgetLedger.AllowedIffItFits | Agentic Layer/claude_deployment_pipeline.py:233-266 | from a ledger within the Terraform cap a call is let through if and only if both caps still hold after it is recorded at its estimate |
| BudgetLedger.TwoAtOnceCanOverspend | Agentic Layer/claude_deployment_pipeline.py:233-244 | for every cap that allows anything, two overlapping calls that each pass the guard and together pass the cap |
| BudgetLedger.TwiceOverHalfOverspends | Agentic Layer/claude_deployment_pipeline.py:233-302 | any call over half the pipeline cap, made twice at once, spends twice its projection |
| BudgetLedger.CallCosts | Agentic Layer/claude_deployment_pipeline.py:191-199 | a recorded call costs nothing if its model is named after one of four open families or marked as free, and otherwise three dollars for a million tokens read and fifteen for a million written |
| BudgetLedger.UsageLedger.Guard | Agentic Layer/claude_deployment_pipeline.py:233-266 | the guard lets a call through exactly when neither cap would be passed, summing the Terraform stages in a loop |
| BudgetLedger.UsageLedger.RecordUsage | Agentic Layer/claude_deployment_pipeline.py:269-302 | recording adds exactly one call and its cost, with the estimate standing in for missing input tokens |
| ManifestValidation.StoredManifestReadsBack | Agentic Layer/deployment_manifest.py:102-231 | validating the stored form of a validated manifest gives the manifest back, whatever default name is offered |
| ManifestValidation.ProducedIffStorable | Agentic Layer/deployment_manifest.py:102-231 | the manifests that validation can produce are exactly those with certified strategy, well-formed fields and a settled environment |
| ManifestValidation.NameAgain | Agentic Layer/deployment_manifest.py:119-125 | normalising a normalised name changes nothing |
| ManifestValidation.ValidatedIsDeployable | Agentic Layer/deployment_manifest.py:184-231 | every validated manifest has a certified strategy and runtime, a start command unless docker or static, fields in range, and no secret in its environment |
| ManifestValidation.EnvAgain | Agentic Layer/deployment_manifest.py:149-171 | normalising a normalised environment changes nothing |
| ManifestValidation.PathAgain | Agentic Layer/deployment_manifest.py:128-134 | normalising a normalised health check path changes nothing |
| ManifestValidation.AppRootAgain | Agentic Layer/deployment_manifest.py:174-181 | normalising a normalised application root changes nothing |
| AppRoots.AcceptedRootClimbs | Agentic Layer/deployment_manifest.py:174-181 | an accepted application root has a `..` segment if and only if it is `..` or ends in `/..` |
| AppRoots.AcceptedRootLeaves | Agentic Layer/deployment_manifest.py:174-181 | it leads out of the repository if and only if, besides, nothing before that segment leads anywhere |
| AppRoots.ParentIsAccepted | Agentic Layer/deployment_manifest.py:174-181 | the root `..` is accepted and leads out of the repository |
| ManifestValidation.BuildEnv | Agentic Layer/deployment_manifest.py:154-171 | the loop collects the distinct entries in order, or fails at the first bad one |
| ManifestMeaning.AcceptedIff | Agentic Layer/deployment_manifest.py:184-231 | exactly which payloads are accepted: which strategies run which runtimes, which names, commands, ports and paths are allowed |
| ManifestMeaning.ManifestSaysThePayload | Agentic Layer/deployment_manifest.py:184-231 | each field of an accepted manifest is that of its payload, or the default where it is blank: the strategy by the runtime, the name by the project |
| ManifestMeaning.TrimmedFields | Agentic Layer/deployment_manifest.py:184-212 | an absent, empty or zero field stands for its default, and a text for itself, trimmed |
| ManifestMeaning.EnvironmentIsItsItems | Agentic Layer/deployment_manifest.py:149-171 | an environment is accepted if and only if it is empty or a list of which each item gives a public variable, and then holds exactly those, each once |
| ManifestMeaning.SecretNameIff | Agentic Layer/deployment_manifest.py:65 | a name is refused as secret if and only if, in any case, it contains secret, password or token, or private or api followed by key with at most one character between |
| ManifestMeaning.AppRootIsTheMiddle | Agentic Layer/deployment_manifest.py:174-181 | the application root is the text between the outer slashes, accepted if and only if it is empty or a dot, or has plain characters only and does not climb in front or in the middle |
| ManifestCache.Fingerprint | Agentic Layer/deployment_manifest.py:293-332 | the loops feed the digest the sorted paths and contents, each ended by a NUL |
| ManifestCache.StreamDeterminesFiles | Agentic Layer/deployment_manifest.py:323-332 | for NUL-free files that stream determines which fingerprinted files there are and what they hold |
| StreamCollisions.NulHidesAFile | Agentic Layer/deployment_manifest.py:323-332 | for every list of names: a content with NULs gives one file the stream of two |
| StreamCollisions.DockerfileHidesAPackage | Agentic Layer/deployment_manifest.py:302-332 | with the program's own list of names, one Dockerfile with NULs has the stream of a Dockerfile and a package.json |
| StreamCollisions.SharesWithNulFreeIff | Agentic Layer/deployment_manifest.py:323-332 | a tree shares its stream with some tree of NUL-free files if and only if the NUL-ended fields of its stream alternate between ascending names of the list and contents |
| StreamCollisions.CollidesIff | Agentic Layer/deployment_manifest.py:323-332 | it shares it with a different such tree if and only if, besides, one of its own fingerprinted files has a NUL |
| ManifestCache.NulFreeContentsSuffice | Agentic Layer/deployment_manifest.py:302-322 | for the names the fingerprint looks for, only contents need to be NUL-free |
| ManifestCache.CachedEqualsFresh | Agentic Layer/deployment_manifest.py:339-369 | after any sequence of resolutions under one project name the cache answers every tree as plain resolution does, however manifests are chosen and whatever the other files are, as long as those stay |
| ManifestCache.SecondNameGetsTheFirst | Agentic Layer/deployment_manifest.py:339-358 | every finished static artifact, detected under one valid name and resolved again under any other, is a cache hit with the first name, while plain resolution gives the second |
| ManifestCache.SecondNameIsFreshIff | Agentic Layer/deployment_manifest.py:339-369 | for every repository and two names: the second resolution is what plain resolution gives if and only if the first failed, the repository's manifest has a name of its own, or the names agree |
| ManifestCache.StaticIsNamedAfterTheProject | Agentic Layer/deployment_manifest.py:750-767 | detection serves the first of dist, build and out that has an index page, as a static site named after the project |
| ManifestCache.UnreadableEntriesAreReplaced | Agentic Layer/deployment_manifest.py:339-369 | a stored entry that cannot be read back counts as absent and is replaced, and a readable one is returned unchanged |
| StaleManifests.FingerprintCovers | Agentic Layer/deployment_manifest.py:302-322 | the fingerprint looks at exactly the two manifest files and, in eight directories, 32 names |
| StaleManifests.RailsGoesStaleIff | Agentic Layer/deployment_manifest.py:665-692 | for every Ruby repository whose fingerprinted files stay, the second resolution is a cache hit, and it is what detection would say if and only if bin/rails has neither come nor gone |
| ManifestCache.ManifestStore.ResolveManifest | Agentic Layer/deployment_manifest.py:769-792 | the method looks up, resolves and stores exactly as the function the theorems are about |
| PhaseScheduler.RunKeepsInv | Agentic Layer/environment.py:610-715 | in every interleaving of tasks each module is unplanned and queued, owned by one task whose place fits its records, or settled |
| PhaseScheduler.AtMostSlotsRun | Agentic Layer/environment.py:633-668 | at most as many modules run at once as the semaphore has slots |
| PhaseScheduler.GrypeOnlyAfterSyft | Agentic Layer/environment.py:685-697 | when Grype starts, Syft's latest record is one of success, also when a send after that record could still have raised |
| PhaseScheduler.OnlySelectedModulesRun | Agentic Layer/environment.py:797-885 | a module that ever starts, runs or completes was selected for the run |
| PhaseScheduler.SelectedIsWanted | Agentic Layer/environment.py:582-602 | what is selected is exactly what the request asks for, with Syft added for Grype |
| PhaseScheduler.WhatARequestWants | Agentic Layer/environment.py:582-602 | for every request: the modules it names with Syft for Grype, or those of the scan type, without the dynamic scan when it may not run and without the cloud scan when there are no credentials |
| PhaseScheduler.WantedScannersRan | Agentic Layer/environment.py:797-885 | when a run returns, a listed and selected source scanner, secret scanner or Syft was started, Grype was started exactly unless Syft failed, and a Checkov module exactly when Checkov's image could be prepared |
| PhaseScheduler.CheckovIsPreparedOnce | Agentic Layer/environment.py:866-880 | in every run what is known of the Checkov image is what was found when the first selected module of the five was planned |
| PhaseScheduler.UnstartedModulesSayWhy | Agentic Layer/environment.py:797-912 | when a run returns, a listed module that never started reads as skipped if it was not selected or is Grype, and as failed if it is one of the five modules of Checkov |
| PhaseScheduler.TrueMeansAllRan | Agentic Layer/environment.py:797-912 | when a run returns true every selected and listed module was started, except perhaps the dynamic and cloud scans |
| PhaseScheduler.WantedTargetsRan | Agentic Layer/environment.py:829-864 | when a run returns, a wanted and listed dynamic or cloud scan was started, or was turned away when planned because its target was not ready or its image could not be prepared |
| PhaseScheduler.TurnedAwaySaysWhy | Agentic Layer/environment.py:829-864 | a dynamic or cloud scan that is turned away never starts, and reads as skipped if its target was not ready and as failed if its image could not be prepared |
| PhaseScheduler.EveryListedModuleIsSettled | Agentic Layer/environment.py:797-912 | when a run returns every listed module has a terminal record |
| PhaseScheduler.FailedIsAbsorbing | Agentic Layer/environment.py:610-715 | a module recorded as FAILED stays so for the rest of the run |
| PhaseScheduler.VerdictIsHonest | Agentic Layer/environment.py:911-912 | a run returns true if and only if the summary was written and no module ever failed |
| PhaseScheduler.RaisingFailsTheRun | Agentic Layer/environment.py:641-668 | a run in which some module or the scan of the built image raised never returns true |
| PhaseScheduler.ImageScannedIff | Agentic Layer/environment.py:697-715 | when a run returns in which Grype was started, the built image was scanned if and only if there is one |
| PhaseProgress.StartsWhileASlotIsFree | Agentic Layer/environment.py:633-668 | in every run a waiting module can start if and only if fewer modules run than the semaphore has slots |
| PhaseProgress.NeverStuck | Agentic Layer/environment.py:797-912 | with at least one slot, in every run that has not returned some step can come next, whatever waits for whatever |
| PhaseProgress.RunsEnd | Agentic Layer/environment.py:797-912 | every run ends: it has at most twelve steps for each listed module, one for each phase and one more |
| PhaseProgress.EveryRunCanReturn | Agentic Layer/environment.py:797-912 | hence every run can be continued to one that returns |
| ScanRun.Run.PlanModule | Agentic Layer/environment.py:801-880 | planning a module takes the branch of the machine and keeps the dictionary equal to the latest records |
| ScanRun.Run.RecordSuccess | Agentic Layer/environment.py:655-661 | a validated report is recorded while the slot is still held |
| ScanRun.Run.Leave | Agentic Layer/environment.py:668-697 | ending a module's run, be it with a failure after its success was recorded, frees its slot, and the dependency branch goes on to Grype or settles it |
| ScanRun.Run.Return | Agentic Layer/environment.py:911-912 | the verdict read off the dictionary is the machine's |
| ApplyRegistry.AcceptedCanBeLookedUp | Agentic Layer/main.py:1526-1528 | status and stop find an accepted apply under the same names if and only if the names are not both blank |
| ApplyRegistry.IdNamesTheApply | Agentic Layer/main.py:1389-1391 | after every request, whoever asks with the same id, or without ids with the same name, finds the apply running, whatever name goes with the id |
| ApplyRegistry.DifferentIdsDiffer | Agentic Layer/main.py:1389-1391 | requests under different ids never share a key, whatever their names |
| ApplyRegistry.OneWorkerPerKey | Agentic Layer/main.py:1519-1552 | a key never has two tasks, begun or about to begin |
| ApplyRegistry.OneThreadPerKey | Agentic Layer/main.py:1493-1509 | of the threads running for a key all but the latest belong to workers cancelled while their thread ran, so without such a cancellation there is at most one |
| ApplyRegistry.OrphanLetsASecondRun | Agentic Layer/main.py:1493-1552 | conversely, in every run that left such a thread on a free key the next request gives the key a second thread |
| ApplyRegistry.CancelledWorkerLeavesItsThread | Agentic Layer/main.py:1501-1509 | a run after which two threads work on one key |
| ApplyRegistry.RunningThreadIsReported | Agentic Layer/main.py:1564-1591 | a thread that was not left behind by a cancelled worker is always reported as running |
| ApplyRegistry.OneResultPerApply | Agentic Layer/main.py:1470-1516 | every accepted apply records at most one result, and exactly one if and only if it is no longer waiting or at work and was not cancelled |
| ApplyRegistry.StatusIsHonest | Agentic Layer/main.py:1564-1591 | a key is idle if and only if nothing was accepted for it, and running if and only if a task is at work on it or the last one was cancelled |
| ApplyRegistry.StatusTellsTheOutcome | Agentic Layer/main.py:1393-1417 | once nobody works on a key any more, its status tells how its last accepted apply ended: success, failure, or a plan waiting for confirmation |
| ApplyRegistry.RequestsAreServed | Agentic Layer/main.py:1519-1561 | after every request, in every run, the key reads as running, and a task is at work on it if and only if the last one was not cancelled before it began |
| ApplyRegistry.DroppedKeyStaysBusy | Agentic Layer/main.py:1545-1552 | a worker cancelled before it begins keeps its key busy, and reading as running, for the rest of the run |
| ApplyRegistry.WithoutCancellation | Agentic Layer/main.py:1470-1591 | absent cancellation running means that a worker is at work, and every other accepted apply has exactly one result |
| ApplyRegistry.CancelledApplyReadsAsRunning | Agentic Layer/main.py:1399-1400 | a run after which a key reads as running with no task and no thread at work |
| ApplyRegistry.TerraformApplies.Accept | Agentic Layer/main.py:1519-1561 | accepting a request is the machine's request step, and a busy key starts nothing |
| ApplyRegistry.TerraformApplies.Launch | Agentic Layer/main.py:1470-1501 | the task's first segment starts its thread and leaves both dictionaries as they are |
| ApplyRegistry.TerraformApplies.Conclude | Agentic Layer/main.py:1507-1509 | a worker's end changes both dictionaries together |
| ApplyRegistry.TerraformApplies.Abandon | Agentic Layer/main.py:1507-1509 | a cancelled worker leaves the dictionary of live applies without leaving a result, and its thread runs on |
| ApplyRegistry.TerraformApplies.Status | Agentic Layer/main.py:1564-1591 | the reported status is the machine's |
| ApplyRegistry.TerraformApplies.Stop | Agentic Layer/main.py:1595-1606 | stopping raises the worker's flag and leaves the registry as it is |
| PercentEncoding.QuoteReadsBack | Agentic Layer/database_env.py:101-103 | percent-encoded UTF-8 reads back to the same text, for every text, by section 2.1 of RFC 3986 |
| PercentEncoding.ReadsItselfIff | Agentic Layer/database_env.py:101-103 | text put into a URL unquoted reads back to itself if and only if it is ASCII without a percent sign |
| DatabaseUrl.BuiltUrlReadsBack | Agentic Layer/database_env.py:81-115 | a URL built from a secret reads back, by sections 2.1 and 3.2 of RFC 3986, to the same user, password, port in range and database name, and to the same host if and only if the host has only unreserved characters and sub-delimiters |
| DatabaseUrl.LinesAgreeWithTheUrl | Agentic Layer/database_env.py:107-115 | the separate environment lines say what the URL says when it is read back if and only if the host has only such characters |
| DatabaseUrl.PercentNamesAnotherHost | Agentic Layer/database_env.py:101-113 | for the host d%41 the URL reads back to the host dA while the line beside it says d%41 |
| DatabaseUrl.BuildsExactly | Agentic Layer/database_env.py:81-107 | for a host without brackets, exactly which secrets become a URL; a colon in the host never does |
| DatabaseUrl.PartsComeFromTheSecret | Agentic Layer/database_env.py:21-104 | the host is the one of the secret if it is usable and else the endpoint, the scheme is mysql exactly for engines whose name contains mysql or mariadb in any case, and the database is appdb when none is named |
| DatabaseUrl.SchemeIff | Agentic Layer/database_env.py:53 | a URL has one of the five schemes if and only if it begins with its name in any case and a colon |
| DatabaseUrl.RefusalSaysWhy | Agentic Layer/database_env.py:89-107 | exactly when a secret is refused for its host, its port, its credentials or its configuration, the first of these deciding |
| DatabaseUrl.RejectsExactly | Agentic Layer/database_env.py:44-65 | the final check turns a built URL down if and only if its host has a colon or a blank, or the URL library refuses its authority |
| DatabaseUrl.ExplicitUrlIsChecked | Agentic Layer/database_env.py:44-77 | an explicit URL is passed on trimmed if and only if it has one of the five schemes, a usable host, a port in range, no blank or control character and no at sign right before a colon; otherwise the configuration is refused, whatever the secret |

## Left out

- ScanRegistry.ScanJobs.ResumeJob: the lease heartbeat is one of the reasons for which a runner can raise or be cancelled, not a task of its own, because nothing else observes it.
- ScanRegistry.ScanJobs.StartJob: a coroutine cancelled before it begins is a job that is never resumed, so it stays running; nothing is promised about it.
- ScanJobObject.ScanJob.SendJson: the redaction of message content is not modelled; an event's body is the redacted text.
- DeliveryHub.ExactDelivery: speaks of a socket that was not subscribed when it attached; a second attach of a subscribed socket replays the log to it once more.
- RemediationControl.RemediationRunner.ConcludeReport: what the pipeline sends, writes to the summary and does inside a batch is left to the inputs of the step.
- CodeRootCauses.BuildCodeRootCauses: paths and severities arrive normalised, entries that are not objects are already gone, and the limits have their default values.
- SupplyRootCauses.BuildSupplyRootCauses: texts arrive trimmed, with the lower-case package name beside the package name.
- RemediationBatches.BuildRemediationBatches: of a batch's statistics only what the batches themselves show is modelled.
- ChangeNormalizer.NormalizeChanges: how the content is dug out of a proposal, unfenced and decoded is an input.
- GuardedEdits.ExactlyTheseSizesPass: ratios are compared as rationals; the default thresholds and realistic file sizes leave floating point no room to differ.
- GuardedEdits.OnlyValidatedContextFilesChange: the patterns searched in added lines, the parsers, the number of lines a diff keeps and how much of a file is read are inputs.
- TerraformBundle.GenerateBundle: file roles, references, exports and the report's texts are not modelled; loading the curated bundle is an input that does not fail.
- StructurePlan.CoercedPlanIsUsable: only the parts of a plan that shape the bundle are modelled, its groups and its order.
- BudgetLedger.SpendIsBounded: recording is one step here, while the program reads, changes and writes a file, so an update that another process overwrites is not seen; a file that is corrupted or deleted resets the ledger there, and here it persists; configured caps are whole numbers of micro-dollars.
- ManifestValidation.StoredManifestReadsBack: the record of which fields were given explicitly is not part of a manifest's equality and is not kept by the cache either.
- ManifestCache.CachedEqualsFresh: the digest is taken to be free of collisions, so the key is the stream itself; files that cannot be read count as files whose content is the marker text.
- StaleManifests.RailsGoesStaleIff: speaks of the Ruby branch of detection, so of repositories without a manifest of their own and without a file that an earlier branch looks for.
- BatchPlan.EverythingSelectedIsBatched: speaks of the default limits.
- PhaseScheduler.VerdictIsHonest: a send that raises where nothing catches it ends the run without a return, and is not a step.
- PhaseScheduler.EveryListedModuleIsSettled: assumes that the phases list no module twice, and for Syft that Grype is listed; the list itself is in a module that is not part of this model.
- ApplyRegistry.OneThreadPerKey: a thread is counted from the moment its work is handed over, also while it queues for an executor thread.
- ApplyRegistry.TerraformApplies.Conclude: the log lines and deployment metadata added to a result are not modelled.
- DatabaseUrl.BuiltUrlReadsBack: hosts with brackets are excluded, as the program leaves them to the URL library; names are compared as they are written, without folding their case.
- The order in which manifest detection looks at a repository: the cache theorem holds for every choice of manifest.
- `ScanJobs.snapshot`, the fairness of locks and semaphores, wall-clock time, and process restarts.
- Trimming findings for small prompts, prompt texts, and the bodies of Terraform files.
- `ClaudeBudgetTracker`, whose price function always returns zero, so it never refuses anything.
- `_handle_websocket` as a one-runner protocol, which the program does not guarantee.
