# Verified models of the gateway's search, mutation and release logic

This project models five parts of the gateway and proves properties of them that hold for every input, every schedule
and every crash point:

* the **resumable concurrent grep** of the Obsidian tools: one worker's scan of a file, the reducer that turns event
  streams into a page and a cursor, the sixteen-worker scheduler, and the streaming matcher for lines too long to hold;
* the **staged mutation** of the file layer: a launcher and a helper process that talk over a byte stream, stage a
  file and rename it;
* **release activation**: the pure decision, the interpreter with host effects, and the crash-atomic store;
* the **exact-context patch** of the edit tool;
* **canonical ordering and paths**: depth-first walking, shallow listing pages, the membership digest, physical lines
  and their reader, and the projection of vault paths.

Code that only computes is modelled by functions and lemmas. Code that updates state step by step is modelled by
methods and classes whose contracts equate the new state with a specification function. Programs that run beside each
other (grep workers and visitor; launcher and helper) are state machines over their steps, with every interleaving
and every failure point a step of its own.

## Reading order

| file | what it holds |
|---|---|
| `Ordering.dfy`, `Sorting.dfy`, `Bytes.dfy`, `ByteSearch.dfy`, `Utf8.dfy` | string order, sorting, bytes, literal search, UTF-8 |
| `GrepScan.dfy` | the events of one scan as a specification, and the scan loop proved to send them |
| `GrepPage.dfy`, `GrepPaging.dfy`, `GrepMatches.dfy`, `GrepUnlimited.dfy`, `GrepContext.dfy` | one page scanned sequentially; the paging theorem; which lines are reported; unlimited scans and spent budgets; context windows and restarts |
| `GrepConcurrent.dfy`, `GrepExposure.dfy`, `GrepAfterError.dfy` | the scheduler; exactly when its interleaving does not matter; a run that loses an error |
| `LineEvidence.dfy`, `OversizedScan.dfy`, `GrepFile.dfy` | what a whole line shows; the streaming scanner; from a file's bytes to the lines of a scan |
| `MutationProtocol.dfy`, `MutationSystem.dfy`, `MutationAnswers.dfy`, `MutationSuccess.dfy`, `MutationWitness.dfy` | one protocol side; launcher and helper together; what the caller is told; the undisturbed run; that the assumptions can be met |
| `ReleaseModel.dfy`, `ReleaseStore.dfy`, `ReleaseManager.dfy` | decision, store, interpreter |
| `MutationPatch.dfy`, `PatchMeaning.dfy` | the patch; what it does, said of its replacements alone |
| `WalkOrder.dfy`, `ListPages.dfy`, `Membership.dfy`, `PhysicalLines.dfy`, `VaultPaths.dfy`, `VaultRequests.dfy` | ordering, pages, digest, lines, paths, requests |

## Where the code does not keep what one would expect

* A Markdown file of zero bytes ends the page at once, and what is still pending is not reduced: the page stops at the
  last full boundary reduced before the walk came to it, sixteen files behind (`FreshPageStops`), or, if the empty file
  is among the first sixteen, a fresh page is refused as over its limit although nothing is (`FreshPageRefused`). Asked
  to continue right before it, a page returns the cursor it was given (`EmptyFileHoldsCursor`). No chain over such a
  vault completes (`NeverCompletes`), and a chain none of whose pages is refused completes if and only if no file in
  scope is empty (`CompletesIffNoneEmpty`).
* An error reduced while the walk goes on cancels the workers, and the visitor then drains jobs that no worker will
  take. `ScheduleIndependence` gives the exact condition under which every run of a page ends with the page of one file
  at a time: no error is reduced while the walk waits for room, or drains at a limit with another job pending. When one
  is, some run waits for ever (`ExposedRunHangs`); one vault of three small files also shows a run that loses the error
  (`ErrorCanBeLost`). `ReadableVaultsAgree` names vaults in which it cannot happen: valid UTF-8, responses that fit and,
  for a regular expression, no line too large to be held.
* Remark: once the payload is sent, one protocol side alone would let the commit go out at once
  (`AutomatonAllowsEarlyCommit`); that it waits for the helper's confirmation is proved of the two programs together
  (`CommitOrder`).
* With an empty payload nothing holds the helper back, and it may be two messages ahead of the launcher; the composed
  invariant allows for it.
* A vault path with white space at an edge does not survive projection and normalisation (`EdgeSpaceIsLost`);
  `RoundTripIff` gives the exact condition for all canonical paths.
* White space in front of a leading slash hides it from the check for absolute inputs: what is normalised then begins
  with a slash (`SpacedSlashIsKept`). `AcceptedIsCanonical` gives the exact condition under which what is accepted is
  canonical.

## Model

| member | source | states |
|---|---|---|
| GrepScan.Scan | internal/tools/obsidian/grep_concurrent.go:484-582 | for every start line, resume offset, byte allowance, context size and read sizes the loop sends exactly the specified stream: one candidate with its whole window per delivered matching line, in order, then one closing event |
| GrepScan.JoinWindows | internal/tools/obsidian/grep_concurrent.go:534-543 | a line read joins every waiting window, and the matches that leave are the ones whose window is now complete |
| GrepScan.WantedLine | internal/tools/obsidian/grep_concurrent.go:530-570 | one wanted line either stops the scan with the specified event or keeps the scan invariant at the next line |
| GrepScan.TakeLine | internal/tools/obsidian/grep_concurrent.go:517-529 | validity, the resume offset and its staleness decide each line as specified |
| GrepScan.OutOfBudget | internal/tools/obsidian/grep_concurrent.go:506-511 | the checkpoint of an exhausted budget is the earliest waiting match, or the line after the last one read |
| GrepScan.FlushAtEof | internal/tools/obsidian/grep_concurrent.go:492-501 | at the end of the file every waiting match leaves with its clipped window |
| GrepScan.RingIsWindow | internal/tools/obsidian/grep.go:725-736 | the ring buffer always holds exactly the context lines before the current one |
| GrepScan.ResumeContextIsWindow | internal/tools/obsidian/grep.go:747-756 | the resume context of a checkpoint is where a scan resumed there must start its context |
| GrepContext.WindowIsClipped | internal/tools/obsidian/grep_concurrent.go:550-570 | a reported match carries exactly the c lines before and after it, clipped to the file, with their numbers and texts |
| GrepContext.RestartContinues | internal/tools/obsidian/grep_concurrent.go:466-490 | restarting, with budget for the rest, at any line up to which a whole scan has delivered sends exactly the events the whole scan sends from there on, context and checkpoints included, whether it reaches the end or is stopped by a bad or unfit line |
| GrepContext.CheckpointsRestart | internal/tools/obsidian/grep_concurrent.go:558-567 | the job scheduled from a candidate's emission or retry checkpoint is that restart, behind or at the candidate |
| GrepContext.NothingLargeIsShown | internal/tools/obsidian/grep_concurrent.go:532-549 | for a regular expression no line of a delivered match or of its window is a large one |
| GrepContext.UnfitOnlyForLarge | internal/tools/obsidian/grep_concurrent.go:532-549 | a literal is never unfit, a regular expression only for a large line |
| GrepContext.MisplacedIsStale | internal/tools/obsidian/grep_concurrent.go:526-529 | a resume offset at which no line begins is a stale cursor, and nothing is reported |
| GrepFile.FastMissIsScan | internal/tools/obsidian/grep_concurrent.go:621-651 | for a file in whose bytes the literal is nowhere, the fast path's single event, the end or the error of bytes that are not UTF-8, is what the scan loop would send |
| GrepFile.ValidIffLines | internal/tools/obsidian/grep_concurrent.go:643-646 | a file is valid UTF-8 if and only if each of its lines is |
| GrepFile.NextLine | internal/tools/obsidian/grep.go:570-677 | reading a file line by line, in any read sizes and with long lines scanned as they come, gives exactly the lines of the scan model: their offsets, text, validity and occurrences, the end, or the end of the budget |
| GrepFile.ReportedIffHeld | internal/tools/obsidian/grep_oversized.go:25-70 | from bytes to matches: a valid line is reported if and only if the literal occurs in its text, with as many occurrences as are found from the left |
| GrepFile.FinishOversizedLiteral | internal/tools/obsidian/grep_oversized.go:346-398 | a line too long to hold gets the evidence of its whole text, or the budget ended inside it |
| GrepFile.LinesMakeTheFile | internal/tools/obsidian/grep.go:570-677 | those lines add up to the file, none is without bytes, and there is none if and only if the file is empty |
| GrepPaging.PagingEquivalence | internal/tools/obsidian/grep_concurrent.go:353-442 | a chain of accepted pages that completes has reported exactly the matches of the tree, in order, none lost or repeated, for every limit, budget, context size and response capacity |
| GrepPaging.PagingPrefix | internal/tools/obsidian/grep_concurrent.go:197-233 | an unfinished chain has reported a prefix of them |
| GrepMatches.TreeMatches | internal/tools/obsidian/grep_concurrent.go:544-565 | those matches are exactly the ones of the lines the pattern occurs in, each with its path, number, text, occurrence count, fingerprint and context window |
| GrepMatches.FileMatchesAre | internal/tools/obsidian/grep_concurrent.go:544-565 | a line of a file is reported if and only if the pattern occurs in it, once, and in the order of the lines |
| GrepMatches.PageStopsForReason | internal/tools/obsidian/grep.go:366-417 | a page stops for its result limit if and only if it has that many matches, at the last of them, and for its response only behind a match that fitted |
| GrepPaging.CheckpointAdvancesIffAhead | internal/tools/obsidian/grep.go:339-351 | a checkpoint lets a page end if and only if it is ahead of where the page was asked to begin |
| GrepPaging.BoundaryAdvancesIffAhead | internal/tools/obsidian/grep.go:353-364 | a full boundary does if and only if the page was not asked to begin behind it |
| GrepUnlimited.UnlimitedScan | internal/tools/obsidian/grep_concurrent.go:112-142 | a scan that nothing refuses or limits completes in one page with every match, having counted every file and every byte read |
| GrepUnlimited.BudgetStopsPage | internal/tools/obsidian/grep_concurrent.go:244-261 | a page whose file or byte budget ends with the first n files reports exactly their matches, stops behind the n-th, and names the budget |
| GrepUnlimited.PagesMakeTheUnlimitedScan | internal/tools/obsidian/grep.go:366-454 | the pages of a completed chain together are the page of the unlimited scan |
| GrepPaging.CursorAdvances | internal/tools/obsidian/grep.go:339-364 | over non-empty files every returned cursor continues exactly behind what was reported and is strictly ahead of the one given |
| GrepPaging.PagingTerminates | internal/tools/obsidian/grep_concurrent.go:404-419 | so a chain over a finite tree of non-empty files ends |
| GrepPaging.CompletesIffNoneEmpty | internal/tools/obsidian/grep_concurrent.go:283-288 | a chain none of whose pages is refused completes if and only if no file is empty |
| GrepPaging.NeverCompletes | internal/tools/obsidian/grep_concurrent.go:283-288 | over a tree with an empty file no chain completes |
| GrepPaging.EmptyAheadStops | internal/tools/obsidian/grep_concurrent.go:327-333 | the cursor of a page that stops at an empty file continues exactly behind what was reported, although pending jobs were dropped |
| GrepUnlimited.FreshPageRefused | internal/tools/obsidian/grep_concurrent.go:285-288 | an empty file among the first sixteen makes a fresh page fail with limit exceeded |
| GrepUnlimited.FreshPageStops | internal/tools/obsidian/grep_concurrent.go:285-288 | a later empty file stops a fresh page at the boundary sixteen files before it, with every match up to there |
| GrepPaging.EmptyFileHoldsCursor | internal/tools/obsidian/grep_concurrent.go:283-288 | asked to continue right before an empty file, a page reports nothing and returns the cursor it was given |
| GrepPaging.WalkPages | internal/tools/obsidian/grep_concurrent.go:197-233 | a page asked for any place a cursor can stand is refused, or stops at a cursor that continues exactly behind its matches, or completes with all of them |
| GrepPaging.FileReduces | internal/tools/obsidian/grep_concurrent.go:353-442 | reducing a whole file's stream reports its matches up to where the page stops, or leaves the run at the next file |
| GrepPage.Admit | internal/tools/obsidian/grep_concurrent.go:244-300 | a file is admitted only inside the file and byte budgets, with an allowance that fits what is left |
| GrepPage.StaleIffNotThere | internal/tools/obsidian/grep_concurrent.go:462-474 | a resumed file is a stale-cursor error if and only if it is another file, too short for the cursor, or has no line at the cursor's context offset; otherwise its scan starts at that offset |
| GrepExposure.ScheduleIndependence | internal/tools/obsidian/grep_concurrent.go:112-142 | every run that cannot go on has ended with the matches, stop, cursor and counters of the page of one file at a time, whatever the interleaving, if and only if no error is reduced while the walk waits for room or drains at a limit with another job pending |
| GrepConcurrent.UnexposedRunsAgree | internal/tools/obsidian/grep_concurrent.go:335-351 | a run without such an error ends, and ends with that page, files of zero bytes included |
| GrepExposure.ExposedRunHangs | internal/tools/obsidian/grep_concurrent.go:169-182 | with such an error there is a run that stops moving before its end |
| GrepExposure.ReadableVaultsAgree | internal/tools/obsidian/grep_concurrent.go:112-142 | in a readable vault with responses that fit, every run of any page ends with the page of one file at a time |
| GrepExposure.CutIsLast | internal/tools/obsidian/grep_concurrent.go:253-284 | a scan that its allowance cuts short has the last of the budget: nothing is pending behind it |
| GrepConcurrent.EmptyKeeps | internal/tools/obsidian/grep_concurrent.go:283-288 | at an empty file the run stops at its last full boundary, or its walk has failed and what is pending still decides |
| GrepConcurrent.StepKeeps | internal/tools/obsidian/grep_concurrent.go:161-317 | every step of the visitor or of a worker keeps the invariant that what is left to reduce gives the sequential page |
| GrepConcurrent.ReduceKeeps | internal/tools/obsidian/grep_concurrent.go:353-442 | taking one event from the head job accounts for exactly its share of the sequential result |
| GrepConcurrent.ScheduleKeeps | internal/tools/obsidian/grep_concurrent.go:289-316 | scheduling a file speculatively changes nothing of the result |
| GrepConcurrent.ScheduleBounded | internal/tools/obsidian/grep_concurrent.go:235-317 | scheduling stays inside the window and the reserved budgets, and the jobs channel always has room |
| GrepConcurrent.WindowBound | internal/tools/obsidian/grep_concurrent.go:161-182 | no interleaving exceeds sixteen pending jobs, sixteen workers, one event per channel, or the reserved files and bytes |
| GrepConcurrent.HeadIsServed | internal/tools/obsidian/grep_concurrent.go:169-182 | the job the reducer waits for has an event, is being scanned by a worker that may send, or is next for an idle or finishing worker |
| GrepConcurrent.NoDeadlock | internal/tools/obsidian/grep_concurrent.go:353-363 | a run that has not stopped can always take a step |
| GrepConcurrent.StepDecreases | internal/tools/obsidian/grep_concurrent.go:112-142 | every step of every run, stopped and canceled ones included, decreases one measure, so no run is infinite |
| GrepAfterError.ErrorCanBeLost | internal/tools/obsidian/grep_concurrent.go:128-141 | a run in which the sequential page is an error and the concurrent one succeeds with a cursor past the failed file |
| Utf8.ValidIsOctets | internal/tools/obsidian/grep_oversized.go:231-250 | the decoder accepts exactly the UTF8-octets of the grammar in section 4 of RFC 3629 |
| Utf8.FullRuneIsFinal | internal/tools/obsidian/grep_oversized.go:236-243 | what is decoded from a full rune does not depend on what follows |
| LineEvidence.MatchesExtend | internal/tools/obsidian/grep_oversized.go:266-297 | more text adds occurrences behind the ones counted and changes none of them |
| LineEvidence.MatchesAreLeftmost | internal/tools/obsidian/grep_oversized.go:86-91 | the counted occurrences are real, lie apart, and leave none out that does not begin inside one of them |
| OversizedScan.ExcerptHoldsMatch | internal/tools/obsidian/grep_oversized.go:314-344 | what is shown of a long line is a stretch of whole runes that holds the whole first match, begins at most the lead before it, and knows its columns |
| OversizedScan.ContextIsBeginning | internal/tools/obsidian/grep_oversized.go:314-344 | what is shown of a line as context is the longest beginning of whole runes within the limit |
| LineEvidence.NextStartIsNear | internal/tools/obsidian/grep_oversized.go:165-170 | in valid UTF-8 the next rune start is at most three bytes away |
| OversizedScan.ScanLine | internal/tools/obsidian/grep_oversized.go:198-344 | for every split into chunks the evidence is that of the whole line with a carriage return before the newline dropped, and there is none exactly when the line is not UTF-8 |
| OversizedScan.OversizedLiteralScanner.ProcessValid | internal/tools/obsidian/grep_oversized.go:252-312 | searching one more chunk of whole runes leaves counts, first column, excerpt, prefix and tail those of all text so far |
| OversizedScan.OversizedLiteralScanner.Search | internal/tools/obsidian/grep_oversized.go:266-297 | searching a window that reaches back far enough finds every further occurrence of the whole text and no other |
| OversizedScan.OversizedLiteralScanner.FirstMatch | internal/tools/obsidian/grep_oversized.go:282-296 | the first match's column and the start of its excerpt are where the whole text has them |
| OversizedScan.OversizedLiteralScanner.ExtendExcerpt | internal/tools/obsidian/grep_oversized.go:298-306 | the excerpt grows with the text up to its size limit |
| OversizedScan.OversizedLiteralScanner.FeedUtf8 | internal/tools/obsidian/grep_oversized.go:231-250 | bytes that make whole runes are searched, an unfinished rune is kept, and an encoding error is final |
| OversizedScan.OversizedLiteralScanner.WriteRaw | internal/tools/obsidian/grep_oversized.go:206-219 | the last byte is held back and nothing is lost between chunks |
| OversizedScan.OversizedLiteralScanner.Finish | internal/tools/obsidian/grep_oversized.go:221-229 | the finished text drops a carriage return before a newline, and the invalid flag is whole-line invalidity |
| OversizedScan.OversizedLiteralScanner.Line | internal/tools/obsidian/grep_oversized.go:314-344 | the reported line is the whole line's evidence |
| MutationProtocol.FrameRoundTrip | internal/fsx/mutation_protocol.go:292-334 | a frame is read back as written and nothing after it is touched, whatever those bytes look like |
| MutationProtocol.CutFrameIsShort | internal/fsx/mutation_protocol.go:308-334 | a frame cut short anywhere is never taken for a record |
| MutationProtocol.FieldsBelong | internal/fsx/mutation_protocol.go:258-283 | each phase's record has its own fields, of valid form, and leaves all others empty |
| MutationProtocol.Wire.WriteAll | internal/fsx/mutation_protocol.go:336-350 | all of the value is written, or a strict prefix of it and an error |
| MutationProtocol.Protocol.SendControl | internal/fsx/mutation_protocol.go:137-146 | a record the automaton allows goes out as one whole frame and advances it; otherwise the automaton stays and at most a strict prefix went out |
| MutationProtocol.Protocol.ReceiveControl | internal/fsx/mutation_protocol.go:148-161 | a record is accepted exactly when the bytes are one and the automaton and its field rules allow it |
| MutationProtocol.Protocol.SendPayload | internal/fsx/mutation_protocol.go:165-174 | only the declared number of raw bytes goes out, at its one place in the exchange |
| MutationProtocol.Protocol.ReceivePayload | internal/fsx/mutation_protocol.go:178-187 | exactly the declared number of bytes is taken, whatever they look like |
| MutationSystem.HonestOutcome | internal/fsx/mutation_launcher_darwin.go:134-217 | after every run with failures, kills, crashes and timeouts anywhere: success means the target holds the payload and no stage is left; any other answer but uncertain means the target is as it was, or as somebody else made it, and no stage is left |
| MutationSystem.AlwaysWhole | internal/fsx/mutation_helper_darwin.go:140-256 | at every moment the target shows the whole old or the whole new contents, old being what was there or what somebody else wrote, and no other name changes |
| MutationSystem.CreateNeverOverwrites | internal/fsx/mutation_helper_darwin.go:215-247 | creating never replaces an existing entry, even one made by somebody else during the run |
| MutationSystem.CommitOrder | internal/fsx/mutation_launcher_darwin.go:180-201 | the rename happens only after the commit was sent, and the commit only after the helper confirmed the whole payload |
| MutationSystem.NothingIsRejected | internal/fsx/mutation_protocol.go:189-283 | neither side ever refuses what the other honestly sent, and the payload arrives byte for byte |
| MutationSystem.NoDeadlock | internal/fsx/mutation_launcher_darwin.go:156-216 | until the launcher has returned or died and the helper is gone, some program can go on, after failures too |
| MutationSystem.RegularStepsAreBounded | internal/fsx/mutation_helper_darwin.go:106-256 | every regular step gets further and there are at most a bounded number of them |
| MutationSystem.StepKeeps | internal/fsx/mutation_launcher_darwin.go:156-205 | every step of either program, regular or failing, keeps the composed invariant |
| MutationSystem.CleanupClears | internal/fsx/mutation_launcher_darwin.go:241-264 | a cleanup removes the announced stage and nothing else, or says that it could not |
| MutationSystem.ParentHears | internal/fsx/mutation_launcher_darwin.go:159-205 | what a waiting launcher reads is the next honest reply, or part of one |
| MutationSystem.HelperHears | internal/fsx/mutation_helper_darwin.go:107-181 | what a waiting helper reads is exactly the next record sent to it, or part of one |
| MutationAnswers.TerminalIsAnswered | internal/fsx/mutation_staged_darwin.go:144-162 | an accepted terminal is answered by what it says: success if and only if the payload is in place and confirmed; source changed if and only if a replace found another version; destination exists if and only if a create was refused, so always if the target was there from the start; unsupported, denied and uncertain likewise |
| MutationAnswers.SuccessMeans | internal/fsx/mutation_helper_darwin.go:188-247 | a successful replace has replaced the version the caller saw, a successful create has found the name free |
| MutationAnswers.VerdictTells | internal/fsx/mutation_helper_darwin.go:188-247 | the helper's verdict says what it found at the target at that moment, in all three cases |
| MutationAnswers.UncertainWhen | internal/fsx/mutation_staged_darwin.go:131-142 | uncertain is the answer only if a stage is left, or the commit was sent and no terminal came back, or the terminal says so |
| MutationAnswers.EarlyFailureIsNamed | internal/fsx/mutation_staged_darwin.go:131-142 | before the commit the answer is that of the failure met, unless the stage could not be removed |
| MutationAnswers.OtherVersionIsLeft | internal/fsx/mutation_helper_darwin.go:111-117 | a replace of a version that is not the expected one stages nothing and never succeeds |
| MutationAnswers.HelperIsTrusted | internal/fsx/mutation_launcher_darwin.go:159-170 | a helper that runs another executable than the launcher's gets no further than its first reply |
| MutationSuccess.UndisturbedSucceeds | internal/fsx/mutation_helper_darwin.go:140-256 | with nothing in its way and no failure, a mutation that returns has succeeded |
| MutationSuccess.SomeRunSucceeds | internal/fsx/mutation_launcher_darwin.go:134-217 | and it can always go on until it has returned: there is such a run for every mutation |
| MutationWitness.CodecExists | internal/fsx/mutation_protocol.go:89-103 | whatever a mutation's operation, names, stamps and payload, some encoding carries every record of its exchange in a frame |
| MutationWitness.MutationsExist | internal/fsx/mutation_launcher_darwin.go:134-155 | the assumptions of these results are met by a create and a replace with any payload |
| ReleaseModel.DecideRejectsOrActs | internal/releaseactivation/model.go:229-235 | a decision rejects and keeps everything, or gives exactly one command |
| ReleaseModel.DecideIsWarranted | internal/releaseactivation/model.go:69-218 | every command is warranted by the state, the event and the observed target, and changes only the state |
| ReleaseModel.AcceptDecided | internal/releaseactivation/model.go:171-191 | acceptance goes ahead if and only if the request is for this release by its controller, with its artifacts and supervision as recorded, and the candidate is installed, ready and not unloaded; why it is refused otherwise |
| ReleaseModel.ReadyDecided | internal/releaseactivation/model.go:136-170 | a prepared release becomes pending if and only if its candidate is installed under the recorded supervision and ready; why not otherwise |
| ReleaseModel.ResumeDecided | internal/releaseactivation/model.go:136-170 | a deployment is resumed if and only if the release is prepared, its supervision is as recorded and the old or the new file is installed |
| ReleaseModel.RollbackDecided | internal/releaseactivation/model.go:136-218 | a rollback goes ahead if and only if the release is not accepted, its supervision is as recorded and a file it knows is installed; what it does then |
| ReleaseModel.PrepareDecided | internal/releaseactivation/model.go:115-135 | a release is published if and only if it is valid, freshly prepared, and says truly what is installed |
| ReleaseModel.RefusalsAreNamed | internal/releaseactivation/model.go:69-113 | why a request is turned away before the installed files are looked at |
| ReleaseModel.DecideClears | internal/releaseactivation/model.go:192-218 | the slot is cleared if and only if the recorded direction has demonstrably been reached |
| ReleaseModel.RollbackProceeds | internal/releaseactivation/model.go:159-218 | with matching fingerprints a rollback is never refused before acceptance, wherever the deployment stopped |
| ReleaseModel.ValidAfterDecide | internal/releaseactivation/model.go:69-83 | a decision that is not a rejection was made on a valid snapshot and leaves a valid one |
| ReleaseModel.ServiceOrderIsCanonical | internal/releaseactivation/model.go:344-357 | services are accepted if and only if they are the canonical order restricted to a set that has the required first one |
| ReleaseStore.Store.WriteManifestAtomic | internal/releaseactivation/store.go:604-665 | a stop anywhere leaves the old manifest or the whole new one |
| ReleaseStore.LoadsOnlyWhole | internal/releaseactivation/store.go:495-541 | a load shows a release if and only if the active directory holds one whole valid manifest and exactly the artifacts it names |
| ReleaseStore.Store.Prepare | internal/releaseactivation/store.go:276-373 | a stop anywhere leaves the slot as it was or holding the whole recorded manifest with its artifacts; only a clear slot is taken; undisturbed, it succeeds if and only if the sources are as named and the manifest is valid and placed |
| ReleaseStore.Store.Stage | internal/releaseactivation/store.go:303-352 | nothing but the staging directory changes, and on success it loads as the recorded manifest |
| ReleaseStore.Store.Rewrite | internal/releaseactivation/store.go:377-399 | a stop anywhere leaves the old or the new manifest, which differ only in their state |
| ReleaseStore.Store.Clear | internal/releaseactivation/store.go:404-449 | a stop anywhere leaves the slot as it was or clear; success means clear |
| ReleaseStore.Store.CleanupOrphans | internal/releaseactivation/store.go:257-272 | never changes what a load returns, and on success leaves no staging or cleanup directory and no temporary file |
| ReleaseManager.AllOrNothing | internal/releaseactivation/manager.go:290-510 | in every history of changes a slot that becomes clear leaves the candidate installed if accepted, or exactly what was installed when the release was prepared |
| ReleaseManager.ActiveTargetIsKnown | internal/releaseactivation/model.go:115-309 | while a release is active the target is its candidate or what was installed before |
| ReleaseManager.DirectionIsKept | internal/releaseactivation/model.go:192-218 | accepting and rolling back are only ever left by clearing |
| ReleaseManager.Manager.RollbackIsDue | internal/releaseactivation/manager.go:406-422 | whatever has happened since the slot was last clear, a rollback of the release it holds is due until acceptance |
| ReleaseManager.Manager.Prepare | internal/releaseactivation/manager.go:73-221 | records a prepared release of what is installed now, in a clear slot, with everything that was asked for and every captured service, without touching the target; undisturbed, a request in order succeeds |
| ReleaseManager.Manager.Run | internal/releaseactivation/manager.go:290-379 | every change made is a legal step; success means the event's goal; undisturbed, a request that is due succeeds |
| ReleaseManager.Manager.Interpret | internal/releaseactivation/manager.go:329-379 | carrying out the decided command makes only legal steps and reaches its goal |
| ReleaseManager.Manager.Deploy | internal/releaseactivation/manager.go:330-349 | a deployment ends pending with the candidate installed and every service ready, or is rolled back |
| ReleaseManager.Manager.ResumeDeployment | internal/releaseactivation/manager.go:381-404 | success means the candidate is installed and every service is ready after its restart; a failure turns into a rollback |
| ReleaseManager.Manager.RollbackDeploymentFailure | internal/releaseactivation/manager.go:406-422 | never reports success; a reported rollback has restored the target and cleared the slot |
| ReleaseManager.Manager.FinishAccept | internal/releaseactivation/manager.go:424-440 | success means a clear slot with the candidate installed |
| ReleaseManager.Manager.FinishRollback | internal/releaseactivation/manager.go:442-475 | success means a clear slot with the original target; undisturbed, it succeeds |
| ReleaseManager.Manager.ResumeRollback | internal/releaseactivation/manager.go:477-510 | restores or removes only while rolling back; undisturbed, the target is the original and the services are ready or stopped |
| ReleaseManager.Manager.Observe | internal/releaseactivation/manager.go:533-551 | an observation shows the target as it is and, undisturbed, the readiness and the unloading of all services joined |
| ReleaseManager.Manager.Resume | internal/releaseactivation/manager.go:226-228 | success means pending with the candidate installed |
| ReleaseManager.Manager.Accept | internal/releaseactivation/manager.go:232-237 | success means clear with the candidate installed; undisturbed, a pending release that is not serving is refused and stays as it is |
| ReleaseManager.Manager.Rollback | internal/releaseactivation/manager.go:241-246 | from wherever a deployment stopped, one undisturbed rollback restores the target and clears the slot |
| MutationPatch.ApplyMutationPatch | internal/tools/obsidian/mutation_tools.go:231-276 | the loops compute the specified outcome: one error for every unusable patch, one for an oversized result, or the source with every span replaced |
| PatchMeaning.AcceptedIff | internal/tools/obsidian/mutation_tools.go:231-264 | a patch is taken if and only if it has one to sixty-four replacements of bounded size together, each context occurs exactly once, and no two overlap |
| PatchMeaning.PatchOfOne | internal/tools/obsidian/mutation_tools.go:268-275 | one replacement gives the source with the new value in place of the context, unless that is too large |
| PatchMeaning.NewValuesStand | internal/tools/obsidian/mutation_tools.go:268-275 | every new value stands in the result, where the replacements before it have moved its place |
| PatchMeaning.OtherBytesStay | internal/tools/obsidian/mutation_tools.go:268-275 | every byte outside the contexts stands in the result, moved alike |
| PatchMeaning.PatchedLength | internal/tools/obsidian/mutation_tools.go:257-267 | the result is as long as the source and what each replacement adds, and too large exactly when that is |
| MutationPatch.Locate | internal/tools/obsidian/mutation_tools.go:232-255 | finds the span of every replacement, or that some replacement makes the patch unusable |
| MutationPatch.SearchDecidesOnce | internal/tools/obsidian/mutation_tools.go:250-253 | two searches decide whether the context occurs exactly once, overlapping occurrences included |
| MutationPatch.ChainedMeansDisjoint | internal/tools/obsidian/mutation_tools.go:256-264 | the pass over the sorted spans decides whether any two of them overlap |
| MutationPatch.LengthIsFinal | internal/tools/obsidian/mutation_tools.go:257-267 | the result has the length computed before it is built, which is never negative |
| MutationPatch.TogetherIsOneByOne | internal/tools/obsidian/mutation_tools.go:268-275 | replacing all at once is replacing one by one from the back |
| MutationPatch.InverseRecovers | internal/tools/obsidian/mutation_tools.go:268-275 | putting the old values back at the shifted spans recovers the source |
| MutationPatch.OrderDoesNotMatter | internal/tools/obsidian/mutation_tools.go:231-276 | neither the result nor the kind of failure depends on the order of the replacements |
| Sorting.SortKeeps | internal/tools/obsidian/mutation_tools.go:256 | a sort rearranges its input into order |
| Sorting.SortedIsUnique | internal/tools/obsidian/mutation_tools.go:256 | an arrangement whose elements cannot change places is the only sorted one, so the algorithm does not matter |
| Ordering.LessIsFirstDifference | internal/fsx/list_unix.go:235-249 | a string is less than another if and only if it is a proper beginning of it or smaller at the first difference |
| Ordering.BeforeIsByKeys | internal/fsx/list_unix.go:235-249 | positions go by their NFC form, and by the stored form where those agree |
| WalkOrder.WalkIsAscending | internal/fsx/walk_unix.go:197-208 | sorting each directory with a slash behind directory keys and descending at once visits files in strictly increasing full-path order |
| WalkOrder.WalkIsComplete | internal/fsx/walk_unix.go:138-197 | every regular file that no hidden name leads to is visited, and nothing else |
| WalkOrder.SiblingsApart | internal/fsx/walk_unix.go:320-330 | all files below one sibling come before all files below a later one |
| WalkOrder.UntilIsPrefix | internal/fsx/walk_unix.go:110-126 | a stop leaves a beginning of the full walk that ends where the visitor first stopped |
| WalkOrder.WalkOpenedDirectory | internal/fsx/walk_unix.go:75-133 | the recursive walk visits the specified files until the visitor stops |
| ListPages.ListPage | internal/fsx/list_unix.go:71-226 | the page is that of filtering behind the boundary, sorting and taking the limit, with an exact flag for more, for every enumeration order |
| ListPages.Offer | internal/fsx/list_unix.go:140-151 | offering an entry keeps the heap holding the first entries seen so far |
| ListPages.PagesListEverything | internal/fsx/list_unix.go:134-139 | chained pages list every visible entry behind the first boundary once, in order |
| Membership.MembershipAccumulator.Add | internal/fsx/list_unix.go:273-296 | the carry loop is addition modulo 2^256, beside an exclusive or and two counters |
| Membership.OrderDoesNotMatter | internal/fsx/list_unix.go:273-296 | the accumulated membership is the same for every order of enumeration |
| Membership.TotalMeans | internal/fsx/list_unix.go:273-296 | a membership is the number of names, the sums of their sizes and of their digests, and the exclusive or of these, each modulo its width |
| Membership.ValueInjective | internal/fsx/list_unix.go:291-295 | the sum's bytes are determined by its value |
| PhysicalLines.IndexPhysicalLines | internal/tools/obsidian/markdown.go:110-135 | one pass builds the specified table, or there are more lines than allowed |
| PhysicalLines.LinesPartition | internal/tools/obsidian/markdown.go:110-135 | the lines follow one another without gaps from the first byte to the last |
| PhysicalLines.LineIsTextAndEnd | internal/tools/obsidian/markdown.go:115-135 | a line is its text and a newline, a return and a newline, or nothing at the end of the source; the text holds no newline and loses only a return right before one |
| PhysicalLines.LineCount | internal/tools/obsidian/markdown.go:111-114 | the number of lines is that of the newlines, and one more for an unterminated last line |
| PhysicalLines.LineIndexAt | internal/tools/obsidian/markdown.go:137-154 | the binary search returns the line that holds the offset |
| PhysicalLines.LineIsUnique | internal/tools/obsidian/markdown.go:137-154 | only one line holds an offset |
| PhysicalLines.SelectionLines | internal/tools/obsidian/markdown.go:156-165 | a selection's lines are those of its first and last byte, and an empty selection's that of its place |
| PhysicalLines.GrepLineReader.Next | internal/tools/obsidian/grep.go:570-677 | whatever sizes reads return, the reader gives the specified line, end, budget or oversize result |
| PhysicalLines.ReaderAgreesWithTable | internal/tools/obsidian/grep.go:570-677 | within budget and line limit the reader gives the table's lines with the same numbers, ranges and texts |
| VaultPaths.RoundTripIff | internal/fsx/fsx.go:138-185 | normalising a projected path against its base gives back the canonical path if and only if the projection has no white space at its edges and is not too long |
| VaultRequests.NormalizeDecided | internal/fsx/fsx.go:138-185 | what is accepted, and what is denied with which error, for all bases and inputs, said of the segments they reduce to |
| VaultRequests.AcceptedIsCanonical | internal/fsx/fsx.go:138-185 | what is accepted is inside the vault, without hidden segments and within both limits, if and only if white space has not hidden a leading slash |
| VaultRequests.SpacedSlashIsKept | internal/fsx/fsx.go:195-203 | for example an input of white space, a slash and a name |
| VaultPaths.RoundTripOfPlainSegments | internal/fsx/fsx.go:187-193 | for segments without white space at their edges the size of the projection is the only condition |
| VaultPaths.EdgeSpaceIsLost | internal/fsx/fsx.go:187-193 | for example a path that ends in white space, which loses it |
| VaultPaths.Project | internal/tools/obsidian/path_coordinate.go:37-64 | the projection with its shortcuts goes up to where the two paths part, then down |

## Left out

* Cursor encoding, sealing and decoding: a cursor is its typed state, digests are what they digest, and an offset that
  is not a line start is taken for a stale cursor, which no sealed cursor of the code can contain.
* Timeouts, outside cancellation and source changes during a grep: the theorems are about runs without them; the
  cancellation a run brings on itself by stopping or failing is modelled.
* The mapping of walk errors on resumed grep pages to a stale cursor, and the error outputs of the tools.
* Regular expressions, case-insensitive literals and Unicode normalisation: matching is a number of hits per line,
  NFC a function with the segment laws it needs, and the streaming scanner is that of a case-sensitive literal.
* The library heap behind listing pages and the library sort: any max-heap root and any sorting algorithm will do.
* Memory-mapped line buffers and telemetry.
- GrepExposure.ScheduleIndependence: cancellation from outside, timeouts and source changes are not modelled; of an exposed run it is only said that it may hang, may lose its error, and keeps that error as the walk's.
- GrepExposure.ReadableVaultsAgree: is one way, because a vault may hold unreadable files that no page of it reaches before its walk is over.
- GrepContext.RestartContinues: is about scans that a spent budget does not end; those are the subject of the paging theorem.
- GrepFile.NextLine: is about case-sensitive literals; the text shown for a line is any function of its evidence.
- GrepPage.Admit: a file whose size changed between the walk and the open is not modelled, because the tree is unchanged during a page.
- ReleaseManager.Manager.Prepare: reading and hashing the inputs is one step that succeeds or fails, and the captured services are given; paths are checked by predicates of the host.
- ReleaseStore.Store.Stage: half-copied artifacts are not told apart, because no load looks at them before the rename.
- MutationSystem.HonestOutcome: assumes that nobody else writes a target that is being replaced between the helper's last look and the rename, that the random stage name is new, that a failed write delivers a strict prefix and that a failed rename changes nothing.
- MutationProtocol.FrameRoundTrip: the JSON encoding is any codec that carries the records of the exchange, in which it has only its own names and machine-word stamps.
- PhysicalLines.GrepLineReader.Next: a read returns at least one byte, because the file is unchanged and reads that fail are not modelled; a literal line beyond the cap is handed over with its first bytes to `GrepFile.FinishOversizedLiteral`.
- ReleaseManager.Manager.Observe: a disturbed observation may report anything about the services.
* Power loss in the release store: a crash ends the process, what was renamed stays renamed.
* The lifecycle lock, legacy manifests' controllers, launchd, HTTP probes and file attributes: steps that succeed,
  fail, or end the process before or after their effect.
* Directory verification after a walk and the identity checks of a listing: they only turn a changed directory into an error.
* The close-once map of native documents, configuration, schemas and the YNAB helpers: they would only add easy members.
