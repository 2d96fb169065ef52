# Verification of the GPTWork backend

A Dafny model of the parts of the backend that decide what happens to a repository,
a run store or a text when anything may go wrong half-way, with proofs of what they
keep. `dafny verify dfyconfig.toml` verifies all of it.

## What is modelled

**Git integration and recovery.** `CommitGraph` is a finite acyclic commit graph in
which a commit's parents are older than it; ancestry is proved to be reachability.
`GitRefs` adds branch tips and the checked-out branch, and `Forward`: the checked-out
branch may have moved forward and nothing else has moved. `GitRepository.Repository`
has one method per git command; each may fail, and a failing command may still have
had its effect. The commands run and what they reported are kept in a log, so contracts
say which ones an outcome took. The task worktree is a linked worktree, so its branch is
a branch of this repository (backend/src/task-worktree-manager.mjs:177), and a rebase
moves it. Safety is proved on every such repository; on a `faultless` one, where commands fail
for their own reasons only (a pick that adds nothing, local changes in the way of a
rebase, a merge commit that cannot be picked), the exact outcomes are proved too. On
top of it are the recovery of a failed fast-forward (`CanonicalRecovery`), the
automatic integration run (`AutoIntegration`) and the cleaning of a dirty working tree
(`DirtyRecovery`).

**Agent runs.** `AgentRunStore.Store` holds run objects that the atomic
`store.mutate` steps create and change in place; `View()` is what the objects hold.
`AgentRunWriteback` is the idempotent write per task and contract role,
`AgentRunRoles` the eight role writers, `AgentRunPipeline` skipping what follows a
blocker, `AgentRunSettling` settling queued runs, `AgentRunLifecycle` any sequence of
these on a store that may fail anywhere. `AgentRunSteps` are concurrent writes as
schedules of atomic steps that may fail; `AgentRunInterleaving` (distinct pairs),
`AgentRunClashes` (one run per pair), `AgentRunKinds` (nothing supplied is lost) and
`AgentRunAlone` (a write that is the only one for its pair) say what every schedule keeps,
and `AgentRunBatch` runs the writes on the store. `AgentRunJobs`, `AgentRunJobClashes`,
`AgentRunJobAlone` and `AgentRunJobBatch` do the same for schedules that also interleave
skips and settlings.
`AgentArtifacts` and `AgentGates` are the artifact contract and the completion gates
that read the same runs.

**Timers and workers.** `Heartbeat` is the throttled heartbeat as a timer-driven
state machine over arbitrary event sequences. `WorkerPool` holds the two bounded
pools; a nondeterministic scheduler picks the next worker at every await.

**Text forms.** `PathQuoting` and `Porcelain` (the status report), `RuntimeEnv` (the
runtime.env editor), `StdoutReport` (the stdout report), `Utf8` and `Truncation` (the
output truncator) print and parse characters and bytes, over the string operations of
`Text`.

**Blocker convergence.** `BlockerConvergence` is the manifest of current blockers and
the passes over it, with the unseen policy modules as function parameters.

Methods follow the source's loops and branches and are proved against the functions
named in their contracts; what those functions mean is stated beside them over the inputs
and fields alone, without the functions that decide it in the code.

## What the proofs found

Where the code and its documentation, or the expected property, disagree, the model
follows the code and states the exact condition:

- `ReadPathRightIff`, `BlankMisread`, `ArrowMisread`: a path is read from the status
  report as it is exactly when git prints it without quotes. The quotes around "a b" are
  read as part of the name, and of an untracked "a -> b" only the end is read. The report
  itself is never ambiguous (`PrintLineInjective`).
- `RecoverCanonicalDirty`: the comment before the final sweep says that result.json is
  never removed (backend/src/canonical-recovery.mjs:373-375), but the loop before it
  removes every reported untracked path it reads right. Only what was printed in quotes is
  left to the sweep, which keeps result.json; and restoring is only sure to reach a changed
  file that is printed without them.
- `ClassifyAndRecover`, `UnreadDirtyAnsweredClean`: an unreadable status report reads as an
  empty one, so the recovery then answers "clean", and that is wrong exactly when the
  tree is dirty. The caller checks before and goes on only on a clean tree
  (`CleanBeforeDelivery`).
- `ReasonRightIff`, `UnreadDivergenceIsAdvance`: a log that cannot be read counts as
  no commits, and diverged histories can then be reported as a plain advance.
- `ClassifyFFOnlyFailure`: the documented reason `merge_conflict` is never given, and
  when canonical has advanced the dry run always reads as a conflict, because there is
  no merge to abort; so does a commit that shares no history.
- `RecoverFFOnlyMerge`: the outcome `recovery_failed` is never returned; that exit
  reads `rebaseError` outside its scope and throws
  (backend/src/canonical-recovery.mjs:643). The commit picked in the second strategy is
  the worktree's HEAD as the failed rebase left it, and a pick that does not apply leaves
  the temporary branch behind.
- `RunTwice`: running the integration once more after it has merged the commit completes
  again, but after a cherry-pick it is blocked by `cherry_pick_commit_failed`, because the
  second pick adds nothing and git refuses to commit it.
- `RunAutoIntegrationCompletion`: `canonical_head_before` is the lifecycle's base
  commit when there is one, not the head before the merge
  (backend/src/auto-integration-completion.mjs:518-519).
- `RateBoundIff`: the heartbeat's rate bound holds on every run exactly when the
  interval is at most 2147483647 milliseconds; a longer timeout fires at once.
- `SetThenRead`, `ValueReadBackIff`, `CommentKeyUnreadable`: a value set in
  runtime.env is lost exactly when an indented assignment of the key takes effect
  after the rewritten line, and a key that starts with "#" is never read back.
- `TextRewritten`: a key that is added to a file that ends in a line break stands behind a
  blank line.
- `LongestFitIff`, `GenuineReplacementLost`: truncation keeps the longest prefix within both
  budgets, except exactly when the last character within the byte budget is a genuine
  U+FFFD and the line budget does not cut before it; that character is lost.
- `PassRecordedIff`, `StaleVerification`: a passing verification ends up on record exactly
  when one was before or the run held nothing under "verification", because an artifact
  kind that is there is not replaced. A verifier that failed and then passed is completed,
  and its record still says that it did not pass.
- `SettledContract`: a queued repairer settled from evidence gets the kind "repairer"
  and so misses its contract, which asks for "repair".
- `SuccessOpensGateIff`: a bare artifact name such as "result" blocks the record of
  that kind and keeps the gate of a completed run closed.
- `UniqueIff`, `JobsUniqueIff`: concurrent writes, skips and settlings keep one run per
  task and role on every schedule exactly when no pair without a run is claimed twice, by
  two of them or by a skip that names its role twice; otherwise both can list nothing and
  create two. A settling never claims.
- `KindsKeptIff`: every schedule keeps what the writes that do not fail supply exactly when
  every pair is `PairSafe`. Otherwise a write that inspected its run early and completes it
  last drops what the others added in between, or a creator closes its run with its own
  artifacts. What a run held before is never lost (`HeldBeforeKept`).
- `BlocksAgreesIff`, `OpenGateStillBlocks`: the runs block completion also when some run
  does not open a gate that another run of its role has opened; blocking and a closed gate
  agree exactly when a gate is closed or no gate is in that state.
- `WaitingKeptIff`: a convergence pass does not look at the tasks again before it completes
  them, so it completes a task that has come to wait for integration meanwhile, exactly
  when that task was eligible at the load.
- `CategoryIff`: a task that waits for review is categorised as a true human review before
  the branch that would tell failures from it is reached
  (backend/src/blocker-manifest.mjs:138-146).
- `SkippingKeepsUniqueIff`, `SynonymsMakeTwo`: skipping keeps one run per contract role
  exactly when no two names, up to the first unsupported one, stand for the same missing
  role; "qa" and "tester" do.
- `AddingKeepsGatesIff`: with no required roles given, adding a run can close
  satisfied gates, exactly when it brings in a role that was not gated and does not
  open its gate.

## Model

| member | source | states |
|---|---|---|
| CommitGraph.AncestorIffReached | backend/src/canonical-recovery.mjs:420-434 | Ancestry, which the log and merge-base commands answer about, is reachability along parent links |
| CommitGraph.AncestorsGrow | backend/src/canonical-recovery.mjs:549-598 | New commits never change the ancestry of old ones |
| CommitGraph.AheadDecidesAncestry | backend/src/canonical-recovery.mjs:426-430 | For a best common ancestor, a side is zero commits ahead exactly when it is an ancestor of the other side |
| CommitGraph.AheadCases | backend/src/canonical-recovery.mjs:442-454 | The four combinations of the two counts are exactly: equal, proper ancestor one way, the other way, and neither reaches the other |
| GitRefs.ForwardTransitive | backend/src/auto-integration-completion.mjs:517-586 | Steps that only move the checked-out branch forward compose |
| GitRefs.ForwardKeepsHistory | backend/src/auto-integration-completion.mjs:517-586 | Whatever was in the history of a branch before such steps is in it afterwards |
| GitRepository.Repository.MergeFFOnly | backend/src/auto-integration-completion.mjs:527 | Moves the tip only to a descendant, may fail before or after, and success means that the commit is in the history; on a clean tree without faults it succeeds exactly when the commit is contained or a descendant |
| GitRepository.Repository.CherryPickNoCommit | backend/src/auto-integration-completion.mjs:534-554 | Stages the commit's changes, nothing when they are in the history already; refuses a merge commit |
| GitRepository.Repository.Commit | backend/src/auto-integration-completion.mjs:556-574 | Adds one commit on the tip that records the commit whose changes were staged; fails when nothing is staged |
| GitRepository.Repository.RebaseWorktree | backend/src/canonical-recovery.mjs:554-555 | Refused with local changes; moves only the worktree's branch, onto what was fetched, and its old tip stays in its history exactly when the two had not diverged; may stop in the middle |
| CanonicalRecovery.ReasonRightIff | backend/src/canonical-recovery.mjs:427-454 | The reason given is the true relation of the heads exactly when the logs that matter were read |
| CanonicalRecovery.UnreadDivergenceIsAdvance | backend/src/canonical-recovery.mjs:428-444 | With the commit's log unread, diverged histories are reported as a canonical advance |
| CanonicalRecovery.DryRun | backend/src/canonical-recovery.mjs:456-465 | Whatever fails, no conflict is reported exactly when the trial merge and its abort both worked; on a clean tree without faults the dry run reads as a conflict exactly when git has nothing it could merge: the commit is contained, or shares no history |
| CanonicalRecovery.ClassifyFFOnlyFailure | backend/src/canonical-recovery.mjs:416-489 | With both logs read, advanced, diverged and unknown mean proper descendant, neither reaching the other, and fast-forward possible; never merge_conflict; a conflict is detected unless the trial merge and its abort worked; on a clean tree without faults recoverable means exactly that no fast-forward is possible |
| CanonicalRecovery.KeptForward | backend/src/canonical-recovery.mjs:549-630 | The recovery invariant survives every command that moves the checked-out branch forward |
| CanonicalRecovery.TryRebase | backend/src/canonical-recovery.mjs:549-582 | Success means no local changes, HEAD at the worktree's HEAD, and fetch, rebase and fast-forward in this order; without faults only local changes stop it; the invariant holds at every failure point |
| CanonicalRecovery.PickOnBranch | backend/src/canonical-recovery.mjs:586-594 | The pick lands on a fresh temporary branch and picks the worktree's HEAD |
| CanonicalRecovery.TryCherryPick | backend/src/canonical-recovery.mjs:585-603 | Success means that HEAD is the default branch at a recorded pick of the worktree's HEAD, by the commands in their order; without faults the pick is the one commit added and the temporary branch is gone, or nothing moved and it is still there |
| CanonicalRecovery.Restore | backend/src/canonical-recovery.mjs:622-625 | The last two commands are the return to the default branch, which is checked out again if that works, and the abort of a merge |
| CanonicalRecovery.RecoverFFOnlyMerge | backend/src/canonical-recovery.mjs:514-651 | At every exit, normal or exceptional, the old canonical tip is an ancestor of the new one, HEAD is on the default branch unless the return to it failed, and no other branch moved but the task worktree's, by a rebase onto that tip, its old tip staying in its history exactly when the two had not diverged; the commands run are those of the outcome; unrecoverable failures run none; without faults the rebase recovers unless the worktree has local changes, and then the pick does exactly when it applies, adding that commit and nothing else, and canonical is back on its branch and clean in every case |
| AutoIntegration.AnalyzeCandidate | backend/src/auto-integration-completion.mjs:182-272 | Each blocker is given exactly when its evidence is missing, in the fixed order that makes the first one the reason; none exactly when the status, acceptance, paths and evidence needed for the kind of completion are there |
| AutoIntegration.NoObjection | backend/src/auto-integration-completion.mjs:182-272 | The conditions of the blockers together are exactly the conditions of eligibility |
| AutoIntegration.VerifyPostMerge | backend/src/auto-integration-completion.mjs:325-368 | The report taken is that of the changed profile exactly when its command exited with 0 and it passed, is not dirty, satisfies its profile and names the expected head, and that of the fast profile otherwise; it is accepted exactly when it is such a report |
| AutoIntegration.PickAndCommit | backend/src/auto-integration-completion.mjs:533-576 | Without faults the blocker is exact: a merge commit cannot be picked, and a pick that adds nothing cannot be committed; a blocked pick moves nothing |
| AutoIntegration.Integrate | backend/src/auto-integration-completion.mjs:526-581 | Without a blocker the commit is in the history, or a recorded pick of it is; history is only extended in every case; without faults the blocker is the obstacle there is, and a picked commit is an obstacle to itself afterwards |
| AutoIntegration.BringIn | backend/src/auto-integration-completion.mjs:520-581 | A contained commit needs nothing and moves nothing; without faults the blocker is exactly the obstacle: not a fast-forward and picking not allowed, a merge commit, or a pick that adds nothing |
| AutoIntegration.CompleteUnchanged | backend/src/auto-integration-completion.mjs:459-493 | A task that changed nothing completes without a merge, exactly when the tree is clean, and is blocked as dirty otherwise |
| AutoIntegration.CompleteAtHead | backend/src/auto-integration-completion.mjs:417-493 | Completion without a merge names the task's commit, or HEAD when it has none |
| AutoIntegration.VerifyAndComplete | backend/src/auto-integration-completion.mjs:583-612 | Completes exactly when a report accepts HEAD and the tree is seen to be clean, else one blocker |
| AutoIntegration.MergeAndVerify | backend/src/auto-integration-completion.mjs:495-612 | Completion needs the task's side to be ready and accounts for the task's commit; a failed pick is aborted; without faults it is what is not ready on the task's side, or the obstacle with nothing moved, or the merge, completed exactly when a report accepts the new head |
| AutoIntegration.RunAutoIntegrationCompletion | backend/src/auto-integration-completion.mjs:370-616 | History is only extended at every exit; completed exactly when the blocker list is empty, which needs every piece of evidence; an ineligible candidate is told all that is missing and nothing is run for it or on a dirty tree; completion by merge has a passing clean report of exactly HEAD, of the changed profile only if its command exited with 0, a clean tree before and after and the commit in the history, or HEAD as its pick where that is allowed; without faults the exact outcome of every kind of completion |
| AutoIntegration.RunTwice | backend/src/auto-integration-completion.mjs:520-581 | After a run that merged the commit a second one moves nothing; it completes again if a report accepts HEAD, unless the first had picked the commit, and then it is blocked by the commit of the empty pick |
| Porcelain.ParseStatusEntries | backend/src/canonical-recovery.mjs:154-166 | The loop collects the entry of every line, in order |
| PathQuoting.PrintNamePrefix | backend/src/canonical-recovery.mjs:160-161 | A printed name can be told from whatever follows it, so printing loses nothing |
| Porcelain.PrintLineInjective | backend/src/canonical-recovery.mjs:154-162 | No two lines of a status report print alike |
| Porcelain.ReadPathRightIff | backend/src/canonical-recovery.mjs:160-163 | A path is read back as it is exactly when it is printed without quotes; else it is read with its quotes or cut at an arrow in it |
| Porcelain.LastOfNames | backend/src/canonical-recovery.mjs:161-162 | What is read of a rename is what is read of its new path, whatever the old one is |
| Porcelain.BlankMisread | backend/src/canonical-recovery.mjs:160-163 | A name with a blank is read with the quotes around it |
| Porcelain.ArrowMisread | backend/src/canonical-recovery.mjs:161-162 | Of an untracked name with an arrow only the end is read |
| Porcelain.StatusRoundTrip | backend/src/canonical-recovery.mjs:40-48 | Reading the trimmed text of a status report gives one entry a line, in order, with the untracked flag, and with the real path exactly for paths printed bare, even when trimming eats the blank of a first line |
| DirtyRecovery.WorkingTree.EmptyIffClean | backend/src/canonical-recovery.mjs:190 | A report that was read is empty exactly when the tree is clean |
| DirtyRecovery.WorkingTree.CleanPath | backend/src/canonical-recovery.mjs:354-360 | Removes only untracked files that match the path, and on success the path itself |
| DirtyRecovery.WorkingTree.CheckoutPath | backend/src/canonical-recovery.mjs:362 | Gives matching tracked files their index content back |
| DirtyRecovery.WorkingTree.Sweep | backend/src/canonical-recovery.mjs:373-375 | Removes only untracked files without a result.json component, and without faults all of them |
| DirtyRecovery.OverallClass | backend/src/canonical-recovery.mjs:214-229 | The most severe class wins, and the whole is safe exactly when there are entries and all are safe |
| DirtyRecovery.CountClasses | backend/src/canonical-recovery.mjs:200-203 | Counts the paths of each class that occurs |
| DirtyRecovery.GroupByClass | backend/src/canonical-recovery.mjs:205-210 | Lists the paths of each class that occurs, in order |
| DirtyRecovery.ClassifyCanonicalDirty | backend/src/canonical-recovery.mjs:188-249 | Reading a real report classifies every path as it is read, in order, with the tables of the classes, and is safe to clean exactly when there are paths and all are safe |
| DirtyRecovery.CleanOne | backend/src/canonical-recovery.mjs:341-368 | One path of the loop: what is reported as done was done, and tells what was there |
| DirtyRecovery.LoopLeaves | backend/src/canonical-recovery.mjs:341-371 | When every path printed bare was cleared, an untracked file that is left was printed in quotes or lies in a nested repository |
| DirtyRecovery.RecoverCanonicalDirty | backend/src/canonical-recovery.mjs:266-396 | Untouched if any path is unsafe; otherwise every changed path was reported by a line classified as safe, as removed untracked or restored tracked; clean_after means clean; without faults the only untracked files left outside nested repositories have a result.json component and were printed in quotes, and every changed file printed bare is restored |
| DirtyRecovery.ClassifyAndRecover | backend/src/canonical-recovery.mjs:188-279 | The answer "clean" is wrong exactly when the status could not be read and the tree is dirty |
| DirtyRecovery.UnreadDirtyAnsweredClean | backend/src/canonical-recovery.mjs:190 | Such a tree: one untracked file |
| DirtyRecovery.CleanBeforeDelivery | backend/src/delivery-result-recovery.mjs:281-303 | A delivery goes on only on a clean tree, whatever could not be read and whatever failed |
| AgentArtifacts.HasKindIff | backend/src/agent-artifact-contract.mjs:181-183 | The search for a kind finds it exactly when some artifact is of the kind |
| AgentArtifacts.OwnKindMeetsContract | backend/src/agent-artifact-contract.mjs:155-194 | A record of the role's own kind meets the contract whatever else is in the list |
| AgentRunStore.NewestFirstSelects | backend/src/agent-run-service.mjs:88-95 | A run is listed exactly when it passes the filters |
| AgentRunStore.NewestIsLatest | backend/src/agent-run-writeback.mjs:65-66 | Listing one run by task and role finds the newest run of the pair |
| AgentRunStore.ListingComplete | backend/src/agent-run-writeback.mjs:229 | With one run per contract role a task has at most eight runs, so the limit of 100 never cuts its listing |
| AgentRunStore.Store.Create | backend/src/agent-run-service.mjs:41-86 | Appends one run, or nothing; saving may fail after the run is in memory |
| AgentRunStore.Store.Complete | backend/src/agent-run-service.mjs:123-139 | Changes status, summary and artifacts of the one run with that id, and nothing else |
| AgentRunWriteback.WriteIdempotentAgentRun | backend/src/agent-run-writeback.mjs:57-133 | Unless it reports an error, the write has done what it asks for and says what was there; on any store only the pair's newest run changes, or one run of the pair is added |
| AgentRunWriteback.WrittenAsAsked | backend/src/agent-run-writeback.mjs:57-133 | A pair without a run gets one, with the status, the truthy artifacts and the summary of the write, running unless completed or failed is asked for; its newest run otherwise takes the status and summary and, behind what it holds, what is new to it, unless it is skipped or completed with every kind; nothing else changes |
| AgentRunWriteback.StepIsAskedOrLess | backend/src/agent-run-writeback.mjs:57-133 | A write that fails leaves the store as it was, as asked, or with the new run still running |
| AgentRunWriteback.UniqueKept | backend/src/agent-run-writeback.mjs:57-133 | A write keeps at most one run per task and contract role, also when the store fails |
| AgentRunWriteback.ArtifactsKept | backend/src/agent-run-writeback.mjs:76-107 | A write never loses an artifact: what a run held stays in front of what is added |
| AgentRunWriteback.KindsAfter | backend/src/agent-run-writeback.mjs:88-107 | Afterwards every kind supplied is held, and a kind held before keeps exactly its old artifacts |
| AgentRunWriteback.WrittenTwice | backend/src/agent-run-writeback.mjs:57-133 | Writing twice is writing once, exactly except for a new run asked for in a status it is not created in |
| AgentRunWriteback.CompletedStays | backend/src/agent-run-writeback.mjs:94-96 | A completed run that holds every kind of the write is not altered, whatever status the write asks for |
| AgentRunRoles.SuppliesItsKind | backend/src/agent-run-writeback.mjs:151-369 | Each writer but planner and curator supplies the one kind its role owes |
| AgentRunRoles.WritersMeetContract | backend/src/agent-run-writeback.mjs:151-433 | What the writers write meets the contract of their role; for the curator exactly when an entry is a context bundle |
| AgentRunRoles.WriteRole | backend/src/agent-run-writeback.mjs:151-369 | What the writer asks for is done, or an error cut it short; a completed run that holds its writer's single kind is never altered by that writer again |
| AgentRunRoles.WritersAsk | backend/src/agent-run-writeback.mjs:151-433 | The status, artifacts and summary each writer asks for, over its inputs |
| AgentRunRoles.PassRecordedIff | backend/src/agent-run-writeback.mjs:88-105 | The exact condition for a passing verification to be on record after a write to any run |
| AgentRunRoles.PassStoredIff | backend/src/agent-run-writeback.mjs:65-119 | And for the newest verifier run of a task in any store |
| AgentRunRoles.StaleVerification | backend/src/agent-run-writeback.mjs:88-105 | A verifier that fails and then passes is completed on the record of the failure |
| AgentArtifacts.CanonicalRole | backend/src/agent-artifact-contract.mjs:75-81 | The name of a contract role stands for it, so a gate without runs is named by its role |
| AgentArtifacts.NamesOfRoles | backend/src/agent-artifact-contract.mjs:13-25 | All the names each role goes by, and no other |
| AgentRunPipeline.NamedRoles | backend/src/agent-run-writeback.mjs:233-234 | The names are normalised one by one, up to the first unsupported one |
| AgentRunPipeline.SkippedAllIs | backend/src/agent-run-writeback.mjs:233-260 | The loop over the roles amounts to: named runs not yet done are skipped, missing ones added as skipped, all others as before |
| AgentRunPipeline.SkippedAsTold | backend/src/agent-run-writeback.mjs:233-260 | The runs of the task's named roles that were neither completed nor skipped are skipped with the blocker as their artifact, one such run is added for each naming of a role without a run, and nothing else changes |
| AgentRunPipeline.SkippingKeepsUniqueIff | backend/src/agent-run-writeback.mjs:233-247 | One run per contract role stays so exactly when no two names, up to the first unsupported one, stand for the same role without a run |
| AgentRunPipeline.SynonymsMakeTwo | backend/src/agent-run-writeback.mjs:233-247 | "qa" and "tester" make two verifier runs |
| AgentRunPipeline.InterruptedKeepsUnique | backend/src/agent-run-writeback.mjs:233-260 | The same wherever a failing store stops the loop |
| AgentRunPipeline.SkipDownstreamAgentRuns | backend/src/agent-run-writeback.mjs:221-263 | Does that with the number of runs skipped, throws at the first unsupported name with the runs before it skipped, or is interrupted by the store after some role; an empty task id does nothing |
| AgentRunSettling.SettledStatus | backend/src/agent-run-writeback.mjs:455-498 | No settled run is queued; a queued verifier is completed exactly by a passing report with a command |
| AgentRunSettling.SettleAsTold | backend/src/agent-run-writeback.mjs:440-507 | What a queued run becomes: completed with a placeholder where files are behind its role, written to by what the result says where there is one, skipped empty-handed otherwise |
| AgentRunSettling.SettledContract | backend/src/agent-run-writeback.mjs:513-549 | A settled and completed run meets its contract exactly when it is not a repairer |
| AgentRunSettling.SettleOne | backend/src/agent-run-writeback.mjs:455-502 | One queued run becomes its settled form, or stays as it was when the store fails |
| AgentRunSettling.CompleteQueuedAgentRuns | backend/src/agent-run-writeback.mjs:440-507 | Settles the task's queued runs so and changes no other; the first count is that of the queued ones, and the two add up to the runs of the task |
| AgentRunSettling.NoneLeftQueued | backend/src/agent-run-writeback.mjs:440-507 | On a store that does not fail no queued run of the task is left |
| AgentRunLifecycle.Perform | backend/src/agent-run-writeback.mjs:57-507 | Each operation keeps one run per task and contract role, whatever fails in it, unless it skips a missing role under two names |
| AgentRunLifecycle.PerformAll | backend/src/agent-run-writeback.mjs:57-507 | So does any sequence of operations that name each role once |
| AgentRunInterleaving.InOrderWritesOnce | backend/src/agent-run-writeback.mjs:582-593 | Writes of distinct pairs made one after another give each pair what its own write makes of it |
| AgentRunInterleaving.OrderIrrelevant | backend/src/agent-run-writeback.mjs:582-593 | The order of such writes does not matter for the runs of any pair |
| AgentRunInterleaving.OthersKept | backend/src/agent-run-writeback.mjs:57-133 | A step of one write is not noticed by the writes of other pairs |
| AgentRunInterleaving.EveryScheduleWritesOnce | backend/src/agent-run-writeback.mjs:582-593 | For writes of distinct pairs every schedule gives each pair what its one write makes of it, or less where the store failed, and leaves all other pairs alone |
| AgentRunInterleaving.EveryScheduleInOrder | backend/src/agent-run-writeback.mjs:582-593 | So no schedule without faults differs for any pair from the writes made one after another in any order |
| AgentRunAlone.LoneAsAsked | backend/src/agent-run-writeback.mjs:582-593 | Among any writes, a complete schedule does of a write that is the only one for its pair what it asks for, or less where the store failed |
| AgentRunClashes.UniqueIff | backend/src/agent-run-writeback.mjs:65-119 | For any writes, every schedule keeps one run per pair, whatever fails, exactly when no two are for a pair without a run; otherwise a complete schedule without faults breaks it |
| AgentRunClashes.AbsentClashWitness | backend/src/agent-run-writeback.mjs:65-119 | That schedule: both list, both create, all end |
| AgentRunKinds.ScheduleKinds | backend/src/agent-run-writeback.mjs:65-119 | What a schedule keeps of a safe pair, step by step, whatever fails |
| AgentRunKinds.KindsKeptIff | backend/src/agent-run-writeback.mjs:65-119 | For any writes and store, every complete schedule, whatever fails, keeps every kind supplied by the writes that do not fail, exactly when every pair is safe, which is a condition on the store and the writes before; otherwise one without faults loses a kind |
| AgentRunKinds.HeldBeforeKept | backend/src/agent-run-writeback.mjs:88-107 | On every schedule, whatever fails, each run keeps the artifacts it held before in front of what is added |
| AgentRunKinds.KindsHeldBeforeKept | backend/src/agent-run-writeback.mjs:88-107 | So no kind that a pair held before is ever lost |
| AgentRunKinds.LostByMerge | backend/src/agent-run-writeback.mjs:88-107 | The schedule that loses a kind: one write inspects first and completes last |
| AgentRunBatch.Step | backend/src/agent-run-writeback.mjs:65-119 | The store operations of a write are the steps of the schedules, faults included |
| AgentRunBatch.WriteAllAgentRuns | backend/src/agent-run-writeback.mjs:582-593 | All writes at once on a store that may fail: the store ends as some complete schedule leaves it, and so with what each write asks for that is the only one for its pair, one run per pair, each pair written once and all kinds kept under the conditions above, and with the artifacts there were |
| AgentRunJobs.WorkDone | backend/src/agent-run-writeback.mjs:57-507 | Every step of a write, a skip or a settling brings it nearer to its end |
| AgentRunJobAlone.SkipAlone | backend/src/agent-run-writeback.mjs:221-263 | The steps of a skip that nothing interleaves are the loop over its roles |
| AgentRunJobAlone.SettleAlone | backend/src/agent-run-writeback.mjs:440-507 | The steps of a settling that nothing interleaves settle the queued runs of the task |
| AgentRunJobClashes.OwnClaims | backend/src/agent-run-writeback.mjs:221-263 | A step that creates a run uses up a claim of its job to the pair |
| AgentRunJobClashes.JobsUniqueIff | backend/src/agent-run-writeback.mjs:57-507 | Every schedule of writes, skips and settlings keeps one run per pair, whatever fails, exactly when no pair without a run is claimed twice; otherwise a complete schedule without faults breaks it |
| AgentRunJobClashes.ClashWitness | backend/src/agent-run-writeback.mjs:57-507 | That schedule |
| AgentRunJobBatch.JobStep | backend/src/agent-run-writeback.mjs:57-507 | The store operations of writes, skips and settlings are the steps of the schedules, faults included |
| AgentRunJobBatch.RunJobs | backend/src/agent-run-writeback.mjs:57-507 | All jobs at once on a store that may fail end as some complete schedule does, with one run per pair under that condition |
| AgentGates.EvaluateGate | backend/src/agent-run-service.mjs:280-316 | A gate is satisfied exactly when a skipped run or a completed run with a valid contract opens it, and its name stands for its role |
| AgentGates.GatesListed | backend/src/agent-run-service.mjs:273-283 | The gates are those of the gated roles, each once and in the order of the roles |
| AgentGates.UnsatisfiedBlock | backend/src/agent-run-service.mjs:321-323 | A blocking name stands for a gated role whose gate is closed, and every such role has one |
| AgentGates.EvaluateAgentGates | backend/src/agent-run-service.mjs:270-331 | Satisfied exactly when every role that has to pass has a skipped run or a completed one with the artifact it owes: planner, builder, verifier, reviewer and finalizer always, curator and integrator if they have a run, the repairer never, or the required roles without curator and repairer; the blocking names stand for exactly the closed gates; the last completed role is the name of the last gate with a completed run; every gate judges its role by the runs and quotes one of them |
| AgentGates.SatisfiedIff | backend/src/agent-run-service.mjs:227-283 | The gates are satisfied exactly when those roles have passed |
| AgentGates.GateJudges | backend/src/agent-run-service.mjs:280-316 | What a gate says of its role: satisfied, what is missing, and its status |
| AgentGates.GateQuotes | backend/src/agent-run-service.mjs:286-316 | The name and summary are those of the first run that delivered, else of the first completed one, else the name of the first skipped one, else of the first run of the role |
| AgentGates.GatesMonotone | backend/src/agent-run-service.mjs:270-331 | With fixed required roles, adding runs never loses satisfied gates |
| AgentGates.GatesPermute | backend/src/agent-run-service.mjs:270-331 | The order of the runs does not matter |
| AgentGates.AddingKeepsGatesIff | backend/src/agent-run-service.mjs:273-279 | Without required roles, the exact condition under which adding a run keeps the gates satisfied |
| AgentGates.BlocksWhen | backend/src/agent-run-service.mjs:200-209 | The runs that block are those of the verifier, reviewer, finalizer and integrator that were neither skipped nor completed with the artifact they owe |
| AgentGates.BlocksIffClosedGate | backend/src/agent-run-service.mjs:200-209 | With one run per role the runs block completion exactly when the gate of a present verifier, reviewer, finalizer or integrator is closed |
| AgentGates.BlocksIff | backend/src/agent-run-service.mjs:200-209 | Any runs block completion exactly when a gate is closed or some run does not open its open gate |
| AgentGates.BlocksAgreesIff | backend/src/agent-run-service.mjs:200-209 | Blocking agrees with a closed gate exactly when a gate is closed or all runs open the gates that are open |
| AgentGates.OpenGateStillBlocks | backend/src/agent-run-service.mjs:200-209 | With two runs of one role an open gate can still block |
| AgentGates.SuccessOpensGateIff | backend/src/agent-run-writeback.mjs:88-107 | A successful write opens the role's gate exactly when the run held nothing under its kind, or something of the kind |
| Heartbeat.ThrottledHeartbeat.ThrottledUpdate | backend/src/codex-run-heartbeat.mjs:24-46 | The closure's update is the step of the state machine |
| Heartbeat.ThrottledHeartbeat.FlushPending | backend/src/codex-run-heartbeat.mjs:14-22 | The flush writes the pending phase and fields and clears the timer |
| Heartbeat.RunQuiescent | backend/src/codex-run-heartbeat.mjs:14-45 | Between events a timer is armed exactly while fields are pending, due at the last write plus the interval |
| Heartbeat.RateBoundIff | backend/src/codex-run-heartbeat.mjs:41-45 | The interval times the throttled writes fits between first and last write on every run, exactly when the interval fits a timer |
| Heartbeat.PhasesWritten | backend/src/codex-run-heartbeat.mjs:24-41 | The phases written equal the phases requested, adjacent repeats collapsed |
| Heartbeat.FieldsWritten | backend/src/codex-run-heartbeat.mjs:29-43 | A throttled write carries the merge of all fields since the last write, a phase change only its own fields, and what is pending is the merge since the last write |
| Heartbeat.LogRefines | backend/src/codex-run-heartbeat.mjs:14-45 | On every run the closure with its timer writes exactly the log of a specification without either: a call in a new phase writes its own fields at once, any other call writes all fields since the last write if the interval has passed since then, and so does a timer |
| WorkerPool.InvClaim | backend/src/codex-worker-concurrency.mjs:7-9 | Claiming keeps every claimed index waited for by one worker or settled |
| WorkerPool.InvSettle | backend/src/codex-worker-concurrency.mjs:10 | So does the settling of a call |
| WorkerPool.InvFinished | backend/src/codex-worker-concurrency.mjs:13-14 | When all workers have ended the results are the sequential map, or a call was rejected |
| WorkerPool.ConcurrentMap.constructor | backend/src/codex-worker-concurrency.mjs:3-6 | At most min(concurrency, n) workers and so calls in flight |
| WorkerPool.ConcurrentMap.Run | backend/src/codex-worker-concurrency.mjs:3-15 | Every interleaving ends, claims each index once and returns the sequential map in order, or throws exactly when a call rejects |
| WorkerPool.BalancedSettle | backend/scripts/check-syntax.mjs:93-94 | Collected and awaited failures together stay those of the files claimed |
| WorkerPool.SyntaxPool.Run | backend/scripts/check-syntax.mjs:86-100 | Every interleaving collects exactly the multiset of failing results |
| StdoutReport.ParseCodexResult | backend/src/codex-result-stdout-parser.mjs:1-141 | The loop's variables end as the last value of their keys, normalised, and so every field is what the last line that gives its key gives |
| StdoutReport.LastValueGiven | backend/src/codex-result-stdout-parser.mjs:30-110 | The value of a key is given by the last line that is, but for white space around it, the name in any case, "=" and a value the key allows |
| StdoutReport.ParsedSays | backend/src/codex-result-stdout-parser.mjs:112-140 | What each field is then: the status in lower case, a text trimmed and absent when empty or "none", the files between commas without blank ones, and a structured report exactly when some line gives some key |
| StdoutReport.LastListDecides | backend/src/codex-result-stdout-parser.mjs:88-98 | The subagent list is that of the last line of its key that parses as a list |
| StdoutReport.MatchExclusive | backend/src/codex-result-stdout-parser.mjs:33-109 | A line matches one key at most, so the order of the tests does not matter |
| StdoutReport.LastMatchDecides | backend/src/codex-result-stdout-parser.mjs:30-110 | Each field is decided by the last line that matches its key |
| StdoutReport.ReportRoundTrip | backend/src/codex-prompt-builder.mjs:135-141 | A printed report is read back with its fields from any text that holds its lines, in any order and among any other lines |
| Utf8.DecodePrefix | backend/src/card-format-utils.mjs:23-24 | Decoding the first k bytes gives the complete characters and one U+FFFD if the cut is inside one (section 3 of RFC 3629) |
| Utf8.RoundTrip | backend/src/card-format-utils.mjs:23-24 | Decoding undoes encoding |
| Truncation.TruncateOutput | backend/src/card-format-utils.mjs:1-36 | Truncated exactly when a budget is exceeded, and the input itself otherwise |
| Truncation.ByteBudgetPrefix | backend/src/card-format-utils.mjs:21-26 | The byte budget keeps a prefix that fits; only U+FFFD could have followed within it |
| Truncation.LineBudgetPrefix | backend/src/card-format-utils.mjs:28-33 | The line budget keeps a prefix of at most that many lines, ending at a line break |
| Truncation.TruncationIsLongestFit | backend/src/card-format-utils.mjs:1-36 | The text kept is a prefix within both budgets, and no longer one fits unless it continues with U+FFFD only |
| Truncation.ByteBudgetWholeIff | backend/src/card-format-utils.mjs:21-26 | A text over the byte budget keeps all characters within it exactly when the last of them is no U+FFFD |
| Truncation.LongestFitIff | backend/src/card-format-utils.mjs:1-36 | The longest prefix within both budgets is kept, except exactly when the last character within the bytes is a U+FFFD and the lines up to it fit |
| Truncation.GenuineReplacementLost | backend/src/card-format-utils.mjs:24 | A genuine U+FFFD before the cut is lost although it fits |
| RuntimeEnv.EnvMapFromLines | backend/bin/gptwork.mjs:132-141 | The loop builds the map in which later lines win |
| RuntimeEnv.LastLineWins | backend/bin/gptwork.mjs:132-141 | A line assigns a key if it is, but for white space around it, the key without "=", "=" and the value, and does not start with "#"; the last line that assigns a key gives its value |
| RuntimeEnv.BoundByLine | backend/bin/gptwork.mjs:132-141 | A key that is bound is bound by such a line |
| RuntimeEnv.EnvFile.SetRuntimeEnv | backend/bin/gptwork.mjs:143-159 | The file becomes the rewritten text, line by line as told below |
| RuntimeEnv.TextRewritten | backend/bin/gptwork.mjs:143-157 | The lines that start with the key and "=" are rewritten where they are and the others stay, but for an empty last one; without such a line one is added behind all lines there are, the empty last one included |
| RuntimeEnv.SetThenRead | backend/bin/gptwork.mjs:132-157 | Reading back gives the value set and the old value of every other key, and nothing changes exactly when the key is shadowed |
| RuntimeEnv.ValueReadBackIff | backend/bin/gptwork.mjs:132-157 | The exact condition for reading the value back |
| RuntimeEnv.CommentKeyUnreadable | backend/bin/gptwork.mjs:136 | A key that starts with "#" is never read back |
| RuntimeEnv.SetIdempotent | backend/bin/gptwork.mjs:143-157 | A second identical set leaves the text unchanged |
| RuntimeEnv.SetsCommute | backend/bin/gptwork.mjs:143-157 | Sets of distinct keys commute on the parsed map |
| BlockerConvergence.GenerateBlockerManifest | backend/src/blocker-manifest.mjs:326-373 | One entry per blocker, in task order |
| BlockerConvergence.ConvergesFor | backend/src/blocker-manifest.mjs:200-306 | A task can converge exactly for the first kind of evidence it shows, each kind over its fields |
| BlockerConvergence.CategoryIff | backend/src/blocker-manifest.mjs:79-155 | The exact condition of each category |
| BlockerConvergence.WaitingShowsNothing | backend/src/blocker-manifest.mjs:265-306 | A task without a result in one of the listed wait or work states is not eligible, unless a successor is done or the policy takes the missing result as verified |
| BlockerConvergence.SplitOfManifest | backend/src/blocker-manifest.mjs:437-461 | With unique ids the lookup by id checks the task the entry was made from, so the manifest splits by eligibility |
| BlockerConvergence.SplitCounts | backend/src/blocker-manifest.mjs:441-461 | Every manifest entry is converged or preserved, none both or neither |
| BlockerConvergence.CloseConvergedIsPass | backend/src/blocker-manifest.mjs:473-492 | The mutate step closes exactly the converged tasks |
| BlockerConvergence.PassShrinks | backend/src/blocker-manifest.mjs:429-492 | Each pass takes as many tasks off the open ones as it converges |
| BlockerConvergence.ActivePassesBounded | backend/src/blocker-manifest.mjs:429-492 | Over any passes, under policies that may change, at most as many converge something as there were open tasks |
| BlockerConvergence.ClosedAsFound | backend/src/blocker-manifest.mjs:473-492 | The mutate step completes the listed tasks whatever they have become, and leaves all others alone |
| BlockerConvergence.MutatesByEvidence | backend/src/blocker-manifest.mjs:473-492 | The mutate step completes exactly the tasks whose id was that of a blocker which showed evidence when loaded and did not wait for integration, each for the first kind it showed, and touches no other |
| BlockerConvergence.WaitingKeptIff | backend/src/blocker-manifest.mjs:429-492 | No task that waits for integration by the time of the mutate step is completed, exactly when none of them was eligible at the load |
| BlockerConvergence.TaskStore.ApplyDeterministicConvergence | backend/src/blocker-manifest.mjs:429-506 | A pass splits the manifest of the tasks it loaded exactly and in order and then completes, in the tasks it finds, which others may have changed, exactly those that showed evidence when loaded; a dry run changes nothing; a failing store may keep the tasks |
| BlockerConvergence.TaskStore.ConvergeRepeatedly | backend/src/blocker-manifest.mjs:429-506 | Repeated passes end, and then no blocker shows evidence |

## Left out

- Processes, files, the network, clocks, timestamps, random ids, event loggers and hooks: git commands and store steps are nondeterministic methods instead, ids are positions, and clock readings are inputs.
- Git: hooks that rewrite history, submodules, symbolic links and a detached HEAD of the canonical checkout; verification commands may dirty the tree but move no branch; that a pick has stopped half-way, which a checkout of another branch forgets, is not remembered. File names are Unicode text, and core.quotePath has its default.
- PickAndCommit: a commit that was picked and reverted since counts as still there; git would let it be picked again.
- ReasonRightIff: assumes that the merge base answered is a best common ancestor; with unrelated histories the command fails and the reason is unknown.
- RunAutoIntegrationCompletion: a commit of "none" is an absent commit; command output, report paths and the repair classifier's own answer are parameters or absent; the verification summary that a completion without a merge copies from older evidence is not modelled.
- ClassifyCanonicalDirty: the patterns of classifyDirtyPath are one uninterpreted function; the diff statistics and the snapshot are not modelled.
- RecoverCanonicalDirty: file changes made by others during the call are not modelled.
- NormalizeContractRole: names inherited from the object prototype, which the alias lookup would find, are not modelled.
- ContractMet: the v3 schema and artifact freshness are off.
- Run: events, progress files, digests and heads are not modelled; a run has the contract role its name stands for, and the gates, which report names, are given them beside the runs.
- SkipDownstreamAgentRuns: the blocker artifact's text is not modelled and the summary lines are parameters.
- JobsUniqueIff: no schedule mixes in other writers of agent runs than these three.
- StatusOf: the many forms in which a review can be accepted are given as one answer.
- SettledContract: is about queued runs without artifacts, as the pipeline creates them.
- CompleteQueuedAgentRuns: with an empty task id the listing is of all tasks; only that uniqueness is kept and that the writers then do nothing is stated.
- WriteAllAgentRuns: a writeback function that throws before it starts is not modelled.
- EvaluateAgentGates: the findings of a gate, which say again which artifacts are missing, are not modelled.
- ThrottledHeartbeat: the registry of heartbeats by path and a failing write function are not modelled; phases are non-empty strings.
- ParseCodexResult: JSON parsing is a parameter; the question count is given by its digits, not as a floating-point number; the excerpt is counted in characters, not in UTF-16 code units.
- TruncateOutput: characters are Unicode scalar values, so lone surrogates are not modelled.
- EnvFile: the command's console output and directory creation are not modelled.
- CanConverge: result shapes, implicit successors, verification normalisation and commit reachability are parameters; the field that normalisation may add to a result as a side effect is not modelled.
- ApplyDeterministicConvergence: the manifest is made from the same load as the checks; queue counts, time stamps and log lines are not modelled.
- Release-gate scripts, other commands, cards and renderers, the notifier, TUI sessions and the HTTP client: input and output, or single branches that would only add easy members.
