# Culture Nodes: the protocols around a change, modelled and proved

Culture Nodes moves a change from an agent's handover to a shared branch and
cleans up after it. The programs that do this share their state with other
processes: remote branches and refs, lock directories, a pull request, a
ledger, a configuration file. They are killed and repeated, their pushes are
answered wrongly, and other people write in between. This project models those
programs in Dafny 4.11 and proves what they keep over every interleaving and
every run.

Three forms of model are used.

* A protocol with several writers is a transition relation (`Next`) over a
  state. A theorem about it is about every trace (`History`).
* Code that changes things step by step is a class or a method with the
  source's own loops. Where it takes part in a protocol, its contract says that
  each step it takes is a step of that protocol, so the trace theorems hold of
  the code. What git, a remote or another writer does is a parameter, so the
  contract can say what comes of it; where a loop meets many answers they are
  `*` choices, and `calm` is the run in which every call works and nobody else
  writes.
* A sequential script that may stop anywhere is a function of where it stops,
  and its theorems are about every sequence of stops.

| module | what it models |
|---|---|
| `Git` | commits as a graph of values: patch, tree, parents |
| `Landing`, `LandPush` | the lander's fetch, rebase, gate, push and read-back: the protocol, and the loops as written |
| `LandingOnce`, `LandingPushOk`, `LandingExact` | what the protocol keeps: landing once, what `push ok` means, and exactly when |
| `LocalLease`, `SshLease` | the lander's two lock directories |
| `LandProbe` | the probe for live attempts and the reset behind it |
| `LandReply`, `LandReplyOnce`, `LandReplyAnswered`, `LandReplyStep`, `LandResolve` | replies in review threads, and resolving them |
| `Cleanup`, `CleanupNode`, `CleanupCancel` | deletion of a work item's refs, its record, cancelling its parked runs |
| `StageGuard`, `Combining`, `CombiningNode` | staging and merging in the combining loop |
| `Reloader`, `ReloaderNode` | the worker's live reload of its runner services |
| `Observer`, `ObserverRuns` | filing hand-turns once |
| `Backfill` | the issue-type backfill and its snapshot |
| `TailBuffer` | the lambda runner's in-place tail buffer |
| `MergeGate`, `Paths` | the gate matrix, its outcome, and the worktree test on a gate's directory |
| `TriageRows` | three files written together or not at all |
| `Text`, `Wrappers` | substring, lower case; an optional value |

## Where a promise does not hold

These are promised by a docstring, a comment or the design, and fail on some
input. The code is modelled as it is. Each has a counterexample and the exact
condition under which the promise holds.

* **Lock reclaim.** Two landers that read the same dead holder can both end up
  holding the local lease. It excludes in every run exactly when no host runs
  three landers on it (`ExclusiveExactly`).
* **One bump per landing.** It fails for three kinds of handover. Some merge base
  that passes the scope check has no non-merge commit of the handover above it, so
  that the skip test has nothing to recognise; without guarded paths that is
  every handover whose tip is a merge. Or a patch above such a merge base is one
  a rebase may drop or change. Or one patch without a bump is in two commits above
  it, and a merge brings the first of them while the landing is under way
  (`LandingExact.AtMostOnceExactly`).
* **`push ok` means landed.** With such a dropped patch, or with any patch in two
  commits above a merge base, a run can record `push ok` while something of the
  handover is still to be landed (`LandingExact.AlwaysHonestExactly`).
* **Cleanup loses no work.** A default branch that is itself named
  `review-fix/...` after one of the item's runs is listed as one of the item's
  refs, is reachable from itself, and is deleted (`LosesNoWorkExactly`).
* **No change under `.github`.** The staged diff lists a renamed path under its
  new name only, so moving a file out of `.github` passes the guard
  (`SoundExactly`, `NeverTouchesExactly`).
* **A failed reload changes nothing.** The secrets are swapped before the
  registry is asked; when it refuses, they stay swapped (`CheckAndReload`).
* **Secrets first means no dispatch misses its secret.** That holds of a name a
  version adds, and fails of one whose credential a version drops
  (`ResolvesThroughoutExactly`).
* **Replies are posted once.** The threads query shows a thread's first hundred
  comments. In a longer thread the node cannot see its own reply
  (`LandReplyOnce.AtMostOnceExactly`).
* **Every landed finding is answered.** Of two findings on one thread, a stop
  between them leaves the second unanswered for good, and so does a stop behind a
  reply in an earlier thread that quotes its id, be it as a part of another id
  (`LandReplyAnswered.AlwaysAnsweredExactly`).
* **Hand-turns are filed once.** A record on a run older than the hundred newest
  is not read (`NeverTwiceExactly`).
* **The backfill can be undone.** A snapshot cut short while it is written is
  taken for the snapshot ever after (`AlwaysUndoableExactly`).
* **A gate cannot leave the worktree.** The test compares texts, so a directory
  beside the worktree whose name starts with the worktree's is not refused
  (`RefusalIsEscapeExactly`).
* **All three triage files or none.** An open issue without a row makes the
  report raise an error that nothing catches, after two tables were written; and
  a file that cannot be put back stays as it is (`AllOrNothingExactly`).

## What is assumed

* Git is abstract. A commit has a patch identity. A rebase keeps it, except for
  the patches of a given set, which it may drop or change. Similarity scoring is
  not modelled: any injective pairing of deleted with added paths may be reported
  as renames.
* Whether the version changed is read by the gate from the whole difference to
  the fetched tip. Each commit says whether it bumps; with `net` set, the
  difference may show no bump although some of its commits do.
* Which paths changed between two commits is a fact of the setting: a set holds
  the commits from which the diff to the handover names no guarded path.
* A gate's directory is resolved without symbolic links, and the worktree's path
  is already resolved.
* A push that the remote refuses as stale, or a deletion refused by its lease,
  moved nothing. A push that fails in transport may have taken effect, and one
  that exits 0 may not have. A push is over when its process is.
* Other writers only fast-forward the branch a lander lands on and the default
  branch that cleanup reads. One lander at a time works on a branch.
* Process ids are not reused. Liveness of a process is a fact of the state.
* HTTP, SSH, clocks and the random parts of names are parameters or `*`
  choices. The control plane's cancel and hand-turn routes are modelled from
  their handlers.
* Comments are appended to the thread they reply to, and only the lander writes
  on the threads while its attempts are repeated for one landed commit.

## Model

| member | source | states |
|---|---|---|
| `LandingOnce.LandsAtMostOnce` | examples/land/land.py:740-874 | over every history of killed and repeated runs and other writers' pushes, no handover commit and no second bump is ever put on the branch again, when every branch that passes the scope check has the commits whose patch a rebase may lose, lacks one the skip test can recognise, and cannot be left with one of two commits that carry one patch without a bump |
| `LandingPushOk.PushOkIsExact` | examples/land/land.py:849-874 | when every branch that passes the scope check has the commits whose patch a rebase may lose and one of two commits with one patch, merge tips included, a `push ok` record means the tip read back is the last fetched tip, then exactly the handover commits that were missing there, once each and ancestors first, then at most one bump, and that nothing of the handover is left to land |
| `LandingPushOk.PushOkKeepsAncestry` | examples/land/land.py:777-874 | of two landed commits whose handover commits are ancestor and descendant, the first is an ancestor of the second on the branch read back |
| `Landing.RoutedLeavesBranchAlone` | examples/land/land.py:660-666 | for every handover, a run that ends with a person, or finds its work already there, put nothing on the branch |
| `Landing.BranchOnlyGrows` | examples/land/land.py:822-874 | the branch's history only grows, for every handover |
| `LandingOnce.StepsKeep` | examples/land/land.py:928-943 | the invariant of landing once, which every step of every history keeps from any state that has it |
| `LandingPushOk.StepsKeep` | examples/land/land.py:928-943 | the invariant behind `push ok`, kept by every step in the same way |
| `Landing.SkipIsSettled` | examples/land/land.py:740-746 | for a tip that is not a merge the skip test holds if and only if every commit the handover would bring has an equivalent on the branch |
| `Landing.SettledGrows` | examples/land/land.py:740-746 | once nothing is left to land, that stays so on every fast-forward of the branch |
| `LandingOnce.AdmittedIsMissingSome` | examples/land/land.py:740-761 | on a branch that passes the scope check and that the skip test does not recognise, something is missing, provided a non-merge commit lies above every merge base |
| `LandingPushOk.FirstRebaseIsExact` | examples/land/land.py:777-818 | on such a branch the first rebase gives exactly the missing commits on the fetched tip, ancestors first, each with its own patch |
| `LandingOnce.GateGreenKeeps` | examples/land/land_gate.py:402-404 | a green gate adds one bump, only where the difference to the fetched tip shows none, and keeps the invariant |
| `LandingPushOk.SecondRebaseIsExact` | examples/land/land.py:849-874 | rebasing the worktree with its bump once more onto a moved tip again gives exactly what is missing there and at most one bump |
| `LandingExact.AtMostOnceExactly` | examples/land/land.py:740-874 | for every handover, landing at most once in every history holds if and only if those three conditions hold of every merge base that passes the scope check |
| `LandingExact.AtMostOnceUnguarded` | examples/land/land.py:740-874 | for a handover that changes nothing guarded: if and only if every commit of it has those whose patch a rebase may lose, its tip is not a merge, and every commit of it has one of two that carry one patch without a bump |
| `LandingExact.AlwaysHonestExactly` | examples/land/land.py:849-874 | for every handover, every `push ok` record of every history means what it says if and only if the conditions of `LandingPushOk.PushOkIsExact` hold |
| `LandingExact.FrailPatchBreaksBoth` | examples/land/land.py:748-818 | one patch that a rebase may drop, on a commit that some merge base passing the scope check lacks, gives a history with two bumps and one with a `push ok` that leaves its commit out |
| `LandingExact.BareBumpsTwice` | examples/land/land.py:740-761 | a merge base that passes the scope check with no non-merge commit of the handover above it gives a history with two bumps |
| `LandingExact.MergeTipBumpsTwice` | examples/land/land.py:740-746 | every handover whose tip is a merge and that changes nothing guarded has a history with two bumps |
| `LandingExact.RetryApplies` | examples/land/land.py:849-874 | from a branch on any merge base that lacks both of two commits with a patch, a retried rebase onto a merge of one of them keeps the bump and leaves both out |
| `LandingExact.StillToLand` | examples/land/land.py:740-746 | after that push the other commit is still to be landed, and the skip test says so |
| `LandingExact.RepeatedPatchIsNotHonest` | examples/land/land.py:849-874 | so a handover that repeats a patch above a merge base passing the scope check has a history whose `push ok` leaves something to land |
| `LandingExact.RepeatedPatchBumpsTwice` | examples/land/land.py:740-874 | and if that patch does not keep the gate from adding a bump and the branch with the first commit passes the scope check again, one with two bumps |
| `LandPush.Rebase` | examples/land/land.py:777-798 | the loop redoes the still needed commits, in order, as new commits in a line on the tip with their own trees and patches; of those a rebase may lose, exactly the ones it does lose are missing, and the others come out with the patch it gives them |
| `LandPush.Lander.PushOnce` | examples/land/land.py:822-847 | the remote takes up a push only as a fast-forward to the worktree's head, which adds exactly the commits the branch lacked; the answer is stale if and only if the command says so or the branch had moved, and then nothing moved |
| `LandPush.Lander.Push` | examples/land/land.py:849-874 | how the loop ends, round by round: success if and only if the last push says so and the branch reads back as what was pushed; a person after two stale rounds or a conflict; at most two pushes; every step is the protocol's and keeps both of its invariants |
| `LocalLease.ExclusiveWhileOneReclaims` | examples/land/land.py:509-545 | while no two landers are between a stale read and the end of their removal, at most one live lander holds the lease, with deaths anywhere |
| `LocalLease.NoTheftWhileOneReclaims` | examples/land/land.py:527-545 | under the same proviso no step touches a live lander's directory except its own |
| `LocalLease.ThreeOnAHostCollide` | examples/land/land.py:527-542 | any three landers of one host have a history in which two of them hold the lease |
| `LocalLease.ExclusiveExactly` | examples/land/land.py:509-545 | the lease excludes in every history if and only if no host runs three landers on it |
| `LocalLease.HandsOn` | examples/land/land.py:527-545 | whatever became of its directory, a holder can give the lease up, and any idle lander can then come to hold it |
| `SshLease.ExclusiveAlways` | examples/land/land.py:548-572 | the lock without reclaim excludes in every history with no proviso, also when an answer is lost, and a holder's directory is still there |
| `SshLease.HandsOn` | examples/land/land.py:558-572 | every history in which one lander holds the lease goes on to one in which it has released it and any chosen idle lander holds it |
| `SshLease.LossOrphans` | examples/land/land.py:558-569 | a lost answer or a death leaves a directory nobody will remove exactly when the lander's own script had made it, or there was one already |
| `SshLease.OrphanBlocks` | examples/land/land.py:548-572 | such a directory stays through every continuation and nobody holds the lease again: there is no stale reclaim |
| `Cleanup.DeletionLosesNothing` | examples/cleanup/cleanup.py:421-462 | a leased deletion of a commit the fetched default branch reached leaves every commit reachable that was reachable before |
| `Cleanup.ListedDefaultIsDeleted` | examples/cleanup/cleanup.py:370-398 | a default branch that is attributed to the item is deleted, with everything only it reached |
| `Cleanup.DefaultIsMineExactly` | examples/cleanup/cleanup.py:370-385 | which default branches those are, said of the name alone |
| `Cleanup.LosesNoWorkExactly` | examples/cleanup/cleanup.py:388-523 | over every interleaving with workers who create, move and delete refs, no deletion makes a commit unreachable, if and only if the default branch is not a `review-fix/` branch named after one of the item's runs |
| `Cleanup.MineExactly` | examples/cleanup/cleanup.py:370-385 | which refs are the item's, said of the name alone: a handover ref with a component, or a review-fix branch with a part of its name, that reads as one of the run ids in small letters, and no other |
| `CleanupNode.PartsAreTheListing` | examples/cleanup/cleanup.py:370-385 | the attributed and the unattributed refs together are exactly the listing |
| `CleanupNode.Attribute` | examples/cleanup/cleanup.py:370-385 | the loop splits the listing into exactly the item's refs and the others, in order |
| `CleanupNode.RunIsHistory` | examples/cleanup/cleanup.py:470-527 | what the node did to the remote, step by step, is a history of the protocol |
| `CleanupNode.RunLosesNoWork` | examples/cleanup/cleanup.py:470-527 | so the node as written loses no work under the same condition |
| `CleanupNode.Record.File` | examples/cleanup/cleanup.py:505-523 | an entry goes to exactly one list, the one its reason says, and counts its ref once |
| `CleanupNode.Cleaner.Fetch` | examples/cleanup/cleanup.py:388-411 | one read of the default branch and of every attributed ref, which raises if and only if git does or any of them is gone |
| `CleanupNode.Cleaner.Examine` | examples/cleanup/cleanup.py:484-494 | every ref looked at is declined as unreachable or kept for deletion, by whether the fetched default branch reaches the fetched commit |
| `CleanupNode.Cleaner.DeleteRef` | examples/cleanup/cleanup.py:421-462 | the outcome for each way the push and the read can go: moved if the lease is refused, deleted if the push exits 0 and the ref is then read as gone, failed otherwise; never erased except at the examined commit, and erased there if the push arrives |
| `CleanupNode.Cleaner.CleanRefs` | examples/cleanup/cleanup.py:470-527 | whatever raises, every step is the protocol's, every ref recorded as deleted was read as gone, entries name the fetched commits, and no ref is reported twice; if nothing raises every attributed ref is reported exactly once and every ref the node erased is recorded as deleted or failed; without a credential nothing is deleted; when every call works and nobody else writes, exactly the item's refs that the default branch reaches are gone |
| `CleanupCancel.Canceller.Post` | internal/api/runs.go:577-600 | a cancel that arrives ends the run if and only if it has not ended and has a live node run at the named node, heard or not, and the answer says which |
| `CleanupCancel.Canceller.CancelOne` | examples/cleanup/cleanup.py:533-579 | what is recorded for a run, from the run as viewed and as it is when the cancel comes to it |
| `CleanupCancel.Canceller.CancelParkedRuns` | examples/cleanup/cleanup.py:530-579 | every run with an id is reported exactly once and in order; no run that had left the node was cancelled; what was cancelled is on record as cancelled or failed, and what is recorded as cancelled was |
| `CleanupCancel.CalmCancelsWaiting` | examples/cleanup/cleanup.py:530-579 | when nothing interferes, exactly the listed runs that wait at the node are ended |
| `StageGuard.GuardedExactly` | scripts/combining-loop-node.py:607 | a path is guarded if and only if its first component is `.github` |
| `StageGuard.ListedExactly` | scripts/combining-loop-node.py:605-606 | a path is listed if and only if the two trees differ there and it is not the old name of a rename |
| `StageGuard.PassesUntouched` | scripts/combining-loop-node.py:605-621 | a diff without a guarded path means no guarded path changed, unless the merge only moves paths out of `.github` |
| `StageGuard.PassesExactly` | scripts/combining-loop-node.py:605-621 | for the renames that were reported, a diff that passes left every guarded path as it was if and only if none of them starts under `.github` |
| `StageGuard.MovedOutPasses` | scripts/combining-loop-node.py:605-607 | for every merge that only moves paths out, some pairing of renames passes the guard |
| `StageGuard.SoundExactly` | scripts/combining-loop-node.py:605-621 | the guard holds however renames are paired, if and only if the merge does not only delete under `.github` and add as many paths elsewhere |
| `StageGuard.MovingAWorkflowOutPasses` | scripts/combining-loop-node.py:605-607 | one workflow file renamed to a path outside |
| `Combining.SwapsAreGated` | scripts/combining-loop-node.py:766-847 | in every run, a merge moves the branch from its candidate's first parent to the candidate, on a verdict that passed exactly that candidate, and onto a staged candidate without touching `.github` under the guard's condition |
| `Combining.NoLostUpdate` | scripts/combining-loop-node.py:840-842 | a step of the loop that moves the branch is such a gated swap, so no other move is overwritten |
| `Combining.RetryStillPasses` | scripts/combining-loop-node.py:805-839 | after any number of attempts that did not reach the swap the branch is where it was, exactly the same candidates are admitted, and the remote still accepts this one |
| `Combining.ExitZeroWasReadBack` | scripts/combining-loop-node.py:845-873 | a merge that exits 0 swapped the local branch and later read the remote back as its candidate, whatever the push had said |
| `Combining.NeverTouchesExactly` | scripts/combining-loop-node.py:552-847 | however renames are paired, no history merges a candidate that `stage` built from a given commit and tree with a change under `.github`, if and only if that tree does not only move paths out of it |
| `CombiningNode.Workspace.Stage` | scripts/combining-loop-node.py:545-656 | the subcommand as written takes only protocol steps; the outcome for each merge result of the branch as read; a candidate is the merged tree on the feature and the harvested commit, and a routed merge names exactly the guarded paths listed |
| `CombiningNode.Workspace.CheckAsked` | scripts/combining-loop-node.py:766-803 | a merge goes on if and only if no call fails and the candidate is admitted as the branch is |
| `CombiningNode.Workspace.PushCandidate` | scripts/combining-loop-node.py:829-839 | the remote moves to the candidate if and only if it takes up the push and that is a fast-forward, whatever the exit code says |
| `CombiningNode.Workspace.SwapTo` | scripts/combining-loop-node.py:840-842 | the swap happens if and only if the branch is still at the tip that was checked |
| `CombiningNode.Workspace.Merge` | scripts/combining-loop-node.py:686-873 | the subcommand as written takes only protocol steps, and success means the remote read back as the candidate that the verdict passed; left alone, where both branches end and whether it succeeds, for each way the calls can go |
| `CombiningNode.RunIsHistory` | scripts/combining-loop-node.py:545-873 | what the two subcommands did is a history of the protocol |
| `Reloader.ResolvesExactly` | cmd/nodes/runnerservices.go:165-196 | a credential that is put in is found, an empty one or one taken out is not |
| `Reloader.SameTickIsMissed` | cmd/nodes/runnerservices.go:227-238 | a write in the clock tick of the loaded one is reported as unchanged |
| `Reloader.NeverStaleExactly` | cmd/nodes/runnerservices.go:227-350 | in every interleaving "unchanged" means registry and secret names are those of the file as it is, if and only if every write advances the mtime (or no version can ever be loaded) |
| `Reloader.DroppedSecretIsMissed` | cmd/nodes/runnerservices.go:247-267 | a worker that serves a name and reads a version without its credential leaves a dispatch without one, even one that reads the identity afterwards; if the registry refuses the version it stays so |
| `Reloader.ResolvesThroughoutExactly` | cmd/nodes/runnerservices.go:247-269 | in each single history a dispatch always finds its secret, if and only if no swap of secrets drops the credential of a name already served and each registry swap that serves the name comes with its credential |
| `Reloader.SecretsFirstResolves` | cmd/nodes/runnerservices.go:251-259 | in any history whose readings carry the credential of a name they serve, and of one already served, every dispatch finds its secret, a newly added name included |
| `Reloader.RegistryFirstMissesANewName` | cmd/nodes/runnerservices.go:251-259 | with the two swaps in the other order the same condition on the readings does not suffice: a newly added name is served before its credential is there |
| `Reloader.AlwaysResolvesExactly` | cmd/nodes/runnerservices.go:247-269 | over every interleaving and any number of reloads a dispatch finds its secret, if and only if the name is never served or every version that is ever read has a credential for it |
| `ReloaderNode.BuildServices` | cmd/nodes/runnerservices.go:165-196 | the loop gives registry and secrets the same names, each from the last entry under it, and fails if and only if a secret file is missing |
| `ReloaderNode.Worker.Boot` | cmd/nodes/runnerservices.go:302-352 | start-up succeeds if and only if the file can be stat'ed, parsed, its secrets read and its entries accepted, and then both places hold that reading under the mtime from before it |
| `ReloaderNode.Worker.CheckAndReload` | cmd/nodes/runnerservices.go:227-269 | the check as written takes only protocol steps; unchanged if and only if the file as stat'ed is no newer, and then current; applied if and only if it is newer, reads well and is accepted, and then that reading is in both places; a failure leaves registry and mtime, and leaves the secrets unless the registry refused |
| `ReloaderNode.RunIsHistory` | cmd/nodes/runnerservices.go:227-269 | what the worker did is a history of the protocol |
| `LandReply.MatchExactly` | examples/land/land_reply.py:300-308 | a finding's thread is the first with its thread id; without one, the first showing a comment with its comment id; without that, the first showing a comment that contains its id; among the first hundred comments of each |
| `LandReply.HandleExactly` | examples/land/land_reply.py:385-400 | the reply goes to the end of that thread, if it shows no note and a comment to reply to, and nothing else changes |
| `LandReply.FinishExactly` | examples/land/land_reply.py:404-424 | the comment is for exactly the findings with no thread, in order, unless there are none or a note is there |
| `LandReply.ReplyNames` | examples/land/land_reply.py:73-76 | a reply names the commit, the finding, the work item and the run |
| `LandReply.SummaryListsAll` | examples/land/land_reply.py:77-80 | the comment names every finding it is for, with its source |
| `LandReply.TemplatesAreSigned` | examples/land/land_reply.py:73-80 | every filled-in template is recognised as a land note for its commit |
| `LandReplyOnce.MatchMovesToNoted` | examples/land/land_reply.py:300-315 | the node's own notes can draw a finding to an earlier thread, but only to one that shows a note |
| `LandReplyOnce.UnseenIsRepliedTwice` | examples/land/land_reply.py:375-399 | a finding in a thread of a hundred comments with no note is replied to by each attempt |
| `LandReplyOnce.AtMostOnceExactly` | examples/land/land_reply.py:375-434 | among any findings and over any attempts that stop anywhere, a finding gets at most one reply or mention in a comment, if and only if its thread leaves room for the reply to be seen |
| `LandReplyAnswered.ExactlyOnceExactly` | examples/land/land_reply.py:375-434 | however earlier attempts stopped, a completed step leaves a finding with exactly one answer if and only if it had one or was open when the step began: an anchored thread without a note, or no thread and no comment noted |
| `LandReplyAnswered.UnrivalledIsAnswered` | examples/land/land_reply.py:300-434 | said of the pull request before the first attempt: a finding that is open and has no rival is answered exactly once after any stops and a completed step |
| `LandReplyAnswered.AlwaysAnsweredExactly` | examples/land/land_reply.py:300-434 | and only such a finding is: a rival gets a reply in the same thread first, or one that quotes the finding in a thread that is looked at earlier |
| `LandReplyAnswered.RivalledIsPassedOver` | examples/land/land_reply.py:300-393 | after a stop behind a rival the finding is never answered, in any number of further attempts |
| `LandReplyOnce.RepeatPostsNothing` | examples/land/land_reply.py:375-434 | after a completed step, whatever came before it, a repeat posts nothing and changes nothing |
| `LandReplyStep.PullRequest.ReplyStep` | examples/land/land_reply.py:375-434 | the step as written, stopped anywhere, does what the model's attempt does, and completes if nothing stops it |
| `LandResolve.PullRequest.Resolve` | examples/land/land_reply.py:277-278 | resolving an open thread keeps every thread resolved at most once |
| `LandResolve.PullRequest.ResolveStep` | examples/land/land_reply.py:437-471 | over repeated attempts no thread is resolved twice and only open threads of findings change; a step that no call stops completes, and leaves every finding's thread resolved |
| `LandResolve.NothingToResolve` | examples/land/land_reply.py:437-459 | after that there is no call left to make |
| `LandProbe.CountActive` | examples/land/land_probe.py:143-168 | a number comes back if and only if the listing ends within twenty readable pages, and it is the number of places in the whole listing with a node run of the actor, not of the land run, in one of the three live states |
| `LandProbe.WholeSplits` | examples/land/land_probe.py:143-168 | the whole listing is the pages one after another |
| `LandProbe.ActorRows` | examples/land/land_probe.py:127-140 | exactly the registration rows that share the key, and the named row |
| `LandProbe.ActiveAttempts` | examples/land/land_probe.py:171-189 | measured, not configured and unmeasured told apart, with a count only when measured, over all rows of the key except the land run's own |
| `LandProbe.ZeroMeansIdle` | examples/land/land_probe.py:143-168 | a zero says of every listed node run that it does not count |
| `LandProbe.Checkout.ResetCheckout` | examples/land/land.py:878-918 | the checkout moves if and only if no listed attempt is live (or none was asked for), its lock was free and its own origin shows the landed commit; it moves there and under the lock, and otherwise stays |
| `Observer.IdentityExactly` | examples/hand-turn-observer/observer.py:325-358 | two proposals are one turn if and only if work item, rule, time and evidence agree, an absent field being as good as an empty one |
| `Observer.StoredExactly` | examples/hand-turn-observer/observer.py:325-358 | what is stored is each field as proposed, the optional ones only if there is something in them |
| `Observer.IdentitySurvivesFiling` | examples/hand-turn-observer/observer.py:325-358 | a turn is recognised on the ledger as the turn that was proposed, though empty fields are not stored |
| `Observer.TimesExactly` | examples/hand-turn-observer/observer.py:124-150 | how often a turn is recorded, said of the places on the ledgers |
| `Observer.RecordedIdentities` | examples/hand-turn-observer/observer.py:124-150 | the loops collect exactly the identities on the listed runs |
| `Observer.FreshIsWhatIsMissing` | examples/hand-turn-observer/observer.py:361-379 | what is left to file is exactly the proposed identities not yet recorded, once each |
| `Observer.Unrecorded` | examples/hand-turn-observer/observer.py:361-379 | the loop computes that, keeping the order |
| `ObserverRuns.BeyondTheListingIsFiledAgain` | examples/hand-turn-observer/observer.py:97-109 | with more runs than one listing shows a turn is filed twice |
| `ObserverRuns.NeverTwiceExactly` | examples/hand-turn-observer/observer.py:476-489 | over any observer runs, definitions and stops no identity is on the ledger twice, if and only if the item keeps to a hundred runs |
| `ObserverRuns.CompletedFilesAll` | examples/hand-turn-observer/observer.py:476-489 | a completed run leaves every identity it proposed there exactly once |
| `ObserverRuns.DifferentTurnsAreBothFiled` | examples/hand-turn-observer/observer.py:346-350 | two proposals that differ in one of the four fields are both on the ledger after a completed run, each in one place of its own |
| `ObserverRuns.FileExactly` | examples/hand-turn-observer/observer.py:476-489 | a record goes to the end of the newest run's ledger |
| `ObserverRuns.Item.Observe` | examples/hand-turn-observer/observer.py:476-489 | the run as written, with a post failing before or after it takes effect, keeps every identity at one and touches no other; it completes if no post fails and there is a run to post to, and then every proposal is in exactly one place |
| `Backfill.PlanExactly` | scripts/backfill-issue-types.py:236-250 | which rows are on each of the four lists |
| `Backfill.PlanIsAPartition` | scripts/backfill-issue-types.py:236-250 | every row of the table is on exactly one of the four lists |
| `Backfill.PlanRun` | scripts/backfill-issue-types.py:236-250 | the loop makes those lists in order |
| `Backfill.Converges` | scripts/backfill-issue-types.py:363-408 | after any runs cut short, one complete run gives every determined open issue its type and changes nothing else, and no later run writes anything |
| `Backfill.CaptureExactly` | scripts/backfill-issue-types.py:277-305 | the snapshot holds exactly the open issues the table names |
| `Backfill.TornSnapshotIsKept` | scripts/backfill-issue-types.py:277-305 | a run cut short inside the snapshot is followed by writes that cannot be undone |
| `Backfill.AlwaysUndoableExactly` | scripts/backfill-issue-types.py:277-305 | restoring gives exactly the state before the first run after any runs, if and only if the snapshot cannot be cut short or there is nothing to write |
| `Backfill.Script.Run` | scripts/backfill-issue-types.py:325-408 | the script as written, cut short anywhere, does what the model's run does; it refuses without a write if and only if a type is unknown, and succeeds if and only if every write was made and heard of |
| `TailBuffer.Buffer.Write` | cmd/nodes-runner-lambda/main.go:291-312 | after any writes the buffer is the last `limit` bytes of everything written, in one array of exactly that size, and each write reports its full length |
| `MergeGate.Evaluate` | scripts/merge-gate.py:467-495 | one entry for each declared gate in order, each saying what the gate owed, lacked or measured, and a refusal if and only if a gate that gets to run has a resolved directory whose text does not start with the worktree's |
| `MergeGate.RefusalIsEscapeExactly` | scripts/merge-gate.py:404-413 | a refused directory is outside the worktree, and refusal is the same as being outside, if and only if the directory is not a longer name beside the worktree |
| `Paths.ResolveLast` | scripts/merge-gate.py:407 | a directory is resolved part by part |
| `Paths.PathTextReads` | scripts/merge-gate.py:408 | a path's text reads back as the path |
| `Paths.TextPrefixExactly` | scripts/merge-gate.py:407-408 | for all paths the text of one starts with the text of the other if and only if it is inside it by components, or it is below a directory beside it whose name is longer |
| `Paths.SomethingIsBeside` | scripts/merge-gate.py:407-408 | every worktree but the root has a relative directory outside it that passes the test |
| `MergeGate.SelectJoins` | scripts/merge-gate.py:467-495 | the paths a gate owes or covers are picked one by one, in order |
| `MergeGate.LocalOutcome` | scripts/merge-gate.py:498-534 | the counting loop gives the declared precedence: a failure anywhere, then something unmeasured, then nothing measured, else passed |
| `MergeGate.OutcomeIsVerdict` | scripts/merge-gate.py:467-534 | the outcome said of the gates instead of the entries |
| `MergeGate.OrderDoesNotMatter` | scripts/merge-gate.py:498-534 | any reordering of the matrix gives the same outcome |
| `MergeGate.PassedExactly` | scripts/merge-gate.py:388-534 | passed if and only if some gate ran, every gate that ran exited 0, and no gate that owed files lacked a tool, could not be launched or executed no test |
| `TriageRows.Render` | scripts/triage-report.py:381-396 | a line for each open issue from its row, or an error if and only if one has none |
| `TriageRows.Tables.Restore` | scripts/triage-rows.py:179-198 | each file that changed is put back or named, and the others are left alone |
| `TriageRows.Tables.AddRows` | scripts/triage-rows.py:214-293 | the command as written ends, in its files and its exit, as a function of what it found and of which writes and restores fail |
| `TriageRows.RefusedExactly` | scripts/triage-rows.py:122-162 | what is refused, and that refusing writes nothing |
| `TriageRows.VocabularyStays` | scripts/triage-rows.py:139-155 | no command, however it ends, brings a bucket or a type name into a table |
| `TriageRows.FailureIsNamed` | scripts/triage-rows.py:179-293 | after a caught failure each file that is not as it was is named, and if none is named all are as they were and the command is accepted again |
| `TriageRows.AddedExactly` | scripts/triage-rows.py:263-293 | a command succeeds if and only if it is not refused, no write fails and every other open issue has a row |
| `TriageRows.AddedIsComplete` | scripts/triage-rows.py:263-293 | success is one row more in each table, as the command has it, and a report with a line for each open issue around the type section it had |
| `TriageRows.AllOrNothingExactly` | scripts/triage-rows.py:263-293 | whatever fails, all three files or none, if and only if the command is refused, or restores cannot fail and every other open issue has a row |
| `TriageRows.UncoveredIsHalfWritten` | scripts/triage-rows.py:154-160 | an open issue without a row leaves both tables written and the report not, and the same command is refused from then on |
| `TriageRows.UnrestoredIsHalfWritten` | scripts/triage-rows.py:272-284 | for every accepted command some failed write and failed restore leave it half written |
| `TriageRows.NoNumberTwice` | scripts/triage-rows.py:128-162 | over any commands, wherever each of them fails and whatever could not be put back, no number has two rows in a table |

## Left out

- LandingOnce.GateGreenKeeps: the text of the version lines is not modelled; where a difference may hide a bump it may hide any.
- LandingPushOk.PushOkIsExact: the gate is not modelled beyond its bump; the source does not run it again after a stale round either.
- LandingOnce.LandsAtMostOnce: does not model a push that is still under way after its process was killed.
- LocalLease.ExclusiveExactly: does not model reuse of process ids.
- CleanupNode.Cleaner.CleanRefs: does not promise that the node itself made each recorded deletion, because a push that exits 0 without effect is confirmed by a read that someone else's deletion satisfies; the order of the record's entries and the sanitising of run ids are not modelled.
- Cleanup.MineExactly: letters are made small as in ASCII; other alphabets are not modelled.
- CleanupCancel.Canceller.CancelParkedRuns: the four lists of the record are one list here, each entry with its kind.
- StageGuard.SoundExactly: quantifies over every pairing of renames; which pairings Git's similarity score picks for given contents is not modelled. `StageGuard.PassesExactly` is about the pairing that was reported.
- StageGuard.MovedOutPasses: names a pairing, not the one the similarity score picks.
- Combining.NeverTouchesExactly: quantifies over every pairing of renames in the same way.
- Combining.SwapsAreGated: in graph mode the source builds the verdict from the candidate ref itself; that nobody rewrites that ref is outside the model.
- ReloaderNode.Worker.CheckAndReload: the secret files are read together with the registry file, at one moment.
- LandReplyAnswered.AlwaysAnsweredExactly: says nothing exact where a rival's reply falls behind the hundredth comment of its thread because of other replies before it; `LandReplyAnswered.UnrivalledIsAnswered` holds there too.
- LandReplyOnce.AtMostOnceExactly: the landed commit is fixed; a later run that finds the branch moved names another commit and is another landing.
- MergeGate.RefusalIsEscapeExactly: symbolic links under the worktree are not modelled.
- LandProbe.Checkout.ResetCheckout: an attempt that starts after the probe has read its page is not fenced, in the source either.
- TriageRows.Tables.AddRows: a kill between the writes is not modelled, and issue numbers in both tables are compared as numbers.
- Backfill.Script.Run: retries with backoff inside one call are one call.
- The comparison of changed paths with the guarded prefix in the lander, the gate's chain of steps, credentials and the worktree's files: easy members beside the protocol.
- `registerRunnerServiceFile`, the lambda runner's polling, `path_matches` and the matchers of the observer: settled by one function each.
- Harvesting in the combining loop, the triage report's type section, reports and rendering: text.
- The engine, the ledger's store, the scheduler, the web application and the CLI.
