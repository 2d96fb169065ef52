/** Why a fast-forward failed and how canonical-recovery.mjs tries to recover. */
module CanonicalRecovery {
  import opened CommitGraph
  import opened GitRefs
  import opened GitRepository
  import opened Wrappers

  // ---------------------------------------------------------------------------
  // Classification
  // ---------------------------------------------------------------------------

  datatype FailureReason = CanonicalAdvanced | WorktreeDiverged | MergeConflict | UnknownReason

  datatype Classification = Classification(
    canonicalHead: Option<nat>, targetCommit: nat, mergeBase: Option<nat>, reason: FailureReason,
    canonicalAhead: nat, commitAhead: nat, mergeConflictDetected: bool, isRecoverable: bool)

  /** The reason the two counts give. */
  function ReasonOf(mergeBase: Option<nat>, canonicalAhead: nat, commitAhead: nat): FailureReason {
    if mergeBase.None? then UnknownReason
    else if canonicalAhead > 0 && commitAhead == 0 then CanonicalAdvanced
    else if canonicalAhead > 0 && commitAhead > 0 then WorktreeDiverged
    else UnknownReason
  }

  /** What the two heads are to each other. */
  function TrueReason(g: Graph, canonical: nat, commit: nat): FailureReason
    requires Acyclic(g) && canonical < |g| && commit < |g|
  {
    if canonical in Ancestors(g, commit) then UnknownReason
    else if commit in Ancestors(g, canonical) then CanonicalAdvanced
    else WorktreeDiverged
  }

  /** A count as the code reads it: a log that cannot be read counts as no commits. */
  function Counted(read: bool, ahead: nat): nat {
    if read then ahead else 0
  }

  /** The reason is right exactly when the logs that matter were read: none when a
      fast-forward is possible, the canonical one when canonical has advanced, and
      both when the two have diverged. */
  lemma ReasonRightIff(g: Graph, m: nat, canonical: nat, commit: nat, canonicalRead: bool, commitRead: bool)
    requires Acyclic(g) && canonical < |g| && commit < |g| && m < |g|
    requires BestCommonAncestor(g, m, canonical, commit)
    ensures ReasonOf(Some(m), Counted(canonicalRead, Ahead(g, canonical, m)), Counted(commitRead, Ahead(g, commit, m)))
              == TrueReason(g, canonical, commit)
      <==> canonical in Ancestors(g, commit)
           || (canonicalRead && (commitRead || commit in Ancestors(g, canonical)))
  {
    AheadCases(g, m, canonical, commit);
  }

  /** Diverged histories whose commit log could not be read are reported as a plain
      canonical advance, which counts as recoverable whatever conflicts there are. */
  lemma UnreadDivergenceIsAdvance(g: Graph, m: nat, canonical: nat, commit: nat)
    requires Acyclic(g) && canonical < |g| && commit < |g| && m < |g|
    requires BestCommonAncestor(g, m, canonical, commit)
    requires TrueReason(g, canonical, commit) == WorktreeDiverged
    ensures ReasonOf(Some(m), Ahead(g, canonical, m), Counted(false, Ahead(g, commit, m))) == CanonicalAdvanced
  {
    AheadCases(g, m, canonical, commit);
  }

  /** The commit is contained already, or shares no history. */
  predicate NothingToMerge(repo: Repository, commit: nat)
    requires repo.Valid() && commit < |repo.refs.graph|
    reads repo
  {
    var g, tip := repo.refs.graph, Tip(repo.refs);
    commit in Ancestors(g, tip) || !Related(g, tip, commit)
  }

  /** The merge that is tried and taken back; any failure reads as a conflict. */
  method DryRun(repo: Repository, commit: nat) returns (detected: bool)
    requires repo.Valid()
    modifies repo`clean, repo`merging, repo`log
    ensures commit < |repo.refs.graph| && commit in Ancestors(repo.refs.graph, Tip(repo.refs)) && !old(repo.merging) ==>
      detected
    ensures commit >= |repo.refs.graph| || !Related(repo.refs.graph, Tip(repo.refs), commit) ==> detected
    ensures repo.faultless && commit < |repo.refs.graph| && old(repo.Ready()) ==>
      (detected <==> NothingToMerge(repo, commit)) && repo.Ready()
    // Whatever fails: no conflict means that the merge and its abort both worked.
    ensures !detected <==> repo.log == Ran(Ran(old(repo.log), TrialMerge(commit), true), MergeAbort, true)
    ensures repo.log.Ran? && repo.log.command == MergeAbort
  {
    detected := true;
    var merged := repo.MergeNoCommit(commit);
    if merged {
      var aborted := repo.AbortMerge();
      detected := !aborted;
    }
    if detected {
      var again := repo.AbortMerge();
    }
  }

  /** `classifyFFOnlyFailure`. `mergeBase` is the answer of `git merge-base`, absent
      when it fails; the flags say whether the two logs could be read. */
  method ClassifyFFOnlyFailure(repo: Repository, commit: nat, mergeBase: Option<nat>,
                               canonicalLogRead: bool, commitLogRead: bool)
    returns (c: Classification)
    requires repo.Valid()
    requires mergeBase.Some? ==>
      && commit < |repo.refs.graph| && mergeBase.value < |repo.refs.graph|
      && BestCommonAncestor(repo.refs.graph, mergeBase.value, Tip(repo.refs), commit)
    modifies repo`clean, repo`merging, repo`log
    ensures repo.Valid()
    ensures c.targetCommit == commit && c.reason != MergeConflict
    ensures c.mergeBase.Some? ==>
      c.mergeBase == mergeBase && c.canonicalHead == Some(Tip(repo.refs))
    ensures c.mergeBase.Some? ==>
      c.canonicalAhead == Counted(canonicalLogRead, Ahead(repo.refs.graph, Tip(repo.refs), mergeBase.value))
    ensures c.mergeBase.Some? ==>
      c.commitAhead == Counted(commitLogRead, Ahead(repo.refs.graph, commit, mergeBase.value))
    ensures c.mergeBase.None? ==> c.reason == UnknownReason && c.canonicalAhead == c.commitAhead == 0
    ensures c.canonicalHead.Some? ==> c.canonicalHead.value == Tip(repo.refs)
    ensures repo.faultless ==> c.canonicalHead.Some? && c.mergeBase == mergeBase
    ensures c.mergeBase.Some? && canonicalLogRead && commitLogRead ==>
      c.reason == TrueReason(repo.refs.graph, Tip(repo.refs), commit)
    ensures c.isRecoverable <==>
      c.reason == CanonicalAdvanced || (c.reason == WorktreeDiverged && !c.mergeConflictDetected)
    // An advanced canonical branch already contains the commit: there is no merge
    // to abort, so the dry run always reads as a conflict.
    ensures c.mergeBase.Some? && canonicalLogRead && commitLogRead && !old(repo.merging) ==>
      c.reason == CanonicalAdvanced ==> c.mergeConflictDetected
    // Without faults the dry run reads as a conflict exactly when there is nothing git
    // could merge, and whatever is not a fast-forward is recoverable.
    ensures repo.faultless && commit < |repo.refs.graph| && old(repo.Ready()) ==>
      (c.mergeConflictDetected <==> NothingToMerge(repo, commit)) && repo.Ready()
    ensures repo.faultless && mergeBase.Some? && canonicalLogRead && commitLogRead && old(repo.Ready()) ==>
      c.mergeBase.Some? && (c.isRecoverable <==> Tip(repo.refs) !in Ancestors(repo.refs.graph, commit))
    // Whatever fails: a conflict is reported unless the trial merge and its abort worked.
    ensures !c.mergeConflictDetected <==>
      repo.log == Ran(Ran(old(repo.log), TrialMerge(commit), true), MergeAbort, true)
  {
    var canonicalHead := repo.RevParseHead();
    var base: Option<nat> := None;
    var canonicalAhead, commitAhead := 0, 0;
    if canonicalHead.Some? && mergeBase.Some? {
      base := mergeBase;
      canonicalAhead := Counted(canonicalLogRead, Ahead(repo.refs.graph, canonicalHead.value, base.value));
      commitAhead := Counted(commitLogRead, Ahead(repo.refs.graph, commit, base.value));
      ReasonRightIff(repo.refs.graph, base.value, canonicalHead.value, commit, canonicalLogRead, commitLogRead);
    }
    var reason := ReasonOf(base, canonicalAhead, commitAhead);
    var detected := DryRun(repo, commit);
    var recoverable := reason == CanonicalAdvanced || (reason == WorktreeDiverged && !detected);
    c := Classification(canonicalHead, commit, base, reason, canonicalAhead, commitAhead, detected, recoverable);
  }

  // ---------------------------------------------------------------------------
  // Recovery
  // ---------------------------------------------------------------------------

  datatype Outcome = BlockedUnrecoverable | RecoveredViaRebase | RecoveredViaCherryPick | RecoveryFailed

  /** A returned result, or the exception of the last handler, which reads an error
      variable outside its scope. */
  datatype Recovery =
    | Returned(outcome: Outcome, headBefore: Option<nat>, headAfter: Option<nat>,
               recovered: Option<nat>, cleanAfter: bool, attempts: nat)
    | Threw

  /** A rewritten branch: unmoved, or rebased onto the old canonical tip. Its old tip
      is then still in its history exactly when the two had not diverged. */
  ghost predicate UnmovedOrRebased(r0: Refs, r: Refs, n: string)
    requires Sound(r0) && Sound(r) && n in r0.branches && n in r.branches
  {
    || r.branches[n] == r0.branches[n]
    || (Tip(r0) in Ancestors(r.graph, r.branches[n])
        && (r0.branches[n] in Ancestors(r.graph, r.branches[n]) <==> Comparable(r0.graph, Tip(r0), r0.branches[n])))
  }

  /** What every step of a recovery keeps, from the state `r0` it started in: the
      old tip stays in the history of the branch and of the temporary branch grown
      from it, HEAD is on one of the two, and no other branch
      has moved than the task worktree's, by a rebase. */
  ghost predicate Kept(r0: Refs, r: Refs, temp: string, task: Option<string>) {
    && HistoryExtended(r0, r, task)
    && r.branches.Keys <= r0.branches.Keys + {temp}
    && (temp in r.branches && temp !in r0.branches ==> Tip(r0) in Ancestors(r.graph, r.branches[temp]))
    && (r.head == r0.head || (r.head == temp && temp !in r0.branches))
  }

  /** The safety claim itself: the old tip is still in the history of its branch and
      of HEAD, and no other branch has moved but by a rebase of the task worktree. */
  ghost predicate HistoryExtended(r0: Refs, r: Refs, task: Option<string>) {
    && Sound(r0) && Sound(r) && r0.graph <= r.graph && r0.branches.Keys <= r.branches.Keys
    && Tip(r0) in Ancestors(r.graph, r.branches[r0.head])
    && Tip(r0) in Ancestors(r.graph, Tip(r))
    && (forall n <- r0.branches :: n != r0.head && Some(n) != task ==> r.branches[n] == r0.branches[n])
    && (task.Some? && task.value in r0.branches ==> UnmovedOrRebased(r0, r, task.value))
  }

  /** Merges, picks and failed commands move the checked-out branch only. */
  lemma KeptForward(r0: Refs, r: Refs, r': Refs, temp: string, task: Option<string>)
    requires Kept(r0, r, temp, task) && Forward(r, r')
    ensures Kept(r0, r', temp, task)
  {
    ForwardKeepsHistory(r, r', r0.head, Tip(r0));
    ForwardKeepsHistory(r, r', r.head, Tip(r0));
    if temp in r.branches && temp !in r0.branches {
      ForwardKeepsHistory(r, r', temp, Tip(r0));
    }
    if task.Some? && task.value in r0.branches && task.value != r0.head {
      AncestorsGrow(r.graph, r'.graph, r.branches[task.value]);
    }
  }

  lemma KeptCreate(r0: Refs, r: Refs, temp: string, task: Option<string>)
    requires Kept(r0, r, temp, task) && r.head == r0.head && temp !in r.branches
    ensures Kept(r0, r.(branches := r.branches[temp := Tip(r)]), temp, task)
  {
  }

  lemma KeptDelete(r0: Refs, r: Refs, temp: string, task: Option<string>)
    requires Kept(r0, r, temp, task) && r.head == r0.head && temp !in r0.branches
    ensures Kept(r0, r.(branches := r.branches - {temp}), temp, task)
  {
  }

  /** The commands of strategy 1, all of which have to work. */
  function RebaseCommands(log: Log, defaultBranch: string, worktreeHead: nat): Log {
    Ran(Ran(Ran(log, Fetch(defaultBranch), true), Rebase, true), MergeForward(worktreeHead), true)
  }

  /** Strategy 1: rebase the worktree onto the default branch and retry. */
  method TryRebase(repo: Repository, defaultBranch: string, ghost r0: Refs, ghost temp: string,
                   ghost task: Option<string>, ghost sure: bool)
    returns (recovered: Option<nat>)
    requires repo.Valid() && task == repo.taskBranch && repo.refs == r0 && repo.refs.head == defaultBranch
    requires sure ==> repo.faultless && repo.Ready()
    modifies repo`refs, repo`clean, repo`detached, repo`fetched, repo`log
    ensures repo.Valid() && Kept(r0, repo.refs, temp, task) && repo.refs.head == r0.head
    ensures repo.refs.branches.Keys == r0.branches.Keys
    ensures recovered.Some? ==> !repo.localChanges && recovered.value == repo.WorktreeTip() == Tip(repo.refs)
    // Local changes in the worktree stop it at once; nothing else but a fault does.
    ensures repo.localChanges ==>
      repo.refs == r0 && repo.detached == old(repo.detached) && repo.clean == old(repo.clean)
    ensures sure && !repo.localChanges ==> recovered.Some?
    ensures sure ==> repo.Ready()
    ensures recovered.Some? ==>
      repo.log == RebaseCommands(old(repo.log), defaultBranch, recovered.value)
  {
    recovered := None;
    var fetched := repo.FetchBranch(defaultBranch);
    if fetched {
      ghost var was := repo.WorktreeTip();
      var rebased := repo.RebaseWorktree();
      RebaseKept(repo, r0, temp, was);
      if rebased {
        recovered := MergeWorktree(repo, r0, temp, task, sure);
      }
    }
  }

  /** The retry of strategy 1. */
  method MergeWorktree(repo: Repository, ghost r0: Refs, ghost temp: string, ghost task: Option<string>,
                       ghost sure: bool)
    returns (recovered: Option<nat>)
    requires repo.Valid() && task == repo.taskBranch && Kept(r0, repo.refs, temp, task)
    requires Tip(repo.refs) in Ancestors(repo.refs.graph, repo.WorktreeTip())
    requires sure ==> repo.faultless && repo.Ready()
    modifies repo`refs, repo`clean, repo`log
    ensures repo.Valid() && Kept(r0, repo.refs, temp, task) && repo.refs.head == old(repo.refs.head)
    ensures repo.refs.branches.Keys == old(repo.refs.branches.Keys) && repo.WorktreeTip() == old(repo.WorktreeTip())
    ensures recovered.Some? ==> recovered.value == repo.WorktreeTip() == Tip(repo.refs)
    ensures sure ==> recovered.Some? && repo.Ready()
    ensures recovered.Some? ==> repo.log == Ran(old(repo.log), MergeForward(recovered.value), true)
  {
    recovered := None;
    var worktreeHead := repo.WorktreeHead();
    if worktreeHead.Some? {
      ghost var r1 := repo.refs;
      var merged := repo.MergeFFOnly(worktreeHead.value);
      KeptForward(r0, r1, repo.refs, temp, task);
      recovered := if merged then worktreeHead else None;
    }
  }

  lemma RebaseKept(repo: Repository, r0: Refs, temp: string, was: nat)
    requires repo.Valid() && Sound(r0) && OnlyMoved(r0, repo.refs, repo.taskBranch)
    requires repo.taskBranch.Some? ==> repo.taskBranch.value in r0.branches && repo.taskBranch.value != r0.head
    requires repo.taskBranch.Some? ==>
      repo.refs.branches[repo.taskBranch.value] != r0.branches[repo.taskBranch.value] ==>
      repo.detached.None? && was == r0.branches[repo.taskBranch.value] && repo.RebasedFrom(r0, was, Tip(r0))
    ensures Kept(r0, repo.refs, temp, repo.taskBranch)
  {
    AncestorsGrow(r0.graph, repo.refs.graph, Tip(r0));
  }

  /** A temporary branch at the canonical HEAD, checked out. */
  method SwitchToTemp(repo: Repository, at: nat, temp: string, ghost r0: Refs, ghost task: Option<string>,
                      ghost sure: bool)
    returns (ok: bool)
    requires repo.Valid() && task == repo.taskBranch && Kept(r0, repo.refs, temp, task) && repo.refs.head == r0.head
    requires at == Tip(repo.refs) && (temp in repo.refs.branches ==> temp in r0.branches)
    requires sure ==> repo.faultless && repo.Ready() && temp !in repo.refs.branches
    modifies repo`refs, repo`clean, repo`log
    ensures repo.Valid() && Kept(r0, repo.refs, temp, task) && repo.WorktreeTip() == old(repo.WorktreeTip())
    ensures ok ==> temp !in old(repo.refs.branches) && temp !in r0.branches
    ensures ok ==> repo.refs == old(repo.refs).(head := temp, branches := old(repo.refs.branches)[temp := at])
    ensures sure ==> ok && repo.Ready()
    ensures ok ==> repo.log == Ran(Ran(old(repo.log), NewBranch(temp, at), true), Switch(temp), true)
  {
    if temp !in repo.refs.branches {
      KeptCreate(r0, repo.refs, temp, task);
    }
    ok := repo.CreateBranch(temp, at);
    if ok {
      ok := repo.Checkout(temp);
    }
  }

  /** The commands of the first half of strategy 2. */
  function PickCommands(log: Log, temp: string, at: nat, c: nat): Log {
    Ran(Ran(Ran(log, NewBranch(temp, at), true), Switch(temp), true), Pick(c), true)
  }

  /** Those of the second, before the temporary branch is dropped. */
  function ReturnCommands(log: Log, defaultBranch: string, picked: nat): Log {
    Ran(Ran(log, Switch(defaultBranch), true), MergeForward(picked), true)
  }

  /** Strategy 2, first half: on the temporary branch, a pick of the worktree's HEAD
      as the rebase left it. */
  method PickOnBranch(repo: Repository, temp: string, ghost r0: Refs, ghost task: Option<string>,
                      ghost sure: bool, ghost applies: bool)
    returns (cherryHead: Option<nat>)
    requires repo.Valid() && task == repo.taskBranch && Kept(r0, repo.refs, temp, task) && repo.refs.head == r0.head
    requires (temp in repo.refs.branches ==> temp in r0.branches) && applies == repo.Picks(repo.WorktreeTip())
    requires sure ==> repo.faultless && repo.Ready() && temp !in repo.refs.branches
    modifies repo`refs, repo`clean, repo`picks, repo`log
    ensures repo.Valid() && Kept(r0, repo.refs, temp, task) && repo.WorktreeTip() == old(repo.WorktreeTip())
    ensures cherryHead.Some? ==> cherryHead.value < |repo.refs.graph|
    ensures cherryHead.Some? ==> repo.refs.branches[r0.head] in Ancestors(repo.refs.graph, cherryHead.value)
    ensures cherryHead.Some? ==> temp !in r0.branches && Some(temp) != task && applies
    ensures sure && applies ==> repo.refs == AddCommit(old(repo.refs).(
      head := temp, branches := old(repo.refs.branches)[temp := Tip(old(repo.refs))]))
    ensures sure && applies ==> cherryHead == Some(|old(repo.refs.graph)|)
    ensures cherryHead.Some? ==> (cherryHead.value, repo.WorktreeTip()) in repo.picks.Items
    ensures sure ==> repo.Ready() && (cherryHead.Some? <==> applies)
    ensures sure && !applies ==>
      repo.refs == old(repo.refs).(head := temp, branches := old(repo.refs.branches)[temp := Tip(old(repo.refs))])
    ensures cherryHead.Some? ==>
      repo.log == PickCommands(old(repo.log), temp, Tip(old(repo.refs)), repo.WorktreeTip())
  {
    cherryHead := None;
    var worktreeCommit := repo.WorktreeHead();
    var canonicalHead := repo.RevParseHead();
    if canonicalHead.Some? {
      var onTemp := SwitchToTemp(repo, canonicalHead.value, temp, r0, task, sure);
      if onTemp && worktreeCommit.Some? {
        ghost var r1 := repo.refs;
        cherryHead := PickHere(repo, worktreeCommit.value, sure);
        KeptForward(r0, r1, repo.refs, temp, task);
      }
    }
  }

  /** `cherry-pick` and the commit it made. */
  method PickHere(repo: Repository, c: nat, ghost sure: bool) returns (cherryHead: Option<nat>)
    requires repo.Valid() && (sure ==> repo.faultless && repo.Ready())
    modifies repo`refs, repo`clean, repo`picks, repo`log
    ensures repo.Valid() && Forward(old(repo.refs), repo.refs) && repo.WorktreeTip() == old(repo.WorktreeTip())
    ensures cherryHead.Some? ==>
      && old(repo.Picks(c)) && cherryHead.value == |old(repo.refs).graph| && repo.refs == AddCommit(old(repo.refs))
      && (cherryHead.value, c) in repo.picks.Items
    ensures sure ==> repo.Ready() && (cherryHead.Some? <==> old(repo.Picks(c)))
    ensures sure && cherryHead.None? ==> repo.refs == old(repo.refs)
    ensures cherryHead.Some? ==> repo.log == Ran(old(repo.log), Pick(c), true)
  {
    cherryHead := None;
    var ok := repo.CherryPick(c);
    if ok {
      cherryHead := repo.RevParseHead();
    }
  }

  /** Strategy 2: pick, return to the default branch and fast-forward it. A failed
      `rev-parse` leaves nothing to merge. */
  method TryCherryPick(repo: Repository, defaultBranch: string, temp: string, ghost r0: Refs,
                       ghost task: Option<string>, ghost sure: bool, ghost applies: bool)
    returns (picked: Option<nat>)
    requires repo.Valid() && task == repo.taskBranch && Kept(r0, repo.refs, temp, task)
    requires repo.refs.head == r0.head == defaultBranch && (temp in repo.refs.branches ==> temp in r0.branches)
    requires sure ==> repo.faultless && repo.Ready() && temp !in repo.refs.branches
    requires applies == repo.Picks(repo.WorktreeTip())
    modifies repo`refs, repo`clean, repo`picks, repo`log
    ensures repo.Valid() && Kept(r0, repo.refs, temp, task)
    ensures picked.Some? ==>
      && repo.refs.head == defaultBranch && applies && picked.value == Tip(repo.refs)
      && (picked.value, repo.WorktreeTip()) in repo.picks.Items
    ensures sure ==> repo.Ready() && (picked.Some? <==> applies)
    // The commit is on the default branch and the temporary branch is gone again, or
    // it is still there, without a commit of its own, and checked out.
    ensures sure ==>
      repo.refs == (if applies then AddCommit(old(repo.refs)) else old(repo.refs).(
        head := temp, branches := old(repo.refs.branches)[temp := Tip(old(repo.refs))]))
    ensures picked.Some? ==>
      && repo.log.Ran? && repo.log.command == DropBranch(temp)
      && repo.log.before == ReturnCommands(
           PickCommands(old(repo.log), temp, Tip(old(repo.refs)), repo.WorktreeTip()), defaultBranch, picked.value)
  {
    picked := None;
    var cherryHead := PickOnBranch(repo, temp, r0, task, sure, applies);
    if cherryHead.Some? {
      if sure { PickedAcross(old(repo.refs), temp); }
      var merged := MergeTemp(repo, defaultBranch, temp, cherryHead.value, r0, task, sure);
      picked := if merged then cherryHead else None;
    }
  }

  method DropTemp(repo: Repository, temp: string, ghost r0: Refs, ghost task: Option<string>)
    requires repo.Valid() && task == repo.taskBranch && Kept(r0, repo.refs, temp, task)
    requires repo.refs.head == r0.head && temp !in r0.branches
    modifies repo`refs, repo`log
    ensures repo.Valid() && Kept(r0, repo.refs, temp, task) && repo.WorktreeTip() == old(repo.WorktreeTip())
    ensures repo.refs.head == r0.head && Tip(repo.refs) == Tip(old(repo.refs))
      && repo.refs.graph == old(repo.refs.graph)
    ensures repo.faultless && Some(temp) != task ==>
      repo.refs == old(repo.refs).(branches := old(repo.refs.branches) - {temp})
    ensures repo.log.Ran? && repo.log.before == old(repo.log) && repo.log.command == DropBranch(temp)
  {
    KeptDelete(r0, repo.refs, temp, task);
    var dropped := repo.DeleteBranch(temp);
  }

  /** Strategy 2, second half. */
  method MergeTemp(repo: Repository, defaultBranch: string, temp: string, cherryHead: nat,
                   ghost r0: Refs, ghost task: Option<string>, ghost sure: bool)
    returns (ok: bool)
    requires repo.Valid() && task == repo.taskBranch && Kept(r0, repo.refs, temp, task) && r0.head == defaultBranch
    requires defaultBranch in repo.refs.branches && Some(defaultBranch) != task && cherryHead < |repo.refs.graph|
    requires repo.refs.branches[defaultBranch] in Ancestors(repo.refs.graph, cherryHead)
    requires (sure ==> repo.faultless && repo.Ready()) && temp !in r0.branches && Some(temp) != task
    modifies repo`refs, repo`clean, repo`log
    ensures repo.Valid() && Kept(r0, repo.refs, temp, task) && repo.WorktreeTip() == old(repo.WorktreeTip())
    ensures ok ==> repo.refs.head == defaultBranch && cherryHead == Tip(repo.refs)
    ensures sure ==> ok && repo.Ready()
    ensures sure ==> repo.refs == old(repo.refs).(
      head := defaultBranch, branches := old(repo.refs.branches)[defaultBranch := cherryHead] - {temp})
    ensures ok ==>
      && repo.log.Ran? && repo.log.command == DropBranch(temp)
      && repo.log.before == ReturnCommands(old(repo.log), defaultBranch, cherryHead)
  {
    ok := MergeBack(repo, defaultBranch, temp, cherryHead, r0, task, sure);
    if ok {
      DropTemp(repo, temp, r0, task);
    }
  }

  /** Back to the default branch, and it is taken to the pick. */
  method MergeBack(repo: Repository, defaultBranch: string, ghost temp: string, cherryHead: nat,
                   ghost r0: Refs, ghost task: Option<string>, ghost sure: bool)
    returns (ok: bool)
    requires repo.Valid() && task == repo.taskBranch && Kept(r0, repo.refs, temp, task) && r0.head == defaultBranch
    requires defaultBranch in repo.refs.branches && Some(defaultBranch) != task && cherryHead < |repo.refs.graph|
    requires repo.refs.branches[defaultBranch] in Ancestors(repo.refs.graph, cherryHead)
    requires sure ==> repo.faultless && repo.Ready()
    modifies repo`refs, repo`clean, repo`log
    ensures repo.Valid() && Kept(r0, repo.refs, temp, task) && repo.WorktreeTip() == old(repo.WorktreeTip())
    ensures sure ==> ok && repo.Ready()
    ensures ok ==>
      && repo.refs == old(repo.refs).(
           head := defaultBranch, branches := old(repo.refs.branches)[defaultBranch := cherryHead])
      && repo.log == ReturnCommands(old(repo.log), defaultBranch, cherryHead)
  {
    ok := repo.Checkout(defaultBranch);
    if ok {
      ghost var r1 := repo.refs;
      ok := repo.MergeFFOnly(cherryHead);
      KeptForward(r0, r1, repo.refs, temp, task);
    }
  }

  /** A pick on the temporary branch that the default branch is taken to, without the
      temporary branch, is the pick on the default branch. */
  lemma PickedAcross(r: Refs, temp: string)
    requires r.head in r.branches && temp !in r.branches
    ensures var on := AddCommit(r.(head := temp, branches := r.branches[temp := Tip(r)]));
            on.(head := r.head, branches := on.branches[r.head := |r.graph|] - {temp}) == AddCommit(r)
  {
    var on := AddCommit(r.(head := temp, branches := r.branches[temp := Tip(r)]));
    assert on.branches[r.head := |r.graph|] - {temp} == r.branches[r.head := |r.graph|];
  }

  /** What a recovered result says about the repository it leaves. */
  ghost predicate Reported(repo: Repository, r: Recovery, defaultBranch: string)
    requires repo.Valid()
    reads repo
  {
    r.Returned? ==>
      && repo.refs.head == defaultBranch
      && (r.headAfter.Some? ==> r.headAfter.value == Tip(repo.refs)) && (r.cleanAfter ==> repo.StatusEmpty())
      && match r.outcome
         case RecoveredViaRebase =>
           && r.recovered == Some(repo.WorktreeTip()) && !repo.localChanges && r.attempts == 1
           && repo.WorktreeTip() == Tip(repo.refs)
         case RecoveredViaCherryPick =>
           && r.recovered == r.headAfter && r.attempts == 2
           && (Tip(repo.refs), repo.WorktreeTip()) in repo.picks.Items
         case _ => false
  }

  /** The result of a strategy that worked; a pick is reported as the new HEAD. */
  method Finish(repo: Repository, outcome: Outcome, headBefore: Option<nat>, recovered: Option<nat>)
    returns (r: Recovery)
    requires repo.Valid() && (outcome == RecoveredViaRebase || outcome == RecoveredViaCherryPick)
    ensures r.Returned? && r.outcome == outcome && r.headBefore == headBefore
    ensures r.headAfter.Some? ==> r.headAfter.value == Tip(repo.refs)
    ensures r.cleanAfter ==> repo.StatusEmpty()
    ensures r.recovered == if outcome == RecoveredViaRebase then recovered else r.headAfter
    ensures r.attempts == if outcome == RecoveredViaRebase then 1 else 2
    ensures repo.faultless ==> r.headAfter.Some? && (repo.Ready() ==> r.cleanAfter)
  {
    var headAfter := repo.RevParseHead();
    var clean := repo.StatusIsClean();
    if outcome == RecoveredViaRebase {
      r := Returned(outcome, headBefore, headAfter, recovered, clean == Some(true), 1);
    } else {
      r := Returned(outcome, headBefore, headAfter, headAfter, clean == Some(true), 2);
    }
  }

  /** The last two commands were the return to the default branch, which is checked out
      again if that worked, and the abort of a merge. */
  ghost predicate Restored(repo: Repository, defaultBranch: string)
    reads repo
  {
    && repo.log.Ran? && repo.log.before.Ran?
    && repo.log.before.command == Switch(defaultBranch) && repo.log.command == MergeAbort
    && (repo.log.before.ok ==> repo.refs.head == defaultBranch)
    && (repo.log.ok || repo.faultless ==> !repo.merging)
  }

  /** The last handler, up to the error it throws. */
  method Restore(repo: Repository, defaultBranch: string, temp: string, ghost r0: Refs, ghost task: Option<string>,
                 ghost sure: bool)
    requires repo.Valid() && task == repo.taskBranch && Kept(r0, repo.refs, temp, task) && r0.head == defaultBranch
    requires sure ==> repo.faultless && repo.Ready() && Some(defaultBranch) != task
    modifies repo`refs, repo`clean, repo`merging, repo`log
    ensures repo.Valid() && Kept(r0, repo.refs, temp, task) && Restored(repo, defaultBranch)
    ensures sure ==> repo.Ready() && repo.refs == old(repo.refs).(head := defaultBranch)
  {
    var back := repo.Checkout(defaultBranch);
    var aborted := repo.AbortMerge();
  }

  /** What a recoverable failure comes to without faults: the rebase recovers unless the
      worktree has local changes, and then the pick does if it applies. Canonical is back
      on its branch and clean in every case; the pick is the one commit added, and
      without one only the temporary branch is left over. */
  ghost predicate Decided(repo: Repository, before: Refs, r: Recovery, defaultBranch: string, temp: string,
                          picks: bool)
    requires before.head in before.branches
    reads repo
  {
    && repo.refs.head == defaultBranch && repo.Ready() && (r.Returned? ==> r.headAfter.Some? && r.cleanAfter)
    && if !repo.localChanges then
         r.Returned? && r.outcome == RecoveredViaRebase && repo.refs.branches.Keys == before.branches.Keys
       else if picks then
         r.Returned? && r.outcome == RecoveredViaCherryPick && repo.refs == AddCommit(before)
       else
         r.Threw? && repo.refs == before.(branches := before.branches[temp := Tip(before)])
  }

  /** The commands that were run for the outcome. */
  ghost predicate Commanded(repo: Repository, r: Recovery, defaultBranch: string, temp: string, logged: Log)
    requires repo.Valid()
    reads repo
  {
    if r.Threw? then Restored(repo, defaultBranch)
    else if r.outcome == RecoveredViaRebase then
      repo.log == RebaseCommands(logged, defaultBranch, Tip(repo.refs))
    else
      && repo.log.Ran? && repo.log.command == DropBranch(temp)
      && exists first, at, p :: repo.log.before ==
           ReturnCommands(PickCommands(first, temp, at, repo.WorktreeTip()), defaultBranch, p)
  }

  /** The two strategies. */
  method Attempt(repo: Repository, headBefore: Option<nat>, defaultBranch: string, temp: string) returns (r: Recovery)
    requires repo.Valid() && repo.refs.head == defaultBranch
    modifies repo
    ensures repo.Valid() && Kept(old(repo.refs), repo.refs, temp, repo.taskBranch)
    ensures Reported(repo, r, defaultBranch) && (r.Returned? ==> r.headBefore == headBefore)
    ensures Commanded(repo, r, defaultBranch, temp, old(repo.log))
    ensures repo.faultless && old(repo.Ready()) && temp !in old(repo.refs.branches) ==>
      Decided(repo, old(repo.refs), r, defaultBranch, temp, old(repo.Picks(repo.WorktreeTip())))
  {
    ghost var r0, task := repo.refs, repo.taskBranch;
    ghost var sure := repo.faultless && repo.Ready() && temp !in r0.branches;
    r := Threw;
    var recovered := TryRebase(repo, defaultBranch, r0, temp, task, sure);
    if recovered.Some? {
      r := Finish(repo, RecoveredViaRebase, headBefore, recovered);
    } else {
      r := AttemptPick(repo, headBefore, defaultBranch, temp, r0, task, sure, repo.Picks(repo.WorktreeTip()));
    }
  }

  /** The second strategy and the last handler. */
  method AttemptPick(repo: Repository, headBefore: Option<nat>, defaultBranch: string, temp: string, ghost r0: Refs,
                     ghost task: Option<string>, ghost sure: bool, ghost applies: bool)
    returns (r: Recovery)
    requires repo.Valid() && task == repo.taskBranch && Kept(r0, repo.refs, temp, task)
    requires repo.refs.head == r0.head == defaultBranch && repo.refs.branches.Keys == r0.branches.Keys
    requires applies == repo.Picks(repo.WorktreeTip())
    requires sure ==> repo.faultless && repo.Ready() && temp !in r0.branches && repo.refs == r0 && repo.localChanges
    modifies repo`refs, repo`clean, repo`picks, repo`merging, repo`log
    ensures repo.Valid() && Kept(r0, repo.refs, temp, task)
    ensures Reported(repo, r, defaultBranch) && (r.Returned? ==> r.headBefore == headBefore)
    ensures r.Returned? ==> r.outcome == RecoveredViaCherryPick
    ensures Commanded(repo, r, defaultBranch, temp, old(repo.log))
    ensures sure ==> Decided(repo, r0, r, defaultBranch, temp, applies)
  {
    var picked := TryCherryPick(repo, defaultBranch, temp, r0, task, sure, applies);
    if picked.Some? {
      r := Finish(repo, RecoveredViaCherryPick, headBefore, picked);
    } else {
      r := Threw;
      Restore(repo, defaultBranch, temp, r0, task, sure);
    }
  }

  /** `recoverFFOnlyMerge`, every command free to fail. */
  method RecoverFFOnlyMerge(repo: Repository, c: Classification, defaultBranch: string, temp: string)
    returns (r: Recovery)
    requires repo.Valid() && repo.refs.head == defaultBranch
    modifies repo
    // The old canonical tip stays in history, and no other branch moves but the task
    // worktree's, which a rebase takes onto that tip; what it was before stays in its
    // history exactly when the two had not diverged.
    ensures repo.Valid() && HistoryExtended(old(repo.refs), repo.refs, repo.taskBranch)
    ensures !c.isRecoverable ==>
      && r.Returned? && r.outcome == BlockedUnrecoverable && r.attempts == 0 && r.headAfter == r.headBefore
      && repo.refs == old(repo.refs) && repo.clean == old(repo.clean) && repo.WorktreeTip() == old(repo.WorktreeTip())
      && repo.log == old(repo.log)
    ensures c.isRecoverable ==> Reported(repo, r, defaultBranch)
    ensures c.isRecoverable ==> Commanded(repo, r, defaultBranch, temp, old(repo.log))
    ensures r.Returned? && r.headBefore.Some? ==> r.headBefore.value == Tip(old(repo.refs))
    ensures r.Returned? && r.cleanAfter ==> repo.StatusEmpty()
    // HEAD is on the default branch at every exit, unless the return to it failed.
    ensures repo.refs.head == defaultBranch ||
      (r.Threw? && repo.log.before.command == Switch(defaultBranch) && !repo.log.before.ok)
    // Without faults the outcome is decided.
    ensures repo.faultless && old(repo.Ready()) && c.isRecoverable && temp !in old(repo.refs.branches) ==>
      Decided(repo, old(repo.refs), r, defaultBranch, temp, old(repo.Picks(repo.WorktreeTip())))
  {
    var headBefore := repo.RevParseHead();
    if !c.isRecoverable {
      var clean := repo.StatusIsClean();
      r := Returned(BlockedUnrecoverable, headBefore, headBefore, None, clean == Some(true), 0);
    } else {
      r := Attempt(repo, headBefore, defaultBranch, temp);
    }
  }
}
