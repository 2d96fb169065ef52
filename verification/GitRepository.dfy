/** The canonical repository as the integration code drives it. Every git command
    is one method; it may fail, and a failing command may still have had its effect
    (a hook that exits non-zero, a timeout after the update). */
module GitRepository {
  import opened CommitGraph
  import opened GitRefs
  import opened Wrappers

  /** The commands that may change something. */
  datatype Command =
    | MergeForward(commit: nat) | NewBranch(name: string, at: nat) | Switch(name: string) | Pick(commit: nat)
    | DropBranch(name: string) | TrialMerge(commit: nat) | MergeAbort | Fetch(name: string) | Rebase
    | StagePick(commit: nat) | CommitStaged | PickAbort | Verify(profile: string)

  /** The commands that were run, the last one first, and whether they reported success. */
  datatype Log = NothingRun | Ran(before: Log, command: Command, ok: bool)

  class Repository {
    /** What has been run so far. */
    ghost var log: Log
    /** Branches and checked-out branch of the canonical repository. */
    var refs: Refs
    /** Nothing in the checkout differs but what is staged for the next commit. */
    var clean: bool
    /** The commit whose changes `cherry-pick --no-commit` has staged. */
    var staged: Option<nat>
    /** A merge was stopped before its commit. */
    var merging: bool
    /** New commits made by cherry-picking, with the commit picked. */
    var picks: map<nat, nat>

    /** The task worktree is a linked worktree: the branch it has checked out is a
        branch of this repository, which nothing else can check out or delete. */
    const taskBranch: Option<string>
    /** The worktree's HEAD where it is detached: from the start, or by a rebase that
        stopped before it moved the branch. */
    var detached: Option<nat>
    /** What the worktree fetched last. */
    var fetched: Option<nat>
    /** The worktree has no uncommitted changes at all; none of tracked files. */
    const worktreeClean: bool
    const localChanges: bool

    /** The first commit brings the same changes as are in the second already. */
    const sameChanges: (nat, nat) -> bool
    /** No command fails without a reason of its own, nothing conflicts, and other
        commands leave the checkout as it was. */
    const faultless: bool

    ghost predicate Valid()
      reads this
    {
      && Sound(refs)
      && (taskBranch.Some? ==> taskBranch.value in refs.branches && taskBranch.value != refs.head)
      && (taskBranch.None? ==> detached.Some?)
      && (detached.Some? ==> detached.value < |refs.graph|)
      && (fetched.Some? ==> fetched.value < |refs.graph|)
      && (forall c <- picks :: c < |refs.graph|)
      && (worktreeClean ==> !localChanges)
    }

    constructor (refs: Refs, taskBranch: Option<string>, detached: Option<nat>, clean: bool,
                 worktreeClean: bool, localChanges: bool, sameChanges: (nat, nat) -> bool, faultless: bool)
      requires Sound(refs) && (worktreeClean ==> !localChanges)
      requires taskBranch.Some? ==> taskBranch.value in refs.branches && taskBranch.value != refs.head
      requires if detached.Some? then detached.value < |refs.graph| else taskBranch.Some?
      ensures Valid() && this.refs == refs && this.taskBranch == taskBranch && this.detached == detached
      ensures this.clean == clean && this.worktreeClean == worktreeClean && this.localChanges == localChanges
      ensures staged.None? && !merging && picks == map[] && log == NothingRun
      ensures this.sameChanges == sameChanges && this.faultless == faultless
    {
      this.refs, this.taskBranch, this.detached := refs, taskBranch, detached;
      this.clean, this.staged, this.merging, this.picks, this.fetched := clean, None, false, map[], None;
      this.worktreeClean, this.localChanges := worktreeClean, localChanges;
      this.sameChanges, this.faultless, this.log := sameChanges, faultless, NothingRun;
    }

    // -------------------------------------------------------------------------
    // What there is to see
    // -------------------------------------------------------------------------

    /** Nothing uncommitted in the checkout. */
    predicate StatusEmpty()
      reads this
    {
      clean && staged.None?
    }

    /** Nothing uncommitted and no merge to conclude. */
    predicate Ready()
      reads this
    {
      StatusEmpty() && !merging
    }

    /** The worktree's HEAD. */
    function WorktreeTip(): nat
      requires Valid()
      reads this
    {
      if detached.Some? then detached.value else refs.branches[taskBranch.value]
    }

    /** What picking `c` onto HEAD would do. */
    predicate Picks(c: nat)
      requires Valid()
      reads this
    {
      PickApplies(refs.graph, Tip(refs), picks, sameChanges, c)
    }

    /** `git rev-parse HEAD`; nothing when the command fails. */
    method RevParseHead() returns (h: Option<nat>)
      requires Valid()
      ensures h.Some? ==> h.value == Tip(refs)
      ensures faultless ==> h.Some?
    {
      h := Some(Tip(refs));
      if * { if !faultless { h := None; } }
    }

    /** `git status --porcelain` compared with the empty string; a merge in progress
        may or may not show. */
    method StatusIsClean() returns (c: Option<bool>)
      ensures c.Some? ==> if c.value then StatusEmpty() else !Ready()
      ensures faultless ==> c.Some?
    {
      c := Some(StatusEmpty());
      if merging { if * { c := Some(false); } }
      if * { if !faultless { c := None; } }
    }

    /** `git merge-base --is-ancestor c HEAD`; failing reads as "no". */
    method IsAncestorOfHead(c: nat) returns (yes: bool)
      requires Valid()
      ensures yes ==> c in Ancestors(refs.graph, Tip(refs))
      ensures faultless && c in Ancestors(refs.graph, Tip(refs)) ==> yes
    {
      yes := c in Ancestors(refs.graph, Tip(refs));
      if * { yes := yes && faultless; }
    }

    /** `git cat-file -e c^{commit}`. */
    method CommitExists(c: nat) returns (yes: bool)
      ensures yes ==> c < |refs.graph|
      ensures faultless && c < |refs.graph| ==> yes
    {
      yes := c < |refs.graph|;
      if * { yes := yes && faultless; }
    }

    /** `git show-ref --verify refs/heads/name`. */
    method BranchExists(name: string) returns (yes: bool)
      ensures yes ==> name in refs.branches
      ensures faultless && name in refs.branches ==> yes
    {
      yes := name in refs.branches;
      if * { yes := yes && faultless; }
    }

    // -------------------------------------------------------------------------
    // Moving branches
    // -------------------------------------------------------------------------

    /** `git merge --ff-only c`: succeeds without effect when `c` is already
        contained, moves the tip when `c` descends from it, fails otherwise. A tree
        that is not ready may make it fail too. */
    method MergeFFOnly(c: nat) returns (ok: bool)
      requires Valid()
      modifies `refs, `clean, `log
      ensures Valid() && Forward(old(refs), refs)
      ensures WorktreeTip() == old(WorktreeTip())
      ensures refs == old(refs) || refs == MoveTip(old(refs), c)
      ensures ok ==> c < |refs.graph| && c in Ancestors(refs.graph, Tip(refs))
      ensures ok && CanFastForward(old(refs), c) ==> refs == MoveTip(old(refs), c)
      ensures faultless && old(Ready()) && c < |refs.graph| ==>
        && clean == old(clean)
        && (ok <==> c in Ancestors(old(refs).graph, Tip(old(refs))) || CanFastForward(old(refs), c))
      ensures log == Ran(old(log), MergeForward(c), ok)
    {
      var sure := faultless && Ready();
      if c < |refs.graph| && c in Ancestors(refs.graph, Tip(refs)) {
        ok := *;
        ok := ok || sure;
        assert CanFastForward(refs, c) ==> refs.branches[refs.head := c] == refs.branches;
      } else if c < |refs.graph| && CanFastForward(refs, c) {
        var late: bool := *;
        ok := *;
        ok := ok || sure;
        if ok || late {
          refs := MoveTip(refs, c);
        }
        if !ok { clean := *; }
      } else {
        ok := false;
      }
      log := Ran(log, MergeForward(c), ok);
    }

    /** `git branch name at`: refuses an existing name. */
    method CreateBranch(name: string, at: nat) returns (ok: bool)
      requires Valid() && at < |refs.graph|
      modifies `refs, `log
      ensures Valid()
      ensures WorktreeTip() == old(WorktreeTip())
      ensures refs == old(refs) ||
        (name !in old(refs.branches) && refs == old(refs).(branches := old(refs.branches)[name := at]))
      ensures ok ==> name !in old(refs.branches) && name in refs.branches
      ensures faultless && name !in old(refs.branches) ==> ok
      ensures log == Ran(old(log), NewBranch(name, at), ok)
    {
      var late: bool := *;
      ok := *;
      ok := (ok || faultless) && name !in refs.branches;
      if ok || (late && name !in refs.branches) {
        refs := refs.(branches := refs.branches[name := at]);
      }
      log := Ran(log, NewBranch(name, at), ok);
    }

    /** `git checkout name`: refuses the branch of the task worktree. */
    method Checkout(name: string) returns (ok: bool)
      requires Valid()
      modifies `refs, `clean, `log
      ensures Valid()
      ensures WorktreeTip() == old(WorktreeTip())
      ensures refs == old(refs) || refs == old(refs).(head := name)
      ensures ok ==> refs == old(refs).(head := name)
      ensures faultless && old(Ready()) && name in refs.branches && Some(name) != taskBranch ==>
        ok && clean == old(clean)
      ensures log == Ran(old(log), Switch(name), ok)
    {
      var late: bool := *;
      ok := *;
      var possible := name in refs.branches && Some(name) != taskBranch;
      ok := (ok || (faultless && Ready())) && possible;
      if ok || (late && possible) {
        refs := refs.(head := name);
      }
      if !ok { clean := *; }
      log := Ran(log, Switch(name), ok);
    }

    /** `git cherry-pick c`: one new commit on the checked-out branch, recorded as a
        pick of `c`. It refuses merges and picks that add nothing; a conflict leaves
        the tree dirty and the branch where it was. */
    method CherryPick(c: nat) returns (ok: bool)
      requires Valid()
      modifies `refs, `clean, `picks, `log
      ensures Valid() && Forward(old(refs), refs)
      ensures WorktreeTip() == old(WorktreeTip())
      ensures (refs == old(refs) && picks == old(picks))
           || (refs == AddCommit(old(refs)) && picks == old(picks)[|old(refs.graph)| := c])
      ensures ok ==> picks == old(picks)[|old(refs.graph)| := c] && refs == AddCommit(old(refs))
      ensures ok ==> old(Picks(c))
      ensures !old(Picks(c)) ==> refs == old(refs)
      ensures faultless && old(Ready()) ==> clean == old(clean) && (ok <==> old(Picks(c)))
      ensures log == Ran(old(log), Pick(c), ok)
    {
      var late: bool := *;
      ok := *;
      var sure := faultless && Ready();
      ok := (ok || sure) && Picks(c);
      if ok || (late && Picks(c)) {
        AddCommitForward(refs);
        picks := picks[|refs.graph| := c];
        refs := AddCommit(refs);
      }
      if !ok && !sure { clean := *; }
      log := Ran(log, Pick(c), ok);
    }

    /** `git branch -D name`: refuses a checked-out branch. */
    method DeleteBranch(name: string) returns (ok: bool)
      requires Valid()
      modifies `refs, `log
      ensures Valid()
      ensures WorktreeTip() == old(WorktreeTip())
      ensures refs == old(refs) ||
        (name != old(refs.head) && refs == old(refs).(branches := old(refs.branches) - {name}))
      ensures ok ==> name !in refs.branches
      ensures faultless && name in old(refs.branches) && name != refs.head && Some(name) != taskBranch ==> ok
      ensures log == Ran(old(log), DropBranch(name), ok)
    {
      var late: bool := *;
      ok := *;
      var possible := name in refs.branches && name != refs.head && Some(name) != taskBranch;
      ok := (ok || faultless) && possible;
      if ok || (late && possible) {
        refs := refs.(branches := refs.branches - {name});
      }
      log := Ran(log, DropBranch(name), ok);
    }

    /** `git merge --no-commit --no-ff c`: already contained commits need no merge,
        and unrelated histories are refused; otherwise the merge stops before its
        commit, or conflicts. */
    method MergeNoCommit(c: nat) returns (ok: bool)
      requires Valid()
      modifies `clean, `merging, `log
      ensures ok && c < |refs.graph| && c in Ancestors(refs.graph, Tip(refs)) ==> merging == old(merging)
      ensures ok ==> c < |refs.graph| && Related(refs.graph, Tip(refs), c)
      ensures faultless && old(Ready()) && c < |refs.graph| ==>
        && clean == old(clean) && (ok <==> Related(refs.graph, Tip(refs), c))
        && (merging <==> ok && c !in Ancestors(refs.graph, Tip(refs)))
      ensures log == Ran(old(log), TrialMerge(c), ok)
    {
      ok := *;
      var possible := c < |refs.graph| && Related(refs.graph, Tip(refs), c);
      if c < |refs.graph| && c in Ancestors(refs.graph, Tip(refs)) {
        ComparableRelated(refs.graph, Tip(refs), c);
      }
      ok := ok && possible;
      if faultless && Ready() && c < |refs.graph| {
        ok := possible;
        merging := ok && c !in Ancestors(refs.graph, Tip(refs));
      } else if c < |refs.graph| && c in Ancestors(refs.graph, Tip(refs)) {
        if !ok { clean := *; merging := *; }
      } else {
        merging := *;
        clean := *;
      }
      log := Ran(log, TrialMerge(c), ok);
    }

    /** `git merge --abort`: fails when no merge is in progress. */
    method AbortMerge() returns (ok: bool)
      modifies `clean, `merging, `log
      ensures ok ==> old(merging) && !merging
      ensures faultless ==> (ok <==> old(merging)) && !merging && clean == old(clean)
      ensures log == Ran(old(log), MergeAbort, ok)
    {
      ok := *;
      ok := (ok || faultless) && merging;
      if faultless {
        merging := false;
      } else if ok {
        merging := false;
        clean := *;
      } else if * {
        clean := *;
        merging := *;
      }
      log := Ran(log, MergeAbort, ok);
    }

    // -------------------------------------------------------------------------
    // The task worktree
    // -------------------------------------------------------------------------

    method WorktreeHead() returns (h: Option<nat>)
      requires Valid()
      ensures h.Some? ==> h.value == WorktreeTip()
      ensures faultless ==> h.Some?
    {
      h := Some(WorktreeTip());
      if * { if !faultless { h := None; } }
    }

    /** `git status --porcelain` in the worktree. */
    method WorktreeIsClean() returns (c: Option<bool>)
      ensures c.Some? ==> c.value == worktreeClean
      ensures faultless ==> c.Some?
    {
      c := Some(worktreeClean);
      if * { if !faultless { c := None; } }
    }

    /** `git fetch canonical refs/heads/name` into FETCH_HEAD. */
    method FetchBranch(name: string) returns (ok: bool)
      requires Valid()
      modifies `fetched, `log
      ensures Valid()
      ensures ok ==> name in refs.branches && fetched == Some(refs.branches[name])
      ensures faultless && name in refs.branches ==> ok
      ensures log == Ran(old(log), Fetch(name), ok)
    {
      var late: bool := *;
      ok := *;
      ok := (ok || faultless) && name in refs.branches;
      if ok || (late && name in refs.branches) {
        fetched := Some(refs.branches[name]);
      }
      log := Ran(log, Fetch(name), ok);
    }

    /** What a rebase has done to the worktree's branch: nothing, or it has moved from
        `was` to a replay on `onto`. The old tip is then still in its history exactly
        when the two had not diverged. */
    ghost predicate RebasedFrom(old_: Refs, was: nat, onto: nat)
      requires Valid()
      reads this
    {
      && Acyclic(old_.graph) && was < |old_.graph| && onto < |old_.graph|
      && onto in Ancestors(refs.graph, WorktreeTip())
      && (was in Ancestors(refs.graph, WorktreeTip()) <==> Comparable(old_.graph, onto, was))
    }

    /** The commits `head` has and `onto` lacks, as many as there may be, replayed. */
    method ReplayOnto(head: nat, onto: nat) returns (graph: Graph, tip: nat)
      requires Valid() && head < |refs.graph| && onto < |refs.graph| && onto !in Ancestors(refs.graph, head)
      ensures refs.graph <= graph && Acyclic(graph) && tip < |graph| && onto in Ancestors(graph, tip)
      ensures head in Ancestors(graph, tip) <==> Comparable(refs.graph, onto, head)
    {
      var n: nat := *;
      if head in Ancestors(refs.graph, onto) { n := 0; }
      ReplayExtends(refs.graph, onto, n);
      ReplayHistory(refs.graph, onto, n, head);
      graph, tip := Replay(refs.graph, onto, n).0, Replay(refs.graph, onto, n).1;
    }

    /** `git rebase FETCH_HEAD` in the worktree: refused when tracked files have local
        changes; nothing to do when HEAD contains FETCH_HEAD already; else the commits
        that FETCH_HEAD lacks are replayed on top of it and the worktree's branch is
        moved there. A conflict stops in the middle, with HEAD detached at what has
        been replayed so far and the branch not yet moved. */
    method RebaseWorktree() returns (ok: bool)
      requires Valid()
      modifies `refs, `detached, `log
      ensures Valid() && OnlyMoved(old(refs), refs, taskBranch)
      ensures ok ==> !localChanges && old(fetched).Some? && fetched.value in Ancestors(refs.graph, WorktreeTip())
      ensures ok ==> RebasedFrom(old(refs), old(WorktreeTip()), fetched.value)
      ensures ok && old(detached).None? ==> detached.None?
      ensures taskBranch.Some? && refs.branches[taskBranch.value] != old(refs).branches[taskBranch.value] ==>
        old(detached).None? && detached.None? && fetched.Some?
          && RebasedFrom(old(refs), old(WorktreeTip()), fetched.value)
      ensures localChanges ==> refs == old(refs) && detached == old(detached)
      ensures faultless && !localChanges && fetched.Some? ==> ok
      ensures log == Ran(old(log), Rebase, ok)
    {
      ok := *;
      ok := (ok || faultless) && !localChanges && fetched.Some?;
      log := Ran(log, Rebase, ok);
      if localChanges || fetched.None? {
        return;
      }
      var head, onto := WorktreeTip(), fetched.value;
      if onto in Ancestors(refs.graph, head) {
        return;
      }
      var late: bool := *;
      var stopped: bool := *;
      var graph, tip := ReplayOnto(head, onto);
      if (ok || late) && detached.None? {
        refs := refs.(graph := graph, branches := refs.branches[taskBranch.value := tip]);
      } else if ok || stopped {
        refs := refs.(graph := graph);
        detached := Some(tip);
      }
    }

    // -------------------------------------------------------------------------
    // Integration
    // -------------------------------------------------------------------------

    /** `git cherry-pick --no-commit c`: stages the changes of `c`, if it brings any. */
    method CherryPickNoCommit(c: nat) returns (ok: bool)
      requires Valid()
      modifies `clean, `staged, `log
      ensures ok ==> c < |refs.graph| && |refs.graph[c]| <= 1
      ensures ok ==> staged == if old(EmptyPick(refs.graph, Tip(refs), picks, sameChanges, c)) then None else Some(c)
      ensures faultless && old(Ready()) && c < |refs.graph| ==>
        clean == old(clean) && (ok <==> |refs.graph[c]| <= 1) && (!ok ==> staged.None?)
      ensures log == Ran(old(log), StagePick(c), ok)
    {
      ok := *;
      var sure := faultless && Ready();
      ok := (ok || sure) && c < |refs.graph| && |refs.graph[c]| <= 1;
      staged := if ok && !EmptyPick(refs.graph, Tip(refs), picks, sameChanges, c) then Some(c) else None;
      if !ok && !sure { clean := *; }
      log := Ran(log, StagePick(c), ok);
    }

    /** `git commit` of what is staged; there has to be something. */
    method Commit() returns (ok: bool)
      requires Valid()
      modifies `refs, `clean, `staged, `picks, `log
      ensures Valid() && Forward(old(refs), refs)
      ensures refs == old(refs) || refs == AddCommit(old(refs))
      ensures ok ==> old(staged).Some? && refs == AddCommit(old(refs))
      ensures ok ==> picks == old(picks)[|old(refs.graph)| := old(staged).value]
      ensures old(staged).None? ==>
        !ok && refs == old(refs) && staged.None? && clean == old(clean) && picks == old(picks)
      ensures faultless && old(staged).Some? ==> ok && staged.None? && clean == old(clean)
      ensures log == Ran(old(log), CommitStaged, ok)
    {
      var late: bool := *;
      ok := *;
      ok := (ok || faultless) && staged.Some?;
      log := Ran(log, CommitStaged, ok);
      if staged.Some? && (ok || late) {
        AddCommitForward(refs);
        picks := picks[|refs.graph| := staged.value];
        refs := AddCommit(refs);
        staged := None;
        if !faultless { clean := *; }
      }
    }

    /** `git cherry-pick --abort`. */
    method AbortCherryPick() returns (ok: bool)
      modifies `clean, `staged, `log
      ensures faultless ==> staged.None? && clean == old(clean)
      ensures log == Ran(old(log), PickAbort, ok)
    {
      ok := *;
      if faultless {
        staged := None;
      } else if * {
        clean := *;
        staged := None;
      }
      log := Ran(log, PickAbort, ok);
    }

    /** A verification command run in the checkout: it may leave files behind but
        does not touch branches. */
    method RunCommand(profile: string, exitCode: int)
      modifies `clean, `log
      ensures faultless ==> clean == old(clean)
      ensures log == Ran(old(log), Verify(profile), exitCode == 0)
    {
      if !faultless {
        clean := *;
      }
      log := Ran(log, Verify(profile), exitCode == 0);
    }
  }
}
