/** auto-integration-completion.mjs: deciding whether a task commit may be
    integrated, integrating it into the canonical checkout and verifying the result. */
module AutoIntegration {
  import opened CommitGraph
  import opened GitRefs
  import opened GitRepository
  import opened Text
  import opened Wrappers

  // ---------------------------------------------------------------------------
  // Evidence about the task
  // ---------------------------------------------------------------------------

  datatype Finding = Finding(severity: string, resolved: bool)

  /** The parts of the task result the decision reads; a commit of "none" is an
      absent commit. */
  datatype TaskResult = TaskResult(
    unifiedCompleted: bool, reviewerPassed: bool, verificationPassed: bool, findings: seq<Finding>,
    changedFiles: seq<string>, commit: Option<nat>, localHead: Option<nat>,
    noMutationProfile: bool, noMutation: bool, worktreeRecovered: bool)

  datatype Integration = Integration(ok: bool, status: string, merged: bool, commit: Option<nat>)

  datatype ResolvedRepo = ResolvedRepo(
    canonicalPath: Option<string>, worktreePath: Option<string>, taskBranch: Option<string>,
    baseSha: Option<nat>, gitWorktreeMode: bool)

  /** Blocker codes and reasons. */
  datatype Code =
    | Eligible | IntegrationNotSuccessful | AlreadyMarkedMerged | IntegrationBlocked(status: string)
    | IntegrationStatusNotEligible | AcceptanceNotPassed | BlockerFindingsPresent | ChangedFilesMissing
    | CommitMissing | TaskBranchMissing | WorktreeModeNotGitWorktree | TaskWorktreeMissing
    | CanonicalRepoMissing | CanonicalDirty | TaskWorktreeDirty | FFOnlyMergeFailed | CherryPickFailed
    | CherryPickCommitFailed | PostMergeVerificationFailed
    | NoChangeRepairCompleted | VerificationOnlyCompleted | UnifiedDecisionCompleted
    | AlreadyIntegratedAndVerified | CherryPickMergedAndVerified | FFOnlyMergedAndVerified

  function Or<T>(a: Option<T>, b: Option<T>): Option<T> {
    if a.Some? then a else b
  }

  predicate HasBlockerFindings(t: TaskResult) {
    exists i :: 0 <= i < |t.findings| && t.findings[i].severity == "blocker" && !t.findings[i].resolved
  }

  predicate AcceptancePassed(t: TaskResult) {
    t.unifiedCompleted || t.reviewerPassed || (t.verificationPassed && !HasBlockerFindings(t))
  }

  /** A changed file that is neither a backup, a temporary or log file, nor one of
      the runtime's own. */
  predicate RealFile(f: string) {
    && f != "" && !EndsWith(Lower(f), ".bak") && !EndsWith(Lower(f), ".tmp") && !EndsWith(Lower(f), ".log")
    && IndexFrom(f, "/.gptwork/", 0) == -1
  }

  predicate DiagnosticNoMutation(t: TaskResult) {
    (forall i :: 0 <= i < |t.changedFiles| ==> !RealFile(t.changedFiles[i])) && t.noMutationProfile
  }

  predicate NoMutationEvidence(t: TaskResult) {
    t.changedFiles == [] && t.noMutation
  }

  predicate BlockedStatus(s: string) {
    s == "conflict" || s == "check_failed" || s == "push_failed" || s == "pr_failed" || s == "locked"
  }

  predicate PendingStatus(s: string) {
    s == "branch_pushed" || s == "pr_opened"
  }

  /** `repairEligible` is the answer of the no-change repair classifier, which is
      not part of this model. */
  datatype Candidate = Candidate(
    blockers: seq<Code>, reason: Code, commit: Option<nat>, taskBranch: Option<string>, baseSha: Option<nat>,
    worktreePath: Option<string>, canonicalPath: Option<string>,
    repairEligible: bool, noMutationEvidence: bool, diagnostic: bool)

  /** The completion needs no integration: nothing has been changed. */
  predicate NoChange(c: Candidate) {
    c.repairEligible || c.noMutationEvidence || c.diagnostic
  }

  function CommitOf(t: TaskResult, i: Integration): Option<nat> {
    Or(t.commit, Or(i.commit, t.localHead))
  }

  // What the candidate is judged by, in terms of the evidence itself.

  /** A backup, temporary or log file by its ending in upper or lower case, or a file of
      the runtime. */
  ghost predicate Incidental(f: string) {
    || f == ""
    || (exists k :: 0 <= k <= |f| && Lower(f)[k..] in {".bak", ".tmp", ".log"})
    || Contains(f, "/.gptwork/")
  }

  lemma IncidentalIff(f: string)
    ensures Incidental(f) <==> !RealFile(f)
  {
    var lower := Lower(f);
    if EndsWith(lower, ".bak") || EndsWith(lower, ".tmp") || EndsWith(lower, ".log") {
      assert lower[|f| - 4..] in {".bak", ".tmp", ".log"};
    }
    if k :| 0 <= k <= |f| && lower[k..] in {".bak", ".tmp", ".log"} {
      assert k == |f| - 4;
    }
  }

  ghost predicate OpenBlocker(t: TaskResult) {
    exists f :: f in t.findings && f.severity == "blocker" && !f.resolved
  }

  /** The task was not meant to change anything, and what it changed is incidental. */
  ghost predicate Diagnostic(t: TaskResult) {
    t.noMutationProfile && forall f :: f in t.changedFiles ==> Incidental(f)
  }

  ghost predicate Unchanged(t: TaskResult, repairEligible: bool) {
    repairEligible || (t.changedFiles == [] && t.noMutation) || Diagnostic(t)
  }

  lemma JudgedBy(t: TaskResult)
    ensures HasBlockerFindings(t) <==> OpenBlocker(t)
    ensures DiagnosticNoMutation(t) <==> Diagnostic(t)
  {
    if OpenBlocker(t) {
      var f :| f in t.findings && f.severity == "blocker" && !f.resolved;
      var i :| 0 <= i < |t.findings| && t.findings[i] == f;
    }
    forall f ensures Incidental(f) <==> !RealFile(f) { IncidentalIff(f); }
  }

  /** Nothing is missing for the kind of completion at hand. */
  ghost predicate EligibleFor(t: TaskResult, r: ResolvedRepo, i: Integration, repairEligible: bool) {
    && i.ok && !i.merged && (i.status == "branch_pushed" || i.status == "pr_opened")
    && (t.unifiedCompleted || t.reviewerPassed || t.verificationPassed) && !OpenBlocker(t)
    && r.canonicalPath.Some?
    && (t.unifiedCompleted || Unchanged(t, repairEligible) ||
         (t.changedFiles != [] && (t.commit.Some? || i.commit.Some? || t.localHead.Some?) && r.taskBranch.Some?))
    && (repairEligible || Diagnostic(t) || (r.gitWorktreeMode && r.worktreePath.Some?))
  }

  /** When each blocker is given. */
  ghost predicate Objection(code: Code, t: TaskResult, r: ResolvedRepo, i: Integration, repairEligible: bool) {
    var blocked := {"conflict", "check_failed", "push_failed", "pr_failed", "locked"};
    var needed := !t.unifiedCompleted && !Unchanged(t, repairEligible);
    var worktreeNeeded := !repairEligible && !Diagnostic(t);
    match code
    case IntegrationNotSuccessful => !i.ok
    case AlreadyMarkedMerged => i.merged || i.status == "merged"
    case IntegrationBlocked(status) => !i.merged && i.status == status && status in blocked
    case IntegrationStatusNotEligible =>
      !i.merged && i.status !in {"merged", "branch_pushed", "pr_opened"} && i.status !in blocked
    case AcceptanceNotPassed =>
      !t.unifiedCompleted && !t.reviewerPassed && (!t.verificationPassed || OpenBlocker(t))
    case BlockerFindingsPresent => OpenBlocker(t)
    case ChangedFilesMissing => needed && t.changedFiles == []
    case CommitMissing => needed && t.commit.None? && i.commit.None? && t.localHead.None?
    case TaskBranchMissing => needed && r.taskBranch.None?
    case WorktreeModeNotGitWorktree => worktreeNeeded && !r.gitWorktreeMode
    case TaskWorktreeMissing => worktreeNeeded && r.worktreePath.None?
    case CanonicalRepoMissing => r.canonicalPath.None?
    case _ => false
  }

  /** The order in which the blockers are looked for; the first one found is the reason. */
  function Rank(code: Code): nat {
    match code
    case IntegrationNotSuccessful => 0
    case AlreadyMarkedMerged => 1
    case IntegrationBlocked(_) => 2
    case IntegrationStatusNotEligible => 2
    case AcceptanceNotPassed => 3
    case BlockerFindingsPresent => 4
    case ChangedFilesMissing => 5
    case CommitMissing => 6
    case TaskBranchMissing => 7
    case WorktreeModeNotGitWorktree => 8
    case TaskWorktreeMissing => 9
    case CanonicalRepoMissing => 10
    case _ => 11
  }

  ghost predicate InOrder(codes: seq<Code>, from: nat, end: nat) {
    && (forall k :: 0 <= k < |codes| ==> from <= Rank(codes[k]) < end)
    && (forall j, k :: 0 <= j < k < |codes| ==> Rank(codes[j]) < Rank(codes[k]))
  }

  /** `blockers.push(blocker(code))` when the condition holds. */
  method Push(codes: seq<Code>, condition: bool, code: Code, ghost from: nat, ghost end: nat)
    returns (more: seq<Code>)
    requires InOrder(codes, from, end) && from <= end <= Rank(code)
    ensures InOrder(more, from, Rank(code) + 1)
    ensures forall c :: c in more <==> c in codes || (condition && c == code)
  {
    more := if condition then codes + [code] else codes;
  }

  lemma Joined(a: seq<Code>, b: seq<Code>, end: nat)
    requires InOrder(a, 0, 5) && InOrder(b, 5, end) && 5 <= end
    ensures InOrder(a + b, 0, end)
    ensures forall c :: c in a + b <==> c in a || c in b
  {
  }

  /** Nothing objects exactly to an eligible candidate. */
  lemma NoObjection(t: TaskResult, r: ResolvedRepo, i: Integration, repairEligible: bool)
    ensures (forall code :: !Objection(code, t, r, i, repairEligible)) <==> EligibleFor(t, r, i, repairEligible)
  {
    if !EligibleFor(t, r, i, repairEligible) {
      var codes := {IntegrationNotSuccessful, AlreadyMarkedMerged, IntegrationBlocked(i.status),
                    IntegrationStatusNotEligible, AcceptanceNotPassed, BlockerFindingsPresent, ChangedFilesMissing,
                    CommitMissing, TaskBranchMissing, WorktreeModeNotGitWorktree, TaskWorktreeMissing,
                    CanonicalRepoMissing};
      assert exists code :: code in codes && Objection(code, t, r, i, repairEligible);
    }
  }

  predicate StatusObjects(code: Code, t: TaskResult, i: Integration) {
    match code
    case IntegrationNotSuccessful => !i.ok
    case AlreadyMarkedMerged => i.merged || i.status == "merged"
    case IntegrationBlocked(s) => !i.merged && i.status == s && BlockedStatus(s)
    case IntegrationStatusNotEligible =>
      !i.merged && i.status != "merged" && !PendingStatus(i.status) && !BlockedStatus(i.status)
    case AcceptanceNotPassed => !AcceptancePassed(t)
    case BlockerFindingsPresent => HasBlockerFindings(t)
    case _ => false
  }

  predicate ChangeObjects(code: Code, t: TaskResult, r: ResolvedRepo, commit: Option<nat>, noChange: bool,
                          noWorktree: bool)
  {
    match code
    case ChangedFilesMissing => t.changedFiles == [] && !noChange
    case CommitMissing => commit.None? && !noChange
    case TaskBranchMissing => r.taskBranch.None? && !noChange
    case WorktreeModeNotGitWorktree => !r.gitWorktreeMode && !noWorktree
    case TaskWorktreeMissing => r.worktreePath.None? && !noWorktree
    case CanonicalRepoMissing => r.canonicalPath.None?
    case _ => false
  }

  lemma ObjectionIs(code: Code, t: TaskResult, r: ResolvedRepo, i: Integration, repairEligible: bool)
    ensures var diagnostic := DiagnosticNoMutation(t);
            var noChange := repairEligible || diagnostic || NoMutationEvidence(t) || t.unifiedCompleted;
            Objection(code, t, r, i, repairEligible) <==>
              StatusObjects(code, t, i)
                || ChangeObjects(code, t, r, CommitOf(t, i), noChange, repairEligible || diagnostic)
  {
    JudgedBy(t);
  }

  lemma ObjectionsMade(codes: seq<Code>, t: TaskResult, r: ResolvedRepo, i: Integration, repairEligible: bool)
    requires var diagnostic := DiagnosticNoMutation(t);
             var noChange := repairEligible || diagnostic || NoMutationEvidence(t) || t.unifiedCompleted;
             forall code :: code in codes <==>
               (StatusObjects(code, t, i)
                || ChangeObjects(code, t, r, CommitOf(t, i), noChange, repairEligible || diagnostic))
    ensures forall code :: code in codes <==> Objection(code, t, r, i, repairEligible)
    ensures codes == [] <==> EligibleFor(t, r, i, repairEligible)
  {
    forall code ensures code in codes <==> Objection(code, t, r, i, repairEligible) {
      ObjectionIs(code, t, r, i, repairEligible);
    }
    NoObjection(t, r, i, repairEligible);
    if codes != [] {
      assert codes[0] in codes;
    }
  }

  /** `analyzeAutoIntegrationCandidate`. */
  method AnalyzeCandidate(t: TaskResult, r: ResolvedRepo, i: Integration, repairEligible: bool)
    returns (c: Candidate)
    ensures c.commit == (if t.commit.Some? then t.commit else if i.commit.Some? then i.commit else t.localHead)
    ensures c.taskBranch == r.taskBranch && c.baseSha == r.baseSha
    ensures c.worktreePath == r.worktreePath && c.canonicalPath == r.canonicalPath
    ensures c.repairEligible == repairEligible
    ensures c.noMutationEvidence <==> t.changedFiles == [] && t.noMutation
    ensures c.diagnostic <==> Diagnostic(t)
    ensures c.reason == if c.blockers == [] then Eligible else c.blockers[0]
    ensures forall code :: code in c.blockers <==> Objection(code, t, r, i, repairEligible)
    ensures InOrder(c.blockers, 0, 11)
    ensures c.blockers == [] <==> EligibleFor(t, r, i, repairEligible)
  {
    JudgedBy(t);
    var commit := Or(t.commit, Or(i.commit, t.localHead));
    var diagnostic := DiagnosticNoMutation(t);
    var evidence := NoMutationEvidence(t);
    var blockers := StatusBlockers(t, i);
    var more := ChangeBlockers(t, r, commit, repairEligible || diagnostic || evidence || t.unifiedCompleted,
                               repairEligible || diagnostic);
    Joined(blockers, more, 11);
    blockers := blockers + more;
    ObjectionsMade(blockers, t, r, i, repairEligible);
    c := Candidate(blockers, if blockers == [] then Eligible else blockers[0], commit, r.taskBranch, r.baseSha,
                   r.worktreePath, r.canonicalPath, repairEligible, evidence, diagnostic);
  }

  /** Blockers from the integration status and the acceptance of the task. */
  method StatusBlockers(t: TaskResult, i: Integration) returns (blockers: seq<Code>)
    ensures forall code :: code in blockers <==> StatusObjects(code, t, i)
    ensures InOrder(blockers, 0, 5)
  {
    var marked := i.merged || i.status == "merged";
    var pending := PendingStatus(i.status);
    var unfit := if BlockedStatus(i.status) then IntegrationBlocked(i.status) else IntegrationStatusNotEligible;
    blockers := Push([], !i.ok, IntegrationNotSuccessful, 0, 0);
    blockers := Push(blockers, marked, AlreadyMarkedMerged, 0, 1);
    blockers := Push(blockers, !marked && !pending, unfit, 0, 2);
    blockers := Push(blockers, !AcceptancePassed(t), AcceptanceNotPassed, 0, 3);
    blockers := Push(blockers, HasBlockerFindings(t), BlockerFindingsPresent, 0, 4);
  }

  /** Blockers from missing evidence of the change, unless nothing was changed. */
  method ChangeBlockers(t: TaskResult, r: ResolvedRepo, commit: Option<nat>, noChange: bool, noWorktree: bool)
    returns (blockers: seq<Code>)
    ensures forall code :: code in blockers <==> ChangeObjects(code, t, r, commit, noChange, noWorktree)
    ensures InOrder(blockers, 5, 11)
  {
    blockers := Push([], t.changedFiles == [] && !noChange, ChangedFilesMissing, 5, 5);
    blockers := Push(blockers, commit.None? && !noChange, CommitMissing, 5, 6);
    blockers := Push(blockers, r.taskBranch.None? && !noChange, TaskBranchMissing, 5, 7);
    blockers := Push(blockers, !r.gitWorktreeMode && !noWorktree, WorktreeModeNotGitWorktree, 5, 8);
    blockers := Push(blockers, r.worktreePath.None? && !noWorktree, TaskWorktreeMissing, 5, 9);
    blockers := Push(blockers, r.canonicalPath.None?, CanonicalRepoMissing, 5, 10);
  }

  // ---------------------------------------------------------------------------
  // Verification reports
  // ---------------------------------------------------------------------------

  datatype Report = Report(passed: bool, head: Option<nat>, dirty: Option<bool>, profileSatisfied: bool)

  /** What a verification command comes to: its exit code, and the report that is there
      afterwards, written by it or left over. */
  datatype CommandRun = CommandRun(exitCode: int, report: Option<Report>)

  /** `isVerificationReportReusable` without an age limit; an unreadable report is
      not reusable. */
  predicate Reusable(report: Option<Report>, expectedHead: nat) {
    && report.Some? && report.value.passed && report.value.head == Some(expectedHead)
    && report.value.dirty == Some(false) && report.value.profileSatisfied
  }

  /** The one report that verifies a head: passed, for this head, not dirty, and of the
      profile. */
  function Passing(head: nat): Report {
    Report(true, Some(head), Some(false), true)
  }

  /** The report of the changed profile counts only if its command succeeded. */
  predicate ChangedAccepts(changed: CommandRun, head: nat) {
    changed.exitCode == 0 && changed.report == Some(Passing(head))
  }

  predicate ReportFor(changed: CommandRun, fast: CommandRun, head: nat) {
    ChangedAccepts(changed, head) || fast.report == Some(Passing(head))
  }

  /** `verifyPostMerge`: the changed profile, then the fast profile. */
  method VerifyPostMerge(repo: Repository, expectedHead: nat, changed: CommandRun, fast: CommandRun)
    returns (ok: bool, report: Option<Report>)
    modifies repo`clean, repo`log
    ensures ok <==> report == Some(Passing(expectedHead))
    ensures ok <==> ReportFor(changed, fast, expectedHead)
    ensures report == if ChangedAccepts(changed, expectedHead) then changed.report else fast.report
    ensures repo.log ==
      var tried := Ran(old(repo.log), Verify("changed"), changed.exitCode == 0);
      if ChangedAccepts(changed, expectedHead) then tried else Ran(tried, Verify("fast"), fast.exitCode == 0)
    ensures repo.faultless ==> repo.clean == old(repo.clean)
  {
    repo.RunCommand("changed", changed.exitCode);
    if changed.exitCode == 0 && Reusable(changed.report, expectedHead) {
      return true, changed.report;
    }
    repo.RunCommand("fast", fast.exitCode);
    return Reusable(fast.report, expectedHead), fast.report;
  }

  // ---------------------------------------------------------------------------
  // The run
  // ---------------------------------------------------------------------------

  datatype MergeMode = FFOnly | CherryPicked

  datatype Merge = Merge(mode: MergeMode, attempted: bool, merged: bool, skipped: bool,
                         commit: Option<nat>, originalCommit: Option<nat>)

  datatype Evidence = Evidence(
    eligible: bool, completed: bool, reason: Code, blockers: seq<Code>,
    baseSha: Option<nat>, commit: Option<nat>, headBefore: Option<nat>, headAfter: Option<nat>,
    cleanBefore: Option<bool>, cleanAfter: Option<bool>, merge: Merge,
    report: Option<Report>, mergedButVerificationFailed: bool)
  {
    function Block(code: Code): Evidence {
      this.(reason := code, blockers := blockers + [code])
    }

    function Complete(code: Code): Evidence {
      this.(completed := true, eligible := true, reason := code)
    }
  }

  /** The evidence returned, or the exception of a git command outside any handler. */
  datatype RunResult = Returned(evidence: Evidence) | Threw

  function Start(c: Candidate): Evidence {
    Evidence(c.blockers == [], false, c.reason, c.blockers, c.baseSha, c.commit, None, None, None, None,
             Merge(FFOnly, false, false, false, c.commit, None), None, false)
  }

  /** Completion through the merge path, as opposed to one that needed no merge. */
  predicate ByMergePath(e: Evidence) {
    e.completed && (e.reason.AlreadyIntegratedAndVerified? || e.reason.CherryPickMergedAndVerified?
                    || e.reason.FFOnlyMergedAndVerified?)
  }

  /** The commit is in the history of the checked-out branch. */
  ghost predicate Integrated(repo: Repository, commit: nat)
    requires repo.Valid()
    reads repo
  {
    commit in Ancestors(repo.refs.graph, Tip(repo.refs))
  }

  /** HEAD is a pick of the commit. */
  ghost predicate PickedAtHead(repo: Repository, commit: nat)
    requires repo.Valid()
    reads repo
  {
    (Tip(repo.refs), commit) in repo.picks.Items
  }

  /** The report passed, is not dirty, satisfies its profile and names exactly the head
      recorded after the merge, which is HEAD; the tree was clean before and after. */
  predicate Verified(e: Evidence, tip: nat) {
    && e.report == Some(Passing(tip)) && e.headAfter == e.commit == e.merge.commit == Some(tip)
    && e.cleanBefore == e.cleanAfter == Some(true) && e.merge.merged
  }

  /** How the task commit came in: it was in the history already and nothing moved, or a
      fast-forward took HEAD to it, or, where that is allowed, HEAD is a pick of it. */
  ghost predicate Accounted(repo: Repository, e: Evidence, commit: nat, before: Refs, allowCherryPick: bool)
    requires repo.Valid() && Sound(before)
    reads repo
  {
    && (e.merge.skipped <==> !e.merge.attempted)
    && (e.merge.originalCommit.Some? <==> e.merge.mode == CherryPicked)
    && match e.reason
       case AlreadyIntegratedAndVerified =>
         e.merge.skipped && commit in Ancestors(before.graph, Tip(before)) && repo.refs == before
       case FFOnlyMergedAndVerified =>
         e.merge.attempted && e.merge.mode == FFOnly && Integrated(repo, commit)
       case CherryPickMergedAndVerified =>
         && e.merge.attempted && e.merge.mode == CherryPicked && allowCherryPick
         && e.merge.originalCommit == Some(commit) && PickedAtHead(repo, commit)
       case _ => false
  }

  /** Nothing has been decided yet, and nothing merged. */
  predicate Open(e: Evidence) {
    && e.eligible && !e.completed && e.blockers == [] && !e.mergedButVerificationFailed
    && e.merge.mode == FFOnly && !e.merge.attempted && !e.merge.skipped && !e.merge.merged
    && e.merge.originalCommit.None?
  }

  /** What verification may add to the evidence: completion, or one blocker. */
  predicate Outcome(start: Evidence, e: Evidence, success: Code) {
    && e.merge.(commit := start.merge.commit) == start.merge && e.headBefore == start.headBefore
    && e.cleanBefore == start.cleanBefore && e.eligible && e.baseSha == start.baseSha
    && if e.completed then e.blockers == [] && e.reason == success && !e.mergedButVerificationFailed
       else e.blockers == [PostMergeVerificationFailed] == [e.reason] && e.mergedButVerificationFailed
  }

  /** The commit is there and one of the ways of integrating it is open. */
  predicate CanIntegrate(repo: Repository, commit: nat, allowCherryPick: bool)
    requires repo.Valid()
    reads repo
  {
    CanForward(repo, commit) || (allowCherryPick && repo.Picks(commit))
  }

  predicate CanForward(repo: Repository, commit: nat)
    requires repo.Valid()
    reads repo
  {
    commit < |repo.refs.graph| &&
    (commit in Ancestors(repo.refs.graph, Tip(repo.refs)) || CanFastForward(repo.refs, commit))
  }

  /** What keeps a commit that is there from being integrated, if anything. */
  function Obstacle(repo: Repository, commit: nat, allowCherryPick: bool): (code: Option<Code>)
    requires repo.Valid() && commit < |repo.refs.graph|
    reads repo
    ensures code.None? <==> CanIntegrate(repo, commit, allowCherryPick)
  {
    if CanForward(repo, commit) then None
    else if !allowCherryPick then Some(FFOnlyMergeFailed)
    else if |repo.refs.graph[commit]| > 1 then Some(CherryPickFailed)
    else if repo.Picks(commit) then None
    else Some(CherryPickCommitFailed)
  }

  /** What then keeps the same commit from being integrated once more: nothing, unless
      it has been picked; a second pick adds nothing. */
  function AfterMerge(picked: bool): Option<Code> {
    if picked then Some(CherryPickCommitFailed) else None
  }

  /** A new commit does not change whether an old one can be fast-forwarded to, unless
      it could. */
  lemma AddCommitForwards(r: Refs, c: nat)
    requires Sound(r) && c < |r.graph|
    ensures Sound(AddCommit(r)) && !CanFastForward(AddCommit(r), c)
    ensures var r' := AddCommit(r); c in Ancestors(r'.graph, Tip(r')) <==> c in Ancestors(r.graph, Tip(r))
  {
    AddCommitForward(r);
    AncestorsGrow(r.graph, AddCommit(r).graph, Tip(r));
    AncestorsGrow(r.graph, AddCommit(r).graph, c);
  }

  /** The cherry-pick of the commit: staged, then committed. */
  method PickAndCommit(repo: Repository, commit: nat, ghost sure: bool) returns (code: Option<Code>)
    requires repo.Valid()
    requires sure ==> repo.faultless && commit < |repo.refs.graph| && repo.Ready()
    modifies repo`refs, repo`clean, repo`staged, repo`picks, repo`log
    ensures repo.Valid() && Forward(old(repo.refs), repo.refs)
    ensures code.Some? ==> code.value.CherryPickFailed? || code.value.CherryPickCommitFailed?
    ensures code.None? ==> PickedAtHead(repo, commit)
    ensures sure ==> repo.Ready() && (code.Some? ==> repo.refs == old(repo.refs))
    ensures sure ==>
      code == (if |old(repo.refs).graph[commit]| > 1 then Some(CherryPickFailed)
               else if old(repo.Picks(commit)) then None else Some(CherryPickCommitFailed))
    ensures code.None? ==> repo.refs == AddCommit(old(repo.refs)) && commit < |old(repo.refs).graph|
    // A pick that fails is aborted.
    ensures code.Some? ==> repo.log.Ran? && repo.log.command == PickAbort
  {
    code := None;
    var picked := repo.CherryPickNoCommit(commit);
    if picked {
      var committed := repo.Commit();
      if committed {
        assert repo.picks[Tip(repo.refs)] == commit;
      } else {
        code := Some(CherryPickCommitFailed);
      }
    } else {
      code := Some(CherryPickFailed);
    }
    if code.Some? {
      var aborted := repo.AbortCherryPick();
    }
  }

  /** Fast-forward, else cherry-pick: `code` is the blocker, if any. */
  method Integrate(repo: Repository, commit: nat, allowCherryPick: bool, ghost sure: bool)
    returns (code: Option<Code>, mode: MergeMode)
    requires repo.Valid()
    requires sure ==> repo.faultless && commit < |repo.refs.graph| && repo.Ready()
    modifies repo
    ensures repo.Valid() && Forward(old(repo.refs), repo.refs)
    ensures code.Some? ==>
      code.value.FFOnlyMergeFailed? || code.value.CherryPickFailed? || code.value.CherryPickCommitFailed?
    ensures code.None? && mode == FFOnly ==> Integrated(repo, commit)
    ensures code.None? && mode == CherryPicked ==> allowCherryPick && PickedAtHead(repo, commit)
    ensures sure ==> repo.Ready() && code == old(Obstacle(repo, commit, allowCherryPick))
    ensures sure && code.Some? ==> repo.refs == old(repo.refs)
    ensures sure && code.None? ==> Obstacle(repo, commit, allowCherryPick) == AfterMerge(mode == CherryPicked)
    ensures code.Some? && allowCherryPick ==> repo.log.Ran? && repo.log.command == PickAbort
    ensures code == Some(FFOnlyMergeFailed) <==> code.Some? && !allowCherryPick
  {
    code, mode := None, FFOnly;
    var merged := repo.MergeFFOnly(commit);
    if !merged {
      if allowCherryPick {
        ghost var r1 := repo.refs;
        code := PickAndCommit(repo, commit, sure);
        ForwardTransitive(old(repo.refs), r1, repo.refs);
        if code.None? { AddCommitForwards(r1, commit); }
        mode := if code.None? then CherryPicked else FFOnly;
      } else {
        code := Some(FFOnlyMergeFailed);
      }
    }
  }

  /** Completion without a merge: the commit, or HEAD when the task has none, is taken as
      integrated already. */
  predicate WithoutMerge(e: Evidence, commit: Option<nat>, tip: nat) {
    && e.completed && e.eligible && e.blockers == [] && e.headBefore.None? && e.headAfter.None?
    && e.merge.merged && e.merge.skipped && !e.merge.attempted
    && e.commit == e.merge.commit == Some(if commit.Some? then commit.value else tip)
    && e.cleanBefore == e.cleanAfter == Some(true)
  }

  method CompleteAtHead(repo: Repository, start: Evidence, c: Candidate, code: Code) returns (result: RunResult)
    requires repo.Valid() && Open(start) && start.headBefore.None? && start.headAfter.None?
    ensures result.Returned? ==>
      && WithoutMerge(result.evidence, c.commit, Tip(repo.refs)) && result.evidence.reason == code
      && result.evidence.baseSha == start.baseSha
    ensures repo.faultless ==> result.Returned?
  {
    var head := repo.RevParseHead();
    if head.None? { return Threw; }
    var commit := Or(c.commit, head);
    var evidence := start.(cleanBefore := Some(true), cleanAfter := Some(true), commit := commit,
                           merge := start.merge.(merged := true, skipped := true, commit := commit));
    result := Returned(evidence.Complete(code));
  }

  /** Nothing was changed: the tree is looked at once more, and there is no merge. */
  method CompleteUnchanged(repo: Repository, start: Evidence, c: Candidate) returns (result: RunResult)
    requires repo.Valid() && Open(start) && start.headBefore.None? && start.headAfter.None? && start.cleanAfter.None?
    ensures result.Returned? && result.evidence.completed ==>
      && WithoutMerge(result.evidence, c.commit, Tip(repo.refs)) && repo.StatusEmpty()
      && result.evidence.baseSha == start.baseSha
      && result.evidence.reason ==
           if c.diagnostic || c.noMutationEvidence then VerificationOnlyCompleted else NoChangeRepairCompleted
    ensures result.Returned? && !result.evidence.completed ==>
      result.evidence == start.(cleanBefore := Some(false), reason := CanonicalDirty, blockers := [CanonicalDirty])
    ensures repo.faultless && !repo.merging ==>
      result.Returned? && (result.evidence.completed <==> repo.StatusEmpty())
  {
    var cleanBefore := repo.StatusIsClean();
    if cleanBefore.None? { return Threw; }
    var evidence := start.(cleanBefore := cleanBefore);
    if !cleanBefore.value { return Returned(evidence.Block(CanonicalDirty)); }
    result := CompleteAtHead(repo, evidence, c,
      if c.diagnostic || c.noMutationEvidence then VerificationOnlyCompleted else NoChangeRepairCompleted);
  }

  predicate TaskSideReady(repo: Repository, t: TaskResult, commit: nat, taskBranch: string)
    reads repo
  {
    (repo.worktreeClean || t.worktreeRecovered) && commit < |repo.refs.graph| && taskBranch in repo.refs.branches
  }

  /** What is not ready on the task's side, if anything. */
  function TaskSideBlocker(repo: Repository, t: TaskResult, commit: nat, taskBranch: string): (code: Option<Code>)
    reads repo
    ensures code.None? <==> TaskSideReady(repo, t, commit, taskBranch)
  {
    if !repo.worktreeClean && !t.worktreeRecovered then Some(TaskWorktreeDirty)
    else if commit >= |repo.refs.graph| then Some(CommitMissing)
    else if taskBranch !in repo.refs.branches then Some(TaskBranchMissing)
    else None
  }

  /** The checks on the task's side before the merge path touches anything. */
  method CheckTaskSide(repo: Repository, t: TaskResult, commit: nat, taskBranch: string)
    returns (threw: bool, code: Option<Code>)
    ensures !threw && code.None? ==> TaskSideReady(repo, t, commit, taskBranch)
    ensures code in {None, Some(TaskWorktreeDirty), Some(CommitMissing), Some(TaskBranchMissing)}
    ensures repo.faultless ==> !threw && code == TaskSideBlocker(repo, t, commit, taskBranch)
  {
    var worktreeClean := repo.WorktreeIsClean();
    if worktreeClean.None? { return true, None; }
    if !worktreeClean.value && !t.worktreeRecovered { return false, Some(TaskWorktreeDirty); }
    var commitExists := repo.CommitExists(commit);
    if !commitExists { commitExists := repo.CommitExists(commit); }
    if !commitExists { return false, Some(CommitMissing); }
    var branchExists := repo.BranchExists(taskBranch);
    if !branchExists { branchExists := repo.BranchExists(taskBranch); }
    return false, if branchExists then None else Some(TaskBranchMissing);
  }

  /** The evidence once the merged head has been verified. */
  method Decide(start: Evidence, head: nat, ok: bool, report: Option<Report>, clean: bool, success: Code)
    returns (e: Evidence)
    requires start.eligible && start.blockers == [] && !start.completed && !start.mergedButVerificationFailed
    requires ok <==> report == Some(Passing(head))
    ensures Outcome(start, e, success)
    ensures e.headAfter == e.commit == e.merge.commit == Some(head) && e.report == report && e.cleanAfter == Some(clean)
    ensures e.completed <==> clean && report == Some(Passing(head))
  {
    e := start.(commit := Some(head), headAfter := Some(head), report := report, cleanAfter := Some(clean),
                merge := start.merge.(commit := Some(head)));
    if ok && report.Some? && report.value.passed && report.value.head == Some(head)
       && report.value.dirty == Some(false) && clean
    {
      e := e.Complete(success);
    } else {
      e := e.Block(PostMergeVerificationFailed).(mergedButVerificationFailed := true);
    }
  }

  /** After the merge: record the head, verify it and decide. */
  method VerifyAndComplete(repo: Repository, start: Evidence, success: Code, changed: CommandRun, fast: CommandRun)
    returns (result: RunResult)
    requires repo.Valid() && start.eligible && start.blockers == [] && !start.completed && start.merge.merged
    requires start.cleanBefore == Some(true) && !start.mergedButVerificationFailed
    modifies repo`clean, repo`log
    ensures repo.Valid()
    ensures result.Returned? ==> Outcome(start, result.evidence, success)
    ensures result.Returned? && result.evidence.cleanAfter == Some(true) ==> repo.StatusEmpty()
    ensures result.Returned? ==>
      (result.evidence.completed <==>
       ReportFor(changed, fast, Tip(repo.refs)) && result.evidence.cleanAfter == Some(true))
    ensures result.Returned? && result.evidence.completed ==> Verified(result.evidence, Tip(repo.refs))
    ensures repo.faultless && old(repo.Ready()) ==>
      result.Returned? && (result.evidence.completed <==> ReportFor(changed, fast, Tip(repo.refs)))
  {
    var head := repo.RevParseHead();
    if head.None? { return Threw; }
    var ok, report := VerifyPostMerge(repo, head.value, changed, fast);
    var clean := repo.StatusIsClean();
    if clean.None? { return Threw; }
    var evidence := Decide(start, head.value, ok, report, clean.value, success);
    result := Returned(evidence);
  }

  /** The evidence once the commit is in the history. */
  function Merged(start: Evidence, alreadyIntegrated: bool, mode: MergeMode, commit: nat): (e: Evidence)
    ensures e == start.(merge := e.merge) && e.merge.merged
    ensures e.merge.originalCommit == if !alreadyIntegrated && mode == CherryPicked then Some(commit) else None
  {
    if alreadyIntegrated then
      start.(merge := start.merge.(skipped := true, merged := true, originalCommit := None))
    else
      start.(merge := start.merge.(attempted := true, merged := true, mode := mode,
                                   originalCommit := if mode == CherryPicked then Some(commit) else None))
  }

  /** Nothing to do for a commit that is contained already, else integrate it. */
  method BringIn(repo: Repository, commit: nat, headBefore: nat, allowCherryPick: bool, ghost sure: bool)
    returns (code: Option<Code>, alreadyIntegrated: bool, mode: MergeMode)
    requires repo.Valid() && headBefore == Tip(repo.refs)
    requires sure ==> repo.faultless && commit < |repo.refs.graph| && repo.Ready()
    modifies repo
    ensures repo.Valid() && Forward(old(repo.refs), repo.refs)
    ensures code.None? && (alreadyIntegrated || mode == FFOnly) ==> Integrated(repo, commit)
    ensures code.None? && !alreadyIntegrated && mode == CherryPicked ==> allowCherryPick && PickedAtHead(repo, commit)
    ensures alreadyIntegrated ==> code.None? && old(Integrated(repo, commit)) && repo.refs == old(repo.refs)
    ensures code in {None, Some(FFOnlyMergeFailed), Some(CherryPickFailed), Some(CherryPickCommitFailed)}
    ensures code.Some? && allowCherryPick ==> repo.log.Ran? && repo.log.command == PickAbort
    ensures code == Some(FFOnlyMergeFailed) <==> code.Some? && !allowCherryPick
    ensures sure ==> repo.Ready() && code == old(Obstacle(repo, commit, allowCherryPick))
    ensures sure && (code.Some? || old(Integrated(repo, commit))) ==> repo.refs == old(repo.refs)
    ensures sure && code.None? ==>
      Obstacle(repo, commit, allowCherryPick) == AfterMerge(!alreadyIntegrated && mode == CherryPicked)
  {
    ForwardReflexive(repo.refs);
    code, mode := None, FFOnly;
    alreadyIntegrated := commit == headBefore;
    if !alreadyIntegrated { alreadyIntegrated := repo.IsAncestorOfHead(commit); }
    if !alreadyIntegrated {
      code, mode := Integrate(repo, commit, allowCherryPick, sure);
    }
  }

  /** What a run whose candidate is ready to be merged says, without faults: the
      obstacle, with nothing moved, or the merge, completed if a report accepts it. */
  ghost predicate MergeOutcome(repo: Repository, before: Refs, obstacle: Option<Code>, contained: bool,
                               e: Evidence, commit: nat, allowCherryPick: bool, accepted: bool)
    requires repo.Valid() && commit < |repo.refs.graph|
    reads repo
  {
    if obstacle.Some? then
      !e.completed && e.reason == obstacle.value && repo.refs == before
    else
      && (e.completed <==> accepted)
      && (!e.completed ==> e.reason == PostMergeVerificationFailed)
      && (contained ==> repo.refs == before)
      && (e.completed ==>
           Obstacle(repo, commit, allowCherryPick) == AfterMerge(e.reason == CherryPickMergedAndVerified))
  }

  /** What is promised of the merge path, whatever fails. A completed one is verified and
      accounts for the commit; otherwise there is one blocker, which is the reason, and a
      failed pick has been aborted. */
  ghost predicate MergeResult(repo: Repository, before: Refs, e: Evidence, commit: nat, allowCherryPick: bool,
                              changed: CommandRun, fast: CommandRun)
    requires repo.Valid() && Sound(before)
    reads repo
  {
    && e.eligible && (e.completed || e.blockers == [e.reason])
    && (e.cleanAfter == Some(true) ==> repo.StatusEmpty())
    && (e.mergedButVerificationFailed <==> e.reason == PostMergeVerificationFailed)
    && (e.merge.merged <==> e.completed || e.mergedButVerificationFailed)
    && (e.reason in {FFOnlyMergeFailed, CherryPickFailed, CherryPickCommitFailed} ==> e.merge.attempted)
    && (e.completed ==>
         && e.blockers == [] && Verified(e, Tip(repo.refs)) && e.cleanAfter == Some(true)
         && ReportFor(changed, fast, Tip(repo.refs)) && Accounted(repo, e, commit, before, allowCherryPick))
    && (e.reason in {CherryPickFailed, CherryPickCommitFailed} ==>
         allowCherryPick && repo.log.Ran? && repo.log.command == PickAbort)
    && (e.reason == FFOnlyMergeFailed ==> !allowCherryPick)
    && (!e.completed ==> e.reason in {TaskWorktreeDirty, CommitMissing, TaskBranchMissing, FFOnlyMergeFailed,
                                      CherryPickFailed, CherryPickCommitFailed, PostMergeVerificationFailed})
  }

  /** The commit is in: verify, under the name of the way it came in. */
  method VerifyMerged(repo: Repository, start: Evidence, alreadyIntegrated: bool, mode: MergeMode, commit: nat,
                      allowCherryPick: bool, changed: CommandRun, fast: CommandRun, ghost before: Refs,
                      ghost sure: bool)
    returns (result: RunResult)
    requires repo.Valid() && Sound(before) && Open(start) && start.cleanBefore == Some(true)
    requires alreadyIntegrated ==> commit in Ancestors(before.graph, Tip(before)) && repo.refs == before
    requires mode == FFOnly ==> Integrated(repo, commit)
    requires !alreadyIntegrated && mode == CherryPicked ==> allowCherryPick && PickedAtHead(repo, commit)
    requires sure ==> repo.faultless && repo.Ready()
    modifies repo`clean, repo`log
    ensures repo.Valid()
    ensures result.Returned? ==>
      && MergeResult(repo, before, result.evidence, commit, allowCherryPick, changed, fast)
      && result.evidence.headBefore == start.headBefore && result.evidence.baseSha == start.baseSha
      && (result.evidence.completed || result.evidence.reason == PostMergeVerificationFailed)
    ensures result.Returned? && result.evidence.completed ==>
      (result.evidence.reason == CherryPickMergedAndVerified <==> !alreadyIntegrated && mode == CherryPicked)
    ensures sure ==> result.Returned? && (result.evidence.completed <==> ReportFor(changed, fast, Tip(repo.refs)))
  {
    var evidence := Merged(start, alreadyIntegrated, mode, commit);
    var success :=
      if alreadyIntegrated then AlreadyIntegratedAndVerified
      else if mode == CherryPicked then CherryPickMergedAndVerified
      else FFOnlyMergedAndVerified;
    result := VerifyAndComplete(repo, evidence, success, changed, fast);
  }

  /** The evidence after the checks of the task's side. */
  method MergeReady(repo: Repository, start: Evidence, commit: nat, headBefore: nat, allowCherryPick: bool,
                    changed: CommandRun, fast: CommandRun, ghost sure: bool)
    returns (result: RunResult)
    requires repo.Valid() && headBefore == Tip(repo.refs) && Open(start) && start.cleanBefore == Some(true)
    requires sure ==> repo.faultless && commit < |repo.refs.graph| && repo.Ready()
    modifies repo
    ensures repo.Valid() && Forward(old(repo.refs), repo.refs)
    ensures result.Returned? ==>
      && MergeResult(repo, old(repo.refs), result.evidence, commit, allowCherryPick, changed, fast)
      && result.evidence.headBefore == start.headBefore && result.evidence.baseSha == start.baseSha
    ensures sure ==>
      && !repo.merging && result.Returned?
      && MergeOutcome(repo, old(repo.refs), old(Obstacle(repo, commit, allowCherryPick)),
                      old(Integrated(repo, commit)), result.evidence, commit, allowCherryPick,
                      ReportFor(changed, fast, Tip(repo.refs)))
  {
    ghost var before := repo.refs;
    var code, alreadyIntegrated, mode := BringIn(repo, commit, headBefore, allowCherryPick, sure);
    if code.Some? {
      var clean := repo.StatusIsClean();
      var tried := start.(merge := start.merge.(attempted := true));
      result := if clean.None? then Threw else Returned(tried.Block(code.value).(cleanAfter := clean));
    } else {
      result := VerifyMerged(repo, start, alreadyIntegrated, mode, commit, allowCherryPick, changed, fast,
                             before, sure);
    }
  }

  /** The merge path of the run: the candidate has changed files, so it has a commit,
      a branch and a worktree. */
  method MergeAndVerify(
      repo: Repository, t: TaskResult, c: Candidate, start: Evidence, allowCherryPick: bool,
      changed: CommandRun, fast: CommandRun, ghost sure: bool)
    returns (result: RunResult)
    requires repo.Valid() && c.commit.Some? && c.taskBranch.Some? && c.worktreePath.Some?
    requires Open(start) && start.cleanBefore == Some(true) && start.cleanAfter.None? && start.baseSha == c.baseSha
    requires start.headBefore.None?
    requires sure ==> repo.faultless && repo.Ready()
    modifies repo
    ensures repo.Valid() && Forward(old(repo.refs), repo.refs)
    ensures result.Returned? ==>
      && MergeResult(repo, old(repo.refs), result.evidence, c.commit.value, allowCherryPick, changed, fast)
      && (result.evidence.headBefore.Some? ==>
           result.evidence.headBefore == Or(c.baseSha, Some(Tip(old(repo.refs)))))
      && result.evidence.baseSha == (if result.evidence.headBefore.Some? then result.evidence.headBefore else c.baseSha)
    ensures result.Returned? && result.evidence.completed ==>
      old(TaskSideReady(repo, t, c.commit.value, c.taskBranch.value)) && result.evidence.headBefore.Some?
    // Without faults the task's side has to be ready; then the outcome is decided.
    ensures sure ==>
      var unready := old(TaskSideBlocker(repo, t, c.commit.value, c.taskBranch.value));
      && !repo.merging && result.Returned?
      && if unready.Some? then
           !result.evidence.completed && result.evidence.reason == unready.value && repo.refs == old(repo.refs)
         else
           MergeOutcome(repo, old(repo.refs), old(Obstacle(repo, c.commit.value, allowCherryPick)),
                        old(Integrated(repo, c.commit.value)), result.evidence, c.commit.value, allowCherryPick,
                        ReportFor(changed, fast, Tip(repo.refs)))
  {
    ForwardReflexive(repo.refs);
    result := Threw;
    var commit := c.commit.value;
    var threw, failure := CheckTaskSide(repo, t, commit, c.taskBranch.value);
    if !threw {
      if failure.Some? {
        result := Returned(start.Block(failure.value));
      } else {
        var headBefore := repo.RevParseHead();
        if headBefore.Some? {
          var evidence := start.(baseSha := Or(c.baseSha, headBefore), headBefore := Or(c.baseSha, headBefore));
          result := MergeReady(repo, evidence, commit, headBefore.value, allowCherryPick, changed, fast, sure);
        }
      }
    }
  }

  /** The reason a completion without a merge is given. */
  function WithoutMergeReason(unified: bool, repairEligible: bool, idle: bool): Code {
    if repairEligible && (unified || !idle) then NoChangeRepairCompleted
    else if idle then VerificationOnlyCompleted
    else UnifiedDecisionCompleted
  }

  /** What is promised at every exit of a run: a run completes exactly when it found no
      blocker, and a single blocker of an eligible candidate is the reason; completion
      without a merge leaves every branch where it was and is for a decision made or
      nothing changed; completion by the merge path is what `MergeResult` says, of a task
      whose side was ready, on a tree that was clean; the head recorded as "before" is the
      lifecycle's base commit when there is one, not the head the merge started from. */
  ghost predicate SafeResult(repo: Repository, before: Refs, wasClean: bool, wasReady: bool, t: TaskResult,
                             r: ResolvedRepo, i: Integration, repairEligible: bool, allowCherryPick: bool,
                             changed: CommandRun, fast: CommandRun, e: Evidence)
    requires repo.Valid() && Sound(before)
    reads repo
  {
    var commit := CommitOf(t, i);
    var idle := (t.changedFiles == [] && t.noMutation) || Diagnostic(t);
    && (e.completed <==> e.blockers == []) && (e.eligible && !e.completed ==> e.blockers == [e.reason])
    && (e.completed ==> EligibleFor(t, r, i, repairEligible))
    && (e.completed && !t.unifiedCompleted ==> wasClean)
    && (e.merge.merged <==> e.completed || e.mergedButVerificationFailed)
    && (e.completed && !ByMergePath(e) ==>
         && (t.unifiedCompleted || Unchanged(t, repairEligible)) && repo.refs == before
         && WithoutMerge(e, commit, Tip(before))
         && e.reason == WithoutMergeReason(t.unifiedCompleted, repairEligible, idle))
    && (ByMergePath(e) ==>
         && !t.unifiedCompleted && !Unchanged(t, repairEligible) && commit.Some? && wasReady
         && MergeResult(repo, before, e, commit.value, allowCherryPick, changed, fast))
    && (e.reason in {CherryPickFailed, CherryPickCommitFailed} ==> repo.log.Ran? && repo.log.command == PickAbort)
    && (!t.unifiedCompleted && e.cleanAfter == Some(true) ==> repo.StatusEmpty())
    && (e.headBefore.Some? ==> e.headBefore == Some(if r.baseSha.Some? then r.baseSha.value else Tip(before)))
    && e.baseSha == (if e.headBefore.Some? then e.headBefore else r.baseSha)
  }

  /** The task's side was ready for a candidate that needs a merge. */
  predicate MergeSideReady(repo: Repository, t: TaskResult, r: ResolvedRepo, i: Integration)
    reads repo
  {
    CommitOf(t, i).Some? && r.taskBranch.Some? && TaskSideReady(repo, t, CommitOf(t, i).value, r.taskBranch.value)
  }

  /** What stands in the way of the merge, without faults, and whether it is needed. */
  datatype Prospect = Prospect(clean: bool, unready: Option<Code>, obstacle: Option<Code>, contained: bool)

  ghost function ProspectOf(repo: Repository, t: TaskResult, r: ResolvedRepo, i: Integration, allowCherryPick: bool)
    : (p: Prospect)
    requires repo.Valid()
    reads repo
  {
    var commit := CommitOf(t, i);
    if commit.Some? && r.taskBranch.Some? then
      var known := commit.value < |repo.refs.graph|;
      Prospect(repo.StatusEmpty(), TaskSideBlocker(repo, t, commit.value, r.taskBranch.value),
               if known then Obstacle(repo, commit.value, allowCherryPick) else None, Integrated(repo, commit.value))
    else
      Prospect(repo.StatusEmpty(), None, None, false)
  }

  /** How a run ends without faults, once its candidate is eligible and its paths exist. */
  ghost predicate KindDecides(repo: Repository, before: Refs, p: Prospect, t: TaskResult, r: ResolvedRepo,
                              i: Integration, repairEligible: bool, allowCherryPick: bool, changed: CommandRun,
                              fast: CommandRun, e: Evidence)
    requires repo.Valid()
    reads repo
  {
    if t.unifiedCompleted then e.completed && !ByMergePath(e)
    else if !p.clean then !e.completed && e.reason == CanonicalDirty
    else if Unchanged(t, repairEligible) then e.completed && !ByMergePath(e)
    else if p.unready.Some? then !e.completed && e.reason == p.unready.value && repo.refs == before
    else
      && CommitOf(t, i).Some? && CommitOf(t, i).value < |repo.refs.graph|
      && MergeOutcome(repo, before, p.obstacle, p.contained, e, CommitOf(t, i).value, allowCherryPick,
                      ReportFor(changed, fast, Tip(repo.refs)))
  }

  /** `c` is what the analysis made of an eligible task. */
  ghost predicate AnalyzedAs(c: Candidate, t: TaskResult, r: ResolvedRepo, i: Integration, repairEligible: bool) {
    && EligibleFor(t, r, i, repairEligible)
    && c.commit == CommitOf(t, i) && c.taskBranch == r.taskBranch && c.baseSha == r.baseSha
    && c.worktreePath == r.worktreePath && c.repairEligible == repairEligible
    && (c.noMutationEvidence <==> t.changedFiles == [] && t.noMutation) && (c.diagnostic <==> Diagnostic(t))
  }

  /** The run once the tree has been seen to be clean. */
  method RunOnCleanTree(
      repo: Repository, t: TaskResult, r: ResolvedRepo, i: Integration, c: Candidate, start: Evidence,
      allowCherryPick: bool, changed: CommandRun, fast: CommandRun, ghost sure: bool)
    returns (result: RunResult)
    requires repo.Valid() && AnalyzedAs(c, t, r, i, c.repairEligible) && !t.unifiedCompleted && repo.StatusEmpty()
    requires Open(start) && start.headBefore.None? && start.headAfter.None? && start.cleanAfter.None?
    requires start.baseSha == c.baseSha && start.cleanBefore == Some(true)
    requires sure ==> repo.faultless && !repo.merging
    modifies repo
    ensures repo.Valid() && Forward(old(repo.refs), repo.refs)
    ensures result.Returned? ==> result.evidence.eligible
    ensures result.Returned? ==>
      SafeResult(repo, old(repo.refs), true, old(MergeSideReady(repo, t, r, i)), t, r, i,
                 c.repairEligible, allowCherryPick, changed, fast, result.evidence)
    ensures sure ==> result.Returned? && !repo.merging
    ensures sure ==>
      KindDecides(repo, old(repo.refs), old(ProspectOf(repo, t, r, i, allowCherryPick)), t, r, i, c.repairEligible,
                  allowCherryPick, changed, fast, result.evidence)
  {
    if NoChange(c) {
      ForwardReflexive(repo.refs);
      result := CompleteUnchanged(repo, start, c);
    } else {
      result := MergeAndVerify(repo, t, c, start, allowCherryPick, changed, fast, sure);
    }
  }

  /** The run from its first look at the tree on. */
  method RunOnTree(
      repo: Repository, t: TaskResult, r: ResolvedRepo, i: Integration, c: Candidate, start: Evidence,
      allowCherryPick: bool, changed: CommandRun, fast: CommandRun, ghost sure: bool)
    returns (result: RunResult)
    requires repo.Valid() && AnalyzedAs(c, t, r, i, c.repairEligible) && !t.unifiedCompleted
    requires Open(start) && start.headBefore.None? && start.headAfter.None? && start.cleanAfter.None?
    requires start.baseSha == c.baseSha
    requires sure ==> repo.faultless && !repo.merging
    modifies repo
    ensures repo.Valid() && Forward(old(repo.refs), repo.refs)
    ensures result.Returned? ==> result.evidence.eligible
    ensures result.Returned? ==>
      SafeResult(repo, old(repo.refs), old(repo.StatusEmpty()), old(MergeSideReady(repo, t, r, i)), t, r, i,
                 c.repairEligible, allowCherryPick, changed, fast, result.evidence)
    ensures !old(repo.StatusEmpty()) ==> repo.refs == old(repo.refs) && repo.log == old(repo.log)
    ensures sure ==> result.Returned? && !repo.merging
    ensures sure ==>
      KindDecides(repo, old(repo.refs), old(ProspectOf(repo, t, r, i, allowCherryPick)), t, r, i, c.repairEligible,
                  allowCherryPick, changed, fast, result.evidence)
  {
    ForwardReflexive(repo.refs);
    var cleanBefore := repo.StatusIsClean();
    if cleanBefore.None? {
      result := Threw;
    } else {
      var evidence := start.(cleanBefore := cleanBefore);
      if !cleanBefore.value {
        result := Returned(evidence.Block(CanonicalDirty));
      } else {
        result := RunOnCleanTree(repo, t, r, i, c, evidence, allowCherryPick, changed, fast, sure);
      }
    }
  }

  /** The run once the candidate is eligible and its paths are known to exist. */
  method RunAdmitted(
      repo: Repository, t: TaskResult, r: ResolvedRepo, i: Integration, c: Candidate, start: Evidence,
      allowCherryPick: bool, changed: CommandRun, fast: CommandRun, ghost sure: bool)
    returns (result: RunResult)
    requires repo.Valid() && AnalyzedAs(c, t, r, i, c.repairEligible)
    requires Open(start) && start.headBefore.None? && start.headAfter.None? && start.cleanAfter.None?
    requires start.baseSha == c.baseSha
    requires sure ==> repo.faultless && !repo.merging
    modifies repo
    ensures repo.Valid() && Forward(old(repo.refs), repo.refs)
    ensures result.Returned? ==> result.evidence.eligible
    ensures result.Returned? ==>
      SafeResult(repo, old(repo.refs), old(repo.StatusEmpty()), old(MergeSideReady(repo, t, r, i)), t, r, i,
                 c.repairEligible, allowCherryPick, changed, fast, result.evidence)
    ensures !old(repo.StatusEmpty()) ==> repo.refs == old(repo.refs) && repo.log == old(repo.log)
    ensures sure ==> result.Returned? && !repo.merging
    ensures sure ==>
      KindDecides(repo, old(repo.refs), old(ProspectOf(repo, t, r, i, allowCherryPick)), t, r, i, c.repairEligible,
                  allowCherryPick, changed, fast, result.evidence)
  {
    ForwardReflexive(repo.refs);
    if t.unifiedCompleted {
      result := CompleteAtHead(repo, start, c,
        if c.repairEligible then NoChangeRepairCompleted
        else if c.diagnostic || c.noMutationEvidence then VerificationOnlyCompleted
        else UnifiedDecisionCompleted);
    } else {
      result := RunOnTree(repo, t, r, i, c, start, allowCherryPick, changed, fast, sure);
    }
  }

  /** `runAutoIntegrationCompletion`. */
  method RunAutoIntegrationCompletion(
      repo: Repository, t: TaskResult, r: ResolvedRepo, i: Integration, repairEligible: bool,
      canonicalExists: bool, worktreeExists: bool, allowCherryPick: bool, changed: CommandRun, fast: CommandRun)
    returns (result: RunResult)
    requires repo.Valid()
    modifies repo
    // History is only extended, at every exit.
    ensures repo.Valid() && Forward(old(repo.refs), repo.refs)
    ensures result.Returned? ==>
      SafeResult(repo, old(repo.refs), old(repo.StatusEmpty()), old(MergeSideReady(repo, t, r, i)), t, r, i,
                 repairEligible, allowCherryPick, changed, fast, result.evidence)
    // A candidate that is not eligible is told everything that is missing, and one whose
    // paths do not exist that; nothing is run for it.
    ensures !EligibleFor(t, r, i, repairEligible) ==>
      && result.Returned? && !result.evidence.eligible && InOrder(result.evidence.blockers, 0, 11)
      && (forall code :: code in result.evidence.blockers <==> Objection(code, t, r, i, repairEligible))
      && result.evidence.reason == result.evidence.blockers[0]
    ensures EligibleFor(t, r, i, repairEligible) ==>
      var missing := if !canonicalExists then Some(CanonicalRepoMissing)
                     else if !Unchanged(t, repairEligible) && !worktreeExists then Some(TaskWorktreeMissing)
                     else None;
      && (result.Returned? ==> result.evidence.eligible)
      && (missing.Some? ==> result.Returned? && result.evidence.blockers == [missing.value])
    ensures !Admitted(t, r, i, repairEligible, canonicalExists, worktreeExists) ==>
      repo.refs == old(repo.refs) && repo.log == old(repo.log)
    // Nor is anything run on a tree that is not clean.
    ensures !old(repo.StatusEmpty()) ==> repo.refs == old(repo.refs) && repo.log == old(repo.log)
    // Without faults and without a merge to conclude the kind of completion decides.
    ensures repo.faultless && !old(repo.merging) ==> result.Returned? && !repo.merging
    ensures repo.faultless && !old(repo.merging) ==>
      Admitted(t, r, i, repairEligible, canonicalExists, worktreeExists) ==>
      KindDecides(repo, old(repo.refs), old(ProspectOf(repo, t, r, i, allowCherryPick)), t, r, i, repairEligible,
                  allowCherryPick, changed, fast, result.evidence)
  {
    ForwardReflexive(repo.refs);
    var c := AnalyzeCandidate(t, r, i, repairEligible);
    var evidence := Start(c);
    if c.blockers != [] {
      result := Returned(evidence);
    } else if !canonicalExists {
      result := Returned(evidence.Block(CanonicalRepoMissing));
    } else if !NoChange(c) && !worktreeExists {
      result := Returned(evidence.Block(TaskWorktreeMissing));
    } else {
      result := RunAdmitted(repo, t, r, i, c, evidence, allowCherryPick, changed, fast,
                            repo.faultless && !repo.merging);
    }
  }

  /** Everything a run asks for before it looks at the repository. */
  ghost predicate Admitted(t: TaskResult, r: ResolvedRepo, i: Integration, repairEligible: bool,
                           canonicalExists: bool, worktreeExists: bool)
  {
    EligibleFor(t, r, i, repairEligible) && canonicalExists && (Unchanged(t, repairEligible) || worktreeExists)
  }

  /** A second run of the same task after one that merged it: nothing moves, and it
      completes again if a report accepts HEAD, unless the first run picked the commit.
      Then the pick adds nothing and the commit of it fails. */
  method RunTwice(
      repo: Repository, t: TaskResult, r: ResolvedRepo, i: Integration, repairEligible: bool,
      canonicalExists: bool, worktreeExists: bool, allowCherryPick: bool,
      changed: (CommandRun, CommandRun), fast: (CommandRun, CommandRun))
    returns (first: RunResult, second: RunResult)
    requires repo.Valid() && repo.faultless && !repo.merging
    modifies repo
    ensures repo.Valid() && Forward(old(repo.refs), repo.refs) && first.Returned? && second.Returned?
    ensures ByMergePath(first.evidence) ==> first.evidence.headAfter == Some(Tip(repo.refs))
    ensures ByMergePath(first.evidence) && first.evidence.reason != CherryPickMergedAndVerified ==>
      (second.evidence.completed <==> ReportFor(changed.1, fast.1, Tip(repo.refs)))
    ensures first.evidence.reason == CherryPickMergedAndVerified && first.evidence.completed ==>
      !second.evidence.completed && second.evidence.blockers == [CherryPickCommitFailed]
  {
    first := RunAutoIntegrationCompletion(repo, t, r, i, repairEligible, canonicalExists, worktreeExists,
                                          allowCherryPick, changed.0, fast.0);
    ghost var r1 := repo.refs;
    second := RunAutoIntegrationCompletion(repo, t, r, i, repairEligible, canonicalExists, worktreeExists,
                                           allowCherryPick, changed.1, fast.1);
    ForwardTransitive(old(repo.refs), r1, repo.refs);
  }
}
