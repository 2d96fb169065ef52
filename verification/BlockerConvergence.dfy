/** The manifest of current blockers and the passes that complete the tasks in it for
    which evidence already says that they are done. */
module BlockerConvergence {
  import opened Wrappers

  // ---------------------------------------------------------------------------
  // Tasks and policy
  // ---------------------------------------------------------------------------

  /** `TypedReview(human)` stands for the typed review states; `human` are those that
      need a person. `NoStatus` is a missing status. */
  datatype TaskStatus =
    | NoStatus | Assigned | Queued | Running | Starting | Collecting | Accepting | Repairing | Integrating
      | NeedsDecision
    | WaitingForLock | WaitingForReview | WaitingForSupervisor | TypedReview(human: bool) | WaitingForRepair
    | WaitingForIntegration | Completed | Failed | TimedOut | Blocked | Cancelled | OtherStatus(name: string)

  datatype Integration = Integration(merged: bool, status: string)

  /** Absent text fields are empty. `recovered` is a delivery recovery that found the
      commit already integrated. */
  datatype TaskResult = TaskResult(noop: bool, resolvedLegacy: bool, resolvedBy: string, supersededBy: string,
                                   commit: string, verificationPassed: Option<bool>, hasTests: bool, recovered: bool,
                                   integration: Option<Integration>, failureClass: string)

  const NO_RESULT := TaskResult(false, false, "", "", "", None, false, false, None, "")

  datatype Task = Task(id: string, status: TaskStatus, activeTui: bool, result: Option<TaskResult>,
                       convergedFor: Option<Reason>)

  datatype Label = ActiveLabel | ReviewLabel | IntegrationLabel | CompletedLabel | ProviderEmptyLabel | FailureLabel
                 | CodeFailureLabel | ResolvedLabel | UnknownLabel

  datatype Shape = NoResult | ProviderNoop | ProviderTimeout | ProviderNoEvidence | FailureEvidence | CodeEvidence
                 | CompletionEvidence | UnknownShape

  /** What the policy modules decide about a task among all tasks. */
  datatype Policy = Policy(isBlocker: (Task, seq<Task>) -> bool,
                           labelOf: (Task, seq<Task>) -> Label, decidedShape: (Task, seq<Task>) -> Option<Shape>,
                           shapeOf: Option<TaskResult> -> Shape, normalized: TaskResult -> bool,
                           hasSuccessor: (Task, seq<Task>) -> bool, reachable: string -> bool)

  /** Completed tasks are not current blockers. */
  ghost predicate Sound(p: Policy) {
    forall t, tasks :: p.isBlocker(t, tasks) ==> t.status != Completed
  }

  predicate ProviderEmpty(s: Shape) {
    s == NoResult || s == ProviderNoop || s == ProviderTimeout || s == ProviderNoEvidence
  }

  predicate TrueHumanReview(s: TaskStatus) {
    s == WaitingForReview || s == WaitingForSupervisor || s == TypedReview(true)
  }

  predicate FailedTerminal(s: TaskStatus) {
    s == Failed || s == TimedOut || s == Blocked || s == Cancelled
  }

  /** The states an empty result alone does not end. */
  predicate PendingStatus(s: TaskStatus) {
    || s == Assigned || s == Queued || s == Running || s == Starting || s == Collecting || s == Accepting
    || s == WaitingForLock || s == WaitingForReview || s == WaitingForRepair || s == WaitingForIntegration
    || s == WaitingForSupervisor || s.TypedReview?
  }

  predicate MergedState(status: string) {
    || status == "merged" || status == "ff_only_merged" || status == "already_integrated"
    || status == "skipped" || status == "not_required"
  }

  // ---------------------------------------------------------------------------
  // canDeterministicallyConverge and classifyBlockerManifestCategory
  // ---------------------------------------------------------------------------

  datatype Reason = NoopMarker | LegacyMarker | ResolvedByTask | SupersededByTask | IntegratedCommit | DeliveryRecovered
                  | VerificationNormalized | IntegrationMerged | IntegrationDone | EmptyResult | EmptyShape | Successor

  function OrEmpty(r: Option<TaskResult>): TaskResult {
    if r.Some? then r.value else NO_RESULT
  }

  function CanConverge(p: Policy, t: Task, tasks: seq<Task>): Option<Reason> {
    var r := OrEmpty(t.result);
    var shape := p.shapeOf(t.result);
    if t.status == NoStatus then None
    else if r.noop then Some(NoopMarker)
    else if r.resolvedLegacy then Some(LegacyMarker)
    else if r.resolvedBy != "" then Some(ResolvedByTask)
    else if r.supersededBy != "" then Some(SupersededByTask)
    else if r.commit != "" && (r.verificationPassed == Some(true) || r.hasTests) && p.reachable(r.commit)
      then Some(IntegratedCommit)
    else if r.recovered then Some(DeliveryRecovered)
    else if p.normalized(r) then Some(VerificationNormalized)
    else if r.integration.Some? && r.integration.value.merged then Some(IntegrationMerged)
    else if r.integration.Some? && MergedState(r.integration.value.status) then Some(IntegrationDone)
    else if t.activeTui && (t.result.None? || ProviderEmpty(shape)) then None
    else if !PendingStatus(t.status) && t.result.None? then Some(EmptyResult)
    else if !PendingStatus(t.status) && ProviderEmpty(shape)
         && r.verificationPassed != Some(false) && r.failureClass != "verification_failed" then Some(EmptyShape)
    else if p.hasSuccessor(t, tasks) then Some(Successor)
    else None
  }

  datatype Category = AutoTerminalizable | DeterministicRepairNeeded | ExternalWait | TrueHuman | UnresolvedFailure

  function Categorize(p: Policy, t: Task, tasks: seq<Task>): Category {
    var r := OrEmpty(t.result);
    var decided := p.labelOf(t, tasks);
    var shape := match p.decidedShape(t, tasks) case Some(s) => s case None => p.shapeOf(Some(r));
    if t.status == WaitingForIntegration then ExternalWait
    else if decided == ResolvedLabel || decided == CompletedLabel || decided == ProviderEmptyLabel
      then AutoTerminalizable
    else if r.noop || r.resolvedLegacy then AutoTerminalizable
    else if CanConverge(p, t, tasks).Some? then AutoTerminalizable
    else if TrueHumanReview(t.status) then TrueHuman
    else if FailedTerminal(t.status) then (if p.hasSuccessor(t, tasks) then AutoTerminalizable else UnresolvedFailure)
    else if t.status == WaitingForRepair then DeterministicRepairNeeded
    else if t.status == WaitingForReview then
      (if shape == FailureEvidence || shape == CodeEvidence then UnresolvedFailure
       else if p.normalized(r) then AutoTerminalizable
       else TrueHuman)
    else if ProviderEmpty(shape) then AutoTerminalizable
    else DeterministicRepairNeeded
  }

  // ---------------------------------------------------------------------------
  // What counts as evidence, in terms of the task alone
  // ---------------------------------------------------------------------------

  /** The state is none in which a task has been set to wait or to work. */
  ghost predicate AtRest(s: TaskStatus) {
    && s !in {Assigned, Queued, Running, Starting, Collecting, Accepting, WaitingForLock, WaitingForReview,
              WaitingForRepair, WaitingForIntegration, WaitingForSupervisor}
    && s != TypedReview(true) && s != TypedReview(false)
  }

  /** The provider has left nothing. */
  ghost predicate Empty(p: Policy, t: Task) {
    t.result.None? || p.shapeOf(t.result) in {NoResult, ProviderNoop, ProviderTimeout, ProviderNoEvidence}
  }

  /** The task shows this kind of evidence that it is done. */
  ghost predicate Shows(p: Policy, t: Task, tasks: seq<Task>, why: Reason) {
    var r := if t.result.Some? then t.result.value else NO_RESULT;
    var idle := !(t.activeTui && Empty(p, t));
    && t.status != NoStatus
    && match why
       case NoopMarker => r.noop
       case LegacyMarker => r.resolvedLegacy
       case ResolvedByTask => r.resolvedBy != ""
       case SupersededByTask => r.supersededBy != ""
       case IntegratedCommit =>
         r.commit != "" && (r.verificationPassed == Some(true) || r.hasTests) && p.reachable(r.commit)
       case DeliveryRecovered => r.recovered
       case VerificationNormalized => p.normalized(r)
       case IntegrationMerged => r.integration.Some? && r.integration.value.merged
       case IntegrationDone =>
         r.integration.Some? && r.integration.value.status in
           {"merged", "ff_only_merged", "already_integrated", "skipped", "not_required"}
       case EmptyResult => t.result.None? && AtRest(t.status) && idle
       case EmptyShape =>
         && Empty(p, t) && t.result.Some? && AtRest(t.status) && idle
         && r.verificationPassed != Some(false) && r.failureClass != "verification_failed"
       case Successor => p.hasSuccessor(t, tasks) && idle
  }

  /** The order in which the kinds of evidence are looked for. */
  function Rank(why: Reason): nat {
    match why
    case NoopMarker => 0 case LegacyMarker => 1 case ResolvedByTask => 2 case SupersededByTask => 3
    case IntegratedCommit => 4 case DeliveryRecovered => 5 case VerificationNormalized => 6
    case IntegrationMerged => 7 case IntegrationDone => 8 case EmptyResult => 9 case EmptyShape => 10
    case Successor => 11
  }

  /** The first kind of evidence the task shows. */
  ghost predicate ShowsFirst(p: Policy, t: Task, tasks: seq<Task>, why: Reason) {
    Shows(p, t, tasks, why) && forall other :: Shows(p, t, tasks, other) ==> Rank(why) <= Rank(other)
  }

  lemma PendingIff(s: TaskStatus)
    ensures PendingStatus(s) <==> !AtRest(s)
  {
    if s.TypedReview? {
      assert s == TypedReview(s.human);
    }
  }

  /** A task can converge exactly for the first kind of evidence it shows. */
  lemma ConvergesFor(p: Policy, t: Task, tasks: seq<Task>)
    ensures match CanConverge(p, t, tasks)
            case Some(why) => ShowsFirst(p, t, tasks, why)
            case None => forall why :: !Shows(p, t, tasks, why)
  {
    PendingIff(t.status);
  }

  /** A task that does not wait for integration and shows that it is done. */
  ghost predicate Evident(p: Policy, t: Task, tasks: seq<Task>) {
    t.status != WaitingForIntegration && exists why :: Shows(p, t, tasks, why)
  }

  /** The category of each task. What shows that it is done comes before any state but
      waiting for integration, and a review that waits for a person before what failed. */
  lemma CategoryIff(p: Policy, t: Task, tasks: seq<Task>)
    ensures var r := if t.result.Some? then t.result.value else NO_RESULT;
            var shape := if p.decidedShape(t, tasks).Some? then p.decidedShape(t, tasks).value else p.shapeOf(Some(r));
            var empty := shape in {NoResult, ProviderNoop, ProviderTimeout, ProviderNoEvidence};
            var waits := t.status == WaitingForIntegration;
            var human := t.status in {WaitingForReview, WaitingForSupervisor, TypedReview(true)};
            var failed := t.status in {Failed, TimedOut, Blocked, Cancelled};
            var ended := p.labelOf(t, tasks) in {ResolvedLabel, CompletedLabel, ProviderEmptyLabel}
                         || r.noop || r.resolvedLegacy || Evident(p, t, tasks);
            var category := Categorize(p, t, tasks);
            && (category == ExternalWait <==> waits)
            && (category == TrueHuman <==> !waits && !ended && human)
            && (category == UnresolvedFailure <==> !waits && !ended && failed && !p.hasSuccessor(t, tasks))
            && (category == DeterministicRepairNeeded <==>
                 !waits && !ended && !human && !failed && (t.status == WaitingForRepair || !empty))
  {
    ConvergesFor(p, t, tasks);
  }

  // ---------------------------------------------------------------------------
  // The manifest
  // ---------------------------------------------------------------------------

  datatype Entry = Entry(taskId: string, status: TaskStatus, category: Category)

  function EntryOf(p: Policy, t: Task, tasks: seq<Task>): Entry {
    Entry(if t.id != "" then t.id else "unknown", t.status, Categorize(p, t, tasks))
  }

  /** The entries of the blockers among the first `n` tasks, in order. */
  function Manifest(p: Policy, tasks: seq<Task>, n: nat): seq<Entry>
    requires n <= |tasks|
  {
    if n == 0 then []
    else
      var earlier := Manifest(p, tasks, n - 1);
      if p.isBlocker(tasks[n - 1], tasks) then earlier + [EntryOf(p, tasks[n - 1], tasks)] else earlier
  }

  method GenerateBlockerManifest(p: Policy, tasks: seq<Task>) returns (manifest: seq<Entry>)
    ensures manifest == Manifest(p, tasks, |tasks|)
  {
    manifest := [];
    for i := 0 to |tasks|
      invariant manifest == Manifest(p, tasks, i)
    {
      if p.isBlocker(tasks[i], tasks) {
        manifest := manifest + [EntryOf(p, tasks[i], tasks)];
      }
    }
  }

  // ---------------------------------------------------------------------------
  // One pass
  // ---------------------------------------------------------------------------

  ghost predicate UniqueIds(tasks: seq<Task>) {
    && (forall i :: 0 <= i < |tasks| ==> tasks[i].id != "")
    && (forall i, j :: 0 <= i < j < |tasks| ==> tasks[i].id != tasks[j].id)
  }

  /** `tasks.find(t => t.id === id)`. */
  function Find(tasks: seq<Task>, id: string): (k: Option<nat>)
    ensures k.Some? ==> k.value < |tasks| && tasks[k.value].id == id
    ensures k.Some? ==> forall j :: 0 <= j < k.value ==> tasks[j].id != id
    ensures k.None? ==> forall j :: 0 <= j < |tasks| ==> tasks[j].id != id
  {
    if tasks == [] then None
    else if tasks[0].id == id then Some(0)
    else match Find(tasks[1..], id) case None => None case Some(k) => Some(k + 1)
  }

  /** A blocker this pass completes. */
  predicate Converges(p: Policy, t: Task, tasks: seq<Task>) {
    p.isBlocker(t, tasks) && Categorize(p, t, tasks) == AutoTerminalizable && CanConverge(p, t, tasks).Some?
  }

  function Closed(p: Policy, t: Task, tasks: seq<Task>): Task {
    if Converges(p, t, tasks) then t.(status := Completed, convergedFor := CanConverge(p, t, tasks)) else t
  }

  datatype Convergence = Convergence(taskId: string, reason: Reason)

  /** The blockers among the first `n` tasks that this pass completes, and the entries
      it leaves in the manifest. */
  function ConvergedOf(p: Policy, tasks: seq<Task>, n: nat): seq<Convergence>
    requires n <= |tasks|
  {
    if n == 0 then []
    else
      var t := tasks[n - 1];
      var earlier := ConvergedOf(p, tasks, n - 1);
      if Converges(p, t, tasks) then earlier + [Convergence(t.id, CanConverge(p, t, tasks).value)] else earlier
  }

  function PreservedOf(p: Policy, tasks: seq<Task>, n: nat): seq<Entry>
    requires n <= |tasks|
  {
    if n == 0 then []
    else
      var t := tasks[n - 1];
      var earlier := PreservedOf(p, tasks, n - 1);
      if p.isBlocker(t, tasks) && !Converges(p, t, tasks) then earlier + [EntryOf(p, t, tasks)] else earlier
  }

  /** The store after a pass. */
  function Pass(p: Policy, tasks: seq<Task>): (after: seq<Task>)
    ensures |after| == |tasks|
    ensures forall i :: 0 <= i < |tasks| ==> after[i] == Closed(p, tasks[i], tasks)
  {
    seq(|tasks|, i requires 0 <= i < |tasks| => Closed(p, tasks[i], tasks))
  }

  /** The check a pass makes of one manifest entry. */
  function EntryReason(p: Policy, e: Entry, tasks: seq<Task>): Option<Reason> {
    var k := Find(tasks, e.taskId);
    if e.category == AutoTerminalizable && k.Some? then CanConverge(p, tasks[k.value], tasks) else None
  }

  function SplitConverged(p: Policy, manifest: seq<Entry>, tasks: seq<Task>): seq<Convergence> {
    if manifest == [] then []
    else
      var n := |manifest| - 1;
      var reason := EntryReason(p, manifest[n], tasks);
      var earlier := SplitConverged(p, manifest[..n], tasks);
      if reason.Some? then earlier + [Convergence(manifest[n].taskId, reason.value)] else earlier
  }

  function SplitPreserved(p: Policy, manifest: seq<Entry>, tasks: seq<Task>): seq<Entry> {
    if manifest == [] then []
    else
      var n := |manifest| - 1;
      var earlier := SplitPreserved(p, manifest[..n], tasks);
      if EntryReason(p, manifest[n], tasks).None? then earlier + [manifest[n]] else earlier
  }

  /** Every entry of the manifest goes one way, none is lost or made up. */
  lemma {:induction false} SplitCounts(p: Policy, manifest: seq<Entry>, tasks: seq<Task>)
    ensures |SplitConverged(p, manifest, tasks)| + |SplitPreserved(p, manifest, tasks)| == |manifest|
  {
    if manifest != [] {
      SplitCounts(p, manifest[..|manifest| - 1], tasks);
    }
  }

  lemma FindsItself(tasks: seq<Task>, i: nat)
    requires UniqueIds(tasks) && i < |tasks|
    ensures Find(tasks, tasks[i].id) == Some(i)
  {
    var k := Find(tasks, tasks[i].id);
    assert k.Some?;
    assert !(k.value < i) && !(i < k.value);
  }

  lemma EntryReasonOf(p: Policy, tasks: seq<Task>, i: nat)
    requires UniqueIds(tasks) && i < |tasks| && p.isBlocker(tasks[i], tasks)
    ensures EntryReason(p, EntryOf(p, tasks[i], tasks), tasks)
         == if Converges(p, tasks[i], tasks) then CanConverge(p, tasks[i], tasks) else None
  {
    FindsItself(tasks, i);
  }

  lemma SplitOneMore(p: Policy, before: seq<Entry>, e: Entry, tasks: seq<Task>)
    ensures var reason := EntryReason(p, e, tasks);
            var converged, preserved := SplitConverged(p, before, tasks), SplitPreserved(p, before, tasks);
            && SplitConverged(p, before + [e], tasks)
               == (if reason.Some? then converged + [Convergence(e.taskId, reason.value)] else converged)
            && SplitPreserved(p, before + [e], tasks) == (if reason.None? then preserved + [e] else preserved)
  {
    assert (before + [e])[..|before|] == before;
  }

  /** With unique ids the lookup by id gives the task the entry was made from. */
  lemma {:induction false} SplitOfManifest(p: Policy, tasks: seq<Task>, n: nat)
    requires UniqueIds(tasks) && n <= |tasks|
    ensures SplitConverged(p, Manifest(p, tasks, n), tasks) == ConvergedOf(p, tasks, n)
    ensures SplitPreserved(p, Manifest(p, tasks, n), tasks) == PreservedOf(p, tasks, n)
  {
    if n > 0 {
      var i := n - 1;
      SplitOfManifest(p, tasks, i);
      if p.isBlocker(tasks[i], tasks) {
        EntryReasonOf(p, tasks, i);
        SplitOneMore(p, Manifest(p, tasks, i), EntryOf(p, tasks[i], tasks), tasks);
      }
    }
  }

  predicate HasId(cs: seq<Convergence>, id: string) {
    cs != [] && (cs[|cs| - 1].taskId == id || HasId(cs[..|cs| - 1], id))
  }

  lemma HasIdOneMore(cs: seq<Convergence>, c: Convergence, id: string)
    ensures HasId(cs + [c], id) <==> HasId(cs, id) || c.taskId == id
  {
    assert (cs + [c])[..|cs|] == cs;
  }

  lemma {:induction false} ConvergedIds(p: Policy, tasks: seq<Task>, n: nat, i: nat)
    requires UniqueIds(tasks) && n <= |tasks| && i < |tasks|
    ensures HasId(ConvergedOf(p, tasks, n), tasks[i].id) <==> i < n && Converges(p, tasks[i], tasks)
  {
    if n > 0 {
      ConvergedIds(p, tasks, n - 1, i);
      assert n - 1 != i ==> tasks[n - 1].id != tasks[i].id;
      if Converges(p, tasks[n - 1], tasks) {
        HasIdOneMore(ConvergedOf(p, tasks, n - 1),
                     Convergence(tasks[n - 1].id, CanConverge(p, tasks[n - 1], tasks).value), tasks[i].id);
      }
    }
  }

  // ---------------------------------------------------------------------------
  // The mutate step
  // ---------------------------------------------------------------------------

  function CloseOne(tasks: seq<Task>, c: Convergence): (after: seq<Task>)
    ensures |after| == |tasks| && forall i :: 0 <= i < |tasks| ==> after[i].id == tasks[i].id
  {
    match Find(tasks, c.taskId)
    case None => tasks
    case Some(k) => tasks[k := tasks[k].(status := Completed, convergedFor := Some(c.reason))]
  }

  function CloseAll(tasks: seq<Task>, cs: seq<Convergence>): (after: seq<Task>)
    ensures |after| == |tasks| && forall i :: 0 <= i < |tasks| ==> after[i].id == tasks[i].id
  {
    if cs == [] then tasks else CloseOne(CloseAll(tasks, cs[..|cs| - 1]), cs[|cs| - 1])
  }

  lemma CloseOneMore(tasks: seq<Task>, cs: seq<Convergence>, c: Convergence)
    ensures CloseAll(tasks, cs + [c]) == CloseOne(CloseAll(tasks, cs), c)
  {
    assert (cs + [c])[..|cs|] == cs;
  }

  lemma UniqueIdsKept(tasks: seq<Task>, after: seq<Task>)
    requires UniqueIds(tasks) && |after| == |tasks| && forall i :: 0 <= i < |tasks| ==> after[i].id == tasks[i].id
    ensures UniqueIds(after)
  {
  }

  lemma CloseOneAt(tasks: seq<Task>, c: Convergence, k: nat)
    requires UniqueIds(tasks) && k < |tasks| && tasks[k].id == c.taskId
    ensures CloseOne(tasks, c) == tasks[k := tasks[k].(status := Completed, convergedFor := Some(c.reason))]
  {
    FindsItself(tasks, k);
  }

  lemma SpliceNext(a: seq<Task>, b: seq<Task>, k: nat)
    requires |a| == |b| && k < |a|
    ensures (a[..k] + b[k..])[k] == b[k]
    ensures (a[..k] + b[k..])[k := a[k]] == a[..k + 1] + b[k + 1..]
  {
  }

  /** Closing what converged among the first `n` tasks closes just those. */
  lemma {:induction false} CloseConverged(p: Policy, tasks: seq<Task>, n: nat)
    requires UniqueIds(tasks) && n <= |tasks|
    ensures CloseAll(tasks, ConvergedOf(p, tasks, n)) == Pass(p, tasks)[..n] + tasks[n..]
  {
    if n > 0 {
      var k := n - 1;
      var earlier, pass := ConvergedOf(p, tasks, k), Pass(p, tasks);
      CloseConverged(p, tasks, k);
      SpliceNext(pass, tasks, k);
      assert pass[k] == Closed(p, tasks[k], tasks);
      if Converges(p, tasks[k], tasks) {
        var c := Convergence(tasks[k].id, CanConverge(p, tasks[k], tasks).value);
        CloseOneMore(tasks, earlier, c);
        UniqueIdsKept(tasks, CloseAll(tasks, earlier));
        CloseOneAt(CloseAll(tasks, earlier), c, k);
      } else {
        assert (pass[..k] + tasks[k..])[k := tasks[k]] == pass[..k] + tasks[k..];
      }
    } else {
      assert Pass(p, tasks)[..0] + tasks[0..] == tasks;
    }
  }

  lemma CloseConvergedIsPass(p: Policy, tasks: seq<Task>)
    requires UniqueIds(tasks)
    ensures CloseAll(tasks, ConvergedOf(p, tasks, |tasks|)) == Pass(p, tasks)
  {
    CloseConverged(p, tasks, |tasks|);
    assert Pass(p, tasks)[..|tasks|] + tasks[|tasks|..] == Pass(p, tasks);
  }

  // ---------------------------------------------------------------------------
  // Tasks that change between the load and the mutate step
  // ---------------------------------------------------------------------------

  /** The task at `j` goes by this id and is eligible. */
  predicate EligibleAs(p: Policy, tasks: seq<Task>, j: nat, id: string)
    requires j < |tasks|
  {
    tasks[j].id == id && Converges(p, tasks[j], tasks)
  }

  lemma ListedOneMore(p: Policy, tasks: seq<Task>, n: nat, id: string)
    requires 0 < n <= |tasks|
    ensures HasId(ConvergedOf(p, tasks, n), id) <==>
      HasId(ConvergedOf(p, tasks, n - 1), id) || EligibleAs(p, tasks, n - 1, id)
  {
    if Converges(p, tasks[n - 1], tasks) {
      HasIdOneMore(ConvergedOf(p, tasks, n - 1),
                   Convergence(tasks[n - 1].id, CanConverge(p, tasks[n - 1], tasks).value), id);
    }
  }

  lemma {:induction false} ConvergedFrom(p: Policy, tasks: seq<Task>, n: nat, id: string)
    requires n <= |tasks|
    ensures HasId(ConvergedOf(p, tasks, n), id) <==> exists j :: 0 <= j < n && EligibleAs(p, tasks, j, id)
  {
    if n > 0 {
      ConvergedFrom(p, tasks, n - 1, id);
      ListedOneMore(p, tasks, n, id);
    }
  }

  /** The mutate step completes the listed tasks whatever they have become, and leaves
      all others alone. */
  lemma {:induction false} ClosedAsFound(now: seq<Task>, cs: seq<Convergence>, i: nat)
    requires UniqueIds(now) && i < |now|
    ensures var after := CloseAll(now, cs)[i];
            if HasId(cs, now[i].id)
            then after == now[i].(status := Completed, convergedFor := after.convergedFor)
            else after == now[i]
  {
    if cs != [] {
      var earlier, c := cs[..|cs| - 1], cs[|cs| - 1];
      var closed := CloseAll(now, earlier);
      ClosedAsFound(now, earlier, i);
      UniqueIdsKept(now, closed);
      if k :| 0 <= k < |closed| && closed[k].id == c.taskId {
        CloseOneAt(closed, c, k);
      } else {
        assert Find(closed, c.taskId).None?;
      }
    }
  }

  /** A pass never completes a task that waits for integration by the time of the mutate
      step, exactly when none of those was eligible when the tasks were loaded. */
  lemma WaitingKeptIff(p: Policy, loaded: seq<Task>, now: seq<Task>)
    requires UniqueIds(now)
    ensures (forall i :: 0 <= i < |now| && now[i].status == WaitingForIntegration ==>
              CloseAll(now, ConvergedOf(p, loaded, |loaded|))[i].status == WaitingForIntegration)
       <==> (forall i, j | 0 <= i < |now| && 0 <= j < |loaded| ::
              now[i].status == WaitingForIntegration ==> !EligibleAs(p, loaded, j, now[i].id))
  {
    var cs := ConvergedOf(p, loaded, |loaded|);
    forall i | 0 <= i < |now|
      ensures CloseAll(now, cs)[i].status == (if HasId(cs, now[i].id) then Completed else now[i].status)
      ensures HasId(cs, now[i].id) <==>
        exists j :: 0 <= j < |loaded| && EligibleAs(p, loaded, j, now[i].id)
    {
      ClosedAsFound(now, cs, i);
      ConvergedFrom(p, loaded, |loaded|, now[i].id);
    }
  }

  /** The blocker loaded at `j` goes by this id and shows that it is done. */
  ghost predicate EvidentAs(p: Policy, loaded: seq<Task>, j: int, id: string) {
    0 <= j < |loaded| && loaded[j].id == id && p.isBlocker(loaded[j], loaded) && Evident(p, loaded[j], loaded)
  }

  /** Completed for the first kind of evidence that the blocker showed when loaded. */
  ghost predicate CompletedFor(p: Policy, loaded: seq<Task>, j: int, now: Task, after: Task) {
    && EvidentAs(p, loaded, j, now.id) && after.convergedFor.Some?
    && ShowsFirst(p, loaded[j], loaded, after.convergedFor.value)
    && after == now.(status := Completed, convergedFor := after.convergedFor)
  }

  /** Every task whose id was that of a blocker that showed it is done is completed for
      what it showed, and no other is touched. */
  ghost predicate ClosedByEvidence(p: Policy, loaded: seq<Task>, now: seq<Task>, after: seq<Task>) {
    |after| == |now| && forall i :: 0 <= i < |now| ==>
      if exists j :: EvidentAs(p, loaded, j, now[i].id)
      then exists j :: CompletedFor(p, loaded, j, now[i], after[i])
      else after[i] == now[i]
  }

  lemma EligibleIsEvident(p: Policy, tasks: seq<Task>, j: nat, id: string)
    requires j < |tasks|
    ensures EligibleAs(p, tasks, j, id) <==> EvidentAs(p, tasks, j, id)
  {
    ConvergesFor(p, tasks[j], tasks);
  }

  /** Where a listed convergence comes from. */
  lemma {:induction false} ListedFrom(p: Policy, tasks: seq<Task>, n: nat, k: nat)
    requires n <= |tasks| && k < |ConvergedOf(p, tasks, n)|
    ensures var c := ConvergedOf(p, tasks, n)[k];
            exists j :: EvidentAs(p, tasks, j, c.taskId) && ShowsFirst(p, tasks[j], tasks, c.reason)
  {
    var earlier := ConvergedOf(p, tasks, n - 1);
    if k < |earlier| {
      ListedFrom(p, tasks, n - 1, k);
    } else {
      ConvergesFor(p, tasks[n - 1], tasks);
      EligibleIsEvident(p, tasks, n - 1, tasks[n - 1].id);
    }
  }

  lemma {:induction false} ClosedFor(now: seq<Task>, cs: seq<Convergence>, i: nat) returns (k: nat)
    requires UniqueIds(now) && i < |now| && HasId(cs, now[i].id)
    ensures k < |cs| && cs[k].taskId == now[i].id && CloseAll(now, cs)[i].convergedFor == Some(cs[k].reason)
  {
    k := |cs| - 1;
    var closed := CloseAll(now, cs[..k]);
    UniqueIdsKept(now, closed);
    if cs[k].taskId == now[i].id {
      CloseOneAt(closed, cs[k], i);
    } else {
      k := ClosedFor(now, cs[..k], i);
      var found := Find(closed, cs[|cs| - 1].taskId);
      assert found != Some(i);
    }
  }

  /** So the mutate step completes by the evidence loaded, whatever the tasks are by then. */
  lemma MutatesByEvidence(p: Policy, loaded: seq<Task>, now: seq<Task>)
    requires UniqueIds(now)
    ensures ClosedByEvidence(p, loaded, now, CloseAll(now, ConvergedOf(p, loaded, |loaded|)))
  {
    var cs := ConvergedOf(p, loaded, |loaded|);
    var after := CloseAll(now, cs);
    forall i | 0 <= i < |now|
      ensures if exists j :: EvidentAs(p, loaded, j, now[i].id)
              then exists j :: CompletedFor(p, loaded, j, now[i], after[i])
              else after[i] == now[i]
    {
      ClosedAsFound(now, cs, i);
      ConvergedFrom(p, loaded, |loaded|, now[i].id);
      forall j | 0 <= j < |loaded| ensures EligibleAs(p, loaded, j, now[i].id) <==> EvidentAs(p, loaded, j, now[i].id) {
        EligibleIsEvident(p, loaded, j, now[i].id);
      }
      if HasId(cs, now[i].id) {
        var k := ClosedFor(now, cs, i);
        ListedFrom(p, loaded, |loaded|, k);
        var j :| EvidentAs(p, loaded, j, cs[k].taskId) && ShowsFirst(p, loaded[j], loaded, cs[k].reason);
        assert CompletedFor(p, loaded, j, now[i], after[i]);
      }
    }
  }

  /** In particular a task without a result that waits, or works, is left alone: unless a
      successor is done, or the policy takes the missing result as verified, nothing shows
      that it is done. */
  lemma WaitingShowsNothing(p: Policy, t: Task, tasks: seq<Task>)
    requires t.result.None? && !p.normalized(NO_RESULT) && !p.hasSuccessor(t, tasks)
    requires t.status in {Assigned, Queued, Running, Starting, Collecting, Accepting, WaitingForLock, WaitingForReview,
                          WaitingForRepair, WaitingForIntegration, WaitingForSupervisor, TypedReview(true),
                          TypedReview(false)}
    ensures CanConverge(p, t, tasks).None? && !Evident(p, t, tasks)
  {
    ConvergesFor(p, t, tasks);
  }

  // ---------------------------------------------------------------------------
  // What passes do over time
  // ---------------------------------------------------------------------------

  lemma PassKeepsIds(p: Policy, tasks: seq<Task>)
    requires UniqueIds(tasks)
    ensures UniqueIds(Pass(p, tasks))
  {
    forall i | 0 <= i < |tasks| ensures Pass(p, tasks)[i].id == tasks[i].id {
      assert Pass(p, tasks)[i] == Closed(p, tasks[i], tasks);
    }
  }

  /** Tasks that are not completed. */
  function OpenCount(tasks: seq<Task>): nat {
    if tasks == [] then 0
    else OpenCount(tasks[..|tasks| - 1]) + (if tasks[|tasks| - 1].status != Completed then 1 else 0)
  }

  lemma {:induction false} OpenAfter(p: Policy, tasks: seq<Task>, n: nat)
    requires Sound(p) && n <= |tasks|
    ensures OpenCount(Pass(p, tasks)[..n]) + |ConvergedOf(p, tasks, n)| == OpenCount(tasks[..n])
  {
    if n > 0 {
      OpenAfter(p, tasks, n - 1);
      assert Pass(p, tasks)[..n][..n - 1] == Pass(p, tasks)[..n - 1];
      assert tasks[..n][..n - 1] == tasks[..n - 1];
      assert Pass(p, tasks)[n - 1] == Closed(p, tasks[n - 1], tasks);
    }
  }

  /** Each pass takes as many tasks off the open ones as it converges. */
  lemma PassShrinks(p: Policy, tasks: seq<Task>)
    requires Sound(p)
    ensures OpenCount(Pass(p, tasks)) + |ConvergedOf(p, tasks, |tasks|)| == OpenCount(tasks)
  {
    OpenAfter(p, tasks, |tasks|);
    assert Pass(p, tasks)[..|tasks|] == Pass(p, tasks);
    assert tasks[..|tasks|] == tasks;
  }

  /** The store after passes under policies that may differ, since what they depend on
      (the commits reachable from HEAD, say) changes between passes. */
  function Passes(ps: seq<Policy>, tasks: seq<Task>): (after: seq<Task>)
    ensures |after| == |tasks|
  {
    if ps == [] then tasks else Passes(ps[1..], Pass(ps[0], tasks))
  }

  /** How many of the passes converge something. */
  function ActivePasses(ps: seq<Policy>, tasks: seq<Task>): nat {
    if ps == [] then 0
    else (if ConvergedOf(ps[0], tasks, |tasks|) != [] then 1 else 0) + ActivePasses(ps[1..], Pass(ps[0], tasks))
  }

  /** However many passes are made, at most as many converge something as there were
      open tasks at the start: repeating passes comes to an end. */
  lemma {:induction false} ActivePassesBounded(ps: seq<Policy>, tasks: seq<Task>)
    requires forall k :: 0 <= k < |ps| ==> Sound(ps[k])
    ensures ActivePasses(ps, tasks) + OpenCount(Passes(ps, tasks)) <= OpenCount(tasks)
  {
    if ps != [] {
      PassShrinks(ps[0], tasks);
      ActivePassesBounded(ps[1..], Pass(ps[0], tasks));
    }
  }

  /** A pass that converges nothing leaves nothing to converge. */
  lemma NothingConverged(p: Policy, tasks: seq<Task>)
    requires UniqueIds(tasks) && ConvergedOf(p, tasks, |tasks|) == []
    ensures Pass(p, tasks) == tasks
    ensures forall i :: 0 <= i < |tasks| ==> !EvidentAs(p, tasks, i, tasks[i].id)
  {
    CloseConvergedIsPass(p, tasks);
    forall i | 0 <= i < |tasks| ensures !EvidentAs(p, tasks, i, tasks[i].id) {
      ConvergedIds(p, tasks, |tasks|, i);
      EligibleIsEvident(p, tasks, i, tasks[i].id);
    }
  }

  /** The loop of a pass over the manifest. */
  method Partition(p: Policy, manifest: seq<Entry>, tasks: seq<Task>)
    returns (converged: seq<Convergence>, preserved: seq<Entry>)
    ensures converged == SplitConverged(p, manifest, tasks) && preserved == SplitPreserved(p, manifest, tasks)
  {
    converged, preserved := [], [];
    for k := 0 to |manifest|
      invariant converged == SplitConverged(p, manifest[..k], tasks)
      invariant preserved == SplitPreserved(p, manifest[..k], tasks)
    {
      var entry := manifest[k];
      assert manifest[..k] + [entry] == manifest[..k + 1];
      SplitOneMore(p, manifest[..k], entry, tasks);
      var reason := EntryReason(p, entry, tasks);
      if reason.Some? {
        converged := converged + [Convergence(entry.taskId, reason.value)];
      } else {
        preserved := preserved + [entry];
      }
    }
    assert manifest[..|manifest|] == manifest;
  }

  datatype PassResult = PassResult(manifest: seq<Entry>, converged: seq<Convergence>)

  class TaskStore {
    var tasks: seq<Task>
    /** Loading and saving never fail. */
    const reliable: bool

    constructor (tasks: seq<Task>, reliable: bool)
      ensures this.tasks == tasks && this.reliable == reliable
    {
      this.tasks := tasks;
      this.reliable := reliable;
    }

    /** One mutate step; it may fail before or after its effect. */
    method CloseListed(cs: seq<Convergence>) returns (ok: bool)
      modifies this
      ensures tasks == CloseAll(old(tasks), cs) || (!ok && tasks == old(tasks))
      ensures reliable ==> ok
    {
      var loaded: bool := *;
      var saved: bool := *;
      if !loaded && !reliable {
        return false;
      }
      ok := saved || reliable;
      ghost var before := tasks;
      for k := 0 to |cs|
        invariant tasks == CloseAll(before, cs[..k])
      {
        assert cs[..k] + [cs[k]] == cs[..k + 1];
        CloseOneMore(before, cs[..k], cs[k]);
        var found := Find(tasks, cs[k].taskId);
        if found.Some? {
          var t := tasks[found.value];
          tasks := tasks[found.value := t.(status := Completed, convergedFor := Some(cs[k].reason))];
        }
      }
      assert cs[..|cs|] == cs;
    }

    /** One pass; nothing is returned when the mutate step throws. The manifest is
        split, in order, into what converged and what is preserved. `meanwhile` is what
        other writers make of the tasks between the load and the mutate step. */
    method ApplyDeterministicConvergence(p: Policy, dryRun: bool, meanwhile: Option<seq<Task>>)
      returns (r: Option<PassResult>)
      modifies this
      ensures dryRun || reliable ==> r.Some?
      ensures UniqueIds(old(tasks)) && r.Some? ==>
        && r.value.converged == ConvergedOf(p, old(tasks), |old(tasks)|)
        && r.value.manifest == PreservedOf(p, old(tasks), |old(tasks)|)
        && |r.value.converged| + |r.value.manifest| == |Manifest(p, old(tasks), |old(tasks)|)|
      ensures UniqueIds(old(tasks)) ==>
        var now := if meanwhile.Some? then meanwhile.value else old(tasks);
        if dryRun then tasks == now
        else tasks == CloseAll(now, ConvergedOf(p, old(tasks), |old(tasks)|)) || (r.None? && tasks == now)
      // Undisturbed: every task that is eligible is completed, and no other is touched.
      ensures UniqueIds(old(tasks)) && !dryRun && meanwhile.None? ==>
        tasks == Pass(p, old(tasks)) || (r.None? && tasks == old(tasks))
      // Whatever the tasks are by then, they are completed by the evidence there was.
      ensures UniqueIds(old(tasks)) && !dryRun ==>
        var now := if meanwhile.Some? then meanwhile.value else old(tasks);
        UniqueIds(now) ==> ClosedByEvidence(p, old(tasks), now, tasks) || (r.None? && tasks == now)
    {
      var state := tasks;
      ghost var now := if meanwhile.Some? then meanwhile.value else state;
      if UniqueIds(now) {
        MutatesByEvidence(p, state, now);
      }
      var baseline := GenerateBlockerManifest(p, state);
      var converged, preserved := Partition(p, baseline, state);
      SplitCounts(p, baseline, state);
      if UniqueIds(state) {
        SplitOfManifest(p, state, |state|);
        CloseConvergedIsPass(p, state);
      }
      if meanwhile.Some? {
        tasks := meanwhile.value;
      }
      r := Some(PassResult(preserved, converged));
      if !dryRun && |converged| > 0 {
        var ok := CloseListed(converged);
        if !ok {
          r := None;
        }
      }
    }

    /** Passes until one converges nothing or fails. */
    method ConvergeRepeatedly(p: Policy) returns (ok: bool)
      requires Sound(p) && UniqueIds(tasks)
      modifies this
      ensures UniqueIds(tasks)
      ensures ok ==> forall i :: 0 <= i < |tasks| ==> !EvidentAs(p, tasks, i, tasks[i].id)
      ensures reliable ==> ok
    {
      var more := true;
      while more
        invariant UniqueIds(tasks)
        invariant !more ==> forall i :: 0 <= i < |tasks| ==> !EvidentAs(p, tasks, i, tasks[i].id)
        decreases more, OpenCount(tasks)
      {
        ghost var before := tasks;
        var r := ApplyDeterministicConvergence(p, false, None);
        PassKeepsIds(p, before);
        if r.None? {
          return false;
        }
        PassShrinks(p, before);
        more := r.value.converged != [];
        if !more {
          NothingConverged(p, before);
        }
      }
      ok := true;
    }
  }
}
