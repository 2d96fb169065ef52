/** The eight role writers of agent runs: what each writes, and what that means for the
    contract of its role and for evidence that is there already. */
module AgentRunRoles {
  import opened AgentArtifacts
  import opened AgentRunStore
  import opened AgentRunWriteback
  import opened Wrappers

  // ---------------------------------------------------------------------------
  // What each writer writes
  // ---------------------------------------------------------------------------

  /** `passed` is `passed === true`; commands are counted without falsy entries. */
  datatype Verification = Verification(commandsCount: nat, passed: bool, failureClass: string)

  /** The fields of a task result the writers read. `present` is that it has any key. */
  datatype TaskResult = TaskResult(present: bool, status: string, summary: string, reason: string, failureClass: string,
                                   verification: Verification, reviewAccepted: bool, reviewStatus: string,
                                   integrationMerged: bool, integrationStatus: string)

  /** A named entry of a plan or context map that is present. */
  datatype NamedArtifact = NamedArtifact(name: string, path: string)

  datatype Writeback =
    | BuilderWrite(result: TaskResult, note: string)
    | VerifierWrite(verification: Verification)
    | ReviewerWrite(accepted: bool, decisionStatus: string)
    | FinalizerWrite(outcome: TaskResult, taskStatus: string)
    | IntegratorWrite(merged: bool, status: string)
    | RepairerWrite(repairPassed: bool, repairOutcome: string, repairReason: string)
    | PlannerWrite(evidence: seq<NamedArtifact>)
    | CuratorWrite(bundle: seq<NamedArtifact>)

  function RoleOf(w: Writeback): Role {
    match w
    case BuilderWrite(_, _) => Builder
    case VerifierWrite(_) => Verifier
    case ReviewerWrite(_, _) => Reviewer
    case FinalizerWrite(_, _) => Finalizer
    case IntegratorWrite(_, _) => Integrator
    case RepairerWrite(_, _, _) => Repairer
    case PlannerWrite(_) => Planner
    case CuratorWrite(_) => ContextCurator
  }

  function OrElse(a: string, b: string): string {
    if a != "" then a else b
  }

  /** A verification counts only with at least one command behind it. */
  predicate PassedWithEvidence(v: Verification) {
    v.passed && v.commandsCount > 0
  }

  predicate BuilderFailed(r: TaskResult) {
    r.failureClass == "codex_transport_404" || r.status == "blocked"
  }

  predicate MergedStatus(status: string) {
    status == "merged" || status == "ff_only_merged" || status == "skipped" || status == "not_required"
  }

  predicate Repaired(passed: bool, repairOutcome: string) {
    passed || repairOutcome == "repaired"
  }

  function Verdict(good: bool): Status {
    if good then Completed else Failed
  }

  function StatusOf(w: Writeback): Status {
    match w
    case BuilderWrite(r, note) => Verdict(!BuilderFailed(r) && (r.status == "completed" || note != ""))
    case VerifierWrite(v) => Verdict(PassedWithEvidence(v))
    case ReviewerWrite(accepted, _) => Verdict(accepted)
    case FinalizerWrite(r, taskStatus) => Verdict(OrElse(taskStatus, r.status) != "failed")
    case IntegratorWrite(merged, status) => Verdict(merged || MergedStatus(status))
    case RepairerWrite(passed, repairOutcome, _) => Verdict(Repaired(passed, repairOutcome))
    case PlannerWrite(_) => Completed
    case CuratorWrite(_) => Completed
  }

  function OfKind(kind: string): (a: Artifact)
    ensures a.Record? && a.kind == kind
  {
    Record(kind, "", "", false, None, "", 0)
  }

  function Named(entries: seq<NamedArtifact>): seq<Artifact> {
    seq(|entries|, i requires 0 <= i < |entries| => Record(entries[i].name, "", entries[i].path, false, None, "", 0))
  }

  function ArtifactsOf(w: Writeback): seq<Artifact> {
    match w
    case BuilderWrite(_, _) => [OfKind("change_summary")]
    case VerifierWrite(v) =>
      [OfKind("verification").(commandsCount := v.commandsCount, passed := Some(PassedWithEvidence(v)))]
    case ReviewerWrite(accepted, status) => [OfKind("reviewer_decision").(passed := Some(accepted), status := status)]
    case FinalizerWrite(r, taskStatus) =>
      [OfKind("result").(status := OrElse(OrElse(taskStatus, r.status), "completed"))]
    case IntegratorWrite(_, status) => [OfKind("integration").(status := status)]
    case RepairerWrite(passed, repairOutcome, _) => [OfKind("repair").(passed := Some(Repaired(passed, repairOutcome)))]
    case PlannerWrite(evidence) => Named(evidence) + [OfKind("plan")]
    case CuratorWrite(bundle) => Named(bundle)
  }

  function SummaryOf(w: Writeback): string {
    match w
    case BuilderWrite(r, note) => OrElse(note, OrElse(r.summary, "Builder completed"))
    case VerifierWrite(v) =>
      var why := if v.commandsCount == 0 then "verification_commands_missing" else OrElse(v.failureClass, "unknown");
      if PassedWithEvidence(v) then "Verification passed" else "Verification failed: " + why
    case ReviewerWrite(accepted, _) => if accepted then "Reviewer accepted" else "Reviewer did not accept"
    case FinalizerWrite(r, taskStatus) =>
      OrElse(r.summary, OrElse(r.reason, "Task " + OrElse(OrElse(taskStatus, r.status), "completed")))
    case IntegratorWrite(merged, status) =>
      if merged || MergedStatus(status) then "Integration " + OrElse(status, "complete")
      else "Integration failed: " + status
    case RepairerWrite(passed, repairOutcome, reason) =>
      if Repaired(passed, repairOutcome) then "Repair successful: " + OrElse(reason, "repaired")
      else "Repair failed: " + OrElse(reason, "unknown")
    case PlannerWrite(_) => "Plan determined from context/prompt files"
    case CuratorWrite(_) => "Context bundle prepared"
  }

  function WriteOf(taskId: string, goalId: string, w: Writeback): Write {
    Write(taskId, goalId, RoleOf(w), Some(StatusOf(w)), ArtifactsOf(w), SummaryOf(w))
  }

  /** What each writer asks for, over its inputs: the status it reports, the one record of
      its kind, and its words. */
  ghost predicate Asks(w: Writeback, taskId: string, goalId: string, x: Write) {
    && x.taskId == taskId && x.goalId == goalId && x.status in {Some(Completed), Some(Failed)}
    && match w
       case BuilderWrite(r, note) =>
         && x.role == Builder
         && (x.status == Some(Completed) <==>
              r.failureClass != "codex_transport_404" && r.status != "blocked"
              && (r.status == "completed" || note != ""))
         && x.outputArtifacts == [Record("change_summary", "", "", false, None, "", 0)]
         && x.summary == (if note != "" then note else if r.summary != "" then r.summary else "Builder completed")
       case VerifierWrite(v) =>
         var passed := v.passed && v.commandsCount > 0;
         var why := if v.commandsCount == 0 then "verification_commands_missing"
                    else if v.failureClass != "" then v.failureClass else "unknown";
         && x.role == Verifier && (x.status == Some(Completed) <==> passed)
         && x.outputArtifacts == [Record("verification", "", "", false, Some(passed), "", v.commandsCount)]
         && x.summary == (if passed then "Verification passed" else "Verification failed: " + why)
       case ReviewerWrite(accepted, decisionStatus) =>
         && x.role == Reviewer && (x.status == Some(Completed) <==> accepted)
         && x.outputArtifacts == [Record("reviewer_decision", "", "", false, Some(accepted), decisionStatus, 0)]
         && x.summary == (if accepted then "Reviewer accepted" else "Reviewer did not accept")
       case FinalizerWrite(r, taskStatus) =>
         var final := if taskStatus != "" then taskStatus else if r.status != "" then r.status else "completed";
         && x.role == Finalizer && (x.status == Some(Failed) <==> final == "failed")
         && x.outputArtifacts == [Record("result", "", "", false, None, final, 0)]
         && x.summary == (if r.summary != "" then r.summary else if r.reason != "" then r.reason else "Task " + final)
       case IntegratorWrite(merged, status) =>
         var done := merged || status in {"merged", "ff_only_merged", "skipped", "not_required"};
         && x.role == Integrator && (x.status == Some(Completed) <==> done)
         && x.outputArtifacts == [Record("integration", "", "", false, None, status, 0)]
         && x.summary == (if !done then "Integration failed: " + status
                          else "Integration " + (if status != "" then status else "complete"))
       case RepairerWrite(passed, repairOutcome, reason) =>
         var repaired := passed || repairOutcome == "repaired";
         && x.role == Repairer && (x.status == Some(Completed) <==> repaired)
         && x.outputArtifacts == [Record("repair", "", "", false, Some(repaired), "", 0)]
         && x.summary == (if repaired then "Repair successful: " + (if reason != "" then reason else "repaired")
                          else "Repair failed: " + (if reason != "" then reason else "unknown"))
       case PlannerWrite(evidence) =>
         && x.role == Planner && x.status == Some(Completed) && |x.outputArtifacts| == |evidence| + 1
         && Entries(x.outputArtifacts[..|evidence|], evidence)
         && x.outputArtifacts[|evidence|] == Record("plan", "", "", false, None, "", 0)
         && x.summary == "Plan determined from context/prompt files"
       case CuratorWrite(bundle) =>
         && x.role == ContextCurator && x.status == Some(Completed) && Entries(x.outputArtifacts, bundle)
         && x.summary == "Context bundle prepared"
  }

  /** A record for each entry, by its name and path. */
  ghost predicate Entries(artifacts: seq<Artifact>, entries: seq<NamedArtifact>) {
    && |artifacts| == |entries|
    && forall i :: 0 <= i < |entries| ==>
         artifacts[i] == Record(entries[i].name, "", entries[i].path, false, None, "", 0)
  }

  lemma WritersAsk(w: Writeback, taskId: string, goalId: string)
    ensures Asks(w, taskId, goalId, WriteOf(taskId, goalId, w))
  {
    match w
    case BuilderWrite(_, _) => BuilderAsks(w, taskId, goalId);
    case VerifierWrite(_) => VerifierAsks(w, taskId, goalId);
    case ReviewerWrite(_, _) =>
    case FinalizerWrite(_, _) => FinalizerAsks(w, taskId, goalId);
    case IntegratorWrite(_, _) => IntegratorAsks(w, taskId, goalId);
    case RepairerWrite(_, _, _) => RepairerAsks(w, taskId, goalId);
    case PlannerWrite(evidence) => assert WriteOf(taskId, goalId, w).outputArtifacts[..|evidence|] == Named(evidence);
    case CuratorWrite(_) =>
  }

  lemma BuilderAsks(w: Writeback, taskId: string, goalId: string)
    requires w.BuilderWrite?
    ensures Asks(w, taskId, goalId, WriteOf(taskId, goalId, w))
  {
  }

  lemma VerifierAsks(w: Writeback, taskId: string, goalId: string)
    requires w.VerifierWrite?
    ensures Asks(w, taskId, goalId, WriteOf(taskId, goalId, w))
  {
  }

  lemma FinalizerAsks(w: Writeback, taskId: string, goalId: string)
    requires w.FinalizerWrite?
    ensures Asks(w, taskId, goalId, WriteOf(taskId, goalId, w))
  {
  }

  lemma IntegratorAsks(w: Writeback, taskId: string, goalId: string)
    requires w.IntegratorWrite?
    ensures Asks(w, taskId, goalId, WriteOf(taskId, goalId, w))
  {
    assert MergedStatus(w.status) <==> w.status in {"merged", "ff_only_merged", "skipped", "not_required"};
  }

  lemma RepairerAsks(w: Writeback, taskId: string, goalId: string)
    requires w.RepairerWrite?
    ensures Asks(w, taskId, goalId, WriteOf(taskId, goalId, w))
  {
  }

  /** What the writer asks for has been done, or an error has cut it short. */
  ghost predicate Answered(outcome: Outcome, before: seq<Run>, after: seq<Run>, w: Writeback, taskId: string,
                           goalId: string)
  {
    exists x :: Asks(w, taskId, goalId, x) && Answers(outcome, before, after, x)
  }

  ghost predicate Answers(outcome: Outcome, before: seq<Run>, after: seq<Run>, x: Write) {
    if outcome.Errored? then AskedOrLess(before, after, x)
    else AsAsked(before, after, x) && Told(outcome, before, x)
  }

  /** Every writer but the planner and the curator supplies the one kind its role owes. */
  predicate SingleKind(w: Writeback) {
    !w.PlannerWrite? && !w.CuratorWrite?
  }

  lemma SuppliesItsKind(w: Writeback)
    requires SingleKind(w)
    ensures forall a :: a in Truthy(ArtifactsOf(w)) ==> Key(a) == RequiredKind(RoleOf(w))
  {
    assert ArtifactsOf(w) == [ArtifactsOf(w)[0]];
  }

  /** What the writers write meets the contract of their role; a context bundle does
      only if an entry of it is recognised as one. */
  lemma WritersMeetContract(w: Writeback)
    ensures !w.CuratorWrite? ==> ContractMet(RoleOf(w), ArtifactsOf(w))
    ensures w.CuratorWrite? ==>
      (ContractMet(RoleOf(w), ArtifactsOf(w)) <==>
       exists i :: 0 <= i < |w.bundle| && KindForValue(Named(w.bundle)[i]) == Some("context_bundle"))
  {
    if !w.CuratorWrite? {
      var artifacts := ArtifactsOf(w);
      OwnKindMeetsContract(RoleOf(w), artifacts, |artifacts| - 1);
    } else {
      HasKindIff(ArtifactsOf(w), "context_bundle");
    }
  }

  /** Completed, with the kind the role owes. */
  predicate Frozen(run: Run, role: Role) {
    run.status == Completed && HasKey(Truthy(run.outputArtifacts), RequiredKind(role))
  }

  /** One role write. A completed run that holds the kind a writer supplies is never
      altered by it again. */
  method WriteRole(store: Store, taskId: string, goalId: string, w: Writeback) returns (outcome: Outcome)
    requires store.Valid()
    modifies store, store.runs
    ensures store.Valid() && old(store.runs) <= store.runs
    ensures forall i :: |old(store.runs)| <= i < |store.runs| ==> fresh(store.runs[i])
    ensures WriteStep(old(store.View()), store.View(), WriteOf(taskId, goalId, w))
    ensures store.reliable ==> store.View() == Written(old(store.View()), WriteOf(taskId, goalId, w))
    // Unless it reports an error, what the writer asks for has been done.
    ensures store.reliable ==> !outcome.Errored?
    ensures Answered(outcome, old(store.View()), store.View(), w, taskId, goalId)
    ensures SingleKind(w) ==>
      forall i :: 0 <= i < |old(store.View())| && Frozen(old(store.View())[i], RoleOf(w)) ==>
        store.View()[i] == old(store.View())[i]
  {
    ghost var before := store.View();
    outcome := WriteIdempotentAgentRun(store, WriteOf(taskId, goalId, w));
    WritersAsk(w, taskId, goalId);
    StepIsAskedOrLess(before, store.View(), WriteOf(taskId, goalId, w));
    if SingleKind(w) {
      SuppliesItsKind(w);
      forall i | 0 <= i < |before| && Frozen(before[i], RoleOf(w))
        ensures store.View()[i] == before[i]
      {
        CompletedStays(before, store.View(), WriteOf(taskId, goalId, w), i);
      }
    }
  }

  // ---------------------------------------------------------------------------
  // A verification after a failed one
  // ---------------------------------------------------------------------------

  /** A verification record that says "passed". */
  predicate PassedRecord(a: Artifact) {
    a.Record? && a.kind == "verification" && a.passed == Some(true)
  }

  predicate RecordsPass(run: Run) {
    exists i :: 0 <= i < |run.outputArtifacts| && PassedRecord(run.outputArtifacts[i])
  }

  /** What is there under a key is not replaced, so a passing verification is on record
      afterwards exactly when one was before, or the run can still be written to and
      held nothing under "verification". */
  lemma PassRecordedIff(run: Run, taskId: string, goalId: string, good: Verification)
    requires PassedWithEvidence(good)
    ensures RecordsPass(RunAfter(run, WriteOf(taskId, goalId, VerifierWrite(good)))) <==>
      RecordsPass(run) || (run.status != Skipped && !HasKey(Truthy(run.outputArtifacts), "verification"))
  {
    var w := WriteOf(taskId, goalId, VerifierWrite(good));
    var held, given, after := Truthy(run.outputArtifacts), w.outputArtifacts, RunAfter(run, w);
    TruthyOfTruthy(given);
    assert given == [given[0]] && PassedRecord(given[0]) && Key(given[0]) == "verification";
    if !Settled(run, w) {
      forall a ensures a in after.outputArtifacts <==> a in held || a in Additions(held, given) {
      }
      PassIsMember(run.outputArtifacts);
      PassIsMember(after.outputArtifacts);
      assert given[0] in Additions(held, given) <==> !HasKey(held, "verification");
    } else if run.status != Skipped {
      assert given[0] !in Additions(held, given);
    }
  }

  lemma PassIsMember(artifacts: seq<Artifact>)
    ensures (exists i :: 0 <= i < |artifacts| && PassedRecord(artifacts[i])) <==>
      exists a :: a in artifacts && PassedRecord(a)
  {
    if a :| a in artifacts && PassedRecord(a) {
      var i :| 0 <= i < |artifacts| && artifacts[i] == a;
    }
  }

  /** In the store: the newest verifier run of the task records the pass exactly when
      there was no verifier run, or by that condition. */
  lemma PassStoredIff(view: seq<Run>, taskId: string, goalId: string, good: Verification)
    requires taskId != "" && PassedWithEvidence(good)
    ensures var after := Written(view, WriteOf(taskId, goalId, VerifierWrite(good)));
            var id := Latest(view, taskId, Verifier);
            var newest := Latest(after, taskId, Verifier);
            newest.Some? &&
            (RecordsPass(after[newest.value]) <==>
              || id.None? || RecordsPass(view[id.value])
              || (view[id.value].status != Skipped
                  && !HasKey(Truthy(view[id.value].outputArtifacts), "verification")))
  {
    var w := WriteOf(taskId, goalId, VerifierWrite(good));
    var id := Latest(view, taskId, Verifier);
    if id.None? {
      var after := view + [FreshRun(w)];
      TruthyOfTruthy(w.outputArtifacts);
      assert ForPair(after[|view|], taskId, Verifier) && PassedRecord(FreshRun(w).outputArtifacts[0]);
    } else {
      LatestOfUpdate(view, taskId, Verifier, id.value, RunAfter(view[id.value], w));
      PassRecordedIff(view[id.value], taskId, goalId, good);
    }
  }

  /** The failing input: after a failed and then a passed verification the run is
      completed, and its record still says that it did not pass. */
  lemma StaleVerification(taskId: string, goalId: string, bad: Verification, good: Verification)
    requires taskId != "" && !PassedWithEvidence(bad) && PassedWithEvidence(good)
    ensures var once := Written([], WriteOf(taskId, goalId, VerifierWrite(bad)));
            var twice := Written(once, WriteOf(taskId, goalId, VerifierWrite(good)));
            |twice| == 1 && twice[0].status == Completed && twice[0].outputArtifacts == ArtifactsOf(VerifierWrite(bad))
  {
    var b, g := WriteOf(taskId, goalId, VerifierWrite(bad)), WriteOf(taskId, goalId, VerifierWrite(good));
    var run := FreshRun(b);
    assert Written([], b) == [run];
    TruthyOfTruthy(b.outputArtifacts);
    TruthyOfTruthy(g.outputArtifacts);
    SuppliesItsKind(VerifierWrite(good));
    assert Key(run.outputArtifacts[0]) == "verification";
    NothingMissing(run.outputArtifacts, g.outputArtifacts);
    assert Latest([run], taskId, Verifier) == Some(0);
  }
}
