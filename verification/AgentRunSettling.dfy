/** Settling the runs of a finished task that are still queued, from the evidence of
    its result. */
module AgentRunSettling {
  import opened AgentArtifacts
  import opened AgentRunStore
  import opened AgentRunWriteback
  import opened AgentRunRoles
  import opened Wrappers

  // ---------------------------------------------------------------------------
  // What becomes of one queued run
  // ---------------------------------------------------------------------------

  function BuildRoleOutputArtifacts(role: Role, r: TaskResult): seq<Artifact> {
    match role
    case Builder => [OfKind("change_summary")]
    case Verifier =>
      [Record("verification", "", "", false, Some(r.verification.passed), "", r.verification.commandsCount)]
    case Reviewer =>
      [Record("reviewer_decision", "", "", false, Some(r.reviewAccepted), OrElse(r.reviewStatus, "unknown"), 0)]
    case Integrator => [Record("integration", "", "", false, None, OrElse(r.integrationStatus, "unknown"), 0)]
    case Finalizer => [Record("result", "", "", false, None, OrElse(r.status, "completed"), 0)]
    case ContextCurator => [OfKind("context_curator")]
    case Planner => [OfKind("planner")]
    case Repairer => [OfKind("repairer")]
  }

  predicate FileBacked(role: Role) {
    role == ContextCurator || role == Planner
  }

  /** The write that settles a queued run from evidence. */
  function EvidenceWrite(taskId: string, goalId: string, role: Role, r: TaskResult, note: Role -> string): Write {
    if role == Verifier then WriteOf(taskId, goalId, VerifierWrite(r.verification))
    else Write(taskId, goalId, role, Some(Completed), BuildRoleOutputArtifacts(role, r), note(role))
  }

  /** `note` gives the summary line a role is settled with. */
  function Settle(run: Run, goalId: string, r: TaskResult, note: Role -> string): Run {
    if FileBacked(run.contractRole) then
      AsCompleted(run, Some(Completed), [OfKind(RequiredKind(run.contractRole))], note(run.contractRole))
    else if r.present then RunAfter(run, EvidenceWrite(run.taskId, goalId, run.contractRole, r, note))
    else AsCompleted(run, Some(Skipped), [], note(run.contractRole))
  }

  /** No settled run is queued. A queued verifier is completed exactly by a passing
      report with at least one command, failed by any other and skipped without one. */
  lemma SettledStatus(run: Run, goalId: string, r: TaskResult, note: Role -> string)
    requires run.status == Queued
    ensures Settle(run, goalId, r, note).status != Queued
    ensures run.contractRole == Verifier ==>
      Settle(run, goalId, r, note).status
      == if !r.present then Skipped
         else if r.verification.passed && r.verification.commandsCount > 0 then Completed
         else Failed
    ensures run.contractRole != Verifier ==>
      (Settle(run, goalId, r, note).status == Completed <==> FileBacked(run.contractRole) || r.present)
  {
  }

  lemma EvidenceOnEmpty(run: Run, w: Write)
    requires run.status == Queued && run.outputArtifacts == []
    requires |w.outputArtifacts| == 1 && w.outputArtifacts[0].Record?
    ensures RunAfter(run, w).outputArtifacts == w.outputArtifacts
  {
    TruthyOfTruthy(w.outputArtifacts);
    assert Additions([], w.outputArtifacts) == [w.outputArtifacts[0]] + Additions([], []);
  }

  lemma RepairerKind(artifacts: seq<Artifact>)
    requires artifacts == [OfKind("repairer")]
    ensures !ContractMet(Repairer, artifacts)
  {
    assert KindForValue(artifacts[0]) == None;
    HasKindIff(artifacts, RequiredKind(Repairer));
  }

  /** A queued run without artifacts that is completed meets the contract of its role,
      except a repairer, which is given the kind "repairer" instead of "repair". */
  lemma SettledContract(run: Run, goalId: string, r: TaskResult, note: Role -> string)
    requires run.status == Queued && run.outputArtifacts == []
    requires Settle(run, goalId, r, note).status == Completed
    ensures ContractMet(run.contractRole, Settle(run, goalId, r, note).outputArtifacts)
      <==> run.contractRole != Repairer
  {
    var role, after := run.contractRole, Settle(run, goalId, r, note).outputArtifacts;
    if !FileBacked(role) {
      EvidenceOnEmpty(run, EvidenceWrite(run.taskId, goalId, role, r, note));
    }
    if role == Repairer {
      RepairerKind(after);
    } else {
      OwnKindMeetsContract(role, after, 0);
    }
  }

  // What a queued run becomes, in terms of the runs and the result alone.

  /** The record of a kind with nothing else said. */
  ghost predicate Bare(a: Artifact, kind: string) {
    a == Record(kind, "", "", false, None, "", 0)
  }

  /** What the result says of a role other than the verifier's and the two that have
      files behind them. */
  ghost predicate Says(r: TaskResult, role: Role, a: Artifact) {
    match role
    case Builder => Bare(a, "change_summary")
    case Reviewer =>
      var status := if r.reviewStatus != "" then r.reviewStatus else "unknown";
      a == Record("reviewer_decision", "", "", false, Some(r.reviewAccepted), status, 0)
    case Integrator =>
      var status := if r.integrationStatus != "" then r.integrationStatus else "unknown";
      a == Record("integration", "", "", false, None, status, 0)
    case Finalizer =>
      var status := if r.status != "" then r.status else "completed";
      a == Record("result", "", "", false, None, status, 0)
    case Repairer => Bare(a, "repairer")
    case _ => false
  }

  /** What settling asks for a run that evidence decides. */
  ghost predicate EvidenceAsks(run: Run, goalId: string, r: TaskResult, note: Role -> string, w: Write) {
    if run.contractRole == Verifier then Asks(VerifierWrite(r.verification), run.taskId, goalId, w)
    else
      && w.taskId == run.taskId && w.goalId == goalId && w.role == run.contractRole && w.status == Some(Completed)
      && w.summary == note(run.contractRole)
      && |w.outputArtifacts| == 1 && Says(r, run.contractRole, w.outputArtifacts[0])
  }

  /** Completed with a placeholder where files are behind the role, written to by what the
      result says where there is one, and skipped empty-handed otherwise. */
  ghost predicate SettledAs(before: Run, after: Run, goalId: string, r: TaskResult, note: Role -> string) {
    var role := before.contractRole;
    var words := if note(role) != "" then note(role) else before.summary;
    if role in {ContextCurator, Planner} then
      && after == before.(status := Completed, summary := words, outputArtifacts := after.outputArtifacts)
      && |after.outputArtifacts| == 1
      && Bare(after.outputArtifacts[0], if role == ContextCurator then "context_bundle" else "plan")
    else if r.present then exists w :: EvidenceAsks(before, goalId, r, note, w) && DoneTo(before, after, w)
    else after == before.(status := Skipped, summary := words, outputArtifacts := [])
  }

  lemma SettleAsTold(run: Run, goalId: string, r: TaskResult, note: Role -> string)
    ensures SettledAs(run, Settle(run, goalId, r, note), goalId, r, note)
  {
    if !FileBacked(run.contractRole) && r.present {
      var w := EvidenceWrite(run.taskId, goalId, run.contractRole, r, note);
      if run.contractRole == Verifier {
        WritersAsk(VerifierWrite(r.verification), run.taskId, goalId);
      }
      assert EvidenceAsks(run, goalId, r, note, w);
      AfterIsDone(run, w);
    }
  }

  // ---------------------------------------------------------------------------
  // completeQueuedAgentRuns
  // ---------------------------------------------------------------------------

  predicate Pending(run: Run, taskId: string) {
    run.taskId == taskId && run.status == Queued
  }

  function QueuedAmong(view: seq<Run>, ids: seq<nat>): (queued: seq<nat>)
    requires forall k :: 0 <= k < |ids| ==> ids[k] < |view|
    ensures |queued| <= |ids|
    ensures forall k :: 0 <= k < |queued| ==> queued[k] < |view|
    ensures forall id :: id in queued <==> id in ids && view[id].status == Queued
  {
    if ids == [] then []
    else (if view[ids[0]].status == Queued then [ids[0]] else []) + QueuedAmong(view, ids[1..])
  }

  predicate NoRepeats(ids: seq<nat>) {
    forall j, k :: 0 <= j < k < |ids| ==> ids[j] != ids[k]
  }

  lemma {:induction false} ListedOnce(view: seq<Run>, taskId: string, role: Option<Role>)
    ensures NoRepeats(NewestFirst(view, taskId, role))
  {
    if view != [] {
      ListedOnce(view[..|view| - 1], taskId, role);
    }
  }

  lemma {:induction false} QueuedOnce(view: seq<Run>, ids: seq<nat>)
    requires forall k :: 0 <= k < |ids| ==> ids[k] < |view|
    requires NoRepeats(ids)
    ensures NoRepeats(QueuedAmong(view, ids))
  {
    if ids != [] {
      assert NoRepeats(ids[1..]);
      QueuedOnce(view, ids[1..]);
      assert ids[0] !in ids[1..];
    }
  }

  /** Every run as it would be settled. */
  function SettledRuns(view: seq<Run>, goalId: string, r: TaskResult, note: Role -> string): (target: seq<Run>)
    ensures |target| == |view|
  {
    if view == [] then []
    else SettledRuns(view[..|view| - 1], goalId, r, note) + [Settle(view[|view| - 1], goalId, r, note)]
  }

  lemma {:induction false} SettledAt(view: seq<Run>, goalId: string, r: TaskResult, note: Role -> string, i: nat)
    requires i < |view|
    ensures SettledRuns(view, goalId, r, note)[i] == Settle(view[i], goalId, r, note)
  {
    if i < |view| - 1 {
      SettledAt(view[..|view| - 1], goalId, r, note, i);
    }
  }

  /** The runs tried so far are as in `target`, if all went well; the others are as before. */
  ghost predicate SettledSoFar(before: seq<Run>, now: seq<Run>, target: seq<Run>, tried: seq<nat>, all: bool) {
    && |now| == |before| == |target|
    && (forall i :: 0 <= i < |before| && i !in tried ==> now[i] == before[i])
    && (forall i :: 0 <= i < |before| && i in tried ==> now[i] == target[i] || (!all && now[i] == before[i]))
  }

  lemma WriteOnLatest(before: seq<Run>, after: seq<Run>, w: Write, id: nat)
    requires WriteStep(before, after, w) && Latest(before, w.taskId, w.role) == Some(id)
    ensures after == before || after == before[id := RunAfter(before[id], w)]
  {
    assert |after| == |before|;
    if after[id] == before[id] {
      assert after == before;
    } else {
      assert after == before[id := RunAfter(before[id], w)];
    }
  }

  /** One turn of the loop, for a run that is the newest of its pair. A writer returns
      its error as a value, so its turn counts even then. */
  method SettleOne(store: Store, id: nat, taskId: string, goalId: string, r: TaskResult, note: Role -> string)
    returns (counted: bool)
    requires store.Valid() && id < |store.runs|
    modifies store, store.runs
    ensures store.Valid() && old(store.runs) <= store.runs
    ensures forall i :: |old(store.runs)| <= i < |store.runs| ==> fresh(store.runs[i])
    ensures taskId != "" && Latest(old(store.View()), taskId, old(store.View())[id].contractRole) == Some(id) ==>
      var settled := old(store.View())[id := Settle(old(store.View())[id], goalId, r, note)];
      store.View() == settled || (!store.reliable && store.View() == old(store.View()))
    ensures Unique(old(store.View())) ==> Unique(store.View())
    ensures store.reliable ==> counted
    // Without a task id the writers do nothing, which still counts.
    ensures taskId == "" && r.present && !FileBacked(old(store.View())[id].contractRole) ==>
      store.View() == old(store.View()) && counted
  {
    ghost var before := store.View();
    var role := store.runs[id].contractRole;
    assert before[id] == store.runs[id].Value();
    if FileBacked(role) {
      counted := store.Complete(id, Some(Completed), [OfKind(RequiredKind(role))], note(role));
    } else if r.present {
      var w := EvidenceWrite(taskId, goalId, role, r, note);
      var outcome := WriteIdempotentAgentRun(store, w);
      if Unique(before) {
        UniqueKept(before, store.View(), w);
      }
      if Latest(before, taskId, role) == Some(id) {
        WriteOnLatest(before, store.View(), w, id);
      }
      counted := true;
    } else {
      counted := store.Complete(id, Some(Skipped), [], note(role));
    }
  }

  /** What the loop relies on: one run per pair, and every id to try is a queued run of
      the task, once. */
  ghost predicate Settling(before: seq<Run>, target: seq<Run>, queued: seq<nat>, taskId: string) {
    && Unique(before) && taskId != "" && NoRepeats(queued) && |target| == |before|
    && (forall k :: 0 <= k < |queued| ==> queued[k] < |before| && Pending(before[queued[k]], taskId))
    && (forall i :: 0 <= i < |before| ==> ForPair(target[i], before[i].taskId, before[i].contractRole))
  }

  /** One turn, on top of what the turns before it have settled. */
  method SettleTurn(store: Store, queued: seq<nat>, k: nat, taskId: string, goalId: string, r: TaskResult,
                    note: Role -> string, ghost before: seq<Run>, ghost target: seq<Run>)
    returns (counted: bool)
    requires store.Valid() && k < |queued| && queued[k] < |store.runs|
    requires target == SettledRuns(before, goalId, r, note)
    modifies store, store.runs
    ensures store.Valid() && old(store.runs) <= store.runs
    ensures forall i :: |old(store.runs)| <= i < |store.runs| ==> fresh(store.runs[i])
    ensures Settling(before, target, queued, taskId)
        && SettledSoFar(before, old(store.View()), target, queued[..k], store.reliable)
      ==> SettledSoFar(before, store.View(), target, queued[..k + 1], store.reliable)
    ensures Unique(old(store.View())) ==> Unique(store.View())
    ensures store.reliable ==> counted
  {
    ghost var now := store.View();
    counted := SettleOne(store, queued[k], taskId, goalId, r, note);
    if Settling(before, target, queued, taskId) && SettledSoFar(before, now, target, queued[..k], store.reliable) {
      StillBefore(before, now, target, taskId, queued, k, store.reliable);
      SettledAt(before, goalId, r, note, queued[k]);
      OneMoreSettled(before, now, store.View(), target, queued, k, store.reliable);
    }
  }

  /** The loop over the queued runs. */
  method SettleLoop(store: Store, queued: seq<nat>, taskId: string, goalId: string, r: TaskResult, note: Role -> string,
                    ghost before: seq<Run>, ghost target: seq<Run>)
    returns (completed: nat)
    requires store.Valid() && before == store.View() && target == SettledRuns(before, goalId, r, note)
    requires forall k :: 0 <= k < |queued| ==> queued[k] < |before|
    modifies store, store.runs
    ensures store.Valid() && old(store.runs) <= store.runs
    ensures forall i :: |old(store.runs)| <= i < |store.runs| ==> fresh(store.runs[i])
    ensures Unique(old(store.View())) ==> Unique(store.View())
    ensures completed <= |queued| && (store.reliable ==> completed == |queued|)
    ensures Settling(before, target, queued, taskId) ==>
      SettledSoFar(before, store.View(), target, queued, store.reliable)
  {
    completed := 0;
    for k := 0 to |queued|
      invariant store.Valid() && old(store.runs) <= store.runs
      invariant forall i :: |old(store.runs)| <= i < |store.runs| ==> fresh(store.runs[i])
      invariant Unique(before) ==> Unique(store.View())
      invariant completed <= k && (store.reliable ==> completed == k)
      invariant Settling(before, target, queued, taskId) ==>
        SettledSoFar(before, store.View(), target, queued[..k], store.reliable)
    {
      var counted := SettleTurn(store, queued, k, taskId, goalId, r, note, before, target);
      completed := completed + (if counted then 1 else 0);
    }
    assert queued[..|queued|] == queued;
  }

  datatype Report = Report(completed: nat, skipped: nat)

  /** The runs of the task that were queued, and only they, are settled. */
  ghost predicate AllSettled(before: seq<Run>, after: seq<Run>, taskId: string, goalId: string, r: TaskResult,
                             note: Role -> string, all: bool)
  {
    && |after| == |before|
    && (forall i :: 0 <= i < |before| && !Pending(before[i], taskId) ==> after[i] == before[i])
    && (forall i :: 0 <= i < |before| && Pending(before[i], taskId) ==>
         after[i] == SettledRuns(before, goalId, r, note)[i] || (!all && after[i] == before[i]))
  }

  /** The queued runs of the task become what is told of them, and no other run changes. */
  ghost predicate ToldOfAll(before: seq<Run>, after: seq<Run>, taskId: string, goalId: string, r: TaskResult,
                            note: Role -> string, all: bool)
  {
    && |after| == |before|
    && forall i :: 0 <= i < |before| ==>
         if before[i].taskId == taskId && before[i].status == Queued
         then SettledAs(before[i], after[i], goalId, r, note) || (!all && after[i] == before[i])
         else after[i] == before[i]
  }

  lemma AllAsTold(before: seq<Run>, after: seq<Run>, taskId: string, goalId: string, r: TaskResult,
                  note: Role -> string, all: bool)
    requires AllSettled(before, after, taskId, goalId, r, note, all)
    ensures ToldOfAll(before, after, taskId, goalId, r, note, all)
  {
    forall i | 0 <= i < |before| && Pending(before[i], taskId)
      ensures SettledAs(before[i], after[i], goalId, r, note) || (!all && after[i] == before[i])
    {
      SettledAt(before, goalId, r, note, i);
      SettleAsTold(before[i], goalId, r, note);
    }
  }

  lemma SettledAll(before: seq<Run>, after: seq<Run>, taskId: string, goalId: string, r: TaskResult,
                   note: Role -> string, queued: seq<nat>, all: bool)
    requires forall i :: 0 <= i < |before| ==> (i in queued <==> Pending(before[i], taskId))
    requires SettledSoFar(before, after, SettledRuns(before, goalId, r, note), queued, all)
    ensures AllSettled(before, after, taskId, goalId, r, note, all)
    ensures ToldOfAll(before, after, taskId, goalId, r, note, all)
  {
    AllAsTold(before, after, taskId, goalId, r, note, all);
  }

  /** No queued run of the task is left by a store that does not fail. */
  lemma NoneLeftQueued(before: seq<Run>, after: seq<Run>, taskId: string, goalId: string, r: TaskResult,
                       note: Role -> string)
    requires AllSettled(before, after, taskId, goalId, r, note, true)
    ensures forall i :: 0 <= i < |after| ==> !Pending(after[i], taskId)
  {
    forall i | 0 <= i < |after| ensures !Pending(after[i], taskId) {
      if Pending(before[i], taskId) {
        SettledAt(before, goalId, r, note, i);
        SettledStatus(before[i], goalId, r, note);
      }
    }
  }

  lemma AllPending(view: seq<Run>, taskId: string, ids: seq<nat>, queued: seq<nat>)
    requires Unique(view) && taskId != "" && ids == Newest(view, taskId, None, 100) && queued == QueuedAmong(view, ids)
    ensures ids == NewestFirst(view, taskId, None)
    ensures forall i :: 0 <= i < |view| ==> (i in queued <==> Pending(view[i], taskId))
  {
    ListingComplete(view, taskId, 100);
    forall i | 0 <= i < |view| ensures i in queued <==> Pending(view[i], taskId) {
      NewestFirstSelects(view, taskId, None, i);
    }
  }

  function ToSettle(view: seq<Run>, taskId: string): set<nat> {
    set i: nat | i < |view| && view[i].taskId == taskId && view[i].status == Queued
  }

  lemma {:induction false} CountOnce(ids: seq<nat>, s: set<nat>)
    requires NoRepeats(ids) && forall i :: i in ids <==> i in s
    ensures |ids| == |s|
  {
    if ids != [] {
      assert ids[0] in s && NoRepeats(ids[1..]);
      forall i | i in ids[1..] ensures i in s - {ids[0]} {
        var k :| 0 <= k < |ids[1..]| && ids[1..][k] == i;
        assert ids[0] != ids[k + 1];
      }
      CountOnce(ids[1..], s - {ids[0]});
    } else {
      assert s == {};
    }
  }

  lemma ReadyToSettle(before: seq<Run>, taskId: string, goalId: string, r: TaskResult, note: Role -> string,
                      ids: seq<nat>, queued: seq<nat>)
    requires Unique(before) && taskId != "" && ids == Newest(before, taskId, None, 100)
      && queued == QueuedAmong(before, ids)
    ensures Settling(before, SettledRuns(before, goalId, r, note), queued, taskId)
    ensures forall i :: 0 <= i < |before| ==> (i in queued <==> Pending(before[i], taskId))
    ensures |ids| == |NewestFirst(before, taskId, None)| && |queued| == |ToSettle(before, taskId)|
  {
    ListedOnce(before, taskId, None);
    AllPending(before, taskId, ids, queued);
    QueuedOnce(before, ids);
    CountOnce(queued, ToSettle(before, taskId));
    TargetPairs(before, goalId, r, note);
  }

  /** `report` is nothing when the runs cannot be listed. */
  method CompleteQueuedAgentRuns(store: Store, taskId: string, goalId: string, r: TaskResult, note: Role -> string)
    returns (report: Option<Report>)
    requires store.Valid()
    modifies store, store.runs
    ensures store.Valid() && old(store.runs) <= store.runs
    ensures forall i :: |old(store.runs)| <= i < |store.runs| ==> fresh(store.runs[i])
    ensures Unique(old(store.View())) ==> Unique(store.View())
    ensures store.reliable ==> report.Some?
    // Every queued run of the task is settled and no other run changes; a failing
    // store may leave some queued.
    ensures Unique(old(store.View())) && taskId != "" && report.Some? ==>
      && AllSettled(old(store.View()), store.View(), taskId, goalId, r, note, store.reliable)
      && ToldOfAll(old(store.View()), store.View(), taskId, goalId, r, note, store.reliable)
    // The counts add up to the runs of the task; the first is that of the queued ones.
    ensures Unique(old(store.View())) && taskId != "" && store.reliable ==>
      && report.value.completed + report.value.skipped == |NewestFirst(old(store.View()), taskId, None)|
      && report.value.completed == |ToSettle(old(store.View()), taskId)|
  {
    ghost var before := store.View();
    var listed := store.List(taskId, None, 100);
    if listed.None? {
      return None;
    }
    var ids := listed.value;
    var queued := QueuedAmong(store.View(), ids);
    if Unique(before) && taskId != "" {
      ReadyToSettle(before, taskId, goalId, r, note, ids, queued);
    }
    if |queued| == 0 {
      if Unique(before) && taskId != "" {
        SettledAll(before, before, taskId, goalId, r, note, queued, store.reliable);
      }
      return Some(Report(0, |ids|));
    }
    var completed := SettleLoop(store, queued, taskId, goalId, r, note, before, SettledRuns(before, goalId, r, note));
    if Unique(before) && taskId != "" {
      SettledAll(before, store.View(), taskId, goalId, r, note, queued, store.reliable);
    }
    report := Some(Report(completed, |ids| - |queued|));
  }

  /** The next run to settle is untouched and the newest, being the only one, of its pair. */
  lemma StillBefore(before: seq<Run>, now: seq<Run>, target: seq<Run>, taskId: string, queued: seq<nat>, k: nat,
                    all: bool)
    requires Settling(before, target, queued, taskId) && k < |queued|
    requires SettledSoFar(before, now, target, queued[..k], all)
    ensures now[queued[k]] == before[queued[k]]
    ensures Latest(now, taskId, now[queued[k]].contractRole) == Some(queued[k])
  {
    var id := queued[k];
    assert id !in queued[..k];
    forall i | 0 <= i < |before| ensures ForPair(now[i], before[i].taskId, before[i].contractRole) {
      assert ForPair(target[i], before[i].taskId, before[i].contractRole);
    }
    assert ForPair(now[id], taskId, now[id].contractRole);
  }

  lemma OneMoreSettled(before: seq<Run>, now: seq<Run>, after: seq<Run>, target: seq<Run>, queued: seq<nat>, k: nat,
                       all: bool)
    requires k < |queued| && queued[k] < |before|
    requires SettledSoFar(before, now, target, queued[..k], all)
    requires now[queued[k]] == before[queued[k]]
    requires after == now[queued[k] := target[queued[k]]] || (!all && after == now)
    ensures SettledSoFar(before, after, target, queued[..k + 1], all)
  {
    assert queued[..k + 1] == queued[..k] + [queued[k]];
  }

  lemma {:induction false} TargetPairs(view: seq<Run>, goalId: string, r: TaskResult, note: Role -> string)
    ensures forall i :: 0 <= i < |view| ==>
      ForPair(SettledRuns(view, goalId, r, note)[i], view[i].taskId, view[i].contractRole)
  {
    forall i | 0 <= i < |view|
      ensures ForPair(SettledRuns(view, goalId, r, note)[i], view[i].taskId, view[i].contractRole)
    {
      SettledAt(view, goalId, r, note, i);
    }
  }
}
