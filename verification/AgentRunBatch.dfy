/** `writeAllAgentRuns`: the writebacks run at once on one store, and a nondeterministic
    scheduler picks whose atomic step is next. */
module AgentRunBatch {
  import opened AgentRunAlone
  import opened AgentRunClashes
  import opened AgentRunInterleaving
  import opened AgentRunKinds
  import opened AgentRunSteps
  import opened AgentRunStore
  import opened AgentRunWriteback
  import opened Wrappers

  function AllStepsLeft(phases: seq<Phase>): nat {
    if phases == [] then 0 else StepsLeft(phases[0]) + AllStepsLeft(phases[1..])
  }

  lemma {:induction false} AllStepsLeftUpdate(phases: seq<Phase>, k: nat, p: Phase)
    requires k < |phases|
    ensures AllStepsLeft(phases[k := p]) == AllStepsLeft(phases) - StepsLeft(phases[k]) + StepsLeft(p)
  {
    if k == 0 {
      assert phases[0 := p][1..] == phases[1..];
    } else {
      AllStepsLeftUpdate(phases[1..], k - 1, p);
      assert phases[k := p][1..] == phases[1..][k - 1 := p];
    }
  }

  /** `listAgentRuns`. */
  method ListStep(store: Store, w: Write) returns (next: Phase, ghost fault: Fault)
    requires store.Valid() && w.taskId != ""
    ensures next == NextPhase(store.View(), w, Start, fault) && (store.reliable ==> fault == NoFault)
    ensures NextView(store.View(), w, Start, fault) == store.View()
  {
    NewestIsLatest(store.View(), w.taskId, w.role);
    var existing := store.List(w.taskId, Some(w.role), 1);
    fault := if existing.Some? then NoFault else Lost;
    next := if existing.None? then Finished else if existing.value == [] then Absent else Found(existing.value[0]);
  }

  /** The listed run is looked at as it is now. */
  method InspectStep(store: Store, w: Write, id: nat) returns (next: Phase)
    requires store.Valid() && w.taskId != "" && id < |store.runs|
    ensures next == NextPhase(store.View(), w, Found(id), NoFault)
  {
    var run := store.runs[id];
    assert run.Value() == store.View()[id];
    var held := Truthy(run.outputArtifacts);
    var additions := Additions(held, Truthy(w.outputArtifacts));
    if run.status == Skipped || (run.status == Completed && additions == []) {
      next := Finished;
    } else {
      next := Completing(id, held + additions, if w.summary != "" then w.summary else run.summary);
    }
  }

  /** `createAgentRun`. */
  method CreateStep(store: Store, w: Write) returns (next: Phase, ghost fault: Fault)
    requires store.Valid() && w.taskId != ""
    modifies store
    ensures store.Valid() && old(store.runs) <= store.runs
    ensures forall i :: |old(store.runs)| <= i < |store.runs| ==> fresh(store.runs[i])
    ensures store.View() == NextView(old(store.View()), w, Absent, fault)
    ensures next == NextPhase(old(store.View()), w, Absent, fault) && (store.reliable ==> fault == NoFault)
  {
    ghost var before := store.View();
    var id := store.Create(w.taskId, w.goalId, w.role, Running, Truthy(w.outputArtifacts), w.summary);
    fault := if id.Some? then NoFault else if store.View() == before then Lost else Unsaved;
    next := if id.Some? && Closes(w) then Open(id.value) else Finished;
  }

  /** `completeAgentRun`, for an existing run or the one just created. */
  method CompleteStep(store: Store, w: Write, p: Phase) returns (ghost fault: Fault)
    requires store.Valid() && w.taskId != "" && (p.Completing? || p.Open?) && p.id < |store.runs|
    modifies store.runs
    ensures store.Valid()
    ensures store.View() == NextView(old(store.View()), w, p, fault) && (store.reliable ==> fault == NoFault)
  {
    ghost var before := store.View();
    var artifacts := if p.Completing? then p.artifacts else Truthy(w.outputArtifacts);
    var summary := if p.Completing? then p.summary else w.summary;
    var ok := store.Complete(p.id, w.status, artifacts, summary);
    fault := if ok then NoFault else if store.View() == before then Lost else Unsaved;
  }

  /** The next atomic step of one write is the step of the schedules. */
  method Step(store: Store, w: Write, p: Phase) returns (next: Phase, ghost fault: Fault)
    requires store.Valid() && p != Finished && InHand(store.View(), w, p)
    modifies store, store.runs
    ensures store.Valid() && old(store.runs) <= store.runs
    ensures forall i :: |old(store.runs)| <= i < |store.runs| ==> fresh(store.runs[i])
    ensures store.View() == NextView(old(store.View()), w, p, fault)
    ensures next == NextPhase(old(store.View()), w, p, fault) && (store.reliable ==> fault == NoFault)
  {
    next, fault := Finished, NoFault;
    if w.taskId != "" {
      match p
      case Start => next, fault := ListStep(store, w);
      case Found(id) => next := InspectStep(store, w, id);
      case Absent => next, fault := CreateStep(store, w);
      case Completing(_, _, _) => fault := CompleteStep(store, w, p);
      case Open(_) => fault := CompleteStep(store, w, p);
    }
  }

  /** All writes at once, in any interleaving of their steps, whatever fails. The store
      ends as some complete schedule leaves it, and so has what every schedule keeps:
      what a write asks for that is the only one for its pair; one run per pair unless two
      writes meet on a pair without a run; without faults each pair of distinct ones
      written once, and all that was supplied for safe pairs. */
  method WriteAllAgentRuns(store: Store, ws: seq<Write>) returns (ghost turns: seq<Turn>)
    requires store.Valid()
    modifies store, store.runs
    ensures store.Valid() && Complete(old(store.View()), ws, turns)
    ensures store.View() == ViewAfter(old(store.View()), ws, turns) && (store.reliable ==> Faultless(turns))
    ensures forall k :: Lone(ws, k) ==> LoneResult(old(store.View()), store.View(), ws[k], store.reliable)
    ensures Unique(old(store.View())) && !AbsentClash(old(store.View()), ws) ==> Unique(store.View())
    ensures store.reliable && NoClash(ws) ==> EachWrittenOnce(old(store.View()), store.View(), ws)
    ensures (forall taskId, role :: taskId != "" ==> PairSafe(old(store.View()), ws, taskId, role)) ==>
      AllKept(store.View(), ws, FailedWrites(turns))
    ensures ArtifactsStay(old(store.View()), store.View())
  {
    ghost var before := store.View();
    turns := Run(store, ws);
    UniqueOrClash(before, ws, turns);
    if store.reliable && NoClash(ws) {
      EveryScheduleWritesOnce(before, ws, turns);
    }
    HeldBeforeKept(before, ws, turns);
    forall k | Lone(ws, k) ensures LoneResult(before, store.View(), ws[k], store.reliable) {
      LoneAsAsked(before, ws, turns, k);
    }
    if forall taskId, role :: taskId != "" ==> PairSafe(before, ws, taskId, role) {
      SafeKeepsAll(before, ws, turns);
    }
  }

  lemma UniqueOrClash(view: seq<Run>, ws: seq<Write>, turns: seq<Turn>)
    ensures Unique(view) && !AbsentClash(view, ws) ==> Unique(ViewAfter(view, ws, turns))
  {
    if Unique(view) && !AbsentClash(view, ws) {
      ScheduleUnique(view, ws, turns);
    }
  }

  /** The scheduler. */
  method Run(store: Store, ws: seq<Write>) returns (ghost turns: seq<Turn>)
    requires store.Valid()
    modifies store, store.runs
    ensures store.Valid() && Complete(old(store.View()), ws, turns)
    ensures store.View() == ViewAfter(old(store.View()), ws, turns) && (store.reliable ==> Faultless(turns))
  {
    ghost var before := store.View();
    var phases := seq(|ws|, _ => Start);
    turns := [];
    while exists k :: 0 <= k < |ws| && phases[k] != Finished
      invariant store.Valid() && old(store.runs) <= store.runs && |phases| == |ws|
      invariant forall i :: |old(store.runs)| <= i < |store.runs| ==> fresh(store.runs[i])
      invariant Exec(Init(before, ws), ws, turns) == System(store.View(), phases)
      invariant store.reliable ==> Faultless(turns)
      decreases AllStepsLeft(phases)
    {
      var k :| 0 <= k < |ws| && phases[k] != Finished;
      ScheduleInHand(before, ws, turns);
      assert InHand(store.View(), ws[k], phases[k]);
      ghost var now := store.View();
      ghost var fault;
      var next;
      next, fault := Step(store, ws[k], phases[k]);
      ExecOne(Init(before, ws), ws, turns, Turn(k, fault));
      AllStepsLeftUpdate(phases, k, next);
      assert StepOf(System(now, phases), ws, Turn(k, fault)) == System(store.View(), phases[k := next]);
      turns := turns + [Turn(k, fault)];
      phases := phases[k := next];
    }
  }
}
