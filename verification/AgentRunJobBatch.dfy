/** Writes, skips and settlings at once on one store: the store operations of the jobs are
    the steps of their schedules. */
module AgentRunJobBatch {
  import opened AgentArtifacts
  import opened AgentRunBatch
  import opened AgentRunClashes
  import opened AgentRunJobClashes
  import opened AgentRunJobs
  import opened AgentRunPipeline
  import opened AgentRunRoles
  import opened AgentRunSettling
  import opened AgentRunSteps
  import opened AgentRunStore
  import opened AgentRunWriteback
  import opened Wrappers

  /** One completion, as the store lets it happen. */
  method CompleteRun(store: Store, id: nat, status: Status, artifacts: seq<Artifact>, summary: string)
    returns (ok: bool, ghost fault: Fault)
    requires store.Valid() && id < |store.runs|
    modifies store.runs
    ensures store.Valid() && (store.reliable ==> ok) && (ok <==> fault == NoFault)
    ensures store.View() == if fault.Lost? then old(store.View())
                            else CompletedAt(old(store.View()), id, Some(status), artifacts, summary)
  {
    ghost var before := store.View();
    ok := store.Complete(id, Some(status), artifacts, summary);
    fault := if ok then NoFault else if store.View() == before then Lost else Unsaved;
  }

  /** The lookup among the listed runs. */
  method FindListed(store: Store, ids: seq<nat>, role: Role) returns (id: Option<nat>)
    requires store.Valid() && forall i :: i in ids ==> i < |store.runs|
    ensures id == FindRole(store.View(), ids, role)
  {
    id := None;
    var k := |ids|;
    assert ids[k..] == [];
    while k > 0
      invariant k <= |ids| && id == FindRole(store.View(), ids[k..], role)
    {
      k := k - 1;
      assert ids[k] in ids && ids[k..][1..] == ids[k + 1..];
      assert store.runs[ids[k]].Value() == store.View()[ids[k]];
      if store.runs[ids[k]].contractRole == role { id := Some(ids[k]); }
    }
    assert ids[0..] == ids;
  }

  /** A step of a skip. */
  method SkipStep(store: Store, job: Job, st: JobState) returns (next: JobState, ghost fault: Fault)
    requires store.Valid() && job.SkipJob? && st != Ended && StateOk(store.View(), job, st)
    modifies store, store.runs
    ensures store.Valid() && old(store.runs) <= store.runs
    ensures forall i :: |old(store.runs)| <= i < |store.runs| ==> fresh(store.runs[i])
    ensures store.View() == NextStore(old(store.View()), job, st, fault)
    ensures next == NextState(old(store.View()), job, st, fault) && (store.reliable ==> fault == NoFault)
  {
    ghost var before := store.View();
    next, fault := Ended, NoFault;
    match st
    case SkipStart =>
      if job.taskId != "" {
        var listed := store.List(job.taskId, None, 100);
        fault := if listed.Some? then NoFault else Lost;
        next := if listed.Some? then Skipping(listed.value, 0) else Ended;
      }
    case Skipping(listed, k) => next := LookStep(store, job, listed, k);
    case SkipAdding(listed, k) =>
      var id := store.Create(job.taskId, job.goalId, job.roles[k], Queued, [], "");
      fault := if id.Some? then NoFault else if store.View() == before then Lost else Unsaved;
      next := if id.Some? then SkipClosing(listed, k, id.value) else Ended;
    case SkipClosing(listed, k, id) =>
      var ok;
      ok, fault := CompleteRun(store, id, Status.Skipped, [OfKind("pipeline_blocker")], job.note(job.roles[k]));
      next := if ok then Skipping(listed, k + 1) else Ended;
    case _ =>
  }

  /** Looking at the run of the next role. */
  method LookStep(store: Store, job: Job, listed: seq<nat>, k: nat) returns (next: JobState)
    requires store.Valid() && job.SkipJob? && StateOk(store.View(), job, Skipping(listed, k))
    ensures next == NextState(store.View(), job, Skipping(listed, k), NoFault)
  {
    if k >= |job.roles| {
      next := Ended;
    } else {
      var found := FindListed(store, listed, job.roles[k]);
      if found.None? {
        next := SkipAdding(listed, k);
      } else {
        var run := store.runs[found.value];
        assert run.Value() == store.View()[found.value];
        next := if run.status == Completed || run.status == Status.Skipped then Skipping(listed, k + 1)
                else SkipClosing(listed, k, found.value);
      }
    }
  }

  /** A step of a settling. */
  method SettleStep(store: Store, job: Job, st: JobState) returns (next: JobState, ghost fault: Fault)
    requires store.Valid() && job.SettleJob? && st != Ended && StateOk(store.View(), job, st)
    modifies store, store.runs
    ensures store.Valid() && old(store.runs) <= store.runs
    ensures forall i :: |old(store.runs)| <= i < |store.runs| ==> fresh(store.runs[i])
    ensures store.View() == NextStore(old(store.View()), job, st, fault)
    ensures next == NextState(old(store.View()), job, st, fault) && (store.reliable ==> fault == NoFault)
  {
    next, fault := Ended, NoFault;
    match st
    case SettleStart =>
      var listed := store.List(job.taskId, None, 100);
      fault := if listed.Some? then NoFault else Lost;
      if listed.Some? {
        next := Settling(QueuedAmong(store.View(), listed.value), 0, Start);
      }
    case Settling(queued, k, inner) =>
      if k < |queued| {
        next, fault := SettleRun(store, job, queued, k, inner);
      }
    case _ =>
  }

  /** A step of settling one run: its completion, or a step of its write. */
  method SettleRun(store: Store, job: Job, queued: seq<nat>, k: nat, inner: Phase)
    returns (next: JobState, ghost fault: Fault)
    requires store.Valid() && job.SettleJob? && k < |queued| && StateOk(store.View(), job, Settling(queued, k, inner))
    modifies store, store.runs
    ensures store.Valid() && old(store.runs) <= store.runs
    ensures forall i :: |old(store.runs)| <= i < |store.runs| ==> fresh(store.runs[i])
    ensures store.View() == NextStore(old(store.View()), job, Settling(queued, k, inner), fault)
    ensures next == NextState(old(store.View()), job, Settling(queued, k, inner), fault)
    ensures store.reliable ==> fault == NoFault
  {
    var id := queued[k];
    assert store.runs[id].Value() == store.View()[id];
    var role := store.runs[id].contractRole;
    if FileBacked(role) {
      var ok;
      ok, fault := CompleteRun(store, id, Completed, [OfKind(RequiredKind(role))], job.note(role));
      next := Settling(queued, k + 1, Start);
    } else if !job.result.present {
      var ok;
      ok, fault := CompleteRun(store, id, Status.Skipped, [], job.note(role));
      next := Settling(queued, k + 1, Start);
    } else if inner == Finished {
      fault := NoFault;
      next := Settling(queued, k + 1, Start);
    } else {
      var phase;
      phase, fault := Step(store, SettlingWrite(job, role), inner);
      next := if phase.Finished? then Settling(queued, k + 1, Start) else Settling(queued, k, phase);
    }
  }

  /** The next atomic step of a job. */
  method JobStep(store: Store, job: Job, st: JobState) returns (next: JobState, ghost fault: Fault)
    requires store.Valid() && st != Ended && StateOk(store.View(), job, st)
    modifies store, store.runs
    ensures store.Valid() && old(store.runs) <= store.runs
    ensures forall i :: |old(store.runs)| <= i < |store.runs| ==> fresh(store.runs[i])
    ensures store.View() == NextStore(old(store.View()), job, st, fault)
    ensures next == NextState(old(store.View()), job, st, fault) && (store.reliable ==> fault == NoFault)
  {
    match job
    case WriteJob(w) =>
      next, fault := Ended, NoFault;
      if st.Writing? && st.phase != Finished {
        var phase;
        phase, fault := Step(store, w, st.phase);
        next := if phase.Finished? then Ended else Writing(phase);
      }
    case SkipJob(_, _, _, _) => next, fault := SkipStep(store, job, st);
    case SettleJob(_, _, _, _) => next, fault := SettleStep(store, job, st);
  }

  function AllWorkLeft(jobs: seq<Job>, states: seq<JobState>): nat
    requires |jobs| == |states|
  {
    if jobs == [] then 0 else WorkLeft(jobs[0], states[0]) + AllWorkLeft(jobs[1..], states[1..])
  }

  lemma {:induction false} AllWorkLeftUpdate(jobs: seq<Job>, states: seq<JobState>, k: nat, st: JobState)
    requires |jobs| == |states| && k < |jobs|
    ensures AllWorkLeft(jobs, states[k := st])
         == AllWorkLeft(jobs, states) - WorkLeft(jobs[k], states[k]) + WorkLeft(jobs[k], st)
  {
    if k == 0 {
      assert states[0 := st][1..] == states[1..];
    } else {
      AllWorkLeftUpdate(jobs[1..], states[1..], k - 1, st);
      assert states[k := st][1..] == states[1..][k - 1 := st];
    }
  }

  /** All jobs at once, in any interleaving of their steps, whatever fails: the store ends
      as some complete schedule leaves it, and so with one run per pair unless a pair
      without a run is claimed twice. */
  method RunJobs(store: Store, jobs: seq<Job>) returns (ghost turns: seq<Turn>)
    requires store.Valid()
    modifies store, store.runs
    ensures store.Valid() && Ends(old(store.View()), jobs, turns)
    ensures store.View() == StoreAfter(old(store.View()), jobs, turns) && (store.reliable ==> Faultless(turns))
    ensures Unique(old(store.View())) && !JobClash(old(store.View()), jobs) ==> Unique(store.View())
  {
    ghost var before := store.View();
    var states := seq(|jobs|, i requires 0 <= i < |jobs| => Started(jobs[i]));
    turns := [];
    while exists k :: 0 <= k < |jobs| && !states[k].Ended?
      invariant store.Valid() && old(store.runs) <= store.runs && |states| == |jobs|
      invariant forall i :: |old(store.runs)| <= i < |store.runs| ==> fresh(store.runs[i])
      invariant ExecJobs(AllStarted(before, jobs), jobs, turns) == Crowd(store.View(), states)
      invariant store.reliable ==> Faultless(turns)
      decreases AllWorkLeft(jobs, states)
    {
      var k :| 0 <= k < |jobs| && !states[k].Ended?;
      ghost var now := store.View();
      ReadyToStep(before, jobs, turns, k);
      ghost var fault;
      var next;
      next, fault := JobStep(store, jobs[k], states[k]);
      WorkDone(now, jobs[k], states[k], fault);
      AllWorkLeftUpdate(jobs, states, k, next);
      ExecJobsOne(AllStarted(before, jobs), jobs, turns, Turn(k, fault));
      assert StepJob(Crowd(now, states), jobs, Turn(k, fault)) == Crowd(store.View(), states[k := next]);
      turns := turns + [Turn(k, fault)];
      states := states[k := next];
    }
    if Unique(before) && !JobClash(before, jobs) {
      ScheduleKeepsInv(before, jobs, turns);
    }
  }

  lemma ReadyToStep(view: seq<Run>, jobs: seq<Job>, turns: seq<Turn>, k: nat)
    requires k < |jobs|
    ensures var c := ExecJobs(AllStarted(view, jobs), jobs, turns);
            |c.states| == |jobs| && StateOk(c.view, jobs[k], c.states[k]) && InBounds(jobs[k], c.states[k])
  {
    ExecAllOk(view, jobs, turns);
    ExecInBounds(view, jobs, turns);
  }
}
