/** A skip or a settling whose steps nothing interleaves: what it does is what its loop
    does. */
module AgentRunJobAlone {
  import opened AgentArtifacts
  import opened AgentRunClashes
  import opened AgentRunInterleaving
  import opened AgentRunJobs
  import opened AgentRunPipeline
  import opened AgentRunRoles
  import opened AgentRunSettling
  import opened AgentRunSteps
  import opened AgentRunStore
  import opened AgentRunWriteback
  import opened Wrappers
  import opened AgentRunJobClashes

  // ---------------------------------------------------------------------------
  // A skip by itself
  // ---------------------------------------------------------------------------

  lemma LookupIsLatest(view: seq<Run>, now: seq<Run>, job: Job, roles: seq<Role>, role: Role)
    requires Unique(view) && job.SkipJob? && job.taskId != ""
    requires now == SkippedAll(view, job.taskId, job.goalId, roles, job.note)
    ensures FindRole(now, Newest(view, job.taskId, None, 100), role) == Latest(view, job.taskId, role)
  {
    var listed := Newest(view, job.taskId, None, 100);
    ListingFinds(view, job.taskId);
    SkippedPairs(view, job.taskId, job.goalId, roles, job.note);
    FoundIsLatest(view, now, listed, job.taskId, role, FindRole(now, listed, role));
  }

  lemma SkipOneIs(view: seq<Run>, now: seq<Run>, job: Job, listed: seq<nat>, role: Role)
    requires job.SkipJob? && |view| <= |now| && FindRole(now, listed, role) == Latest(view, job.taskId, role)
    ensures RoleSkipped(now, job, listed, role) == SkipOne(view, now, job.taskId, job.goalId, role, job.note)
  {
    var queued := QueuedRun(job.taskId, job.goalId, role);
    if FindRole(now, listed, role).None? {
      assert (now + [queued])[|now| := AsSkipped(queued, role, job.note)] == now + [AsSkipped(queued, role, job.note)];
    }
  }

  /** That is what the loop makes of it. */
  lemma RoleSkippedIs(view: seq<Run>, now: seq<Run>, job: Job, k: nat)
    requires Unique(view) && job.SkipJob? && job.taskId != "" && k < |job.roles|
    requires now == SkippedAll(view, job.taskId, job.goalId, job.roles[..k], job.note)
    ensures RoleSkipped(now, job, Newest(view, job.taskId, None, 100), job.roles[k])
         == SkippedAll(view, job.taskId, job.goalId, job.roles[..k + 1], job.note)
  {
    LookupIsLatest(view, now, job, job.roles[..k], job.roles[k]);
    SkipOneIs(view, now, job, Newest(view, job.taskId, None, 100), job.roles[k]);
    assert job.roles[..k + 1][..k] == job.roles[..k] && job.roles[..k + 1][k] == job.roles[k];
  }

  lemma {:induction false} AloneFrom(view: seq<Run>, job: Job, c: Crowd, k: nat) returns (turns: seq<Turn>)
    requires Unique(view) && job.SkipJob? && job.taskId != "" && k <= |job.roles|
    requires c == Crowd(SkippedAll(view, job.taskId, job.goalId, job.roles[..k], job.note),
                        [Skipping(Newest(view, job.taskId, None, 100), k)])
    ensures Faultless(turns)
    ensures ExecJobs(c, [job], turns)
         == Crowd(SkippedAll(view, job.taskId, job.goalId, job.roles, job.note), [Ended])
    decreases |job.roles| - k
  {
    if k == |job.roles| {
      var t := Turn(0, NoFault);
      turns := [t];
      ExecTwo(c, [job], t);
      assert job.roles[..k] == job.roles;
    } else {
      var own := PassRole(c, [job], 0, Newest(view, job.taskId, None, 100), k);
      RoleSkippedIs(view, c.view, job, k);
      var rest := AloneFrom(view, job, ExecJobs(c, [job], own), k + 1);
      ExecJobsAppend(c, [job], own, rest);
      turns := own + rest;
    }
  }

  /** The steps of a skip that nothing interleaves skip what the loop skips. */
  lemma SkipAlone(view: seq<Run>, job: Job) returns (turns: seq<Turn>)
    requires Unique(view) && job.SkipJob? && job.taskId != ""
    ensures Faultless(turns) && Ends(view, [job], turns)
    ensures StoreAfter(view, [job], turns) == SkippedAll(view, job.taskId, job.goalId, job.roles, job.note)
  {
    var c, t := AllStarted(view, [job]), Turn(0, NoFault);
    var c1 := Crowd(view, [Skipping(Newest(view, job.taskId, None, 100), 0)]);
    assert c.states == [SkipStart] && StepJob(c, [job], t) == c1;
    var rest := AloneFrom(view, job, c1, 0);
    ExecJobsFirst(c, [job], t, rest);
    turns := [t] + rest;
  }

  // ---------------------------------------------------------------------------
  // A settling by itself
  // ---------------------------------------------------------------------------

  /** A run that needs no write is settled in one step. */
  lemma SettledInOne(c: Crowd, jobs: seq<Job>, i: nat, queued: seq<nat>, k: nat)
    requires i < |jobs| == |c.states| && jobs[i].SettleJob? && c.states[i] == Settling(queued, k, Start)
    requires k < |queued| && queued[k] < |c.view|
    requires SettledDirectly(c.view[queued[k]].contractRole, jobs[i].result)
    ensures StepJob(c, jobs, Turn(i, NoFault)) == Crowd(OneSettled(c.view, jobs[i], queued[k]),
                                                       c.states[i := Settling(queued, k + 1, Start)])
  {
  }

  lemma SettleLooks(c: Crowd, jobs: seq<Job>, i: nat, queued: seq<nat>, k: nat)
    requires i < |jobs| == |c.states| && jobs[i].SettleJob? && c.states[i] == Settling(queued, k, Start)
    requires k < |queued| && queued[k] < |c.view| && jobs[i].taskId != ""
    requires Latest(c.view, jobs[i].taskId, c.view[queued[k]].contractRole) == Some(queued[k])
    requires !SettledDirectly(c.view[queued[k]].contractRole, jobs[i].result)
    ensures StepJob(c, jobs, Turn(i, NoFault))
         == Crowd(c.view, c.states[i := Settling(queued, k, Found(queued[k]))])
  {
  }

  lemma SettleInspects(c: Crowd, jobs: seq<Job>, i: nat, queued: seq<nat>, k: nat)
    requires i < |jobs| == |c.states| && jobs[i].SettleJob? && k < |queued| && queued[k] < |c.view|
    requires c.states[i] == Settling(queued, k, Found(queued[k])) && jobs[i].taskId != ""
    requires c.view[queued[k]].status == Queued && !SettledDirectly(c.view[queued[k]].contractRole, jobs[i].result)
    ensures StepJob(c, jobs, Turn(i, NoFault))
         == Crowd(c.view, c.states[i := Settling(queued, k, Closing(c.view, jobs[i], queued[k]))])
  {
  }

  lemma SettleIsWrite(run: Run, job: Job)
    requires job.SettleJob? && run.taskId == job.taskId != "" && run.status == Queued
    requires !SettledDirectly(run.contractRole, job.result)
    ensures Settle(run, job.goalId, job.result, job.note) == RunAfter(run, SettlingWrite(job, run.contractRole))
  {
  }

  /** Where a settling stands that is about to close the run at `id`. */
  function Closing(view: seq<Run>, job: Job, id: nat): Phase
    requires job.SettleJob? && id < |view|
  {
    var w := SettlingWrite(job, view[id].contractRole);
    Completing(id, Merged(view[id], w), if w.summary != "" then w.summary else view[id].summary)
  }

  lemma SettleWrites(view: seq<Run>, job: Job, queued: seq<nat>, k: nat)
    requires job.SettleJob? && k < |queued| && queued[k] < |view| && job.taskId == view[queued[k]].taskId != ""
    requires view[queued[k]].status == Queued && !SettledDirectly(view[queued[k]].contractRole, job.result)
    ensures NextStore(view, job, AgentRunJobs.Settling(queued, k, Closing(view, job, queued[k])), NoFault)
         == OneSettled(view, job, queued[k])
  {
    SettleIsWrite(view[queued[k]], job);
  }

  lemma SettleCompletes(c: Crowd, jobs: seq<Job>, i: nat, queued: seq<nat>, k: nat)
    requires i < |jobs| == |c.states| && jobs[i].SettleJob? && k < |queued| && queued[k] < |c.view|
    requires jobs[i].taskId == c.view[queued[k]].taskId != ""
    requires c.view[queued[k]].status == Queued && !SettledDirectly(c.view[queued[k]].contractRole, jobs[i].result)
    requires c.states[i] == Settling(queued, k, Closing(c.view, jobs[i], queued[k]))
    ensures StepJob(c, jobs, Turn(i, NoFault)) == Crowd(OneSettled(c.view, jobs[i], queued[k]),
                                                       c.states[i := Settling(queued, k + 1, Start)])
  {
    SettleWrites(c.view, jobs[i], queued, k);
  }

  function OneSettled(view: seq<Run>, job: Job, id: nat): seq<Run>
    requires job.SettleJob? && id < |view|
  {
    view[id := Settle(view[id], job.goalId, job.result, job.note)]
  }

  /** One settled by a write is in three. */
  lemma SettledByWrite(c: Crowd, jobs: seq<Job>, i: nat, queued: seq<nat>, k: nat) returns (turns: seq<Turn>)
    requires i < |jobs| == |c.states| && jobs[i].SettleJob? && c.states[i] == Settling(queued, k, Start)
    requires k < |queued| && queued[k] < |c.view| && jobs[i].taskId != ""
    requires Latest(c.view, jobs[i].taskId, c.view[queued[k]].contractRole) == Some(queued[k])
    requires c.view[queued[k]].status == Queued && !SettledDirectly(c.view[queued[k]].contractRole, jobs[i].result)
    ensures Faultless(turns)
    ensures ExecJobs(c, jobs, turns) == Crowd(OneSettled(c.view, jobs[i], queued[k]),
                                              c.states[i := Settling(queued, k + 1, Start)])
  {
    var t := Turn(i, NoFault);
    var c1 := StepJob(c, jobs, t);
    SettleLooks(c, jobs, i, queued, k);
    SettleInspects(c1, jobs, i, queued, k);
    SettleCompletes(StepJob(c1, jobs, t), jobs, i, queued, k);
    turns := [t, t, t];
    ExecTwo(c, jobs, t);
    ExecThree(c, jobs, t);
  }

  lemma {:induction false} SettleFrom(view: seq<Run>, job: Job, queued: seq<nat>, c: Crowd, k: nat)
    returns (turns: seq<Turn>)
    requires job.SettleJob? && k <= |queued| && c.states == [AgentRunJobs.Settling(queued, k, Start)]
    requires AgentRunSettling.Settling(view, SettledRuns(view, job.goalId, job.result, job.note), queued, job.taskId)
    requires SettledSoFar(view, c.view, SettledRuns(view, job.goalId, job.result, job.note), queued[..k], true)
    ensures Faultless(turns) && AllEnded(ExecJobs(c, [job], turns))
    ensures SettledSoFar(view, ExecJobs(c, [job], turns).view,
                         SettledRuns(view, job.goalId, job.result, job.note), queued, true)
    decreases |queued| - k
  {
    var t, target := Turn(0, NoFault), SettledRuns(view, job.goalId, job.result, job.note);
    if k == |queued| {
      turns := [t];
      ExecTwo(c, [job], t);
      assert queued[..k] == queued;
    } else {
      var id := queued[k];
      StillBefore(view, c.view, target, job.taskId, queued, k, true);
      SettledAt(view, job.goalId, job.result, job.note, id);
      var own := [t];
      if SettledDirectly(c.view[id].contractRole, job.result) {
        SettledInOne(c, [job], 0, queued, k);
        ExecTwo(c, [job], t);
      } else {
        own := SettledByWrite(c, [job], 0, queued, k);
      }
      var next := ExecJobs(c, [job], own);
      OneMoreSettled(view, c.view, next.view, target, queued, k, true);
      var rest := SettleFrom(view, job, queued, next, k + 1);
      ExecJobsAppend(c, [job], own, rest);
      turns := own + rest;
    }
  }

  lemma SettleStarts(view: seq<Run>, job: Job, queued: seq<nat>)
    requires job.SettleJob? && queued == QueuedAmong(view, Newest(view, job.taskId, None, 100))
    ensures StepJob(AllStarted(view, [job]), [job], Turn(0, NoFault))
         == Crowd(view, [AgentRunJobs.Settling(queued, 0, Start)])
  {
    assert AllStarted(view, [job]).states == [SettleStart];
  }

  /** The schedule of a settling by itself. */
  lemma SettleSteps(view: seq<Run>, job: Job, queued: seq<nat>) returns (turns: seq<Turn>)
    requires job.SettleJob? && queued == QueuedAmong(view, Newest(view, job.taskId, None, 100))
    requires AgentRunSettling.Settling(view, SettledRuns(view, job.goalId, job.result, job.note), queued, job.taskId)
    ensures Faultless(turns) && Ends(view, [job], turns)
    ensures SettledSoFar(view, StoreAfter(view, [job], turns),
                         SettledRuns(view, job.goalId, job.result, job.note), queued, true)
  {
    var first := Crowd(view, [AgentRunJobs.Settling(queued, 0, Start)]);
    SettleStarts(view, job, queued);
    assert SettledSoFar(view, first.view, SettledRuns(view, job.goalId, job.result, job.note), queued[..0], true);
    var rest := SettleFrom(view, job, queued, first, 0);
    turns := [Turn(0, NoFault)] + rest;
    assert ExecJobs(AllStarted(view, [job]), [job], turns) == ExecJobs(first, [job], rest) by {
      ExecJobsFirst(AllStarted(view, [job]), [job], Turn(0, NoFault), rest);
    }
  }

  /** The steps of a settling that nothing interleaves settle the queued runs of the task
      and no other. */
  lemma SettleAlone(view: seq<Run>, job: Job) returns (turns: seq<Turn>)
    requires Unique(view) && job.SettleJob? && job.taskId != ""
    ensures Faultless(turns) && Ends(view, [job], turns)
    ensures ToldOfAll(view, StoreAfter(view, [job], turns), job.taskId, job.goalId, job.result, job.note, true)
  {
    var ids := Newest(view, job.taskId, None, 100);
    var queued := QueuedAmong(view, ids);
    ReadyToSettle(view, job.taskId, job.goalId, job.result, job.note, ids, queued);
    turns := SettleSteps(view, job, queued);
    SettledAll(view, StoreAfter(view, [job], turns), job.taskId, job.goalId, job.result, job.note, queued, true);
  }
}
