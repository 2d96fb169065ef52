/** Everything that changes agent runs, at once: writes, skips of downstream roles and
    settlings of queued runs as jobs whose atomic steps are interleaved. */
module AgentRunJobs {
  import opened AgentArtifacts
  import opened AgentRunClashes
  import opened AgentRunPipeline
  import opened AgentRunRoles
  import opened AgentRunSettling
  import opened AgentRunSteps
  import opened AgentRunStore
  import opened AgentRunWriteback
  import opened Wrappers

  /** A skip is given by the roles its names stand for, up to the first unsupported one
      (`NamedRoles`); `note` gives the summary lines. */
  datatype Job =
    | WriteJob(w: Write)
    | SkipJob(taskId: string, goalId: string, roles: seq<Role>, note: Role -> string)
    | SettleJob(taskId: string, goalId: string, result: TaskResult, note: Role -> string)

  /** Where a job stands between its atomic steps. `listed` and `queued` are the runs the
      job listed at its start, `k` counts the roles or runs it has dealt with. */
  datatype JobState =
    | Writing(phase: Phase)
    | SkipStart
    | Skipping(listed: seq<nat>, k: nat)
    | SkipAdding(listed: seq<nat>, k: nat)
    | SkipClosing(listed: seq<nat>, k: nat, id: nat)
    | SettleStart
    | Settling(queued: seq<nat>, k: nat, inner: Phase)
    | Ended

  function Started(job: Job): JobState {
    match job
    case WriteJob(_) => Writing(Start)
    case SkipJob(_, _, _, _) => SkipStart
    case SettleJob(_, _, _, _) => SettleStart
  }

  function RoleAt(roles: seq<Role>, k: nat): Option<Role> {
    if k < |roles| then Some(roles[k]) else None
  }

  /** The first listed run of a role. */
  function FindRole(view: seq<Run>, ids: seq<nat>, role: Role): (id: Option<nat>)
    ensures id.Some? ==> id.value in ids && id.value < |view| && view[id.value].contractRole == role
    ensures id.None? ==> forall i :: i in ids && i < |view| ==> view[i].contractRole != role
  {
    if ids == [] then None
    else if ids[0] < |view| && view[ids[0]].contractRole == role then Some(ids[0])
    else FindRole(view, ids[1..], role)
  }

  // ---------------------------------------------------------------------------
  // Steps
  // ---------------------------------------------------------------------------

  function NextSkip(view: seq<Run>, taskId: string, roles: seq<Role>, st: JobState, fault: Fault): JobState {
    match st
    case SkipStart =>
      if taskId == "" || !fault.NoFault? then Ended else Skipping(Newest(view, taskId, None, 100), 0)
    case Skipping(listed, k) =>
      var role := RoleAt(roles, k);
      if role.None? then Ended
      else
        var found := FindRole(view, listed, role.value);
        if found.None? then SkipAdding(listed, k)
        else if Done(view[found.value]) then Skipping(listed, k + 1)
        else SkipClosing(listed, k, found.value)
    case SkipAdding(listed, k) => if fault.NoFault? then SkipClosing(listed, k, |view|) else Ended
    case SkipClosing(listed, k, _) => if fault.NoFault? then Skipping(listed, k + 1) else Ended
    case _ => Ended
  }

  /** A queued run that is settled without a write. */
  predicate SettledDirectly(role: Role, r: TaskResult) {
    FileBacked(role) || !r.present
  }

  function NextSettle(view: seq<Run>, job: Job, st: JobState, fault: Fault): JobState
    requires job.SettleJob?
  {
    match st
    case SettleStart =>
      if !fault.NoFault? then Ended
      else Settling(QueuedAmong(view, Newest(view, job.taskId, None, 100)), 0, Start)
    case Settling(queued, k, inner) =>
      if k >= |queued| || queued[k] >= |view| then Ended
      else
        var role := view[queued[k]].contractRole;
        if SettledDirectly(role, job.result) then Settling(queued, k + 1, Start)
        else
          var next := NextPhase(view, EvidenceWrite(job.taskId, job.goalId, role, job.result, job.note), inner, fault);
          if next.Finished? then Settling(queued, k + 1, Start) else Settling(queued, k, next)
    case _ => Ended
  }

  /** Where the next step takes a job. Errors end a skip; a settling goes on after them. */
  function NextState(view: seq<Run>, job: Job, st: JobState, fault: Fault): JobState {
    match job
    case WriteJob(w) =>
      if !st.Writing? then Ended
      else
        var next := NextPhase(view, w, st.phase, fault);
        if next.Finished? then Ended else Writing(next)
    case SkipJob(taskId, _, roles, _) => NextSkip(view, taskId, roles, st, fault)
    case SettleJob(_, _, _, _) => NextSettle(view, job, st, fault)
  }

  /** The run as it is settled without a write. */
  function DirectlySettled(view: seq<Run>, id: nat, role: Role, note: Role -> string): seq<Run> {
    if FileBacked(role) then CompletedAt(view, id, Some(Completed), [OfKind(RequiredKind(role))], note(role))
    else CompletedAt(view, id, Some(Skipped), [], note(role))
  }

  /** The store after the next step of a job. */
  function NextStore(view: seq<Run>, job: Job, st: JobState, fault: Fault): seq<Run> {
    match job
    case WriteJob(w) => if st.Writing? then NextView(view, w, st.phase, fault) else view
    case SkipJob(taskId, goalId, roles, note) =>
      if fault.Lost? || !(st.SkipAdding? || st.SkipClosing?) || RoleAt(roles, st.k).None? then view
      else
        var role := RoleAt(roles, st.k).value;
        if st.SkipAdding? then view + [QueuedRun(taskId, goalId, role)]
        else CompletedAt(view, st.id, Some(Skipped), [OfKind("pipeline_blocker")], note(role))
    case SettleJob(taskId, goalId, result, note) =>
      if !st.Settling? || st.k >= |st.queued| || st.queued[st.k] >= |view| then view
      else
        var id := st.queued[st.k];
        var role := view[id].contractRole;
        if !SettledDirectly(role, result) then
          NextView(view, EvidenceWrite(taskId, goalId, role, result, note), st.inner, fault)
        else if fault.Lost? then view
        else DirectlySettled(view, id, role, note)
  }

  // ---------------------------------------------------------------------------
  // Schedules
  // ---------------------------------------------------------------------------

  datatype Crowd = Crowd(view: seq<Run>, states: seq<JobState>)

  predicate CanStep(c: Crowd, jobs: seq<Job>, k: nat) {
    k < |jobs| == |c.states| && c.states[k] != Ended
  }

  /** A turn given to a job that has ended changes nothing. */
  function StepJob(c: Crowd, jobs: seq<Job>, t: Turn): Crowd {
    if CanStep(c, jobs, t.k) then
      Crowd(NextStore(c.view, jobs[t.k], c.states[t.k], t.fault),
            c.states[t.k := NextState(c.view, jobs[t.k], c.states[t.k], t.fault)])
    else c
  }

  function ExecJobs(c: Crowd, jobs: seq<Job>, turns: seq<Turn>): Crowd {
    if turns == [] then c
    else StepJob(ExecJobs(c, jobs, turns[..|turns| - 1]), jobs, turns[|turns| - 1])
  }

  function AllStarted(view: seq<Run>, jobs: seq<Job>): Crowd {
    Crowd(view, seq(|jobs|, i requires 0 <= i < |jobs| => Started(jobs[i])))
  }

  function StoreAfter(view: seq<Run>, jobs: seq<Job>, turns: seq<Turn>): seq<Run> {
    ExecJobs(AllStarted(view, jobs), jobs, turns).view
  }

  predicate AllEnded(c: Crowd) {
    forall k :: 0 <= k < |c.states| ==> c.states[k] == Ended
  }

  /** The schedule takes every job to its end. */
  predicate Ends(view: seq<Run>, jobs: seq<Job>, turns: seq<Turn>) {
    AllEnded(ExecJobs(AllStarted(view, jobs), jobs, turns))
  }

  lemma {:induction false} ExecJobsAppend(c: Crowd, jobs: seq<Job>, a: seq<Turn>, b: seq<Turn>)
    ensures ExecJobs(c, jobs, a + b) == ExecJobs(ExecJobs(c, jobs, a), jobs, b)
  {
    if b == [] {
      assert a + b == a;
    } else {
      var n := |b| - 1;
      assert (a + b)[..|a| + n] == a + b[..n] && (a + b)[|a| + n] == b[n];
      ExecJobsAppend(c, jobs, a, b[..n]);
    }
  }

  lemma ExecJobsOne(c: Crowd, jobs: seq<Job>, turns: seq<Turn>, t: Turn)
    ensures ExecJobs(c, jobs, turns + [t]) == StepJob(ExecJobs(c, jobs, turns), jobs, t)
  {
    assert (turns + [t])[..|turns|] == turns;
  }

  /** One more turn at the front. */
  lemma ExecJobsFirst(c: Crowd, jobs: seq<Job>, t: Turn, rest: seq<Turn>)
    ensures ExecJobs(c, jobs, [t] + rest) == ExecJobs(StepJob(c, jobs, t), jobs, rest)
  {
    ExecJobsAppend(c, jobs, [t], rest);
    assert [] + [t] == [t];
    ExecJobsOne(c, jobs, [], t);
  }

  /** No step takes a run away or changes its task or role. */
  lemma JobPlaces(view: seq<Run>, job: Job, st: JobState, fault: Fault)
    ensures SamePlaces(view, NextStore(view, job, st, fault))
  {
  }

  lemma {:induction false} ExecJobsPlaces(c: Crowd, jobs: seq<Job>, turns: seq<Turn>)
    ensures SamePlaces(c.view, ExecJobs(c, jobs, turns).view)
    ensures |ExecJobs(c, jobs, turns).states| == |c.states|
  {
    if turns != [] {
      var n := |turns| - 1;
      var before := ExecJobs(c, jobs, turns[..n]);
      ExecJobsPlaces(c, jobs, turns[..n]);
      if CanStep(before, jobs, turns[n].k) {
        JobPlaces(before.view, jobs[turns[n].k], before.states[turns[n].k], turns[n].fault);
      }
    }
  }

  // ---------------------------------------------------------------------------
  // What a job has in hand
  // ---------------------------------------------------------------------------

  predicate ValidIds(view: seq<Run>, ids: seq<nat>, taskId: string) {
    forall i :: i in ids ==> i < |view| && view[i].taskId == taskId
  }

  lemma ListedValid(view: seq<Run>, taskId: string)
    requires taskId != ""
    ensures ValidIds(view, Newest(view, taskId, None, 100), taskId)
  {
    forall i | i in Newest(view, taskId, None, 100) ensures i < |view| && view[i].taskId == taskId {
      assert i in NewestFirst(view, taskId, None);
      NewestFirstSelects(view, taskId, None, i);
    }
  }

  /** Looking up in a list made earlier gives the same later. */
  lemma {:induction false} FindStays(a: seq<Run>, b: seq<Run>, ids: seq<nat>, role: Role)
    requires SamePlaces(a, b) && forall i :: i in ids ==> i < |a|
    ensures FindRole(b, ids, role) == FindRole(a, ids, role)
  {
    if ids != [] {
      assert ids[0] in ids && forall i :: i in ids[1..] ==> i in ids;
      FindStays(a, b, ids[1..], role);
    }
  }

  /** The runs a job has in hand are there and of its task. */
  ghost predicate StateOk(view: seq<Run>, job: Job, st: JobState) {
    match job
    case WriteJob(w) => st.Writing? ==> InHand(view, w, st.phase)
    case SkipJob(taskId, _, roles, _) => SkipOk(view, taskId, roles, st)
    case SettleJob(_, _, _, _) => SettleOk(view, job, st)
  }

  ghost predicate SkipOk(view: seq<Run>, taskId: string, roles: seq<Role>, st: JobState) {
    match st
    case Skipping(listed, k) => taskId != "" && ValidIds(view, listed, taskId)
    case SkipAdding(listed, k) =>
      && taskId != "" && ValidIds(view, listed, taskId)
      && RoleAt(roles, k).Some? && FindRole(view, listed, RoleAt(roles, k).value).None?
    case SkipClosing(listed, k, id) =>
      taskId != "" && ValidIds(view, listed, taskId) && RoleAt(roles, k).Some? && id < |view|
    case _ => true
  }

  /** The write that settles the run of a role. */
  function SettlingWrite(job: Job, role: Role): Write
    requires job.SettleJob?
  {
    EvidenceWrite(job.taskId, job.goalId, role, job.result, job.note)
  }

  /** A run to be settled is of the task, so the write that settles it finds one. */
  ghost predicate SettleOk(view: seq<Run>, job: Job, st: JobState)
    requires job.SettleJob?
  {
    st.Settling? ==>
      && (forall i :: i in st.queued ==> i < |view|)
      && (job.taskId != "" ==> ValidIds(view, st.queued, job.taskId))
      && (!st.inner.Absent? || job.taskId == "")
      && (st.k < |st.queued| ==>
           var id := st.queued[st.k];
           id in st.queued && InHand(view, SettlingWrite(job, view[id].contractRole), st.inner))
  }

  lemma QueuedValid(view: seq<Run>, taskId: string)
    requires taskId != ""
    ensures ValidIds(view, QueuedAmong(view, Newest(view, taskId, None, 100)), taskId)
  {
    ListedValid(view, taskId);
  }

  lemma ValidStays(a: seq<Run>, b: seq<Run>, ids: seq<nat>, taskId: string)
    requires SamePlaces(a, b) && ValidIds(a, ids, taskId)
    ensures ValidIds(b, ids, taskId)
  {
  }

  /** Other jobs' steps do not matter to what a job has in hand. */
  lemma StateStays(a: seq<Run>, b: seq<Run>, job: Job, st: JobState)
    requires SamePlaces(a, b) && StateOk(a, job, st)
    ensures StateOk(b, job, st)
  {
    if job.SkipJob? && (st.Skipping? || st.SkipAdding? || st.SkipClosing?) {
      ValidStays(a, b, st.listed, job.taskId);
      if st.SkipAdding? {
        FindStays(a, b, st.listed, RoleAt(job.roles, st.k).value);
      }
    }
  }

  lemma SkipStepOk(view: seq<Run>, job: Job, st: JobState, fault: Fault)
    requires job.SkipJob? && StateOk(view, job, st)
    ensures StateOk(NextStore(view, job, st, fault), job, NextState(view, job, st, fault))
  {
    var after := NextStore(view, job, st, fault);
    JobPlaces(view, job, st, fault);
    match st
    case SkipStart =>
      if job.taskId != "" { ListedValid(view, job.taskId); }
    case Skipping(listed, k) =>
    case SkipAdding(listed, k) => ValidStays(view, after, listed, job.taskId);
    case SkipClosing(listed, k, _) => ValidStays(view, after, listed, job.taskId);
    case _ =>
  }

  lemma SettleStepOk(view: seq<Run>, job: Job, st: JobState, fault: Fault)
    requires job.SettleJob? && StateOk(view, job, st)
    ensures StateOk(NextStore(view, job, st, fault), job, NextState(view, job, st, fault))
    ensures |NextStore(view, job, st, fault)| == |view|
  {
    var after := NextStore(view, job, st, fault);
    JobPlaces(view, job, st, fault);
    if st.SettleStart? && job.taskId != "" {
      QueuedValid(view, job.taskId);
    }
    if st.Settling? && st.k < |st.queued| && st.queued[st.k] < |view| {
      var id := st.queued[st.k];
      assert id in st.queued && after[id].contractRole == view[id].contractRole;
      assert job.taskId != "" ==> ForPair(view[id], job.taskId, view[id].contractRole);
      if job.taskId != "" { ValidStays(view, after, st.queued, job.taskId); }
    }
  }

  lemma StepOk(view: seq<Run>, job: Job, st: JobState, fault: Fault)
    requires StateOk(view, job, st)
    ensures StateOk(NextStore(view, job, st, fault), job, NextState(view, job, st, fault))
  {
    match job
    case WriteJob(_) =>
    case SkipJob(_, _, _, _) => SkipStepOk(view, job, st, fault);
    case SettleJob(_, _, _, _) => SettleStepOk(view, job, st, fault);
  }

  ghost predicate AllOk(c: Crowd, jobs: seq<Job>) {
    |c.states| == |jobs| && forall i :: 0 <= i < |jobs| ==> StateOk(c.view, jobs[i], c.states[i])
  }

  lemma StepAllOk(c: Crowd, jobs: seq<Job>, t: Turn)
    requires AllOk(c, jobs) && CanStep(c, jobs, t.k)
    ensures AllOk(StepJob(c, jobs, t), jobs)
  {
    var after := StepJob(c, jobs, t);
    JobPlaces(c.view, jobs[t.k], c.states[t.k], t.fault);
    forall i | 0 <= i < |jobs| ensures StateOk(after.view, jobs[i], after.states[i]) {
      assert StateOk(c.view, jobs[i], c.states[i]);
      if i == t.k {
        StepOk(c.view, jobs[i], c.states[i], t.fault);
      } else {
        StateStays(c.view, after.view, jobs[i], c.states[i]);
      }
    }
  }

  lemma {:induction false} ExecAllOk(view: seq<Run>, jobs: seq<Job>, turns: seq<Turn>)
    ensures AllOk(ExecJobs(AllStarted(view, jobs), jobs, turns), jobs)
  {
    if turns != [] {
      var n := |turns| - 1;
      var c := ExecJobs(AllStarted(view, jobs), jobs, turns[..n]);
      ExecAllOk(view, jobs, turns[..n]);
      if CanStep(c, jobs, turns[n].k) {
        StepAllOk(c, jobs, turns[n]);
      }
    }
  }

  // ---------------------------------------------------------------------------
  // Every job ends
  // ---------------------------------------------------------------------------

  /** A bound on the steps a job has left. */
  function WorkLeft(job: Job, st: JobState): nat {
    match st
    case Writing(p) => StepsLeft(p) + 1
    case SkipStart => if job.SkipJob? then 3 * |job.roles| + 2 else 1
    case Skipping(_, k) => if job.SkipJob? && k <= |job.roles| then 3 * (|job.roles| - k) + 1 else 1
    case SkipAdding(_, k) => if job.SkipJob? && k < |job.roles| then 3 * (|job.roles| - k) else 1
    case SkipClosing(_, k, _) => if job.SkipJob? && k < |job.roles| then 3 * (|job.roles| - k) - 1 else 1
    case SettleStart => 405
    case Settling(queued, k, inner) => if k < |queued| then 4 * (|queued| - k) + StepsLeft(inner) else 1
    case Ended => 0
  }

  /** Roles still to come are within the list. */
  predicate InBounds(job: Job, st: JobState) {
    match st
    case Skipping(_, k) => job.SkipJob? && k <= |job.roles|
    case SkipAdding(_, k) => job.SkipJob? && k < |job.roles|
    case SkipClosing(_, k, _) => job.SkipJob? && k < |job.roles|
    case _ => true
  }

  lemma WorkDone(view: seq<Run>, job: Job, st: JobState, fault: Fault)
    requires st != Ended && InBounds(job, st)
    ensures InBounds(job, NextState(view, job, st, fault))
    ensures WorkLeft(job, NextState(view, job, st, fault)) < WorkLeft(job, st)
  {
    match job
    case WriteJob(w) =>
      if st.Writing? { PhaseAdvances(view, w, st.phase, fault); }
    case SkipJob(_, _, _, _) =>
    case SettleJob(taskId, goalId, result, note) =>
      if st.Settling? && st.k < |st.queued| && st.queued[st.k] < |view| {
        PhaseAdvances(view, EvidenceWrite(taskId, goalId, view[st.queued[st.k]].contractRole, result, note), st.inner,
                      fault);
      }
  }

  ghost predicate AllInBounds(c: Crowd, jobs: seq<Job>) {
    |c.states| == |jobs| && forall i :: 0 <= i < |jobs| ==> InBounds(jobs[i], c.states[i])
  }

  lemma {:induction false} ExecInBounds(view: seq<Run>, jobs: seq<Job>, turns: seq<Turn>)
    ensures AllInBounds(ExecJobs(AllStarted(view, jobs), jobs, turns), jobs)
  {
    if turns != [] {
      var n := |turns| - 1;
      var c := ExecJobs(AllStarted(view, jobs), jobs, turns[..n]);
      ExecInBounds(view, jobs, turns[..n]);
      if CanStep(c, jobs, turns[n].k) {
        WorkDone(c.view, jobs[turns[n].k], c.states[turns[n].k], turns[n].fault);
      }
    }
  }

  /** One job run to its end. */
  lemma {:induction false} RunOut(c: Crowd, jobs: seq<Job>, i: nat) returns (turns: seq<Turn>)
    requires AllInBounds(c, jobs) && i < |jobs|
    ensures Faultless(turns)
    ensures ExecJobs(c, jobs, turns).states == c.states[i := Ended]
    decreases WorkLeft(jobs[i], c.states[i])
  {
    if c.states[i] == Ended {
      turns := [];
    } else {
      var t := Turn(i, NoFault);
      WorkDone(c.view, jobs[i], c.states[i], NoFault);
      var next := StepJob(c, jobs, t);
      var rest := RunOut(next, jobs, i);
      ExecJobsFirst(c, jobs, t, rest);
      turns := [t] + rest;
    }
  }

  /** All jobs from the k-th on run to their end, one after another. */
  lemma {:induction false} RunOutAll(c: Crowd, jobs: seq<Job>, k: nat) returns (turns: seq<Turn>)
    requires AllInBounds(c, jobs) && k <= |jobs|
    requires forall i :: 0 <= i < k ==> c.states[i] == Ended
    ensures Faultless(turns) && AllEnded(ExecJobs(c, jobs, turns))
    decreases |jobs| - k
  {
    if k == |jobs| {
      turns := [];
    } else {
      var own := RunOut(c, jobs, k);
      var rest := RunOutAll(ExecJobs(c, jobs, own), jobs, k + 1);
      ExecJobsAppend(c, jobs, own, rest);
      turns := own + rest;
    }
  }
}
