/** One run per pair while writes, skips and settlings are interleaved: exactly when it
    stays so on every schedule. */
module AgentRunJobClashes {
  import opened AgentArtifacts
  import opened AgentRunClashes
  import opened AgentRunInterleaving
  import opened AgentRunJobs
  import opened AgentRunPipeline
  import opened AgentRunRoles
  import opened AgentRunSettling
  import opened AgentRunSteps
  import opened AgentRunStore
  import opened AgentRunWriteback
  import opened Wrappers

  // ---------------------------------------------------------------------------
  // Claims
  // ---------------------------------------------------------------------------

  function Count(roles: seq<Role>, role: Role): nat {
    if roles == [] then 0 else (if roles[0] == role then 1 else 0) + Count(roles[1..], role)
  }

  /** How many runs a job may create for a pair that has none: a write one, a skip one for
      each time it names the role, a settling none. */
  function Claims(job: Job, taskId: string, role: Role): nat {
    match job
    case WriteJob(w) => if For(w, taskId, role) then 1 else 0
    case SkipJob(t, _, roles, _) => if t != "" && t == taskId then Count(roles, role) else 0
    case SettleJob(_, _, _, _) => 0
  }

  /** Two creations for a pair without a run: by one job or by two. */
  ghost predicate Contested(jobs: seq<Job>, taskId: string, role: Role) {
    || (exists i :: 0 <= i < |jobs| && Claims(jobs[i], taskId, role) >= 2)
    || (exists i, j :: 0 <= i < j < |jobs| && Claims(jobs[i], taskId, role) >= 1 && Claims(jobs[j], taskId, role) >= 1)
  }

  ghost predicate JobClash(view: seq<Run>, jobs: seq<Job>) {
    exists taskId, role :: Latest(view, taskId, role).None? && Contested(jobs, taskId, role)
  }

  /** What is still to come of the roles. */
  function RolesLeft(roles: seq<Role>, k: nat): seq<Role> {
    if k <= |roles| then roles[k..] else []
  }

  /** How many runs a job may still create for the pair. */
  function ClaimsLeft(view: seq<Run>, job: Job, st: JobState, taskId: string, role: Role): nat {
    match job
    case WriteJob(w) =>
      if !For(w, taskId, role) || !st.Writing? then 0
      else if st.phase.Absent? then 1
      else if st.phase.Start? && Latest(view, taskId, role).None? then 1
      else 0
    case SkipJob(t, _, roles, _) =>
      if t == "" || t != taskId then 0
      else (match st
        case SkipStart => if Latest(view, taskId, role).None? then Count(roles, role) else 0
        case Skipping(listed, k) => ListedClaims(view, listed, RolesLeft(roles, k), role)
        case SkipAdding(listed, k) => ListedClaims(view, listed, RolesLeft(roles, k), role)
        case SkipClosing(listed, k, _) => ListedClaims(view, listed, RolesLeft(roles, k + 1), role)
        case _ => 0)
    case SettleJob(_, _, _, _) => 0
  }

  function ListedClaims(view: seq<Run>, listed: seq<nat>, roles: seq<Role>, role: Role): nat {
    if FindRole(view, listed, role).None? then Count(roles, role) else 0
  }

  lemma CountFirst(roles: seq<Role>, role: Role)
    requires roles != []
    ensures Count(roles, role) == (if roles[0] == role then 1 else 0) + Count(roles[1..], role)
  {
  }

  lemma RolesLeftFirst(roles: seq<Role>, k: nat, role: Role)
    requires RoleAt(roles, k).Some?
    ensures Count(RolesLeft(roles, k), role)
         == (if RoleAt(roles, k).value == role then 1 else 0) + Count(RolesLeft(roles, k + 1), role)
  {
    var left := RolesLeft(roles, k);
    assert left[1..] == RolesLeft(roles, k + 1);
    CountFirst(left, role);
  }

  // ---------------------------------------------------------------------------
  // Lists of runs
  // ---------------------------------------------------------------------------

  /** A fresh listing finds a role exactly when the pair has a run. */
  lemma ListedFinds(view: seq<Run>, taskId: string, role: Role)
    requires Unique(view) && taskId != ""
    ensures FindRole(view, Newest(view, taskId, None, 100), role).Some? <==> Latest(view, taskId, role).Some?
  {
    var ids := Newest(view, taskId, None, 100);
    ListingFinds(view, taskId);
    ListedValid(view, taskId);
    var id := Latest(view, taskId, role);
    if id.Some? {
      assert view[id.value].taskId == taskId;
      assert id.value in ids;
    }
  }

  // ---------------------------------------------------------------------------
  // What every step keeps
  // ---------------------------------------------------------------------------

  /** Other jobs' steps do not add to the claims of a job. */
  lemma ClaimsShrink(a: seq<Run>, b: seq<Run>, job: Job, st: JobState, taskId: string, role: Role)
    requires SamePlaces(a, b) && StateOk(a, job, st)
    ensures ClaimsLeft(b, job, st, taskId, role) <= ClaimsLeft(a, job, st, taskId, role)
  {
    RunsStay(a, b, taskId, role);
    if job.SkipJob? && (st.Skipping? || st.SkipAdding? || st.SkipClosing?) {
      FindStays(a, b, st.listed, role);
    }
  }

  /** A step adds one run at most. */
  predicate Makes(view: seq<Run>, job: Job, st: JobState, fault: Fault, taskId: string, role: Role) {
    var after := NextStore(view, job, st, fault);
    |after| > |view| && ForPair(after[|view|], taskId, role)
  }

  lemma ListClaims(view: seq<Run>, job: Job, st: JobState, fault: Fault, taskId: string, role: Role)
    requires job.SkipJob? && Unique(view) && StateOk(view, job, st) && job.taskId == taskId != ""
    requires st.SkipStart?
    ensures ClaimsLeft(NextStore(view, job, st, fault), job, NextState(view, job, st, fault), taskId, role)
              + (if Makes(view, job, st, fault, taskId, role) then 1 else 0)
         <= ClaimsLeft(view, job, st, taskId, role)
  {
    var listed := Newest(view, taskId, None, 100);
    assert NextStore(view, job, st, fault) == view;
    if fault.NoFault? {
      ListedFinds(view, taskId, role);
      assert NextState(view, job, st, fault) == Skipping(listed, 0);
      assert RolesLeft(job.roles, 0) == job.roles;
      assert ClaimsLeft(view, job, Skipping(listed, 0), taskId, role)
          == ListedClaims(view, listed, RolesLeft(job.roles, 0), role);
    }
  }

  lemma PassedClaims(view: seq<Run>, listed: seq<nat>, roles: seq<Role>, k: nat, role: Role)
    requires k < |roles|
    ensures ListedClaims(view, listed, RolesLeft(roles, k + 1), role)
         <= ListedClaims(view, listed, RolesLeft(roles, k), role)
  {
    RolesLeftFirst(roles, k, role);
  }

  lemma LookClaims(view: seq<Run>, job: Job, st: JobState, fault: Fault, taskId: string, role: Role)
    requires job.SkipJob? && Unique(view) && StateOk(view, job, st) && job.taskId == taskId != ""
    requires st.Skipping?
    ensures ClaimsLeft(NextStore(view, job, st, fault), job, NextState(view, job, st, fault), taskId, role)
              + (if Makes(view, job, st, fault, taskId, role) then 1 else 0)
         <= ClaimsLeft(view, job, st, taskId, role)
  {
    var next, listed, k := NextState(view, job, st, fault), st.listed, st.k;
    assert NextStore(view, job, st, fault) == view;
    if k >= |job.roles| {
      assert next == Ended;
    } else {
      PassedClaims(view, listed, job.roles, k, role);
      var found := FindRole(view, listed, job.roles[k]);
      if found.None? {
        assert next == SkipAdding(listed, k);
      } else {
        assert next == Skipping(listed, k + 1) || next == SkipClosing(listed, k, found.value);
      }
    }
  }

  /** Adding the run of a role that the list lacks uses up one claim to its role. */
  lemma AddedClaims(view: seq<Run>, listed: seq<nat>, roles: seq<Role>, k: nat, run: Run, role: Role)
    requires RoleAt(roles, k) == Some(run.contractRole) && FindRole(view, listed, run.contractRole).None?
    requires forall i :: i in listed ==> i < |view|
    ensures ListedClaims(view + [run], listed, RolesLeft(roles, k + 1), role)
              + (if run.contractRole == role then 1 else 0)
         <= ListedClaims(view, listed, RolesLeft(roles, k), role)
  {
    RolesLeftFirst(roles, k, role);
    FindStays(view, view + [run], listed, role);
  }

  lemma AddClaims(view: seq<Run>, job: Job, st: JobState, fault: Fault, taskId: string, role: Role)
    requires job.SkipJob? && Unique(view) && StateOk(view, job, st) && job.taskId == taskId != ""
    requires st.SkipAdding?
    ensures ClaimsLeft(NextStore(view, job, st, fault), job, NextState(view, job, st, fault), taskId, role)
              + (if Makes(view, job, st, fault, taskId, role) then 1 else 0)
         <= ClaimsLeft(view, job, st, taskId, role)
  {
    var run := QueuedRun(taskId, job.goalId, RoleAt(job.roles, st.k).value);
    var next := NextState(view, job, st, fault);
    AddedClaims(view, st.listed, job.roles, st.k, run, role);
    if fault.Lost? {
      assert NextStore(view, job, st, fault) == view && next == Ended;
    } else {
      assert NextStore(view, job, st, fault) == view + [run];
      assert next == Ended || next == SkipClosing(st.listed, st.k, |view|);
      assert Makes(view, job, st, fault, taskId, role) <==> run.contractRole == role;
    }
  }

  lemma CloseClaims(view: seq<Run>, job: Job, st: JobState, fault: Fault, taskId: string, role: Role)
    requires job.SkipJob? && Unique(view) && StateOk(view, job, st) && job.taskId == taskId != ""
    requires st.SkipClosing?
    ensures ClaimsLeft(NextStore(view, job, st, fault), job, NextState(view, job, st, fault), taskId, role)
              + (if Makes(view, job, st, fault, taskId, role) then 1 else 0)
         <= ClaimsLeft(view, job, st, taskId, role)
  {
    var after := NextStore(view, job, st, fault);
    JobPlaces(view, job, st, fault);
    FindStays(view, after, st.listed, role);
  }

  lemma SkipClaims(view: seq<Run>, job: Job, st: JobState, fault: Fault, taskId: string, role: Role)
    requires job.SkipJob? && Unique(view) && StateOk(view, job, st)
    ensures ClaimsLeft(NextStore(view, job, st, fault), job, NextState(view, job, st, fault), taskId, role)
              + (if Makes(view, job, st, fault, taskId, role) then 1 else 0)
         <= ClaimsLeft(view, job, st, taskId, role)
  {
    if job.taskId == taskId != "" {
      match st
      case SkipStart => ListClaims(view, job, st, fault, taskId, role);
      case Skipping(_, _) => LookClaims(view, job, st, fault, taskId, role);
      case SkipAdding(_, _) => AddClaims(view, job, st, fault, taskId, role);
      case SkipClosing(_, _, _) => CloseClaims(view, job, st, fault, taskId, role);
      case _ =>
    }
  }

  /** A step takes what it creates off the claims of its job. */
  lemma OwnClaims(view: seq<Run>, job: Job, st: JobState, fault: Fault, taskId: string, role: Role)
    requires Unique(view) && StateOk(view, job, st)
    ensures ClaimsLeft(NextStore(view, job, st, fault), job, NextState(view, job, st, fault), taskId, role)
              + (if Makes(view, job, st, fault, taskId, role) then 1 else 0)
         <= ClaimsLeft(view, job, st, taskId, role)
  {
    match job
    case WriteJob(w) =>
    case SkipJob(_, _, _, _) => SkipClaims(view, job, st, fault, taskId, role);
    case SettleJob(_, _, _, _) => SettleStepOk(view, job, st, fault);
  }

  /** At most one run is still to be created for the pair, and none if it has one. */
  ghost predicate Uncontested(c: Crowd, jobs: seq<Job>, taskId: string, role: Role)
    requires |c.states| == |jobs|
  {
    && (forall i :: 0 <= i < |jobs| ==>
         ClaimsLeft(c.view, jobs[i], c.states[i], taskId, role) <= if Latest(c.view, taskId, role).None? then 1 else 0)
    && (forall i, j :: 0 <= i < j < |jobs| ==>
         || ClaimsLeft(c.view, jobs[i], c.states[i], taskId, role) == 0
         || ClaimsLeft(c.view, jobs[j], c.states[j], taskId, role) == 0)
  }

  ghost predicate CrowdInv(c: Crowd, jobs: seq<Job>) {
    && Unique(c.view) && AllOk(c, jobs)
    && forall taskId, role :: Uncontested(c, jobs, taskId, role)
  }

  /** What a step leaves of the claims of any job. */
  lemma ClaimsAfter(c: Crowd, jobs: seq<Job>, t: Turn, i: nat, taskId: string, role: Role)
    requires CrowdInv(c, jobs) && CanStep(c, jobs, t.k) && i < |jobs|
    ensures var after := StepJob(c, jobs, t);
            ClaimsLeft(after.view, jobs[i], after.states[i], taskId, role)
              + (if i == t.k && Makes(c.view, jobs[i], c.states[i], t.fault, taskId, role) then 1 else 0)
            <= ClaimsLeft(c.view, jobs[i], c.states[i], taskId, role)
  {
    assert StateOk(c.view, jobs[i], c.states[i]);
    if i == t.k {
      OwnClaims(c.view, jobs[i], c.states[i], t.fault, taskId, role);
    } else {
      JobPlaces(c.view, jobs[t.k], c.states[t.k], t.fault);
      ClaimsShrink(c.view, StepJob(c, jobs, t).view, jobs[i], c.states[i], taskId, role);
    }
  }

  /** Once a step has made the run of a pair, no job has a claim to it. */
  lemma ClaimsSettled(c: Crowd, jobs: seq<Job>, t: Turn, i: nat, taskId: string, role: Role)
    requires CrowdInv(c, jobs) && CanStep(c, jobs, t.k) && i < |jobs|
    requires Makes(c.view, jobs[t.k], c.states[t.k], t.fault, taskId, role)
    ensures var after := StepJob(c, jobs, t); ClaimsLeft(after.view, jobs[i], after.states[i], taskId, role) == 0
  {
    assert Uncontested(c, jobs, taskId, role);
    ClaimsAfter(c, jobs, t, t.k, taskId, role);
    ClaimsAfter(c, jobs, t, i, taskId, role);
    assert ClaimsLeft(c.view, jobs[t.k], c.states[t.k], taskId, role) > 0;
  }

  lemma UncontestedKept(c: Crowd, jobs: seq<Job>, t: Turn, taskId: string, role: Role)
    requires CrowdInv(c, jobs) && CanStep(c, jobs, t.k)
    ensures Uncontested(StepJob(c, jobs, t), jobs, taskId, role)
  {
    var after := StepJob(c, jobs, t);
    var made := Makes(c.view, jobs[t.k], c.states[t.k], t.fault, taskId, role);
    assert Uncontested(c, jobs, taskId, role);
    LatestAfter(c.view, jobs[t.k], c.states[t.k], t.fault, taskId, role);
    forall i | 0 <= i < |jobs|
      ensures ClaimsLeft(after.view, jobs[i], after.states[i], taskId, role)
        <= ClaimsLeft(c.view, jobs[i], c.states[i], taskId, role)
      ensures made ==> ClaimsLeft(after.view, jobs[i], after.states[i], taskId, role) == 0
    {
      ClaimsAfter(c, jobs, t, i, taskId, role);
      if made { ClaimsSettled(c, jobs, t, i, taskId, role); }
    }
  }

  lemma AddsOne(view: seq<Run>, job: Job, st: JobState, fault: Fault)
    ensures var after := NextStore(view, job, st, fault);
            |after| == |view| || (|after| == |view| + 1 && after == view + [after[|view|]])
  {
  }

  lemma LatestOfSamePlaces(a: seq<Run>, b: seq<Run>, taskId: string, role: Role)
    requires SamePlaces(a, b) && |a| == |b|
    ensures Latest(a, taskId, role).Some? <==> Latest(b, taskId, role).Some?
  {
    RunsStay(a, b, taskId, role);
    RunsStay(b, a, taskId, role);
  }

  /** The pair has a run after the step exactly when it had one or the step made one. */
  lemma LatestAfter(view: seq<Run>, job: Job, st: JobState, fault: Fault, taskId: string, role: Role)
    ensures Latest(NextStore(view, job, st, fault), taskId, role).Some?
       <==> Latest(view, taskId, role).Some? || Makes(view, job, st, fault, taskId, role)
  {
    var after := NextStore(view, job, st, fault);
    AddsOne(view, job, st, fault);
    if |after| == |view| {
      JobPlaces(view, job, st, fault);
      LatestOfSamePlaces(view, after, taskId, role);
    } else {
      PairAppend(view, after[|view|], taskId, role);
    }
  }

  lemma StepKeepsInv(c: Crowd, jobs: seq<Job>, t: Turn)
    requires CrowdInv(c, jobs) && CanStep(c, jobs, t.k)
    ensures CrowdInv(StepJob(c, jobs, t), jobs)
  {
    var after := StepJob(c, jobs, t);
    StepAllOk(c, jobs, t);
    forall taskId, role ensures Uncontested(after, jobs, taskId, role) {
      UncontestedKept(c, jobs, t, taskId, role);
    }
    StepKeepsUnique(c, jobs, t);
  }

  lemma StepKeepsUnique(c: Crowd, jobs: seq<Job>, t: Turn)
    requires CrowdInv(c, jobs) && CanStep(c, jobs, t.k)
    ensures Unique(StepJob(c, jobs, t).view)
  {
    var after := StepJob(c, jobs, t).view;
    var job, st := jobs[t.k], c.states[t.k];
    JobPlaces(c.view, job, st, t.fault);
    AddsOne(c.view, job, st, t.fault);
    if |after| == |c.view| {
      SamePlacesUnique(c.view, after);
    } else {
      var run := after[|c.view|];
      assert Uncontested(c, jobs, run.taskId, run.contractRole) && StateOk(c.view, job, st);
      OwnClaims(c.view, job, st, t.fault, run.taskId, run.contractRole);
      AppendUnique(c.view, run);
    }
  }

  lemma StartInv(view: seq<Run>, jobs: seq<Job>)
    requires Unique(view) && !JobClash(view, jobs)
    ensures CrowdInv(AllStarted(view, jobs), jobs)
  {
    var c := AllStarted(view, jobs);
    forall taskId, role ensures Uncontested(c, jobs, taskId, role) {
      forall i | 0 <= i < |jobs|
        ensures ClaimsLeft(view, jobs[i], c.states[i], taskId, role)
             == if Latest(view, taskId, role).None? then Claims(jobs[i], taskId, role) else 0
      {
        assert c.states[i] == Started(jobs[i]);
      }
      assert Latest(view, taskId, role).None? ==> !Contested(jobs, taskId, role);
    }
  }

  lemma {:induction false} ScheduleKeepsInv(view: seq<Run>, jobs: seq<Job>, turns: seq<Turn>)
    requires Unique(view) && !JobClash(view, jobs)
    ensures CrowdInv(ExecJobs(AllStarted(view, jobs), jobs, turns), jobs)
  {
    if turns == [] {
      StartInv(view, jobs);
    } else {
      var n := |turns| - 1;
      var c := ExecJobs(AllStarted(view, jobs), jobs, turns[..n]);
      ScheduleKeepsInv(view, jobs, turns[..n]);
      if CanStep(c, jobs, turns[n].k) {
        StepKeepsInv(c, jobs, turns[n]);
      }
    }
  }

  // ---------------------------------------------------------------------------
  // Contested pairs
  // ---------------------------------------------------------------------------

  /** A job that has listed no run of the pair and is still to create one. */
  ghost predicate Poised(c: Crowd, jobs: seq<Job>, i: nat, taskId: string, role: Role) {
    && i < |jobs| == |c.states| && taskId != ""
    && match jobs[i]
       case WriteJob(w) => For(w, taskId, role) && c.states[i] == Writing(Absent)
       case SkipJob(t, _, roles, _) =>
         && t == taskId && c.states[i].Skipping? && ValidIds(c.view, c.states[i].listed, taskId)
         && FindRole(c.view, c.states[i].listed, role).None? && role in RolesLeft(roles, c.states[i].k)
       case SettleJob(_, _, _, _) => false
  }

  lemma PoisedStays(a: Crowd, b: Crowd, jobs: seq<Job>, i: nat, taskId: string, role: Role)
    requires Poised(a, jobs, i, taskId, role) && SamePlaces(a.view, b.view)
    requires |b.states| == |jobs| && b.states[i] == a.states[i]
    ensures Poised(b, jobs, i, taskId, role)
  {
    if jobs[i].SkipJob? {
      FindStays(a.view, b.view, a.states[i].listed, role);
    }
  }

  lemma {:induction false} CountIn(roles: seq<Role>, role: Role)
    ensures Count(roles, role) >= 1 <==> role in roles
  {
    if roles != [] {
      CountIn(roles[1..], role);
      assert role in roles <==> roles[0] == role || role in roles[1..];
    }
  }

  /** What comes after the first of two. */
  lemma {:induction false} CountAfter(roles: seq<Role>, role: Role, m: nat)
    requires Count(roles, role) >= 2 && m < |roles| && roles[m] == role
    requires forall n :: 0 <= n < m ==> roles[n] != role
    ensures role in roles[m + 1..]
  {
    if m == 0 {
      CountIn(roles[1..], role);
    } else {
      CountAfter(roles[1..], role, m - 1);
      assert roles[1..][m..] == roles[m + 1..];
    }
  }

  /** The first step of a job with a claim: it lists no run of the pair. */
  lemma ListsNone(c: Crowd, jobs: seq<Job>, i: nat, taskId: string, role: Role)
    requires i < |jobs| == |c.states| && c.states[i] == Started(jobs[i])
    requires Claims(jobs[i], taskId, role) >= 1 && Latest(c.view, taskId, role).None?
    ensures var after := StepJob(c, jobs, Turn(i, NoFault));
            && after == Crowd(c.view, c.states[i := after.states[i]]) && Poised(after, jobs, i, taskId, role)
            && (jobs[i].SkipJob? ==> after.states[i].k == 0)
  {
    if jobs[i].SkipJob? {
      var listed := Newest(c.view, taskId, None, 100);
      ListedValid(c.view, taskId);
      CountIn(jobs[i].roles, role);
      assert RolesLeft(jobs[i].roles, 0) == jobs[i].roles;
      var found := FindRole(c.view, listed, role);
      assert found.Some? ==> ForPair(c.view[found.value], taskId, role);
    }
  }

  // The steps of a skip.

  lemma LookMissing(c: Crowd, jobs: seq<Job>, i: nat, listed: seq<nat>, k: nat)
    requires i < |jobs| == |c.states| && jobs[i].SkipJob? && c.states[i] == Skipping(listed, k) && k < |jobs[i].roles|
    requires FindRole(c.view, listed, jobs[i].roles[k]).None?
    ensures StepJob(c, jobs, Turn(i, NoFault)) == Crowd(c.view, c.states[i := SkipAdding(listed, k)])
  {
  }

  lemma LookFound(c: Crowd, jobs: seq<Job>, i: nat, listed: seq<nat>, k: nat)
    requires i < |jobs| == |c.states| && jobs[i].SkipJob? && c.states[i] == Skipping(listed, k) && k < |jobs[i].roles|
    requires FindRole(c.view, listed, jobs[i].roles[k]).Some?
    ensures var id, after := FindRole(c.view, listed, jobs[i].roles[k]).value, StepJob(c, jobs, Turn(i, NoFault));
            after == Crowd(c.view, c.states[i := if Done(c.view[id]) then Skipping(listed, k + 1)
                                                 else SkipClosing(listed, k, id)])
  {
  }

  lemma AddNamed(c: Crowd, jobs: seq<Job>, i: nat, listed: seq<nat>, k: nat)
    requires i < |jobs| == |c.states| && jobs[i].SkipJob? && c.states[i] == SkipAdding(listed, k)
    requires k < |jobs[i].roles|
    ensures StepJob(c, jobs, Turn(i, NoFault))
         == Crowd(c.view + [QueuedRun(jobs[i].taskId, jobs[i].goalId, jobs[i].roles[k])],
                  c.states[i := SkipClosing(listed, k, |c.view|)])
  {
  }

  function SkippedAt(view: seq<Run>, id: nat, role: Role, note: Role -> string): seq<Run> {
    CompletedAt(view, id, Some(Skipped), [OfKind("pipeline_blocker")], note(role))
  }

  lemma CloseNamed(c: Crowd, jobs: seq<Job>, i: nat, listed: seq<nat>, k: nat, id: nat)
    requires i < |jobs| == |c.states| && jobs[i].SkipJob? && c.states[i] == SkipClosing(listed, k, id)
    requires k < |jobs[i].roles|
    ensures StepJob(c, jobs, Turn(i, NoFault))
         == Crowd(SkippedAt(c.view, id, jobs[i].roles[k], jobs[i].note), c.states[i := Skipping(listed, k + 1)])
  {
  }

  lemma ExecTwo(c: Crowd, jobs: seq<Job>, t: Turn)
    ensures ExecJobs(c, jobs, [t]) == StepJob(c, jobs, t)
    ensures ExecJobs(c, jobs, [t, t]) == StepJob(StepJob(c, jobs, t), jobs, t)
  {
    ExecJobsOne(c, jobs, [], t);
    ExecJobsOne(c, jobs, [t], t);
    assert [] + [t] == [t] && [t] + [t] == [t, t];
  }

  lemma ExecThree(c: Crowd, jobs: seq<Job>, t: Turn)
    ensures ExecJobs(c, jobs, [t, t, t]) == StepJob(ExecJobs(c, jobs, [t, t]), jobs, t)
  {
    ExecJobsOne(c, jobs, [t, t], t);
    assert [t, t] + [t] == [t, t, t];
  }

  /** What one role of a skip that nothing interleaves makes of the store. */
  function RoleSkipped(view: seq<Run>, job: Job, listed: seq<nat>, role: Role): seq<Run>
    requires job.SkipJob?
  {
    var found := FindRole(view, listed, role);
    if found.None? then
      SkippedAt(view + [QueuedRun(job.taskId, job.goalId, role)], |view|, role, job.note)
    else if Done(view[found.value]) then view
    else SkippedAt(view, found.value, role, job.note)
  }

  /** A skip gets past one role. */
  lemma PassRole(c: Crowd, jobs: seq<Job>, i: nat, listed: seq<nat>, k: nat) returns (turns: seq<Turn>)
    requires i < |jobs| == |c.states| && jobs[i].SkipJob? && c.states[i] == Skipping(listed, k) && k < |jobs[i].roles|
    ensures Faultless(turns)
    ensures ExecJobs(c, jobs, turns)
         == Crowd(RoleSkipped(c.view, jobs[i], listed, jobs[i].roles[k]), c.states[i := Skipping(listed, k + 1)])
  {
    var t := Turn(i, NoFault);
    var found := FindRole(c.view, listed, jobs[i].roles[k]);
    var c1 := StepJob(c, jobs, t);
    ExecTwo(c, jobs, t);
    if found.None? {
      turns := [t, t, t];
      LookMissing(c, jobs, i, listed, k);
      AddNamed(c1, jobs, i, listed, k);
      CloseNamed(StepJob(c1, jobs, t), jobs, i, listed, k, |c.view|);
      ExecThree(c, jobs, t);
    } else {
      LookFound(c, jobs, i, listed, k);
      if Done(c.view[found.value]) {
        turns := [t];
      } else {
        turns := [t, t];
        CloseNamed(c1, jobs, i, listed, k, found.value);
      }
    }
  }

  /** Only job `i` has moved, and there is a new run of the pair. */
  ghost predicate NewRunOf(a: Crowd, b: Crowd, i: nat, taskId: string, role: Role)
    requires i < |a.states|
  {
    && |b.states| == |a.states| && b.states == a.states[i := b.states[i]]
    && SamePlaces(a.view, b.view)
    && exists x :: |a.view| <= x < |b.view| && ForPair(b.view[x], taskId, role)
  }

  lemma NewRunLater(a: Crowd, b: Crowd, c: Crowd, i: nat, taskId: string, role: Role)
    requires i < |a.states| == |b.states| && b.states == a.states[i := b.states[i]] && SamePlaces(a.view, b.view)
    requires NewRunOf(b, c, i, taskId, role)
    ensures NewRunOf(a, c, i, taskId, role)
  {
    var x :| |b.view| <= x < |c.view| && ForPair(c.view[x], taskId, role);
    assert |a.view| <= x;
  }

  lemma CreatesHere(c: Crowd, jobs: seq<Job>, i: nat, taskId: string, role: Role) returns (turns: seq<Turn>)
    requires Poised(c, jobs, i, taskId, role) && jobs[i].SkipJob? && jobs[i].roles[c.states[i].k] == role
    ensures Faultless(turns) && NewRunOf(c, ExecJobs(c, jobs, turns), i, taskId, role)
    ensures ExecJobs(c, jobs, turns).states[i] == SkipClosing(c.states[i].listed, c.states[i].k, |c.view|)
  {
    var listed, k := c.states[i].listed, c.states[i].k;
    var t := Turn(i, NoFault);
    turns := [t, t];
    ExecTwo(c, jobs, t);
    LookMissing(c, jobs, i, listed, k);
    AddNamed(StepJob(c, jobs, t), jobs, i, listed, k);
    assert ForPair(ExecJobs(c, jobs, turns).view[|c.view|], taskId, role);
  }

  /** A skip that is poised creates a run of the pair, at the first mention of the role. */
  lemma {:induction false} SkipCreates(c: Crowd, jobs: seq<Job>, i: nat, taskId: string, role: Role)
    returns (turns: seq<Turn>, m: nat)
    requires Poised(c, jobs, i, taskId, role) && jobs[i].SkipJob?
    ensures Faultless(turns) && NewRunOf(c, ExecJobs(c, jobs, turns), i, taskId, role)
    ensures c.states[i].k <= m < |jobs[i].roles| && jobs[i].roles[m] == role
    ensures forall n :: c.states[i].k <= n < m ==> jobs[i].roles[n] != role
    ensures var st := ExecJobs(c, jobs, turns).states[i];
            st.SkipClosing? && st.listed == c.states[i].listed && st.k == m
    decreases |jobs[i].roles| - c.states[i].k
  {
    var k := c.states[i].k;
    if jobs[i].roles[k] == role {
      m := k;
      turns := CreatesHere(c, jobs, i, taskId, role);
    } else {
      var past := SkipPasses(c, jobs, i, taskId, role);
      var next := ExecJobs(c, jobs, past);
      var rest;
      rest, m := SkipCreates(next, jobs, i, taskId, role);
      ExecJobsAppend(c, jobs, past, rest);
      FaultlessBoth(past, rest);
      turns := past + rest;
      NewRunLater(c, next, ExecJobs(next, jobs, rest), i, taskId, role);
    }
  }

  lemma FaultlessBoth(a: seq<Turn>, b: seq<Turn>)
    requires Faultless(a) && Faultless(b)
    ensures Faultless(a + b)
  {
  }

  /** Past a role that is not the one at stake. */
  lemma SkipPasses(c: Crowd, jobs: seq<Job>, i: nat, taskId: string, role: Role) returns (past: seq<Turn>)
    requires Poised(c, jobs, i, taskId, role) && jobs[i].SkipJob? && jobs[i].roles[c.states[i].k] != role
    ensures Faultless(past)
    ensures var next := ExecJobs(c, jobs, past);
            && Poised(next, jobs, i, taskId, role) && SamePlaces(c.view, next.view)
            && next.states == c.states[i := Skipping(c.states[i].listed, c.states[i].k + 1)]
  {
    past := PassRole(c, jobs, i, c.states[i].listed, c.states[i].k);
    ExecJobsPlaces(c, jobs, past);
    PoisedPasses(c, ExecJobs(c, jobs, past), jobs, i, taskId, role);
  }

  /** A skip that has passed another role is poised still. */
  lemma PoisedPasses(a: Crowd, b: Crowd, jobs: seq<Job>, i: nat, taskId: string, role: Role)
    requires Poised(a, jobs, i, taskId, role) && jobs[i].SkipJob? && SamePlaces(a.view, b.view)
    requires jobs[i].roles[a.states[i].k] != role
    requires b.states == a.states[i := Skipping(a.states[i].listed, a.states[i].k + 1)]
    ensures Poised(b, jobs, i, taskId, role)
  {
    var roles, k := jobs[i].roles, a.states[i].k;
    FindStays(a.view, b.view, a.states[i].listed, role);
    assert RolesLeft(roles, k)[1..] == RolesLeft(roles, k + 1);
    assert RolesLeft(roles, k)[0] == roles[k];
  }

  /** So does any job that is poised. */
  lemma PoisedCreates(c: Crowd, jobs: seq<Job>, i: nat, taskId: string, role: Role) returns (turns: seq<Turn>)
    requires Poised(c, jobs, i, taskId, role)
    ensures Faultless(turns) && NewRunOf(c, ExecJobs(c, jobs, turns), i, taskId, role)
  {
    if jobs[i].SkipJob? {
      var m;
      turns, m := SkipCreates(c, jobs, i, taskId, role);
    } else {
      var t := Turn(i, NoFault);
      turns := [t];
      ExecTwo(c, jobs, t);
      assert ForPair(StepJob(c, jobs, t).view[|c.view|], taskId, role);
    }
  }

  /** A run of the pair among the old ones and one among the new ones. */
  lemma TwoRuns(a: seq<Run>, b: seq<Run>, n: nat, taskId: string, role: Role)
    requires SamePlaces(a, b) && n <= |a|
    requires exists x :: n <= x < |a| && ForPair(a[x], taskId, role)
    requires exists x :: |a| <= x < |b| && ForPair(b[x], taskId, role)
    ensures !Unique(b)
  {
    var x :| n <= x < |a| && ForPair(a[x], taskId, role);
    var y :| |a| <= y < |b| && ForPair(b[y], taskId, role);
    assert ForPair(b[x], taskId, role);
  }

  /** Two poised jobs each create one. */
  lemma BothCreateRuns(c: Crowd, jobs: seq<Job>, i: nat, j: nat, taskId: string, role: Role)
    returns (turns: seq<Turn>)
    requires i != j && Poised(c, jobs, i, taskId, role) && Poised(c, jobs, j, taskId, role)
    ensures Faultless(turns) && !Unique(ExecJobs(c, jobs, turns).view)
  {
    var first := PoisedCreates(c, jobs, i, taskId, role);
    var e := ExecJobs(c, jobs, first);
    PoisedStays(c, e, jobs, j, taskId, role);
    var second := PoisedCreates(e, jobs, j, taskId, role);
    TwoRuns(e.view, ExecJobs(e, jobs, second).view, |c.view|, taskId, role);
    turns := first + second;
    ExecJobsAppend(c, jobs, first, second);
  }

  /** Two jobs with a claim both list before either creates. */
  lemma BothList(c: Crowd, jobs: seq<Job>, i: nat, j: nat, taskId: string, role: Role) returns (listed: Crowd)
    requires i < j < |jobs| == |c.states| && c.states[i] == Started(jobs[i]) && c.states[j] == Started(jobs[j])
    requires Claims(jobs[i], taskId, role) >= 1 && Claims(jobs[j], taskId, role) >= 1
    requires Latest(c.view, taskId, role).None?
    ensures listed == StepJob(StepJob(c, jobs, Turn(i, NoFault)), jobs, Turn(j, NoFault))
    ensures Poised(listed, jobs, i, taskId, role) && Poised(listed, jobs, j, taskId, role)
  {
    var c1 := StepJob(c, jobs, Turn(i, NoFault));
    listed := StepJob(c1, jobs, Turn(j, NoFault));
    ListsNone(c, jobs, i, taskId, role);
    ListsNone(c1, jobs, j, taskId, role);
    PoisedStays(c1, listed, jobs, i, taskId, role);
  }

  lemma FirstTwo(c: Crowd, jobs: seq<Job>, s: Turn, t: Turn, rest: seq<Turn>)
    ensures ExecJobs(c, jobs, [s] + ([t] + rest)) == ExecJobs(StepJob(StepJob(c, jobs, s), jobs, t), jobs, rest)
  {
    ExecJobsFirst(c, jobs, s, [t] + rest);
    ExecJobsFirst(StepJob(c, jobs, s), jobs, t, rest);
  }

  /** Two jobs list, and then each creates. */
  lemma TwoJobsClash(c: Crowd, jobs: seq<Job>, i: nat, j: nat, taskId: string, role: Role)
    returns (turns: seq<Turn>)
    requires i < j < |jobs| == |c.states| && c.states[i] == Started(jobs[i]) && c.states[j] == Started(jobs[j])
    requires Claims(jobs[i], taskId, role) >= 1 && Claims(jobs[j], taskId, role) >= 1
    requires Latest(c.view, taskId, role).None?
    ensures Faultless(turns) && !Unique(ExecJobs(c, jobs, turns).view)
  {
    var ti, tj := Turn(i, NoFault), Turn(j, NoFault);
    var listed := BothList(c, jobs, i, j, taskId, role);
    var both := BothCreateRuns(listed, jobs, i, j, taskId, role);
    turns := [ti] + ([tj] + both);
    FirstTwo(c, jobs, ti, tj, both);
  }

  lemma PoisedAgain(a: Crowd, b: Crowd, jobs: seq<Job>, i: nat, m: nat, taskId: string, role: Role)
    requires Poised(a, jobs, i, taskId, role) && jobs[i].SkipJob? && SamePlaces(a.view, b.view)
    requires |b.states| == |jobs| && b.states[i] == Skipping(a.states[i].listed, m + 1)
    requires m < |jobs[i].roles| && role in jobs[i].roles[m + 1..]
    ensures Poised(b, jobs, i, taskId, role)
  {
    FindStays(a.view, b.view, a.states[i].listed, role);
    ValidStays(a.view, b.view, a.states[i].listed, taskId);
  }

  lemma NewRunStays(a: Crowd, b: Crowd, c: Crowd, i: nat, taskId: string, role: Role)
    requires i < |a.states| && NewRunOf(a, b, i, taskId, role) && SamePlaces(b.view, c.view)
    ensures exists x :: |a.view| <= x < |c.view| && ForPair(c.view[x], taskId, role)
  {
    var x :| |a.view| <= x < |b.view| && ForPair(b.view[x], taskId, role);
    assert ForPair(c.view[x], taskId, role);
  }

  /** A skip that has created one run of a role it names again is poised for another. */
  lemma CreatesOnce(c: Crowd, jobs: seq<Job>, i: nat, taskId: string, role: Role) returns (turns: seq<Turn>)
    requires Poised(c, jobs, i, taskId, role) && jobs[i].SkipJob? && c.states[i].k == 0
    requires Count(jobs[i].roles, role) >= 2
    ensures Faultless(turns) && Poised(ExecJobs(c, jobs, turns), jobs, i, taskId, role)
    ensures var e := ExecJobs(c, jobs, turns).view; exists x :: |c.view| <= x < |e| && ForPair(e[x], taskId, role)
  {
    var t := Turn(i, NoFault);
    var first, m := SkipCreates(c, jobs, i, taskId, role);
    var e := ExecJobs(c, jobs, first);
    var e1 := StepJob(e, jobs, t);
    CountAfter(jobs[i].roles, role, m);
    CloseNamed(e, jobs, i, c.states[i].listed, m, e.states[i].id);
    JobPlaces(e.view, jobs[i], e.states[i], NoFault);
    PoisedAgain(c, e1, jobs, i, m, taskId, role);
    NewRunStays(c, e, e1, i, taskId, role);
    turns := first + [t];
    ExecJobsOne(c, jobs, first, t);
  }

  lemma CreatesAgain(c: Crowd, jobs: seq<Job>, i: nat, taskId: string, role: Role) returns (turns: seq<Turn>)
    requires Poised(c, jobs, i, taskId, role) && jobs[i].SkipJob? && c.states[i].k == 0
    requires Count(jobs[i].roles, role) >= 2
    ensures Faultless(turns) && !Unique(ExecJobs(c, jobs, turns).view)
  {
    var once := CreatesOnce(c, jobs, i, taskId, role);
    var e := ExecJobs(c, jobs, once);
    var again := PoisedCreates(e, jobs, i, taskId, role);
    TwoRuns(e.view, ExecJobs(e, jobs, again).view, |c.view|, taskId, role);
    turns := once + again;
    ExecJobsAppend(c, jobs, once, again);
  }

  /** One skip names the role twice. */
  lemma OneJobClashes(view: seq<Run>, jobs: seq<Job>, i: nat, taskId: string, role: Role) returns (turns: seq<Turn>)
    requires i < |jobs| && Claims(jobs[i], taskId, role) >= 2 && Latest(view, taskId, role).None?
    ensures Faultless(turns) && !Unique(StoreAfter(view, jobs, turns))
  {
    var c, t := AllStarted(view, jobs), Turn(i, NoFault);
    ListsNone(c, jobs, i, taskId, role);
    var again := CreatesAgain(StepJob(c, jobs, t), jobs, i, taskId, role);
    turns := [t] + again;
    ExecJobsFirst(c, jobs, t, again);
  }

  lemma ClashWitness(view: seq<Run>, jobs: seq<Job>) returns (turns: seq<Turn>)
    requires JobClash(view, jobs)
    ensures Ends(view, jobs, turns) && Faultless(turns) && !Unique(StoreAfter(view, jobs, turns))
  {
    var taskId, role :| Latest(view, taskId, role).None? && Contested(jobs, taskId, role);
    var clash;
    if i :| 0 <= i < |jobs| && Claims(jobs[i], taskId, role) >= 2 {
      clash := OneJobClashes(view, jobs, i, taskId, role);
    } else {
      var i, j :| 0 <= i < j < |jobs| && Claims(jobs[i], taskId, role) >= 1 && Claims(jobs[j], taskId, role) >= 1;
      clash := TwoJobsClash(AllStarted(view, jobs), jobs, i, j, taskId, role);
    }
    var c := ExecJobs(AllStarted(view, jobs), jobs, clash);
    ExecInBounds(view, jobs, clash);
    var rest := RunOutAll(c, jobs, 0);
    turns := clash + rest;
    ExecJobsAppend(AllStarted(view, jobs), jobs, clash, rest);
    ExecJobsPlaces(c, jobs, rest);
    NotUniqueStays(c.view, StoreAfter(view, jobs, turns));
  }

  /** One run per pair stays so on every schedule of any writes, skips and settlings,
      whatever fails, exactly when no pair without a run is claimed twice. Otherwise a
      schedule without faults breaks it for good. */
  lemma JobsUniqueIff(view: seq<Run>, jobs: seq<Job>)
    requires Unique(view)
    ensures (forall turns :: Unique(StoreAfter(view, jobs, turns))) <==> !JobClash(view, jobs)
    ensures (forall turns :: Ends(view, jobs, turns) && Faultless(turns) ==> Unique(StoreAfter(view, jobs, turns)))
       <==> !JobClash(view, jobs)
  {
    if JobClash(view, jobs) {
      var turns := ClashWitness(view, jobs);
    } else {
      forall turns ensures Unique(StoreAfter(view, jobs, turns)) {
        ScheduleKeepsInv(view, jobs, turns);
      }
    }
  }
}
