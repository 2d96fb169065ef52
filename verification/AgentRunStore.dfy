/** The store of agent runs: run objects in creation order, changed in place by the
    atomic `store.mutate` steps that create and complete them. */
module AgentRunStore {
  import opened AgentArtifacts
  import opened Wrappers

  datatype Status = Queued | Running | Completed | Failed | WaitingForReview | Cancelled | Skipped

  /** What a run object holds. The role name a run was given is kept as the contract
      role it stands for, the only thing about it that is ever looked at. */
  datatype Run = Run(taskId: string, goalId: string, contractRole: Role, inputArtifacts: seq<Artifact>,
                     status: Status, summary: string, outputArtifacts: seq<Artifact>)

  class AgentRun {
    const taskId: string
    const goalId: string
    const contractRole: Role
    const inputArtifacts: seq<Artifact>
    var status: Status
    var summary: string
    var outputArtifacts: seq<Artifact>

    constructor (run: Run)
      ensures Value() == run
    {
      taskId, goalId, contractRole := run.taskId, run.goalId, run.contractRole;
      inputArtifacts, status, summary, outputArtifacts := run.inputArtifacts, run.status, run.summary,
        run.outputArtifacts;
    }

    function Value(): Run
      reads this
    {
      Run(taskId, goalId, contractRole, inputArtifacts, status, summary, outputArtifacts)
    }
  }

  // ---------------------------------------------------------------------------
  // Listing
  // ---------------------------------------------------------------------------

  /** The filters of listAgentRuns; an empty task id or no role filters nothing. */
  predicate Selected(run: Run, taskId: string, role: Option<Role>) {
    && (taskId != "" ==> run.taskId == taskId)
    && (role.Some? ==> run.contractRole == role.value)
  }

  /** Ids of the selected runs, the newest first. */
  function NewestFirst(view: seq<Run>, taskId: string, role: Option<Role>): (ids: seq<nat>)
    ensures |ids| <= |view|
    ensures forall k :: 0 <= k < |ids| ==> ids[k] < |view|
  {
    if view == [] then []
    else
      var n := |view| - 1;
      (if Selected(view[n], taskId, role) then [n] else []) + NewestFirst(view[..n], taskId, role)
  }

  lemma {:induction false} NewestFirstSelects(view: seq<Run>, taskId: string, role: Option<Role>, i: nat)
    requires i < |view|
    ensures i in NewestFirst(view, taskId, role) <==> Selected(view[i], taskId, role)
  {
    var n := |view| - 1;
    if i < n {
      NewestFirstSelects(view[..n], taskId, role, i);
    }
  }

  /** `runs.slice(-limit).reverse()`. */
  function Newest(view: seq<Run>, taskId: string, role: Option<Role>, limit: nat): (ids: seq<nat>)
    ensures |ids| <= limit && forall k :: 0 <= k < |ids| ==> ids[k] < |view|
  {
    var ids := NewestFirst(view, taskId, role);
    if |ids| <= limit then ids else ids[..limit]
  }

  // ---------------------------------------------------------------------------
  // One run per task and contract role
  // ---------------------------------------------------------------------------

  predicate ForPair(run: Run, taskId: string, role: Role) {
    run.taskId == taskId && run.contractRole == role
  }

  predicate Unique(view: seq<Run>) {
    forall i, j :: 0 <= i < j < |view| && view[i].taskId == view[j].taskId ==>
      view[i].contractRole != view[j].contractRole
  }

  /** The newest run for a task and contract role. */
  function Latest(view: seq<Run>, taskId: string, role: Role): (id: Option<nat>)
    ensures id.Some? ==> id.value < |view| && ForPair(view[id.value], taskId, role)
    ensures id.Some? ==> forall i :: id.value < i < |view| ==> !ForPair(view[i], taskId, role)
    ensures id.None? ==> forall i :: 0 <= i < |view| ==> !ForPair(view[i], taskId, role)
  {
    if view == [] then None
    else if ForPair(view[|view| - 1], taskId, role) then Some(|view| - 1)
    else Latest(view[..|view| - 1], taskId, role)
  }

  /** Listing one run by task and role finds the newest one of the pair. */
  lemma {:induction false} NewestIsLatest(view: seq<Run>, taskId: string, role: Role)
    requires taskId != ""
    ensures Newest(view, taskId, Some(role), 1)
         == (var id := Latest(view, taskId, role); if id.Some? then [id.value] else [])
  {
    if view != [] {
      NewestIsLatest(view[..|view| - 1], taskId, role);
    }
  }

  const ALL_ROLES: set<Role> :=
    {ContextCurator, Planner, Builder, Verifier, Repairer, Reviewer, Finalizer, Integrator}

  function RolesOf(view: seq<Run>, taskId: string): (roles: set<Role>)
    ensures forall r :: r in roles ==> Latest(view, taskId, r).Some?
  {
    if view == [] then {}
    else
      var n := |view| - 1;
      RolesOf(view[..n], taskId) + (if view[n].taskId == taskId then {view[n].contractRole} else {})
  }

  lemma {:induction false} RolesOfListed(view: seq<Run>, taskId: string)
    requires Unique(view) && taskId != ""
    ensures |RolesOf(view, taskId)| == |NewestFirst(view, taskId, None)|
  {
    if view != [] {
      var n := |view| - 1;
      RolesOfListed(view[..n], taskId);
      if view[n].taskId == taskId {
        NewcomerHasNewRole(view, taskId);
      }
    }
  }

  lemma NewcomerHasNewRole(view: seq<Run>, taskId: string)
    requires Unique(view) && view != [] && view[|view| - 1].taskId == taskId
    ensures view[|view| - 1].contractRole !in RolesOf(view[..|view| - 1], taskId)
  {
    var n := |view| - 1;
    assert Latest(view[..n], taskId, view[n].contractRole).None?;
  }

  /** With one run per contract role a task has at most eight runs, so no limit of at
      least eight cuts its listing short. */
  lemma ListingComplete(view: seq<Run>, taskId: string, limit: nat)
    requires Unique(view) && taskId != "" && 8 <= limit
    ensures Newest(view, taskId, None, limit) == NewestFirst(view, taskId, None)
  {
    RolesOfListed(view, taskId);
    RoleCount(RolesOf(view, taskId));
  }

  lemma RoleCount(roles: set<Role>)
    ensures |roles| <= 8
  {
    forall r | r in roles ensures r in ALL_ROLES {
      assert r.ContextCurator? || r.Planner? || r.Builder? || r.Verifier? || r.Repairer? || r.Reviewer?
        || r.Finalizer? || r.Integrator?;
    }
    SubsetSize(roles, ALL_ROLES);
  }

  lemma {:induction false} SubsetSize(a: set<Role>, b: set<Role>)
    requires a <= b
    ensures |a| <= |b|
  {
    if a != {} {
      var x :| x in a;
      SubsetSize(a - {x}, b - {x});
    }
  }

  // ---------------------------------------------------------------------------
  // The store
  // ---------------------------------------------------------------------------

  /** A run as createAgentRun stores it. */
  function NewRun(taskId: string, goalId: string, role: Role, status: Status, outputArtifacts: seq<Artifact>,
                  summary: string): Run
  {
    Run(taskId, goalId, role, [], status, summary, outputArtifacts)
  }

  /** What completeAgentRun leaves: an unrecognised status means completed, an empty
      summary keeps the old one. */
  function AsCompleted(run: Run, status: Option<Status>, outputArtifacts: seq<Artifact>, summary: string): Run {
    run.(status := if status.Some? then status.value else Completed,
         summary := if summary != "" then summary else run.summary,
         outputArtifacts := outputArtifacts)
  }

  class Store {
    var runs: seq<AgentRun>
    /** Reading and saving never fail. */
    const reliable: bool

    constructor (reliable: bool)
      ensures Valid() && View() == [] && this.reliable == reliable
    {
      runs := [];
      this.reliable := reliable;
    }

    function View(): (view: seq<Run>)
      reads this, runs
      ensures |view| == |runs|
    {
      seq(|runs|, i requires 0 <= i < |runs| reads this, runs => runs[i].Value())
    }

    ghost predicate Valid()
      reads this
    {
      forall i, j :: 0 <= i < j < |runs| ==> runs[i] != runs[j]
    }

    /** listAgentRuns; nothing when the state cannot be loaded. */
    method List(taskId: string, role: Option<Role>, limit: nat) returns (ids: Option<seq<nat>>)
      ensures ids.Some? ==> ids.value == Newest(View(), taskId, role, limit)
      ensures reliable ==> ids.Some?
    {
      if * {
        ids := if reliable then Some(Newest(View(), taskId, role, limit)) else None;
      } else {
        ids := Some(Newest(View(), taskId, role, limit));
      }
    }

    /** createAgentRun; the id of the new run is its position. Saving may fail after
        the run is in memory. */
    method Create(taskId: string, goalId: string, role: Role, status: Status, outputArtifacts: seq<Artifact>,
                  summary: string)
      returns (id: Option<nat>)
      requires Valid()
      modifies this
      ensures Valid() && old(runs) <= runs && forall i :: |old(runs)| <= i < |runs| ==> fresh(runs[i])
      ensures View() == old(View()) ||
              View() == old(View()) + [NewRun(taskId, goalId, role, status, outputArtifacts, summary)]
      ensures id.Some? ==> id.value == |old(runs)| && id.value < |runs|
      ensures reliable ==> id.Some?
    {
      var loaded: bool := *;
      var saved: bool := *;
      if loaded || reliable {
        var run := new AgentRun(NewRun(taskId, goalId, role, status, outputArtifacts, summary));
        ghost var before := View();
        runs := runs + [run];
        assert View() == before + [run.Value()];
      }
      id := if reliable || (loaded && saved) then Some(|runs| - 1) else None;
    }

    /** completeAgentRun. */
    method Complete(id: nat, status: Option<Status>, outputArtifacts: seq<Artifact>, summary: string) returns (ok: bool)
      requires Valid()
      modifies runs
      ensures Valid()
      ensures id >= |runs| ==> !ok && View() == old(View())
      ensures id < |runs| ==>
        View() == old(View())
          || View() == old(View())[id := AsCompleted(old(View())[id], status, outputArtifacts, summary)]
      ensures ok ==>
        id < |runs| && View() == old(View())[id := AsCompleted(old(View())[id], status, outputArtifacts, summary)]
      ensures reliable && id < |runs| ==> ok
    {
      var loaded: bool := *;
      var saved: bool := *;
      if id < |runs| && (loaded || reliable) {
        var run := runs[id];
        ghost var before := View();
        run.status := if status.Some? then status.value else Completed;
        run.summary := if summary != "" then summary else run.summary;
        run.outputArtifacts := outputArtifacts;
        assert View() == before[id := AsCompleted(before[id], status, outputArtifacts, summary)];
      }
      ok := id < |runs| && (reliable || (loaded && saved));
    }
  }
}
