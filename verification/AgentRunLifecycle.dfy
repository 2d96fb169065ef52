/** Whole histories of a store: any sequence of writes, skips and settlings, each of
    which may fail at any of its store operations. */
module AgentRunLifecycle {
  import opened AgentArtifacts
  import opened AgentRunStore
  import opened AgentRunWriteback
  import opened AgentRunRoles
  import opened AgentRunPipeline
  import opened AgentRunSettling

  datatype Operation =
    | RoleWrite(w: Writeback)
    | SkipDownstream(names: seq<string>)
    | CompleteQueued(result: TaskResult)

  /** An operation on one task. */
  datatype Call = Call(taskId: string, goalId: string, operation: Operation)

  /** No two names of roles to skip stand for the same role without a run. */
  predicate KeepsUnique(view: seq<Run>, c: Call) {
    c.operation.SkipDownstream? ==> !MissingTwice(view, c.taskId, c.operation.names)
  }

  /** The roles to skip are named once each. */
  predicate NamesRolesOnce(c: Call) {
    c.operation.SkipDownstream? ==> Distinct(NamedRoles(c.operation.names))
  }

  lemma OnceKeepsUnique(view: seq<Run>, c: Call)
    requires NamesRolesOnce(c)
    ensures KeepsUnique(view, c)
  {
  }

  lemma FewerMissing(view: seq<Run>, taskId: string, names: seq<string>, reached: nat)
    requires !MissingTwice(view, taskId, names) && reached <= |NamedRoles(names)|
    ensures Distinct(Missing(view, taskId, NamedRoles(names)[..reached]))
  {
    TwicePrefix(view, taskId, NamedRoles(names), reached);
    DistinctMissingIff(view, taskId, NamedRoles(names)[..reached]);
  }

  method Perform(store: Store, c: Call, note: Role -> string)
    requires store.Valid()
    modifies store, store.runs
    ensures store.Valid() && old(store.runs) <= store.runs
    ensures forall i :: |old(store.runs)| <= i < |store.runs| ==> fresh(store.runs[i])
    ensures Unique(old(store.View())) && KeepsUnique(old(store.View()), c) ==> Unique(store.View())
  {
    ghost var before := store.View();
    match c.operation
    case RoleWrite(w) =>
      var outcome := WriteRole(store, c.taskId, c.goalId, w);
      if Unique(before) {
        UniqueKept(before, store.View(), WriteOf(c.taskId, c.goalId, w));
      }
    case SkipDownstream(names) =>
      var reached, exit := SkipDownstreamAgentRuns(store, c.taskId, c.goalId, names, note);
      if Unique(before) && KeepsUnique(before, c) && c.taskId != "" {
        FewerMissing(before, c.taskId, names, reached);
        InterruptedKeepsUnique(before, store.View(), c.taskId, c.goalId, NamedRoles(names)[..reached], note);
      }
    case CompleteQueued(result) =>
      var report := CompleteQueuedAgentRuns(store, c.taskId, c.goalId, result, note);
  }

  /** A store with at most one run per task and contract role stays so over any
      sequence of operations, whatever fails. */
  method PerformAll(store: Store, calls: seq<Call>, note: Role -> string)
    requires store.Valid() && Unique(store.View())
    requires forall k :: 0 <= k < |calls| ==> NamesRolesOnce(calls[k])
    modifies store, store.runs
    ensures store.Valid() && Unique(store.View())
  {
    for k := 0 to |calls|
      invariant store.Valid() && Unique(store.View()) && old(store.runs) <= store.runs
      invariant forall i :: |old(store.runs)| <= i < |store.runs| ==> fresh(store.runs[i])
    {
      OnceKeepsUnique(store.View(), calls[k]);
      Perform(store, calls[k], note);
    }
  }
}
