/** Skipping the runs of the roles that follow a blocker. */
module AgentRunPipeline {
  import opened AgentArtifacts
  import opened AgentRunStore
  import opened AgentRunWriteback
  import opened AgentRunRoles
  import opened Wrappers

  // ---------------------------------------------------------------------------
  // skipDownstreamAgentRunsForBlocker
  // ---------------------------------------------------------------------------

  /** `note` gives the summary line a skipped run of a role gets. */
  function AsSkipped(run: Run, role: Role, note: Role -> string): Run {
    AsCompleted(run, Some(Skipped), [OfKind("pipeline_blocker")], note(role))
  }

  predicate Done(run: Run) {
    run.status == Completed || run.status == Skipped
  }

  function QueuedRun(taskId: string, goalId: string, role: Role): Run {
    NewRun(taskId, goalId, role, Queued, [], "")
  }

  /** The roles the task has no run for, as often as they are named. */
  function Missing(view: seq<Run>, taskId: string, roles: seq<Role>): (missing: seq<Role>)
    ensures forall r :: r in missing ==> r in roles && Latest(view, taskId, r).None?
  {
    if roles == [] then []
    else
      var n := |roles| - 1;
      Missing(view, taskId, roles[..n]) + (if Latest(view, taskId, roles[n]).None? then [roles[n]] else [])
  }

  /** The roles named whose run is not done yet. */
  function Halted(view: seq<Run>, taskId: string, roles: seq<Role>): set<Role> {
    set r | r in roles && Latest(view, taskId, r).Some? && !Done(view[Latest(view, taskId, r).value])
  }

  function HaltedRun(run: Run, taskId: string, roles: seq<Role>, note: Role -> string): Run {
    if run.taskId == taskId && run.contractRole in roles && !Done(run)
    then AsSkipped(run, run.contractRole, note)
    else run
  }

  function AddedRun(taskId: string, goalId: string, role: Role, note: Role -> string): Run {
    AsSkipped(QueuedRun(taskId, goalId, role), role, note)
  }

  /** One role of the loop: its run, looked up among those listed at the start, is done,
      is skipped now, or is missing and added as skipped. */
  function SkipOne(view: seq<Run>, now: seq<Run>, taskId: string, goalId: string, role: Role,
                   note: Role -> string): seq<Run>
    requires |view| <= |now|
  {
    var id := Latest(view, taskId, role);
    if id.None? then now + [AddedRun(taskId, goalId, role, note)]
    else if Done(now[id.value]) then now
    else now[id.value := AsSkipped(now[id.value], role, note)]
  }

  function SkippedAll(view: seq<Run>, taskId: string, goalId: string, roles: seq<Role>,
                      note: Role -> string): (after: seq<Run>)
    ensures |view| <= |after|
  {
    if roles == [] then view
    else
      var n := |roles| - 1;
      SkipOne(view, SkippedAll(view, taskId, goalId, roles[..n], note), taskId, goalId, roles[n], note)
  }

  function HaltedRuns(view: seq<Run>, taskId: string, roles: seq<Role>, note: Role -> string): (runs: seq<Run>)
    ensures |runs| == |view|
    ensures forall i :: 0 <= i < |view| ==> runs[i] == HaltedRun(view[i], taskId, roles, note)
  {
    if view == [] then []
    else HaltedRuns(view[..|view| - 1], taskId, roles, note) + [HaltedRun(view[|view| - 1], taskId, roles, note)]
  }

  function AddedRuns(taskId: string, goalId: string, missing: seq<Role>, note: Role -> string): (runs: seq<Run>)
    ensures |runs| == |missing|
    ensures forall k :: 0 <= k < |missing| ==> runs[k] == AddedRun(taskId, goalId, missing[k], note)
  {
    if missing == [] then []
    else
      AddedRuns(taskId, goalId, missing[..|missing| - 1], note)
        + [AddedRun(taskId, goalId, missing[|missing| - 1], note)]
  }

  predicate Distinct(roles: seq<Role>) {
    forall i, j :: 0 <= i < j < |roles| ==> roles[i] != roles[j]
  }

  predicate SamePair(a: Run, b: Run) {
    a.taskId == b.taskId && a.contractRole == b.contractRole
  }

  lemma HaltedRunOneMore(run: Run, taskId: string, roles: seq<Role>, role: Role, note: Role -> string)
    ensures var halted := HaltedRun(run, taskId, roles, note);
            HaltedRun(run, taskId, roles + [role], note)
            == if ForPair(run, taskId, role) && !Done(halted) then AsSkipped(halted, role, note) else halted
  {
  }

  lemma HaltedOneMore(view: seq<Run>, taskId: string, roles: seq<Role>, role: Role, note: Role -> string)
    requires Unique(view)
    ensures var id := Latest(view, taskId, role);
            var now := HaltedRuns(view, taskId, roles, note);
            HaltedRuns(view, taskId, roles + [role], note)
            == if id.None? || Done(now[id.value]) then now else now[id.value := AsSkipped(now[id.value], role, note)]
  {
    var id := Latest(view, taskId, role);
    var now, more := HaltedRuns(view, taskId, roles, note), HaltedRuns(view, taskId, roles + [role], note);
    forall i | 0 <= i < |view|
      ensures more[i] == if id == Some(i) && !Done(now[i]) then AsSkipped(now[i], role, note) else now[i]
    {
      HaltedRunOneMore(view[i], taskId, roles, role, note);
      assert ForPair(view[i], taskId, role) <==> id == Some(i);
    }
  }

  lemma MissingOneMore(view: seq<Run>, taskId: string, roles: seq<Role>, role: Role)
    ensures Missing(view, taskId, roles + [role])
         == Missing(view, taskId, roles) + (if Latest(view, taskId, role).None? then [role] else [])
  {
    assert (roles + [role])[..|roles|] == roles;
  }

  lemma Reassociate(a: seq<Run>, b: seq<Run>, x: Run)
    ensures a + (b + [x]) == a + b + [x]
  {
  }

  lemma UpdateFirst(a: seq<Run>, b: seq<Run>, i: nat, x: Run)
    requires i < |a|
    ensures (a + b)[i := x] == a[i := x] + b && (a + b)[i] == a[i]
  {
  }

  /** The store after skipping, at once: every run of a named role that was not done is
      skipped, every missing one is added as skipped, all other runs are as before. */
  lemma {:induction false} SkippedAllIs(view: seq<Run>, taskId: string, goalId: string, roles: seq<Role>,
                                        note: Role -> string)
    requires Unique(view)
    ensures SkippedAll(view, taskId, goalId, roles, note)
         == HaltedRuns(view, taskId, roles, note) + AddedRuns(taskId, goalId, Missing(view, taskId, roles), note)
  {
    if roles == [] {
      assert HaltedRuns(view, taskId, roles, note) == view;
    } else {
      var n := |roles| - 1;
      var reached, role := roles[..n], roles[n];
      assert reached + [role] == roles;
      SkippedAllIs(view, taskId, goalId, reached, note);
      HaltedOneMore(view, taskId, reached, role, note);
      MissingOneMore(view, taskId, reached, role);
      var missing := Missing(view, taskId, reached);
      var halted, added := HaltedRuns(view, taskId, reached, note), AddedRuns(taskId, goalId, missing, note);
      var id := Latest(view, taskId, role);
      if id.None? {
        assert (missing + [role])[..|missing|] == missing;
        Reassociate(halted, added, AddedRun(taskId, goalId, role, note));
      } else {
        UpdateFirst(halted, added, id.value, AsSkipped(halted[id.value], role, note));
      }
    }
  }

  // What skipping does, in terms of the runs alone.

  /** The run skipped: only its status, its words and its artifacts change, which are now
      those of the blocker. */
  ghost predicate BecameSkipped(before: Run, after: Run, note: Role -> string) {
    after == before.(status := Skipped, outputArtifacts := [Record("pipeline_blocker", "", "", false, None, "", 0)],
                     summary := if note(before.contractRole) != "" then note(before.contractRole) else before.summary)
  }

  /** One skipped run for each naming of a role that the task has no run of, in order. */
  ghost predicate AddsMissing(view: seq<Run>, added: seq<Run>, taskId: string, goalId: string, roles: seq<Role>,
                              note: Role -> string)
  {
    if roles == [] then added == []
    else
      var n, role := |roles| - 1, roles[|roles| - 1];
      if exists run :: run in view && run.taskId == taskId && run.contractRole == role
      then AddsMissing(view, added, taskId, goalId, roles[..n], note)
      else
        && added != [] && BecameSkipped(Run(taskId, goalId, role, [], Queued, "", []), added[|added| - 1], note)
        && AddsMissing(view, added[..|added| - 1], taskId, goalId, roles[..n], note)
  }

  /** The task's run of a named role is skipped now, unless it was completed or skipped. */
  ghost predicate SkippedFor(before: seq<Run>, after: seq<Run>, taskId: string, goalId: string, roles: seq<Role>,
                             note: Role -> string)
  {
    && |before| <= |after| && AddsMissing(before, after[|before|..], taskId, goalId, roles, note)
    && forall i :: 0 <= i < |before| ==>
         if i in ToSkip(before, taskId, roles) then BecameSkipped(before[i], after[i], note) else after[i] == before[i]
  }

  function ToSkip(view: seq<Run>, taskId: string, roles: seq<Role>): set<nat> {
    set i: nat | i < |view| && view[i].taskId == taskId && view[i].contractRole in roles
                 && view[i].status !in {Completed, Skipped}
  }

  lemma HasRun(view: seq<Run>, taskId: string, role: Role)
    ensures (exists run :: run in view && run.taskId == taskId && run.contractRole == role) <==>
      Latest(view, taskId, role).Some?
  {
    var id := Latest(view, taskId, role);
    if id.Some? {
      assert view[id.value] in view;
    }
    if run :| run in view && run.taskId == taskId && run.contractRole == role {
      var i :| 0 <= i < |view| && view[i] == run;
      assert ForPair(view[i], taskId, role);
    }
  }

  lemma OneMoreAdded(taskId: string, goalId: string, missing: seq<Role>, role: Role, note: Role -> string)
    ensures AddedRuns(taskId, goalId, missing + [role], note)
         == AddedRuns(taskId, goalId, missing, note) + [AddedRun(taskId, goalId, role, note)]
  {
    assert (missing + [role])[..|missing|] == missing;
  }

  lemma {:induction false} MissingAdded(view: seq<Run>, taskId: string, goalId: string, roles: seq<Role>,
                                        note: Role -> string)
    ensures var added := AddedRuns(taskId, goalId, Missing(view, taskId, roles), note);
            AddsMissing(view, added, taskId, goalId, roles, note)
  {
    if roles != [] {
      var n, role := |roles| - 1, roles[|roles| - 1];
      MissingAdded(view, taskId, goalId, roles[..n], note);
      HasRun(view, taskId, role);
      var earlier := Missing(view, taskId, roles[..n]);
      if Latest(view, taskId, role).Some? {
        assert Missing(view, taskId, roles) == earlier;
      } else {
        assert Missing(view, taskId, roles) == earlier + [role];
        OneMoreAdded(taskId, goalId, earlier, role, note);
        LastAdded(view, AddedRuns(taskId, goalId, earlier, note), taskId, goalId, roles, note);
      }
    }
  }

  lemma LastAdded(view: seq<Run>, earlier: seq<Run>, taskId: string, goalId: string, roles: seq<Role>,
                  note: Role -> string)
    requires roles != [] && AddsMissing(view, earlier, taskId, goalId, roles[..|roles| - 1], note)
    requires !(exists run :: run in view && run.taskId == taskId && run.contractRole == roles[|roles| - 1])
    ensures var more := earlier + [AddedRun(taskId, goalId, roles[|roles| - 1], note)];
            AddsMissing(view, more, taskId, goalId, roles, note)
  {
    var more := earlier + [AddedRun(taskId, goalId, roles[|roles| - 1], note)];
    assert more[..|more| - 1] == earlier;
  }

  lemma {:induction false} SameCount(view: seq<Run>, taskId: string, roles: set<Role>, ids: set<nat>)
    requires forall i :: i in ids ==> i < |view| && Latest(view, taskId, view[i].contractRole) == Some(i)
    requires forall i :: i in ids ==> view[i].contractRole in roles
    requires forall r :: r in roles ==> Latest(view, taskId, r).Some? && Latest(view, taskId, r).value in ids
    ensures |roles| == |ids|
  {
    if r :| r in roles {
      SameCount(view, taskId, roles - {r}, ids - {Latest(view, taskId, r).value});
    } else {
      assert ids == {};
    }
  }

  /** As many runs are skipped as roles are halted. */
  lemma HaltedCount(view: seq<Run>, taskId: string, roles: seq<Role>)
    requires Unique(view)
    ensures |Halted(view, taskId, roles)| == |ToSkip(view, taskId, roles)|
  {
    var ids := ToSkip(view, taskId, roles);
    forall i | i in ids ensures Latest(view, taskId, view[i].contractRole) == Some(i) {
      assert ForPair(view[i], taskId, view[i].contractRole);
    }
    SameCount(view, taskId, Halted(view, taskId, roles), ids);
  }

  lemma SkippedOld(view: seq<Run>, taskId: string, goalId: string, roles: seq<Role>, note: Role -> string, i: nat)
    requires Unique(view) && i < |view|
    ensures SkippedAll(view, taskId, goalId, roles, note)[i] == HaltedRun(view[i], taskId, roles, note)
  {
    SkippedAllIs(view, taskId, goalId, roles, note);
  }

  lemma SkippedNew(view: seq<Run>, taskId: string, goalId: string, roles: seq<Role>, note: Role -> string, k: nat)
    requires Unique(view) && k < |Missing(view, taskId, roles)|
    ensures |SkippedAll(view, taskId, goalId, roles, note)| == |view| + |Missing(view, taskId, roles)|
    ensures SkippedAll(view, taskId, goalId, roles, note)[|view| + k]
         == AddedRun(taskId, goalId, Missing(view, taskId, roles)[k], note)
  {
    SkippedAllIs(view, taskId, goalId, roles, note);
  }

  lemma HaltedAsTold(view: seq<Run>, taskId: string, roles: seq<Role>, note: Role -> string, i: nat)
    requires i < |view|
    ensures var after := HaltedRun(view[i], taskId, roles, note);
            if i in ToSkip(view, taskId, roles) then BecameSkipped(view[i], after, note) else after == view[i]
  {
  }

  lemma SkippedAsTold(view: seq<Run>, taskId: string, goalId: string, roles: seq<Role>, note: Role -> string)
    requires Unique(view)
    ensures SkippedFor(view, SkippedAll(view, taskId, goalId, roles, note), taskId, goalId, roles, note)
  {
    var after := SkippedAll(view, taskId, goalId, roles, note);
    forall i | 0 <= i < |view|
      ensures if i in ToSkip(view, taskId, roles) then BecameSkipped(view[i], after[i], note) else after[i] == view[i]
    {
      SkippedOld(view, taskId, goalId, roles, note, i);
      HaltedAsTold(view, taskId, roles, note, i);
    }
    NewAsTold(view, taskId, goalId, roles, note);
  }

  lemma NewAsTold(view: seq<Run>, taskId: string, goalId: string, roles: seq<Role>, note: Role -> string)
    requires Unique(view)
    ensures AddsMissing(view, SkippedAll(view, taskId, goalId, roles, note)[|view|..], taskId, goalId, roles, note)
  {
    SkippedAllIs(view, taskId, goalId, roles, note);
    MissingAdded(view, taskId, goalId, roles, note);
    var added := AddedRuns(taskId, goalId, Missing(view, taskId, roles), note);
    assert SkippedAll(view, taskId, goalId, roles, note)[|view|..] == added;
  }

  lemma SkippedPairs(view: seq<Run>, taskId: string, goalId: string, roles: seq<Role>, note: Role -> string)
    requires Unique(view)
    ensures var after, missing := SkippedAll(view, taskId, goalId, roles, note), Missing(view, taskId, roles);
            && |after| == |view| + |missing|
            && (forall i :: 0 <= i < |view| ==> SamePair(after[i], view[i]))
            && (forall k :: 0 <= k < |missing| ==> ForPair(after[|view| + k], taskId, missing[k]))
  {
    var after, missing := SkippedAll(view, taskId, goalId, roles, note), Missing(view, taskId, roles);
    assert |after| == |view| + |missing| by { SkippedAllIs(view, taskId, goalId, roles, note); }
    forall i | 0 <= i < |view| ensures SamePair(after[i], view[i]) {
      SkippedOld(view, taskId, goalId, roles, note, i);
    }
    forall k | 0 <= k < |missing| ensures ForPair(after[|view| + k], taskId, missing[k]) {
      SkippedNew(view, taskId, goalId, roles, note, k);
    }
  }

  /** Uniqueness of a store that was extended by runs of one task. */
  lemma UniqueIffDistinct(view: seq<Run>, after: seq<Run>, taskId: string, missing: seq<Role>)
    requires Unique(view) && |after| == |view| + |missing|
    requires forall i :: 0 <= i < |view| ==> SamePair(after[i], view[i])
    requires forall k :: 0 <= k < |missing| ==> ForPair(after[|view| + k], taskId, missing[k])
    requires forall r :: r in missing ==> Latest(view, taskId, r).None?
    ensures Unique(after) <==> Distinct(missing)
  {
    var n := |view|;
    if Distinct(missing) {
      forall i, j | 0 <= i < j < |after| && after[i].taskId == after[j].taskId
        ensures after[i].contractRole != after[j].contractRole
      {
        if j < n {
          assert SamePair(after[i], view[i]) && SamePair(after[j], view[j]);
        } else {
          assert ForPair(after[n + (j - n)], taskId, missing[j - n]);
          if i < n {
            assert SamePair(after[i], view[i]) && missing[j - n] in missing;
            assert !ForPair(view[i], taskId, missing[j - n]);
          } else {
            assert ForPair(after[n + (i - n)], taskId, missing[i - n]);
          }
        }
      }
    } else {
      var i, j :| 0 <= i < j < |missing| && missing[i] == missing[j];
      assert ForPair(after[n + i], taskId, missing[i]) && ForPair(after[n + j], taskId, missing[j]);
    }
  }

  /** One run per contract role stays so exactly when no missing role is listed twice. */
  lemma SkippingRolesUniqueIff(view: seq<Run>, taskId: string, goalId: string, roles: seq<Role>, note: Role -> string)
    requires Unique(view)
    ensures Unique(SkippedAll(view, taskId, goalId, roles, note)) <==> Distinct(Missing(view, taskId, roles))
  {
    SkippedPairs(view, taskId, goalId, roles, note);
    UniqueIffDistinct(view, SkippedAll(view, taskId, goalId, roles, note), taskId, Missing(view, taskId, roles));
  }

  // ---------------------------------------------------------------------------
  // Roles by name
  // ---------------------------------------------------------------------------

  /** The contract roles of the names up to the first unsupported one, at which the loop
      throws. */
  function NamedRoles(names: seq<string>): (roles: seq<Role>)
    ensures |roles| <= |names|
    ensures forall i :: 0 <= i < |roles| ==> NormalizeContractRole(names[i]) == Some(roles[i])
    ensures |roles| < |names| ==> NormalizeContractRole(names[|roles|]).None?
  {
    if names == [] || NormalizeContractRole(names[0]).None? then []
    else [NormalizeContractRole(names[0]).value] + NamedRoles(names[1..])
  }

  /** A role that the task has no run for is listed twice. */
  predicate TwiceMissing(view: seq<Run>, taskId: string, roles: seq<Role>) {
    exists i, j :: 0 <= i < j < |roles| && roles[i] == roles[j] && Latest(view, taskId, roles[i]).None?
  }

  /** Two of the names stand for the same role, which the task has no run for. */
  predicate MissingTwice(view: seq<Run>, taskId: string, names: seq<string>) {
    TwiceMissing(view, taskId, NamedRoles(names))
  }

  lemma TwiceOneMore(view: seq<Run>, taskId: string, roles: seq<Role>, role: Role)
    ensures TwiceMissing(view, taskId, roles + [role]) <==>
      TwiceMissing(view, taskId, roles) || (role in roles && Latest(view, taskId, role).None?)
  {
    var more := roles + [role];
    assert more[|roles|] == role;
    if role in roles {
      var i :| 0 <= i < |roles| && roles[i] == role;
      assert more[i] == role;
    }
    if i, j :| 0 <= i < j < |roles| && roles[i] == roles[j] && Latest(view, taskId, roles[i]).None? {
      assert more[i] == more[j] == roles[i];
    }
  }

  lemma {:induction false} DistinctMissingIff(view: seq<Run>, taskId: string, roles: seq<Role>)
    ensures Distinct(Missing(view, taskId, roles)) <==> !TwiceMissing(view, taskId, roles)
  {
    if roles != [] {
      var rest, last := roles[..|roles| - 1], roles[|roles| - 1];
      assert roles == rest + [last];
      DistinctMissingIff(view, taskId, rest);
      MissingNamed(view, taskId, rest, last);
      MissingOneMore(view, taskId, rest, last);
      TwiceOneMore(view, taskId, rest, last);
      DistinctOneMore(Missing(view, taskId, rest), last);
      assert Missing(view, taskId, rest) + [] == Missing(view, taskId, rest);
    }
  }

  lemma TwicePrefix(view: seq<Run>, taskId: string, roles: seq<Role>, k: nat)
    requires k <= |roles|
    ensures TwiceMissing(view, taskId, roles[..k]) ==> TwiceMissing(view, taskId, roles)
  {
    if i, j :| 0 <= i < j < k && roles[..k][i] == roles[..k][j] && Latest(view, taskId, roles[..k][i]).None? {
      assert roles[i] == roles[j];
    }
  }

  lemma DistinctOneMore(roles: seq<Role>, role: Role)
    ensures Distinct(roles + [role]) <==> Distinct(roles) && role !in roles
  {
    var more := roles + [role];
    assert forall i :: 0 <= i < |roles| ==> more[i] == roles[i];
    if Distinct(more) {
      assert more[|roles|] == role;
    }
  }

  lemma {:induction false} MissingNamed(view: seq<Run>, taskId: string, roles: seq<Role>, role: Role)
    ensures role in Missing(view, taskId, roles) <==> role in roles && Latest(view, taskId, role).None?
  {
    if roles != [] {
      MissingNamed(view, taskId, roles[..|roles| - 1], role);
    }
  }

  /** One run per contract role stays so exactly when no two names, up to the first
      unsupported one, stand for the same role without a run. */
  lemma SkippingKeepsUniqueIff(view: seq<Run>, taskId: string, goalId: string, names: seq<string>, note: Role -> string)
    requires Unique(view)
    ensures Unique(SkippedAll(view, taskId, goalId, NamedRoles(names), note)) <==> !MissingTwice(view, taskId, names)
  {
    SkippingRolesUniqueIff(view, taskId, goalId, NamedRoles(names), note);
    DistinctMissingIff(view, taskId, NamedRoles(names));
  }

  /** Two names of the verifier, which a task without runs then has two of. */
  lemma SynonymsMakeTwo(taskId: string, goalId: string, note: Role -> string)
    ensures NamedRoles(["qa", "tester"]) == [Verifier, Verifier]
    ensures !Unique(SkippedAll([], taskId, goalId, NamedRoles(["qa", "tester"]), note))
  {
    var names := ["qa", "tester"];
    assert names[1..] == ["tester"] && names[1..][1..] == [];
    assert NormalizeContractRole("qa") == Some(Verifier) == NormalizeContractRole("tester");
    assert NamedRoles(names) == [Verifier] + ([Verifier] + []);
    SkippingKeepsUniqueIff([], taskId, goalId, names, note);
  }

  /** Where a failing store may leave the loop: after a role, or in the middle of adding
      the run of the last role reached. */
  ghost predicate Interrupted(before: seq<Run>, after: seq<Run>, taskId: string, goalId: string, roles: seq<Role>,
                              note: Role -> string)
  {
    || after == SkippedAll(before, taskId, goalId, roles, note)
    || (roles != [] &&
        var last := roles[|roles| - 1];
        var reached := SkippedAll(before, taskId, goalId, roles[..|roles| - 1], note);
        || after == reached
        || (Latest(before, taskId, last).None? && after == reached + [QueuedRun(taskId, goalId, last)]))
  }

  lemma InterruptedKeepsUnique(before: seq<Run>, after: seq<Run>, taskId: string, goalId: string, roles: seq<Role>,
                               note: Role -> string)
    requires Unique(before) && Interrupted(before, after, taskId, goalId, roles, note)
    requires Distinct(Missing(before, taskId, roles))
    ensures Unique(after)
  {
    SkippingRolesUniqueIff(before, taskId, goalId, roles, note);
    if roles != [] {
      var reached, last := roles[..|roles| - 1], roles[|roles| - 1];
      assert reached + [last] == roles;
      MissingOneMore(before, taskId, reached, last);
      QueuedKeepsUnique(before, SkippedAll(before, taskId, goalId, reached, note), taskId, goalId, reached, last, note);
    }
  }

  lemma QueuedKeepsUnique(before: seq<Run>, now: seq<Run>, taskId: string, goalId: string, roles: seq<Role>, last: Role,
                          note: Role -> string)
    requires Unique(before) && now == SkippedAll(before, taskId, goalId, roles, note)
    requires Distinct(Missing(before, taskId, roles) + (if Latest(before, taskId, last).None? then [last] else []))
    ensures Unique(now)
    ensures Latest(before, taskId, last).None? ==> Unique(now + [QueuedRun(taskId, goalId, last)])
  {
    var missing := Missing(before, taskId, roles);
    var longer := missing + (if Latest(before, taskId, last).None? then [last] else []);
    forall i, j | 0 <= i < j < |missing| ensures missing[i] != missing[j] {
      assert longer[i] != longer[j];
    }
    SkippedPairs(before, taskId, goalId, roles, note);
    UniqueIffDistinct(before, now, taskId, missing);
    if Latest(before, taskId, last).None? {
      UniqueIffDistinct(before, now + [QueuedRun(taskId, goalId, last)], taskId, missing + [last]);
    }
  }

  /** Looking a role up among the runs listed at the start finds its run, if any. */
  predicate Finds(view: seq<Run>, ids: seq<nat>, taskId: string) {
    && (forall k :: 0 <= k < |ids| ==> ids[k] < |view| && view[ids[k]].taskId == taskId)
    && (forall i :: 0 <= i < |view| && view[i].taskId == taskId ==> i in ids)
  }

  lemma ListingFinds(view: seq<Run>, taskId: string)
    requires Unique(view) && taskId != ""
    ensures Finds(view, Newest(view, taskId, None, 100), taskId)
  {
    ListingComplete(view, taskId, 100);
    forall i | 0 <= i < |view| ensures i in NewestFirst(view, taskId, None) <==> view[i].taskId == taskId {
      NewestFirstSelects(view, taskId, None, i);
    }
  }

  /** `runs.find(...)`: the first listed run of the role. */
  method FindByRole(store: Store, ids: seq<nat>, role: Role) returns (id: Option<nat>)
    requires store.Valid() && forall k :: 0 <= k < |ids| ==> ids[k] < |store.runs|
    ensures id.Some? ==> id.value in ids && id.value < |store.runs| && store.View()[id.value].contractRole == role
    ensures id.None? ==> forall k :: 0 <= k < |ids| ==> store.View()[ids[k]].contractRole != role
  {
    ghost var view := store.View();
    for k := 0 to |ids|
      invariant forall j :: 0 <= j < k ==> view[ids[j]].contractRole != role
    {
      assert store.runs[ids[k]].Value() == view[ids[k]];
      if store.runs[ids[k]].contractRole == role {
        return Some(ids[k]);
      }
    }
    id := None;
  }

  lemma SkippedNone(view: seq<Run>, taskId: string, goalId: string, note: Role -> string)
    ensures SkippedAll(view, taskId, goalId, [], note) == view
    ensures |Missing(view, taskId, [])| + |Halted(view, taskId, [])| == 0
  {
    assert Halted(view, taskId, []) == {};
  }

  /** How many runs that skips. */
  lemma CountOneMore(view: seq<Run>, taskId: string, roles: seq<Role>, role: Role, note: Role -> string)
    requires Unique(view)
    ensures var id := Latest(view, taskId, role);
            |Missing(view, taskId, roles + [role])| + |Halted(view, taskId, roles + [role])|
            == |Missing(view, taskId, roles)| + |Halted(view, taskId, roles)|
               + (if id.None? || !Done(HaltedRun(view[id.value], taskId, roles, note)) then 1 else 0)
  {
    var id := Latest(view, taskId, role);
    MissingOneMore(view, taskId, roles, role);
    var halted := Halted(view, taskId, roles);
    if id.Some? && !Done(view[id.value]) && role !in roles {
      assert Halted(view, taskId, roles + [role]) == halted + {role};
    } else {
      assert Halted(view, taskId, roles + [role]) == halted;
    }
  }

  /** The two steps of the loop body: create the missing run, then complete it as skipped. */
  method SkipRole(store: Store, found: Option<nat>, taskId: string, goalId: string, role: Role, note: Role -> string)
    returns (ok: bool)
    requires store.Valid() && (found.Some? ==> found.value < |store.runs|)
    modifies store, store.runs
    ensures store.Valid() && old(store.runs) <= store.runs
    ensures forall i :: |old(store.runs)| <= i < |store.runs| ==> fresh(store.runs[i])
    ensures store.reliable ==> ok
    ensures found.Some? ==>
      var skipped := old(store.View())[found.value := AsSkipped(old(store.View())[found.value], role, note)];
      store.View() == skipped || (!ok && store.View() == old(store.View()))
    ensures found.None? ==>
      || store.View() == old(store.View()) + [AddedRun(taskId, goalId, role, note)]
      || (!ok && store.View() == old(store.View()) + [QueuedRun(taskId, goalId, role)])
      || (!ok && store.View() == old(store.View()))
  {
    ghost var before := store.View();
    if found.Some? {
      ok := store.Complete(found.value, Some(Skipped), [OfKind("pipeline_blocker")], note(role));
    } else {
      var id := store.Create(taskId, goalId, role, Queued, [], "");
      if id.None? {
        return false;
      }
      assert store.View() == before + [QueuedRun(taskId, goalId, role)];
      ok := store.Complete(id.value, Some(Skipped), [OfKind("pipeline_blocker")], note(role));
    }
  }

  /** All roles were reached, and `count` of them were skipped. */
  ghost predicate Reached(before: seq<Run>, now: seq<Run>, taskId: string, goalId: string, roles: seq<Role>,
                          note: Role -> string, count: nat)
  {
    && now == SkippedAll(before, taskId, goalId, roles, note)
    && count == |Missing(before, taskId, roles)| + |Halted(before, taskId, roles)|
  }

  /** What one turn may make of the store, by what the lookup found. */
  lemma TurnOutcome(before: seq<Run>, now: seq<Run>, taskId: string, goalId: string, roles: seq<Role>, role: Role,
                    note: Role -> string, count: nat, id: Option<nat>)
    requires Unique(before) && Reached(before, now, taskId, goalId, roles, note, count)
    requires id == Latest(before, taskId, role)
    ensures Interrupted(before, now, taskId, goalId, roles + [role], note)
    ensures id.None? ==>
      Interrupted(before, now + [QueuedRun(taskId, goalId, role)], taskId, goalId, roles + [role], note)
    ensures id.None? ==>
      Reached(before, now + [AddedRun(taskId, goalId, role, note)], taskId, goalId, roles + [role], note, count + 1)
    ensures id.Some? ==> id.value < |now|
    ensures id.Some? && Done(now[id.value]) ==> Reached(before, now, taskId, goalId, roles + [role], note, count)
    ensures id.Some? && !Done(now[id.value]) ==>
      Reached(before, now[id.value := AsSkipped(now[id.value], role, note)], taskId, goalId, roles + [role], note,
              count + 1)
  {
    assert (roles + [role])[..|roles|] == roles;
    CountOneMore(before, taskId, roles, role, note);
    if id.Some? {
      SkippedOld(before, taskId, goalId, roles, note, id.value);
    }
  }

  /** One turn of the loop. */
  method SkipTurn(store: Store, ids: seq<nat>, taskId: string, goalId: string, role: Role, note: Role -> string,
                  count: nat, ghost before: seq<Run>, ghost roles: seq<Role>, ghost listed: bool)
    returns (ok: bool, count': nat)
    requires store.Valid() && |before| <= |store.runs|
    requires forall k :: 0 <= k < |ids| ==> ids[k] < |before|
    requires listed ==> Unique(before) && Finds(before, ids, taskId)
    modifies store, store.runs
    ensures store.Valid() && old(store.runs) <= store.runs
    ensures forall i :: |old(store.runs)| <= i < |store.runs| ==> fresh(store.runs[i])
    ensures store.reliable ==> ok
    ensures listed && Reached(before, old(store.View()), taskId, goalId, roles, note, count) ==>
      && Interrupted(before, store.View(), taskId, goalId, roles + [role], note)
      && (ok ==> Reached(before, store.View(), taskId, goalId, roles + [role], note, count'))
  {
    ghost var now := store.View();
    var found := FindByRole(store, ids, role);
    if listed && Reached(before, now, taskId, goalId, roles, note, count) {
      SkippedPairs(before, taskId, goalId, roles, note);
      FoundIsLatest(before, now, ids, taskId, role, found);
      TurnOutcome(before, now, taskId, goalId, roles, role, note, count, found);
    }
    if found.Some? {
      var run := store.runs[found.value];
      assert now[found.value] == run.Value();
      if run.status == Completed || run.status == Skipped {
        return true, count;
      }
    }
    ok := SkipRole(store, found, taskId, goalId, role, note);
    count' := count + 1;
  }

  /** How the call ends: with the number of runs skipped, or by throwing. */
  datatype Exit = AllReached(skipped: nat) | StoreFailed | Unsupported

  /** Reaching one name more. */
  lemma NamedOneMore(names: seq<string>, roles: seq<Role>, k: nat)
    requires |roles| <= |names| && k <= |roles|
    requires forall i :: 0 <= i < |roles| ==> NormalizeContractRole(names[i]) == Some(roles[i])
    requires |roles| < |names| ==> NormalizeContractRole(names[|roles|]).None?
    ensures k < |roles| ==> roles[..k] + [roles[k]] == roles[..k + 1]
    ensures k < |names| ==> (k < |roles| <==> NormalizeContractRole(names[k]).Some?)
  {
  }

  /** What is known when the loop stops, after `reached` names. */
  ghost predicate Stopped(before: seq<Run>, now: seq<Run>, taskId: string, goalId: string, names: seq<string>,
                          note: Role -> string, reached: nat, exit: Exit)
    requires reached <= |NamedRoles(names)|
  {
    var roles := NamedRoles(names);
    && Interrupted(before, now, taskId, goalId, roles[..reached], note)
    && (!exit.StoreFailed? ==> now == SkippedAll(before, taskId, goalId, roles, note))
    && (!exit.StoreFailed? ==> SkippedFor(before, now, taskId, goalId, roles, note))
    && (exit.AllReached? ==> exit.skipped == |ToSkip(before, taskId, roles)| + (|now| - |before|))
  }

  /** The loop ended by itself or at an unsupported name. */
  lemma StoppedAtEnd(before: seq<Run>, now: seq<Run>, taskId: string, goalId: string, names: seq<string>,
                     note: Role -> string, reached: nat, exit: Exit, count: nat)
    requires reached == |NamedRoles(names)| && (exit == AllReached(count) || exit.Unsupported?)
    requires Reached(before, now, taskId, goalId, NamedRoles(names)[..reached], note, count) && Unique(before)
    ensures Stopped(before, now, taskId, goalId, names, note, reached, exit)
  {
    var roles := NamedRoles(names);
    assert roles[..reached] == roles;
    SkippedAsTold(before, taskId, goalId, roles, note);
    SkippedAllIs(before, taskId, goalId, roles, note);
    HaltedCount(before, taskId, roles);
  }

  /** The loop over the names; `reached` of them have been taken. */
  method SkipLoop(store: Store, ids: seq<nat>, taskId: string, goalId: string, names: seq<string>, note: Role -> string,
                  ghost before: seq<Run>, ghost listed: bool)
    returns (reached: nat, exit: Exit)
    requires store.Valid() && before == store.View() && forall k :: 0 <= k < |ids| ==> ids[k] < |before|
    requires listed ==> Unique(before) && Finds(before, ids, taskId)
    modifies store, store.runs
    ensures store.Valid() && old(store.runs) <= store.runs
    ensures forall i :: |old(store.runs)| <= i < |store.runs| ==> fresh(store.runs[i])
    ensures reached <= |NamedRoles(names)| && (store.reliable ==> !exit.StoreFailed?)
    ensures !exit.StoreFailed? ==>
      reached == |NamedRoles(names)| && (exit.AllReached? <==> |NamedRoles(names)| == |names|)
    ensures listed ==> Stopped(before, store.View(), taskId, goalId, names, note, reached, exit)
  {
    SkippedNone(before, taskId, goalId, note);
    ghost var roles := NamedRoles(names);
    var count := 0;
    reached, exit := 0, AllReached(0);
    while reached < |names| && exit.AllReached?
      invariant store.Valid() && old(store.runs) <= store.runs && reached <= |roles|
      invariant forall i :: |old(store.runs)| <= i < |store.runs| ==> fresh(store.runs[i])
      invariant store.reliable ==> !exit.StoreFailed?
      invariant exit.Unsupported? ==> reached == |roles| < |names|
      invariant listed && !exit.StoreFailed? ==>
        Reached(before, store.View(), taskId, goalId, roles[..reached], note, count)
      invariant listed && exit.StoreFailed? ==>
        Interrupted(before, store.View(), taskId, goalId, roles[..reached], note)
      decreases |names| - reached, exit.AllReached?
    {
      NamedOneMore(names, roles, reached);
      var role := NormalizeContractRole(names[reached]);
      if role.None? {
        exit := Unsupported;
      } else {
        var ok;
        ok, count := SkipTurn(store, ids, taskId, goalId, role.value, note, count, before, roles[..reached], listed);
        reached := reached + 1;
        exit := if ok then exit else StoreFailed;
      }
    }
    if exit.AllReached? {
      exit := AllReached(count);
    }
    if listed && !exit.StoreFailed? {
      StoppedAtEnd(before, store.View(), taskId, goalId, names, note, reached, exit, count);
    }
  }

  /** `skipDownstreamAgentRunsForBlocker`: each name is normalised in its turn, and an
      unsupported one throws then, with the runs before it skipped. */
  method SkipDownstreamAgentRuns(store: Store, taskId: string, goalId: string, names: seq<string>, note: Role -> string)
    returns (reached: nat, exit: Exit)
    requires store.Valid()
    modifies store, store.runs
    ensures store.Valid() && old(store.runs) <= store.runs
    ensures forall i :: |old(store.runs)| <= i < |store.runs| ==> fresh(store.runs[i])
    ensures taskId == "" ==> reached == 0 && exit == AllReached(0) && store.View() == old(store.View())
    ensures reached <= |NamedRoles(names)| && (store.reliable ==> !exit.StoreFailed?)
    ensures taskId != "" && !exit.StoreFailed? ==>
      reached == |NamedRoles(names)| && (exit.AllReached? <==> |NamedRoles(names)| == |names|)
    ensures Unique(old(store.View())) && taskId != "" ==>
      Stopped(old(store.View()), store.View(), taskId, goalId, names, note, reached, exit)
  {
    if taskId == "" {
      return 0, AllReached(0);
    }
    var listed := store.List(taskId, None, 100);
    if listed.None? {
      return 0, StoreFailed;
    }
    if Unique(store.View()) { ListingFinds(store.View(), taskId); }
    reached, exit := SkipLoop(store, listed.value, taskId, goalId, names, note, store.View(), Unique(store.View()));
  }

  lemma FoundIsLatest(before: seq<Run>, now: seq<Run>, ids: seq<nat>, taskId: string, role: Role, found: Option<nat>)
    requires Unique(before) && Finds(before, ids, taskId) && |before| <= |now|
    requires forall i :: 0 <= i < |before| ==> SamePair(now[i], before[i])
    requires found.Some? ==> found.value in ids && now[found.value].contractRole == role
    requires found.None? ==> forall k :: 0 <= k < |ids| ==> now[ids[k]].contractRole != role
    ensures found == Latest(before, taskId, role)
  {
    var id := Latest(before, taskId, role);
    if id.Some? {
      assert id.value in ids && SamePair(now[id.value], before[id.value]);
    }
    if found.Some? {
      assert SamePair(now[found.value], before[found.value]);
      assert ForPair(before[found.value], taskId, role);
    }
  }
}
