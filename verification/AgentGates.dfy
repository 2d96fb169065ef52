/** The completion gates that read the agent runs: which roles are gated, when a gate
    is open, and when the runs block completion. */
module AgentGates {
  import opened AgentArtifacts
  import opened AgentRunStore
  import opened AgentRunWriteback
  import opened AgentRunRoles
  import opened Wrappers

  /** Gated roles in order: every role but the repairer. */
  const GATE_ROLES: seq<Role> := [ContextCurator, Planner, Builder, Verifier, Reviewer, Finalizer, Integrator]

  predicate BaseGate(r: Role) {
    r == Planner || r == Builder || r == Verifier || r == Reviewer || r == Finalizer
  }

  /** Completed with a valid artifact contract. */
  predicate Met(run: Run) {
    run.status == Completed && ContractMet(run.contractRole, run.inputArtifacts + run.outputArtifacts)
  }

  /** The run alone opens the gate of its role; a skipped one does. */
  predicate Opens(run: Run) {
    run.status == Skipped || Met(run)
  }

  predicate GateOpen(runs: seq<Run>, role: Role) {
    exists i :: 0 <= i < |runs| && runs[i].contractRole == role && Opens(runs[i])
  }

  predicate Present(runs: seq<Run>, role: Role) {
    exists i :: 0 <= i < |runs| && runs[i].contractRole == role
  }

  /** With required roles given, those but the curator; else the base roles and the
      roles that have a run. */
  predicate Gated(runs: seq<Run>, required: Option<set<Role>>, role: Role) {
    role != Repairer &&
    match required
    case Some(rs) => role != ContextCurator && role in rs
    case None => BaseGate(role) || Present(runs, role)
  }

  ghost predicate GatesSatisfied(runs: seq<Run>, required: Option<set<Role>>) {
    forall role :: Gated(runs, required, role) ==> GateOpen(runs, role)
  }

  // ---------------------------------------------------------------------------
  // The gates in terms of the runs alone
  // ---------------------------------------------------------------------------

  /** The kind of artifact each role owes. */
  function Owed(role: Role): string {
    match role
    case Planner => "plan"
    case Builder => "change_summary"
    case Repairer => "repair"
    case Verifier => "verification"
    case Reviewer => "reviewer_decision"
    case Integrator => "integration"
    case Finalizer => "result"
    case ContextCurator => "context_bundle"
  }

  /** Completed, with an artifact of the kind owed among all the run's artifacts. */
  ghost predicate Delivered(run: Run) {
    && run.status == Completed
    && exists a :: a in run.inputArtifacts + run.outputArtifacts && KindForValue(a) == Some(Owed(run.contractRole))
  }

  /** Some run of the role was skipped or delivered. */
  ghost predicate Passed(runs: seq<Run>, role: Role) {
    exists run :: run in runs && run.contractRole == role && (run.status == Skipped || Delivered(run))
  }

  /** The roles that have to pass: those required but the curator and the repairer; and
      with none given the five that always have to, and the curator and the integrator if
      they have a run. */
  ghost predicate AllPassed(runs: seq<Run>, required: Option<set<Role>>) {
    match required
    case Some(roles) =>
      forall role :: role in roles && role !in {ContextCurator, Repairer} ==> Passed(runs, role)
    case None =>
      && (forall role :: role in {Planner, Builder, Verifier, Reviewer, Finalizer} ==> Passed(runs, role))
      && (forall run :: run in runs && run.contractRole in {ContextCurator, Integrator} ==>
           Passed(runs, run.contractRole))
  }

  lemma MetIff(run: Run)
    ensures Met(run) <==> Delivered(run)
  {
    var artifacts, kind := run.inputArtifacts + run.outputArtifacts, RequiredKind(run.contractRole);
    HasKindIff(artifacts, kind);
    if a :| a in artifacts && KindForValue(a) == Some(kind) {
      var i :| 0 <= i < |artifacts| && artifacts[i] == a;
    }
  }

  lemma OpenIff(runs: seq<Run>, role: Role)
    ensures GateOpen(runs, role) <==> Passed(runs, role)
  {
    forall run ensures Met(run) <==> Delivered(run) { MetIff(run); }
    if run :| run in runs && run.contractRole == role && (run.status == Skipped || Delivered(run)) {
      var i :| 0 <= i < |runs| && runs[i] == run;
      assert Opens(runs[i]);
    }
  }

  lemma PresentIff(runs: seq<Run>, role: Role)
    ensures Present(runs, role) <==> exists run :: run in runs && run.contractRole == role
  {
    if run :| run in runs && run.contractRole == role {
      var i :| 0 <= i < |runs| && runs[i] == run;
    }
  }

  /** The gates are satisfied exactly when those roles have passed. */
  lemma SatisfiedIff(runs: seq<Run>, required: Option<set<Role>>)
    ensures GatesSatisfied(runs, required) <==> AllPassed(runs, required)
  {
    forall role
      ensures GateOpen(runs, role) <==> Passed(runs, role)
      ensures Present(runs, role) <==> exists run :: run in runs && run.contractRole == role
    {
      OpenIff(runs, role);
      PresentIff(runs, role);
    }
    if required.None? && AllPassed(runs, required) {
      forall role | Gated(runs, required, role) ensures GateOpen(runs, role) {
        if !BaseGate(role) {
          var run :| run in runs && run.contractRole == role;
          assert role in {ContextCurator, Integrator};
        }
      }
    }
    if required.None? && GatesSatisfied(runs, required) {
      forall role | role in {Planner, Builder, Verifier, Reviewer, Finalizer} ensures Passed(runs, role) {
        assert Gated(runs, required, role);
      }
      forall run | run in runs && run.contractRole in {ContextCurator, Integrator}
        ensures Passed(runs, run.contractRole)
      {
        assert Gated(runs, required, run.contractRole);
      }
    }
  }

  // ---------------------------------------------------------------------------
  // evaluateAgentGates
  // ---------------------------------------------------------------------------

  datatype GateStatus = GateCompleted | GateSkipped | GateFailed | GatePending

  /** A gate is reported under the name of a run of its role. */
  datatype Gate = Gate(role: Role, name: string, satisfied: bool, missing: seq<string>, summary: string,
                       status: GateStatus)

  /** `runs.find(...)`. */
  function First(runs: seq<Run>, p: Run -> bool): (i: Option<nat>)
    ensures i.Some? ==> i.value < |runs| && p(runs[i.value])
    ensures i.None? ==> forall k :: 0 <= k < |runs| ==> !p(runs[k])
    ensures i.Some? ==> forall k :: 0 <= k < i.value ==> !p(runs[k])
  {
    if runs == [] then None
    else
      var n := |runs| - 1;
      var earlier := First(runs[..n], p);
      if earlier.Some? then earlier
      else if p(runs[n]) then (assert forall k :: 0 <= k < n ==> !p(runs[..n][k]); Some(n))
      else None
  }

  function FirstOfRole(runs: seq<Run>, role: Role): Option<nat> {
    First(runs, (run: Run) => run.contractRole == role)
  }

  function FirstWithStatus(runs: seq<Run>, role: Role, status: Status): Option<nat> {
    First(runs, (run: Run) => run.contractRole == role && run.status == status)
  }

  /** A completed run that meets its contract is preferred to the first completed one as
      what the gate reports about. */
  function ReportedRun(runs: seq<Run>, role: Role): Option<nat> {
    var met := First(runs, (run: Run) => run.contractRole == role && Met(run));
    if met.Some? then met else FirstWithStatus(runs, role, Completed)
  }

  /** The names the runs go by, which are never empty. */
  predicate Named(runs: seq<Run>, names: seq<string>) {
    && |names| == |runs|
    && forall i :: 0 <= i < |runs| ==> names[i] != "" && NormalizeContractRole(names[i]) == Some(runs[i].contractRole)
  }

  /** The name of the first of three runs that is there, else the role's own. */
  function NameOf(names: seq<string>, role: Role, a: Option<nat>, b: Option<nat>, c: Option<nat>): string
    requires (a.Some? ==> a.value < |names|) && (b.Some? ==> b.value < |names|) && (c.Some? ==> c.value < |names|)
  {
    if a.Some? then names[a.value]
    else if b.Some? then names[b.value]
    else if c.Some? then names[c.value]
    else RoleName(role)
  }

  /** One gate. */
  function EvaluateGate(runs: seq<Run>, names: seq<string>, role: Role): (gate: Gate)
    requires Named(runs, names)
    ensures gate.role == role && NormalizeContractRole(gate.name) == Some(role)
    ensures gate.satisfied <==> GateOpen(runs, role)
    ensures gate.missing == [] || gate.missing == [RequiredKind(role)]
  {
    CanonicalRole(role);
    var completed, skipped := ReportedRun(runs, role), FirstWithStatus(runs, role, Skipped);
    var valid := completed.Some? && Met(runs[completed.value]);
    var summary := if completed.Some? then runs[completed.value].summary else "";
    Gate(role, NameOf(names, role, completed, skipped, FirstOfRole(runs, role)), skipped.Some? || valid,
         if valid then [] else [RequiredKind(role)],
         if summary != "" then summary else if skipped.Some? then "(skipped)" else "",
         if completed.Some? then GateCompleted
         else if skipped.Some? then GateSkipped
         else if FirstWithStatus(runs, role, Failed).Some? then GateFailed
         else GatePending)
  }

  function RoleIndex(role: Role): nat {
    match role
    case ContextCurator => 0
    case Planner => 1
    case Builder => 2
    case Verifier => 3
    case Reviewer => 4
    case Finalizer => 5
    case Integrator => 6
    case Repairer => 7
  }

  /** The gated roles before `end` have a gate. */
  ghost predicate AllListed(runs: seq<Run>, required: Option<set<Role>>, gates: seq<Gate>, end: nat) {
    forall role :: Gated(runs, required, role) && RoleIndex(role) < end ==>
      exists k :: 0 <= k < |gates| && gates[k].role == role
  }

  /** The gates of the gated roles before `end`, in the order of the roles. */
  ghost predicate GatesBefore(runs: seq<Run>, names: seq<string>, required: Option<set<Role>>, gates: seq<Gate>,
                              end: nat)
    requires Named(runs, names)
  {
    && AllListed(runs, required, gates, end)
    && (forall k :: 0 <= k < |gates| ==>
         Gated(runs, required, gates[k].role) && gates[k] == EvaluateGate(runs, names, gates[k].role)
         && RoleIndex(gates[k].role) < end)
    && (forall j, k :: 0 <= j < k < |gates| ==> RoleIndex(gates[j].role) < RoleIndex(gates[k].role))
  }

  lemma OneMoreListed(runs: seq<Run>, required: Option<set<Role>>, gates: seq<Gate>, gate: Gate)
    requires AllListed(runs, required, gates, RoleIndex(gate.role))
    ensures AllListed(runs, required, gates + [gate], RoleIndex(gate.role) + 1)
  {
    var more := gates + [gate];
    assert more[|gates|].role == gate.role;
    forall r | Gated(runs, required, r) && RoleIndex(r) < RoleIndex(gate.role) + 1
      ensures exists k :: 0 <= k < |more| && more[k].role == r
    {
      if RoleIndex(r) < RoleIndex(gate.role) {
        var k :| 0 <= k < |gates| && gates[k].role == r;
        assert more[k].role == r;
      } else {
        assert r == gate.role;
      }
    }
  }

  lemma OneMoreGate(runs: seq<Run>, names: seq<string>, required: Option<set<Role>>, gates: seq<Gate>, gate: Gate)
    requires Named(runs, names)
    requires GatesBefore(runs, names, required, gates, RoleIndex(gate.role)) && Gated(runs, required, gate.role)
    requires gate == EvaluateGate(runs, names, gate.role)
    ensures GatesBefore(runs, names, required, gates + [gate], RoleIndex(gate.role) + 1)
  {
    OneMoreListed(runs, required, gates, gate);
    var more := gates + [gate];
    forall k | 0 <= k < |more| ensures more[k] == if k < |gates| then gates[k] else gate {
    }
  }

  /** The name of the last of the gates with a completed run. */
  function LastCompleted(gates: seq<Gate>): (last: Option<string>)
    ensures last.None? <==> forall k :: 0 <= k < |gates| ==> gates[k].status != GateCompleted
    ensures last.Some? ==>
      exists k :: 0 <= k < |gates| && gates[k].status == GateCompleted && gates[k].name == last.value
                  && forall j :: k < j < |gates| ==> gates[j].status != GateCompleted
  {
    if gates == [] then None
    else if gates[|gates| - 1].status == GateCompleted then Some(gates[|gates| - 1].name)
    else LastCompleted(gates[..|gates| - 1])
  }

  lemma RolesInOrder(g: nat)
    requires g < |GATE_ROLES|
    ensures RoleIndex(GATE_ROLES[g]) == g
    ensures forall role :: RoleIndex(role) == g ==> role == GATE_ROLES[g]
  {
    assert GATE_ROLES[0] == ContextCurator && GATE_ROLES[1] == Planner && GATE_ROLES[2] == Builder
      && GATE_ROLES[3] == Verifier && GATE_ROLES[4] == Reviewer && GATE_ROLES[5] == Finalizer
      && GATE_ROLES[6] == Integrator;
  }

  /** The names of the gates that are not satisfied. */
  function Unsatisfied(gates: seq<Gate>): (names: seq<string>)
    ensures forall k :: 0 <= k < |gates| && !gates[k].satisfied ==> gates[k].name in names
    ensures forall name :: name in names ==>
      exists k :: 0 <= k < |gates| && gates[k].name == name && !gates[k].satisfied
  {
    if gates == [] then []
    else
      var last := gates[|gates| - 1];
      Unsatisfied(gates[..|gates| - 1]) + if last.satisfied then [] else [last.name]
  }

  /** One of the names stands for the role. */
  ghost predicate Blocking(names: seq<string>, role: Role) {
    exists name :: name in names && NormalizeContractRole(name) == Some(role)
  }

  lemma UnsatisfiedBlock(runs: seq<Run>, names: seq<string>, required: Option<set<Role>>, gates: seq<Gate>, role: Role)
    requires Named(runs, names) && GatesBefore(runs, names, required, gates, 7)
    ensures Blocking(Unsatisfied(gates), role) <==> Gated(runs, required, role) && !GateOpen(runs, role)
  {
    var blocking := Unsatisfied(gates);
    if Gated(runs, required, role) && !GateOpen(runs, role) {
      assert RoleIndex(role) < 7;
      var k :| 0 <= k < |gates| && gates[k].role == role;
      assert gates[k].name in blocking;
    }
    if Blocking(blocking, role) {
      var name :| name in blocking && NormalizeContractRole(name) == Some(role);
      var k :| 0 <= k < |gates| && gates[k].name == name && !gates[k].satisfied;
      assert gates[k].role == role;
    }
  }

  lemma NothingBlocks(runs: seq<Run>, names: seq<string>, required: Option<set<Role>>, gates: seq<Gate>)
    requires Named(runs, names) && GatesBefore(runs, names, required, gates, 7)
    ensures Unsatisfied(gates) == [] <==> GatesSatisfied(runs, required)
  {
    var blocking := Unsatisfied(gates);
    if blocking != [] {
      assert blocking[0] in blocking;
      var k :| 0 <= k < |gates| && gates[k].name == blocking[0] && !gates[k].satisfied;
      assert Gated(runs, required, gates[k].role) && !GateOpen(runs, gates[k].role);
    } else {
      forall role | Gated(runs, required, role) ensures GateOpen(runs, role) {
        UnsatisfiedBlock(runs, names, required, gates, role);
      }
    }
  }

  lemma SkippedGate(runs: seq<Run>, names: seq<string>, required: Option<set<Role>>, gates: seq<Gate>, role: Role)
    requires Named(runs, names)
    requires GatesBefore(runs, names, required, gates, RoleIndex(role)) && !Gated(runs, required, role)
    ensures GatesBefore(runs, names, required, gates, RoleIndex(role) + 1)
  {
    forall r | Gated(runs, required, r) && RoleIndex(r) < RoleIndex(role) + 1
      ensures exists k :: 0 <= k < |gates| && gates[k].role == r
    {
      assert RoleIndex(r) < RoleIndex(role);
    }
  }

  /** The gates of the gated roles among these, in their order. */
  function GatesOf(runs: seq<Run>, names: seq<string>, required: Option<set<Role>>, roles: seq<Role>): seq<Gate>
    requires Named(runs, names)
  {
    if roles == [] then []
    else
      var last := roles[|roles| - 1];
      GatesOf(runs, names, required, roles[..|roles| - 1])
        + if Gated(runs, required, last) then [EvaluateGate(runs, names, last)] else []
  }

  lemma {:induction false} GatesListed(runs: seq<Run>, names: seq<string>, required: Option<set<Role>>, g: nat)
    requires Named(runs, names) && g <= |GATE_ROLES|
    ensures GatesBefore(runs, names, required, GatesOf(runs, names, required, GATE_ROLES[..g]), g)
  {
    if g > 0 {
      var gates, role := GatesOf(runs, names, required, GATE_ROLES[..g - 1]), GATE_ROLES[g - 1];
      GatesListed(runs, names, required, g - 1);
      RolesInOrder(g - 1);
      assert GATE_ROLES[..g][..g - 1] == GATE_ROLES[..g - 1];
      if Gated(runs, required, role) {
        OneMoreGate(runs, names, required, gates, EvaluateGate(runs, names, role));
      } else {
        SkippedGate(runs, names, required, gates, role);
        assert gates + [] == gates;
      }
    }
  }

  lemma LastAppended(gates: seq<Gate>, gate: Gate)
    ensures LastCompleted(gates + [gate])
         == if gate.status == GateCompleted then Some(gate.name) else LastCompleted(gates)
  {
    assert (gates + [gate])[..|gates|] == gates;
  }

  /** The loop over the roles. */
  method AllGates(runs: seq<Run>, names: seq<string>, required: Option<set<Role>>)
    returns (gates: seq<Gate>, lastCompleted: Option<string>)
    requires Named(runs, names)
    ensures gates == GatesOf(runs, names, required, GATE_ROLES) && lastCompleted == LastCompleted(gates)
  {
    gates, lastCompleted := [], None;
    for g := 0 to |GATE_ROLES|
      invariant gates == GatesOf(runs, names, required, GATE_ROLES[..g]) && lastCompleted == LastCompleted(gates)
    {
      var role := GATE_ROLES[g];
      assert GATE_ROLES[..g + 1][..g] == GATE_ROLES[..g];
      if Gated(runs, required, role) {
        var gate := EvaluateGate(runs, names, role);
        LastAppended(gates, gate);
        gates := gates + [gate];
        if gate.status == GateCompleted {
          lastCompleted := Some(gate.name);
        }
      }
    }
    assert GATE_ROLES[..|GATE_ROLES|] == GATE_ROLES;
  }

  datatype Which = Any | Done | DeliveredOne | SkippedOne | FailedOne

  ghost predicate IsOf(run: Run, role: Role, which: Which) {
    && run.contractRole == role
    && match which
       case Any => true
       case Done => run.status == Completed
       case DeliveredOne => Delivered(run)
       case SkippedOne => run.status == Skipped
       case FailedOne => run.status == Failed
  }

  ghost predicate HasOne(runs: seq<Run>, role: Role, which: Which) {
    exists run :: run in runs && IsOf(run, role, which)
  }

  ghost predicate FirstAt(runs: seq<Run>, k: int, role: Role, which: Which) {
    0 <= k < |runs| && IsOf(runs[k], role, which) && forall j :: 0 <= j < k ==> !IsOf(runs[j], role, which)
  }

  /** What a gate says of its role. */
  ghost predicate Judges(gate: Gate, runs: seq<Run>) {
    var role := gate.role;
    var delivered, skipped := HasOne(runs, role, DeliveredOne), HasOne(runs, role, SkippedOne);
    && (gate.satisfied <==> delivered || skipped) && gate.missing == (if delivered then [] else [Owed(role)])
    && gate.status == (if HasOne(runs, role, Done) then GateCompleted
                       else if skipped then GateSkipped
                       else if HasOne(runs, role, FailedOne) then GateFailed
                       else GatePending)
  }

  /** The name and words it says it with: those of the first run that delivered or, with
      none, of the first completed one; else the name of the first skipped one, else of the
      first run of the role. */
  ghost predicate Quotes(gate: Gate, runs: seq<Run>, names: seq<string>)
    requires |names| == |runs|
  {
    var role := gate.role;
    var skipped := HasOne(runs, role, SkippedOne);
    if HasOne(runs, role, Done) then
      exists k :: FirstAt(runs, k, role, if HasOne(runs, role, DeliveredOne) then DeliveredOne else Done)
        && gate.name == names[k]
        && gate.summary == if runs[k].summary == "" && skipped then "(skipped)" else runs[k].summary
    else if skipped then
      gate.summary == "(skipped)" && exists k :: FirstAt(runs, k, role, SkippedOne) && gate.name == names[k]
    else
      && gate.summary == ""
      && if HasOne(runs, role, Any) then exists k :: FirstAt(runs, k, role, Any) && gate.name == names[k]
         else gate.name == RoleName(role)
  }

  /** `first` is the first run of this sort, if there is one. */
  ghost predicate Finds(runs: seq<Run>, role: Role, which: Which, first: Option<nat>) {
    && (first.Some? <==> HasOne(runs, role, which))
    && (first.Some? ==> FirstAt(runs, first.value, role, which))
  }

  lemma FirstOne(runs: seq<Run>, role: Role, which: Which, p: Run -> bool)
    requires forall run: Run :: p(run) <==> IsOf(run, role, which)
    ensures Finds(runs, role, which, First(runs, p))
  {
    var i := First(runs, p);
    if i.Some? {
      assert runs[i.value] in runs;
    }
    if run :| run in runs && IsOf(run, role, which) {
      var k :| 0 <= k < |runs| && runs[k] == run;
    }
  }

  lemma FindsOfRole(runs: seq<Run>, role: Role)
    ensures Finds(runs, role, Any, FirstOfRole(runs, role))
  {
    FirstOne(runs, role, Any, (run: Run) => run.contractRole == role);
  }

  lemma FindsWithStatus(runs: seq<Run>, role: Role, status: Status, which: Which)
    requires (status, which) in {(Completed, Done), (Skipped, SkippedOne), (Failed, FailedOne)}
    ensures Finds(runs, role, which, FirstWithStatus(runs, role, status))
  {
    FirstOne(runs, role, which, (run: Run) => run.contractRole == role && run.status == status);
  }

  lemma FindsReported(runs: seq<Run>, role: Role)
    ensures Finds(runs, role, if HasOne(runs, role, DeliveredOne) then DeliveredOne else Done, ReportedRun(runs, role))
  {
    forall run ensures Met(run) <==> Delivered(run) { MetIff(run); }
    FirstOne(runs, role, DeliveredOne, (run: Run) => run.contractRole == role && Met(run));
    FindsWithStatus(runs, role, Completed, Done);
  }

  lemma DeliveredIsDone(runs: seq<Run>, role: Role)
    requires HasOne(runs, role, DeliveredOne)
    ensures HasOne(runs, role, Done)
  {
    var run :| run in runs && IsOf(run, role, DeliveredOne);
    assert IsOf(run, role, Done);
  }

  /** The completed run a gate reports delivered if any did. */
  lemma ReportedDelivered(runs: seq<Run>, role: Role)
    ensures var completed := ReportedRun(runs, role);
            && (completed.Some? <==> HasOne(runs, role, Done))
            && (completed.Some? ==> (Met(runs[completed.value]) <==> HasOne(runs, role, DeliveredOne)))
            && (HasOne(runs, role, DeliveredOne) ==> HasOne(runs, role, Done))
  {
    FindsReported(runs, role);
    var completed := ReportedRun(runs, role);
    if completed.Some? {
      MetIff(runs[completed.value]);
    }
    if HasOne(runs, role, DeliveredOne) {
      DeliveredIsDone(runs, role);
    } else if completed.Some? {
      assert runs[completed.value] in runs && !IsOf(runs[completed.value], role, DeliveredOne);
    }
  }

  lemma GateJudges(runs: seq<Run>, names: seq<string>, role: Role)
    requires Named(runs, names)
    ensures Judges(EvaluateGate(runs, names, role), runs)
  {
    ReportedDelivered(runs, role);
    FindsWithStatus(runs, role, Skipped, SkippedOne);
    FindsWithStatus(runs, role, Failed, FailedOne);
  }

  lemma GateQuotes(runs: seq<Run>, names: seq<string>, role: Role)
    requires Named(runs, names)
    ensures Quotes(EvaluateGate(runs, names, role), runs, names)
  {
    ReportedDelivered(runs, role);
    FindsOfRole(runs, role);
    FindsReported(runs, role);
    FindsWithStatus(runs, role, Skipped, SkippedOne);
  }

  /** All gates, the names of those that block, and the name of the last completed role. */
  method EvaluateAgentGates(runs: seq<Run>, names: seq<string>, required: Option<set<Role>>)
    returns (satisfied: bool, gates: seq<Gate>, blocking: seq<string>, lastCompleted: Option<string>)
    requires Named(runs, names)
    ensures satisfied <==> AllPassed(runs, required)
    // The blocking names stand for exactly the gated roles whose gate is closed.
    ensures forall role :: Blocking(blocking, role) <==> Gated(runs, required, role) && !GateOpen(runs, role)
    ensures GatesBefore(runs, names, required, gates, 7)
    ensures blocking == Unsatisfied(gates) && lastCompleted == LastCompleted(gates)
    // Each gate judges its role by the runs and quotes one of them.
    ensures forall k :: 0 <= k < |gates| ==> Judges(gates[k], runs) && Quotes(gates[k], runs, names)
  {
    gates, lastCompleted := AllGates(runs, names, required);
    GatesListed(runs, names, required, |GATE_ROLES|);
    assert GATE_ROLES[..|GATE_ROLES|] == GATE_ROLES;
    blocking := Unsatisfied(gates);
    forall role ensures Blocking(blocking, role) <==> Gated(runs, required, role) && !GateOpen(runs, role) {
      UnsatisfiedBlock(runs, names, required, gates, role);
    }
    satisfied := |blocking| == 0;
    NothingBlocks(runs, names, required, gates);
    SatisfiedIff(runs, required);
    forall k | 0 <= k < |gates| ensures Judges(gates[k], runs) && Quotes(gates[k], runs, names) {
      GateJudges(runs, names, gates[k].role);
      GateQuotes(runs, names, gates[k].role);
    }
  }

  // ---------------------------------------------------------------------------
  // What gates depend on
  // ---------------------------------------------------------------------------

  lemma GateOpenWithin(a: seq<Run>, b: seq<Run>, role: Role)
    requires GateOpen(a, role) && forall i :: 0 <= i < |a| ==> a[i] in b
    ensures GateOpen(b, role)
  {
    var i :| 0 <= i < |a| && a[i].contractRole == role && Opens(a[i]);
    assert a[i] in b;
    var j :| 0 <= j < |b| && b[j] == a[i];
  }

  /** With the required roles fixed, adding runs never closes a gate. */
  lemma GatesMonotone(a: seq<Run>, b: seq<Run>, required: set<Role>)
    requires GatesSatisfied(a, Some(required)) && forall i :: 0 <= i < |a| ==> a[i] in b
    ensures GatesSatisfied(b, Some(required))
  {
    forall role | Gated(b, Some(required), role) ensures GateOpen(b, role) {
      assert Gated(a, Some(required), role);
      GateOpenWithin(a, b, role);
    }
  }

  lemma PresentWithin(a: seq<Run>, b: seq<Run>, role: Role)
    requires Present(a, role) && forall i :: 0 <= i < |a| ==> a[i] in b
    ensures Present(b, role)
  {
    var i :| 0 <= i < |a| && a[i].contractRole == role;
    assert a[i] in b;
    var j :| 0 <= j < |b| && b[j] == a[i];
  }

  /** The order of the runs does not matter. */
  lemma GatesPermute(a: seq<Run>, b: seq<Run>, required: Option<set<Role>>)
    requires multiset(a) == multiset(b) && GatesSatisfied(a, required)
    ensures GatesSatisfied(b, required)
  {
    forall i | 0 <= i < |a| ensures a[i] in b { assert a[i] in multiset(b); }
    forall i | 0 <= i < |b| ensures b[i] in a { assert b[i] in multiset(a); }
    forall role | Gated(b, required, role) ensures GateOpen(b, role) {
      if required.None? && Present(b, role) {
        PresentWithin(b, a, role);
      }
      assert Gated(a, required, role);
      GateOpenWithin(a, b, role);
    }
  }

  /** Without required roles, adding a run keeps satisfied gates satisfied exactly when
      its role is not gated, was gated already, or the run opens its own gate. */
  lemma AddingKeepsGatesIff(runs: seq<Run>, run: Run)
    requires GatesSatisfied(runs, None)
    ensures GatesSatisfied(runs + [run], None) <==>
      run.contractRole == Repairer || Gated(runs, None, run.contractRole) || Opens(run)
  {
    var more := runs + [run];
    assert forall i :: 0 <= i < |runs| ==> more[i] == runs[i];
    assert more[|runs|] == run;
    forall role | Gated(runs, None, role) ensures GateOpen(more, role) {
      GateOpenWithin(runs, more, role);
    }
    if run.contractRole != Repairer && !Gated(runs, None, run.contractRole) && !Opens(run) {
      assert Gated(more, None, run.contractRole);
      assert !GateOpen(more, run.contractRole);
    }
  }

  // ---------------------------------------------------------------------------
  // agentRunsBlockCompletion
  // ---------------------------------------------------------------------------

  predicate BlockingRole(r: Role) {
    r == Verifier || r == Reviewer || r == Finalizer || r == Integrator
  }

  predicate Blocks(run: Run) {
    BlockingRole(run.contractRole) &&
    if run.status != Completed && run.status != Skipped then true
    else if run.status == Skipped then false
    else !ContractMet(run.contractRole, run.inputArtifacts + run.outputArtifacts)
  }

  predicate AgentRunsBlockCompletion(runs: seq<Run>) {
    exists i :: 0 <= i < |runs| && Blocks(runs[i])
  }

  predicate OnePerRole(runs: seq<Run>) {
    forall i, j :: 0 <= i < j < |runs| ==> runs[i].contractRole != runs[j].contractRole
  }

  /** The gate of some verifier, reviewer, finalizer or integrator that has a run is
      closed. */
  ghost predicate ClosedGate(runs: seq<Run>) {
    exists role :: BlockingRole(role) && Present(runs, role) && !GateOpen(runs, role)
  }

  /** Where such a gate is open, all runs of the role open it. */
  ghost predicate OpenByAll(runs: seq<Run>) {
    forall i :: 0 <= i < |runs| && BlockingRole(runs[i].contractRole) && GateOpen(runs, runs[i].contractRole) ==>
      Opens(runs[i])
  }

  /** A run of the verifier, reviewer, finalizer or integrator that was not skipped and has
      not delivered. */
  ghost predicate Undelivered(run: Run) {
    run.contractRole in {Verifier, Reviewer, Finalizer, Integrator} && run.status != Skipped && !Delivered(run)
  }

  /** Those are the runs that block. */
  lemma BlocksWhen(runs: seq<Run>)
    ensures AgentRunsBlockCompletion(runs) <==> exists run :: run in runs && Undelivered(run)
  {
    forall run ensures Met(run) <==> Delivered(run) { MetIff(run); }
    if i :| 0 <= i < |runs| && Blocks(runs[i]) {
      assert runs[i] in runs && Undelivered(runs[i]);
    }
    if run :| run in runs && Undelivered(run) {
      var i :| 0 <= i < |runs| && runs[i] == run;
      assert Blocks(runs[i]);
    }
  }

  /** The runs block completion exactly when a gate is closed or some run does not open
      its open gate. */
  lemma BlocksIff(runs: seq<Run>)
    ensures AgentRunsBlockCompletion(runs) <==> ClosedGate(runs) || !OpenByAll(runs)
  {
    if i :| 0 <= i < |runs| && Blocks(runs[i]) {
      assert Present(runs, runs[i].contractRole);
    }
    if role :| BlockingRole(role) && Present(runs, role) && !GateOpen(runs, role) {
      var i :| 0 <= i < |runs| && runs[i].contractRole == role;
      assert Blocks(runs[i]);
    }
    if i :| 0 <= i < |runs| && BlockingRole(runs[i].contractRole) && !Opens(runs[i]) {
      assert Blocks(runs[i]);
    }
  }

  /** Blocking and a closed gate agree on a list of runs exactly when a gate is closed
      or all runs open the gates that are open. */
  lemma BlocksAgreesIff(runs: seq<Run>)
    ensures (AgentRunsBlockCompletion(runs) <==> ClosedGate(runs)) <==> ClosedGate(runs) || OpenByAll(runs)
  {
    BlocksIff(runs);
  }

  /** So they agree when there is one run per role. */
  lemma BlocksIffClosedGate(runs: seq<Run>)
    requires OnePerRole(runs)
    ensures AgentRunsBlockCompletion(runs) <==> ClosedGate(runs)
  {
    forall i | 0 <= i < |runs| ensures GateOpen(runs, runs[i].contractRole) <==> Opens(runs[i]) {
      if GateOpen(runs, runs[i].contractRole) {
        var j :| 0 <= j < |runs| && runs[j].contractRole == runs[i].contractRole && Opens(runs[j]);
        assert !(i < j) && !(j < i);
      }
    }
    BlocksIff(runs);
  }

  /** With several runs of one role they may not: an open gate does not keep a failed
      run from blocking. */
  lemma OpenGateStillBlocks(good: Run, bad: Run)
    requires good.contractRole == Verifier && Opens(good)
    requires bad.contractRole == Verifier && bad.status == Failed
    ensures GateOpen([good, bad], Verifier) && AgentRunsBlockCompletion([good, bad]) && !ClosedGate([good, bad])
  {
    assert Opens([good, bad][0]) && Blocks([good, bad][1]);
  }

  // ---------------------------------------------------------------------------
  // Writers and gates
  // ---------------------------------------------------------------------------

  lemma {:induction false} KindInSum(a: seq<Artifact>, b: seq<Artifact>, kind: string)
    ensures HasArtifactKind(a + b, kind) <==> HasArtifactKind(a, kind) || HasArtifactKind(b, kind)
  {
    if a == [] {
      assert a + b == b;
    } else {
      assert (a + b)[1..] == a[1..] + b;
      KindInSum(a[1..], b, kind);
    }
  }

  lemma {:induction false} KindInTruthy(artifacts: seq<Artifact>, kind: string)
    ensures HasArtifactKind(Truthy(artifacts), kind) <==> HasArtifactKind(artifacts, kind)
  {
    if artifacts != [] {
      KindInTruthy(artifacts[1..], kind);
      KindInSum(if artifacts[0] == Name("") then [] else [artifacts[0]], Truthy(artifacts[1..]), kind);
      assert KindForValue(Name("")) == None;
    }
  }

  lemma {:induction false} AllAdded(held: seq<Artifact>, given: seq<Artifact>, kind: string)
    requires !HasKey(held, kind) && forall a :: a in given ==> Key(a) == kind
    ensures Additions(held, given) == given
  {
    if given != [] {
      assert given[0] in given;
      AllAdded(held, given[1..], kind);
    }
  }

  lemma AfterCompletedWrite(run: Run, w: Write)
    requires w.status == Some(Completed) && run.status != Skipped
    ensures var after := RunAfter(run, w);
            after.status == Completed && after.contractRole == run.contractRole
              && after.inputArtifacts == run.inputArtifacts
  {
  }

  lemma KindsAfterWrite(run: Run, w: Write, kind: string)
    requires run.status != Skipped
    requires Truthy(w.outputArtifacts) == w.outputArtifacts && HasArtifactKind(w.outputArtifacts, kind)
    requires forall a :: a in w.outputArtifacts ==> Key(a) == kind
    ensures HasArtifactKind(RunAfter(run, w).outputArtifacts, kind) <==>
      !HasKey(Truthy(run.outputArtifacts), kind) || HasArtifactKind(run.outputArtifacts, kind)
  {
    var held := Truthy(run.outputArtifacts);
    KindInTruthy(run.outputArtifacts, kind);
    if HasKey(held, kind) {
      NothingMissing(held, w.outputArtifacts);
      assert Merged(run, w) == held;
    } else {
      AllAdded(held, w.outputArtifacts, kind);
      KindInSum(held, w.outputArtifacts, kind);
      assert Merged(run, w) == held + w.outputArtifacts;
    }
  }

  /** A completed write of the one kind a role owes. */
  lemma SuccessfulWrite(run: Run, w: Write, kind: string)
    requires w.status == Some(Completed) && run.status != Skipped && kind == RequiredKind(run.contractRole)
    requires Truthy(w.outputArtifacts) == w.outputArtifacts && HasArtifactKind(w.outputArtifacts, kind)
    requires forall a :: a in w.outputArtifacts ==> Key(a) == kind
    ensures Opens(RunAfter(run, w)) <==>
      !HasKey(Truthy(run.outputArtifacts), kind) || HasArtifactKind(run.inputArtifacts + run.outputArtifacts, kind)
  {
    AfterCompletedWrite(run, w);
    KindsAfterWrite(run, w, kind);
    KindInSum(run.inputArtifacts, run.outputArtifacts, kind);
    KindInSum(run.inputArtifacts, RunAfter(run, w).outputArtifacts, kind);
  }

  lemma OwnArtifacts(w: Writeback)
    requires SingleKind(w)
    ensures Truthy(ArtifactsOf(w)) == ArtifactsOf(w)
  {
    var given := ArtifactsOf(w);
    assert given == [given[0]] && given[0].Record?;
    TruthyOfTruthy(given);
  }

  /** A writer that reports success opens the gate of its role in a run that is not
      skipped, exactly when the run holds nothing under the role's kind yet, or
      something of that kind already. A bare name equal to the kind that is not
      recognised as one ("result") keeps the gate of a completed run closed. */
  lemma SuccessOpensGateIff(run: Run, goalId: string, w: Writeback)
    requires SingleKind(w) && StatusOf(w) == Completed && run.contractRole == RoleOf(w) && run.status != Skipped
    ensures var kind := RequiredKind(RoleOf(w));
            Opens(RunAfter(run, WriteOf(run.taskId, goalId, w))) <==>
              !HasKey(Truthy(run.outputArtifacts), kind)
                || HasArtifactKind(run.inputArtifacts + run.outputArtifacts, kind)
  {
    OwnArtifacts(w);
    SuppliesItsKind(w);
    WritersMeetContract(w);
    SuccessfulWrite(run, WriteOf(run.taskId, goalId, w), RequiredKind(RoleOf(w)));
  }
}
