/** Roles and artifacts of agent runs, and the contract that a completed run must
    carry the artifact its role owes. Schema gptwork.agent_artifact.v1, freshness off. */
module AgentArtifacts {
  import opened Text
  import opened Wrappers

  datatype Role = ContextCurator | Planner | Builder | Verifier | Repairer | Reviewer | Finalizer | Integrator

  function RoleName(r: Role): string {
    match r
    case ContextCurator => "context_curator"
    case Planner => "planner"
    case Builder => "builder"
    case Verifier => "verifier"
    case Repairer => "repairer"
    case Reviewer => "reviewer"
    case Finalizer => "finalizer"
    case Integrator => "integrator"
  }

  function LegacyRole(name: string): Option<Role> {
    if name == "analyst" then Some(ContextCurator)
    else if name == "architect" then Some(Planner)
    else if name == "implementer" then Some(Builder)
    else if name == "tester" || name == "test" || name == "qa" || name == "verification" then Some(Verifier)
    else if name == "escalation_judge" || name == "escalation_judgment"
         || name == "escalation-judge" || name == "escalation-judgment" then Some(Reviewer)
    else None
  }

  /** The contract role of a role name, "builder" by default; nothing when the name is
      unsupported (the original throws). */
  function NormalizeContractRole(role: string): Option<Role>
    decreases role == ""
  {
    if role == "" then NormalizeContractRole("builder")
    else if role == "builder" then Some(Builder)
    else if role == "context_curator" then Some(ContextCurator)
    else if role == "planner" then Some(Planner)
    else if role == "verifier" then Some(Verifier)
    else if role == "repairer" then Some(Repairer)
    else if role == "reviewer" then Some(Reviewer)
    else if role == "finalizer" then Some(Finalizer)
    else if role == "integrator" then Some(Integrator)
    else LegacyRole(role)
  }

  /** A canonical name stands for itself, so normalising twice changes nothing. */
  lemma CanonicalRole(r: Role)
    ensures NormalizeContractRole(RoleName(r)) == Some(r)
  {
  }

  /** All the names each role goes by. No name at all is the builder's, and any other name
      is refused. */
  lemma NamesOfRoles(name: string)
    ensures NormalizeContractRole(name) == Some(ContextCurator) <==> name in {"context_curator", "analyst"}
    ensures NormalizeContractRole(name) == Some(Planner) <==> name in {"planner", "architect"}
    ensures NormalizeContractRole(name) == Some(Builder) <==> name in {"builder", "implementer", ""}
    ensures NormalizeContractRole(name) == Some(Verifier) <==>
      name in {"verifier", "tester", "test", "qa", "verification"}
    ensures NormalizeContractRole(name) == Some(Repairer) <==> name == "repairer"
    ensures NormalizeContractRole(name) == Some(Reviewer) <==>
      name in {"reviewer", "escalation_judge", "escalation_judgment", "escalation-judge", "escalation-judgment"}
    ensures NormalizeContractRole(name) == Some(Finalizer) <==> name == "finalizer"
    ensures NormalizeContractRole(name) == Some(Integrator) <==> name == "integrator"
  {
  }

  // ---------------------------------------------------------------------------
  // Artifacts
  // ---------------------------------------------------------------------------

  /** An entry of an artifact list: a plain name, or a record. Absent and empty text
      fields are the empty string; `alias` is `type || artifact_kind`. */
  datatype Artifact =
    | Name(text: string)
    | Record(kind: string, alias: string, path: string, decided: bool, passed: Option<bool>, status: string,
             commandsCount: nat)

  predicate KnownKind(k: string) {
    // v1
    || k == "context_bundle" || k == "context_retrieval" || k == "context_manifest" || k == "plan"
    || k == "change_summary" || k == "verification" || k == "repair" || k == "reviewer_decision"
    || k == "result" || k == "integration"
    // v3
    || k == "plan_ir" || k == "change_manifest" || k == "verification_report" || k == "repair_report"
    || k == "review_decision" || k == "final_result" || k == "integration_report"
  }

  predicate Includes(s: string, part: string) {
    IndexFrom(s, part, 0) != -1
  }

  /** The kind of an artifact: the kind a record names, else the kind its path or
      name suggests. */
  function KindForValue(a: Artifact): Option<string>
    decreases a.Record?
  {
    match a
    case Record(kind, alias, path, decided, passed, status, _) =>
      var named := if kind != "" then kind else alias;
      if KnownKind(named) then Some(named)
      else if path != "" then KindForValue(Name(path))
      else if decided || passed.Some? || status != "" then Some("reviewer_decision")
      else None
    case Name(text) =>
      var lower := Lower(text);
      if text == "" then None
      else if EndsWith(lower, "context.bundle.md") then Some("context_bundle")
      else if EndsWith(lower, "context.retrieval.json") then Some("context_retrieval")
      else if EndsWith(lower, "context.manifest.json") then Some("context_manifest")
      else if EndsWith(lower, "result.json") || EndsWith(lower, "result.md") then Some("result")
      else if Includes(lower, "reviewer_decision") || Includes(lower, "review-decision")
        || Includes(lower, "review_decision")
        then Some("reviewer_decision")
      else if Includes(lower, "verification") || Includes(lower, "test") then Some("verification")
      else if Includes(lower, "plan") then Some("plan")
      else if Includes(lower, "repair") then Some("repair")
      else if Includes(lower, "integration") || Includes(lower, "merge") then Some("integration")
      else if Includes(lower, "change") || Includes(lower, "patch") || Includes(lower, "diff")
           || Includes(lower, "implementation") || Includes(lower, "code") then Some("change_summary")
      else None
  }

  // ---------------------------------------------------------------------------
  // The contract
  // ---------------------------------------------------------------------------

  function RequiredKind(r: Role): string {
    match r
    case ContextCurator => "context_bundle"
    case Planner => "plan"
    case Builder => "change_summary"
    case Verifier => "verification"
    case Repairer => "repair"
    case Reviewer => "reviewer_decision"
    case Finalizer => "result"
    case Integrator => "integration"
  }

  predicate HasArtifactKind(artifacts: seq<Artifact>, kind: string) {
    artifacts != [] && (KindForValue(artifacts[0]) == Some(kind) || HasArtifactKind(artifacts[1..], kind))
  }

  lemma {:induction false} HasKindIff(artifacts: seq<Artifact>, kind: string)
    ensures HasArtifactKind(artifacts, kind) <==>
      exists i :: 0 <= i < |artifacts| && KindForValue(artifacts[i]) == Some(kind)
  {
    if artifacts != [] {
      HasKindIff(artifacts[1..], kind);
      if i :| 0 <= i < |artifacts[1..]| && KindForValue(artifacts[1..][i]) == Some(kind) {
        assert KindForValue(artifacts[i + 1]) == Some(kind);
      }
      if i :| 1 <= i < |artifacts| && KindForValue(artifacts[i]) == Some(kind) {
        assert KindForValue(artifacts[1..][i - 1]) == Some(kind);
      }
    }
  }

  /** `validateAgentArtifactContract(run).valid` for all the artifacts of a run. */
  predicate ContractMet(r: Role, artifacts: seq<Artifact>) {
    HasArtifactKind(artifacts, RequiredKind(r))
  }

  /** A record of the role's own kind meets the contract whatever else it says. */
  lemma OwnKindMeetsContract(r: Role, artifacts: seq<Artifact>, i: nat)
    requires i < |artifacts| && artifacts[i].Record? && artifacts[i].kind == RequiredKind(r)
    ensures ContractMet(r, artifacts)
  {
    assert KindForValue(artifacts[i]) == Some(RequiredKind(r));
    HasKindIff(artifacts, RequiredKind(r));
  }
}
