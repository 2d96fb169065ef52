/** The idempotent write of an agent run, one per task and contract role, and what it
    keeps of the runs and artifacts that are there. */
module AgentRunWriteback {
  import opened AgentArtifacts
  import opened AgentRunStore
  import opened Wrappers

  // ---------------------------------------------------------------------------
  // One write
  // ---------------------------------------------------------------------------

  /** The arguments of a write; a status that is not recognised is `None`. */
  datatype Write = Write(taskId: string, goalId: string, role: Role, status: Option<Status>,
                         outputArtifacts: seq<Artifact>, summary: string)

  datatype Outcome = NoTask | AlreadySkipped(id: nat) | AlreadyCompleted(id: nat) | Updated(id: nat)
    | Created(id: nat) | Errored

  /** `list(value)`: falsy entries are dropped. */
  function Truthy(artifacts: seq<Artifact>): (kept: seq<Artifact>)
    ensures forall a :: a in kept <==> a in artifacts && a != Name("")
  {
    if artifacts == [] then []
    else (if artifacts[0] == Name("") then [] else [artifacts[0]]) + Truthy(artifacts[1..])
  }

  /** What two artifacts are compared by. */
  function Key(a: Artifact): string {
    if a.Record? then a.kind else a.text
  }

  predicate HasKey(artifacts: seq<Artifact>, key: string) {
    exists i :: 0 <= i < |artifacts| && Key(artifacts[i]) == key
  }

  /** The candidates whose key is not there yet, in order. */
  function Additions(existing: seq<Artifact>, candidates: seq<Artifact>): (added: seq<Artifact>)
    ensures forall a :: a in added <==> a in candidates && !HasKey(existing, Key(a))
  {
    if candidates == [] then []
    else (if HasKey(existing, Key(candidates[0])) then [] else [candidates[0]]) + Additions(existing, candidates[1..])
  }

  function Merged(run: Run, w: Write): seq<Artifact> {
    Truthy(run.outputArtifacts) + Additions(Truthy(run.outputArtifacts), Truthy(w.outputArtifacts))
  }

  /** The write finds nothing left to do in this run. */
  predicate Settled(run: Run, w: Write) {
    || run.status == Skipped
    || (run.status == Completed && Additions(Truthy(run.outputArtifacts), Truthy(w.outputArtifacts)) == [])
  }

  function RunAfter(run: Run, w: Write): Run {
    if Settled(run, w) then run
    else AsCompleted(run, w.status, Merged(run, w), if w.summary != "" then w.summary else run.summary)
  }

  /** A run the write creates: at first running, and then completed with the same
      data when the write asks for completed or failed. */
  function Opened(w: Write): Run {
    NewRun(w.taskId, w.goalId, w.role, Running, Truthy(w.outputArtifacts), w.summary)
  }

  predicate Closes(w: Write) {
    w.status == Some(Completed) || w.status == Some(Failed)
  }

  function FreshRun(w: Write): Run {
    if Closes(w) then AsCompleted(Opened(w), w.status, Truthy(w.outputArtifacts), w.summary) else Opened(w)
  }

  /** The store after a write that nothing disturbs. */
  function Written(view: seq<Run>, w: Write): seq<Run> {
    if w.taskId == "" then view
    else
      var id := Latest(view, w.taskId, w.role);
      if id.None? then view + [FreshRun(w)] else view[id.value := RunAfter(view[id.value], w)]
  }

  // ---------------------------------------------------------------------------
  // What a write asks for, in terms of the runs alone
  // ---------------------------------------------------------------------------

  /** `part` holds the wanted entries of `all`, in order. */
  ghost predicate Selection(part: seq<Artifact>, all: seq<Artifact>, wanted: Artifact -> bool) {
    if all == [] then part == []
    else if wanted(all[0]) then part != [] && part[0] == all[0] && Selection(part[1..], all[1..], wanted)
    else Selection(part, all[1..], wanted)
  }

  /** Of one kind: records by their kind, names by their text. */
  predicate SameKind(a: Artifact, b: Artifact) {
    match (a, b)
    case (Record(k, _, _, _, _, _, _), Record(l, _, _, _, _, _, _)) => k == l
    case (Record(k, _, _, _, _, _, _), Name(l)) => k == l
    case (Name(k), Record(l, _, _, _, _, _, _)) => k == l
    case (Name(k), Name(l)) => k == l
  }

  /** A truthy entry. */
  predicate NonEmpty(a: Artifact) { a.Name? ==> a.text != "" }

  /** A truthy entry of a kind that no truthy entry of the list has. */
  ghost predicate NewIn(held: seq<Artifact>, a: Artifact) {
    NonEmpty(a) && forall b :: b in held && NonEmpty(b) ==> !SameKind(a, b)
  }

  /** The one run of a pair that had none. It is created running, and then completed or
      failed when the write says so. */
  ghost predicate MadeFor(w: Write, run: Run) {
    && run.taskId == w.taskId && run.goalId == w.goalId && run.contractRole == w.role && run.inputArtifacts == []
    && run.summary == w.summary && Selection(run.outputArtifacts, w.outputArtifacts, NonEmpty)
    && match w.status
       case Some(Completed) => run.status == Completed
       case Some(Failed) => run.status == Failed
       case _ => run.status == Running
  }

  /** A run the write does not touch: it is skipped, or completed with every kind. */
  ghost predicate LeftAlone(run: Run, w: Write) {
    || run.status == Skipped
    || (run.status == Completed && forall a :: a in w.outputArtifacts ==> !NewIn(run.outputArtifacts, a))
  }

  /** Any other run takes the status asked for, the summary if there is one, and behind
      what it holds what is new to it. */
  ghost predicate TakesOver(before: Run, after: Run, w: Write) {
    && after.taskId == before.taskId && after.goalId == before.goalId && after.contractRole == before.contractRole
    && after.inputArtifacts == before.inputArtifacts
    && after.status == (if w.status.Some? then w.status.value else Completed)
    && after.summary == (if w.summary != "" then w.summary else before.summary)
    && exists n :: 0 <= n <= |after.outputArtifacts|
         && Selection(after.outputArtifacts[..n], before.outputArtifacts, NonEmpty)
         && Selection(after.outputArtifacts[n..], w.outputArtifacts, NewTo(before.outputArtifacts))
  }

  /** What a write that nothing disturbs makes of one run of its pair. */
  ghost predicate DoneTo(before: Run, after: Run, w: Write) {
    if LeftAlone(before, w) then after == before else TakesOver(before, after, w)
  }

  /** The newest run of the pair, or the missing one, and nothing else. */
  ghost predicate AsAsked(before: seq<Run>, after: seq<Run>, w: Write) {
    if w.taskId == "" then after == before
    else if forall i :: 0 <= i < |before| ==> before[i].taskId != w.taskId || before[i].contractRole != w.role then
      |after| == |before| + 1 && after[..|before|] == before && MadeFor(w, after[|before|])
    else
      |after| == |before| && forall i :: 0 <= i < |before| ==>
        if NewestOf(before, i, w) then DoneTo(before[i], after[i], w) else after[i] == before[i]
  }

  ghost predicate NewestOf(view: seq<Run>, i: nat, w: Write)
    requires i < |view|
  {
    && view[i].taskId == w.taskId && view[i].contractRole == w.role
    && forall j :: i < j < |view| ==> view[j].taskId != w.taskId || view[j].contractRole != w.role
  }

  lemma {:induction false} TruthySelects(artifacts: seq<Artifact>)
    ensures Selection(Truthy(artifacts), artifacts, NonEmpty)
  {
    if artifacts != [] {
      TruthySelects(artifacts[1..]);
      InFront(artifacts, Truthy(artifacts[1..]), NonEmpty);
    }
  }

  lemma InFront(all: seq<Artifact>, part: seq<Artifact>, wanted: Artifact -> bool)
    requires all != [] && Selection(part, all[1..], wanted)
    ensures Selection((if wanted(all[0]) then [all[0]] else []) + part, all, wanted)
  {
    assert ([all[0]] + part)[1..] == part && [] + part == part;
  }

  /** What is new to the artifacts held. */
  ghost function NewTo(held: seq<Artifact>): Artifact -> bool {
    a => NewIn(held, a)
  }

  lemma {:induction false} AdditionsSelect(held: seq<Artifact>, given: seq<Artifact>)
    ensures Selection(Additions(Truthy(held), Truthy(given)), given, NewTo(held))
  {
    if given != [] {
      AdditionsSelect(held, given[1..]);
      AdditionsOneMore(held, given[0], given[1..]);
      assert [given[0]] + given[1..] == given;
      InFront(given, Additions(Truthy(held), Truthy(given[1..])), NewTo(held));
    }
  }

  lemma AdditionsOneMore(held: seq<Artifact>, a: Artifact, given: seq<Artifact>)
    ensures Additions(Truthy(held), Truthy([a] + given))
         == (if NewTo(held)(a) then [a] else []) + Additions(Truthy(held), Truthy(given))
  {
    NewIffNoKey(held, a);
    var later := Truthy(given);
    assert ([a] + given)[1..] == given;
    if a == Name("") {
      assert Truthy([a] + given) == later;
    } else {
      assert Truthy([a] + given) == [a] + later && ([a] + later)[1..] == later;
    }
  }

  lemma NewIffNoKey(held: seq<Artifact>, a: Artifact)
    ensures NewIn(held, a) <==> NonEmpty(a) && !HasKey(Truthy(held), Key(a))
  {
    if HasKey(Truthy(held), Key(a)) {
      var i :| 0 <= i < |Truthy(held)| && Key(Truthy(held)[i]) == Key(a);
      assert Truthy(held)[i] in held && SameKind(a, Truthy(held)[i]);
    }
    if b :| b in held && NonEmpty(b) && SameKind(a, b) {
      assert b in Truthy(held);
      var i :| 0 <= i < |Truthy(held)| && Truthy(held)[i] == b;
    }
  }

  lemma FreshIsMade(w: Write)
    ensures MadeFor(w, FreshRun(w))
  {
    TruthySelects(w.outputArtifacts);
  }

  lemma NothingNewIff(run: Run, w: Write)
    ensures Settled(run, w) <==> LeftAlone(run, w)
  {
    var added := Additions(Truthy(run.outputArtifacts), Truthy(w.outputArtifacts));
    forall a ensures a in added <==> a in w.outputArtifacts && NewIn(run.outputArtifacts, a) {
      NewIffNoKey(run.outputArtifacts, a);
    }
    if added != [] {
      assert added[0] in added;
    }
  }

  lemma AfterIsDone(run: Run, w: Write)
    ensures DoneTo(run, RunAfter(run, w), w)
  {
    NothingNewIff(run, w);
    if !Settled(run, w) {
      var held, merged := Truthy(run.outputArtifacts), Merged(run, w);
      TruthySelects(run.outputArtifacts);
      AdditionsSelect(run.outputArtifacts, w.outputArtifacts);
      assert merged[..|held|] == held && merged[|held|..] == Additions(held, Truthy(w.outputArtifacts));
    }
  }

  lemma LatestIsNewest(view: seq<Run>, w: Write)
    ensures var id := Latest(view, w.taskId, w.role);
            if id.Some? then NewestOf(view, id.value, w)
            else forall i :: 0 <= i < |view| ==> view[i].taskId != w.taskId || view[i].contractRole != w.role
  {
    var id := Latest(view, w.taskId, w.role);
    forall i | (if id.Some? then id.value < i else 0 <= i) && i < |view| ensures !ForPair(view[i], w.taskId, w.role) {
    }
  }

  /** The store after a write that nothing disturbs is the one asked for. */
  lemma WrittenAsAsked(view: seq<Run>, w: Write)
    ensures AsAsked(view, Written(view, w), w)
  {
    if w.taskId != "" {
      var id := Latest(view, w.taskId, w.role);
      LatestIsNewest(view, w);
      if id.None? {
        FreshIsMade(w);
      } else {
        AfterIsDone(view[id.value], w);
        forall i | 0 <= i < |view| && NewestOf(view, i, w) ensures i == id.value {
          assert ForPair(view[i], w.taskId, w.role);
        }
      }
    }
  }

  /** What a write leaves of a store, completed or not: nobody else's run changes, no
      run loses an artifact, at most the missing run of the pair is added. */
  ghost predicate WriteStep(before: seq<Run>, after: seq<Run>, w: Write) {
    && |before| <= |after| <= |before| + 1
    && (forall i :: 0 <= i < |before| ==>
         || after[i] == before[i]
         || (w.taskId != "" && Latest(before, w.taskId, w.role) == Some(i) && after[i] == RunAfter(before[i], w)))
    && (|before| < |after| ==>
         && Latest(before, w.taskId, w.role).None? && w.taskId != ""
         && (after[|before|] == Opened(w) || after[|before|] == FreshRun(w)))
  }

  /** A write that fails leaves the store as it was, or as asked, or with the new run still
      running. */
  ghost predicate AskedOrLess(before: seq<Run>, after: seq<Run>, w: Write) {
    || after == before || AsAsked(before, after, w)
    || (|before| < |after| && AsAsked(before, after, w.(status := Some(Running))))
  }

  lemma StepIsAskedOrLess(before: seq<Run>, after: seq<Run>, w: Write)
    requires WriteStep(before, after, w)
    ensures AskedOrLess(before, after, w)
  {
    WrittenAsAsked(before, w);
    var open := w.(status := Some(Running));
    WrittenAsAsked(before, open);
    var id := Latest(before, w.taskId, w.role);
    if |before| < |after| {
      assert after == before + [after[|before|]];
      assert Written(before, open) == before + [Opened(w)];
    } else if id.Some? && after[id.value] != before[id.value] {
      assert after == before[id.value := RunAfter(before[id.value], w)];
    } else {
      assert after == before;
    }
  }

  /** What the answer to a write says about the runs there were. */
  ghost predicate Told(outcome: Outcome, before: seq<Run>, w: Write) {
    match outcome
    case NoTask => w.taskId == ""
    case Created(id) =>
      && w.taskId != "" && id == |before|
      && forall i :: 0 <= i < |before| ==> before[i].taskId != w.taskId || before[i].contractRole != w.role
    case AlreadySkipped(id) => id < |before| && NewestOf(before, id, w) && before[id].status == Skipped
    case AlreadyCompleted(id) =>
      id < |before| && NewestOf(before, id, w) && before[id].status == Completed && LeftAlone(before[id], w)
    case Updated(id) => id < |before| && NewestOf(before, id, w) && !LeftAlone(before[id], w)
    case Errored => false
  }

  /** The second half of a write: the pair has no run yet. */
  method CreateAndClose(store: Store, w: Write) returns (outcome: Outcome)
    requires store.Valid() && w.taskId != "" && Latest(store.View(), w.taskId, w.role).None?
    modifies store, store.runs
    ensures store.Valid() && old(store.runs) <= store.runs
    ensures forall i :: |old(store.runs)| <= i < |store.runs| ==> fresh(store.runs[i])
    ensures WriteStep(old(store.View()), store.View(), w)
    ensures store.reliable ==> store.View() == old(store.View()) + [FreshRun(w)]
    ensures outcome == Created(|old(store.runs)|) || (outcome.Errored? && !store.reliable)
    ensures outcome.Created? ==>
      store.View() == Written(old(store.View()), w) && Told(outcome, old(store.View()), w)
  {
    LatestIsNewest(store.View(), w);
    ghost var before := store.View();
    var id := store.Create(w.taskId, w.goalId, w.role, Running, Truthy(w.outputArtifacts), w.summary);
    if id.None? {
      return Errored;
    }
    ghost var open := store.View();
    assert open == before + [Opened(w)];
    if Closes(w) {
      var ok := store.Complete(id.value, w.status, Truthy(w.outputArtifacts), w.summary);
      assert open[|before| := FreshRun(w)] == before + [FreshRun(w)];
      return if ok then Created(id.value) else Errored;
    }
    outcome := Created(id.value);
  }

  /** The other half: the pair has a run. */
  method UpdateExisting(store: Store, w: Write, id: nat) returns (outcome: Outcome)
    requires store.Valid() && w.taskId != "" && Latest(store.View(), w.taskId, w.role) == Some(id)
    modifies store.runs
    ensures store.Valid()
    ensures WriteStep(old(store.View()), store.View(), w)
    ensures store.reliable ==> store.View() == old(store.View())[id := RunAfter(old(store.View())[id], w)]
    ensures outcome.Errored? ==> !store.reliable
    ensures !outcome.Errored? ==>
      store.View() == Written(old(store.View()), w) && Told(outcome, old(store.View()), w)
  {
    var run := store.runs[id];
    assert run.Value() == store.View()[id];
    LatestIsNewest(store.View(), w);
    NothingNewIff(run.Value(), w);
    assert store.View()[id := store.View()[id]] == store.View();
    if run.status == Skipped {
      return AlreadySkipped(id);
    }
    var held := Truthy(run.outputArtifacts);
    var additions := Additions(held, Truthy(w.outputArtifacts));
    if run.status == Completed && additions == [] {
      return AlreadyCompleted(id);
    }
    var ok := store.Complete(id, w.status, held + additions, if w.summary != "" then w.summary else run.summary);
    outcome := if ok then Updated(id) else Errored;
  }

  method WriteIdempotentAgentRun(store: Store, w: Write) returns (outcome: Outcome)
    requires store.Valid()
    modifies store, store.runs
    ensures store.Valid() && old(store.runs) <= store.runs
    ensures forall i :: |old(store.runs)| <= i < |store.runs| ==> fresh(store.runs[i])
    ensures store.reliable ==> !outcome.Errored? && store.View() == Written(old(store.View()), w)
    // Unless it reports an error, the write has been done and says what was there.
    ensures !outcome.Errored? ==> AsAsked(old(store.View()), store.View(), w) && Told(outcome, old(store.View()), w)
    ensures WriteStep(old(store.View()), store.View(), w)
  {
    ghost var before := store.View();
    WrittenAsAsked(before, w);
    if w.taskId == "" {
      return NoTask;
    }
    NewestIsLatest(store.View(), w.taskId, w.role);
    var existing := store.List(w.taskId, Some(w.role), 1);
    if existing.None? {
      return Errored;
    }
    if existing.value == [] {
      outcome := CreateAndClose(store, w);
    } else {
      outcome := UpdateExisting(store, w, existing.value[0]);
    }
  }

  // ---------------------------------------------------------------------------
  // What writes keep
  // ---------------------------------------------------------------------------

  /** At most one run per task and contract role stays so, also when the store fails. */
  lemma UniqueKept(before: seq<Run>, after: seq<Run>, w: Write)
    requires Unique(before) && WriteStep(before, after, w)
    ensures Unique(after)
  {
    forall i, j | 0 <= i < j < |after| && after[i].taskId == after[j].taskId
      ensures after[i].contractRole != after[j].contractRole
    {
      assert after[i] == before[i] || after[i] == RunAfter(before[i], w);
      if j < |before| {
        assert after[j] == before[j] || after[j] == RunAfter(before[j], w);
      } else {
        assert !ForPair(before[i], w.taskId, w.role);
      }
    }
  }

  lemma {:induction false} TruthyOfTruthy(artifacts: seq<Artifact>)
    requires Name("") !in artifacts
    ensures Truthy(artifacts) == artifacts
  {
    if artifacts != [] {
      TruthyOfTruthy(artifacts[1..]);
    }
  }

  lemma MergedIsTruthy(run: Run, w: Write)
    ensures Truthy(Merged(run, w)) == Merged(run, w)
  {
    TruthyOfTruthy(Merged(run, w));
  }

  /** No artifact is ever lost: what a run held stays, in front of what is added. */
  lemma ArtifactsKept(before: seq<Run>, after: seq<Run>, w: Write, i: nat)
    requires WriteStep(before, after, w) && i < |before|
    ensures Truthy(before[i].outputArtifacts) <= Truthy(after[i].outputArtifacts)
  {
    if after[i] != before[i] {
      MergedIsTruthy(before[i], w);
    }
  }

  /** Every kind a write supplies is held afterwards, and a kind held before keeps
      exactly the artifacts it had: the first evidence of a kind stays. */
  lemma KindsAfter(run: Run, w: Write, key: string)
    requires !Settled(run, w)
    ensures HasKey(RunAfter(run, w).outputArtifacts, key) <==>
      HasKey(Truthy(run.outputArtifacts), key) || HasKey(Truthy(w.outputArtifacts), key)
    ensures HasKey(Truthy(run.outputArtifacts), key) ==>
      forall a :: a in RunAfter(run, w).outputArtifacts && Key(a) == key ==> a in run.outputArtifacts
  {
    var held, given := Truthy(run.outputArtifacts), Truthy(w.outputArtifacts);
    var merged := Merged(run, w);
    if HasKey(held, key) {
      var i :| 0 <= i < |held| && Key(held[i]) == key;
      assert merged[i] == held[i];
    } else if HasKey(given, key) {
      var i :| 0 <= i < |given| && Key(given[i]) == key;
      assert given[i] in Additions(held, given);
      assert given[i] in merged;
    }
    if HasKey(merged, key) {
      var i :| 0 <= i < |merged| && Key(merged[i]) == key;
      assert merged[i] in held || merged[i] in Additions(held, given);
    }
  }

  lemma {:induction false} NothingMissing(held: seq<Artifact>, given: seq<Artifact>)
    requires forall a :: a in given ==> HasKey(held, Key(a))
    ensures Additions(held, given) == []
  {
    if given != [] {
      NothingMissing(held, given[1..]);
    }
  }

  lemma SecondAdditions(run: Run, w: Write)
    ensures Additions(Merged(run, w), Truthy(w.outputArtifacts)) == []
  {
    var held, given := Truthy(run.outputArtifacts), Truthy(w.outputArtifacts);
    forall a | a in given ensures HasKey(Merged(run, w), Key(a)) {
      if HasKey(held, Key(a)) {
        var i :| 0 <= i < |held| && Key(held[i]) == Key(a);
        assert Merged(run, w)[i] == held[i];
      } else {
        assert a in Merged(run, w);
        var i :| 0 <= i < |Merged(run, w)| && Merged(run, w)[i] == a;
      }
    }
    NothingMissing(Merged(run, w), given);
  }

  lemma RunAfterTwice(run: Run, w: Write)
    ensures RunAfter(RunAfter(run, w), w) == RunAfter(run, w)
  {
    if !Settled(run, w) {
      SecondAdditions(run, w);
      MergedIsTruthy(run, w);
    }
  }

  lemma FreshRunAgain(w: Write)
    ensures RunAfter(FreshRun(w), w) == FreshRun(w) <==> Closes(w) || w.status == Some(Running)
  {
    var given := Truthy(w.outputArtifacts);
    TruthyOfTruthy(given);
    forall a | a in given ensures HasKey(given, Key(a)) {
      var i :| 0 <= i < |given| && given[i] == a;
    }
    NothingMissing(given, given);
  }

  lemma {:induction false} LatestOfUpdate(view: seq<Run>, taskId: string, role: Role, i: nat, run: Run)
    requires i < |view| && run.taskId == view[i].taskId && run.contractRole == view[i].contractRole
    ensures Latest(view[i := run], taskId, role) == Latest(view, taskId, role)
  {
    var n := |view| - 1;
    if i == n {
      assert view[i := run][..n] == view[..n];
    } else {
      assert view[i := run][..n] == view[..n][i := run];
      LatestOfUpdate(view[..n], taskId, role, i, run);
    }
  }

  /** Writing the same twice is writing it once, except for a new run that was asked
      for in a status it is not created in. In particular a repeated completed write
      changes nothing. */
  lemma WrittenTwice(view: seq<Run>, w: Write)
    ensures Written(Written(view, w), w) == Written(view, w) <==>
      w.taskId == "" || Latest(view, w.taskId, w.role).Some? || Closes(w) || w.status == Some(Running)
  {
    var id := Latest(view, w.taskId, w.role);
    if w.taskId != "" {
      if id.Some? {
        LatestOfUpdate(view, w.taskId, w.role, id.value, RunAfter(view[id.value], w));
        RunAfterTwice(view[id.value], w);
      } else {
        var once := view + [FreshRun(w)];
        FreshRunAgain(w);
        assert ForPair(once[|view|], w.taskId, w.role);
        assert Latest(once, w.taskId, w.role) == Some(|view|);
        assert Written(once, w)[|view|] == RunAfter(FreshRun(w), w);
      }
    }
  }

  /** A completed run that holds every kind the write supplies is never altered, not
      even by a later report of failure, and whatever the store does. */
  lemma CompletedStays(before: seq<Run>, after: seq<Run>, w: Write, i: nat)
    requires WriteStep(before, after, w) && i < |before| && before[i].status == Completed
    requires forall a :: a in Truthy(w.outputArtifacts) ==> HasKey(Truthy(before[i].outputArtifacts), Key(a))
    ensures after[i] == before[i]
  {
    NothingMissing(Truthy(before[i].outputArtifacts), Truthy(w.outputArtifacts));
  }
}
