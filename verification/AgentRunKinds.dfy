/** What concurrent writebacks keep of the artifact kinds they supply. The last completion
    of a run replaces its artifacts by those it saw and its own, so a schedule may lose
    what came in between: exactly when it cannot. */
module AgentRunKinds {
  import opened AgentArtifacts
  import opened AgentRunClashes
  import opened AgentRunInterleaving
  import opened AgentRunSteps
  import opened AgentRunStore
  import opened AgentRunWriteback
  import opened Wrappers

  // ---------------------------------------------------------------------------
  // Kinds supplied and held
  // ---------------------------------------------------------------------------

  function Keys(artifacts: seq<Artifact>): set<string> {
    set a | a in artifacts :: Key(a)
  }

  /** The kinds a write supplies. */
  function Given(w: Write): set<string> {
    Keys(Truthy(w.outputArtifacts))
  }

  function HeldBy(run: Run): set<string> {
    Keys(Truthy(run.outputArtifacts))
  }

  /** Some run of the pair has it. */
  ghost predicate Holds(view: seq<Run>, taskId: string, role: Role, key: string) {
    exists x :: 0 <= x < |view| && ForPair(view[x], taskId, role) && key in HeldBy(view[x])
  }

  ghost predicate Party(ws: seq<Write>, i: int, taskId: string, role: Role) {
    0 <= i < |ws| && For(ws[i], taskId, role)
  }

  ghost predicate Supplied(ws: seq<Write>, i: int, taskId: string, role: Role, key: string) {
    Party(ws, i, taskId, role) && key in Given(ws[i])
  }

  /** Every kind that a write supplies for a pair, but those that failed, is held by a
      run of the pair. */
  ghost predicate AllKept(view: seq<Run>, ws: seq<Write>, failed: set<nat>) {
    forall i, taskId, role, key :: Supplied(ws, i, taskId, role, key) && i !in failed ==>
      Holds(view, taskId, role, key)
  }

  /** What has to hold of a pair before. If it has a run: a kind that is not held yet
      is supplied by every write that has something to do, and the run was not skipped.
      If not: a kind that a write lacks is supplied by all the others, and that write
      does not close the run it creates. */
  ghost predicate PairSafe(view: seq<Run>, ws: seq<Write>, taskId: string, role: Role) {
    var id := Latest(view, taskId, role);
    if id.Some? then
      forall i, key :: Supplied(ws, i, taskId, role, key) && !Holds(view, taskId, role, key) ==>
        && view[id.value].status != Skipped
        && forall j :: Party(ws, j, taskId, role) && !Settled(view[id.value], ws[j]) ==> key in Given(ws[j])
    else
      forall i, m, key :: Party(ws, i, taskId, role) && Supplied(ws, m, taskId, role, key) && key !in Given(ws[i]) ==>
        !Closes(ws[i]) && forall j :: Party(ws, j, taskId, role) && j != i ==> key in Given(ws[j])
  }

  lemma OpenedHolds(w: Write)
    ensures HeldBy(Opened(w)) == Given(w)
  {
    TruthyOfTruthy(Truthy(w.outputArtifacts));
  }

  lemma MergedHolds(run: Run, w: Write)
    ensures Keys(Truthy(Merged(run, w))) == HeldBy(run) + Given(w)
  {
    MergedIsTruthy(run, w);
    var held, given := Truthy(run.outputArtifacts), Truthy(w.outputArtifacts);
    forall key ensures key in Keys(Merged(run, w)) <==> key in HeldBy(run) + Given(w) {
      if key in Given(w) && !HasKey(held, key) {
        var a :| a in given && Key(a) == key;
        assert a in Additions(held, given) && a in Merged(run, w);
      }
      if HasKey(held, key) {
        var i :| 0 <= i < |held| && Key(held[i]) == key;
        assert held[i] in Merged(run, w);
      }
    }
  }

  lemma SettledHolds(run: Run, w: Write)
    requires Settled(run, w) && run.status != Skipped
    ensures Given(w) <= HeldBy(run)
  {
    var held, given := Truthy(run.outputArtifacts), Truthy(w.outputArtifacts);
    forall key | key in Given(w) ensures key in HeldBy(run) {
      var a :| a in given && Key(a) == key;
      assert a !in Additions(held, given);
    }
  }

  // ---------------------------------------------------------------------------
  // Enough: every schedule keeps all
  // ---------------------------------------------------------------------------

  /** Together with what was held before, all that is supplied. */
  ghost predicate Full(start: seq<Run>, ws: seq<Write>, taskId: string, role: Role, keys: set<string>) {
    forall i, key :: Supplied(ws, i, taskId, role, key) ==> key in keys || Holds(start, taskId, role, key)
  }

  /** Just created by a write that has gone on. */
  ghost predicate Created(ws: seq<Write>, phases: seq<Phase>, run: Run, taskId: string, role: Role) {
    exists i :: Party(ws, i, taskId, role) && i < |phases| && (phases[i].Open? || phases[i].Finished?)
                && run == Opened(ws[i])
  }

  /** A run of the pair: untouched, just created, or holding all. */
  ghost predicate RunOk(start: seq<Run>, ws: seq<Write>, phases: seq<Phase>, taskId: string, role: Role, x: nat,
                        run: Run)
  {
    && (x < |start| ==> HeldBy(start[x]) <= HeldBy(run))
    && ((if x < |start| then run == start[x] else Created(ws, phases, run, taskId, role))
        || Full(start, ws, taskId, role, HeldBy(run)))
  }

  /** The run in hand is the one there was, or a new one if there was none. */
  predicate Target(start: seq<Run>, view: seq<Run>, taskId: string, role: Role, id: nat) {
    && id < |view| && ForPair(view[id], taskId, role)
    && var was := Latest(start, taskId, role); if was.Some? then was.value == id else id >= |start|
  }

  ghost predicate PhaseOk(start: seq<Run>, view: seq<Run>, ws: seq<Write>, taskId: string, role: Role, w: Write,
                          p: Phase, erred: bool)
  {
    match p
    case Start => true
    case Found(id) => Target(start, view, taskId, role, id)
    case Absent => Latest(start, taskId, role).None?
    case Completing(id, artifacts, _) =>
      && Target(start, view, taskId, role, id)
      && (id < |start| ==> HeldBy(start[id]) <= Keys(Truthy(artifacts)))
      && Full(start, ws, taskId, role, Keys(Truthy(artifacts)))
    case Open(id) => Target(start, view, taskId, role, id) && Latest(start, taskId, role).None? && Closes(w)
    case Finished => erred || forall key :: key in Given(w) ==> Holds(view, taskId, role, key)
  }

  /** `failed` are the writes a step of which has failed. */
  ghost predicate KindInv(start: seq<Run>, s: System, ws: seq<Write>, failed: set<nat>, taskId: string, role: Role) {
    && |s.phases| == |ws| && SamePlaces(start, s.view)
    && (Latest(start, taskId, role).Some? ==> Latest(s.view, taskId, role) == Latest(start, taskId, role))
    && (forall x :: 0 <= x < |s.view| && ForPair(s.view[x], taskId, role) ==>
         RunOk(start, ws, s.phases, taskId, role, x, s.view[x]))
    && (forall k :: Party(ws, k, taskId, role) ==>
         PhaseOk(start, s.view, ws, taskId, role, ws[k], s.phases[k], k in failed))
  }

  /** What was held is held. */
  lemma HeldStays(start: seq<Run>, s: System, ws: seq<Write>, failed: set<nat>, taskId: string, role: Role, key: string)
    requires KindInv(start, s, ws, failed, taskId, role) && Holds(start, taskId, role, key)
    ensures Holds(s.view, taskId, role, key)
  {
    var x :| 0 <= x < |start| && ForPair(start[x], taskId, role) && key in HeldBy(start[x]);
    assert ForPair(s.view[x], taskId, role);
    assert RunOk(start, ws, s.phases, taskId, role, x, s.view[x]);
  }

  /** A creator stays one. */
  lemma CreatedStays(ws: seq<Write>, a: seq<Phase>, b: seq<Phase>, run: Run, taskId: string, role: Role)
    requires |a| == |b|
    requires forall i :: 0 <= i < |a| && (a[i].Open? || a[i].Finished?) ==> b[i].Open? || b[i].Finished?
    ensures Created(ws, a, run, taskId, role) ==> Created(ws, b, run, taskId, role)
  {
    if Created(ws, a, run, taskId, role) {
      var c :| Party(ws, c, taskId, role) && c < |a| && (a[c].Open? || a[c].Finished?) && run == Opened(ws[c]);
      assert b[c].Open? || b[c].Finished?;
    }
  }

  lemma HoldsStays(a: seq<Run>, b: seq<Run>, taskId: string, role: Role, key: string)
    requires |a| <= |b| && forall x :: 0 <= x < |a| && ForPair(a[x], taskId, role) ==> b[x] == a[x]
    ensures Holds(a, taskId, role, key) ==> Holds(b, taskId, role, key)
  {
    if Holds(a, taskId, role, key) {
      var x :| 0 <= x < |a| && ForPair(a[x], taskId, role) && key in HeldBy(a[x]);
      assert b[x] == a[x];
    }
  }

  /** The run in hand holds, with the kinds of a write that has not created it, all. */
  lemma TargetFull(start: seq<Run>, s: System, ws: seq<Write>, failed: set<nat>, taskId: string, role: Role, k: nat,
                   id: nat)
    requires taskId != "" && PairSafe(start, ws, taskId, role) && KindInv(start, s, ws, failed, taskId, role)
    requires Party(ws, k, taskId, role) && s.phases[k] == Found(id)
    requires !Settled(s.view[id], ws[k])
    ensures Full(start, ws, taskId, role, HeldBy(s.view[id]) + Given(ws[k]))
  {
    var run := s.view[id];
    assert RunOk(start, ws, s.phases, taskId, role, id, run);
    if !Full(start, ws, taskId, role, HeldBy(run)) && id >= |start| {
      var c :| Party(ws, c, taskId, role) && c < |s.phases| && (s.phases[c].Open? || s.phases[c].Finished?)
               && run == Opened(ws[c]);
      OpenedHolds(ws[c]);
      assert c != k;
    }
  }

  /** A write that finds its run settled supplies nothing that is not held. */
  lemma SettledKept(start: seq<Run>, s: System, ws: seq<Write>, failed: set<nat>, taskId: string, role: Role, k: nat,
                    id: nat, key: string)
    requires taskId != "" && PairSafe(start, ws, taskId, role) && KindInv(start, s, ws, failed, taskId, role)
    requires Party(ws, k, taskId, role) && s.phases[k] == Found(id)
    requires Settled(s.view[id], ws[k]) && key in Given(ws[k])
    ensures Holds(s.view, taskId, role, key)
  {
    var run := s.view[id];
    assert RunOk(start, ws, s.phases, taskId, role, id, run);
    if run.status != Skipped {
      SettledHolds(run, ws[k]);
    } else if key !in HeldBy(run) {
      assert Supplied(ws, k, taskId, role, key);
      assert Holds(start, taskId, role, key);
      HeldStays(start, s, ws, failed, taskId, role, key);
    }
  }

  // The steps of the pair's own writes, and those of others.

  lemma LookStep(start: seq<Run>, s: System, ws: seq<Write>, failed: set<nat>, taskId: string, role: Role, k: nat,
                 fault: Fault)
    requires taskId != "" && PairSafe(start, ws, taskId, role) && KindInv(start, s, ws, failed, taskId, role)
    requires Party(ws, k, taskId, role) && (s.phases[k].Found? || (s.phases[k].Start? && fault.NoFault?))
    ensures KindInv(start, StepOf(s, ws, Turn(k, fault)), ws, failed, taskId, role)
  {
    var after := StepOf(s, ws, Turn(k, fault));
    var p := s.phases[k];
    assert after.view == s.view;
    if p.Start? {
      RunsStay(start, s.view, taskId, role);
    } else if Settled(s.view[p.id], ws[k]) {
      forall key | key in Given(ws[k]) ensures Holds(s.view, taskId, role, key) {
        SettledKept(start, s, ws, failed, taskId, role, k, p.id, key);
      }
    } else {
      TargetFull(start, s, ws, failed, taskId, role, k, p.id);
      MergedHolds(s.view[p.id], ws[k]);
      assert RunOk(start, ws, s.phases, taskId, role, p.id, s.view[p.id]);
    }
    PhasesElsewhere(start, s, after, ws, failed, taskId, role, k);
  }

  /** A changed phase of a write that has created nothing does not matter to the runs. */
  lemma PhasesElsewhere(start: seq<Run>, s: System, after: System, ws: seq<Write>, failed: set<nat>, taskId: string,
                        role: Role, k: nat)
    requires KindInv(start, s, ws, failed, taskId, role) && k < |ws|
    requires !s.phases[k].Open? && !s.phases[k].Finished?
    requires |after.phases| == |ws| && forall i :: 0 <= i < |ws| && i != k ==> after.phases[i] == s.phases[i]
    ensures forall x :: 0 <= x < |s.view| && ForPair(s.view[x], taskId, role) ==>
      RunOk(start, ws, after.phases, taskId, role, x, s.view[x])
  {
    forall x | 0 <= x < |s.view| && ForPair(s.view[x], taskId, role)
      ensures RunOk(start, ws, after.phases, taskId, role, x, s.view[x])
    {
      assert RunOk(start, ws, s.phases, taskId, role, x, s.view[x]);
      CreatedStays(ws, s.phases, after.phases, s.view[x], taskId, role);
    }
  }

  /** A failing step without effect ends its write. */
  lemma FailedStep(start: seq<Run>, s: System, ws: seq<Write>, failed: set<nat>, taskId: string, role: Role, k: nat,
                   fault: Fault)
    requires KindInv(start, s, ws, failed, taskId, role) && Party(ws, k, taskId, role) && k in failed
    requires fault.Lost? || (s.phases[k].Start? && !fault.NoFault?)
    requires s.phases[k] != Finished && !s.phases[k].Found?
    ensures KindInv(start, StepOf(s, ws, Turn(k, fault)), ws, failed, taskId, role)
  {
    var after := StepOf(s, ws, Turn(k, fault));
    assert after == System(s.view, s.phases[k := Finished]);
    forall x | 0 <= x < |s.view| && ForPair(s.view[x], taskId, role)
      ensures RunOk(start, ws, after.phases, taskId, role, x, s.view[x])
    {
      assert RunOk(start, ws, s.phases, taskId, role, x, s.view[x]);
      CreatedStays(ws, s.phases, after.phases, s.view[x], taskId, role);
    }
  }

  lemma CreateStep(start: seq<Run>, s: System, ws: seq<Write>, failed: set<nat>, taskId: string, role: Role, k: nat,
                   fault: Fault)
    requires taskId != "" && KindInv(start, s, ws, failed, taskId, role)
    requires Party(ws, k, taskId, role) && s.phases[k].Absent? && !fault.Lost?
    ensures KindInv(start, StepOf(s, ws, Turn(k, fault)), ws, failed, taskId, role)
  {
    var after := StepOf(s, ws, Turn(k, fault));
    var run, n := Opened(ws[k]), |s.view|;
    assert after.view == s.view + [run] && after.view[n] == run;
    OpenedHolds(ws[k]);
    assert Created(ws, after.phases, run, taskId, role) by { assert Party(ws, k, taskId, role); }
    PhasesElsewhere(start, s, after, ws, failed, taskId, role, k);
    AddedPhases(start, s, after, ws, failed, taskId, role, k);
  }

  lemma AddedPhases(start: seq<Run>, s: System, after: System, ws: seq<Write>, failed: set<nat>, taskId: string,
                    role: Role, k: nat)
    requires KindInv(start, s, ws, failed, taskId, role) && k < |ws|
    requires |s.view| < |after.view| && after.view[..|s.view|] == s.view
    requires |after.phases| == |ws| && forall i :: 0 <= i < |ws| && i != k ==> after.phases[i] == s.phases[i]
    ensures forall i :: Party(ws, i, taskId, role) && i != k ==>
      PhaseOk(start, after.view, ws, taskId, role, ws[i], after.phases[i], i in failed)
  {
    forall x | 0 <= x < |s.view| ensures after.view[x] == s.view[x] {
      assert after.view[..|s.view|][x] == s.view[x];
    }
    forall i | Party(ws, i, taskId, role) && i != k
      ensures PhaseOk(start, after.view, ws, taskId, role, ws[i], after.phases[i], i in failed)
    {
      assert PhaseOk(start, s.view, ws, taskId, role, ws[i], s.phases[i], i in failed);
      forall key | s.phases[i].Finished? && i !in failed && key in Given(ws[i])
        ensures Holds(after.view, taskId, role, key)
      {
        HoldsStays(s.view, after.view, taskId, role, key);
      }
    }
  }

  /** A completion leaves a run that holds, with what was held before, all; the other
      runs are as they were. */
  lemma CompleteRuns(start: seq<Run>, s: System, after: System, ws: seq<Write>, failed: set<nat>, taskId: string,
                     role: Role, k: nat, id: nat)
    requires KindInv(start, s, ws, failed, taskId, role) && id < |s.view| == |after.view|
    requires forall x :: 0 <= x < |s.view| && x != id ==> after.view[x] == s.view[x]
    requires k < |ws| && s.phases[k] != Finished && after.phases == s.phases[k := Finished]
    requires Full(start, ws, taskId, role, HeldBy(after.view[id]))
    requires id < |start| ==> HeldBy(start[id]) <= HeldBy(after.view[id])
    ensures forall x :: 0 <= x < |after.view| && ForPair(after.view[x], taskId, role) ==>
      RunOk(start, ws, after.phases, taskId, role, x, after.view[x])
  {
    forall x | 0 <= x < |after.view| && ForPair(after.view[x], taskId, role)
      ensures RunOk(start, ws, after.phases, taskId, role, x, after.view[x])
    {
      if x != id {
        assert RunOk(start, ws, s.phases, taskId, role, x, s.view[x]);
        CreatedStays(ws, s.phases, after.phases, s.view[x], taskId, role);
      }
    }
  }

  /** So everything supplied is held. */
  lemma CompleteKept(start: seq<Run>, after: System, ws: seq<Write>, taskId: string, role: Role, id: nat, i: nat,
                     key: string)
    requires SamePlaces(start, after.view) && id < |after.view| && ForPair(after.view[id], taskId, role)
    requires Full(start, ws, taskId, role, HeldBy(after.view[id])) && Supplied(ws, i, taskId, role, key)
    requires forall x :: 0 <= x < |after.view| && ForPair(after.view[x], taskId, role) ==>
      RunOk(start, ws, after.phases, taskId, role, x, after.view[x])
    ensures Holds(after.view, taskId, role, key)
  {
    if key !in HeldBy(after.view[id]) {
      var x :| 0 <= x < |start| && ForPair(start[x], taskId, role) && key in HeldBy(start[x]);
      assert RunOk(start, ws, after.phases, taskId, role, x, after.view[x]);
    }
  }

  lemma CompleteStep(start: seq<Run>, s: System, ws: seq<Write>, failed: set<nat>, taskId: string, role: Role, k: nat,
                     fault: Fault, id: nat, artifacts: seq<Artifact>, summary: string)
    requires taskId != "" && KindInv(start, s, ws, failed, taskId, role)
    requires Party(ws, k, taskId, role) && (s.phases[k].Completing? || s.phases[k].Open?)
    requires Target(start, s.view, taskId, role, id) && Full(start, ws, taskId, role, Keys(Truthy(artifacts)))
    requires id < |start| ==> HeldBy(start[id]) <= Keys(Truthy(artifacts))
    requires StepOf(s, ws, Turn(k, fault)).view == CompletedAt(s.view, id, ws[k].status, artifacts, summary)
    ensures KindInv(start, StepOf(s, ws, Turn(k, fault)), ws, failed, taskId, role)
  {
    var after := StepOf(s, ws, Turn(k, fault));
    assert HeldBy(after.view[id]) == Keys(Truthy(artifacts));
    LatestOfUpdate(s.view, taskId, role, id, after.view[id]);
    CompleteRuns(start, s, after, ws, failed, taskId, role, k, id);
    CompletePhases(start, s, after, ws, failed, taskId, role, k, id);
  }

  lemma CompletePhases(start: seq<Run>, s: System, after: System, ws: seq<Write>, failed: set<nat>, taskId: string,
                       role: Role, k: nat, id: nat)
    requires KindInv(start, s, ws, failed, taskId, role) && SamePlaces(s.view, after.view) && |s.view| == |after.view|
    requires k < |ws| && after.phases == s.phases[k := Finished]
    requires id < |after.view| && ForPair(after.view[id], taskId, role)
    requires Full(start, ws, taskId, role, HeldBy(after.view[id]))
    requires forall x :: 0 <= x < |after.view| && ForPair(after.view[x], taskId, role) ==>
      RunOk(start, ws, after.phases, taskId, role, x, after.view[x])
    ensures forall i :: Party(ws, i, taskId, role) ==>
      PhaseOk(start, after.view, ws, taskId, role, ws[i], after.phases[i], i in failed)
  {
    forall i | Party(ws, i, taskId, role)
      ensures PhaseOk(start, after.view, ws, taskId, role, ws[i], after.phases[i], i in failed)
    {
      assert PhaseOk(start, s.view, ws, taskId, role, ws[i], s.phases[i], i in failed);
      forall key | key in Given(ws[i]) ensures Holds(after.view, taskId, role, key) {
        CompleteKept(start, after, ws, taskId, role, id, i, key);
      }
    }
  }

  /** A write of another pair neither reads nor changes the runs of this one. */
  lemma OtherStep(start: seq<Run>, s: System, ws: seq<Write>, failed: set<nat>, taskId: string, role: Role, k: nat,
                  fault: Fault)
    requires KindInv(start, s, ws, failed, taskId, role) && AllInHand(s, ws)
    requires k < |ws| && !For(ws[k], taskId, role) && s.phases[k] != Finished
    ensures KindInv(start, StepOf(s, ws, Turn(k, fault)), ws, failed, taskId, role)
  {
    var after := StepOf(s, ws, Turn(k, fault));
    var w, p := ws[k], s.phases[k];
    assert InHand(s.view, w, p);
    ForeignStep(s.view, w, p, fault, taskId, role);
    OtherRuns(start, s, after, ws, failed, taskId, role, k);
    OtherPhases(start, s, after, ws, failed, taskId, role, k);
  }

  lemma OtherRuns(start: seq<Run>, s: System, after: System, ws: seq<Write>, failed: set<nat>, taskId: string,
                  role: Role, k: nat)
    requires KindInv(start, s, ws, failed, taskId, role) && k < |ws| && s.phases[k] != Finished
    requires forall x :: 0 <= x < |after.view| && ForPair(after.view[x], taskId, role) ==>
      x < |s.view| && after.view[x] == s.view[x]
    requires |after.phases| == |ws| && (forall i :: 0 <= i < |ws| && i != k ==> after.phases[i] == s.phases[i])
    requires s.phases[k].Open? ==> after.phases[k].Finished?
    ensures forall x :: 0 <= x < |after.view| && ForPair(after.view[x], taskId, role) ==>
      RunOk(start, ws, after.phases, taskId, role, x, after.view[x])
  {
    forall x | 0 <= x < |after.view| && ForPair(after.view[x], taskId, role)
      ensures RunOk(start, ws, after.phases, taskId, role, x, after.view[x])
    {
      assert RunOk(start, ws, s.phases, taskId, role, x, s.view[x]);
      CreatedStays(ws, s.phases, after.phases, s.view[x], taskId, role);
    }
  }

  lemma OtherPhases(start: seq<Run>, s: System, after: System, ws: seq<Write>, failed: set<nat>, taskId: string,
                    role: Role, k: nat)
    requires KindInv(start, s, ws, failed, taskId, role) && k < |ws| && !For(ws[k], taskId, role)
    requires |s.view| <= |after.view|
    requires forall x :: 0 <= x < |s.view| && ForPair(s.view[x], taskId, role) ==> after.view[x] == s.view[x]
    requires |after.phases| == |ws| && forall i :: 0 <= i < |ws| && i != k ==> after.phases[i] == s.phases[i]
    ensures forall i :: Party(ws, i, taskId, role) ==>
      PhaseOk(start, after.view, ws, taskId, role, ws[i], after.phases[i], i in failed)
  {
    forall i | Party(ws, i, taskId, role)
      ensures PhaseOk(start, after.view, ws, taskId, role, ws[i], after.phases[i], i in failed)
    {
      assert PhaseOk(start, s.view, ws, taskId, role, ws[i], s.phases[i], i in failed);
      forall key | s.phases[i].Finished? && i !in failed && key in Given(ws[i])
        ensures Holds(after.view, taskId, role, key)
      {
        HoldsStays(s.view, after.view, taskId, role, key);
      }
    }
  }

  lemma ForeignStep(view: seq<Run>, w: Write, p: Phase, fault: Fault, taskId: string, role: Role)
    requires InHand(view, w, p) && !For(w, taskId, role)
    ensures var after := NextView(view, w, p, fault);
            && SamePlaces(view, after) && Latest(after, taskId, role) == Latest(view, taskId, role)
            && (forall x :: 0 <= x < |after| && ForPair(after[x], taskId, role) ==> x < |view|)
            && forall x :: 0 <= x < |view| && ForPair(view[x], taskId, role) ==> after[x] == view[x]
  {
    if w.taskId != "" && !fault.Lost? {
      if p.Absent? {
        PairAppend(view, Opened(w), taskId, role);
      } else if p.Completing? || p.Open? {
        LatestOfUpdate(view, taskId, role, p.id, NextView(view, w, p, fault)[p.id]);
      }
    }
  }

  /** A write closes its own new run with what it supplies. */
  lemma CloseFull(start: seq<Run>, ws: seq<Write>, taskId: string, role: Role, k: nat)
    requires taskId != "" && PairSafe(start, ws, taskId, role) && Latest(start, taskId, role).None?
    requires Party(ws, k, taskId, role) && Closes(ws[k])
    ensures Full(start, ws, taskId, role, Keys(Truthy(Truthy(ws[k].outputArtifacts))))
  {
    OpenedHolds(ws[k]);
    forall i, key | Supplied(ws, i, taskId, role, key) ensures key in Given(ws[k]) {
    }
  }

  lemma KindStep(start: seq<Run>, s: System, ws: seq<Write>, failed: set<nat>, taskId: string, role: Role, k: nat,
                 fault: Fault)
    requires taskId != "" && PairSafe(start, ws, taskId, role)
    requires KindInv(start, s, ws, failed, taskId, role) && AllInHand(s, ws) && Runnable(s, ws, k)
    requires !fault.NoFault? ==> k in failed
    ensures KindInv(start, StepOf(s, ws, Turn(k, fault)), ws, failed, taskId, role)
  {
    if !For(ws[k], taskId, role) {
      OtherStep(start, s, ws, failed, taskId, role, k, fault);
    } else {
      assert Party(ws, k, taskId, role);
      OwnStep(start, s, ws, failed, taskId, role, k, fault);
    }
  }

  lemma OwnStep(start: seq<Run>, s: System, ws: seq<Write>, failed: set<nat>, taskId: string, role: Role, k: nat,
                fault: Fault)
    requires taskId != "" && PairSafe(start, ws, taskId, role)
    requires KindInv(start, s, ws, failed, taskId, role) && Party(ws, k, taskId, role) && s.phases[k] != Finished
    requires !fault.NoFault? ==> k in failed
    ensures KindInv(start, StepOf(s, ws, Turn(k, fault)), ws, failed, taskId, role)
  {
    var p := s.phases[k];
    if p.Found? || (p.Start? && fault.NoFault?) {
      LookStep(start, s, ws, failed, taskId, role, k, fault);
    } else if fault.Lost? || p.Start? {
      FailedStep(start, s, ws, failed, taskId, role, k, fault);
    } else {
      match p
      case Absent => CreateStep(start, s, ws, failed, taskId, role, k, fault);
      case Completing(id, artifacts, summary) =>
        CompleteStep(start, s, ws, failed, taskId, role, k, fault, id, artifacts, summary);
      case Open(id) =>
        CloseFull(start, ws, taskId, role, k);
        CompleteStep(start, s, ws, failed, taskId, role, k, fault, id, Truthy(ws[k].outputArtifacts), ws[k].summary);
    }
  }

  lemma FailedWeakens(start: seq<Run>, s: System, ws: seq<Write>, a: set<nat>, b: set<nat>, taskId: string, role: Role)
    requires KindInv(start, s, ws, a, taskId, role) && a <= b
    ensures KindInv(start, s, ws, b, taskId, role)
  {
    forall k | Party(ws, k, taskId, role)
      ensures PhaseOk(start, s.view, ws, taskId, role, ws[k], s.phases[k], k in b)
    {
      assert PhaseOk(start, s.view, ws, taskId, role, ws[k], s.phases[k], k in a);
    }
  }

  lemma {:induction false} ScheduleKinds(start: seq<Run>, ws: seq<Write>, turns: seq<Turn>, taskId: string, role: Role)
    requires taskId != "" && PairSafe(start, ws, taskId, role)
    ensures KindInv(start, Exec(Init(start, ws), ws, turns), ws, FailedWrites(turns), taskId, role)
  {
    if turns == [] {
      NothingYet(start, ws, taskId, role);
    } else {
      var n := |turns| - 1;
      var s, t := Exec(Init(start, ws), ws, turns[..n]), turns[n];
      ScheduleKinds(start, ws, turns[..n], taskId, role);
      ScheduleInHand(start, ws, turns[..n]);
      FailedWeakens(start, s, ws, FailedWrites(turns[..n]), FailedWrites(turns), taskId, role);
      assert t == Turn(t.k, t.fault);
      if Runnable(s, ws, t.k) {
        KindStep(start, s, ws, FailedWrites(turns), taskId, role, t.k, t.fault);
      }
    }
  }

  lemma NothingYet(start: seq<Run>, ws: seq<Write>, taskId: string, role: Role)
    ensures KindInv(start, Init(start, ws), ws, FailedWrites([]), taskId, role)
  {
  }

  lemma SafeKeepsAll(view: seq<Run>, ws: seq<Write>, turns: seq<Turn>)
    requires forall taskId, role :: taskId != "" ==> PairSafe(view, ws, taskId, role)
    requires Complete(view, ws, turns)
    ensures AllKept(ViewAfter(view, ws, turns), ws, FailedWrites(turns))
  {
    var e := Exec(Init(view, ws), ws, turns);
    forall i, taskId, role, key | Supplied(ws, i, taskId, role, key) && i !in FailedWrites(turns)
      ensures Holds(e.view, taskId, role, key)
    {
      ScheduleKinds(view, ws, turns, taskId, role);
      assert PhaseOk(view, e.view, ws, taskId, role, ws[i], e.phases[i], i in FailedWrites(turns));
    }
  }

  // ---------------------------------------------------------------------------
  // Needed: a schedule that loses a kind
  // ---------------------------------------------------------------------------

  /** The newest run ends without the kind, and no other run of the pair has it. */
  lemma NotHeld(a: seq<Run>, b: seq<Run>, taskId: string, role: Role, key: string)
    requires Latest(a, taskId, role).Some? && OnlyLatest(a, b, taskId, role)
    requires key !in HeldBy(b[Latest(a, taskId, role).value])
    requires forall x :: 0 <= x < |a| && x != Latest(a, taskId, role).value && ForPair(a[x], taskId, role) ==>
      key !in HeldBy(a[x])
    ensures !Holds(b, taskId, role, key)
  {
    forall x | 0 <= x < |b| && ForPair(b[x], taskId, role) ensures key !in HeldBy(b[x]) {
      if x != Latest(a, taskId, role).value {
        assert b[x] == a[x];
      }
    }
  }

  /** The last write to end, with its artifacts decided before the others ran. */
  lemma LastCompletion(start: seq<Run>, s: System, ws: seq<Write>, j: nat, id: nat, taskId: string, role: Role,
                       key: string)
    returns (turns: seq<Turn>)
    requires j < |ws| == |s.phases| && ws[j].taskId != "" && Latest(start, taskId, role) == Some(id)
    requires OnlyLatest(start, s.view, taskId, role) && !Holds(start, taskId, role, key)
    requires forall i :: 0 <= i < |ws| && i != j ==> s.phases[i] == Finished || s.phases[i] == Start
    requires match s.phases[j]
             case Completing(x, artifacts, _) => x == id && key !in Keys(Truthy(artifacts))
             case Open(x) => x == id && key !in Given(ws[j])
             case _ => false
    ensures Faultless(turns)
    ensures var e := Exec(s, ws, turns); AllFinished(e) && !Holds(e.view, taskId, role, key)
  {
    var others := OthersFinish(start, s, ws, j, 0, taskId, role);
    var t, mid := Turn(j, NoFault), Exec(s, ws, others);
    turns := others + [t];
    ExecOne(s, ws, others, t);
    var e := StepOf(mid, ws, t);
    var p := s.phases[j];
    assert mid.phases[j] == p;
    OpenedHolds(ws[j]);
    assert key !in HeldBy(e.view[id]);
    LatestOfUpdate(mid.view, taskId, role, id, e.view[id]);
    forall x | 0 <= x < |e.view| && ForPair(e.view[x], taskId, role) ensures key !in HeldBy(e.view[x]) {
      if x != id {
        assert e.view[x] == mid.view[x] == start[x];
      }
    }
  }

  /** A write that finds the run not settled inspects it first and completes it last. */
  lemma LostByMerge(s: System, ws: seq<Write>, j: nat, id: nat, taskId: string, role: Role, key: string)
    returns (turns: seq<Turn>)
    requires j < |ws| == |s.phases| && For(ws[j], taskId, role) && Latest(s.view, taskId, role) == Some(id)
    requires forall i :: 0 <= i < |ws| ==> s.phases[i] == Finished || s.phases[i] == Start
    requires s.phases[j] == Start && !Settled(s.view[id], ws[j])
    requires !Holds(s.view, taskId, role, key) && key !in Given(ws[j])
    ensures Faultless(turns)
    ensures var e := Exec(s, ws, turns); AllFinished(e) && !Holds(e.view, taskId, role, key)
  {
    var t := Turn(j, NoFault);
    var s1 := StepOf(s, ws, t);
    var s2 := StepOf(s1, ws, t);
    ExecOne(s, ws, [], t);
    ExecOne(s, ws, [t], t);
    assert [] + [t] == [t] && [t] + [t] == [t, t];
    assert s1 == System(s.view, s.phases[j := Found(id)]);
    MergedHolds(s.view[id], ws[j]);
    assert key !in HeldBy(s.view[id]);
    var rest := LastCompletion(s.view, s2, ws, j, id, taskId, role, key);
    turns := [t, t] + rest;
    ExecAppend(s, ws, [t, t], rest);
  }

  /** A write creates the pair's run. */
  lemma Creates(view: seq<Run>, ws: seq<Write>, i: nat) returns (s: System)
    requires i < |ws| && ws[i].taskId != "" && Latest(view, ws[i].taskId, ws[i].role).None?
    ensures var t := Turn(i, NoFault); s == Exec(Init(view, ws), ws, [t, t])
    ensures s.view == view + [Opened(ws[i])] && |s.phases| == |ws|
    ensures s.phases[i] == if Closes(ws[i]) then Open(|view|) else Finished
    ensures forall k :: 0 <= k < |ws| && k != i ==> s.phases[k] == Start
  {
    var t := Turn(i, NoFault);
    var s0 := Init(view, ws);
    var s1 := StepOf(s0, ws, t);
    s := StepOf(s1, ws, t);
    ExecOne(s0, ws, [], t);
    ExecOne(s0, ws, [t], t);
    assert [] + [t] == [t] && [t] + [t] == [t, t];
    assert s1 == System(view, s0.phases[i := Absent]);
  }

  /** The new run is the only one of its pair. */
  lemma OnlyCreated(view: seq<Run>, w: Write, key: string)
    requires w.taskId != "" && Latest(view, w.taskId, w.role).None? && key !in Given(w)
    ensures var after := view + [Opened(w)];
            Latest(after, w.taskId, w.role) == Some(|view|) && !Holds(after, w.taskId, w.role, key)
  {
    var after := view + [Opened(w)];
    PairAppend(view, Opened(w), w.taskId, w.role);
    OpenedHolds(w);
    forall x | 0 <= x < |after| && key in HeldBy(after[x]) ensures !ForPair(after[x], w.taskId, w.role) {
      if x < |view| {
        assert after[x] == view[x];
      }
    }
  }

  /** A pair without a run: the creator closes its run last, or another write merges
      into it last. */
  lemma LostByCreation(view: seq<Run>, ws: seq<Write>, taskId: string, role: Role) returns (turns: seq<Turn>)
    requires Latest(view, taskId, role).None? && !PairSafe(view, ws, taskId, role)
    ensures Complete(view, ws, turns) && Faultless(turns) && !AllKept(ViewAfter(view, ws, turns), ws, {})
  {
    var i, m, key :| Party(ws, i, taskId, role) && Supplied(ws, m, taskId, role, key) && key !in Given(ws[i])
      && (Closes(ws[i]) || exists j :: Party(ws, j, taskId, role) && j != i && key !in Given(ws[j]));
    var s := Creates(view, ws, i);
    OnlyCreated(view, ws[i], key);
    var t := Turn(i, NoFault);
    var rest;
    if Closes(ws[i]) {
      rest := LastCompletion(s.view, s, ws, i, |view|, taskId, role, key);
    } else {
      var j :| Party(ws, j, taskId, role) && j != i && key !in Given(ws[j]);
      rest := LostByMerge(s, ws, j, |view|, taskId, role, key);
    }
    turns := [t, t] + rest;
    ExecAppend(Init(view, ws), ws, [t, t], rest);
    assert Supplied(ws, m, taskId, role, key) && !Holds(ViewAfter(view, ws, turns), taskId, role, key);
  }

  /** A skipped run takes nothing. */
  lemma LostOnSkipped(view: seq<Run>, ws: seq<Write>, id: nat, taskId: string, role: Role, key: string)
    returns (turns: seq<Turn>)
    requires Latest(view, taskId, role) == Some(id) && view[id].status == Skipped && !Holds(view, taskId, role, key)
    ensures Complete(view, ws, turns) && Faultless(turns) && !Holds(ViewAfter(view, ws, turns), taskId, role, key)
  {
    turns := OthersFinish(view, Init(view, ws), ws, |ws|, 0, taskId, role);
    NotHeld(view, ViewAfter(view, ws, turns), taskId, role, key);
  }

  /** A pair with a run: a skipped run takes nothing, and any other may be completed last
      by a write that has not seen the rest. */
  lemma LostFromRun(view: seq<Run>, ws: seq<Write>, taskId: string, role: Role) returns (turns: seq<Turn>)
    requires Latest(view, taskId, role).Some? && !PairSafe(view, ws, taskId, role)
    ensures Complete(view, ws, turns) && Faultless(turns) && !AllKept(ViewAfter(view, ws, turns), ws, {})
  {
    var id := Latest(view, taskId, role).value;
    var i, key :| Supplied(ws, i, taskId, role, key) && !Holds(view, taskId, role, key)
      && (view[id].status == Skipped
          || exists j :: Party(ws, j, taskId, role) && !Settled(view[id], ws[j]) && key !in Given(ws[j]));
    if view[id].status == Skipped {
      turns := LostOnSkipped(view, ws, id, taskId, role, key);
    } else {
      var j :| Party(ws, j, taskId, role) && !Settled(view[id], ws[j]) && key !in Given(ws[j]);
      turns := LostByMerge(Init(view, ws), ws, j, id, taskId, role, key);
    }
    assert Supplied(ws, i, taskId, role, key) && !Holds(ViewAfter(view, ws, turns), taskId, role, key);
  }

  // ---------------------------------------------------------------------------
  // The exact condition
  // ---------------------------------------------------------------------------

  lemma NoneFailed(turns: seq<Turn>)
    requires Faultless(turns)
    ensures FailedWrites(turns) == {}
  {
  }

  /** Every schedule, whatever fails, keeps every kind supplied by the writes that did not
      fail, exactly when every pair is safe; and otherwise one without faults loses a
      kind. */
  lemma KindsKeptIff(view: seq<Run>, ws: seq<Write>)
    ensures (forall turns :: Complete(view, ws, turns) ==> AllKept(ViewAfter(view, ws, turns), ws, FailedWrites(turns)))
       <==> (forall taskId, role :: taskId != "" ==> PairSafe(view, ws, taskId, role))
    ensures (forall turns :: Complete(view, ws, turns) && Faultless(turns) ==>
              AllKept(ViewAfter(view, ws, turns), ws, {}))
       <==> (forall taskId, role :: taskId != "" ==> PairSafe(view, ws, taskId, role))
  {
    if forall taskId, role :: taskId != "" ==> PairSafe(view, ws, taskId, role) {
      forall turns | Complete(view, ws, turns)
        ensures AllKept(ViewAfter(view, ws, turns), ws, FailedWrites(turns))
        ensures Faultless(turns) ==> AllKept(ViewAfter(view, ws, turns), ws, {})
      {
        SafeKeepsAll(view, ws, turns);
        if Faultless(turns) { NoneFailed(turns); }
      }
    } else {
      var taskId, role :| taskId != "" && !PairSafe(view, ws, taskId, role);
      var turns;
      if Latest(view, taskId, role).Some? {
        turns := LostFromRun(view, ws, taskId, role);
      } else {
        turns := LostByCreation(view, ws, taskId, role);
      }
      NoneFailed(turns);
    }
  }

  // ---------------------------------------------------------------------------
  // What was held before
  // ---------------------------------------------------------------------------

  /** Runs keep their artifacts in front of what is added to them. */
  ghost predicate ArtifactsStay(a: seq<Run>, b: seq<Run>) {
    |a| <= |b| && forall x :: 0 <= x < |a| ==> Truthy(a[x].outputArtifacts) <= Truthy(b[x].outputArtifacts)
  }

  ghost predicate NothingLost(start: seq<Run>, s: System, ws: seq<Write>) {
    && |s.phases| == |ws| && ArtifactsStay(start, s.view)
    && forall k :: 0 <= k < |ws| && ws[k].taskId != "" ==> KeepsInHand(start, s.phases[k])
  }

  /** A completion in hand brings the artifacts of its run along; what is still to be
      closed is a new run. */
  ghost predicate KeepsInHand(start: seq<Run>, p: Phase) {
    match p
    case Completing(id, artifacts, _) => id < |start| ==> Truthy(start[id].outputArtifacts) <= Truthy(artifacts)
    case Open(id) => id >= |start|
    case _ => true
  }

  lemma LosesNothing(start: seq<Run>, s: System, ws: seq<Write>, t: Turn)
    requires NothingLost(start, s, ws) && Runnable(s, ws, t.k)
    ensures NothingLost(start, StepOf(s, ws, t), ws)
  {
    var w, p := ws[t.k], s.phases[t.k];
    if w.taskId != "" && p.Found? && p.id < |s.view| {
      MergedIsTruthy(s.view[p.id], w);
    }
    assert KeepsInHand(start, p) || w.taskId == "";
    forall k | 0 <= k < |ws| && ws[k].taskId != "" ensures KeepsInHand(start, StepOf(s, ws, t).phases[k]) {
      assert KeepsInHand(start, s.phases[k]);
    }
  }

  /** No schedule of any writes, whatever fails, takes from a run an artifact that it held
      before, and so no kind from a pair. */
  lemma {:induction false} HeldBeforeKept(start: seq<Run>, ws: seq<Write>, turns: seq<Turn>)
    ensures NothingLost(start, Exec(Init(start, ws), ws, turns), ws)
  {
    if turns != [] {
      var n := |turns| - 1;
      var s := Exec(Init(start, ws), ws, turns[..n]);
      HeldBeforeKept(start, ws, turns[..n]);
      if Runnable(s, ws, turns[n].k) {
        LosesNothing(start, s, ws, turns[n]);
      }
    }
  }

  /** In terms of the pairs and their kinds. */
  lemma KindsHeldBeforeKept(start: seq<Run>, ws: seq<Write>, turns: seq<Turn>, taskId: string, role: Role, key: string)
    requires Holds(start, taskId, role, key)
    ensures Holds(ViewAfter(start, ws, turns), taskId, role, key)
  {
    var after := ViewAfter(start, ws, turns);
    HeldBeforeKept(start, ws, turns);
    ExecPlaces(Init(start, ws), ws, turns);
    var x :| 0 <= x < |start| && ForPair(start[x], taskId, role) && key in HeldBy(start[x]);
    var a :| a in Truthy(start[x].outputArtifacts) && Key(a) == key;
    assert a in Truthy(after[x].outputArtifacts);
  }
}
