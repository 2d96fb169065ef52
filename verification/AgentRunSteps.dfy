/** Concurrent writebacks as schedules: each write is a few atomic steps (list, inspect,
    create, complete), and a schedule says whose step is next and whether the store
    fails in it. */
module AgentRunSteps {
  import opened AgentArtifacts
  import opened AgentRunStore
  import opened AgentRunWriteback
  import opened Wrappers

  /** Where a write stands between its atomic steps. */
  datatype Phase =
    | Start
    | Found(id: nat)
    | Absent
    | Completing(id: nat, artifacts: seq<Artifact>, summary: string)
    | Open(id: nat)
    | Finished

  /** A step that fails has had no effect, or has had it in memory. */
  datatype Fault = NoFault | Lost | Unsaved

  datatype Turn = Turn(k: nat, fault: Fault)

  datatype System = System(view: seq<Run>, phases: seq<Phase>)

  /** The phase after the next step of a write; an error ends it. The listed run is
      inspected as it is by then. */
  function NextPhase(view: seq<Run>, w: Write, p: Phase, fault: Fault): Phase {
    if w.taskId == "" then Finished
    else
      match p
      case Start =>
        var id := Latest(view, w.taskId, w.role);
        if !fault.NoFault? then Finished else if id.None? then Absent else Found(id.value)
      case Found(id) =>
        if id >= |view| || Settled(view[id], w) then Finished
        else Completing(id, Merged(view[id], w), if w.summary != "" then w.summary else view[id].summary)
      case Absent => if fault.NoFault? && Closes(w) then Open(|view|) else Finished
      case _ => Finished
  }

  /** The store after it. */
  function NextView(view: seq<Run>, w: Write, p: Phase, fault: Fault): seq<Run> {
    if w.taskId == "" || fault.Lost? then view
    else
      match p
      case Absent => view + [Opened(w)]
      case Completing(id, artifacts, summary) => CompletedAt(view, id, w.status, artifacts, summary)
      case Open(id) => CompletedAt(view, id, w.status, Truthy(w.outputArtifacts), w.summary)
      case _ => view
  }

  function CompletedAt(view: seq<Run>, id: nat, status: Option<Status>, artifacts: seq<Artifact>, summary: string)
    : (after: seq<Run>)
    ensures |after| == |view|
  {
    if id < |view| then view[id := AsCompleted(view[id], status, artifacts, summary)] else view
  }

  predicate Runnable(s: System, ws: seq<Write>, k: nat) {
    k < |ws| == |s.phases| && s.phases[k] != Finished
  }

  /** A turn given to a write that has ended changes nothing. */
  function StepOf(s: System, ws: seq<Write>, t: Turn): System {
    if Runnable(s, ws, t.k) then
      System(NextView(s.view, ws[t.k], s.phases[t.k], t.fault),
             s.phases[t.k := NextPhase(s.view, ws[t.k], s.phases[t.k], t.fault)])
    else s
  }

  function Exec(s: System, ws: seq<Write>, turns: seq<Turn>): System {
    if turns == [] then s
    else StepOf(Exec(s, ws, turns[..|turns| - 1]), ws, turns[|turns| - 1])
  }

  function Init(view: seq<Run>, ws: seq<Write>): System {
    System(view, seq(|ws|, _ => Start))
  }

  /** The store after a schedule for `ws`. */
  function ViewAfter(view: seq<Run>, ws: seq<Write>, turns: seq<Turn>): seq<Run> {
    Exec(Init(view, ws), ws, turns).view
  }

  predicate AllFinished(s: System) {
    forall k :: 0 <= k < |s.phases| ==> s.phases[k] == Finished
  }

  /** The schedule takes every write to its end. */
  predicate Complete(view: seq<Run>, ws: seq<Write>, turns: seq<Turn>) {
    AllFinished(Exec(Init(view, ws), ws, turns))
  }

  predicate Faultless(turns: seq<Turn>) {
    forall i :: 0 <= i < |turns| ==> turns[i].fault.NoFault?
  }

  /** The writes a step of which has failed. */
  function FailedWrites(turns: seq<Turn>): set<nat> {
    set i | 0 <= i < |turns| && !turns[i].fault.NoFault? :: turns[i].k
  }

  lemma {:induction false} ExecAppend(s: System, ws: seq<Write>, a: seq<Turn>, b: seq<Turn>)
    ensures Exec(s, ws, a + b) == Exec(Exec(s, ws, a), ws, b)
  {
    if b == [] {
      assert a + b == a;
    } else {
      var n := |b| - 1;
      assert (a + b)[..|a| + n] == a + b[..n] && (a + b)[|a| + n] == b[n];
      ExecAppend(s, ws, a, b[..n]);
    }
  }

  lemma ExecOne(s: System, ws: seq<Write>, turns: seq<Turn>, t: Turn)
    ensures Exec(s, ws, turns + [t]) == StepOf(Exec(s, ws, turns), ws, t)
  {
    assert (turns + [t])[..|turns|] == turns;
  }

  function StepsLeft(p: Phase): nat {
    match p
    case Start => 3
    case Found(_) => 2
    case Absent => 2
    case Completing(_, _, _) => 1
    case Open(_) => 1
    case Finished => 0
  }

  lemma PhaseAdvances(view: seq<Run>, w: Write, p: Phase, fault: Fault)
    ensures p != Finished ==> StepsLeft(NextPhase(view, w, p, fault)) < StepsLeft(p)
  {
  }

  // ---------------------------------------------------------------------------
  // What every step keeps
  // ---------------------------------------------------------------------------

  /** Runs keep their place, task and role, and none is taken away. */
  ghost predicate SamePlaces(a: seq<Run>, b: seq<Run>) {
    && |a| <= |b|
    && forall x :: 0 <= x < |a| ==> b[x].taskId == a[x].taskId && b[x].contractRole == a[x].contractRole
  }

  lemma NextViewPlaces(view: seq<Run>, w: Write, p: Phase, fault: Fault)
    ensures SamePlaces(view, NextView(view, w, p, fault))
  {
  }

  lemma {:induction false} ExecPlaces(s: System, ws: seq<Write>, turns: seq<Turn>)
    ensures SamePlaces(s.view, Exec(s, ws, turns).view)
    ensures |Exec(s, ws, turns).phases| == |s.phases|
  {
    if turns != [] {
      var n := |turns| - 1;
      ExecPlaces(s, ws, turns[..n]);
    }
  }

  /** Two runs of one pair stay two. */
  lemma NotUniqueStays(a: seq<Run>, b: seq<Run>)
    requires SamePlaces(a, b) && !Unique(a)
    ensures !Unique(b)
  {
    var i, j :| 0 <= i < j < |a| && a[i].taskId == a[j].taskId && a[i].contractRole == a[j].contractRole;
    assert b[i].taskId == b[j].taskId && b[i].contractRole == b[j].contractRole;
  }

  // ---------------------------------------------------------------------------
  // Writes made one after another
  // ---------------------------------------------------------------------------

  /** Three steps that nothing interleaves are the write that nothing disturbs. */
  lemma Alone(s: System, ws: seq<Write>, k: nat) returns (turns: seq<Turn>)
    requires k < |ws| == |s.phases| && s.phases[k] == Start
    ensures Faultless(turns)
    ensures Exec(s, ws, turns) == System(Written(s.view, ws[k]), s.phases[k := Finished])
  {
    var t := Turn(k, NoFault);
    var w := ws[k];
    var s1 := StepOf(s, ws, t);
    var s2 := StepOf(s1, ws, t);
    var s3 := StepOf(s2, ws, t);
    turns := [t, t, t];
    ExecOne(s, ws, [], t);
    ExecOne(s, ws, [t], t);
    ExecOne(s, ws, [t, t], t);
    assert [] + [t] == [t] && [t] + [t] == [t, t] && [t, t] + [t] == turns;
    assert Exec(s, ws, turns) == s3;
    AloneSteps(s, ws, k, s1, s2, s3);
  }

  lemma AloneSteps(s: System, ws: seq<Write>, k: nat, s1: System, s2: System, s3: System)
    requires k < |ws| == |s.phases| && s.phases[k] == Start
    requires s1 == StepOf(s, ws, Turn(k, NoFault))
    requires s2 == StepOf(s1, ws, Turn(k, NoFault))
    requires s3 == StepOf(s2, ws, Turn(k, NoFault))
    ensures s3.view == Written(s.view, ws[k]) && s3.phases == s.phases[k := Finished]
  {
    var w, id := ws[k], Latest(s.view, ws[k].taskId, ws[k].role);
    if w.taskId == "" {
      assert s1 == System(s.view, s.phases[k := Finished]) == s2 == s3;
    } else if id.None? {
      assert s1 == System(s.view, s.phases[k := Absent]);
      assert s2.view == s.view + [Opened(w)];
      if Closes(w) {
        assert s2.phases == s.phases[k := Open(|s.view|)];
        assert s3.view == s.view + [FreshRun(w)];
      }
    } else {
      assert s1 == System(s.view, s.phases[k := Found(id.value)]);
      assert s.view[id.value := s.view[id.value]] == s.view;
    }
  }
}
