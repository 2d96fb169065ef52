/** A write that is the only one for its pair, among any others: every schedule does of it
    what it asks for. */
module AgentRunAlone {
  import opened AgentArtifacts
  import opened AgentRunClashes
  import opened AgentRunInterleaving
  import opened AgentRunSteps
  import opened AgentRunStore
  import opened AgentRunWriteback
  import opened Wrappers

  /** No other write is for its task and contract role. */
  ghost predicate Lone(ws: seq<Write>, k: int) {
    && 0 <= k < |ws| && ws[k].taskId != ""
    && forall j :: 0 <= j < |ws| && j != k ==> ws[j].taskId != ws[k].taskId || ws[j].role != ws[k].role
  }

  /** Of the runs of a pair, oldest first: the newest is done to as the write asks, or the
      missing one is made. */
  ghost predicate PairAsAsked(was: seq<Run>, runs: seq<Run>, w: Write) {
    if was == [] then |runs| == 1 && MadeFor(w, runs[0])
    else
      var n := |was| - 1;
      |runs| == n + 1 && runs[..n] == was[..n] && DoneTo(was[n], runs[n], w)
  }

  /** A step changes the runs of its own pair only, whatever else is going on. */
  lemma StepInPair(view: seq<Run>, w: Write, p: Phase, fault: Fault)
    requires InHand(view, w, p)
    ensures OwnPairOnly(view, NextView(view, w, p, fault), w)
  {
    var after := NextView(view, w, p, fault);
    if after != view {
      forall taskId, role | !For(w, taskId, role) ensures PairKept(view, after, taskId, role) {
        match p
        case Absent => PairAppend(view, Opened(w), taskId, role);
        case Completing(id, _, _) => PairUpdateOther(view, id, after[id], taskId, role);
        case Open(id) => PairUpdateOther(view, id, after[id], taskId, role);
      }
    }
  }

  /** So the invariant of a lone write survives the steps of all others. */
  lemma {:induction false} LoneKeeps(view: seq<Run>, ws: seq<Write>, turns: seq<Turn>, k: nat)
    requires Lone(ws, k)
    ensures var s := Exec(Init(view, ws), ws, turns);
            |s.phases| == |ws| && ProcInv(view, s.view, ws[k], s.phases[k], Faultless(turns))
  {
    if turns != [] {
      var n, sure := |turns| - 1, Faultless(turns);
      var t, s := turns[n], Exec(Init(view, ws), ws, turns[..n]);
      LoneKeeps(view, ws, turns[..n], k);
      ScheduleInHand(view, ws, turns[..n]);
      assert sure ==> Faultless(turns[..n]) && t.fault.NoFault?;
      if Runnable(s, ws, t.k) {
        if t.k == k {
          StepKeeps(view, s.view, ws[k], s.phases[k], t.fault, sure);
        } else {
          StepInPair(s.view, ws[t.k], s.phases[t.k], t.fault);
          assert PairKept(s.view, NextView(s.view, ws[t.k], s.phases[t.k], t.fault), ws[k].taskId, ws[k].role);
        }
      }
    }
  }

  /** What becomes of the pair of a write: what it asks for or, if the store may fail,
      nothing or a run left running. */
  ghost predicate LoneResult(before: seq<Run>, after: seq<Run>, w: Write, sure: bool) {
    var was, runs := PairRuns(before, w.taskId, w.role), PairRuns(after, w.taskId, w.role);
    || PairAsAsked(was, runs, w)
    || (!sure && (runs == was || (was == [] && PairAsAsked(was, runs, w.(status := Some(Running))))))
  }

  /** What the end of a lone write comes to. */
  lemma EndAsAsked(was: seq<Run>, runs: seq<Run>, w: Write, sure: bool)
    requires runs == PairWritten(was, w) || (!sure && CutShort(was, runs, w))
    ensures || PairAsAsked(was, runs, w)
            || (!sure && (runs == was || (was == [] && PairAsAsked(was, runs, w.(status := Some(Running))))))
  {
    if was == [] {
      FreshIsMade(w);
      FreshIsMade(w.(status := Some(Running)));
    } else if runs == PairWritten(was, w) {
      AfterIsDone(was[|was| - 1], w);
    }
  }

  /** Whatever the other writes are, a complete schedule does of a lone write what it asks
      for, unless it fails. */
  lemma LoneAsAsked(view: seq<Run>, ws: seq<Write>, turns: seq<Turn>, k: nat)
    requires Lone(ws, k) && Complete(view, ws, turns)
    ensures LoneResult(view, ViewAfter(view, ws, turns), ws[k], Faultless(turns))
  {
    LoneKeeps(view, ws, turns, k);
    var s, w := Exec(Init(view, ws), ws, turns), ws[k];
    assert s.phases[k] == Finished;
    EndAsAsked(PairRuns(view, w.taskId, w.role), PairRuns(s.view, w.taskId, w.role), w, Faultless(turns));
  }
}
