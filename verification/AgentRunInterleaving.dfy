/** Concurrent writebacks of different pairs: every schedule writes each pair once, as
    the writes would one after another. */
module AgentRunInterleaving {
  import opened AgentArtifacts
  import opened AgentRunSteps
  import opened AgentRunStore
  import opened AgentRunWriteback
  import opened Wrappers

  // ---------------------------------------------------------------------------
  // The runs of one pair
  // ---------------------------------------------------------------------------

  /** The runs of a task and contract role, oldest first. */
  function PairRuns(view: seq<Run>, taskId: string, role: Role): seq<Run> {
    if view == [] then []
    else
      var n := |view| - 1;
      PairRuns(view[..n], taskId, role) + (if ForPair(view[n], taskId, role) then [view[n]] else [])
  }

  lemma PairAppend(view: seq<Run>, run: Run, taskId: string, role: Role)
    ensures PairRuns(view + [run], taskId, role)
         == PairRuns(view, taskId, role) + (if ForPair(run, taskId, role) then [run] else [])
    ensures Latest(view + [run], taskId, role)
         == if ForPair(run, taskId, role) then Some(|view|) else Latest(view, taskId, role)
  {
    assert (view + [run])[..|view|] == view;
  }

  lemma {:induction false} PairUpdateOther(view: seq<Run>, i: nat, run: Run, taskId: string, role: Role)
    requires i < |view| && !ForPair(view[i], taskId, role) && !ForPair(run, taskId, role)
    ensures PairRuns(view[i := run], taskId, role) == PairRuns(view, taskId, role)
    ensures Latest(view[i := run], taskId, role) == Latest(view, taskId, role)
  {
    var n := |view| - 1;
    if i == n {
      assert view[i := run][..n] == view[..n];
    } else {
      assert view[i := run][..n] == view[..n][i := run];
      PairUpdateOther(view[..n], i, run, taskId, role);
    }
  }

  /** Updating the newest run of a pair updates the last of its runs. */
  lemma {:induction false} PairUpdateLatest(view: seq<Run>, i: nat, run: Run, taskId: string, role: Role)
    requires Latest(view, taskId, role) == Some(i) && ForPair(run, taskId, role)
    ensures var runs := PairRuns(view, taskId, role);
            && runs != [] && runs[|runs| - 1] == view[i]
            && PairRuns(view[i := run], taskId, role) == runs[..|runs| - 1] + [run]
            && Latest(view[i := run], taskId, role) == Some(i)
  {
    var n := |view| - 1;
    if i == n {
      assert view[i := run][..n] == view[..n];
    } else {
      assert view[i := run][..n] == view[..n][i := run];
      PairUpdateLatest(view[..n], i, run, taskId, role);
    }
  }

  lemma {:induction false} PairEmpty(view: seq<Run>, taskId: string, role: Role)
    ensures PairRuns(view, taskId, role) == [] <==> Latest(view, taskId, role).None?
  {
    if view != [] {
      PairEmpty(view[..|view| - 1], taskId, role);
    }
  }

  // ---------------------------------------------------------------------------
  // Writes that do not clash
  // ---------------------------------------------------------------------------

  predicate For(w: Write, taskId: string, role: Role) {
    w.taskId != "" && w.taskId == taskId && w.role == role
  }

  /** No two writes are for the same task and contract role. */
  predicate NoClash(ws: seq<Write>) {
    forall i, j :: 0 <= i < j < |ws| ==> !For(ws[i], ws[j].taskId, ws[j].role)
  }

  /** What a write makes of the runs of its pair. */
  function PairWritten(runs: seq<Run>, w: Write): seq<Run> {
    if runs == [] then [FreshRun(w)] else runs[..|runs| - 1] + [RunAfter(runs[|runs| - 1], w)]
  }

  lemma WrittenOther(view: seq<Run>, w: Write, taskId: string, role: Role)
    requires !For(w, taskId, role)
    ensures PairRuns(Written(view, w), taskId, role) == PairRuns(view, taskId, role)
  {
    if w.taskId != "" {
      var id := Latest(view, w.taskId, w.role);
      if id.None? {
        PairAppend(view, FreshRun(w), taskId, role);
      } else {
        PairUpdateOther(view, id.value, RunAfter(view[id.value], w), taskId, role);
      }
    }
  }

  lemma WrittenOwn(view: seq<Run>, w: Write)
    requires w.taskId != ""
    ensures PairRuns(Written(view, w), w.taskId, w.role) == PairWritten(PairRuns(view, w.taskId, w.role), w)
  {
    var id := Latest(view, w.taskId, w.role);
    PairEmpty(view, w.taskId, w.role);
    if id.None? {
      PairAppend(view, FreshRun(w), w.taskId, w.role);
    } else {
      PairUpdateLatest(view, id.value, RunAfter(view[id.value], w), w.taskId, w.role);
    }
  }

  /** Every pair written holds what its one write makes of it; all others are as before. */
  ghost predicate EachWrittenOnce(before: seq<Run>, after: seq<Run>, ws: seq<Write>) {
    && (forall k :: 0 <= k < |ws| && ws[k].taskId != "" ==>
         PairRuns(after, ws[k].taskId, ws[k].role) == PairWritten(PairRuns(before, ws[k].taskId, ws[k].role), ws[k]))
    && (forall taskId, role :: (forall k :: 0 <= k < |ws| ==> !For(ws[k], taskId, role)) ==>
         PairRuns(after, taskId, role) == PairRuns(before, taskId, role))
  }

  ghost predicate SamePairs(a: seq<Run>, b: seq<Run>) {
    forall taskId, role :: PairRuns(a, taskId, role) == PairRuns(b, taskId, role)
  }

  /** One after another. */
  function InOrder(view: seq<Run>, ws: seq<Write>): seq<Run> {
    if ws == [] then view else Written(InOrder(view, ws[..|ws| - 1]), ws[|ws| - 1])
  }

  lemma {:induction false} InOrderOther(view: seq<Run>, ws: seq<Write>, taskId: string, role: Role)
    requires forall k :: 0 <= k < |ws| ==> !For(ws[k], taskId, role)
    ensures PairRuns(InOrder(view, ws), taskId, role) == PairRuns(view, taskId, role)
  {
    if ws != [] {
      var n := |ws| - 1;
      InOrderOther(view, ws[..n], taskId, role);
      WrittenOther(InOrder(view, ws[..n]), ws[n], taskId, role);
    }
  }

  lemma {:induction false} InOrderPair(view: seq<Run>, ws: seq<Write>, k: nat)
    requires NoClash(ws) && k < |ws| && ws[k].taskId != ""
    ensures PairRuns(InOrder(view, ws), ws[k].taskId, ws[k].role)
         == PairWritten(PairRuns(view, ws[k].taskId, ws[k].role), ws[k])
  {
    var n := |ws| - 1;
    if k == n {
      InOrderOther(view, ws[..n], ws[k].taskId, ws[k].role);
      WrittenOwn(InOrder(view, ws[..n]), ws[n]);
    } else {
      assert !For(ws[k], ws[n].taskId, ws[n].role);
      WrittenOther(InOrder(view, ws[..n]), ws[n], ws[k].taskId, ws[k].role);
      InOrderPair(view, ws[..n], k);
    }
  }

  lemma InOrderWritesOnce(view: seq<Run>, ws: seq<Write>)
    requires NoClash(ws)
    ensures EachWrittenOnce(view, InOrder(view, ws), ws)
  {
    var after := InOrder(view, ws);
    forall k | 0 <= k < |ws| && ws[k].taskId != ""
      ensures PairRuns(after, ws[k].taskId, ws[k].role) == PairWritten(PairRuns(view, ws[k].taskId, ws[k].role), ws[k])
    {
      InOrderPair(view, ws, k);
    }
    forall taskId, role | forall k :: 0 <= k < |ws| ==> !For(ws[k], taskId, role)
      ensures PairRuns(after, taskId, role) == PairRuns(view, taskId, role)
    {
      InOrderOther(view, ws, taskId, role);
    }
  }

  /** Writes that do not clash leave the same runs for every pair, in whatever order. */
  lemma OrderIrrelevant(before: seq<Run>, a: seq<Run>, b: seq<Run>, ws: seq<Write>, order: seq<Write>)
    requires EachWrittenOnce(before, a, ws) && EachWrittenOnce(before, b, order)
    requires multiset(ws) == multiset(order)
    ensures SamePairs(a, b)
  {
    forall taskId, role ensures PairRuns(a, taskId, role) == PairRuns(b, taskId, role) {
      if k :| 0 <= k < |ws| && For(ws[k], taskId, role) {
        assert ws[k] in multiset(order);
        var j :| 0 <= j < |order| && order[j] == ws[k];
      } else {
        forall j | 0 <= j < |order| ensures !For(order[j], taskId, role) {
          assert order[j] in multiset(ws);
          var k :| 0 <= k < |ws| && ws[k] == order[j];
        }
      }
    }
  }

  // ---------------------------------------------------------------------------
  // Every schedule
  // ---------------------------------------------------------------------------

  /** What a write in this phase can rely on and has achieved, in terms of the runs of
      its pair before all writes (`was`) and now; `sure` says that no step has failed. */
  ghost predicate PhaseInv(was: seq<Run>, runs: seq<Run>, latest: Option<nat>, w: Write, p: Phase, sure: bool) {
    match p
    case Start => runs == was
    case Found(id) => runs == was && latest == Some(id) && runs != []
    case Absent => runs == was == []
    case Completing(id, artifacts, summary) =>
      && runs == was && latest == Some(id) && runs != []
      && AsCompleted(was[|was| - 1], w.status, artifacts, summary) == RunAfter(was[|was| - 1], w)
    case Open(id) => was == [] && runs == [Opened(w)] && latest == Some(id) && Closes(w)
    case Finished => runs == PairWritten(was, w) || (!sure && CutShort(was, runs, w))
  }

  /** A write that an error has ended: nothing, or the new run not yet closed. */
  predicate CutShort(was: seq<Run>, runs: seq<Run>, w: Write) {
    runs == was || (was == [] && runs == [Opened(w)])
  }

  ghost predicate ProcInv(before: seq<Run>, now: seq<Run>, w: Write, p: Phase, sure: bool) {
    w.taskId != "" ==>
      PhaseInv(PairRuns(before, w.taskId, w.role), PairRuns(now, w.taskId, w.role), Latest(now, w.taskId, w.role), w,
               p, sure)
  }

  /** The pair is as it was, and its newest run where it was. */
  ghost predicate PairKept(a: seq<Run>, b: seq<Run>, taskId: string, role: Role) {
    PairRuns(a, taskId, role) == PairRuns(b, taskId, role) && Latest(a, taskId, role) == Latest(b, taskId, role)
  }

  /** A step changes the runs of its own pair only. */
  ghost predicate OwnPairOnly(a: seq<Run>, b: seq<Run>, w: Write) {
    forall taskId, role :: !For(w, taskId, role) ==> PairKept(a, b, taskId, role)
  }

  lemma AppendOwn(view: seq<Run>, run: Run, w: Write)
    requires w.taskId != "" && ForPair(run, w.taskId, w.role)
    ensures OwnPairOnly(view, view + [run], w)
    ensures PairRuns(view + [run], w.taskId, w.role) == PairRuns(view, w.taskId, w.role) + [run]
    ensures Latest(view + [run], w.taskId, w.role) == Some(|view|)
  {
    PairAppend(view, run, w.taskId, w.role);
    forall taskId, role | !For(w, taskId, role) ensures PairKept(view, view + [run], taskId, role) {
      PairAppend(view, run, taskId, role);
    }
  }

  lemma UpdateOwn(view: seq<Run>, i: nat, run: Run, w: Write)
    requires w.taskId != "" && Latest(view, w.taskId, w.role) == Some(i) && ForPair(run, w.taskId, w.role)
    ensures OwnPairOnly(view, view[i := run], w)
    ensures var runs := PairRuns(view, w.taskId, w.role);
            && runs != [] && runs[|runs| - 1] == view[i]
            && PairRuns(view[i := run], w.taskId, w.role) == runs[..|runs| - 1] + [run]
  {
    PairUpdateLatest(view, i, run, w.taskId, w.role);
    forall taskId, role | !For(w, taskId, role) ensures PairKept(view, view[i := run], taskId, role) {
      PairUpdateOther(view, i, run, taskId, role);
    }
  }

  /** The steps that only look. */
  lemma LookKeeps(before: seq<Run>, now: seq<Run>, w: Write, p: Phase, fault: Fault, sure: bool)
    requires w.taskId != "" && (p.Start? || p.Found?)
    requires ProcInv(before, now, w, p, sure) && (sure ==> fault.NoFault?)
    ensures NextView(now, w, p, fault) == now
    ensures ProcInv(before, now, w, NextPhase(now, w, p, fault), sure)
  {
    var runs := PairRuns(now, w.taskId, w.role);
    PairEmpty(now, w.taskId, w.role);
    if p.Found? {
      PairUpdateLatest(now, p.id, now[p.id], w.taskId, w.role);
      if Settled(now[p.id], w) {
        assert PairWritten(runs, w) == runs;
      }
    }
  }

  /** The steps that write. */
  lemma WriteKeeps(before: seq<Run>, now: seq<Run>, w: Write, p: Phase, fault: Fault, sure: bool)
    requires w.taskId != "" && (p.Absent? || p.Completing? || p.Open?)
    requires ProcInv(before, now, w, p, sure) && (sure ==> fault.NoFault?)
    ensures OwnPairOnly(now, NextView(now, w, p, fault), w)
    ensures ProcInv(before, NextView(now, w, p, fault), w, NextPhase(now, w, p, fault), sure)
  {
    if !fault.Lost? {
      match p
      case Absent => AppendOwn(now, Opened(w), w);
      case Completing(id, _, _) => UpdateOwn(now, id, RunAfter(now[id], w), w);
      case Open(id) => UpdateOwn(now, id, FreshRun(w), w);
    }
  }

  /** A step takes its own write on. */
  lemma StepKeeps(before: seq<Run>, now: seq<Run>, w: Write, p: Phase, fault: Fault, sure: bool)
    requires p != Finished && ProcInv(before, now, w, p, sure) && (sure ==> fault.NoFault?)
    ensures OwnPairOnly(now, NextView(now, w, p, fault), w)
    ensures ProcInv(before, NextView(now, w, p, fault), w, NextPhase(now, w, p, fault), sure)
  {
    if w.taskId != "" {
      if p.Start? || p.Found? {
        LookKeeps(before, now, w, p, fault, sure);
      } else {
        WriteKeeps(before, now, w, p, fault, sure);
      }
    }
  }

  /** The writes of other pairs do not notice a step. */
  lemma OthersKept(before: seq<Run>, now: seq<Run>, after: seq<Run>, ws: seq<Write>, phases: seq<Phase>,
                   k: nat, next: Phase, sure: bool)
    requires NoClash(ws) && |phases| == |ws| && k < |ws| && OwnPairOnly(now, after, ws[k])
    requires forall j :: 0 <= j < |ws| ==> ProcInv(before, now, ws[j], phases[j], sure)
    requires ProcInv(before, after, ws[k], next, sure)
    ensures forall j :: 0 <= j < |ws| ==> ProcInv(before, after, ws[j], phases[k := next][j], sure)
  {
    forall j | 0 <= j < |ws| ensures ProcInv(before, after, ws[j], phases[k := next][j], sure) {
      if j != k && ws[j].taskId != "" {
        assert ProcInv(before, now, ws[j], phases[j], sure);
        assert !For(ws[k], ws[j].taskId, ws[j].role) by {
          if j < k { assert !For(ws[j], ws[k].taskId, ws[k].role); }
        }
        assert PairKept(now, after, ws[j].taskId, ws[j].role);
      }
    }
  }

  ghost predicate Untouched(before: seq<Run>, now: seq<Run>, ws: seq<Write>) {
    forall taskId, role :: (forall k :: 0 <= k < |ws| ==> !For(ws[k], taskId, role)) ==>
      PairRuns(now, taskId, role) == PairRuns(before, taskId, role)
  }

  lemma UntouchedKept(before: seq<Run>, now: seq<Run>, after: seq<Run>, ws: seq<Write>, k: nat)
    requires Untouched(before, now, ws) && k < |ws| && OwnPairOnly(now, after, ws[k])
    ensures Untouched(before, after, ws)
  {
    forall taskId, role | forall j :: 0 <= j < |ws| ==> !For(ws[j], taskId, role)
      ensures PairRuns(after, taskId, role) == PairRuns(before, taskId, role)
    {
      assert !For(ws[k], taskId, role);
      assert PairKept(now, after, taskId, role);
    }
  }

  ghost predicate SystemInv(before: seq<Run>, s: System, ws: seq<Write>, sure: bool) {
    && |s.phases| == |ws| && Untouched(before, s.view, ws)
    && forall k :: 0 <= k < |ws| ==> ProcInv(before, s.view, ws[k], s.phases[k], sure)
  }

  lemma {:induction false} ScheduleKeeps(view: seq<Run>, ws: seq<Write>, turns: seq<Turn>)
    requires NoClash(ws)
    ensures SystemInv(view, Exec(Init(view, ws), ws, turns), ws, Faultless(turns))
  {
    if turns != [] {
      var n, sure := |turns| - 1, Faultless(turns);
      var t, s := turns[n], Exec(Init(view, ws), ws, turns[..n]);
      ScheduleKeeps(view, ws, turns[..n]);
      assert sure ==> Faultless(turns[..n]) && t.fault.NoFault?;
      assert SystemInv(view, s, ws, sure);
      if Runnable(s, ws, t.k) {
        var w, p := ws[t.k], s.phases[t.k];
        var after, next := NextView(s.view, w, p, t.fault), NextPhase(s.view, w, p, t.fault);
        StepKeeps(view, s.view, w, p, t.fault, sure);
        OthersKept(view, s.view, after, ws, s.phases, t.k, next, sure);
        UntouchedKept(view, s.view, after, ws, t.k);
      }
    }
  }

  /** Writes of pairwise distinct pairs, in any interleaving of their steps: when all
      have ended, each pair written holds what its one write makes of it, or less if
      the store failed, and all other pairs are as before. */
  lemma EveryScheduleWritesOnce(view: seq<Run>, ws: seq<Write>, turns: seq<Turn>)
    requires NoClash(ws) && Complete(view, ws, turns)
    ensures var after := ViewAfter(view, ws, turns);
            && (Faultless(turns) ==> EachWrittenOnce(view, after, ws))
            && Untouched(view, after, ws)
            && forall k :: 0 <= k < |ws| && ws[k].taskId != "" ==>
                 var was, runs := PairRuns(view, ws[k].taskId, ws[k].role), PairRuns(after, ws[k].taskId, ws[k].role);
                 runs == PairWritten(was, ws[k]) || CutShort(was, runs, ws[k])
  {
    ScheduleKeeps(view, ws, turns);
    var s := Exec(Init(view, ws), ws, turns);
    forall k | 0 <= k < |ws|
      ensures s.phases[k] == Finished && ProcInv(view, s.view, ws[k], Finished, Faultless(turns))
    {
      assert ProcInv(view, s.view, ws[k], s.phases[k], Faultless(turns));
    }
  }

  /** So no schedule differs, for any pair, from the writes made one after another in
      any order. */
  lemma EveryScheduleInOrder(view: seq<Run>, ws: seq<Write>, turns: seq<Turn>, order: seq<Write>)
    requires NoClash(ws) && Complete(view, ws, turns) && Faultless(turns)
    requires multiset(order) == multiset(ws) && NoClash(order)
    ensures SamePairs(ViewAfter(view, ws, turns), InOrder(view, order))
  {
    EveryScheduleWritesOnce(view, ws, turns);
    InOrderWritesOnce(view, order);
    OrderIrrelevant(view, ViewAfter(view, ws, turns), InOrder(view, order), ws, order);
  }
}
