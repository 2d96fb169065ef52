/** Concurrent writebacks that may be of the same pair: exactly when every schedule keeps
    one run per pair, and exactly when every schedule keeps all that was supplied. */
module AgentRunClashes {
  import opened AgentArtifacts
  import opened AgentRunInterleaving
  import opened AgentRunSteps
  import opened AgentRunStore
  import opened AgentRunWriteback
  import opened Wrappers

  // ---------------------------------------------------------------------------
  // Identifiers
  // ---------------------------------------------------------------------------

  /** The run a write has in hand is of its pair. */
  predicate InHand(view: seq<Run>, w: Write, p: Phase) {
    (p.Found? || p.Completing? || p.Open?) && w.taskId != "" ==>
      p.id < |view| && ForPair(view[p.id], w.taskId, w.role)
  }

  ghost predicate AllInHand(s: System, ws: seq<Write>) {
    |s.phases| == |ws| && forall k :: 0 <= k < |ws| ==> InHand(s.view, ws[k], s.phases[k])
  }

  lemma {:induction false} ScheduleInHand(view: seq<Run>, ws: seq<Write>, turns: seq<Turn>)
    ensures AllInHand(Exec(Init(view, ws), ws, turns), ws)
  {
    if turns != [] {
      var n := |turns| - 1;
      var s, t := Exec(Init(view, ws), ws, turns[..n]), turns[n];
      ScheduleInHand(view, ws, turns[..n]);
      if Runnable(s, ws, t.k) {
        var after := StepOf(s, ws, t);
        NextViewPlaces(s.view, ws[t.k], s.phases[t.k], t.fault);
        forall k | 0 <= k < |ws| ensures InHand(after.view, ws[k], after.phases[k]) {
          assert InHand(s.view, ws[k], s.phases[k]);
        }
      }
    }
  }

  // ---------------------------------------------------------------------------
  // One run per pair
  // ---------------------------------------------------------------------------

  /** Two of the writes are for the same pair, which has no run. */
  predicate AbsentClash(view: seq<Run>, ws: seq<Write>) {
    exists i, j :: 0 <= i < j < |ws| && For(ws[i], ws[j].taskId, ws[j].role)
                   && Latest(view, ws[j].taskId, ws[j].role).None?
  }

  ghost predicate UniqueInv(view: seq<Run>, s: System, ws: seq<Write>) {
    && |s.phases| == |ws| && Unique(s.view) && SamePlaces(view, s.view)
    && forall k :: 0 <= k < |ws| && s.phases[k] == Absent && ws[k].taskId != "" ==>
         Latest(s.view, ws[k].taskId, ws[k].role).None?
  }

  lemma AppendUnique(view: seq<Run>, run: Run)
    requires Unique(view) && Latest(view, run.taskId, run.contractRole).None?
    ensures Unique(view + [run])
  {
    forall i, j | 0 <= i < j < |view| + 1 && (view + [run])[i].taskId == (view + [run])[j].taskId
      ensures (view + [run])[i].contractRole != (view + [run])[j].contractRole
    {
      assert !ForPair(view[i], run.taskId, run.contractRole);
    }
  }

  lemma RunsStay(a: seq<Run>, b: seq<Run>, taskId: string, role: Role)
    requires SamePlaces(a, b)
    ensures Latest(a, taskId, role).Some? ==> Latest(b, taskId, role).Some?
  {
    if Latest(a, taskId, role).Some? {
      assert ForPair(b[Latest(a, taskId, role).value], taskId, role);
    }
  }

  lemma SamePlacesUnique(a: seq<Run>, b: seq<Run>)
    requires SamePlaces(a, b) && |a| == |b| && Unique(a)
    ensures Unique(b)
    ensures forall taskId, role :: Latest(a, taskId, role).None? ==> Latest(b, taskId, role).None?
  {
    forall taskId, role ensures Latest(a, taskId, role).None? ==> Latest(b, taskId, role).None? {
      RunsStay(b, a, taskId, role);
    }
  }

  lemma UniqueStep(view: seq<Run>, s: System, ws: seq<Write>, t: Turn)
    requires !AbsentClash(view, ws) && UniqueInv(view, s, ws) && Runnable(s, ws, t.k)
    ensures UniqueInv(view, StepOf(s, ws, t), ws)
  {
    var w, p, after := ws[t.k], s.phases[t.k], StepOf(s, ws, t);
    NextViewPlaces(s.view, w, p, t.fault);
    if after.view == s.view + [Opened(w)] && p == Absent && w.taskId != "" {
      AppendUnique(s.view, Opened(w));
      RunsStay(view, s.view, w.taskId, w.role);
      forall k | 0 <= k < |ws| && after.phases[k] == Absent && ws[k].taskId != ""
        ensures Latest(after.view, ws[k].taskId, ws[k].role).None?
      {
        assert !For(w, ws[k].taskId, ws[k].role) by {
          if k < t.k { assert !For(ws[k], w.taskId, w.role); }
          if t.k < k { assert For(w, ws[k].taskId, ws[k].role) ==> AbsentClash(view, ws); }
        }
        PairAppend(s.view, Opened(w), ws[k].taskId, ws[k].role);
      }
    } else {
      SamePlacesUnique(s.view, after.view);
    }
  }

  lemma {:induction false} ScheduleUnique(view: seq<Run>, ws: seq<Write>, turns: seq<Turn>)
    requires Unique(view) && !AbsentClash(view, ws)
    ensures UniqueInv(view, Exec(Init(view, ws), ws, turns), ws)
  {
    if turns != [] {
      var n := |turns| - 1;
      var s := Exec(Init(view, ws), ws, turns[..n]);
      ScheduleUnique(view, ws, turns[..n]);
      if Runnable(s, ws, turns[n].k) {
        UniqueStep(view, s, ws, turns[n]);
      }
    }
  }

  // ---------------------------------------------------------------------------
  // Running the others to their end
  // ---------------------------------------------------------------------------

  /** Of the runs of a pair only the newest, which stays the newest, may have changed,
      and not if it was skipped. */
  ghost predicate OnlyLatest(a: seq<Run>, b: seq<Run>, taskId: string, role: Role) {
    var id := Latest(a, taskId, role);
    id.Some? ==>
      && |a| <= |b| && Latest(b, taskId, role) == id
      && (a[id.value].status == Skipped ==> b[id.value] == a[id.value])
      && forall x :: 0 <= x < |b| && x != id.value && ForPair(b[x], taskId, role) ==> x < |a| && b[x] == a[x]
  }

  lemma WrittenOnlyLatest(a: seq<Run>, b: seq<Run>, w: Write, taskId: string, role: Role)
    requires OnlyLatest(a, b, taskId, role)
    ensures OnlyLatest(a, Written(b, w), taskId, role)
  {
    var id := Latest(a, taskId, role);
    if id.Some? && w.taskId != "" {
      var own := Latest(b, w.taskId, w.role);
      if own.None? {
        PairAppend(b, FreshRun(w), taskId, role);
      } else {
        LatestOfUpdate(b, taskId, role, own.value, RunAfter(b[own.value], w));
      }
    }
  }

  /** All writes but `j` are run to their end, one after another from the `k`-th on. */
  lemma {:induction false} OthersFinish(start: seq<Run>, s: System, ws: seq<Write>, j: nat, k: nat,
                                        taskId: string, role: Role)
    returns (turns: seq<Turn>)
    requires |s.phases| == |ws| && k <= |ws| && OnlyLatest(start, s.view, taskId, role)
    requires forall i :: 0 <= i < |ws| && i != j ==> s.phases[i] == Finished || (s.phases[i] == Start && k <= i)
    ensures Faultless(turns)
    ensures var e := Exec(s, ws, turns);
            && |e.phases| == |ws| && (j < |ws| ==> e.phases[j] == s.phases[j])
            && (forall i :: 0 <= i < |ws| && i != j ==> e.phases[i] == Finished)
            && OnlyLatest(start, e.view, taskId, role)
    decreases |ws| - k
  {
    turns := [];
    if k < |ws| {
      if k == j || s.phases[k] == Finished {
        turns := OthersFinish(start, s, ws, j, k + 1, taskId, role);
      } else {
        var own := Alone(s, ws, k);
        WrittenOnlyLatest(start, s.view, ws[k], taskId, role);
        var rest := OthersFinish(start, Exec(s, ws, own), ws, j, k + 1, taskId, role);
        ExecAppend(s, ws, own, rest);
        turns := own + rest;
      }
    }
  }

  lemma BothCreate(view: seq<Run>, ws: seq<Write>, i: nat, j: nat) returns (turns: seq<Turn>)
    requires i < j < |ws| && For(ws[i], ws[j].taskId, ws[j].role) && Latest(view, ws[j].taskId, ws[j].role).None?
    ensures Faultless(turns)
    ensures var e := Exec(Init(view, ws), ws, turns);
            && !Unique(e.view) && |e.phases| == |ws|
            && (e.phases[i].Open? || e.phases[i].Finished?) && (e.phases[j].Open? || e.phases[j].Finished?)
            && forall k :: 0 <= k < |ws| && k != i && k != j ==> e.phases[k] == Start
  {
    var s := Init(view, ws);
    var ti, tj := Turn(i, NoFault), Turn(j, NoFault);
    var s1 := StepOf(s, ws, ti);
    var s2 := StepOf(s1, ws, tj);
    var s3 := StepOf(s2, ws, ti);
    var s4 := StepOf(s3, ws, tj);
    ExecOne(s, ws, [], ti);
    ExecOne(s, ws, [ti], tj);
    ExecOne(s, ws, [ti, tj], ti);
    ExecOne(s, ws, [ti, tj, ti], tj);
    assert [] + [ti] == [ti] && [ti] + [tj] == [ti, tj] && [ti, tj] + [ti] == [ti, tj, ti];
    turns := [ti, tj, ti, tj];
    assert [ti, tj, ti] + [tj] == turns;
    assert s1.phases[i] == Absent && s2.phases[j] == Absent && s2.view == view;
    assert s4.view == view + [Opened(ws[i])] + [Opened(ws[j])];
    assert s4.view[|view|] == Opened(ws[i]) && s4.view[|view| + 1] == Opened(ws[j]);
  }

  /** And both end. */
  lemma BothEnd(view: seq<Run>, ws: seq<Write>, i: nat, j: nat) returns (turns: seq<Turn>)
    requires i < j < |ws| && For(ws[i], ws[j].taskId, ws[j].role) && Latest(view, ws[j].taskId, ws[j].role).None?
    ensures Faultless(turns)
    ensures var e := Exec(Init(view, ws), ws, turns);
            && !Unique(e.view) && |e.phases| == |ws|
            && forall k :: 0 <= k < |ws| ==> e.phases[k] == if k == i || k == j then Finished else Start
  {
    var s := Init(view, ws);
    var created := BothCreate(view, ws, i, j);
    var s4 := Exec(s, ws, created);
    var ti, tj := Turn(i, NoFault), Turn(j, NoFault);
    var s5 := StepOf(s4, ws, ti);
    var s6 := StepOf(s5, ws, tj);
    turns := created + [ti] + [tj];
    ExecOne(s, ws, created, ti);
    ExecOne(s, ws, created + [ti], tj);
    StepPlaces(s4, ws, ti);
    StepPlaces(s5, ws, tj);
    NotUniqueStays(s4.view, s5.view);
    NotUniqueStays(s5.view, s6.view);
  }

  lemma StepPlaces(s: System, ws: seq<Write>, t: Turn)
    ensures SamePlaces(s.view, StepOf(s, ws, t).view)
  {
  }

  /** Two listings before either creates: the pair has two runs for good. */
  lemma AbsentClashWitness(view: seq<Run>, ws: seq<Write>) returns (turns: seq<Turn>)
    requires AbsentClash(view, ws)
    ensures Complete(view, ws, turns) && Faultless(turns) && !Unique(ViewAfter(view, ws, turns))
  {
    var i, j :| 0 <= i < j < |ws| && For(ws[i], ws[j].taskId, ws[j].role)
                && Latest(view, ws[j].taskId, ws[j].role).None?;
    var ended := BothEnd(view, ws, i, j);
    var s := Exec(Init(view, ws), ws, ended);
    var rest := OthersFinish(s.view, s, ws, |ws|, 0, "", Builder);
    turns := ended + rest;
    ExecAppend(Init(view, ws), ws, ended, rest);
    ExecPlaces(s, ws, rest);
    NotUniqueStays(s.view, ViewAfter(view, ws, turns));
  }

  /** One run per pair stays so on every schedule, whatever fails, exactly when no two
      writes are for the same pair without a run. Otherwise a schedule without faults
      breaks it for good. */
  lemma UniqueIff(view: seq<Run>, ws: seq<Write>)
    requires Unique(view)
    ensures (forall turns :: Unique(ViewAfter(view, ws, turns))) <==> !AbsentClash(view, ws)
    ensures (forall turns :: Complete(view, ws, turns) && Faultless(turns) ==> Unique(ViewAfter(view, ws, turns)))
       <==> !AbsentClash(view, ws)
  {
    if AbsentClash(view, ws) {
      var turns := AbsentClashWitness(view, ws);
    } else {
      forall turns ensures Unique(ViewAfter(view, ws, turns)) {
        ScheduleUnique(view, ws, turns);
      }
    }
  }
}
