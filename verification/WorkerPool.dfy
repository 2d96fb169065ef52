/** The two bounded pools, `mapConcurrent` and `runPool`: workers that share an index
    and are interleaved at every await. A nondeterministic scheduler picks any live
    worker for the next step, so what is proved holds for every interleaving. */
module WorkerPool {
  import opened Wrappers

  /** A worker at the head of its loop, waiting for one call, ended by an exhausted
      index or ended by the rejection of its call. */
  datatype Worker = Ready | Busy(index: nat) | Exited | Rejected(index: nat)

  predicate Live(w: Worker) {
    w.Ready? || w.Busy?
  }

  /** `Array.from({ length })`: a negative length is zero. */
  function WorkerCount(concurrency: int, limit: nat): nat {
    if concurrency <= 0 then 0 else if concurrency < limit then concurrency else limit
  }

  // ---------------------------------------------------------------------------
  // Termination
  // ---------------------------------------------------------------------------

  function Weight(w: Worker): nat {
    if w.Ready? then 1 else if w.Busy? then 3 else 0
  }

  function Weights(ws: seq<Worker>): nat {
    if ws == [] then 0 else Weight(ws[0]) + Weights(ws[1..])
  }

  lemma {:induction false} WeightsUpdate(ws: seq<Worker>, k: nat, w: Worker)
    requires k < |ws|
    ensures Weights(ws[k := w]) == Weights(ws) - Weight(ws[k]) + Weight(w)
  {
    if k == 0 {
      assert ws[0 := w][1..] == ws[1..];
    } else {
      WeightsUpdate(ws[1..], k - 1, w);
      assert ws[k := w][1..] == ws[1..][k - 1 := w];
    }
  }

  /** What every step of a pool decreases: unclaimed work and the state of its workers. */
  function Measure(unclaimed: nat, ws: seq<Worker>): nat {
    3 * unclaimed + Weights(ws)
  }

  // ---------------------------------------------------------------------------
  // mapConcurrent
  // ---------------------------------------------------------------------------

  datatype Outcome<R> = Returned(results: seq<Option<R>>) | Threw

  /** Workers, results and the next index, against what the mapper gives for each
      index: claimed indexes are waited for by exactly one worker or settled. */
  ghost predicate PoolInv<R>(ws: seq<Worker>, next: nat, results: seq<Option<R>>, mapped: seq<Option<R>>) {
    && next <= |results| == |mapped|
    && (forall w :: 0 <= w < |ws| && ws[w].Busy? ==> ws[w].index < next && results[ws[w].index].None?)
    && (forall v, w :: 0 <= v < w < |ws| && ws[v].Busy? && ws[w].Busy? ==> ws[v].index != ws[w].index)
    && (forall w :: 0 <= w < |ws| && ws[w].Rejected? ==> ws[w].index < next && mapped[ws[w].index].None?)
    && (forall w :: 0 <= w < |ws| && ws[w].Exited? ==> next == |results|)
    && (forall i :: 0 <= i < next ==> Settled(ws, results, mapped, i) || Busy(i) in ws)
    && (forall i :: next <= i < |results| ==> results[i].None?)
  }

  /** The result of `i` is stored, or a worker was rejected by it. */
  ghost predicate Settled<R>(ws: seq<Worker>, results: seq<Option<R>>, mapped: seq<Option<R>>, i: nat)
    requires i < |results| == |mapped|
  {
    results[i] == mapped[i] && (mapped[i].None? ==> Rejected(i) in ws)
  }

  lemma KeepMembers(ws: seq<Worker>, k: nat, w: Worker)
    requires k < |ws|
    ensures forall x <- ws :: x == ws[k] || x in ws[k := w]
    ensures w in ws[k := w]
  {
    forall x | x in ws && x != ws[k] ensures x in ws[k := w] {
      var j :| 0 <= j < |ws| && ws[j] == x;
      assert ws[k := w][j] == x;
    }
    assert ws[k := w][k] == w;
  }

  lemma InvClaim<R>(ws: seq<Worker>, k: nat, next: nat, results: seq<Option<R>>, mapped: seq<Option<R>>)
    requires PoolInv(ws, next, results, mapped) && k < |ws| && ws[k].Ready? && next < |results|
    ensures PoolInv(ws[k := Busy(next)], next + 1, results, mapped)
  {
    var ws' := ws[k := Busy(next)];
    KeepMembers(ws, k, Busy(next));
    forall i | 0 <= i < next ensures Settled(ws', results, mapped, i) || Busy(i) in ws' {
      assert Settled(ws, results, mapped, i) || Busy(i) in ws;
    }
  }

  lemma InvExit<R>(ws: seq<Worker>, k: nat, next: nat, results: seq<Option<R>>, mapped: seq<Option<R>>)
    requires PoolInv(ws, next, results, mapped) && k < |ws| && ws[k].Ready? && next == |results|
    ensures PoolInv(ws[k := Exited], next, results, mapped)
  {
    var ws' := ws[k := Exited];
    KeepMembers(ws, k, Exited);
    forall i | 0 <= i < next ensures Settled(ws', results, mapped, i) || Busy(i) in ws' {
      assert Settled(ws, results, mapped, i) || Busy(i) in ws;
    }
  }

  lemma InvSettle<R>(ws: seq<Worker>, k: nat, next: nat, results: seq<Option<R>>, mapped: seq<Option<R>>)
    requires PoolInv(ws, next, results, mapped) && k < |ws| && ws[k].Busy?
    ensures var index := ws[k].index;
            var after := if mapped[index].Some? then Ready else Rejected(index);
            PoolInv(ws[k := after], next, results[index := mapped[index]], mapped)
  {
    var index := ws[k].index;
    var after := if mapped[index].Some? then Ready else Rejected(index);
    var ws', results' := ws[k := after], results[index := mapped[index]];
    KeepMembers(ws, k, after);
    forall i | 0 <= i < next ensures Settled(ws', results', mapped, i) || Busy(i) in ws' {
      if i != index {
        assert Settled(ws, results, mapped, i) || Busy(i) in ws;
      }
    }
  }

  /** When no worker is live, nothing is left half done. */
  lemma InvFinished<R>(ws: seq<Worker>, next: nat, results: seq<Option<R>>, mapped: seq<Option<R>>)
    requires PoolInv(ws, next, results, mapped) && forall w :: 0 <= w < |ws| ==> !Live(ws[w])
    ensures ws != [] && (forall w :: 0 <= w < |ws| ==> !ws[w].Rejected?) ==> next == |mapped| && results == mapped
    ensures ws != [] && (forall i :: 0 <= i < |mapped| ==> mapped[i].Some?) ==> results == mapped
    ensures (exists i :: 0 <= i < next && mapped[i].None?) <==> exists w :: 0 <= w < |ws| && ws[w].Rejected?
  {
    forall i | 0 <= i < next ensures Settled(ws, results, mapped, i) {
      assert Busy(i) !in ws;
    }
    if i :| 0 <= i < next && mapped[i].None? {
      assert Settled(ws, results, mapped, i) && Rejected(i) in ws;
      var w :| 0 <= w < |ws| && ws[w] == Rejected(i);
    }
    if ws != [] && forall w :: 0 <= w < |ws| ==> !ws[w].Rejected? {
      assert ws[0].Exited?;
      forall i | 0 <= i < next ensures results[i] == mapped[i] {
        assert Settled(ws, results, mapped, i);
      }
      assert results == mapped;
    }
  }

  class ConcurrentMap<T, R> {
    const items: seq<T>
    /** What the mapper resolves to for an item and its index; nothing if it rejects. */
    const mapper: (T, nat) -> Option<R>
    var nextIndex: nat
    var results: array<Option<R>>
    var workers: seq<Worker>
    /** The indexes claimed so far, in order. */
    ghost var claims: seq<nat>

    /** The sequential map, in order. */
    function Mapped(): (mapped: seq<Option<R>>)
      ensures |mapped| == |items|
    {
      seq(|items|, i requires 0 <= i < |items| => mapper(items[i], i))
    }

    ghost predicate Valid()
      reads this, results
    {
      && results.Length == |items| && claims == seq(nextIndex, i => i)
      && PoolInv(workers, nextIndex, results[..], Mapped())
    }

    /** Fresh results and `min(concurrency, items.length)` workers. */
    constructor (items: seq<T>, concurrency: int, mapper: (T, nat) -> Option<R>)
      ensures Valid() && this.items == items && this.mapper == mapper && fresh(results)
      ensures nextIndex == 0 && |workers| == WorkerCount(concurrency, |items|)
    {
      this.items := items;
      this.mapper := mapper;
      nextIndex := 0;
      var n := |items|;
      results := new Option<R>[n](_ => None);
      workers := seq(WorkerCount(concurrency, n), _ => Ready);
      claims := [];
    }

    /** A worker at the head of its loop claims the next index or exits. */
    method ClaimOrExit(w: nat)
      requires Valid() && w < |workers| && workers[w].Ready?
      modifies this
      ensures Valid() && results == old(results) && |workers| == |old(workers)|
      ensures Measure(|items| - nextIndex, workers) < old(Measure(|items| - nextIndex, workers))
    {
      if nextIndex < |items| {
        var index := nextIndex;
        WeightsUpdate(workers, w, Busy(index));
        InvClaim(workers, w, nextIndex, results[..], Mapped());
        nextIndex := nextIndex + 1;
        claims := claims + [index];
        workers := workers[w := Busy(index)];
      } else {
        WeightsUpdate(workers, w, Exited);
        InvExit(workers, w, nextIndex, results[..], Mapped());
        workers := workers[w := Exited];
      }
    }

    /** The call a worker waits for settles. */
    method Settle(w: nat)
      requires Valid() && w < |workers| && workers[w].Busy?
      modifies this, results
      ensures Valid() && results == old(results) && |workers| == |old(workers)|
      ensures Measure(|items| - nextIndex, workers) < old(Measure(|items| - nextIndex, workers))
    {
      var index := workers[w].index;
      var value := mapper(items[index], index);
      var after := if value.Some? then Ready else Rejected(index);
      assert value == Mapped()[index];
      WeightsUpdate(workers, w, after);
      InvSettle(workers, w, nextIndex, results[..], Mapped());
      ghost var stored := results[..][index := value];
      results[index] := value;
      assert results[..] == stored;
      workers := workers[w := after];
    }

    /** Any interleaving, to the end: `Promise.all` over the workers. */
    method Run() returns (outcome: Outcome<R>)
      requires Valid() && nextIndex == 0 && forall w :: 0 <= w < |workers| ==> workers[w] == Ready
      modifies this, results
      ensures Valid() && |workers| == |old(workers)|
      // With a worker to run them, every index is claimed exactly once and the
      // outcome is the sequential map in order, or a rejection if one call rejects.
      ensures |workers| > 0 || items == [] ==>
        outcome == if forall i :: 0 <= i < |items| ==> Mapped()[i].Some? then Returned(Mapped()) else Threw
      ensures outcome.Returned? && (|workers| > 0 || items == []) ==> claims == seq(|items|, i => i)
      // Without workers nothing is called and the results stay holes.
      ensures |workers| == 0 ==> outcome == Returned(seq(|items|, _ => None)) && claims == []
    {
      while exists w :: 0 <= w < |workers| && Live(workers[w])
        invariant Valid() && results == old(results) && |workers| == |old(workers)|
        invariant |workers| == 0 ==> nextIndex == 0
        decreases Measure(|items| - nextIndex, workers)
      {
        var w :| 0 <= w < |workers| && Live(workers[w]);
        if workers[w].Ready? { ClaimOrExit(w); } else { Settle(w); }
      }
      InvFinished(workers, nextIndex, results[..], Mapped());
      if exists w :: 0 <= w < |workers| && workers[w].Rejected? {
        outcome := Threw;
      } else {
        outcome := Returned(results[..]);
      }
    }
  }

  // ---------------------------------------------------------------------------
  // runPool
  // ---------------------------------------------------------------------------

  datatype CheckResult = CheckResult(file: string, exitCode: int, signalled: bool)

  predicate Failing(r: CheckResult) {
    r.exitCode != 0 || r.signalled
  }

  /** The failing results in file order. */
  function FailingOf(rs: seq<CheckResult>): seq<CheckResult> {
    if rs == [] then []
    else FailingOf(rs[..|rs| - 1]) + if Failing(rs[|rs| - 1]) then [rs[|rs| - 1]] else []
  }

  /** One if `r` is the failing result `x`. */
  function Hit(r: CheckResult, x: CheckResult): nat {
    if r == x && Failing(r) then 1 else 0
  }

  /** How often workers still wait for the failing result `x`. */
  function InFlight(ws: seq<Worker>, rs: seq<CheckResult>, x: CheckResult): nat {
    if ws == [] then 0 else OfWorker(ws[0], rs, x) + InFlight(ws[1..], rs, x)
  }

  function OfWorker(w: Worker, rs: seq<CheckResult>, x: CheckResult): nat {
    if w.Busy? && w.index < |rs| then Hit(rs[w.index], x) else 0
  }

  lemma {:induction false} InFlightUpdate(ws: seq<Worker>, k: nat, w: Worker, rs: seq<CheckResult>, x: CheckResult)
    requires k < |ws|
    ensures InFlight(ws[k := w], rs, x) == InFlight(ws, rs, x) - OfWorker(ws[k], rs, x) + OfWorker(w, rs, x)
  {
    if k == 0 {
      assert ws[0 := w][1..] == ws[1..];
    } else {
      InFlightUpdate(ws[1..], k - 1, w, rs, x);
      assert ws[k := w][1..] == ws[1..][k - 1 := w];
    }
  }

  lemma {:induction false} NoneInFlight(ws: seq<Worker>, rs: seq<CheckResult>, x: CheckResult)
    requires forall w <- ws :: !w.Busy?
    ensures InFlight(ws, rs, x) == 0
  {
    if ws != [] { NoneInFlight(ws[1..], rs, x); }
  }

  lemma FailingSnoc(rs: seq<CheckResult>, i: nat, x: CheckResult)
    requires i < |rs|
    ensures multiset(FailingOf(rs[..i + 1]))[x] == multiset(FailingOf(rs[..i]))[x] + Hit(rs[i], x)
  {
    assert rs[..i + 1][..i] == rs[..i];
  }

  /** Collected and awaited failures together are those of the files claimed. */
  ghost predicate Balanced(failures: seq<CheckResult>, ws: seq<Worker>, rs: seq<CheckResult>, next: nat)
    requires next <= |rs|
  {
    forall x :: multiset(failures)[x] + InFlight(ws, rs, x) == multiset(FailingOf(rs[..next]))[x]
  }

  lemma BalancedClaim(failures: seq<CheckResult>, ws: seq<Worker>, k: nat, rs: seq<CheckResult>, next: nat)
    requires next < |rs| && k < |ws| && ws[k].Ready? && Balanced(failures, ws, rs, next)
    ensures Balanced(failures, ws[k := Busy(next)], rs, next + 1)
  {
    forall x
      ensures multiset(failures)[x] + InFlight(ws[k := Busy(next)], rs, x) == multiset(FailingOf(rs[..next + 1]))[x]
    {
      InFlightUpdate(ws, k, Busy(next), rs, x);
      FailingSnoc(rs, next, x);
    }
  }

  lemma BalancedExit(failures: seq<CheckResult>, ws: seq<Worker>, k: nat, rs: seq<CheckResult>, next: nat)
    requires next <= |rs| && k < |ws| && ws[k].Ready? && Balanced(failures, ws, rs, next)
    ensures Balanced(failures, ws[k := Exited], rs, next)
  {
    forall x ensures multiset(failures)[x] + InFlight(ws[k := Exited], rs, x) == multiset(FailingOf(rs[..next]))[x] {
      InFlightUpdate(ws, k, Exited, rs, x);
    }
  }

  lemma BalancedSettle(failures: seq<CheckResult>, ws: seq<Worker>, k: nat, rs: seq<CheckResult>, next: nat)
    requires next <= |rs| && k < |ws| && ws[k].Busy? && ws[k].index < |rs| && Balanced(failures, ws, rs, next)
    ensures var r := rs[ws[k].index];
            Balanced(failures + if Failing(r) then [r] else [], ws[k := Ready], rs, next)
  {
    var r := rs[ws[k].index];
    var failures' := failures + if Failing(r) then [r] else [];
    forall x ensures multiset(failures')[x] + InFlight(ws[k := Ready], rs, x) == multiset(FailingOf(rs[..next]))[x] {
      InFlightUpdate(ws, k, Ready, rs, x);
    }
  }

  class SyntaxPool {
    /** What `node --check` reports for each file. */
    const checks: seq<CheckResult>
    var next: nat
    var workers: seq<Worker>
    var failures: seq<CheckResult>

    ghost predicate Valid()
      reads this
    {
      && next <= |checks|
      && (forall w :: 0 <= w < |workers| ==> !workers[w].Rejected?)
      && (forall w :: 0 <= w < |workers| && workers[w].Busy? ==> workers[w].index < |checks|)
      && (forall w :: 0 <= w < |workers| && workers[w].Exited? ==> next == |checks|)
      && Balanced(failures, workers, checks, next)
    }

    /** `min(concurrency, max(1, files.length))` workers. */
    constructor (checks: seq<CheckResult>, concurrency: int)
      ensures Valid() && this.checks == checks && failures == [] && next == 0
      ensures |workers| == WorkerCount(concurrency, if |checks| < 1 then 1 else |checks|)
    {
      this.checks := checks;
      next := 0;
      failures := [];
      workers := seq(WorkerCount(concurrency, if |checks| < 1 then 1 else |checks|), _ => Ready);
      new;
      forall x ensures InFlight(workers, checks, x) == 0 {
        NoneInFlight(workers, checks, x);
      }
    }

    method ClaimOrExit(w: nat)
      requires Valid() && w < |workers| && workers[w].Ready?
      modifies this
      ensures Valid() && |workers| == |old(workers)|
      ensures Measure(|checks| - next, workers) < old(Measure(|checks| - next, workers))
    {
      if next < |checks| {
        WeightsUpdate(workers, w, Busy(next));
        BalancedClaim(failures, workers, w, checks, next);
        workers := workers[w := Busy(next)];
        next := next + 1;
      } else {
        WeightsUpdate(workers, w, Exited);
        BalancedExit(failures, workers, w, checks, next);
        workers := workers[w := Exited];
      }
    }

    method Settle(w: nat)
      requires Valid() && w < |workers| && workers[w].Busy?
      modifies this
      ensures Valid() && |workers| == |old(workers)|
      ensures Measure(|checks| - next, workers) < old(Measure(|checks| - next, workers))
    {
      var result := checks[workers[w].index];
      WeightsUpdate(workers, w, Ready);
      BalancedSettle(failures, workers, w, checks, next);
      if result.exitCode != 0 || result.signalled {
        failures := failures + [result];
      }
      workers := workers[w := Ready];
    }

    /** Any interleaving collects exactly the failing results, in some order. */
    method Run() returns (collected: seq<CheckResult>)
      requires Valid() && next == 0
      modifies this
      ensures Valid() && |workers| == |old(workers)|
      ensures |workers| > 0 ==> multiset(collected) == multiset(FailingOf(checks))
    {
      while exists w :: 0 <= w < |workers| && Live(workers[w])
        invariant Valid() && |workers| == |old(workers)|
        decreases Measure(|checks| - next, workers)
      {
        var w :| 0 <= w < |workers| && Live(workers[w]);
        if workers[w].Ready? { ClaimOrExit(w); } else { Settle(w); }
      }
      collected := failures;
      if |workers| > 0 {
        assert workers[0].Exited?;
        assert checks[..|checks|] == checks;
        forall x ensures multiset(collected)[x] == multiset(FailingOf(checks))[x] {
          NoneInFlight(workers, checks, x);
        }
      }
    }
  }
}
