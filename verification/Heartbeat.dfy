/** The throttled heartbeat of codex-run-heartbeat.mjs: a phase change is written at
    once, output-only updates are merged and written at most once per interval. */
module Heartbeat {
  import opened Wrappers

  type Phase = s: string | s != "" witness "p"
  type Fields = map<string, string>

  datatype Kind = PhaseChange | Throttled

  /** One call of the write function. */
  datatype Write = Write(phase: string, fields: Fields, at: int, kind: Kind)

  /** The variables of the closure, the time a pending timer is due and the writes
      made so far. */
  datatype State = State(
    lastFlushAt: int, lastPhase: Option<Phase>, pendingFields: Option<Fields>,
    pendingPhase: Option<Phase>, timer: Option<int>, log: seq<Write>)

  const INITIAL := State(0, None, None, None, None, [])

  /** The largest delay `setTimeout` takes; a delay above it, or below 1, becomes 1. */
  const TIMEOUT_MAX := 0x7fff_ffff

  function TimerDelay(delay: int): int {
    if 1 <= delay <= TIMEOUT_MAX then delay else 1
  }

  function PhaseToWrite(s: State): string {
    if s.pendingPhase.Some? then s.pendingPhase.value
    else if s.lastPhase.Some? then s.lastPhase.value
    else "unknown"
  }

  function FieldsToWrite(s: State): Fields {
    if s.pendingFields.Some? then s.pendingFields.value else map[]
  }

  function Flush(s: State, at: int, kind: Kind): State {
    State(at, s.lastPhase, None, None, None, s.log + [Write(PhaseToWrite(s), FieldsToWrite(s), at, kind)])
  }

  /** `throttledUpdate`; the clock is read once on entry and again by the flush. */
  function Update(interval: nat, s: State, phase: Phase, fields: Fields, now: int, flushNow: int): State {
    if s.lastPhase != Some(phase) then
      Flush(s.(lastPhase := Some(phase), pendingPhase := Some(phase), pendingFields := Some(fields)), flushNow,
            PhaseChange)
    else
      var pending := s.(pendingFields := Some(FieldsToWrite(s) + fields), pendingPhase := Some(phase));
      if now - s.lastFlushAt >= interval then Flush(pending, flushNow, Throttled)
      else if s.timer.None? then
        pending.(timer := Some(now + TimerDelay(interval - (now - s.lastFlushAt))))
      else pending
  }

  class ThrottledHeartbeat {
    const interval: nat
    var lastFlushAt: int
    var lastPhase: Option<Phase>
    var pendingFields: Option<Fields>
    var pendingPhase: Option<Phase>
    var timer: Option<int>
    /** What the write function has been called with. */
    var log: seq<Write>

    constructor (interval: nat)
      ensures this.interval == interval && View() == INITIAL
    {
      this.interval := interval;
      lastFlushAt, lastPhase, pendingFields, pendingPhase, timer, log := 0, None, None, None, None, [];
    }

    function View(): State
      reads this
    {
      State(lastFlushAt, lastPhase, pendingFields, pendingPhase, timer, log)
    }

    method FlushPending(at: int, kind: Kind)
      modifies this
      ensures View() == Flush(old(View()), at, kind)
    {
      timer := None;
      var phase := if pendingPhase.Some? then pendingPhase.value
                   else if lastPhase.Some? then lastPhase.value else "unknown";
      var fields := if pendingFields.Some? then pendingFields.value else map[];
      lastFlushAt := at;
      pendingPhase := None;
      pendingFields := None;
      log := log + [Write(phase, fields, at, kind)];
    }

    method ThrottledUpdate(phase: Phase, fields: Fields, now: int, flushNow: int)
      modifies this
      ensures View() == Update(interval, old(View()), phase, fields, now, flushNow)
    {
      var phaseChanged := lastPhase != Some(phase);
      lastPhase := Some(phase);
      if phaseChanged {
        pendingPhase := Some(phase);
        pendingFields := Some(fields);
        FlushPending(flushNow, PhaseChange);
        return;
      }
      pendingFields := Some((if pendingFields.Some? then pendingFields.value else map[]) + fields);
      pendingPhase := Some(phase);
      if now - lastFlushAt >= interval {
        FlushPending(flushNow, Throttled);
      } else if timer.None? {
        timer := Some(now + TimerDelay(interval - (now - lastFlushAt)));
      }
    }
  }

  // ---------------------------------------------------------------------------
  // Runs
  // ---------------------------------------------------------------------------

  datatype Event = Call(phase: Phase, fields: Fields, now: int, flushNow: int) | Fire(at: int)

  function Step(interval: nat, s: State, e: Event): State {
    match e
    case Call(phase, fields, now, flushNow) => Update(interval, s, phase, fields, now, flushNow)
    case Fire(at) => Flush(s, at, Throttled)
  }

  function Run(interval: nat, es: seq<Event>): State {
    if es == [] then INITIAL else Step(interval, Run(interval, es[..|es| - 1]), es[|es| - 1])
  }

  /** The clock after the run. */
  function Clock(es: seq<Event>): int {
    if es == [] then 0
    else match es[|es| - 1] case Call(_, _, _, flushNow) => flushNow case Fire(at) => at
  }

  predicate Enabled(s: State, clock: int, e: Event) {
    match e
    case Call(_, _, now, flushNow) => clock <= now <= flushNow
    case Fire(at) => s.timer.Some? && clock <= at && s.timer.value <= at
  }

  /** The clock never goes back and a timer fires when it is armed and due, or later. */
  predicate Valid(interval: nat, es: seq<Event>) {
    es == [] ||
    (Valid(interval, es[..|es| - 1]) && Enabled(Run(interval, es[..|es| - 1]), Clock(es[..|es| - 1]), es[|es| - 1]))
  }

  /** Between events: a timer is armed exactly while fields are pending, and the
      pending phase is the last one requested. */
  predicate Quiescent(s: State) {
    && (s.timer.Some? <==> s.pendingFields.Some?)
    && (s.pendingPhase == if s.pendingFields.Some? then s.lastPhase else None)
    && (s.lastPhase.None? <==> s.log == [])
    && (s.pendingFields.Some? ==> s.lastPhase.Some?)
    && (s.log != [] ==> s.log[|s.log| - 1].at == s.lastFlushAt && s.log[0].kind == PhaseChange)
  }

  lemma {:induction false} RunQuiescent(interval: nat, es: seq<Event>)
    requires Valid(interval, es)
    ensures Quiescent(Run(interval, es)) && Run(interval, es).lastFlushAt <= Clock(es)
    ensures interval <= TIMEOUT_MAX ==>
      forall due :: Run(interval, es).timer == Some(due) ==> due == Run(interval, es).lastFlushAt + interval
  {
    if es != [] {
      RunQuiescent(interval, es[..|es| - 1]);
    }
  }

  // ---------------------------------------------------------------------------
  // Rate
  // ---------------------------------------------------------------------------

  function ThrottledCount(log: seq<Write>): nat {
    if log == [] then 0
    else ThrottledCount(log[..|log| - 1]) + if log[|log| - 1].kind == Throttled then 1 else 0
  }

  /** `interval` times the throttled writes fits between the first and last write. */
  predicate RateBound(interval: nat, log: seq<Write>) {
    log == [] || interval * ThrottledCount(log) <= log[|log| - 1].at - log[0].at
  }

  lemma ThrottledCountSnoc(log: seq<Write>, w: Write)
    ensures ThrottledCount(log + [w]) == ThrottledCount(log) + if w.kind == Throttled then 1 else 0
  {
    assert (log + [w])[..|log|] == log;
  }

  /** A throttled write comes at least one interval after the write before it. */
  ghost predicate Spaced(interval: nat, log: seq<Write>, w: Write) {
    if log == [] then w.kind == PhaseChange
    else w.at >= log[|log| - 1].at + if w.kind == Throttled then interval else 0
  }

  lemma StepSpaced(interval: nat, s: State, e: Event)
    requires Quiescent(s) && Enabled(s, s.lastFlushAt, e)
    requires forall due :: s.timer == Some(due) ==> due == s.lastFlushAt + interval
    ensures var s' := Step(interval, s, e);
            s'.log == s.log || exists w :: s'.log == s.log + [w] && Spaced(interval, s.log, w)
  {
    StepWrites(interval, s, e);
    var s' := Step(interval, s, e);
    if s'.log != s.log {
      assert Spaced(interval, s.log, s'.log[|s.log|]);
    }
  }

  lemma RateBoundSnoc(interval: nat, log: seq<Write>, w: Write)
    requires RateBound(interval, log) && Spaced(interval, log, w)
    ensures RateBound(interval, log + [w])
  {
    ThrottledCountSnoc(log, w);
    var count := ThrottledCount(log);
    assert interval * (count + 1) == interval * count + interval;
    if log == [] {
      assert interval * ThrottledCount(log + [w]) == 0;
    }
  }

  lemma {:induction false} RateBoundHolds(interval: nat, es: seq<Event>)
    requires Valid(interval, es) && interval <= TIMEOUT_MAX
    ensures RateBound(interval, Run(interval, es).log)
  {
    if es != [] {
      var init := es[..|es| - 1];
      RateBoundHolds(interval, init);
      RunQuiescent(interval, init);
      RunSnoc(interval, es);
      StepSpaced(interval, Run(interval, init), es[|es| - 1]);
      var log, next := Run(interval, init).log, Run(interval, es).log;
      if next != log {
        RateBoundSnoc(interval, log, next[|log|]);
      }
    }
  }

  /** The rate bound holds on every run exactly when the interval is a delay the
      timer can represent. */
  lemma RateBoundIff(interval: nat)
    ensures (forall es :: Valid(interval, es) ==> RateBound(interval, Run(interval, es).log))
            <==> interval <= TIMEOUT_MAX
  {
    if interval <= TIMEOUT_MAX {
      forall es | Valid(interval, es) ensures RateBound(interval, Run(interval, es).log) {
        RateBoundHolds(interval, es);
      }
    } else {
      EarlyTimer(interval);
    }
  }

  /** With a longer interval the timer fires after one millisecond. */
  lemma EarlyTimer(interval: nat)
    requires interval > TIMEOUT_MAX
    ensures exists es :: Valid(interval, es) && !RateBound(interval, Run(interval, es).log)
  {
    var first, second, fire := Call("p", map[], 0, 0), Call("p", map[], 0, 0), Fire(1);
    var e0, e1, e2, e3 := [], [first], [first, second], [first, second, fire];
    assert e3[..2] == e2 && e2[..1] == e1 && e1[..0] == e0;
    var s1, s2, s3 := Run(interval, e1), Run(interval, e2), Run(interval, e3);
    assert Run(interval, e0) == INITIAL;
    assert s1 == Step(interval, INITIAL, first);
    assert s2 == Step(interval, s1, second) && s2.timer == Some(1);
    assert s3.log == s1.log + [Write("p", map[], 1, Throttled)];
    assert Valid(interval, e0) && Valid(interval, e1) && Valid(interval, e2) && Valid(interval, e3);
    assert s3.log[..1] == s1.log && s1.log[..0] == [];
    assert ThrottledCount(s1.log[..0]) == 0 && ThrottledCount(s1.log) == 0;
    assert ThrottledCount(s3.log) == 1;
  }

  // ---------------------------------------------------------------------------
  // What is written
  // ---------------------------------------------------------------------------

  /** Adjacent repeats collapsed. */
  function Collapse(phases: seq<string>): seq<string> {
    if |phases| <= 1 then phases
    else
      var rest := Collapse(phases[..|phases| - 1]);
      if phases[|phases| - 1] == phases[|phases| - 2] then rest else rest + [phases[|phases| - 1]]
  }

  function Requested(es: seq<Event>): seq<string> {
    if es == [] then []
    else Requested(es[..|es| - 1]) + match es[|es| - 1] case Call(phase, _, _, _) => [phase] case Fire(_) => []
  }

  function Written(log: seq<Write>): seq<string> {
    seq(|log|, i requires 0 <= i < |log| => log[i].phase)
  }

  lemma CollapseSnoc(phases: seq<string>, p: string)
    ensures Collapse(phases + [p])
         == if phases != [] && phases[|phases| - 1] == p then Collapse(phases) else Collapse(phases) + [p]
  {
    assert (phases + [p])[..|phases|] == phases;
  }

  /** What one event does to the log: a phase change writes its own fields, a timer
      writes what is pending, and any other call writes or keeps the merge. */
  lemma StepWrites(interval: nat, s: State, e: Event)
    requires Quiescent(s) && Enabled(s, s.lastFlushAt, e)
    ensures var s' := Step(interval, s, e);
      if e.Fire? then
        s'.log == s.log + [Write(s.lastPhase.value, FieldsToWrite(s), e.at, Throttled)] && s'.pendingFields.None?
      else if s.lastPhase != Some(e.phase) then
        s'.log == s.log + [Write(e.phase, e.fields, e.flushNow, PhaseChange)] && s'.pendingFields.None?
      else
        var merged := FieldsToWrite(s) + e.fields;
        || (s'.log == s.log && s'.pendingFields == Some(merged))
        || (s'.log == s.log + [Write(e.phase, merged, e.flushNow, Throttled)] && s'.pendingFields.None?)
    ensures Step(interval, s, e).lastPhase == if e.Call? then Some(e.phase) else s.lastPhase
  {
  }

  /** One event more, as the invariants of a run see it. */
  lemma RunSnoc(interval: nat, es: seq<Event>)
    requires Valid(interval, es) && es != []
    ensures var s, e := Run(interval, es[..|es| - 1]), es[|es| - 1];
            && Quiescent(s) && Enabled(s, s.lastFlushAt, e) && Run(interval, es) == Step(interval, s, e)
            && Valid(interval, es[..|es| - 1])
  {
    RunQuiescent(interval, es[..|es| - 1]);
  }

  /** The phases written so far stand for the phases requested. */
  ghost predicate SamePhases(requested: seq<string>, written: seq<string>, last: Option<Phase>) {
    && Collapse(written) == Collapse(requested)
    && (last.None? ==> written == requested == [])
    && (last.Some? ==>
          && written != [] && requested != []
          && written[|written| - 1] == requested[|requested| - 1] == last.value)
  }

  lemma SamePhasesSnoc(requested: seq<string>, written: seq<string>, last: Option<Phase>, p: Phase)
    requires SamePhases(requested, written, last)
    ensures SamePhases(requested + [p], written + [p], Some(p))
    ensures last == Some(p) ==> SamePhases(requested + [p], written, last) && SamePhases(requested, written + [p], last)
  {
    CollapseSnoc(requested, p);
    CollapseSnoc(written, p);
  }

  lemma WrittenSnoc(log: seq<Write>, w: Write)
    ensures Written(log + [w]) == Written(log) + [w.phase]
  {
  }

  /** Every requested phase is written and nothing else: the phases written and the
      phases requested are the same once adjacent repeats are collapsed. */
  lemma {:induction false} PhasesWritten(interval: nat, es: seq<Event>)
    requires Valid(interval, es)
    ensures SamePhases(Requested(es), Written(Run(interval, es).log), Run(interval, es).lastPhase)
  {
    if es != [] {
      var init, e := es[..|es| - 1], es[|es| - 1];
      RunSnoc(interval, es);
      PhasesWritten(interval, init);
      var s, s' := Run(interval, init), Run(interval, es);
      StepWrites(interval, s, e);
      var requested, written := Requested(init), Written(s.log);
      if e.Call? {
        SamePhasesSnoc(requested, written, s.lastPhase, e.phase);
        assert Requested(es) == requested + [e.phase];
      } else {
        SamePhasesSnoc(requested, written, s.lastPhase, s.lastPhase.value);
        assert Requested(es) == requested;
      }
      if s'.log != s.log {
        WrittenSnoc(s.log, s'.log[|s.log|]);
      }
    }
  }

  /** The right-biased merge of the fields of all calls. */
  function MergeAll(es: seq<Event>): Fields {
    if es == [] then map[]
    else MergeAll(es[..|es| - 1]) + match es[|es| - 1] case Call(_, fields, _, _) => fields case Fire(_) => map[]
  }

  /** The events that wrote, in order: the `k`-th write was made by event `Writers(es)[k]`. */
  function Writers(interval: nat, es: seq<Event>): seq<nat> {
    if es == [] then []
    else
      var before := Writers(interval, es[..|es| - 1]);
      if |Run(interval, es).log| > |Run(interval, es[..|es| - 1]).log| then before + [|es| - 1] else before
  }

  /** The events since the write before the `k`-th: its window starts here. */
  function WindowStart(writers: seq<nat>, k: nat): nat
    requires k <= |writers|
  {
    if k == 0 then 0 else writers[k - 1] + 1
  }

  /** A throttled write carries the right-biased merge of its window's fields; a
      phase change carries the fields of its own event only. */
  ghost predicate WriteOk(es: seq<Event>, from: nat, writer: nat, w: Write) {
    && from <= writer < |es|
    && if w.kind == Throttled then w.fields == MergeAll(es[from..writer + 1])
       else es[writer].Call? && w.fields == es[writer].fields
  }

  ghost predicate WellWritten(es: seq<Event>, writers: seq<nat>, log: seq<Write>) {
    && |writers| == |log| && WindowStart(writers, |writers|) <= |es|
    && forall k :: 0 <= k < |log| ==> WriteOk(es, WindowStart(writers, k), writers[k], log[k])
  }

  /** The events after the last write. */
  function Tail(es: seq<Event>, writers: seq<nat>): seq<Event>
    requires WindowStart(writers, |writers|) <= |es|
  {
    es[WindowStart(writers, |writers|)..]
  }

  lemma WriteOkKept(es: seq<Event>, e: Event, from: nat, writer: nat, w: Write)
    requires WriteOk(es, from, writer, w)
    ensures WriteOk(es + [e], from, writer, w)
  {
    assert (es + [e])[from..writer + 1] == es[from..writer + 1];
  }

  lemma KeepWritten(es: seq<Event>, e: Event, writers: seq<nat>, log: seq<Write>)
    requires WellWritten(es, writers, log)
    ensures WellWritten(es + [e], writers, log)
    ensures Tail(es + [e], writers) == Tail(es, writers) + [e]
  {
    forall k | 0 <= k < |log| ensures WriteOk(es + [e], WindowStart(writers, k), writers[k], log[k]) {
      WriteOkKept(es, e, WindowStart(writers, k), writers[k], log[k]);
    }
  }

  lemma ExtendWritten(es: seq<Event>, e: Event, writers: seq<nat>, log: seq<Write>, w: Write)
    requires WellWritten(es, writers, log)
    requires if w.kind == Throttled then w.fields == MergeAll(Tail(es, writers) + [e])
             else e.Call? && w.fields == e.fields
    ensures WellWritten(es + [e], writers + [|es|], log + [w])
    ensures Tail(es + [e], writers + [|es|]) == []
  {
    KeepWritten(es, e, writers, log);
    var all, writers', log' := es + [e], writers + [|es|], log + [w];
    assert Tail(all, writers) == all[WindowStart(writers, |writers|)..|es| + 1];
    assert WriteOk(all, WindowStart(writers, |writers|), |es|, w);
    forall k | 0 <= k < |log'| ensures WriteOk(all, WindowStart(writers', k), writers'[k], log'[k]) {
      assert WindowStart(writers', k) == WindowStart(writers, k);
      if k < |log| {
        assert WriteOk(all, WindowStart(writers, k), writers[k], log[k]);
      }
    }
  }

  lemma MergeSnoc(es: seq<Event>, e: Event)
    ensures MergeAll(es + [e]) == MergeAll(es) + if e.Call? then e.fields else map[]
  {
    assert (es + [e])[..|es|] == es;
  }

  /** Every write is accounted for by its window, and what is pending is the merge
      of everything since the last write. */
  ghost predicate Accounted(es: seq<Event>, writers: seq<nat>, s: State) {
    && WellWritten(es, writers, s.log)
    && s.pendingFields == if Tail(es, writers) == [] then None else Some(MergeAll(Tail(es, writers)))
  }

  lemma AccountedStep(interval: nat, es: seq<Event>, e: Event, writers: seq<nat>, s: State)
    requires Accounted(es, writers, s) && Quiescent(s) && Enabled(s, s.lastFlushAt, e)
    ensures var s' := Step(interval, s, e);
            Accounted(es + [e], if |s'.log| > |s.log| then writers + [|es|] else writers, s')
  {
    var s' := Step(interval, s, e);
    StepWrites(interval, s, e);
    MergeSnoc(Tail(es, writers), e);
    assert FieldsToWrite(s) == MergeAll(Tail(es, writers));
    if s'.log == s.log {
      KeepWritten(es, e, writers, s.log);
    } else {
      ExtendWritten(es, e, writers, s.log, s'.log[|s.log|]);
    }
  }

  /** On every run, every write carries what its kind promises and nothing pending
      is lost except by a phase change. */
  lemma {:induction false} FieldsWritten(interval: nat, es: seq<Event>)
    requires Valid(interval, es)
    ensures Accounted(es, Writers(interval, es), Run(interval, es))
  {
    if es != [] {
      var init := es[..|es| - 1];
      assert es == init + [es[|es| - 1]];
      RunSnoc(interval, es);
      FieldsWritten(interval, init);
      AccountedStep(interval, init, es[|es| - 1], Writers(interval, init), Run(interval, init));
    }
  }

  // ---------------------------------------------------------------------------
  // The log without the closure
  // ---------------------------------------------------------------------------

  /** The phase of the last call. */
  function LastPhase(es: seq<Event>): Option<string> {
    if es == [] then None
    else match es[|es| - 1] case Call(phase, _, _, _) => Some(phase) case Fire(_) => LastPhase(es[..|es| - 1])
  }

  /** When the last write was made; 0 before the first. */
  function LastAt(log: seq<Write>): int {
    if log == [] then 0 else log[|log| - 1].at
  }

  /** What is written for each event, by the calls since the last write alone: a call in a
      new phase with its own fields at once; any other call with all fields since then, if
      the interval has passed since then; and so a timer. */
  function SpecLog(interval: nat, es: seq<Event>): seq<Write>
    decreases |es|, 2
  {
    if es == [] then []
    else
      var init, e := es[..|es| - 1], es[|es| - 1];
      var log := SpecLog(interval, init);
      match e
      case Call(phase, fields, now, flushNow) =>
        if LastPhase(init) != Some(phase) then log + [Write(phase, fields, flushNow, PhaseChange)]
        else if now >= LastAt(log) + interval then log + [Write(phase, Unwritten(interval, es), flushNow, Throttled)]
        else log
      case Fire(at) =>
        log + [Write(match LastPhase(init) case Some(phase) => phase case None => "unknown",
                     Unwritten(interval, es), at, Throttled)]
  }

  /** The right-biased merge of the fields of the calls since the last write before the last
      event. */
  function Unwritten(interval: nat, es: seq<Event>): Fields
    decreases |es|, 1
  {
    if es == [] then map[]
    else
      var init := es[..|es| - 1];
      var before := if init == [] || Wrote(interval, init) then map[] else Unwritten(interval, init);
      before + match es[|es| - 1] case Call(_, fields, _, _) => fields case Fire(_) => map[]
  }

  predicate Wrote(interval: nat, es: seq<Event>)
    requires es != []
    decreases |es|, 3
  {
    |SpecLog(interval, es)| > |SpecLog(interval, es[..|es| - 1])|
  }

  /** The closure with its timer writes exactly this log. */
  lemma {:induction false} LogRefines(interval: nat, es: seq<Event>)
    requires Valid(interval, es)
    ensures var s := Run(interval, es);
            && s.log == SpecLog(interval, es) && s.lastPhase == LastPhase(es) && s.lastFlushAt == LastAt(s.log)
            && s.pendingFields ==
                 if es == [] || Wrote(interval, es) then None else Some(Unwritten(interval, es))
  {
    if es != [] {
      var init, e := es[..|es| - 1], es[|es| - 1];
      RunSnoc(interval, es);
      LogRefines(interval, init);
      var s := Run(interval, init);
      StepWrites(interval, s, e);
      assert FieldsToWrite(s) + (if e.Call? then e.fields else map[]) == Unwritten(interval, es);
      assert e.Fire? ==> FieldsToWrite(s) == Unwritten(interval, es);
    }
  }
}
