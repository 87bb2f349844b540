/**
 What the Start and the Shutdown of every run call, in which order, in terms of the configuration
 alone, and what becomes of the attempts of a tick loop.
 */
module SchedulerTrace {
  import opened Seqs
  import opened Scheduler
  import StopChannel

  /** The calls of a whole Start: OnStart if there is one, which returns `on`; the first Execute if
      it is asked for and OnStart did not fail, which returns `ex`; then what Start returns. */
  function StartTrace(c: Config, on: bool, ex: bool): seq<Call> {
    var hooked := c.onStart ==> on;
    (if c.onStart then [OnStartRan(on)] else [])
    + (if hooked && c.executeOnStart then [Executed(ex)] else [])
    + [StartReturned(hooked && (c.executeOnStart && c.failOnStartError ==> ex))]
  }

  /** The calls of a whole Shutdown: the final Execute if it is asked for, which returns `ex`;
      OnShutdown if there is one and that Execute did not fail, which returns `off`; then what
      Shutdown returns. */
  function StopTrace(c: Config, ex: bool, off: bool): seq<Call> {
    var flushed := c.executeOnShutdown ==> ex;
    [ShutdownBegan]
    + (if c.executeOnShutdown then [Executed(ex)] else [])
    + (if flushed && c.onShutdown then [OnShutdownRan(off)] else [])
    + [ShutdownReturned(flushed && (c.onShutdown ==> off))]
  }

  ghost predicate StartDone(c: Config, calls: seq<Call>) {
    exists on, ex :: calls == StartTrace(c, on, ex)
  }

  /** A whole Start, then `more`. */
  ghost predicate AfterStart(c: Config, calls: seq<Call>, more: seq<Call>) {
    exists begun :: StartDone(c, begun) && calls == begun + more
  }

  ghost predicate StopDone(c: Config, calls: seq<Call>) {
    exists ex, off :: AfterStart(c, calls, StopTrace(c, ex, off))
  }

  /** OnStart has returned, or there is none. */
  function Hooked(c: Config): seq<Call> {
    if c.onStart then [OnStartRan(true)] else []
  }

  /** The first Execute has returned `ex`, or there is none. */
  ghost predicate Tried(c: Config, calls: seq<Call>, ex: bool) {
    && calls == Hooked(c) + (if c.executeOnStart then [Executed(ex)] else [])
    && (c.executeOnStart && c.failOnStartError ==> ex)
  }

  /** What the operations of the last run have called when they have got to `phase`. */
  ghost predicate TraceAt(c: Config, phase: Phase, started: bool, calls: seq<Call>) {
    match phase
    case Idle => if started then StartDone(c, calls) else StopDone(c, calls)
    case InOnStart => c.onStart && calls == []
    case StartLock => c.executeOnStart && calls == Hooked(c)
    case StartExecute => c.executeOnStart && calls == Hooked(c)
    case StartSpawn => exists ex :: Tried(c, calls, ex)
    case StopRelease => AfterStart(c, calls, [ShutdownBegan])
    case StopWait => AfterStart(c, calls, [ShutdownBegan])
    case StopLock => c.executeOnShutdown && AfterStart(c, calls, [ShutdownBegan])
    case StopExecute => c.executeOnShutdown && AfterStart(c, calls, [ShutdownBegan])
    case InOnShutdown =>
      && c.onShutdown
      && AfterStart(c, calls, [ShutdownBegan] + if c.executeOnShutdown then [Executed(true)] else [])
  }

  ghost predicate TraceInv(c: Config, s: State) {
    && |s.calls| == |s.runs|
    && (forall i :: 0 <= i < |s.calls| - 1 ==> StopDone(c, s.calls[i]))
    && (s.calls != [] ==> TraceAt(c, s.phase, s.started, s.calls[|s.calls| - 1]))
  }

  lemma More(c: Config, calls: seq<Call>, more: seq<Call>, extra: seq<Call>)
    requires AfterStart(c, calls, more)
    ensures AfterStart(c, calls + extra, more + extra)
  {
    var begun :| StartDone(c, begun) && calls == begun + more;
    Assoc(begun, more, extra);
  }

  /** A step that leaves the lists of the earlier runs alone keeps the trace if the last one does. */
  lemma LastTrace(c: Config, s: State, t: State)
    requires TraceInv(c, s) && s.calls != [] && |t.runs| == |s.runs| && |t.calls| == |s.calls|
    requires t.calls[..|s.calls| - 1] == s.calls[..|s.calls| - 1]
    requires TraceAt(c, t.phase, t.started, t.calls[|s.calls| - 1])
    ensures TraceInv(c, t)
  {
    hide TraceAt, StopDone;
    forall i | 0 <= i < |t.calls| - 1
      ensures StopDone(c, t.calls[i])
    {
      assert t.calls[i] == t.calls[..|s.calls| - 1][i] == s.calls[..|s.calls| - 1][i];
    }
  }

  /** The steps of a Start keep the trace. */
  lemma StartStepTrace(c: Config, s: State, a: Action)
    requires FieldsInv(s) && TraceInv(c, s)
    requires a.OnStartReturns? || a.OperationExecuted? || a.Spawn?
    requires s.started && !s.phase.Idle?
    ensures TraceInv(c, Step(c, s, a))
  {
    var t, n := Step(c, s, a), |s.calls| - 1;
    var was, now := s.calls[n], t.calls[n];
    if t != s {
      match a
      case OnStartReturns(ok) =>
        if ok {
          assert now == [OnStartRan(true)] == Hooked(c);
          assert !c.executeOnStart ==> Tried(c, now, true);
        } else {
          assert now == [OnStartRan(false), StartReturned(false)] == StartTrace(c, false, true);
        }
      case OperationExecuted(ok) =>
        if !ok && c.failOnStartError {
          assert now == Hooked(c) + [Executed(false)] + [StartReturned(false)] == StartTrace(c, true, false);
        } else {
          assert Tried(c, now, ok);
        }
      case Spawn =>
        var ex :| Tried(c, was, ex);
        assert now == was + [StartReturned(true)] == StartTrace(c, true, ex);
    }
    LastTrace(c, s, t);
  }

  /** The list a Shutdown leaves when it goes on with `phase`, or returns. */
  function Proceeded(calls: seq<Call>, phase: Phase): seq<Call> {
    if phase.Idle? then calls + [ShutdownReturned(true)] else calls
  }

  lemma WaitTrace(c: Config, calls: seq<Call>)
    requires AfterStart(c, calls, [ShutdownBegan])
    ensures TraceAt(c, AfterWait(c), false, Proceeded(calls, AfterWait(c)))
  {
    if !c.executeOnShutdown {
      EmptyConcat([ShutdownBegan]);
      FinalTrace(c, calls);
    }
  }

  lemma FinalTrace(c: Config, calls: seq<Call>)
    requires AfterStart(c, calls, [ShutdownBegan] + if c.executeOnShutdown then [Executed(true)] else [])
    ensures TraceAt(c, AfterFinalCall(c), false, Proceeded(calls, AfterFinalCall(c)))
  {
    if !c.onShutdown {
      var more := [ShutdownBegan] + if c.executeOnShutdown then [Executed(true)] else [];
      More(c, calls, more, [ShutdownReturned(true)]);
      assert more + [ShutdownReturned(true)] == StopTrace(c, true, true);
    }
  }

  lemma FailedFlushTrace(c: Config, calls: seq<Call>)
    requires c.executeOnShutdown && AfterStart(c, calls, [ShutdownBegan])
    ensures StopDone(c, calls + [Executed(false)] + [ShutdownReturned(false)])
  {
    More(c, calls, [ShutdownBegan], [Executed(false)]);
    More(c, calls + [Executed(false)], [ShutdownBegan] + [Executed(false)], [ShutdownReturned(false)]);
    assert [ShutdownBegan] + [Executed(false)] + [ShutdownReturned(false)] == StopTrace(c, false, true);
  }

  lemma OnShutdownTrace(c: Config, calls: seq<Call>, off: bool)
    requires TraceAt(c, InOnShutdown, false, calls)
    ensures StopDone(c, calls + [OnShutdownRan(off)] + [ShutdownReturned(off)])
  {
    var more := [ShutdownBegan] + if c.executeOnShutdown then [Executed(true)] else [];
    More(c, calls, more, [OnShutdownRan(off)]);
    More(c, calls + [OnShutdownRan(off)], more + [OnShutdownRan(off)], [ShutdownReturned(off)]);
    assert more + [OnShutdownRan(off)] + [ShutdownReturned(off)] == StopTrace(c, true, off);
  }

  /** Shutdown stops waiting, or has nothing to wait for. */
  lemma WaitStepTrace(c: Config, s: State, a: Action)
    requires FieldsInv(s) && TraceInv(c, s) && (s.phase.StopRelease? || s.phase.StopWait?)
    requires a.ReleaseChannel? || a.LoopSeenGone? || a.BudgetExpires?
    ensures TraceInv(c, Step(c, s, a))
  {
    hide StopChannel.Step, AfterStart, StopDone;
    var t, was := Step(c, s, a), s.calls[|s.calls| - 1];
    assert AfterStart(c, was, [ShutdownBegan]);
    if t.phase != s.phase {
      WaitTrace(c, was);
      assert t.phase.StopWait? || t.phase == AfterWait(c);
      assert t.calls == s.calls[|s.calls| - 1 := Proceeded(was, t.phase)];
    }
    LastTrace(c, s, t);
  }

  /** The final Execute and OnShutdown return. */
  lemma FinalStepTrace(c: Config, s: State, a: Action)
    requires FieldsInv(s) && TraceInv(c, s)
    requires (a.OperationExecuted? && s.phase.StopExecute?) || (a.OnShutdownReturns? && s.phase.InOnShutdown?)
    ensures TraceInv(c, Step(c, s, a))
  {
    hide AfterStart, StopDone;
    var t, n := Step(c, s, a), |s.calls| - 1;
    var was := s.calls[n];
    if a.OnShutdownReturns? {
      OnShutdownTrace(c, was, a.ok);
      assert t.calls[n] == was + [OnShutdownRan(a.ok)] + [ShutdownReturned(a.ok)];
    } else if a.ok {
      More(c, was, [ShutdownBegan], [Executed(true)]);
      FinalTrace(c, was + [Executed(true)]);
      assert t.calls[n] == Proceeded(was + [Executed(true)], t.phase);
    } else {
      FailedFlushTrace(c, was);
      assert t.calls[n] == was + [Executed(false)] + [ShutdownReturned(false)];
    }
    LastTrace(c, s, t);
  }

  /** Calling Start and Shutdown, and waiting for the Execute mutex. */
  lemma CallStepTrace(c: Config, s: State, a: Action)
    requires FieldsInv(s) && TraceInv(c, s)
    requires a.CallStart? || a.CallShutdown? || a.OperationLocks?
    ensures TraceInv(c, Step(c, s, a))
  {
    hide StopChannel.Step, StartDone, StopDone, FieldsInv;
    var t := Step(c, s, a);
    if t != s {
      match a
      case CallStart(ctxDone) =>
        assert t.calls == s.calls + [[]];
        assert !c.onStart && !c.executeOnStart ==> Tried(c, [], true);
      case CallShutdown =>
        var was := s.calls[|s.calls| - 1];
        assert t.calls == s.calls[|s.calls| - 1 := was + [ShutdownBegan]];
        assert AfterStart(c, was + [ShutdownBegan], [ShutdownBegan]);
      case OperationLocks =>
    }
  }

  lemma LoopStepTrace(c: Config, s: State, a: Action)
    requires TraceInv(c, s) && !OfOperation(a)
    ensures TraceInv(c, Step(c, s, a))
  {
    var t := Step(c, s, a);
    assert t.calls == s.calls && t.phase == s.phase && t.started == s.started && |t.runs| == |s.runs|;
  }

  lemma StepTrace(c: Config, s: State, a: Action)
    requires FieldsInv(s) && TraceInv(c, s)
    ensures TraceInv(c, Step(c, s, a))
  {
    hide TraceInv;
    if !OfOperation(a) {
      LoopStepTrace(c, s, a);
    } else if a.CallStart? || a.CallShutdown? || a.OperationLocks? {
      CallStepTrace(c, s, a);
    } else if Step(c, s, a) == s {
    } else if s.started {
      StartStepTrace(c, s, a);
    } else if a.OperationExecuted? || a.OnShutdownReturns? {
      FinalStepTrace(c, s, a);
    } else {
      WaitStepTrace(c, s, a);
    }
  }

  lemma {:induction false} AfterTrace(c: Config, actions: seq<Action>)
    ensures TraceInv(c, After(c, actions))
    decreases |actions|
  {
    if actions != [] {
      var before := actions[..|actions| - 1];
      AfterInv(c, before);
      AfterTrace(c, before);
      StepTrace(c, After(c, before), actions[|actions| - 1]);
    }
  }

  // The trace of every run, over every interleaving.

  ghost predicate Whole(c: Config, calls: seq<Call>) {
    exists on, ex, fin, off :: calls == StartTrace(c, on, ex) + StopTrace(c, fin, off)
  }

  lemma StopDoneWhole(c: Config, calls: seq<Call>)
    requires StopDone(c, calls)
    ensures Whole(c, calls)
  {
    var fin, off :| AfterStart(c, calls, StopTrace(c, fin, off));
    var begun :| StartDone(c, begun) && calls == begun + StopTrace(c, fin, off);
    var on, ex :| begun == StartTrace(c, on, ex);
  }

  /** Every run that is over made the calls of one whole Start and one whole Shutdown, and no other;
      a run that is up made those of one whole Start. */
  lemma RunsTraced(c: Config, actions: seq<Action>, i: nat)
    requires i < |After(c, actions).runs|
    ensures |After(c, actions).calls| == |After(c, actions).runs|
    ensures i < |After(c, actions).runs| - 1 ==> Whole(c, After(c, actions).calls[i])
    ensures After(c, actions).phase.Idle? && !After(c, actions).started ==> Whole(c, After(c, actions).calls[i])
    ensures After(c, actions).phase.Idle? && After(c, actions).started && i == |After(c, actions).runs| - 1 ==>
              StartDone(c, After(c, actions).calls[i])
  {
    hide After, StopDone, Whole, StartDone;
    AfterTrace(c, actions);
    var s := After(c, actions);
    if i < |s.runs| - 1 || (s.phase.Idle? && !s.started) {
      StopDoneWhole(c, s.calls[i]);
    }
  }

  /** OnStart first if there is one, then one Execute if it is asked for, then Start's success. */
  predicate StartedUp(c: Config, calls: seq<Call>) {
    var h := if c.onStart then 1 else 0;
    var e := if c.executeOnStart then 1 else 0;
    && |calls| > h + e
    && (c.onStart ==> calls[0] == OnStartRan(true))
    && (c.executeOnStart ==> calls[h].Executed? && (c.failOnStartError ==> calls[h].ok))
    && calls[h + e] == StartReturned(true)
  }

  ghost predicate NoStart(calls: seq<Call>) {
    forall k :: 0 <= k < |calls| ==> !calls[k].StartReturned?
  }

  lemma StartPart(c: Config, calls: seq<Call>, more: seq<Call>)
    requires AfterStart(c, calls, more) && NoStart(more)
    ensures StartReturned(true) in calls ==> StartedUp(c, calls)
  {
    var begun :| StartDone(c, begun) && calls == begun + more;
    var on, ex :| begun == StartTrace(c, on, ex);
    if StartReturned(true) in calls {
      var k :| 0 <= k < |calls| && calls[k] == StartReturned(true);
      assert k < |begun|;
    }
  }

  lemma StartPartAt(c: Config, phase: Phase, started: bool, calls: seq<Call>)
    requires TraceAt(c, phase, started, calls)
    ensures StartReturned(true) in calls ==> StartedUp(c, calls)
  {
    hide StartedUp, StartTrace, StopTrace, AfterStart;
    if phase.Idle? && started {
      EmptyConcat(calls);
      StartIsPart(c, calls);
      StartPart(c, calls, []);
    } else if phase.Idle? {
      var fin, off :| AfterStart(c, calls, StopTrace(c, fin, off));
      NoStartInStop(c, fin, off);
      StartPart(c, calls, StopTrace(c, fin, off));
    } else if phase.InOnShutdown? {
      StartPart(c, calls, [ShutdownBegan] + if c.executeOnShutdown then [Executed(true)] else []);
    } else if phase.StopRelease? || phase.StopWait? || phase.StopLock? || phase.StopExecute? {
      StartPart(c, calls, [ShutdownBegan]);
    } else {
      assert NoStart(calls);
    }
  }

  lemma StartIsPart(c: Config, calls: seq<Call>)
    requires StartDone(c, calls)
    ensures AfterStart(c, calls, [])
  {
    EmptyConcat(calls);
  }

  lemma NoStartInStop(c: Config, fin: bool, off: bool)
    ensures NoStart(StopTrace(c, fin, off))
  {
  }

  /** A Start that succeeds made exactly one Execute if ExecuteOnStart asks for it and none otherwise,
      and called OnStart exactly once, before it, if there is one. */
  lemma SuccessfulStart(c: Config, actions: seq<Action>, i: nat)
    requires i < |After(c, actions).calls| && StartReturned(true) in After(c, actions).calls[i]
    ensures StartedUp(c, After(c, actions).calls[i])
  {
    hide TraceAt, After, StopDone, StartedUp;
    AfterTrace(c, actions);
    var s := After(c, actions);
    if i == |s.calls| - 1 {
      StartPartAt(c, s.phase, s.started, s.calls[i]);
    } else {
      WasStopped(c, s.calls[i]);
      StartPartAt(c, Idle, false, s.calls[i]);
    }
  }

  lemma WasStopped(c: Config, calls: seq<Call>)
    ensures StopDone(c, calls) <==> TraceAt(c, Idle, false, calls)
  {
  }

  /** The final Execute if it is asked for, then OnShutdown if there is one and that Execute did not
      fail, then what Shutdown returns: whether both went well. */
  predicate ShutDown(c: Config, calls: seq<Call>) {
    var e := if c.executeOnShutdown then 1 else 0;
    && |calls| > e + 1
    && calls[0] == ShutdownBegan
    && (c.executeOnShutdown ==> calls[1].Executed?)
    && var flushed := c.executeOnShutdown ==> calls[1].ok;
       if c.onShutdown && flushed
       then |calls| == e + 3 && calls[e + 1].OnShutdownRan? && calls[e + 2] == ShutdownReturned(calls[e + 1].ok)
       else |calls| == e + 2 && calls[e + 1] == ShutdownReturned(flushed)
  }

  lemma StopShape(c: Config, fin: bool, off: bool)
    ensures ShutDown(c, StopTrace(c, fin, off))
  {
  }

  lemma StopPart(c: Config, calls: seq<Call>) returns (k: nat)
    requires StopDone(c, calls)
    ensures k <= |calls| && ShutDown(c, calls[k..])
  {
    hide ShutDown, StopTrace, StartDone;
    var fin, off :| AfterStart(c, calls, StopTrace(c, fin, off));
    var begun :| StartDone(c, begun) && calls == begun + StopTrace(c, fin, off);
    k := |begun|;
    SplitConcat(begun, StopTrace(c, fin, off));
    StopShape(c, fin, off);
  }

  lemma NotReturned(c: Config, phase: Phase, started: bool, calls: seq<Call>, ok: bool)
    requires TraceAt(c, phase, started, calls) && ShutdownReturned(ok) in calls
    ensures phase.Idle? && !started
  {
  }

  /** A Shutdown that returned made its final Execute exactly if ExecuteOnShutdown asks for it, and
      called OnShutdown exactly if there is one and that Execute did not fail. */
  lemma FinishedShutdown(c: Config, actions: seq<Action>, i: nat, ok: bool) returns (k: nat)
    requires i < |After(c, actions).calls| && ShutdownReturned(ok) in After(c, actions).calls[i]
    ensures k <= |After(c, actions).calls[i]| && ShutDown(c, After(c, actions).calls[i][k..])
  {
    hide TraceAt, After, StopDone, ShutDown;
    AfterTrace(c, actions);
    var s := After(c, actions);
    WasStopped(c, s.calls[i]);
    if i == |s.calls| - 1 {
      NotReturned(c, s.phase, s.started, s.calls[i], ok);
    }
    k := StopPart(c, s.calls[i]);
  }

  // Hooks and attempts.

  /** A run has a hook channel exactly if OnStart is configured, and every attempt of its loop has
      made an Execute call, is waiting for the mutex to make it, or is in it. */
  ghost predicate Accounted(c: Config, r: Run) {
    && (r.hook.Some? <==> c.onStart)
    && r.attempts == r.executed + if r.loop.Waiting? || r.loop.Executing? then 1 else 0
  }

  lemma OperationAccounted(c: Config, s: State, a: Action, i: nat)
    requires OfOperation(a) && i < |s.runs|
    ensures i < |Step(c, s, a).runs|
    ensures var r, t := s.runs[i], Step(c, s, a).runs[i];
            && (t.hook.Some? <==> r.hook.Some?) && t.attempts == r.attempts && t.executed == r.executed
            && (t.loop == r.loop || (t.loop.Selecting? && s.phase.StartSpawn? && i == |s.runs| - 1))
  {
    hide StopChannel.Step, Noted;
  }

  lemma LoopAccounted(c: Config, s: State, a: Action, i: nat)
    requires !OfOperation(a) && i < |s.runs| && Accounted(c, s.runs[i])
    ensures i < |Step(c, s, a).runs| && Accounted(c, Step(c, s, a).runs[i])
  {
    hide StopChannel.Step;
  }

  lemma StepAccounted(c: Config, s: State, a: Action, i: nat)
    requires FieldsInv(s) && i < |Step(c, s, a).runs|
    requires i < |s.runs| ==> Accounted(c, s.runs[i])
    ensures Accounted(c, Step(c, s, a).runs[i])
  {
    if i >= |s.runs| {
      NewRun(c, s, a, i);
    } else if OfOperation(a) {
      hide Step;
      OperationAccounted(c, s, a, i);
    } else {
      LoopAccounted(c, s, a, i);
    }
  }

  lemma NewRun(c: Config, s: State, a: Action, i: nat)
    requires |s.runs| <= i < |Step(c, s, a).runs|
    ensures Accounted(c, Step(c, s, a).runs[i])
  {
    hide StopChannel.Step, Noted;
  }

  lemma {:induction false} AttemptsAccounted(c: Config, actions: seq<Action>, i: nat)
    requires i < |After(c, actions).runs|
    ensures Accounted(c, After(c, actions).runs[i])
    decreases |actions|
  {
    if actions != [] {
      var before := actions[..|actions| - 1];
      AfterInv(c, before);
      if i < |After(c, before).runs| {
        AttemptsAccounted(c, before, i);
      }
      StepAccounted(c, After(c, before), actions[|actions| - 1], i);
    }
  }

  /** The Execute call that holds the mutex returns. */
  function Released(s: State): Action
    requires !s.mutex.Free?
  {
    if s.mutex.ByOperation? then OperationExecuted(true) else LoopExecuted(s.mutex.run)
  }

  lemma ReleasedFrees(c: Config, s: State, i: nat)
    requires Inv(s) && i < |s.runs| && s.runs[i].loop.Waiting? && !s.mutex.Free?
    ensures var t := Step(c, s, Released(s));
            t.mutex.Free? && i < |t.runs| && t.runs[i] == s.runs[i]
  {
  }

  lemma AttemptExecutes(c: Config, s: State, i: nat)
    requires i < |s.runs| && s.runs[i].loop.Waiting? && s.mutex.Free?
    ensures var t := From(c, s, [LoopLocks(i), LoopExecuted(i)]);
            i < |t.runs| && t.runs[i].executed == s.runs[i].executed + 1
  {
    FromCons(c, s, LoopLocks(i), [LoopExecuted(i)]);
    FromCons(c, Step(c, s, LoopLocks(i)), LoopExecuted(i), []);
  }

  /** An attempt on any loop, live or cancelled, reaches Execute: only the Execute call in progress
      has to return. */
  lemma AttemptReachesExecute(c: Config, actions: seq<Action>, i: nat) returns (more: seq<Action>)
    requires i < |After(c, actions).runs| && After(c, actions).runs[i].loop.Waiting?
    ensures forall k :: 0 <= k < |more| ==> Completes(more[k])
    ensures i < |From(c, After(c, actions), more).runs|
    ensures From(c, After(c, actions), more).runs[i].executed == After(c, actions).runs[i].executed + 1
  {
    AfterInv(c, actions);
    var s := After(c, actions);
    more := [LoopLocks(i), LoopExecuted(i)];
    if s.mutex.Free? {
      AttemptExecutes(c, s, i);
    } else {
      ReleasedFrees(c, s, i);
      AttemptExecutes(c, Step(c, s, Released(s)), i);
      FromCons(c, s, Released(s), more);
      more := [Released(s)] + more;
    }
  }

  /** A tick on a loop in its select, one the backoff does not skip, ends in one Execute call. */
  lemma TickReachesExecute(c: Config, actions: seq<Action>, i: nat) returns (more: seq<Action>)
    requires i < |After(c, actions).runs| && After(c, actions).runs[i].loop.Selecting?
    ensures forall k :: 0 <= k < |more| ==> Completes(more[k])
    ensures i < |From(c, After(c, actions), [Tick(i)] + more).runs|
    ensures From(c, After(c, actions), [Tick(i)] + more).runs[i].executed == After(c, actions).runs[i].executed + 1
  {
    var s := After(c, actions);
    InitOfConcat(actions, [Tick(i)]);
    EmptyConcat(actions);
    assert After(c, actions + [Tick(i)]) == Step(c, s, Tick(i));
    more := AttemptReachesExecute(c, actions + [Tick(i)], i);
    FromCons(c, s, Tick(i), more);
  }
}
