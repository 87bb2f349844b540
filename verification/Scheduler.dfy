/**
 The periodic scheduler as a transition system. Start and Shutdown run under the lifecycle
 mutex, so one of them is in progress at a time; the tick loops of all the runs, the Execute
 calls, the hooks and the caller's cancellations interleave with it freely.
 */
module Scheduler {
  import opened Results
  import opened Seqs
  import StopChannel

  datatype Config = Config(onStart: bool, executeOnStart: bool, failOnStartError: bool, interval: bool,
                           executeOnShutdown: bool, onShutdown: bool)

  /** A tick goroutine: in its select, waiting for the Execute mutex, in Execute, or gone. */
  datatype Loop = Absent | Selecting | Waiting | Executing | Exited

  /** What the operations of a run do that others can see: the hooks and Execute calls they make,
      with what those returned, and what they return themselves. */
  datatype Call =
    | OnStartRan(ok: bool)
    | Executed(ok: bool)
    | StartReturned(ok: bool)
    | ShutdownBegan
    | OnShutdownRan(ok: bool)
    | ShutdownReturned(ok: bool)

  /** One Start that got past the `started` test. `cancelled` says its run context is done;
      `abandoned` that a Shutdown stopped waiting for its loop; `startFailed` that Start returned
      an error. `attempts` counts the ticks of its loop that were not skipped, and `executed` the
      Execute calls of the loop that returned. */
  datatype Run = Run(cancelled: bool, loop: Loop, hook: Option<StopChannel.State>, abandoned: bool,
                     startFailed: bool, attempts: nat, executed: nat)

  /** Where the Start or Shutdown holding the lifecycle mutex is; Idle when none is. */
  datatype Phase =
    | Idle
    | InOnStart | StartLock | StartExecute | StartSpawn
    | StopRelease | StopWait | StopLock | StopExecute | InOnShutdown

  datatype Holder = Free | ByOperation | ByLoop(run: nat)

  /** `done` and `release` name the run whose channel and function those fields hold; the run
      context and its cancel function are the last run's whenever `started`. `calls` logs, run by
      run, the Start that began the run and the Shutdown that ended it. */
  datatype State = State(started: bool, done: Option<nat>, release: Option<nat>, runs: seq<Run>,
                         phase: Phase, mutex: Holder, calls: seq<seq<Call>>)

  datatype Action =
    | CallStart(ctxDone: bool)
    | OnStartReturns(ok: bool)
    | OperationLocks
    | OperationExecuted(ok: bool)
    | Spawn
    | CallShutdown
    | ReleaseChannel
    | LoopSeenGone
    | BudgetExpires
    | OnShutdownReturns(ok: bool)
    | CallerCancels(run: nat)
    | Tick(run: nat)
    | LoopLocks(run: nat)
    | LoopExecuted(run: nat)
    | LoopQuits(run: nat)
    | CallbackDispatched(run: nat)
    | ChannelCloses(run: nat)

  const CREATED := State(false, None, None, [], Idle, Free, [])

  function Cancelled(r: Run): Run {
    r.(cancelled := true,
       hook := if r.hook.Some? then Some(StopChannel.Step(r.hook.value, StopChannel.Cancel)) else None)
  }

  function HookStep(s: State, i: nat, a: StopChannel.Action): State
    requires i < |s.runs|
  {
    if s.runs[i].hook.Some?
    then s.(runs := s.runs[i := s.runs[i].(hook := Some(StopChannel.Step(s.runs[i].hook.value, a)))])
    else s
  }

  function WithLoop(s: State, i: nat, l: Loop): State
    requires i < |s.runs|
  {
    s.(runs := s.runs[i := s.runs[i].(loop := l)])
  }

  predicate IsLoop(s: State, i: nat, l: Loop) {
    i < |s.runs| && s.runs[i].loop == l
  }

  function AfterOnStart(c: Config): Phase {
    if c.executeOnStart then StartLock else StartSpawn
  }

  function AfterWait(c: Config): Phase {
    if c.executeOnShutdown then StopLock else AfterFinalCall(c)
  }

  function AfterFinalCall(c: Config): Phase {
    if c.onShutdown then InOnShutdown else Idle
  }

  /** The operation in progress, always the last run's, makes a call. */
  function Noted(s: State, call: Call): (t: State)
    ensures t == s.(calls := t.calls)
  {
    if s.calls == [] then s
    else s.(calls := s.calls[|s.calls| - 1 := s.calls[|s.calls| - 1] + [call]])
  }

  function Failed(s: State): State
    requires |s.runs| > 0
  {
    Noted(s, StartReturned(false)).(
      phase := Idle, runs := s.runs[|s.runs| - 1 := s.runs[|s.runs| - 1].(startFailed := true)])
  }

  /** The Shutdown in progress goes on with `phase`, or returns. */
  function Proceeds(s: State, phase: Phase): State {
    (if phase.Idle? then Noted(s, ShutdownReturned(true)) else s).(phase := phase)
  }

  /** One atomic step; an action that is not enabled leaves the state alone. Tick is a tick that
      attempts: one the backoff skips changes nothing here. */
  function Step(c: Config, s: State, a: Action): State {
    match a
    case CallStart(ctxDone) =>
      if s.phase.Idle? && !s.started then
        var hook := if c.onStart then Some(StopChannel.CREATED.(ctxDone := ctxDone)) else None;
        s.(started := true, runs := s.runs + [Run(ctxDone, Absent, hook, false, false, 0, 0)],
           calls := s.calls + [[]],
           release := if c.onStart then Some(|s.runs|) else s.release,
           phase := if c.onStart then InOnStart else AfterOnStart(c))
      else s
    case OnStartReturns(ok) =>
      if s.phase.InOnStart? && |s.runs| > 0 then
        var t := Noted(s, OnStartRan(ok));
        if ok then t.(phase := AfterOnStart(c)) else Failed(t)
      else s
    case OperationLocks =>
      if s.mutex.Free? && s.phase.StartLock? then s.(phase := StartExecute, mutex := ByOperation)
      else if s.mutex.Free? && s.phase.StopLock? then s.(phase := StopExecute, mutex := ByOperation)
      else s
    case OperationExecuted(ok) =>
      if s.phase.StartExecute? && |s.runs| > 0 then
        var t := Noted(s, Executed(ok)).(mutex := Free);
        if !ok && c.failOnStartError then Failed(t) else t.(phase := StartSpawn)
      else if s.phase.StopExecute? then
        var t := Noted(s, Executed(ok)).(mutex := Free);
        if ok then Proceeds(t, AfterFinalCall(c)) else Noted(t, ShutdownReturned(false)).(phase := Idle)
      else s
    case Spawn =>
      if s.phase.StartSpawn? && |s.runs| > 0 then
        var t := Noted(s, StartReturned(true)).(phase := Idle);
        if c.interval then WithLoop(t, |t.runs| - 1, Selecting).(done := Some(|t.runs| - 1)) else t
      else s
    case CallShutdown =>
      if s.phase.Idle? && s.started && |s.runs| > 0 then
        Noted(s, ShutdownBegan).(
          started := false, phase := StopRelease,
          runs := s.runs[|s.runs| - 1 := Cancelled(s.runs[|s.runs| - 1])])
      else s
    case ReleaseChannel =>
      if s.phase.StopRelease? then
        var released :=
          if s.release.Some? && s.release.value < |s.runs|
          then HookStep(s, s.release.value, StopChannel.Release) else s;
        Proceeds(released.(release := None), if s.done.Some? then StopWait else AfterWait(c))
      else s
    case LoopSeenGone =>
      if s.phase.StopWait? && s.done.Some? && IsLoop(s, s.done.value, Exited)
      then Proceeds(s.(done := None), AfterWait(c)) else s
    case BudgetExpires =>
      if s.phase.StopWait? && s.done.Some? && s.done.value < |s.runs| then
        Proceeds(s.(done := None, runs := s.runs[s.done.value := s.runs[s.done.value].(abandoned := true)]), AfterWait(c))
      else s
    case OnShutdownReturns(ok) =>
      if s.phase.InOnShutdown?
      then Noted(Noted(s, OnShutdownRan(ok)), ShutdownReturned(ok)).(phase := Idle) else s
    case CallerCancels(i) => if i < |s.runs| then s.(runs := s.runs[i := Cancelled(s.runs[i])]) else s
    case Tick(i) =>
      if IsLoop(s, i, Selecting)
      then s.(runs := s.runs[i := s.runs[i].(loop := Waiting, attempts := s.runs[i].attempts + 1)]) else s
    case LoopLocks(i) =>
      if IsLoop(s, i, Waiting) && s.mutex.Free? then WithLoop(s, i, Executing).(mutex := ByLoop(i)) else s
    case LoopExecuted(i) =>
      if IsLoop(s, i, Executing)
      then s.(mutex := Free, runs := s.runs[i := s.runs[i].(loop := Selecting, executed := s.runs[i].executed + 1)]) else s
    case LoopQuits(i) => if IsLoop(s, i, Selecting) && s.runs[i].cancelled then WithLoop(s, i, Exited) else s
    case CallbackDispatched(i) => if i < |s.runs| then HookStep(s, i, StopChannel.Dispatch) else s
    case ChannelCloses(i) => if i < |s.runs| then HookStep(s, i, StopChannel.Close) else s
  }

  function From(c: Config, s: State, actions: seq<Action>): State {
    if actions == [] then s else Step(c, From(c, s, actions[..|actions| - 1]), actions[|actions| - 1])
  }

  /** Where any interleaving of actions takes a new scheduler. */
  function After(c: Config, actions: seq<Action>): State {
    From(c, CREATED, actions)
  }

  // What every step keeps.

  /** The last run is still owned by a Start or by the first half of a Shutdown. */
  predicate Owned(s: State) {
    s.started || s.phase.StopRelease? || s.phase.StopWait?
  }

  predicate Gone(r: Run) {
    r.loop.Absent? || r.loop.Exited?
  }

  ghost predicate MutexInv(s: State) {
    && (s.mutex.ByOperation? <==> s.phase.StartExecute? || s.phase.StopExecute?)
    && (s.mutex.ByLoop? ==> s.mutex.run < |s.runs|)
    && forall i :: 0 <= i < |s.runs| ==> (s.runs[i].loop.Executing? <==> s.mutex == ByLoop(i))
  }

  ghost predicate RunInv(s: State, i: nat)
    requires i < |s.runs|
  {
    var r, last := s.runs[i], i == |s.runs| - 1;
    && (!r.cancelled ==> last && s.started)
    && (Gone(r) || r.abandoned || (last && Owned(s)))
  }

  ghost predicate HookInv(s: State, i: nat)
    requires i < |s.runs|
  {
    var r := s.runs[i];
    r.hook.Some? ==>
      && StopChannel.Inv(r.hook.value)
      && r.hook.value.ctxDone == r.cancelled
      && (r.hook.value.released || s.release == Some(i))
  }

  ghost predicate FieldsInv(s: State) {
    && (s.started ==> |s.runs| > 0)
    && (s.phase.InOnStart? || s.phase.StartLock? || s.phase.StartExecute? || s.phase.StartSpawn? ==> s.started)
    && (s.phase.StopRelease? || s.phase.StopWait? || s.phase.StopLock? || s.phase.StopExecute? || s.phase.InOnShutdown? ==>
          !s.started && |s.runs| > 0)
    && (s.done.Some? <==> Owned(s) && |s.runs| > 0 && !s.runs[|s.runs| - 1].loop.Absent?)
    && (s.done.Some? ==> s.done.value == |s.runs| - 1)
    && (s.phase.StopWait? ==> s.done.Some?)
    && (s.phase.InOnStart? || s.phase.StartLock? || s.phase.StartExecute? || s.phase.StartSpawn? ==> s.done.None?)
    && (s.release.Some? ==> s.release.value == |s.runs| - 1 && (s.started || s.phase.StopRelease?))
  }

  ghost predicate Inv(s: State) {
    && MutexInv(s)
    && FieldsInv(s)
    && forall i :: 0 <= i < |s.runs| ==> RunInv(s, i) && HookInv(s, i)
  }

  /** The steps of a Start or Shutdown. */
  predicate OfOperation(a: Action) {
    || a.CallStart? || a.OnStartReturns? || a.OperationLocks? || a.OperationExecuted? || a.Spawn?
    || a.CallShutdown? || a.ReleaseChannel? || a.LoopSeenGone? || a.BudgetExpires? || a.OnShutdownReturns?
  }

  lemma OperationStepLoop(c: Config, s: State, a: Action, i: nat)
    requires FieldsInv(s) && OfOperation(a) && i < |Step(c, s, a).runs|
    ensures Step(c, s, a).runs[i].loop.Executing? <==> i < |s.runs| && s.runs[i].loop.Executing?
  {
    hide StopChannel.Step, Noted;
  }

  lemma OperationStepHolder(c: Config, s: State, a: Action)
    requires (s.mutex.ByOperation? <==> s.phase.StartExecute? || s.phase.StopExecute?) && FieldsInv(s) && OfOperation(a)
    ensures var t := Step(c, s, a);
            && (t.mutex.ByOperation? <==> t.phase.StartExecute? || t.phase.StopExecute?)
            && (s.mutex.ByLoop? || t.mutex.ByLoop? ==> t.mutex == s.mutex)
            && |s.runs| <= |t.runs|
  {
    hide StopChannel.Step, Noted;
  }

  lemma OperationStepMutex(c: Config, s: State, a: Action)
    requires MutexInv(s) && FieldsInv(s) && OfOperation(a)
    ensures MutexInv(Step(c, s, a))
  {
    hide Step, FieldsInv;
    var t := Step(c, s, a);
    OperationStepHolder(c, s, a);
    forall i | 0 <= i < |t.runs|
      ensures t.runs[i].loop.Executing? <==> t.mutex == ByLoop(i)
    {
      OperationStepLoop(c, s, a, i);
    }
  }

  lemma LoopStepMutex(c: Config, s: State, a: Action)
    requires MutexInv(s) && !OfOperation(a)
    ensures MutexInv(Step(c, s, a))
  {
  }

  lemma StepMutex(c: Config, s: State, a: Action)
    requires Inv(s)
    ensures MutexInv(Step(c, s, a))
  {
    if OfOperation(a) {
      OperationStepMutex(c, s, a);
    } else {
      LoopStepMutex(c, s, a);
    }
  }

  predicate OfStart(a: Action) {
    a.CallStart? || a.OnStartReturns? || a.OperationLocks? || a.OperationExecuted? || a.Spawn?
  }

  lemma StartStepFields(c: Config, s: State, a: Action)
    requires FieldsInv(s) && OfStart(a)
    ensures FieldsInv(Step(c, s, a))
  {
    hide StopChannel.Step, Noted;
  }

  lemma StopStepFields(c: Config, s: State, a: Action)
    requires FieldsInv(s) && OfOperation(a) && !OfStart(a)
    ensures FieldsInv(Step(c, s, a))
  {
    hide StopChannel.Step, Noted;
  }

  lemma LoopStepFields(c: Config, s: State, a: Action)
    requires FieldsInv(s) && !OfOperation(a)
    ensures FieldsInv(Step(c, s, a))
  {
  }

  lemma StepFields(c: Config, s: State, a: Action)
    requires Inv(s)
    ensures FieldsInv(Step(c, s, a))
  {
    hide Step, FieldsInv;
    if OfStart(a) {
      StartStepFields(c, s, a);
    } else if OfOperation(a) {
      StopStepFields(c, s, a);
    } else {
      LoopStepFields(c, s, a);
    }
  }

  lemma StepRun(c: Config, s: State, a: Action, i: nat)
    requires FieldsInv(s) && i < |Step(c, s, a).runs|
    requires i < |s.runs| ==> RunInv(s, i)
    ensures RunInv(Step(c, s, a), i)
  {
    hide StopChannel.Step, Noted;
  }

  /** The release field, if set, is the current run's, and nobody else's while a Start is possible. */
  predicate ReleaseInv(s: State) {
    s.release.Some? ==> s.release.value < |s.runs| && (s.started || s.phase.StopRelease?)
  }

  /** Steps that leave every hook, run context and the release field alone. */
  predicate LeavesHooks(a: Action) {
    || a.OnStartReturns? || a.OperationLocks? || a.OperationExecuted? || a.Spawn? || a.LoopSeenGone?
    || a.BudgetExpires? || a.OnShutdownReturns? || a.Tick? || a.LoopLocks? || a.LoopExecuted? || a.LoopQuits?
  }

  lemma HookLeft(c: Config, s: State, a: Action, i: nat)
    requires LeavesHooks(a) && i < |s.runs|
    ensures var t := Step(c, s, a);
            && |t.runs| == |s.runs| && t.release == s.release
            && t.runs[i].hook == s.runs[i].hook && t.runs[i].cancelled == s.runs[i].cancelled
  {
    hide StopChannel.Step, Noted;
  }

  lemma HookStarted(c: Config, s: State, ctxDone: bool, i: nat)
    requires ReleaseInv(s) && i < |Step(c, s, CallStart(ctxDone)).runs|
    requires i < |s.runs| ==> HookInv(s, i)
    ensures HookInv(Step(c, s, CallStart(ctxDone)), i)
  {
    var t := Step(c, s, CallStart(ctxDone));
    if !s.phase.Idle? || s.started {
      assert t == s;
    } else if i < |s.runs| {
      assert t.runs[i] == s.runs[i];
    } else if c.onStart {
      assert t.runs[i].hook == Some(StopChannel.CREATED.(ctxDone := ctxDone)) && t.release == Some(i);
    }
  }

  lemma HookReleased(c: Config, s: State, i: nat)
    requires ReleaseInv(s) && i < |s.runs| && HookInv(s, i)
    ensures HookInv(Step(c, s, ReleaseChannel), i)
  {
    if s.runs[i].hook.Some? {
      StopChannel.StepInv(s.runs[i].hook.value, StopChannel.Release);
    }
  }

  lemma HookCancelled(r: Run)
    requires r.hook.Some? ==> StopChannel.Inv(r.hook.value) && r.hook.value.ctxDone == r.cancelled
    ensures Cancelled(r).hook.Some? ==>
              && StopChannel.Inv(Cancelled(r).hook.value)
              && Cancelled(r).hook.value.ctxDone == Cancelled(r).cancelled
              && Cancelled(r).hook.value.released == r.hook.value.released
  {
  }

  lemma HookSignalled(c: Config, s: State, a: Action, i: nat)
    requires a.CallShutdown? || a.CallerCancels?
    requires i < |s.runs| && HookInv(s, i)
    ensures HookInv(Step(c, s, a), i)
  {
    var t := Step(c, s, a);
    assert t.release == s.release;
    if t.runs[i] != s.runs[i] {
      assert t.runs[i] == Cancelled(s.runs[i]);
      HookCancelled(s.runs[i]);
    }
  }

  lemma HookMoved(c: Config, s: State, a: Action, i: nat)
    requires a.CallbackDispatched? || a.ChannelCloses?
    requires i < |s.runs| && HookInv(s, i)
    ensures HookInv(Step(c, s, a), i)
  {
    if s.runs[i].hook.Some? {
      StopChannel.StepInv(s.runs[i].hook.value, StopChannel.Dispatch);
      StopChannel.StepInv(s.runs[i].hook.value, StopChannel.Close);
    }
  }

  lemma StepHook(c: Config, s: State, a: Action, i: nat)
    requires ReleaseInv(s) && i < |Step(c, s, a).runs|
    requires i < |s.runs| ==> HookInv(s, i)
    ensures HookInv(Step(c, s, a), i)
  {
    if a.CallStart? {
      HookStarted(c, s, a.ctxDone, i);
    } else if a.ReleaseChannel? {
      HookReleased(c, s, i);
    } else if a.CallShutdown? || a.CallerCancels? {
      HookSignalled(c, s, a, i);
    } else if a.CallbackDispatched? || a.ChannelCloses? {
      HookMoved(c, s, a, i);
    } else {
      HookLeft(c, s, a, i);
    }
  }

  lemma StepInv(c: Config, s: State, a: Action)
    requires Inv(s)
    ensures Inv(Step(c, s, a))
  {
    var t := Step(c, s, a);
    StepMutex(c, s, a);
    StepFields(c, s, a);
    forall i | 0 <= i < |t.runs|
      ensures RunInv(t, i) && HookInv(t, i)
    {
      assert i < |s.runs| ==> RunInv(s, i) && HookInv(s, i);
      StepRun(c, s, a, i);
      StepHook(c, s, a, i);
    }
  }

  lemma {:induction false} FromInv(c: Config, s: State, actions: seq<Action>)
    requires Inv(s)
    ensures Inv(From(c, s, actions))
    decreases |actions|
  {
    if actions != [] {
      FromInv(c, s, actions[..|actions| - 1]);
      StepInv(c, From(c, s, actions[..|actions| - 1]), actions[|actions| - 1]);
    }
  }

  lemma AfterInv(c: Config, actions: seq<Action>)
    ensures Inv(After(c, actions))
  {
    FromInv(c, CREATED, actions);
  }

  // Safety over every interleaving.

  /** Two Execute calls never overlap: not two loops, and not a loop and a Start or Shutdown. */
  lemma NoOverlap(c: Config, actions: seq<Action>, i: nat, j: nat)
    requires i < |After(c, actions).runs| && j < |After(c, actions).runs|
    requires After(c, actions).runs[i].loop.Executing?
    ensures After(c, actions).runs[j].loop.Executing? ==> i == j
    ensures !After(c, actions).phase.StartExecute? && !After(c, actions).phase.StopExecute?
  {
    AfterInv(c, actions);
  }

  /** At most one tick loop has a run context that is not cancelled, and it is the last run's. */
  lemma OneUncancelledLoop(c: Config, actions: seq<Action>, i: nat)
    requires i < |After(c, actions).runs|
    requires !Gone(After(c, actions).runs[i]) && !After(c, actions).runs[i].cancelled
    ensures i == |After(c, actions).runs| - 1 && After(c, actions).started
  {
    AfterInv(c, actions);
    assert RunInv(After(c, actions), i);
  }

  /** A Shutdown is past its wait: it makes the final Execute or runs OnShutdown. */
  predicate PastWait(s: State) {
    s.phase.StopLock? || s.phase.StopExecute? || s.phase.InOnShutdown?
  }

  /** The final Execute and OnShutdown run only once that run's context is cancelled, its loop has
      exited or the stop budget expired, and its hook channel has exactly one closer. */
  lemma ShutdownOrder(c: Config, actions: seq<Action>)
    requires PastWait(After(c, actions))
    ensures |After(c, actions).runs| > 0
    ensures var r := After(c, actions).runs[|After(c, actions).runs| - 1];
            && r.cancelled
            && (Gone(r) || r.abandoned)
            && (r.hook.Some? ==> r.hook.value.owed + r.hook.value.closes == 1)
  {
    AfterInv(c, actions);
    var s := After(c, actions);
    assert RunInv(s, |s.runs| - 1) && HookInv(s, |s.runs| - 1);
  }

  /** No hook channel of any run is ever closed twice. */
  lemma ChannelsClosedOnce(c: Config, actions: seq<Action>, i: nat)
    requires i < |After(c, actions).runs| && After(c, actions).runs[i].hook.Some?
    ensures After(c, actions).runs[i].hook.value.closes <= 1
  {
    AfterInv(c, actions);
    assert HookInv(After(c, actions), i);
  }

  ghost predicate NoExpiry(actions: seq<Action>) {
    forall k :: 0 <= k < |actions| ==> !actions[k].BudgetExpires?
  }

  lemma {:induction false} NothingAbandoned(c: Config, actions: seq<Action>, i: nat)
    requires NoExpiry(actions) && i < |After(c, actions).runs|
    ensures !After(c, actions).runs[i].abandoned
    decreases |actions|
  {
    if actions != [] {
      var before := actions[..|actions| - 1];
      AfterInv(c, before);
      if i < |After(c, before).runs| {
        NothingAbandoned(c, before, i);
      }
      StepAbandonsNone(c, After(c, before), actions[|actions| - 1], i);
    }
  }

  lemma StepAbandonsNone(c: Config, s: State, a: Action, i: nat)
    requires FieldsInv(s) && !a.BudgetExpires? && i < |Step(c, s, a).runs|
    requires i < |s.runs| ==> !s.runs[i].abandoned
    ensures !Step(c, s, a).runs[i].abandoned
  {
    hide StopChannel.Step, Noted;
  }

  /** As long as no stop budget expires, whenever a Shutdown is past its wait or the scheduler is
      stopped, no tick loop of any run is left. */
  lemma SettledWithoutExpiry(c: Config, actions: seq<Action>, i: nat)
    requires NoExpiry(actions) && i < |After(c, actions).runs|
    requires PastWait(After(c, actions)) || (After(c, actions).phase.Idle? && !After(c, actions).started)
    ensures Gone(After(c, actions).runs[i])
  {
    AfterInv(c, actions);
    assert RunInv(After(c, actions), i);
    NothingAbandoned(c, actions, i);
  }

  /** A loop that has exited never comes back, whatever happens next. */
  lemma {:induction false} ExitedForGood(c: Config, s: State, more: seq<Action>, i: nat)
    requires Inv(s) && i < |s.runs| && s.runs[i].loop.Exited?
    ensures i < |From(c, s, more).runs| && From(c, s, more).runs[i].loop.Exited?
    decreases |more|
  {
    if more != [] {
      var before := more[..|more| - 1];
      FromInv(c, s, before);
      ExitedForGood(c, s, before, i);
      StaysExited(c, From(c, s, before), more[|more| - 1], i);
    }
  }

  lemma StaysExited(c: Config, s: State, a: Action, i: nat)
    requires FieldsInv(s) && i < |s.runs| && s.runs[i].loop.Exited?
    ensures i < |Step(c, s, a).runs| && Step(c, s, a).runs[i].loop.Exited?
  {
    hide StopChannel.Step, Noted;
  }

  // Progress.

  /** Steps that need neither a new call, a tick or a cancellation, nor an expiring budget. */
  predicate Completes(a: Action) {
    !a.CallStart? && !a.CallShutdown? && !a.CallerCancels? && !a.Tick? && !a.BudgetExpires?
  }

  function PhaseRank(p: Phase): nat {
    match p
    case Idle => 0
    case InOnShutdown => 1
    case StartSpawn => 1
    case StopExecute => 2
    case StartExecute => 2
    case StopLock => 3
    case StartLock => 3
    case StopWait => 4
    case InOnStart => 4
    case StopRelease => 5
  }

  function LoopRank(l: Loop): nat {
    match l
    case Waiting => 3
    case Executing => 2
    case Selecting => 1
    case Absent => 0
    case Exited => 0
  }

  function LastLoopRank(s: State): nat {
    if s.runs == [] then 0 else LoopRank(s.runs[|s.runs| - 1].loop)
  }

  function MutexRank(s: State): nat {
    if s.mutex.ByLoop? then 1 else 0
  }

  /** The step that brings the operation in progress closer to its end. */
  function Helpful(s: State): Action
    requires s.phase.StopWait? ==> |s.runs| > 0
  {
    match s.phase
    case InOnStart => OnStartReturns(true)
    case StartLock => if s.mutex.ByLoop? then LoopExecuted(s.mutex.run) else OperationLocks
    case StartExecute => OperationExecuted(true)
    case StartSpawn => Spawn
    case StopRelease => ReleaseChannel
    case StopWait =>
      if IsLoop(s, |s.runs| - 1, Exited) then LoopSeenGone
      else if IsLoop(s, |s.runs| - 1, Selecting) then LoopQuits(|s.runs| - 1)
      else if s.mutex.ByLoop? then LoopExecuted(s.mutex.run)
      else LoopLocks(|s.runs| - 1)
    case StopLock => if s.mutex.ByLoop? then LoopExecuted(s.mutex.run) else OperationLocks
    case StopExecute => OperationExecuted(true)
    case InOnShutdown => OnShutdownReturns(true)
    case Idle => OnShutdownReturns(true)
  }

  /** `t` is closer to the end of the operation in progress than `s`. */
  predicate Closer(t: State, s: State) {
    || PhaseRank(t.phase) < PhaseRank(s.phase)
    || (t.phase == s.phase && LastLoopRank(t) < LastLoopRank(s))
    || (t.phase == s.phase && LastLoopRank(t) == LastLoopRank(s) && MutexRank(t) < MutexRank(s))
  }

  lemma WaitHelped(c: Config, s: State)
    requires MutexInv(s) && FieldsInv(s) && s.phase.StopWait? && RunInv(s, |s.runs| - 1)
    ensures Completes(Helpful(s)) && Closer(Step(c, s, Helpful(s)), s)
  {
  }

  lemma OthersHelped(c: Config, s: State)
    requires MutexInv(s) && FieldsInv(s) && !s.phase.Idle? && !s.phase.StopWait?
    ensures Completes(Helpful(s)) && Closer(Step(c, s, Helpful(s)), s)
  {
    hide StopChannel.Step;
  }

  lemma HelpfulHelps(c: Config, s: State)
    requires Inv(s) && !s.phase.Idle?
    ensures Completes(Helpful(s)) && Closer(Step(c, s, Helpful(s)), s)
  {
    hide Step, Helpful, HookInv;
    if s.phase.StopWait? {
      assert RunInv(s, |s.runs| - 1);
      WaitHelped(c, s);
    } else {
      OthersHelped(c, s);
    }
  }

  /** No deadlock: from every reachable state the Start or Shutdown in progress can run to its
      end, without a budget expiring, by letting Execute calls and hooks return. */
  lemma {:induction false} CanFinish(c: Config, s: State) returns (more: seq<Action>)
    requires Inv(s)
    ensures From(c, s, more).phase.Idle?
    ensures forall k :: 0 <= k < |more| ==> Completes(more[k])
    decreases PhaseRank(s.phase), LastLoopRank(s), MutexRank(s)
  {
    if s.phase.Idle? {
      more := [];
    } else {
      var a := Helpful(s);
      HelpfulHelps(c, s);
      StepInv(c, s, a);
      var rest := CanFinish(c, Step(c, s, a));
      more := [a] + rest;
      FromCons(c, s, a, rest);
    }
  }

  lemma {:induction false} FromCons(c: Config, s: State, a: Action, rest: seq<Action>)
    ensures From(c, s, [a] + rest) == From(c, Step(c, s, a), rest)
    decreases |rest|
  {
    if rest == [] {
      assert ([a] + rest)[..0] == [];
    } else {
      InitOfConcat([a], rest);
      FromCons(c, s, a, rest[..|rest| - 1]);
    }
  }

  // A Start that failed.

  ghost predicate StartInv(c: Config, s: State) {
    s.started ==>
      |s.runs| > 0 &&
      var r := s.runs[|s.runs| - 1];
      if s.phase.Idle? then r.loop.Absent? <==> !c.interval || r.startFailed else !r.startFailed && r.loop.Absent?
  }

  lemma {:induction false} AfterStartInv(c: Config, actions: seq<Action>)
    ensures StartInv(c, After(c, actions))
    decreases |actions|
  {
    if actions != [] {
      var before := actions[..|actions| - 1];
      AfterInv(c, before);
      AfterStartInv(c, before);
      StepStart(c, After(c, before), actions[|actions| - 1]);
    }
  }

  lemma StepStart(c: Config, s: State, a: Action)
    requires FieldsInv(s) && StartInv(c, s)
    ensures StartInv(c, Step(c, s, a))
  {
    hide StopChannel.Step, Noted;
  }

  /** Start returns without an error on a started scheduler, whether or not it has a loop: it has
      none exactly when no interval is configured or the Start that marked it started failed. */
  lemma StartOnStarted(c: Config, actions: seq<Action>, ctxDone: bool)
    requires After(c, actions).started && After(c, actions).phase.Idle?
    ensures Step(c, After(c, actions), CallStart(ctxDone)) == After(c, actions)
    ensures |After(c, actions).runs| > 0
    ensures var r := After(c, actions).runs[|After(c, actions).runs| - 1];
            r.loop.Absent? <==> !c.interval || r.startFailed
  {
    AfterStartInv(c, actions);
  }

  /** Marked started by a Start that failed, with no loop. */
  predicate Stuck(s: State) {
    && s.started && s.phase.Idle? && |s.runs| > 0
    && s.runs[|s.runs| - 1].startFailed && s.runs[|s.runs| - 1].loop.Absent?
  }

  /** The step by which a Start returns an error. */
  predicate FailsStart(c: Config, s: State, a: Action) {
    || (s.phase.InOnStart? && a == OnStartReturns(false))
    || (s.phase.StartExecute? && a == OperationExecuted(false) && c.failOnStartError)
  }

  lemma StaysStuck(c: Config, s: State, a: Action)
    requires FieldsInv(s) && Stuck(s) && !a.CallShutdown?
    ensures Stuck(Step(c, s, a)) && |Step(c, s, a).runs| == |s.runs|
  {
  }

  lemma {:induction false} StaysStuckFor(c: Config, s: State, more: seq<Action>)
    requires Inv(s) && Stuck(s) && forall k :: 0 <= k < |more| ==> !more[k].CallShutdown?
    ensures Stuck(From(c, s, more)) && |From(c, s, more).runs| == |s.runs|
    decreases |more|
  {
    if more != [] {
      var before := more[..|more| - 1];
      StaysStuckFor(c, s, before);
      FromInv(c, s, before);
      StaysStuck(c, From(c, s, before), more[|more| - 1]);
    }
  }

  /** Once a Start has failed, no Start does anything and no loop ticks, whatever happens next,
      until a Shutdown. */
  lemma FailedStartSticks(c: Config, actions: seq<Action>, a: Action, more: seq<Action>)
    requires FailsStart(c, After(c, actions), a)
    requires forall k :: 0 <= k < |more| ==> !more[k].CallShutdown?
    ensures var s := From(c, Step(c, After(c, actions), a), more);
            Stuck(s) && |s.runs| == |After(c, actions).runs|
  {
    AfterInv(c, actions);
    AfterStartInv(c, actions);
    StepInv(c, After(c, actions), a);
    StaysStuckFor(c, Step(c, After(c, actions), a), more);
  }
}
