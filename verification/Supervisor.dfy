/**
 The service supervisor: starts services in order, stops in reverse the ones that came up, each
 within its own budget. Time is a discrete clock in nanoseconds; what a service does when it is
 asked to stop is an input.
 */
module Supervisor {
  import opened Results
  import opened Seqs

  const DEFAULT_STOP_BUDGET := 3_000_000_000
  const SHUTDOWN_GRACE := 250_000_000

  /** `declared` is the StopBudget of a budgeted service. */
  datatype Service = Service(name: string, declared: Option<int>)

  /** The declared budget if it is positive, the default one otherwise. */
  function StopBudget(s: Service): (d: int)
    ensures d > 0
    ensures s.declared == Some(d) <==> s.declared.Some? && s.declared.value > 0
    ensures s.declared != Some(d) ==> d == DEFAULT_STOP_BUDGET
  {
    if s.declared.Some? && s.declared.value > 0 then s.declared.value else DEFAULT_STOP_BUDGET
  }

  function TotalBudget(services: seq<Service>): (total: int)
    ensures total >= 0
  {
    if services == [] then 0
    else TotalBudget(services[..|services| - 1]) + StopBudget(services[|services| - 1])
  }

  method TotalStopBudget(services: seq<Service>) returns (total: int)
    ensures total == TotalBudget(services)
  {
    total := 0;
    for i := 0 to |services|
      invariant total == TotalBudget(services[..i])
    {
      assert services[..i + 1][..i] == services[..i];
      total := total + StopBudget(services[i]);
    }
    assert services[..|services|] == services;
  }

  /** The error of a stop: none, one that is a context deadline error, or another. */
  datatype Outcome = Clean | DeadlineExceeded | Failed(error: string)

  /** A service's Shutdown returns `outcome` after some time, or never does. `wins` says which way
      a select goes when the answer and the end of the grace are both ready. */
  datatype Behaviour = Returns(after: nat, outcome: Outcome, wins: bool) | Hangs

  /** One stop: the context deadline the service was given, and when and how waiting ended. */
  datatype Stop = Stop(service: Service, start: int, deadline: int, end: int, outcome: Outcome)

  function Min(a: int, b: int): int { if a <= b then a else b }

  function Max(a: int, b: int): int { if a <= b then b else a }

  function Deadline(s: Service, now: int, outer: Option<int>): int {
    if outer.Some? then Min(outer.value, now + StopBudget(s)) else now + StopBudget(s)
  }

  /** Waiting ends with the answer, or a grace after the deadline. */
  function StopOne(s: Service, b: Behaviour, now: int, outer: Option<int>): Stop {
    var deadline := Deadline(s, now, outer);
    var limit := Max(now, deadline) + SHUTDOWN_GRACE;
    if b.Returns? && (now + b.after < limit || (now + b.after == limit && b.wins))
    then Stop(s, now, deadline, now + b.after, b.outcome)
    else Stop(s, now, deadline, limit, DeadlineExceeded)
  }

  function BehaviourAt(bs: seq<Behaviour>, i: nat): Behaviour {
    if i < |bs| then bs[i] else Hangs
  }

  function Tail(bs: seq<Behaviour>): seq<Behaviour> {
    if bs == [] then [] else bs[1..]
  }

  /** The stops of `services` one after the other, the first at `now`. */
  function StopAll(services: seq<Service>, bs: seq<Behaviour>, now: int, outer: Option<int>): (stops: seq<Stop>)
    ensures |stops| == |services|
    decreases |services|
  {
    if services == [] then []
    else
      var first := StopOne(services[0], BehaviourAt(bs, 0), now, outer);
      [first] + StopAll(services[1..], Tail(bs), first.end, outer)
  }

  function EndOf(stops: seq<Stop>, now: int): int {
    if stops == [] then now else EndOf(stops[1..], stops[0].end)
  }

  function Reversed<T>(s: seq<T>): (r: seq<T>)
    ensures |r| == |s|
  {
    if s == [] then [] else [s[|s| - 1]] + Reversed(s[..|s| - 1])
  }

  /** The errors a Shutdown reports, in stop order: a deadline error is not a failed stop. */
  function RealErrors(stops: seq<Stop>): seq<string> {
    if stops == [] then []
    else (if stops[0].outcome.Failed? then [stops[0].outcome.error] else []) + RealErrors(stops[1..])
  }

  /** A service that came up, and the run context its Start was given. */
  datatype Running = Running(service: Service, ctx: nat)

  function Services(rs: seq<Running>): (services: seq<Service>)
    ensures |services| == |rs|
  {
    if rs == [] then [] else [rs[0].service] + Services(rs[1..])
  }

  /** The services whose Start returned no error. */
  function CameUp(services: seq<Service>, results: seq<Option<string>>, ctx: nat): seq<Running>
    requires |services| == |results|
  {
    if services == [] then []
    else
      var n := |services| - 1;
      CameUp(services[..n], results[..n], ctx) + if results[n].None? then [Running(services[n], ctx)] else []
  }

  function StartErrors(results: seq<Option<string>>): seq<string> {
    if results == [] then []
    else
      var last := results[|results| - 1];
      StartErrors(results[..|results| - 1]) + if last.Some? then [last.value] else []
  }

  /** What the services observe: a call of their Start with a run context, and what it returned; the
      cancellation of a run context; a call of their Shutdown at some time, with a deadline. */
  datatype Event =
    | StartCalled(running: Running, result: Option<string>)
    | Cancelled(ctx: nat)
    | StopCalled(running: Running, at: int, deadline: int)

  datatype State = State(started: seq<Running>, cancel: Option<nat>, contexts: nat, log: seq<Event>)

  const CREATED := State([], None, 0, [])

  function StartCalls(services: seq<Service>, results: seq<Option<string>>, ctx: nat): seq<Event>
    requires |services| == |results|
  {
    if services == [] then []
    else
      var n := |services| - 1;
      StartCalls(services[..n], results[..n], ctx) + [StartCalled(Running(services[n], ctx), results[n])]
  }

  function StopCalls(rs: seq<Running>, stops: seq<Stop>): (calls: seq<Event>)
    requires |rs| == |stops|
    ensures |calls| == |rs|
  {
    if rs == [] then []
    else [StopCalled(rs[0], stops[0].start, stops[0].deadline)] + StopCalls(rs[1..], stops[1..])
  }

  function StateStarted(s: State, services: seq<Service>, results: seq<Option<string>>): State
    requires |services| == |results|
  {
    State(s.started + CameUp(services, results, s.contexts), Some(s.contexts), s.contexts + 1,
          s.log + StartCalls(services, results, s.contexts))
  }

  /** The stops of the running services, the last one started first. */
  function StopsOf(rs: seq<Running>, bs: seq<Behaviour>, now: int, outer: Option<int>): (stops: seq<Stop>)
    ensures |stops| == |rs|
  {
    StopAll(Services(Reversed(rs)), bs, now, outer)
  }

  function Cancellation(cancel: Option<nat>): seq<Event> {
    if cancel.Some? then [Cancelled(cancel.value)] else []
  }

  function StateStopped(s: State, bs: seq<Behaviour>, now: int, outer: Option<int>): State {
    State([], None, s.contexts,
          s.log + Cancellation(s.cancel) + StopCalls(Reversed(s.started), StopsOf(s.started, bs, now, outer)))
  }

  /** `contexts` counts the run contexts derived so far. `log` is what the services observed: the
      three methods that call into a service or cancel a context are the ones that extend it. */
  class Supervisor {
    var started: seq<Running>
    var cancel: Option<nat>
    var contexts: nat
    ghost var log: seq<Event>

    ghost function Abs(): State
      reads this
    {
      State(started, cancel, contexts, log)
    }

    constructor ()
      ensures Abs() == CREATED
    {
      started, cancel, contexts, log := [], None, 0, [];
    }

    /** The service's own Start; `result` is what it returns. */
    method StartService(r: Running, result: Option<string>) returns (err: Option<string>)
      modifies this`log
      ensures err == result && log == old(log) + [StartCalled(r, result)]
    {
      log := log + [StartCalled(r, result)];
      err := result;
    }

    method CancelContext(ctx: nat)
      modifies this`log
      ensures log == old(log) + [Cancelled(ctx)]
    {
      log := log + [Cancelled(ctx)];
    }

    /** The service's own Shutdown, called with its deadline: when it answers, or never. */
    method CallShutdown(r: Running, b: Behaviour, now: int, deadline: int) returns (answered: Option<int>)
      modifies this`log
      ensures answered == if b.Returns? then Some(now + b.after) else None
      ensures log == old(log) + [StopCalled(r, now, deadline)]
    {
      log := log + [StopCalled(r, now, deadline)];
      answered := if b.Returns? then Some(now + b.after) else None;
    }

    /** The two selects of a bounded stop: the answer or the end of the context, then the answer or
        the end of the grace. */
    method ShutdownBounded(r: Running, b: Behaviour, now: int, outer: Option<int>) returns (stop: Stop)
      modifies this`log
      ensures stop == StopOne(r.service, b, now, outer)
      ensures log == old(log) + [StopCalled(r, stop.start, stop.deadline)]
    {
      var deadline := Deadline(r.service, now, outer);
      var done := CallShutdown(r, b, now, deadline);
      var ctxDone := Max(now, deadline);
      if done.Some? && done.value <= ctxDone {
        return Stop(r.service, now, deadline, done.value, b.outcome);
      }
      var graceOver := ctxDone + SHUTDOWN_GRACE;
      if done.Some? && (done.value < graceOver || (done.value == graceOver && b.wins)) {
        return Stop(r.service, now, deadline, done.value, b.outcome);
      }
      return Stop(r.service, now, deadline, graceOver, DeadlineExceeded);
    }

    /** `results[i]` is what the i-th service's Start returns. */
    method Start(services: seq<Service>, results: seq<Option<string>>) returns (errs: seq<string>)
      requires |services| == |results|
      modifies this
      ensures Abs() == StateStarted(old(Abs()), services, results)
      ensures errs == StartErrors(results)
    {
      var ctx := contexts;
      contexts := contexts + 1;
      cancel := Some(ctx);
      errs := [];
      EmptyConcat(started);
      EmptyConcat(log);
      for i := 0 to |services|
        invariant cancel == Some(ctx) && contexts == ctx + 1
        invariant started == old(started) + CameUp(services[..i], results[..i], ctx)
        invariant log == old(log) + StartCalls(services[..i], results[..i], ctx)
        invariant errs == StartErrors(results[..i])
      {
        StartedOneMore(services, results, i, ctx);
        Assoc(old(started), CameUp(services[..i], results[..i], ctx), [Running(services[i], ctx)]);
        Assoc(old(log), StartCalls(services[..i], results[..i], ctx), [StartCalled(Running(services[i], ctx), results[i])]);
        var err := StartService(Running(services[i], ctx), results[i]);
        if err.Some? {
          errs := errs + [err.value];
          continue;
        }
        started := started + [Running(services[i], ctx)];
      }
      assert services[..|services|] == services && results[..|results|] == results;
    }

    method Shutdown(bs: seq<Behaviour>, now: int, outer: Option<int>) returns (errs: seq<string>, end: int)
      modifies this
      ensures Abs() == StateStopped(old(Abs()), bs, now, outer)
      ensures errs == RealErrors(StopsOf(old(started), bs, now, outer))
      ensures end == EndOf(StopsOf(old(started), bs, now, outer), now)
    {
      var services, cancelRun := started, cancel;
      started, cancel := [], None;
      if cancelRun.Some? {
        CancelContext(cancelRun.value);
      }
      errs, end := [], now;
      var later := bs;
      var i := |services|;
      ghost var left := StopsOf(services, bs, now, outer);
      ghost var all := old(log) + Cancellation(old(cancel)) + StopCalls(Reversed(services), left);
      assert services[..i] == services;
      EmptyConcat(old(log));
      while i > 0
        invariant 0 <= i <= |services|
        invariant started == [] && cancel == None && contexts == old(contexts)
        invariant left == StopsOf(services[..i], later, end, outer)
        invariant log + StopCalls(Reversed(services[..i]), left) == all
        invariant errs + RealErrors(left) == RealErrors(StopsOf(services, bs, now, outer))
        invariant EndOf(left, end) == EndOf(StopsOf(services, bs, now, outer), now)
      {
        i := i - 1;
        StoppedOneMore(services, i, later, end, outer);
        FirstErrors(errs, left);
        Assoc(log, [StopCalled(services[i], left[0].start, left[0].deadline)],
              StopCalls(Reversed(services[..i]), left[1..]));
        var stop := ShutdownBounded(services[i], BehaviourAt(later, 0), end, outer);
        end, later := stop.end, Tail(later);
        left := left[1..];
        if stop.outcome.Failed? {
          errs := errs + [stop.outcome.error];
        }
      }
      EmptyConcat(errs);
      EmptyConcat(log);
    }
  }

  lemma FirstErrors(errs: seq<string>, stops: seq<Stop>)
    requires stops != []
    ensures errs + RealErrors(stops)
            == (if stops[0].outcome.Failed? then errs + [stops[0].outcome.error] else errs) + RealErrors(stops[1..])
  {
    var first := if stops[0].outcome.Failed? then [stops[0].outcome.error] else [];
    Assoc(errs, first, RealErrors(stops[1..]));
    assert errs + [] == errs;
  }

  lemma StartedOneMore(services: seq<Service>, results: seq<Option<string>>, i: nat, ctx: nat)
    requires |services| == |results| && i < |services|
    ensures CameUp(services[..i + 1], results[..i + 1], ctx)
            == CameUp(services[..i], results[..i], ctx) + if results[i].None? then [Running(services[i], ctx)] else []
    ensures StartCalls(services[..i + 1], results[..i + 1], ctx)
            == StartCalls(services[..i], results[..i], ctx) + [StartCalled(Running(services[i], ctx), results[i])]
    ensures StartErrors(results[..i + 1])
            == StartErrors(results[..i]) + if results[i].Some? then [results[i].value] else []
  {
    assert services[..i + 1][..i] == services[..i] && results[..i + 1][..i] == results[..i];
  }

  lemma StoppedOneMore(rs: seq<Running>, i: nat, bs: seq<Behaviour>, now: int, outer: Option<int>)
    requires i < |rs|
    ensures var first := StopOne(rs[i].service, BehaviourAt(bs, 0), now, outer);
            var all := StopsOf(rs[..i + 1], bs, now, outer);
            && all[0] == first
            && all[1..] == StopsOf(rs[..i], Tail(bs), first.end, outer)
            && StopCalls(Reversed(rs[..i + 1]), all)
               == [StopCalled(rs[i], first.start, first.deadline)] + StopCalls(Reversed(rs[..i]), all[1..])
  {
    var back := Reversed(rs[..i + 1]);
    assert rs[..i + 1][..i] == rs[..i];
    assert back[0] == rs[i] && back[1..] == Reversed(rs[..i]);
    assert Services(back)[1..] == Services(back[1..]);
  }

  // Which services are stopped, in which order, with which errors.

  lemma {:induction false} ReversedAt<T>(s: seq<T>, i: nat)
    requires i < |s|
    ensures Reversed(s)[i] == s[|s| - 1 - i]
    decreases |s|
  {
    if i > 0 {
      ReversedAt(s[..|s| - 1], i - 1);
    }
  }

  lemma {:induction false} StopCallAt(rs: seq<Running>, bs: seq<Behaviour>, now: int, outer: Option<int>, i: nat)
    requires i < |rs|
    ensures var stops := StopAll(Services(rs), bs, now, outer);
            && stops[i].service == rs[i].service
            && StopCalls(rs, stops)[i] == StopCalled(rs[i], stops[i].start, stops[i].deadline)
    decreases |rs|
  {
    var first := StopOne(rs[0].service, BehaviourAt(bs, 0), now, outer);
    assert Services(rs)[1..] == Services(rs[1..]);
    assert StopAll(Services(rs), bs, now, outer)[1..] == StopAll(Services(rs[1..]), Tail(bs), first.end, outer);
    if i > 0 {
      StopCallAt(rs[1..], Tail(bs), first.end, outer, i - 1);
    }
  }

  // What every stop is, in terms of the behaviours and the clock.

  /** The answer comes before the end of the grace, or with it and the select picks the answer. */
  predicate InTime(b: Behaviour, start: int, deadline: int) {
    var over := (if deadline < start then start else deadline) + 250_000_000;
    b.Returns? && (start + b.after < over || (start + b.after == over && b.wins))
  }

  /** Stop `i` begins when the one before it ended. Its deadline is its own budget from there, cut
      to the outer one. If its service answers in time, it ends then and with that answer;
      otherwise it ends when the grace is over, with a deadline error. */
  lemma {:induction false} StopIs(services: seq<Service>, bs: seq<Behaviour>, now: int, outer: Option<int>, i: nat)
    requires i < |services|
    ensures var stops := StopAll(services, bs, now, outer);
            var stop, b := stops[i], if i < |bs| then bs[i] else Hangs;
            var own := stop.start + StopBudget(services[i]);
            && stop.service == services[i]
            && stop.start == (if i == 0 then now else stops[i - 1].end)
            && stop.deadline == (if outer.Some? && outer.value < own then outer.value else own)
            && (InTime(b, stop.start, stop.deadline) ==> stop.end == stop.start + b.after && stop.outcome == b.outcome)
            && (!InTime(b, stop.start, stop.deadline) ==>
                  && stop.outcome.DeadlineExceeded?
                  && stop.end == (if stop.deadline < stop.start then stop.start else stop.deadline) + 250_000_000)
    decreases |services|
  {
    if i > 0 {
      var first := StopOne(services[0], BehaviourAt(bs, 0), now, outer);
      StopIs(services[1..], Tail(bs), first.end, outer, i - 1);
    }
  }

  lemma {:induction false} EndsLast(stops: seq<Stop>, now: int)
    ensures EndOf(stops, now) == if stops == [] then now else stops[|stops| - 1].end
    decreases |stops|
  {
    if |stops| > 1 {
      EndsLast(stops[1..], stops[0].end);
    }
  }

  function OutcomeError(o: Outcome): string {
    if o.Failed? then o.error else ""
  }

  /** The errors reported are those of the failed outcomes, in order. */
  lemma {:induction false} ErrorsKept(stops: seq<Stop>, errors: seq<string>, keep: seq<bool>)
    requires |errors| == |keep| == |stops|
    requires forall i :: 0 <= i < |stops| ==> keep[i] == stops[i].outcome.Failed?
    requires forall i :: 0 <= i < |stops| ==> errors[i] == OutcomeError(stops[i].outcome) || !keep[i]
    ensures RealErrors(stops) == Kept(errors, keep)
    decreases |stops|
  {
    if stops != [] {
      ErrorsKept(stops[1..], errors[1..], keep[1..]);
    }
  }

  /** What a behaviour says when it fails. */
  function ErrorOf(b: Behaviour): string {
    if b.Returns? && b.outcome.Failed? then b.outcome.error else ""
  }

  /** The errors of a Shutdown are exactly those of the services whose Shutdown fails in time, in
      stop order; a service that hangs, answers late or runs into its deadline adds none. */
  lemma ErrorsAreAnswers(services: seq<Service>, bs: seq<Behaviour>, now: int, outer: Option<int>) returns (keep: seq<bool>)
    ensures |keep| == |services|
    ensures forall i :: 0 <= i < |services| ==>
              var stop, b := StopAll(services, bs, now, outer)[i], if i < |bs| then bs[i] else Hangs;
              keep[i] <==> InTime(b, stop.start, stop.deadline) && b.outcome.Failed?
    ensures RealErrors(StopAll(services, bs, now, outer))
            == Kept(seq(|services|, i requires 0 <= i => if i < |bs| then ErrorOf(bs[i]) else ""), keep)
  {
    var stops := StopAll(services, bs, now, outer);
    var errors := seq(|services|, i requires 0 <= i => if i < |bs| then ErrorOf(bs[i]) else "");
    keep := seq(|services|, i requires 0 <= i < |stops| => stops[i].outcome.Failed?);
    forall i | 0 <= i < |services|
      ensures var b := if i < |bs| then bs[i] else Hangs;
              keep[i] <==> InTime(b, stops[i].start, stops[i].deadline) && b.outcome.Failed?
      ensures errors[i] == OutcomeError(stops[i].outcome) || !keep[i]
    {
      StopIs(services, bs, now, outer, i);
    }
    ErrorsKept(stops, errors, keep);
  }

  /** Start returns the errors its services returned, in start order, and keeps as running those
      that returned none, in the same order. */
  lemma {:induction false} StartKept(services: seq<Service>, results: seq<Option<string>>, ctx: nat,
                                     errors: seq<string>, failed: seq<bool>, up: seq<bool>)
    requires |services| == |results| == |errors| == |failed| == |up|
    requires forall i :: 0 <= i < |results| ==> failed[i] == results[i].Some? && up[i] == results[i].None?
    requires forall i :: 0 <= i < |results| && failed[i] ==> results[i].value == errors[i]
    ensures StartErrors(results) == Kept(errors, failed)
    ensures Services(CameUp(services, results, ctx)) == Kept(services, up)
    ensures forall i :: 0 <= i < |CameUp(services, results, ctx)| ==> CameUp(services, results, ctx)[i].ctx == ctx
    decreases |results|
  {
    if results != [] {
      var n := |results| - 1;
      StartKept(services[..n], results[..n], ctx, errors[..n], failed[..n], up[..n]);
      KeptLast(errors, failed);
      KeptLast(services, up);
      ServicesConcat(CameUp(services[..n], results[..n], ctx), if results[n].None? then [Running(services[n], ctx)] else []);
    }
  }

  /** A call of the supervisor. */
  datatype Call =
    | StartCall(services: seq<Service>, results: seq<Option<string>>)
    | ShutdownCall(bs: seq<Behaviour>, now: int, outer: Option<int>)

  predicate ValidCall(c: Call) {
    c.StartCall? ==> |c.services| == |c.results|
  }

  predicate ValidCalls(calls: seq<Call>) {
    forall i :: 0 <= i < |calls| ==> ValidCall(calls[i])
  }

  function Called(s: State, c: Call): State
    requires ValidCall(c)
  {
    match c
    case StartCall(services, results) => StateStarted(s, services, results)
    case ShutdownCall(bs, now, outer) => StateStopped(s, bs, now, outer)
  }

  /** Where any sequence of calls takes a new supervisor. */
  function After(calls: seq<Call>): State
    requires ValidCalls(calls)
  {
    if calls == [] then CREATED else Called(After(calls[..|calls| - 1]), calls[|calls| - 1])
  }

  lemma {:induction false} NothingLeft(calls: seq<Call>, more: seq<Call>)
    requires ValidCalls(calls) && After(calls).started == [] && After(calls).cancel.None?
    requires forall i :: 0 <= i < |more| ==> more[i].ShutdownCall?
    ensures ValidCalls(calls + more) && After(calls + more) == After(calls)
    decreases |more|
  {
    if more == [] {
      EmptyConcat(calls);
    } else {
      InitOfConcat(calls, more);
      NothingLeft(calls, more[..|more| - 1]);
      EmptyConcat(After(calls).log);
    }
  }

  /** Whatever started, and however often Shutdown is called, the services see: each Start called
      once, in order, whatever the others returned; the cancellation of the run context; then the
      Shutdown of each of those that came up, once, in reverse. */
  lemma OneRun(services: seq<Service>, results: seq<Option<string>>, call: Call, more: seq<Call>)
    requires |services| == |results| && call.ShutdownCall?
    requires forall i :: 0 <= i < |more| ==> more[i].ShutdownCall?
    ensures var up := CameUp(services, results, 0);
            var stops := StopsOf(up, call.bs, call.now, call.outer);
            var starting, stopping := StartCalls(services, results, 0), StopCalls(Reversed(up), stops);
            && After([StartCall(services, results), call] + more).log == starting + [Cancelled(0)] + stopping
            && |starting| == |services| && |stopping| == |up|
            && (forall i :: 0 <= i < |services| ==> starting[i] == StartCalled(Running(services[i], 0), results[i]))
            && (forall i :: 0 <= i < |up| ==> stopping[i] == StopCalled(up[|up| - 1 - i], stops[i].start, stops[i].deadline))
  {
    var first := StartCall(services, results);
    NewRun(first, call);
    NothingLeft([first, call], more);
    StartCallsAt(services, results, 0);
    ReverseOrder(CameUp(services, results, 0), call.bs, call.now, call.outer);
  }

  lemma ReverseOrder(up: seq<Running>, bs: seq<Behaviour>, now: int, outer: Option<int>)
    ensures var stops := StopsOf(up, bs, now, outer);
            forall i :: 0 <= i < |up| ==>
              StopCalls(Reversed(up), stops)[i] == StopCalled(up[|up| - 1 - i], stops[i].start, stops[i].deadline)
  {
    var stops := StopsOf(up, bs, now, outer);
    forall i | 0 <= i < |up|
      ensures StopCalls(Reversed(up), stops)[i] == StopCalled(up[|up| - 1 - i], stops[i].start, stops[i].deadline)
    {
      ReversedAt(up, i);
      StopCallAt(Reversed(up), bs, now, outer, i);
    }
  }

  lemma NewRun(first: Call, call: Call)
    requires ValidCall(first) && first.StartCall? && call.ShutdownCall?
    ensures ValidCalls([first, call])
    ensures var s, up := After([first, call]), CameUp(first.services, first.results, 0);
            && s.started == [] && s.cancel.None?
            && s.log == StartCalls(first.services, first.results, 0) + [Cancelled(0)]
                        + StopCalls(Reversed(up), StopsOf(up, call.bs, call.now, call.outer))
  {
    var up, calls := CameUp(first.services, first.results, 0), StartCalls(first.services, first.results, 0);
    assert [first, call][..1] == [first] && [first][..0] == [];
    EmptyConcat(up);
    EmptyConcat(calls);
    assert After([first]) == State(up, Some(0), 1, calls);
  }

  lemma {:induction false} StartCallsAt(services: seq<Service>, results: seq<Option<string>>, ctx: nat)
    requires |services| == |results|
    ensures |StartCalls(services, results, ctx)| == |services|
    ensures forall i :: 0 <= i < |services| ==>
              StartCalls(services, results, ctx)[i] == StartCalled(Running(services[i], ctx), results[i])
    decreases |services|
  {
    if services != [] {
      StartCallsAt(services[..|services| - 1], results[..|services| - 1], ctx);
    }
  }

  // Every call sequence: each started service is stopped once.

  /** The services that came up, and those asked to stop, in the order of the log. */
  function UpIn(log: seq<Event>): seq<Running> {
    if log == [] then []
    else
      var e := log[|log| - 1];
      UpIn(log[..|log| - 1]) + if e.StartCalled? && e.result.None? then [e.running] else []
  }

  function StoppedIn(log: seq<Event>): seq<Running> {
    if log == [] then []
    else
      var e := log[|log| - 1];
      StoppedIn(log[..|log| - 1]) + if e.StopCalled? then [e.running] else []
  }

  lemma {:induction false} InConcat(a: seq<Event>, b: seq<Event>)
    ensures UpIn(a + b) == UpIn(a) + UpIn(b)
    ensures StoppedIn(a + b) == StoppedIn(a) + StoppedIn(b)
    decreases |b|
  {
    if b == [] {
      EmptyConcat(a);
      EmptyConcat(UpIn(a));
      EmptyConcat(StoppedIn(a));
    } else {
      var init, e := b[..|b| - 1], b[|b| - 1];
      InitOfConcat(a, b);
      InConcat(a, init);
      Assoc(UpIn(a), UpIn(init), if e.StartCalled? && e.result.None? then [e.running] else []);
      Assoc(StoppedIn(a), StoppedIn(init), if e.StopCalled? then [e.running] else []);
    }
  }

  lemma {:induction false} InStarts(services: seq<Service>, results: seq<Option<string>>, ctx: nat)
    requires |services| == |results|
    ensures UpIn(StartCalls(services, results, ctx)) == CameUp(services, results, ctx)
    ensures StoppedIn(StartCalls(services, results, ctx)) == []
    decreases |services|
  {
    if services != [] {
      var n := |services| - 1;
      InStarts(services[..n], results[..n], ctx);
      SplitConcat(StartCalls(services[..n], results[..n], ctx), [StartCalled(Running(services[n], ctx), results[n])]);
    }
  }

  lemma {:induction false} InStops(rs: seq<Running>, stops: seq<Stop>)
    requires |rs| == |stops|
    ensures UpIn(StopCalls(rs, stops)) == [] && StoppedIn(StopCalls(rs, stops)) == rs
    decreases |rs|
  {
    if rs != [] {
      var first := [StopCalled(rs[0], stops[0].start, stops[0].deadline)];
      InStops(rs[1..], stops[1..]);
      InConcat(first, StopCalls(rs[1..], stops[1..]));
      assert first[..0] == [];
      assert UpIn(first) == [] && StoppedIn(first) == [rs[0]];
    }
  }

  lemma {:induction false} ReversedSame<T>(s: seq<T>)
    ensures multiset(Reversed(s)) == multiset(s)
    decreases |s|
  {
    if s != [] {
      ReversedSame(s[..|s| - 1]);
      assert s == s[..|s| - 1] + [s[|s| - 1]];
    }
  }

  lemma CancellationIsNeither(cancel: Option<nat>)
    ensures UpIn(Cancellation(cancel)) == [] && StoppedIn(Cancellation(cancel)) == []
  {
    if cancel.Some? {
      assert Cancellation(cancel)[..0] == [];
    }
  }

  /** The services that came up are those that were asked to stop and those still running. */
  ghost predicate Accounted(s: State) {
    multiset(UpIn(s.log)) == multiset(StoppedIn(s.log)) + multiset(s.started)
  }

  lemma StartAccounted(s: State, services: seq<Service>, results: seq<Option<string>>)
    requires Accounted(s) && |services| == |results|
    ensures Accounted(StateStarted(s, services, results))
  {
    InConcat(s.log, StartCalls(services, results, s.contexts));
    InStarts(services, results, s.contexts);
    EmptyConcat(StoppedIn(s.log));
  }

  lemma StopLogged(s: State, bs: seq<Behaviour>, now: int, outer: Option<int>)
    ensures UpIn(StateStopped(s, bs, now, outer).log) == UpIn(s.log)
    ensures StoppedIn(StateStopped(s, bs, now, outer).log) == StoppedIn(s.log) + Reversed(s.started)
  {
    var stops := StopsOf(s.started, bs, now, outer);
    InConcat(s.log + Cancellation(s.cancel), StopCalls(Reversed(s.started), stops));
    InConcat(s.log, Cancellation(s.cancel));
    CancellationIsNeither(s.cancel);
    InStops(Reversed(s.started), stops);
    EmptyConcat(UpIn(s.log));
    EmptyConcat(StoppedIn(s.log));
  }

  lemma StopAccounted(s: State, bs: seq<Behaviour>, now: int, outer: Option<int>)
    requires Accounted(s)
    ensures Accounted(StateStopped(s, bs, now, outer))
  {
    StopLogged(s, bs, now, outer);
    ReversedSame(s.started);
  }

  /** Over any sequence of Start and Shutdown calls, no service is stopped twice or forgotten; after
      a Shutdown those asked to stop are exactly those that came up. */
  lemma {:induction false} EachStoppedOnce(calls: seq<Call>)
    requires ValidCalls(calls)
    ensures Accounted(After(calls))
    ensures calls != [] && calls[|calls| - 1].ShutdownCall? ==>
              multiset(UpIn(After(calls).log)) == multiset(StoppedIn(After(calls).log))
    decreases |calls|
  {
    if calls != [] {
      var init := calls[..|calls| - 1];
      EachStoppedOnce(init);
      match calls[|calls| - 1] {
        case StartCall(services, results) =>
          StartAccounted(After(init), services, results);
        case ShutdownCall(bs, now, outer) =>
          StopAccounted(After(init), bs, now, outer);
      }
    }
  }

  // Every call sequence: cancellation first.

  /** Every service asked to stop has seen its own run context cancelled before. */
  ghost predicate CancelledFirst(log: seq<Event>) {
    forall i :: 0 <= i < |log| && log[i].StopCalled? ==> Cancelled(log[i].running.ctx) in log[..i]
  }

  /** Some service has come up since the last Shutdown. */
  predicate SomeUp(calls: seq<Call>)
    requires ValidCalls(calls)
  {
    && calls != [] && calls[|calls| - 1].StartCall?
    && var c := calls[|calls| - 1];
       CameUp(c.services, c.results, 0) != [] || SomeUp(calls[..|calls| - 1])
  }

  /** A Start has replaced the run context of services that came up since the last Shutdown. */
  predicate Replaced(calls: seq<Call>)
    requires ValidCalls(calls)
  {
    && calls != [] && calls[|calls| - 1].StartCall?
    && (SomeUp(calls[..|calls| - 1]) || Replaced(calls[..|calls| - 1]))
  }

  /** No Shutdown comes after a Start that replaced the context of running services. */
  ghost predicate OneStartPerRun(calls: seq<Call>)
    requires ValidCalls(calls)
  {
    forall k :: 0 <= k < |calls| && calls[k].ShutdownCall? ==> !Replaced(calls[..k])
  }

  lemma {:induction false} CameUpUnder(services: seq<Service>, results: seq<Option<string>>, ctx: nat)
    requires |services| == |results|
    ensures forall i :: 0 <= i < |CameUp(services, results, ctx)| ==> CameUp(services, results, ctx)[i].ctx == ctx
    ensures CameUp(services, results, ctx) == [] <==> CameUp(services, results, 0) == []
    decreases |services|
  {
    if services != [] {
      CameUpUnder(services[..|services| - 1], results[..|services| - 1], ctx);
    }
  }

  /** Contexts are numbered in order, and one that may still be cancelled has not been. */
  ghost predicate ContextsInv(s: State) {
    && (s.cancel.Some? ==> s.cancel.value < s.contexts && Cancelled(s.cancel.value) !in s.log)
    && (s.started != [] ==> s.cancel.Some?)
    && (forall i :: 0 <= i < |s.started| ==> s.started[i].ctx < s.contexts && Cancelled(s.started[i].ctx) !in s.log)
    && (forall i :: 0 <= i < |s.log| && s.log[i].Cancelled? ==> s.log[i].ctx < s.contexts)
  }

  /** Some running service has a context that the next Shutdown does not cancel. */
  ghost predicate Orphaned(s: State) {
    exists i :: 0 <= i < |s.started| && s.cancel != Some(s.started[i].ctx)
  }

  lemma NotCancelledBy(log: seq<Event>, calls: seq<Event>, ctx: nat)
    requires Cancelled(ctx) !in log && forall i :: 0 <= i < |calls| ==> !calls[i].Cancelled?
    ensures Cancelled(ctx) !in log + calls
  {
    assert forall i :: 0 <= i < |calls| ==> calls[i] != Cancelled(ctx);
  }

  lemma StartKeeps(s: State, services: seq<Service>, results: seq<Option<string>>)
    requires ContextsInv(s) && |services| == |results|
    ensures ContextsInv(StateStarted(s, services, results))
    ensures Orphaned(StateStarted(s, services, results)) <==> s.started != []
  {
    var up, t := CameUp(services, results, s.contexts), StateStarted(s, services, results);
    var calls := StartCalls(services, results, s.contexts);
    CameUpUnder(services, results, s.contexts);
    StartCallsAt(services, results, s.contexts);
    assert forall i :: 0 <= i < |calls| ==> !calls[i].Cancelled?;
    assert Cancelled(s.contexts) !in s.log;
    NotCancelledBy(s.log, calls, s.contexts);
    forall i | 0 <= i < |t.started|
      ensures t.started[i].ctx < t.contexts && Cancelled(t.started[i].ctx) !in t.log
    {
      if i < |s.started| {
        assert t.started[i] == s.started[i];
        NotCancelledBy(s.log, calls, s.started[i].ctx);
      } else {
        assert t.started[i] == up[i - |s.started|];
      }
    }
    if s.started != [] {
      assert t.started[0] == s.started[0];
    }
  }

  lemma {:induction false} StopCallsAre(rs: seq<Running>, stops: seq<Stop>)
    requires |rs| == |stops|
    ensures forall i :: 0 <= i < |rs| ==> StopCalls(rs, stops)[i].StopCalled? && StopCalls(rs, stops)[i].running == rs[i]
    decreases |rs|
  {
    if rs != [] {
      StopCallsAre(rs[1..], stops[1..]);
    }
  }

  lemma StopKeeps(s: State, bs: seq<Behaviour>, now: int, outer: Option<int>)
    requires ContextsInv(s)
    ensures ContextsInv(StateStopped(s, bs, now, outer))
  {
    StopCallsAre(Reversed(s.started), StopsOf(s.started, bs, now, outer));
  }

  /** A Shutdown stops every service after its own cancellation exactly when none is orphaned. */
  lemma StopsAfterCancel(s: State, bs: seq<Behaviour>, now: int, outer: Option<int>)
    requires ContextsInv(s)
    ensures CancelledFirst(StateStopped(s, bs, now, outer).log) <==> CancelledFirst(s.log) && !Orphaned(s)
  {
    var rs, stops := Reversed(s.started), StopsOf(s.started, bs, now, outer);
    StopCallsAre(rs, stops);
    ReversedForall(s.started, (r: Running) => Cancelled(r.ctx) !in s.log);
    ReversedForall(s.started, (r: Running) => s.cancel == Some(r.ctx));
    StopsExtend(s.log, s.cancel, rs, StopCalls(rs, stops));
  }

  ghost predicate All<T>(s: seq<T>, p: T -> bool) {
    forall i :: 0 <= i < |s| ==> p(s[i])
  }

  lemma {:induction false} ReversedForall<T>(s: seq<T>, p: T -> bool)
    ensures All(s, p) <==> All(Reversed(s), p)
    decreases |s|
  {
    if s != [] {
      var init, last := s[..|s| - 1], s[|s| - 1];
      ReversedForall(init, p);
      assert s == init + [last];
      AllConcat(init, [last], p);
      AllConcat([last], Reversed(init), p);
    }
  }

  lemma AllConcat<T>(a: seq<T>, b: seq<T>, p: T -> bool)
    ensures All(a + b, p) <==> All(a, p) && All(b, p)
  {
    assert forall i :: 0 <= i < |a| ==> (a + b)[i] == a[i];
    assert forall i :: 0 <= i < |b| ==> (a + b)[|a| + i] == b[i];
  }

  lemma StopsExtend(log: seq<Event>, cancel: Option<nat>, rs: seq<Running>, stops: seq<Event>)
    requires |rs| == |stops| && forall i :: 0 <= i < |rs| ==> stops[i].StopCalled? && stops[i].running == rs[i]
    requires forall i :: 0 <= i < |rs| ==> Cancelled(rs[i].ctx) !in log
    ensures CancelledFirst(log + Cancellation(cancel) + stops) <==>
            CancelledFirst(log) && forall i :: 0 <= i < |rs| ==> cancel == Some(rs[i].ctx)
  {
    var head := log + Cancellation(cancel);
    var all := head + stops;
    assert forall i :: 0 <= i <= |log| ==> all[..i] == log[..i];
    forall i | 0 <= i < |rs|
      ensures Cancelled(rs[i].ctx) in all[..|head| + i] <==> cancel == Some(rs[i].ctx)
    {
      assert all[..|head| + i] == head + stops[..i];
    }
    assert forall i :: 0 <= i < |log| ==> all[i] == log[i];
    assert forall i :: 0 <= i < |rs| ==> all[|head| + i] == stops[i];
    if CancelledFirst(all) {
      forall i | 0 <= i < |rs|
        ensures cancel == Some(rs[i].ctx)
      {
        assert all[|head| + i].StopCalled?;
      }
    }
  }

  lemma {:induction false} AfterContexts(calls: seq<Call>)
    requires ValidCalls(calls)
    ensures ContextsInv(After(calls))
    ensures After(calls).started != [] <==> SomeUp(calls)
    ensures Orphaned(After(calls)) <==> Replaced(calls)
    decreases |calls|
  {
    if calls != [] {
      var init, c := calls[..|calls| - 1], calls[|calls| - 1];
      AfterContexts(init);
      match c {
        case StartCall(services, results) =>
          StartKeeps(After(init), services, results);
          CameUpUnder(services, results, After(init).contexts);
          ReplacedHasUp(init);
        case ShutdownCall(bs, now, outer) =>
          StopKeeps(After(init), bs, now, outer);
      }
    }
  }

  lemma {:induction false} ReplacedHasUp(calls: seq<Call>)
    requires ValidCalls(calls)
    ensures Replaced(calls) ==> SomeUp(calls)
    decreases |calls|
  {
    if calls != [] {
      ReplacedHasUp(calls[..|calls| - 1]);
    }
  }

  lemma StartsStopNobody(log: seq<Event>, services: seq<Service>, results: seq<Option<string>>, ctx: nat)
    requires |services| == |results|
    ensures CancelledFirst(log + StartCalls(services, results, ctx)) <==> CancelledFirst(log)
  {
    var all := log + StartCalls(services, results, ctx);
    StartCallsAt(services, results, ctx);
    assert forall i :: 0 <= i < |log| ==> all[i] == log[i] && all[..i] == log[..i];
    assert forall i :: |log| <= i < |all| ==> !all[i].StopCalled?;
  }

  lemma OneMoreCall(calls: seq<Call>)
    requires ValidCalls(calls) && calls != []
    ensures var init, c := calls[..|calls| - 1], calls[|calls| - 1];
            OneStartPerRun(calls) <==> OneStartPerRun(init) && (c.ShutdownCall? ==> !Replaced(init))
  {
    var n := |calls| - 1;
    assert forall k :: 0 <= k <= n ==> calls[..n][..k] == calls[..k];
    if OneStartPerRun(calls) {
      forall k | 0 <= k < n && calls[..n][k].ShutdownCall?
        ensures !Replaced(calls[..n][..k])
      {
        assert calls[k].ShutdownCall?;
      }
    }
  }

  /** Over any sequence of Start and Shutdown calls, every service is stopped after its own run
      context was cancelled exactly when no Shutdown follows two Starts of which the first brought a
      service up: the second one replaces the function that cancels the first one's context. */
  lemma {:induction false} CancelledFirstIff(calls: seq<Call>)
    requires ValidCalls(calls)
    ensures CancelledFirst(After(calls).log) <==> OneStartPerRun(calls)
    decreases |calls|
  {
    if calls != [] {
      var init, c := calls[..|calls| - 1], calls[|calls| - 1];
      CancelledFirstIff(init);
      AfterContexts(init);
      OneMoreCall(calls);
      match c {
        case StartCall(services, results) =>
          StartsStopNobody(After(init).log, services, results, After(init).contexts);
        case ShutdownCall(bs, now, outer) =>
          StopsAfterCancel(After(init), bs, now, outer);
      }
    }
  }

  function FailedCount(stops: seq<Stop>): nat {
    if stops == [] then 0 else (if stops[0].outcome.Failed? then 1 else 0) + FailedCount(stops[1..])
  }

  /** The reported errors are those of the stops that failed otherwise than on a deadline, one
      each, in stop order. */
  lemma {:induction false} ErrorsInStopOrder(stops: seq<Stop>, i: nat)
    requires i < |stops|
    ensures |RealErrors(stops)| == FailedCount(stops)
    ensures stops[i].outcome.Failed? ==>
              && FailedCount(stops[..i]) < |RealErrors(stops)|
              && RealErrors(stops)[FailedCount(stops[..i])] == stops[i].outcome.error
    decreases |stops|
  {
    if |stops| > 1 {
      ErrorsInStopOrder(stops[1..], if i > 0 then i - 1 else 0);
      assert i > 0 ==> stops[..i][1..] == stops[1..][..i - 1];
    }
  }

  // How long it takes.

  lemma {:induction false} TotalCons(services: seq<Service>)
    requires services != []
    ensures TotalBudget(services) == StopBudget(services[0]) + TotalBudget(services[1..])
    decreases |services|
  {
    var n := |services| - 1;
    if n > 0 {
      TotalCons(services[..n]);
      assert services[..n][1..] == services[1..][..n - 1];
    }
  }

  lemma StopOneBounds(s: Service, b: Behaviour, now: int, outer: Option<int>)
    ensures var e := StopOne(s, b, now, outer).end;
            && now <= e <= now + StopBudget(s) + SHUTDOWN_GRACE
            && (outer.Some? ==> e <= Max(now, outer.value) + SHUTDOWN_GRACE)
            && (b.Returns? && b.after <= StopBudget(s) ==> e <= now + StopBudget(s))
  {
  }

  lemma EndOfCons(first: Stop, rest: seq<Stop>, now: int)
    ensures EndOf([first] + rest, now) == EndOf(rest, first.end)
  {
  }

  /** Shutdown takes at most the time left to the outer deadline, and at most the budgets, plus a
      grace per service, whatever the services do. */
  lemma {:induction false} ElapsedBounded(services: seq<Service>, bs: seq<Behaviour>, now: int, outer: Option<int>)
    ensures var elapsed := EndOf(StopAll(services, bs, now, outer), now) - now;
            && 0 <= elapsed <= TotalBudget(services) + |services| * SHUTDOWN_GRACE
            && (outer.Some? ==> elapsed <= Max(0, outer.value - now) + |services| * SHUTDOWN_GRACE)
    decreases |services|
  {
    if services != [] {
      var first := StopOne(services[0], BehaviourAt(bs, 0), now, outer);
      StopOneBounds(services[0], BehaviourAt(bs, 0), now, outer);
      TotalCons(services);
      ElapsedBounded(services[1..], Tail(bs), first.end, outer);
      EndOfCons(first, StopAll(services[1..], Tail(bs), first.end, outer), now);
    }
  }

  // Who gets a full budget.

  /** Every stop was given its service's whole budget. */
  ghost predicate FullAllowance(stops: seq<Stop>) {
    forall i :: 0 <= i < |stops| ==> stops[i].deadline == stops[i].start + StopBudget(stops[i].service)
  }

  ghost predicate WithinBudgets(services: seq<Service>, bs: seq<Behaviour>) {
    |bs| == |services| && forall i :: 0 <= i < |bs| ==> bs[i].Returns? && bs[i].after <= StopBudget(services[i])
  }

  lemma FullCons(first: Stop, rest: seq<Stop>)
    ensures FullAllowance([first] + rest) <==>
            first.deadline == first.start + StopBudget(first.service) && FullAllowance(rest)
  {
    var all := [first] + rest;
    if FullAllowance(all) {
      assert all[0] == first;
      assert forall i :: 0 <= i < |rest| ==> rest[i] == all[i + 1];
    }
  }

  /** Services that keep to their budgets leave each other the whole of them, when the outer
      deadline allows for all. */
  lemma {:induction false} NoStarvation(services: seq<Service>, bs: seq<Behaviour>, now: int, outer: int)
    requires WithinBudgets(services, bs) && now + TotalBudget(services) <= outer
    ensures FullAllowance(StopAll(services, bs, now, Some(outer)))
    decreases |services|
  {
    if services != [] {
      var first := StopOne(services[0], bs[0], now, Some(outer));
      StopOneBounds(services[0], bs[0], now, Some(outer));
      TotalCons(services);
      NoStarvation(services[1..], bs[1..], first.end, outer);
      FullCons(first, StopAll(services[1..], bs[1..], first.end, Some(outer)));
    }
  }

  lemma {:induction false} ServicesConcat(a: seq<Running>, b: seq<Running>)
    ensures Services(a + b) == Services(a) + Services(b)
    decreases |a|
  {
    if a == [] {
      EmptyConcat(b);
      EmptyConcat(Services(b));
    } else {
      TailOfConcat(a, b);
      ServicesConcat(a[1..], b);
      Assoc([a[0].service], Services(a[1..]), Services(b));
    }
  }

  lemma {:induction false} CameUpBudget(services: seq<Service>, results: seq<Option<string>>, ctx: nat)
    requires |services| == |results|
    ensures TotalBudget(Services(CameUp(services, results, ctx))) <= TotalBudget(services)
    decreases |services|
  {
    if services != [] {
      var n := |services| - 1;
      var before, last := CameUp(services[..n], results[..n], ctx), [Running(services[n], ctx)];
      CameUpBudget(services[..n], results[..n], ctx);
      ServicesConcat(before, last);
      assert Services(last) == [services[n]];
      SplitConcat(Services(before), [services[n]]);
      EmptyConcat(before);
    }
  }

  lemma {:induction false} TotalConcat(a: seq<Service>, b: seq<Service>)
    ensures TotalBudget(a + b) == TotalBudget(a) + TotalBudget(b)
    decreases |b|
  {
    if b == [] {
      assert a + b == a;
    } else {
      InitOfConcat(a, b);
      TotalConcat(a, b[..|b| - 1]);
    }
  }

  lemma {:induction false} ReversedBudget(rs: seq<Running>)
    ensures TotalBudget(Services(Reversed(rs))) == TotalBudget(Services(rs))
    decreases |rs|
  {
    if rs != [] {
      var n := |rs| - 1;
      var init, last := rs[..n], [rs[n]];
      ReversedBudget(init);
      ServicesConcat(last, Reversed(init));
      ServicesConcat(init, last);
      assert rs == init + last;
      TotalConcat(Services(last), Services(Reversed(init)));
      TotalConcat(Services(init), Services(last));
    }
  }

  /** An outer deadline sized by the total budget of the configured services is enough for any
      subset of them that came up, if each keeps to its budget. */
  lemma ConfiguredTotalSuffices(services: seq<Service>, results: seq<Option<string>>, ctx: nat,
                                bs: seq<Behaviour>, now: int, outer: int)
    requires |services| == |results| && now + TotalBudget(services) <= outer
    requires WithinBudgets(Services(Reversed(CameUp(services, results, ctx))), bs)
    ensures FullAllowance(StopsOf(CameUp(services, results, ctx), bs, now, Some(outer)))
  {
    var up := CameUp(services, results, ctx);
    CameUpBudget(services, results, ctx);
    ReversedBudget(up);
    NoStarvation(Services(Reversed(up)), bs, now, outer);
  }

  lemma {:induction false} SlackSuffices(services: seq<Service>, bs: seq<Behaviour>, now: int, outer: int)
    requires services != [] && now + TotalBudget(services) + (|services| - 1) * SHUTDOWN_GRACE <= outer
    ensures FullAllowance(StopAll(services, bs, now, Some(outer)))
    decreases |services|
  {
    var first := StopOne(services[0], BehaviourAt(bs, 0), now, Some(outer));
    StopOneBounds(services[0], BehaviourAt(bs, 0), now, Some(outer));
    TotalCons(services);
    if |services| > 1 {
      SlackSuffices(services[1..], Tail(bs), first.end, outer);
    }
    FullCons(first, StopAll(services[1..], Tail(bs), first.end, Some(outer)));
  }

  lemma {:induction false} HangingStarves(services: seq<Service>, now: int, outer: int)
    requires services != [] && now + TotalBudget(services) + (|services| - 1) * SHUTDOWN_GRACE > outer
    ensures !FullAllowance(StopAll(services, [], now, Some(outer)))
    decreases |services|
  {
    var first := StopOne(services[0], Hangs, now, Some(outer));
    TotalCons(services);
    FullCons(first, StopAll(services[1..], [], first.end, Some(outer)));
    if |services| > 1 && first.deadline == now + StopBudget(services[0]) {
      HangingStarves(services[1..], first.end, outer);
    }
  }

  /** Services that overrun take from the later ones: every service is sure of its whole budget,
      whatever the others do, exactly when the outer deadline also covers a grace for each of the
      services stopped before the last. */
  lemma FullAllowanceIff(services: seq<Service>, now: int, outer: int)
    requires services != []
    ensures (forall bs: seq<Behaviour> :: FullAllowance(StopAll(services, bs, now, Some(outer))))
            <==> now + TotalBudget(services) + (|services| - 1) * SHUTDOWN_GRACE <= outer
  {
    if now + TotalBudget(services) + (|services| - 1) * SHUTDOWN_GRACE <= outer {
      forall bs: seq<Behaviour>
        ensures FullAllowance(StopAll(services, bs, now, Some(outer)))
      {
        SlackSuffices(services, bs, now, outer);
      }
    } else {
      HangingStarves(services, now, outer);
    }
  }
}
