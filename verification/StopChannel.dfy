/**
 The channel a stop signal is adapted to: closed by the context's callback or by the release
 function, whichever commits first. A Go channel closed twice panics.
 */
module StopChannel {
  /** What became of the callback registered with context.AfterFunc. `stop` returns true at most
      once, and only when it prevented the callback. */
  datatype Callback = Pending | Dispatched | Prevented

  /** `owed` counts the closers that are committed and have not closed yet: the callback runs in
      its own goroutine, so it closes some time after it is dispatched. */
  datatype State = State(ctxDone: bool, callback: Callback, released: bool, owed: nat, closes: nat)

  datatype Action = Cancel | Dispatch | Release | Close

  const CREATED := State(false, Pending, false, 0, 0)

  /** One atomic step; an action that is not enabled leaves the state alone. */
  function Step(s: State, a: Action): State {
    match a
    case Cancel => s.(ctxDone := true)
    case Dispatch =>
      if s.ctxDone && s.callback.Pending? then s.(callback := Dispatched, owed := s.owed + 1) else s
    case Release =>
      if s.callback.Pending? then s.(callback := Prevented, released := true, owed := s.owed + 1)
      else s.(released := true)
    case Close =>
      if s.owed > 0 then s.(owed := s.owed - 1, closes := s.closes + 1) else s
  }

  function Run(actions: seq<Action>): State {
    if actions == [] then CREATED else Step(Run(actions[..|actions| - 1]), actions[|actions| - 1])
  }

  ghost predicate Inv(s: State) {
    && s.owed + s.closes == (if s.callback.Pending? then 0 else 1)
    && (s.released ==> !s.callback.Pending?)
    && (s.callback.Dispatched? ==> s.ctxDone)
    && (s.callback.Prevented? ==> s.released)
  }

  lemma StepInv(s: State, a: Action)
    requires Inv(s)
    ensures Inv(Step(s, a))
    ensures Step(s, a).ctxDone <==> s.ctxDone || a == Cancel
    ensures Step(s, a).released <==> s.released || a == Release
  {
  }

  lemma {:induction false} RunInv(actions: seq<Action>)
    ensures Inv(Run(actions))
    decreases |actions|
  {
    if actions != [] {
      var before, last := actions[..|actions| - 1], actions[|actions| - 1];
      RunInv(before);
      StepInv(Run(before), last);
    }
  }

  /** Nothing more can happen without a new cancellation or release. */
  predicate Settled(s: State) {
    Step(s, Dispatch) == s && Step(s, Close) == s
  }

  /** In every interleaving the channel is closed at most once, and only after one of the two
      events; a release leaves exactly one closer committed; and once either event has occurred
      and the goroutines have run, it is closed exactly once. */
  lemma ClosedExactlyOnce(actions: seq<Action>)
    ensures var s := Run(actions);
            && s.closes <= s.closes + s.owed <= 1
            && (!s.ctxDone && !s.released ==> s.closes == s.owed == 0)
            && (s.released ==> s.closes + s.owed == 1)
            && (Settled(s) ==> (s.closes == 1 <==> s.ctxDone || s.released))
  {
    RunInv(actions);
  }
}
