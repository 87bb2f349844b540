/**
 The failure backoff of the scheduler's tick loop: after `maxRetries` consecutive failures it
 skips ticks, doubling the width up to a cap, and never stops attempting.
 */
module Backoff {
  import opened Seqs

  const MAX_BACKOFF_TICKS := 8

  /** What one delivered tick did. */
  datatype Event = Skipped | Attempted(ok: bool)

  function Pow2(n: nat): (p: nat)
    ensures p > n
  {
    if n == 0 then 1 else 2 * Pow2(n - 1)
  }

  /** Ticks skipped after `failures` consecutive failures. */
  function Width(maxRetries: int, failures: nat): nat {
    if maxRetries <= 0 || failures < maxRetries then 0
    else if Pow2(failures - maxRetries + 1) - 1 <= MAX_BACKOFF_TICKS then Pow2(failures - maxRetries + 1) - 1
    else MAX_BACKOFF_TICKS
  }

  /** How many attempts have failed since the last one that succeeded. */
  function Failures(trace: seq<Event>): nat {
    if trace == [] then 0
    else
      var before := trace[..|trace| - 1];
      match trace[|trace| - 1]
      case Skipped => Failures(before)
      case Attempted(ok) => if ok then 0 else Failures(before) + 1
  }

  /** How many ticks have been skipped since the last attempt. */
  function Waited(trace: seq<Event>): nat {
    if trace == [] || trace[|trace| - 1].Attempted? then 0 else Waited(trace[..|trace| - 1]) + 1
  }

  function Attempts(trace: seq<Event>): nat {
    if trace == [] then 0
    else Attempts(trace[..|trace| - 1]) + if trace[|trace| - 1].Attempted? then 1 else 0
  }

  /** Each tick attempts exactly when the current width has been waited out. */
  ghost predicate Follows(maxRetries: int, trace: seq<Event>) {
    forall i :: 0 <= i < |trace| ==>
      (trace[i].Attempted? <==> Waited(trace[..i]) == Width(maxRetries, Failures(trace[..i])))
  }

  /** The tick loop. `outcomes[i]` is what Execute returns if tick `i` calls it. */
  method TickLoop(maxRetries: int, outcomes: seq<bool>)
      returns (trace: seq<Event>, errorCount: nat, backoffTicks: nat, skipRemaining: nat)
    ensures |trace| == |outcomes|
    ensures forall i :: 0 <= i < |trace| && trace[i].Attempted? ==> trace[i].ok == outcomes[i]
    ensures Follows(maxRetries, trace)
    ensures errorCount == Failures(trace)
    ensures backoffTicks == Width(maxRetries, errorCount)
    ensures skipRemaining == backoffTicks - Waited(trace)
  {
    hide Width;
    errorCount, backoffTicks, skipRemaining := 0, 0, 0;
    trace := [];
    NoWidth(maxRetries);
    for i := 0 to |outcomes|
      invariant |trace| == i
      invariant forall j :: 0 <= j < i && trace[j].Attempted? ==> trace[j].ok == outcomes[j]
      invariant Follows(maxRetries, trace)
      invariant errorCount == Failures(trace)
      invariant backoffTicks == Width(maxRetries, errorCount)
      invariant skipRemaining == backoffTicks - Waited(trace)
    {
      ghost var before := trace;
      if skipRemaining > 0 {
        skipRemaining := skipRemaining - 1;
        trace := trace + [Skipped];
        Extends(maxRetries, before, Skipped);
        continue;
      }
      trace := trace + [Attempted(outcomes[i])];
      Extends(maxRetries, before, Attempted(outcomes[i]));
      if !outcomes[i] {
        WidthNext(maxRetries, errorCount);
        errorCount := errorCount + 1;
        if maxRetries > 0 && errorCount >= maxRetries {
          if backoffTicks < MAX_BACKOFF_TICKS {
            backoffTicks := backoffTicks * 2 + 1;
            if backoffTicks > MAX_BACKOFF_TICKS {
              backoffTicks := MAX_BACKOFF_TICKS;
            }
          }
          skipRemaining := backoffTicks;
        }
      } else {
        NoWidth(maxRetries);
        errorCount, backoffTicks, skipRemaining := 0, 0, 0;
      }
    }
  }

  lemma NoWidth(maxRetries: int)
    ensures Width(maxRetries, 0) == 0
  {
  }

  /** How one more failure widens the backoff. */
  lemma WidthNext(maxRetries: int, failures: nat)
    ensures !(maxRetries > 0 && failures + 1 >= maxRetries) ==> Width(maxRetries, failures) == Width(maxRetries, failures + 1) == 0
    ensures maxRetries > 0 && failures + 1 >= maxRetries ==>
              var w := Width(maxRetries, failures);
              Width(maxRetries, failures + 1)
              == if w < MAX_BACKOFF_TICKS then (if 2 * w + 1 > MAX_BACKOFF_TICKS then MAX_BACKOFF_TICKS else 2 * w + 1) else w
  {
  }

  /** One more tick, if it follows the rule. */
  lemma Extends(maxRetries: int, trace: seq<Event>, e: Event)
    requires Follows(maxRetries, trace)
    requires e.Attempted? <==> Waited(trace) == Width(maxRetries, Failures(trace))
    ensures Follows(maxRetries, trace + [e])
    ensures (trace + [e])[..|trace|] == trace
  {
    hide Width, Failures, Waited;
    forall i | 0 <= i <= |trace|
      ensures (trace + [e])[..i] == trace[..i]
    {
    }
    assert trace[..|trace|] == trace;
  }

  /** Every prefix of a trace has waited at most the width its failures call for. */
  lemma {:induction false} WaitedWithinWidth(maxRetries: int, trace: seq<Event>)
    requires Follows(maxRetries, trace)
    ensures Waited(trace) <= Width(maxRetries, Failures(trace)) <= MAX_BACKOFF_TICKS
    decreases |trace|
  {
    if trace != [] {
      var before := trace[..|trace| - 1];
      PrefixFollows(maxRetries, trace, |trace| - 1);
      WaitedWithinWidth(maxRetries, before);
    }
  }

  lemma PrefixFollows(maxRetries: int, trace: seq<Event>, n: nat)
    requires Follows(maxRetries, trace) && n <= |trace|
    ensures Follows(maxRetries, trace[..n])
  {
    forall i | 0 <= i < n
      ensures trace[..n][..i] == trace[..i]
    {
    }
  }

  /** Skipped ticks at the end of a trace are all waited. */
  lemma {:induction false} SkipsAreWaited(trace: seq<Event>, from: nat)
    requires from <= |trace|
    requires forall j :: from <= j < |trace| ==> trace[j].Skipped?
    ensures Waited(trace) >= |trace| - from
    ensures Waited(trace) == Waited(trace[..from]) + (|trace| - from)
    ensures Failures(trace) == Failures(trace[..from])
    decreases |trace|
  {
    if from == |trace| {
      assert trace[..from] == trace;
    } else {
      var before := trace[..|trace| - 1];
      SkipsAreWaited(before, from);
      assert before[..from] == trace[..from];
    }
  }

  /** The scheduler never dies: any nine consecutive ticks contain an attempt. */
  lemma NineTicksAttempt(maxRetries: int, trace: seq<Event>, from: nat)
    requires Follows(maxRetries, trace) && from + MAX_BACKOFF_TICKS + 1 <= |trace|
    ensures exists j :: from <= j <= from + MAX_BACKOFF_TICKS && trace[j].Attempted?
  {
    if forall j :: from <= j <= from + MAX_BACKOFF_TICKS ==> trace[j].Skipped? {
      var window := trace[..from + MAX_BACKOFF_TICKS + 1];
      PrefixFollows(maxRetries, trace, |window|);
      SkipsAreWaited(window, from);
      WaitedWithinWidth(maxRetries, window);
    }
  }

  lemma {:induction false} AttemptsConcat(a: seq<Event>, b: seq<Event>)
    ensures Attempts(a + b) == Attempts(a) + Attempts(b)
    decreases |b|
  {
    if b == [] {
      assert a + b == a;
    } else {
      InitOfConcat(a, b);
      AttemptsConcat(a, b[..|b| - 1]);
    }
  }

  lemma {:induction false} AttemptCounts(trace: seq<Event>, j: nat)
    requires j < |trace| && trace[j].Attempted?
    ensures Attempts(trace) >= 1
    decreases |trace|
  {
    if j < |trace| - 1 {
      AttemptCounts(trace[..|trace| - 1], j);
    }
  }

  lemma {:induction false} AttemptBound(maxRetries: int, trace: seq<Event>, from: nat, to: nat)
    requires Follows(maxRetries, trace) && from <= to <= |trace|
    ensures to - from <= 9 * Attempts(trace[from..to]) + 8
    decreases |trace| - from
  {
    hide Follows, Attempts;
    var next := from + 9;
    if next <= to {
      NineTicksAttempt(maxRetries, trace, from);
      var j :| from <= j < next && trace[j].Attempted?;
      var head, tail := trace[from..next], trace[next..to];
      AttemptCounts(head, j - from);
      AttemptBound(maxRetries, trace, next, to);
      assert trace[from..to] == head + tail;
      AttemptsConcat(head, tail);
    }
  }

  /** Over any window of ticks, at least one tick in nine attempts. */
  lemma AttemptRate(maxRetries: int, trace: seq<Event>, from: nat, to: nat)
    requires Follows(maxRetries, trace) && from <= to <= |trace|
    ensures Attempts(trace[from..to]) >= (to - from) / 9
  {
    AttemptBound(maxRetries, trace, from, to);
  }

  /** Without a threshold every tick attempts. */
  lemma NoThresholdAttemptsAlways(maxRetries: int, trace: seq<Event>, i: nat)
    requires Follows(maxRetries, trace) && maxRetries <= 0 && i < |trace|
    ensures trace[i].Attempted?
  {
    PrefixFollows(maxRetries, trace, i);
    WaitedWithinWidth(maxRetries, trace[..i]);
  }

  /** `q` is the first attempt after the attempt `p`. */
  ghost predicate NextAttempt(trace: seq<Event>, p: nat, q: nat) {
    && p < q < |trace| && trace[p].Attempted? && trace[q].Attempted?
    && forall j :: p < j < q ==> trace[j].Skipped?
  }

  /** The gap to the next attempt is one more than the width the failures so far call for. */
  lemma Gap(maxRetries: int, trace: seq<Event>, p: nat, q: nat)
    requires Follows(maxRetries, trace) && NextAttempt(trace, p, q)
    ensures q - p == Width(maxRetries, Failures(trace[..p + 1])) + 1
  {
    var before := trace[..q];
    SkipsAreWaited(before, p + 1);
    assert before[..p + 1] == trace[..p + 1];
    assert Waited(trace[..p + 1]) == 0;
  }

  lemma {:induction false} WidthGrows(maxRetries: int, failures: nat)
    ensures Width(maxRetries, failures) <= Width(maxRetries, failures + 1)
    ensures maxRetries > 0 ==> (Width(maxRetries, failures) == MAX_BACKOFF_TICKS <==> failures >= maxRetries + 3)
  {
    if 0 < maxRetries <= failures {
      var n := failures - maxRetries + 1;
      if n >= 4 {
        Pow2Monotone(4, n);
      } else {
        Pow2Monotone(n, 3);
      }
      assert Pow2(3) == 8 && Pow2(4) == 16;
    }
  }

  /** The widths: none up to the threshold, then one, three, seven and eight ticks. */
  lemma WidthIs(maxRetries: int, failures: nat)
    ensures maxRetries <= 0 || failures < maxRetries ==> Width(maxRetries, failures) == 0
    ensures maxRetries > 0 && failures == maxRetries ==> Width(maxRetries, failures) == 1
    ensures maxRetries > 0 && failures == maxRetries + 1 ==> Width(maxRetries, failures) == 3
    ensures maxRetries > 0 && failures == maxRetries + 2 ==> Width(maxRetries, failures) == 7
    ensures maxRetries > 0 && failures >= maxRetries + 3 ==> Width(maxRetries, failures) == 8
  {
    WidthGrows(maxRetries, failures);
    assert Pow2(1) == 2 && Pow2(2) == 4 && Pow2(3) == 8;
  }

  lemma {:induction false} Pow2Monotone(a: nat, b: nat)
    requires a <= b
    ensures Pow2(a) <= Pow2(b)
    decreases b
  {
    if a < b {
      Pow2Monotone(a, b - 1);
    }
  }

  ghost predicate AllFail(trace: seq<Event>) {
    forall i :: 0 <= i < |trace| && trace[i].Attempted? ==> !trace[i].ok
  }

  lemma {:induction false} AllFailCounts(trace: seq<Event>)
    requires AllFail(trace)
    ensures Failures(trace) == Attempts(trace)
    decreases |trace|
  {
    if trace != [] {
      AllFailCounts(trace[..|trace| - 1]);
    }
  }

  lemma NextFailure(trace: seq<Event>, p: nat, q: nat)
    requires AllFail(trace) && NextAttempt(trace, p, q)
    ensures Failures(trace[..q + 1]) == Failures(trace[..p + 1]) + 1
  {
    SkipsAreWaited(trace[..q], p + 1);
    assert trace[..q][..p + 1] == trace[..p + 1];
    assert trace[..q + 1][..q] == trace[..q];
  }

  /** In an all-failing run the gaps between attempts never shrink, and a gap is exactly nine
      once the attempts reach the threshold plus three, and not before. */
  lemma FailingGaps(maxRetries: int, trace: seq<Event>, p: nat, q: nat, r: nat)
    requires Follows(maxRetries, trace) && AllFail(trace) && maxRetries > 0
    requires NextAttempt(trace, p, q) && NextAttempt(trace, q, r)
    ensures q - p <= r - q
    ensures q - p == 9 <==> Attempts(trace[..p + 1]) >= maxRetries + 3
  {
    Gap(maxRetries, trace, p, q);
    Gap(maxRetries, trace, q, r);
    AllFailCounts(trace[..p + 1]);
    NextFailure(trace, p, q);
    WidthGrows(maxRetries, Failures(trace[..p + 1]));
  }

  // Counting failures.

  lemma FailuresNext(trace: seq<Event>, e: Event)
    ensures Failures(trace + [e]) ==
            match e case Skipped => Failures(trace) case Attempted(ok) => if ok then 0 else Failures(trace) + 1
  {
    SplitConcat(trace, [e]);
  }

  /** A success resets the count: it is the number of attempts since, all of which failed. */
  lemma {:induction false} FailuresSince(a: seq<Event>, b: seq<Event>)
    requires AllFail(b)
    ensures Failures(a + [Attempted(true)] + b) == Attempts(b)
    decreases |b|
  {
    if b == [] {
      EmptyConcat(a + [Attempted(true)]);
      FailuresNext(a, Attempted(true));
    } else {
      var init, e := b[..|b| - 1], b[|b| - 1];
      FailuresSince(a, init);
      assert b == init + [e];
      Assoc(a + [Attempted(true)], init, [e]);
      FailuresNext(a + [Attempted(true)] + init, e);
    }
  }

  /** After a success every tick attempts until the threshold is reached again. */
  lemma SuccessResets(maxRetries: int, a: seq<Event>, b: seq<Event>, e: Event)
    requires AllFail(b) && Attempts(b) < maxRetries
    requires Follows(maxRetries, a + [Attempted(true)] + b + [e])
    ensures e.Attempted?
  {
    var trace := a + [Attempted(true)] + b;
    var all := trace + [e];
    SplitConcat(trace, [e]);
    PrefixFollows(maxRetries, all, |trace|);
    FailuresSince(a, b);
    WaitedWithinWidth(maxRetries, trace);
  }
}
