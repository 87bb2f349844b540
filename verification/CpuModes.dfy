/** The CPU collector: per-mode percentages and counter rates, over reals. */
module CpuModes {
  import opened Results

  /** Cumulative seconds per mode since boot. */
  datatype Times = Times(user: real, system: real, idle: real, nice: real, iowait: real, irq: real,
                         softirq: real, steal: real, guest: real, guestNice: real)

  /** One reading of the kernel's cumulative counters. */
  datatype Counters = Counters(interrupts: real, contextSwitches: real, procsRunning: real)

  datatype Point = Point(name: string, at: real, value: real)

  // Mode percentages.

  /** A mode that counts its guests too, less them when that stays non-negative. */
  function LessGuest(delta: real, guest: real): real {
    if delta - guest >= 0.0 then delta - guest else delta
  }

  /** The ten deltas between two snapshots, with guest time taken out of user and nice. */
  function Deltas(prev: Times, curr: Times): (d: seq<real>)
    ensures |d| == 10
  {
    var guest, guestNice := curr.guest - prev.guest, curr.guestNice - prev.guestNice;
    [LessGuest(curr.user - prev.user, guest), curr.system - prev.system, curr.idle - prev.idle,
     LessGuest(curr.nice - prev.nice, guestNice), curr.iowait - prev.iowait, curr.irq - prev.irq,
     curr.softirq - prev.softirq, curr.steal - prev.steal, guest, guestNice]
  }

  function Sum(d: seq<real>): real {
    if d == [] then 0.0 else d[0] + Sum(d[1..])
  }

  function Percent(delta: real, total: real): (p: real)
    requires total > 0.0
    ensures 0.0 <= p <= 100.0
  {
    var v := delta / total * 100.0;
    if v < 0.0 then 0.0 else if v > 100.0 then 100.0 else v
  }

  function Percents(d: seq<real>, total: real): (p: seq<real>)
    requires total > 0.0
    ensures |p| == |d|
  {
    if d == [] then [] else [Percent(d[0], total)] + Percents(d[1..], total)
  }

  lemma {:induction false} PercentsAt(d: seq<real>, total: real)
    requires total > 0.0
    ensures forall i :: 0 <= i < |d| ==> Percents(d, total)[i] == Percent(d[i], total)
    decreases |d|
  {
    if d != [] {
      PercentsAt(d[1..], total);
    }
  }

  const MODES: seq<string> := ["cpu_user", "cpu_system", "cpu_idle", "cpu_nice", "cpu_iowait", "cpu_irq",
                               "cpu_softirq", "cpu_steal", "cpu_guest", "cpu_guest_nice"]

  function ModePoints(values: seq<real>, at: real): (ps: seq<Point>)
    requires |values| == |MODES|
    ensures |ps| == |values|
    ensures forall i :: 0 <= i < |ps| ==> ps[i] == Point(MODES[i], at, values[i])
  {
    seq(|values|, i requires 0 <= i < |values| => Point(MODES[i], at, values[i]))
  }

  /** The points of a snapshot after `prev`: none the first time, and none without elapsed CPU time. */
  function TimesPoints(prev: Option<Times>, curr: Times, at: real): seq<Point> {
    if prev.None? || Sum(Deltas(prev.value, curr)) <= 0.0 then []
    else ModePoints(Percents(Deltas(prev.value, curr), Sum(Deltas(prev.value, curr))), at)
  }

  ghost predicate Monotone(prev: Times, curr: Times) {
    && prev.user <= curr.user && prev.system <= curr.system && prev.idle <= curr.idle
    && prev.nice <= curr.nice && prev.iowait <= curr.iowait && prev.irq <= curr.irq
    && prev.softirq <= curr.softirq && prev.steal <= curr.steal && prev.guest <= curr.guest
    && prev.guestNice <= curr.guestNice
  }

  ghost predicate NonNegative(d: seq<real>) {
    forall i :: 0 <= i < |d| ==> d[i] >= 0.0
  }

  lemma Distributes(a: real, b: real, c: real)
    ensures (a + b) * c == a * c + b * c
  {
  }

  lemma FactorSign(a: real, c: real)
    requires c > 0.0 && a * c >= 0.0
    ensures a >= 0.0
  {
  }

  lemma SameSign(a: real, c: real)
    requires c > 0.0
    ensures a * c > 0.0 <==> a > 0.0
  {
  }

  lemma Quotient(a: real, c: real)
    requires c > 0.0
    ensures a / c * 100.0 * c == a * 100.0
  {
    var q := a / c;
    assert q * c == a;
    assert q * 100.0 * c == (q * c) * 100.0;
  }

  /** Inside its range, a percentage is not clamped. */
  lemma PercentIs(delta: real, total: real)
    requires total > 0.0 && 0.0 <= delta <= total
    ensures Percent(delta, total) * total == delta * 100.0
  {
    var v := delta / total * 100.0;
    Quotient(delta, total);
    FactorSign(v, total);
    Distributes(100.0, -v, total);
    assert (-v) * total == -(v * total);
    FactorSign(100.0 - v, total);
  }

  /** A scaled sum compares with 100 as what it was scaled from compares with the scale. */
  lemma Compares(a: real, c: real, x: real)
    requires c > 0.0 && a * c == x * 100.0 && x >= c
    ensures a >= 100.0
    ensures a == 100.0 <==> x == c
  {
    Distributes(a, -100.0, c);
    FactorSign(a - 100.0, c);
  }

  lemma DeltasNonNegative(prev: Times, curr: Times)
    requires Monotone(prev, curr)
    ensures NonNegative(Deltas(prev, curr))
  {
  }

  /** One delta is positive and no other is. */
  ghost predicate OnePositive(d: seq<real>) {
    exists k :: 0 <= k < |d| && d[k] > 0.0 && OnlyAt(d, k)
  }

  ghost predicate OnlyAt(d: seq<real>, k: nat) {
    forall i :: 0 <= i < |d| && i != k ==> d[i] <= 0.0
  }

  /** A sum of non-negative terms is at least each of them, and one of them only if the others are 0. */
  lemma {:induction false} SumAtLeast(p: seq<real>, k: nat)
    requires NonNegative(p) && k < |p|
    ensures Sum(p) >= p[k]
    ensures Sum(p) == p[k] <==> OnlyAt(p, k)
    decreases |p|
  {
    var rest := p[1..];
    assert forall i :: 0 < i < |p| ==> p[i] == rest[i - 1];
    assert forall i :: 0 <= i < |rest| ==> rest[i] == p[i + 1];
    SumZero(rest);
    if k > 0 {
      SumAtLeast(rest, k - 1);
    }
  }

  lemma {:induction false} SumZero(p: seq<real>)
    requires NonNegative(p)
    ensures Sum(p) >= 0.0
    ensures Sum(p) == 0.0 <==> forall i :: 0 <= i < |p| ==> p[i] <= 0.0
    decreases |p|
  {
    if p != [] {
      SumZero(p[1..]);
      assert forall i :: 0 < i < |p| ==> p[i] == p[1..][i - 1];
    }
  }

  function Gain(delta: real): real {
    if delta < 0.0 then 0.0 else delta
  }

  /** The sum of the positive deltas. */
  function Gained(d: seq<real>): real {
    if d == [] then 0.0 else Gain(d[0]) + Gained(d[1..])
  }

  lemma {:induction false} GainedSum(d: seq<real>)
    ensures Gained(d) >= Sum(d)
    ensures Gained(d) == Sum(d) <==> NonNegative(d)
    decreases |d|
  {
    if d != [] {
      GainedSum(d[1..]);
      assert forall i :: 0 < i < |d| ==> d[i] == d[1..][i - 1];
      assert NonNegative(d) <==> d[0] >= 0.0 && NonNegative(d[1..]);
    }
  }

  lemma {:induction false} GainedAt(d: seq<real>, k: nat)
    requires k < |d| && d[k] > 0.0 && OnlyAt(d, k)
    ensures Gained(d) == d[k]
    decreases |d|
  {
    assert forall i :: 0 <= i < |d| - 1 ==> d[1..][i] == d[i + 1];
    if k == 0 {
      NothingGained(d[1..]);
    } else {
      GainedAt(d[1..], k - 1);
    }
  }

  lemma {:induction false} NothingGained(d: seq<real>)
    requires forall i :: 0 <= i < |d| ==> d[i] <= 0.0
    ensures Gained(d) == 0.0
    decreases |d|
  {
    if d != [] {
      NothingGained(d[1..]);
    }
  }

  /** `p` percent of `total` is `gain`. */
  ghost predicate IsShare(p: real, gain: real, total: real) {
    p * total == gain * 100.0
  }

  lemma SharesAdd(p: real, q: real, total: real, a: real, b: real)
    requires IsShare(p, a, total) && IsShare(q, b, total)
    ensures IsShare(p + q, a + b, total)
  {
    Distributes(p, q, total);
  }

  lemma PercentIsShare(delta: real, total: real)
    requires total > 0.0 && delta <= total
    ensures IsShare(Percent(delta, total), Gain(delta), total)
  {
    if delta >= 0.0 {
      PercentIs(delta, total);
    } else {
      PercentEnds(delta, total);
    }
  }

  lemma PercentEnds(delta: real, total: real)
    requires total > 0.0
    ensures Percent(delta, total) > 0.0 <==> delta > 0.0
    ensures delta > total ==> Percent(delta, total) == 100.0
  {
    var v := delta / total * 100.0;
    Quotient(delta, total);
    SameSign(v, total);
    if delta > total {
      Distributes(v, -100.0, total);
      FactorSign(v - 100.0, total);
    }
  }

  /** No delta exceeds the total: the shares add up to what the positive deltas do. */
  lemma SharesInRange(d: seq<real>, total: real)
    requires total == Sum(d) && total > 0.0 && forall i :: 0 <= i < |d| ==> d[i] <= total
    ensures Sum(Percents(d, total)) >= 100.0
    ensures Sum(Percents(d, total)) == 100.0 <==> NonNegative(d)
  {
    PercentsAreShares(d, total);
    SharesScaled(Percents(d, total), d, total);
    GainedSum(d);
    Compares(Sum(Percents(d, total)), total, Gained(d));
  }

  lemma PercentsAreShares(d: seq<real>, total: real)
    requires total > 0.0 && forall i :: 0 <= i < |d| ==> d[i] <= total
    ensures forall i :: 0 <= i < |d| ==> IsShare(Percents(d, total)[i], Gain(d[i]), total)
  {
    PercentsAt(d, total);
    forall i | 0 <= i < |d|
      ensures IsShare(Percents(d, total)[i], Gain(d[i]), total)
    {
      PercentIsShare(d[i], total);
    }
  }

  lemma {:induction false} SharesScaled(p: seq<real>, d: seq<real>, total: real)
    requires |p| == |d| && forall i :: 0 <= i < |d| ==> IsShare(p[i], Gain(d[i]), total)
    ensures IsShare(Sum(p), Gained(d), total)
    decreases |d|
  {
    if d != [] {
      assert IsShare(p[0], Gain(d[0]), total);
      assert forall i :: 0 <= i < |d| - 1 ==> p[1..][i] == p[i + 1] && d[1..][i] == d[i + 1];
      SharesScaled(p[1..], d[1..], total);
      SharesAdd(p[0], Sum(p[1..]), total, Gain(d[0]), Gained(d[1..]));
    }
  }

  /** One delta exceeds the total, so others are negative: that share is 100 already. */
  lemma SharesOutOfRange(d: seq<real>, total: real, k: nat)
    requires total > 0.0 && k < |d| && d[k] > total
    ensures Sum(Percents(d, total)) >= 100.0
    ensures Sum(Percents(d, total)) == 100.0 <==> OnlyAt(d, k)
  {
    var p := Percents(d, total);
    PercentsAt(d, total);
    forall i | 0 <= i < |d|
      ensures p[i] >= 0.0 && (p[i] > 0.0 <==> d[i] > 0.0)
    {
      PercentEnds(d[i], total);
    }
    PercentEnds(d[k], total);
    SumAtLeast(p, k);
  }

  /** A single positive delta is the total or more. */
  lemma OnePositiveIs(d: seq<real>, k: nat)
    requires k < |d| && d[k] > 0.0 && OnlyAt(d, k)
    ensures d[k] >= Sum(d)
    ensures d[k] == Sum(d) <==> NonNegative(d)
  {
    GainedSum(d);
    GainedAt(d, k);
  }

  lemma SharesAddUp(d: seq<real>, total: real)
    requires total == Sum(d) && total > 0.0
    ensures Sum(Percents(d, total)) >= 100.0
    ensures Sum(Percents(d, total)) == 100.0 <==> NonNegative(d) || OnePositive(d)
  {
    if k :| 0 <= k < |d| && d[k] > total {
      SharesOutOfRange(d, total, k);
      if NonNegative(d) {
        SumAtLeast(d, k);
      }
    } else {
      SharesInRange(d, total);
      if k :| 0 <= k < |d| && d[k] > 0.0 && OnlyAt(d, k) {
        OnePositiveIs(d, k);
      }
    }
  }

  /** Whenever CPU time elapsed, the ten percentages are each between 0 and 100 and add up to 100 or
      more; to exactly 100 exactly when no mode went backwards or a single one went forwards. */
  lemma PercentagesIff(prev: Times, curr: Times)
    requires Sum(Deltas(prev, curr)) > 0.0
    ensures var d := Deltas(prev, curr);
            var p := Percents(d, Sum(d));
            && (forall i :: 0 <= i < |p| ==> 0.0 <= p[i] <= 100.0)
            && Sum(p) >= 100.0
            && (Sum(p) == 100.0 <==> NonNegative(d) || OnePositive(d))
  {
    PercentsAt(Deltas(prev, curr), Sum(Deltas(prev, curr)));
    SharesAddUp(Deltas(prev, curr), Sum(Deltas(prev, curr)));
  }

  /** Between monotone snapshots they add up to exactly 100. */
  lemma PercentagesAddUp(prev: Times, curr: Times)
    requires Monotone(prev, curr) && Sum(Deltas(prev, curr)) > 0.0
    ensures Sum(Percents(Deltas(prev, curr), Sum(Deltas(prev, curr)))) == 100.0
  {
    DeltasNonNegative(prev, curr);
    PercentagesIff(prev, curr);
  }

  /** Two snapshots whose percentages add up to more than 100: the idle counter went back while the
      CPU spent time in two other modes. */
  lemma PercentagesExceed(prev: Times, a: real, b: real, c: real)
    requires a > 0.0 && b > 0.0 && 0.0 < c < a + b
    ensures var d := Deltas(prev, prev.(system := prev.system + a, iowait := prev.iowait + b, idle := prev.idle - c));
            Sum(d) > 0.0 && Sum(Percents(d, Sum(d))) > 100.0
  {
    var curr := prev.(system := prev.system + a, iowait := prev.iowait + b, idle := prev.idle - c);
    var d := Deltas(prev, curr);
    assert d == [0.0, a, -c, 0.0, b, 0.0, 0.0, 0.0, 0.0, 0.0];
    SumOfTen(d);
    assert !NonNegative(d) by {
      assert d[2] < 0.0;
    }
    assert !OnePositive(d) by {
      assert d[1] > 0.0 && d[4] > 0.0;
    }
    PercentagesIff(prev, curr);
  }

  lemma SumFrom(d: seq<real>, i: nat)
    requires i < |d|
    ensures Sum(d[i..]) == d[i] + Sum(d[i + 1..])
  {
    assert d[i..][1..] == d[i + 1..];
  }

  lemma SumOfTen(d: seq<real>)
    requires |d| == 10
    ensures Sum(d) == d[0] + d[1] + d[2] + d[3] + d[4] + d[5] + d[6] + d[7] + d[8] + d[9]
  {
    assert d[0..] == d && d[10..] == [];
    SumFrom(d, 0);
    SumFrom(d, 1);
    SumFrom(d, 2);
    SumFrom(d, 3);
    SumFrom(d, 4);
    SumFrom(d, 5);
    SumFrom(d, 6);
    SumFrom(d, 7);
    SumFrom(d, 8);
    SumFrom(d, 9);
  }

  /** The point carries `delta` as a percentage of `total`, kept between 0 and 100. */
  ghost predicate Carries(p: Point, name: string, at: real, delta: real, total: real) {
    && p.name == name && p.at == at
    && (0.0 <= delta <= total ==> p.value * total == delta * 100.0)
    && (delta < 0.0 ==> p.value == 0.0)
    && (delta > total ==> p.value == 100.0)
  }

  lemma PercentCarries(name: string, at: real, delta: real, total: real)
    requires total > 0.0
    ensures Carries(Point(name, at, Percent(delta, total)), name, at, delta, total)
  {
    if 0.0 <= delta <= total {
      PercentIs(delta, total);
    } else {
      PercentEnds(delta, total);
    }
  }

  /** Each point by its name: what the mode gained between the two snapshots, user time less guest
      time and nice time less guest nice time where that is not negative, out of the sum of the ten. */
  lemma PointsByName(prev: Times, curr: Times, at: real)
    ensures var guest, guestNice := curr.guest - prev.guest, curr.guestNice - prev.guestNice;
            var user, nice := curr.user - prev.user, curr.nice - prev.nice;
            var ownUser := if user < guest then user else user - guest;
            var ownNice := if nice < guestNice then nice else nice - guestNice;
            var total := ownUser + (curr.system - prev.system) + (curr.idle - prev.idle) + ownNice
                         + (curr.iowait - prev.iowait) + (curr.irq - prev.irq) + (curr.softirq - prev.softirq)
                         + (curr.steal - prev.steal) + guest + guestNice;
            var ps := TimesPoints(Some(prev), curr, at);
            if total <= 0.0 then ps == []
            else
              && |ps| == 10
              && Carries(ps[0], "cpu_user", at, ownUser, total)
              && Carries(ps[1], "cpu_system", at, curr.system - prev.system, total)
              && Carries(ps[2], "cpu_idle", at, curr.idle - prev.idle, total)
              && Carries(ps[3], "cpu_nice", at, ownNice, total)
              && Carries(ps[4], "cpu_iowait", at, curr.iowait - prev.iowait, total)
              && Carries(ps[5], "cpu_irq", at, curr.irq - prev.irq, total)
              && Carries(ps[6], "cpu_softirq", at, curr.softirq - prev.softirq, total)
              && Carries(ps[7], "cpu_steal", at, curr.steal - prev.steal, total)
              && Carries(ps[8], "cpu_guest", at, guest, total)
              && Carries(ps[9], "cpu_guest_nice", at, guestNice, total)
  {
    hide Carries, Percent, Sum;
    var d := Deltas(prev, curr);
    var total := Sum(d);
    SumOfTen(d);
    if total > 0.0 {
      PercentsAt(d, total);
      forall i | 0 <= i < 10
        ensures Carries(TimesPoints(Some(prev), curr, at)[i], MODES[i], at, d[i], total)
      {
        PercentCarries(MODES[i], at, d[i], total);
      }
    }
  }

  // Counter rates.

  datatype Reading = Reading(counters: Counters, at: real)

  /** A counter's rate since the previous reading; none when it went backwards. */
  function Rate(now: real, before: real, elapsed: real): Option<real>
    requires elapsed > 0.0
  {
    if now < before then None else Some((now - before) / elapsed)
  }

  function RatePoint(name: string, at: real, rate: Option<real>): seq<Point> {
    if rate.Some? then [Point(name, at, rate.value)] else []
  }

  /** The points of a reading after `prev`: the gauge always, the rates once time has passed. */
  function CounterPoints(prev: Option<Reading>, curr: Reading): seq<Point> {
    var gauge := [Point("cpu_processes_running", curr.at, curr.counters.procsRunning)];
    if prev.None? || curr.at - prev.value.at <= 0.0 then gauge
    else
      var elapsed := curr.at - prev.value.at;
      var before, now := prev.value.counters, curr.counters;
      gauge
      + RatePoint("cpu_interrupts", curr.at, Rate(now.interrupts, before.interrupts, elapsed))
      + RatePoint("cpu_context_switches", curr.at, Rate(now.contextSwitches, before.contextSwitches, elapsed))
  }

  class Collector {
    var lastTimes: Option<Times>
    var lastTimestamp: real
    var lastKernel: Option<Reading>

    constructor ()
      ensures lastTimes == None && lastKernel == None
    {
      lastTimes, lastTimestamp, lastKernel := None, 0.0, None;
    }

    /** `times` is what reading the CPU times gives: an error, or a list whose first element is the
        total over all CPUs. */
    method CollectCPUTimes(times: Result<seq<Times>, string>, at: real)
        returns (points: seq<Point>, error: Option<string>)
      modifies this`lastTimes, this`lastTimestamp
      ensures error == if times.Err? then Some(times.error) else None
      ensures times.Err? || times.value == [] ==>
                points == [] && lastTimes == old(lastTimes) && lastTimestamp == old(lastTimestamp)
      ensures times.Ok? && times.value != [] ==>
                && lastTimes == Some(times.value[0]) && lastTimestamp == at
                && points == TimesPoints(old(lastTimes), times.value[0], at)
    {
      points, error := [], None;
      if times.Err? {
        return [], Some(times.error);
      }
      if times.value == [] {
        return;
      }
      var curr := times.value[0];
      if lastTimes.None? {
        lastTimes, lastTimestamp := Some(curr), at;
        return;
      }
      var deltas := Deltas(lastTimes.value, curr);
      var total := Sum(deltas);
      lastTimes, lastTimestamp := Some(curr), at;
      if total <= 0.0 {
        return;
      }
      PercentsAt(deltas, total);
      for i := 0 to |MODES|
        invariant |points| == i
        invariant forall j :: 0 <= j < i ==> points[j] == Point(MODES[j], at, Percent(deltas[j], total))
      {
        points := points + [Point(MODES[i], at, Percent(deltas[i], total))];
      }
    }

    method CollectKernelCounters(read: Result<Counters, string>, at: real)
        returns (points: seq<Point>, error: Option<string>)
      modifies this`lastKernel
      ensures error == if read.Err? then Some(read.error) else None
      ensures read.Err? ==> points == [] && lastKernel == old(lastKernel)
      ensures read.Ok? ==>
                && lastKernel == Some(Reading(read.value, at))
                && points == CounterPoints(old(lastKernel), Reading(read.value, at))
    {
      if read.Err? {
        return [], Some(read.error);
      }
      var curr := read.value;
      error := None;
      points := [Point("cpu_processes_running", at, curr.procsRunning)];
      var prev := lastKernel;
      lastKernel := Some(Reading(curr, at));
      if prev.None? {
        return;
      }
      var elapsed := at - prev.value.at;
      if elapsed <= 0.0 {
        return;
      }
      var before := prev.value.counters;
      if curr.interrupts >= before.interrupts {
        points := points + [Point("cpu_interrupts", at, (curr.interrupts - before.interrupts) / elapsed)];
      }
      if curr.contextSwitches >= before.contextSwitches {
        points := points + [Point("cpu_context_switches", at, (curr.contextSwitches - before.contextSwitches) / elapsed)];
      }
    }
  }

  // What the rates of a run amount to.

  /** The two counters that are reported as rates. */
  datatype Counter = Interrupts | ContextSwitches

  function NameOf(k: Counter): string {
    match k case Interrupts => "cpu_interrupts" case ContextSwitches => "cpu_context_switches"
  }

  function CountOf(k: Counter, r: Reading): real {
    match k case Interrupts => r.counters.interrupts case ContextSwitches => r.counters.contextSwitches
  }

  /** The sum of the values of the points with this name. */
  function ValueOf(points: seq<Point>, name: string): real {
    if points == [] then 0.0
    else (if points[0].name == name then points[0].value else 0.0) + ValueOf(points[1..], name)
  }

  /** What a reading reports of a counter: the value it emits, times the time it covers. */
  function StepReported(k: Counter, prev: Reading, curr: Reading): real {
    ValueOf(CounterPoints(Some(prev), curr), NameOf(k)) * (curr.at - prev.at)
  }

  /** What the points emitted over a run of readings report of a counter. */
  function Reported(k: Counter, run: seq<Reading>): real {
    if |run| < 2 then 0.0
    else Reported(k, run[..|run| - 1]) + StepReported(k, run[|run| - 2], run[|run| - 1])
  }

  /** What the counter lost in resets seen after some time. */
  function Lost(k: Counter, run: seq<Reading>): real {
    if |run| < 2 then 0.0
    else
      var prev, curr := run[|run| - 2], run[|run| - 1];
      Lost(k, run[..|run| - 1])
      + if prev.at < curr.at && CountOf(k, curr) < CountOf(k, prev) then CountOf(k, prev) - CountOf(k, curr) else 0.0
  }

  /** What the counter gained between readings with no time between them. */
  function Dropped(k: Counter, run: seq<Reading>): real {
    if |run| < 2 then 0.0
    else
      var prev, curr := run[|run| - 2], run[|run| - 1];
      Dropped(k, run[..|run| - 1]) + if prev.at < curr.at then 0.0 else CountOf(k, curr) - CountOf(k, prev)
  }

  lemma ValueOfConcat(a: seq<Point>, b: seq<Point>, name: string)
    ensures ValueOf(a + b, name) == ValueOf(a, name) + ValueOf(b, name)
    decreases |a|
  {
    if a == [] {
      assert a + b == b;
    } else {
      assert (a + b)[1..] == a[1..] + b;
      ValueOfConcat(a[1..], b, name);
    }
  }

  lemma OnePoint(p: Point, name: string)
    ensures ValueOf([p], name) == if p.name == name then p.value else 0.0
  {
    assert [p][1..] == [];
  }

  lemma NamesDiffer()
    ensures |"cpu_processes_running"| == 21 && |"cpu_interrupts"| == 14 && |"cpu_context_switches"| == 20
  {
  }

  lemma RateValue(name: string, at: real, rate: Option<real>, wanted: string)
    ensures ValueOf(RatePoint(name, at, rate), wanted) == if rate.Some? && name == wanted then rate.value else 0.0
  {
    if rate.Some? {
      OnePoint(Point(name, at, rate.value), wanted);
    }
  }

  /** The emitted value is the counter's rate: none without elapsed time or after a reset. */
  lemma EmittedRate(k: Counter, prev: Reading, curr: Reading)
    ensures ValueOf(CounterPoints(Some(prev), curr), NameOf(k))
            == if prev.at < curr.at && CountOf(k, prev) <= CountOf(k, curr)
               then (CountOf(k, curr) - CountOf(k, prev)) / (curr.at - prev.at) else 0.0
  {
    var gauge := [Point("cpu_processes_running", curr.at, curr.counters.procsRunning)];
    NamesDiffer();
    OnePoint(gauge[0], NameOf(k));
    if prev.at < curr.at {
      var elapsed, before, now := curr.at - prev.at, prev.counters, curr.counters;
      var i, c := Rate(now.interrupts, before.interrupts, elapsed), Rate(now.contextSwitches, before.contextSwitches, elapsed);
      var first, second := RatePoint("cpu_interrupts", curr.at, i), RatePoint("cpu_context_switches", curr.at, c);
      ValueOfConcat(gauge + first, second, NameOf(k));
      ValueOfConcat(gauge, first, NameOf(k));
      RateValue("cpu_interrupts", curr.at, i, NameOf(k));
      RateValue("cpu_context_switches", curr.at, c, NameOf(k));
    }
  }

  /** Every reading gives the number of running processes first, and a point for a counter only if
      time has passed and it did not go backwards. */
  lemma CounterPointsAre(prev: Option<Reading>, curr: Reading)
    ensures var ps := CounterPoints(prev, curr);
            var timed := prev.Some? && prev.value.at < curr.at;
            && ps != [] && ps[0] == Point("cpu_processes_running", curr.at, curr.counters.procsRunning)
            && |ps| == 1
                       + (if timed && prev.value.counters.interrupts <= curr.counters.interrupts then 1 else 0)
                       + (if timed && prev.value.counters.contextSwitches <= curr.counters.contextSwitches then 1 else 0)
            && forall i :: 0 <= i < |ps| ==> ps[i].at == curr.at
  {
  }

  lemma StepReports(k: Counter, prev: Reading, curr: Reading)
    ensures StepReported(k, prev, curr)
            == if prev.at < curr.at && CountOf(k, prev) <= CountOf(k, curr) then CountOf(k, curr) - CountOf(k, prev) else 0.0
  {
    EmittedRate(k, prev, curr);
    var gain, elapsed := CountOf(k, curr) - CountOf(k, prev), curr.at - prev.at;
    if elapsed > 0.0 {
      assert gain / elapsed * elapsed == gain;
    }
  }

  /** Over any run of readings, whatever their timestamps, the emitted points account for every
      count: they report what the counter gained, plus what resets took from it, less what came
      between readings with no time between them. */
  lemma {:induction false} RatesTelescope(k: Counter, run: seq<Reading>)
    requires run != []
    ensures Reported(k, run) == CountOf(k, run[|run| - 1]) - CountOf(k, run[0]) + Lost(k, run) - Dropped(k, run)
    decreases |run|
  {
    if |run| > 1 {
      RatesTelescope(k, run[..|run| - 1]);
      StepReports(k, run[|run| - 2], run[|run| - 1]);
    }
  }

  ghost predicate NeverReset(k: Counter, run: seq<Reading>) {
    forall i :: 0 < i < |run| ==> CountOf(k, run[i - 1]) <= CountOf(k, run[i])
  }

  predicate Timed(k: Counter, prev: Reading, curr: Reading) {
    prev.at < curr.at || CountOf(k, curr) <= CountOf(k, prev)
  }

  /** Whenever the counter advanced, time did. */
  ghost predicate AdvancesTimed(k: Counter, run: seq<Reading>) {
    forall i :: 0 < i < |run| ==> Timed(k, run[i - 1], run[i])
  }

  lemma OneMoreReading(k: Counter, run: seq<Reading>)
    requires |run| > 1
    ensures var before, last := run[..|run| - 1], |run| - 1;
            && (NeverReset(k, run) ==> NeverReset(k, before) && CountOf(k, run[last - 1]) <= CountOf(k, run[last]))
            && (AdvancesTimed(k, run) <==> AdvancesTimed(k, before) && Timed(k, run[last - 1], run[last]))
  {
    assert forall i :: 0 <= i < |run| - 1 ==> run[..|run| - 1][i] == run[i];
  }

  lemma {:induction false} NothingLost(k: Counter, run: seq<Reading>)
    requires NeverReset(k, run)
    ensures Lost(k, run) == 0.0 && Dropped(k, run) >= 0.0
    ensures Dropped(k, run) == 0.0 <==> AdvancesTimed(k, run)
    decreases |run|
  {
    if |run| > 1 {
      OneMoreReading(k, run);
      NothingLost(k, run[..|run| - 1]);
    }
  }

  /** A counter that was never reset is reported in full, from its first value to its last, exactly
      when it never advanced between readings with no time between them. */
  lemma ReportedInFull(k: Counter, run: seq<Reading>)
    requires run != [] && NeverReset(k, run)
    ensures Reported(k, run) == CountOf(k, run[|run| - 1]) - CountOf(k, run[0]) <==> AdvancesTimed(k, run)
  {
    RatesTelescope(k, run);
    NothingLost(k, run);
  }
}
