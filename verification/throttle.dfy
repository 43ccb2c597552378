/** The throttle in front of the eviction warning. */
module Throttles {
  import opened Arithmetic
  import opened TokenBucket

  const EVICTION_WARN_INTERVAL: Time := MINUTE / 2

  /** One call at time t: does the work run, and when may it run next? */
  function Throttled(every: Time, nextRun: Time, t: Time): (r: (bool, Time)) {
    if t < nextRun then (false, nextRun) else (true, t + every)
  }

  class Throttle {
    const every: Time
    var nextRun: Time  // At first 0, which stands for the zero time: no clock reads an earlier one.

    constructor (every: Time)
      ensures this.every == every && nextRun == 0
    {
      this.every := every;
      nextRun := 0;
    }

    method Call(t: Time) returns (ran: bool)
      modifies this
      ensures (ran, nextRun) == Throttled(every, old(nextRun), t)
    {
      if t < nextRun {
        return false;
      }
      ran := true;
      nextRun := t + every;
    }
  }

  /** The time at which the work may next run, after one call at each of these times. */
  function NextRun(every: Time, times: seq<Time>): Time {
    if times == [] then 0
    else Throttled(every, NextRun(every, times[..|times| - 1]), times[|times| - 1]).1
  }

  /** Whether call i of the sequence ran the work. */
  predicate Ran(every: Time, times: seq<Time>, i: nat)
    requires i < |times|
  {
    Throttled(every, NextRun(every, times[..i]), times[i]).0
  }

  function RunsIn(every: Time, times: seq<Time>, a: Time, b: Time): nat {
    if times == [] then 0
    else
      var n := |times| - 1;
      RunsIn(every, times[..n], a, b) + if Ran(every, times, n) && a <= times[n] <= b then 1 else 0
  }

  lemma {:induction false} NextRunAfter(every: Time, times: seq<Time>, i: nat)
    requires every >= 0 && i < |times| && Ran(every, times, i)
    ensures NextRun(every, times) >= times[i] + every
  {
    var n := |times| - 1;
    if i < n {
      assert times[..n][..i] == times[..i];
      NextRunAfter(every, times[..n], i);
    }
  }

  /** Any two runs of the throttled work are at least `every` apart, however the clock moves. */
  lemma ThrottleSpacing(every: Time, times: seq<Time>, i: nat, j: nat)
    requires every >= 0 && i < j < |times|
    requires Ran(every, times, i) && Ran(every, times, j)
    ensures times[j] - times[i] >= every
  {
    assert times[..j][..i] == times[..i];
    NextRunAfter(every, times[..j], i);
  }

  lemma {:induction false} RunsPushNextRun(every: Time, times: seq<Time>, a: Time, b: Time)
    requires every >= 0
    ensures var c := RunsIn(every, times, a, b);
      c >= 1 ==> NextRun(every, times) >= a + Times(c, every) && Times(c - 1, every) <= b - a
  {
    if times != [] {
      var n := |times| - 1;
      RunsPushNextRun(every, times[..n], a, b);
    }
  }

  /** A window [a, b] holds at most 1 + (b - a) / every runs. */
  lemma ThrottleBound(every: Time, times: seq<Time>, a: Time, b: Time)
    requires every >= 1 && a <= b
    ensures RunsIn(every, times, a, b) <= 1 + (b - a) / every
  {
    RunsPushNextRun(every, times, a, b);
    var c := RunsIn(every, times, a, b);
    if c >= 1 {
      StepsBound(c - 1, 0, every, b - a);
    }
  }

  lemma {:induction false} NextRunIsLater(every: Time, times: seq<Time>, t: Time)
    requires every >= 0 && t >= 0
    requires forall i | 0 <= i < |times| && Ran(every, times, i) :: t >= times[i] + every
    ensures NextRun(every, times) <= t
  {
    if times != [] {
      var n := |times| - 1;
      forall i | 0 <= i < n && Ran(every, times[..n], i)
        ensures t >= times[..n][i] + every
      {
        assert times[..n][..i] == times[..i];
      }
      NextRunIsLater(every, times[..n], t);
      assert Ran(every, times, n) ==> t >= times[n] + every;
    }
  }

  /** A call runs the work just when every earlier run is at least `every` ago; so the first one always does. */
  lemma RunsIffNoneIsRecent(every: Time, times: seq<Time>, i: nat)
    requires every >= 0 && i < |times| && times[i] >= 0
    ensures Ran(every, times, i) <==> forall j | 0 <= j < i && Ran(every, times, j) :: times[i] - times[j] >= every
  {
    if Ran(every, times, i) {
      forall j | 0 <= j < i && Ran(every, times, j)
        ensures times[i] - times[j] >= every
      {
        ThrottleSpacing(every, times, j, i);
      }
    } else {
      if forall j | 0 <= j < i && Ran(every, times, j) :: times[i] - times[j] >= every {
        forall j | 0 <= j < i && Ran(every, times[..i], j)
          ensures times[i] >= times[..i][j] + every
        {
          assert times[..i][..j] == times[..j];
        }
        NextRunIsLater(every, times[..i], times[i]);
      }
    }
  }

  /** The eviction warning comes at most once in 30 seconds. */
  lemma WarningsAreRare(times: seq<Time>, a: Time, b: Time)
    requires a <= b
    ensures RunsIn(EVICTION_WARN_INTERVAL, times, a, b) <= 1 + (b - a) / 30_000_000_000
  {
    ThrottleBound(EVICTION_WARN_INTERVAL, times, a, b);
  }
}
