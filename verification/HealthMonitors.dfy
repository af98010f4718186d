/** The two monitors a worker feeds once a second. */
module HealthMonitors {
  import opened Words
  import opened Wrappers

  // ----- tick rate -----

  const MIN_TICK_RATE_HZ := 60
  const DEGRADED_SAMPLE_COUNT := 3
  const BYTE_MAX := 0xFF

  datatype TickRateChange =
    | Degraded(tickDelta: u32, sampleMs: u64, rateHz: u32)
    | Recovered(tickDelta: u32, sampleMs: u64, rateHz: u32)

  function TickDelta(previous: u32, tickCount: u32): u32 {
    (tickCount - previous) % 0x1_0000_0000
  }

  /** The ticks between two readings of a counter that wraps, if fewer than a whole
      round of it. */
  lemma TickDeltaCounts(previous: u32, ticks: u32)
    ensures TickDelta(previous, (previous + ticks) % 0x1_0000_0000) == ticks
  {
    if previous + ticks >= 0x1_0000_0000 {
      assert (previous + ticks) % 0x1_0000_0000 == previous + ticks - 0x1_0000_0000;
    }
  }

  function AtLeastOne(sampleMs: u64): u64 {
    if sampleMs == 0 then 1 else sampleMs
  }

  function RateHz(tickDelta: u32, sampleMs: u64): u32 {
    var rate := tickDelta * 1000 / AtLeastOne(sampleMs);
    if rate <= U32_MAX then rate else U32_MAX
  }

  /** The rate is the whole number of ticks a second, as far as 32 bits can tell. */
  lemma RateIsWhole(tickDelta: u32, sampleMs: u64)
    ensures var rate, sample := RateHz(tickDelta, sampleMs), AtLeastOne(sampleMs);
            && rate * sample <= tickDelta * 1000
            && (rate < U32_MAX ==> tickDelta * 1000 < (rate + 1) * sample)
  {
    var sample := AtLeastOne(sampleMs);
    var rate := tickDelta * 1000 / sample;
    assert tickDelta * 1000 == rate * sample + tickDelta * 1000 % sample;
    if rate > U32_MAX {
      assert U32_MAX * sample <= rate * sample;
    }
  }

  predicate IsSlow(tickDelta: u32, sampleMs: u64) {
    RateHz(tickDelta, sampleMs) < MIN_TICK_RATE_HZ
  }

  /** A rate is slow exactly when fewer than the threshold's ticks fall in a second. */
  lemma SlowMeansTooFewTicks(tickDelta: u32, sampleMs: u64)
    ensures IsSlow(tickDelta, sampleMs) <==> tickDelta * 1000 < MIN_TICK_RATE_HZ * AtLeastOne(sampleMs)
  {
    var rate, sample := RateHz(tickDelta, sampleMs), AtLeastOne(sampleMs);
    RateIsWhole(tickDelta, sampleMs);
    if rate < MIN_TICK_RATE_HZ {
      Scaled(rate + 1, MIN_TICK_RATE_HZ, sample);
    } else {
      Scaled(MIN_TICK_RATE_HZ, rate, sample);
    }
  }

  lemma Scaled(less: nat, more: nat, factor: nat)
    requires less <= more
    ensures less * factor <= more * factor
  {
  }

  /** How many of the latest samples in a row were slow. */
  function SlowStreak(slow: seq<bool>): nat {
    if slow == [] || !slow[|slow| - 1] then 0 else 1 + SlowStreak(slow[..|slow| - 1])
  }

  class TickRateMonitor {
    var previousTickCount: Option<u32>
    var slowSamples: byte
    var degraded: bool

    /** Whether each rate since the last reset was slow. */
    ghost var slow: seq<bool>

    ghost predicate Valid()
      reads this
    {
      && slowSamples == (if SlowStreak(slow) <= BYTE_MAX then SlowStreak(slow) else BYTE_MAX)
      && (degraded <==> SlowStreak(slow) >= DEGRADED_SAMPLE_COUNT)
      && (previousTickCount.None? ==> slow == [])
    }

    constructor ()
      ensures Valid() && previousTickCount == None && slow == []
    {
      previousTickCount, slowSamples, degraded, slow := None, 0, false, [];
    }

    /** Degradation is reported at the third slow sample in a row and not again until
        recovery; recovery at the first sample that ends such a streak. */
    method Observe(tickCount: u32, sampleMs: u64) returns (r: Option<TickRateChange>)
      requires Valid()
      modifies this
      ensures Valid() && previousTickCount == Some(tickCount)
      ensures old(previousTickCount).None? ==> r == None && slow == old(slow)
      ensures old(previousTickCount).Some? ==>
                var delta := TickDelta(old(previousTickCount).value, tickCount);
                && slow == old(slow) + [IsSlow(delta, sampleMs)]
                && r == (if SlowStreak(slow) == DEGRADED_SAMPLE_COUNT
                         then Some(Degraded(delta, AtLeastOne(sampleMs), RateHz(delta, sampleMs)))
                         else if SlowStreak(slow) == 0 && SlowStreak(old(slow)) >= DEGRADED_SAMPLE_COUNT
                         then Some(Recovered(delta, AtLeastOne(sampleMs), RateHz(delta, sampleMs)))
                         else None)
    {
      var previous := previousTickCount;
      previousTickCount := Some(tickCount);
      if previous.None? {
        return None;
      }
      var sample := AtLeastOne(sampleMs);
      var tickDelta := TickDelta(previous.value, tickCount);
      var rateHz := RateHz(tickDelta, sampleMs);
      var isSlow := rateHz < MIN_TICK_RATE_HZ;
      slow := slow + [isSlow];
      assert slow[..|slow| - 1] == old(slow);
      if isSlow {
        slowSamples := if slowSamples < BYTE_MAX then slowSamples + 1 else BYTE_MAX;
        if !degraded && slowSamples >= DEGRADED_SAMPLE_COUNT {
          degraded := true;
          return Some(Degraded(tickDelta, sample, rateHz));
        }
      } else {
        slowSamples := 0;
        if degraded {
          degraded := false;
          return Some(Recovered(tickDelta, sample, rateHz));
        }
      }
      return None;
    }

    method Reset()
      modifies this
      ensures Valid() && previousTickCount == None && slow == []
    {
      previousTickCount, slowSamples, degraded, slow := None, 0, false, [];
    }
  }

  datatype Report = Down | Up

  /** The reports of a whole run of samples. */
  function Reports(slow: seq<bool>): seq<Report> {
    if slow == [] then []
    else
      var before := slow[..|slow| - 1];
      Reports(before)
      + (if SlowStreak(slow) == DEGRADED_SAMPLE_COUNT then [Down]
         else if SlowStreak(slow) == 0 && SlowStreak(before) >= DEGRADED_SAMPLE_COUNT then [Up]
         else [])
  }

  /** Degradations and recoveries alternate, beginning with a degradation, and the last
      one tells the present state. */
  lemma {:induction false} ReportsAlternate(slow: seq<bool>)
    ensures forall i :: 0 <= i < |Reports(slow)| ==> Reports(slow)[i] == if i % 2 == 0 then Down else Up
    ensures SlowStreak(slow) >= DEGRADED_SAMPLE_COUNT <==> |Reports(slow)| % 2 == 1
    decreases |slow|
  {
    if slow != [] {
      ReportsAlternate(slow[..|slow| - 1]);
    }
  }

  // ----- hook timing -----

  const STAGES := 7

  /** What a counter grew by; one that fell has restarted from zero. */
  function Growth(previous: u64, current: u64): u64 {
    if current < previous then current else current - previous
  }

  /** One stage's timing record, as the client sends it. */
  datatype Timing = Timing(
    stage: nat, budget: u32, callCount: u64, totalDuration: u64, maximumDuration: u32, overBudgetCount: u64,
    lastDuration: u32)

  datatype Overrun = Overrun(timing: Timing, delta: u64)

  /** The overruns of one response, for its records up to `n`. */
  function Overruns(previous: seq<u64>, current: seq<Timing>, n: nat): seq<Overrun>
    requires n <= |previous| && n <= |current|
  {
    if n == 0 then []
    else
      var delta := Growth(previous[n - 1], current[n - 1].overBudgetCount);
      Overruns(previous, current, n - 1) + (if delta != 0 then [Overrun(current[n - 1], delta)] else [])
  }

  /** The counters of a response's records, in place order. */
  function Counts(timings: seq<Timing>): (counts: seq<u64>)
    ensures |counts| == |timings|
    ensures forall i :: 0 <= i < |timings| ==> counts[i] == timings[i].overBudgetCount
  {
    seq(|timings|, i requires 0 <= i < |timings| => timings[i].overBudgetCount)
  }

  class HookTimingMonitor {
    const overBudgetCounts: array<u64>

    ghost predicate Valid()
      reads this
    {
      overBudgetCounts.Length == STAGES
    }

    constructor ()
      ensures Valid() && fresh(overBudgetCounts)
      ensures overBudgetCounts[..] == seq(STAGES, _ => 0)
    {
      overBudgetCounts := new u64[STAGES](_ => 0);
    }

    /** `room` is how many reports the daemon's channel still takes. */
    method Observe(timed: bool, timings: seq<Timing>, room: nat) returns (ok: bool, sent: seq<Overrun>)
      requires Valid() && |timings| == STAGES
      modifies overBudgetCounts
      ensures !timed ==> ok && sent == [] && overBudgetCounts[..] == seq(STAGES, _ => 0)
      ensures timed ==> (ok <==> |Overruns(old(overBudgetCounts[..]), timings, STAGES)| <= room)
      ensures timed && ok ==> sent == Overruns(old(overBudgetCounts[..]), timings, STAGES) && overBudgetCounts[..] == Counts(timings)
      ensures timed && !ok ==> |sent| == room && sent <= Overruns(old(overBudgetCounts[..]), timings, STAGES)
    {
      sent := [];
      if !timed {
        for i := 0 to STAGES
          invariant forall k :: 0 <= k < i ==> overBudgetCounts[k] == 0
        {
          overBudgetCounts[i] := 0;
        }
        assert overBudgetCounts[..] == seq(STAGES, _ => 0);
        return true, sent;
      }
      ghost var before := overBudgetCounts[..];
      for index := 0 to STAGES
        invariant sent == Overruns(before, timings, index) && |sent| <= room
        invariant forall k :: 0 <= k < index ==> overBudgetCounts[k] == timings[k].overBudgetCount
        invariant forall k :: index <= k < STAGES ==> overBudgetCounts[k] == before[k]
      {
        var previous := overBudgetCounts[index];
        var delta := Growth(previous, timings[index].overBudgetCount);
        overBudgetCounts[index] := timings[index].overBudgetCount;
        if delta != 0 {
          if |sent| == room {
            OverrunsGrow(before, timings, index, STAGES);
            OverrunsGrow(before, timings, index + 1, STAGES);
            return false, sent;
          }
          sent := sent + [Overrun(timings[index], delta)];
        }
      }
      assert overBudgetCounts[..] == Counts(timings);
      return true, sent;
    }
  }

  lemma {:induction false} OverrunsGrow(previous: seq<u64>, current: seq<Timing>, n: nat, m: nat)
    requires n <= m <= |previous| && m <= |current|
    ensures Overruns(previous, current, n) <= Overruns(previous, current, m)
    decreases m
  {
    if n < m {
      OverrunsGrow(previous, current, n, m - 1);
    }
  }

  /** Everything reported for one stage over a run of its counter's values. */
  function TotalGrowth(previous: u64, counts: seq<u64>): nat
    decreases |counts|
  {
    if counts == [] then 0 else Growth(previous, counts[0]) + TotalGrowth(counts[0], counts[1..])
  }

  /** What the counter had reached each time it restarted. */
  function TotalLost(previous: u64, counts: seq<u64>): nat
    decreases |counts|
  {
    if counts == [] then 0
    else (if counts[0] < previous then previous else 0) + TotalLost(counts[0], counts[1..])
  }

  /** The reports add up: what was reported, on top of where the counter began, is
      where it stands plus what it had reached at every restart. */
  lemma {:induction false} ReportsAddUp(previous: u64, counts: seq<u64>)
    ensures previous + TotalGrowth(previous, counts)
            == (if counts == [] then previous else counts[|counts| - 1]) + TotalLost(previous, counts)
    decreases |counts|
  {
    if counts != [] {
      ReportsAddUp(counts[0], counts[1..]);
    }
  }
}
