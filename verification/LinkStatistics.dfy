/** What each number of a snapshot says about the raw samples. */
module LinkStatistics {
  import opened Doubles
  import opened Durations
  import opened FeedbackStateBuffer
  import opened GateVerdict
  import opened OrderStatistics
  import opened SequenceNumbers

  /** The window keeps every sample of the log that is young enough, as often as it was logged, and no other. */
  lemma {:induction false} WindowKeepsYoung(log: seq<Sample>, nowNs: int, windowNs: nat, s: Sample)
    ensures multiset(InWindow(log, nowNs, windowNs))[s] == if nowNs - s.recvTimeNs <= windowNs then multiset(log)[s] else 0
  {
    if log != [] {
      var n := |log| - 1;
      WindowKeepsYoung(log[..n], nowNs, windowNs, s);
      assert log == log[..n] + [log[n]];
    }
  }

  /** How many samples answered a command held at most so long. */
  function ShortlyHeld(window: seq<Sample>, limitMs: real): nat {
    if window == [] then 0
    else
      var last := window[|window| - 1].cmdHoldNs;
      ShortlyHeld(window[..|window| - 1], limitMs) + if last as real <= 1_000_000.0 * limitMs then 1 else 0
  }

  lemma {:induction false} HoldsAreCounted(window: seq<Sample>, limitMs: real)
    ensures CountWithin(Holds(window), limitMs) == ShortlyHeld(window, limitMs)
  {
    hide CountWithin;
    if window == [] {
      CountOfNone(limitMs);
    } else {
      var n := |window| - 1;
      HoldsAreCounted(window[..n], limitMs);
      CountAppended(Holds(window[..n]), window[n].cmdHoldNs, limitMs);
    }
  }

  lemma MaximumWithin(v: seq<nat>, limitMs: real)
    requires v != []
    ensures MaximumOr(v, -1.0) <= limitMs <==> CountWithin(v, limitMs) == |v|
  {
    hide Sorted, CountWithin, IsSorted, Ms, IsWithin;
    SortedIsSorted(v);
    CountSorted(v, limitMs);
    CountBounded(v, limitMs);
    SortedElementWithin(Sorted(v), |v| - 1, limitMs);
    MsIsWithin(Sorted(v)[|v| - 1], limitMs);
  }

  lemma MsIsWithin(ns: nat, limitMs: real)
    ensures Ms(ns) <= limitMs <==> IsWithin(ns, limitMs)
  {
    MsAtMost(ns, limitMs);
  }

  lemma {:induction false} CountBounded(v: seq<nat>, limitMs: real)
    ensures CountWithin(v, limitMs) <= |v|
  {
    hide IsWithin;
    if v != [] {
      CountBounded(v[1..], limitMs);
    }
  }

  /** The rank of a percentile among n samples. */
  function Rank(n: nat, p: real): int {
    (p * (n - 1) as real + 0.5).Floor + 1
  }

  /** The round-trip figures: the median, the 95th percentile and the largest, as counts of the window's samples. */
  lemma RoundTripFigures(l: Link, windowNs: nat, nowNs: nat, limitMs: real)
    requires l.tracker.hasData && l.lastReceiveTimeNs <= nowNs
    ensures var s, window := StatsOf(l, windowNs, nowNs), InWindow(l.log, nowNs, windowNs);
            if Carrying(window) == 0 then s.rttP50Ms == s.rttP95Ms == s.rttMaxMs == -1.0
            else
              && (s.rttP50Ms <= limitMs <==> Fast(window, limitMs) >= Rank(Carrying(window), 0.50))
              && (s.rttP95Ms <= limitMs <==> Fast(window, limitMs) >= Rank(Carrying(window), 0.95))
              && (s.rttMaxMs <= limitMs <==> Fast(window, limitMs) == Carrying(window))
  {
    hide InWindow, Percentile, MaximumOr, Rtts, Carrying, Fast, CountWithin, Holds, LossPercent, Rate;
    var window := InWindow(l.log, nowNs, windowNs);
    RttsAreCounted(window, limitMs);
    if Rtts(window) != [] {
      PercentileWithin(Rtts(window), 0.50, limitMs);
      PercentileWithin(Rtts(window), 0.95, limitMs);
      MaximumWithin(Rtts(window), limitMs);
    } else {
      NoMaximum();
    }
  }

  lemma NoMaximum()
    ensures MaximumOr([], -1.0) == -1.0
  {
  }

  /** The 95th percentile of the follower's hold times, as a count of the window's samples. */
  lemma HoldFigure(l: Link, windowNs: nat, nowNs: nat, limitMs: real)
    requires l.tracker.hasData && l.lastReceiveTimeNs <= nowNs
    ensures var s, window := StatsOf(l, windowNs, nowNs), InWindow(l.log, nowNs, windowNs);
            if window == [] then s.cmdHoldP95Ms == -1.0
            else s.cmdHoldP95Ms <= limitMs <==> ShortlyHeld(window, limitMs) >= Rank(|window|, 0.95)
  {
    hide InWindow, Percentile, MaximumOr, Rtts, ShortlyHeld, CountWithin, Holds, LossPercent, Rate;
    var window := InWindow(l.log, nowNs, windowNs);
    HoldsAreCounted(window, limitMs);
    if window != [] {
      PercentileWithin(Holds(window), 0.95, limitMs);
    }
  }

  /** Age and rate in nanoseconds, and the totals; without data there is no age. */
  lemma AgeAndRate(l: Link, windowNs: nat, nowNs: nat)
    requires l.lastReceiveTimeNs <= nowNs
    ensures var s, window := StatsOf(l, windowNs, nowNs), InWindow(l.log, nowNs, windowNs);
            && s.hasData == l.tracker.hasData && s.receivedTotal == l.receivedTotal && s.lostTotal == l.tracker.lost
            && (!s.hasData ==> s.ageMs < 0.0)
            && (s.hasData ==> s.ageMs * 1_000_000.0 == (nowNs - l.lastReceiveTimeNs) as real)
            && (s.hasData && windowNs > 0 && |window| < WRAP ==>
                  s.rateHz.Finite? && s.rateHz.value * windowNs as real == |window| as real * 1_000_000_000.0)
  {
    hide InWindow, PercentileOr, MaximumOr, Rtts, Holds, LossPercent, Ms;
    var window := InWindow(l.log, nowNs, windowNs);
    if windowNs > 0 {
      RateTimesWindow(Received(window), windowNs);
    }
  }

  lemma RateTimesWindow(received: uint32, windowNs: nat)
    requires windowNs > 0
    ensures Rate(received, windowNs).Finite? && Rate(received, windowNs).value * windowNs as real == received as real * 1_000_000_000.0
  {
    var t := windowNs as real / 1_000_000_000.0;
    var q := received as real / t;
    assert q * t == received as real;
    assert windowNs as real == t * 1_000_000_000.0;
    assert q * windowNs as real == (q * t) * 1_000_000_000.0;
  }
}
