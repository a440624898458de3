/** Where the gate's 32-bit counters wrap, and exactly when that misleads it. */
module GateCounters {
  import opened BilateralGate
  import opened Doubles
  import opened Durations
  import opened FeedbackStateBuffer
  import opened GateVerdict
  import opened OrderStatistics
  import opened SequenceNumbers
  import opened Wrappers
  import LinkRuns

  /** The reported loss is the true loss exactly when the counters fit. */
  lemma LossExactIffCountersFit(window: seq<Sample>)
    requires 0 < |window| < WRAP
    ensures LossPercent(Received(window), LostIn(window)) == TrueLossPercent(|window|, TrueLost(window))
            <==> CountersFit(window)
  {
    hide LossPercent, TrueLossPercent, TrueLost, LostIn;
    LostIsTrueLost(window);
    WrappedRatioDiffers(|window|, TrueLost(window));
  }

  lemma WrappedRatioDiffers(received: nat, lost: nat)
    requires 0 < received < WRAP
    ensures LossPercent(received, lost % WRAP) == TrueLossPercent(received, lost) <==> received + lost < WRAP
  {
    var q := Remainder(lost);
    var low := lost % WRAP;
    assert q >= 0 && (q == 0 <==> lost < WRAP);
    if received + low < WRAP {
      assert Plus(received, low) == received + low;
      if q > 0 {
        MoreLostIsWorse(received, low, lost);
      }
    } else {
      assert Plus(received, low) == received + low - WRAP;
      if received + low - WRAP > 0 {
        OverHundred(received + low - WRAP, low, received, lost);
      } else {
        SomeLossIsPositive(received, lost);
      }
    }
  }

  lemma FractionBelow(a: real, s: real, b: real, t: real)
    requires s > 0.0 && t > 0.0 && a * t < b * s
    ensures a / s < b / t
  {
    var x, y := a / s, b / t;
    assert x * s == a && y * t == b;
    assert a * t == x * (s * t) && b * s == y * (s * t);
    PositiveFactor(x, y, s * t);
  }

  lemma PositiveFactor(x: real, y: real, k: real)
    requires k > 0.0 && x * k < y * k
    ensures x < y
  {
  }

  lemma MoreLostIsWorse(received: nat, low: nat, lost: nat)
    requires 0 < received && low < lost
    ensures TrueLossPercent(received, low) < TrueLossPercent(received, lost)
  {
    var r, a, b := received as real, low as real, lost as real;
    assert (received + low) as real == r + a && (received + lost) as real == r + b;
    assert (100.0 * a) * (r + b) < (100.0 * b) * (r + a) by {
      ScaleStrictlyUp(a, b, r);
      assert (100.0 * a) * (r + b) == 100.0 * (a * r) + 100.0 * (a * b);
      assert (100.0 * b) * (r + a) == 100.0 * (b * r) + 100.0 * (a * b);
    }
    FractionBelow(100.0 * a, r + a, 100.0 * b, r + b);
  }

  lemma OverHundred(sum: nat, low: nat, received: nat, lost: nat)
    requires 0 < sum < low && 0 < received
    ensures TrueLossPercent(received, lost) < 100.0 < 100.0 * low as real / sum as real
  {
    var s, a := sum as real, low as real;
    FractionBelow(100.0, 1.0, 100.0 * a, s);
    var r, b := received as real, lost as real;
    assert (received + lost) as real == r + b;
    FractionBelow(100.0 * b, r + b, 100.0, 1.0);
  }

  lemma SomeLossIsPositive(received: nat, lost: nat)
    requires 0 < received && 0 < lost
    ensures TrueLossPercent(received, lost) > 0.0
  {
    var r, b := received as real, lost as real;
    assert (received + lost) as real == r + b;
    FractionBelow(0.0, 1.0, 100.0 * b, r + b);
  }

  // ---------------------------------------------------------------- the exact condition

  /** Configured this way the gate and the raw samples disagree. */
  ghost predicate Misleads(config: GateConfig, l: Link, windowNs: nat, nowNs: nat, latest: Feedback)
    requires l.lastReceiveTimeNs <= nowNs
  {
    FeedbackAcceptable(config, StatsOf(l, windowNs, nowNs), Some(latest))
    != RawVerdict(config, InWindow(l.log, nowNs, windowNs), windowNs, nowNs - l.lastReceiveTimeNs, latest)
  }

  /** Nothing but the rate and the loss can fail. */
  function Lenient(l: Link, windowNs: nat, nowNs: nat, minRateHz: real, maxLossPercent: real): GateConfig
    requires l.lastReceiveTimeNs <= nowNs
  {
    var p95 := PercentileOr(Rtts(InWindow(l.log, nowNs, windowNs)), 0.95, -1.0);
    GateConfig(false, true, 0, minRateHz, Ms(nowNs - l.lastReceiveTimeNs), p95, maxLossPercent, false)
  }

  lemma LenientReport(l: Link, windowNs: nat, nowNs: nat, latest: Feedback, minRateHz: real, maxLossPercent: real)
    requires l.tracker.hasData && l.lastReceiveTimeNs <= nowNs && latest.header.estop == 0
    requires Rtts(InWindow(l.log, nowNs, windowNs)) != []
    ensures var window := InWindow(l.log, nowNs, windowNs);
            FeedbackAcceptable(Lenient(l, windowNs, nowNs, minRateHz, maxLossPercent), StatsOf(l, windowNs, nowNs), Some(latest))
            <==> && Received(window) as real * 1_000_000_000.0 >= minRateHz * windowNs as real
                 && LossPercent(Received(window), LostIn(window)) <= maxLossPercent
  {
    hide InWindow, Less, Quotient, LossPercent, MaximumOr, LostIn, Percentile, Received, Ms, Rtts, Holds;
    var window := InWindow(l.log, nowNs, windowNs);
    RateVerdict(Received(window), windowNs, minRateHz);
    PercentileNonNegative(Rtts(window), 0.95);
  }

  lemma LenientTruth(l: Link, windowNs: nat, nowNs: nat, latest: Feedback, minRateHz: real, maxLossPercent: real)
    requires l.lastReceiveTimeNs <= nowNs && latest.header.estop == 0
    requires Rtts(InWindow(l.log, nowNs, windowNs)) != []
    ensures var window := InWindow(l.log, nowNs, windowNs);
            && window != []
            && (RawVerdict(Lenient(l, windowNs, nowNs, minRateHz, maxLossPercent), window, windowNs,
                           nowNs - l.lastReceiveTimeNs, latest)
                <==> && |window| as real * 1_000_000_000.0 >= minRateHz * windowNs as real
                     && TrueLossPercent(|window|, TrueLost(window)) <= maxLossPercent)
  {
    hide InWindow, TrueLossPercent, Carrying, Fast, TrueLost, Percentile, Ms, Rtts;
    var window := InWindow(l.log, nowNs, windowNs);
    RttsInWindow(window);
    PercentileNonNegative(Rtts(window), 0.95);
    RttVerdict(window, PercentileOr(Rtts(window), 0.95, -1.0));
    MsAtMost(nowNs - l.lastReceiveTimeNs, Ms(nowNs - l.lastReceiveTimeNs));
    LossVerdict(|window|, TrueLost(window), maxLossPercent);
  }

  lemma PercentileNonNegative(v: seq<nat>, p: real)
    requires v != [] && 0.0 <= p <= 1.0
    ensures Percentile(v, p) >= 0.0
  {
  }

  /** Wrapped losses mislead the gate that draws the line between the reported and the true loss. */
  lemma WrappedLossMisleads(l: Link, windowNs: nat, nowNs: nat, latest: Feedback) returns (config: GateConfig)
    requires l.tracker.hasData && l.lastReceiveTimeNs <= nowNs && latest.header.estop == 0
    requires var window := InWindow(l.log, nowNs, windowNs);
             Rtts(window) != [] && LossPercent(Received(window), LostIn(window)) != TrueLossPercent(|window|, TrueLost(window))
    ensures Misleads(config, l, windowNs, nowNs, latest)
  {
    hide InWindow, LossPercent, TrueLossPercent, FeedbackAcceptable, RawVerdict, Rtts, StatsOf, LostIn, TrueLost, Lenient;
    var window := InWindow(l.log, nowNs, windowNs);
    LenientTruth(l, windowNs, nowNs, latest, 0.0, 0.0);
    var reported := LossPercent(Received(window), LostIn(window));
    var line := MinReal(reported, TrueLossPercent(|window|, TrueLost(window)));
    config := Lenient(l, windowNs, nowNs, 0.0, line);
    LenientReport(l, windowNs, nowNs, latest, 0.0, line);
    LenientTruth(l, windowNs, nowNs, latest, 0.0, line);
  }

  /** A wrapped packet count misleads the gate that asks for the true rate. */
  lemma WrappedRateMisleads(l: Link, windowNs: nat, nowNs: nat, latest: Feedback) returns (config: GateConfig)
    requires l.tracker.hasData && l.lastReceiveTimeNs <= nowNs && latest.header.estop == 0
    requires var window := InWindow(l.log, nowNs, windowNs);
             Rtts(window) != [] && |window| >= WRAP && windowNs > 0
    ensures Misleads(config, l, windowNs, nowNs, latest)
  {
    hide InWindow, LossPercent, TrueLossPercent, FeedbackAcceptable, RawVerdict, Rtts, StatsOf, LostIn, TrueLost, Lenient;
    var window := InWindow(l.log, nowNs, windowNs);
    var rate := |window| as real * 1_000_000_000.0 / windowNs as real;
    assert rate * windowNs as real == |window| as real * 1_000_000_000.0;
    config := Lenient(l, windowNs, nowNs, rate, TrueLossPercent(|window|, TrueLost(window)));
    LenientReport(l, windowNs, nowNs, latest, rate, TrueLossPercent(|window|, TrueLost(window)));
    LenientTruth(l, windowNs, nowNs, latest, rate, TrueLossPercent(|window|, TrueLost(window)));
  }

  /** A window of no length has no rate that could fail, so only the loss can mislead. */
  predicate InstantLossIsTrue(window: seq<Sample>, windowNs: nat) {
    windowNs == 0 && LossPercent(Received(window), LostIn(window)) == TrueLossPercent(|window|, TrueLost(window))
  }

  /**
   The gate's verdict is the raw one under every configuration exactly on a trustworthy window, or on
   2^32 and more packets of one instant whose wrapped loss happens to be the true one.
   */
  lemma VerdictExactIffTrustworthy(l: Link, windowNs: nat, nowNs: nat, latest: Feedback)
    requires l.tracker.hasData && l.lastReceiveTimeNs <= nowNs
    ensures var window := InWindow(l.log, nowNs, windowNs);
            (forall config :: !Misleads(config, l, windowNs, nowNs, latest))
            <==> Trustworthy(window, latest) || InstantLossIsTrue(window, windowNs)
    ensures var window := InWindow(l.log, nowNs, windowNs);
            |window| < WRAP && InstantLossIsTrue(window, windowNs) ==> Trustworthy(window, latest)
  {
    hide InWindow, FeedbackAcceptable, RawVerdict, Rtts, StatsOf, CountersFit, LossPercent, TrueLossPercent, LostIn, TrueLost;
    var window := InWindow(l.log, nowNs, windowNs);
    RttsInWindow(window);
    if 0 < |window| < WRAP {
      LossExactIffCountersFit(window);
    }
    if Trustworthy(window, latest) {
      forall config ensures !Misleads(config, l, windowNs, nowNs, latest) {
        VerdictInRawTerms(config, l, windowNs, nowNs, latest);
      }
    } else if InstantLossIsTrue(window, windowNs) {
      forall config ensures !Misleads(config, l, windowNs, nowNs, latest) {
        VerdictOnTrueLoss(config, l, windowNs, nowNs, latest);
      }
    } else if |window| >= WRAP && windowNs > 0 {
      var config := WrappedRateMisleads(l, windowNs, nowNs, latest);
      assert Misleads(config, l, windowNs, nowNs, latest);
    } else {
      var config := WrappedLossMisleads(l, windowNs, nowNs, latest);
      assert Misleads(config, l, windowNs, nowNs, latest);
    }
  }

  // ---------------------------------------------------------------- a run that misleads

  function Numbered(fb: Feedback, seqNo: bv32): Feedback {
    fb.(header := fb.header.(seqNo := seqNo), cmdHoldNs := 0)
  }

  /** Two jumps of almost half the number range within one window, between two ordinary packets. */
  const JUMPS: seq<Sample> := [Sample(0, 0, 1, 0), Sample(0, 0x7FFF_FFFE, 1, 0), Sample(0, 0x7FFF_FFFE, 1, 0), Sample(0, 0, 1, 0)]

  const ONE_SECOND: nat := 1_000_000_000

  /** At least four packets a second, at most one percent of them lost. */
  const STRICT: GateConfig := GateConfig(true, false, 1000, 4.0, 20.0, 8.0, 1.0, false)

  lemma JumpsWrap()
    ensures TrueLost(JUMPS) == WRAP - 4
  {
    assert JUMPS[..3][..2] == JUMPS[..2] && JUMPS[..2][..1] == JUMPS[..1] && JUMPS[..1][..0] == [];
    assert TrueLost(JUMPS[..1]) == 0;
    assert TrueLost(JUMPS[..2]) == 0x7FFF_FFFE;
    assert TrueLost(JUMPS[..3]) == 0xFFFF_FFFC;
  }

  lemma JumpsAreFast()
    ensures Carrying(JUMPS) == 4 && Fast(JUMPS, 8.0) == 4
  {
    assert JUMPS[..3][..2] == JUMPS[..2] && JUMPS[..2][..1] == JUMPS[..1] && JUMPS[..1][..0] == [];
    assert Carrying(JUMPS[..1]) == 1 && Carrying(JUMPS[..2]) == 2 && Carrying(JUMPS[..3]) == 3;
    assert Fast(JUMPS[..1], 8.0) == 1 && Fast(JUMPS[..2], 8.0) == 2 && Fast(JUMPS[..3], 8.0) == 3;
  }

  /** Packets numbered 0, 0x7FFF_FFFF, 0xFFFF_FFFE and 0xFFFF_FFFF leave that log. */
  lemma JumpsArrive(fb: Feedback) returns (events: seq<LinkRuns.Event>, links: seq<Link>)
    ensures LinkRuns.IsRun(events, links) && |links| == 5
    ensures links[4].tracker.hasData && links[4].lastReceiveTimeNs == 0 && links[4].log == JUMPS
    ensures links[4].latest == Some(Numbered(fb, 0xFFFF_FFFF))
  {
    hide Extended, Plus;
    var p0, p1 := Numbered(fb, 0), Numbered(fb, 0x7FFF_FFFF);
    var p2, p3 := Numbered(fb, 0xFFFF_FFFE), Numbered(fb, 0xFFFF_FFFF);
    var l1 := Arrived(UNUSED, p0, 1, 0);
    var l2 := Arrived(l1, p1, 1, 0);
    var l3 := Arrived(l2, p2, 1, 0);
    var l4 := Arrived(l3, p3, 1, 0);
    events := [LinkRuns.Arrive(p0, 1, 0), LinkRuns.Arrive(p1, 1, 0), LinkRuns.Arrive(p2, 1, 0), LinkRuns.Arrive(p3, 1, 0)];
    links := [UNUSED, l1, l2, l3, l4];
    assert l4.log == JUMPS;
  }

  /** A run of the buffer after which almost total loss is reported as none and passes a strict gate. */
  lemma WrappedLossPasses(fb: Feedback) returns (events: seq<LinkRuns.Event>, links: seq<Link>)
    requires fb.header.estop == 0
    ensures LinkRuns.IsRun(events, links) && |links| == 5
    ensures links[4].latest.Some?
    ensures FeedbackAcceptable(STRICT, StatsOf(links[4], ONE_SECOND, 0), links[4].latest)
    ensures !RawVerdict(STRICT, InWindow(links[4].log, 0, ONE_SECOND), ONE_SECOND, 0, links[4].latest.value)
  {
    hide Carrying, Fast, Percentile, PercentileOr, MaximumOr, Rtts, LostIn, TrueLost, InWindow, Quotient, Less, LinkRuns.IsRun;
    events, links := JumpsArrive(fb);
    assert InWindow(JUMPS, 0, ONE_SECOND) == JUMPS by {
      AllInWindow(JUMPS, 0, ONE_SECOND);
    }
    JumpsWrap();
    LostIsTrueLost(JUMPS);
    RateVerdict(4, ONE_SECOND, 4.0);
    JumpsAreFast();
    RttVerdict(JUMPS, 8.0);
  }
}
