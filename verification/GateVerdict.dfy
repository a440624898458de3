/** The gate's verdict on a snapshot, in terms of the raw samples. */
module GateVerdict {
  import opened BilateralGate
  import opened Doubles
  import opened Durations
  import opened FeedbackStateBuffer
  import opened OrderStatistics
  import opened SequenceNumbers
  import opened Wrappers

  /** Packets lost before the samples of the window, counted without a bound. */
  function TrueLost(window: seq<Sample>): nat {
    if window == [] then 0 else TrueLost(window[..|window| - 1]) + window[|window| - 1].lostBefore
  }

  /** How many samples carry a round trip. */
  function Carrying(window: seq<Sample>): nat {
    if window == [] then 0
    else Carrying(window[..|window| - 1]) + if window[|window| - 1].rttNs > 0 then 1 else 0
  }

  /** How many samples carry a round trip within the limit. */
  function Fast(window: seq<Sample>, limitMs: real): nat {
    if window == [] then 0
    else
      var last := window[|window| - 1].rttNs;
      Fast(window[..|window| - 1], limitMs) + if last > 0 && last as real <= 1_000_000.0 * limitMs then 1 else 0
  }

  lemma {:induction false} RttsAreCounted(window: seq<Sample>, limitMs: real)
    ensures |Rtts(window)| == Carrying(window) && CountWithin(Rtts(window), limitMs) == Fast(window, limitMs)
  {
    hide CountWithin;
    if window != [] {
      var n := |window| - 1;
      RttsAreCounted(window[..n], limitMs);
      CountAppended(Rtts(window[..n]), window[n].rttNs, limitMs);
      assert Rtts(window[..n]) + [] == Rtts(window[..n]);
    } else {
      assert CountWithin([], limitMs) == 0 by { CountOfNone(limitMs); }
    }
  }

  lemma CountOfNone(limitMs: real)
    ensures CountWithin([], limitMs) == 0
  {
  }

  /** The 32-bit counters of a snapshot hold the true numbers. */
  predicate CountersFit(window: seq<Sample>) {
    |window| + TrueLost(window) < WRAP
  }

  /** The link is good enough, said of the samples in the window, the newest packet and its age. */
  predicate RawVerdict(config: GateConfig, window: seq<Sample>, windowNs: nat, ageNs: nat, latest: Feedback) {
    && ageNs as real <= 1_000_000.0 * config.maxFeedbackAgeMs
    && |window| as real * 1_000_000_000.0 >= config.minFeedbackRateHz * windowNs as real
    && 100.0 * TrueLost(window) as real <= config.maxLossPercent * (|window| + TrueLost(window)) as real
    && Carrying(window) > 0
    && Fast(window, config.maxRttP95Ms) >= (0.95 * (Carrying(window) - 1) as real + 0.5).Floor + 1
    && (config.requireFollowerLinkOk ==> latest.linkOk != 0)
    && latest.header.estop == 0
  }

  lemma {:induction false} LostIsTrueLost(window: seq<Sample>)
    ensures LostIn(window) == TrueLost(window) % WRAP
  {
    if window != [] {
      LostIsTrueLost(window[..|window| - 1]);
      PlusMod(TrueLost(window[..|window| - 1]), window[|window| - 1].lostBefore);
    }
  }

  lemma {:induction false} RttsInWindow(window: seq<Sample>)
    ensures |Rtts(window)| <= |window|
    ensures forall x :: x in Rtts(window) ==> x > 0
  {
    if window != [] {
      RttsInWindow(window[..|window| - 1]);
    }
  }

  lemma RateVerdict(received: nat, windowNs: nat, minHz: real)
    ensures !Less(Quotient(received as real, windowNs as real / 1_000_000_000.0), Finite(minHz))
            <==> received as real * 1_000_000_000.0 >= minHz * windowNs as real
  {
    var n, w := received as real, windowNs as real;
    if windowNs > 0 {
      var t := w / 1_000_000_000.0;
      var q := n / t;
      assert q * t == n;
      assert w == t * 1_000_000_000.0;
      if q >= minHz {
        ScaleUp(minHz, q, t);
      } else {
        ScaleStrictlyUp(q, minHz, t);
      }
      assert minHz * w == (minHz * t) * 1_000_000_000.0;
    }
  }

  /** The loss percentage without wrap-around. */
  function TrueLossPercent(received: nat, lost: nat): real {
    if received + lost > 0 then 100.0 * lost as real / (received + lost) as real else 0.0
  }

  lemma LossVerdict(received: nat, lost: nat, maxPercent: real)
    requires received > 0
    ensures TrueLossPercent(received, lost) <= maxPercent <==> 100.0 * lost as real <= maxPercent * (received + lost) as real
  {
    QuotientAtMost(100.0 * lost as real, (received + lost) as real, maxPercent);
  }

  lemma FittingLossIsTrue(received: nat, lost: nat)
    requires received + lost < WRAP
    ensures LossPercent(received, lost) == TrueLossPercent(received, lost)
  {
    assert Plus(received, lost) == received + lost;
  }

  lemma RttVerdict(window: seq<Sample>, limitMs: real)
    ensures |Rtts(window)| == Carrying(window)
    ensures 0.0 <= PercentileOr(Rtts(window), 0.95, -1.0) <= limitMs
            <==> Carrying(window) > 0 && Fast(window, limitMs) >= (0.95 * (Carrying(window) - 1) as real + 0.5).Floor + 1
  {
    RttsAreCounted(window, limitMs);
    if Rtts(window) != [] {
      PercentileWithin(Rtts(window), 0.95, limitMs);
    }
  }

  /** No configuration can be misled: the counters fit, or the gate refuses for want of round trips or for an estop. */
  predicate Trustworthy(window: seq<Sample>, latest: Feedback) {
    CountersFit(window) || Rtts(window) == [] || latest.header.estop != 0
  }

  /** With the true loss, and a rate that is true or needs none, the verdict is the raw one. */
  lemma VerdictOnTrueLoss(config: GateConfig, l: Link, windowNs: nat, nowNs: nat, latest: Feedback)
    requires l.tracker.hasData && l.lastReceiveTimeNs <= nowNs
    requires var window := InWindow(l.log, nowNs, windowNs);
             && LossPercent(Received(window), LostIn(window)) == TrueLossPercent(|window|, TrueLost(window))
             && (Received(window) == |window| || windowNs == 0)
    ensures FeedbackAcceptable(config, StatsOf(l, windowNs, nowNs), Some(latest))
            <==> RawVerdict(config, InWindow(l.log, nowNs, windowNs), windowNs, nowNs - l.lastReceiveTimeNs, latest)
  {
    hide InWindow, Less, Quotient, LossPercent, TrueLossPercent, PercentileOr, MaximumOr, Carrying, Fast, Rtts, LostIn, TrueLost, Ms,
         Received;
    var window := InWindow(l.log, nowNs, windowNs);
    RttVerdict(window, config.maxRttP95Ms);
    MsAtMost(nowNs - l.lastReceiveTimeNs, config.maxFeedbackAgeMs);
    RttsInWindow(window);
    RateVerdict(|window|, windowNs, config.minFeedbackRateHz);
    RateVerdict(Received(window), windowNs, config.minFeedbackRateHz);
    if window != [] {
      LossVerdict(|window|, TrueLost(window), config.maxLossPercent);
    }
  }

  /** On a trustworthy window the gate passes a snapshot exactly when the raw samples are good enough. */
  lemma VerdictInRawTerms(config: GateConfig, l: Link, windowNs: nat, nowNs: nat, latest: Feedback)
    requires l.tracker.hasData && l.lastReceiveTimeNs <= nowNs
    requires Trustworthy(InWindow(l.log, nowNs, windowNs), latest)
    ensures FeedbackAcceptable(config, StatsOf(l, windowNs, nowNs), Some(latest))
            <==> RawVerdict(config, InWindow(l.log, nowNs, windowNs), windowNs, nowNs - l.lastReceiveTimeNs, latest)
  {
    hide InWindow, LossPercent, TrueLossPercent, PercentileOr, Carrying, Fast, Rtts, LostIn, TrueLost, StatsOf;
    var window := InWindow(l.log, nowNs, windowNs);
    if CountersFit(window) {
      LostIsTrueLost(window);
      FittingLossIsTrue(|window|, TrueLost(window));
      VerdictOnTrueLoss(config, l, windowNs, nowNs, latest);
    } else {
      RefusedBothWays(config, l, windowNs, nowNs, latest);
    }
  }

  lemma RefusedBothWays(config: GateConfig, l: Link, windowNs: nat, nowNs: nat, latest: Feedback)
    requires l.tracker.hasData && l.lastReceiveTimeNs <= nowNs
    requires Rtts(InWindow(l.log, nowNs, windowNs)) == [] || latest.header.estop != 0
    ensures !FeedbackAcceptable(config, StatsOf(l, windowNs, nowNs), Some(latest))
    ensures !RawVerdict(config, InWindow(l.log, nowNs, windowNs), windowNs, nowNs - l.lastReceiveTimeNs, latest)
  {
    hide InWindow, Less, LossPercent, Rtts, LostIn, Fast, Carrying;
    RttVerdict(InWindow(l.log, nowNs, windowNs), 0.0);
  }
}
