/** The conditions under which feedback may be rendered as force on the leader arms. */
module BilateralGate {
  import opened Doubles
  import opened FeedbackStateBuffer
  import opened Wrappers

  datatype GateConfig = GateConfig(
    requireWired: bool,
    allowLoopback: bool,
    minLinkSpeedMbps: int,
    minFeedbackRateHz: real,
    maxFeedbackAgeMs: real,
    maxRttP95Ms: real,
    maxLossPercent: real,
    requireFollowerLinkOk: bool)

  datatype LinkInfo = LinkInfo(
    resolved: bool,
    isLoopback: bool,
    isWireless: bool,
    hasDevice: bool,
    carrier: bool,
    speedMbps: int)

  datatype Reason =
    | FeedbackDisabled
    | LinkUnresolved | PeerOverLoopback | InterfaceWireless | InterfaceVirtual | NoCarrier | LinkTooSlow
    | NoFeedback | FeedbackTooOld | RateTooLow | NoRoundTrips | RttTooHigh | LossTooHigh | FollowerLinkBad | FollowerEstop

  datatype GateResult = GateResult(ok: bool, reasons: seq<Reason>)

  function When(fault: bool, reason: Reason): (r: seq<Reason>)
    ensures forall x :: x in r <==> fault && x == reason
  {
    if fault then [reason] else []
  }

  function Verdict(reasons: seq<Reason>): GateResult {
    GateResult(reasons == [], reasons)
  }

  // ---------------------------------------------------------------- the local link

  /** What the configuration asks of the interface towards the peer. */
  predicate LinkAcceptable(config: GateConfig, link: LinkInfo) {
    && link.resolved
    && (link.isLoopback ==> config.allowLoopback)
    && (!link.isLoopback && config.requireWired ==>
          !link.isWireless && link.hasDevice && link.carrier && link.speedMbps >= config.minLinkSpeedMbps)
  }

  predicate WiredNeeded(config: GateConfig, link: LinkInfo) {
    link.resolved && !link.isLoopback && config.requireWired
  }

  function LinkReasons(config: GateConfig, link: LinkInfo): seq<Reason> {
    When(!link.resolved, LinkUnresolved)
    + When(link.resolved && link.isLoopback && !config.allowLoopback, PeerOverLoopback)
    + When(WiredNeeded(config, link) && link.isWireless, InterfaceWireless)
    + When(WiredNeeded(config, link) && !link.hasDevice, InterfaceVirtual)
    + When(WiredNeeded(config, link) && !link.carrier, NoCarrier)
    + When(WiredNeeded(config, link) && link.speedMbps < config.minLinkSpeedMbps, LinkTooSlow)
  }

  method CheckLink(config: GateConfig, link: LinkInfo) returns (r: GateResult)
    ensures r == Verdict(LinkReasons(config, link))
    ensures r.ok <==> LinkAcceptable(config, link)
    ensures r.ok <==> && link.resolved && (link.isLoopback ==> config.allowLoopback)
                      && (link.isLoopback || !config.requireWired
                          || (!link.isWireless && link.hasDevice && link.carrier && link.speedMbps >= config.minLinkSpeedMbps))
  {
    LinkReasonsEmptyIff(config, link);
    if !link.resolved {
      return GateResult(false, [LinkUnresolved]);
    }
    var reasons: seq<Reason> := [];
    if link.isLoopback {
      if !config.allowLoopback {
        reasons := reasons + [PeerOverLoopback];
      }
    } else if config.requireWired {
      if link.isWireless {
        reasons := reasons + [InterfaceWireless];
      }
      if !link.hasDevice {
        reasons := reasons + [InterfaceVirtual];
      }
      if !link.carrier {
        reasons := reasons + [NoCarrier];
      }
      if link.speedMbps < config.minLinkSpeedMbps {
        reasons := reasons + [LinkTooSlow];
      }
    }
    r := GateResult(reasons == [], reasons);
  }

  /** The link is refused exactly when something is named as the reason. */
  lemma LinkReasonsEmptyIff(config: GateConfig, link: LinkInfo)
    ensures LinkReasons(config, link) == [] <==> LinkAcceptable(config, link)
  {
    var reasons := LinkReasons(config, link);
    if reasons == [] {
      assert LinkUnresolved !in reasons && PeerOverLoopback !in reasons && InterfaceWireless !in reasons;
      assert InterfaceVirtual !in reasons && NoCarrier !in reasons && LinkTooSlow !in reasons;
    }
  }

  // ---------------------------------------------------------------- feedback quality

  predicate FeedbackAcceptable(config: GateConfig, s: Stats, latest: Option<Feedback>) {
    && s.hasData && latest.Some?
    && s.ageMs <= config.maxFeedbackAgeMs
    && !Less(s.rateHz, Finite(config.minFeedbackRateHz))
    && 0.0 <= s.rttP95Ms <= config.maxRttP95Ms
    && s.lossPercent <= config.maxLossPercent
    && (config.requireFollowerLinkOk ==> latest.value.linkOk != 0)
    && latest.value.header.estop == 0
  }

  function QualityReasons(config: GateConfig, s: Stats): seq<Reason> {
    TimingReasons(config, s)
    + When(s.rttP95Ms < 0.0, NoRoundTrips)
    + When(s.rttP95Ms >= 0.0 && s.rttP95Ms > config.maxRttP95Ms, RttTooHigh)
    + When(s.lossPercent > config.maxLossPercent, LossTooHigh)
  }

  function TimingReasons(config: GateConfig, s: Stats): seq<Reason> {
    When(s.ageMs > config.maxFeedbackAgeMs, FeedbackTooOld)
    + When(Less(s.rateHz, Finite(config.minFeedbackRateHz)), RateTooLow)
  }

  function FeedbackReasons(config: GateConfig, s: Stats, latest: Option<Feedback>): seq<Reason> {
    if !s.hasData || latest.None? then [NoFeedback]
    else
      QualityReasons(config, s)
      + When(config.requireFollowerLinkOk && latest.value.linkOk == 0, FollowerLinkBad)
      + When(latest.value.header.estop != 0, FollowerEstop)
  }

  method CheckFeedback(config: GateConfig, s: Stats, latest: Option<Feedback>) returns (r: GateResult)
    ensures r == Verdict(FeedbackReasons(config, s, latest))
    ensures r.ok <==> FeedbackAcceptable(config, s, latest)
  {
    FeedbackReasonsEmptyIff(config, s, latest);
    hide Less, FeedbackAcceptable, When;
    Whens();
    if !s.hasData || latest.None? {
      return GateResult(false, [NoFeedback]);
    }
    var reasons: seq<Reason> := [];
    if s.ageMs > config.maxFeedbackAgeMs {
      reasons := reasons + [FeedbackTooOld];
    }
    assert reasons == When(s.ageMs > config.maxFeedbackAgeMs, FeedbackTooOld);
    if Less(s.rateHz, Finite(config.minFeedbackRateHz)) {
      reasons := reasons + [RateTooLow];
    }
    assert reasons == TimingReasons(config, s);
    hide TimingReasons;
    if s.rttP95Ms < 0.0 {
      reasons := reasons + [NoRoundTrips];
    } else if s.rttP95Ms > config.maxRttP95Ms {
      reasons := reasons + [RttTooHigh];
    }
    if s.lossPercent > config.maxLossPercent {
      reasons := reasons + [LossTooHigh];
    }
    assert reasons == QualityReasons(config, s);
    hide QualityReasons;
    if config.requireFollowerLinkOk && latest.value.linkOk == 0 {
      reasons := reasons + [FollowerLinkBad];
    }
    assert reasons == QualityReasons(config, s)
                      + When(config.requireFollowerLinkOk && latest.value.linkOk == 0, FollowerLinkBad);
    if latest.value.header.estop != 0 {
      reasons := reasons + [FollowerEstop];
    }
    r := GateResult(reasons == [], reasons);
  }

  lemma Whens()
    ensures forall reason :: When(true, reason) == [reason] && When(false, reason) == []
  {
  }

  /** The feedback is refused exactly when something is named as the reason. */
  lemma FeedbackReasonsEmptyIff(config: GateConfig, s: Stats, latest: Option<Feedback>)
    ensures FeedbackReasons(config, s, latest) == [] <==> FeedbackAcceptable(config, s, latest)
  {
    hide Less;
    if s.hasData && latest.Some? {
      var reasons := FeedbackReasons(config, s, latest);
      if reasons == [] {
        assert FeedbackTooOld !in reasons && RateTooLow !in reasons && NoRoundTrips !in reasons;
        assert RttTooHigh !in reasons && LossTooHigh !in reasons;
        assert FollowerLinkBad !in reasons && FollowerEstop !in reasons;
      }
    }
  }
}
