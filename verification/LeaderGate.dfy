/**
 When the leader may ask for bilateral operation: the request, the handlers that change it and the
 gate that keeps being evaluated while it stands.  A handler is one step.
 */
module LeaderGate {
  import opened BilateralGate
  import opened FeedbackStateBuffer
  import opened Wrappers
  import Packets

  /** A buffer as an evaluation sees it; the two parts are read under separate locks. */
  datatype Reading = Reading(latest: Option<Feedback>, stats: Stats)

  /** What an evaluation finds when it looks: the interface towards the peer and both arms' feedback. */
  datatype Surroundings = Surroundings(link: LinkInfo, right: Reading, left: Reading)

  datatype GateSettings = GateSettings(
    feedbackEnabled: bool,
    peerConfigured: bool,
    linkRecheckNs: nat,
    gate: GateConfig)

  datatype Gate = Gate(
    commandEnabled: bool,
    requested: bool,
    keepRunning: bool,
    linkReasons: seq<Reason>,
    nextLinkCheckNs: int,
    nextGateCheckNs: int)

  const GATE_PERIOD_NS: int := 100_000_000

  /** An interface nothing is known of. */
  const UNKNOWN_LINK: LinkInfo := LinkInfo(false, false, false, false, false, 0)

  function RefreshedLink(c: GateSettings, link: LinkInfo): seq<Reason> {
    LinkReasons(c.gate, if c.peerConfigured then link else UNKNOWN_LINK)
  }

  function GateReasons(c: GateSettings, linkReasons: seq<Reason>, right: Reading, left: Reading): seq<Reason> {
    if !c.feedbackEnabled then [FeedbackDisabled]
    else
      linkReasons + FeedbackReasons(c.gate, right.stats, right.latest) + FeedbackReasons(c.gate, left.stats, left.latest)
  }

  /** All that an evaluation asks for. */
  predicate Passes(c: GateSettings, linkReasons: seq<Reason>, right: Reading, left: Reading) {
    && c.feedbackEnabled && linkReasons == []
    && FeedbackAcceptable(c.gate, right.stats, right.latest)
    && FeedbackAcceptable(c.gate, left.stats, left.latest)
  }

  lemma PassesIffNoReasons(c: GateSettings, linkReasons: seq<Reason>, right: Reading, left: Reading)
    ensures GateReasons(c, linkReasons, right, left) == [] <==> Passes(c, linkReasons, right, left)
  {
    hide FeedbackReasons, FeedbackAcceptable;
    FeedbackReasonsEmptyIff(c.gate, right.stats, right.latest);
    FeedbackReasonsEmptyIff(c.gate, left.stats, left.latest);
  }

  datatype Action =
    | BilateralEnable(around: Surroundings)
    | BilateralDisable
    | Enable
    | Disable
    | Estop
    | Shutdown
    | GateBlock(around: Surroundings)

  function Enabled(c: GateSettings, g: Gate, around: Surroundings): Gate {
    if !g.commandEnabled then g
    else
      var reasons := RefreshedLink(c, around.link);
      g.(linkReasons := reasons, requested := g.requested || Passes(c, reasons, around.right, around.left))
  }

  predicate ChecksLink(g: Gate, nowNs: int) {
    g.requested && nowNs >= g.nextLinkCheckNs
  }

  predicate ChecksGate(g: Gate, nowNs: int) {
    g.requested && nowNs >= g.nextGateCheckNs
  }

  /** The link's reasons as the block's evaluation sees them. */
  function LinkReasonsAt(c: GateSettings, g: Gate, around: Surroundings, nowNs: int): seq<Reason> {
    if ChecksLink(g, nowNs) then RefreshedLink(c, around.link) else g.linkReasons
  }

  function Blocked(c: GateSettings, g: Gate, around: Surroundings, nowNs: int): Gate {
    var reasons := LinkReasonsAt(c, g, around, nowNs);
    g.(linkReasons := reasons,
       nextLinkCheckNs := if ChecksLink(g, nowNs) then nowNs + c.linkRecheckNs else g.nextLinkCheckNs,
       nextGateCheckNs := if ChecksGate(g, nowNs) then nowNs + GATE_PERIOD_NS else g.nextGateCheckNs,
       requested := g.requested && (ChecksGate(g, nowNs) ==> Passes(c, reasons, around.right, around.left)))
  }

  function Next(c: GateSettings, g: Gate, a: Action, nowNs: int): Gate {
    match a
    case BilateralEnable(around) => Enabled(c, g, around)
    case BilateralDisable => g.(requested := false)
    case Enable => g.(commandEnabled := true)
    case Disable => g.(commandEnabled := false, requested := false)
    case Estop => g.(commandEnabled := false, requested := false, keepRunning := false)
    case Shutdown => g.(commandEnabled := false, keepRunning := false)
    case GateBlock(around) => Blocked(c, g, around, nowNs)
  }

  /** The mode and enable flag of the command packets sent after the block; estop is never set. */
  function PacketMode(g: Gate): bv8 {
    if g.requested then Packets.BILATERAL else Packets.UNILATERAL
  }

  function PacketEnable(g: Gate): bv8 {
    if g.commandEnabled then 1 else 0
  }

  function Started(c: GateSettings, initialEnable: bool, link: LinkInfo, startNs: int): Gate {
    Gate(initialEnable, false, true, if c.feedbackEnabled then RefreshedLink(c, link) else [], startNs, startNs)
  }

  class Gatekeeper {
    const settings: GateSettings
    var commandEnabled: bool
    var bilateralRequested: bool
    var keepRunning: bool
    var linkResult: GateResult
    var nextLinkCheckNs: int
    var nextGateCheckNs: int

    function View(): Gate
      reads this
    {
      Gate(commandEnabled, bilateralRequested, keepRunning, linkResult.reasons, nextLinkCheckNs, nextGateCheckNs)
    }

    /** At start-up nothing is requested, and the link is looked at if feedback is wanted. */
    constructor (settings: GateSettings, initialEnable: bool, link: LinkInfo, startNs: int)
      ensures this.settings == settings
      ensures View() == Started(settings, initialEnable, link, startNs)
      ensures commandEnabled == initialEnable && !bilateralRequested && keepRunning
      ensures nextLinkCheckNs == nextGateCheckNs == startNs
    {
      this.settings := settings;
      commandEnabled, bilateralRequested, keepRunning := initialEnable, false, true;
      linkResult := GateResult(false, []);
      nextLinkCheckNs, nextGateCheckNs := startNs, startNs;
      new;
      if settings.feedbackEnabled {
        RefreshLink(link);
      }
    }

    method RefreshLink(link: LinkInfo)
      modifies this`linkResult
      ensures linkResult.reasons == RefreshedLink(settings, link)
    {
      linkResult := CheckLink(settings.gate, if settings.peerConfigured then link else UNKNOWN_LINK);
    }

    method EvaluateGate(right: Reading, left: Reading) returns (total: GateResult)
      ensures total == Verdict(GateReasons(settings, linkResult.reasons, right, left))
      ensures total.ok <==> Passes(settings, linkResult.reasons, right, left)
    {
      PassesIffNoReasons(settings, linkResult.reasons, right, left);
      hide FeedbackReasons, FeedbackAcceptable, Passes;
      if !settings.feedbackEnabled {
        return GateResult(false, [FeedbackDisabled]);
      }
      var rr := CheckFeedback(settings.gate, right.stats, right.latest);
      var rl := CheckFeedback(settings.gate, left.stats, left.latest);
      var reasons := linkResult.reasons + rr.reasons + rl.reasons;
      total := GateResult(reasons == [], reasons);
    }

    method BilateralEnable(around: Surroundings) returns (accepted: bool)
      modifies this
      ensures View() == Enabled(settings, old(View()), around)
      ensures accepted <==> old(commandEnabled) && Passes(settings, linkResult.reasons, around.right, around.left)
    {
      hide Passes, RefreshedLink;
      if !commandEnabled {
        return false;
      }
      RefreshLink(around.link);
      var g := EvaluateGate(around.right, around.left);
      if !g.ok {
        return false;
      }
      bilateralRequested := true;
      accepted := true;
    }

    /** The part of the control loop that keeps judging a standing request. */
    method GateBlock(around: Surroundings, nowNs: int)
      modifies this
      ensures View() == Blocked(settings, old(View()), around, nowNs)
    {
      hide Passes, RefreshedLink;
      if bilateralRequested {
        if nowNs >= nextLinkCheckNs {
          RefreshLink(around.link);
          nextLinkCheckNs := nowNs + settings.linkRecheckNs;
        }
        if nowNs >= nextGateCheckNs {
          var g := EvaluateGate(around.right, around.left);
          if !g.ok {
            bilateralRequested := false;
          }
          nextGateCheckNs := nowNs + GATE_PERIOD_NS;
        }
      }
    }

    method BilateralDisable()
      modifies this
      ensures View() == old(View()).(requested := false)
    {
      bilateralRequested := false;
    }

    method Enable()
      modifies this
      ensures View() == old(View()).(commandEnabled := true)
    {
      commandEnabled := true;
    }

    method Disable()
      modifies this
      ensures View() == old(View()).(commandEnabled := false, requested := false)
    {
      commandEnabled, bilateralRequested := false, false;
    }

    method Estop()
      modifies this
      ensures View() == old(View()).(commandEnabled := false, requested := false, keepRunning := false)
    {
      commandEnabled, bilateralRequested, keepRunning := false, false, false;
    }

    /** The request stands, although docs/bilateral_design.md says that shutdown clears it. */
    method Shutdown()
      modifies this
      ensures View() == old(View()).(commandEnabled := false, keepRunning := false)
    {
      commandEnabled, keepRunning := false, false;
    }
  }
}
