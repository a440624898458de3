/** One leader arm: the feedback callback and the force-rendering part of a control cycle. */
module LeaderCycle {
  import opened BilateralEngager
  import opened Doubles
  import opened EngagerRuns
  import opened FeedbackStateBuffer
  import opened LeaderControl
  import opened LeaderTorque
  import opened LinkStatistics
  import opened PacketCodec
  import opened PacketLayout
  import opened Packets
  import opened Wrappers

  // ---------------------------------------------------------------- feedback callback

  /** The round trip of an answered command, or 0 when nothing was answered or the clock disagrees. */
  function RoundTripNs(echoNs: bv64, systemNowNs: bv64): bv64 {
    if echoNs != 0 && systemNowNs > echoNs then systemNowNs - echoNs else 0
  }

  /** No round trip without an echo, nor one of a clock behind it; otherwise the time since the echoed sending. */
  lemma RoundTripIs(echoNs: bv64, systemNowNs: bv64)
    ensures RoundTripNs(echoNs, systemNowNs) == if echoNs == 0 || systemNowNs <= echoNs then 0 else systemNowNs - echoNs
  {
  }

  /** The packet with its words read as doubles. */
  function Numeric(p: FeedbackPacket<Word>, number: Word -> Double): Feedback {
    FeedbackPacket(
      p.header, p.armDof, p.handDof, p.safetyState, p.linkOk, p.echoCmdSeq, p.echoCmdSendTimeNs, p.cmdHoldNs,
      Numbers(p.armPos, number), Numbers(p.armVel, number), Numbers(p.armTau, number),
      Numbers(p.handPos, number), Numbers(p.handVel, number), Numbers(p.handTau, number), p.crc32)
  }

  function Numbers(words: seq<Word>, number: Word -> Double): (r: seq<Double>)
    ensures |r| == |words|
  {
    seq(|words|, i requires 0 <= i < |words| => number(words[i]))
  }

  /** Every word stays in its place. */
  lemma NumericKeepsPlaces(p: FeedbackPacket<Word>, number: Word -> Double, i: nat)
    ensures var fb := Numeric(p, number);
            && fb.header == p.header && fb.armDof == p.armDof && fb.handDof == p.handDof
            && fb.safetyState == p.safetyState && fb.linkOk == p.linkOk
            && fb.echoCmdSeq == p.echoCmdSeq && fb.echoCmdSendTimeNs == p.echoCmdSendTimeNs && fb.cmdHoldNs == p.cmdHoldNs
            && |fb.armPos| == |p.armPos| && (i < |p.armPos| ==> fb.armPos[i] == number(p.armPos[i]))
            && |fb.armVel| == |p.armVel| && (i < |p.armVel| ==> fb.armVel[i] == number(p.armVel[i]))
            && |fb.armTau| == |p.armTau| && (i < |p.armTau| ==> fb.armTau[i] == number(p.armTau[i]))
            && |fb.handPos| == |p.handPos| && (i < |p.handPos| ==> fb.handPos[i] == number(p.handPos[i]))
            && |fb.handVel| == |p.handVel| && (i < |p.handVel| ==> fb.handVel[i] == number(p.handVel[i]))
            && |fb.handTau| == |p.handTau| && (i < |p.handTau| ==> fb.handTau[i] == number(p.handTau[i]))
  {
  }

  /** A datagram of the right size that validates joins the link's statistics; any other leaves no trace. */
  method OnFeedback(buffer: Buffer, bytes: seq<bv8>, number: Word -> Double, systemNowNs: bv64, steadyNowNs: nat)
    requires buffer.Valid() && buffer.lastReceiveTimeNs <= steadyNowNs
    modifies buffer
    ensures buffer.Valid()
    ensures var received := ReceivedFeedback(bytes);
            buffer.full == if received.None? then old(buffer.full) else
                             Arrived(old(buffer.full), Numeric(received.value, number),
                                     RoundTripNs(received.value.echoCmdSendTimeNs, systemNowNs) as int, steadyNowNs)
  {
    hide RoundTripNs, Arrived, IsDuplicate, ReceivedFeedback, Numeric;
    var received := ReceiveFeedback(bytes);
    if received.None? {
      return;
    }
    EchoIsKept(received.value, number);
    var fb := Numeric(received.value, number);
    var rttNs := MeasureRoundTrip(fb.echoCmdSendTimeNs, systemNowNs);
    buffer.Update(fb, rttNs as int, steadyNowNs);
  }

  lemma EchoIsKept(p: FeedbackPacket<Word>, number: Word -> Double)
    ensures Numeric(p, number).echoCmdSendTimeNs == p.echoCmdSendTimeNs
  {
  }

  method MeasureRoundTrip(echoNs: bv64, systemNowNs: bv64) returns (rttNs: bv64)
    ensures rttNs == RoundTripNs(echoNs, systemNowNs)
    ensures rttNs == if echoNs == 0 || systemNowNs <= echoNs then 0 else systemNowNs - echoNs
  {
    rttNs := 0;
    if echoNs != 0 {
      if systemNowNs > echoNs {
        rttNs := systemNowNs - echoNs;
      }
    }
  }

  // ---------------------------------------------------------------- one arm of a control cycle

  datatype RenderConfig = RenderConfig(
    renderEnabled: bool,
    maxFeedbackAgeMs: real,
    engageMaxErrorRad: Double,
    engageMaxErrorGripper: Double,
    rateHz: real)

  /** What a cycle reads: the request, the buffer under two separate locks, and the measured joints. */
  datatype Inputs = Inputs(
    requested: bool,
    latest: Option<Feedback>,
    stats: Stats,
    arm: seq<Double>,
    hand: seq<Double>)

  predicate Fresh(c: RenderConfig, x: Inputs) {
    x.latest.Some? && 0.0 <= x.stats.ageMs <= c.maxFeedbackAgeMs
  }

  /** Force is wanted only on request and on fresh feedback from an active follower. */
  predicate Wants(c: RenderConfig, x: Inputs) {
    && c.renderEnabled && x.requested && Fresh(c, x)
    && x.latest.value.header.enable != 0 && x.latest.value.header.estop == 0
  }

  predicate Near(a: Double, b: Double, tolerance: Double) {
    AtMost(Abs(Sub(a, b)), tolerance)
  }

  /** Near means no further apart than the tolerance, in either direction; NaN and infinities are near nothing. */
  lemma NearIff(a: Double, b: Double, tolerance: real)
    ensures Near(a, b, Finite(tolerance)) <==>
              a.Finite? && b.Finite? && -tolerance <= a.value - b.value <= tolerance
  {
  }

  /** Force is wanted exactly if all of these hold, on the feedback's own flags and its age in nanoseconds. */
  lemma WantsIff(c: RenderConfig, x: Inputs, l: Link, windowNs: nat, nowNs: nat)
    requires l.lastReceiveTimeNs <= nowNs && x.stats == StatsOf(l, windowNs, nowNs)
    ensures Wants(c, x) <==>
              && c.renderEnabled && x.requested && x.latest.Some? && l.tracker.hasData
              && (nowNs - l.lastReceiveTimeNs) as real <= 1_000_000.0 * c.maxFeedbackAgeMs
              && x.latest.value.header.enable != 0 && x.latest.value.header.estop == 0
  {
    hide StatsOf;
    AgeAndRate(l, windowNs, nowNs);
  }

  /** Every joint has a counterpart in the packet and is within tolerance of it. */
  predicate Aligned(c: RenderConfig, x: Inputs)
    requires x.latest.Some? ==> x.latest.value.DofWithinSlots()
  {
    && Fresh(c, x)
    && |x.arm| <= x.latest.value.armDof as int && |x.hand| <= x.latest.value.handDof as int
    && (forall i :: 0 <= i < |x.arm| ==> Near(x.arm[i], x.latest.value.armPos[i], c.engageMaxErrorRad))
    && (forall i :: 0 <= i < |x.hand| ==> Near(x.hand[i], x.latest.value.handPos[i], c.engageMaxErrorGripper))
  }

  function ReferencesOf(fb: Feedback): References
    requires fb.DofWithinSlots()
  {
    References(fb.armPos[..fb.armDof as int], fb.handPos[..fb.handDof as int],
               fb.armTau[..fb.armDof as int], fb.handTau[..fb.handDof as int])
  }

  /** Both ways within the tolerance, as plain numbers. */
  predicate Close(a: Double, b: Double, tolerance: real) {
    a.Finite? && b.Finite? && -tolerance <= a.value - b.value <= tolerance
  }

  /** Aligned means fresh feedback with a close counterpart for every measured joint of arm and hand. */
  lemma AlignedIff(c: RenderConfig, x: Inputs, armTolerance: real, handTolerance: real)
    requires x.latest.Some? ==> x.latest.value.DofWithinSlots()
    requires c.engageMaxErrorRad == Finite(armTolerance) && c.engageMaxErrorGripper == Finite(handTolerance)
    ensures Aligned(c, x) <==>
              && x.latest.Some? && 0.0 <= x.stats.ageMs <= c.maxFeedbackAgeMs
              && |x.arm| <= x.latest.value.armDof as int && |x.hand| <= x.latest.value.handDof as int
              && (forall i :: 0 <= i < |x.arm| ==> Close(x.arm[i], x.latest.value.armPos[i], armTolerance))
              && (forall i :: 0 <= i < |x.hand| ==> Close(x.hand[i], x.latest.value.handPos[i], handTolerance))
  {
    hide Near, Close;
    forall a: Double, b: Double ensures Near(a, b, Finite(armTolerance)) <==> Close(a, b, armTolerance) {
      NearIff(a, b, armTolerance);
      CloseIs(a, b, armTolerance);
    }
    forall a: Double, b: Double ensures Near(a, b, Finite(handTolerance)) <==> Close(a, b, handTolerance) {
      NearIff(a, b, handTolerance);
      CloseIs(a, b, handTolerance);
    }
  }

  lemma CloseIs(a: Double, b: Double, tolerance: real)
    ensures Close(a, b, tolerance) <==> a.Finite? && b.Finite? && -tolerance <= a.value - b.value <= tolerance
  {
  }

  class LeaderArm {
    const config: RenderConfig
    const engager: Engager
    const control: Control
    var refs: References

    ghost predicate Valid()
      reads this, control
    {
      config.rateHz > 0.0 && control.Valid()
    }

    constructor (config: RenderConfig, engager: Engager, control: Control)
      requires config.rateHz > 0.0 && control.Valid()
      ensures Valid() && this.config == config && this.engager == engager && this.control == control
      ensures refs == References([], [], [], [])
    {
      this.config, this.engager, this.control := config, engager, control;
      refs := References([], [], [], []);
    }

    /** Compares the measured joints with the newest feedback. */
    method CheckAligned(x: Inputs) returns (aligned: bool)
      requires x.latest.Some? && x.latest.value.DofWithinSlots() && Fresh(config, x)
      ensures aligned == Aligned(config, x)
    {
      hide Near;
      var fb := x.latest.value;
      aligned := |x.arm| <= fb.armDof as int && |x.hand| <= fb.handDof as int;
      if !aligned {
        return;
      }
      var i := 0;
      while aligned && i < |x.arm|
        invariant 0 <= i <= |x.arm|
        invariant aligned <==> forall k :: 0 <= k < i ==> Near(x.arm[k], fb.armPos[k], config.engageMaxErrorRad)
      {
        aligned := Near(x.arm[i], fb.armPos[i], config.engageMaxErrorRad);
        i := i + 1;
      }
      if !aligned {
        return;
      }
      i := 0;
      while aligned && i < |x.hand|
        invariant 0 <= i <= |x.hand|
        invariant aligned <==> forall k :: 0 <= k < i ==> Near(x.hand[k], fb.handPos[k], config.engageMaxErrorGripper)
      {
        aligned := Near(x.hand[i], fb.handPos[i], config.engageMaxErrorGripper);
        i := i + 1;
      }
    }

    /** References follow fresh feedback and otherwise stay as they were while the ramp runs out. */
    method StepSide(x: Inputs, m: Measurement, dyn: Dynamics) returns (sent: seq<Double>)
      requires Valid()
      requires x.latest.Some? ==> x.latest.value.DofWithinSlots()
      modifies this, engager
      ensures Valid()
      ensures refs == if Fresh(config, x) then ReferencesOf(x.latest.value) else old(refs)
      ensures engager.View()
           == Next(engager.config, old(engager.View()), Wants(config, x), Aligned(config, x), 1.0 / config.rateHz)
      ensures |sent| == m.Dof()
      ensures forall i :: 0 <= i < m.Dof() ==>
                sent[i] == Torque(control.effortLimit, control.gains, control.trim, dyn, m, Commanded(engager.View(), refs), i)
    {
      hide Next, Torque, Near;
      var isFresh := x.latest.Some? && x.stats.ageMs >= 0.0 && x.stats.ageMs <= config.maxFeedbackAgeMs;
      var want := config.renderEnabled && x.requested && isFresh
                  && x.latest.value.header.enable != 0 && x.latest.value.header.estop == 0;
      var aligned := false;
      if isFresh {
        aligned := CheckAligned(x);
        refs := ReferencesOf(x.latest.value);
      }
      engager.Update(want, aligned, 1.0 / config.rateHz);
      var cmd := Command(refs, Finite(engager.scale));
      sent := control.LeaderStep(if engager.Active() then Some(cmd) else None, m, dyn);
    }
  }

  // ---------------------------------------------------------------- runs of cycles

  ghost predicate AllWithinSlots(cycles: seq<Inputs>) {
    forall k :: 0 <= k < |cycles| && cycles[k].latest.Some? ==> cycles[k].latest.value.DofWithinSlots()
  }

  ghost predicate IsCycleRun(c: RenderConfig, e: Config, start: Engagement, cycles: seq<Inputs>, run: seq<Engagement>)
    requires c.rateHz > 0.0 && AllWithinSlots(cycles)
  {
    && |run| == |cycles| + 1 && run[0] == start
    && forall k :: 0 <= k < |cycles| ==>
         run[k + 1] == Next(e, run[k], Wants(c, cycles[k]), Aligned(c, cycles[k]), 1.0 / c.rateHz)
  }

  function EngagerInputs(c: RenderConfig, cycles: seq<Inputs>): (r: seq<Input>)
    requires c.rateHz > 0.0 && AllWithinSlots(cycles)
    ensures |r| == |cycles|
  {
    seq(|cycles|, k requires 0 <= k < |cycles| => Input(Wants(c, cycles[k]), Aligned(c, cycles[k]), 1.0 / c.rateHz))
  }

  /**
   From the first cycle with stale feedback or without the request the leader gives the null command
   at latest `ReleaseCycles` cycles later, whatever comes back meanwhile.
   */
  lemma ReleaseIsBounded(c: RenderConfig, e: Config, start: Engagement, cycles: seq<Inputs>, run: seq<Engagement>, refs: References)
    returns (k: nat)
    requires c.rateHz > 0.0 && AllWithinSlots(cycles) && IsCycleRun(c, e, start, cycles, run) && Shaped(start)
    requires |cycles| > ReleaseCycles(e, c.rateHz)
    requires !Fresh(c, cycles[0]) || !cycles[0].requested
    ensures 0 <= k <= ReleaseCycles(e, c.rateHz) && Commanded(run[k + 1], refs) == None
  {
    hide Next, ReleaseCycles, Near;
    var inputs := EngagerInputs(c, cycles);
    var at := ReleasedInTime(e, start, inputs, run, c.rateHz);
    k := at - 1;
  }

  /** One cycle without want leaves no force where there was none. */
  lemma UnwantedStaysForceless(c: RenderConfig, e: Config, at: Engagement, x: Inputs)
    requires c.rateHz > 0.0 && (x.latest.Some? ==> x.latest.value.DofWithinSlots())
    requires Shaped(at) && at.scale == 0.0 && !Wants(c, x)
    ensures var next := Next(e, at, Wants(c, x), Aligned(c, x), 1.0 / c.rateHz);
            Shaped(next) && next.scale == 0.0
  {
    hide Wants, Aligned, Near;
    assert 1.0 / c.rateHz > 0.0;
    var i := Input(Wants(c, x), Aligned(c, x), 1.0 / c.rateHz);
    NoForceUnwanted(e, at, i, c.rateHz);
    StepKeepsShape(e, at, i);
  }

  /** Once force is gone it stays gone while it is not wanted. */
  lemma {:induction false} ForcelessUntilWanted(
    c: RenderConfig, e: Config, start: Engagement, cycles: seq<Inputs>, run: seq<Engagement>, i: nat, k: nat)
    requires c.rateHz > 0.0 && AllWithinSlots(cycles) && IsCycleRun(c, e, start, cycles, run)
    requires i <= k < |run| && Shaped(run[i]) && run[i].scale == 0.0
    requires forall j :: i <= j < k ==> !Wants(c, cycles[j])
    ensures run[k].scale == 0.0 && Shaped(run[k])
    decreases k
  {
    hide Wants, Aligned, Near, Shaped, Next;
    if k > i {
      ForcelessUntilWanted(c, e, start, cycles, run, i, k - 1);
      UnwantedStaysForceless(c, e, run[k - 1], cycles[k - 1]);
    }
  }

  lemma {:induction false} CyclesAreShaped(
    c: RenderConfig, e: Config, start: Engagement, cycles: seq<Inputs>, run: seq<Engagement>, k: nat)
    requires c.rateHz > 0.0 && AllWithinSlots(cycles) && IsCycleRun(c, e, start, cycles, run)
    requires Shaped(start) && k < |run|
    ensures Shaped(run[k])
  {
    hide Wants, Aligned, Near, Shaped, Next;
    if k > 0 {
      assert 1.0 / c.rateHz > 0.0;
      CyclesAreShaped(c, e, start, cycles, run, k - 1);
      StepKeepsShape(e, run[k - 1], Input(Wants(c, cycles[k - 1]), Aligned(c, cycles[k - 1]), 1.0 / c.rateHz));
    }
  }

  /** `n` cycles without want, enough for a release, end without force. */
  lemma ForceEndsUnwanted(
    c: RenderConfig, e: Config, start: Engagement, cycles: seq<Inputs>, run: seq<Engagement>, first: nat, k: nat)
    requires c.rateHz > 0.0 && AllWithinSlots(cycles) && IsCycleRun(c, e, start, cycles, run) && Shaped(start)
    requires first <= k < |cycles| && k - first >= ReleaseCycles(e, c.rateHz)
    requires forall j :: first <= j <= k ==> !Wants(c, cycles[j])
    ensures run[k + 1].scale == 0.0
  {
    hide Wants, Aligned, Near, Shaped, Next, ReleaseCycles;
    CyclesAreShaped(c, e, start, cycles, run, first);
    var rest, segment := cycles[first..k + 1], run[first..k + 2];
    assert IsCycleRun(c, e, run[first], rest, segment);
    var at := ReleasedInTime(e, run[first], EngagerInputs(c, rest), segment, c.rateHz);
    CyclesAreShaped(c, e, start, cycles, run, first + at);
    ForcelessUntilWanted(c, e, start, cycles, run, first + at, k + 1);
  }

  /** A leader that is not to render force never does. */
  lemma {:induction false} NoForceUnlessEnabled(
    c: RenderConfig, e: Config, cycles: seq<Inputs>, run: seq<Engagement>, refs: References, k: nat)
    requires c.rateHz > 0.0 && AllWithinSlots(cycles) && IsCycleRun(c, e, RELEASED, cycles, run) && k < |run|
    requires !c.renderEnabled
    ensures Commanded(run[k], refs) == None
  {
    hide Aligned, Near, Next;
    ForcelessUntilWanted(c, e, RELEASED, cycles, run, 0, k);
  }

  /** A leader that renders force in a cycle wanted it in that cycle or at most `ReleaseCycles` cycles before. */
  lemma RenderedWasWanted(c: RenderConfig, e: Config, cycles: seq<Inputs>, run: seq<Engagement>, refs: References, k: nat)
    returns (j: nat)
    requires c.rateHz > 0.0 && AllWithinSlots(cycles) && IsCycleRun(c, e, RELEASED, cycles, run)
    requires k < |cycles| && Commanded(run[k + 1], refs).Some?
    ensures j <= k <= j + ReleaseCycles(e, c.rateHz) && Wants(c, cycles[j])
  {
    hide Wants, Aligned, Near, Next, ReleaseCycles;
    ReleaseCyclesPositive(e, c.rateHz);
    j := k;
    while !Wants(c, cycles[j]) && j > 0 && k - j < ReleaseCycles(e, c.rateHz)
      invariant j <= k <= j + ReleaseCycles(e, c.rateHz)
      invariant forall i :: j < i <= k ==> !Wants(c, cycles[i])
      decreases j
    {
      j := j - 1;
    }
    if !Wants(c, cycles[j]) {
      if k - j >= ReleaseCycles(e, c.rateHz) {
        ForceEndsUnwanted(c, e, RELEASED, cycles, run, j, k);
      } else {
        ForcelessUntilWanted(c, e, RELEASED, cycles, run, 0, k + 1);
      }
    }
  }
}
