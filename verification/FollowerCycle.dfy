/** One follower arm's share of a control cycle: the safety judgement, the references and the feedback. */
module FollowerCycle {
  import opened Doubles
  import opened Durations
  import opened FeedbackStateBuffer
  import opened Packets
  import opened RateLimiter
  import opened SafetyManager
  import opened TeleopStateBuffer
  import opened Wrappers

  // ---------------------------------------------------------------- safety judgement

  /** The age of the newest command; a receive time past the clock reading counts as no age. */
  function GapMs(nowNs: nat, lastReceiveNs: nat): real {
    if nowNs >= lastReceiveNs then Ms(nowNs - lastReceiveNs) else 0.0
  }

  function Judged(config: SafetyConfig, s: Safety, target: Command, nowNs: nat, lastReceiveNs: nat): Safety {
    SafetyManager.Updated(config, s, target.header.enable, target.header.estop, GapMs(nowNs, lastReceiveNs))
  }

  /** The states in which a cycle takes the command's references. */
  predicate TakesReferences(s: SafetyState) {
    s in {SafetyState.Active, SafetyState.Ready, SafetyState.WarningTimeout}
  }

  // ---------------------------------------------------------------- references

  datatype Reference = Reference(position: Double, velocity: Double)

  datatype ArmReferences = ArmReferences(arm: seq<Reference>, hand: seq<Reference>)
  {
    function Joints(): seq<Reference> {
      arm + hand
    }
  }

  function PositionsOf(refs: seq<Reference>): (r: seq<Double>)
    ensures |r| == |refs|
  {
    seq(|refs|, i requires 0 <= i < |refs| => refs[i].position)
  }

  /** The commanded positions, arm joints first. */
  function Targets(c: Command): seq<Double>
    requires c.DofWithinSlots()
  {
    c.armPos[..c.armDof as int] + c.handPos[..c.handDof as int]
  }

  /** Positions after the limiter, in the order of `Targets`. */
  function LimitedTargets(refs: ArmReferences, c: Command, limit: real): seq<Double>
    requires c.DofWithinSlots()
  {
    LimitedAll(PositionsOf(refs.Joints()), Targets(c), limit)
  }

  /** The references as far as there are targets; the rest keep theirs. */
  function Overlaid(refs: seq<Reference>, positions: seq<Double>, velocities: seq<Double>): (r: seq<Reference>)
    requires |refs| <= |velocities|
    ensures |r| == |refs|
  {
    seq(|refs|, i requires 0 <= i < |refs| =>
      if i < |positions| then Reference(positions[i], velocities[i]) else refs[i])
  }

  function Tail(s: seq<Double>, from: nat): seq<Double> {
    if from <= |s| then s[from..] else []
  }

  predicate FitsSlots(refs: ArmReferences) {
    |refs.arm| <= ARM_SLOTS && |refs.hand| <= HAND_SLOTS
  }

  function Followed(refs: ArmReferences, c: Command, limit: real): ArmReferences
    requires c.DofWithinSlots() && FitsSlots(refs)
  {
    var positions := LimitedTargets(refs, c, limit);
    ArmReferences(Overlaid(refs.arm, positions, c.armVel),
                  Overlaid(refs.hand, Tail(positions, |refs.arm|), c.handVel))
  }

  lemma FollowedFits(refs: ArmReferences, c: Command, limit: real)
    requires FitsSlots(refs) && c.DofWithinSlots()
    ensures FitsSlots(Followed(refs, c, limit))
  {
  }

  // ---------------------------------------------------------------- feedback

  datatype JointState = JointState(position: Double, velocity: Double, effort: Double)

  /** The number a safety state has in the packet. */
  function StateCode(s: SafetyState): bv8 {
    match s
    case Disabled => 0
    case WaitingForEnable => 1
    case Ready => 2
    case Active => 3
    case WarningTimeout => 4
    case Hold => 5
    case Estop => 6
    case Fault => 7
  }

  /** The eight states are numbered in the order in which they are declared. */
  lemma StateCodes()
    ensures StateCode(Disabled) == 0 && StateCode(WaitingForEnable) == 1 && StateCode(SafetyState.Ready) == 2
    ensures StateCode(SafetyState.Active) == 3 && StateCode(WarningTimeout) == 4 && StateCode(SafetyState.Hold) == 5
    ensures StateCode(SafetyState.Estop) == 6 && StateCode(Fault) == 7
  {
  }

  function Flag(b: bool): bv8 {
    if b then 1 else 0
  }

  /** At most `slots` joints fit into the packet's arrays. */
  function Slots(joints: seq<JointState>, slots: nat): (n: nat)
    ensures n <= |joints| && n <= slots
  {
    if |joints| <= slots then |joints| else slots
  }

  function Positions(joints: seq<JointState>, slots: nat): (r: seq<Double>)
    ensures |r| == slots
  {
    seq(slots, i requires 0 <= i < slots => if i < |joints| then joints[i].position else Zero())
  }

  function Velocities(joints: seq<JointState>, slots: nat): (r: seq<Double>)
    ensures |r| == slots
  {
    seq(slots, i requires 0 <= i < slots => if i < |joints| then joints[i].velocity else Zero())
  }

  function Efforts(joints: seq<JointState>, slots: nat): (r: seq<Double>)
    ensures |r| == slots
  {
    seq(slots, i requires 0 <= i < slots => if i < |joints| then joints[i].effort else Zero())
  }

  function HoldNs(nowNs: bv64, receivedNs: bv64): bv64 {
    if nowNs >= receivedNs then nowNs - receivedNs else 0
  }

  /** The hold time runs from the receive time, and is 0 for one still to come. */
  lemma HoldIs(nowNs: bv64, receivedNs: bv64)
    ensures HoldNs(nowNs, receivedNs) == if nowNs < receivedNs then 0 else nowNs - receivedNs
  {
  }

  /** What surrounds the joint state in a feedback packet. */
  datatype Context = Context(
    armSide: bv8,
    seqNo: bv32,
    state: SafetyState,
    linkOk: bool,
    target: Option<Command>,
    nowNs: bv64,
    receivedNs: bv64)

  function HeaderOf(x: Context): Header {
    Header(0, 0, 0, x.seqNo, 0, x.armSide, if x.target.Some? then x.target.value.header.mode else 0,
           Flag(x.state == SafetyState.Active), Flag(x.state == SafetyState.Estop))
  }

  function EchoSeq(target: Option<Command>): bv32 {
    if target.Some? then target.value.header.seqNo else 0
  }

  function EchoTime(target: Option<Command>): bv64 {
    if target.Some? then target.value.header.sendTimeNs else 0
  }

  /** The packet before the codec stamps it. */
  function FeedbackOf(x: Context, arm: seq<JointState>, hand: seq<JointState>): (fb: Feedback)
    ensures fb.WellFormed()
  {
    FeedbackPacket(
      HeaderOf(x), Slots(arm, ARM_SLOTS) as bv8, Slots(hand, HAND_SLOTS) as bv8, StateCode(x.state), Flag(x.linkOk),
      EchoSeq(x.target), EchoTime(x.target), if x.target.Some? then HoldNs(x.nowNs, x.receivedNs) else 0,
      Positions(arm, ARM_SLOTS), Velocities(arm, ARM_SLOTS), Efforts(arm, ARM_SLOTS),
      Positions(hand, HAND_SLOTS), Velocities(hand, HAND_SLOTS), Efforts(hand, HAND_SLOTS),
      0)
  }

  /** Copies as many joints as fit. */
  method FillJoints(joints: seq<JointState>, slots: nat) returns (dof: nat, pos: seq<Double>, vel: seq<Double>, tau: seq<Double>)
    ensures dof == Slots(joints, slots)
    ensures pos == Positions(joints, slots)
    ensures vel == Velocities(joints, slots)
    ensures tau == Efforts(joints, slots)
    ensures dof == if |joints| <= slots then |joints| else slots
    ensures forall i :: 0 <= i < dof ==>
              pos[i] == joints[i].position && vel[i] == joints[i].velocity && tau[i] == joints[i].effort
    ensures forall i :: dof <= i < slots ==> pos[i] == vel[i] == tau[i] == Finite(0.0)
  {
    dof := if |joints| <= slots then |joints| else slots;
    pos := seq(slots, _ => Zero());
    vel, tau := pos, pos;
    for i := 0 to dof
      invariant |pos| == |vel| == |tau| == slots
      invariant forall k :: 0 <= k < i ==>
                  pos[k] == joints[k].position && vel[k] == joints[k].velocity && tau[k] == joints[k].effort
      invariant forall k :: i <= k < slots ==> pos[k] == vel[k] == tau[k] == Zero()
    {
      pos := pos[i := joints[i].position];
      vel := vel[i := joints[i].velocity];
      tau := tau[i := joints[i].effort];
    }
  }

  method FillFeedback(x: Context, arm: seq<JointState>, hand: seq<JointState>) returns (fb: Feedback)
    ensures fb == FeedbackOf(x, arm, hand)
    ensures fb.header.armSide == x.armSide && fb.header.seqNo == x.seqNo
    ensures fb.header.enable == (if x.state == SafetyState.Active then 1 else 0)
    ensures fb.header.estop == (if x.state == SafetyState.Estop then 1 else 0)
    ensures fb.linkOk == (if x.linkOk then 1 else 0)
    ensures fb.safetyState == StateCode(x.state)
    ensures x.target.None? ==>
              fb.header.mode == 0 && fb.echoCmdSeq == 0 && fb.echoCmdSendTimeNs == 0 && fb.cmdHoldNs == 0
    ensures x.target.Some? ==>
              && fb.header.mode == x.target.value.header.mode
              && fb.echoCmdSeq == x.target.value.header.seqNo && fb.echoCmdSendTimeNs == x.target.value.header.sendTimeNs
              && fb.cmdHoldNs == HoldNs(x.nowNs, x.receivedNs)
    ensures fb.WellFormed() && forall i :: 0 <= i < |arm| && i < 8 ==>
              fb.armPos[i] == arm[i].position && fb.armVel[i] == arm[i].velocity && fb.armTau[i] == arm[i].effort
    ensures forall i :: 0 <= i < |hand| && i < 4 ==>
              fb.handPos[i] == hand[i].position && fb.handVel[i] == hand[i].velocity && fb.handTau[i] == hand[i].effort
  {
    hide Positions, Velocities, Efforts, Slots, HoldNs, StateCode;
    var armDof, armPos, armVel, armTau := FillJoints(arm, ARM_SLOTS);
    var handDof, handPos, handVel, handTau := FillJoints(hand, HAND_SLOTS);
    var mode, echoSeq, echoTime, hold := 0, 0, 0, 0;
    if x.target.Some? {
      mode := x.target.value.header.mode;
      echoSeq := x.target.value.header.seqNo;
      echoTime := x.target.value.header.sendTimeNs;
      hold := HoldNs(x.nowNs, x.receivedNs);
    }
    fb := FeedbackPacket(
      Header(0, 0, 0, x.seqNo, 0, x.armSide, mode, Flag(x.state == SafetyState.Active), Flag(x.state == SafetyState.Estop)),
      armDof as bv8, handDof as bv8, StateCode(x.state), Flag(x.linkOk), echoSeq, echoTime, hold,
      armPos, armVel, armTau, handPos, handVel, handTau, 0);
  }

  // ---------------------------------------------------------------- the arm

  class FollowerArm {
    const safety: Manager
    const limiter: Limiter
    var refs: ArmReferences

    constructor (safety: Manager, limiter: Limiter, refs: ArmReferences)
      ensures this.safety == safety && this.limiter == limiter && this.refs == refs
    {
      this.safety, this.limiter, this.refs := safety, limiter, refs;
    }

    /** Nothing is judged before the first command. */
    method Judge(target: Option<Command>, nowNs: nat, lastReceiveNs: nat)
      modifies safety
      ensures safety.View() ==
              if target.Some? then Judged(safety.config, old(safety.View()), target.value, nowNs, lastReceiveNs)
              else old(safety.View())
    {
      if target.Some? {
        var gap := if nowNs >= lastReceiveNs then Ms(nowNs - lastReceiveNs) else 0.0;
        safety.Update(target.value.header, gap);
      }
    }

    /** The reference part of a cycle, under the state read after the judgement. */
    method Follow(target: Option<Command>, state: SafetyState)
      requires FitsSlots(refs)
      requires target.Some? ==> target.value.DofWithinSlots()
      modifies this
      ensures refs == if target.Some? && TakesReferences(state)
                      then Followed(old(refs), target.value, limiter.EffectiveLimit()) else old(refs)
    {
      hide LimitedAll;
      if !(state == SafetyState.Active || state == SafetyState.Ready || state == SafetyState.WarningTimeout) {
        return;
      }
      if target.None? {
        return;
      }
      var c := target.value;
      var tarPos := Limit(c);
      var arm := Overlay(refs.arm, tarPos, c.armVel);
      var hand := Overlay(refs.hand, Tail(tarPos, |refs.arm|), c.handVel);
      refs := ArmReferences(arm, hand);
    }

    /** The targets after the limiter has worked on them in place. */
    method Limit(c: Command) returns (tarPos: seq<Double>)
      requires c.DofWithinSlots()
      ensures tarPos == LimitedTargets(refs, c, limiter.EffectiveLimit())
    {
      hide LimitedAll;
      var target := new Double[|Targets(c)|](i requires 0 <= i < |Targets(c)| => Targets(c)[i]);
      assert target[..] == Targets(c);
      limiter.Limit(PositionsOf(refs.Joints()), target);
      tarPos := target[..];
    }

    method Overlay(joints: seq<Reference>, positions: seq<Double>, velocities: seq<Double>) returns (r: seq<Reference>)
      requires |joints| <= |velocities|
      ensures r == Overlaid(joints, positions, velocities)
    {
      r := joints;
      var i := 0;
      while i < |joints| && i < |positions|
        invariant 0 <= i <= |joints| == |r|
        invariant i <= |positions| || i == 0
        invariant forall k :: 0 <= k < i ==> k < |positions| && r[k] == Reference(positions[k], velocities[k])
        invariant forall k :: i <= k < |r| ==> r[k] == joints[k]
      {
        r := r[i := Reference(positions[i], velocities[i])];
        i := i + 1;
      }
    }
  }
}
