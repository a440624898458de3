/**
 The torque a leader arm feels: gravity compensation plus the follower's reflected force, clamped.
 Gravity, Coriolis and friction come from libraries and are arbitrary functions here.
 */
module LeaderControl {
  import opened Doubles
  import opened Wrappers

  const NMOTORS := 8

  /** Motor position and velocity. */
  datatype Motion = Motion(position: Double, velocity: Double)

  datatype Measurement = Measurement(arm: seq<Motion>, gripper: seq<Motion>)
  {
    function Dof(): nat {
      |arm| + |gripper|
    }
  }

  /** What the leader last learnt of the follower arm. */
  datatype References = References(
    armPos: seq<Double>, handPos: seq<Double>, armTau: seq<Double>, handTau: seq<Double>)

  datatype Command = Command(refs: References, scale: Double)

  datatype Gains = Gains(kp: seq<Double>, kd: seq<Double>, kf: seq<Double>)

  datatype Trim = Trim(scale: seq<Double>, offset: seq<Double>)

  /** Joint-indexed results of the dynamics libraries. */
  datatype Dynamics = Dynamics(
    gravity: (seq<Double>, nat) -> Double,
    coriolis: (seq<Motion>, nat) -> Double,
    friction: (nat, Double) -> Double)

  // ---------------------------------------------------------------- effort limits

  function DefaultLimit(i: nat): Double {
    Finite(if i == NMOTORS - 1 then 2.0 else 20.0)
  }

  function LimitOf(requested: seq<Double>, i: nat): Double {
    if i < |requested| && requested[i].Finite? && requested[i].value > 0.0 then requested[i] else DefaultLimit(i)
  }

  /** Every motor has a finite positive limit. */
  predicate LimitsValid(limits: seq<Double>) {
    |limits| == NMOTORS && forall i :: 0 <= i < NMOTORS ==> limits[i].Finite? && limits[i].value > 0.0
  }

  /** The limit in force for a joint; joints without a motor get none of the torque. */
  function LimitAt(limits: seq<Double>, index: nat): (r: real)
    requires LimitsValid(limits)
    ensures r >= 0.0 && (index < NMOTORS ==> r > 0.0)
  {
    if index < |limits| then limits[index].value else 0.0
  }

  /** Nothing but a finite torque within the limit ever comes out. */
  function Clamped(lim: real, tau: Double): (r: Double)
    requires lim >= 0.0
    ensures r.Finite? && AbsReal(r.value) <= lim
  {
    if !tau.Finite? then Zero() else Max(Finite(-lim), Min(Finite(lim), tau))
  }

  // ---------------------------------------------------------------- the reflected force

  /** Gains and references reach every joint. */
  predicate Covers(g: Gains, m: Measurement, refs: References) {
    && |g.kp| >= m.Dof() && |g.kd| >= m.Dof()
    && |refs.armPos| >= |m.arm| && |refs.handPos| >= |m.gripper|
  }

  /** The reflected force is rendered only with a positive scale and enough gains and references. */
  predicate Renders(g: Gains, m: Measurement, cmd: Option<Command>) {
    cmd.Some? && Less(Zero(), cmd.value.scale) && Covers(g, m, cmd.value.refs)
  }

  predicate HasForce(g: Gains, m: Measurement, refs: References) {
    |g.kf| >= m.Dof() && |refs.armTau| >= |m.arm|
  }

  function Spring(kp: Double, ref: Double, kd: Double, at: Motion): Double {
    Sub(Mul(kp, Sub(ref, at.position)), Mul(kd, at.velocity))
  }

  /** Gripper travel in metres as a motor angle. */
  function GripperMotor(position: Double): Double {
    Mul(Mul(position, Finite(1.0 / 0.044)), Finite(-1.0472))
  }

  /** The unscaled reflected term of a joint, arm joints first. */
  function Reflected(g: Gains, dyn: Dynamics, m: Measurement, refs: References, i: nat): Double
    requires i < m.Dof() && Covers(g, m, refs)
  {
    if i < |m.arm| then
      var spring := Spring(g.kp[i], refs.armPos[i], g.kd[i], m.arm[i]);
      if HasForce(g, m, refs) then Sub(spring, Mul(g.kf[i], Sub(refs.armTau[i], dyn.gravity(refs.armPos, i))))
      else spring
    else
      var j := i - |m.arm|;
      var spring := Spring(g.kp[i], GripperMotor(refs.handPos[j]), g.kd[i], m.gripper[j]);
      if HasForce(g, m, refs) && j < |refs.handTau| then Sub(spring, Mul(g.kf[i], refs.handTau[j])) else spring
  }

  function Positions(s: seq<Motion>): (r: seq<Double>)
    ensures |r| == |s|
  {
    seq(|s|, k requires 0 <= k < |s| => s[k].position)
  }

  function VelocityAt(m: Measurement, i: nat): Double
    requires i < m.Dof()
  {
    if i < |m.arm| then m.arm[i].velocity else m.gripper[i - |m.arm|].velocity
  }

  /** What a joint carries without any reflected force. */
  function Carried(t: Trim, dyn: Dynamics, m: Measurement, i: nat): Double
    requires i < m.Dof()
  {
    var friction := Mul(dyn.friction(i, VelocityAt(m, i)), Finite(0.3));
    if i < |m.arm| then
      var gs := if i < |t.scale| then t.scale[i] else Finite(1.0);
      var go := if i < |t.offset| then t.offset[i] else Zero();
      var gravity := Add(Mul(dyn.gravity(Positions(m.arm), i), gs), go);
      Add(Add(gravity, friction), Mul(dyn.coriolis(m.arm, i), Finite(0.1)))
    else
      friction
  }

  function Unit(scale: Double): Double {
    Max(Zero(), Min(Finite(1.0), scale))
  }

  function Torque(limits: seq<Double>, g: Gains, t: Trim, dyn: Dynamics, m: Measurement, cmd: Option<Command>, i: nat): Double
    requires LimitsValid(limits) && i < m.Dof()
  {
    var reflected :=
      if Renders(g, m, cmd) then Mul(Reflected(g, dyn, m, cmd.value.refs, i), Unit(cmd.value.scale)) else Zero();
    Clamped(LimitAt(limits, i), Add(Carried(t, dyn, m, i), reflected))
  }

  class Control {
    var effortLimit: seq<Double>
    var gains: Gains
    var trim: Trim

    ghost predicate Valid()
      reads this
    {
      LimitsValid(effortLimit)
    }

    constructor (limits: seq<Double>, gains: Gains, trim: Trim)
      ensures Valid() && this.gains == gains && this.trim == trim
      ensures forall i :: 0 <= i < NMOTORS ==> effortLimit[i] == LimitOf(limits, i)
    {
      effortLimit := [];
      this.gains, this.trim := gains, trim;
      new;
      SetEffortLimits(limits);
    }

    /** Asked-for limits that are not finite and positive leave the default in place. */
    method SetEffortLimits(limits: seq<Double>)
      modifies this`effortLimit
      ensures Valid()
      ensures forall i :: 0 <= i < NMOTORS ==> effortLimit[i] == LimitOf(limits, i)
      ensures |effortLimit| == 8 && forall i :: 0 <= i < 8 ==>
                effortLimit[i] == if i < |limits| && limits[i].Finite? && limits[i].value > 0.0 then limits[i]
                                  else Finite(if i == 7 then 2.0 else 20.0)
    {
      effortLimit := seq(NMOTORS, _ => Finite(20.0));
      effortLimit := effortLimit[NMOTORS - 1 := Finite(2.0)];
      var i := 0;
      while i < |limits| && i < |effortLimit|
        invariant 0 <= i <= |limits| && i <= |effortLimit| == NMOTORS
        invariant forall k :: 0 <= k < i ==> effortLimit[k] == LimitOf(limits, k)
        invariant forall k :: i <= k < NMOTORS ==> effortLimit[k] == DefaultLimit(k)
      {
        if limits[i].IsFinite() && Less(Zero(), limits[i]) {
          effortLimit := effortLimit[i := limits[i]];
        }
        i := i + 1;
      }
    }

    function ClampLeaderEffort(index: nat, tau: Double): (r: Double)
      requires Valid()
      reads this
      ensures r == Clamped(LimitAt(effortLimit, index), tau)
    {
      if !tau.IsFinite() then Zero()
      else
        var lim := if index < |effortLimit| then effortLimit[index] else Zero();
        Max(Neg(lim), Min(lim, tau))
    }

    /** Friction of every joint, the gripper's after the arm's. */
    method ComputeAllFriction(m: Measurement, dyn: Dynamics) returns (friction: seq<Double>)
      ensures |friction| == m.Dof()
      ensures forall i :: 0 <= i < m.Dof() ==> friction[i] == dyn.friction(i, VelocityAt(m, i))
    {
      var velocity: seq<Double> := [];
      for k := 0 to |m.arm|
        invariant |velocity| == k && forall i :: 0 <= i < k ==> velocity[i] == m.arm[i].velocity
      {
        velocity := velocity + [m.arm[k].velocity];
      }
      for k := 0 to |m.gripper|
        invariant |velocity| == |m.arm| + k
        invariant forall i :: 0 <= i < |velocity| ==> velocity[i] == VelocityAt(m, i)
      {
        velocity := velocity + [m.gripper[k].velocity];
      }
      friction := [];
      for i := 0 to |velocity|
        invariant |friction| == i
        invariant forall k :: 0 <= k < i ==> friction[k] == dyn.friction(k, VelocityAt(m, k))
      {
        friction := friction + [dyn.friction(i, velocity[i])];
      }
    }

    /** The torques sent to the motors, arm then gripper. */
    method LeaderStep(cmd: Option<Command>, m: Measurement, dyn: Dynamics) returns (sent: seq<Double>)
      requires Valid()
      ensures |sent| == m.Dof()
      ensures forall i :: 0 <= i < m.Dof() ==> sent[i] == Torque(effortLimit, gains, trim, dyn, m, cmd, i)
      ensures forall i :: 0 <= i < m.Dof() ==> sent[i].Finite? && AbsReal(sent[i].value) <= LimitAt(effortLimit, i)
    {
      hide Add, Sub, Mul, Clamped, Spring, GripperMotor, Positions, Unit, Less, LimitAt;
      var friction := ComputeAllFriction(m, dyn);
      var bilateral := Renders(gains, m, cmd);
      var scale := if bilateral then Unit(cmd.value.scale) else Zero();
      var useForce := bilateral && HasForce(gains, m, cmd.value.refs);
      sent := [];
      for i := 0 to |m.arm|
        invariant |sent| == i
        invariant forall k :: 0 <= k < i ==> sent[k] == Torque(effortLimit, gains, trim, dyn, m, cmd, k)
      {
        var tau := Zero();
        if bilateral {
          var refs := cmd.value.refs;
          tau := Spring(gains.kp[i], refs.armPos[i], gains.kd[i], m.arm[i]);
          if useForce {
            tau := Sub(tau, Mul(gains.kf[i], Sub(refs.armTau[i], dyn.gravity(refs.armPos, i))));
          }
          tau := Mul(tau, scale);
        }
        var gs := if i < |trim.scale| then trim.scale[i] else Finite(1.0);
        var go := if i < |trim.offset| then trim.offset[i] else Zero();
        var gravity := Add(Mul(dyn.gravity(Positions(m.arm), i), gs), go);
        var carried := Add(Add(gravity, Mul(friction[i], Finite(0.3))), Mul(dyn.coriolis(m.arm, i), Finite(0.1)));
        sent := sent + [ClampLeaderEffort(i, Add(carried, tau))];
      }
      for j := 0 to |m.gripper|
        invariant |sent| == |m.arm| + j
        invariant forall k :: 0 <= k < |sent| ==> sent[k] == Torque(effortLimit, gains, trim, dyn, m, cmd, k)
      {
        var i := |m.arm| + j;
        var tau := Zero();
        if bilateral {
          var refs := cmd.value.refs;
          tau := Spring(gains.kp[i], GripperMotor(refs.handPos[j]), gains.kd[i], m.gripper[j]);
          if useForce && j < |refs.handTau| {
            tau := Sub(tau, Mul(gains.kf[i], refs.handTau[j]));
          }
          tau := Mul(tau, scale);
        }
        sent := sent + [ClampLeaderEffort(i, Add(Mul(friction[i], Finite(0.3)), tau))];
      }
    }
  }
}
