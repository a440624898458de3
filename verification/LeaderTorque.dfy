/** How far one control cycle can move a leader torque. */
module LeaderTorque {
  import opened BilateralEngager
  import opened Doubles
  import opened EngagerRuns
  import opened LeaderControl
  import opened Wrappers

  /** The command a cycle hands to the torque computation. */
  function Commanded(e: Engagement, refs: References): Option<Command> {
    if e.scale > 0.0 then Some(Command(refs, Finite(e.scale))) else None
  }

  lemma ClampIsLipschitz(lim: real, carried: Double, a: real, b: real)
    requires lim >= 0.0
    ensures AbsReal(Clamped(lim, Add(carried, Finite(a))).value - Clamped(lim, Add(carried, Finite(b))).value)
         <= AbsReal(a - b)
  {
  }

  /** The part of a term that a scale lets through. */
  function Share(x: real, scale: real): real {
    x * scale
  }

  lemma ShareDistance(x: real, s: real, t: real)
    ensures AbsReal(Share(x, s) - Share(x, t)) == Share(AbsReal(x), AbsReal(s - t))
  {
    assert x * s - x * t == x * (s - t);
  }

  lemma ShareGrows(x: real, d: real, limit: real)
    requires 0.0 <= d <= limit && x >= 0.0
    ensures Share(x, d) <= Share(x, limit)
  {
  }

  lemma SharesClampClose(lim: real, carried: Double, r: real, s: real, t: real, step: real)
    requires lim >= 0.0 && AbsReal(s - t) <= step
    ensures AbsReal(Clamped(lim, Add(carried, Finite(Share(r, s)))).value - Clamped(lim, Add(carried, Finite(Share(r, t)))).value)
         <= Share(AbsReal(r), step)
  {
    hide Clamped, Add, Share;
    ClampIsLipschitz(lim, carried, Share(r, s), Share(r, t));
    ShareDistance(r, s, t);
    ShareGrows(AbsReal(r), AbsReal(s - t), step);
  }

  /** A finite reflected term is what a shaped engagement multiplies by its scale, rendered or not. */
  lemma ScaledTorque(limits: seq<Double>, g: Gains, t: Trim, dyn: Dynamics, m: Measurement, refs: References,
                     e: Engagement, i: nat)
    requires LimitsValid(limits) && i < m.Dof() && Shaped(e)
    requires Covers(g, m, refs) && Reflected(g, dyn, m, refs, i).Finite?
    ensures Torque(limits, g, t, dyn, m, Commanded(e, refs), i)
         == Clamped(LimitAt(limits, i), Add(Carried(t, dyn, m, i), Finite(Share(Reflected(g, dyn, m, refs, i).value, e.scale))))
  {
    hide Reflected, Carried, Clamped, Add, Covers;
    var r := Reflected(g, dyn, m, refs, i);
    var cmd := Commanded(e, refs);
    if e.scale > 0.0 {
      assert Unit(cmd.value.scale) == Finite(e.scale);
      assert Renders(g, m, cmd);
      assert Mul(r, cmd.value.scale) == Finite(Share(r.value, e.scale));
    } else {
      assert !Renders(g, m, cmd);
      assert Share(r.value, e.scale) == 0.0;
    }
  }

  /** The most a step may move the scale. */
  function StepLimit(c: Config, e: Engagement, dt: real): real {
    dt / Ramp(if e.state == RampDown then c.rampDownS else c.rampUpS)
  }

  lemma StepIsLimited(c: Config, e: Engagement, input: Input)
    requires Shaped(e) && input.dt > 0.0
    ensures AbsReal(Next(c, e, input.want, input.aligned, input.dt).scale - e.scale) <= StepLimit(c, e, input.dt)
  {
    RampStepPositive(input.dt, c.rampUpS);
    RampStepPositive(input.dt, c.rampDownS);
  }

  /**
   With the measurement and references held, one update of the engager moves a torque by at most the
   step's share of the joint's full reflected term, also where the command appears or disappears.
   */
  lemma UpdateMovesTorqueLittle(limits: seq<Double>, g: Gains, t: Trim, dyn: Dynamics, m: Measurement, refs: References,
                                c: Config, e: Engagement, input: Input, i: nat)
    requires LimitsValid(limits) && i < m.Dof() && Shaped(e) && input.dt > 0.0
    requires Covers(g, m, refs) && Reflected(g, dyn, m, refs, i).Finite?
    ensures var next := Next(c, e, input.want, input.aligned, input.dt);
            && var after := Torque(limits, g, t, dyn, m, Commanded(next, refs), i).value;
            && var before := Torque(limits, g, t, dyn, m, Commanded(e, refs), i).value;
            && AbsReal(after - before) <= Share(AbsReal(Reflected(g, dyn, m, refs, i).value), StepLimit(c, e, input.dt))
  {
    hide Torque, Reflected, Carried, Clamped, Add, StepLimit, Next, Covers, Commanded, AbsReal, LimitAt, Share;
    var next := Next(c, e, input.want, input.aligned, input.dt);
    StepKeepsShape(c, e, input);
    StepIsLimited(c, e, input);
    ScaledTorque(limits, g, t, dyn, m, refs, e, i);
    ScaledTorque(limits, g, t, dyn, m, refs, next, i);
    var r := Reflected(g, dyn, m, refs, i).value;
    SharesClampClose(LimitAt(limits, i), Carried(t, dyn, m, i), r, next.scale, e.scale, StepLimit(c, e, input.dt));
  }

  /** A command that cannot be rendered leaves the torque alone whatever the scale. */
  lemma UnrenderedTorqueIsStill(limits: seq<Double>, g: Gains, t: Trim, dyn: Dynamics, m: Measurement, refs: References,
                                e: Engagement, next: Engagement, i: nat)
    requires LimitsValid(limits) && i < m.Dof()
    requires !Covers(g, m, refs)
    ensures Torque(limits, g, t, dyn, m, Commanded(next, refs), i) == Torque(limits, g, t, dyn, m, Commanded(e, refs), i)
  {
  }

  predicate AllFinite(s: seq<Double>) {
    forall k :: 0 <= k < |s| ==> s[k].Finite?
  }

  predicate MotionsFinite(s: seq<Motion>) {
    forall k :: 0 <= k < |s| ==> s[k].position.Finite? && s[k].velocity.Finite?
  }

  lemma SpringIsFinite(kp: Double, ref: Double, kd: Double, at: Motion)
    requires kp.Finite? && ref.Finite? && kd.Finite? && at.position.Finite? && at.velocity.Finite?
    ensures Spring(kp, ref, kd, at).Finite?
  {
  }

  lemma DifferenceIsFinite(a: Double, b: Double)
    requires a.Finite? && b.Finite?
    ensures Sub(a, b).Finite?
  {
  }

  lemma ProductIsFinite(a: Double, b: Double)
    requires a.Finite? && b.Finite?
    ensures Mul(a, b).Finite?
  {
  }

  /** Finite readings, references and gains make the reflected term finite. */
  lemma ReflectedIsFinite(g: Gains, dyn: Dynamics, m: Measurement, refs: References, i: nat)
    requires i < m.Dof() && Covers(g, m, refs)
    requires AllFinite(g.kp) && AllFinite(g.kd) && AllFinite(g.kf)
    requires AllFinite(refs.armPos) && AllFinite(refs.handPos) && AllFinite(refs.armTau) && AllFinite(refs.handTau)
    requires MotionsFinite(m.arm) && MotionsFinite(m.gripper)
    requires i < |m.arm| ==> dyn.gravity(refs.armPos, i).Finite?
    ensures Reflected(g, dyn, m, refs, i).Finite?
  {
    hide Mul, Sub, Spring, GripperMotor;
    var arm := |m.arm|;
    if i < arm {
      SpringIsFinite(g.kp[i], refs.armPos[i], g.kd[i], m.arm[i]);
      if HasForce(g, m, refs) {
        var gravity := dyn.gravity(refs.armPos, i);
        DifferenceIsFinite(refs.armTau[i], gravity);
        ProductIsFinite(g.kf[i], Sub(refs.armTau[i], gravity));
        DifferenceIsFinite(Spring(g.kp[i], refs.armPos[i], g.kd[i], m.arm[i]), Mul(g.kf[i], Sub(refs.armTau[i], gravity)));
      }
    } else {
      var at := m.gripper[i - arm];
      var ref := GripperMotor(refs.handPos[i - arm]);
      GripperMotorIsFinite(refs.handPos[i - arm]);
      SpringIsFinite(g.kp[i], ref, g.kd[i], at);
      if HasForce(g, m, refs) && i - arm < |refs.handTau| {
        ProductIsFinite(g.kf[i], refs.handTau[i - arm]);
        DifferenceIsFinite(Spring(g.kp[i], ref, g.kd[i], at), Mul(g.kf[i], refs.handTau[i - arm]));
      }
    }
  }

  lemma GripperMotorIsFinite(position: Double)
    requires position.Finite?
    ensures GripperMotor(position).Finite?
  {
  }

  // ---------------------------------------------------------------- what the reflected term means

  /** The gripper's joint position as the leader's converter reads it off the motor. */
  function GripperJoint(motor: Double): Double {
    Mul(Finite(0.044), Mul(motor, Finite(1.0 / -1.0472)))
  }

  /** The follower's arm is where the leader's is, and the leader is at rest. */
  predicate TogetherAtRest(m: Measurement, refs: References) {
    && |refs.armPos| == |m.arm| && |refs.handPos| == |m.gripper|
    && (forall j :: 0 <= j < |m.arm| ==> refs.armPos[j] == m.arm[j].position)
    && (forall j :: 0 <= j < |m.gripper| ==> refs.handPos[j] == GripperJoint(m.gripper[j].position))
    && (forall j :: 0 <= j < |m.arm| ==> m.arm[j].velocity == Zero())
    && (forall j :: 0 <= j < |m.gripper| ==> m.gripper[j].velocity == Zero())
  }

  /** The gripper reference, sent in joint space, comes back to the motor position it was measured at. */
  lemma GripperRoundTrip(motor: Double)
    requires motor.Finite?
    ensures GripperMotor(GripperJoint(motor)) == motor
  {
    var x := motor.value;
    assert 1.0 / -1.0472 * -1.0472 == 1.0;
    assert 0.044 * (1.0 / 0.044) == 1.0;
  }

  lemma SpringAtRest(kp: Double, ref: Double, kd: Double, at: Motion)
    requires kp.Finite? && kd.Finite? && at.position.Finite? && ref == at.position && at.velocity == Zero()
    ensures Spring(kp, ref, kd, at) == Zero()
  {
  }

  /** The follower torque that the leader takes for contact: the arm's without its own gravity. */
  function Contact(dyn: Dynamics, m: Measurement, refs: References, i: nat): Double
    requires i < m.Dof() && |refs.armTau| >= |m.arm|
  {
    if i < |m.arm| then Sub(refs.armTau[i], dyn.gravity(refs.armPos, i))
    else if i - |m.arm| < |refs.handTau| then refs.handTau[i - |m.arm|]
    else Zero()
  }

  /** With the arms together at rest, all that is reflected is the contact, opposed. */
  lemma OnlyContactIsReflected(g: Gains, dyn: Dynamics, m: Measurement, refs: References, i: nat)
    requires i < m.Dof() && Covers(g, m, refs) && HasForce(g, m, refs) && TogetherAtRest(m, refs)
    requires AllFinite(g.kp) && AllFinite(g.kd) && AllFinite(g.kf) && MotionsFinite(m.arm) && MotionsFinite(m.gripper)
    requires Contact(dyn, m, refs, i).Finite?
    ensures Reflected(g, dyn, m, refs, i) == Finite(-Share(g.kf[i].value, Contact(dyn, m, refs, i).value))
  {
    hide Spring, GripperMotor, GripperJoint;
    if i < |m.arm| {
      SpringAtRest(g.kp[i], refs.armPos[i], g.kd[i], m.arm[i]);
    } else {
      var at := m.gripper[i - |m.arm|];
      GripperRoundTrip(at.position);
      SpringAtRest(g.kp[i], GripperMotor(refs.handPos[i - |m.arm|]), g.kd[i], at);
    }
  }
}
