/** The leader's torques in plain numbers: what pulls, what damps, what is carried, and where it is cut off. */
module LeaderForces {
  import opened Doubles
  import opened LeaderControl
  import opened LeaderTorque
  import opened Wrappers

  /** Everything a rendered torque is made of is a number. */
  ghost predicate AllNumbers(g: Gains, dyn: Dynamics, m: Measurement, refs: References, i: nat) {
    && AllFinite(g.kp) && AllFinite(g.kd) && AllFinite(g.kf)
    && AllFinite(refs.armPos) && AllFinite(refs.handPos) && AllFinite(refs.armTau) && AllFinite(refs.handTau)
    && MotionsFinite(m.arm) && MotionsFinite(m.gripper)
    && (i < |m.arm| ==> dyn.gravity(refs.armPos, i).Finite?)
  }

  /** Force is reflected only with a gain for every joint and a torque for every arm joint. */
  predicate ReflectsForce(g: Gains, m: Measurement, refs: References) {
    |g.kf| >= |m.arm| + |m.gripper| && |refs.armTau| >= |m.arm|
  }

  /** An arm joint is pulled towards the follower, damped against its velocity, and pushed against the contact. */
  lemma ArmReflection(g: Gains, dyn: Dynamics, m: Measurement, refs: References, i: nat)
    requires i < |m.arm| && Covers(g, m, refs) && AllNumbers(g, dyn, m, refs, i)
    ensures var pull := g.kp[i].value * (refs.armPos[i].value - m.arm[i].position.value);
            var drag := g.kd[i].value * m.arm[i].velocity.value;
            var push := if ReflectsForce(g, m, refs) then g.kf[i].value * (refs.armTau[i].value - dyn.gravity(refs.armPos, i).value) else 0.0;
            Reflected(g, dyn, m, refs, i) == Finite(pull - drag - push)
  {
  }

  /** A gripper joint, with the follower's travel in metres turned into a motor angle. */
  lemma GripperReflection(g: Gains, dyn: Dynamics, m: Measurement, refs: References, j: nat)
    requires j < |m.gripper| && Covers(g, m, refs) && AllNumbers(g, dyn, m, refs, |m.arm| + j)
    ensures var i := |m.arm| + j;
            var pull := g.kp[i].value * (GripperAngle(refs.handPos[j].value) - m.gripper[j].position.value);
            var drag := g.kd[i].value * m.gripper[j].velocity.value;
            var push := if ReflectsForce(g, m, refs) && j < |refs.handTau| then g.kf[i].value * refs.handTau[j].value else 0.0;
            Reflected(g, dyn, m, refs, i) == Finite(pull - drag - push)
  {
    hide GripperMotor, GripperAngle;
    GripperMotorIs(refs.handPos[j].value);
  }

  /** Metres of travel as a motor angle: 0.044 m are -1.0472 rad. */
  function GripperAngle(metres: real): real {
    metres / 0.044 * -1.0472
  }

  lemma GripperMotorIs(metres: real)
    ensures GripperMotor(Finite(metres)) == Finite(GripperAngle(metres))
  {
  }

  function Product(a: real, b: real): real {
    a * b
  }

  lemma SpringIs(kp: Double, ref: Double, kd: Double, at: Motion)
    requires kp.Finite? && ref.Finite? && kd.Finite? && at.position.Finite? && at.velocity.Finite?
    ensures Spring(kp, ref, kd, at)
         == Finite(Product(kp.value, ref.value - at.position.value) - Product(kd.value, at.velocity.value))
  {
  }

  lemma NoDrag(d: real)
    ensures Product(d, 0.0) == 0.0
  {
  }

  lemma PowerIsPositive(d: real, v: real)
    requires d >= 0.0
    ensures Product(Product(d, v), v) >= 0.0 && Product(-Product(d, v), v) <= 0.0
  {
    assert v * v >= 0.0;
    assert (d * v) * v == d * (v * v);
  }

  /** The damper never puts power into the joint. */
  lemma DamperTakesPower(kp: Double, ref: Double, kd: Double, at: Motion)
    requires kp.Finite? && ref.Finite? && kd.Finite? && at.position.Finite? && at.velocity.Finite? && kd.value >= 0.0
    ensures Spring(kp, ref, kd, at).Finite? && Spring(kp, ref, kd, at.(velocity := Zero())).Finite?
    ensures Product(Spring(kp, ref, kd, at).value - Spring(kp, ref, kd, at.(velocity := Zero())).value, at.velocity.value) <= 0.0
  {
    hide Spring, Product;
    SpringIs(kp, ref, kd, at);
    SpringIs(kp, ref, kd, at.(velocity := Zero()));
    NoDrag(kd.value);
    PowerIsPositive(kd.value, at.velocity.value);
  }

  /** At rest the spring always pulls towards the reference. */
  lemma SpringPullsTowards(kp: Double, ref: Double, kd: Double, at: Motion)
    requires kp.Finite? && ref.Finite? && kd.Finite? && at.position.Finite? && at.velocity == Zero() && kp.value >= 0.0
    ensures Spring(kp, ref, kd, at).Finite?
    ensures Product(Spring(kp, ref, kd, at).value, ref.value - at.position.value) >= 0.0
  {
    hide Spring, Product;
    SpringIs(kp, ref, kd, at);
    NoDrag(kd.value);
    PowerIsPositive(kp.value, ref.value - at.position.value);
  }

  // ---------------------------------------------------------------- what is carried and what is sent

  /** A torque cut to its limit on both sides. */
  function Cut(lim: real, tau: real): real {
    if tau > lim then lim else if tau < -lim then -lim else tau
  }

  /** A torque that is no number is not sent. */
  lemma NothingButNumbers(lim: real, tau: Double)
    requires lim >= 0.0 && !tau.Finite?
    ensures Clamped(lim, tau) == Finite(0.0)
  {
  }

  lemma ClampedIsCut(lim: real, tau: real)
    requires lim >= 0.0
    ensures Clamped(lim, Finite(tau)) == Finite(Cut(lim, tau))
  {
  }

  /** The model's answers for a joint are numbers. */
  ghost predicate ModelIsFinite(t: Trim, dyn: Dynamics, m: Measurement, i: nat)
    requires i < m.Dof()
  {
    && dyn.friction(i, VelocityAt(m, i)).Finite?
    && (i < |m.arm| ==> dyn.gravity(Positions(m.arm), i).Finite? && dyn.coriolis(m.arm, i).Finite?)
    && AllFinite(t.scale) && AllFinite(t.offset)
  }

  /** An arm joint carries its trimmed gravity, 0.3 of its friction and 0.1 of its Coriolis torque. */
  lemma ArmCarries(t: Trim, dyn: Dynamics, m: Measurement, i: nat)
    requires i < |m.arm| && ModelIsFinite(t, dyn, m, i)
    ensures var scale := if i < |t.scale| then t.scale[i].value else 1.0;
            var offset := if i < |t.offset| then t.offset[i].value else 0.0;
            Carried(t, dyn, m, i) == Finite(dyn.gravity(Positions(m.arm), i).value * scale + offset
                                            + dyn.friction(i, m.arm[i].velocity).value * 0.3
                                            + dyn.coriolis(m.arm, i).value * 0.1)
  {
    hide Positions;
  }

  /** A gripper joint carries 0.3 of its friction. */
  lemma GripperCarries(t: Trim, dyn: Dynamics, m: Measurement, j: nat)
    requires j < |m.gripper| && ModelIsFinite(t, dyn, m, |m.arm| + j)
    ensures Carried(t, dyn, m, |m.arm| + j) == Finite(dyn.friction(|m.arm| + j, m.gripper[j].velocity).value * 0.3)
  {
  }

  /** Without a command what is sent is what is carried, cut to the joint's limit. */
  lemma SentWithoutCommand(limits: seq<Double>, g: Gains, t: Trim, dyn: Dynamics, m: Measurement, i: nat)
    requires LimitsValid(limits) && i < m.Dof() && Carried(t, dyn, m, i).Finite?
    ensures Torque(limits, g, t, dyn, m, None, i)
         == Finite(Cut(if i < 8 then limits[i].value else 0.0, Carried(t, dyn, m, i).value))
  {
    hide Carried, Clamped;
    ClampedIsCut(LimitAt(limits, i), Carried(t, dyn, m, i).value + 0.0);
  }

  /** With a command of scale up to 1 it is what is carried plus that share of the reflected term, cut to the limit. */
  lemma SentWithCommand(limits: seq<Double>, g: Gains, t: Trim, dyn: Dynamics, m: Measurement, refs: References, scale: real, i: nat)
    requires LimitsValid(limits) && i < m.Dof() && Covers(g, m, refs) && 0.0 < scale <= 1.0
    requires Carried(t, dyn, m, i).Finite? && Reflected(g, dyn, m, refs, i).Finite?
    ensures Torque(limits, g, t, dyn, m, Some(Command(refs, Finite(scale))), i)
         == Finite(Cut(if i < 8 then limits[i].value else 0.0,
                       Carried(t, dyn, m, i).value + Share(Reflected(g, dyn, m, refs, i).value, scale)))
  {
    hide Carried, Clamped, Reflected, Covers;
    var cmd := Some(Command(refs, Finite(scale)));
    assert Renders(g, m, cmd) && Unit(cmd.value.scale) == Finite(scale);
    assert Mul(Reflected(g, dyn, m, refs, i), Finite(scale)) == Finite(Share(Reflected(g, dyn, m, refs, i).value, scale));
    ClampedIsCut(LimitAt(limits, i), Carried(t, dyn, m, i).value + Share(Reflected(g, dyn, m, refs, i).value, scale));
  }
}
