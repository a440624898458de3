/** The shape of the force scale over any run of the engager. */
module EngagerRuns {
  import opened BilateralEngager
  import opened Doubles

  datatype Input = Input(want: bool, aligned: bool, dt: real)

  ghost predicate IsRunFrom(c: Config, start: Engagement, inputs: seq<Input>, run: seq<Engagement>) {
    && |run| == |inputs| + 1
    && run[0] == start
    && forall k :: 0 <= k < |inputs| ==> run[k + 1] == Next(c, run[k], inputs[k].want, inputs[k].aligned, inputs[k].dt)
  }

  ghost predicate PositiveSteps(inputs: seq<Input>) {
    forall k :: 0 <= k < |inputs| ==> inputs[k].dt > 0.0
  }

  ghost predicate IsRun(c: Config, inputs: seq<Input>, run: seq<Engagement>) {
    IsRunFrom(c, RELEASED, inputs, run) && PositiveSteps(inputs)
  }

  /** What state and scale have to do with each other. */
  predicate Shaped(e: Engagement) {
    match e.state
    case Off => e.scale == 0.0
    case WaitAlign => e.scale == 0.0
    case RampUp => 0.0 <= e.scale < 1.0
    case Engaged => e.scale == 1.0
    case RampDown => 0.0 <= e.scale <= 1.0
  }

  lemma RampStepPositive(dt: real, rampS: real)
    requires dt > 0.0
    ensures dt / Ramp(rampS) > 0.0
  {
    var q := dt / Ramp(rampS);
    assert q * Ramp(rampS) == dt;
    if q <= 0.0 {
      NotPositive(q, Ramp(rampS));
    }
  }

  lemma NotPositive(a: real, b: real)
    requires a <= 0.0 && b >= 0.0
    ensures a * b <= 0.0
  {
  }

  lemma StepKeepsShape(c: Config, e: Engagement, i: Input)
    requires Shaped(e) && i.dt > 0.0
    ensures Shaped(Next(c, e, i.want, i.aligned, i.dt))
  {
    RampStepPositive(i.dt, c.rampUpS);
    RampStepPositive(i.dt, c.rampDownS);
  }

  /** Off and waiting mean no force, engaged means full force, and the scale is always between the two. */
  lemma {:induction false} RunIsShaped(c: Config, inputs: seq<Input>, run: seq<Engagement>, k: nat)
    requires IsRun(c, inputs, run) && k < |run|
    ensures Shaped(run[k])
  {
    if k > 0 {
      RunIsShaped(c, inputs, run, k - 1);
      StepKeepsShape(c, run[k - 1], inputs[k - 1]);
    }
  }

  /** How a single step may move the scale. */
  lemma StepMovesScale(c: Config, e: Engagement, i: Input)
    requires Shaped(e) && i.dt > 0.0
    ensures var n := Next(c, e, i.want, i.aligned, i.dt);
            && (n.scale > e.scale ==> e.state == RampUp && i.want)
            && (n.scale < e.scale ==> e.state == RampDown)
            && (e.state == RampDown && e.scale > 0.0 ==> n.scale < e.scale)
  {
    RampStepPositive(i.dt, c.rampUpS);
    RampStepPositive(i.dt, c.rampDownS);
  }

  /** Without want a step ends releasing exactly where there is force, or a started ramp, left to take off. */
  lemma UnwantedStepReleasesIff(c: Config, e: Engagement, i: Input)
    requires Shaped(e) && i.dt > 0.0 && !i.want
    ensures var n := Next(c, e, false, i.aligned, i.dt);
            && (n.state == RampDown <==>
                  e.state == RampUp || e.state == Engaged || (e.state == RampDown && e.scale > i.dt / Ramp(c.rampDownS)))
            && (n.state != RampDown ==> n == RELEASED)
  {
    RampStepPositive(i.dt, c.rampDownS);
  }

  /** With want a step waits, releases or drives on exactly from these states. */
  lemma WantedStepIff(c: Config, e: Engagement, i: Input)
    requires Shaped(e) && i.dt > 0.0 && i.want
    ensures var n, released := Next(c, e, true, i.aligned, i.dt), e.state == RampDown && e.scale <= i.dt / Ramp(c.rampDownS);
            && (n.state == WaitAlign <==> e.state == Off || (e.state == WaitAlign && !i.aligned) || released)
            && (n.state == RampDown <==> e.state == RampDown && !released)
            && (n.state == RampUp || n.state == Engaged <==>
                  (e.state == WaitAlign && i.aligned) || e.state == RampUp || e.state == Engaged)
  {
    RampStepPositive(i.dt, c.rampDownS);
    RampStepPositive(i.dt, c.rampUpS);
  }

  /** Force begins only two steps after waiting with the request made and the arms aligned. */
  lemma ForceStartsAligned(c: Config, inputs: seq<Input>, run: seq<Engagement>, k: nat)
    requires IsRun(c, inputs, run) && 0 < k < |run|
    requires run[k].scale > 0.0 && run[k - 1].scale == 0.0
    ensures k >= 2 && run[k - 2].state == WaitAlign && inputs[k - 2].want && inputs[k - 2].aligned
    ensures run[k - 1].state == RampUp && inputs[k - 1].want
  {
    RunIsShaped(c, inputs, run, k - 1);
    StepMovesScale(c, run[k - 1], inputs[k - 1]);
    assert run[k - 1].state == RampUp;
    RunIsShaped(c, inputs, run, k - 2);
    RampStepPositive(inputs[k - 2].dt, c.rampUpS);
  }

  /** The scale rises only while the request stands. */
  lemma ForceRisesOnlyWanted(c: Config, inputs: seq<Input>, run: seq<Engagement>, k: nat)
    requires IsRun(c, inputs, run) && k < |inputs|
    requires run[k + 1].scale > run[k].scale
    ensures inputs[k].want && run[k].state == RampUp
  {
    RunIsShaped(c, inputs, run, k);
    StepMovesScale(c, run[k], inputs[k]);
  }

  /** A fall goes on strictly until the scale is zero, whatever is requested meanwhile. */
  lemma {:induction false} FallCompletes(c: Config, inputs: seq<Input>, run: seq<Engagement>, i: nat, j: nat)
    requires IsRun(c, inputs, run) && i < j < |run|
    requires run[i + 1].scale < run[i].scale
    requires forall m :: i < m < j ==> run[m].scale > 0.0
    ensures forall m :: i <= m < j ==> run[m + 1].scale < run[m].scale
    ensures run[j].scale > 0.0 ==> run[j].state == RampDown
    decreases j
  {
    RunIsShaped(c, inputs, run, i);
    StepMovesScale(c, run[i], inputs[i]);
    if j > i + 1 {
      FallCompletes(c, inputs, run, i, j - 1);
      RunIsShaped(c, inputs, run, j - 1);
      StepMovesScale(c, run[j - 1], inputs[j - 1]);
    }
  }

  /** Between a fall and the next rise the scale has strictly fallen to zero. */
  lemma NoRiseBeforeZero(c: Config, inputs: seq<Input>, run: seq<Engagement>, i: nat, j: nat) returns (zero: nat)
    requires IsRun(c, inputs, run) && i < j < |inputs|
    requires run[i + 1].scale < run[i].scale && run[j + 1].scale > run[j].scale
    ensures i < zero <= j && run[zero].scale == 0.0
    ensures forall m :: i <= m < zero ==> run[m + 1].scale < run[m].scale
  {
    zero := i + 1;
    RunIsShaped(c, inputs, run, i + 1);
    while zero < j && run[zero].scale > 0.0
      invariant i < zero <= j && run[zero].scale >= 0.0
      invariant forall m :: i < m < zero ==> run[m].scale > 0.0
    {
      zero := zero + 1;
      RunIsShaped(c, inputs, run, zero);
    }
    FallCompletes(c, inputs, run, i, zero);
    if run[zero].scale > 0.0 {
      ForceRisesOnlyWanted(c, inputs, run, j);
    }
  }

  // ---------------------------------------------------------------- bounded release

  /** All steps are control cycles of one rate. */
  ghost predicate Cycles(inputs: seq<Input>, rateHz: real)
    requires rateHz > 0.0
  {
    forall k :: 0 <= k < |inputs| ==> inputs[k].dt == 1.0 / rateHz
  }

  /** What a cycle of releasing takes off the scale. */
  function ReleaseStep(c: Config, rateHz: real): real
    requires rateHz > 0.0
  {
    1.0 / rateHz / Ramp(c.rampDownS)
  }

  /** Control cycles within which a release is complete. */
  function ReleaseCycles(c: Config, rateHz: real): int {
    Ceil(Ramp(c.rampDownS) * rateHz)
  }

  function Times(n: int, step: real): real {
    n as real * step
  }

  lemma TimesNext(n: int, step: real)
    ensures Times(0, step) == 0.0 && Times(n + 1, step) == Times(n, step) + step
  {
  }

  /** A cycle without the request, or any cycle of a release, ends releasing or without force. */
  lemma ReleaseStepped(c: Config, e: Engagement, i: Input, rateHz: real)
    requires rateHz > 0.0 && i.dt == 1.0 / rateHz
    requires Shaped(e) && (e.state == RampDown || (!i.want && e.scale > 0.0))
    ensures var n := Next(c, e, i.want, i.aligned, i.dt);
            && n.scale == (if e.state == RampDown then MaxReal(0.0, e.scale - ReleaseStep(c, rateHz)) else e.scale)
            && (n.scale > 0.0 ==> n.state == RampDown)
  {
    assert i.dt / Ramp(c.rampDownS) == ReleaseStep(c, rateHz);
  }

  /** Falling by a step from an already reduced scale. */
  lemma FallsOn(scale: real, fallen: real, step: real)
    requires MaxReal(0.0, scale - fallen) > 0.0
    ensures MaxReal(0.0, MaxReal(0.0, scale - fallen) - step) == MaxReal(0.0, scale - (fallen + step))
  {
  }

  /** The scale during a release, as long as it has not ended. */
  lemma {:induction false} ReleaseRamp(c: Config, start: Engagement, inputs: seq<Input>, run: seq<Engagement>, rateHz: real, k: nat)
    requires rateHz > 0.0 && Cycles(inputs, rateHz)
    requires IsRunFrom(c, start, inputs, run) && 0 < k < |run|
    requires Shaped(start) && start.scale > 0.0 && (start.state == RampDown || !inputs[0].want)
    requires forall m :: 1 <= m < k ==> run[m].scale > 0.0
    ensures run[k].scale == MaxReal(0.0, start.scale - Times(if start.state == RampDown then k else k - 1, ReleaseStep(c, rateHz)))
    ensures run[k].scale > 0.0 ==> run[k].state == RampDown
    ensures Shaped(run[k])
    decreases k
  {
    hide ReleaseStep, Times, Next;
    assert 1.0 / rateHz > 0.0;
    var step := ReleaseStep(c, rateHz);
    ReleaseStepPositive(c, rateHz);
    TimesNext(0, step);
    if k == 1 {
      ReleaseStepped(c, start, inputs[0], rateHz);
      StepKeepsShape(c, start, inputs[0]);
    } else {
      ReleaseRamp(c, start, inputs, run, rateHz, k - 1);
      ReleaseStepped(c, run[k - 1], inputs[k - 1], rateHz);
      StepKeepsShape(c, run[k - 1], inputs[k - 1]);
      var before := if start.state == RampDown then k - 1 else k - 2;
      TimesNext(before, step);
      FallsOn(start.scale, Times(before, step), step);
    }
  }

  lemma ReleaseStepPositive(c: Config, rateHz: real)
    requires rateHz > 0.0
    ensures ReleaseStep(c, rateHz) > 0.0
  {
    assert 1.0 / rateHz > 0.0;
    RampStepPositive(1.0 / rateHz, c.rampDownS);
  }

  lemma EnoughCycles(c: Config, rateHz: real, n: int)
    requires rateHz > 0.0 && n >= ReleaseCycles(c, rateHz)
    ensures Times(n, ReleaseStep(c, rateHz)) >= 1.0
  {
    var r, step := Ramp(c.rampDownS), ReleaseStep(c, rateHz);
    ReleaseStepPositive(c, rateHz);
    CeilAtMost(r * rateHz, n);
    assert 1.0 / rateHz * rateHz == 1.0;
    assert step * r == 1.0 / rateHz;
    StepsMakeOne(r, rateHz, 1.0 / rateHz, step);
    TimesAtLeast(n, r * rateHz, step);
  }

  lemma StepsMakeOne(r: real, rateHz: real, dt: real, step: real)
    requires dt * rateHz == 1.0 && step * r == dt
    ensures (r * rateHz) * step == 1.0
  {
    assert (r * rateHz) * step == (step * r) * rateHz;
  }

  lemma TimesAtLeast(n: int, whole: real, step: real)
    requires whole <= n as real && step > 0.0
    ensures Times(n, step) >= whole * step
  {
    ScaleUp(whole, n as real, step);
  }

  /**
   From the first cycle without the request the force is gone no later than `ReleaseCycles` cycles
   after it, whatever is requested in the meantime.
   */
  lemma ReleasedInTime(c: Config, start: Engagement, inputs: seq<Input>, run: seq<Engagement>, rateHz: real) returns (k: nat)
    requires rateHz > 0.0 && Cycles(inputs, rateHz)
    requires IsRunFrom(c, start, inputs, run) && Shaped(start)
    requires |inputs| > ReleaseCycles(c, rateHz) && !inputs[0].want
    ensures 0 < k <= ReleaseCycles(c, rateHz) + 1 && run[k].scale == 0.0
  {
    hide Times, ReleaseStep, ReleaseCycles, Ceil;
    var n := ReleaseCycles(c, rateHz);
    ReleaseCyclesPositive(c, rateHz);
    k := 1;
    if start.scale == 0.0 {
      NoForceUnwanted(c, start, inputs[0], rateHz);
      return;
    }
    ReleaseRamp(c, start, inputs, run, rateHz, k);
    while k < n + 1 && run[k].scale > 0.0
      invariant 0 < k <= n + 1
      invariant forall m :: 1 <= m < k ==> run[m].scale > 0.0
      invariant run[k].scale >= 0.0
    {
      k := k + 1;
      ReleaseRamp(c, start, inputs, run, rateHz, k);
    }
    if run[k].scale > 0.0 {
      ReleaseRamp(c, start, inputs, run, rateHz, n + 1);
      EnoughCycles(c, rateHz, n);
      ReleaseStepPositive(c, rateHz);
      TimesNext(n, ReleaseStep(c, rateHz));
    }
  }

  lemma ReleaseCyclesPositive(c: Config, rateHz: real)
    requires rateHz > 0.0
    ensures ReleaseCycles(c, rateHz) > 0
  {
    CeilAtMost(Ramp(c.rampDownS) * rateHz, 0);
    ScaleUp(0.001, Ramp(c.rampDownS), rateHz);
  }

  lemma NoForceUnwanted(c: Config, e: Engagement, i: Input, rateHz: real)
    requires Shaped(e) && e.scale == 0.0 && !i.want && rateHz > 0.0 && i.dt == 1.0 / rateHz
    ensures Next(c, e, i.want, i.aligned, i.dt).scale == 0.0
  {
    RampStepPositive(i.dt, c.rampDownS);
  }

  // ---------------------------------------------------------------- engaging

  /** All steps are wanted. */
  ghost predicate AllWanted(inputs: seq<Input>) {
    forall k :: 0 <= k < |inputs| ==> inputs[k].want
  }

  /** What a wanted cycle of ramping up adds to the scale. */
  function EngageStep(c: Config, rateHz: real): real
    requires rateHz > 0.0
  {
    1.0 / rateHz / Ramp(c.rampUpS)
  }

  lemma EngageStepPositive(c: Config, rateHz: real)
    requires rateHz > 0.0
    ensures EngageStep(c, rateHz) > 0.0
  {
    assert 1.0 / rateHz > 0.0;
    RampStepPositive(1.0 / rateHz, c.rampUpS);
  }

  /** A wanted cycle with force engaged or on its way. */
  lemma EngageStepped(c: Config, e: Engagement, i: Input, rateHz: real)
    requires rateHz > 0.0 && i.dt == 1.0 / rateHz && i.want
    requires (e.state == Engaged && e.scale == 1.0) || (e.state == RampUp && e.scale < 1.0)
    ensures var n := Next(c, e, i.want, i.aligned, i.dt);
            && n.scale == MinReal(1.0, e.scale + EngageStep(c, rateHz))
            && n.state == (if n.scale == 1.0 then Engaged else RampUp)
  {
    assert i.dt / Ramp(c.rampUpS) == EngageStep(c, rateHz);
    EngageStepPositive(c, rateHz);
  }

  lemma RisesOn(scale: real, risen: real, step: real)
    requires step > 0.0
    ensures MinReal(1.0, MinReal(1.0, scale + risen) + step) == MinReal(1.0, scale + (risen + step))
  {
  }

  /** The scale while the force is wanted and rises, and that the engager is engaged once it is full. */
  lemma {:induction false} RisingRamp(c: Config, start: Engagement, inputs: seq<Input>, run: seq<Engagement>, rateHz: real, k: nat)
    requires rateHz > 0.0 && Cycles(inputs, rateHz) && AllWanted(inputs)
    requires IsRunFrom(c, start, inputs, run) && k < |run| && start.state == RampUp && 0.0 <= start.scale < 1.0
    ensures run[k].scale == MinReal(1.0, start.scale + Times(k, EngageStep(c, rateHz)))
    ensures run[k].state == if run[k].scale == 1.0 then Engaged else RampUp
    ensures run[k].scale <= 1.0
  {
    hide EngageStep, Times, Next;
    var step := EngageStep(c, rateHz);
    EngageStepPositive(c, rateHz);
    TimesNext(0, step);
    if k > 0 {
      RisingRamp(c, start, inputs, run, rateHz, k - 1);
      EngageStepped(c, run[k - 1], inputs[k - 1], rateHz);
      TimesNext(k - 1, step);
      RisesOn(start.scale, Times(k - 1, step), step);
    }
  }

  /** Steps from nothing to full force, exactly. */
  lemma FullIff(c: Config, rateHz: real, n: int)
    requires rateHz > 0.0
    ensures Times(n, EngageStep(c, rateHz)) >= 1.0 <==> n >= Ceil(Ramp(c.rampUpS) * rateHz)
  {
    var r, step := Ramp(c.rampUpS), EngageStep(c, rateHz);
    EngageStepPositive(c, rateHz);
    CeilAtMost(r * rateHz, n);
    assert 1.0 / rateHz * rateHz == 1.0;
    assert step * r == 1.0 / rateHz;
    StepsMakeOne(r, rateHz, 1.0 / rateHz, step);
    if r * rateHz <= n as real {
      TimesAtLeast(n, r * rateHz, step);
    } else {
      ScaleStrictlyUp(n as real, r * rateHz, step);
    }
  }

  /**
   Wanted and aligned from the start, the engager is engaged from two cycles plus the ramp on, and not
   before; the ramp takes max(ramp_up_s, 1 ms) times the rate, rounded up.
   */
  lemma EngagesInTime(c: Config, inputs: seq<Input>, run: seq<Engagement>, rateHz: real, k: nat)
    requires rateHz > 0.0 && Cycles(inputs, rateHz) && AllWanted(inputs)
    requires IsRunFrom(c, RELEASED, inputs, run) && k < |run| && (|inputs| > 1 ==> inputs[1].aligned)
    ensures run[k].state == Engaged <==> k >= 2 + Ceil(Ramp(c.rampUpS) * rateHz)
  {
    hide Times, EngageStep, Ceil;
    CeilAtMost(Ramp(c.rampUpS) * rateHz, 0);
    ScaleUp(0.001, Ramp(c.rampUpS), rateHz);
    if k >= 2 {
      assert run[1] == Engagement(WaitAlign, 0.0) && run[2] == Engagement(RampUp, 0.0);
      var rest, tail := inputs[2..], run[2..];
      assert IsRunFrom(c, run[2], rest, tail);
      RisingRamp(c, run[2], rest, tail, rateHz, k - 2);
      FullIff(c, rateHz, k - 2);
    } else if k == 1 {
      assert run[1] == Engagement(WaitAlign, 0.0);
    }
  }
}
