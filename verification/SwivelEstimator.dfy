/** The temporal swivel estimate of the VR leader: a rate-limited linear recurrence. */
module SwivelEstimator {
  import opened Doubles

  datatype Config = Config(
    enabled: bool,
    neutralGain: real,
    continuityGain: real,
    maxSwivelRate: real,
    neutralSwivel: real)

  function Next(c: Config, swivel: real, dt: real): real {
    var desired := c.neutralGain * c.neutralSwivel + c.continuityGain * swivel;
    var maxDelta := c.maxSwivelRate * dt;
    swivel + MaxReal(-maxDelta, MinReal(maxDelta, desired - swivel))
  }

  class Estimator {
    const config: Config
    var currentSwivel: real

    constructor (config: Config)
      ensures this.config == config && currentSwivel == config.neutralSwivel
    {
      this.config := config;
      currentSwivel := config.neutralSwivel;
    }

    method Reset(neutralSwivel: real)
      modifies this
      ensures currentSwivel == neutralSwivel
    {
      currentSwivel := neutralSwivel;
    }

    /** A disabled estimator answers the neutral swivel and forgets nothing. */
    method Update(dt: real) returns (swivel: real)
      modifies this
      ensures !config.enabled ==> swivel == config.neutralSwivel && currentSwivel == old(currentSwivel)
      ensures config.enabled ==> swivel == currentSwivel == Next(config, old(currentSwivel), dt)
    {
      if !config.enabled {
        return config.neutralSwivel;
      }
      var desired := config.neutralGain * config.neutralSwivel + config.continuityGain * currentSwivel;
      var maxDelta := config.maxSwivelRate * dt;
      var delta := desired - currentSwivel;
      delta := MaxReal(-maxDelta, MinReal(maxDelta, delta));
      currentSwivel := currentSwivel + delta;
      return currentSwivel;
    }
  }

  // ---------------------------------------------------------------- convergence

  predicate Contracting(c: Config) {
    0.0 <= c.continuityGain < 1.0 && c.maxSwivelRate > 0.0
  }

  /** Where the estimate would stay. */
  function RestingSwivel(c: Config): real
    requires Contracting(c)
  {
    c.neutralGain * c.neutralSwivel / (1.0 - c.continuityGain)
  }

  function Distance(c: Config, swivel: real): real
    requires Contracting(c)
  {
    AbsReal(RestingSwivel(c) - swivel)
  }

  /** What one update takes off a distance. */
  function Progress(c: Config, distance: real, dt: real): real {
    MinReal(Pull(c, distance), MaxDelta(c, dt))
  }

  /** What an unlimited update would take off a (signed) distance. */
  function Pull(c: Config, e: real): real {
    (1.0 - c.continuityGain) * e
  }

  function MaxDelta(c: Config, dt: real): real {
    c.maxSwivelRate * dt
  }

  lemma PullTowardsRest(c: Config, swivel: real)
    requires Contracting(c)
    ensures c.neutralGain * c.neutralSwivel + c.continuityGain * swivel - swivel == Pull(c, RestingSwivel(c) - swivel)
  {
    var k := 1.0 - c.continuityGain;
    assert RestingSwivel(c) * k == c.neutralGain * c.neutralSwivel;
    assert k * (RestingSwivel(c) - swivel) == k * RestingSwivel(c) - k * swivel;
  }

  /** Each update shrinks the distance by exactly its progress, from the same side: no overshoot. */
  lemma UpdateShrinksDistance(c: Config, swivel: real, dt: real)
    requires Contracting(c) && dt >= 0.0
    ensures Distance(c, Next(c, swivel, dt)) == Distance(c, swivel) - Progress(c, Distance(c, swivel), dt)
    ensures swivel <= RestingSwivel(c) ==> swivel <= Next(c, swivel, dt) <= RestingSwivel(c)
    ensures swivel >= RestingSwivel(c) ==> swivel >= Next(c, swivel, dt) >= RestingSwivel(c)
  {
    hide Next, RestingSwivel, Progress;
    var pull, m := PullAndLimit(c, swivel, dt);
    ClampedPull(RestingSwivel(c) - swivel, pull, m);
  }

  lemma PullAndLimit(c: Config, swivel: real, dt: real) returns (pull: real, m: real)
    requires Contracting(c) && dt >= 0.0
    ensures m >= 0.0
    ensures var e := RestingSwivel(c) - swivel; 0.0 <= pull <= e || e <= pull <= 0.0
    ensures Next(c, swivel, dt) == swivel + MaxReal(-m, MinReal(m, pull))
    ensures Progress(c, Distance(c, swivel), dt) == MinReal(AbsReal(pull), m)
  {
    NextIsClampedPull(c, swivel, dt);
    MaxDeltaNonNegative(c, dt);
    PullIsFraction(c, RestingSwivel(c) - swivel);
    hide Next, RestingSwivel, Pull, MaxDelta, AbsReal, MinReal, MaxReal;
    pull, m := Pull(c, RestingSwivel(c) - swivel), MaxDelta(c, dt);
  }

  lemma MaxDeltaNonNegative(c: Config, dt: real)
    requires Contracting(c) && dt >= 0.0
    ensures MaxDelta(c, dt) >= 0.0
  {
    NonNegative(c.maxSwivelRate, dt);
  }

  lemma PullIsFraction(c: Config, e: real)
    requires Contracting(c)
    ensures 0.0 <= Pull(c, e) <= e || e <= Pull(c, e) <= 0.0
    ensures Pull(c, AbsReal(e)) == AbsReal(Pull(c, e))
  {
    FractionOf(1.0 - c.continuityGain, e);
    ScaledAbs(1.0 - c.continuityGain, e);
  }

  lemma NextIsClampedPull(c: Config, swivel: real, dt: real)
    requires Contracting(c)
    ensures Next(c, swivel, dt)
            == swivel + MaxReal(-MaxDelta(c, dt), MinReal(MaxDelta(c, dt), Pull(c, RestingSwivel(c) - swivel)))
  {
    PullTowardsRest(c, swivel);
  }

  lemma ScaledAbs(k: real, e: real)
    requires k > 0.0
    ensures k * AbsReal(e) == AbsReal(k * e)
  {
    if e < 0.0 {
      Positive(k, -e);
      assert k * (-e) == -(k * e);
    } else {
      NonNegative(k, e);
    }
  }

  /** A pull towards the target, clamped, covers that much of the way. */
  lemma ClampedPull(e: real, pull: real, m: real)
    requires m >= 0.0 && (0.0 <= pull <= e || e <= pull <= 0.0)
    ensures var delta := MaxReal(-m, MinReal(m, pull));
            AbsReal(e - delta) == AbsReal(e) - MinReal(AbsReal(pull), m) && (0.0 <= delta <= e || e <= delta <= 0.0)
  {
  }

  lemma NonNegative(a: real, b: real)
    requires a >= 0.0 && b >= 0.0
    ensures a * b >= 0.0
  {
  }

  lemma FractionOf(k: real, e: real)
    requires 0.0 < k <= 1.0
    ensures e >= 0.0 ==> 0.0 <= k * e <= e
    ensures e <= 0.0 ==> e <= k * e <= 0.0
  {
    if e >= 0.0 {
      NonNegative(k, e);
      NonNegative(1.0 - k, e);
    } else {
      NonNegative(k, -e);
      NonNegative(1.0 - k, -e);
    }
  }

  ghost predicate IsEstimateRun(c: Config, swivels: seq<real>, dts: seq<real>, minDt: real) {
    && |swivels| == |dts| + 1
    && forall k :: 0 <= k < |dts| ==> dts[k] >= minDt && swivels[k + 1] == Next(c, swivels[k], dts[k])
  }

  /** While the distance is at least `eps`, an update takes off at least this much. */
  function LeastProgress(c: Config, eps: real, minDt: real): real {
    MinReal((1.0 - c.continuityGain) * eps, c.maxSwivelRate * minDt)
  }

  lemma {:induction false} DistanceFalls(c: Config, swivels: seq<real>, dts: seq<real>, minDt: real, eps: real, k: nat)
    requires Contracting(c) && minDt > 0.0 && eps > 0.0
    requires IsEstimateRun(c, swivels, dts, minDt) && k < |swivels|
    ensures Distance(c, swivels[k]) < eps
            || Distance(c, swivels[k]) <= Distance(c, swivels[0]) - k as real * LeastProgress(c, eps, minDt)
  {
    if k > 0 {
      DistanceFalls(c, swivels, dts, minDt, eps, k - 1);
      var x, dt, least := swivels[k - 1], dts[k - 1], LeastProgress(c, eps, minDt);
      assert swivels[k] == Next(c, x, dt);
      hide Next, RestingSwivel, Progress, LeastProgress, Distance;
      UpdateShrinksDistance(c, x, dt);
      var d := Distance(c, x);
      ProgressNonNegative(c, d, dt);
      if d >= eps {
        ProgressAtLeast(c, d, dt, eps, minDt);
        assert k as real * least == (k - 1) as real * least + least;
      }
    }
  }

  lemma ProgressNonNegative(c: Config, distance: real, dt: real)
    requires Contracting(c) && distance >= 0.0 && dt >= 0.0
    ensures Progress(c, distance, dt) >= 0.0
  {
    NonNegative(1.0 - c.continuityGain, distance);
    NonNegative(c.maxSwivelRate, dt);
  }

  lemma ProgressAtLeast(c: Config, distance: real, dt: real, eps: real, minDt: real)
    requires Contracting(c) && distance >= eps && dt >= minDt
    ensures Progress(c, distance, dt) >= LeastProgress(c, eps, minDt)
  {
    NonNegative(1.0 - c.continuityGain, distance - eps);
    NonNegative(c.maxSwivelRate, dt - minDt);
    assert (1.0 - c.continuityGain) * (distance - eps) == (1.0 - c.continuityGain) * distance - (1.0 - c.continuityGain) * eps;
    assert c.maxSwivelRate * (dt - minDt) == c.maxSwivelRate * dt - c.maxSwivelRate * minDt;
  }

  /** Updates after which the estimate is within `eps` of its resting value, known before the first one. */
  function UpdatesEnough(c: Config, distance: real, eps: real, minDt: real): int
    requires Contracting(c) && minDt > 0.0 && eps > 0.0
  {
    LeastProgressPositive(c, eps, minDt);
    Ceil(distance / LeastProgress(c, eps, minDt))
  }

  lemma LeastProgressPositive(c: Config, eps: real, minDt: real)
    requires Contracting(c) && minDt > 0.0 && eps > 0.0
    ensures LeastProgress(c, eps, minDt) > 0.0
  {
    Positive(1.0 - c.continuityGain, eps);
    Positive(c.maxSwivelRate, minDt);
  }

  /** The estimate gets within any `eps` of its resting value in a bounded number of updates, and stays there. */
  lemma Converges(c: Config, swivels: seq<real>, dts: seq<real>, minDt: real, eps: real, k: nat)
    requires Contracting(c) && minDt > 0.0 && eps > 0.0
    requires IsEstimateRun(c, swivels, dts, minDt)
    requires UpdatesEnough(c, Distance(c, swivels[0]), eps, minDt) <= k < |swivels|
    ensures Distance(c, swivels[k]) < eps
  {
    DistanceFalls(c, swivels, dts, minDt, eps, k);
    LeastProgressPositive(c, eps, minDt);
    hide LeastProgress, Distance;
    var d, least := Distance(c, swivels[0]), LeastProgress(c, eps, minDt);
    CeilAtMost(d / least, k);
    QuotientAtMost(d, least, k as real);
  }

  lemma Positive(a: real, b: real)
    requires a > 0.0 && b > 0.0
    ensures a * b > 0.0
  {
  }
}
