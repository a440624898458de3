/** Per-cycle limit on how far a target may be from the current reference. */
module RateLimiter {
  import opened Doubles

  /**
   One joint: the target, or the current position moved by the limit towards it.  A comparison with NaN
   is false, so a NaN on either side lets the target through.
   */
  function Limited(current: Double, target: Double, limit: real): Double {
    var delta := Sub(target, current);
    if Less(Finite(limit), delta) then Add(current, Finite(limit))
    else if Less(delta, Finite(-limit)) then Sub(current, Finite(limit))
    else target
  }

  function LimitedAll(current: seq<Double>, target: seq<Double>, limit: real): (r: seq<Double>)
    ensures |r| == |target|
  {
    if |current| != |target| then target
    else seq(|target|, i requires 0 <= i < |target| => Limited(current[i], target[i], limit))
  }

  class Limiter {
    const maxDeltaPerCycle: real
    const maxVelocity: real
    const cycleTimeS: real

    constructor (maxDeltaPerCycle: real, maxVelocity: real, cycleTimeS: real)
      ensures this.maxDeltaPerCycle == maxDeltaPerCycle && this.maxVelocity == maxVelocity && this.cycleTimeS == cycleTimeS
    {
      this.maxDeltaPerCycle := maxDeltaPerCycle;
      this.maxVelocity := maxVelocity;
      this.cycleTimeS := cycleTimeS;
    }

    function EffectiveLimit(): (r: real)
      ensures r <= maxDeltaPerCycle && r <= maxVelocity * cycleTimeS
      ensures r == maxDeltaPerCycle || r == maxVelocity * cycleTimeS
    {
      MinReal(maxDeltaPerCycle, maxVelocity * cycleTimeS)
    }

    /** Leaves the target alone when the sizes differ. */
    method Limit(current: seq<Double>, target: array<Double>)
      modifies target
      ensures target[..] == LimitedAll(current, old(target[..]), EffectiveLimit())
    {
      hide Add, Less;
      if |current| != target.Length {
        return;
      }
      var maxVelocityDelta := maxVelocity * cycleTimeS;
      var limit := MinReal(maxDeltaPerCycle, maxVelocityDelta);
      for i := 0 to target.Length
        invariant forall k :: 0 <= k < i ==> target[k] == Limited(current[k], old(target[k]), limit)
        invariant forall k :: i <= k < target.Length ==> target[k] == old(target[k])
      {
        var delta := Sub(target[i], current[i]);
        if Less(Finite(limit), delta) {
          target[i] := Add(current[i], Finite(limit));
        } else if Less(delta, Finite(-limit)) {
          target[i] := Sub(current[i], Finite(limit));
        }
      }
      assert target[..] == LimitedAll(current, old(target[..]), limit);
    }
  }

  // ---------------------------------------------------------------- one cycle

  /** Both are numbers, no further apart than the bound. */
  predicate Within(from: Double, to: Double, bound: real) {
    from.Finite? && to.Finite? && AbsReal(to.value - from.value) <= bound
  }

  /** From a number, a cycle gives a number within the limit exactly if the target is not NaN. */
  lemma LimitedWithinIff(current: Double, target: Double, limit: real)
    requires current.Finite?
    ensures Within(current, Limited(current, target, limit), AbsReal(limit)) <==> target != NaN
  {
  }

  /** A NaN target becomes the reference, and the cycle after it takes whatever it is given. */
  lemma NanOpensTheLimit(current: Double, target: Double, limit: real)
    ensures Limited(current, NaN, limit) == NaN
    ensures Limited(Limited(current, NaN, limit), target, limit) == target
  {
  }

  /** The distance left after a cycle towards a fixed target. */
  function Remaining(distance: real, limit: real): real {
    if distance > limit then distance - limit else 0.0
  }

  /** Between two numbers, in either direction. */
  predicate Between(x: real, from: real, to: real) {
    from <= x <= to || to <= x <= from
  }

  /** Towards a fixed target a cycle covers the limit or all that is left, and never passes the target. */
  lemma StepTowardsTarget(current: real, target: real, limit: real)
    requires limit > 0.0
    ensures var next := Limited(Finite(current), Finite(target), limit);
            && next.Finite?
            && AbsReal(target - next.value) == Remaining(AbsReal(target - current), limit)
            && Between(next.value, current, target)
  {
  }

  // ---------------------------------------------------------------- trajectories of one reference

  /** The references of one joint in successive cycles, each limited from the one before. */
  ghost predicate IsTrajectory(refs: seq<Double>, targets: seq<Double>, limit: real) {
    && |refs| == |targets| + 1
    && forall k :: 0 <= k < |targets| ==> refs[k + 1] == Limited(refs[k], targets[k], limit)
  }

  /** The limits of k cycles together. */
  function Cycles(k: int, limit: real): real {
    k as real * AbsReal(limit)
  }

  lemma OneMoreCycle(k: int, limit: real)
    ensures Cycles(0, limit) == 0.0 && Cycles(1, limit) == AbsReal(limit)
    ensures Cycles(k + 1, limit) == Cycles(k, limit) + AbsReal(limit)
  {
  }

  lemma WithinAdds(a: Double, b: Double, c: Double, k: int, limit: real)
    requires Within(a, b, Cycles(k, limit)) && Within(b, c, AbsReal(limit))
    ensures Within(a, c, Cycles(k + 1, limit))
  {
    hide Cycles;
    OneMoreCycle(k, limit);
  }

  /** However targets jump, k cycles move a number by at most k limits, as long as no target is NaN. */
  lemma {:induction false} TravelBound(refs: seq<Double>, targets: seq<Double>, limit: real, i: nat, k: nat)
    requires IsTrajectory(refs, targets, limit) && i + k < |refs| && refs[0].Finite?
    requires forall j :: 0 <= j < i + k ==> targets[j] != NaN
    ensures Within(refs[i], refs[i + k], Cycles(k, limit))
    decreases i + k
  {
    hide Limited, Cycles;
    OneMoreCycle(0, limit);
    if k > 0 {
      TravelBound(refs, targets, limit, i, k - 1);
      LimitedWithinIff(refs[i + k - 1], targets[i + k - 1], limit);
      WithinAdds(refs[i], refs[i + k - 1], refs[i + k], k - 1, limit);
    } else if i > 0 {
      TravelBound(refs, targets, limit, i - 1, 0);
      LimitedWithinIff(refs[i - 1], targets[i - 1], limit);
    }
  }

  /** Any number of cycles moves the reference by at most as many limits. */
  ghost predicate Restrained(refs: seq<Double>, limit: real) {
    forall i, j :: 0 <= i <= j < |refs| ==> Within(refs[i], refs[j], Cycles(j - i, limit))
  }

  /** From a number, a trajectory is restrained exactly if none of its targets is NaN. */
  lemma RestrainedIff(refs: seq<Double>, targets: seq<Double>, limit: real)
    requires IsTrajectory(refs, targets, limit) && refs[0].Finite?
    ensures Restrained(refs, limit) <==> forall k :: 0 <= k < |targets| ==> targets[k] != NaN
  {
    hide Limited, Cycles;
    if forall k :: 0 <= k < |targets| ==> targets[k] != NaN {
      forall i, j | 0 <= i <= j < |refs| ensures Within(refs[i], refs[j], Cycles(j - i, limit)) {
        TravelBound(refs, targets, limit, i, j - i);
      }
    } else {
      var k :| 0 <= k < |targets| && targets[k] == NaN;
      NanOpensTheLimit(refs[k], NaN, limit);
      assert !Within(refs[k], refs[k + 1], Cycles(k + 1 - k, limit));
    }
  }

  /** Towards a fixed target the distance falls by one limit a cycle until nothing is left, from one side. */
  lemma {:induction false} ApproachExactly(refs: seq<Double>, targets: seq<Double>, limit: real, start: real, target: real, k: nat)
    requires IsTrajectory(refs, targets, limit) && k < |refs| && limit > 0.0
    requires refs[0] == Finite(start) && forall j :: 0 <= j < |targets| ==> targets[j] == Finite(target)
    ensures refs[k].Finite? && Between(refs[k].value, start, target)
    ensures AbsReal(target - refs[k].value) == MaxReal(AbsReal(target - start) - k as real * limit, 0.0)
  {
    hide Limited;
    if k > 0 {
      ApproachExactly(refs, targets, limit, start, target, k - 1);
      StepTowardsTarget(refs[k - 1].value, target, limit);
      assert k as real * limit == (k - 1) as real * limit + limit;
    }
  }

  /** Arrival takes exactly the distance divided by the limit, rounded up. */
  lemma ArrivesOnTime(refs: seq<Double>, targets: seq<Double>, limit: real, start: real, target: real, k: nat)
    requires IsTrajectory(refs, targets, limit) && k < |refs| && limit > 0.0
    requires refs[0] == Finite(start) && forall j :: 0 <= j < |targets| ==> targets[j] == Finite(target)
    ensures refs[k] == Finite(target) <==> k >= Ceil(AbsReal(target - start) / limit)
  {
    hide Limited, Ceil;
    ApproachExactly(refs, targets, limit, start, target, k);
    var d := AbsReal(target - start);
    CeilAtMost(d / limit, k);
    QuotientAtMost(d, limit, k as real);
  }
}
