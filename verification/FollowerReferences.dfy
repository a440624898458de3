/** How the references of a follower arm travel over control cycles. */
module FollowerReferences {
  import opened Doubles
  import opened FollowerCycle
  import opened Packets
  import opened RateLimiter
  import opened TeleopStateBuffer
  import opened Wrappers

  /** The packet commands as many joints as the arm has. */
  predicate SizesMatch(refs: ArmReferences, c: Command) {
    |refs.Joints()| == c.armDof as int + c.handDof as int
  }

  /** Where a joint's reference goes: limited if the sizes match, straight to the target if they do not. */
  lemma FollowedJoint(refs: ArmReferences, c: Command, limit: real, j: nat)
    requires FitsSlots(refs) && c.DofWithinSlots() && j < |refs.Joints()|
    ensures |Followed(refs, c, limit).Joints()| == |refs.Joints()|
    ensures var at := refs.Joints()[j].position;
            && var next := Followed(refs, c, limit).Joints()[j].position;
            && next == if j >= |Targets(c)| then at
                       else if SizesMatch(refs, c) then Limited(at, Targets(c)[j], limit)
                       else Targets(c)[j]
  {
    hide Limited, Followed;
    var positions := LimitedTargets(refs, c, limit);
    assert |positions| == |Targets(c)|;
    OverlaidJoint(refs, c, limit, j);
    assert PositionsOf(refs.Joints())[j] == refs.Joints()[j].position;
    if SizesMatch(refs, c) {
      assert |PositionsOf(refs.Joints())| == |Targets(c)|;
    }
  }

  /** A joint that takes a position takes the velocity commanded for it too, and no other. */
  lemma FollowedVelocity(refs: ArmReferences, c: Command, limit: real, i: nat)
    requires FitsSlots(refs) && c.DofWithinSlots()
    ensures var after, targets := Followed(refs, c, limit), c.armDof as int + c.handDof as int;
            && |after.arm| == |refs.arm| && |after.hand| == |refs.hand|
            && (i < |refs.arm| ==> after.arm[i].velocity == if i < targets then c.armVel[i] else refs.arm[i].velocity)
            && (i < |refs.hand| ==>
                  after.hand[i].velocity == if |refs.arm| + i < targets then c.handVel[i] else refs.hand[i].velocity)
  {
    hide LimitedAll;
    assert |LimitedTargets(refs, c, limit)| == c.armDof as int + c.handDof as int;
  }

  /** The arm takes the first of the limited targets and the hand those past the arm's own joints. */
  lemma OverlaidJoint(refs: ArmReferences, c: Command, limit: real, j: nat)
    requires FitsSlots(refs) && c.DofWithinSlots() && j < |refs.Joints()|
    ensures |Followed(refs, c, limit).Joints()| == |refs.Joints()|
    ensures Followed(refs, c, limit).Joints()[j].position
         == var positions := LimitedTargets(refs, c, limit);
            if j < |positions| then positions[j] else refs.Joints()[j].position
  {
    hide LimitedTargets;
    var positions := LimitedTargets(refs, c, limit);
    var after := Followed(refs, c, limit);
    if j < |refs.arm| {
      assert after.Joints()[j] == after.arm[j];
      assert refs.Joints()[j] == refs.arm[j];
    } else {
      assert after.Joints()[j] == after.hand[j - |refs.arm|];
      assert refs.Joints()[j] == refs.hand[j - |refs.arm|];
      if j < |positions| {
        assert Tail(positions, |refs.arm|)[j - |refs.arm|] == positions[j];
      }
    }
  }

  // ---------------------------------------------------------------- one command

  /** Every reference is a number. */
  ghost predicate AllNumbers(refs: ArmReferences) {
    forall j :: 0 <= j < |refs.Joints()| ==> refs.Joints()[j].position.Finite?
  }

  /** No commanded position is NaN. */
  ghost predicate NoNan(c: Command)
    requires c.DofWithinSlots()
  {
    forall j :: 0 <= j < |Targets(c)| ==> Targets(c)[j] != NaN
  }

  ghost predicate MovesWithin(refs: ArmReferences, c: Command, limit: real, j: nat)
    requires FitsSlots(refs) && c.DofWithinSlots()
  {
    && j < |refs.Joints()| && j < |Followed(refs, c, limit).Joints()|
    && Within(refs.Joints()[j].position, Followed(refs, c, limit).Joints()[j].position, AbsReal(limit))
  }

  /** The command moves no joint by more than the limit. */
  ghost predicate IsRestrained(refs: ArmReferences, c: Command, limit: real)
    requires FitsSlots(refs) && c.DofWithinSlots()
  {
    forall j: nat :: j < |refs.Joints()| ==> MovesWithin(refs, c, limit, j)
  }

  /** With matching sizes a command is restrained in every joint exactly if none of its targets is NaN. */
  lemma RestrainedIffNoNan(refs: ArmReferences, c: Command, limit: real)
    requires FitsSlots(refs) && c.DofWithinSlots() && AllNumbers(refs) && SizesMatch(refs, c)
    ensures IsRestrained(refs, c, limit) <==> NoNan(c)
  {
    hide Followed, Limited, SizesMatch;
    TargetsAreAllJoints(refs, c);
    forall j: nat | j < |refs.Joints()| ensures MovesWithin(refs, c, limit, j) <==> Targets(c)[j] != NaN {
      FollowedJoint(refs, c, limit, j);
      LimitedWithinIff(refs.Joints()[j].position, Targets(c)[j], limit);
    }
    if !NoNan(c) {
      var j :| 0 <= j < |Targets(c)| && Targets(c)[j] == NaN;
      assert !MovesWithin(refs, c, limit, j);
    }
  }

  lemma TargetsAreAllJoints(refs: ArmReferences, c: Command)
    requires c.DofWithinSlots()
    ensures SizesMatch(refs, c) <==> |Targets(c)| == |refs.Joints()|
  {
  }

  /** Whatever stands between them, a NaN and then a target put the reference on the target at once. */
  lemma NanThenAnyTarget(refs: ArmReferences, first: Command, second: Command, limit: real, j: nat)
    requires FitsSlots(refs) && first.DofWithinSlots() && second.DofWithinSlots()
    requires SizesMatch(refs, first) && SizesMatch(refs, second) && j < |Targets(first)|
    requires Targets(first)[j] == NaN
    ensures |Targets(first)| == |refs.Joints()| == |Targets(second)|
    ensures var after := Followed(refs, first, limit);
            && FitsSlots(after) && |after.Joints()| == |refs.Joints()| && after.Joints()[j].position == NaN
            && |Followed(after, second, limit).Joints()| == |refs.Joints()|
            && Followed(after, second, limit).Joints()[j].position == Targets(second)[j]
  {
    hide Followed, Limited;
    var after := Followed(refs, first, limit);
    FollowedFits(refs, first, limit);
    FollowedJoint(refs, first, limit, j);
    NanOpensTheLimit(refs.Joints()[j].position, Targets(second)[j], limit);
    assert SizesMatch(after, second);
    FollowedJoint(after, second, limit, j);
  }

  /** A command of the given joint counts that sends every joint to one position. */
  function UniformCommand(armDof: bv8, handDof: bv8, position: Double): Command {
    var arm, hand := seq(ARM_SLOTS, _ => position), seq(HAND_SLOTS, _ => position);
    TeleopPacket(Header(0, 0, 0, 0, 0, 0, 0, 1, 0), armDof, handDof, 0, 0, arm, arm, hand, hand, 0)
  }

  /** Two commands of matching size that together move a reference by any distance. */
  lemma TwoCommandsMoveAnyDistance(refs: ArmReferences, armDof: bv8, handDof: bv8, limit: real, distance: real)
    returns (first: Command, second: Command)
    requires FitsSlots(refs) && AllNumbers(refs) && armDof as int <= ARM_SLOTS && handDof as int <= HAND_SLOTS
    requires |refs.Joints()| == armDof as int + handDof as int && refs.Joints() != []
    ensures first.DofWithinSlots() && second.DofWithinSlots() && SizesMatch(refs, first) && SizesMatch(refs, second)
    ensures var after := Followed(refs, first, limit);
            && FitsSlots(after) && |Followed(after, second, limit).Joints()| == |refs.Joints()|
            && Followed(after, second, limit).Joints()[0].position == Finite(refs.Joints()[0].position.value + distance)
  {
    hide Followed;
    first := UniformCommand(armDof, handDof, NaN);
    second := UniformCommand(armDof, handDof, Finite(refs.Joints()[0].position.value + distance));
    NanThenAnyTarget(refs, first, second, limit, 0);
  }

  /** No command of these joint counts without NaN moves a reference by more than the limit. */
  ghost predicate RestrainsEvery(refs: ArmReferences, armDof: bv8, handDof: bv8, limit: real)
    requires FitsSlots(refs)
  {
    forall c: Command :: c.DofWithinSlots() && c.armDof == armDof && c.handDof == handDof && NoNan(c) ==>
      IsRestrained(refs, c, limit)
  }

  /**
   For commands without NaN the limit holds exactly when the sizes match, or there is no joint or no
   target: otherwise the limiter steps aside and the targets are taken as they are.
   */
  lemma LimitHoldsIffSizesMatch(refs: ArmReferences, armDof: bv8, handDof: bv8, limit: real)
    requires FitsSlots(refs) && AllNumbers(refs) && armDof as int <= ARM_SLOTS && handDof as int <= HAND_SLOTS
    ensures RestrainsEvery(refs, armDof, handDof, limit) <==>
            var joints, targets := |refs.Joints()|, armDof as int + handDof as int;
            joints == targets || joints == 0 || targets == 0
  {
    hide Followed, Limited;
    var joints, targets := |refs.Joints()|, armDof as int + handDof as int;
    if joints == targets || joints == 0 || targets == 0 {
      forall c: Command | c.DofWithinSlots() && c.armDof == armDof && c.handDof == handDof && NoNan(c)
        ensures IsRestrained(refs, c, limit)
      {
        if joints == targets {
          RestrainedIffNoNan(refs, c, limit);
        } else {
          NothingMoves(refs, c, limit);
        }
      }
    } else {
      var c := UniformCommand(armDof, handDof, Finite(refs.Joints()[0].position.value + AbsReal(limit) + 1.0));
      FollowedJoint(refs, c, limit, 0);
      assert !MovesWithin(refs, c, limit, 0);
      assert NoNan(c);
    }
  }

  lemma NothingMoves(refs: ArmReferences, c: Command, limit: real)
    requires FitsSlots(refs) && c.DofWithinSlots() && AllNumbers(refs)
    requires |refs.Joints()| == 0 || |Targets(c)| == 0
    ensures IsRestrained(refs, c, limit)
  {
    hide Followed, Limited;
    forall j: nat | j < |refs.Joints()| ensures MovesWithin(refs, c, limit, j) {
      FollowedJoint(refs, c, limit, j);
    }
  }

  // ---------------------------------------------------------------- runs of cycles

  /** Successive references; a cycle follows a command or leaves the references alone. */
  ghost predicate IsRun(cycles: seq<Option<Command>>, run: seq<ArmReferences>, limit: real) {
    && |run| == |cycles| + 1
    && (forall k :: 0 <= k < |run| ==> FitsSlots(run[k]))
    && (forall k :: 0 <= k < |cycles| && cycles[k].Some? ==> cycles[k].value.DofWithinSlots())
    && (forall k :: 0 <= k < |cycles| ==>
          run[k + 1] == if cycles[k].Some? then Followed(run[k], cycles[k].value, limit) else run[k])
  }

  ghost predicate AllSizesMatch(cycles: seq<Option<Command>>, run: seq<ArmReferences>) {
    forall k :: 0 <= k < |cycles| && k < |run| && cycles[k].Some? ==> SizesMatch(run[k], cycles[k].value)
  }

  lemma {:induction false} JointsStay(cycles: seq<Option<Command>>, run: seq<ArmReferences>, limit: real, k: nat)
    requires IsRun(cycles, run, limit) && k < |run|
    ensures |run[k].Joints()| == |run[0].Joints()|
  {
    hide Followed;
    if k > 0 {
      JointsStay(cycles, run, limit, k - 1);
      if cycles[k - 1].Some? && run[k - 1].Joints() != [] {
        FollowedJoint(run[k - 1], cycles[k - 1].value, limit, 0);
      } else if cycles[k - 1].Some? {
        NoJoints(run[k - 1], cycles[k - 1].value, limit);
      }
    }
  }

  lemma NoJoints(refs: ArmReferences, c: Command, limit: real)
    requires FitsSlots(refs) && c.DofWithinSlots() && refs.Joints() == []
    ensures Followed(refs, c, limit).Joints() == []
  {
    assert |refs.arm| == 0 && |refs.hand| == 0;
  }

  /** The cycle sends the joint to a NaN. */
  ghost predicate SendsNan(cycle: Option<Command>, j: nat)
    requires cycle.Some? ==> cycle.value.DofWithinSlots()
  {
    cycle.Some? && j < |Targets(cycle.value)| && Targets(cycle.value)[j] == NaN
  }

  /** A cycle with matching size moves a number within the limit exactly if it does not send it to a NaN. */
  lemma CycleWithinIff(cycles: seq<Option<Command>>, run: seq<ArmReferences>, limit: real, k: nat, j: nat)
    requires IsRun(cycles, run, limit) && AllSizesMatch(cycles, run) && k < |cycles| && j < |run[0].Joints()|
    ensures |run[k].Joints()| == |run[k + 1].Joints()| == |run[0].Joints()|
    ensures run[k].Joints()[j].position.Finite? ==>
              (Within(run[k].Joints()[j].position, run[k + 1].Joints()[j].position, AbsReal(limit)) <==> !SendsNan(cycles[k], j))
  {
    hide Followed, Limited, SizesMatch;
    JointsStay(cycles, run, limit, k);
    JointsStay(cycles, run, limit, k + 1);
    if cycles[k].Some? {
      TargetsAreAllJoints(run[k], cycles[k].value);
      FollowedJoint(run[k], cycles[k].value, limit, j);
      if run[k].Joints()[j].position.Finite? {
        LimitedWithinIff(run[k].Joints()[j].position, Targets(cycles[k].value)[j], limit);
      }
    }
  }

  /** With matching sizes, k cycles without NaN move a reference by at most k limits, however the commands jump. */
  lemma {:induction false} ReferenceTravelBound(
    cycles: seq<Option<Command>>, run: seq<ArmReferences>, limit: real, i: nat, k: nat, j: nat)
    requires IsRun(cycles, run, limit) && AllSizesMatch(cycles, run) && i + k < |run|
    requires j < |run[0].Joints()| && run[0].Joints()[j].position.Finite?
    requires forall m :: 0 <= m < i + k ==> !SendsNan(cycles[m], j)
    ensures |run[i].Joints()| == |run[i + k].Joints()| == |run[0].Joints()|
    ensures Within(run[i].Joints()[j].position, run[i + k].Joints()[j].position, Cycles(k, limit))
    decreases i + k
  {
    hide Followed, Cycles, SizesMatch, SendsNan;
    JointsStay(cycles, run, limit, i);
    JointsStay(cycles, run, limit, i + k);
    OneMoreCycle(0, limit);
    if k > 0 {
      var at := i + k - 1;
      ReferenceTravelBound(cycles, run, limit, i, k - 1, j);
      CycleWithinIff(cycles, run, limit, at, j);
      WithinAdds(run[i].Joints()[j].position, run[at].Joints()[j].position, run[at + 1].Joints()[j].position, k - 1, limit);
    } else if i > 0 {
      ReferenceTravelBound(cycles, run, limit, i - 1, 0, j);
      CycleWithinIff(cycles, run, limit, i - 1, j);
    }
  }

  /** Any number of cycles moves the joint by at most as many limits. */
  ghost predicate JointRestrained(run: seq<ArmReferences>, limit: real, j: nat) {
    forall i, k :: 0 <= i <= k < |run| ==>
      j < |run[i].Joints()| && j < |run[k].Joints()|
      && Within(run[i].Joints()[j].position, run[k].Joints()[j].position, Cycles(k - i, limit))
  }

  /** With matching sizes the trajectory bound of a joint holds over a whole run exactly if no command sends it to a NaN. */
  lemma ReferenceRestrainedIff(cycles: seq<Option<Command>>, run: seq<ArmReferences>, limit: real, j: nat)
    requires IsRun(cycles, run, limit) && AllSizesMatch(cycles, run)
    requires j < |run[0].Joints()| && run[0].Joints()[j].position.Finite?
    ensures JointRestrained(run, limit, j) <==> forall m :: 0 <= m < |cycles| ==> !SendsNan(cycles[m], j)
  {
    hide Followed, Cycles, SizesMatch, SendsNan;
    if forall m :: 0 <= m < |cycles| ==> !SendsNan(cycles[m], j) {
      forall i, k | 0 <= i <= k < |run|
        ensures j < |run[i].Joints()| && j < |run[k].Joints()|
        ensures Within(run[i].Joints()[j].position, run[k].Joints()[j].position, Cycles(k - i, limit))
      {
        ReferenceTravelBound(cycles, run, limit, i, k - i, j);
      }
    } else if JointRestrained(run, limit, j) {
      var m :| 0 <= m < |cycles| && SendsNan(cycles[m], j);
      CycleWithinIff(cycles, run, limit, m, j);
      OneMoreCycle(0, limit);
      var i, k := m, m + 1;
      assert Within(run[i].Joints()[j].position, run[k].Joints()[j].position, Cycles(k - i, limit));
    }
  }

  // ---------------------------------------------------------------- arrival

  function JointPositions(run: seq<ArmReferences>, j: nat): (r: seq<Double>)
    requires forall k :: 0 <= k < |run| ==> j < |run[k].Joints()|
    ensures |r| == |run|
  {
    seq(|run|, k requires 0 <= k < |run| => run[k].Joints()[j].position)
  }

  /**
   Following one command in every cycle, a reference stays between its start and its target and arrives
   after exactly the distance divided by the limit, rounded up.
   */
  lemma ReferenceArrives(
    cycles: seq<Option<Command>>, run: seq<ArmReferences>, limit: real, c: Command, k: nat, j: nat, start: real, target: real)
    requires IsRun(cycles, run, limit) && AllSizesMatch(cycles, run) && limit > 0.0
    requires c.DofWithinSlots() && forall m :: 0 <= m < |cycles| ==> cycles[m] == Some(c)
    requires k < |run| && j < |run[0].Joints()| == |Targets(c)|
    requires run[0].Joints()[j].position == Finite(start) && Targets(c)[j] == Finite(target)
    ensures |run[k].Joints()| == |run[0].Joints()|
    ensures var at := run[k].Joints()[j].position;
            && at.Finite? && Between(at.value, start, target)
            && AbsReal(target - at.value) == MaxReal(AbsReal(target - start) - k as real * limit, 0.0)
            && (at.value == target <==> k >= Ceil(AbsReal(target - start) / limit))
  {
    hide Followed, Limited, Ceil, MaxReal, AbsReal;
    forall m | 0 <= m < |run| ensures |run[m].Joints()| == |run[0].Joints()| {
      JointsStay(cycles, run, limit, m);
    }
    var positions := JointPositions(run, j);
    var targets := seq(|cycles|, _ => Targets(c)[j]);
    forall m | 0 <= m < |targets| ensures positions[m + 1] == Limited(positions[m], targets[m], limit) {
      FollowedJoint(run[m], c, limit, j);
      assert SizesMatch(run[m], cycles[m].value);
    }
    ApproachExactly(positions, targets, limit, start, target, k);
    ArrivesOnTime(positions, targets, limit, start, target, k);
  }
}
