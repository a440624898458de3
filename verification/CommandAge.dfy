/**
 Whose age a control cycle judges.  The newest command and its receive time are read under separate
 locks, so the judged age can belong to a younger command than the one applied.
 */
module CommandAge {
  import opened FollowerCycle
  import opened FollowerThreads
  import opened LiveCommands
  import opened SafetyManager
  import opened TeleopStateBuffer
  import opened Watchdog
  import opened Wrappers

  /** A step of another thread, or of this cycle before it reads the receive time. */
  predicate KeepsBuffer(a: Action) {
    !a.Receive? && !a.ReadReceipt?
  }

  lemma {:induction false} TargetIsNewest(
    c: FollowerConfig, refs: ArmReferences, actions: seq<Action>, states: seq<Follower>, i: nat, j: nat)
    requires IsRun(c, refs, actions, states) && i < j < |states|
    requires actions[i].GetLatest? && forall k :: i < k < j ==> KeepsBuffer(actions[k])
    ensures states[j].phase.GotTarget? || states[j].phase.GotClock?
    ensures states[j].phase.target == states[j].buffer.latest && states[j].buffer == states[i].buffer
    decreases j
  {
    hide Followed, CanFollow;
    if j > i + 1 {
      TargetIsNewest(c, refs, actions, states, i, j - 1);
    }
  }

  /**
   If no command arrives between a cycle's reading of the newest command and its reading of the receive
   time, the age it judges is that of the command it applies.
   */
  lemma UndisturbedAgeIsOwn(
    c: FollowerConfig, refs: ArmReferences, actions: seq<Action>, states: seq<Follower>, i: nat, j: nat)
    requires c.safety.requireEnable && IsRun(c, refs, actions, states) && i < j < |actions|
    requires actions[i].GetLatest? && actions[j].ReadReceipt? && forall k :: i < k < j ==> KeepsBuffer(actions[k])
    ensures states[j + 1].phase.GotReceipt?
    ensures var p := states[j + 1].phase;
            p.target.Some? ==> Delivery(p.target.value, p.basis.receivedNs) in p.basis.seen
  {
    hide ReportIsSound, PhaseIsSound, UndrivenUntilTarget, WellSized;
    TargetIsNewest(c, refs, actions, states, i, j);
    RunIsSound(c, refs, actions, states, j);
  }

  lemma Extend(c: FollowerConfig, refs: ArmReferences, actions: seq<Action>, states: seq<Follower>, a: Action)
    returns (longer: seq<Action>, more: seq<Follower>)
    requires IsRun(c, refs, actions, states) && |states| == |actions| + 1 && Enabled(states[|actions|], a)
    ensures IsRun(c, refs, longer, more) && |more| == |longer| + 1
    ensures longer == actions + [a] && more == states + [Next(c, states[|actions|], a)]
  {
    hide Enabled, Next, Initial;
    longer, more := actions + [a], states + [Next(c, states[|actions|], a)];
    forall k | 0 <= k < |longer| ensures Enabled(more[k], longer[k]) && more[k + 1] == Next(c, more[k], longer[k]) {
      if k < |actions| {
        assert more[k] == states[k] && more[k + 1] == states[k + 1] && longer[k] == actions[k];
      }
    }
  }

  /** A first command read, a second one received, and only then the clock and the receive time. */
  lemma OldCommandIsJudgedYoung(c: FollowerConfig, refs: ArmReferences, stale: Command, young: Command, lateNs: nat)
    returns (actions: seq<Action>, states: seq<Follower>)
    requires FitsSlots(refs) && c.safety.requireEnable && Check(c.safety.thresholds, 0.0) == Status.Ok
    requires stale.DofWithinSlots() && stale.header.enable == 1 && stale.header.estop == 0 && young.WellFormed()
    ensures IsRun(c, refs, actions, states) && |states| == |actions| + 1
    ensures var s := states[|actions|];
            && s.phase == GotState(Some(stale), Basis(lateNs, lateNs, s.deliveries), SafetyState.Active, NotStarted)
            && s.deliveries == {Delivery(stale, 0), Delivery(young, lateNs)} && s.refs == refs
  {
    hide IsRun, TeleopStateBuffer.Updated, CanFollow, Followed;
    actions, states := [], [Initial(c, refs)];
    StartIsRun(c, refs);
    actions, states := Extend(c, refs, actions, states, Receive(stale, 0));
    NewestIsTaken(EMPTY, stale, 0);
    actions, states := Extend(c, refs, actions, states, GetLatest);
    NewestIsTaken(states[|actions|].buffer, young, lateNs);
    actions, states := Extend(c, refs, actions, states, Receive(young, lateNs));
    actions, states := Extend(c, refs, actions, states, ReadClock(lateNs));
    actions, states := Extend(c, refs, actions, states, ReadReceipt);
    actions, states := Extend(c, refs, actions, states, Judge);
    actions, states := Extend(c, refs, actions, states, GetState);
  }

  lemma NewestIsTaken(b: BufferState, packet: Command, nowNs: nat)
    ensures var next := TeleopStateBuffer.Updated(b, packet, nowNs);
            next.latest == Some(packet) && next.lastReceiveTimeNs == nowNs
  {
  }

  lemma StartIsRun(c: FollowerConfig, refs: ArmReferences)
    requires FitsSlots(refs)
    ensures IsRun(c, refs, [], [Initial(c, refs)])
  {
  }

  /** The command a cycle is about to write can be of any age: its only delivery was at time 0, the clock shows `lateNs`. */
  lemma AppliedCommandMayBeOld(c: FollowerConfig, refs: ArmReferences, stale: Command, young: Command, lateNs: nat)
    returns (actions: seq<Action>, states: seq<Follower>)
    requires FitsSlots(refs) && c.safety.requireEnable && Check(c.safety.thresholds, 0.0) == Status.Ok
    requires stale.DofWithinSlots() && stale.header.enable == 1 && stale.header.estop == 0
    requires young.WellFormed() && young != stale
    ensures IsRun(c, refs, actions, states) && |states| == |actions| + 1
    ensures var s := states[|actions|];
            && Enabled(s, WriteArm) && s.phase.target == Some(stale) && s.phase.basis.nowNs == lateNs
            && forall d :: d in s.deliveries && d.command == stale ==> d.timeNs == 0
  {
    hide IsRun, CanFollow, Followed;
    actions, states := OldCommandIsJudgedYoung(c, refs, stale, young, lateNs);
    CanFollowFits(refs, Some(stale));
    actions, states := Extend(c, refs, actions, states, ReadArm);
    actions, states := Extend(c, refs, actions, states, ReadHand);
  }
}
