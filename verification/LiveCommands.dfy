/** A control cycle moves an arm's references only on live commands, however the threads interleave. */
module LiveCommands {
  import opened FollowerCycle
  import opened FollowerThreads

  ghost predicate IsRun(c: FollowerConfig, refs: ArmReferences, actions: seq<Action>, states: seq<Follower>) {
    && |states| == |actions| + 1
    && FitsSlots(refs) && states[0] == Initial(c, refs)
    && forall k :: 0 <= k < |actions| ==>
         Enabled(states[k], actions[k]) && states[k + 1] == Next(c, states[k], actions[k])
  }

  lemma {:induction false} RunIsSound(c: FollowerConfig, refs: ArmReferences, actions: seq<Action>, states: seq<Follower>, k: nat)
    requires c.safety.requireEnable && IsRun(c, refs, actions, states) && k < |states|
    ensures Sound(c, states[k])
  {
    hide Sound, Next, Enabled;
    if k == 0 {
      InitialIsSound(c, refs);
    } else {
      RunIsSound(c, refs, actions, states, k - 1);
      StepKeepsSound(c, states[k - 1], actions[k - 1]);
    }
  }

  /**
   Some command had arrived when the cycle read the newest receive time, and the cycle's clock reading
   was less than the limit, in nanoseconds, after that arrival.
   */
  ghost predicate ArrivedWithin(b: Basis, limitMs: real) {
    exists d :: d in b.seen && (b.nowNs - d.timeNs) as real < 1_000_000.0 * limitMs
  }

  lemma GapBoundsAge(b: Basis, limitMs: real)
    requires Received(b.seen, b.receivedNs) && GapMs(b.nowNs, b.receivedNs) < limitMs
    ensures ArrivedWithin(b, limitMs)
  {
    var d :| d in b.seen && d.timeNs == b.receivedNs;
  }

  /** References change only where a control cycle writes them or a pose move does. */
  lemma OnlyWritesMoveReferences(
    c: FollowerConfig, refs: ArmReferences, actions: seq<Action>, states: seq<Follower>, k: nat)
    requires IsRun(c, refs, actions, states) && k < |actions|
    requires states[k + 1].refs != states[k].refs
    ensures IsWrite(actions[k]) || actions[k].PoseMoveArm? || actions[k].PoseMoveHand?
  {
    hide Followed;
  }

  predicate IsWrite(a: Action) {
    a.WriteArm? || a.WriteHand?
  }

  /**
   With enabling required, a cycle that writes references of the arm or the hand holds a command with
   enable set and without estop, and some command for the arm arrived less than the hold threshold
   before.  This holds of every write, whether or not it changes anything, and whatever other threads
   do between the cycle's reads and writes.
   */
  lemma ReferencesMoveOnlyOnLiveCommands(
    c: FollowerConfig, refs: ArmReferences, actions: seq<Action>, states: seq<Follower>, k: nat)
    requires c.safety.requireEnable && IsRun(c, refs, actions, states) && k < |actions|
    requires IsWrite(actions[k])
    ensures states[k].phase.GotState?
    ensures var p := states[k].phase;
            && p.target.Some? && p.target.value.header.enable != 0 && p.target.value.header.estop != 1
            && Delivered(states[k], p.target.value)
            && p.basis.seen <= states[k].deliveries
            && ArrivedWithin(p.basis, c.safety.thresholds.holdMs)
  {
    hide Next, GapMs, Received, Delivered, ArrivedWithin, ReportIsSound, BufferIsSound;
    RunIsSound(c, refs, actions, states, k);
    var p := states[k].phase;
    assert p.target.Some? && TakesReferences(p.state);
    assert Judgement(c, p.target.value, p.basis, p.state);
    assert GapMs(p.basis.nowNs, p.basis.receivedNs) < c.safety.thresholds.holdMs;
    GapBoundsAge(p.basis, c.safety.thresholds.holdMs);
  }
}
