/**
 The threads of one follower arm as a transition system.  The receiver thread, the command handlers,
 the pose threads and the control thread interleave between any two lock acquisitions, those of the
 arm's and the hand's references included.
 */
module FollowerThreads {
  import opened FeedbackStateBuffer
  import opened FollowerCycle
  import opened Packets
  import opened SafetyManager
  import opened TeleopStateBuffer
  import opened Watchdog
  import opened Wrappers
  import JointCounts
  import SafetyRuns

  /** A command taken by the receiver thread and when. */
  datatype Delivery = Delivery(command: Command, timeNs: nat)

  /**
   The clock and the newest receive time as a cycle read them, the clock first, with the deliveries
   that had happened by then.
   */
  datatype Basis = Basis(nowNs: nat, receivedNs: nat, seen: set<Delivery>)

  /** What the control thread has read so far in its cycle. */
  datatype Phase =
    | Idle
    | GotTarget(target: Option<Command>)
    | GotClock(target: Option<Command>, nowNs: nat)
    | GotReceipt(target: Option<Command>, basis: Basis)
    | HasJudged(target: Option<Command>, basis: Basis)
    | GotState(target: Option<Command>, basis: Basis, state: SafetyState, work: Work)

  /**
   How far the reference part of the cycle is: both groups are read under their locks, the new ones are
   computed, and both are written under their locks.
   */
  datatype Work =
    | NotStarted
    | HasArm(arm: seq<Reference>)
    | HasBoth(next: ArmReferences)
    | ArmWritten(hand: seq<Reference>)
    | Done

  /** A feedback packet and the cycle it was built in. */
  datatype Report = Report(packet: Feedback, cycle: Phase)

  datatype Follower = Follower(
    clockNs: nat,
    buffer: BufferState,
    safety: Safety,
    refs: ArmReferences,
    phase: Phase,
    deliveries: set<Delivery>,
    reports: set<Report>)

  datatype FollowerConfig = FollowerConfig(safety: SafetyConfig, limit: real)

  datatype Action =
    | Receive(command: Command, timeNs: nat)
    | TriggerEstop
    | ResetSafety
    | PoseMoveArm(armRefs: seq<Reference>)
    | PoseMoveHand(handRefs: seq<Reference>)
    | GetLatest
    | ReadClock(timeNs: nat)
    | ReadReceipt
    | Judge
    | GetState
    | ReadArm
    | ReadHand
    | WriteArm
    | WriteHand
    | Report(context: Context, arm: seq<JointState>, hand: seq<JointState>)
    | EndCycle

  function Initial(c: FollowerConfig, refs: ArmReferences): Follower {
    Follower(0, EMPTY, Safety(Rearmed(c.safety), false), refs, Idle, {}, {})
  }

  /** The context of a report is that of the cycle it is built in. */
  predicate Describes(context: Context, phase: Phase) {
    phase.GotState? && IsSettled(phase.work) && context.state == phase.state && context.target == phase.target
  }

  /** Outside a cycle's reference part: nothing begun, or all written. */
  predicate IsSettled(work: Work) {
    work.NotStarted? || work.Done?
  }

  /**
   The arm's joints have packet slots and the reads stay inside the command's arrays; what a cycle does
   otherwise the source does not define.
   */
  ghost predicate CanFollow(refs: ArmReferences, target: Option<Command>) {
    FitsSlots(refs) && target.Some? && target.value.WellFormed() && JointCounts.TargetsInside(target.value)
  }

  lemma CanFollowFits(refs: ArmReferences, target: Option<Command>)
    ensures CanFollow(refs, target) <==> FitsSlots(refs) && target.Some? && target.value.DofWithinSlots()
  {
    hide JointCounts.TargetsInside;
    if target.Some? && target.value.WellFormed() {
      JointCounts.TargetsInsideIff(target.value);
    }
  }

  ghost predicate Enabled(s: Follower, a: Action) {
    match a
    case Receive(command, timeNs) => s.clockNs <= timeNs && command.WellFormed()
    case TriggerEstop => true
    case ResetSafety => true
    case PoseMoveArm(arm) => |arm| <= ARM_SLOTS
    case PoseMoveHand(hand) => |hand| <= HAND_SLOTS
    case GetLatest => s.phase.Idle?
    case ReadClock(timeNs) => s.phase.GotTarget? && s.clockNs <= timeNs
    case ReadReceipt => s.phase.GotClock?
    case Judge => s.phase.GotReceipt?
    case GetState => s.phase.HasJudged?
    case ReadArm => s.phase.GotState? && s.phase.work.NotStarted? && s.phase.target.Some? && TakesReferences(s.phase.state)
    case ReadHand =>
      s.phase.GotState? && s.phase.work.HasArm? && CanFollow(ArmReferences(s.phase.work.arm, s.refs.hand), s.phase.target)
    case WriteArm => s.phase.GotState? && s.phase.work.HasBoth?
    case WriteHand => s.phase.GotState? && s.phase.work.ArmWritten?
    case Report(context, arm, hand) => Describes(context, s.phase)
    case EndCycle => s.phase.GotState? && IsSettled(s.phase.work)
  }

  /** Without a command the thread reads no clock and judges nothing. */
  function JudgedWith(c: FollowerConfig, s: Safety, p: Phase): Safety
    requires p.GotReceipt?
  {
    if p.target.Some? then Judged(c.safety, s, p.target.value, p.basis.nowNs, p.basis.receivedNs) else s
  }

  function WorkingOn(p: Phase, work: Work): Phase
    requires p.GotState?
  {
    GotState(p.target, p.basis, p.state, work)
  }

  ghost function Next(c: FollowerConfig, s: Follower, a: Action): Follower
    requires Enabled(s, a)
  {
    match a
    case Receive(command, timeNs) =>
      s.(clockNs := timeNs, buffer := TeleopStateBuffer.Updated(s.buffer, command, timeNs),
         deliveries := s.deliveries + {Delivery(command, timeNs)})
    case TriggerEstop => s.(safety := SafetyRuns.Next(c.safety, s.safety, SafetyRuns.TriggerEstop))
    case ResetSafety => s.(safety := SafetyRuns.Next(c.safety, s.safety, SafetyRuns.Reset))
    case PoseMoveArm(arm) => s.(refs := ArmReferences(arm, s.refs.hand))
    case PoseMoveHand(hand) => s.(refs := ArmReferences(s.refs.arm, hand))
    case GetLatest => s.(phase := GotTarget(s.buffer.latest))
    case ReadClock(timeNs) => s.(clockNs := timeNs, phase := GotClock(s.phase.target, timeNs))
    case ReadReceipt => s.(phase := GotReceipt(s.phase.target, Basis(s.phase.nowNs, s.buffer.lastReceiveTimeNs, s.deliveries)))
    case Judge =>
      s.(safety := JudgedWith(c, s.safety, s.phase), phase := HasJudged(s.phase.target, s.phase.basis))
    case GetState => s.(phase := GotState(s.phase.target, s.phase.basis, s.safety.state, NotStarted))
    case ReadArm => s.(phase := WorkingOn(s.phase, HasArm(s.refs.arm)))
    case ReadHand =>
      var read := ArmReferences(s.phase.work.arm, s.refs.hand);
      CanFollowFits(read, s.phase.target);
      var next := Followed(read, s.phase.target.value, c.limit);
      s.(phase := WorkingOn(s.phase, HasBoth(next)))
    case WriteArm =>
      s.(refs := ArmReferences(s.phase.work.next.arm, s.refs.hand), phase := WorkingOn(s.phase, ArmWritten(s.phase.work.next.hand)))
    case WriteHand => s.(refs := ArmReferences(s.refs.arm, s.phase.work.hand), phase := WorkingOn(s.phase, Done))
    case Report(context, arm, hand) =>
      s.(reports := s.reports + {Report.Report(FeedbackOf(context, arm, hand), s.phase)})
    case EndCycle => s.(phase := Idle)
  }

  // ---------------------------------------------------------------- invariant

  /** The arm never has more joints than the packet's arrays, wherever its references are. */
  ghost predicate WellSized(s: Follower) {
    && FitsSlots(s.refs)
    && (s.buffer.latest.Some? ==> s.buffer.latest.value.WellFormed())
    && (!s.phase.Idle? && s.phase.target.Some? ==> s.phase.target.value.WellFormed())
    && (s.phase.GotState? ==> WorkFits(s.phase.work))
  }

  predicate WorkFits(work: Work) {
    match work
    case HasArm(arm) => |arm| <= ARM_SLOTS
    case HasBoth(next) => FitsSlots(next)
    case ArmWritten(hand) => |hand| <= HAND_SLOTS
    case _ => true
  }

  /** A cycle whose reference part has begun holds a command in a state that takes references. */
  ghost predicate WorkIsGrounded(p: Phase) {
    p.GotState? && !p.work.NotStarted? ==> p.target.Some? && TakesReferences(p.state)
  }

  /** The states a machine that requires enabling can be in without the watchdog's blessing. */
  predicate Undriven(s: SafetyState) {
    s in {SafetyState.WaitingForEnable, SafetyState.Estop, SafetyState.Fault}
  }

  /** A receive time is that of a real delivery. */
  ghost predicate Received(deliveries: set<Delivery>, receivedNs: nat) {
    exists d :: d in deliveries && d.timeNs == receivedNs
  }

  /** The command is one that was delivered. */
  ghost predicate Delivered(s: Follower, c: Command) {
    exists d :: d in s.deliveries && d.command == c
  }

  /** The watchdog judged the cycle's gap as the state says, on an enabling command. */
  predicate Judgement(c: FollowerConfig, target: Command, b: Basis, state: SafetyState) {
    && target.header.enable != 0 && target.header.estop != 1
    && state == Tracking(Check(c.safety.thresholds, GapMs(b.nowNs, b.receivedNs)))
  }

  /** A driving state read in this cycle comes from this cycle's judgement. */
  ghost predicate StateIsEarned(c: FollowerConfig, p: Phase, state: SafetyState) {
    Undriven(state) || (!p.Idle? && !p.GotTarget? && !p.GotClock? && p.target.Some?
                        && Judgement(c, p.target.value, p.basis, state))
  }

  ghost predicate PhaseIsSound(c: FollowerConfig, s: Follower, p: Phase) {
    && (!p.Idle? && p.target.Some? ==> s.buffer.latest.Some? && Delivered(s, p.target.value))
    && ((p.GotReceipt? || p.HasJudged? || p.GotState?) && p.target.Some? ==>
          Received(p.basis.seen, p.basis.receivedNs) && p.basis.seen <= s.deliveries)
    && (p.HasJudged? ==> StateIsEarned(c, p, s.safety.state))
    && (p.GotState? ==> StateIsEarned(c, p, p.state))
    && WorkIsGrounded(p)
  }

  ghost predicate BufferIsSound(s: Follower) {
    s.buffer.latest.Some? ==>
      s.buffer.tracker.hasData && Delivery(s.buffer.latest.value, s.buffer.lastReceiveTimeNs) in s.deliveries
  }

  /** Before a command is judged the machine is not driven. */
  ghost predicate UndrivenUntilTarget(s: Follower) {
    && (s.buffer.latest.None? ==> Undriven(s.safety.state))
    && (!s.phase.Idle? && s.phase.target.None? ==> Undriven(s.safety.state))
  }

  ghost predicate ReportIsSound(c: FollowerConfig, s: Follower, r: Report) {
    && r.cycle.GotState? && PhaseIsSound(c, s, r.cycle)
    && r.packet.DofWithinSlots()
    && r.packet.header.enable == Flag(r.cycle.state == SafetyState.Active)
    && r.packet.header.estop == Flag(r.cycle.state == SafetyState.Estop)
    && r.packet.echoCmdSeq == EchoSeq(r.cycle.target)
    && r.packet.echoCmdSendTimeNs == EchoTime(r.cycle.target)
  }

  ghost predicate Sound(c: FollowerConfig, s: Follower) {
    && WellSized(s)
    && s.safety.state != Disabled
    && BufferIsSound(s)
    && UndrivenUntilTarget(s)
    && PhaseIsSound(c, s, s.phase)
    && forall r :: r in s.reports ==> ReportIsSound(c, s, r)
  }

  /** A cycle that has begun its reference part has a next step exactly if the command's joint counts are at most 8 and 4. */
  lemma FollowIsDefinedIff(c: FollowerConfig, s: Follower)
    requires Sound(c, s) && s.phase.GotState? && s.phase.work.HasArm?
    ensures s.phase.target.Some?
    ensures JointCounts.TargetsInside(s.phase.target.value) <==> Enabled(s, ReadHand)
    ensures JointCounts.TargetsInside(s.phase.target.value) <==>
              s.phase.target.value.armDof as int <= 8 && s.phase.target.value.handDof as int <= 4
  {
    hide JointCounts.TargetsInside, ReportIsSound, BufferIsSound;
    JointCounts.TargetsInsideIff(s.phase.target.value);
  }

  lemma InitialIsSound(c: FollowerConfig, refs: ArmReferences)
    requires c.safety.requireEnable && FitsSlots(refs)
    ensures Sound(c, Initial(c, refs))
  {
  }

  /** One judgement, from any state that packets can leave, earns the state it gives. */
  lemma JudgementEarnsState(c: FollowerConfig, s: Safety, target: Command, b: Basis)
    requires c.safety.requireEnable && s.state != Disabled
    ensures var after := Judged(c.safety, s, target, b.nowNs, b.receivedNs).state;
            Undriven(after) || Judgement(c, target, b, after)
  {
    hide GapMs;
  }

  // ---------------------------------------------------------------- steps

  /** More deliveries and a newer command take nothing away from what a phase rests on. */
  lemma PhaseStaysSound(c: FollowerConfig, s: Follower, t: Follower, p: Phase)
    requires PhaseIsSound(c, s, p)
    requires s.deliveries <= t.deliveries && (s.buffer.latest.Some? ==> t.buffer.latest.Some?)
    requires p.HasJudged? ==> StateIsEarned(c, p, t.safety.state)
    ensures PhaseIsSound(c, t, p)
  {
    hide StateIsEarned;
    if !p.Idle? && p.target.Some? {
      var d :| d in s.deliveries && d.command == p.target.value;
      assert d in t.deliveries;
    }
  }

  lemma ReportsStaySound(c: FollowerConfig, s: Follower, t: Follower)
    requires forall r :: r in s.reports ==> ReportIsSound(c, s, r)
    requires s.deliveries <= t.deliveries && (s.buffer.latest.Some? ==> t.buffer.latest.Some?)
    ensures forall r :: r in s.reports ==> ReportIsSound(c, t, r)
  {
    hide PhaseIsSound;
    forall r | r in s.reports ensures ReportIsSound(c, t, r) {
      PhaseStaysSound(c, s, t, r.cycle);
    }
  }

  /** Deliveries only ever add. */
  lemma BufferStaysSound(s: Follower, t: Follower)
    requires BufferIsSound(s) && t.buffer == s.buffer && s.deliveries <= t.deliveries
    ensures BufferIsSound(t)
  {
  }

  lemma ReceiveKeepsSound(c: FollowerConfig, s: Follower, a: Action)
    requires c.safety.requireEnable && Sound(c, s) && a.Receive? && Enabled(s, a)
    ensures Sound(c, Next(c, s, a))
  {
    hide PhaseIsSound, ReportIsSound;
    var t := Next(c, s, a);
    var d := Delivery(a.command, a.timeNs);
    assert d in t.deliveries;
    assert BufferIsSound(t);
    JudgedPhaseIsEarned(c, s);
    PhaseStaysSound(c, s, t, s.phase);
    ReportsStaySound(c, s, t);
  }

  lemma JudgedPhaseIsEarned(c: FollowerConfig, s: Follower)
    requires PhaseIsSound(c, s, s.phase)
    ensures s.phase.HasJudged? ==> StateIsEarned(c, s.phase, s.safety.state)
  {
  }

  /** The handlers leave a machine that requires enabling undriven. */
  lemma HandlersKeepSound(c: FollowerConfig, s: Follower, a: Action)
    requires c.safety.requireEnable && Sound(c, s) && (a.TriggerEstop? || a.ResetSafety? || a.PoseMoveArm? || a.PoseMoveHand?) && Enabled(s, a)
    ensures Sound(c, Next(c, s, a))
  {
    hide PhaseIsSound, ReportIsSound, BufferIsSound;
    var t := Next(c, s, a);
    JudgedPhaseIsEarned(c, s);
    BufferStaysSound(s, t);
    PhaseStaysSound(c, s, t, s.phase);
    ReportsStaySound(c, s, t);
  }

  /** Reading steps of the control thread. */
  lemma ReadsKeepSound(c: FollowerConfig, s: Follower, a: Action)
    requires c.safety.requireEnable && Sound(c, s) && Enabled(s, a)
    requires a.GetLatest? || a.ReadClock? || a.ReadReceipt? || a.GetState? || a.EndCycle?
    ensures Sound(c, Next(c, s, a))
  {
    hide ReportIsSound;
    var t := Next(c, s, a);
    ReportsStaySound(c, s, t);
  }

  lemma JudgeKeepsSound(c: FollowerConfig, s: Follower, a: Action)
    requires c.safety.requireEnable && Sound(c, s) && a.Judge? && Enabled(s, a)
    ensures Sound(c, Next(c, s, a))
  {
    hide ReportIsSound, Judged, Judgement;
    var t := Next(c, s, a);
    var p := s.phase;
    if p.target.Some? {
      JudgementEarnsState(c, s.safety, p.target.value, p.basis);
      JudgedIsEnabled(c, s.safety, p.target.value, p.basis);
    }
    ReportsStaySound(c, s, t);
  }

  lemma JudgedIsEnabled(c: FollowerConfig, s: Safety, target: Command, b: Basis)
    requires s.state != Disabled
    ensures Judged(c.safety, s, target, b.nowNs, b.receivedNs).state != Disabled
  {
  }

  lemma FollowKeepsSound(c: FollowerConfig, s: Follower, a: Action)
    requires c.safety.requireEnable && Sound(c, s) && (a.ReadArm? || a.ReadHand? || a.WriteArm? || a.WriteHand?) && Enabled(s, a)
    ensures Sound(c, Next(c, s, a))
  {
    hide ReportIsSound, BufferIsSound, Received, Delivered, Followed, TakesReferences, StateIsEarned, CanFollow;
    var t := Next(c, s, a);
    BufferStaysSound(s, t);
    WorkStaysSound(c, s, t);
    ReportsStaySound(c, s, t);
    if a.ReadHand? {
      CanFollowFits(ArmReferences(s.phase.work.arm, s.refs.hand), s.phase.target);
      FollowedFits(ArmReferences(s.phase.work.arm, s.refs.hand), s.phase.target.value, c.limit);
    }
  }

  /** Progress with the references changes nothing of what the phase rests on. */
  lemma WorkStaysSound(c: FollowerConfig, s: Follower, t: Follower)
    requires PhaseIsSound(c, s, s.phase) && s.phase.GotState? && t.phase.GotState?
    requires t == s.(refs := t.refs, phase := t.phase) && t.phase == WorkingOn(s.phase, t.phase.work)
    requires WorkIsGrounded(t.phase)
    ensures PhaseIsSound(c, t, t.phase)
  {
  }

  lemma ReportKeepsSound(c: FollowerConfig, s: Follower, a: Action)
    requires c.safety.requireEnable && Sound(c, s) && a.Report? && Enabled(s, a)
    ensures Sound(c, Next(c, s, a))
  {
    hide PhaseIsSound, BufferIsSound;
    var t := Next(c, s, a);
    JudgedPhaseIsEarned(c, s);
    BufferStaysSound(s, t);
    PhaseStaysSound(c, s, t, s.phase);
    ReportsStaySound(c, s, t);
    NewReportIsSound(c, t, a.context, a.arm, a.hand);
  }

  lemma NewReportIsSound(c: FollowerConfig, s: Follower, context: Context, arm: seq<JointState>, hand: seq<JointState>)
    requires PhaseIsSound(c, s, s.phase) && Describes(context, s.phase)
    ensures ReportIsSound(c, s, Report.Report(FeedbackOf(context, arm, hand), s.phase))
  {
    hide PhaseIsSound, Positions, Velocities, Efforts;
  }

  /** Every step of every thread keeps the invariant. */
  lemma StepKeepsSound(c: FollowerConfig, s: Follower, a: Action)
    requires c.safety.requireEnable && Sound(c, s) && Enabled(s, a)
    ensures Sound(c, Next(c, s, a))
  {
    hide Sound, Next;
    match a
    case Receive(_, _) => ReceiveKeepsSound(c, s, a);
    case TriggerEstop => HandlersKeepSound(c, s, a);
    case ResetSafety => HandlersKeepSound(c, s, a);
    case PoseMoveArm(_) => HandlersKeepSound(c, s, a);
    case PoseMoveHand(_) => HandlersKeepSound(c, s, a);
    case Judge => JudgeKeepsSound(c, s, a);
    case ReadArm => FollowKeepsSound(c, s, a);
    case ReadHand => FollowKeepsSound(c, s, a);
    case WriteArm => FollowKeepsSound(c, s, a);
    case WriteHand => FollowKeepsSound(c, s, a);
    case Report(_, _, _) => ReportKeepsSound(c, s, a);
    case _ => ReadsKeepSound(c, s, a);
  }

  /** Undisturbed, the reads and writes of a cycle do to the references what `FollowerArm.Follow` does. */
  lemma UndisturbedCycleFollows(c: FollowerConfig, s: Follower)
    requires Enabled(s, ReadArm) && CanFollow(s.refs, s.phase.target)
    ensures var s1 := Next(c, s, ReadArm);
            && Enabled(s1, ReadHand)
            && var s2 := Next(c, s1, ReadHand);
            && var s4 := Next(c, Next(c, s2, WriteArm), WriteHand);
            && s.phase.target.value.DofWithinSlots() && s4.refs == Followed(s.refs, s.phase.target.value, c.limit) && s4 == s.(refs := s4.refs, phase := s4.phase)
  {
    hide Followed, CanFollow;
    CanFollowFits(s.refs, s.phase.target);
  }
}
