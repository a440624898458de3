/**
 Leader and follower over a network that drops, duplicates and reorders datagrams of either
 direction but forges none.  The rest of one arm: the other arm shares nothing but the handlers.
 */
module TeleopSystem {
  import opened FeedbackStateBuffer
  import opened FollowerCycle
  import opened LeaderCycle
  import opened LiveCommands
  import opened Packets
  import opened SafetyManager
  import opened SequenceNumbers
  import opened TeleopStateBuffer
  import opened Watchdog
  import opened Wrappers
  import FollowerThreads
  import LeaderGate

  /** A command the leader sent, and the state of its handlers and gate that it was filled from. */
  datatype Sending = Sending(command: Command, gate: LeaderGate.Gate)

  /** `sent` holds every command the leader ever sent; the follower's reports are what it ever sent. */
  datatype System = System(sent: set<Sending>, follower: FollowerThreads.Follower, link: Link)

  datatype Step =
    | LeaderSends(command: Command, gate: LeaderGate.Gate)
    | FollowerActs(action: FollowerThreads.Action)
    | LeaderReceives(report: FollowerThreads.Report, packet: Feedback, rttNs: nat, nowNs: nat)
    | LeaderResets

  function Initial(c: FollowerThreads.FollowerConfig, refs: ArmReferences): System {
    System({}, FollowerThreads.Initial(c, refs), UNUSED)
  }

  /** The leader fills mode and enable from its gate and never sets estop. */
  predicate FilledBy(command: Command, gate: LeaderGate.Gate) {
    && command.WellFormed()
    && command.header.mode == (if gate.requested then 1 else 0)
    && command.header.enable == (if gate.commandEnabled then 1 else 0)
    && command.header.estop == 0
  }

  /** The codec changes nothing but its own stamps. */
  predicate SameContent(built: Feedback, packet: Feedback) {
    packet == built.(header := built.header.(magic := packet.header.magic, version := packet.header.version,
                                             packetSize := packet.header.packetSize, sendTimeNs := packet.header.sendTimeNs),
                     crc32 := packet.crc32)
  }

  ghost predicate WasSent(s: System, command: Command) {
    exists x :: x in s.sent && x.command == command
  }

  /** The feedback packet a leader cycle gets from its buffer. */
  function Held(s: System): Option<Feedback> {
    if s.link.tracker.hasData then s.link.latest else None
  }

  /** Whatever was once sent may arrive at any time, any number of times, or never. */
  ghost predicate Enabled(s: System, step: Step) {
    match step
    case LeaderSends(command, gate) => FilledBy(command, gate)
    case FollowerActs(action) =>
      FollowerThreads.Enabled(s.follower, action) && (action.Receive? ==> WasSent(s, action.command))
    case LeaderReceives(report, packet, _, _) => report in s.follower.reports && SameContent(report.packet, packet)
    case LeaderResets => true
  }

  ghost function Next(c: FollowerThreads.FollowerConfig, s: System, step: Step): System
    requires Enabled(s, step)
  {
    match step
    case LeaderSends(command, gate) => s.(sent := s.sent + {Sending(command, gate)})
    case FollowerActs(action) => s.(follower := FollowerThreads.Next(c, s.follower, action))
    case LeaderReceives(_, packet, rttNs, nowNs) => s.(link := Arrived(s.link, packet, rttNs, nowNs))
    case LeaderResets => s.(link := WasReset(s.link))
  }

  ghost predicate IsSystemRun(c: FollowerThreads.FollowerConfig, refs: ArmReferences, steps: seq<Step>, states: seq<System>) {
    && |states| == |steps| + 1
    && FitsSlots(refs) && states[0] == Initial(c, refs)
    && forall k :: 0 <= k < |steps| ==> Enabled(states[k], steps[k]) && states[k + 1] == Next(c, states[k], steps[k])
  }

  // ---------------------------------------------------------------- invariant

  ghost predicate SentIsFilled(s: System) {
    forall x :: x in s.sent ==> FilledBy(x.command, x.gate)
  }

  ghost predicate DeliveredWasSent(s: System) {
    forall d :: d in s.follower.deliveries ==> WasSent(s, d.command)
  }

  /** The feedback a leader holds is one of the follower's reports. */
  ghost predicate HeldIsReported(s: System) {
    s.link.latest.Some? ==> exists r :: r in s.follower.reports && SameContent(r.packet, s.link.latest.value)
  }

  ghost predicate Unforged(c: FollowerThreads.FollowerConfig, s: System) {
    && FollowerThreads.Sound(c, s.follower)
    && SentIsFilled(s) && DeliveredWasSent(s) && HeldIsReported(s)
  }

  lemma FollowerStepGrows(c: FollowerThreads.FollowerConfig, s: FollowerThreads.Follower, a: FollowerThreads.Action)
    requires FollowerThreads.Enabled(s, a)
    ensures s.reports <= FollowerThreads.Next(c, s, a).reports
    ensures forall d :: d in FollowerThreads.Next(c, s, a).deliveries ==>
              d in s.deliveries || (a.Receive? && d.command == a.command)
  {
  }

  lemma StepKeepsUnforged(c: FollowerThreads.FollowerConfig, s: System, step: Step)
    requires c.safety.requireEnable && Unforged(c, s) && Enabled(s, step)
    ensures Unforged(c, Next(c, s, step))
  {
    hide FollowerThreads.Sound, FollowerThreads.Next, FollowerThreads.Enabled, SameContent, IsDuplicate;
    var t := Next(c, s, step);
    if step.FollowerActs? {
      FollowerThreads.StepKeepsSound(c, s.follower, step.action);
      FollowerStepGrows(c, s.follower, step.action);
      if s.link.latest.Some? {
        var r :| r in s.follower.reports && SameContent(r.packet, s.link.latest.value);
        assert r in t.follower.reports;
      }
    }
  }

  lemma {:induction false} RunIsUnforged(
    c: FollowerThreads.FollowerConfig, refs: ArmReferences, steps: seq<Step>, states: seq<System>, k: nat)
    requires c.safety.requireEnable && IsSystemRun(c, refs, steps, states) && k < |states|
    ensures Unforged(c, states[k])
  {
    hide FollowerThreads.Sound, FollowerThreads.Next, FollowerThreads.Enabled, Next, Enabled;
    if k == 0 {
      FollowerThreads.InitialIsSound(c, refs);
    } else {
      RunIsUnforged(c, refs, steps, states, k - 1);
      StepKeepsUnforged(c, states[k - 1], steps[k - 1]);
    }
  }

  // ---------------------------------------------------------------- causal safety

  /** The command was sent while the leader's commands were enabled. */
  ghost predicate SentEnabled(s: System, command: Command) {
    exists x :: x in s.sent && x.command == command && x.gate.commandEnabled
  }

  /** The feedback was built in an active cycle on a live command of the leader. */
  ghost predicate BuiltWhileActive(c: FollowerThreads.FollowerConfig, s: System, fb: Feedback, r: FollowerThreads.Report) {
    && r in s.follower.reports && SameContent(r.packet, fb)
    && r.cycle.GotState? && r.cycle.state == SafetyState.Active && r.cycle.target.Some?
    && var command := r.cycle.target.value;
    && SentEnabled(s, command) && command.header.enable == 1 && command.header.estop == 0
    && fb.echoCmdSeq == command.header.seqNo && fb.echoCmdSendTimeNs == command.header.sendTimeNs
    && r.cycle.basis.seen <= s.follower.deliveries && (forall d :: d in r.cycle.basis.seen ==> WasSent(s, d.command))
    && ArrivedWithin(r.cycle.basis, c.safety.thresholds.warningMs)
  }

  lemma ReportWasActive(c: FollowerThreads.FollowerConfig, s: System, fb: Feedback, r: FollowerThreads.Report)
    requires Unforged(c, s) && r in s.follower.reports && SameContent(r.packet, fb)
    requires fb.header.enable != 0
    ensures BuiltWhileActive(c, s, fb, r)
  {
    hide FollowerThreads.Sound, GapMs;
    assert FollowerThreads.ReportIsSound(c, s.follower, r) by { SoundReport(c, s.follower, r); }
    var p := r.cycle;
    assert p.state == SafetyState.Active;
    assert FollowerThreads.Judgement(c, p.target.value, p.basis, p.state);
    var d :| d in s.follower.deliveries && d.command == p.target.value;
    assert WasSent(s, d.command);
    var x :| x in s.sent && x.command == d.command;
    assert FilledBy(x.command, x.gate);
    GapBoundsAge(p.basis, c.safety.thresholds.warningMs);
  }

  lemma SoundReport(c: FollowerThreads.FollowerConfig, s: FollowerThreads.Follower, r: FollowerThreads.Report)
    requires FollowerThreads.Sound(c, s) && r in s.reports
    ensures FollowerThreads.ReportIsSound(c, s, r)
  {
  }

  /**
   Whenever the leader wants to render force, the feedback it read was built in a follower cycle that
   was active, had received a command of the leader less than the warning threshold before, and
   answers a command that the leader sent with enable 1 and estop 0.
   */
  lemma CausalSafety(
    c: FollowerThreads.FollowerConfig, refs: ArmReferences, steps: seq<Step>, states: seq<System>, k: nat,
    render: RenderConfig, x: Inputs)
    returns (r: FollowerThreads.Report)
    requires c.safety.requireEnable && IsSystemRun(c, refs, steps, states) && k < |states|
    requires x.latest == Held(states[k])
    requires Wants(render, x)
    ensures BuiltWhileActive(c, states[k], x.latest.value, r)
  {
    hide FollowerThreads.Sound, SameContent, BuiltWhileActive, IsSystemRun;
    RunIsUnforged(c, refs, steps, states, k);
    r :| r in states[k].follower.reports && SameContent(r.packet, x.latest.value);
    ReportWasActive(c, states[k], x.latest.value, r);
  }

  // ---------------------------------------------------------------- the loop closes

  /** A run continued by one step. */
  lemma Continue(c: FollowerThreads.FollowerConfig, refs: ArmReferences, steps: seq<Step>, states: seq<System>, step: Step)
    requires IsSystemRun(c, refs, steps, states) && Enabled(states[|steps|], step)
    ensures IsSystemRun(c, refs, steps + [step], states + [Next(c, states[|steps|], step)])
  {
    hide Enabled, Next, Initial;
    var s, t := steps + [step], states + [Next(c, states[|steps|], step)];
    forall k | 0 <= k < |s| ensures Enabled(t[k], s[k]) && t[k + 1] == Next(c, t[k], s[k]) {
      if k < |steps| {
        assert t[k] == states[k] && t[k + 1] == states[k + 1] && s[k] == steps[k];
      }
    }
  }

  lemma EmptyRun(c: FollowerThreads.FollowerConfig, refs: ArmReferences)
    requires FitsSlots(refs)
    ensures IsSystemRun(c, refs, [], [Initial(c, refs)])
  {
  }

  lemma Extend(c: FollowerThreads.FollowerConfig, refs: ArmReferences, steps: seq<Step>, states: seq<System>, step: Step)
    returns (longer: seq<Step>, more: seq<System>)
    requires IsSystemRun(c, refs, steps, states) && |states| == |steps| + 1 && Enabled(states[|steps|], step)
    ensures IsSystemRun(c, refs, longer, more) && |more| == |longer| + 1
    ensures more[|longer|] == Next(c, states[|steps|], step)
  {
    hide Enabled, Next;
    Continue(c, refs, steps, states, step);
    longer, more := steps + [step], states + [Next(c, states[|steps|], step)];
  }

  /** One enabled command and the follower's cycle is active. */
  lemma CycleBecomesActive(
    c: FollowerThreads.FollowerConfig, refs: ArmReferences, gate: LeaderGate.Gate, command: Command)
    returns (steps: seq<Step>, states: seq<System>)
    requires FitsSlots(refs) && c.safety.requireEnable && Check(c.safety.thresholds, 0.0) == Status.Ok
    requires gate.commandEnabled && FilledBy(command, gate)
    ensures IsSystemRun(c, refs, steps, states) && |states| == |steps| + 1
    ensures var s := states[|steps|];
            && s.link == UNUSED && s.follower.phase.GotState?
            && s.follower.phase.state == SafetyState.Active && s.follower.phase.target == Some(command)
            && s.follower.phase.work == FollowerThreads.NotStarted
  {
    hide IsSystemRun;
    steps, states := [], [Initial(c, refs)];
    EmptyRun(c, refs);
    steps, states := Extend(c, refs, steps, states, LeaderSends(command, gate));
    steps, states := Extend(c, refs, steps, states, FollowerActs(FollowerThreads.Receive(command, 0)));
    steps, states := Extend(c, refs, steps, states, FollowerActs(FollowerThreads.GetLatest));
    steps, states := Extend(c, refs, steps, states, FollowerActs(FollowerThreads.ReadClock(0)));
    steps, states := Extend(c, refs, steps, states, FollowerActs(FollowerThreads.ReadReceipt));
    steps, states := Extend(c, refs, steps, states, FollowerActs(FollowerThreads.Judge));
    steps, states := Extend(c, refs, steps, states, FollowerActs(FollowerThreads.GetState));
  }

  lemma ActiveIsFlagged(context: Context)
    requires context.state == SafetyState.Active
    ensures FeedbackOf(context, [], []).header.enable == 1 && FeedbackOf(context, [], []).header.estop == 0
  {
  }

  lemma SameAsItself(packet: Feedback)
    ensures SameContent(packet, packet)
  {
  }

  /** One enabled command, one cycle and one report later the leader holds feedback from an active follower. */
  lemma ActiveFeedbackArrives(
    c: FollowerThreads.FollowerConfig, refs: ArmReferences, gate: LeaderGate.Gate, command: Command, context: Context)
    returns (steps: seq<Step>, states: seq<System>)
    requires FitsSlots(refs) && c.safety.requireEnable && Check(c.safety.thresholds, 0.0) == Status.Ok
    requires gate.commandEnabled && FilledBy(command, gate)
    requires context.state == SafetyState.Active && context.target == Some(command)
    ensures IsSystemRun(c, refs, steps, states) && |states| == |steps| + 1
    ensures var link := states[|steps|].link;
            && link.tracker.hasData && link.latest.Some?
            && link.latest.value.header.enable != 0 && link.latest.value.header.estop == 0
  {
    hide FeedbackOf, IsSystemRun, SameContent, FilledBy, Check, SeqNumber, LostBefore, IsRestart;
    steps, states := CycleBecomesActive(c, refs, gate, command);
    var packet := FeedbackOf(context, [], []);
    var report := FollowerThreads.Report.Report(packet, states[|steps|].follower.phase);
    ActiveIsFlagged(context);
    SameAsItself(packet);
    steps, states := Extend(c, refs, steps, states, FollowerActs(FollowerThreads.Action.Report(context, [], [])));
    assert report in states[|steps|].follower.reports;
    steps, states := Extend(c, refs, steps, states, LeaderReceives(report, packet, 0, 0));
  }
}
