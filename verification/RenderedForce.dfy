/** From a torque on the leader back to the follower and the gate that let it through. */
module RenderedForce {
  import opened BilateralEngager
  import opened EngagerRuns
  import opened LeaderCycle
  import FeedbackStateBuffer
  import FollowerCycle
  import FollowerThreads
  import LeaderControl
  import LeaderGate
  import LeaderGateRuns
  import LeaderTorque
  import TeleopSystem

  /** Where a leader cycle reads: a state of the two-sided system for the feedback, one of the gate for the request. */
  datatype Moment = Moment(system: nat, gate: nat)

  ghost predicate ReadsAt(states: seq<TeleopSystem.System>, gates: seq<LeaderGate.Gate>, x: Inputs, at: Moment) {
    && at.system < |states| && at.gate < |gates|
    && x.latest == TeleopSystem.Held(states[at.system])
    && x.requested == gates[at.gate].requested
  }

  /** The cycles read one after the other, and each is followed by its gate block before the next one reads. */
  ghost predicate InLoopOrder(events: seq<LeaderGateRuns.Event>, moments: seq<Moment>, blocks: seq<nat>) {
    && |blocks| == |moments|
    && (forall k :: 0 <= k < |blocks| ==> moments[k].gate <= blocks[k] < |events| && events[blocks[k]].action.GateBlock?)
    && (forall k :: 0 < k < |moments| ==> blocks[k - 1] < moments[k].gate && moments[k - 1].system <= moments[k].system)
  }

  /**
   A run of the system, a run of the gate from whose states all commands are sent, and cycles of the
   leader that read at moments of both.
   */
  ghost predicate Together(
    c: FollowerThreads.FollowerConfig, refs: FollowerCycle.ArmReferences,
    steps: seq<TeleopSystem.Step>, states: seq<TeleopSystem.System>,
    settings: LeaderGate.GateSettings, start: LeaderGate.Gate, startNs: int,
    events: seq<LeaderGateRuns.Event>, gates: seq<LeaderGate.Gate>,
    cycles: seq<Inputs>, moments: seq<Moment>, blocks: seq<nat>)
  {
    && c.safety.requireEnable
    && TeleopSystem.IsSystemRun(c, refs, steps, states)
    && LeaderGateRuns.IsRun(settings, start, startNs, events, gates)
    && (forall i :: 0 <= i < |steps| && steps[i].LeaderSends? ==> steps[i].gate in gates)
    && |moments| == |cycles| && InLoopOrder(events, moments, blocks)
    && forall k :: 0 <= k < |cycles| ==> ReadsAt(states, gates, cycles[k], moments[k])
  }

  /** What a leader holds always fits its references: the follower built it. */
  lemma HeldFits(
    c: FollowerThreads.FollowerConfig, refs: FollowerCycle.ArmReferences,
    steps: seq<TeleopSystem.Step>, states: seq<TeleopSystem.System>, k: nat)
    requires c.safety.requireEnable && TeleopSystem.IsSystemRun(c, refs, steps, states) && k < |states|
    requires TeleopSystem.Held(states[k]).Some?
    ensures TeleopSystem.Held(states[k]).value.DofWithinSlots()
  {
    hide TeleopSystem.IsSystemRun, FollowerThreads.Sound, FollowerThreads.ReportIsSound;
    TeleopSystem.RunIsUnforged(c, refs, steps, states, k);
    var packet := states[k].link.latest.value;
    var r :| r in states[k].follower.reports && TeleopSystem.SameContent(r.packet, packet);
    TeleopSystem.SoundReport(c, states[k].follower, r);
    ReportFits(c, states[k].follower, r);
  }

  lemma ReportFits(c: FollowerThreads.FollowerConfig, s: FollowerThreads.Follower, r: FollowerThreads.Report)
    requires FollowerThreads.ReportIsSound(c, s, r)
    ensures r.packet.DofWithinSlots()
  {
  }

  /** So do the cycles of a leader that reads along: the assumption that `IsCycleRun` needs always holds. */
  lemma CyclesFit(
    c: FollowerThreads.FollowerConfig, refs: FollowerCycle.ArmReferences,
    steps: seq<TeleopSystem.Step>, states: seq<TeleopSystem.System>,
    settings: LeaderGate.GateSettings, start: LeaderGate.Gate, startNs: int,
    events: seq<LeaderGateRuns.Event>, gates: seq<LeaderGate.Gate>,
    cycles: seq<Inputs>, moments: seq<Moment>, blocks: seq<nat>)
    requires Together(c, refs, steps, states, settings, start, startNs, events, gates, cycles, moments, blocks)
    ensures AllWithinSlots(cycles)
  {
    hide TeleopSystem.IsSystemRun, LeaderGateRuns.IsRun, TeleopSystem.Held;
    forall k | 0 <= k < |cycles| && cycles[k].latest.Some? ensures cycles[k].latest.value.DofWithinSlots() {
      assert ReadsAt(states, gates, cycles[k], moments[k]);
      HeldFits(c, refs, steps, states, moments[k].system);
    }
  }

  /** Everything sent was filled from a state of the gate's run. */
  lemma {:induction false} SentFromGates(
    c: FollowerThreads.FollowerConfig, refs: FollowerCycle.ArmReferences,
    steps: seq<TeleopSystem.Step>, states: seq<TeleopSystem.System>, gates: seq<LeaderGate.Gate>, k: nat)
    requires TeleopSystem.IsSystemRun(c, refs, steps, states) && k < |states|
    requires forall i :: 0 <= i < |steps| && steps[i].LeaderSends? ==> steps[i].gate in gates
    ensures forall x :: x in states[k].sent ==> x.gate in gates
  {
    hide TeleopSystem.Enabled, FollowerThreads.Next, FollowerThreads.Enabled;
    if k > 0 {
      SentFromGates(c, refs, steps, states, gates, k - 1);
      assert states[k] == TeleopSystem.Next(c, states[k - 1], steps[k - 1]);
    }
  }

  /** The command behind active feedback, and the state of the gate it was sent from. */
  lemma SentWhileEnabled(
    c: FollowerThreads.FollowerConfig, refs: FollowerCycle.ArmReferences,
    steps: seq<TeleopSystem.Step>, states: seq<TeleopSystem.System>, gates: seq<LeaderGate.Gate>, k: nat,
    fb: FeedbackStateBuffer.Feedback, r: FollowerThreads.Report)
    returns (sentAt: nat)
    requires TeleopSystem.IsSystemRun(c, refs, steps, states) && k < |states|
    requires forall i :: 0 <= i < |steps| && steps[i].LeaderSends? ==> steps[i].gate in gates
    requires TeleopSystem.BuiltWhileActive(c, states[k], fb, r)
    ensures sentAt < |gates| && gates[sentAt].commandEnabled && r.cycle.GotState? && r.cycle.target.Some?
    ensures TeleopSystem.Sending(r.cycle.target.value, gates[sentAt]) in states[k].sent
  {
    hide TeleopSystem.IsSystemRun;
    SentFromGates(c, refs, steps, states, gates, k);
    var x :| x in states[k].sent && x.command == r.cycle.target.value && x.gate.commandEnabled;
    sentAt :| sentAt < |gates| && gates[sentAt] == x.gate;
  }

  /**
   Whenever the leader renders force, then in that cycle or at most a release before it the leader held
   feedback that an active follower had built on a live command, and the request rested on a gate
   decision that passed.  The command that feedback answers was sent while commands were enabled.  The
   decision is the latest one, made less than 100 ms before the gate block that precedes that
   cycle, or since.
   */
  lemma RenderedForceIsGrounded(
    c: FollowerThreads.FollowerConfig, refs: FollowerCycle.ArmReferences,
    steps: seq<TeleopSystem.Step>, states: seq<TeleopSystem.System>,
    settings: LeaderGate.GateSettings, start: LeaderGate.Gate, startNs: int,
    events: seq<LeaderGateRuns.Event>, gates: seq<LeaderGate.Gate>,
    cycles: seq<Inputs>, moments: seq<Moment>, blocks: seq<nat>,
    render: RenderConfig, ramps: Config, run: seq<Engagement>, held: LeaderControl.References, k: nat)
    returns (j: nat, r: FollowerThreads.Report, decision: nat, sentAt: nat)
    requires Together(c, refs, steps, states, settings, start, startNs, events, gates, cycles, moments, blocks)
    requires render.rateHz > 0.0 && AllWithinSlots(cycles) && IsCycleRun(render, ramps, RELEASED, cycles, run)
    requires k < |cycles| && LeaderTorque.Commanded(run[k + 1], held).Some?
    ensures j <= k <= j + ReleaseCycles(ramps, render.rateHz) && cycles[j].latest.Some?
    ensures TeleopSystem.BuiltWhileActive(c, states[moments[j].system], cycles[j].latest.value, r)
    ensures LeaderGateRuns.LatestDecision(settings, events, gates, decision, moments[j].gate)
    ensures LeaderGateRuns.EvaluationPasses(settings, gates[decision], events[decision])
    ensures sentAt < |gates| && gates[sentAt].commandEnabled && r.cycle.GotState? && r.cycle.target.Some?
    ensures TeleopSystem.Sending(r.cycle.target.value, gates[sentAt]) in states[moments[j].system].sent
    ensures j > 0 ==> events[blocks[j - 1]].nowNs - events[decision].nowNs < LeaderGate.GATE_PERIOD_NS
  {
    hide TeleopSystem.IsSystemRun, TeleopSystem.BuiltWhileActive, LeaderGateRuns.LatestDecision, LeaderGateRuns.EvaluationPasses,
         ReleaseCycles, IsCycleRun, TeleopSystem.Held;
    j := RenderedWasWanted(render, ramps, cycles, run, held, k);
    assert ReadsAt(states, gates, cycles[j], moments[j]);
    r := TeleopSystem.CausalSafety(c, refs, steps, states, moments[j].system, render, cycles[j]);
    sentAt := SentWhileEnabled(c, refs, steps, states, gates, moments[j].system, cycles[j].latest.value, r);
    if j > 0 {
      decision := LeaderGateRuns.DecisionIsRecent(settings, start, startNs, events, gates, blocks[j - 1], moments[j].gate);
    } else {
      decision := LeaderGateRuns.RequestRestsOnDecision(settings, start, startNs, events, gates, moments[j].gate);
    }
  }
}
