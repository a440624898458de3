/** From the leader's handlers to the follower's motors: what the flags of a command packet say and do. */
module CommandFlags {
  import opened FollowerCycle
  import opened LeaderGate
  import opened LeaderGateRuns
  import opened SafetyManager
  import opened TeleopStateBuffer
  import FollowerJudgement
  import JointExchange
  import TeleopSystem

  /** A command filled after some steps of the leader says whether commands are enabled and a request stands. */
  lemma FlagsFollowHandlers(
    c: GateSettings, start: Gate, startNs: int, events: seq<Event>, states: seq<Gate>, k: nat, command: Command)
    requires LeaderGateRuns.IsRun(c, start, startNs, events, states) && k <= |events|
    requires TeleopSystem.FilledBy(command, states[k])
    ensures command.header.enable == 0 || command.header.enable == 1
    ensures forall j: nat :: LatestSwitch(events, j, k) ==> (command.header.enable == 1 <==> events[j].action.Enable?)
    ensures (forall m :: 0 <= m < k ==> !Switches(events[m].action)) ==> (command.header.enable == 1 <==> start.commandEnabled)
    ensures command.header.mode == 0 || command.header.mode == 1
    ensures command.header.mode == 1 <==> exists j: nat :: StandsSince(c, events, states, j, k)
    ensures command.header.estop == 0
  {
    hide LeaderGateRuns.IsRun, LatestSwitch, StandsSince;
    CommandsEnabledIff(c, start, startNs, events, states, k);
    RequestStandsIff(c, start, startNs, events, states, k);
  }

  /** After `disable`, `estop` or `shutdown` every command that is judged disarms a follower that requires enabling. */
  lemma DisabledLeaderDisarms(
    c: GateSettings, start: Gate, startNs: int, events: seq<Event>, states: seq<Gate>, j: nat, k: nat, command: Command,
    follower: SafetyConfig, s: Safety, nowNs: nat, receivedNs: nat)
    requires LeaderGateRuns.IsRun(c, start, startNs, events, states) && k <= |events| && LatestSwitch(events, j, k)
    requires events[j].action.Disable? || events[j].action.Estop? || events[j].action.Shutdown?
    requires TeleopSystem.FilledBy(command, states[k]) && follower.requireEnable && s.state != Disabled
    ensures Judged(follower, s, command, nowNs, receivedNs).state
         == if s.estopTriggered then SafetyState.Estop else WaitingForEnable
  {
    hide LeaderGateRuns.IsRun, LatestSwitch, Judged;
    FlagsFollowHandlers(c, start, startNs, events, states, k, command);
    FollowerJudgement.DisabledPacketDisarms(follower, s, command, nowNs, receivedNs);
  }

  /** The command that a loop cycle sends is one of those. */
  method SendFrom(gate: Gate, armSide: bv8, seqNo: bv32, arm: seq<Reference>, hand: seq<Reference>) returns (command: Command)
    ensures TeleopSystem.FilledBy(command, gate)
  {
    command := JointExchange.FillCommand(gate, armSide, seqNo, arm, hand);
  }
}
