/** What a control cycle decides about a command, said of clock readings and flags alone. */
module FollowerJudgement {
  import opened FollowerCycle
  import opened SafetyManager
  import opened SafetyRuns
  import opened TeleopStateBuffer

  /** The clock reading is at least so many milliseconds after the receive time; no time has passed if it is before. */
  predicate Reached(nowNs: nat, receivedNs: nat, limitMs: real) {
    if receivedNs <= nowNs then (nowNs - receivedNs) as real >= 1_000_000.0 * limitMs else 0.0 >= limitMs
  }

  /** Not stopped, and not latched. */
  predicate Armable(s: Safety) {
    !s.estopTriggered && s.state in {WaitingForEnable, Ready, SafetyState.Active, WarningTimeout, Hold}
  }

  /** On an enabling command each state is exactly a range of ages. */
  lemma JudgedByAge(config: SafetyConfig, s: Safety, target: Command, nowNs: nat, receivedNs: nat)
    requires Armable(s) && target.header.enable == 1 && target.header.estop != 1
    ensures var after, t := Judged(config, s, target, nowNs, receivedNs), config.thresholds;
            var warning, hold, disable :=
              Reached(nowNs, receivedNs, t.warningMs), Reached(nowNs, receivedNs, t.holdMs), Reached(nowNs, receivedNs, t.disableMs);
            && !after.estopTriggered
            && (after.state == Fault <==> disable)
            && (after.state == Hold <==> hold && !disable)
            && (after.state == WarningTimeout <==> warning && !hold && !disable)
            && (after.state == SafetyState.Active <==> !warning && !hold && !disable)
  {
  }

  /** On an enabling command the references are taken exactly while neither hold nor disable is reached. */
  lemma FollowedIffYoung(config: SafetyConfig, s: Safety, target: Command, nowNs: nat, receivedNs: nat)
    requires Armable(s) && target.header.enable == 1 && target.header.estop != 1
    ensures TakesReferences(Judged(config, s, target, nowNs, receivedNs).state) <==>
              !Reached(nowNs, receivedNs, config.thresholds.holdMs) && !Reached(nowNs, receivedNs, config.thresholds.disableMs)
  {
    JudgedByAge(config, s, target, nowNs, receivedNs);
  }

  /** A command with estop stops the arm from any state, without latching. */
  lemma EstopPacketStops(config: SafetyConfig, s: Safety, target: Command, nowNs: nat, receivedNs: nat)
    requires target.header.estop == 1
    ensures Judged(config, s, target, nowNs, receivedNs) == Safety(SafetyState.Estop, s.estopTriggered)
  {
  }

  /** A command without enable disarms from any state, at any age, unless an estop is latched. */
  lemma DisabledPacketDisarms(config: SafetyConfig, s: Safety, target: Command, nowNs: nat, receivedNs: nat)
    requires config.requireEnable && s.state != Disabled && target.header.enable == 0 && target.header.estop != 1
    ensures Judged(config, s, target, nowNs, receivedNs)
         == Safety(if s.estopTriggered then SafetyState.Estop else WaitingForEnable, s.estopTriggered)
  {
  }

  /** Where enabling is not required, the flag matters only to a machine that waits for it. */
  lemma EnableIsIgnored(config: SafetyConfig, s: Safety, a: Command, b: Command, nowNs: nat, receivedNs: nat)
    requires !config.requireEnable && s.state != WaitingForEnable && a.header.estop == b.header.estop
    ensures Judged(config, s, a, nowNs, receivedNs) == Judged(config, s, b, nowNs, receivedNs)
  {
  }

  lemma {:induction false} NeverReady(config: SafetyConfig, events: seq<Event>, states: seq<Safety>, k: nat)
    requires config.requireEnable && IsRun(config, events, states) && k < |states|
    ensures states[k].state != Ready
  {
    if k > 0 {
      NeverReady(config, events, states, k - 1);
    }
  }

  /** Where enabling is required, every driving state goes back to an enabling update with no stop or reset since. */
  lemma {:induction false} DrivingWasEnabled(config: SafetyConfig, events: seq<Event>, states: seq<Safety>, k: nat) returns (b: nat)
    requires config.requireEnable && IsRun(config, events, states) && k < |states| && Driving(states[k].state)
    ensures b < k && events[b].Update? && events[b].enable == 1 && events[b].estop != 1
    ensures forall m :: b <= m < k ==> events[m].Update? && events[m].enable != 0 && events[m].estop != 1
    decreases k
  {
    NeverDisabled(config, events, states, k - 1);
    NeverReady(config, events, states, k - 1);
    if Driving(states[k - 1].state) {
      b := DrivingWasEnabled(config, events, states, k - 1);
    } else {
      b := k - 1;
    }
  }
}
