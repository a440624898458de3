/** What holds in every run of the safety state machine. */
module SafetyRuns {
  import opened Watchdog
  import opened SafetyManager

  datatype Event =
    | Update(enable: bv8, estop: bv8, gapMs: real)
    | TriggerEstop
    | Reset

  function Next(config: SafetyConfig, s: Safety, e: Event): Safety {
    match e
    case Update(enable, estop, gapMs) => Updated(config, s, enable, estop, gapMs)
    case TriggerEstop => Safety(Estop, true)
    case Reset => Safety(Rearmed(config), false)
  }

  ghost predicate IsRunFrom(config: SafetyConfig, start: Safety, events: seq<Event>, states: seq<Safety>) {
    && |states| == |events| + 1
    && states[0] == start
    && forall k :: 0 <= k < |events| ==> states[k + 1] == Next(config, states[k], events[k])
  }

  ghost predicate IsRun(config: SafetyConfig, events: seq<Event>, states: seq<Safety>) {
    IsRunFrom(config, Safety(Rearmed(config), false), events, states)
  }

  predicate Stopped(s: SafetyState) {
    s in {Fault, Estop}
  }

  /** The states in which the control cycle commands the motors to track or hold. */
  predicate Driving(s: SafetyState) {
    s in {SafetyState.Active, WarningTimeout, Hold}
  }

  lemma {:induction false} NeverDisabled(config: SafetyConfig, events: seq<Event>, states: seq<Safety>, k: nat)
    requires IsRun(config, events, states) && k < |states|
    ensures states[k].state != Disabled
  {
    if k > 0 {
      NeverDisabled(config, events, states, k - 1);
    }
  }

  // ---------------------------------------------------------------- no silent re-arming

  /** An update that a stopped machine without latched estop obeys by waiting for enable. */
  ghost predicate DisarmsAt(config: SafetyConfig, events: seq<Event>, states: seq<Safety>, a: int)
    requires |states| == |events| + 1 && 0 <= a < |events|
  {
    && config.requireEnable && !states[a].estopTriggered
    && events[a].Update? && events[a].enable == 0 && events[a].estop != 1
  }

  ghost predicate ArmsAt(events: seq<Event>, b: int)
    requires 0 <= b < |events|
  {
    events[b].Update? && events[b].enable == 1 && events[b].estop != 1
  }

  ghost predicate ResetWithin(events: seq<Event>, i: nat, j: nat)
    requires i <= j <= |events|
  {
    exists k :: i <= k < j && events[k].Reset?
  }

  ghost predicate DisarmedWithin(config: SafetyConfig, events: seq<Event>, states: seq<Safety>, i: nat, j: nat)
    requires |states| == |events| + 1 && i <= j <= |events|
  {
    exists a :: i <= a < j && DisarmsAt(config, events, states, a)
  }

  ghost predicate ToggledWithin(config: SafetyConfig, events: seq<Event>, states: seq<Safety>, i: nat, j: nat)
    requires |states| == |events| + 1 && i <= j <= |events|
  {
    exists a, b :: i <= a < b < j && DisarmsAt(config, events, states, a) && ArmsAt(events, b)
  }

  /** After a stop the machine stays stopped, or waits after a disarming update, or has seen the full toggle. */
  lemma {:induction false} AfterAStop(config: SafetyConfig, start: Safety, events: seq<Event>, states: seq<Safety>, i: nat, j: nat)
    requires IsRunFrom(config, start, events, states) && i <= j < |states|
    requires Stopped(states[i].state) && !ResetWithin(events, i, j)
    ensures || Stopped(states[j].state)
            || (states[j].state == WaitingForEnable && DisarmedWithin(config, events, states, i, j))
            || ToggledWithin(config, events, states, i, j)
    decreases j - i
  {
    if i < j {
      var k := j - 1;
      AfterAStop(config, start, events, states, i, k);
      assert !events[k].Reset?;
      if ToggledWithin(config, events, states, i, k) {
        var a, b :| i <= a < b < k && DisarmsAt(config, events, states, a) && ArmsAt(events, b);
        assert i <= a < b < j;
      } else if Stopped(states[k].state) {
        if !Stopped(states[j].state) {
          assert DisarmsAt(config, events, states, k);
        }
      } else {
        var a :| i <= a < k && DisarmsAt(config, events, states, a);
        if !Stopped(states[j].state) && states[j].state != WaitingForEnable {
          assert ArmsAt(events, k);
        }
      }
    }
  }

  /**
   Between a stop and the next driving state there is a reset, or, where enabling is required and no
   estop is latched, an update with enable 0 followed by one with enable 1.
   */
  lemma NoSilentRearm(config: SafetyConfig, events: seq<Event>, states: seq<Safety>, i: nat, j: nat)
    requires IsRun(config, events, states) && i <= j < |states|
    requires Stopped(states[i].state) && Driving(states[j].state)
    ensures ResetWithin(events, i, j) || ToggledWithin(config, events, states, i, j)
  {
    if !ResetWithin(events, i, j) {
      AfterAStop(config, Safety(Rearmed(config), false), events, states, i, j);
    }
  }

  /** A latched estop holds, whatever the packets say, until a reset. */
  lemma {:induction false} LatchedEstopHolds(config: SafetyConfig, start: Safety, events: seq<Event>, states: seq<Safety>, i: nat, j: nat)
    requires IsRunFrom(config, start, events, states) && i < j < |states|
    requires events[i].TriggerEstop? && !ResetWithin(events, i, j)
    ensures states[j] == Safety(Estop, true)
    decreases j
  {
    if j > i + 1 {
      LatchedEstopHolds(config, start, events, states, i, j - 1);
      assert !events[j - 1].Reset?;
    }
  }

  /** The toggle is enough: from a stop without latched estop it restores driving while commands are young enough. */
  lemma ToggleRearms(config: SafetyConfig, s: Safety, disarm: Event, arm: Event)
    requires config.requireEnable && Stopped(s.state) && !s.estopTriggered
    requires disarm.Update? && disarm.enable == 0 && disarm.estop != 1
    requires arm.Update? && arm.enable == 1 && arm.estop != 1
    ensures Driving(Next(config, Next(config, s, disarm), arm).state) <==> arm.gapMs < config.thresholds.disableMs
  {
    assert Next(config, s, disarm) == Safety(WaitingForEnable, false);
    var after := Next(config, Safety(WaitingForEnable, false), arm);
    if arm.gapMs >= config.thresholds.disableMs {
      assert after.state == Fault;
    }
  }

  // ---------------------------------------------------------------- silence

  /** The same enabled command, judged again and again while it ages. */
  ghost predicate Silence(events: seq<Event>) {
    && (forall k :: 0 <= k < |events| ==> ArmsAt(events, k))
    && (forall k, l :: 0 <= k <= l < |events| && events[k].Update? && events[l].Update? ==>
          events[k].gapMs <= events[l].gapMs)
  }

  function Escalation(s: SafetyState): int {
    match s
    case Active => 0
    case WarningTimeout => 1
    case Hold => 2
    case Fault => 3
    case _ => -1
  }

  /** During silence the state after a cycle is the watchdog's judgement of that cycle's gap. */
  lemma {:induction false} SilentStateIsJudgement(
    config: SafetyConfig, start: Safety, events: seq<Event>, states: seq<Safety>, k: nat)
    requires IsRunFrom(config, start, events, states) && Silence(events) && k < |events|
    requires !Stopped(start.state) && start.state != Disabled && !start.estopTriggered
    ensures events[k].Update?
    ensures states[k + 1] == Safety(Tracking(Check(config.thresholds, events[k].gapMs)), false)
  {
    assert ArmsAt(events, k);
    if k > 0 {
      SilentStateIsJudgement(config, start, events, states, k - 1);
      assert ArmsAt(events, k - 1);
      assert events[k - 1].gapMs <= events[k].gapMs;
      SeverityGrowsWithAge(config.thresholds, events[k - 1].gapMs, events[k].gapMs);
    }
  }

  /**
   Silence escalates: from any state but a stop the states of successive cycles never step back, and
   a cycle is in Fault exactly when its gap has reached the disable threshold, for any thresholds.
   */
  lemma SilenceEscalates(
    config: SafetyConfig, start: Safety, events: seq<Event>, states: seq<Safety>, k: nat, l: nat)
    requires IsRunFrom(config, start, events, states) && Silence(events) && k <= l < |events|
    requires !Stopped(start.state) && start.state != Disabled && !start.estopTriggered
    ensures events[l].Update?
    ensures 0 <= Escalation(states[k + 1].state) <= Escalation(states[l + 1].state)
    ensures states[l + 1].state == Fault <==> events[l].gapMs >= config.thresholds.disableMs
    ensures states[k + 1].state == Fault ==> states[l + 1].state == Fault
  {
    SilentStateIsJudgement(config, start, events, states, k);
    SilentStateIsJudgement(config, start, events, states, l);
    SeverityGrowsWithAge(config.thresholds, events[k].gapMs, events[l].gapMs);
  }
}
