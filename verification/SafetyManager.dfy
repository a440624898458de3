/** The per-arm safety state machine of the follower. */
module SafetyManager {
  import opened Packets
  import opened Watchdog

  datatype SafetyState =
    Disabled | WaitingForEnable | Ready | Active | WarningTimeout | Hold | Estop | Fault

  datatype SafetyConfig = SafetyConfig(requireEnable: bool, thresholds: Thresholds)

  datatype Safety = Safety(state: SafetyState, estopTriggered: bool)

  function Rearmed(config: SafetyConfig): SafetyState {
    if config.requireEnable then WaitingForEnable else Ready
  }

  /** One control-cycle update with the flags of the newest packet and its age. */
  function Updated(config: SafetyConfig, s: Safety, enable: bv8, estop: bv8, gapMs: real): Safety {
    if s.estopTriggered || estop == 1 then s.(state := Estop)
    else if s.state == Disabled then s
    else if config.requireEnable && enable == 0 then s.(state := WaitingForEnable)
    else
      match Check(config.thresholds, gapMs)
      case Disable => s.(state := Fault)
      case status =>
        var armed := if s.state == WaitingForEnable && enable == 1 then Ready else s.state;
        if armed in {Ready, Active, WarningTimeout, Hold} then s.(state := Tracking(status)) else s
  }

  function Tracking(status: Status): SafetyState {
    match status
    case Ok => Active
    case Warning => WarningTimeout
    case Holding => Hold
    case Disable => Fault
  }

  class Manager {
    const config: SafetyConfig
    var state: SafetyState
    var estopTriggered: bool

    function View(): Safety
      reads this
    {
      Safety(state, estopTriggered)
    }

    constructor (config: SafetyConfig)
      ensures this.config == config
      ensures View() == Safety(Rearmed(config), false)
      ensures state == if config.requireEnable then WaitingForEnable else Ready
    {
      this.config := config;
      estopTriggered := false;
      if config.requireEnable {
        state := WaitingForEnable;
      } else {
        state := Ready;
      }
    }

    method Update(header: Header, timeSinceLastPacketMs: real)
      modifies this
      ensures View() == Updated(config, old(View()), header.enable, header.estop, timeSinceLastPacketMs)
    {
      if estopTriggered || header.estop == 1 {
        state := Estop;
        return;
      }
      if state == Disabled {
        return;
      }
      if config.requireEnable && header.enable == 0 {
        state := WaitingForEnable;
        return;
      }
      var status := Check(config.thresholds, timeSinceLastPacketMs);
      if status == Disable {
        state := Fault;
        return;
      }
      if state == WaitingForEnable {
        if header.enable == 1 {
          state := Ready;
        } else {
          return;
        }
      }
      if state == Ready || state == Active || state == WarningTimeout || state == Hold {
        if status == Holding {
          state := Hold;
        } else if status == Warning {
          state := WarningTimeout;
        } else {
          state := Active;
        }
      }
    }

    method GetState() returns (s: SafetyState)
      ensures s == state
    {
      s := state;
    }

    method TriggerEstop()
      modifies this
      ensures View() == Safety(Estop, true)
    {
      estopTriggered := true;
      state := Estop;
    }

    method Reset()
      modifies this
      ensures View() == Safety(Rearmed(config), false)
      ensures state == if config.requireEnable then WaitingForEnable else Ready
    {
      estopTriggered := false;
      if config.requireEnable {
        state := WaitingForEnable;
      } else {
        state := Ready;
      }
    }
  }
}
