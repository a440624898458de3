/** The engage/release state machine of force rendering on one leader arm. */
module BilateralEngager {
  import opened Doubles

  datatype EngageState = Off | WaitAlign | RampUp | Engaged | RampDown

  datatype Config = Config(rampUpS: real, rampDownS: real)

  datatype Engagement = Engagement(state: EngageState, scale: real)

  const RELEASED: Engagement := Engagement(Off, 0.0)

  /** Ramps are at least a millisecond long. */
  function Ramp(rampS: real): (r: real)
    ensures r >= 0.001 && r >= rampS && (r == 0.001 || r == rampS)
  {
    MaxReal(rampS, 0.001)
  }

  function Next(c: Config, e: Engagement, want: bool, aligned: bool, dt: real): Engagement {
    match e.state
    case Off => Engagement(if want then WaitAlign else Off, 0.0)
    case WaitAlign => Engagement(if !want then Off else if aligned then RampUp else WaitAlign, 0.0)
    case RampUp =>
      if !want then e.(state := RampDown)
      else
        var scale := MinReal(1.0, e.scale + dt / Ramp(c.rampUpS));
        Engagement(if scale >= 1.0 then Engaged else RampUp, scale)
    case Engaged => Engagement(if want then Engaged else RampDown, 1.0)
    case RampDown =>
      var scale := MaxReal(0.0, e.scale - dt / Ramp(c.rampDownS));
      Engagement(if scale > 0.0 then RampDown else if want then WaitAlign else Off, scale)
  }

  class Engager {
    const config: Config
    var state: EngageState
    var scale: real

    function View(): Engagement
      reads this
    {
      Engagement(state, scale)
    }

    constructor (config: Config)
      ensures this.config == config && View() == RELEASED
    {
      this.config := config;
      state, scale := Off, 0.0;
    }

    method Update(want: bool, aligned: bool, dt: real)
      modifies this
      ensures View() == Next(config, old(View()), want, aligned, dt)
    {
      match state
      case Off =>
        scale := 0.0;
        if want {
          state := WaitAlign;
        }
      case WaitAlign =>
        scale := 0.0;
        if !want {
          state := Off;
        } else if aligned {
          state := RampUp;
        }
      case RampUp =>
        if !want {
          state := RampDown;
        } else {
          scale := MinReal(1.0, scale + dt / Ramp(config.rampUpS));
          if scale >= 1.0 {
            state := Engaged;
          }
        }
      case Engaged =>
        scale := 1.0;
        if !want {
          state := RampDown;
        }
      case RampDown =>
        scale := MaxReal(0.0, scale - dt / Ramp(config.rampDownS));
        if scale <= 0.0 {
          state := if want then WaitAlign else Off;
        }
    }

    method Reset()
      modifies this
      ensures View() == RELEASED
    {
      state, scale := Off, 0.0;
    }

    predicate Active()
      reads this
    {
      scale > 0.0
    }
  }
}
