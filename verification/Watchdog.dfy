/** Thresholds on the age of the newest command. */
module Watchdog {

  datatype Status = Ok | Warning | Holding | Disable

  datatype Thresholds = Thresholds(warningMs: real, holdMs: real, disableMs: real)

  /** The largest threshold is looked at first; nothing requires the three to be ordered. */
  function Check(t: Thresholds, gapMs: real): Status {
    if gapMs >= t.disableMs then Disable
    else if gapMs >= t.holdMs then Holding
    else if gapMs >= t.warningMs then Warning
    else Ok
  }

  function Severity(s: Status): nat {
    match s
    case Ok => 0
    case Warning => 1
    case Holding => 2
    case Disable => 3
  }

  /** An older command is never judged milder, whatever the thresholds. */
  lemma SeverityGrowsWithAge(t: Thresholds, gap: real, later: real)
    requires gap <= later
    ensures Severity(Check(t, gap)) <= Severity(Check(t, later))
  {
  }
}
