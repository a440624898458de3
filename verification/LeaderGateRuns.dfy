/** What the leader's gate guarantees over any run of its loop and handlers. */
module LeaderGateRuns {
  import opened BilateralGate
  import opened Doubles
  import opened FeedbackStateBuffer
  import opened LeaderGate
  import opened Wrappers
  import Packets

  datatype Event = Event(action: Action, nowNs: int)

  ghost predicate IsRun(c: GateSettings, start: Gate, startNs: int, events: seq<Event>, states: seq<Gate>) {
    && |states| == |events| + 1
    && states[0] == start
    && !start.requested && start.keepRunning && start.nextLinkCheckNs == start.nextGateCheckNs == startNs
    && (forall k :: 0 <= k < |events| ==> states[k + 1] == Next(c, states[k], events[k].action, events[k].nowNs))
    && (forall k :: 0 <= k < |events| ==> startNs <= events[k].nowNs)
    && (forall k, l :: 0 <= k <= l < |events| ==> events[k].nowNs <= events[l].nowNs)
  }

  /** Start-up begins a run. */
  lemma StartedIsRun(c: GateSettings, initialEnable: bool, link: LinkInfo, startNs: int)
    ensures IsRun(c, Started(c, initialEnable, link, startNs), startNs, [], [Started(c, initialEnable, link, startNs)])
  {
  }

  // ---------------------------------------------------------------- what the handlers decide

  /** A handler that switches commands on or off. */
  predicate Switches(a: Action) {
    a.Enable? || a.Disable? || a.Estop? || a.Shutdown?
  }

  /** The latest such handler before `k`. */
  ghost predicate LatestSwitch(events: seq<Event>, j: nat, k: nat)
    requires k <= |events|
  {
    j < k && Switches(events[j].action) && forall m :: j < m < k ==> !Switches(events[m].action)
  }

  /** Commands are enabled as the latest switch says, or as at the start before any. */
  lemma {:induction false} CommandsEnabledIff(
    c: GateSettings, start: Gate, startNs: int, events: seq<Event>, states: seq<Gate>, k: nat)
    requires IsRun(c, start, startNs, events, states) && k <= |events|
    ensures forall j: nat :: LatestSwitch(events, j, k) ==> (states[k].commandEnabled <==> events[j].action.Enable?)
    ensures (forall m :: 0 <= m < k ==> !Switches(events[m].action)) ==> states[k].commandEnabled == start.commandEnabled
  {
    hide Passes, RefreshedLink;
    if k > 0 {
      CommandsEnabledIff(c, start, startNs, events, states, k - 1);
      forall j: nat | LatestSwitch(events, j, k) ensures states[k].commandEnabled <==> events[j].action.Enable? {
        if j < k - 1 {
          assert LatestSwitch(events, j, k - 1);
        }
      }
    }
  }

  /** The leader runs until the first estop or shutdown. */
  lemma {:induction false} RunningIff(c: GateSettings, start: Gate, startNs: int, events: seq<Event>, states: seq<Gate>, k: nat)
    requires IsRun(c, start, startNs, events, states) && k <= |events|
    ensures states[k].keepRunning <==> forall m :: 0 <= m < k ==> !events[m].action.Estop? && !events[m].action.Shutdown?
  {
    hide Passes, RefreshedLink;
    if k > 0 {
      RunningIff(c, start, startNs, events, states, k - 1);
    }
  }

  // ---------------------------------------------------------------- evaluations

  /** The loop evaluates the gate in this step. */
  predicate LoopEvaluates(g: Gate, e: Event) {
    e.action.GateBlock? && ChecksGate(g, e.nowNs)
  }

  predicate EnableEvaluates(g: Gate, e: Event) {
    e.action.BilateralEnable? && g.commandEnabled
  }

  predicate Evaluates(g: Gate, e: Event) {
    LoopEvaluates(g, e) || EnableEvaluates(g, e)
  }

  predicate EvaluationPasses(c: GateSettings, g: Gate, e: Event)
    requires Evaluates(g, e)
  {
    match e.action
    case GateBlock(around) => Passes(c, LinkReasonsAt(c, g, around, e.nowNs), around.right, around.left)
    case BilateralEnable(around) => Passes(c, RefreshedLink(c, around.link), around.right, around.left)
    case _ => false
  }

  /** A `bilateral_enable` that the gate turns down. */
  predicate IsRefusal(c: GateSettings, g: Gate, e: Event) {
    EnableEvaluates(g, e) && !EvaluationPasses(c, g, e)
  }

  /** A `bilateral_enable` made while the request already stands. */
  predicate EnablesAgain(g: Gate, e: Event) {
    e.action.BilateralEnable? && g.requested
  }

  /** The latest step before `k` that evaluated the gate. */
  ghost predicate LatestEvaluation(events: seq<Event>, states: seq<Gate>, j: nat, k: nat)
    requires k <= |events| && |states| == |events| + 1
  {
    && j < k && Evaluates(states[j], events[j])
    && forall m :: j < m < k ==> !Evaluates(states[m], events[m])
  }

  /** The latest evaluation that was not a refusal. */
  ghost predicate LatestDecision(c: GateSettings, events: seq<Event>, states: seq<Gate>, j: nat, k: nat)
    requires k <= |events| && |states| == |events| + 1
  {
    && j < k && Evaluates(states[j], events[j]) && !IsRefusal(c, states[j], events[j])
    && forall m :: j < m < k ==> Evaluates(states[m], events[m]) ==> IsRefusal(c, states[m], events[m])
  }

  /** A standing request rests on a decision that passed. */
  lemma {:induction false} RequestRestsOnDecision(c: GateSettings, start: Gate, startNs: int, events: seq<Event>, states: seq<Gate>, k: nat)
    returns (j: nat)
    requires IsRun(c, start, startNs, events, states) && k <= |events| && states[k].requested
    ensures LatestDecision(c, events, states, j, k) && EvaluationPasses(c, states[j], events[j])
  {
    hide Passes, RefreshedLink;
    var g, e := states[k - 1], events[k - 1];
    if Evaluates(g, e) && !IsRefusal(c, g, e) {
      j := k - 1;
    } else {
      j := RequestRestsOnDecision(c, start, startNs, events, states, k - 1);
    }
  }

  /** What makes a request, and what takes one back. */
  predicate Requests(c: GateSettings, g: Gate, e: Event) {
    EnableEvaluates(g, e) && EvaluationPasses(c, g, e)
  }

  predicate Withdraws(c: GateSettings, g: Gate, e: Event) {
    || e.action.BilateralDisable? || e.action.Disable? || e.action.Estop?
    || (LoopEvaluates(g, e) && !EvaluationPasses(c, g, e))
  }

  /** An accepted `bilateral_enable` that nothing has withdrawn since. */
  ghost predicate StandsSince(c: GateSettings, events: seq<Event>, states: seq<Gate>, j: nat, k: nat)
    requires k <= |events| && |states| == |events| + 1
  {
    && j < k && Requests(c, states[j], events[j])
    && forall m :: j < m < k ==> !Withdraws(c, states[m], events[m])
  }

  lemma {:induction false} UnwithdrawnStands(
    c: GateSettings, start: Gate, startNs: int, events: seq<Event>, states: seq<Gate>, j: nat, k: nat)
    requires IsRun(c, start, startNs, events, states) && k <= |events| && StandsSince(c, events, states, j, k)
    ensures states[k].requested
    decreases k
  {
    hide Passes, RefreshedLink;
    if j < k - 1 {
      UnwithdrawnStands(c, start, startNs, events, states, j, k - 1);
    }
  }

  lemma {:induction false} StandingWasMade(
    c: GateSettings, start: Gate, startNs: int, events: seq<Event>, states: seq<Gate>, k: nat) returns (j: nat)
    requires IsRun(c, start, startNs, events, states) && k <= |events| && states[k].requested
    ensures StandsSince(c, events, states, j, k)
  {
    hide Passes, RefreshedLink;
    if Requests(c, states[k - 1], events[k - 1]) {
      j := k - 1;
    } else {
      j := StandingWasMade(c, start, startNs, events, states, k - 1);
    }
  }

  /** A request stands exactly if an accepted `bilateral_enable` was not withdrawn since. */
  lemma RequestStandsIff(c: GateSettings, start: Gate, startNs: int, events: seq<Event>, states: seq<Gate>, k: nat)
    requires IsRun(c, start, startNs, events, states) && k <= |events|
    ensures states[k].requested <==> exists j: nat :: StandsSince(c, events, states, j, k)
  {
    hide Passes, RefreshedLink, StandsSince;
    if states[k].requested {
      var j := StandingWasMade(c, start, startNs, events, states, k);
    }
    forall j: nat | StandsSince(c, events, states, j, k) ensures states[k].requested {
      UnwithdrawnStands(c, start, startNs, events, states, j, k);
    }
  }

  /** The next check is due a period after the loop's latest evaluation, or at once before the first one. */
  lemma {:induction false} CheckIsDue(c: GateSettings, start: Gate, startNs: int, events: seq<Event>, states: seq<Gate>, k: nat)
    returns (j: nat)
    requires IsRun(c, start, startNs, events, states) && k <= |events|
    ensures states[k].nextGateCheckNs != startNs ==>
              j < k && LoopEvaluates(states[j], events[j]) && states[k].nextGateCheckNs == events[j].nowNs + GATE_PERIOD_NS
  {
    hide Passes, RefreshedLink;
    j := 0;
    if k > 0 {
      if LoopEvaluates(states[k - 1], events[k - 1]) {
        j := k - 1;
      } else {
        j := CheckIsDue(c, start, startNs, events, states, k - 1);
      }
    }
  }

  lemma {:induction false} NextCheckIsLater(
    c: GateSettings, start: Gate, startNs: int, events: seq<Event>, states: seq<Gate>, j: nat, k: nat)
    requires IsRun(c, start, startNs, events, states) && j < k <= |events| && LoopEvaluates(states[j], events[j])
    ensures states[k].nextGateCheckNs >= events[j].nowNs + GATE_PERIOD_NS
    decreases k
  {
    hide Passes, RefreshedLink;
    if j < k - 1 {
      NextCheckIsLater(c, start, startNs, events, states, j, k - 1);
    }
  }

  /** A gate block evaluates the gate exactly if a request stands and no block did so in the last 100 ms. */
  lemma LoopEvaluatesIff(c: GateSettings, start: Gate, startNs: int, events: seq<Event>, states: seq<Gate>, k: nat)
    requires IsRun(c, start, startNs, events, states) && k < |events| && events[k].action.GateBlock?
    ensures LoopEvaluates(states[k], events[k]) <==>
              states[k].requested
              && forall j :: 0 <= j < k && LoopEvaluates(states[j], events[j]) ==> events[k].nowNs - events[j].nowNs >= 100_000_000
  {
    hide Passes, RefreshedLink;
    forall j: nat | j < k && LoopEvaluates(states[j], events[j])
      ensures states[k].nextGateCheckNs >= events[j].nowNs + GATE_PERIOD_NS
    {
      NextCheckIsLater(c, start, startNs, events, states, j, k);
    }
    var latest := CheckIsDue(c, start, startNs, events, states, k);
  }

  /** The latest evaluation before `k`, given an earlier one. */
  lemma FindLatest(events: seq<Event>, states: seq<Gate>, from: nat, k: nat) returns (j: nat)
    requires from < k <= |events| && |states| == |events| + 1
    requires Evaluates(states[from], events[from])
    ensures from <= j && LatestEvaluation(events, states, j, k)
  {
    j := k - 1;
    while !Evaluates(states[j], events[j])
      invariant from <= j < k && forall m :: j < m < k ==> !Evaluates(states[m], events[m])
      decreases j
    {
      j := j - 1;
    }
  }

  /**
   After every gate block that leaves the request standing: the latest decision of the gate passed
   and is less than 100 ms old.  The latest evaluation is less than 100 ms old, and it passed unless it
   was that of a `bilateral_enable` made while the request already stood.
   */
  lemma ContinuousGating(c: GateSettings, start: Gate, startNs: int, events: seq<Event>, states: seq<Gate>, k: nat)
    returns (decision: nat, evaluation: nat)
    requires IsRun(c, start, startNs, events, states) && k < |events|
    requires events[k].action.GateBlock? && states[k + 1].requested
    ensures LatestDecision(c, events, states, decision, k + 1)
    ensures EvaluationPasses(c, states[decision], events[decision])
    ensures events[k].nowNs - events[decision].nowNs < GATE_PERIOD_NS
    ensures LatestEvaluation(events, states, evaluation, k + 1)
    ensures events[k].nowNs - events[evaluation].nowNs < GATE_PERIOD_NS
    ensures !EnablesAgain(states[evaluation], events[evaluation]) ==>
              EvaluationPasses(c, states[evaluation], events[evaluation])
  {
    hide Passes, RefreshedLink;
    decision := RequestRestsOnDecision(c, start, startNs, events, states, k + 1);
    evaluation := FindLatest(events, states, decision, k + 1);
    if !LoopEvaluates(states[k], events[k]) {
      assert states[k].requested && events[k].nowNs < states[k].nextGateCheckNs;
      var loopCheck := CheckIsDue(c, start, startNs, events, states, k);
      assert loopCheck <= decision;
    }
    if LoopEvaluates(states[evaluation], events[evaluation]) {
      assert evaluation == decision;
    } else if !EnablesAgain(states[evaluation], events[evaluation]) && !EvaluationPasses(c, states[evaluation], events[evaluation]) {
      NotRequestedAfterRefusal(c, start, startNs, events, states, evaluation, k + 1);
    }
  }

  /** A first request that is refused stays unmade until the gate is evaluated again. */
  lemma {:induction false} NotRequestedAfterRefusal(
    c: GateSettings, start: Gate, startNs: int, events: seq<Event>, states: seq<Gate>, j: nat, k: nat)
    requires IsRun(c, start, startNs, events, states) && k <= |events| && LatestEvaluation(events, states, j, k)
    requires IsRefusal(c, states[j], events[j]) && !states[j].requested
    ensures !states[k].requested
    decreases k
  {
    hide Passes, RefreshedLink;
    if k > j + 1 {
      NotRequestedAfterRefusal(c, start, startNs, events, states, j, k - 1);
    }
  }

  /** A run has at most one latest decision before a step. */
  lemma DecisionIsUnique(c: GateSettings, events: seq<Event>, states: seq<Gate>, i: nat, j: nat, k: nat)
    requires k <= |events| && |states| == |events| + 1
    requires LatestDecision(c, events, states, i, k) && LatestDecision(c, events, states, j, k)
    ensures i == j
  {
    hide IsRefusal;
  }

  /** Without a new decision a request that stands stood before. */
  lemma {:induction false} RequestStood(
    c: GateSettings, start: Gate, startNs: int, events: seq<Event>, states: seq<Gate>, d: nat, j: nat, k: nat)
    requires IsRun(c, start, startNs, events, states) && d < j <= k <= |events|
    requires LatestDecision(c, events, states, d, k) && states[k].requested
    ensures states[j].requested
    decreases k - j
  {
    hide Passes, RefreshedLink;
    if j < k {
      RequestStood(c, start, startNs, events, states, d, j + 1, k);
    }
  }

  /** However long ago the latest gate block ran, a standing request rests on a decision made less than 100 ms before it, or since. */
  lemma DecisionIsRecent(
    c: GateSettings, start: Gate, startNs: int, events: seq<Event>, states: seq<Gate>, block: nat, k: nat)
    returns (decision: nat)
    requires IsRun(c, start, startNs, events, states) && block < k <= |events|
    requires events[block].action.GateBlock? && states[k].requested
    ensures LatestDecision(c, events, states, decision, k) && EvaluationPasses(c, states[decision], events[decision])
    ensures events[block].nowNs - events[decision].nowNs < GATE_PERIOD_NS
  {
    hide Passes, RefreshedLink, IsRefusal, Evaluates, EvaluationPasses;
    decision := RequestRestsOnDecision(c, start, startNs, events, states, k);
    if decision < block {
      RequestStood(c, start, startNs, events, states, decision, block + 1, k);
      var d, _ := ContinuousGating(c, start, startNs, events, states, block);
      DecisionIsUnique(c, events, states, d, decision, block + 1);
    }
  }

  // ---------------------------------------------------------------- the link is looked at again

  /** A step that refreshes what is known of the interface. */
  predicate Refreshes(g: Gate, e: Event) {
    EnableEvaluates(g, e) || (e.action.GateBlock? && ChecksLink(g, e.nowNs))
  }

  function LinkSeen(a: Action): LinkInfo
    requires a.BilateralEnable? || a.GateBlock?
  {
    a.around.link
  }

  /** What is known of the interface is what the latest refresh found. */
  lemma {:induction false} LinkIsOfLatestRefresh(
    c: GateSettings, start: Gate, startNs: int, events: seq<Event>, states: seq<Gate>, from: nat, k: nat) returns (m: nat)
    requires IsRun(c, start, startNs, events, states) && from < k <= |events| && Refreshes(states[from], events[from])
    ensures from <= m < k && Refreshes(states[m], events[m])
    ensures states[k].linkReasons == RefreshedLink(c, LinkSeen(events[m].action))
    decreases k
  {
    hide Passes, RefreshedLink;
    if Refreshes(states[k - 1], events[k - 1]) {
      m := k - 1;
    } else {
      m := LinkIsOfLatestRefresh(c, start, startNs, events, states, from, k - 1);
    }
  }

  /** The next look is due a period after the loop's latest one, or at once before the first. */
  lemma {:induction false} LinkCheckIsDue(c: GateSettings, start: Gate, startNs: int, events: seq<Event>, states: seq<Gate>, k: nat)
    returns (m: nat)
    requires IsRun(c, start, startNs, events, states) && k <= |events|
    ensures states[k].nextLinkCheckNs != startNs ==>
              m < k && Refreshes(states[m], events[m]) && states[k].nextLinkCheckNs == events[m].nowNs + c.linkRecheckNs
  {
    hide Passes, RefreshedLink;
    m := 0;
    if k > 0 {
      if events[k - 1].action.GateBlock? && ChecksLink(states[k - 1], events[k - 1].nowNs) {
        m := k - 1;
      } else {
        m := LinkCheckIsDue(c, start, startNs, events, states, k - 1);
      }
    }
  }

  lemma NoReasonsMeansAcceptable(c: GateSettings, link: LinkInfo)
    requires RefreshedLink(c, link) == []
    ensures c.peerConfigured && LinkAcceptable(c.gate, link)
  {
    hide LinkReasons, LinkAcceptable;
    assert !LinkAcceptable(c.gate, UNKNOWN_LINK) by { UnknownIsUnacceptable(c.gate); }
    LinkReasonsEmptyIff(c.gate, link);
    LinkReasonsEmptyIff(c.gate, UNKNOWN_LINK);
  }

  lemma UnknownIsUnacceptable(config: GateConfig)
    ensures !LinkAcceptable(config, UNKNOWN_LINK)
  {
  }

  /** The refresh behind a passed decision. */
  lemma DecisionRestsOnLook(c: GateSettings, start: Gate, startNs: int, events: seq<Event>, states: seq<Gate>, d: nat) returns (m: nat)
    requires IsRun(c, start, startNs, events, states) && d < |events|
    requires Evaluates(states[d], events[d]) && EvaluationPasses(c, states[d], events[d])
    ensures m <= d && Refreshes(states[m], events[m]) && RefreshedLink(c, LinkSeen(events[m].action)) == []
    ensures events[d].nowNs - events[m].nowNs <= c.linkRecheckNs
  {
    hide RefreshedLink;
    m := d;
    if !Refreshes(states[d], events[d]) {
      var m0 := LinkCheckIsDue(c, start, startNs, events, states, d);
      m := LinkIsOfLatestRefresh(c, start, startNs, events, states, m0, d);
    }
  }

  /**
   After every gate block that leaves the request standing, some step looked at the interface less than
   a re-check period and 100 ms before, and found it acceptable: a `bilateral_enable` with commands
   enabled, or a block with the request standing.
   */
  lemma LinkWasLookedAt(c: GateSettings, start: Gate, startNs: int, events: seq<Event>, states: seq<Gate>, k: nat) returns (m: nat)
    requires IsRun(c, start, startNs, events, states) && k < |events|
    requires events[k].action.GateBlock? && states[k + 1].requested
    ensures m <= k && (if events[m].action.BilateralEnable? then states[m].commandEnabled
                       else events[m].action.GateBlock? && states[m].requested)
    ensures c.peerConfigured && LinkAcceptable(c.gate, events[m].action.around.link)
    ensures events[k].nowNs - events[m].nowNs < c.linkRecheckNs + 100_000_000
  {
    hide Passes, RefreshedLink, EvaluationPasses, Evaluates;
    var d, _ := ContinuousGating(c, start, startNs, events, states, k);
    m := DecisionRestsOnLook(c, start, startNs, events, states, d);
    NoReasonsMeansAcceptable(c, events[m].action.around.link);
  }

  // ---------------------------------------------------------------- what the handlers do not do

  /** A refusal before the loop's next check leaves the request standing through the block. */
  lemma RefusalKeepsRequest(c: GateSettings, g: Gate, around: Surroundings, nowNs: int)
    requires g.requested && IsRefusal(c, g, Event(BilateralEnable(around), nowNs)) && nowNs < g.nextGateCheckNs
    ensures var refused := Next(c, g, BilateralEnable(around), nowNs);
            Next(c, refused, GateBlock(around), nowNs).requested
  {
    hide Passes, RefreshedLink;
  }

  /** A failed `bilateral_enable` is the latest evaluation after the next block, and the request stands. */
  predicate GatingBreaks(c: GateSettings, g: Gate, around: Surroundings, enableNs: int, next: Surroundings, blockNs: int) {
    var enable, block := Event(BilateralEnable(around), enableNs), Event(GateBlock(next), blockNs);
    var between := Next(c, g, enable.action, enableNs);
    && enableNs <= blockNs
    && IsRefusal(c, g, enable) && !Evaluates(between, block)
    && Next(c, between, block.action, blockNs).requested
  }

  /**
   A `bilateral_enable` can break the gating exactly when it is made with the request standing, commands
   enabled and the loop's next check not yet due: conditions known before the call.
   */
  lemma EnableBreaksGatingIff(c: GateSettings, g: Gate, enableNs: int)
    ensures (exists around, next, blockNs :: GatingBreaks(c, g, around, enableNs, next, blockNs))
            <==> g.requested && g.commandEnabled && enableNs < g.nextGateCheckNs
  {
    hide Passes, RefreshedLink;
    if g.requested && g.commandEnabled && enableNs < g.nextGateCheckNs {
      var nothing := Reading(None, StatsOf(UNUSED, 0, 0));
      var around := Surroundings(UNKNOWN_LINK, nothing, nothing);
      UnresolvedIsRefused(c, around);
      RefusalKeepsRequest(c, g, around, enableNs);
      assert GatingBreaks(c, g, around, enableNs, around, enableNs);
    }
  }

  lemma UnresolvedIsRefused(c: GateSettings, around: Surroundings)
    requires around.link == UNKNOWN_LINK
    ensures !Passes(c, RefreshedLink(c, around.link), around.right, around.left)
  {
    hide LinkReasons, FeedbackAcceptable;
    LinkReasonsEmptyIff(c.gate, UNKNOWN_LINK);
  }

  /** Clean feedback from `fb` on both arms, over a loopback link. */
  function CleanFeedback(fb: Feedback, link: LinkInfo): Surroundings {
    var reading := Reading(Some(fb), Stats(true, 0.0, Finite(500.0), 0.0, 1.0, 1.0, 1.0, 0.0, 500, 0));
    Surroundings(link, reading, reading)
  }

  const SOME_SETTINGS: GateSettings :=
    GateSettings(true, true, 5_000_000_000, GateConfig(false, true, 100, 100.0, 50.0, 20.0, 1.0, false))

  /** A run whose latest evaluation is a failure: the peer cannot be resolved at the second `bilateral_enable`. */
  lemma RefusalScenario(fb: Feedback) returns (events: seq<Event>, states: seq<Gate>)
    requires fb.header.estop == 0
    ensures IsRun(SOME_SETTINGS, Gate(true, false, true, [], 0, 0), 0, events, states)
    ensures |events| == 4 && events[3].action.GateBlock? && states[4].requested
    ensures LatestEvaluation(events, states, 2, 4) && !EvaluationPasses(SOME_SETTINGS, states[2], events[2])
  {
    hide FeedbackReasons, LinkReasons, FeedbackAcceptable;
    var good := CleanFeedback(fb, UNKNOWN_LINK.(resolved := true, isLoopback := true));
    var bad := CleanFeedback(fb, UNKNOWN_LINK);
    FirstRequestPasses(fb);
    UnresolvedIsRefused(SOME_SETTINGS, bad);
    var s0 := Gate(true, false, true, [], 0, 0);
    var s1 := Next(SOME_SETTINGS, s0, BilateralEnable(good), 0);
    var s2 := Next(SOME_SETTINGS, s1, GateBlock(good), 0);
    var s3 := Next(SOME_SETTINGS, s2, BilateralEnable(bad), 1);
    var s4 := Next(SOME_SETTINGS, s3, GateBlock(bad), 1);
    events := [Event(BilateralEnable(good), 0), Event(GateBlock(good), 0), Event(BilateralEnable(bad), 1), Event(GateBlock(bad), 1)];
    states := [s0, s1, s2, s3, s4];
  }

  lemma FirstRequestPasses(fb: Feedback)
    requires fb.header.estop == 0
    ensures var good := CleanFeedback(fb, UNKNOWN_LINK.(resolved := true, isLoopback := true));
            Passes(SOME_SETTINGS, RefreshedLink(SOME_SETTINGS, good.link), good.right, good.left)
  {
    hide LinkReasons;
    LinkReasonsEmptyIff(SOME_SETTINGS.gate, UNKNOWN_LINK.(resolved := true, isLoopback := true));
  }

  /** `shutdown` leaves the request standing; exactly the other disabling handlers clear it. */
  lemma OnlyShutdownKeepsRequest(c: GateSettings, g: Gate, a: Action, nowNs: int)
    requires g.requested && g.commandEnabled && !Next(c, g, a, nowNs).commandEnabled
    ensures Next(c, g, a, nowNs).requested <==> a.Shutdown?
  {
  }

  /** While the leader keeps running, a request stands only with commands enabled. */
  lemma {:induction false} RequestNeedsEnable(c: GateSettings, start: Gate, startNs: int, events: seq<Event>, states: seq<Gate>, k: nat)
    requires IsRun(c, start, startNs, events, states) && k < |states| && states[k].requested
    ensures states[k].keepRunning ==> states[k].commandEnabled
    ensures states[k].keepRunning ==> PacketMode(states[k]) == Packets.BILATERAL && PacketEnable(states[k]) == 1
  {
    hide Passes, RefreshedLink;
    if k > 0 && states[k - 1].requested {
      RequestNeedsEnable(c, start, startNs, events, states, k - 1);
    }
  }
}
