/** What a standing request says about the feedback samples themselves. */
module GateSamples {
  import opened FeedbackStateBuffer
  import opened GateVerdict
  import opened LeaderGate
  import opened LeaderGateRuns
  import opened Wrappers
  import BilateralGate
  import LinkRuns

  /** Where a reading of one arm comes from: the link when its newest packet was read, then when it was summed up, and the clock. */
  datatype Origin = Origin(latestAt: nat, statsAt: nat, timeNs: nat)

  /** The reading was taken from the run of a link, and the window it saw misleads no gate. */
  ghost predicate TakenFrom(r: Reading, links: seq<Link>, windowNs: nat, o: Origin) {
    && o.latestAt <= o.statsAt < |links|
    && links[o.statsAt].lastReceiveTimeNs <= o.timeNs
    && r.latest == (if links[o.latestAt].tracker.hasData then links[o.latestAt].latest else None)
    && r.stats == StatsOf(links[o.statsAt], windowNs, o.timeNs)
    && (r.latest.Some? ==> Trustworthy(InWindow(links[o.statsAt].log, o.timeNs, windowNs), r.latest.value))
  }

  /** The samples behind a reading are good enough. */
  ghost predicate SamplesAreGood(c: GateSettings, r: Reading, links: seq<Link>, windowNs: nat, o: Origin) {
    && o.statsAt < |links| && links[o.statsAt].lastReceiveTimeNs <= o.timeNs && r.latest.Some?
    && RawVerdict(c.gate, InWindow(links[o.statsAt].log, o.timeNs, windowNs), windowNs,
                  o.timeNs - links[o.statsAt].lastReceiveTimeNs, r.latest.value)
  }

  function Around(e: Event): Option<Surroundings> {
    match e.action
    case BilateralEnable(around) => Some(around)
    case GateBlock(around) => Some(around)
    case _ => None
  }

  /** Every evaluation reads the two links. */
  ghost predicate ReadsLinks(
    events: seq<Event>, right: seq<Link>, left: seq<Link>, windowNs: nat, rights: seq<Origin>, lefts: seq<Origin>)
  {
    && |rights| == |lefts| == |events|
    && forall k :: 0 <= k < |events| && Around(events[k]).Some? ==>
         && TakenFrom(Around(events[k]).value.right, right, windowNs, rights[k])
         && TakenFrom(Around(events[k]).value.left, left, windowNs, lefts[k])
  }

  /** An acceptable reading has good samples, and good samples are acceptable. */
  lemma AcceptableIffSamplesGood(c: GateSettings, r: Reading, links: seq<Link>, windowNs: nat, o: Origin)
    requires TakenFrom(r, links, windowNs, o)
    ensures BilateralGate.FeedbackAcceptable(c.gate, r.stats, r.latest) <==>
              links[o.statsAt].tracker.hasData && SamplesAreGood(c, r, links, windowNs, o)
  {
    hide StatsOf, RawVerdict, Trustworthy, InWindow;
    StatsHaveData(links[o.statsAt], windowNs, o.timeNs);
    if r.latest.Some? && links[o.statsAt].tracker.hasData {
      VerdictInRawTerms(c.gate, links[o.statsAt], windowNs, o.timeNs, r.latest.value);
    }
  }

  lemma StatsHaveData(l: Link, windowNs: nat, nowNs: nat)
    requires l.lastReceiveTimeNs <= nowNs
    ensures StatsOf(l, windowNs, nowNs).hasData == l.tracker.hasData
  {
  }

  /**
   While a request stands, both arms' raw samples were good enough at the latest decision of the gate,
   the feedback was on and nothing spoke against the link.
   */
  lemma RequestMeansGoodSamples(
    c: GateSettings, start: Gate, startNs: int, events: seq<Event>, states: seq<Gate>, k: nat,
    rightEvents: seq<LinkRuns.Event>, right: seq<Link>, leftEvents: seq<LinkRuns.Event>, left: seq<Link>,
    windowNs: nat, rights: seq<Origin>, lefts: seq<Origin>)
    returns (decision: nat)
    requires LeaderGateRuns.IsRun(c, start, startNs, events, states) && k <= |events| && states[k].requested
    requires LinkRuns.IsRun(rightEvents, right) && LinkRuns.IsRun(leftEvents, left)
    requires ReadsLinks(events, right, left, windowNs, rights, lefts)
    ensures LatestDecision(c, events, states, decision, k) && Around(events[decision]).Some?
    ensures SamplesAreGood(c, Around(events[decision]).value.right, right, windowNs, rights[decision])
    ensures SamplesAreGood(c, Around(events[decision]).value.left, left, windowNs, lefts[decision])
    ensures EvaluationPasses(c, states[decision], events[decision]) && c.feedbackEnabled
  {
    hide BilateralGate.FeedbackAcceptable, SamplesAreGood, TakenFrom, RefreshedLink, LinkReasonsAt, LinkRuns.IsRun;
    decision := RequestRestsOnDecision(c, start, startNs, events, states, k);
    var around := Around(events[decision]).value;
    TakenHere(events, right, left, windowNs, rights, lefts, decision);
    AcceptableIffSamplesGood(c, around.right, right, windowNs, rights[decision]);
    AcceptableIffSamplesGood(c, around.left, left, windowNs, lefts[decision]);
    hide LeaderGateRuns.IsRun, ReadsLinks;
    DecisionAccepts(c, states[decision], events[decision]);
  }

  lemma TakenHere(
    events: seq<Event>, right: seq<Link>, left: seq<Link>, windowNs: nat, rights: seq<Origin>, lefts: seq<Origin>, k: nat)
    requires ReadsLinks(events, right, left, windowNs, rights, lefts) && k < |events| && Around(events[k]).Some?
    ensures TakenFrom(Around(events[k]).value.right, right, windowNs, rights[k])
    ensures TakenFrom(Around(events[k]).value.left, left, windowNs, lefts[k])
  {
  }

  lemma DecisionAccepts(c: GateSettings, g: Gate, e: Event)
    requires Evaluates(g, e) && EvaluationPasses(c, g, e)
    ensures Around(e).Some? && c.feedbackEnabled
    ensures BilateralGate.FeedbackAcceptable(c.gate, Around(e).value.right.stats, Around(e).value.right.latest)
    ensures BilateralGate.FeedbackAcceptable(c.gate, Around(e).value.left.stats, Around(e).value.left.latest)
  {
    hide BilateralGate.FeedbackAcceptable;
  }
}
