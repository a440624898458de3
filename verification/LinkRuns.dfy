/** What the leader's link counters say after any run of arrivals and resets. */
module LinkRuns {
  import opened FeedbackStateBuffer
  import opened Packets
  import opened SequenceNumbers
  import opened Wrappers

  datatype Event =
    | Arrive(packet: Feedback, rttNs: nat, nowNs: nat)
    | ResetLink

  function Next(l: Link, e: Event): Link {
    match e
    case Arrive(packet, rttNs, nowNs) => Arrived(l, packet, rttNs, nowNs)
    case ResetLink => WasReset(l)
  }

  /** Arrivals do not go back in time. */
  ghost predicate IsRun(events: seq<Event>, links: seq<Link>) {
    && |links| == |events| + 1
    && links[0] == UNUSED
    && forall k :: 0 <= k < |events| ==>
         && links[k + 1] == Next(links[k], events[k])
         && (events[k].Arrive? ==> links[k].lastReceiveTimeNs <= events[k].nowNs)
  }

  lemma {:induction false} RunIsConsistent(events: seq<Event>, links: seq<Link>, k: nat)
    requires IsRun(events, links) && k < |links|
    ensures Consistent(links[k])
  {
    hide Consistent, Arrived;
    if k == 0 {
      UnusedIsConsistent();
    } else {
      RunIsConsistent(events, links, k - 1);
      match events[k - 1] {
        case Arrive(packet, rttNs, nowNs) => ArrivalKeepsConsistent(links[k - 1], packet, rttNs, nowNs);
        case ResetLink => ResetKeepsConsistent(links[k - 1]);
      }
    }
  }

  lemma UnusedIsConsistent()
    ensures Consistent(UNUSED)
  {
  }

  /**
   However senders restart, packets repeat and the buffer is reset: received plus lost packets are
   the lengths of all epochs together, modulo 2^32.
   */
  lemma NoPacketUnaccounted(events: seq<Event>, links: seq<Link>, k: nat)
    requires IsRun(events, links) && k < |links|
    ensures (links[k].receivedTotal + links[k].tracker.lost) % WRAP == SpanSum(links[k].epochs) % WRAP
  {
    RunIsConsistent(events, links, k);
  }

  // ---------------------------------------------------------------- what a packet does to the link

  /** The distance from the last number taken, modulo 2^32. */
  function Ahead(l: Link, packet: Feedback): int {
    (SeqNumber(packet.header) - l.tracker.lastSeq) % 0x1_0000_0000
  }

  /** The event brings a packet that is not a repetition of the newest one. */
  predicate Takes(l: Link, e: Event) {
    e.Arrive? && (!l.tracker.hasData || SeqNumber(e.packet.header) != l.tracker.lastSeq)
  }

  /** A repetition of the newest packet changes no statistic at any time, not even the age. */
  lemma RepetitionChangesNothing(l: Link, packet: Feedback, rttNs: nat, nowNs: nat, windowNs: nat, atNs: nat)
    requires l.tracker.hasData && SeqNumber(packet.header) == l.tracker.lastSeq
    ensures StatsOf(Arrived(l, packet, rttNs, nowNs), windowNs, atNs) == StatsOf(l, windowNs, atNs)
    ensures Arrived(l, packet, rttNs, nowNs) == l
  {
    hide StatsOf;
  }

  /**
   A packet that is taken adds its sample, carrying the time, the numbers skipped, the round trip and
   the hold time; one from more than half the range ahead starts the log over.
   */
  lemma TakenPacketIsLogged(l: Link, packet: Feedback, rttNs: nat, nowNs: nat)
    requires Takes(l, Arrive(packet, rttNs, nowNs))
    ensures var next := Arrived(l, packet, rttNs, nowNs);
            var restarted := l.tracker.hasData && Ahead(l, packet) > 0x7FFF_FFFF;
            var skipped := if l.tracker.hasData && 1 < Ahead(l, packet) <= 0x7FFF_FFFF then Ahead(l, packet) - 1 else 0;
            && next.log == (if restarted then [] else l.log) + [Sample(nowNs, skipped, rttNs, packet.cmdHoldNs as int)]
            && next.tracker.lost == (l.tracker.lost + skipped) % 0x1_0000_0000
            && next.latest == Some(packet)
  {
    hide SeqNumber;
  }

  /** The latest arrival before `k` that was taken. */
  ghost predicate LatestTaken(events: seq<Event>, links: seq<Link>, j: nat, k: nat)
    requires k <= |events| && |links| == |events| + 1
  {
    && j < k && Takes(links[j], events[j]) && events[j].Arrive?
    && forall m :: j < m < k ==> !Takes(links[m], events[m])
  }

  /** How many arrivals before `k` were taken. */
  ghost function TakenBefore(events: seq<Event>, links: seq<Link>, k: nat): nat
    requires k <= |events| && |links| == |events| + 1
  {
    if k == 0 then 0 else TakenBefore(events, links, k - 1) + if Takes(links[k - 1], events[k - 1]) then 1 else 0
  }

  lemma TakenStep(l: Link, e: Event)
    requires Takes(l, e)
    ensures var next := Next(l, e);
            && next.lastReceiveTimeNs == e.nowNs && next.latest == Some(e.packet)
            && next.tracker.lastSeq == SeqNumber(e.packet.header) && next.tracker.hasData
            && next.receivedTotal == Plus(l.receivedTotal, 1)
  {
    hide SeqNumber, Extended, Plus;
  }

  lemma UntakenStep(l: Link, e: Event)
    requires !Takes(l, e)
    ensures var next := Next(l, e);
            && next.lastReceiveTimeNs == l.lastReceiveTimeNs && next.latest == l.latest
            && next.tracker.lastSeq == l.tracker.lastSeq && next.receivedTotal == l.receivedTotal
            && next.tracker.hasData == (l.tracker.hasData && !e.ResetLink?)
  {
    hide SeqNumber;
  }

  /** What the newest packet of a link says if it is the one event `j` brought. */
  ghost predicate IsNewest(events: seq<Event>, links: seq<Link>, j: nat, k: nat)
    requires j < k <= |events| && |links| == |events| + 1 && events[j].Arrive?
  {
    && links[k].lastReceiveTimeNs == events[j].nowNs && links[k].latest == Some(events[j].packet)
    && links[k].tracker.lastSeq == SeqNumber(events[j].packet.header)
    && (links[k].tracker.hasData <==> forall m :: j < m < k ==> !events[m].ResetLink?)
  }

  /**
   The newest packet, its number and its receive time are those of the latest arrival taken, and there
   is data unless a reset came after it.
   */
  lemma {:induction false} NewestIsLatestTaken(events: seq<Event>, links: seq<Link>, j: nat, k: nat)
    requires IsRun(events, links) && k <= |events| && LatestTaken(events, links, j, k)
    ensures IsNewest(events, links, j, k)
    decreases k
  {
    hide SeqNumber, Next, Takes;
    if j == k - 1 {
      TakenStep(links[j], events[j]);
    } else {
      NewestIsLatestTaken(events, links, j, k - 1);
      UntakenStep(links[k - 1], events[k - 1]);
    }
  }

  /** Before any arrival is taken a link knows nothing. */
  lemma {:induction false} NothingTaken(events: seq<Event>, links: seq<Link>, k: nat)
    requires IsRun(events, links) && k <= |events| && forall m :: 0 <= m < k ==> !Takes(links[m], events[m])
    ensures !links[k].tracker.hasData && links[k].lastReceiveTimeNs == 0 && links[k].latest == None
  {
    hide SeqNumber, Next, Takes;
    if k > 0 {
      NothingTaken(events, links, k - 1);
      UntakenStep(links[k - 1], events[k - 1]);
    }
  }

  /** The packet counter counts the arrivals taken, modulo 2^32. */
  lemma {:induction false} ReceivedIsTaken(events: seq<Event>, links: seq<Link>, k: nat)
    requires IsRun(events, links) && k <= |events|
    ensures links[k].receivedTotal == TakenBefore(events, links, k) % 0x1_0000_0000
  {
    hide SeqNumber, Next, Takes, Plus;
    if k > 0 {
      ReceivedIsTaken(events, links, k - 1);
      if Takes(links[k - 1], events[k - 1]) {
        TakenStep(links[k - 1], events[k - 1]);
        OneMoreModulo(TakenBefore(events, links, k - 1));
      } else {
        UntakenStep(links[k - 1], events[k - 1]);
      }
    }
  }

  lemma OneMoreModulo(n: nat)
    ensures Plus(n % WRAP, 1) == (n + 1) % WRAP
  {
  }

  /** A reset forgets the samples and the newest packet, but no total. */
  lemma ResetForgetsSamples(l: Link)
    ensures var next := Next(l, ResetLink);
            && !next.tracker.hasData && next.log == []
            && next.receivedTotal == l.receivedTotal && next.tracker.lost == l.tracker.lost
  {
  }

  // ---------------------------------------------------------------- in-order delivery

  function ArrivedAll(l: Link, packets: seq<Feedback>, rtts: seq<nat>, times: seq<nat>): Link
    requires |packets| == |rtts| == |times|
  {
    var n := |packets| - 1;
    if packets == [] then l else Arrived(ArrivedAll(l, packets[..n], rtts[..n], times[..n]), packets[n], rtts[n], times[n])
  }

  function NumbersOf(packets: seq<Feedback>): (numbers: seq<uint32>)
    ensures |numbers| == |packets|
  {
    if packets == [] then []
    else NumbersOf(packets[..|packets| - 1]) + [SeqNumber(packets[|packets| - 1].header)]
  }

  lemma ArrivalTracksNumber(l: Link, packet: Feedback, rttNs: nat, nowNs: nat)
    ensures Arrived(l, packet, rttNs, nowNs).tracker == Track(l.tracker, SeqNumber(packet.header))
  {
  }

  lemma {:induction false} LinkTracksNumbers(l: Link, packets: seq<Feedback>, rtts: seq<nat>, times: seq<nat>)
    requires |packets| == |rtts| == |times|
    ensures ArrivedAll(l, packets, rtts, times).tracker == TrackAll(l.tracker, NumbersOf(packets))
  {
    hide Arrived, Track, SeqNumber;
    if packets != [] {
      var n := |packets| - 1;
      LinkTracksNumbers(l, packets[..n], rtts[..n], times[..n]);
      assert NumbersOf(packets)[..n] == NumbersOf(packets[..n]);
      ArrivalTracksNumber(ArrivedAll(l, packets[..n], rtts[..n], times[..n]), packets[n], rtts[n], times[n]);
    }
  }

  /** The loss counter equals the feedback packets dropped between the first and the last one received. */
  lemma LossIsDropped(packets: seq<Feedback>, rtts: seq<nat>, times: seq<nat>, first: nat, delivered: seq<nat>)
    requires |packets| == |rtts| == |times| && packets != []
    requires InOrder(delivered) && NumbersOf(packets) == Numbers(first, delivered)
    ensures ArrivedAll(UNUSED, packets, rtts, times).tracker.lost == |Missing(delivered)| % WRAP
  {
    hide Missing;
    assert |delivered| == |packets|;
    LinkTracksNumbers(UNUSED, packets, rtts, times);
    DroppedAreCounted(first, delivered, UNUSED.tracker);
  }
}
