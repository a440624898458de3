/** The follower's newest command of one arm, with receive timing and loss statistics. */
module TeleopStateBuffer {
  import opened Doubles
  import opened Durations
  import opened Wrappers
  import opened Packets
  import opened SequenceNumbers

  type Command = TeleopPacket<Double>

  const ALPHA: real := 0.1

  datatype BufferState = BufferState(
    tracker: Tracker,
    latest: Option<Command>,
    lastReceiveTimeNs: nat,
    averagePeriodMs: real,
    maxGapMs: real)

  const EMPTY: BufferState := BufferState(Tracker(false, 0, 0), None, 0, 0.0, 0.0)

  function Averaged(average: real, gapMs: real): real {
    if average == 0.0 then gapMs else ALPHA * gapMs + (1.0 - ALPHA) * average
  }

  /**
   A packet is always taken.  A number more than half the range away restarts the statistics; it is
   not rejected, whatever docs/protocol.md says of out-of-order packets.
   */
  function Updated(b: BufferState, packet: Command, nowNs: nat): BufferState {
    var seqNo := SeqNumber(packet.header);
    var tracker := Track(b.tracker, seqNo);
    if !b.tracker.hasData then BufferState(tracker, Some(packet), nowNs, b.averagePeriodMs, b.maxGapMs)
    else if IsRestart(b.tracker, seqNo) then BufferState(tracker, Some(packet), nowNs, 0.0, 0.0)
    else
      var gapMs := Ms(nowNs - b.lastReceiveTimeNs);
      BufferState(tracker, Some(packet), nowNs, Averaged(b.averagePeriodMs, gapMs),
                  if gapMs > b.maxGapMs then gapMs else b.maxGapMs)
  }

  ghost predicate Consistent(b: BufferState) {
    && (b.tracker.hasData <==> b.latest.Some?)
    && (b.latest.Some? ==> b.tracker.lastSeq == SeqNumber(b.latest.value.header))
    && 0.0 <= b.averagePeriodMs <= b.maxGapMs
  }

  /** The smoothed period stays between zero and the largest gap of the current sender. */
  lemma UpdateKeepsConsistent(b: BufferState, packet: Command, nowNs: nat)
    requires Consistent(b) && b.lastReceiveTimeNs <= nowNs
    ensures Consistent(Updated(b, packet, nowNs))
  {
    var gapMs := Ms(nowNs - b.lastReceiveTimeNs);
    assert gapMs >= 0.0;
  }

  class Buffer {
    var latestPacket: Option<Command>
    var hasData: bool
    var lastReceiveTimeNs: nat
    var lastSeq: uint32
    var lostPacketCount: uint32
    var averageReceivePeriodMs: real
    var maxReceiveGapMs: real

    function View(): BufferState
      reads this
    {
      BufferState(Tracker(hasData, lastSeq, lostPacketCount), latestPacket, lastReceiveTimeNs,
                  averageReceivePeriodMs, maxReceiveGapMs)
    }

    ghost predicate Valid()
      reads this
    {
      Consistent(View())
    }

    constructor ()
      ensures Valid() && View() == EMPTY
    {
      latestPacket, hasData, lastReceiveTimeNs, lastSeq, lostPacketCount := None, false, 0, 0, 0;
      averageReceivePeriodMs, maxReceiveGapMs := 0.0, 0.0;
    }

    /** Called under the buffer's lock, with the time read under that lock from a steady clock. */
    method Update(packet: Command, nowNs: nat)
      requires Valid() && lastReceiveTimeNs <= nowNs
      modifies this
      ensures Valid() && View() == Updated(old(View()), packet, nowNs)
    {
      UpdateKeepsConsistent(View(), packet, nowNs);
      hide Consistent, Minus, Plus, Ms, SeqNumber, Averaged;
      var seqNo := SeqNumber(packet.header);
      if hasData {
        var diff := Minus(seqNo, lastSeq);
        if diff > HALF_RANGE {
          hasData := false;
          averageReceivePeriodMs := 0.0;
          maxReceiveGapMs := 0.0;
        } else {
          if diff > 1 {
            lostPacketCount := Plus(lostPacketCount, diff - 1);
          }
          RecordGap(Ms(nowNs - lastReceiveTimeNs));
        }
      }
      latestPacket := Some(packet);
      lastSeq := seqNo;
      lastReceiveTimeNs := nowNs;
      hasData := true;
    }

    method RecordGap(gapMs: real)
      modifies this`maxReceiveGapMs, this`averageReceivePeriodMs
      ensures maxReceiveGapMs == if gapMs > old(maxReceiveGapMs) then gapMs else old(maxReceiveGapMs)
      ensures averageReceivePeriodMs == Averaged(old(averageReceivePeriodMs), gapMs)
    {
      if gapMs > maxReceiveGapMs {
        maxReceiveGapMs := gapMs;
      }
      if averageReceivePeriodMs == 0.0 {
        averageReceivePeriodMs := gapMs;
      } else {
        averageReceivePeriodMs := ALPHA * gapMs + (1.0 - ALPHA) * averageReceivePeriodMs;
      }
    }

    method GetLatest() returns (packet: Option<Command>)
      requires Valid()
      ensures packet == View().latest
    {
      packet := if hasData then latestPacket else None;
    }
  }

  // ---------------------------------------------------------------- runs

  /** The buffer after packets received at the given times. */
  function UpdatedAll(b: BufferState, packets: seq<Command>, times: seq<nat>): BufferState
    requires |packets| == |times|
  {
    var n := |packets| - 1;
    if packets == [] then b else Updated(UpdatedAll(b, packets[..n], times[..n]), packets[n], times[n])
  }

  function NumbersOf(packets: seq<Command>): (numbers: seq<uint32>)
    ensures |numbers| == |packets|
  {
    if packets == [] then []
    else NumbersOf(packets[..|packets| - 1]) + [SeqNumber(packets[|packets| - 1].header)]
  }

  lemma {:induction false} BufferTracksNumbers(b: BufferState, packets: seq<Command>, times: seq<nat>)
    requires |packets| == |times|
    ensures UpdatedAll(b, packets, times).tracker == TrackAll(b.tracker, NumbersOf(packets))
  {
    if packets != [] {
      var n := |packets| - 1;
      BufferTracksNumbers(b, packets[..n], times[..n]);
      assert NumbersOf(packets)[..n] == NumbersOf(packets[..n]);
    }
  }

  /** The loss counter equals the commands dropped between the first and the last one received. */
  lemma LossIsDropped(packets: seq<Command>, times: seq<nat>, first: nat, delivered: seq<nat>)
    requires |packets| == |times| && packets != []
    requires InOrder(delivered) && NumbersOf(packets) == Numbers(first, delivered)
    ensures UpdatedAll(EMPTY, packets, times).tracker.lost == |Missing(delivered)| % WRAP
  {
    assert |delivered| == |packets|;
    BufferTracksNumbers(EMPTY, packets, times);
    DroppedAreCounted(first, delivered, EMPTY.tracker);
  }

  /** The timing statistics are those of a buffer that has seen only one packet. */
  predicate StatisticsRestarted(b: BufferState) {
    b.averagePeriodMs == 0.0 && b.maxGapMs == 0.0
  }

  /**
   Every packet replaces the newest one, also one from the past, and is never rejected.  The statistics
   restart exactly when the number lies more than half the range ahead, that is behind; otherwise they
   are those of a start only while no time has passed between packets at all.
   */
  lemma BackwardJumpIsAccepted(b: BufferState, packet: Command, nowNs: nat)
    requires Consistent(b) && b.lastReceiveTimeNs <= nowNs
    ensures Updated(b, packet, nowNs).latest == Some(packet) && Updated(b, packet, nowNs).lastReceiveTimeNs == nowNs
    ensures b.tracker.hasData ==>
              var next, distance := Updated(b, packet, nowNs), Minus(SeqNumber(packet.header), b.tracker.lastSeq);
              && next.tracker == Tracker(true, SeqNumber(packet.header),
                                         if 1 < distance <= 0x7FFF_FFFF then Plus(b.tracker.lost, distance - 1) else b.tracker.lost)
              && (StatisticsRestarted(next) <==>
                    distance > 0x7FFF_FFFF || (StatisticsRestarted(b) && nowNs == b.lastReceiveTimeNs))
  {
    hide SeqNumber, Minus;
    assert Plus(b.tracker.lost, 0) == b.tracker.lost;
    var gapMs := Ms(nowNs - b.lastReceiveTimeNs);
    assert gapMs >= 0.0 && (gapMs == 0.0 <==> nowNs == b.lastReceiveTimeNs);
  }

  /**
   Between packets of one sender the largest gap is the larger of the old one and the new gap, and the
   period is smoothed by a tenth; the first gap starts it.
   */
  lemma StatisticsFollowGaps(b: BufferState, packet: Command, nowNs: nat)
    requires b.tracker.hasData && b.lastReceiveTimeNs <= nowNs
    requires (SeqNumber(packet.header) - b.tracker.lastSeq) % 0x1_0000_0000 <= 0x7FFF_FFFF
    ensures var next, gap := Updated(b, packet, nowNs), (nowNs - b.lastReceiveTimeNs) as real;
            && next.maxGapMs * 1_000_000.0 == (if gap > b.maxGapMs * 1_000_000.0 then gap else b.maxGapMs * 1_000_000.0)
            && next.averagePeriodMs * 1_000_000.0 ==
                 (if b.averagePeriodMs == 0.0 then gap else 0.1 * gap + 0.9 * (b.averagePeriodMs * 1_000_000.0))
  {
    hide SeqNumber, Ms;
  }

  /** The nearest of those jumps: the packet sent just before the newest one replaces it. */
  lemma PredecessorReplacesNewest(b: BufferState, packet: Command, nowNs: nat)
    requires Consistent(b) && b.latest.Some? && b.lastReceiveTimeNs <= nowNs
    requires SeqNumber(b.latest.value.header) == Plus(SeqNumber(packet.header), 1)
    ensures Updated(b, packet, nowNs).latest == Some(packet)
    ensures StatisticsRestarted(Updated(b, packet, nowNs))
  {
    hide SeqNumber, StatisticsRestarted;
    var n := SeqNumber(packet.header);
    PredecessorDistance(n);
    BackwardJumpIsAccepted(b, packet, nowNs);
  }

  lemma PredecessorDistance(n: uint32)
    ensures Minus(n, Plus(n, 1)) == WRAP - 1
  {
  }
}
