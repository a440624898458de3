/**
 The leader's link statistics of one arm.

 The source keeps a deque that every accepted packet prunes to the window.  Here it is proved to
 answer every snapshot as the full log would: all samples accepted since the last restart or reset,
 of which those inside the window count, however often pruning ran.
 */
module FeedbackStateBuffer {
  import opened Doubles
  import opened Durations
  import opened OrderStatistics
  import opened Packets
  import opened SequenceNumbers
  import opened Wrappers

  type Feedback = FeedbackPacket<Double>

  datatype Sample = Sample(recvTimeNs: nat, lostBefore: uint32, rttNs: nat, cmdHoldNs: nat)

  datatype Stats = Stats(
    hasData: bool,
    ageMs: real,
    rateHz: Double,
    lossPercent: real,
    rttP50Ms: real,
    rttP95Ms: real,
    rttMaxMs: real,
    cmdHoldP95Ms: real,
    receivedTotal: uint32,
    lostTotal: uint32)

  // ---------------------------------------------------------------- the link without pruning

  /** A stretch of packets from one start of the sender: the first and the last number taken. */
  datatype Epoch = Epoch(first: uint32, last: uint32)
  {
    function Span(): int {
      Minus(last, first) + 1
    }
  }

  function SpanSum(epochs: seq<Epoch>): int {
    if epochs == [] then 0 else SpanSum(epochs[..|epochs| - 1]) + epochs[|epochs| - 1].Span()
  }

  datatype Link = Link(
    tracker: Tracker,
    latest: Option<Feedback>,
    lastReceiveTimeNs: nat,
    receivedTotal: uint32,
    log: seq<Sample>,
    epochs: seq<Epoch>)

  const UNUSED: Link := Link(Tracker(false, 0, 0), None, 0, 0, [], [])

  predicate IsDuplicate(l: Link, packet: Feedback) {
    l.tracker.hasData && SeqNumber(packet.header) == l.tracker.lastSeq
  }

  function Extended(t: Tracker, epochs: seq<Epoch>, seqNo: uint32): (r: seq<Epoch>)
    ensures r != [] && r[|r| - 1].last == seqNo
  {
    if !t.hasData || IsRestart(t, seqNo) || epochs == [] then epochs + [Epoch(seqNo, seqNo)]
    else epochs[..|epochs| - 1] + [Epoch(epochs[|epochs| - 1].first, seqNo)]
  }

  function Arrived(l: Link, packet: Feedback, rttNs: nat, nowNs: nat): Link
  {
    var seqNo := SeqNumber(packet.header);
    if IsDuplicate(l, packet) then l
    else
      Link(Track(l.tracker, seqNo), Some(packet), nowNs, Plus(l.receivedTotal, 1),
           (if IsRestart(l.tracker, seqNo) then [] else l.log)
           + [Sample(nowNs, LostBefore(l.tracker, seqNo), rttNs, packet.cmdHoldNs as int)],
           Extended(l.tracker, l.epochs, seqNo))
  }

  function WasReset(l: Link): Link {
    l.(tracker := l.tracker.(hasData := false), log := [])
  }

  ghost predicate InTimeOrder(samples: seq<Sample>) {
    forall i, j :: 0 <= i < j < |samples| ==> samples[i].recvTimeNs <= samples[j].recvTimeNs
  }

  /** Samples are in time order, the open epoch ends at the last number, and no packet is unaccounted for. */
  ghost predicate Consistent(l: Link) {
    && (l.tracker.hasData ==> l.epochs != [] && l.epochs[|l.epochs| - 1].last == l.tracker.lastSeq)
    && (l.tracker.hasData ==> l.latest.Some? && SeqNumber(l.latest.value.header) == l.tracker.lastSeq)
    && InTimeOrder(l.log)
    && (forall s :: s in l.log ==> s.recvTimeNs <= l.lastReceiveTimeNs)
    && Conserved(l)
  }

  /** Packets received plus packets lost are the packets between the ends of each epoch, modulo 2^32. */
  ghost predicate Conserved(l: Link) {
    Plus(l.receivedTotal, l.tracker.lost) == SpanSum(l.epochs) % WRAP
  }

  lemma ArrivalKeepsConsistent(l: Link, packet: Feedback, rttNs: nat, nowNs: nat)
    requires Consistent(l) && l.lastReceiveTimeNs <= nowNs
    ensures Consistent(Arrived(l, packet, rttNs, nowNs))
  {
    hide Minus, Plus, Conserved, IsRestart, LostBefore;
    ArrivalConserves(l, packet, rttNs, nowNs);
  }

  lemma ArrivalConserves(l: Link, packet: Feedback, rttNs: nat, nowNs: nat)
    requires Consistent(l)
    ensures Conserved(Arrived(l, packet, rttNs, nowNs))
  {
    hide InTimeOrder, Plus, Minus, Track, LostBefore, IsRestart, Extended, SpanSum;
    if !IsDuplicate(l, packet) {
      TakenNumberConserves(l.tracker, l.epochs, l.receivedTotal, SeqNumber(packet.header));
    }
  }

  lemma TakenNumberConserves(t: Tracker, epochs: seq<Epoch>, received: uint32, seqNo: uint32)
    requires t.hasData ==> epochs != [] && epochs[|epochs| - 1].last == t.lastSeq && seqNo != t.lastSeq
    requires Plus(received, t.lost) == SpanSum(epochs) % WRAP
    ensures Plus(Plus(received, 1), Track(t, seqNo).lost) == SpanSum(Extended(t, epochs, seqNo)) % WRAP
  {
    hide Plus, Minus;
    var next, n := Extended(t, epochs, seqNo), |epochs| - 1;
    if !t.hasData || IsRestart(t, seqNo) {
      assert next[..|next| - 1] == epochs;
      SpanOfOne(seqNo);
      NewEpochConserves(received, t.lost, SpanSum(epochs));
    } else {
      assert next[..n] == epochs[..n];
      DistanceIsZeroIffSame(seqNo, t.lastSeq);
      GrownEpochConserves(received, t.lost, SpanSum(epochs[..n]), epochs[n].first, t.lastSeq, seqNo);
    }
  }

  lemma PlusZero(x: uint32)
    ensures Plus(x, 0) == x
  {
  }

  lemma SpanOfOne(seqNo: uint32)
    ensures Minus(seqNo, seqNo) == 0
  {
  }

  lemma DistanceIsZeroIffSame(a: uint32, b: uint32)
    ensures Minus(a, b) == 0 <==> a == b
  {
  }

  lemma NewEpochConserves(received: uint32, lost: uint32, sum: int)
    requires Plus(received, lost) == sum % WRAP
    ensures Plus(Plus(received, 1), Plus(lost, 0)) == (sum + 1) % WRAP
  {
    PlusMod(received + 1, lost);
    PlusMod(sum, 1);
    PlusMod(received + lost, 1);
  }

  lemma GrownEpochConserves(received: uint32, lost: uint32, sum: int, first: uint32, last: uint32, seqNo: uint32)
    requires Plus(received, lost) == (sum + (Minus(last, first) + 1)) % WRAP
    requires Minus(seqNo, last) != 0
    ensures var skipped := if Minus(seqNo, last) <= 1 then 0 else Minus(seqNo, last) - 1;
            Plus(Plus(received, 1), Plus(lost, skipped)) == (sum + (Minus(seqNo, first) + 1)) % WRAP
  {
    var skipped := Minus(seqNo, last) - 1;
    var q1 := Remainder(received + lost);
    var q2 := Remainder(last - first);
    var q3 := Remainder(sum + (Minus(last, first) + 1));
    var q4 := Remainder(seqNo - last);
    var q5 := Remainder(received + 1);
    var q6 := Remainder(lost + skipped);
    var q7 := Remainder(seqNo - first);
    SameRemainder(Plus(received, 1) + Plus(lost, skipped), sum + (Minus(seqNo, first) + 1),
                  q1 - q2 - q3 - q4 - q5 - q6 + q7);
  }

  lemma ResetKeepsConsistent(l: Link)
    requires Consistent(l)
    ensures Consistent(WasReset(l))
  {
  }

  // ---------------------------------------------------------------- statistics of a window

  /** The samples whose age is at most the window. */
  function InWindow(samples: seq<Sample>, nowNs: int, windowNs: nat): seq<Sample> {
    if samples == [] then []
    else
      var n := |samples| - 1;
      InWindow(samples[..n], nowNs, windowNs) + if nowNs - samples[n].recvTimeNs > windowNs then [] else [samples[n]]
  }

  function Received(window: seq<Sample>): uint32 {
    |window| % WRAP
  }

  /** Accumulated in 32 bits. */
  function LostIn(window: seq<Sample>): uint32 {
    if window == [] then 0 else Plus(LostIn(window[..|window| - 1]), window[|window| - 1].lostBefore)
  }

  function Rtts(window: seq<Sample>): seq<nat> {
    if window == [] then []
    else
      var n := |window| - 1;
      Rtts(window[..n]) + if window[n].rttNs > 0 then [window[n].rttNs] else []
  }

  function Holds(window: seq<Sample>): (r: seq<nat>)
    ensures |r| == |window|
  {
    if window == [] then [] else Holds(window[..|window| - 1]) + [window[|window| - 1].cmdHoldNs]
  }

  function LossPercent(received: uint32, lost: uint32): real {
    if Plus(received, lost) > 0 then 100.0 * lost as real / Plus(received, lost) as real else 0.0
  }

  function Rate(received: uint32, windowNs: nat): Double {
    Quotient(received as real, windowNs as real / 1_000_000_000.0)
  }

  function PercentileOr(v: seq<nat>, p: real, default: real): real
    requires 0.0 <= p <= 1.0
  {
    if v == [] then default else Percentile(v, p)
  }

  function MaximumOr(v: seq<nat>, default: real): real {
    if v == [] then default else Ms(Sorted(v)[|v| - 1])
  }

  /** What a snapshot at `nowNs` says about the link, computed from the full log. */
  function StatsOf(l: Link, windowNs: nat, nowNs: nat): Stats {
    if !l.tracker.hasData then
      Stats(false, -1.0, Zero(), 0.0, -1.0, -1.0, -1.0, -1.0, l.receivedTotal, l.tracker.lost)
    else
      var window := InWindow(l.log, nowNs, windowNs);
      Stats(true, Ms(nowNs - l.lastReceiveTimeNs), Rate(Received(window), windowNs),
            LossPercent(Received(window), LostIn(window)),
            PercentileOr(Rtts(window), 0.50, -1.0), PercentileOr(Rtts(window), 0.95, -1.0), MaximumOr(Rtts(window), -1.0),
            PercentileOr(Holds(window), 0.95, -1.0), l.receivedTotal, l.tracker.lost)
  }

  // ---------------------------------------------------------------- pruning

  /** `samples` is what pruning has left of `log`: a suffix, before which everything is past the window. */
  ghost predicate Prunes(samples: seq<Sample>, log: seq<Sample>, windowNs: nat, nowNs: int) {
    && |samples| <= |log|
    && samples == log[|log| - |samples|..]
    && forall i :: 0 <= i < |log| - |samples| ==> nowNs - log[i].recvTimeNs > windowNs
  }

  lemma {:induction false} WindowOfConcat(a: seq<Sample>, b: seq<Sample>, nowNs: int, windowNs: nat)
    ensures InWindow(a + b, nowNs, windowNs) == InWindow(a, nowNs, windowNs) + InWindow(b, nowNs, windowNs)
    decreases |b|
  {
    if b == [] {
      assert a + b == a;
    } else {
      var n := |b| - 1;
      WindowOfConcat(a, b[..n], nowNs, windowNs);
      assert (a + b)[..|a + b| - 1] == a + b[..n];
    }
  }

  lemma {:induction false} NothingInWindow(samples: seq<Sample>, nowNs: int, windowNs: nat)
    requires forall i :: 0 <= i < |samples| ==> nowNs - samples[i].recvTimeNs > windowNs
    ensures InWindow(samples, nowNs, windowNs) == []
  {
    if samples != [] {
      NothingInWindow(samples[..|samples| - 1], nowNs, windowNs);
    }
  }

  /** The pruned samples and the full log have the same window at every later time. */
  lemma PrunedWindow(samples: seq<Sample>, log: seq<Sample>, windowNs: nat, prunedNs: int, nowNs: int)
    requires Prunes(samples, log, windowNs, prunedNs) && prunedNs <= nowNs
    ensures InWindow(samples, nowNs, windowNs) == InWindow(log, nowNs, windowNs)
  {
    var dropped := log[..|log| - |samples|];
    assert log == dropped + samples;
    WindowOfConcat(dropped, samples, nowNs, windowNs);
    NothingInWindow(dropped, nowNs, windowNs);
  }

  lemma PrunesAfterArrival(samples: seq<Sample>, log: seq<Sample>, windowNs: nat, prunedNs: int, nowNs: int, sample: Sample)
    requires Prunes(samples, log, windowNs, prunedNs) && prunedNs <= nowNs
    ensures Prunes(samples + [sample], log + [sample], windowNs, nowNs)
  {
  }

  lemma PrunesAfterPop(samples: seq<Sample>, log: seq<Sample>, windowNs: nat, nowNs: int)
    requires Prunes(samples, log, windowNs, nowNs)
    requires samples != [] && nowNs - samples[0].recvTimeNs > windowNs
    ensures Prunes(samples[1..], log, windowNs, nowNs)
  {
    var k := |log| - |samples|;
    assert log[k] == samples[0];
  }

  lemma PrunedInOrder(samples: seq<Sample>, log: seq<Sample>, windowNs: nat, nowNs: int)
    requires Prunes(samples, log, windowNs, nowNs) && InTimeOrder(log)
    ensures InTimeOrder(samples)
  {
    var k := |log| - |samples|;
    forall i, j | 0 <= i < j < |samples| ensures samples[i].recvTimeNs <= samples[j].recvTimeNs {
      assert samples[i] == log[k + i] && samples[j] == log[k + j];
    }
  }

  // ---------------------------------------------------------------- the buffer

  class Buffer {
    const windowNs: nat
    var latest: Option<Feedback>
    var hasData: bool
    var lastReceiveTimeNs: nat
    var lastSeq: uint32
    var receivedTotal: uint32
    var lostTotal: uint32
    var samples: seq<Sample>
    /** The link as it would be had nothing been pruned. */
    ghost var full: Link

    ghost predicate Valid()
      reads this
    {
      && Consistent(full)
      && full.tracker == Tracker(hasData, lastSeq, lostTotal)
      && full.latest == latest && full.lastReceiveTimeNs == lastReceiveTimeNs && full.receivedTotal == receivedTotal
      && Prunes(samples, full.log, windowNs, lastReceiveTimeNs)
    }

    constructor (windowS: real)
      requires 0.0 <= windowS && windowS * 1_000_000_000.0 < 18_446_744_073_709_551_616.0
      ensures Valid() && full == UNUSED
      ensures windowNs == (windowS * 1_000_000_000.0).Floor
    {
      windowNs := (windowS * 1_000_000_000.0).Floor;
      latest, hasData, lastReceiveTimeNs, lastSeq := None, false, 0, 0;
      receivedTotal, lostTotal, samples, full := 0, 0, [], UNUSED;
    }

    /**
     Called under the buffer's lock, with the time read under that lock from a steady clock.  After a
     packet has been taken the deque holds exactly the window.
     */
    method Update(packet: Feedback, rttNs: nat, nowNs: nat)
      requires Valid() && lastReceiveTimeNs <= nowNs
      modifies this
      ensures Valid() && full == Arrived(old(full), packet, rttNs, nowNs)
      ensures !IsDuplicate(old(full), packet) ==> samples == InWindow(full.log, nowNs, windowNs)
    {
      ArrivalKeepsConsistent(full, packet, rttNs, nowNs);
      PlusZero(lostTotal);
      hide Consistent, Prunes, Minus, Plus, InTimeOrder, Extended, InWindow, SeqNumber;
      ghost var before, log := full, full.log;
      var lostBefore := 0;
      var seqNo := SeqNumber(packet.header);
      if hasData {
        var diff := Minus(seqNo, lastSeq);
        DistanceIsZeroIffSame(seqNo, lastSeq);
        if diff > HALF_RANGE {
          samples, log := [], [];
          PrunesNothing(windowNs, lastReceiveTimeNs);
        } else if diff == 0 {
          return;
        } else if diff > 1 {
          lostBefore := diff - 1;
          lostTotal := Plus(lostTotal, lostBefore);
        }
      }
      var sample := Sample(nowNs, lostBefore, rttNs, packet.cmdHoldNs as int);
      PrunesAfterArrival(samples, log, windowNs, lastReceiveTimeNs, nowNs, sample);
      assert lostBefore == LostBefore(before.tracker, seqNo);
      hide LostBefore, IsRestart;
      ghost var after := Arrived(before, packet, rttNs, nowNs);
      assert after.log == log + [sample];
      Take(packet, sample, after);
    }

    /** The packet becomes the newest one, its sample joins the deque, and the deque is trimmed. */
    method Take(packet: Feedback, sample: Sample, ghost after: Link)
      requires Consistent(after) && after.tracker == Tracker(true, SeqNumber(packet.header), lostTotal)
      requires after.latest == Some(packet) && after.lastReceiveTimeNs == sample.recvTimeNs
      requires after.receivedTotal == Plus(receivedTotal, 1)
      requires Prunes(samples + [sample], after.log, windowNs, sample.recvTimeNs)
      modifies this
      ensures Valid() && full == after
      ensures samples == InWindow(full.log, sample.recvTimeNs, windowNs)
    {
      hide Consistent, Prunes, Plus, InWindow, SeqNumber;
      latest := Some(packet);
      lastSeq := SeqNumber(packet.header);
      lastReceiveTimeNs := sample.recvTimeNs;
      hasData := true;
      receivedTotal := Plus(receivedTotal, 1);
      samples := samples + [sample];
      full := after;
      TrimLocked(sample.recvTimeNs);
    }

    method TrimLocked(nowNs: nat)
      requires Prunes(samples, full.log, windowNs, nowNs) && Consistent(full)
      modifies this`samples
      ensures Prunes(samples, full.log, windowNs, nowNs)
      ensures samples == InWindow(full.log, nowNs, windowNs)
    {
      while samples != [] && nowNs - samples[0].recvTimeNs > windowNs
        invariant Prunes(samples, full.log, windowNs, nowNs)
        decreases |samples|
      {
        PrunesAfterPop(samples, full.log, windowNs, nowNs);
        samples := samples[1..];
      }
      PrunedInOrder(samples, full.log, windowNs, nowNs);
      hide InTimeOrder, Prunes, Consistent;
      AllInWindow(samples, nowNs, windowNs);
      PrunedWindow(samples, full.log, windowNs, nowNs, nowNs);
    }

    method GetLatest() returns (packet: Option<Feedback>)
      requires Valid()
      ensures packet == if full.tracker.hasData then full.latest else None
    {
      packet := if hasData then latest else None;
    }

    /** The statistics accumulated over the deque are those of the full log. */
    method Snapshot(nowNs: nat) returns (s: Stats)
      requires Valid() && lastReceiveTimeNs <= nowNs
      ensures s == StatsOf(full, windowNs, nowNs)
    {
      PrunedWindow(samples, full.log, windowNs, lastReceiveTimeNs, nowNs);
      hide Consistent, Prunes, Plus, Percentile, Sorted, InWindow, Received, LostIn, Rtts, Holds;
      s := Stats(hasData, -1.0, Zero(), 0.0, -1.0, -1.0, -1.0, -1.0, receivedTotal, lostTotal);
      if !hasData {
        return;
      }
      s := s.(ageMs := Ms(nowNs - lastReceiveTimeNs));
      var received, lost, rtts, holds := Accumulate(nowNs);
      s := s.(rateHz := Rate(received, windowNs), lossPercent := LossPercent(received, lost));
      if rtts != [] {
        s := s.(rttP50Ms := Percentile(rtts, 0.50), rttP95Ms := Percentile(rtts, 0.95), rttMaxMs := Ms(Sorted(rtts)[|rtts| - 1]));
      }
      if holds != [] {
        s := s.(cmdHoldP95Ms := Percentile(holds, 0.95));
      }
    }

    /** The loop of a snapshot over the deque. */
    method Accumulate(nowNs: nat) returns (received: uint32, lost: uint32, rtts: seq<nat>, holds: seq<nat>)
      ensures var window := InWindow(samples, nowNs, windowNs);
              received == Received(window) && lost == LostIn(window) && rtts == Rtts(window) && holds == Holds(window)
    {
      hide Plus;
      received, lost, rtts, holds := 0, 0, [], [];
      for i := 0 to |samples|
        invariant var seen := InWindow(samples[..i], nowNs, windowNs);
                  received == Received(seen) && lost == LostIn(seen) && rtts == Rtts(seen) && holds == Holds(seen)
      {
        ghost var seen := InWindow(samples[..i], nowNs, windowNs);
        assert samples[..i + 1][..i] == samples[..i];
        if nowNs - samples[i].recvTimeNs > windowNs {
          assert InWindow(samples[..i + 1], nowNs, windowNs) == seen;
          continue;
        }
        assert InWindow(samples[..i + 1], nowNs, windowNs) == seen + [samples[i]];
        SampleCounts(seen, samples[i]);
        received := Plus(received, 1);
        lost := Plus(lost, samples[i].lostBefore);
        if samples[i].rttNs > 0 {
          rtts := rtts + [samples[i].rttNs];
        }
        holds := holds + [samples[i].cmdHoldNs];
      }
      assert samples[..|samples|] == samples;
    }

    method Reset()
      requires Valid()
      modifies this
      ensures Valid() && full == WasReset(old(full))
    {
      ResetKeepsConsistent(full);
      hide Consistent;
      hasData := false;
      samples := [];
      full := WasReset(full);
    }
  }

  lemma PrunesNothing(windowNs: nat, nowNs: int)
    ensures Prunes([], [], windowNs, nowNs)
  {
  }

  lemma SampleCounts(seen: seq<Sample>, sample: Sample)
    ensures Received(seen + [sample]) == Plus(Received(seen), 1)
    ensures LostIn(seen + [sample]) == Plus(LostIn(seen), sample.lostBefore)
    ensures Rtts(seen + [sample]) == Rtts(seen) + if sample.rttNs > 0 then [sample.rttNs] else []
    ensures Holds(seen + [sample]) == Holds(seen) + [sample.cmdHoldNs]
  {
    assert (seen + [sample])[..|seen|] == seen;
    PlusMod(|seen|, 1);
  }

  /** In time order, the first sample inside the window brings all the others with it. */
  lemma {:induction false} AllInWindow(samples: seq<Sample>, nowNs: int, windowNs: nat)
    requires InTimeOrder(samples) && (samples != [] ==> nowNs - samples[0].recvTimeNs <= windowNs)
    ensures InWindow(samples, nowNs, windowNs) == samples
    decreases |samples|
  {
    if samples != [] {
      var n := |samples| - 1;
      AllInWindow(samples[..n], nowNs, windowNs);
      assert samples[0].recvTimeNs <= samples[n].recvTimeNs;
    }
  }
}
