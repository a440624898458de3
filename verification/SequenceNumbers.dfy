/**
 Running numbers that wrap at 2^32, and how a receiver counts the packets it missed.

 Both state buffers judge a packet by the distance, modulo 2^32, from the last number they took: more
 than half the range is a restarted sender, otherwise every number skipped is a lost packet.
 */
module SequenceNumbers {

  const WRAP: int := 0x1_0000_0000
  const HALF_RANGE: int := 0x7FFF_FFFF

  type uint32 = x: int | 0 <= x < WRAP

  function Plus(a: int, b: int): uint32 {
    (a + b) % WRAP
  }

  function Minus(a: int, b: int): uint32 {
    (a - b) % WRAP
  }

  datatype Tracker = Tracker(hasData: bool, lastSeq: uint32, lost: uint32)

  predicate IsRestart(t: Tracker, seqNo: uint32) {
    t.hasData && Minus(seqNo, t.lastSeq) > HALF_RANGE
  }

  /** Packets skipped between the last one taken and this one. */
  function LostBefore(t: Tracker, seqNo: uint32): uint32 {
    if !t.hasData || IsRestart(t, seqNo) || Minus(seqNo, t.lastSeq) <= 1 then 0
    else Minus(seqNo, t.lastSeq) - 1
  }

  function Track(t: Tracker, seqNo: uint32): Tracker {
    Tracker(true, seqNo, Plus(t.lost, LostBefore(t, seqNo)))
  }

  function TrackAll(t: Tracker, seqNos: seq<uint32>): Tracker {
    if seqNos == [] then t else Track(TrackAll(t, seqNos[..|seqNos| - 1]), seqNos[|seqNos| - 1])
  }

  // ---------------------------------------------------------------- what was really lost

  /** The number the sender gives its k-th packet, having started at `first`. */
  function NumberOf(first: nat, k: nat): uint32 {
    (first + k) % WRAP
  }

  function Numbers(first: nat, delivered: seq<nat>): (numbers: seq<uint32>)
    ensures |numbers| == |delivered|
  {
    seq(|delivered|, i requires 0 <= i < |delivered| => NumberOf(first, delivered[i]))
  }

  /** Packets delivered in sending order, possibly repeated, never skipping more than half the range. */
  ghost predicate InOrder(delivered: seq<nat>) {
    forall i :: 0 < i < |delivered| ==> 0 <= delivered[i] - delivered[i - 1] <= HALF_RANGE
  }

  /** The packets sent between the first and the last delivered one that were not delivered. */
  ghost function Missing(delivered: seq<nat>): set<nat>
    requires delivered != []
  {
    set k: nat | delivered[0] <= k <= delivered[|delivered| - 1] && k !in delivered
  }

  lemma DistanceOfNumbers(first: nat, j: nat, k: nat)
    requires j <= k <= j + HALF_RANGE
    ensures Minus(NumberOf(first, k), NumberOf(first, j)) == k - j
  {
    var a, b := (first + k) / WRAP, (first + j) / WRAP;
    assert NumberOf(first, k) - NumberOf(first, j) == (k - j) - WRAP * (a - b);
    ModuloShift(k - j, a - b);
  }

  lemma ModuloShift(d: int, q: int)
    requires 0 <= d < WRAP
    ensures (d - WRAP * q) % WRAP == d
  {
  }

  /** A remainder is its number less a multiple of the modulus. */
  lemma Remainder(a: int) returns (q: int)
    ensures a % WRAP == a - WRAP * q
  {
    q := a / WRAP;
  }

  lemma {:induction false} SameRemainder(a: int, b: int, q: int)
    requires a == b + WRAP * q
    ensures a % WRAP == b % WRAP
    decreases if q < 0 then -q else q
  {
    if q > 0 {
      SameRemainder(a - WRAP, b, q - 1);
    } else if q < 0 {
      SameRemainder(a + WRAP, b, q + 1);
    }
  }

  lemma PlusMod(a: int, b: int)
    ensures Plus(a % WRAP, b) == (a + b) % WRAP
  {
  }

  /** The numbers from `lo` up to but not including `hi`. */
  ghost function Between(lo: nat, hi: nat): (s: set<nat>)
    ensures forall k: nat :: k in s <==> lo <= k < hi
    ensures |s| == if lo <= hi then hi - lo else 0
    decreases hi
  {
    if lo >= hi then {} else Between(lo, hi - 1) + {hi - 1}
  }

  lemma {:induction false} OrderedBelowLast(delivered: seq<nat>, i: nat)
    requires InOrder(delivered) && i < |delivered|
    ensures delivered[i] <= delivered[|delivered| - 1]
    decreases |delivered| - i
  {
    if i < |delivered| - 1 {
      OrderedBelowLast(delivered, i + 1);
    }
  }

  lemma NothingBeyondLast(delivered: seq<nat>)
    requires InOrder(delivered) && delivered != []
    ensures forall k :: k in delivered ==> k <= delivered[|delivered| - 1]
  {
    forall k | k in delivered ensures k <= delivered[|delivered| - 1] {
      var i :| 0 <= i < |delivered| && delivered[i] == k;
      OrderedBelowLast(delivered, i);
    }
  }

  lemma MissingGrows(front: seq<nat>, latest: nat)
    requires front != [] && InOrder(front + [latest])
    ensures InOrder(front)
    ensures var gap := latest - front[|front| - 1];
            |Missing(front + [latest])| == |Missing(front)| + if gap > 1 then gap - 1 else 0
  {
    var delivered, last := front + [latest], front[|front| - 1];
    assert InOrder(front) by {
      forall i | 0 < i < |front| ensures 0 <= front[i] - front[i - 1] <= HALF_RANGE {
        assert front[i] == delivered[i] && front[i - 1] == delivered[i - 1];
      }
    }
    assert 0 <= delivered[|front|] - delivered[|front| - 1];
    NothingBeyondLast(front);
    assert front[0] <= last by { assert front[0] in front; }
    MissingSplit(front, last, latest);
  }

  lemma MissingSplit(front: seq<nat>, last: nat, latest: nat)
    requires front != [] && last == front[|front| - 1] && front[0] <= last <= latest
    requires forall k :: k in front ==> k <= last
    ensures |Missing(front + [latest])| == |Missing(front)| + if latest - last > 1 then latest - last - 1 else 0
  {
    var delivered, gap := front + [latest], Between(last + 1, latest);
    forall k: nat
      ensures k in Missing(delivered) <==> k in Missing(front) + gap
    {
      assert k in delivered <==> k in front || k == latest;
      assert last in front && (latest in front ==> latest == last);
    }
    assert Missing(delivered) == Missing(front) + gap;
    assert Missing(front) !! gap;
  }

  lemma NothingMissing(delivered: seq<nat>)
    requires |delivered| == 1
    ensures Missing(delivered) == {}
  {
    assert delivered[0] in delivered;
  }

  /** In-order delivery counts exactly the packets that were dropped, modulo 2^32. */
  lemma {:induction false} DroppedAreCounted(first: nat, delivered: seq<nat>, t: Tracker)
    requires delivered != [] && InOrder(delivered) && !t.hasData
    ensures var end := TrackAll(t, Numbers(first, delivered));
            && end.hasData && end.lastSeq == NumberOf(first, delivered[|delivered| - 1])
            && end.lost == (t.lost + |Missing(delivered)|) % WRAP
    decreases |delivered|
  {
    hide Missing, Minus, NumberOf;
    var n := |delivered| - 1;
    var numbers, front := Numbers(first, delivered), delivered[..n];
    assert numbers[..n] == Numbers(first, front);
    if n == 0 {
      NothingMissing(delivered);
      assert TrackAll(t, numbers[..0]) == t;
    } else {
      DroppedAreCounted(first, front, t);
      assert delivered == front + [delivered[n]];
      MissingGrows(front, delivered[n]);
      DistanceOfNumbers(first, delivered[n - 1], delivered[n]);
      var gap := delivered[n] - delivered[n - 1];
      PlusMod(t.lost + |Missing(front)|, if gap > 1 then gap - 1 else 0);
    }
  }
}
