/** Sorting, ranks and the percentiles of the link statistics. */
module OrderStatistics {
  import opened Durations

  predicate IsSorted(v: seq<nat>) {
    forall i, j :: 0 <= i < j < |v| ==> v[i] <= v[j]
  }

  function Insert(x: nat, v: seq<nat>): (r: seq<nat>)
    ensures |r| == |v| + 1
  {
    if v == [] || x <= v[0] then [x] + v else [v[0]] + Insert(x, v[1..])
  }

  /** The rearrangement std::sort leaves behind. */
  function Sorted(v: seq<nat>): (r: seq<nat>)
    ensures |r| == |v|
  {
    if v == [] then [] else Insert(v[0], Sorted(v[1..]))
  }

  lemma ConsSorted(x: nat, v: seq<nat>)
    requires IsSorted(v) && forall y :: y in multiset(v) ==> x <= y
    ensures IsSorted([x] + v)
  {
    forall i, j | 0 <= i < j < |[x] + v| ensures ([x] + v)[i] <= ([x] + v)[j] {
      assert v[j - 1] in multiset(v);
    }
  }

  lemma TailSorted(v: seq<nat>)
    requires IsSorted(v) && v != []
    ensures IsSorted(v[1..]) && forall y :: y in multiset(v[1..]) ==> v[0] <= y
  {
    forall y | y in multiset(v[1..]) ensures v[0] <= y {
      var i :| 0 <= i < |v[1..]| && v[1..][i] == y;
    }
  }

  lemma {:induction false} InsertSorted(x: nat, v: seq<nat>)
    requires IsSorted(v)
    ensures IsSorted(Insert(x, v))
  {
    hide IsSorted;
    if v != [] {
      TailSorted(v);
      if x > v[0] {
        InsertSorted(x, v[1..]);
        InsertPermutes(x, v[1..]);
        ConsSorted(v[0], Insert(x, v[1..]));
      } else {
        assert v == [v[0]] + v[1..];
        ConsSorted(x, v);
      }
    } else {
      ConsSorted(x, v);
    }
  }

  lemma {:induction false} InsertPermutes(x: nat, v: seq<nat>)
    ensures multiset(Insert(x, v)) == multiset(v) + multiset{x}
  {
    if v != [] && x > v[0] {
      InsertPermutes(x, v[1..]);
      assert v == [v[0]] + v[1..];
    }
  }

  lemma {:induction false} SortedIsSorted(v: seq<nat>)
    ensures IsSorted(Sorted(v)) && multiset(Sorted(v)) == multiset(v)
  {
    if v != [] {
      SortedIsSorted(v[1..]);
      InsertSorted(v[0], Sorted(v[1..]));
      InsertPermutes(v[0], Sorted(v[1..]));
      assert v == [v[0]] + v[1..];
    }
  }

  // ---------------------------------------------------------------- counting

  /** A duration in nanoseconds against a limit in milliseconds. */
  predicate IsWithin(ns: nat, limitMs: real) {
    ns as real <= 1_000_000.0 * limitMs
  }

  /** How many of the durations are within the limit. */
  function CountWithin(v: seq<nat>, limitMs: real): nat {
    if v == [] then 0 else CountWithin(v[1..], limitMs) + if IsWithin(v[0], limitMs) then 1 else 0
  }

  lemma {:induction false} CountAppended(v: seq<nat>, x: nat, limitMs: real)
    ensures CountWithin(v + [x], limitMs) == CountWithin(v, limitMs) + if IsWithin(x, limitMs) then 1 else 0
  {
    hide IsWithin;
    if v == [] {
      assert v + [x] == [x] && [x][1..] == [];
    } else {
      CountAppended(v[1..], x, limitMs);
      assert (v + [x])[1..] == v[1..] + [x];
    }
  }

  lemma {:induction false} CountInserted(x: nat, v: seq<nat>, limitMs: real)
    ensures CountWithin(Insert(x, v), limitMs) == CountWithin([x] + v, limitMs)
  {
    hide IsWithin;
    assert ([x] + v)[1..] == v;
    if v != [] && x > v[0] {
      CountInserted(x, v[1..], limitMs);
      assert ([x] + v[1..])[1..] == v[1..];
      assert ([v[0]] + Insert(x, v[1..]))[1..] == Insert(x, v[1..]);
    } else {
      assert Insert(x, v) == [x] + v;
    }
  }

  lemma {:induction false} CountSorted(v: seq<nat>, limitMs: real)
    ensures CountWithin(Sorted(v), limitMs) == CountWithin(v, limitMs)
  {
    hide IsWithin;
    if v != [] {
      CountSorted(v[1..], limitMs);
      CountInserted(v[0], Sorted(v[1..]), limitMs);
      assert ([v[0]] + Sorted(v[1..]))[1..] == Sorted(v[1..]);
    }
  }

  /** In a sorted sequence the element at `k` is within the limit iff more than `k` elements are. */
  lemma {:induction false} SortedElementWithin(v: seq<nat>, k: nat, limitMs: real)
    requires IsSorted(v) && k < |v|
    ensures IsWithin(v[k], limitMs) <==> CountWithin(v, limitMs) >= k + 1
  {
    if !IsWithin(v[0], limitMs) {
      NoneWithin(v, limitMs);
    } else if k > 0 {
      SortedElementWithin(v[1..], k - 1, limitMs);
    }
  }

  lemma {:induction false} NoneWithin(v: seq<nat>, limitMs: real)
    requires IsSorted(v) && (v != [] ==> !IsWithin(v[0], limitMs))
    ensures CountWithin(v, limitMs) == 0
  {
    if |v| > 1 {
      NoneWithin(v[1..], limitMs);
    } else if |v| == 1 {
      assert CountWithin(v[1..], limitMs) == 0;
    }
  }

  // ---------------------------------------------------------------- percentiles

  /** p * (n - 1) + 0.5, truncated. */
  function RawRank(n: nat, p: real): int
    requires n > 0
  {
    (p * (n - 1) as real + 0.5).Floor
  }

  function Percentile(v: seq<nat>, p: real): real
    requires v != [] && 0.0 <= p <= 1.0
  {
    RankBound(|v|, p);
    Ms(Sorted(v)[if RawRank(|v|, p) < |v| - 1 then RawRank(|v|, p) else |v| - 1])
  }

  lemma RankBound(n: nat, p: real)
    requires n > 0 && 0.0 <= p <= 1.0
    ensures 0 <= RawRank(n, p) <= n - 1
  {
    var m := (n - 1) as real;
    assert 0.0 <= p * m <= m;
  }

  /** A percentile is within the limit iff more samples than its rank are. */
  lemma PercentileWithin(v: seq<nat>, p: real, limitMs: real)
    requires v != [] && 0.0 <= p <= 1.0
    ensures Percentile(v, p) <= limitMs <==> CountWithin(v, limitMs) >= RawRank(|v|, p) + 1
  {
    hide Ms, RawRank, Sorted, CountWithin, IsSorted;
    RankBound(|v|, p);
    SortedIsSorted(v);
    CountSorted(v, limitMs);
    SortedElementWithin(Sorted(v), RawRank(|v|, p), limitMs);
    MsAtMost(Sorted(v)[RawRank(|v|, p)], limitMs);
  }

  /** The last of the sorted durations bounds them all and is one of them. */
  lemma LastIsMaximum(v: seq<nat>)
    requires v != []
    ensures var max := Sorted(v)[|v| - 1];
            max in v && forall x :: x in v ==> x <= max
  {
    SortedIsSorted(v);
    var s := Sorted(v);
    assert s[|v| - 1] in multiset(v);
    forall x | x in v ensures x <= s[|v| - 1] {
      assert x in multiset(s);
      var i :| 0 <= i < |s| && s[i] == x;
    }
  }
}
