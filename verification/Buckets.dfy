/** Bucket bounds: sorting, and the two searches the histograms use. */
module Buckets {
  import opened Base
  import opened Proto

  ghost predicate Sorted(bounds: seq<Float>) {
    && (forall i :: 0 <= i < |bounds| ==> !bounds[i].NaN?)
    && forall i, j :: 0 <= i < j < |bounds| ==> bounds[i].AtMost(bounds[j])
  }

  /** The index of the first bound that is not below `v`; `|bounds|` if there is none. */
  function FirstAtLeast(bounds: seq<Float>, v: Float): (index: nat)
    ensures index <= |bounds|
    ensures forall i :: 0 <= i < index ==> bounds[i].Less(v)
    ensures index < |bounds| ==> !bounds[index].Less(v)
  {
    if bounds == [] then 0
    else if !bounds[0].Less(v) then 0
    else 1 + FirstAtLeast(bounds[1..], v)
  }

  lemma FirstAtLeastUnique(bounds: seq<Float>, v: Float, index: nat)
    requires index <= |bounds|
    requires forall i :: 0 <= i < index ==> bounds[i].Less(v)
    requires index < |bounds| ==> !bounds[index].Less(v)
    ensures FirstAtLeast(bounds, v) == index
  {
    var found := FirstAtLeast(bounds, v);
    assert !(found < index) && !(index < found);
  }

  /** `slice::partition_point` for `bound < value`, by bisection. */
  method PartitionPoint(bounds: seq<Float>, v: Float) returns (index: nat)
    requires Sorted(bounds)
    ensures index == FirstAtLeast(bounds, v)
  {
    var low, high := 0, |bounds|;
    while low < high
      invariant 0 <= low <= high <= |bounds|
      invariant forall i :: 0 <= i < low ==> bounds[i].Less(v)
      invariant forall i :: high <= i < |bounds| ==> !bounds[i].Less(v)
    {
      var middle := (low + high) / 2;
      if bounds[middle].Less(v) {
        assert forall i :: 0 <= i < middle ==> bounds[i].AtMost(bounds[middle]);
        low := middle + 1;
      } else {
        assert forall i :: middle < i < |bounds| ==> bounds[middle].AtMost(bounds[i]);
        high := middle;
      }
    }
    FirstAtLeastUnique(bounds, v, low);
    index := low;
  }

  /** The linear `find` for `bound >= value`; it picks the same bucket as the bisection. */
  method FindBucket(bounds: seq<Float>, v: Float) returns (index: Option<nat>)
    requires Sorted(bounds) && !v.NaN?
    ensures index == if FirstAtLeast(bounds, v) < |bounds| then Some(FirstAtLeast(bounds, v)) else None
  {
    for i := 0 to |bounds|
      invariant forall k :: 0 <= k < i ==> bounds[k].Less(v)
    {
      if v.AtMost(bounds[i]) {
        FirstAtLeastUnique(bounds, v, i);
        return Some(i);
      }
    }
    FirstAtLeastUnique(bounds, v, |bounds|);
    return None;
  }

  // ---- sorting the bounds ------------------------------------------------------------

  function Insert(bound: Float, sorted: seq<Float>): seq<Float> {
    if sorted == [] || bound.AtMost(sorted[0]) then [bound] + sorted
    else [sorted[0]] + Insert(bound, sorted[1..])
  }

  /** A stable ascending sort of bounds without NaN. */
  function Sort(bounds: seq<Float>): seq<Float> {
    if bounds == [] then [] else Insert(bounds[0], Sort(bounds[1..]))
  }

  lemma AtMostIsTotalOrder(a: Float, b: Float, c: Float)
    requires !a.NaN? && !b.NaN? && !c.NaN?
    ensures a.AtMost(b) || b.AtMost(a)
    ensures a.AtMost(b) && b.AtMost(c) ==> a.AtMost(c)
  {
  }

  lemma {:induction false} InsertKeeps(bound: Float, sorted: seq<Float>)
    ensures multiset(Insert(bound, sorted)) == multiset(sorted) + multiset{bound}
  {
    hide Float.AtMost;
    if sorted != [] && !bound.AtMost(sorted[0]) {
      InsertKeeps(bound, sorted[1..]);
      assert sorted == [sorted[0]] + sorted[1..];
    }
  }

  lemma {:induction false} InsertSorts(bound: Float, sorted: seq<Float>)
    requires Sorted(sorted) && !bound.NaN?
    ensures Sorted(Insert(bound, sorted))
  {
    hide Float.AtMost;
    if sorted == [] {
      assert Insert(bound, sorted) == [bound];
    } else if !bound.AtMost(sorted[0]) {
      var rest := Insert(bound, sorted[1..]);
      assert Sorted(sorted[1..]);
      InsertSorts(bound, sorted[1..]);
      InsertKeeps(bound, sorted[1..]);
      AtMostIsTotalOrder(bound, sorted[0], bound);
      forall k | 0 <= k < |rest| ensures sorted[0].AtMost(rest[k]) {
        assert rest[k] in multiset(rest);
        assert rest[k] == bound || rest[k] in sorted[1..];
      }
      SmallestFirst(sorted[0], rest);
    } else {
      forall k | 0 <= k < |sorted| ensures bound.AtMost(sorted[k]) {
        AtMostIsTotalOrder(bound, sorted[0], sorted[k]);
      }
      SmallestFirst(bound, sorted);
    }
  }

  lemma SmallestFirst(bound: Float, sorted: seq<Float>)
    requires Sorted(sorted) && !bound.NaN? && forall k :: 0 <= k < |sorted| ==> bound.AtMost(sorted[k])
    ensures Sorted([bound] + sorted)
  {
    hide Float.AtMost;
  }

  lemma NothingIsSorted()
    ensures Sorted([])
  {
  }

  lemma {:induction false} SortSorts(bounds: seq<Float>)
    requires forall i :: 0 <= i < |bounds| ==> !bounds[i].NaN?
    ensures Sorted(Sort(bounds)) && multiset(Sort(bounds)) == multiset(bounds)
    ensures |Sort(bounds)| == |bounds|
  {
    hide Sorted, Insert, Float.AtMost;
    if bounds == [] {
      NothingIsSorted();
    } else {
      SortSorts(bounds[1..]);
      InsertSorts(bounds[0], Sort(bounds[1..]));
      InsertKeeps(bounds[0], Sort(bounds[1..]));
      assert bounds == [bounds[0]] + bounds[1..];
    }
    assert |multiset(Sort(bounds))| == |Sort(bounds)|;
  }

  // ---- counting ---------------------------------------------------------------------------

  /** How many observations fall into bucket `i`. */
  function InBucket(bounds: seq<Float>, i: nat, observed: seq<Float>): nat {
    if observed == [] then 0
    else
      var last := observed[|observed| - 1];
      InBucket(bounds, i, observed[..|observed| - 1]) + if !last.NaN? && FirstAtLeast(bounds, last) == i then 1 else 0
  }

  lemma InBucketAppend(bounds: seq<Float>, i: nat, observed: seq<Float>, v: Float)
    ensures InBucket(bounds, i, observed + [v])
         == InBucket(bounds, i, observed) + if !v.NaN? && FirstAtLeast(bounds, v) == i then 1 else 0
  {
    assert (observed + [v])[..|observed|] == observed;
  }

  lemma {:induction false} InBucketBounded(bounds: seq<Float>, i: nat, observed: seq<Float>)
    ensures InBucket(bounds, i, observed) <= |observed|
  {
    if observed != [] {
      InBucketBounded(bounds, i, observed[..|observed| - 1]);
    }
  }

  /** How many observations are numbers at most `bound`. */
  function CountAtMost(bound: Float, observed: seq<Float>): (n: nat)
    ensures n <= |observed|
  {
    if observed == [] then 0
    else CountAtMost(bound, observed[..|observed| - 1]) + if observed[|observed| - 1].AtMost(bound) then 1 else 0
  }

  lemma {:induction false} CountAtMostIs(bound: Float, observed: seq<Float>)
    ensures CountAtMost(bound, observed) == |set i: nat | i < |observed| && observed[i].AtMost(bound)|
  {
    hide Float.AtMost;
    var all := set i: nat | i < |observed| && observed[i].AtMost(bound);
    if observed == [] {
      assert all == {};
    } else {
      var n := |observed| - 1;
      CountAtMostIs(bound, observed[..n]);
      var before := set i: nat | i < n && observed[..n][i].AtMost(bound);
      assert forall i: nat :: i in before <==> i < n && observed[i].AtMost(bound);
      CountedNext(before, all, n, observed[n].AtMost(bound));
    }
  }

  function InBuckets(bounds: seq<Float>, upTo: nat, observed: seq<Float>): nat {
    if upTo == 0 then 0 else InBuckets(bounds, upTo - 1, observed) + InBucket(bounds, upTo - 1, observed)
  }

  lemma {:induction false} InBucketsStep(bounds: seq<Float>, upTo: nat, observed: seq<Float>)
    requires observed != []
    ensures InBuckets(bounds, upTo, observed)
         == InBuckets(bounds, upTo, observed[..|observed| - 1])
            + if !observed[|observed| - 1].NaN? && FirstAtLeast(bounds, observed[|observed| - 1]) < upTo then 1 else 0
  {
    if upTo > 0 {
      InBucketsStep(bounds, upTo - 1, observed);
    }
  }

  lemma {:induction false} NothingInBuckets(bounds: seq<Float>, upTo: nat)
    ensures InBuckets(bounds, upTo, []) == 0
  {
    if upTo > 0 {
      NothingInBuckets(bounds, upTo - 1);
    }
  }

  lemma AtMostIffFirst(bounds: seq<Float>, i: nat, v: Float)
    requires Sorted(bounds) && i < |bounds| && !v.NaN?
    ensures v.AtMost(bounds[i]) <==> FirstAtLeast(bounds, v) <= i
  {
    var first := FirstAtLeast(bounds, v);
    if first < i {
      assert bounds[first].AtMost(bounds[i]);
    }
  }

  /** Buckets up to a bound hold exactly the observations at most that bound, also when bounds repeat. */
  lemma {:induction false} CumulativeIsCountAtMost(bounds: seq<Float>, i: nat, observed: seq<Float>)
    requires Sorted(bounds) && i < |bounds|
    ensures InBuckets(bounds, i + 1, observed) == CountAtMost(bounds[i], observed)
  {
    hide FirstAtLeast;
    if observed == [] {
      NothingInBuckets(bounds, i + 1);
    } else {
      var last := observed[|observed| - 1];
      CumulativeIsCountAtMost(bounds, i, observed[..|observed| - 1]);
      InBucketsStep(bounds, i + 1, observed);
      if !last.NaN? {
        AtMostIffFirst(bounds, i, last);
      }
    }
  }

  lemma {:induction false} CountAtMostMonotone(a: Float, b: Float, observed: seq<Float>)
    requires a.AtMost(b)
    ensures CountAtMost(a, observed) <= CountAtMost(b, observed)
  {
    if observed != [] {
      CountAtMostMonotone(a, b, observed[..|observed| - 1]);
    }
  }

  /** The numbers an `f64` histogram can place: neither NaN nor +infinity. */
  function CountPlaceable(observed: seq<Float>): nat {
    if observed == [] then 0
    else CountPlaceable(observed[..|observed| - 1])
         + if observed[|observed| - 1].NaN? || observed[|observed| - 1].PosInf? then 0 else 1
  }

  lemma {:induction false} AtMostMaxIsPlaceable(observed: seq<Float>)
    requires forall i :: 0 <= i < |observed| ==> IsF64(observed[i])
    ensures CountAtMost(F64_MAX, observed) == CountPlaceable(observed)
  {
    if observed != [] {
      AtMostMaxIsPlaceable(observed[..|observed| - 1]);
      assert IsF64(observed[|observed| - 1]);
    }
  }
}
