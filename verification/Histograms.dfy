/** The classic histogram: observations into buckets, cumulative encoding, and what the text shows. */
module Histograms {
  import opened Base
  import opened Proto
  import opened Buckets
  import TextItems

  /** `f64` addition without rounding. */
  function AddFloat(a: Float, b: Float): Float {
    match (a, b)
    case (NaN, _) => NaN
    case (_, NaN) => NaN
    case (Finite(x), Finite(y)) => Finite(x + y)
    case (Finite(_), _) => b
    case (_, Finite(_)) => a
    case _ => if a == b then a else NaN
  }

  lemma FiniteSum(a: Float, b: Float)
    ensures a.Finite? && b.Finite? ==> AddFloat(a, b) == Finite(a.value + b.value)
  {
  }

  datatype Snapshot = Snapshot(sum: Float, count: nat, buckets: seq<(Float, nat)>)

  /** The snapshot of a histogram that saw `observed`: every counter wraps like a `u64`. */
  ghost predicate IsSnapshotOf(s: Snapshot, bounds: seq<Float>, observed: seq<Float>) {
    && s.count == Wrap(|observed|)
    && |s.buckets| == |bounds|
    && forall i :: 0 <= i < |bounds| ==> s.buckets[i] == (bounds[i], Wrap(InBucket(bounds, i, observed)))
  }

  ghost function TotalOf(observed: seq<Float>): Float {
    if observed == [] then ZERO else AddFloat(TotalOf(observed[..|observed| - 1]), observed[|observed| - 1])
  }

  // ---- the sum, without `f64` addition ---------------------------------------------------

  function RealSum(xs: seq<real>): real {
    if xs == [] then 0.0 else xs[0] + RealSum(xs[1..])
  }

  /** Splitting the numbers splits the sum. */
  lemma {:induction false} RealSumSplits(a: seq<real>, b: seq<real>)
    ensures RealSum(a + b) == RealSum(a) + RealSum(b)
    ensures forall x :: RealSum([x]) == x
  {
    if a == [] {
      assert a + b == b;
    } else {
      RealSumSplits(a[1..], b);
      assert (a + b)[1..] == a[1..] + b;
    }
  }

  lemma TakenOut(x: real, rest: seq<real>, before: seq<real>, after: seq<real>)
    requires multiset([x] + rest) == multiset(before + [x] + after)
    ensures multiset(rest) == multiset(before + after)
  {
    assert multiset([x] + rest) == multiset{x} + multiset(rest);
    assert multiset(before + [x] + after) == multiset(before) + multiset{x} + multiset(after);
    assert multiset(before + after) == multiset(before) + multiset(after);
    forall y ensures multiset(rest)[y] == multiset(before + after)[y] {
      assert multiset([x] + rest)[y] == multiset(before + [x] + after)[y];
    }
  }

  /** Their order does not matter. */
  lemma {:induction false} RealSumPermuted(a: seq<real>, b: seq<real>)
    requires multiset(a) == multiset(b)
    ensures RealSum(a) == RealSum(b)
  {
    if a == [] {
      assert |multiset(b)| == |b|;
    } else {
      var x, rest := a[0], a[1..];
      assert a == [x] + rest;
      assert x in multiset(b);
      var i :| 0 <= i < |b| && b[i] == x;
      var before, after := b[..i], b[i + 1..];
      assert b == before + [x] + after;
      TakenOut(x, rest, before, after);
      RealSumPermuted(rest, before + after);
      RealSumSplits(before + [x], after);
      RealSumSplits(before, [x]);
      RealSumSplits(before, after);
    }
  }

  function Reals(values: seq<Float>): (xs: seq<real>)
    requires forall i :: 0 <= i < |values| ==> values[i].Finite?
    ensures |xs| == |values| && forall i :: 0 <= i < |values| ==> values[i] == Finite(xs[i])
  {
    seq(|values|, i requires 0 <= i < |values| => values[i].value)
  }

  lemma {:induction false} FiniteTotal(observed: seq<Float>)
    requires forall i :: 0 <= i < |observed| ==> observed[i].Finite?
    ensures TotalOf(observed) == Finite(RealSum(Reals(observed)))
  {
    if observed != [] {
      var n := |observed| - 1;
      FiniteTotal(observed[..n]);
      assert Reals(observed) == Reals(observed[..n]) + [observed[n].value];
      RealSumSplits(Reals(observed[..n]), [observed[n].value]);
    }
  }

  lemma LastOrBefore(observed: seq<Float>, f: Float)
    requires observed != []
    ensures f in observed <==> f in observed[..|observed| - 1] || f == observed[|observed| - 1]
  {
    assert observed == observed[..|observed| - 1] + [observed[|observed| - 1]];
  }

  lemma {:induction false} TotalKind(observed: seq<Float>)
    ensures TotalOf(observed).NaN? <==> NaN in observed || (PosInf in observed && NegInf in observed)
    ensures TotalOf(observed).PosInf? <==> NaN !in observed && PosInf in observed && NegInf !in observed
    ensures TotalOf(observed).NegInf? <==> NaN !in observed && NegInf in observed && PosInf !in observed
  {
    if observed != [] {
      TotalKind(observed[..|observed| - 1]);
      LastOrBefore(observed, NaN);
      LastOrBefore(observed, PosInf);
      LastOrBefore(observed, NegInf);
    }
  }

  /** The sum is NaN after a NaN or both infinities, infinite after one of them, and finite otherwise. */
  lemma TotalIs(observed: seq<Float>)
    ensures TotalOf(observed).NaN? <==> NaN in observed || (PosInf in observed && NegInf in observed)
    ensures TotalOf(observed).PosInf? <==> NaN !in observed && PosInf in observed && NegInf !in observed
    ensures TotalOf(observed).NegInf? <==> NaN !in observed && NegInf in observed && PosInf !in observed
    ensures (forall i :: 0 <= i < |observed| ==> observed[i].Finite?) ==>
      TotalOf(observed) == Finite(RealSum(Reals(observed)))
  {
    hide TotalOf, RealSum;
    TotalKind(observed);
    if forall i :: 0 <= i < |observed| ==> observed[i].Finite? {
      FiniteTotal(observed);
    }
  }

  lemma PlacedSnapshot(s: Snapshot, bounds: seq<Float>, observed: seq<Float>, v: Float)
    requires IsSnapshotOf(s, bounds, observed) && !v.NaN? && FirstAtLeast(bounds, v) < |bounds|
    ensures |s.buckets| == |bounds| && forall i :: 0 <= i < |bounds| ==> s.buckets[i].0 == bounds[i]
    ensures var index := FirstAtLeast(bounds, v);
            var slot := (s.buckets[index].0, Wrap(s.buckets[index].1 + 1));
            IsSnapshotOf(Snapshot(s.sum, Wrap(s.count + 1), s.buckets[index := slot]), bounds, observed + [v])
  {
    hide Wrap, FirstAtLeast, InBucket;
    var index := FirstAtLeast(bounds, v);
    WrapAdd(|observed|, 1);
    WrapAdd(InBucket(bounds, index, observed), 1);
    forall i | 0 <= i < |bounds|
      ensures InBucket(bounds, i, observed + [v]) == InBucket(bounds, i, observed) + if i == index then 1 else 0
    {
      InBucketAppend(bounds, i, observed, v);
    }
  }

  lemma SameButSum(s: Snapshot, sum: Float, bounds: seq<Float>, observed: seq<Float>)
    requires IsSnapshotOf(s, bounds, observed)
    ensures IsSnapshotOf(s.(sum := sum), bounds, observed)
  {
  }

  /** A value that goes to no bucket only adds to the count. */
  lemma UnplacedSnapshot(s: Snapshot, bounds: seq<Float>, observed: seq<Float>, v: Float)
    requires IsSnapshotOf(s, bounds, observed) && (v.NaN? || FirstAtLeast(bounds, v) == |bounds|)
    ensures IsSnapshotOf(Snapshot(s.sum, Wrap(s.count + 1), s.buckets), bounds, observed + [v])
  {
    hide Wrap, FirstAtLeast, InBucket;
    WrapAdd(|observed|, 1);
    forall i | 0 <= i < |bounds| ensures InBucket(bounds, i, observed + [v]) == InBucket(bounds, i, observed) {
      InBucketAppend(bounds, i, observed, v);
    }
  }

  lemma TotalNext(observed: seq<Float>, v: Float)
    ensures TotalOf(observed + [v]) == AddFloat(TotalOf(observed), v)
  {
    assert (observed + [v])[..|observed|] == observed;
  }

  lemma SnapshotBounds(s: Snapshot, bounds: seq<Float>, observed: seq<Float>)
    requires IsSnapshotOf(s, bounds, observed)
    ensures |s.buckets| == |bounds| && forall i :: 0 <= i < |bounds| ==> s.buckets[i].0 == bounds[i]
  {
  }

  class HistogramCell {
    var sum: Float
    var count: nat
    var buckets: seq<(Float, nat)>
    ghost var bounds: seq<Float>
    ghost var observed: seq<Float>

    ghost predicate Valid()
      reads this
    {
      && Sorted(bounds)
      && F64_MAX in bounds
      && sum == TotalOf(observed)
      && IsSnapshotOf(Snapshot(sum, count, buckets), bounds, observed)
    }

    constructor (given: seq<Float>)
      requires forall i :: 0 <= i < |given| ==> !given[i].NaN?
      ensures Valid() && observed == [] && bounds == Sort(given + [F64_MAX])
    {
      SortSorts(given + [F64_MAX]);
      assert F64_MAX in multiset(given + [F64_MAX]);
      var sorted := Sort(given + [F64_MAX]);
      sum, count := ZERO, 0;
      buckets := seq(|sorted|, i requires 0 <= i < |sorted| => (sorted[i], 0));
      bounds, observed := sorted, [];
    }

    /** Returns the bucket the value went to; NaN and values above every bound go to none. */
    method ObserveAndBucket(value: Float) returns (bucket: Option<nat>)
      requires Valid()
      modifies this
      ensures Valid() && bounds == old(bounds) && observed == old(observed) + [value]
      ensures old(sum).Finite? && value.Finite? ==> sum == Finite(old(sum).value + value.value)
      ensures bucket == if value.NaN? || FirstAtLeast(bounds, value) == |bounds| then None
                        else Some(FirstAtLeast(bounds, value))
    {
      hide Wrap, FirstAtLeast, AddFloat, TotalOf, Sorted, IsSnapshotOf;
      ghost var before := Snapshot(sum, count, buckets);
      SnapshotBounds(before, bounds, observed);
      TotalNext(observed, value);
      FiniteSum(sum, value);
      sum := AddFloat(sum, value);
      count := Wrap(count + 1);
      if value.NaN? {
        UnplacedSnapshot(before, bounds, observed, value);
        SameButSum(Snapshot(before.sum, count, buckets), sum, bounds, observed + [value]);
        observed := observed + [value];
        return None;
      }
      var slots := buckets;
      var upperBounds := seq(|slots|, i requires 0 <= i < |slots| => slots[i].0);
      assert upperBounds == bounds;
      var index := PartitionPoint(upperBounds, value);
      if index < |buckets| {
        PlacedSnapshot(before, bounds, observed, value);
        buckets := buckets[index := (buckets[index].0, Wrap(buckets[index].1 + 1))];
        SameButSum(Snapshot(before.sum, count, buckets), sum, bounds, observed + [value]);
        observed := observed + [value];
        return Some(index);
      }
      UnplacedSnapshot(before, bounds, observed, value);
      SameButSum(Snapshot(before.sum, count, buckets), sum, bounds, observed + [value]);
      observed := observed + [value];
      return None;
    }

    method TakeSnapshot() returns (s: Snapshot)
      requires Valid()
      ensures s.sum == sum && IsSnapshotOf(s, bounds, observed)
    {
      s := Snapshot(sum, count, buckets);
    }
  }

  lemma NoneBefore(bounds: seq<Float>, observed: seq<Float>)
    ensures Wrap(InBuckets(bounds, 0, observed)) == 0
  {
  }

  lemma NextBucket(bounds: seq<Float>, i: nat, observed: seq<Float>)
    requires Sorted(bounds) && i < |bounds|
    ensures Wrap(Wrap(InBuckets(bounds, i, observed)) + Wrap(InBucket(bounds, i, observed)))
         == Wrap(InBuckets(bounds, i + 1, observed)) == Wrap(CountAtMost(bounds[i], observed))
  {
    hide Wrap, InBucket, CountAtMost, Sorted;
    WrapAdd(InBuckets(bounds, i, observed), InBucket(bounds, i, observed));
    CumulativeIsCountAtMost(bounds, i, observed);
  }

  /** A bucket that shows only its bound and how many observations are at most it. */
  ghost function Encoded(bound: Float, observed: seq<Float>): Bucket {
    Bucket(Some(Wrap(CountAtMost(bound, observed))), None, Some(bound), None)
  }

  lemma NextEncoded(s: Snapshot, bounds: seq<Float>, i: nat, observed: seq<Float>)
    requires Sorted(bounds) && IsSnapshotOf(s, bounds, observed) && i < |s.buckets|
    ensures i < |bounds|
    ensures var cumulative := Wrap(Wrap(InBuckets(bounds, i, observed)) + s.buckets[i].1);
            && cumulative == Wrap(InBuckets(bounds, i + 1, observed))
            && Bucket(Some(cumulative), None, Some(s.buckets[i].0), None) == Encoded(bounds[i], observed)
  {
    NextBucket(bounds, i, observed);
    hide Wrap, InBucket, CountAtMost, Sorted, InBuckets;
  }

  lemma AllEncoded(bounds: seq<Float>, observed: seq<Float>, buckets: seq<Bucket>)
    requires |buckets| == |bounds| && forall i :: 0 <= i < |bounds| ==> buckets[i] == Encoded(bounds[i], observed)
    ensures forall i :: 0 <= i < |bounds| ==>
      buckets[i] == Bucket(Some(Wrap(CountAtMost(bounds[i], observed))), None, Some(bounds[i]), None)
  {
    hide Wrap, CountAtMost;
  }

  lemma SnapshotCounts(s: Snapshot, bounds: seq<Float>, observed: seq<Float>)
    requires IsSnapshotOf(s, bounds, observed)
    ensures s.count == Wrap(|observed|) && |s.buckets| == |bounds|
  {
  }

  /** `encode_snapshot`: running cumulative counts, wrapping like a `u64`. */
  method EncodeSnapshot(s: Snapshot, ghost bounds: seq<Float>, ghost observed: seq<Float>) returns (h: Histogram)
    requires Sorted(bounds) && IsSnapshotOf(s, bounds, observed)
    ensures h.sampleCount == Some(Wrap(|observed|)) && h.sampleSum == Some(s.sum)
    ensures h.sampleCountFloat.None? && h.native == NO_NATIVE_BUCKETS && h.exemplars == []
    ensures |h.buckets| == |bounds|
    ensures forall i :: 0 <= i < |bounds| ==>
      h.buckets[i] == Bucket(Some(Wrap(CountAtMost(bounds[i], observed))), None, Some(bounds[i]), None)
  {
    NoneBefore(bounds, observed);
    SnapshotCounts(s, bounds, observed);
    hide Wrap, Sorted, InBuckets, IsSnapshotOf, Encoded;
    var cumulativeCount := 0;
    var buckets: seq<Bucket> := [];
    for i := 0 to |s.buckets|
      invariant cumulativeCount == Wrap(InBuckets(bounds, i, observed))
      invariant |buckets| == i && forall k :: 0 <= k < i ==> buckets[k] == Encoded(bounds[k], observed)
    {
      NextEncoded(s, bounds, i, observed);
      var (upperBound, count) := s.buckets[i];
      cumulativeCount := Wrap(cumulativeCount + count);
      buckets := buckets + [Bucket(Some(cumulativeCount), None, Some(upperBound), None)];
    }
    AllEncoded(bounds, observed, buckets);
    h := Histogram(Some(s.count), None, Some(s.sum), buckets, NO_NATIVE_BUCKETS, []);
  }

  // ---- end to end ------------------------------------------------------------------------

  ghost predicate Shows(h: Histogram, bounds: seq<Float>, observed: seq<Float>) {
    && |h.buckets| == |bounds|
    && h.sampleCount == Some(Wrap(|observed|))
    && forall i :: 0 <= i < |bounds| ==>
         && h.buckets[i].upperBound == Some(bounds[i])
         && h.buckets[i].cumulativeCount == Some(Wrap(CountAtMost(bounds[i], observed)))
         && h.buckets[i].cumulativeCountFloat.None?
  }

  /** From any bounds and observations to the encoded message. */
  method ObserveAll(given: seq<Float>, values: seq<Float>) returns (h: Histogram)
    requires forall i :: 0 <= i < |given| ==> !given[i].NaN?
    ensures Shows(h, Sort(given + [F64_MAX]), values)
    ensures h.sampleSum == Some(TotalOf(values)) && h.sampleCountFloat.None? && h.native == NO_NATIVE_BUCKETS
    ensures (forall i :: 0 <= i < |values| ==> values[i].Finite?) ==>
      h.sampleSum == Some(Finite(RealSum(Reals(values))))
  {
    hide Wrap, InBucket, CountAtMost, Sort, Sorted, FirstAtLeast, TotalOf;
    var cell := new HistogramCell(given);
    for i := 0 to |values|
      invariant cell.Valid() && cell.bounds == Sort(given + [F64_MAX]) && cell.observed == values[..i]
    {
      var bucket := cell.ObserveAndBucket(values[i]);
      assert values[..i + 1] == values[..i] + [values[i]];
    }
    assert values[..|values|] == values;
    var s := cell.TakeSnapshot();
    h := EncodeSnapshot(s, cell.bounds, cell.observed);
    TotalIs(values);
  }

  /**
   With fewer than 2^64 observations the counts are exact: bound by bound the
   number of observations at most it, never decreasing.
   */
  lemma CountsAreExact(h: Histogram, bounds: seq<Float>, observed: seq<Float>)
    requires Sorted(bounds) && Shows(h, bounds, observed) && |observed| < U64_LIMIT
    ensures forall i :: 0 <= i < |bounds| ==> h.buckets[i].cumulativeCount == Some(CountAtMost(bounds[i], observed))
    ensures forall i, j :: 0 <= i < j < |bounds| ==>
      h.buckets[i].cumulativeCount.value <= h.buckets[j].cumulativeCount.value <= h.sampleCount.value
  {
    hide Wrap;
    WrapSmall(|observed|);
    forall i | 0 <= i < |bounds| ensures Wrap(CountAtMost(bounds[i], observed)) == CountAtMost(bounds[i], observed) {
      WrapSmall(CountAtMost(bounds[i], observed));
    }
    forall i, j | 0 <= i < j < |bounds| ensures CountAtMost(bounds[i], observed) <= CountAtMost(bounds[j], observed) {
      CountAtMostMonotone(bounds[i], bounds[j], observed);
    }
  }

  predicate IsTop(b: Float) { b == F64_MAX || b == PosInf }

  lemma ShownInfinity(b: Bucket, bound: Float)
    requires b.upperBound == Some(bound)
    ensures TextItems.ShownBound(b) == PosInf <==> IsTop(bound)
  {
  }

  lemma TopIsNotBelowMax(b: Float)
    requires !b.NaN? && IsF64(b)
    ensures b.Less(F64_MAX) <==> !IsTop(b)
  {
  }

  lemma TopIsLast(a: Float, b: Float)
    requires IsTop(a) && a.AtMost(b) && IsF64(b)
    ensures IsTop(b)
  {
  }

  ghost function CountTop(bounds: seq<Float>): nat {
    if bounds == [] then 0 else CountTop(bounds[1..]) + if IsTop(bounds[0]) then 1 else 0
  }

  lemma {:induction false} InsertCountsTop(b: Float, sorted: seq<Float>)
    ensures CountTop(Insert(b, sorted)) == CountTop([b]) + CountTop(sorted)
  {
    hide IsTop;
    assert [b][1..] == [];
    if sorted == [] || b.AtMost(sorted[0]) {
      assert ([b] + sorted)[1..] == sorted;
    } else {
      InsertCountsTop(b, sorted[1..]);
      assert ([sorted[0]] + Insert(b, sorted[1..]))[1..] == Insert(b, sorted[1..]);
    }
  }

  lemma {:induction false} SortCountsTop(bounds: seq<Float>)
    ensures CountTop(Sort(bounds)) == CountTop(bounds)
  {
    hide IsTop;
    if bounds != [] {
      SortCountsTop(bounds[1..]);
      InsertCountsTop(bounds[0], Sort(bounds[1..]));
      assert [bounds[0]][1..] == [];
    }
  }

  lemma {:induction false} CountTopAppend(bounds: seq<Float>, b: Float)
    ensures CountTop(bounds + [b]) == CountTop(bounds) + if IsTop(b) then 1 else 0
  {
    hide IsTop;
    if bounds == [] {
      assert (bounds + [b])[1..] == [];
    } else {
      CountTopAppend(bounds[1..], b);
      assert (bounds + [b])[1..] == bounds[1..] + [b];
    }
  }

  lemma {:induction false} NoTop(bounds: seq<Float>)
    ensures CountTop(bounds) == 0 <==> forall i :: 0 <= i < |bounds| ==> !IsTop(bounds[i])
  {
    hide IsTop;
    if bounds != [] {
      NoTop(bounds[1..]);
      assert forall i :: 0 < i < |bounds| ==> bounds[i] == bounds[1..][i - 1];
    }
  }

  /** The last bound is at the top, and is the only one there just when no given bound is. */
  lemma OnlyLastAtTop(given: seq<Float>)
    requires forall i :: 0 <= i < |given| ==> !given[i].NaN? && IsF64(given[i])
    ensures var bounds := Sort(given + [F64_MAX]);
            && |bounds| == |given| + 1
            && IsTop(bounds[|given|])
            && ((forall i :: 0 <= i < |given| ==> !IsTop(given[i]))
                <==> (forall i :: 0 <= i < |given| ==> !IsTop(bounds[i])))
  {
    var all := given + [F64_MAX];
    var bounds := Sort(all);
    SortSorts(all);
    LastIsTop(given);
    MaxIsTop();
    hide IsTop, Sort, Sorted, IsF64;
    SortCountsTop(all);
    CountTopAppend(given, F64_MAX);
    SameTopBefore(given, bounds);
  }

  lemma SameTopBefore(given: seq<Float>, bounds: seq<Float>)
    requires |bounds| == |given| + 1 && IsTop(bounds[|given|]) && CountTop(bounds) == CountTop(given) + 1
    ensures (forall i :: 0 <= i < |given| ==> !IsTop(given[i]))
            <==> (forall i :: 0 <= i < |given| ==> !IsTop(bounds[i]))
  {
    hide IsTop;
    var n := |given|;
    var init := bounds[..n];
    assert bounds == init + [bounds[n]];
    CountTopAppend(init, bounds[n]);
    NoTop(given);
    NoTop(init);
    assert forall i :: 0 <= i < n ==> bounds[i] == init[i];
  }

  lemma MaxIsTop()
    ensures IsTop(F64_MAX) && IsF64(F64_MAX) && !F64_MAX.NaN?
  {
  }

  lemma LastIsTop(given: seq<Float>)
    requires forall i :: 0 <= i < |given| ==> !given[i].NaN? && IsF64(given[i])
    ensures |Sort(given + [F64_MAX])| == |given| + 1 && IsTop(Sort(given + [F64_MAX])[|given|])
  {
    MaxIsTop();
    hide IsTop, IsF64, Sort;
    var all := given + [F64_MAX];
    var bounds := Sort(all);
    SortSorts(all);
    var n := |given|;
    assert F64_MAX in multiset(all) && bounds[n] in multiset(bounds);
    var m :| 0 <= m < |bounds| && bounds[m] == F64_MAX;
    assert bounds[n] in all;
    if m < n {
      TopIsLast(bounds[m], bounds[n]);
    }
  }

  /**
   The text has exactly one `+Inf` bucket, the last, precisely when every given
   bound is below the largest float.
   */
  lemma OneInfinityBucket(given: seq<Float>, h: Histogram, observed: seq<Float>)
    requires forall i :: 0 <= i < |given| ==> !given[i].NaN? && IsF64(given[i])
    requires Shows(h, Sort(given + [F64_MAX]), observed)
    ensures TextItems.HasInfinityBucket(h.buckets)
    ensures (forall i :: 0 <= i < |given| ==> given[i].Less(F64_MAX)) <==>
      (forall i :: 0 <= i < |h.buckets| ==> (TextItems.ShownBound(h.buckets[i]) == PosInf <==> i == |h.buckets| - 1))
  {
    hide IsTop, Sort, Wrap, CountAtMost;
    OnlyLastAtTop(given);
    var bounds := Sort(given + [F64_MAX]);
    forall i | 0 <= i < |bounds| ensures TextItems.ShownBound(h.buckets[i]) == PosInf <==> IsTop(bounds[i]) {
      ShownInfinity(h.buckets[i], bounds[i]);
    }
    forall i | 0 <= i < |given| ensures given[i].Less(F64_MAX) <==> !IsTop(given[i]) {
      TopIsNotBelowMax(given[i]);
    }
    hide Float.Less, IsF64, TextItems.ShownBound, Shows;
    assert TextItems.ShownBound(h.buckets[|given|]) == PosInf;
  }

  lemma LastBoundIsMax(given: seq<Float>)
    requires forall i :: 0 <= i < |given| ==> !given[i].NaN? && IsF64(given[i]) && given[i].Less(F64_MAX)
    ensures Sorted(Sort(given + [F64_MAX])) && |Sort(given + [F64_MAX])| == |given| + 1
    ensures Sort(given + [F64_MAX])[|given|] == F64_MAX
  {
    var bounds := Sort(given + [F64_MAX]);
    SortSorts(given + [F64_MAX]);
    OnlyLastAtTop(given);
    assert bounds[|given|] in multiset(bounds);
    assert bounds[|given|] in given + [F64_MAX];
  }

  /** For real `f64` inputs the `+Inf` bucket counts what is neither NaN nor +infinity, at most `_count`. */
  lemma InfinityBucketValue(given: seq<Float>, h: Histogram, observed: seq<Float>)
    requires forall i :: 0 <= i < |given| ==> !given[i].NaN? && IsF64(given[i]) && given[i].Less(F64_MAX)
    requires forall i :: 0 <= i < |observed| ==> IsF64(observed[i])
    requires Shows(h, Sort(given + [F64_MAX]), observed) && |observed| < U64_LIMIT
    ensures h.buckets != []
    ensures h.buckets[|h.buckets| - 1].cumulativeCount == Some(CountPlaceable(observed))
    ensures CountPlaceable(observed) <= h.sampleCount.value
  {
    hide Wrap;
    LastBoundIsMax(given);
    AtMostMaxIsPlaceable(observed);
    CountsAreExact(h, Sort(given + [F64_MAX]), observed);
    WrapSmall(|observed|);
  }

  /**
   The text of a histogram row: `_sum` shows the sum, `_count` how many observations there were,
   then one `_bucket` sample per bound, in order, showing how many were at most
   it; the last, and no other, is labelled `+Inf`, and nothing is appended.
   */
  lemma TextOfHistogram(
    ryu: real -> string, name: string, metric: Metric, given: seq<Float>, h: Histogram, observed: seq<Float>)
    requires forall i :: 0 <= i < |given| ==> !given[i].NaN? && IsF64(given[i]) && given[i].Less(F64_MAX)
    requires Shows(h, Sort(given + [F64_MAX]), observed) && |observed| < U64_LIMIT && h.sampleCountFloat.None?
    ensures var items := TextItems.HistogramItems(ryu, name, HistogramType, metric, h);
            var bounds := Sort(given + [F64_MAX]);
            && |items| == |given| + 3 && |bounds| == |given| + 1
            && items[0] == TextItems.PlainSample(
                 ryu, name, "_sum", metric, TextItems.PlainFloat(if h.sampleSum.Some? then h.sampleSum.value else ZERO))
            && items[1] == TextItems.PlainSample(ryu, name, "_count", metric, TextItems.Unsigned(|observed|))
            && forall i :: 0 <= i <= |given| ==>
                 items[i + 2] == TextItems.SampleItem(
                   ryu, name, "_bucket", metric, Some(("le", if i == |given| then PosInf else bounds[i])),
                   TextItems.Unsigned(CountAtMost(bounds[i], observed)), h.buckets[i].exemplar)
  {
    var bounds := Sort(given + [F64_MAX]);
    LastBoundIsMax(given);
    OneInfinityBucket(given, h, observed);
    CountsAreExact(h, bounds, observed);
    WrapSmall(|observed|);
    hide Wrap, TextItems.SampleItem, Sort, Sorted, TextItems.HasInfinityBucket, IsF64;
    assert !TextItems.IsSkipped(h);
    var items := TextItems.HistogramItems(ryu, name, HistogramType, metric, h);
    forall i | 0 <= i <= |given|
      ensures items[i + 2] == TextItems.SampleItem(
        ryu, name, "_bucket", metric, Some(("le", if i == |given| then PosInf else bounds[i])),
        TextItems.Unsigned(CountAtMost(bounds[i], observed)), h.buckets[i].exemplar)
    {
      ShownOrdinary(h.buckets[i], bounds[i]);
      assert items[i + 2] == TextItems.BucketItem(ryu, name, metric, h.buckets[i]);
    }
  }

  lemma ShownOrdinary(b: Bucket, bound: Float)
    requires b.upperBound == Some(bound)
    ensures TextItems.ShownBound(b) == if bound == F64_MAX then PosInf else bound
  {
  }
}
