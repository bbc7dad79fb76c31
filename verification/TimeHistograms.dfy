/**
 The lock-free time histogram: an observer adds to the sum, then to the count,
 then to one bucket, and a reader loads the sum, the count and the buckets one
 at a time, while any number of other threads do the same.
 */
module TimeHistograms {
  import opened Base
  import opened Proto
  import opened Buckets
  import opened Histograms

  /** Nanoseconds as the floating-point seconds that bounds are compared with. */
  function Seconds(nanos: nat): (f: Float)
    ensures f.Finite?
  {
    Finite(nanos as real * 0.000000001)
  }

  /** A second has a thousand million of them. */
  lemma SecondsAreNanos(nanos: nat)
    ensures Seconds(nanos).value * 1000000000.0 == nanos as real
  {
  }

  /** Seconds against a bound, in nanoseconds. */
  lemma BelowInNanos(bound: Float, nanos: nat)
    requires !bound.NaN?
    ensures bound.Less(Seconds(nanos)) <==>
      bound.NegInf? || (bound.Finite? && bound.value * 1000000000.0 < nanos as real)
  {
  }

  function AllSeconds(nanos: seq<nat>): (s: seq<Float>)
    ensures |s| == |nanos|
  {
    if nanos == [] then [] else AllSeconds(nanos[..|nanos| - 1]) + [Seconds(nanos[|nanos| - 1])]
  }

  lemma AllSecondsAppend(nanos: seq<nat>, v: nat)
    ensures AllSeconds(nanos + [v]) == AllSeconds(nanos) + [Seconds(v)]
  {
    assert (nanos + [v])[..|nanos|] == nanos;
  }

  function Total(nanos: seq<nat>): nat {
    if nanos == [] then 0 else Total(nanos[..|nanos| - 1]) + nanos[|nanos| - 1]
  }

  lemma {:induction false} TotalIsSum(nanos: seq<nat>)
    ensures Total(nanos) == Sum(nanos)
  {
    if nanos != [] {
      TotalIsSum(nanos[..|nanos| - 1]);
    }
  }

  lemma TotalAppend(nanos: seq<nat>, v: nat)
    ensures Total(nanos + [v]) == Total(nanos) + v
  {
    assert (nanos + [v])[..|nanos|] == nanos;
  }

  /** Some bucket takes every `u64` of nanoseconds: the last bound is above them all. */
  lemma AlwaysPlaced(bounds: seq<Float>, nanos: nat)
    requires Sorted(bounds) && F64_MAX in bounds && nanos < U64_LIMIT
    ensures FirstAtLeast(bounds, Seconds(nanos)) < |bounds|
  {
    var i :| 0 <= i < |bounds| && bounds[i] == F64_MAX;
    assert !bounds[i].Less(Seconds(nanos)) by {
      SecondsBelowMax(nanos);
    }
  }

  lemma SecondsBelowMax(nanos: nat)
    requires nanos < U64_LIMIT
    ensures Seconds(nanos).Less(F64_MAX)
  {
    assert Pow2(971) >= 1.0;
  }

  /** The counters of a cell that observed these durations. */
  ghost predicate Holds(bounds: seq<Float>, observed: seq<nat>, sum: nat, count: nat, buckets: seq<(Float, nat)>) {
    && Sorted(bounds)
    && F64_MAX in bounds
    && sum == Wrap(Total(observed))
    && IsSnapshotOf(Snapshot(Seconds(sum), count, buckets), bounds, AllSeconds(observed))
  }

  lemma HoldsAfter(bounds: seq<Float>, observed: seq<nat>, sum: nat, count: nat, buckets: seq<(Float, nat)>, nanos: nat)
    requires Holds(bounds, observed, sum, count, buckets) && nanos < U64_LIMIT
    ensures Sorted(bounds) && |buckets| == |bounds| && forall i :: 0 <= i < |bounds| ==> buckets[i].0 == bounds[i]
    ensures FirstAtLeast(bounds, Seconds(nanos)) < |bounds|
    ensures var index := FirstAtLeast(bounds, Seconds(nanos));
            var slot := (buckets[index].0, Wrap(buckets[index].1 + 1));
            Holds(bounds, observed + [nanos], Wrap(sum + nanos), Wrap(count + 1), buckets[index := slot])
  {
    hide Wrap, FirstAtLeast, Total, AllSeconds, Sorted, Seconds, IsSnapshotOf;
    var s := Snapshot(Seconds(sum), count, buckets);
    AlwaysPlaced(bounds, nanos);
    AllSecondsAppend(observed, nanos);
    TotalAppend(observed, nanos);
    WrapAdd(Total(observed), nanos);
    PlacedSnapshot(s, bounds, AllSeconds(observed), Seconds(nanos));
    var index := FirstAtLeast(bounds, Seconds(nanos));
    SameButSum(
      Snapshot(s.sum, Wrap(count + 1), buckets[index := (buckets[index].0, Wrap(buckets[index].1 + 1))]),
      Seconds(Wrap(sum + nanos)), bounds, AllSeconds(observed + [nanos]));
  }

  lemma InNanos(bounds: seq<Float>, nanos: nat)
    requires Sorted(bounds) && FirstAtLeast(bounds, Seconds(nanos)) < |bounds|
    ensures var index := FirstAtLeast(bounds, Seconds(nanos));
            && (forall i :: 0 <= i < index ==>
                  bounds[i].NegInf? || (bounds[i].Finite? && bounds[i].value * 1000000000.0 < nanos as real))
            && (bounds[index].PosInf?
                || (bounds[index].Finite? && nanos as real <= bounds[index].value * 1000000000.0))
  {
    hide FirstAtLeast, Seconds, Float.Less;
    forall i | 0 <= i < |bounds|
      ensures bounds[i].Less(Seconds(nanos)) <==>
        bounds[i].NegInf? || (bounds[i].Finite? && bounds[i].value * 1000000000.0 < nanos as real)
    {
      BelowInNanos(bounds[i], nanos);
    }
  }

  // ---- one observer at a time: the same buckets as the locked histogram --------------------

  class TimeHistogramCell {
    var sum: nat
    var count: nat
    var buckets: seq<(Float, nat)>
    ghost var bounds: seq<Float>
    ghost var observed: seq<nat>

    ghost predicate Valid()
      reads this
    {
      Holds(bounds, observed, sum, count, buckets)
    }

    constructor (given: seq<Float>)
      requires forall i :: 0 <= i < |given| ==> !given[i].NaN?
      ensures Valid() && observed == [] && bounds == Sort(given + [F64_MAX])
    {
      hide Sort, Sorted;
      TopIsThere(given);
      var sorted := Sort(given + [F64_MAX]);
      sum, count := 0, 0;
      buckets := seq(|sorted|, i requires 0 <= i < |sorted| => (sorted[i], 0));
      bounds, observed := sorted, [];
    }

    /** Every duration goes to the bucket the locked histogram would choose for its seconds. */
    method ObserveAndBucket(nanos: nat) returns (bucket: Option<nat>)
      requires Valid() && nanos < U64_LIMIT
      modifies this
      ensures Valid() && bounds == old(bounds) && observed == old(observed) + [nanos]
      ensures FirstAtLeast(bounds, Seconds(nanos)) < |bounds| && bucket == Some(FirstAtLeast(bounds, Seconds(nanos)))
      ensures forall i :: 0 <= i < bucket.value ==>
        bounds[i].NegInf? || (bounds[i].Finite? && bounds[i].value * 1000000000.0 < nanos as real)
      ensures var bound := bounds[bucket.value];
              bound.PosInf? || (bound.Finite? && nanos as real <= bound.value * 1000000000.0)
    {
      hide Wrap, FirstAtLeast, Holds, Sorted, Seconds, Total, AllSeconds, IsSnapshotOf;
      HoldsAfter(bounds, observed, sum, count, buckets, nanos);
      InNanos(bounds, nanos);
      var slots := buckets;
      var upperBounds := seq(|slots|, i requires 0 <= i < |slots| => slots[i].0);
      assert upperBounds == bounds;
      bucket := FindBucket(upperBounds, Seconds(nanos));
      var index := bucket.value;
      observed := observed + [nanos];
      sum := Wrap(sum + nanos);
      count := Wrap(count + 1);
      buckets := buckets[index := (buckets[index].0, Wrap(buckets[index].1 + 1))];
    }

    method TakeSnapshot() returns (s: Snapshot)
      requires Valid()
      ensures s.sum == Seconds(Wrap(Total(observed))) && IsSnapshotOf(s, bounds, AllSeconds(observed))
      ensures s.sum.Finite? && s.sum.value * 1000000000.0 == Wrap(Sum(observed)) as real
    {
      TotalIsSum(observed);
      SecondsAreNanos(sum);
      s := Snapshot(Seconds(sum), count, buckets);
    }
  }

  // ---- any number of observers and readers --------------------------------------------------

  /**
   A reader remembers, besides what it loaded, how many observations were in
   the buckets at its count load and at each bucket load (`since`, `ats`), and
   how many observers were then between their count and bucket updates.
   */
  datatype Pc =
    | Idle
    | Summed(nanos: nat)
    | Counted(nanos: nat)
    | LoadedSum(sum: nat)
    | Loading(sum: nat, count: nat, since: nat, between: nat, counts: seq<nat>, ats: seq<nat>)

  datatype State = State(bounds: seq<Float>, sum: nat, count: nat, buckets: seq<nat>, pcs: seq<Pc>, observed: seq<nat>)

  datatype Action = Observe(nanos: nat) | StartSnapshot | Resume

  predicate Enabled(s: State, t: nat, a: Action) {
    && t < |s.pcs|
    && match a
       case Observe(nanos) => s.pcs[t].Idle? && nanos < U64_LIMIT
       case StartSnapshot => s.pcs[t].Idle?
       case Resume => !s.pcs[t].Idle?
  }

  /** The observers between their count and bucket updates, and the nanoseconds of all that started. */
  function Between(pcs: seq<Pc>): seq<int> {
    seq(|pcs|, t requires 0 <= t < |pcs| => if pcs[t].Counted? then 1 else 0)
  }

  function InFlight(pcs: seq<Pc>): seq<int> {
    seq(|pcs|, t requires 0 <= t < |pcs| => if pcs[t].Counted? || pcs[t].Summed? then pcs[t].nanos else 0)
  }

  function BucketAdd(s: State, nanos: nat): (buckets: seq<nat>)
    ensures |buckets| == |s.buckets|
  {
    var index := FirstAtLeast(s.bounds, Seconds(nanos));
    if index < |s.buckets| then s.buckets[index := Wrap(s.buckets[index] + 1)] else s.buckets
  }

  function Step(s: State, t: nat, a: Action): State
    requires Enabled(s, t, a)
  {
    match a
    case Observe(nanos) => s.(sum := Wrap(s.sum + nanos), pcs := s.pcs[t := Summed(nanos)])
    case StartSnapshot => s.(pcs := s.pcs[t := LoadedSum(s.sum)])
    case Resume =>
      match s.pcs[t]
      case Summed(nanos) => s.(count := Wrap(s.count + 1), pcs := s.pcs[t := Counted(nanos)])
      case Counted(nanos) =>
        s.(buckets := BucketAdd(s, nanos), observed := s.observed + [nanos], pcs := s.pcs[t := Idle])
      case LoadedSum(sum) =>
        s.(pcs := s.pcs[t := Loading(sum, s.count, |s.observed|, Max(0, Sum(Between(s.pcs))), [], [])])
      case Loading(sum, count, since, between, counts, ats) =>
        var i := |counts|;
        if i < |s.buckets|
        then s.(pcs := s.pcs[t := Loading(sum, count, since, between, counts + [s.buckets[i]], ats + [|s.observed|])])
        else s.(pcs := s.pcs[t := Idle])
  }

  ghost predicate BucketsOk(bounds: seq<Float>, buckets: seq<nat>, observed: seq<nat>) {
    && |buckets| == |bounds|
    && forall i :: 0 <= i < |bounds| ==> buckets[i] == Wrap(InBucket(bounds, i, AllSeconds(observed)))
  }

  ghost predicate LoadsOk(bounds: seq<Float>, since: nat, counts: seq<nat>, ats: seq<nat>, observed: seq<nat>) {
    && |counts| == |ats| <= |bounds|
    && since <= |observed|
    && forall i :: 0 <= i < |counts| ==>
         since <= ats[i] <= |observed| && counts[i] == Wrap(InBucket(bounds, i, AllSeconds(observed[..ats[i]])))
  }

  ghost predicate PcOk(bounds: seq<Float>, pc: Pc, observed: seq<nat>) {
    match pc
    case Summed(nanos) => nanos < U64_LIMIT
    case Counted(nanos) => nanos < U64_LIMIT
    case Loading(_, count, since, between, counts, ats) =>
      count == Wrap(since + between) && LoadsOk(bounds, since, counts, ats, observed)
    case _ => true
  }

  ghost predicate Inv(s: State) {
    && Sorted(s.bounds) && F64_MAX in s.bounds
    && (forall i :: 0 <= i < |s.observed| ==> s.observed[i] < U64_LIMIT)
    && s.sum == Wrap(Total(s.observed) + Sum(InFlight(s.pcs)))
    && s.count == Wrap(|s.observed| + Sum(Between(s.pcs)))
    && BucketsOk(s.bounds, s.buckets, s.observed)
    && forall t :: 0 <= t < |s.pcs| ==> PcOk(s.bounds, s.pcs[t], s.observed)
  }

  lemma {:induction false} BetweenNonNegative(pcs: seq<Pc>)
    ensures Sum(Between(pcs)) >= 0
  {
    if pcs != [] {
      var n := |pcs| - 1;
      BetweenNonNegative(pcs[..n]);
      assert Between(pcs)[..n] == Between(pcs[..n]);
    }
  }

  lemma PcUpdate(pcs: seq<Pc>, t: nat, pc: Pc)
    requires t < |pcs|
    ensures Sum(Between(pcs[t := pc])) == Sum(Between(pcs)) - Between(pcs)[t] + if pc.Counted? then 1 else 0
    ensures Sum(InFlight(pcs[t := pc]))
         == Sum(InFlight(pcs)) - InFlight(pcs)[t] + if pc.Counted? || pc.Summed? then pc.nanos else 0
  {
    var between := if pc.Counted? then 1 else 0;
    var nanos: int := if pc.Counted? || pc.Summed? then pc.nanos else 0;
    assert Between(pcs[t := pc]) == Between(pcs)[t := between];
    assert InFlight(pcs[t := pc]) == InFlight(pcs)[t := nanos];
    SumUpdate(Between(pcs), t, between);
    SumUpdate(InFlight(pcs), t, nanos);
  }

  lemma LoadsSurvive(bounds: seq<Float>, pc: Pc, observed: seq<nat>, nanos: nat)
    requires PcOk(bounds, pc, observed)
    ensures PcOk(bounds, pc, observed + [nanos])
  {
    hide Wrap, InBucket, AllSeconds;
    if pc.Loading? {
      forall i | 0 <= i < |pc.counts|
        ensures pc.counts[i] == Wrap(InBucket(bounds, i, AllSeconds((observed + [nanos])[..pc.ats[i]])))
      {
        assert (observed + [nanos])[..pc.ats[i]] == observed[..pc.ats[i]];
      }
    }
  }

  lemma BucketAddOk(s: State, nanos: nat)
    requires BucketsOk(s.bounds, s.buckets, s.observed)
    ensures BucketsOk(s.bounds, BucketAdd(s, nanos), s.observed + [nanos])
  {
    hide Wrap, InBucket, BucketAdd, AllSeconds;
    AllSecondsAppend(s.observed, nanos);
    forall i | 0 <= i < |s.bounds|
      ensures BucketAdd(s, nanos)[i] == Wrap(InBucket(s.bounds, i, AllSeconds(s.observed + [nanos])))
    {
      OneBucketOk(s, nanos, i);
    }
  }

  lemma OneBucketOk(s: State, nanos: nat, i: nat)
    requires i < |s.buckets| && s.buckets[i] == Wrap(InBucket(s.bounds, i, AllSeconds(s.observed)))
    ensures BucketAdd(s, nanos)[i] == Wrap(InBucket(s.bounds, i, AllSeconds(s.observed) + [Seconds(nanos)]))
  {
    InBucketAppend(s.bounds, i, AllSeconds(s.observed), Seconds(nanos));
    assert !Seconds(nanos).NaN?;
    hide Wrap, InBucket, AllSeconds, FirstAtLeast, Seconds;
    WrapAdd(InBucket(s.bounds, i, AllSeconds(s.observed)), 1);
  }

  lemma CountersKept(s: State, t: nat, a: Action)
    requires Inv(s) && Enabled(s, t, a)
    ensures var s' := Step(s, t, a);
            && s'.sum == Wrap(Total(s'.observed) + Sum(InFlight(s'.pcs)))
            && s'.count == Wrap(|s'.observed| + Sum(Between(s'.pcs)))
  {
    hide Wrap, Sum, Total, InBucket, BucketAdd, Sorted, PcOk, BucketsOk;
    var s' := Step(s, t, a);
    PcUpdate(s.pcs, t, s'.pcs[t]);
    assert s'.pcs == s.pcs[t := s'.pcs[t]];
    var sum, count := Total(s.observed) + Sum(InFlight(s.pcs)), |s.observed| + Sum(Between(s.pcs));
    if a.Observe? {
      WrapAdd(sum, a.nanos);
    } else if a.Resume? && s.pcs[t].Summed? {
      WrapAdd(count, 1);
    } else if a.Resume? && s.pcs[t].Counted? {
      TotalAppend(s.observed, s.pcs[t].nanos);
    }
  }

  lemma NewPcOk(s: State, t: nat, a: Action)
    requires Inv(s) && Enabled(s, t, a)
    ensures var s' := Step(s, t, a); PcOk(s'.bounds, s'.pcs[t], s'.observed)
  {
    hide Wrap, Sum, Total, InBucket, BucketAdd, Sorted, AllSeconds, InFlight;
    assert PcOk(s.bounds, s.pcs[t], s.observed);
    if a.Resume? && s.pcs[t].LoadedSum? {
      BetweenNonNegative(s.pcs);
    } else if a.Resume? && s.pcs[t].Loading? {
      assert s.observed[..|s.observed|] == s.observed;
    }
  }

  lemma StepKeepsInv(s: State, t: nat, a: Action)
    requires Inv(s) && Enabled(s, t, a)
    ensures Inv(Step(s, t, a)) && Step(s, t, a).bounds == s.bounds
  {
    hide Wrap, Sum, Total, InBucket, BucketAdd, Sorted, AllSeconds, InFlight, Between, PcOk, BucketsOk;
    CountersKept(s, t, a);
    NewPcOk(s, t, a);
    var s' := Step(s, t, a);
    assert PcOk(s.bounds, s.pcs[t], s.observed);
    if a.Resume? && s.pcs[t].Counted? {
      var nanos := s.pcs[t].nanos;
      CountedIsSmall(s.bounds, s.pcs[t], s.observed);
      BucketAddOk(s, nanos);
      forall u | 0 <= u < |s'.pcs| ensures PcOk(s'.bounds, s'.pcs[u], s'.observed) {
        LoadsSurvive(s.bounds, s.pcs[u], s.observed, nanos);
      }
    }
  }

  lemma CountedIsSmall(bounds: seq<Float>, pc: Pc, observed: seq<nat>)
    requires pc.Counted? && PcOk(bounds, pc, observed)
    ensures pc.nanos < U64_LIMIT
  {
  }

  datatype Event = Event(t: nat, a: Action)

  /** A run of `threads` threads on a fresh histogram. */
  ghost predicate IsRun(given: seq<Float>, threads: nat, ss: seq<State>, es: seq<Event>) {
    var bounds := Sort(given + [F64_MAX]);
    && |ss| == |es| + 1
    && ss[0] == State(bounds, 0, 0, seq(|bounds|, _ => 0), seq(threads, _ => Idle), [])
    && forall k :: 0 <= k < |es| ==> Enabled(ss[k], es[k].t, es[k].a) && ss[k + 1] == Step(ss[k], es[k].t, es[k].a)
  }

  lemma {:induction false} AllIdle(pcs: seq<Pc>)
    requires forall t :: 0 <= t < |pcs| ==> pcs[t].Idle?
    ensures Sum(Between(pcs)) == 0 && Sum(InFlight(pcs)) == 0
  {
    if pcs != [] {
      var n := |pcs| - 1;
      AllIdle(pcs[..n]);
      assert Between(pcs)[..n] == Between(pcs[..n]) && InFlight(pcs)[..n] == InFlight(pcs[..n]);
    }
  }

  lemma InitInv(given: seq<Float>, threads: nat)
    requires forall i :: 0 <= i < |given| ==> !given[i].NaN?
    ensures var bounds := Sort(given + [F64_MAX]);
            Inv(State(bounds, 0, 0, seq(|bounds|, _ => 0), seq(threads, _ => Idle), []))
  {
    TopIsThere(given);
    AllIdle(seq(threads, _ => Idle));
    hide Sort, Sorted, Between, InFlight, Sum;
  }

  lemma TopIsThere(given: seq<Float>)
    requires forall i :: 0 <= i < |given| ==> !given[i].NaN?
    ensures Sorted(Sort(given + [F64_MAX])) && F64_MAX in Sort(given + [F64_MAX])
  {
    hide Sort, Sorted, Float.AtMost;
    SortSorts(given + [F64_MAX]);
    assert F64_MAX in multiset(given + [F64_MAX]);
  }

  lemma {:induction false} RunKeepsInv(given: seq<Float>, threads: nat, ss: seq<State>, es: seq<Event>, k: nat)
    requires forall i :: 0 <= i < |given| ==> !given[i].NaN?
    requires IsRun(given, threads, ss, es) && k < |ss|
    ensures Inv(ss[k]) && ss[k].bounds == Sort(given + [F64_MAX])
  {
    hide Inv, Sort;
    if k == 0 {
      InitInv(given, threads);
    } else {
      RunKeepsInv(given, threads, ss, es, k - 1);
      StepKeepsInv(ss[k - 1], es[k - 1].t, es[k - 1].a);
      assert ss[k - 1 + 1] == Step(ss[k - 1], es[k - 1].t, es[k - 1].a);
    }
  }

  // ---- what the counters say ------------------------------------------------------------

  /** Every observation is in some bucket. */
  lemma {:induction false} AllPlaced(bounds: seq<Float>, observed: seq<nat>)
    requires Sorted(bounds) && F64_MAX in bounds
    requires forall i :: 0 <= i < |observed| ==> observed[i] < U64_LIMIT
    ensures InBuckets(bounds, |bounds|, AllSeconds(observed)) == |observed|
  {
    hide FirstAtLeast, Sorted, Seconds;
    if observed == [] {
      NothingInBuckets(bounds, |bounds|);
    } else {
      var n := |observed| - 1;
      AllPlaced(bounds, observed[..n]);
      AlwaysPlaced(bounds, observed[n]);
      assert AllSeconds(observed) == AllSeconds(observed[..n]) + [Seconds(observed[n])];
      assert AllSeconds(observed)[..n] == AllSeconds(observed[..n]);
      InBucketsStep(bounds, |bounds|, AllSeconds(observed));
    }
  }

  lemma {:induction false} BucketSum(bounds: seq<Float>, upTo: nat, buckets: seq<nat>, seen: seq<Float>)
    requires upTo <= |bounds| == |buckets|
    requires forall i :: 0 <= i < |bounds| ==> buckets[i] == Wrap(InBucket(bounds, i, seen))
    ensures Wrap(Sum(buckets[..upTo])) == Wrap(InBuckets(bounds, upTo, seen))
  {
    hide Wrap, InBucket;
    if upTo > 0 {
      BucketSum(bounds, upTo - 1, buckets, seen);
      assert buckets[..upTo][..upTo - 1] == buckets[..upTo - 1];
      WrapAdd(Sum(buckets[..upTo - 1]), buckets[upTo - 1]);
      WrapAdd(InBuckets(bounds, upTo - 1, seen), InBucket(bounds, upTo - 1, seen));
    }
  }

  lemma CountOf(s: State)
    requires Inv(s)
    ensures s.count == Wrap(Sum(s.buckets) + Sum(Between(s.pcs)))
  {
    hide Wrap, Sum, Between, InFlight, Total, PcOk, InBucket, AllSeconds, InBuckets, Sorted;
    AllPlaced(s.bounds, s.observed);
    BucketSum(s.bounds, |s.bounds|, s.buckets, AllSeconds(s.observed));
    assert s.buckets[..|s.buckets|] == s.buckets;
    WrapAdd(Sum(s.buckets), Sum(Between(s.pcs)));
    WrapAdd(|s.observed|, Sum(Between(s.pcs)));
  }

  function Paired(bounds: seq<Float>, buckets: seq<nat>): seq<(Float, nat)>
    requires |bounds| == |buckets|
  {
    seq(|bounds|, i requires 0 <= i < |bounds| => (bounds[i], buckets[i]))
  }

  /** The counters are those of the locked histogram after the same observations, and count and buckets agree. */
  ghost predicate AgreesWithLocked(s: State, bounds: seq<Float>) {
    && |s.bounds| == |s.buckets|
    && s.count == Wrap(Sum(s.buckets))
    && s.sum == Wrap(Total(s.observed))
    && IsSnapshotOf(Snapshot(Seconds(s.sum), s.count, Paired(s.bounds, s.buckets)), bounds, AllSeconds(s.observed))
  }

  lemma CountersAtRest(s: State)
    requires Inv(s) && Sum(Between(s.pcs)) == 0 && Sum(InFlight(s.pcs)) == 0
    ensures AgreesWithLocked(s, s.bounds)
  {
    CountOf(s);
    hide Wrap, Sum, Between, InFlight, Total, PcOk, InBucket, AllSeconds, Sorted, Seconds;
  }

  /** In every reachable state the count is the sum of the buckets and of the observers between the two updates. */
  lemma CountIsBucketsPlusBetween(given: seq<Float>, threads: nat, ss: seq<State>, es: seq<Event>, k: nat)
    requires forall i :: 0 <= i < |given| ==> !given[i].NaN?
    requires IsRun(given, threads, ss, es) && k < |ss|
    ensures ss[k].count == Wrap(Sum(ss[k].buckets) + Sum(Between(ss[k].pcs)))
  {
    hide Inv, Sort, Sum, Between, Wrap;
    RunKeepsInv(given, threads, ss, es, k);
    hide IsRun;
    CountOf(ss[k]);
  }

  /**
   At rest the counters are those of the locked histogram after the same
   observations in seconds, and count and bucket sum are equal.
   */
  lemma AgreesAtRest(given: seq<Float>, threads: nat, ss: seq<State>, es: seq<Event>, k: nat)
    requires forall i :: 0 <= i < |given| ==> !given[i].NaN?
    requires IsRun(given, threads, ss, es) && k < |ss|
    requires forall t :: 0 <= t < |ss[k].pcs| ==> ss[k].pcs[t].Idle?
    ensures AgreesWithLocked(ss[k], Sort(given + [F64_MAX]))
  {
    hide Inv, Sort, Sum, Between, InFlight, AgreesWithLocked;
    RunKeepsInv(given, threads, ss, es, k);
    AllIdle(ss[k].pcs);
    CountersAtRest(ss[k]);
  }

  ghost function InBucketBy(bounds: seq<Float>, i: nat, observed: seq<nat>, k: nat): nat
    requires k <= |observed|
  {
    InBucket(bounds, i, AllSeconds(observed[..k]))
  }

  lemma OneMore(bounds: seq<Float>, i: nat, observed: seq<nat>, k: nat)
    requires k < |observed|
    ensures InBucketBy(bounds, i, observed, k) <= InBucketBy(bounds, i, observed, k + 1)
  {
    hide InBucket, AllSeconds, FirstAtLeast;
    var before, last := observed[..k], observed[k];
    assert observed[..k + 1] == before + [last];
    AllSecondsAppend(before, last);
    InBucketAppend(bounds, i, AllSeconds(before), Seconds(last));
  }

  lemma {:induction false} InBucketGrows(bounds: seq<Float>, i: nat, observed: seq<nat>, low: nat, high: nat)
    requires low <= high <= |observed|
    ensures InBucketBy(bounds, i, observed, low) <= InBucketBy(bounds, i, observed, high)
    decreases high
  {
    hide InBucketBy;
    if low < high {
      InBucketGrows(bounds, i, observed, low, high - 1);
      OneMore(bounds, i, observed, high - 1);
    }
  }

  /** Every bucket loaded holds at least what was complete at the count load, and at most what is complete now. */
  ghost predicate EachBracketed(bounds: seq<Float>, since: nat, counts: seq<nat>, observed: seq<nat>) {
    && since <= |observed| && |counts| <= |bounds|
    && forall i :: 0 <= i < |counts| ==>
         InBucket(bounds, i, AllSeconds(observed[..since])) <= counts[i] <= InBucket(bounds, i, AllSeconds(observed))
  }

  lemma LoadedBuckets(bounds: seq<Float>, since: nat, counts: seq<nat>, ats: seq<nat>, observed: seq<nat>)
    requires LoadsOk(bounds, since, counts, ats, observed) && |observed| < U64_LIMIT
    ensures EachBracketed(bounds, since, counts, observed)
  {
    hide Wrap, InBucket, AllSeconds;
    assert observed[..|observed|] == observed;
    forall i | 0 <= i < |counts|
      ensures InBucket(bounds, i, AllSeconds(observed[..since])) <= counts[i]
      ensures counts[i] <= InBucket(bounds, i, AllSeconds(observed))
    {
      InBucketGrows(bounds, i, observed, since, ats[i]);
      InBucketGrows(bounds, i, observed, ats[i], |observed|);
      InBucketBounded(bounds, i, AllSeconds(observed[..ats[i]]));
      WrapSmall(InBucket(bounds, i, AllSeconds(observed[..ats[i]])));
    }
  }

  lemma {:induction false} LoadedSums(bounds: seq<Float>, upTo: nat, since: nat, counts: seq<nat>, observed: seq<nat>)
    requires EachBracketed(bounds, since, counts, observed) && upTo <= |counts|
    ensures InBuckets(bounds, upTo, AllSeconds(observed[..since])) <= Sum(counts[..upTo])
         <= InBuckets(bounds, upTo, AllSeconds(observed))
  {
    if upTo > 0 {
      LoadedSums(bounds, upTo - 1, since, counts, observed);
      assert counts[..upTo][..upTo - 1] == counts[..upTo - 1];
    }
  }

  lemma ReadIsBracketed(s: State, t: nat)
    requires Inv(s) && |s.observed| < U64_LIMIT
    requires t < |s.pcs| && s.pcs[t].Loading? && |s.pcs[t].counts| == |s.buckets|
    ensures var read := s.pcs[t];
            && EachBracketed(s.bounds, read.since, read.counts, s.observed)
            && read.since <= Sum(read.counts) <= |s.observed|
            && read.count == Wrap(read.since + read.between)
  {
    hide Wrap, Sum, Between, InFlight, Total, InBucket, AllSeconds, Sorted, EachBracketed;
    var read := s.pcs[t];
    assert PcOk(s.bounds, read, s.observed);
    assert read.counts[..|read.counts|] == read.counts;
    LoadedBuckets(s.bounds, read.since, read.counts, read.ats, s.observed);
    LoadedSums(s.bounds, |s.bounds|, read.since, read.counts, s.observed);
    AllPlaced(s.bounds, s.observed);
    AllPlaced(s.bounds, s.observed[..read.since]);
  }

  /**
   A snapshot taken while observers run is not torn further than that: each
   bucket holds at least every observation that was complete there when the count
   was loaded, and nothing that is not complete now. The count loaded is that of
   those, plus the observers then between their two updates.
   */
  lemma SnapshotIsBracketed(given: seq<Float>, threads: nat, ss: seq<State>, es: seq<Event>, k: nat, t: nat)
    requires forall i :: 0 <= i < |given| ==> !given[i].NaN?
    requires IsRun(given, threads, ss, es) && k < |ss| && |ss[k].observed| < U64_LIMIT
    requires t < |ss[k].pcs| && ss[k].pcs[t].Loading? && |ss[k].pcs[t].counts| == |ss[k].buckets|
    ensures var read := ss[k].pcs[t];
            && EachBracketed(ss[k].bounds, read.since, read.counts, ss[k].observed)
            && read.since <= Sum(read.counts) <= |ss[k].observed|
            && read.count == Wrap(read.since + read.between)
  {
    hide Inv, Sort, Sum, Wrap, EachBracketed;
    RunKeepsInv(given, threads, ss, es, k);
    hide IsRun;
    ReadIsBracketed(ss[k], t);
  }

  // ---- which observations these are ---------------------------------------------------------

  /** The durations observed by the events of a run, in the order their observers started. */
  ghost function Started(es: seq<Event>): seq<nat> {
    if es == [] then []
    else
      var last := es[|es| - 1].a;
      Started(es[..|es| - 1]) + if last.Observe? then [last.nanos] else []
  }

  ghost function Pending(pc: Pc): multiset<nat> {
    if pc.Summed? || pc.Counted? then multiset{pc.nanos} else multiset{}
  }

  /** The durations of observers that are not done. */
  ghost function AllPending(pcs: seq<Pc>): multiset<nat> {
    if pcs == [] then multiset{} else AllPending(pcs[..|pcs| - 1]) + Pending(pcs[|pcs| - 1])
  }

  lemma WithMore(a: multiset<nat>, b: multiset<nat>, c: multiset<nat>, d: multiset<nat>, more: multiset<nat>)
    requires a + b == c + d
    ensures a + more + b == c + more + d
  {
    assert a + more + b == a + b + more && c + more + d == c + d + more;
  }

  lemma {:induction false} PendingUpdate(pcs: seq<Pc>, t: nat, pc: Pc)
    requires t < |pcs|
    ensures AllPending(pcs[t := pc]) + Pending(pcs[t]) == AllPending(pcs) + Pending(pc)
  {
    hide Pending;
    var n := |pcs| - 1;
    if t == n {
      assert pcs[t := pc][..n] == pcs[..n];
    } else {
      PendingUpdate(pcs[..n], t, pc);
      assert pcs[t := pc][..n] == pcs[..n][t := pc];
      WithMore(AllPending(pcs[..n][t := pc]), Pending(pcs[t]), AllPending(pcs[..n]), Pending(pc), Pending(pcs[n]));
    }
  }

  lemma {:induction false} NothingPending(pcs: seq<Pc>)
    requires forall t :: 0 <= t < |pcs| ==> pcs[t].Idle?
    ensures AllPending(pcs) == multiset{}
  {
    if pcs != [] {
      NothingPending(pcs[..|pcs| - 1]);
    }
  }

  lemma SameRest(a: multiset<nat>, b: multiset<nat>, own: multiset<nat>)
    requires a + own == b + own
    ensures a == b
  {
    forall x ensures a[x] == b[x] {
      assert (a + own)[x] == (b + own)[x];
    }
  }

  /** What one step does to its thread's duration and to the observations. */
  lemma StepOfOne(s: State, e: Event)
    requires Enabled(s, e.t, e.a)
    ensures var s' := Step(s, e.t, e.a);
            var pc, pc' := s.pcs[e.t], s'.pcs[e.t];
            && s'.pcs == s.pcs[e.t := pc']
            && if e.a.Observe?
               then Pending(pc) == multiset{} && Pending(pc') == multiset{e.a.nanos} && s'.observed == s.observed
               else if pc.Counted?
               then Pending(pc) == multiset{pc.nanos} && Pending(pc') == multiset{}
                    && s'.observed == s.observed + [pc.nanos]
               else Pending(pc') == Pending(pc) && s'.observed == s.observed
  {
    hide Wrap, BucketAdd, Sum;
  }

  lemma Settled(done: multiset<nat>, before: multiset<nat>, after: multiset<nat>, own: multiset<nat>)
    requires after + own == before
    ensures done + own + after == done + before
  {
    assert done + own + after == done + (after + own);
  }

  lemma StepStarts(s: State, e: Event)
    requires Enabled(s, e.t, e.a)
    ensures var s' := Step(s, e.t, e.a);
            multiset(s'.observed) + AllPending(s'.pcs)
            == multiset(s.observed) + AllPending(s.pcs) + if e.a.Observe? then multiset{e.a.nanos} else multiset{}
  {
    var s' := Step(s, e.t, e.a);
    var pc := s.pcs[e.t];
    StepOfOne(s, e);
    PendingUpdate(s.pcs, e.t, s'.pcs[e.t]);
    hide Step, Enabled, AllPending, Pending;
    if e.a.Observe? {
      assert AllPending(s'.pcs) == AllPending(s.pcs) + multiset{e.a.nanos};
    } else if pc.Counted? {
      Settled(multiset(s.observed), AllPending(s.pcs), AllPending(s'.pcs), multiset{pc.nanos});
      assert multiset(s.observed + [pc.nanos]) == multiset(s.observed) + multiset{pc.nanos};
    } else {
      SameRest(AllPending(s'.pcs), AllPending(s.pcs), Pending(pc));
    }
  }

  /** Nothing observed is lost, made up or counted twice: what is done and what is pending is what was started. */
  lemma {:induction false} ObservedAreStarted(given: seq<Float>, threads: nat, ss: seq<State>, es: seq<Event>, k: nat)
    requires IsRun(given, threads, ss, es) && k < |ss|
    ensures multiset(ss[k].observed) + AllPending(ss[k].pcs) == multiset(Started(es[..k]))
    ensures (forall t :: 0 <= t < |ss[k].pcs| ==> ss[k].pcs[t].Idle?) ==>
      multiset(ss[k].observed) == multiset(Started(es[..k]))
  {
    hide Step, Enabled, Sort, AllPending, Started;
    if forall t :: 0 <= t < |ss[k].pcs| ==> ss[k].pcs[t].Idle? {
      NothingPending(ss[k].pcs);
    }
    if k == 0 {
      NothingPending(ss[0].pcs);
      assert Started(es[..0]) == [] by {
        NothingStarted();
      }
    } else {
      var s, e := ss[k - 1], es[k - 1];
      ObservedAreStarted(given, threads, ss, es, k - 1);
      assert ss[k - 1 + 1] == Step(s, e.t, e.a);
      hide IsRun;
      StepStarts(s, e);
      StartedNext(es, k);
    }
  }

  lemma NothingStarted()
    ensures Started([]) == []
  {
  }

  lemma StartedNext(es: seq<Event>, k: nat)
    requires 0 < k <= |es|
    ensures multiset(Started(es[..k]))
         == multiset(Started(es[..k - 1])) + if es[k - 1].a.Observe? then multiset{es[k - 1].a.nanos} else multiset{}
  {
    assert es[..k][..k - 1] == es[..k - 1] && es[..k][k - 1] == es[k - 1];
  }

  // ---- what a snapshot reads, and when --------------------------------------------------------

  lemma StepOfReader(s: State, e: Event, t: nat)
    requires Enabled(s, e.t, e.a) && t < |s.pcs|
    ensures var s' := Step(s, e.t, e.a);
            var pc, pc' := s.pcs[t], s'.pcs[t];
            && |s'.pcs| == |s.pcs|
            && (e.t != t ==> pc' == pc)
            && (e.t == t && pc'.LoadedSum? ==> e.a.StartSnapshot? && pc'.sum == s.sum)
            && (e.t == t && pc'.Loading? ==>
                  && e.a.Resume? && (pc.LoadedSum? || pc.Loading?) && pc'.sum == pc.sum
                  && (pc.Loading? ==> pc'.count == pc.count && pc'.since == pc.since && pc'.between == pc.between)
                  && (pc.LoadedSum? ==>
                        pc'.count == s.count && pc'.since == |s.observed| && pc'.between == Sum(Between(s.pcs))))
  {
    BetweenNonNegative(s.pcs);
    hide Wrap, Sum, Between, BucketAdd;
  }

  /** The sum of a snapshot is what the counter held when the snapshot began. */
  lemma {:induction false} ReadsTheSum(
    given: seq<Float>, threads: nat, ss: seq<State>, es: seq<Event>, k: nat, t: nat) returns (i: nat)
    requires IsRun(given, threads, ss, es) && k < |ss|
    requires t < |ss[k].pcs| && (ss[k].pcs[t].LoadedSum? || ss[k].pcs[t].Loading?)
    ensures i < k && i < |es| < |ss| && es[i] == Event(t, StartSnapshot) && ss[k].pcs[t].sum == ss[i].sum
    ensures forall m :: i < m < k && es[m].t == t ==> es[m].a.Resume?
  {
    hide Step, Enabled, Sort;
    assert k > 0;
    var s, e := ss[k - 1], es[k - 1];
    assert ss[k - 1 + 1] == Step(s, e.t, e.a);
    SameThreads(s, e);
    StepOfReader(s, e, t);
    if e.t == t && ss[k].pcs[t].LoadedSum? {
      i := k - 1;
    } else {
      i := ReadsTheSum(given, threads, ss, es, k - 1, t);
    }
  }

  lemma SameThreads(s: State, e: Event)
    requires Enabled(s, e.t, e.a)
    ensures |Step(s, e.t, e.a).pcs| == |s.pcs|
  {
  }

  /**
   Its count is what the counter held at the load after that; `since` and `between`
   are the observations then complete and the observers then between their updates.
   */
  lemma {:induction false} ReadsTheCount(
    given: seq<Float>, threads: nat, ss: seq<State>, es: seq<Event>, k: nat, t: nat) returns (j: nat)
    requires IsRun(given, threads, ss, es) && k < |ss| && t < |ss[k].pcs| && ss[k].pcs[t].Loading?
    ensures j < k && j < |es| < |ss| && es[j] == Event(t, Resume) && t < |ss[j].pcs| && ss[j].pcs[t].LoadedSum?
    ensures var read := ss[k].pcs[t];
            && read.count == ss[j].count && read.since == |ss[j].observed|
            && read.between == Sum(Between(ss[j].pcs)) && read.sum == ss[j].pcs[t].sum
  {
    hide Step, Enabled, Sort, Sum, Between;
    assert k > 0;
    var s, e := ss[k - 1], es[k - 1];
    assert ss[k - 1 + 1] == Step(s, e.t, e.a);
    SameThreads(s, e);
    StepOfReader(s, e, t);
    if e.t == t && s.pcs[t].LoadedSum? {
      j := k - 1;
    } else {
      j := ReadsTheCount(given, threads, ss, es, k - 1, t);
    }
  }

  /** No observer or reader ever waits for another. */
  lemma NeverWaits(s: State, t: nat, nanos: nat)
    requires t < |s.pcs|
    ensures if !s.pcs[t].Idle? then Enabled(s, t, Resume)
            else Enabled(s, t, StartSnapshot) && (nanos < 18446744073709551616 ==> Enabled(s, t, Observe(nanos)))
  {
  }
}
