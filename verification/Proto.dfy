/**
 The protobuf metric model that collection produces and the encoders consume.

 A float is an element of the extended real line or NaN; the sign of zero and
 rounding are not represented.
 */
module Proto {
  import opened Base

  datatype Float = NaN | NegInf | Finite(value: real) | PosInf {
    /** IEEE `<`: false whenever either side is NaN. */
    predicate Less(other: Float) {
      match (this, other)
      case (NaN, _) => false
      case (_, NaN) => false
      case (Finite(a), Finite(b)) => a < b
      case (NegInf, _) => other != NegInf
      case (PosInf, _) => false
      case (Finite(_), _) => other == PosInf
    }

    /** IEEE `<=`. */
    predicate AtMost(other: Float) {
      Less(other) || (this == other && this != NaN)
    }
  }

  const ZERO: Float := Finite(0.0)

  function Pow2(n: nat): (p: real)
    ensures p >= 1.0
  {
    if n == 0 then 1.0 else 2.0 * Pow2(n - 1)
  }

  /** The largest finite `f64`. */
  const F64_MAX: Float := Finite(9007199254740991.0 * Pow2(971))

  /** `x` is `m` times or over a power of two that an `f64` exponent allows. */
  predicate IsScaled(x: real, m: int, k: nat) {
    || (k <= 971 && x == m as real * Pow2(k))
    || (k <= 1074 && x * Pow2(k) == m as real)
  }

  /** The finite values an `f64` can hold: at most 53 significant bits, scaled by a power of two. */
  ghost predicate IsFiniteF64(x: real) {
    exists m: int, k: nat :: -0x20_0000_0000_0000 < m < 0x20_0000_0000_0000 && IsScaled(x, m, k)
  }

  /** Whether `f` is within the range of an `f64`: finite values do not exceed `F64_MAX`. */
  predicate IsF64(f: Float) {
    f.Finite? ==> -F64_MAX.value <= f.value <= F64_MAX.value
  }

  lemma {:induction false} Pow2Grows(k: nat, n: nat)
    requires k <= n
    ensures Pow2(k) <= Pow2(n)
  {
    if k < n {
      Pow2Grows(k, n - 1);
    }
  }

  lemma ProductGrows(m: real, p: real, n: real, q: real)
    requires -n <= m <= n && 0.0 < p <= q
    ensures -(n * q) <= m * p <= n * q
  {
    assert m * p <= n * p <= n * q;
    assert -n * p <= m * p;
  }

  lemma DividedShrinks(x: real, p: real, n: real)
    requires p >= 1.0 && -n <= x * p <= n
    ensures -n <= x <= n
  {
    if x >= 0.0 {
      assert x <= x * p;
    } else {
      assert x * p <= x;
    }
  }

  /** Every `f64` value is in that range. */
  lemma FiniteIsInRange(x: real)
    requires IsFiniteF64(x)
    ensures IsF64(Finite(x))
  {
    hide Pow2;
    var m: int, k: nat :| -0x20_0000_0000_0000 < m < 0x20_0000_0000_0000 && IsScaled(x, m, k);
    if k <= 971 && x == m as real * Pow2(k) {
      Pow2Grows(k, 971);
      ProductGrows(m as real, Pow2(k), 9007199254740991.0, Pow2(971));
    } else {
      DividedShrinks(x, Pow2(k), 9007199254740991.0);
      ProductGrows(9007199254740991.0, 1.0, 9007199254740991.0, Pow2(971));
    }
  }

  /** The order of floats: that of the reals between the two infinities, and nothing for NaN. */
  lemma FloatOrder(a: Float, b: Float)
    ensures a.AtMost(b) <==>
      !a.NaN? && !b.NaN? && (a.NegInf? || b.PosInf? || (a.Finite? && b.Finite? && a.value <= b.value))
    ensures a.Less(b) <==> a.AtMost(b) && a != b
  {
  }

  lemma {:induction false} Pow2Adds(k: nat, n: nat)
    ensures Pow2(k + n) == Pow2(k) * Pow2(n)
  {
    if n > 0 {
      Pow2Adds(k, n - 1);
      var p, q := Pow2(k), Pow2(n - 1);
      assert 2.0 * (p * q) == p * (2.0 * q);
    }
  }

  /** The largest `f64` falls short of two to the 1024th by one unit in its last place. */
  lemma LargestFloat()
    ensures Pow2(0) == 1.0 && Pow2(1) == 2.0
    ensures F64_MAX.value + Pow2(971) == Pow2(1024)
  {
    assert Pow2(0) == 1.0;
    Pow2Of53();
    Pow2Adds(971, 53);
    hide Pow2;
    assert Pow2(1024) == Pow2(971) * 9007199254740992.0;
  }

  lemma Pow2Of53()
    ensures Pow2(53) == 9007199254740992.0
  {
    assert Pow2(1) == 2.0 && Pow2(2) == 4.0;
    hide Pow2;
    Pow2Adds(2, 2);
    Pow2Adds(4, 4);
    Pow2Adds(8, 8);
    Pow2Adds(16, 16);
    Pow2Adds(32, 16);
    Pow2Adds(48, 4);
    Pow2Adds(52, 1);
  }

  datatype LabelPair = LabelPair(name: Option<string>, value: Option<string>)

  datatype Timestamp = Timestamp(seconds: int, nanos: int)

  datatype Exemplar = Exemplar(labels: seq<LabelPair>, value: Option<Float>, timestamp: Option<Timestamp>)

  datatype Counter = Counter(value: Option<Float>, exemplar: Option<Exemplar>)

  datatype Quantile = Quantile(quantile: Option<Float>, value: Option<Float>)

  datatype Summary = Summary(sampleCount: Option<nat>, sampleSum: Option<Float>, quantiles: seq<Quantile>)

  datatype Bucket = Bucket(
    cumulativeCount: Option<nat>,
    cumulativeCountFloat: Option<Float>,
    upperBound: Option<Float>,
    exemplar: Option<Exemplar>)

  datatype BucketSpan = BucketSpan(offset: int, length: nat)

  /** The fields that only a native (sparse) histogram fills in. */
  datatype NativeBuckets = NativeBuckets(
    schema: Option<int>,
    zeroThreshold: Option<Float>,
    zeroCount: Option<nat>,
    zeroCountFloat: Option<Float>,
    negativeSpan: seq<BucketSpan>,
    negativeDelta: seq<int>,
    negativeCount: seq<Float>,
    positiveSpan: seq<BucketSpan>,
    positiveDelta: seq<int>,
    positiveCount: seq<Float>)

  const NO_NATIVE_BUCKETS: NativeBuckets :=
    NativeBuckets(None, None, None, None, [], [], [], [], [], [])

  datatype Histogram = Histogram(
    sampleCount: Option<nat>,
    sampleCountFloat: Option<Float>,
    sampleSum: Option<Float>,
    buckets: seq<Bucket>,
    native: NativeBuckets,
    exemplars: seq<Exemplar>)

  datatype Metric = Metric(
    labels: seq<LabelPair>,
    gauge: Option<Option<Float>>,
    counter: Option<Counter>,
    summary: Option<Summary>,
    untyped: Option<Option<Float>>,
    histogram: Option<Histogram>,
    timestampMs: Option<int>)

  datatype MetricType = CounterType | GaugeType | SummaryType | UntypedType | HistogramType | GaugeHistogramType

  /** `MetricType::try_from` on the wire number. */
  function MetricTypeOf(wire: Option<int>): Option<MetricType> {
    match wire
    case None => None
    case Some(n) =>
      if n == 0 then Some(CounterType)
      else if n == 1 then Some(GaugeType)
      else if n == 2 then Some(SummaryType)
      else if n == 3 then Some(UntypedType)
      else if n == 4 then Some(HistogramType)
      else if n == 5 then Some(GaugeHistogramType)
      else None
  }

  datatype MetricFamily = MetricFamily(
    name: Option<string>,
    help: Option<string>,
    mtype: Option<int>,
    metrics: seq<Metric>,
    unit: Option<string>)
}
