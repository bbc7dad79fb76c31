/** Which text items a metric family stands for, independently of how they are written. */
module TextItems {
  import opened Base
  import opened Proto
  import opened TextGrammar
  import opened Validation

  // ---- numbers ----------------------------------------------------------------------

  predicate IsFloatChar(c: char) { IsDigit(c) || c in ".-+eE" }

  predicate HasPoint(t: string) { '.' in t || 'e' in t || 'E' in t }

  predicate EndsWith(s: string, suffix: string) {
    |s| >= |suffix| && s[|s| - |suffix|..] == suffix
  }

  function StripPointZero(t: string): string {
    if EndsWith(t, ".0") then t[..|t| - 2] else t
  }

  /** What the encoder relies on from the shortest-digits formatter: number characters, and more than `.0`. */
  ghost predicate IsFormatter(ryu: real -> string) {
    forall x :: StripPointZero(ryu(x)) != "" && forall i :: 0 <= i < |ryu(x)| ==> IsFloatChar(ryu(x)[i])
  }

  /** Different `f64` values get tokens that differ in more than a trailing `.0`. */
  ghost predicate TellsApart(ryu: real -> string) {
    forall x, y :: IsFiniteF64(x) && IsFiniteF64(y) && StripPointZero(ryu(x)) == StripPointZero(ryu(y)) ==> x == y
  }

  /** Floats always show a point or an exponent. */
  function FloatToken(ryu: real -> string, v: Float): string {
    match v
    case NaN => "NaN"
    case PosInf => "+Inf"
    case NegInf => "-Inf"
    case Finite(x) => if HasPoint(ryu(x)) then ryu(x) else ryu(x) + ".0"
  }

  /** Counters and gauges show integral values without a trailing `.0`. */
  function LegacyToken(ryu: real -> string, v: Float): string {
    if v.Finite? then StripPointZero(ryu(v.value)) else FloatToken(ryu, v)
  }

  function Decimal(n: nat): (t: string)
    ensures IsToken(t) && forall i :: 0 <= i < |t| ==> IsDigit(t[i])
  {
    if n < 10 then ["0123456789"[n]] else Decimal(n / 10) + ["0123456789"[n % 10]]
  }

  function DecimalValue(t: string): int
    requires forall i :: 0 <= i < |t| ==> IsDigit(t[i])
  {
    if t == "" then 0 else DecimalValue(t[..|t| - 1]) * 10 + (t[|t| - 1] as int - '0' as int)
  }

  lemma {:induction false} DecimalRoundTrip(n: nat)
    ensures DecimalValue(Decimal(n)) == n
  {
    if n < 10 {
      assert Decimal(n)[..0] == "";
    } else {
      DecimalRoundTrip(n / 10);
      assert Decimal(n)[..|Decimal(n)| - 1] == Decimal(n / 10);
    }
  }

  lemma FloatCharsMakeToken(t: string)
    requires t != "" && forall i :: 0 <= i < |t| ==> IsFloatChar(t[i])
    ensures IsToken(t)
  {
    forall i | 0 <= i < |t| ensures IsTokenChar(t[i]) {
      assert IsFloatChar(t[i]);
    }
  }

  lemma FloatTokenIsToken(ryu: real -> string, v: Float)
    requires IsFormatter(ryu)
    ensures IsToken(FloatToken(ryu, v)) && IsToken(LegacyToken(ryu, v))
  {
    if v.Finite? {
      var t := ryu(v.value);
      FloatCharsMakeToken(t);
      FloatCharsMakeToken(t + ".0");
      FloatCharsMakeToken(StripPointZero(t));
    }
  }

  /** The written token determines the float. */
  lemma FloatTokenInjective(ryu: real -> string, v: Float, w: Float)
    requires IsFormatter(ryu) && TellsApart(ryu)
    requires (v.Finite? ==> IsFiniteF64(v.value)) && (w.Finite? ==> IsFiniteF64(w.value))
    ensures FloatToken(ryu, v) == FloatToken(ryu, w) ==> v == w
    ensures LegacyToken(ryu, v) == LegacyToken(ryu, w) ==> v == w
  {
    if v.Finite? && w.Finite? {
      StripToken(ryu, v.value);
      StripToken(ryu, w.value);
    } else if v.Finite? {
      SpecialIsNoNumber(ryu, v.value, w);
    } else if w.Finite? {
      SpecialIsNoNumber(ryu, w.value, v);
    }
  }

  lemma StripToken(ryu: real -> string, x: real)
    ensures StripPointZero(FloatToken(ryu, Finite(x))) == StripPointZero(ryu(x))
  {
    var t := ryu(x);
    if !HasPoint(t) {
      assert (t + ".0")[|t|..] == ".0" && (t + ".0")[..|t|] == t;
      assert |t| >= 2 ==> t[|t| - 2..][0] == t[|t| - 2];
    }
  }

  lemma SpecialIsNoNumber(ryu: real -> string, x: real, special: Float)
    requires IsFormatter(ryu) && !special.Finite?
    ensures FloatToken(ryu, special) != FloatToken(ryu, Finite(x))
    ensures LegacyToken(ryu, special) != LegacyToken(ryu, Finite(x))
  {
    var i := if special.NaN? then 0 else 1;
    assert !IsFloatChar(FloatToken(ryu, special)[i]);
    var t := ryu(x) + ".0";
    forall k | 0 <= k < |t| ensures IsFloatChar(t[k]) {
      assert k < |ryu(x)| ==> IsFloatChar(ryu(x)[k]);
    }
    assert |FloatToken(ryu, Finite(x))| > i ==> FloatToken(ryu, Finite(x))[i] == t[i];
    assert |LegacyToken(ryu, Finite(x))| > i ==> LegacyToken(ryu, Finite(x))[i] == t[i];
  }

  // ---- samples ---------------------------------------------------------------------------

  datatype SampleValue = PlainFloat(f: Float) | LegacyCompatibleFloat(f: Float) | Unsigned(n: nat)

  function ValueToken(ryu: real -> string, value: SampleValue): string {
    match value
    case PlainFloat(f) => FloatToken(ryu, f)
    case LegacyCompatibleFloat(f) => LegacyToken(ryu, f)
    case Unsigned(n) => Decimal(n)
  }

  function LabelItem(pair: LabelPair): Label { (pair.name.GetOr(""), pair.value.GetOr("")) }

  function LabelItems(labels: seq<LabelPair>): seq<Label> {
    seq(|labels|, i requires 0 <= i < |labels| => LabelItem(labels[i]))
  }

  /** The row's own labels in order, then the label the sample kind adds. */
  function SampleLabels(ryu: real -> string, labels: seq<LabelPair>, extra: Option<(string, Float)>): seq<Label> {
    LabelItems(labels) + if extra.Some? then [(extra.value.0, FloatToken(ryu, extra.value.1))] else []
  }

  /** A timestamp in seconds. */
  function TimeOf(t: Timestamp): real { t.seconds as real + t.nanos as real / 1000000000.0 }

  function ExemplarOf(ryu: real -> string, e: Exemplar): ExemplarItem {
    ExemplarItem(
      LabelItems(e.labels),
      FloatToken(ryu, e.value.GetOr(ZERO)),
      if e.timestamp.None? then None
      else Some(FloatToken(ryu, Finite(TimeOf(e.timestamp.value)))))
  }

  function SampleItem(ryu: real -> string, name: string, suffix: string, metric: Metric,
                      extra: Option<(string, Float)>, value: SampleValue, exemplar: Option<Exemplar>): Item {
    Sample(
      name + suffix,
      SampleLabels(ryu, metric.labels, extra),
      ValueToken(ryu, value),
      (if metric.timestampMs.None? then None
       else Some(FloatToken(ryu, Finite(metric.timestampMs.value as real / 1000.0)))),
      if exemplar.None? then None else Some(ExemplarOf(ryu, exemplar.value)))
  }

  function PlainSample(ryu: real -> string, name: string, suffix: string, metric: Metric, value: SampleValue): Item {
    SampleItem(ryu, name, suffix, metric, None, value, None)
  }

  // ---- rows -----------------------------------------------------------------------------------

  predicate IsPositive(count: Option<Float>) { count.Some? && ZERO.Less(count.value) }

  predicate HasNativeBuckets(h: Histogram) {
    h.native != NO_NATIVE_BUCKETS
  }

  /** Rows the text format cannot express. */
  predicate IsSkipped(h: Histogram) {
    || (h.buckets == [] && HasNativeBuckets(h))
    || IsPositive(h.sampleCountFloat)
    || exists i :: 0 <= i < |h.buckets| && IsPositive(h.buckets[i].cumulativeCountFloat)
  }

  /** The terminal `f64::MAX` bound is shown as infinity. */
  function ShownBound(b: Bucket): Float {
    var bound := b.upperBound.GetOr(ZERO);
    if bound == F64_MAX then PosInf else bound
  }

  function BucketItem(ryu: real -> string, name: string, metric: Metric, b: Bucket): Item {
    SampleItem(
      ryu, name, "_bucket", metric, Some(("le", ShownBound(b))), Unsigned(b.cumulativeCount.GetOr(0)), b.exemplar)
  }

  function InfinityItem(ryu: real -> string, name: string, metric: Metric, h: Histogram): Item {
    SampleItem(ryu, name, "_bucket", metric, Some(("le", PosInf)), Unsigned(h.sampleCount.GetOr(0)), None)
  }

  function BucketItems(ryu: real -> string, name: string, metric: Metric, buckets: seq<Bucket>): seq<Item> {
    seq(|buckets|, i requires 0 <= i < |buckets| => BucketItem(ryu, name, metric, buckets[i]))
  }

  predicate HasInfinityBucket(buckets: seq<Bucket>) {
    exists i :: 0 <= i < |buckets| && ShownBound(buckets[i]) == PosInf
  }

  function HistogramItems(ryu: real -> string, name: string, mtype: MetricType, metric: Metric, h: Histogram)
    : seq<Item>
  {
    var (sumSuffix, countSuffix) := if mtype == GaugeHistogramType then ("_gsum", "_gcount") else ("_sum", "_count");
    if IsSkipped(h) then []
    else
      [PlainSample(ryu, name, sumSuffix, metric, PlainFloat(h.sampleSum.GetOr(ZERO))),
       PlainSample(ryu, name, countSuffix, metric, Unsigned(h.sampleCount.GetOr(0)))]
      + BucketItems(ryu, name, metric, h.buckets)
      + if HasInfinityBucket(h.buckets) then [] else [InfinityItem(ryu, name, metric, h)]
  }

  function QuantileItem(ryu: real -> string, name: string, metric: Metric, q: Quantile): Item {
    SampleItem(ryu, name, "", metric, Some(("quantile", q.quantile.GetOr(ZERO))), PlainFloat(q.value.GetOr(ZERO)), None)
  }

  function QuantileItems(ryu: real -> string, name: string, metric: Metric, quantiles: seq<Quantile>): seq<Item> {
    seq(|quantiles|, i requires 0 <= i < |quantiles| => QuantileItem(ryu, name, metric, quantiles[i]))
  }

  /** A row without the value its family's type calls for has no items. */
  function MetricItems(ryu: real -> string, name: string, mtype: MetricType, metric: Metric): seq<Item> {
    match mtype
    case CounterType =>
      if metric.counter.None? then []
      else [SampleItem(ryu, name, "", metric, None,
                       LegacyCompatibleFloat(metric.counter.value.value.GetOr(ZERO)), metric.counter.value.exemplar)]
    case GaugeType =>
      if metric.gauge.None? then []
      else [PlainSample(ryu, name, "", metric, LegacyCompatibleFloat(metric.gauge.value.GetOr(ZERO)))]
    case SummaryType =>
      if metric.summary.None? then []
      else
        var s := metric.summary.value;
        QuantileItems(ryu, name, metric, s.quantiles)
        + [PlainSample(ryu, name, "_sum", metric, PlainFloat(s.sampleSum.GetOr(ZERO))),
           PlainSample(ryu, name, "_count", metric, Unsigned(s.sampleCount.GetOr(0)))]
    case UntypedType =>
      if metric.untyped.None? then []
      else [PlainSample(ryu, name, "", metric, PlainFloat(metric.untyped.value.GetOr(ZERO)))]
    case _ =>
      if metric.histogram.None? then [] else HistogramItems(ryu, name, mtype, metric, metric.histogram.value)
  }

  function MetricsItems(ryu: real -> string, name: string, mtype: MetricType, metrics: seq<Metric>): seq<Item> {
    if metrics == [] then []
    else
      MetricsItems(ryu, name, mtype, metrics[..|metrics| - 1]) + MetricItems(ryu, name, mtype, metrics[|metrics| - 1])
  }

  function FamilyItems(ryu: real -> string, family: MetricFamily): seq<Item> {
    var mtype := MetricTypeOf(family.mtype);
    if family.name.None? || mtype.None? then []
    else
      var name := family.name.value;
      (if family.help.GetOr("") == "" then [] else [Help(name, family.help.value)])
      + [Type(name, mtype.value)]
      + (if family.unit.None? then [] else [Unit(name, family.unit.value)])
      + MetricsItems(ryu, name, mtype.value, family.metrics)
  }

  /** The document's items: those of every family with a usable name, after sanitizing. */
  ghost function DocItems(ryu: real -> string, families: seq<MetricFamily>): seq<Item> {
    if families == [] then []
    else
      var last := families[|families| - 1];
      DocItems(ryu, families[..|families| - 1])
      + if HasValidName(last) then FamilyItems(ryu, CleanFamily(last)) else []
  }

  // ---- every item is well formed ----------------------------------------------------------------

  ghost predicate AllItems(items: seq<Item>) { forall i :: 0 <= i < |items| ==> IsItem(items[i]) }

  lemma SampleIsItem(ryu: real -> string, name: string, suffix: string, metric: Metric,
                     extra: Option<(string, Float)>, value: SampleValue, exemplar: Option<Exemplar>)
    requires IsFormatter(ryu)
    ensures IsItem(SampleItem(ryu, name, suffix, metric, extra, value, exemplar))
  {
    hide FloatToken, LegacyToken, IsToken, LabelItems, SampleLabels, IsFormatter;
    forall v ensures IsToken(FloatToken(ryu, v)) && IsToken(LegacyToken(ryu, v)) {
      FloatTokenIsToken(ryu, v);
    }
  }

  lemma MetricItemsAreItems(ryu: real -> string, name: string, mtype: MetricType, metric: Metric)
    requires IsFormatter(ryu)
    ensures AllItems(MetricItems(ryu, name, mtype, metric))
  {
    hide SampleItem, IsFormatter, IsItem, ShownBound, IsSkipped, HasInfinityBucket;
    forall suffix, extra, value, exemplar
      ensures IsItem(SampleItem(ryu, name, suffix, metric, extra, value, exemplar))
    {
      SampleIsItem(ryu, name, suffix, metric, extra, value, exemplar);
    }
  }

  lemma {:induction false} MetricsItemsAreItems(
    ryu: real -> string, name: string, mtype: MetricType, metrics: seq<Metric>)
    requires IsFormatter(ryu)
    ensures AllItems(MetricsItems(ryu, name, mtype, metrics))
  {
    hide MetricItems, IsFormatter, IsItem;
    if metrics != [] {
      MetricsItemsAreItems(ryu, name, mtype, metrics[..|metrics| - 1]);
      MetricItemsAreItems(ryu, name, mtype, metrics[|metrics| - 1]);
    }
  }

  lemma {:induction false} DocItemsAreItems(ryu: real -> string, families: seq<MetricFamily>)
    requires IsFormatter(ryu)
    ensures AllItems(DocItems(ryu, families))
  {
    hide MetricsItems, IsFormatter;
    if families != [] {
      DocItemsAreItems(ryu, families[..|families| - 1]);
      var family := CleanFamily(families[|families| - 1]);
      if family.name.Some? && MetricTypeOf(family.mtype).Some? {
        MetricsItemsAreItems(ryu, family.name.value, MetricTypeOf(family.mtype).value, family.metrics);
      }
    }
  }

  ghost function EachFamilyItems(ryu: real -> string, families: seq<MetricFamily>): seq<seq<Item>> {
    seq(|families|, i requires 0 <= i < |families| => FamilyItems(ryu, families[i]))
  }

  lemma NoDocItems(ryu: real -> string)
    ensures DocItems(ryu, []) == []
  {
  }

  lemma CleanDocItemsStep(ryu: real -> string, families: seq<MetricFamily>)
    requires families != [] && FamilyOk(families[|families| - 1])
    ensures DocItems(ryu, families)
         == DocItems(ryu, families[..|families| - 1]) + FamilyItems(ryu, families[|families| - 1])
  {
    hide FamilyItems;
  }

  /** Families that are already clean, as collection returns them, lose nothing on the way to text. */
  lemma {:induction false} CleanDocItems(ryu: real -> string, families: seq<MetricFamily>)
    requires forall i :: 0 <= i < |families| ==> FamilyOk(families[i])
    ensures DocItems(ryu, families) == Flatten(EachFamilyItems(ryu, families))
  {
    hide FamilyItems, DocItems, FamilyOk;
    if families == [] {
      NoDocItems(ryu);
    } else {
      var n := |families| - 1;
      CleanDocItems(ryu, families[..n]);
      CleanDocItemsStep(ryu, families);
      var last := FamilyItems(ryu, families[n]);
      assert EachFamilyItems(ryu, families) == EachFamilyItems(ryu, families[..n]) + [last];
      FlattenAppend(EachFamilyItems(ryu, families[..n]), [last]);
      assert Flatten([last]) == last by {
        assert [last][1..] == [];
      }
    }
  }
}
