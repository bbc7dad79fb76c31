/** What the printed items say: each family, row, sample and number, field by field. */
module TextRows {
  import opened Base
  import opened Proto
  import opened Validation
  import opened TextGrammar
  import opened TextItems

  // ---- numbers ---------------------------------------------------------------------------

  /** Special values have their own tokens; a finite one is as formatted, with `.0` added or dropped. */
  lemma FloatTokens(ryu: real -> string, x: real)
    ensures FloatToken(ryu, NaN) == LegacyToken(ryu, NaN) == "NaN"
    ensures FloatToken(ryu, PosInf) == LegacyToken(ryu, PosInf) == "+Inf"
    ensures FloatToken(ryu, NegInf) == LegacyToken(ryu, NegInf) == "-Inf"
    ensures if exists i :: 0 <= i < |ryu(x)| && ryu(x)[i] in ".eE" then FloatToken(ryu, Finite(x)) == ryu(x)
            else FloatToken(ryu, Finite(x)) == ryu(x) + ".0"
    ensures LegacyToken(ryu, Finite(x)) + ".0" == ryu(x)
      || (LegacyToken(ryu, Finite(x)) == ryu(x) && forall t: string :: t + ".0" != ryu(x))
  {
    var t := ryu(x);
    assert HasPoint(t) <==> exists i :: 0 <= i < |t| && t[i] in ".eE";
    if EndsWith(t, ".0") {
      assert t == t[..|t| - 2] + ".0";
    } else {
      forall u: string ensures u + ".0" != t {
        assert (u + ".0")[|u|..] == ".0";
      }
    }
  }

  /** A count is written in base ten, without leading zeros. */
  lemma DecimalDigits(n: nat, digit: nat)
    requires digit < 10
    ensures Decimal(digit) == ['0' + digit as char]
    ensures n > 0 ==> Decimal(10 * n + digit) == Decimal(n) + ['0' + digit as char]
  {
    assert (10 * n + digit) / 10 == n && (10 * n + digit) % 10 == digit;
  }

  // ---- one sample ---------------------------------------------------------------------------

  ghost function OrZero(f: Option<Float>): Float { if f.Some? then f.value else Finite(0.0) }

  /** The row's own labels, absent names and values as empty strings, then the added one. */
  ghost predicate ShowsLabels(labels: seq<Label>, own: seq<LabelPair>, extra: seq<Label>) {
    && |labels| == |own| + |extra|
    && (forall k :: 0 <= k < |own| ==>
          && labels[k].0 == (if own[k].name.Some? then own[k].name.value else "")
          && labels[k].1 == (if own[k].value.Some? then own[k].value.value else ""))
    && labels[|own|..] == extra
  }

  /** The value is that of the exemplar, the time in seconds. */
  ghost predicate ShowsExemplar(ryu: real -> string, item: Option<ExemplarItem>, e: Option<Exemplar>) {
    && (item.Some? <==> e.Some?)
    && (e.Some? ==>
          && ShowsLabels(item.value.labels, e.value.labels, [])
          && item.value.value == FloatToken(ryu, OrZero(e.value.value))
          && (item.value.timestamp.Some? <==> e.value.timestamp.Some?)
          && (e.value.timestamp.Some? ==>
                var time := e.value.timestamp.value;
                item.value.timestamp.value
                == FloatToken(ryu, Finite(time.seconds as real + 0.000000001 * time.nanos as real))))
  }

  /** A sample of a row: its name, labels, value, time in seconds and exemplar. */
  ghost predicate Shows(ryu: real -> string, item: Item, name: string, metric: Metric, extra: seq<Label>,
                        value: string, exemplar: Option<Exemplar>) {
    && item.Sample? && item.name == name && item.value == value
    && ShowsLabels(item.labels, metric.labels, extra)
    && (item.timestamp.Some? <==> metric.timestampMs.Some?)
    && (metric.timestampMs.Some? ==>
          item.timestamp.value == FloatToken(ryu, Finite(0.001 * metric.timestampMs.value as real)))
    && ShowsExemplar(ryu, item.exemplar, exemplar)
  }

  lemma LabelsShown(ryu: real -> string, own: seq<LabelPair>, extra: Option<(string, Float)>)
    ensures ShowsLabels(SampleLabels(ryu, own, extra), own,
                        if extra.None? then [] else [(extra.value.0, FloatToken(ryu, extra.value.1))])
    ensures ShowsLabels(LabelItems(own), own, [])
  {
    hide FloatToken;
  }

  lemma SampleShown(ryu: real -> string, name: string, suffix: string, metric: Metric,
                    extra: Option<(string, Float)>, value: SampleValue, exemplar: Option<Exemplar>)
    ensures Shows(ryu, SampleItem(ryu, name, suffix, metric, extra, value, exemplar), name + suffix, metric,
                  if extra.None? then [] else [(extra.value.0, FloatToken(ryu, extra.value.1))],
                  ValueToken(ryu, value), exemplar)
  {
    hide FloatToken, ValueToken, SampleLabels, LabelItems, ShowsLabels;
    LabelsShown(ryu, metric.labels, extra);
    if exemplar.Some? {
      LabelsShown(ryu, exemplar.value.labels, None);
    }
  }

  // ---- one row ----------------------------------------------------------------------------------

  /** A counter's value and exemplar under the family's own name. */
  lemma CounterRow(ryu: real -> string, name: string, metric: Metric)
    ensures var items := MetricItems(ryu, name, CounterType, metric);
            if metric.counter.None? then items == []
            else
              && |items| == 1
              && Shows(ryu, items[0], name, metric, [], LegacyToken(ryu, OrZero(metric.counter.value.value)),
                       metric.counter.value.exemplar)
  {
    hide Shows, SampleItem, LegacyToken;
    if metric.counter.Some? {
      SampleShown(ryu, name, "", metric, None, LegacyCompatibleFloat(metric.counter.value.value.GetOr(ZERO)),
        metric.counter.value.exemplar);
      assert name + "" == name;
    }
  }

  lemma GaugeRow(ryu: real -> string, name: string, metric: Metric)
    ensures var items := MetricItems(ryu, name, GaugeType, metric);
            if metric.gauge.None? then items == []
            else
              && |items| == 1
              && Shows(ryu, items[0], name, metric, [], LegacyToken(ryu, OrZero(metric.gauge.value)), None)
  {
    hide Shows, SampleItem, LegacyToken;
    if metric.gauge.Some? {
      SampleShown(ryu, name, "", metric, None, LegacyCompatibleFloat(metric.gauge.value.GetOr(ZERO)), None);
      assert name + "" == name;
    }
  }

  lemma UntypedRow(ryu: real -> string, name: string, metric: Metric)
    ensures var items := MetricItems(ryu, name, UntypedType, metric);
            if metric.untyped.None? then items == []
            else
              && |items| == 1
              && Shows(ryu, items[0], name, metric, [], FloatToken(ryu, OrZero(metric.untyped.value)), None)
  {
    hide Shows, SampleItem, FloatToken;
    if metric.untyped.Some? {
      SampleShown(ryu, name, "", metric, None, PlainFloat(metric.untyped.value.GetOr(ZERO)), None);
      assert name + "" == name;
    }
  }

  /** One sample per quantile, labelled with the quantile and showing its value, then the sum and the count. */
  lemma SummaryRow(ryu: real -> string, name: string, metric: Metric)
    ensures var items := MetricItems(ryu, name, SummaryType, metric);
            if metric.summary.None? then items == []
            else
              var s := metric.summary.value;
              var n := |s.quantiles|;
              && |items| == n + 2
              && (forall i :: 0 <= i < n ==>
                    Shows(ryu, items[i], name, metric, [("quantile", FloatToken(ryu, OrZero(s.quantiles[i].quantile)))],
                          FloatToken(ryu, OrZero(s.quantiles[i].value)), None))
              && Shows(ryu, items[n], name + "_sum", metric, [], FloatToken(ryu, OrZero(s.sampleSum)), None)
              && Shows(ryu, items[n + 1], name + "_count", metric, [],
                       Decimal(if s.sampleCount.Some? then s.sampleCount.value else 0), None)
  {
    hide Shows, SampleItem, FloatToken, Decimal;
    if metric.summary.Some? {
      var s := metric.summary.value;
      var n := |s.quantiles|;
      var items := MetricItems(ryu, name, SummaryType, metric);
      forall i | 0 <= i < n
        ensures Shows(ryu, items[i], name, metric, [("quantile", FloatToken(ryu, OrZero(s.quantiles[i].quantile)))],
                      FloatToken(ryu, OrZero(s.quantiles[i].value)), None)
      {
        var q := s.quantiles[i];
        assert items[i] == QuantileItem(ryu, name, metric, q);
        SampleShown(ryu, name, "", metric, Some(("quantile", q.quantile.GetOr(ZERO))),
          PlainFloat(q.value.GetOr(ZERO)), None);
        assert name + "" == name;
      }
      SampleShown(ryu, name, "_sum", metric, None, PlainFloat(s.sampleSum.GetOr(ZERO)), None);
      SampleShown(ryu, name, "_count", metric, None, Unsigned(s.sampleCount.GetOr(0)), None);
    }
  }

  // ---- histograms -----------------------------------------------------------------------------------

  ghost predicate Positive(count: Option<Float>) {
    count.Some? && (count.value.PosInf? || (count.value.Finite? && count.value.value > 0.0))
  }

  /** A native histogram without classic buckets, or one with floating-point counts, has no text. */
  ghost predicate HasNoText(h: Histogram) {
    || (h.buckets == []
        && (h.native.schema.Some? || h.native.zeroThreshold.Some? || h.native.zeroCount.Some?
            || h.native.zeroCountFloat.Some? || h.native.negativeSpan != [] || h.native.negativeDelta != []
            || h.native.negativeCount != [] || h.native.positiveSpan != [] || h.native.positiveDelta != []
            || h.native.positiveCount != []))
    || Positive(h.sampleCountFloat)
    || exists i :: 0 <= i < |h.buckets| && Positive(h.buckets[i].cumulativeCountFloat)
  }

  /** The bound is infinity or the largest float. */
  ghost predicate AtTop(b: Bucket) {
    b.upperBound.Some? && (b.upperBound.value.PosInf? || b.upperBound.value == F64_MAX)
  }

  ghost function CountOf(count: Option<nat>): string { Decimal(if count.Some? then count.value else 0) }

  ghost predicate ShowsBucket(ryu: real -> string, item: Item, name: string, metric: Metric, b: Bucket) {
    Shows(ryu, item, name + "_bucket", metric,
          [("le", if AtTop(b) then "+Inf" else FloatToken(ryu, OrZero(b.upperBound)))],
          CountOf(b.cumulativeCount), b.exemplar)
  }

  lemma SkippedHasNoText(h: Histogram)
    ensures IsSkipped(h) <==> HasNoText(h)
  {
    assert forall c: Option<Float> :: IsPositive(c) <==> Positive(c);
    hide IsPositive, Positive;
    assert HasNativeBuckets(h) <==>
      h.native.schema.Some? || h.native.zeroThreshold.Some? || h.native.zeroCount.Some?
      || h.native.zeroCountFloat.Some? || h.native.negativeSpan != [] || h.native.negativeDelta != []
      || h.native.negativeCount != [] || h.native.positiveSpan != [] || h.native.positiveDelta != []
      || h.native.positiveCount != [];
  }

  lemma BucketShown(ryu: real -> string, name: string, metric: Metric, b: Bucket)
    ensures ShowsBucket(ryu, BucketItem(ryu, name, metric, b), name, metric, b)
    ensures AtTop(b) <==> ShownBound(b) == PosInf
  {
    SampleShown(ryu, name, "_bucket", metric, Some(("le", ShownBound(b))), Unsigned(b.cumulativeCount.GetOr(0)),
      b.exemplar);
    assert AtTop(b) ==> FloatToken(ryu, ShownBound(b)) == "+Inf";
    hide Shows, SampleItem, Decimal;
  }

  /** Sum and count, each bucket in order, and one more at infinity unless there was one. */
  lemma HistogramRow(ryu: real -> string, name: string, mtype: MetricType, metric: Metric)
    requires mtype.HistogramType? || mtype.GaugeHistogramType?
    ensures var items := MetricItems(ryu, name, mtype, metric);
            if metric.histogram.None? || HasNoText(metric.histogram.value) then items == []
            else
              var h := metric.histogram.value;
              var n := |h.buckets|;
              var seen := exists i :: 0 <= i < n && AtTop(h.buckets[i]);
              && |items| == n + (if seen then 2 else 3)
              && Shows(ryu, items[0], name + (if mtype.HistogramType? then "_sum" else "_gsum"), metric, [],
                       FloatToken(ryu, OrZero(h.sampleSum)), None)
              && Shows(ryu, items[1], name + (if mtype.HistogramType? then "_count" else "_gcount"), metric, [],
                       CountOf(h.sampleCount), None)
              && (forall i :: 0 <= i < n ==> ShowsBucket(ryu, items[i + 2], name, metric, h.buckets[i]))
              && (!seen ==>
                    Shows(ryu, items[n + 2], name + "_bucket", metric, [("le", "+Inf")], CountOf(h.sampleCount), None))
  {
    hide Shows, ShowsBucket, SampleItem, IsSkipped, HasNoText, Decimal, AtTop, ShownBound;
    if metric.histogram.Some? {
      var h := metric.histogram.value;
      SkippedHasNoText(h);
      if !IsSkipped(h) {
        var items := HistogramItems(ryu, name, mtype, metric, h);
        SampleShown(ryu, name, if mtype.HistogramType? then "_sum" else "_gsum", metric, None,
          PlainFloat(h.sampleSum.GetOr(ZERO)), None);
        SampleShown(ryu, name, if mtype.HistogramType? then "_count" else "_gcount", metric, None,
          Unsigned(h.sampleCount.GetOr(0)), None);
        forall i | 0 <= i < |h.buckets|
          ensures ShowsBucket(ryu, items[i + 2], name, metric, h.buckets[i])
          ensures AtTop(h.buckets[i]) <==> ShownBound(h.buckets[i]) == PosInf
        {
          BucketShown(ryu, name, metric, h.buckets[i]);
          assert items[i + 2] == BucketItem(ryu, name, metric, h.buckets[i]);
        }
        SampleShown(ryu, name, "_bucket", metric, Some(("le", PosInf)), Unsigned(h.sampleCount.GetOr(0)), None);
        assert FloatToken(ryu, PosInf) == "+Inf";
      }
    }
  }

  // ---- one family -------------------------------------------------------------------------------------

  /** The six metric types by their wire numbers. */
  const TYPES: seq<MetricType> :=
    [CounterType, GaugeType, SummaryType, UntypedType, HistogramType, GaugeHistogramType]

  ghost function RowsItems(ryu: real -> string, name: string, mtype: MetricType, rows: seq<Metric>): seq<seq<Item>> {
    seq(|rows|, i requires 0 <= i < |rows| => MetricItems(ryu, name, mtype, rows[i]))
  }

  lemma {:induction false} MetricsInOrder(ryu: real -> string, name: string, mtype: MetricType, rows: seq<Metric>)
    ensures MetricsItems(ryu, name, mtype, rows) == Flatten(RowsItems(ryu, name, mtype, rows))
  {
    hide MetricItems;
    if rows != [] {
      var n := |rows| - 1;
      MetricsInOrder(ryu, name, mtype, rows[..n]);
      var last := MetricItems(ryu, name, mtype, rows[n]);
      assert RowsItems(ryu, name, mtype, rows) == RowsItems(ryu, name, mtype, rows[..n]) + [last];
      FlattenAppend(RowsItems(ryu, name, mtype, rows[..n]), [last]);
      FlattenOne(last);
    }
  }

  /**
   A family of known type: a help line if there is any text, the type, a unit line
   if there is a unit, and its rows in order. Any other family says nothing.
   */
  lemma FamilyLines(ryu: real -> string, f: MetricFamily)
    requires f.name.Some?
    ensures if f.mtype.None? || !(0 <= f.mtype.value < 6) then FamilyItems(ryu, f) == []
            else
              var name, mtype := f.name.value, TYPES[f.mtype.value];
              FamilyItems(ryu, f)
              == (if f.help.None? || f.help.value == "" then [] else [Help(name, f.help.value)])
                 + [Type(name, mtype)]
                 + (if f.unit.None? then [] else [Unit(name, f.unit.value)])
                 + Flatten(RowsItems(ryu, name, mtype, f.metrics))
  {
    hide MetricItems, Flatten, MetricsItems, RowsItems;
    if f.mtype.Some? && 0 <= f.mtype.value < 6 {
      MetricsInOrder(ryu, f.name.value, TYPES[f.mtype.value], f.metrics);
    }
  }

  ghost function UsableItems(ryu: real -> string, families: seq<MetricFamily>): seq<seq<Item>> {
    seq(|families|, i requires 0 <= i < |families| =>
      if families[i].name.None? || families[i].name.value == "" || '\0' in families[i].name.value then []
      else FamilyItems(ryu, CleanFamily(families[i])))
  }

  /** The document is its sanitized families with a usable name, in order. */
  lemma {:induction false} FamiliesInOrder(ryu: real -> string, families: seq<MetricFamily>)
    ensures DocItems(ryu, families) == Flatten(UsableItems(ryu, families))
  {
    hide FamilyItems, CleanFamily;
    if families != [] {
      var n := |families| - 1;
      FamiliesInOrder(ryu, families[..n]);
      var last := if HasValidName(families[n]) then FamilyItems(ryu, CleanFamily(families[n])) else [];
      assert UsableItems(ryu, families) == UsableItems(ryu, families[..n]) + [last];
      FlattenAppend(UsableItems(ryu, families[..n]), [last]);
      FlattenOne(last);
    }
  }

  // ---- the lines themselves --------------------------------------------------------------------------

  ghost predicate Letter(c: char) { 'a' <= c <= 'z' || 'A' <= c <= 'Z' || c == '_' }

  /** A name that needs no quotes. */
  lemma LegacyNames(name: string)
    ensures IsLegacyMetricName(name) <==>
      && name != "" && (Letter(name[0]) || name[0] == ':')
      && forall i :: 0 < i < |name| ==> Letter(name[i]) || name[i] == ':' || '0' <= name[i] <= '9'
    ensures IsLegacyLabelName(name) <==>
      && name != "" && Letter(name[0])
      && forall i :: 0 < i < |name| ==> Letter(name[i]) || '0' <= name[i] <= '9'
  {
    if name != "" && !IsDigit(name[0]) {
      assert IsMetricNameChar(name[0]) <==> Letter(name[0]) || name[0] == ':';
      assert IsLabelNameChar(name[0]) <==> Letter(name[0]);
    }
  }

  /** Only three characters are escaped, each behind a backslash. */
  lemma Escapes(c: char, s: string)
    ensures Escape("") == ""
    ensures Escape([c] + s)
         == (if c == '\\' then ['\\', '\\'] else if c == '\n' then ['\\', 'n']
             else if c == '"' then ['\\', '"'] else [c])
            + Escape(s)
  {
    assert ([c] + s)[1..] == s;
  }

  /** A metadata line, by the wire number of the type for TYPE. */
  lemma MetadataLines(name: string, text: string, wire: nat)
    requires wire < 6
    ensures var shown := if IsLegacyMetricName(name) then name else "\"" + Escape(name) + "\"";
            && RenderItem(Help(name, text)) == "# HELP " + shown + " " + Escape(text) + "\n"
            && RenderItem(Unit(name, text)) == "# UNIT " + shown + " " + Escape(text) + "\n"
            && RenderItem(Type(name, TYPES[wire]))
               == "# TYPE " + shown + " "
                  + ["counter", "gauge", "summary", "unknown", "histogram", "gaugehistogram"][wire] + "\n"
  {
  }

  /** The name or label as it is shown in front of its value. */
  ghost function LabelText(pair: Label): string {
    (if IsLegacyLabelName(pair.0) then pair.0 else "\"" + Escape(pair.0) + "\"") + "=\"" + Escape(pair.1) + "\""
  }

  lemma TwoLabels(a: Label, b: Label)
    ensures RenderLabelTail([a, b]) == "," + LabelText(a) + "," + LabelText(b)
    ensures RenderBraced([a, b]) == "{" + LabelText(a) + "," + LabelText(b) + "}"
  {
    IsLabelText(a);
    IsLabelText(b);
    hide RenderLabel, LabelText;
    assert [a, b][1..] == [b] && [b][1..] == [];
    assert RenderLabelTail([b]) == "," + RenderLabel(b) + RenderLabelTail([]) == "," + RenderLabel(b);
  }

  lemma IsLabelText(pair: Label)
    ensures RenderLabel(pair) == LabelText(pair)
  {
    hide Escape, IsLegacyLabelName;
  }

  lemma SampleParts(head: string, value: string, time: string, braced: string, sampled: string)
    ensures head + " " + value + (" " + time) + (" # " + braced + " " + sampled + (" " + time)) + "\n"
         == head + " " + value + " " + time + " # " + braced + " " + sampled + " " + time + "\n"
  {
  }

  /** A sample line with two labels, a time and an exemplar, the name in front or quoted inside the braces. */
  lemma SampleLine(name: string, a: Label, b: Label, value: string, time: string, e: ExemplarItem)
    requires e.labels == [a, b] && e.timestamp == Some(time)
    ensures var braced := "{" + LabelText(a) + "," + LabelText(b) + "}";
            RenderItem(Sample(name, [a, b], value, Some(time), Some(e)))
            == (if IsLegacyMetricName(name) then name + braced
                else "{\"" + Escape(name) + "\"" + ("," + LabelText(a) + "," + LabelText(b)) + "}")
               + " " + value + " " + time + " # " + braced + " " + e.value + " " + time + "\n"
  {
    TwoLabels(a, b);
    var head := RenderHead(name, [a, b]);
    hide LabelText, Escape, IsLegacyMetricName, RenderBraced, RenderLabelTail;
    assert head == if IsLegacyMetricName(name) then name + RenderBraced([a, b])
                   else "{\"" + Escape(name) + "\"" + RenderLabelTail([a, b]) + "}";
    hide RenderHead;
    SampleParts(head, value, time, RenderBraced([a, b]), e.value);
  }

  /** Without labels, time and exemplar. */
  lemma BareLine(name: string, value: string)
    ensures RenderItem(Sample(name, [], value, None, None))
         == (if IsLegacyMetricName(name) then name else "{\"" + Escape(name) + "\"}") + " " + value + "\n"
  {
    hide Escape, IsLegacyMetricName;
  }
}
