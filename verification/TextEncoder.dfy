/** The encoder itself: writers that append to one output string. */
module TextEncoder {
  import opened Base
  import opened Proto
  import opened Validation
  import opened TextGrammar
  import opened TextItems
  import TextParser
  import TextRoundTrip

  ghost predicate IsSuffix(suffix: string) {
    forall i :: 0 <= i < |suffix| ==> IsMetricNameChar(suffix[i])
  }

  /** A suffix of plain name characters leaves a non-empty name on its side of the legacy grammar. */
  lemma SuffixKeepsLegacy(name: string, suffix: string)
    requires name != "" && IsSuffix(suffix)
    ensures IsLegacyMetricName(name + suffix) <==> IsLegacyMetricName(name)
    ensures Quoted(name + suffix) == "\"" + (Escape(name) + suffix) + "\""
  {
    if IsLegacyMetricName(name + suffix) {
      forall i | 0 <= i < |name| ensures IsMetricNameChar(name[i]) {
        assert (name + suffix)[i] == name[i];
      }
    }
    forall i | 0 <= i < |suffix| ensures suffix[i] !in "\\\n\"" {
      assert IsMetricNameChar(suffix[i]);
    }
    EscapePlain(suffix);
    EscapeAppend(name, suffix);
  }

  lemma TokenEscapesToItself(ryu: real -> string, v: Float)
    requires IsFormatter(ryu)
    ensures Escape(FloatToken(ryu, v)) == FloatToken(ryu, v)
  {
    FloatTokenIsToken(ryu, v);
    var t := FloatToken(ryu, v);
    forall i | 0 <= i < |t| ensures t[i] !in "\\\n\"" {
      assert IsTokenChar(t[i]);
    }
    EscapePlain(t);
  }

  lemma PairShape(before: string, name: string, value: string)
    ensures before + name + "=\"" + value + "\"" == before + (name + "=" + ("\"" + value + "\""))
  {
  }

  /** What stands between the braces. */
  ghost function Joined(labels: seq<Label>): string {
    if labels == [] then "" else RenderLabel(labels[0]) + RenderLabelTail(labels[1..])
  }

  lemma EmptyBraces()
    ensures RenderBraced([]) == "{}"
  {
  }

  lemma SingleTail(pair: Label)
    ensures RenderLabelTail([pair]) == "," + RenderLabel(pair)
  {
    hide RenderLabel;
    assert RenderLabelTail([pair][1..]) == "";
  }

  lemma NoTail()
    ensures RenderLabelTail([]) == ""
  {
  }

  lemma TailAppended(labels: seq<Label>, pair: Label)
    ensures forall before: string ::
      before + RenderLabelTail(labels) + "," + RenderLabel(pair) == before + RenderLabelTail(labels + [pair])
  {
    hide RenderLabel, RenderLabelTail;
    RenderLabelTailAppend(labels, [pair]);
    SingleTail(pair);
  }

  lemma QuotedHeadShape(before: string, name: string, suffix: string, labels: seq<Label>)
    requires !IsLegacyMetricName(name + suffix)
    requires Quoted(name + suffix) == "\"" + (Escape(name) + suffix) + "\""
    ensures before + "{" + "\"" + Escape(name) + suffix + "\"" + RenderLabelTail(labels) + "}"
         == before + RenderHead(name + suffix, labels)
  {
    hide Escape, RenderLabelTail, IsLegacyMetricName;
  }

  lemma ExemplarShape(before: string, e: ExemplarItem)
    ensures before + " # " + RenderBraced(e.labels) + " " + e.value + RenderTimestamp(e.timestamp)
         == before + RenderExemplar(Some(e))
  {
    hide RenderBraced, RenderTimestamp;
  }

  lemma SampleShape(before: string, item: Item)
    requires item.Sample?
    ensures before + RenderHead(item.name, item.labels) + " " + item.value + RenderTimestamp(item.timestamp)
              + RenderExemplar(item.exemplar) + "\n"
         == before + RenderItem(item)
  {
    hide RenderHead, RenderTimestamp, RenderExemplar;
  }

  lemma NothingJoined()
    ensures Joined([]) == ""
  {
  }

  lemma JoinedAppended(labels: seq<Label>, pair: Label)
    ensures forall before: string ::
      before + Joined(labels) + (if labels == [] then "" else ",") + RenderLabel(pair)
      == before + Joined(labels + [pair])
  {
    hide RenderLabel, RenderLabelTail;
    NoTail();
    if labels == [] {
      assert (labels + [pair])[1..] == [];
    } else {
      assert (labels + [pair])[1..] == labels[1..] + [pair];
      RenderLabelTailAppend(labels[1..], [pair]);
      SingleTail(pair);
    }
  }

  lemma BracedIsJoined(labels: seq<Label>)
    ensures RenderBraced(labels) == "{" + Joined(labels) + "}"
  {
  }

  class Encoder {
    const ryu: real -> string
    var output: string

    constructor (ryu: real -> string)
      ensures output == "" && this.ryu == ryu
    {
      this.ryu := ryu;
      output := "";
    }

    method Push(s: string)
      modifies this
      ensures output == old(output) + s
    {
      output := output + s;
    }

    method WriteEscaped(value: string)
      modifies this
      ensures output == old(output) + Escape(value)
    {
      for i := 0 to |value|
        invariant output == old(output) + Escape(value[..i])
      {
        EscapeAppend(value[..i], [value[i]]);
        assert value[..i + 1] == value[..i] + [value[i]];
        assert Escape([value[i]]) == EscapeChar(value[i]);
        ConcatAssoc(old(output), Escape(value[..i]), EscapeChar(value[i]));
        match value[i] {
          case '\\' => Push("\\\\");
          case '\n' => Push("\\n");
          case '"' => Push("\\\"");
          case c => Push([c]);
        }
      }
      assert value[..|value|] == value;
    }

    method WriteQuoted(value: string)
      modifies this
      ensures output == old(output) + Quoted(value)
    {
      hide Escape;
      Push("\"");
      WriteEscaped(value);
      Push("\"");
    }

    method WriteMetadataName(name: string)
      modifies this
      ensures output == old(output) + RenderMetricName(name)
    {
      hide Quoted;
      if IsLegacyMetricName(name) { Push(name); } else { WriteQuoted(name); }
    }

    method WriteLabelName(name: string)
      modifies this
      ensures output == old(output) + RenderLabelName(name)
    {
      hide Quoted;
      if IsLegacyLabelName(name) { Push(name); } else { WriteQuoted(name); }
    }

    method WriteFloatImpl(value: Float, preserveFloatSyntax: bool)
      modifies this
      ensures output == old(output) + if preserveFloatSyntax then FloatToken(ryu, value) else LegacyToken(ryu, value)
    {
      match value
      case NaN => Push("NaN");
      case PosInf => Push("+Inf");
      case NegInf => Push("-Inf");
      case Finite(x) =>
        var formatted := ryu(x);
        if !preserveFloatSyntax && EndsWith(formatted, ".0") {
          formatted := formatted[..|formatted| - 2];
        }
        Push(formatted);
        if preserveFloatSyntax && !HasPoint(formatted) {
          Push(".0");
        }
    }

    method WriteFloat(value: Float)
      modifies this
      ensures output == old(output) + FloatToken(ryu, value)
    {
      WriteFloatImpl(value, true);
    }

    /** `name="value"` for one of the row's own labels. */
    method WriteLabel(pair: LabelPair)
      modifies this
      ensures output == old(output) + RenderLabel(LabelItem(pair))
    {
      hide RenderLabelName, Escape;
      PairShape(output, RenderLabelName(pair.name.GetOr("")), Escape(pair.value.GetOr("")));
      WriteLabelName(pair.name.GetOr(""));
      Push("=\"");
      WriteEscaped(pair.value.GetOr(""));
      Push("\"");
    }

    /** The label a sample kind adds; its value is written unescaped. */
    method WriteExtraLabel(name: string, value: Float)
      requires IsFormatter(ryu)
      modifies this
      ensures output == old(output) + RenderLabel((name, FloatToken(ryu, value)))
    {
      hide RenderLabelName, Escape, FloatToken, IsFormatter;
      TokenEscapesToItself(ryu, value);
      PairShape(output, RenderLabelName(name), FloatToken(ryu, value));
      WriteLabelName(name);
      Push("=\"");
      WriteFloat(value);
      Push("\"");
    }

    /** The labels one after the other; returns what has to separate them from another one. */
    method WriteEach(labels: seq<LabelPair>) returns (separator: string)
      requires IsFormatter(ryu)
      modifies this
      ensures output == old(output) + Joined(LabelItems(labels))
      ensures separator == if LabelItems(labels) == [] then "" else ","
    {
      hide RenderLabel, Joined, IsFormatter;
      ghost var shown := LabelItems(labels);
      NothingJoined();
      assert old(output) + "" == old(output);
      separator := "";
      for i := 0 to |labels|
        invariant output == old(output) + Joined(shown[..i])
        invariant separator == if shown[..i] == [] then "" else ","
      {
        JoinedAppended(shown[..i], shown[i]);
        assert shown[..i + 1] == shown[..i] + [shown[i]];
        Push(separator);
        WriteLabel(labels[i]);
        separator := ",";
      }
      assert shown[..|labels|] == shown;
    }

    method WriteLabels(labels: seq<LabelPair>, extra: Option<(string, Float)>)
      requires IsFormatter(ryu)
      modifies this
      ensures var shown := SampleLabels(ryu, labels, extra);
              output == old(output) + if shown == [] then "" else RenderBraced(shown)
    {
      hide RenderLabel, RenderBraced, Joined, FloatToken, IsFormatter;
      if labels == [] && extra.None? {
        return;
      }
      ghost var shown := LabelItems(labels);
      Push("{");
      var separator := WriteEach(labels);
      if extra.Some? {
        JoinedAppended(shown, (extra.value.0, FloatToken(ryu, extra.value.1)));
        Push(separator);
        WriteExtraLabel(extra.value.0, extra.value.1);
      } else {
        assert SampleLabels(ryu, labels, extra) == shown;
      }
      BracedIsJoined(SampleLabels(ryu, labels, extra));
      Push("}");
    }

    /** The row's labels, each after a comma, then the added one. */
    method WriteLabelTail(labels: seq<LabelPair>, extra: Option<(string, Float)>)
      requires IsFormatter(ryu)
      modifies this
      ensures output == old(output) + RenderLabelTail(SampleLabels(ryu, labels, extra))
    {
      hide RenderLabel, RenderLabelTail, FloatToken, IsFormatter;
      ghost var shown := LabelItems(labels);
      NoTail();
      for i := 0 to |labels|
        invariant output == old(output) + RenderLabelTail(shown[..i])
      {
        TailAppended(shown[..i], shown[i]);
        assert shown[..i + 1] == shown[..i] + [shown[i]];
        Push(",");
        WriteLabel(labels[i]);
      }
      assert shown[..|labels|] == shown;
      if extra.Some? {
        TailAppended(shown, (extra.value.0, FloatToken(ryu, extra.value.1)));
        Push(",");
        WriteExtraLabel(extra.value.0, extra.value.1);
      } else {
        assert SampleLabels(ryu, labels, extra) == shown;
      }
    }

    /** The quoted-name form: the name comes first inside the braces. */
    method WriteQuotedHead(name: string, suffix: string, labels: seq<LabelPair>, extra: Option<(string, Float)>)
      requires IsFormatter(ryu) && name != "" && IsSuffix(suffix) && !IsLegacyMetricName(name)
      modifies this
      ensures output == old(output) + RenderHead(name + suffix, SampleLabels(ryu, labels, extra))
    {
      hide RenderLabelTail, SampleLabels, IsFormatter, Escape, Quoted, IsLegacyMetricName, IsSuffix;
      SuffixKeepsLegacy(name, suffix);
      QuotedHeadShape(output, name, suffix, SampleLabels(ryu, labels, extra));
      Push("{");
      Push("\"");
      WriteEscaped(name);
      Push(suffix);
      Push("\"");
      WriteLabelTail(labels, extra);
      Push("}");
    }

    method WriteSampleNameAndLabels(
      name: string, suffix: string, labels: seq<LabelPair>, extra: Option<(string, Float)>)
      requires IsFormatter(ryu) && name != "" && IsSuffix(suffix)
      modifies this
      ensures output == old(output) + RenderHead(name + suffix, SampleLabels(ryu, labels, extra))
    {
      hide RenderBraced, RenderLabelTail, SampleLabels, IsFormatter, Escape;
      SuffixKeepsLegacy(name, suffix);
      if IsLegacyMetricName(name) {
        Push(name);
        Push(suffix);
        WriteLabels(labels, extra);
        return;
      }
      WriteQuotedHead(name, suffix, labels, extra);
    }

    method WriteValue(value: SampleValue)
      modifies this
      ensures output == old(output) + ValueToken(ryu, value)
    {
      hide IsFormatter;
      match value
      case PlainFloat(f) => WriteFloatImpl(f, true);
      case LegacyCompatibleFloat(f) => WriteFloatImpl(f, false);
      case Unsigned(n) => Push(Decimal(n));
    }

    method WriteExemplar(e: Exemplar)
      requires IsFormatter(ryu)
      modifies this
      ensures output == old(output) + RenderExemplar(Some(ExemplarOf(ryu, e)))
    {
      hide IsFormatter, FloatToken, RenderBraced;
      ghost var item := ExemplarOf(ryu, e);
      ExemplarShape(output, item);
      assert SampleLabels(ryu, e.labels, None) == item.labels;
      Push(" # ");
      if e.labels == [] {
        EmptyBraces();
        assert item.labels == [];
        Push("{}");
      } else {
        WriteLabels(e.labels, None);
      }
      Push(" ");
      WriteFloat(e.value.GetOr(ZERO));
      WriteTimestamp(if e.timestamp.None? then None
                     else Some(Finite(TimeOf(e.timestamp.value))));
    }

    /** A space and the time, if there is one. */
    method WriteTimestamp(time: Option<Float>)
      modifies this
      ensures output == old(output) + RenderTimestamp(if time.None? then None else Some(FloatToken(ryu, time.value)))
    {
      hide FloatToken;
      if time.Some? {
        Push(" ");
        WriteFloat(time.value);
      }
    }

    method WriteSample(name: string, suffix: string, metric: Metric, extra: Option<(string, Float)>,
                       value: SampleValue, exemplar: Option<Exemplar>)
      requires IsFormatter(ryu) && name != "" && IsSuffix(suffix)
      modifies this
      ensures output == old(output) + RenderItem(SampleItem(ryu, name, suffix, metric, extra, value, exemplar))
    {
      hide IsFormatter, RenderHead, SampleLabels, ValueToken, RenderExemplar, RenderTimestamp, RenderItem,
           ExemplarOf, FloatToken, IsSuffix;
      SampleShape(output, SampleItem(ryu, name, suffix, metric, extra, value, exemplar));
      WriteSampleNameAndLabels(name, suffix, metric.labels, extra);
      Push(" ");
      WriteValue(value);
      WriteTimestamp(
        if metric.timestampMs.None? then None else Some(Finite(metric.timestampMs.value as real / 1000.0)));
      if exemplar.Some? {
        WriteExemplar(exemplar.value);
      } else {
        NoExemplar();
      }
      Push("\n");
    }

    method WritePlainSample(name: string, suffix: string, metric: Metric, value: SampleValue)
      requires IsFormatter(ryu) && name != "" && IsSuffix(suffix)
      modifies this
      ensures output == old(output) + RenderItem(PlainSample(ryu, name, suffix, metric, value))
    {
      WriteSample(name, suffix, metric, None, value, None);
    }

    method EncodeHistogram(name: string, mtype: MetricType, metric: Metric, histogram: Histogram)
      requires IsFormatter(ryu) && name != ""
      modifies this
      ensures output == old(output) + RenderItems(HistogramItems(ryu, name, mtype, metric, histogram))
    {
      hide IsFormatter, RenderItem, RenderItems, SampleItem, IsPositive, HasInfinityBucket;
      NoItems();
      if histogram.buckets == [] && HasNativeBuckets(histogram) {
        return;
      }
      if IsPositive(histogram.sampleCountFloat)
        || exists i :: 0 <= i < |histogram.buckets| && IsPositive(histogram.buckets[i].cumulativeCountFloat) {
        return;
      }
      var sumSuffix, countSuffix := "_sum", "_count";
      if mtype == GaugeHistogramType {
        sumSuffix, countSuffix := "_gsum", "_gcount";
      }
      var sampleCount := histogram.sampleCount.GetOr(0);
      ghost var head := [
        PlainSample(ryu, name, sumSuffix, metric, PlainFloat(histogram.sampleSum.GetOr(ZERO))),
        PlainSample(ryu, name, countSuffix, metric, Unsigned(sampleCount))];
      ghost var rows := BucketItems(ryu, name, metric, histogram.buckets);
      WritePlainSample(name, sumSuffix, metric, PlainFloat(histogram.sampleSum.GetOr(ZERO)));
      WritePlainSample(name, countSuffix, metric, Unsigned(sampleCount));
      TwoItems(head[0], head[1]);
      assert output == old(output) + RenderItems(head);

      var infinityBucketSeen := WriteBuckets(name, metric, histogram.buckets);
      RenderItemsAppend(head, rows);
      assert output == old(output) + RenderItems(head + rows);
      if !infinityBucketSeen {
        ItemAppended(head + rows, InfinityItem(ryu, name, metric, histogram));
        WriteSample(name, "_bucket", metric, Some(("le", PosInf)), Unsigned(sampleCount), None);
      } else {
        assert head + rows + [] == head + rows;
      }
    }

    method WriteBuckets(name: string, metric: Metric, buckets: seq<Bucket>) returns (infinityBucketSeen: bool)
      requires IsFormatter(ryu) && name != ""
      modifies this
      ensures output == old(output) + RenderItems(BucketItems(ryu, name, metric, buckets))
      ensures infinityBucketSeen <==> HasInfinityBucket(buckets)
    {
      hide IsFormatter, RenderItem, RenderItems, SampleItem;
      ghost var rows := BucketItems(ryu, name, metric, buckets);
      NoItems();
      infinityBucketSeen := false;
      for i := 0 to |buckets|
        invariant output == old(output) + RenderItems(rows[..i])
        invariant infinityBucketSeen <==> exists k :: 0 <= k < i && ShownBound(buckets[k]) == PosInf
      {
        var bucket := buckets[i];
        var upperBound := bucket.upperBound.GetOr(ZERO);
        if upperBound == F64_MAX {
          upperBound := PosInf;
        }
        infinityBucketSeen := infinityBucketSeen || upperBound == PosInf;
        assert rows[..i + 1] == rows[..i] + [rows[i]];
        ItemAppended(rows[..i], rows[i]);
        WriteSample(name, "_bucket", metric, Some(("le", upperBound)), Unsigned(bucket.cumulativeCount.GetOr(0)),
          bucket.exemplar);
      }
      assert rows[..|rows|] == rows;
    }

    method EncodeSummary(name: string, metric: Metric, summary: Summary)
      requires IsFormatter(ryu) && name != ""
      modifies this
      ensures output == old(output) + RenderItems(
        QuantileItems(ryu, name, metric, summary.quantiles)
        + [PlainSample(ryu, name, "_sum", metric, PlainFloat(summary.sampleSum.GetOr(ZERO))),
           PlainSample(ryu, name, "_count", metric, Unsigned(summary.sampleCount.GetOr(0)))])
    {
      hide IsFormatter, RenderItem, RenderItems, SampleItem;
      ghost var rows := QuantileItems(ryu, name, metric, summary.quantiles);
      NoItems();
      for i := 0 to |summary.quantiles|
        invariant output == old(output) + RenderItems(rows[..i])
      {
        var quantile := summary.quantiles[i];
        assert rows[..i + 1] == rows[..i] + [rows[i]];
        ItemAppended(rows[..i], rows[i]);
        WriteSample(name, "", metric, Some(("quantile", quantile.quantile.GetOr(ZERO))),
          PlainFloat(quantile.value.GetOr(ZERO)), None);
      }
      assert rows[..|rows|] == rows;
      ghost var a := PlainSample(ryu, name, "_sum", metric, PlainFloat(summary.sampleSum.GetOr(ZERO)));
      ghost var b := PlainSample(ryu, name, "_count", metric, Unsigned(summary.sampleCount.GetOr(0)));
      TwoItems(a, b);
      RenderItemsAppend(rows, [a, b]);
      WritePlainSample(name, "_sum", metric, PlainFloat(summary.sampleSum.GetOr(ZERO)));
      WritePlainSample(name, "_count", metric, Unsigned(summary.sampleCount.GetOr(0)));
    }

    method EncodeMetric(name: string, mtype: MetricType, metric: Metric)
      requires IsFormatter(ryu) && name != ""
      modifies this
      ensures output == old(output) + RenderItems(MetricItems(ryu, name, mtype, metric))
    {
      hide IsFormatter, RenderItem, RenderItems, SampleItem, HistogramItems, QuantileItems;
      NoItems();
      match mtype
      case CounterType =>
        if metric.counter.Some? {
          var counter := metric.counter.value;
          OneItem(MetricItems(ryu, name, mtype, metric)[0]);
          WriteSample(name, "", metric, None, LegacyCompatibleFloat(counter.value.GetOr(ZERO)), counter.exemplar);
        }
      case GaugeType =>
        if metric.gauge.Some? {
          OneItem(MetricItems(ryu, name, mtype, metric)[0]);
          WritePlainSample(name, "", metric, LegacyCompatibleFloat(metric.gauge.value.GetOr(ZERO)));
        }
      case SummaryType =>
        if metric.summary.Some? {
          EncodeSummary(name, metric, metric.summary.value);
        }
      case UntypedType =>
        if metric.untyped.Some? {
          OneItem(MetricItems(ryu, name, mtype, metric)[0]);
          WritePlainSample(name, "", metric, PlainFloat(metric.untyped.value.GetOr(ZERO)));
        }
      case _ =>
        if metric.histogram.Some? {
          EncodeHistogram(name, mtype, metric, metric.histogram.value);
        }
    }

    /** `# WORD name text` and a newline, for HELP and UNIT. */
    method WriteMetadata(mark: string, name: string, text: string)
      modifies this
      ensures output == old(output) + (mark + RenderMetricName(name) + " " + Escape(text) + "\n")
    {
      hide RenderMetricName, Escape;
      Push(mark);
      WriteMetadataName(name);
      Push(" ");
      WriteEscaped(text);
      Push("\n");
    }

    method WriteHelp(name: string, help: Option<string>)
      modifies this
      ensures output == old(output) + RenderItems(if help.GetOr("") == "" then [] else [Help(name, help.value)])
    {
      hide RenderMetricName, Escape, RenderItems;
      NoItems();
      if help.GetOr("") != "" {
        OneItem(Help(name, help.value));
        WriteMetadata("# HELP ", name, help.value);
      }
    }

    method WriteType(name: string, mtype: MetricType)
      modifies this
      ensures output == old(output) + RenderItems([Type(name, mtype)])
    {
      hide RenderMetricName, TypeName, RenderItems;
      OneItem(Type(name, mtype));
      Push("# TYPE ");
      WriteMetadataName(name);
      Push(" ");
      Push(TypeName(mtype));
      Push("\n");
    }

    method WriteUnit(name: string, unit: Option<string>)
      modifies this
      ensures output == old(output) + RenderItems(if unit.None? then [] else [Unit(name, unit.value)])
    {
      hide RenderMetricName, Escape, RenderItems;
      NoItems();
      if unit.Some? {
        OneItem(Unit(name, unit.value));
        WriteMetadata("# UNIT ", name, unit.value);
      }
    }

    method EncodeFamily(family: MetricFamily)
      requires IsFormatter(ryu) && HasValidName(family)
      modifies this
      ensures output == old(output) + RenderItems(FamilyItems(ryu, family))
    {
      hide IsFormatter, RenderItems, MetricItems;
      var name := family.name.value;
      var known := MetricTypeOf(family.mtype);
      NoItems();
      if known.None? {
        return;
      }
      var mtype := known.value;
      ghost var help := if family.help.GetOr("") == "" then [] else [Help(name, family.help.value)];
      ghost var unit := if family.unit.None? then [] else [Unit(name, family.unit.value)];
      ghost var items := help + [Type(name, mtype)] + unit;
      WriteHelp(name, family.help);
      WriteType(name, mtype);
      WriteUnit(name, family.unit);
      RenderItemsAppend(help, [Type(name, mtype)]);
      RenderItemsAppend(help + [Type(name, mtype)], unit);
      assert items + MetricsItems(ryu, name, mtype, []) == items;

      for i := 0 to |family.metrics|
        invariant output == old(output) + RenderItems(items + MetricsItems(ryu, name, mtype, family.metrics[..i]))
      {
        ghost var before := MetricsItems(ryu, name, mtype, family.metrics[..i]);
        ghost var row := MetricItems(ryu, name, mtype, family.metrics[i]);
        assert family.metrics[..i + 1][..i] == family.metrics[..i];
        RenderItemsAppend(items + before, row);
        ConcatAssoc(items, before, row);
        EncodeMetric(name, mtype, family.metrics[i]);
      }
      assert family.metrics[..|family.metrics|] == family.metrics;
    }
  }

  lemma NoExemplar()
    ensures RenderExemplar(None) == ""
  {
  }

  lemma NoItems()
    ensures RenderItems([]) == ""
  {
  }

  lemma OneItem(a: Item)
    ensures RenderItems([a]) == RenderItem(a)
  {
    hide RenderItem;
    assert RenderItems([a][1..]) == "";
  }

  lemma TwoItems(a: Item, b: Item)
    ensures RenderItems([a, b]) == RenderItem(a) + RenderItem(b)
  {
    hide RenderItem;
    assert [a, b][1..] == [b];
    OneItem(b);
  }

  lemma ItemAppended(items: seq<Item>, item: Item)
    ensures RenderItems(items + [item]) == RenderItems(items) + RenderItem(item)
  {
    RenderItemsAppend(items, [item]);
    OneItem(item);
  }

  /**
   `encode_to_text`: whatever strings the families carry, parsing the text gives
   back exactly the items of the sanitized families of known type, one per line.
   */
  method EncodeToText(ryu: real -> string, families: seq<MetricFamily>) returns (text: string)
    requires IsFormatter(ryu)
    ensures text == RenderDoc(DocItems(ryu, families))
    ensures |text| >= 6 && text[|text| - 6..] == "# EOF\n"
    ensures TextParser.ParseDoc(text) == Some(DocItems(ryu, families))
    ensures |TextRoundTrip.LinesOf(text)| == |DocItems(ryu, families)| + 1
    ensures forall i :: 0 <= i < |TextRoundTrip.LinesOf(text)| ==>
      (TextRoundTrip.LinesOf(text)[i] == EOF_LINE <==> i == |DocItems(ryu, families)|)
  {
    hide IsFormatter, FamilyItems, RenderItems, TextParser.ParseDoc, TextRoundTrip.LinesOf;
    var encoder := new Encoder(ryu);
    NoItems();
    for i := 0 to |families|
      invariant encoder.ryu == ryu
      invariant encoder.output == RenderItems(DocItems(ryu, families[..i]))
    {
      assert families[..i + 1][..i] == families[..i];
      ghost var before := DocItems(ryu, families[..i]);
      assert DocItems(ryu, families[..i + 1])
          == before + if HasValidName(families[i]) then FamilyItems(ryu, CleanFamily(families[i])) else [];
      var family := SanitizedMetricFamily(families[i]);
      if family.Some? {
        RenderItemsAppend(before, FamilyItems(ryu, family.value.family));
        encoder.EncodeFamily(family.value.family);
      } else {
        assert DocItems(ryu, families[..i + 1]) == before;
      }
    }
    assert families[..|families|] == families;
    encoder.Push(EOF_LINE);
    text := encoder.output;
    DocItemsAreItems(ryu, families);
    TextRoundTrip.DocRoundTrip(DocItems(ryu, families));
    TextRoundTrip.DocLines(DocItems(ryu, families));
  }
}
