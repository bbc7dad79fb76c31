/** Row and exemplar validation shared by collection and both encoders. */
module Validation {
  import opened Base
  import opened Proto

  const EXEMPLAR_SERIALIZATION_ERROR_LABEL: string := ['\0'] + "foundations_metrics_exemplar_serialization_error"

  predicate IsValidName(name: string) {
    name != "" && '\0' !in name
  }

  datatype LabelIssue = Invalid(found: Option<string>) | Duplicate(name: string) | Reserved(name: string)

  datatype ExemplarIssue = Label(issue: LabelIssue) | Serialization(error: string)

  /** What a usable label list looks like: valid, pairwise distinct, none of them reserved. */
  ghost predicate LabelsOk(labels: seq<LabelPair>, reserved: Option<string>) {
    && (forall i :: 0 <= i < |labels| ==>
          labels[i].name.Some? && IsValidName(labels[i].name.value) && labels[i].name != reserved)
    && (forall i, j :: 0 <= i < j < |labels| ==> labels[i].name != labels[j].name)
  }

  predicate NameIn(labels: seq<LabelPair>, name: Option<string>)
    ensures NameIn(labels, name) <==> exists j :: 0 <= j < |labels| && labels[j].name == name
  {
    labels != [] && (labels[|labels| - 1].name == name || NameIn(labels[..|labels| - 1], name))
  }

  /** Scans from `index` on; the labels before it are already known to be fine. */
  function FindLabelIssueFrom(labels: seq<LabelPair>, reserved: Option<string>, index: nat): (issue: Option<LabelIssue>)
    requires index <= |labels|
    requires LabelsOk(labels[..index], reserved)
    ensures issue.None? <==> LabelsOk(labels, reserved)
    decreases |labels| - index
  {
    if index == |labels| then
      assert labels[..index] == labels;
      None
    else
      var name := labels[index].name;
      if name.None? || !IsValidName(name.value) then Some(Invalid(name))
      else if NameIn(labels[..index], name) then Some(Duplicate(name.value))
      else if reserved == name then Some(Reserved(name.value))
      else FindLabelIssueFrom(labels, reserved, index + 1)
  }

  function FindLabelIssue(labels: seq<LabelPair>, reserved: Option<string>): (issue: Option<LabelIssue>)
    ensures issue.None? <==> LabelsOk(labels, reserved)
  {
    FindLabelIssueFrom(labels, reserved, 0)
  }

  function FindExemplarIssue(labels: seq<LabelPair>): (issue: Option<ExemplarIssue>)
    ensures issue.None? <==> LabelsOk(labels, None)
  {
    if |labels| == 1 && labels[0].name == Some(EXEMPLAR_SERIALIZATION_ERROR_LABEL) && labels[0].value.Some? then
      SentinelIsInvalid();
      Some(Serialization(labels[0].value.value))
    else
      match FindLabelIssue(labels, None)
      case None => None
      case Some(issue) => Some(Label(issue))
  }

  lemma SentinelIsInvalid()
    ensures !IsValidName(EXEMPLAR_SERIALIZATION_ERROR_LABEL)
  {
    assert EXEMPLAR_SERIALIZATION_ERROR_LABEL[0] == '\0';
  }

  lemma {:induction false} NoReservedIssueFrom(labels: seq<LabelPair>, index: nat)
    requires index <= |labels| && LabelsOk(labels[..index], None)
    ensures var issue := FindLabelIssueFrom(labels, None, index); issue.Some? ==> !issue.value.Reserved?
    decreases |labels| - index
  {
    if index < |labels| {
      var name := labels[index].name;
      if name.Some? && IsValidName(name.value) && !NameIn(labels[..index], name) {
        NoReservedIssueFrom(labels, index + 1);
      }
    }
  }

  /** The report arm for a reserved exemplar label is unreachable. */
  lemma ReservedExemplarUnreachable(labels: seq<LabelPair>)
    ensures var issue := FindExemplarIssue(labels);
            issue.Some? && issue.value.Label? ==> !issue.value.issue.Reserved?
  {
    NoReservedIssueFrom(labels, 0);
  }

  function ReservedRowLabel(mtype: Option<MetricType>): Option<string> {
    match mtype
    case Some(HistogramType) => Some("le")
    case Some(GaugeHistogramType) => Some("le")
    case Some(SummaryType) => Some("quantile")
    case _ => None
  }

  // ---- what sanitizing means -------------------------------------------

  ghost predicate ExemplarOk(e: Exemplar) { LabelsOk(e.labels, None) }

  ghost function CleanSlot(slot: Option<Exemplar>): Option<Exemplar> {
    if slot.Some? && !ExemplarOk(slot.value) then None else slot
  }

  ghost function CleanBuckets(buckets: seq<Bucket>): seq<Bucket> {
    seq(|buckets|, i requires 0 <= i < |buckets| => buckets[i].(exemplar := CleanSlot(buckets[i].exemplar)))
  }

  ghost predicate NativeOk(e: Exemplar) { ExemplarOk(e) && e.timestamp.Some? }

  ghost function CleanNative(exemplars: seq<Exemplar>): seq<Exemplar> {
    if exemplars == [] then []
    else
      var last := exemplars[|exemplars| - 1];
      CleanNative(exemplars[..|exemplars| - 1]) + if NativeOk(last) then [last] else []
  }

  ghost function CleanHistogram(h: Histogram): Histogram {
    h.(buckets := CleanBuckets(h.buckets), exemplars := CleanNative(h.exemplars))
  }

  ghost function CleanMetric(m: Metric): Metric {
    m.(counter := (if m.counter.Some? then Some(m.counter.value.(exemplar := CleanSlot(m.counter.value.exemplar)))
                   else None),
       histogram := if m.histogram.Some? then Some(CleanHistogram(m.histogram.value)) else None)
  }

  ghost predicate RowOk(m: Metric, mtype: Option<MetricType>) {
    LabelsOk(m.labels, ReservedRowLabel(mtype))
  }

  ghost function CleanRow(m: Metric, mtype: Option<MetricType>): seq<Metric> {
    if RowOk(m, mtype) then [CleanMetric(m)] else []
  }

  ghost function CleanRows(rows: seq<Metric>, mtype: Option<MetricType>): seq<Metric> {
    if rows == [] then [] else CleanRows(rows[..|rows| - 1], mtype) + CleanRow(rows[|rows| - 1], mtype)
  }

  ghost predicate HasValidName(f: MetricFamily) {
    f.name.Some? && IsValidName(f.name.value)
  }

  ghost function CleanFamily(f: MetricFamily): MetricFamily {
    f.(metrics := CleanRows(f.metrics, MetricTypeOf(f.mtype)))
  }

  /** A family both encoders can use as it stands. */
  ghost predicate FamilyOk(f: MetricFamily) {
    HasValidName(f) && RowsAreValid(f.metrics, MetricTypeOf(f.mtype))
  }

  // ---- the in-place sanitizer --------------------------------------------

  method SanitizeExemplarSlot(slot: Option<Exemplar>) returns (kept: Option<Exemplar>)
    ensures kept == CleanSlot(slot)
  {
    kept := slot;
    if slot.Some? && FindExemplarIssue(slot.value.labels).Some? {
      kept := None;
    }
  }

  method SanitizeExemplars(metric: Metric) returns (clean: Metric)
    ensures clean == CleanMetric(metric)
  {
    clean := metric;
    if metric.counter.Some? {
      var slot := SanitizeExemplarSlot(metric.counter.value.exemplar);
      clean := clean.(counter := Some(metric.counter.value.(exemplar := slot)));
    }
    if metric.histogram.Some? {
      var histogram := metric.histogram.value;
      var buckets := histogram.buckets;
      for i := 0 to |histogram.buckets|
        invariant |buckets| == |histogram.buckets|
        invariant buckets[..i] == CleanBuckets(histogram.buckets)[..i]
        invariant buckets[i..] == histogram.buckets[i..]
      {
        assert buckets[i] == buckets[i..][0] == histogram.buckets[i];
        var slot := SanitizeExemplarSlot(buckets[i].exemplar);
        ghost var before := buckets;
        buckets := buckets[i := buckets[i].(exemplar := slot)];
        assert buckets[..i + 1] == before[..i] + [CleanBuckets(histogram.buckets)[i]];
      }
      var kept := [];
      for i := 0 to |histogram.exemplars|
        invariant kept == CleanNative(histogram.exemplars[..i])
      {
        var exemplar := histogram.exemplars[i];
        assert histogram.exemplars[..i + 1][..i] == histogram.exemplars[..i];
        if FindExemplarIssue(exemplar.labels).None? && exemplar.timestamp.Some? {
          kept := kept + [exemplar];
        }
      }
      assert buckets == CleanBuckets(histogram.buckets);
      assert histogram.exemplars[..|histogram.exemplars|] == histogram.exemplars;
      clean := clean.(histogram := Some(histogram.(buckets := buckets, exemplars := kept)));
    }
  }

  method SanitizeRows(rows: seq<Metric>, mtype: Option<MetricType>) returns (kept: seq<Metric>)
    ensures kept == CleanRows(rows, mtype)
  {
    var reserved := ReservedRowLabel(mtype);
    kept := [];
    for i := 0 to |rows|
      invariant kept == CleanRows(rows[..i], mtype)
    {
      assert rows[..i + 1][..i] == rows[..i];
      if FindLabelIssue(rows[i].labels, reserved).None? {
        var clean := SanitizeExemplars(rows[i]);
        kept := kept + [clean];
      }
    }
    assert rows[..|rows|] == rows;
  }

  /** A metric family that is edited in place. */
  class FamilyCell {
    var family: MetricFamily

    constructor (f: MetricFamily)
      ensures family == f
    {
      family := f;
    }

    /** `sanitize_metric_family`: returns whether the family is usable at all. */
    method Sanitize() returns (usable: bool)
      modifies this
      ensures usable == HasValidName(old(family))
      ensures family == if usable then CleanFamily(old(family)) else old(family)
    {
      if family.name.None? || !IsValidName(family.name.value) {
        return false;
      }
      var rows := SanitizeRows(family.metrics, MetricTypeOf(family.mtype));
      family := family.(metrics := rows);
      return true;
    }
  }

  // ---- the borrowing fast path ---------------------------------------------

  predicate ExemplarIsValid(e: Exemplar)
    ensures ExemplarIsValid(e) <==> ExemplarOk(e)
  {
    FindExemplarIssue(e.labels).None?
  }

  predicate ExemplarsAreValid(metric: Metric)
    ensures ExemplarsAreValid(metric) <==> CleanMetric(metric) == metric
  {
    CleanMetricUnchanged(metric);
    && (metric.counter.Some? && metric.counter.value.exemplar.Some? ==>
          ExemplarIsValid(metric.counter.value.exemplar.value))
    && (metric.histogram.Some? ==>
          var h := metric.histogram.value;
          && (forall i :: 0 <= i < |h.buckets| && h.buckets[i].exemplar.Some? ==>
                ExemplarIsValid(h.buckets[i].exemplar.value))
          && (forall i :: 0 <= i < |h.exemplars| ==> h.exemplars[i].timestamp.Some? && ExemplarIsValid(h.exemplars[i])))
  }

  predicate RowsAreValid(rows: seq<Metric>, mtype: Option<MetricType>)
    ensures RowsAreValid(rows, mtype) <==> CleanRows(rows, mtype) == rows
  {
    CleanRowsUnchanged(rows, mtype);
    forall i :: 0 <= i < |rows| ==>
      FindLabelIssue(rows[i].labels, ReservedRowLabel(mtype)).None? && ExemplarsAreValid(rows[i])
  }

  datatype Cow = Borrowed(family: MetricFamily) | Owned(family: MetricFamily)

  /** `sanitized_metric_family`: clones only when something has to change. */
  method SanitizedMetricFamily(family: MetricFamily) returns (result: Option<Cow>)
    ensures result.Some? <==> HasValidName(family)
    ensures result.Some? ==> result.value.family == CleanFamily(family)
    ensures result.Some? ==> (result.value.Borrowed? <==> CleanFamily(family) == family)
    ensures result.Some? ==> FamilyOk(result.value.family)
  {
    if family.name.None? || !IsValidName(family.name.value) {
      return None;
    }
    CleanFamilyIdempotent(family);
    var mtype := MetricTypeOf(family.mtype);
    if RowsAreValid(family.metrics, mtype) {
      return Some(Borrowed(family));
    }
    var rows := SanitizeRows(family.metrics, mtype);
    return Some(Owned(family.(metrics := rows)));
  }

  // ---- laws ------------------------------------------------------------------

  lemma {:induction false} CleanNativeSound(es: seq<Exemplar>)
    ensures |CleanNative(es)| <= |es|
    ensures forall i :: 0 <= i < |CleanNative(es)| ==> NativeOk(CleanNative(es)[i])
  {
    if es != [] {
      CleanNativeSound(es[..|es| - 1]);
    }
  }

  lemma {:induction false} CleanNativeKeeps(es: seq<Exemplar>)
    requires forall i :: 0 <= i < |es| ==> NativeOk(es[i])
    ensures CleanNative(es) == es
  {
    if es != [] {
      CleanNativeKeeps(es[..|es| - 1]);
      assert es == es[..|es| - 1] + [es[|es| - 1]];
    }
  }

  lemma CleanNativeShape(es: seq<Exemplar>)
    ensures CleanNative(es) == es <==> forall i :: 0 <= i < |es| ==> NativeOk(es[i])
    ensures CleanNative(CleanNative(es)) == CleanNative(es)
  {
    CleanNativeSound(es);
    CleanNativeKeeps(CleanNative(es));
    if forall i :: 0 <= i < |es| ==> NativeOk(es[i]) {
      CleanNativeKeeps(es);
    }
  }

  lemma CleanBucketsUnchanged(bs: seq<Bucket>)
    ensures CleanBuckets(bs) == bs <==>
            forall i :: 0 <= i < |bs| && bs[i].exemplar.Some? ==> ExemplarOk(bs[i].exemplar.value)
  {
    if CleanBuckets(bs) == bs {
      forall i | 0 <= i < |bs| && bs[i].exemplar.Some? ensures ExemplarOk(bs[i].exemplar.value) {
        assert CleanBuckets(bs)[i].exemplar == bs[i].exemplar;
      }
    }
  }

  lemma CleanMetricUnchanged(m: Metric)
    ensures CleanMetric(m) == m <==>
      && (m.counter.Some? && m.counter.value.exemplar.Some? ==> ExemplarOk(m.counter.value.exemplar.value))
      && (m.histogram.Some? ==>
            var h := m.histogram.value;
            && (forall i :: 0 <= i < |h.buckets| && h.buckets[i].exemplar.Some? ==>
                  ExemplarOk(h.buckets[i].exemplar.value))
            && (forall i :: 0 <= i < |h.exemplars| ==> NativeOk(h.exemplars[i])))
  {
    if m.histogram.Some? {
      CleanBucketsUnchanged(m.histogram.value.buckets);
      CleanNativeShape(m.histogram.value.exemplars);
    }
  }

  lemma CleanMetricIdempotent(m: Metric)
    ensures CleanMetric(CleanMetric(m)) == CleanMetric(m)
  {
    CleanMetricUnchanged(CleanMetric(m));
    if m.histogram.Some? {
      CleanNativeSound(m.histogram.value.exemplars);
    }
  }

  lemma {:induction false} CleanRowsShape(rows: seq<Metric>, mtype: Option<MetricType>)
    ensures |CleanRows(rows, mtype)| <= |rows|
    ensures forall i :: 0 <= i < |CleanRows(rows, mtype)| ==>
      RowOk(CleanRows(rows, mtype)[i], mtype) && CleanMetric(CleanRows(rows, mtype)[i]) == CleanRows(rows, mtype)[i]
  {
    if rows != [] {
      CleanRowsShape(rows[..|rows| - 1], mtype);
      CleanMetricIdempotent(rows[|rows| - 1]);
    }
  }

  lemma {:induction false} GoodRowsUnchanged(rows: seq<Metric>, mtype: Option<MetricType>)
    requires forall i :: 0 <= i < |rows| ==> RowOk(rows[i], mtype) && CleanMetric(rows[i]) == rows[i]
    ensures CleanRows(rows, mtype) == rows
  {
    hide CleanMetric, RowOk;
    if rows != [] {
      var init, last := rows[..|rows| - 1], rows[|rows| - 1];
      GoodRowsUnchanged(init, mtype);
      assert rows == init + [last];
    }
  }

  lemma CleanRowsUnchanged(rows: seq<Metric>, mtype: Option<MetricType>)
    ensures CleanRows(rows, mtype) == rows <==>
      forall i :: 0 <= i < |rows| ==> RowOk(rows[i], mtype) && CleanMetric(rows[i]) == rows[i]
  {
    hide CleanRows, CleanMetric, RowOk;
    if forall i :: 0 <= i < |rows| ==> RowOk(rows[i], mtype) && CleanMetric(rows[i]) == rows[i] {
      GoodRowsUnchanged(rows, mtype);
    } else {
      CleanRowsShape(rows, mtype);
    }
  }

  /** Sanitizing is idempotent, and its result always takes the borrowing path. */
  lemma CleanFamilyIdempotent(f: MetricFamily)
    ensures CleanFamily(CleanFamily(f)) == CleanFamily(f)
    ensures RowsAreValid(CleanFamily(f).metrics, MetricTypeOf(f.mtype))
  {
    CleanRowsShape(f.metrics, MetricTypeOf(f.mtype));
    CleanRowsUnchanged(CleanFamily(f).metrics, MetricTypeOf(f.mtype));
  }

  // ---- what stays, without the words above --------------------------------------------

  /** Every name is there, is not empty, has no NUL, and is there once. */
  ghost predicate UsableLabels(labels: seq<LabelPair>) {
    && (forall i :: 0 <= i < |labels| ==>
          labels[i].name.Some? && labels[i].name.value != "" && '\0' !in labels[i].name.value)
    && (forall i, j :: 0 <= i < j < |labels| ==> labels[i].name != labels[j].name)
  }

  lemma {:induction false} NativeKept(es: seq<Exemplar>) returns (from: seq<nat>)
    ensures Picks(from, |es|) && CleanNative(es) == At(es, from)
    ensures forall k :: 0 <= k < |es| ==> (k in from <==> UsableLabels(es[k].labels) && es[k].timestamp.Some?)
  {
    from := [];
    if es != [] {
      var n := |es| - 1;
      from := NativeKept(es[..n]);
      PicksNext(es, from);
      assert NativeOk(es[n]) <==> UsableLabels(es[n].labels) && es[n].timestamp.Some?;
      hide NativeOk, UsableLabels, Picks, At;
      if NativeOk(es[n]) {
        from := from + [n];
      }
    }
  }

  /** Sanitizing a row clears or drops its exemplars with unusable labels, and touches nothing else. */
  lemma CleanMetricIs(m: Metric) returns (from: seq<nat>)
    ensures var c := CleanMetric(m);
            && c == m.(counter := c.counter, histogram := c.histogram)
            && (c.counter.Some? <==> m.counter.Some?) && (c.histogram.Some? <==> m.histogram.Some?)
            && (m.counter.Some? ==>
                  var e := m.counter.value.exemplar;
                  c.counter.value == m.counter.value.(
                    exemplar := if e.Some? && UsableLabels(e.value.labels) then e else None))
    ensures m.histogram.Some? ==>
      var h, c := m.histogram.value, CleanMetric(m).histogram.value;
      && c == h.(buckets := c.buckets, exemplars := c.exemplars) && |c.buckets| == |h.buckets|
      && (forall b :: 0 <= b < |h.buckets| ==>
            var e := h.buckets[b].exemplar;
            c.buckets[b] == h.buckets[b].(exemplar := if e.Some? && UsableLabels(e.value.labels) then e else None))
      && Picks(from, |h.exemplars|) && c.exemplars == At(h.exemplars, from)
      && (forall k :: 0 <= k < |h.exemplars| ==>
            (k in from <==> UsableLabels(h.exemplars[k].labels) && h.exemplars[k].timestamp.Some?))
  {
    forall e: Exemplar ensures ExemplarOk(e) <==> UsableLabels(e.labels) {
    }
    hide UsableLabels, ExemplarOk, CleanNative;
    from := [];
    if m.histogram.Some? {
      from := NativeKept(m.histogram.value.exemplars);
    }
  }

  /**
   Of a family's rows exactly those with usable labels stay, in order: no label of a
   histogram row (wire types 4 and 5) is named `le`, none of a summary row (2) `quantile`.
   */
  lemma RowsKept(f: MetricFamily) returns (from: seq<nat>)
    ensures CleanFamily(f) == f.(metrics := CleanFamily(f).metrics)
    ensures Picks(from, |f.metrics|) && |CleanFamily(f).metrics| == |from|
    ensures forall i :: 0 <= i < |from| ==> CleanFamily(f).metrics[i] == CleanMetric(f.metrics[from[i]])
    ensures forall k :: 0 <= k < |f.metrics| ==>
      (k in from <==>
       && UsableLabels(f.metrics[k].labels)
       && (f.mtype == Some(4) || f.mtype == Some(5) ==>
             forall i :: 0 <= i < |f.metrics[k].labels| ==> f.metrics[k].labels[i].name != Some("le"))
       && (f.mtype == Some(2) ==>
             forall i :: 0 <= i < |f.metrics[k].labels| ==> f.metrics[k].labels[i].name != Some("quantile")))
  {
    from := PickRows(f.metrics, MetricTypeOf(f.mtype));
    forall k | 0 <= k < |f.metrics|
      ensures RowOk(f.metrics[k], MetricTypeOf(f.mtype)) <==>
        && UsableLabels(f.metrics[k].labels)
        && (f.mtype == Some(4) || f.mtype == Some(5) ==>
              forall i :: 0 <= i < |f.metrics[k].labels| ==> f.metrics[k].labels[i].name != Some("le"))
        && (f.mtype == Some(2) ==>
              forall i :: 0 <= i < |f.metrics[k].labels| ==> f.metrics[k].labels[i].name != Some("quantile"))
    {
      RowIsUsable(f.metrics[k], f.mtype);
    }
    hide RowOk, UsableLabels, CleanMetric, Picks;
  }

  lemma RowIsUsable(m: Metric, wire: Option<int>)
    ensures RowOk(m, MetricTypeOf(wire)) <==>
      && UsableLabels(m.labels)
      && (wire == Some(4) || wire == Some(5) ==> forall i :: 0 <= i < |m.labels| ==> m.labels[i].name != Some("le"))
      && (wire == Some(2) ==> forall i :: 0 <= i < |m.labels| ==> m.labels[i].name != Some("quantile"))
  {
    var reserved := ReservedRowLabel(MetricTypeOf(wire));
    assert reserved == if wire == Some(4) || wire == Some(5) then Some("le")
                       else if wire == Some(2) then Some("quantile") else None;
    hide MetricTypeOf, ReservedRowLabel;
    assert LabelsOk(m.labels, reserved) <==>
      UsableLabels(m.labels) && forall i :: 0 <= i < |m.labels| ==> m.labels[i].name != reserved || reserved.None?;
  }

  ghost function Cleaned(rows: seq<Metric>): (clean: seq<Metric>)
    ensures |clean| == |rows| && forall i :: 0 <= i < |rows| ==> clean[i] == CleanMetric(rows[i])
  {
    seq(|rows|, i requires 0 <= i < |rows| => CleanMetric(rows[i]))
  }

  lemma CleanedMore(rows: seq<Metric>, m: Metric)
    ensures Cleaned(rows + [m]) == Cleaned(rows) + [CleanMetric(m)]
  {
    hide CleanMetric;
  }

  lemma CleanRowsNext(rows: seq<Metric>, mtype: Option<MetricType>)
    requires rows != []
    ensures var n := |rows| - 1;
            CleanRows(rows, mtype)
            == CleanRows(rows[..n], mtype) + if RowOk(rows[n], mtype) then [CleanMetric(rows[n])] else []
  {
    hide CleanMetric, RowOk;
  }

  lemma {:induction false} PickRows(rows: seq<Metric>, mtype: Option<MetricType>) returns (from: seq<nat>)
    ensures Picks(from, |rows|) && CleanRows(rows, mtype) == Cleaned(At(rows, from))
    ensures forall k :: 0 <= k < |rows| ==> (k in from <==> RowOk(rows[k], mtype))
  {
    from := [];
    if rows == [] {
      assert CleanRows(rows, mtype) == [];
    } else {
      hide CleanMetric, RowOk, CleanRows, Cleaned, Picks, At;
      var n := |rows| - 1;
      from := PickRows(rows[..n], mtype);
      PicksNext(rows, from);
      CleanRowsNext(rows, mtype);
      CleanedMore(At(rows, from), rows[n]);
      RowTaken(rows, from, mtype);
      if RowOk(rows[n], mtype) {
        from := from + [n];
      }
    }
  }

  lemma RowTaken(rows: seq<Metric>, from: seq<nat>, mtype: Option<MetricType>)
    requires rows != [] && Picks(from, |rows| - 1)
    requires forall k :: 0 <= k < |rows| - 1 ==> (k in from <==> RowOk(rows[..|rows| - 1][k], mtype))
    ensures var next := if RowOk(rows[|rows| - 1], mtype) then from + [|rows| - 1] else from;
            forall k :: 0 <= k < |rows| ==> (k in next <==> RowOk(rows[k], mtype))
  {
    hide RowOk, At;
    var n := |rows| - 1;
    PicksNext(rows, from);
    hide Picks;
    forall k | 0 <= k < |rows|
      ensures k in (if RowOk(rows[n], mtype) then from + [n] else from) <==> RowOk(rows[k], mtype)
    {
      if k < n {
        assert rows[..n][k] == rows[k];
      }
    }
  }

  /** The issue found is the first label's that has one: invalid before repeated before reserved. */
  lemma IssueIsTheFirst(labels: seq<LabelPair>, reserved: Option<string>) returns (i: nat)
    requires FindLabelIssue(labels, reserved).Some?
    ensures i < |labels| && LabelsOk(labels[..i], reserved)
    ensures match FindLabelIssue(labels, reserved).value
            case Invalid(found) =>
              found == labels[i].name && (found.None? || found.value == "" || '\0' in found.value)
            case Duplicate(name) =>
              && labels[i].name == Some(name) && name != "" && '\0' !in name
              && exists k :: 0 <= k < i && labels[k].name == Some(name)
            case Reserved(name) =>
              && labels[i].name == Some(name) == reserved && name != "" && '\0' !in name
              && forall k :: 0 <= k < i ==> labels[k].name != Some(name)
  {
    i := IssueFrom(labels, reserved, 0);
  }

  lemma {:induction false} IssueFrom(labels: seq<LabelPair>, reserved: Option<string>, index: nat) returns (i: nat)
    requires index <= |labels| && LabelsOk(labels[..index], reserved)
    requires FindLabelIssueFrom(labels, reserved, index).Some?
    ensures i < |labels| && LabelsOk(labels[..i], reserved)
    ensures FindLabelIssueFrom(labels, reserved, index).value
         == if labels[i].name.None? || !IsValidName(labels[i].name.value) then Invalid(labels[i].name)
            else if NameIn(labels[..i], labels[i].name) then Duplicate(labels[i].name.value)
            else Reserved(labels[i].name.value)
    ensures var issue := FindLabelIssueFrom(labels, reserved, index).value;
            issue.Reserved? ==> reserved == labels[i].name
    decreases |labels| - index
  {
    var name := labels[index].name;
    if name.None? || !IsValidName(name.value) || NameIn(labels[..index], name) || reserved == name {
      i := index;
    } else {
      i := IssueFrom(labels, reserved, index + 1);
    }
  }

  /** A failed label serialization is reported as such, by its one marker label. */
  lemma SerializationIssue(labels: seq<LabelPair>, error: string)
    ensures FindExemplarIssue(labels) == Some(Serialization(error)) <==>
      labels == [LabelPair(Some(['\0'] + "foundations_metrics_exemplar_serialization_error"), Some(error))]
  {
    if |labels| == 1 {
      assert labels == [labels[0]];
    }
  }
}
