/** Collection: service naming applied in place, then sanitizing. */
module Collect {
  import opened Base
  import opened Proto
  import opened Validation

  datatype ServiceNameFormat = MetricPrefix | LabelWithName(labelName: string)

  datatype CollectionOptions = CollectionOptions(
    includeOptional: bool, serviceName: Option<string>, format: ServiceNameFormat)

  /** A registered metric: its metadata and the families it encodes to. */
  datatype Registered = Registered(optional: bool, unprefixed: bool, unlabeled: bool, families: seq<MetricFamily>)

  // ---- what the service label does to a row --------------------------------------

  ghost predicate Conflicts(labels: seq<LabelPair>, name: string, value: string) {
    exists i :: 0 <= i < |labels| && labels[i].name == Some(name) && labels[i].value != Some(value)
  }

  ghost function Labelled(m: Metric, name: string, value: string): Metric {
    if NameIn(m.labels, Some(name)) then m
    else m.(labels := [LabelPair(Some(name), Some(value))] + m.labels)
  }

  ghost function LabelRow(m: Metric, name: string, value: string): seq<Metric> {
    if Conflicts(m.labels, name, value) then [] else [Labelled(m, name, value)]
  }

  ghost function LabelRows(rows: seq<Metric>, name: string, value: string): seq<Metric> {
    if rows == [] then []
    else LabelRows(rows[..|rows| - 1], name, value) + LabelRow(rows[|rows| - 1], name, value)
  }

  ghost function Named(f: MetricFamily, reg: Registered, options: CollectionOptions): MetricFamily {
    match options.serviceName
    case None => f
    case Some(service) =>
      match options.format
      case MetricPrefix =>
        if reg.unprefixed || f.name.None? then f else f.(name := Some(service + "_" + f.name.value))
      case LabelWithName(label_) =>
        if reg.unlabeled then f else f.(metrics := LabelRows(f.metrics, label_, service))
  }

  ghost function Usable(f: MetricFamily): seq<MetricFamily> {
    if HasValidName(f) then [CleanFamily(f)] else []
  }

  ghost function RegisteredFamilies(families: seq<MetricFamily>, reg: Registered, options: CollectionOptions)
    : seq<MetricFamily>
  {
    if families == [] then []
    else
      RegisteredFamilies(families[..|families| - 1], reg, options)
      + Usable(Named(families[|families| - 1], reg, options))
  }

  ghost function Collected(regs: seq<Registered>, options: CollectionOptions): seq<MetricFamily> {
    if regs == [] then []
    else
      var reg := regs[|regs| - 1];
      Collected(regs[..|regs| - 1], options)
      + if reg.optional && !options.includeOptional then [] else RegisteredFamilies(reg.families, reg, options)
  }

  // ---- the code ---------------------------------------------------------------------

  /** The body of the `retain_mut` closure: one scan with an early exit on a conflict. */
  method ApplyLabelToRow(metric: Metric, labelName: string, serviceName: string) returns (kept: bool, row: Metric)
    ensures (if kept then [row] else []) == LabelRow(metric, labelName, serviceName)
    ensures kept <==> forall k :: 0 <= k < |metric.labels| && metric.labels[k].name == Some(labelName) ==>
      metric.labels[k].value == Some(serviceName)
    ensures kept ==>
      row == if exists k :: 0 <= k < |metric.labels| && metric.labels[k].name == Some(labelName) then metric
             else metric.(labels := [LabelPair(Some(labelName), Some(serviceName))] + metric.labels)
  {
    row := metric;
    var hasSameValue := false;
    for i := 0 to |metric.labels|
      invariant hasSameValue <==> exists k :: 0 <= k < i && metric.labels[k].name == Some(labelName)
      invariant forall k :: 0 <= k < i && metric.labels[k].name == Some(labelName) ==>
        metric.labels[k].value == Some(serviceName)
    {
      var pair := metric.labels[i];
      if pair.name != Some(labelName) {
        continue;
      }
      if pair.value != Some(serviceName) {
        return false, row;
      }
      hasSameValue := true;
    }
    if !hasSameValue {
      row := row.(labels := [LabelPair(Some(labelName), Some(serviceName))] + row.labels);
    }
    kept := true;
  }

  method RetainLabelled(rows: seq<Metric>, labelName: string, serviceName: string) returns (retained: seq<Metric>)
    ensures retained == LabelRows(rows, labelName, serviceName)
  {
    retained := [];
    for j := 0 to |rows|
      invariant retained == LabelRows(rows[..j], labelName, serviceName)
    {
      assert rows[..j + 1][..j] == rows[..j];
      var kept, row := ApplyLabelToRow(rows[j], labelName, serviceName);
      if kept {
        retained := retained + [row];
      }
    }
    assert rows[..|rows|] == rows;
  }

  method ApplyServiceLabel(families: array<MetricFamily>, labelName: string, serviceName: string)
    modifies families
    ensures forall i :: 0 <= i < families.Length ==>
      families[i] == old(families[i]).(metrics := LabelRows(old(families[i]).metrics, labelName, serviceName))
  {
    for i := 0 to families.Length
      invariant forall k :: i <= k < families.Length ==> families[k] == old(families[k])
      invariant forall k :: 0 <= k < i ==>
        families[k] == old(families[k]).(metrics := LabelRows(old(families[k]).metrics, labelName, serviceName))
    {
      var retained := RetainLabelled(families[i].metrics, labelName, serviceName);
      families[i] := families[i].(metrics := retained);
    }
  }

  method ApplyServiceName(
    families: array<MetricFamily>, serviceName: string, options: CollectionOptions, reg: Registered)
    requires options.serviceName == Some(serviceName)
    modifies families
    ensures forall i :: 0 <= i < families.Length ==> families[i] == Named(old(families[i]), reg, options)
  {
    match options.format
    case MetricPrefix =>
      if !reg.unprefixed {
        for i := 0 to families.Length
          invariant forall k :: i <= k < families.Length ==> families[k] == old(families[k])
          invariant forall k :: 0 <= k < i ==> families[k] == Named(old(families[k]), reg, options)
        {
          if families[i].name.Some? {
            var name := ['_'] + families[i].name.value;
            name := serviceName + name;
            assert name == serviceName + "_" + families[i].name.value;
            families[i] := families[i].(name := Some(name));
          }
        }
      }
    case LabelWithName(labelName) =>
      if !reg.unlabeled {
        ApplyServiceLabel(families, labelName, serviceName);
      }
  }

  /** The closure of the `filter_map`: sanitizes in place, and drops a family that is not usable. */
  method KeepUsable(family: MetricFamily) returns (kept: seq<MetricFamily>)
    ensures kept == Usable(family) && forall i :: 0 <= i < |kept| ==> FamilyOk(kept[i])
  {
    hide CleanRows, RowsAreValid, MetricTypeOf;
    var cell := new FamilyCell(family);
    var usable := cell.Sanitize();
    kept := [];
    if usable {
      CleanFamilyIdempotent(family);
      kept := [cell.family];
    }
  }

  lemma RegisteredStep(families: seq<MetricFamily>, i: nat, reg: Registered, options: CollectionOptions)
    requires i < |families|
    ensures RegisteredFamilies(families[..i + 1], reg, options)
         == RegisteredFamilies(families[..i], reg, options) + Usable(Named(families[i], reg, options))
  {
    hide Usable, Named;
    assert families[..i + 1][..i] == families[..i];
  }

  method CollectRegistered(reg: Registered, options: CollectionOptions) returns (usable: seq<MetricFamily>)
    ensures usable == RegisteredFamilies(reg.families, reg, options)
    ensures forall i :: 0 <= i < |usable| ==> FamilyOk(usable[i])
  {
    hide LabelRows;
    var n := |reg.families|;
    var families := new MetricFamily[n](i requires 0 <= i < n => reg.families[i]);
    if options.serviceName.Some? {
      ApplyServiceName(families, options.serviceName.value, options, reg);
    }
    assert forall k :: 0 <= k < n ==> families[k] == Named(reg.families[k], reg, options);
    usable := [];
    assert usable == RegisteredFamilies(reg.families[..0], reg, options);
    hide Named, Usable, FamilyOk, RegisteredFamilies;
    for i := 0 to n
      invariant forall k :: 0 <= k < n ==> families[k] == Named(reg.families[k], reg, options)
      invariant usable == RegisteredFamilies(reg.families[..i], reg, options)
      invariant forall k :: 0 <= k < |usable| ==> FamilyOk(usable[k])
    {
      RegisteredStep(reg.families, i, reg, options);
      var kept := KeepUsable(families[i]);
      usable := usable + kept;
    }
    assert reg.families[..n] == reg.families;
  }

  method Collect(regs: seq<Registered>, options: CollectionOptions) returns (collected: seq<MetricFamily>)
    ensures collected == if options.serviceName.Some? && options.format.LabelWithName?
                           && (options.format.labelName == "" || '\0' in options.format.labelName)
                         then [] else Collected(regs, options)
    ensures forall i :: 0 <= i < |collected| ==> FamilyOk(collected[i])
  {
    collected := [];
    if options.serviceName.Some? && options.format.LabelWithName? && !IsValidName(options.format.labelName) {
      return;
    }
    for r := 0 to |regs|
      invariant collected == Collected(regs[..r], options)
      invariant forall i :: 0 <= i < |collected| ==> FamilyOk(collected[i])
    {
      assert regs[..r + 1][..r] == regs[..r];
      if regs[r].optional && !options.includeOptional {
        continue;
      }
      var usable := CollectRegistered(regs[r], options);
      collected := collected + usable;
    }
    assert regs[..|regs|] == regs;
  }

  // ---- laws ----------------------------------------------------------------------------

  /** The labels other than the service label, in order. */
  ghost function Others(labels: seq<LabelPair>, name: string): seq<LabelPair> {
    if labels == [] then []
    else (if labels[0].name == Some(name) then [] else [labels[0]]) + Others(labels[1..], name)
  }

  ghost function CountNamed(labels: seq<LabelPair>, name: string): nat {
    if labels == [] then 0 else (if labels[0].name == Some(name) then 1 else 0) + CountNamed(labels[1..], name)
  }

  lemma {:induction false} CountNamedAtMostOne(labels: seq<LabelPair>, name: string)
    requires forall i, j :: 0 <= i < j < |labels| ==> labels[i].name != labels[j].name
    ensures CountNamed(labels, name) == if exists i :: 0 <= i < |labels| && labels[i].name == Some(name) then 1 else 0
  {
    if labels != [] {
      CountNamedAtMostOne(labels[1..], name);
      if exists i :: 0 <= i < |labels| && labels[i].name == Some(name) {
        var i :| 0 <= i < |labels| && labels[i].name == Some(name);
        if i > 0 {
          assert labels[1..][i - 1].name == Some(name);
        }
      }
    }
  }

  /** A row of a labelled family after collection: nothing, or the row with its service label. */
  ghost function FinalRow(m: Metric, mtype: Option<MetricType>, name: string, value: string): seq<Metric> {
    CleanRows(LabelRow(m, name, value), mtype)
  }

  /**
   A row survives label mode exactly when no service label on it has another
   value and the row itself is valid with the configured name not reserved. A
   surviving row has exactly one service label, with the service name as its
   value, and its other labels unchanged and in order.
   */
  lemma FinalRowIs(m: Metric, mtype: Option<MetricType>, name: string, value: string)
    requires IsValidName(name)
    ensures FinalRow(m, mtype, name, value) != [] <==>
      && (forall i :: 0 <= i < |m.labels| && m.labels[i].name == Some(name) ==> m.labels[i].value == Some(value))
      && RowOk(m, mtype) && ReservedRowLabel(mtype) != Some(name)
    ensures FinalRow(m, mtype, name, value) != [] ==>
      var row := FinalRow(m, mtype, name, value)[0];
      && FinalRow(m, mtype, name, value) == [row]
      && row == CleanMetric(m).(labels := row.labels)
      && (row.labels == m.labels || row.labels == [LabelPair(Some(name), Some(value))] + m.labels)
      && CountNamed(row.labels, name) == 1
      && (forall i :: 0 <= i < |row.labels| && row.labels[i].name == Some(name) ==> row.labels[i].value == Some(value))
      && Others(row.labels, name) == Others(m.labels, name)
  {
    LabelRowIs(m, name, value);
    var row := Labelled(m, name, value);
    OneCleanRow(row, mtype);
    LabelledOk(m, mtype, name, value);
    LabelledOnce(m, mtype, name, value);
    hide Conflicts, CleanRows, CleanMetric, RowOk, LabelsOk, NameIn, CountNamed, Others, ReservedRowLabel;
    if !Conflicts(m.labels, name, value) {
      assert LabelRow(m, name, value) == [row];
    } else {
      assert LabelRow(m, name, value) == [];
      NoCleanRow(mtype);
    }
  }

  lemma LabelRowIs(m: Metric, name: string, value: string)
    ensures !Conflicts(m.labels, name, value) <==>
      forall i :: 0 <= i < |m.labels| && m.labels[i].name == Some(name) ==> m.labels[i].value == Some(value)
    ensures var row := Labelled(m, name, value);
            && CleanMetric(row) == CleanMetric(m).(labels := row.labels)
            && (row.labels == m.labels || row.labels == [LabelPair(Some(name), Some(value))] + m.labels)
  {
    hide CleanHistogram;
  }

  lemma OneCleanRow(row: Metric, mtype: Option<MetricType>)
    ensures CleanRows([row], mtype) == if RowOk(row, mtype) then [CleanMetric(row)] else []
  {
    hide RowOk, CleanMetric;
    assert [row][..0] == [];
    assert CleanRows([row][..0], mtype) == [];
  }

  lemma NoCleanRow(mtype: Option<MetricType>)
    ensures CleanRows([], mtype) == []
  {
  }

  /** The label makes a row unusable only where its name is reserved. */
  lemma LabelledOk(m: Metric, mtype: Option<MetricType>, name: string, value: string)
    requires IsValidName(name)
    ensures RowOk(Labelled(m, name, value), mtype) <==> RowOk(m, mtype) && ReservedRowLabel(mtype) != Some(name)
  {
    var reserved := ReservedRowLabel(mtype);
    hide ReservedRowLabel, IsValidName;
    if NameIn(m.labels, Some(name)) {
      var i :| 0 <= i < |m.labels| && m.labels[i].name == Some(name);
      assert LabelsOk(m.labels, reserved) ==> m.labels[i].name != reserved;
    } else {
      hide LabelsOk;
      LabelsOkCons(LabelPair(Some(name), Some(value)), m.labels, reserved);
    }
  }

  lemma LabelledOnce(m: Metric, mtype: Option<MetricType>, name: string, value: string)
    requires IsValidName(name)
    ensures var row := Labelled(m, name, value);
            !Conflicts(m.labels, name, value) && RowOk(row, mtype) ==>
              && CountNamed(row.labels, name) == 1
              && (forall i :: 0 <= i < |row.labels| && row.labels[i].name == Some(name) ==>
                    row.labels[i].value == Some(value))
              && Others(row.labels, name) == Others(m.labels, name)
  {
    var row := Labelled(m, name, value);
    hide ReservedRowLabel, IsValidName;
    if !Conflicts(m.labels, name, value) && RowOk(row, mtype) {
      CountNamedAtMostOne(row.labels, name);
      if !NameIn(m.labels, Some(name)) {
        assert row.labels[0].name == Some(name) && row.labels[1..] == m.labels;
        assert Others(row.labels, name) == [] + Others(m.labels, name) == Others(m.labels, name);
      }
    }
  }

  lemma LabelsOkCons(pair: LabelPair, labels: seq<LabelPair>, reserved: Option<string>)
    requires pair.name.Some? && IsValidName(pair.name.value) && !NameIn(labels, pair.name)
    ensures LabelsOk([pair] + labels, reserved) <==> LabelsOk(labels, reserved) && pair.name != reserved
  {
    var all := [pair] + labels;
    if LabelsOk(all, reserved) {
      assert forall i :: 0 <= i < |labels| ==> labels[i] == all[i + 1];
    }
    assert all[0] == pair;
  }

  /** Labelling then sanitizing works row by row, so the order of rows is kept. */
  lemma {:induction false} FinalRowsInOrder(rows: seq<Metric>, mtype: Option<MetricType>, name: string, value: string)
    ensures CleanRows(LabelRows(rows, name, value), mtype)
         == Flatten(seq(|rows|, i requires 0 <= i < |rows| => FinalRow(rows[i], mtype, name, value)))
  {
    hide CleanRow, LabelRow, FinalRow;
    var finals := seq(|rows|, i requires 0 <= i < |rows| => FinalRow(rows[i], mtype, name, value));
    if rows != [] {
      var n := |rows| - 1;
      var init, last := rows[..n], FinalRow(rows[n], mtype, name, value);
      var initFinals := seq(|init|, i requires 0 <= i < |init| => FinalRow(init[i], mtype, name, value));
      FinalRowsInOrder(init, mtype, name, value);
      FinalRowStep(init, rows[n], mtype, name, value);
      assert rows == init + [rows[n]];
      assert finals == initFinals + [last];
      hide Flatten, CleanRows, LabelRows;
      FlattenAppend(initFinals, [last]);
      FlattenOne(last);
    }
  }

  lemma FinalRowStep(init: seq<Metric>, m: Metric, mtype: Option<MetricType>, name: string, value: string)
    ensures CleanRows(LabelRows(init + [m], name, value), mtype)
         == CleanRows(LabelRows(init, name, value), mtype) + FinalRow(m, mtype, name, value)
  {
    assert (init + [m])[..|init|] == init;
    CleanRowsAppend(LabelRows(init, name, value), LabelRow(m, name, value), mtype);
  }

  lemma {:induction false} CleanRowsAppend(a: seq<Metric>, b: seq<Metric>, mtype: Option<MetricType>)
    ensures CleanRows(a + b, mtype) == CleanRows(a, mtype) + CleanRows(b, mtype)
  {
    hide CleanRow;
    if b == [] {
      assert a + b == a;
    } else {
      CleanRowsAppend(a, b[..|b| - 1], mtype);
      assert (a + b)[..|a + b| - 1] == a + b[..|b| - 1];
      ConcatAssoc(CleanRows(a, mtype), CleanRows(b[..|b| - 1], mtype), CleanRow(b[|b| - 1], mtype));
    }
  }

  lemma {:induction false} LabelRowsShape(rows: seq<Metric>, name: string, value: string)
    ensures forall i :: 0 <= i < |LabelRows(rows, name, value)| ==>
      && !Conflicts(LabelRows(rows, name, value)[i].labels, name, value)
      && NameIn(LabelRows(rows, name, value)[i].labels, Some(name))
  {
    if rows != [] {
      LabelRowsShape(rows[..|rows| - 1], name, value);
      var m := rows[|rows| - 1];
      if !Conflicts(m.labels, name, value) {
        assert Labelled(m, name, value).labels[0].name == Some(name) || NameIn(m.labels, Some(name));
      }
    }
  }

  lemma {:induction false} LabelRowsFixed(rows: seq<Metric>, name: string, value: string)
    requires forall i :: 0 <= i < |rows| ==>
      !Conflicts(rows[i].labels, name, value) && NameIn(rows[i].labels, Some(name))
    ensures LabelRows(rows, name, value) == rows
  {
    hide Conflicts, NameIn;
    if rows != [] {
      LabelRowsFixed(rows[..|rows| - 1], name, value);
      assert rows == rows[..|rows| - 1] + [rows[|rows| - 1]];
    }
  }

  /** Applying the label twice is applying it once. */
  lemma LabelRowsIdempotent(rows: seq<Metric>, name: string, value: string)
    ensures LabelRows(LabelRows(rows, name, value), name, value) == LabelRows(rows, name, value)
  {
    LabelRowsShape(rows, name, value);
    LabelRowsFixed(LabelRows(rows, name, value), name, value);
  }

  // ---- label mode, from registrations to what is collected -------------------------------------

  ghost function FinalRows(rows: seq<Metric>, mtype: Option<MetricType>, name: string, value: string): seq<Metric> {
    Flatten(seq(|rows|, i requires 0 <= i < |rows| => FinalRow(rows[i], mtype, name, value)))
  }

  /** Exactly one service label, with the service name as its value. */
  ghost predicate IsLabelledRow(row: Metric, name: string, value: string) {
    && CountNamed(row.labels, name) == 1
    && forall i :: 0 <= i < |row.labels| && row.labels[i].name == Some(name) ==> row.labels[i].value == Some(value)
  }

  lemma {:induction false} InFlattened<T>(xss: seq<seq<T>>, x: T) returns (i: nat)
    requires x in Flatten(xss)
    ensures i < |xss| && x in xss[i]
  {
    if x in xss[0] {
      i := 0;
    } else {
      i := InFlattened(xss[1..], x);
      i := i + 1;
    }
  }

  lemma FinalRowsAreLabelled(rows: seq<Metric>, mtype: Option<MetricType>, name: string, value: string, row: Metric)
    requires IsValidName(name) && row in FinalRows(rows, mtype, name, value)
    ensures IsLabelledRow(row, name, value)
  {
    hide FinalRow, CountNamed;
    var finals := seq(|rows|, i requires 0 <= i < |rows| => FinalRow(rows[i], mtype, name, value));
    var i := InFlattened(finals, row);
    assert row in FinalRow(rows[i], mtype, name, value);
    FinalRowIs(rows[i], mtype, name, value);
  }

  ghost predicate InLabelMode(options: CollectionOptions, name: string, value: string) {
    options.serviceName == Some(value) && options.format == LabelWithName(name) && IsValidName(name)
  }

  /** A collected family and the one it was encoded as: every row labelled, or none touched after an opt-out. */
  ghost predicate ComesFrom(f: MetricFamily, source: MetricFamily, reg: Registered, name: string, value: string) {
    && HasValidName(source)
    && if reg.unlabeled then f == CleanFamily(source)
       else
         && f == source.(metrics := FinalRows(source.metrics, MetricTypeOf(source.mtype), name, value))
         && forall row :: row in f.metrics ==> IsLabelledRow(row, name, value)
  }

  lemma NamedComesFrom(source: MetricFamily, reg: Registered, options: CollectionOptions, name: string, value: string)
    requires InLabelMode(options, name, value) && Usable(Named(source, reg, options)) != []
    ensures Usable(Named(source, reg, options)) == [Usable(Named(source, reg, options))[0]]
    ensures ComesFrom(Usable(Named(source, reg, options))[0], source, reg, name, value)
  {
    var mtype := MetricTypeOf(source.mtype);
    FinalRowsInOrder(source.metrics, mtype, name, value);
    hide FinalRow, LabelRows, CleanRows, IsLabelledRow;
    if !reg.unlabeled {
      forall row | row in FinalRows(source.metrics, mtype, name, value) ensures IsLabelledRow(row, name, value) {
        FinalRowsAreLabelled(source.metrics, mtype, name, value, row);
      }
    }
  }

  lemma {:induction false} RegisteredComesFrom(
    families: seq<MetricFamily>, reg: Registered, options: CollectionOptions, name: string, value: string,
    f: MetricFamily)
    returns (j: nat)
    requires InLabelMode(options, name, value) && f in RegisteredFamilies(families, reg, options)
    ensures j < |families| && ComesFrom(f, families[j], reg, name, value)
  {
    hide ComesFrom, Usable, Named;
    var n := |families| - 1;
    if f in RegisteredFamilies(families[..n], reg, options) {
      j := RegisteredComesFrom(families[..n], reg, options, name, value, f);
    } else {
      j := n;
      NamedComesFrom(families[n], reg, options, name, value);
    }
  }

  /**
   Every family collected in label mode comes from one encoded family of an
   admitted registration: unless that opted out, its rows are the final rows of
   the encoded ones in order, each with exactly one service label, valued with
   the service name.
   */
  lemma {:induction false} CollectedComesFrom(
    regs: seq<Registered>, options: CollectionOptions, name: string, value: string, f: MetricFamily)
    returns (r: nat, j: nat)
    requires InLabelMode(options, name, value) && f in Collected(regs, options)
    ensures r < |regs| && (regs[r].optional ==> options.includeOptional)
    ensures j < |regs[r].families| && ComesFrom(f, regs[r].families[j], regs[r], name, value)
  {
    hide ComesFrom;
    var n := |regs| - 1;
    if f in Collected(regs[..n], options) {
      r, j := CollectedComesFrom(regs[..n], options, name, value, f);
    } else {
      r := n;
      j := RegisteredComesFrom(regs[n].families, regs[n], options, name, value, f);
    }
  }

  // ---- every mode: what is collected, and what is left out ---------------------------------------

  /** Collected unless the registration is left out or the name it would have is empty or holds a NUL. */
  ghost predicate IsCollected(source: MetricFamily, reg: Registered, options: CollectionOptions) {
    && (reg.optional ==> options.includeOptional)
    && source.name.Some? && '\0' !in source.name.value
    && if options.serviceName.Some? && options.format.MetricPrefix? && !reg.unprefixed
       then '\0' !in options.serviceName.value
       else source.name.value != ""
  }

  /** Sanitized; under a service prefix its name is the two joined, in label mode its rows are the final ones. */
  ghost predicate CollectedAs(f: MetricFamily, source: MetricFamily, reg: Registered, options: CollectionOptions) {
    match options.serviceName
    case None => f == CleanFamily(source)
    case Some(service) =>
      match options.format
      case MetricPrefix =>
        source.name.Some? && f == if reg.unprefixed then CleanFamily(source)
                                  else CleanFamily(source).(name := Some(service + "_" + source.name.value))
      case LabelWithName(name) =>
        f == if reg.unlabeled then CleanFamily(source)
             else source.(metrics := FinalRows(source.metrics, MetricTypeOf(source.mtype), name, service))
  }

  lemma NamedIsCollected(source: MetricFamily, reg: Registered, options: CollectionOptions)
    requires reg.optional ==> options.includeOptional
    ensures var usable := Usable(Named(source, reg, options));
            && (usable != [] <==> IsCollected(source, reg, options))
            && (usable != [] ==> |usable| == 1 && CollectedAs(usable[0], source, reg, options))
  {
    hide CleanRows, LabelRows, FinalRows, MetricTypeOf;
    if options.serviceName.Some? && options.format.LabelWithName? {
      FinalRowsInOrder(
        source.metrics, MetricTypeOf(source.mtype), options.format.labelName, options.serviceName.value);
      assert FinalRows(source.metrics, MetricTypeOf(source.mtype), options.format.labelName, options.serviceName.value)
          == CleanRows(LabelRows(source.metrics, options.format.labelName, options.serviceName.value),
                       MetricTypeOf(source.mtype)) by {
        IsFinalRows(source.metrics, MetricTypeOf(source.mtype), options.format.labelName, options.serviceName.value);
      }
    }
  }

  lemma IsFinalRows(rows: seq<Metric>, mtype: Option<MetricType>, name: string, value: string)
    ensures FinalRows(rows, mtype, name, value) == CleanRows(LabelRows(rows, name, value), mtype)
  {
    FinalRowsInOrder(rows, mtype, name, value);
  }

  lemma {:induction false} RegisteredIs(families: seq<MetricFamily>, reg: Registered, options: CollectionOptions)
    returns (from: seq<nat>)
    requires reg.optional ==> options.includeOptional
    ensures var usable := RegisteredFamilies(families, reg, options);
            && Picks(from, |families|) && |usable| == |from|
            && forall i :: 0 <= i < |from| ==> CollectedAs(usable[i], families[from[i]], reg, options)
    ensures forall j :: 0 <= j < |families| ==> (j in from <==> IsCollected(families[j], reg, options))
  {
    hide CollectedAs, IsCollected, Usable, Named;
    from := [];
    if families != [] {
      var n := |families| - 1;
      from := RegisteredIs(families[..n], reg, options);
      NamedIsCollected(families[n], reg, options);
      if IsCollected(families[n], reg, options) {
        from := from + [n];
      }
      assert forall j :: 0 <= j < n ==> families[..n][j] == families[j];
    }
  }

  /** `f` is what the family at `p` is collected as. */
  ghost predicate CollectedFrom(regs: seq<Registered>, options: CollectionOptions, p: Place, f: MetricFamily) {
    && p.0 < |regs| && p.1 < |regs[p.0].families|
    && CollectedAs(f, regs[p.0].families[p.1], regs[p.0], options)
  }

  /**
   In every mode exactly the families that are to be collected are, in the order
   of registrations and of their families, each as its mode says.
   */
  lemma {:induction false} CollectedIs(regs: seq<Registered>, options: CollectionOptions) returns (from: seq<Place>)
    ensures |Collected(regs, options)| == |from| && Ascending(from)
    ensures forall i :: 0 <= i < |from| ==> CollectedFrom(regs, options, from[i], Collected(regs, options)[i])
    ensures forall r, j :: 0 <= r < |regs| && 0 <= j < |regs[r].families| ==>
      ((r, j) in from <==> IsCollected(regs[r].families[j], regs[r], options))
  {
    NoPlaces();
    from := [];
    if regs != [] {
      var n := |regs| - 1;
      var before := CollectedIs(regs[..n], options);
      StillCollected(regs, options, before);
      hide CollectedFrom, IsCollected, Ascending, RegisteredFamilies, Collected;
      if regs[n].optional ==> options.includeOptional {
        from := AppendRegistered(regs, options, before);
      } else {
        SkipRegistered(regs, options, before);
        from := before;
      }
    }
  }

  /** What holds of the registrations before the last holds of them among all. */
  lemma StillCollected(regs: seq<Registered>, options: CollectionOptions, before: seq<Place>)
    requires regs != [] && |Collected(regs[..|regs| - 1], options)| == |before|
    requires var init := regs[..|regs| - 1];
             && (forall i :: 0 <= i < |before| ==> CollectedFrom(init, options, before[i], Collected(init, options)[i]))
             && forall r, j :: 0 <= r < |init| && 0 <= j < |init[r].families| ==>
                  ((r, j) in before <==> IsCollected(init[r].families[j], init[r], options))
    ensures forall i :: 0 <= i < |before| ==>
      before[i].0 < |regs| - 1 && CollectedFrom(regs, options, before[i], Collected(regs[..|regs| - 1], options)[i])
    ensures forall r, j :: 0 <= r < |regs| - 1 && 0 <= j < |regs[r].families| ==>
      ((r, j) in before <==> IsCollected(regs[r].families[j], regs[r], options))
  {
    hide CollectedAs, IsCollected, Collected;
    var init := regs[..|regs| - 1];
    assert forall r :: 0 <= r < |init| ==> init[r] == regs[r];
  }

  /** A registration that is left out adds nothing. */
  lemma SkipRegistered(regs: seq<Registered>, options: CollectionOptions, before: seq<Place>)
    requires regs != [] && !(regs[|regs| - 1].optional ==> options.includeOptional)
    requires forall i :: 0 <= i < |before| ==> before[i].0 < |regs| - 1
    requires forall r, j :: 0 <= r < |regs| - 1 && 0 <= j < |regs[r].families| ==>
      ((r, j) in before <==> IsCollected(regs[r].families[j], regs[r], options))
    ensures Collected(regs, options) == Collected(regs[..|regs| - 1], options)
    ensures forall r, j :: 0 <= r < |regs| && 0 <= j < |regs[r].families| ==>
      ((r, j) in before <==> IsCollected(regs[r].families[j], regs[r], options))
  {
    NoneAdmitted(regs[|regs| - 1], options);
    assert Collected(regs, options) == Collected(regs[..|regs| - 1], options);
    hide Collected, IsCollected;
  }

  lemma BothCollected(
    regs: seq<Registered>, options: CollectionOptions,
    a: seq<Place>, fs: seq<MetricFamily>, b: seq<Place>, gs: seq<MetricFamily>)
    requires |a| == |fs| && forall i :: 0 <= i < |a| ==> CollectedFrom(regs, options, a[i], fs[i])
    requires |b| == |gs| && forall i :: 0 <= i < |b| ==> CollectedFrom(regs, options, b[i], gs[i])
    ensures forall i :: 0 <= i < |a + b| ==> CollectedFrom(regs, options, (a + b)[i], (fs + gs)[i])
  {
    hide CollectedFrom;
  }

  lemma AdmittedIsAdded(regs: seq<Registered>, options: CollectionOptions)
    requires regs != [] && (regs[|regs| - 1].optional ==> options.includeOptional)
    ensures Collected(regs, options)
         == Collected(regs[..|regs| - 1], options)
            + RegisteredFamilies(regs[|regs| - 1].families, regs[|regs| - 1], options)
  {
    hide RegisteredFamilies;
  }

  /** What the last registration adds comes after what the others gave. */
  lemma AppendRegistered(regs: seq<Registered>, options: CollectionOptions, before: seq<Place>)
    returns (from: seq<Place>)
    requires regs != [] && (regs[|regs| - 1].optional ==> options.includeOptional)
    requires Ascending(before) && |Collected(regs[..|regs| - 1], options)| == |before|
    requires forall i :: 0 <= i < |before| ==> before[i].0 < |regs| - 1
    requires forall i :: 0 <= i < |before| ==>
      CollectedFrom(regs, options, before[i], Collected(regs[..|regs| - 1], options)[i])
    requires forall r, j :: 0 <= r < |regs| - 1 && 0 <= j < |regs[r].families| ==>
      ((r, j) in before <==> IsCollected(regs[r].families[j], regs[r], options))
    ensures |Collected(regs, options)| == |from| && Ascending(from)
    ensures forall i :: 0 <= i < |from| ==> CollectedFrom(regs, options, from[i], Collected(regs, options)[i])
    ensures forall r, j :: 0 <= r < |regs| && 0 <= j < |regs[r].families| ==>
      ((r, j) in from <==> IsCollected(regs[r].families[j], regs[r], options))
  {
    var n := |regs| - 1;
    var own := RegisteredIs(regs[n].families, regs[n], options);
    PlacesAppend(before, n, own);
    from := before + Places(n, own);
    var others, last := Collected(regs[..n], options), RegisteredFamilies(regs[n].families, regs[n], options);
    AdmittedIsAdded(regs, options);
    assert forall i :: 0 <= i < |own| ==> CollectedFrom(regs, options, (n, own[i]), last[i]);
    hide CollectedAs, CollectedFrom, IsCollected, Ascending, RegisteredFamilies, Collected, Places, Picks;
    BothCollected(regs, options, before, others, Places(n, own), last);
    forall r, j | 0 <= r < |regs| && 0 <= j < |regs[r].families|
      ensures (r, j) in from <==> IsCollected(regs[r].families[j], regs[r], options)
    {
      if r == n {
        assert (r, j) in from <==> j in own;
      }
    }
  }

  lemma NoneAdmitted(reg: Registered, options: CollectionOptions)
    requires reg.optional && !options.includeOptional
    ensures forall f :: !IsCollected(f, reg, options)
  {
  }
}
