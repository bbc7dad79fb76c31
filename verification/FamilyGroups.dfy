/**
 `Family::encode_metric_value`: the rows of every label set, grouped by relative
 name. The loop moves the label set into its last row instead of cloning it.
 */
module FamilyGroups {
  import opened Base
  import opened Proto

  /** One stored metric in iteration order: its serialised label set, if that worked, and its encoding. */
  datatype Entry = Entry(labels: Option<seq<LabelPair>>, encoded: seq<MetricFamily>)

  // ---- the simple description ----------------------------------------------------------

  function Prefixed(labels: seq<LabelPair>, rows: seq<Metric>): seq<Metric> {
    seq(|rows|, i requires 0 <= i < |rows| => rows[i].(labels := labels + rows[i].labels))
  }

  /** What one label set contributes: its non-empty families, every row led by the label set. */
  function ContributionsOf(labels: seq<LabelPair>, encoded: seq<MetricFamily>): seq<MetricFamily> {
    if encoded == [] then []
    else
      var last := encoded[|encoded| - 1];
      ContributionsOf(labels, encoded[..|encoded| - 1])
      + if last.metrics == [] then [] else [last.(metrics := Prefixed(labels, last.metrics))]
  }

  function Contributions(entries: seq<Entry>): seq<MetricFamily> {
    if entries == [] then []
    else
      var last := entries[|entries| - 1];
      Contributions(entries[..|entries| - 1])
      + if last.labels.None? then [] else ContributionsOf(last.labels.value, last.encoded)
  }

  /** Distinct names in the order they are first seen. */
  function Names(cs: seq<MetricFamily>): seq<Option<string>> {
    if cs == [] then []
    else
      var names := Names(cs[..|cs| - 1]);
      if cs[|cs| - 1].name in names then names else names + [cs[|cs| - 1].name]
  }

  /** The position of the first contribution with this name. */
  function FirstIndex(cs: seq<MetricFamily>, name: Option<string>): (i: nat)
    requires name in Names(cs)
    ensures i < |cs| && cs[i].name == name && forall k :: 0 <= k < i ==> cs[k].name != name
  {
    NamesAreNames(cs[..|cs| - 1]);
    if name in Names(cs[..|cs| - 1]) then FirstIndex(cs[..|cs| - 1], name) else |cs| - 1
  }

  predicate SameMetadata(a: MetricFamily, b: MetricFamily) {
    a.help == b.help && a.mtype == b.mtype && a.unit == b.unit
  }

  /** The rows filed under `name`: those of every contribution that agrees with the first one's metadata. */
  function RowsFor(cs: seq<MetricFamily>, name: Option<string>, first: MetricFamily): seq<Metric> {
    if cs == [] then []
    else
      var last := cs[|cs| - 1];
      RowsFor(cs[..|cs| - 1], name, first)
      + if last.name == name && SameMetadata(first, last) then last.metrics else []
  }

  function Group(cs: seq<MetricFamily>, name: Option<string>): MetricFamily
    requires name in Names(cs)
  {
    var first := cs[FirstIndex(cs, name)];
    first.(metrics := RowsFor(cs, name, first))
  }

  function Groups(cs: seq<MetricFamily>): seq<MetricFamily> {
    seq(|Names(cs)|, i requires 0 <= i < |Names(cs)| => Group(cs, Names(cs)[i]))
  }

  /** `f`, coming after `cs`, disagrees with the metadata of the first contribution with its name. */
  predicate Mismatched(cs: seq<MetricFamily>, f: MetricFamily) {
    f.name in Names(cs) && !SameMetadata(cs[FirstIndex(cs, f.name)], f)
  }

  function MismatchCount(cs: seq<MetricFamily>): nat {
    if cs == [] then 0
    else MismatchCount(cs[..|cs| - 1]) + if Mismatched(cs[..|cs| - 1], cs[|cs| - 1]) then 1 else 0
  }

  function MismatchedRows(cs: seq<MetricFamily>): nat {
    if cs == [] then 0
    else MismatchedRows(cs[..|cs| - 1]) + if Mismatched(cs[..|cs| - 1], cs[|cs| - 1]) then |cs[|cs| - 1].metrics| else 0
  }

  function RowCount(fs: seq<MetricFamily>): nat {
    if fs == [] then 0 else RowCount(fs[..|fs| - 1]) + |fs[|fs| - 1].metrics|
  }

  // ---- laws of the description ------------------------------------------------------------

  lemma {:induction false} NamesAreNames(cs: seq<MetricFamily>)
    ensures forall n :: n in Names(cs) <==> exists i :: 0 <= i < |cs| && cs[i].name == n
    ensures forall i, j :: 0 <= i < j < |Names(cs)| ==> Names(cs)[i] != Names(cs)[j]
  {
    if cs != [] {
      var init := cs[..|cs| - 1];
      NamesAreNames(init);
      forall n ensures n in Names(cs) <==> exists i :: 0 <= i < |cs| && cs[i].name == n {
        if n in Names(init) {
          var i :| 0 <= i < |init| && init[i].name == n;
          assert cs[i].name == n;
        }
        if i :| 0 <= i < |cs| && cs[i].name == n {
          if i < |init| { assert init[i].name == n; }
        }
      }
    }
  }

  /** Groups come in first-seen order. */
  lemma {:induction false} NamesInOrder(cs: seq<MetricFamily>, a: nat, b: nat)
    requires a < b < |Names(cs)|
    ensures FirstIndex(cs, Names(cs)[a]) < FirstIndex(cs, Names(cs)[b])
  {
    var init := cs[..|cs| - 1];
    NamesAreNames(init);
    if b < |Names(init)| {
      NamesInOrder(init, a, b);
    }
  }

  lemma {:induction false} RowsForFresh(cs: seq<MetricFamily>, name: Option<string>, first: MetricFamily)
    requires forall i :: 0 <= i < |cs| ==> cs[i].name != name
    ensures RowsFor(cs, name, first) == []
  {
    if cs != [] {
      RowsForFresh(cs[..|cs| - 1], name, first);
    }
  }

  lemma FreshGroup(cs: seq<MetricFamily>, f: MetricFamily)
    requires f.name !in Names(cs)
    ensures Names(cs + [f]) == Names(cs) + [f.name]
    ensures Group(cs + [f], f.name) == f
  {
    assert (cs + [f])[..|cs|] == cs;
    NamesAreNames(cs);
    RowsForFresh(cs, f.name, f);
  }

  lemma OtherGroup(cs: seq<MetricFamily>, f: MetricFamily, name: Option<string>)
    requires name in Names(cs) && name != f.name
    ensures name in Names(cs + [f]) && Group(cs + [f], name) == Group(cs, name)
  {
    assert (cs + [f])[..|cs|] == cs;
  }

  lemma KnownGroup(cs: seq<MetricFamily>, f: MetricFamily)
    requires f.name in Names(cs)
    ensures Names(cs + [f]) == Names(cs)
    ensures var g := Group(cs, f.name);
            Group(cs + [f], f.name) == if Mismatched(cs, f) then g else g.(metrics := g.metrics + f.metrics)
  {
    assert (cs + [f])[..|cs|] == cs;
  }

  /** A contribution with a new name opens a group at the end. */
  lemma GroupsOpen(cs: seq<MetricFamily>, f: MetricFamily)
    requires f.name !in Names(cs)
    ensures Groups(cs + [f]) == Groups(cs) + [f]
  {
    FreshGroup(cs, f);
    forall i | 0 <= i < |Names(cs)| ensures Groups(cs + [f])[i] == Groups(cs)[i] {
      OtherGroup(cs, f, Names(cs)[i]);
    }
  }

  /** A contribution with a known name only changes its own group, and only if the metadata agrees. */
  lemma GroupsExtend(cs: seq<MetricFamily>, f: MetricFamily, i: nat)
    requires i < |Names(cs)| && Names(cs)[i] == f.name
    ensures var g := Groups(cs)[i];
            Groups(cs + [f])
            == if Mismatched(cs, f) then Groups(cs) else Groups(cs)[i := g.(metrics := g.metrics + f.metrics)]
  {
    NamesAreNames(cs);
    KnownGroup(cs, f);
    var g := Groups(cs)[i];
    var expected := if Mismatched(cs, f) then Groups(cs) else Groups(cs)[i := g.(metrics := g.metrics + f.metrics)];
    forall k | 0 <= k < |Names(cs)| ensures Groups(cs + [f])[k] == expected[k] {
      if k != i {
        assert Names(cs)[k] != Names(cs)[i];
        OtherGroup(cs, f, Names(cs)[k]);
      }
    }
  }

  lemma {:induction false} RowCountAppend(a: seq<MetricFamily>, b: seq<MetricFamily>)
    ensures RowCount(a + b) == RowCount(a) + RowCount(b)
  {
    if b == [] {
      assert a + b == a;
    } else {
      RowCountAppend(a, b[..|b| - 1]);
      assert (a + b)[..|a + b| - 1] == a + b[..|b| - 1];
    }
  }

  lemma {:induction false} RowCountUpdate(fs: seq<MetricFamily>, i: nat, f: MetricFamily)
    requires i < |fs|
    ensures RowCount(fs[i := f]) == RowCount(fs) - |fs[i].metrics| + |f.metrics|
  {
    var n := |fs| - 1;
    if i == n {
      assert fs[i := f][..n] == fs[..n];
    } else {
      RowCountUpdate(fs[..n], i, f);
      assert fs[i := f][..n] == fs[..n][i := f];
    }
  }

  /** Conservation: every contributed row is in exactly one group or was dropped for its metadata. */
  lemma {:induction false} RowsAreConserved(cs: seq<MetricFamily>)
    ensures RowCount(Groups(cs)) + MismatchedRows(cs) == RowCount(cs)
  {
    if cs != [] {
      var init, f := cs[..|cs| - 1], cs[|cs| - 1];
      assert cs == init + [f];
      RowsAreConserved(init);
      if f.name in Names(init) {
        var i: nat :| i < |Names(init)| && Names(init)[i] == f.name;
        GroupsExtend(init, f, i);
        var g := Groups(init)[i];
        RowCountUpdate(Groups(init), i, g.(metrics := g.metrics + f.metrics));
      } else {
        GroupsOpen(init, f);
        RowCountAppend(Groups(init), [f]);
        assert RowCount([f]) == |f.metrics| by {
          assert [f][..0] == [];
        }
      }
    }
  }

  function UnserialisableRows(entries: seq<Entry>): nat {
    if entries == [] then 0
    else
      var last := entries[|entries| - 1];
      UnserialisableRows(entries[..|entries| - 1]) + if last.labels.None? then RowCount(last.encoded) else 0
  }

  function AllRows(entries: seq<Entry>): nat {
    if entries == [] then 0 else AllRows(entries[..|entries| - 1]) + RowCount(entries[|entries| - 1].encoded)
  }

  lemma {:induction false} ContributionRows(labels: seq<LabelPair>, encoded: seq<MetricFamily>)
    ensures RowCount(ContributionsOf(labels, encoded)) == RowCount(encoded)
  {
    if encoded != [] {
      var init, last := encoded[..|encoded| - 1], encoded[|encoded| - 1];
      ContributionRows(labels, init);
      var c := [last.(metrics := Prefixed(labels, last.metrics))];
      assert last.metrics == [] ==> ContributionsOf(labels, encoded) == ContributionsOf(labels, init);
      RowCountAppend(ContributionsOf(labels, init), c);
      assert RowCount(c) == |last.metrics| by {
        assert c[..0] == [];
      }
    }
  }

  /** Output rows, rows dropped for metadata and rows of unserialisable label sets are all the rows there were. */
  lemma {:induction false} AllRowsAccountedFor(entries: seq<Entry>)
    ensures RowCount(Contributions(entries)) + UnserialisableRows(entries) == AllRows(entries)
    ensures RowCount(Groups(Contributions(entries))) + MismatchedRows(Contributions(entries))
            + UnserialisableRows(entries)
         == AllRows(entries)
  {
    hide Groups, MismatchedRows, ContributionsOf;
    RowsAreConserved(Contributions(entries));
    if entries != [] {
      var init, last := entries[..|entries| - 1], entries[|entries| - 1];
      AllRowsAccountedFor(init);
      if last.labels.None? {
        assert Contributions(entries) == Contributions(init);
      } else {
        ContributionRows(last.labels.value, last.encoded);
        RowCountAppend(Contributions(init), ContributionsOf(last.labels.value, last.encoded));
      }
    }
  }

  // ---- the code ------------------------------------------------------------------------------

  function NonEmptyRows(fs: seq<MetricFamily>): nat {
    if fs == [] then 0 else NonEmptyRows(fs[1..]) + |fs[0].metrics|
  }

  /** The first sum in the loop: only non-empty families are counted, the others would add nothing. */
  method CountRows(encoded: seq<MetricFamily>) returns (remaining: nat)
    ensures remaining == NonEmptyRows(encoded)
  {
    remaining := 0;
    for i := 0 to |encoded|
      invariant remaining + NonEmptyRows(encoded[i..]) == NonEmptyRows(encoded)
    {
      assert encoded[i..][1..] == encoded[i + 1..];
      if |encoded[i].metrics| > 0 {
        remaining := remaining + |encoded[i].metrics|;
      }
    }
    assert encoded[|encoded|..] == [];
  }

  /** Every row is the source's with the whole label set in front of its own labels. */
  ghost predicate LedBy(led: seq<Metric>, labels: seq<LabelPair>, rows: seq<Metric>) {
    && |led| == |rows|
    && forall k :: 0 <= k < |rows| ==>
         && |labels| <= |led[k].labels|
         && led[k].labels[..|labels|] == labels && led[k].labels[|labels|..] == rows[k].labels
         && led[k] == rows[k].(labels := led[k].labels)
  }

  /** Leads every row with the label set; the last consumer of all takes it, the others copy it. */
  method PrependLabels(rows: seq<Metric>, labels: seq<LabelPair>, remaining: nat)
    returns (led: seq<Metric>, labelsLeft: seq<LabelPair>, remainingLeft: nat)
    requires |rows| <= remaining
    ensures led == Prefixed(labels, rows) && LedBy(led, labels, rows)
    ensures remainingLeft == remaining - |rows|
    ensures labelsLeft == if remainingLeft == 0 && rows != [] then [] else labels
  {
    led, labelsLeft, remainingLeft := rows, labels, remaining;
    for i := 0 to |rows|
      invariant remainingLeft == remaining - i
      invariant |led| == |rows|
      invariant forall k :: 0 <= k < i ==> led[k] == Prefixed(labels, rows)[k]
      invariant forall k :: i <= k < |rows| ==> led[k] == rows[k]
      invariant labelsLeft == if remainingLeft == 0 && i > 0 then [] else labels
    {
      remainingLeft := remainingLeft - 1;
      if remainingLeft == 0 {
        led := led[i := led[i].(labels := labelsLeft + led[i].labels)];
        labelsLeft := [];
      } else {
        led := led[i := led[i].(labels := labelsLeft + led[i].labels)];
      }
    }
  }

  method FindGroup(grouped: seq<MetricFamily>, name: Option<string>) returns (found: Option<nat>)
    ensures found.None? ==> forall k :: 0 <= k < |grouped| ==> grouped[k].name != name
    ensures found.Some? ==> found.value < |grouped| && grouped[found.value].name == name
  {
    for i := 0 to |grouped|
      invariant forall k :: 0 <= k < i ==> grouped[k].name != name
    {
      if grouped[i].name == name {
        return Some(i);
      }
    }
    return None;
  }

  /** Files one led family under its name. */
  method FileFamily(grouped: seq<MetricFamily>, family: MetricFamily, ghost cs: seq<MetricFamily>)
    returns (groups: seq<MetricFamily>, mismatch: bool)
    requires grouped == Groups(cs)
    ensures groups == Groups(cs + [family]) && mismatch == Mismatched(cs, family)
  {
    NamesAreNames(cs);
    assert forall k :: 0 <= k < |grouped| ==> grouped[k].name == Names(cs)[k];
    var found := FindGroup(grouped, family.name);
    if found.Some? {
      var i := found.value;
      GroupsExtend(cs, family, i);
      if grouped[i].help != family.help || grouped[i].mtype != family.mtype || grouped[i].unit != family.unit {
        return grouped, true;
      }
      return grouped[i := grouped[i].(metrics := grouped[i].metrics + family.metrics)], false;
    }
    GroupsOpen(cs, family);
    return grouped + [family], false;
  }

  class Encoding {
    var grouped: seq<MetricFamily>
    var labelErrorCount: nat
    var metadataErrorCount: nat

    constructor ()
      ensures grouped == [] && labelErrorCount == 0 && metadataErrorCount == 0
    {
      grouped, labelErrorCount, metadataErrorCount := [], 0, 0;
    }

    /** Files a led family, counting it if its metadata disagrees. */
    method File(family: MetricFamily, ghost cs: seq<MetricFamily>)
      requires grouped == Groups(cs) && metadataErrorCount == MismatchCount(cs)
      modifies this`grouped, this`metadataErrorCount
      ensures grouped == Groups(cs + [family]) && metadataErrorCount == MismatchCount(cs + [family])
    {
      MismatchNext(cs, family);
      hide Groups, MismatchCount, Mismatched;
      var groups, mismatch := FileFamily(grouped, family, cs);
      grouped := groups;
      if mismatch {
        metadataErrorCount := metadataErrorCount + 1;
      }
    }

    /** Everything one label set contributes. `remaining` reaches zero exactly at its last row. */
    method EncodeEntry(labelSet: seq<LabelPair>, encoded: seq<MetricFamily>, ghost cs: seq<MetricFamily>)
      requires grouped == Groups(cs) && metadataErrorCount == MismatchCount(cs)
      modifies this`grouped, this`metadataErrorCount
      ensures grouped == Groups(cs + ContributionsOf(labelSet, encoded))
      ensures metadataErrorCount == MismatchCount(cs + ContributionsOf(labelSet, encoded))
    {
      NoContribution(cs, labelSet, encoded);
      hide Groups, MismatchCount, ContributionsOf, NonEmptyRows, Prefixed;
      var labels := labelSet;
      var remaining := CountRows(encoded);
      assert encoded[0..] == encoded;
      for i := 0 to |encoded|
        invariant remaining == NonEmptyRows(encoded[i..])
        invariant remaining > 0 ==> labels == labelSet
        invariant grouped == Groups(cs + ContributionsOf(labelSet, encoded[..i]))
        invariant metadataErrorCount == MismatchCount(cs + ContributionsOf(labelSet, encoded[..i]))
      {
        NextContribution(cs, labelSet, encoded, i);
        ghost var before := cs + ContributionsOf(labelSet, encoded[..i]);
        var family := encoded[i];
        if family.metrics == [] {
          assert before + [] == before;
          continue;
        }
        var led, labelsLeft, remainingLeft := PrependLabels(family.metrics, labels, remaining);
        labels, remaining := labelsLeft, remainingLeft;
        File(family.(metrics := led), before);
      }
      assert encoded[..|encoded|] == encoded;
    }
  }

  lemma MismatchNext(cs: seq<MetricFamily>, f: MetricFamily)
    ensures MismatchCount(cs + [f]) == MismatchCount(cs) + if Mismatched(cs, f) then 1 else 0
  {
    hide Mismatched;
    assert (cs + [f])[..|cs|] == cs;
  }

  lemma NoContribution(cs: seq<MetricFamily>, labels: seq<LabelPair>, encoded: seq<MetricFamily>)
    ensures cs + ContributionsOf(labels, encoded[..0]) == cs
  {
  }

  /** What the family at `i` adds to the contributions, and what is left to be counted after it. */
  lemma NextContribution(cs: seq<MetricFamily>, labels: seq<LabelPair>, encoded: seq<MetricFamily>, i: nat)
    requires i < |encoded|
    ensures NonEmptyRows(encoded[i..]) == |encoded[i].metrics| + NonEmptyRows(encoded[i + 1..])
    ensures cs + ContributionsOf(labels, encoded[..i + 1])
         == (cs + ContributionsOf(labels, encoded[..i]))
            + if encoded[i].metrics == [] then [] else [encoded[i].(metrics := Prefixed(labels, encoded[i].metrics))]
  {
    hide Prefixed;
    assert encoded[..i + 1][..i] == encoded[..i] && encoded[i..][1..] == encoded[i + 1..];
    var own := if encoded[i].metrics == [] then [] else [encoded[i].(metrics := Prefixed(labels, encoded[i].metrics))];
    assert ContributionsOf(labels, encoded[..i + 1]) == ContributionsOf(labels, encoded[..i]) + own;
    ConcatAssoc(cs, ContributionsOf(labels, encoded[..i]), own);
  }

  function LabelErrors(entries: seq<Entry>): nat {
    if entries == [] then 0
    else LabelErrors(entries[..|entries| - 1]) + if entries[|entries| - 1].labels.None? then 1 else 0
  }

  /** `encode_metric_value` over the metrics in whatever order the map yields them. */
  method EncodeMetricValue(entries: seq<Entry>)
    returns (grouped: seq<MetricFamily>, labelErrors: nat, metadataErrors: nat)
    ensures grouped == Groups(Contributions(entries))
    ensures labelErrors == |set e: nat | e < |entries| && entries[e].labels.None?|
    ensures var cs := Contributions(entries);
            metadataErrors == |set i: nat | i < |cs| && DisagreesWithFirst(cs, i)|
    ensures RowCount(grouped) + MismatchedRows(Contributions(entries)) + UnserialisableRows(entries) == AllRows(entries)
    ensures forall i, j :: 0 <= i < j < |grouped| ==> grouped[i].name != grouped[j].name
  {
    hide Groups, MismatchCount, ContributionsOf;
    var encoding := new Encoding();
    NothingGrouped();
    for i := 0 to |entries|
      invariant encoding.grouped == Groups(Contributions(entries[..i]))
      invariant encoding.metadataErrorCount == MismatchCount(Contributions(entries[..i]))
      invariant encoding.labelErrorCount == LabelErrors(entries[..i])
    {
      assert entries[..i + 1][..i] == entries[..i];
      if entries[i].labels.None? {
        assert Contributions(entries[..i + 1]) == Contributions(entries[..i]);
        encoding.labelErrorCount := encoding.labelErrorCount + 1;
        continue;
      }
      encoding.EncodeEntry(entries[i].labels.value, entries[i].encoded, Contributions(entries[..i]));
    }
    assert entries[..|entries|] == entries;
    grouped, labelErrors, metadataErrors := encoding.grouped, encoding.labelErrorCount, encoding.metadataErrorCount;
    LabelErrorsAre(entries);
    MismatchesAre(Contributions(entries));
    AllRowsAccountedFor(entries);
    GroupNamesDistinct(Contributions(entries));
  }

  lemma NothingGrouped()
    ensures Groups([]) == [] && MismatchCount([]) == 0
  {
  }

  lemma GroupNamesDistinct(cs: seq<MetricFamily>)
    ensures forall i, j :: 0 <= i < j < |Groups(cs)| ==> Groups(cs)[i].name != Groups(cs)[j].name
  {
    NamesAreNames(cs);
    assert forall i :: 0 <= i < |Groups(cs)| ==> Groups(cs)[i].name == Names(cs)[i];
  }

  // ---- the errors, counted ------------------------------------------------------------------

  lemma {:induction false} LabelErrorsAre(entries: seq<Entry>)
    ensures LabelErrors(entries) == |set e: nat | e < |entries| && entries[e].labels.None?|
  {
    var all := set e: nat | e < |entries| && entries[e].labels.None?;
    if entries == [] {
      assert all == {};
    } else {
      var n := |entries| - 1;
      var init := entries[..n];
      LabelErrorsAre(init);
      var before := set e: nat | e < n && init[e].labels.None?;
      CountedNext(before, all, n, entries[n].labels.None?);
    }
  }

  ghost predicate IsFirstOf(cs: seq<MetricFamily>, j: nat, name: Option<string>) {
    j < |cs| && cs[j].name == name && forall k :: 0 <= k < j ==> cs[k].name != name
  }

  /** Help, type or unit differ from those of the first contribution with the same name. */
  ghost predicate DisagreesWithFirst(cs: seq<MetricFamily>, i: nat)
    requires i < |cs|
  {
    exists j: nat :: j < i && IsFirstOf(cs, j, cs[i].name)
      && !(cs[j].help == cs[i].help && cs[j].mtype == cs[i].mtype && cs[j].unit == cs[i].unit)
  }

  lemma FirstIsOne(cs: seq<MetricFamily>, a: nat, b: nat, name: Option<string>)
    requires IsFirstOf(cs, a, name) && IsFirstOf(cs, b, name)
    ensures a == b
  {
    assert !(a < b) && !(b < a);
  }

  lemma LastDisagrees(cs: seq<MetricFamily>)
    requires cs != []
    ensures Mismatched(cs[..|cs| - 1], cs[|cs| - 1]) <==> DisagreesWithFirst(cs, |cs| - 1)
  {
    var n := |cs| - 1;
    var init, last := cs[..n], cs[n];
    NamesAreNames(init);
    hide Names;
    if last.name in Names(init) {
      var first := FirstIndex(init, last.name);
      hide FirstIndex;
      assert cs[first] == init[first] && forall k :: 0 <= k < first ==> cs[k] == init[k];
      assert IsFirstOf(cs, first, last.name);
      forall j: nat | j < n && IsFirstOf(cs, j, last.name) ensures j == first {
        FirstIsOne(cs, j, first, last.name);
      }
    } else {
      assert forall k :: 0 <= k < n ==> cs[k] == init[k];
    }
  }

  lemma EarlierDisagrees(cs: seq<MetricFamily>, i: nat)
    requires i + 1 < |cs|
    ensures DisagreesWithFirst(cs[..|cs| - 1], i) <==> DisagreesWithFirst(cs, i)
  {
    var init := cs[..|cs| - 1];
    assert forall k :: 0 <= k < |init| ==> init[k] == cs[k];
    assert forall j: nat :: j < i ==> (IsFirstOf(init, j, cs[i].name) <==> IsFirstOf(cs, j, cs[i].name));
  }

  lemma MismatchesStep(cs: seq<MetricFamily>)
    requires cs != []
    ensures var n := |cs| - 1;
            |set i: nat | i < |cs| && DisagreesWithFirst(cs, i)|
            == |set i: nat | i < n && DisagreesWithFirst(cs[..n], i)| + if DisagreesWithFirst(cs, n) then 1 else 0
  {
    var n := |cs| - 1;
    forall i: nat | i < n ensures DisagreesWithFirst(cs[..n], i) <==> DisagreesWithFirst(cs, i) {
      EarlierDisagrees(cs, i);
    }
    hide DisagreesWithFirst;
    var before := set i: nat | i < n && DisagreesWithFirst(cs[..n], i);
    var all := set i: nat | i < |cs| && DisagreesWithFirst(cs, i);
    CountedNext(before, all, n, DisagreesWithFirst(cs, n));
  }

  lemma {:induction false} MismatchesAre(cs: seq<MetricFamily>)
    ensures MismatchCount(cs) == |set i: nat | i < |cs| && DisagreesWithFirst(cs, i)|
  {
    if cs == [] {
      assert (set i: nat | i < |cs| && DisagreesWithFirst(cs, i)) == {};
    } else {
      LastDisagrees(cs);
      MismatchesStep(cs);
      MismatchesAre(cs[..|cs| - 1]);
      hide Mismatched, DisagreesWithFirst;
    }
  }

  // ---- the rows of a group --------------------------------------------------------------------

  /** A family with rows, of a label set that could be serialised. */
  ghost predicate IsContributed(entries: seq<Entry>, p: Place) {
    && p.0 < |entries| && entries[p.0].labels.Some?
    && p.1 < |entries[p.0].encoded| && entries[p.0].encoded[p.1].metrics != []
  }

  ghost predicate IsContribution(c: MetricFamily, source: MetricFamily, labels: seq<LabelPair>) {
    c == source.(metrics := c.metrics) && LedBy(c.metrics, labels, source.metrics)
  }

  lemma {:induction false} EntryContributions(labels: seq<LabelPair>, encoded: seq<MetricFamily>)
    returns (from: seq<nat>)
    ensures var cs := ContributionsOf(labels, encoded);
            && Picks(from, |encoded|) && |cs| == |from|
            && forall i :: 0 <= i < |from| ==> IsContribution(cs[i], encoded[from[i]], labels)
    ensures forall f :: 0 <= f < |encoded| ==> (f in from <==> encoded[f].metrics != [])
  {
    from := [];
    if encoded != [] {
      var n := |encoded| - 1;
      from := EntryContributions(labels, encoded[..n]);
      PicksNext(encoded, from);
      var last := encoded[n].(metrics := Prefixed(labels, encoded[n].metrics));
      assert IsContribution(last, encoded[n], labels);
      var before := ContributionsOf(labels, encoded[..n]);
      assert ContributionsOf(labels, encoded) == if encoded[n].metrics == [] then before else before + [last];
      assert forall i :: 0 <= i < |from| ==> IsContribution(before[i], encoded[from[i]], labels);
      hide IsContribution, Prefixed, ContributionsOf, Picks, At;
      if encoded[n].metrics != [] {
        from := from + [n];
      }
    }
  }

  /** Contribution `c` comes from the family at `p`. */
  ghost predicate ComesFrom(entries: seq<Entry>, p: Place, c: MetricFamily) {
    && IsContributed(entries, p)
    && IsContribution(c, entries[p.0].encoded[p.1], entries[p.0].labels.value)
  }

  /** What the entries before the last contributed stays where it was. */
  lemma EarlierContributed(entries: seq<Entry>, p: Place)
    requires entries != []
    ensures var n := |entries| - 1;
            && (IsContributed(entries[..n], p) <==> IsContributed(entries, p) && p.0 < n)
            && (forall c :: ComesFrom(entries[..n], p, c) ==> ComesFrom(entries, p, c))
            && (IsContributed(entries, p) && p.0 >= n ==> p.0 == n)
  {
    hide IsContribution;
  }

  lemma LastContributed(entries: seq<Entry>, own: seq<nat>)
    requires entries != [] && entries[|entries| - 1].labels.Some?
    requires var last := entries[|entries| - 1];
             && Picks(own, |last.encoded|)
             && forall f :: 0 <= f < |last.encoded| ==> (f in own <==> last.encoded[f].metrics != [])
    ensures forall f: nat :: IsContributed(entries, (|entries| - 1, f)) <==> f in own
  {
    var last := entries[|entries| - 1];
    forall f: nat ensures IsContributed(entries, (|entries| - 1, f)) <==> f in own {
      if f in own {
        assert f < |last.encoded|;
      }
    }
  }

  lemma {:induction false} ContributionsFrom(entries: seq<Entry>) returns (from: seq<Place>)
    ensures Ascending(from) && |Contributions(entries)| == |from|
    ensures forall i :: 0 <= i < |from| ==> ComesFrom(entries, from[i], Contributions(entries)[i])
    ensures forall p: Place :: p in from <==> IsContributed(entries, p)
  {
    NoPlaces();
    from := [];
    if entries != [] {
      var n := |entries| - 1;
      var last := entries[n];
      var before := ContributionsFrom(entries[..n]);
      forall p: Place
        ensures (IsContributed(entries[..n], p) <==> IsContributed(entries, p) && p.0 < n)
        ensures IsContributed(entries, p) && p.0 >= n ==> p.0 == n
        ensures forall c :: ComesFrom(entries[..n], p, c) ==> ComesFrom(entries, p, c)
      {
        EarlierContributed(entries, p);
      }
      from := before;
      if last.labels.Some? {
        from := AppendContributed(entries, before);
      } else {
        assert forall p: Place :: IsContributed(entries, p) ==> p.0 < n;
      }
    }
  }

  /** The last entry's contributions follow those of the entries before. */
  lemma AppendContributed(entries: seq<Entry>, before: seq<Place>) returns (from: seq<Place>)
    requires entries != [] && entries[|entries| - 1].labels.Some?
    requires Ascending(before) && |Contributions(entries[..|entries| - 1])| == |before|
    requires forall i :: 0 <= i < |before| ==> ComesFrom(entries, before[i], Contributions(entries[..|entries| - 1])[i])
    requires forall p: Place :: p in before <==> IsContributed(entries, p) && p.0 < |entries| - 1
    ensures Ascending(from) && |Contributions(entries)| == |from|
    ensures forall i :: 0 <= i < |from| ==> ComesFrom(entries, from[i], Contributions(entries)[i])
    ensures forall p: Place :: p in from <==> IsContributed(entries, p)
  {
    var n := |entries| - 1;
    var last := entries[n];
    var own := EntryContributions(last.labels.value, last.encoded);
    LastContributed(entries, own);
    PlacesAppend(before, n, own);
    from := before + Places(n, own);
    var cs, ownCs := Contributions(entries[..n]), ContributionsOf(last.labels.value, last.encoded);
    assert Contributions(entries) == cs + ownCs;
    hide Contributions, ContributionsOf, Ascending, Places;
    forall i | 0 <= i < |own| ensures ComesFrom(entries, (n, own[i]), ownCs[i]) {
      assert IsContributed(entries, (n, own[i]));
    }
    BothCome(entries, before, cs, Places(n, own), ownCs);
    AllContributed(entries, before, own);
  }

  lemma BothCome(
    entries: seq<Entry>, a: seq<Place>, cs: seq<MetricFamily>, b: seq<Place>, ds: seq<MetricFamily>)
    requires |a| == |cs| && forall i :: 0 <= i < |a| ==> ComesFrom(entries, a[i], cs[i])
    requires |b| == |ds| && forall i :: 0 <= i < |b| ==> ComesFrom(entries, b[i], ds[i])
    ensures forall i :: 0 <= i < |a + b| ==> ComesFrom(entries, (a + b)[i], (cs + ds)[i])
  {
    hide ComesFrom;
  }

  lemma AllContributed(entries: seq<Entry>, before: seq<Place>, own: seq<nat>)
    requires entries != []
    requires forall p: Place :: p in before <==> IsContributed(entries, p) && p.0 < |entries| - 1
    requires forall f: nat :: IsContributed(entries, (|entries| - 1, f)) <==> f in own
    requires forall r, j :: (r, j) in before + Places(|entries| - 1, own) <==>
      (r, j) in before || (r == |entries| - 1 && j in own)
    ensures forall p: Place :: p in before + Places(|entries| - 1, own) <==> IsContributed(entries, p)
  {
    var n := |entries| - 1;
    hide Places;
    forall p: Place ensures p in before + Places(n, own) <==> IsContributed(entries, p) {
      assert p == (p.0, p.1);
      assert IsContributed(entries, p) ==> p.0 <= n;
      hide IsContributed;
      if p.0 == n {
        assert p == (n, p.1);
      }
    }
  }

  function RowsOf(fs: seq<MetricFamily>): (rows: seq<seq<Metric>>)
    ensures |rows| == |fs| && forall i :: 0 <= i < |fs| ==> rows[i] == fs[i].metrics
  {
    seq(|fs|, i requires 0 <= i < |fs| => fs[i].metrics)
  }

  lemma RowsOfMore(fs: seq<MetricFamily>, f: MetricFamily)
    ensures Flatten(RowsOf(fs + [f])) == Flatten(RowsOf(fs)) + f.metrics
  {
    assert RowsOf(fs + [f]) == RowsOf(fs) + [f.metrics];
    FlattenAppend(RowsOf(fs), [f.metrics]);
    FlattenOne(f.metrics);
  }

  /** The contribution's name and metadata. */
  ghost predicate Agrees(c: MetricFamily, name: Option<string>, other: MetricFamily) {
    c.name == name && c.help == other.help && c.mtype == other.mtype && c.unit == other.unit
  }

  lemma TakesNext(cs: seq<MetricFamily>, picked: seq<nat>, name: Option<string>, first: MetricFamily)
    requires cs != [] && Picks(picked, |cs| - 1)
    requires forall i :: 0 <= i < |cs| - 1 ==> (i in picked <==> Agrees(cs[..|cs| - 1][i], name, first))
    ensures var next := if Agrees(cs[|cs| - 1], name, first) then picked + [|cs| - 1] else picked;
            forall i :: 0 <= i < |cs| ==> (i in next <==> Agrees(cs[i], name, first))
  {
    hide Agrees, At;
    var n := |cs| - 1;
    PicksNext(cs, picked);
    hide Picks;
    forall i | 0 <= i < |cs|
      ensures i in (if Agrees(cs[n], name, first) then picked + [n] else picked) <==> Agrees(cs[i], name, first)
    {
      if i < n {
        assert cs[..n][i] == cs[i];
      }
    }
  }

  lemma {:induction false} RowsForFrom(cs: seq<MetricFamily>, name: Option<string>, first: MetricFamily)
    returns (picked: seq<nat>)
    ensures Picks(picked, |cs|) && RowsFor(cs, name, first) == Flatten(RowsOf(At(cs, picked)))
    ensures forall i :: 0 <= i < |cs| ==> (i in picked <==> Agrees(cs[i], name, first))
  {
    picked := [];
    if cs != [] {
      var n := |cs| - 1;
      picked := RowsForFrom(cs[..n], name, first);
      PicksNext(cs, picked);
      RowsOfMore(At(cs, picked), cs[n]);
      var before := RowsFor(cs[..n], name, first);
      assert RowsFor(cs, name, first) == before + if Agrees(cs[n], name, first) then cs[n].metrics else [];
      TakesNext(cs, picked, name, first);
      hide RowsOf, Flatten, RowsFor, Agrees, Picks, At;
      if Agrees(cs[n], name, first) {
        picked := picked + [n];
      }
    }
  }

  /** Of two filings under one name the first has the smaller place. */
  lemma FirstPlace(all: seq<Place>, first: nat, i: nat)
    requires Ascending(all) && first <= i < |all|
    ensures all[i] == all[first] || Before(all[first], all[i])
  {
  }

  lemma PickedFirst(cs: seq<MetricFamily>, picked: seq<nat>, name: Option<string>, first: nat)
    requires Picks(picked, |cs|) && first in picked
    requires forall i :: 0 <= i < |picked| ==> cs[picked[i]].name == name
    requires forall k :: 0 <= k < first < |cs| ==> cs[k].name != name
    ensures |picked| > 0 && picked[0] == first
  {
    var i :| 0 <= i < |picked| && picked[i] == first;
    assert cs[picked[0]].name == name;
  }

  /** Name and metadata of a contribution are its source's, and its rows are led by the label set. */
  lemma ContributionOf(entries: seq<Entry>, p: Place, c: MetricFamily)
    requires ComesFrom(entries, p, c)
    ensures var f := entries[p.0].encoded[p.1];
            && c.name == f.name && c.help == f.help && c.mtype == f.mtype && c.unit == f.unit
            && LedBy(c.metrics, entries[p.0].labels.value, f.metrics)
  {
    hide LedBy;
  }

  /**
   A group's rows are those of the families that were filed in it, in order: every
   family with rows, of a label set that could be serialised, that has the group's
   name, help, type and unit, each row led by that whole label set. Name, help, type
   and unit are those of the first such family with the name.
   */
  lemma GroupIs(entries: seq<Entry>, g: nat) returns (from: seq<Place>, rows: seq<seq<Metric>>)
    requires g < |Groups(Contributions(entries))|
    ensures var group := Groups(Contributions(entries))[g];
            && Ascending(from) && |rows| == |from| > 0 && group.metrics == Flatten(rows)
            && (forall i :: 0 <= i < |from| ==>
                  && IsContributed(entries, from[i])
                  && LedBy(rows[i], entries[from[i].0].labels.value, entries[from[i].0].encoded[from[i].1].metrics))
            && (forall p: Place | IsContributed(entries, p) ::
                  var f := entries[p.0].encoded[p.1];
                  && (p in from <==>
                      f.name == group.name && f.help == group.help && f.mtype == group.mtype && f.unit == group.unit)
                  && (f.name == group.name ==> p == from[0] || Before(from[0], p)))
  {
    var cs := Contributions(entries);
    var name := Names(cs)[g];
    var first := FirstIndex(cs, name);
    var all := ContributionsFrom(entries);
    var picked := RowsForFrom(cs, name, cs[first]);
    var group := Groups(cs)[g];
    assert group == cs[first].(metrics := RowsFor(cs, name, cs[first]));
    hide Contributions, Groups, Names, RowsFor, FirstIndex, LedBy;
    from, rows := At(all, picked), RowsOf(At(cs, picked));
    PickedFirst(cs, picked, name, first);
    PlacePicked(all, picked, first);
    forall i | 0 <= i < |from|
      ensures IsContributed(entries, from[i])
      ensures LedBy(rows[i], entries[from[i].0].labels.value, entries[from[i].0].encoded[from[i].1].metrics)
    {
      ContributionOf(entries, all[picked[i]], cs[picked[i]]);
    }
    hide RowsOf, At, Picks, Ascending, Flatten, Before;
    forall p: Place | IsContributed(entries, p)
      ensures var f := entries[p.0].encoded[p.1];
              && (p in from <==>
                  f.name == group.name && f.help == group.help && f.mtype == group.mtype && f.unit == group.unit)
              && (f.name == group.name ==> p == from[0] || Before(from[0], p))
    {
      var i: nat :| i < |all| && all[i] == p;
      ContributionOf(entries, all[i], cs[i]);
      PlacePicked(all, picked, i);
      if first <= i {
        FirstPlace(all, first, i);
      }
    }
  }
}
