/**
 The OpenMetrics text format as a list of items, and how each item is written.

 Every item renders to exactly one line. This is the reference the encoder is
 proved against and the parser inverts.
 */
module TextGrammar {
  import opened Base
  import opened Proto

  // ---- characters and names -------------------------------------------------

  predicate IsAlpha(c: char) { 'a' <= c <= 'z' || 'A' <= c <= 'Z' }

  predicate IsDigit(c: char) { '0' <= c <= '9' }

  predicate IsMetricNameChar(c: char) { IsAlpha(c) || IsDigit(c) || c == '_' || c == ':' }

  predicate IsLabelNameChar(c: char) { IsAlpha(c) || IsDigit(c) || c == '_' }

  predicate IsLegacyMetricName(name: string) {
    name != "" && !IsDigit(name[0]) && forall i :: 0 <= i < |name| ==> IsMetricNameChar(name[i])
  }

  predicate IsLegacyLabelName(name: string) {
    name != "" && !IsDigit(name[0]) && forall i :: 0 <= i < |name| ==> IsLabelNameChar(name[i])
  }

  /** Number tokens stop at any character that means something to the line syntax. */
  predicate IsTokenChar(c: char) { c !in " \n\"#{}\\," }

  predicate IsToken(t: string) { t != "" && forall i :: 0 <= i < |t| ==> IsTokenChar(t[i]) }

  // ---- escaping -----------------------------------------------------------------

  function EscapeChar(c: char): string {
    if c == '\\' then "\\\\" else if c == '\n' then "\\n" else if c == '"' then "\\\"" else [c]
  }

  function Escape(s: string): string {
    if s == "" then "" else EscapeChar(s[0]) + Escape(s[1..])
  }

  lemma {:induction false} EscapeAppend(a: string, b: string)
    ensures Escape(a + b) == Escape(a) + Escape(b)
  {
    if a == "" {
      assert a + b == b;
    } else {
      hide EscapeChar;
      EscapeAppend(a[1..], b);
      assert (a + b)[1..] == a[1..] + b;
      ConcatAssoc(EscapeChar(a[0]), Escape(a[1..]), Escape(b));
    }
  }

  lemma {:induction false} EscapePlain(s: string)
    requires forall i :: 0 <= i < |s| ==> s[i] !in "\\\n\""
    ensures Escape(s) == s
  {
    if s != "" {
      EscapePlain(s[1..]);
    }
  }

  lemma {:induction false} EscapeHasNoNewline(s: string)
    ensures '\n' !in Escape(s)
  {
    if s != "" {
      EscapeHasNoNewline(s[1..]);
    }
  }

  // ---- items --------------------------------------------------------------------------

  type Label = (string, string)

  datatype ExemplarItem = ExemplarItem(labels: seq<Label>, value: string, timestamp: Option<string>)

  datatype Item =
    | Help(name: string, text: string)
    | Type(name: string, mtype: MetricType)
    | Unit(name: string, text: string)
    | Sample(name: string, labels: seq<Label>, value: string, timestamp: Option<string>, exemplar: Option<ExemplarItem>)

  predicate IsItem(item: Item) {
    match item
    case Sample(_, _, value, timestamp, exemplar) =>
      && IsToken(value)
      && (timestamp.Some? ==> IsToken(timestamp.value))
      && (exemplar.Some? ==>
            && IsToken(exemplar.value.value)
            && (exemplar.value.timestamp.Some? ==> IsToken(exemplar.value.timestamp.value)))
    case _ => true
  }

  const EOF_LINE: string := "# EOF\n"

  // ---- rendering -------------------------------------------------------------------------

  function Quoted(s: string): string { "\"" + Escape(s) + "\"" }

  function RenderMetricName(name: string): string {
    if IsLegacyMetricName(name) then name else Quoted(name)
  }

  function RenderLabelName(name: string): string {
    if IsLegacyLabelName(name) then name else Quoted(name)
  }

  function RenderLabel(pair: Label): string {
    RenderLabelName(pair.0) + "=" + Quoted(pair.1)
  }

  function RenderLabelTail(labels: seq<Label>): string {
    if labels == [] then "" else "," + RenderLabel(labels[0]) + RenderLabelTail(labels[1..])
  }

  function RenderBraced(labels: seq<Label>): string {
    "{" + (if labels == [] then "" else RenderLabel(labels[0]) + RenderLabelTail(labels[1..])) + "}"
  }

  function RenderHead(name: string, labels: seq<Label>): string {
    if IsLegacyMetricName(name) then
      name + if labels == [] then "" else RenderBraced(labels)
    else
      "{" + Quoted(name) + RenderLabelTail(labels) + "}"
  }

  function RenderTimestamp(timestamp: Option<string>): string {
    match timestamp
    case None => ""
    case Some(t) => " " + t
  }

  function RenderExemplar(exemplar: Option<ExemplarItem>): string {
    match exemplar
    case None => ""
    case Some(e) => " # " + RenderBraced(e.labels) + " " + e.value + RenderTimestamp(e.timestamp)
  }

  function TypeName(mtype: MetricType): string {
    match mtype
    case CounterType => "counter"
    case GaugeType => "gauge"
    case SummaryType => "summary"
    case UntypedType => "unknown"
    case HistogramType => "histogram"
    case GaugeHistogramType => "gaugehistogram"
  }

  /** The item's line without its newline. */
  function RenderBody(item: Item): string {
    match item
    case Help(name, text) => "# HELP " + RenderMetricName(name) + " " + Escape(text)
    case Type(name, mtype) => "# TYPE " + RenderMetricName(name) + " " + TypeName(mtype)
    case Unit(name, text) => "# UNIT " + RenderMetricName(name) + " " + Escape(text)
    case Sample(name, labels, value, timestamp, exemplar) =>
      RenderHead(name, labels) + " " + value + RenderTimestamp(timestamp) + RenderExemplar(exemplar)
  }

  function RenderItem(item: Item): string { RenderBody(item) + "\n" }

  function RenderItems(items: seq<Item>): string {
    if items == [] then "" else RenderItem(items[0]) + RenderItems(items[1..])
  }

  function RenderDoc(items: seq<Item>): string { RenderItems(items) + EOF_LINE }

  lemma {:induction false} RenderItemsAppend(a: seq<Item>, b: seq<Item>)
    ensures RenderItems(a + b) == RenderItems(a) + RenderItems(b)
  {
    hide RenderItem;
    if a == [] {
      assert a + b == b;
    } else {
      RenderItemsAppend(a[1..], b);
      assert (a + b)[1..] == a[1..] + b;
      ConcatAssoc(RenderItem(a[0]), RenderItems(a[1..]), RenderItems(b));
    }
  }

  lemma {:induction false} RenderLabelTailAppend(a: seq<Label>, b: seq<Label>)
    ensures RenderLabelTail(a + b) == RenderLabelTail(a) + RenderLabelTail(b)
  {
    hide RenderLabel;
    if a == [] {
      assert a + b == b;
    } else {
      RenderLabelTailAppend(a[1..], b);
      assert (a + b)[1..] == a[1..] + b;
      ConcatAssoc("," + RenderLabel(a[0]), RenderLabelTail(a[1..]), RenderLabelTail(b));
    }
  }

  lemma {:induction false} LabelTailHasNoNewline(labels: seq<Label>)
    ensures '\n' !in RenderLabelTail(labels)
  {
    if labels != [] {
      LabelHasNoNewline(labels[0]);
      LabelTailHasNoNewline(labels[1..]);
    }
  }

  lemma LabelHasNoNewline(pair: Label)
    ensures '\n' !in RenderLabel(pair)
  {
    EscapeHasNoNewline(pair.0);
    EscapeHasNoNewline(pair.1);
  }

  lemma BracedHasNoNewline(labels: seq<Label>)
    ensures '\n' !in RenderBraced(labels)
  {
    if labels != [] {
      LabelHasNoNewline(labels[0]);
      LabelTailHasNoNewline(labels[1..]);
    }
  }

  lemma HeadHasNoNewline(name: string, labels: seq<Label>)
    ensures '\n' !in RenderHead(name, labels)
  {
    EscapeHasNoNewline(name);
    BracedHasNoNewline(labels);
    LabelTailHasNoNewline(labels);
  }

  lemma ExemplarHasNoNewline(exemplar: Option<ExemplarItem>)
    requires exemplar.Some? ==>
      IsToken(exemplar.value.value) && (exemplar.value.timestamp.Some? ==> IsToken(exemplar.value.timestamp.value))
    ensures '\n' !in RenderExemplar(exemplar)
  {
    if exemplar.Some? {
      BracedHasNoNewline(exemplar.value.labels);
    }
  }

  lemma NamedLineHasNoNewline(mark: string, name: string, text: string)
    requires '\n' !in mark && '\n' !in text
    ensures '\n' !in mark + RenderMetricName(name) + " " + text
  {
    EscapeHasNoNewline(name);
    hide Escape;
  }

  lemma SampleHasNoNewline(item: Item)
    requires item.Sample? && IsItem(item)
    ensures '\n' !in RenderBody(item)
  {
    HeadHasNoNewline(item.name, item.labels);
    ExemplarHasNoNewline(item.exemplar);
    assert '\n' !in item.value && '\n' !in RenderTimestamp(item.timestamp);
    hide RenderHead, RenderExemplar, RenderTimestamp;
  }

  /** The body of an item holds no newline: every item is one line. */
  lemma BodyIsOneLine(item: Item)
    requires IsItem(item)
    ensures '\n' !in RenderBody(item)
  {
    hide RenderMetricName, Escape, IsItem;
    match item
    case Help(name, text) => EscapeHasNoNewline(text); NamedLineHasNoNewline("# HELP ", name, Escape(text));
    case Type(name, mtype) => NamedLineHasNoNewline("# TYPE ", name, TypeName(mtype));
    case Unit(name, text) => EscapeHasNoNewline(text); NamedLineHasNoNewline("# UNIT ", name, Escape(text));
    case Sample(_, _, _, _, _) => SampleHasNoNewline(item);
  }
}
