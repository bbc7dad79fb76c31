/**
 A strict parser for the text format, and the proof that it and the renderer
 undo each other: what is parsed renders back to the input (the contracts
 below), and what is rendered parses back to the items (the lemmas).
 */
module TextParser {
  import opened Base
  import opened Proto
  import opened TextGrammar

  /** Escaped text up to the first character that cannot continue it. */
  function TakeEscaped(s: string): (r: (string, string))
    ensures s == Escape(r.0) + r.1
  {
    if s == "" || s[0] in "\"\n" then ("", s)
    else if s[0] != '\\' then
      var (value, rest) := TakeEscaped(s[1..]);
      ([s[0]] + value, rest)
    else if |s| > 1 && s[1] in "\\n\"" then
      var (value, rest) := TakeEscaped(s[2..]);
      ([if s[1] == 'n' then '\n' else s[1]] + value, rest)
    else ("", s)
  }

  /** The longest prefix whose characters all satisfy `p`. */
  function TakeWhile(p: char -> bool, s: string): (r: (string, string))
    ensures s == r.0 + r.1
    ensures forall i :: 0 <= i < |r.0| ==> p(r.0[i])
    ensures r.1 != "" ==> !p(r.1[0])
  {
    if s == "" || !p(s[0]) then ("", s)
    else
      var (taken, rest) := TakeWhile(p, s[1..]);
      ([s[0]] + taken, rest)
  }

  predicate Starts(s: string, c: char) { s != "" && s[0] == c }

  /** Drops `prefix` from the front of `s`, if it is there. */
  function Expect(prefix: string, s: string): (r: Option<string>)
    ensures r.Some? ==> s == prefix + r.value
  {
    if prefix <= s then Some(s[|prefix|..]) else None
  }

  function ParseQuoted(s: string): (r: Option<(string, string)>)
    ensures r.Some? ==> s == Quoted(r.value.0) + r.value.1
  {
    if !Starts(s, '"') then None
    else
      var (value, rest) := TakeEscaped(s[1..]);
      if !Starts(rest, '"') then None else Some((value, rest[1..]))
  }

  function ParseMetricName(s: string): (r: Option<(string, string)>)
    ensures r.Some? ==> s == RenderMetricName(r.value.0) + r.value.1
  {
    if Starts(s, '"') then
      match ParseQuoted(s)
      case Some((name, rest)) => if IsLegacyMetricName(name) then None else Some((name, rest))
      case None => None
    else
      var (name, rest) := TakeWhile(IsMetricNameChar, s);
      if IsLegacyMetricName(name) then Some((name, rest)) else None
  }

  function ParseLabelName(s: string): (r: Option<(string, string)>)
    ensures r.Some? ==> s == RenderLabelName(r.value.0) + r.value.1
  {
    if Starts(s, '"') then
      match ParseQuoted(s)
      case Some((name, rest)) => if IsLegacyLabelName(name) then None else Some((name, rest))
      case None => None
    else
      var (name, rest) := TakeWhile(IsLabelNameChar, s);
      if IsLegacyLabelName(name) then Some((name, rest)) else None
  }

  function ParseLabel(s: string): (r: Option<(Label, string)>)
    ensures r.Some? ==> s == RenderLabel(r.value.0) + r.value.1
  {
    match ParseLabelName(s)
    case None => None
    case Some((name, afterName)) =>
      match Expect("=", afterName)
      case None => None
      case Some(afterEquals) =>
        match ParseQuoted(afterEquals)
        case None => None
        case Some((value, rest)) =>
          LabelParts(name, value, rest);
          Some(((name, value), rest))
  }

  lemma LabelParts(name: string, value: string, rest: string)
    ensures RenderLabel((name, value)) + rest == RenderLabelName(name) + ("=" + (Quoted(value) + rest))
  {
    hide RenderLabelName, Quoted;
  }

  function ParseLabelTail(s: string): (r: Option<(seq<Label>, string)>)
    ensures r.Some? ==> s == RenderLabelTail(r.value.0) + r.value.1
    ensures r.Some? ==> !Starts(r.value.1, ',')
    decreases |s|
  {
    if !Starts(s, ',') then Some(([], s))
    else
      match ParseLabel(s[1..])
      case None => None
      case Some((first, afterFirst)) =>
        match ParseLabelTail(afterFirst)
        case None => None
        case Some((others, rest)) =>
          TailCons(first, others, rest);
          Some(([first] + others, rest))
  }

  lemma TailCons(first: Label, others: seq<Label>, rest: string)
    ensures RenderLabelTail([first] + others) + rest == "," + (RenderLabel(first) + (RenderLabelTail(others) + rest))
  {
    hide RenderLabel;
    assert ([first] + others)[1..] == others;
  }

  function ParseBraced(s: string): (r: Option<(seq<Label>, string)>)
    ensures r.Some? ==> s == RenderBraced(r.value.0) + r.value.1
  {
    if !Starts(s, '{') then None
    else if Starts(s[1..], '}') then Some(([], s[2..]))
    else
      match ParseLabel(s[1..])
      case None => None
      case Some((first, afterFirst)) =>
        match ParseLabelTail(afterFirst)
        case None => None
        case Some((others, afterTail)) =>
          if !Starts(afterTail, '}') then None
          else
            BracedCons(first, others, afterTail[1..]);
            Some(([first] + others, afterTail[1..]))
  }

  lemma BracedCons(first: Label, others: seq<Label>, rest: string)
    ensures RenderBraced([first] + others) + rest
         == "{" + (RenderLabel(first) + (RenderLabelTail(others) + ("}" + rest)))
  {
    hide RenderLabel;
    assert ([first] + others)[1..] == others;
  }

  function ParseQuotedHead(s: string): (r: Option<((string, seq<Label>), string)>)
    ensures r.Some? ==>
      && !IsLegacyMetricName(r.value.0.0)
      && s == "{" + (Quoted(r.value.0.0) + (RenderLabelTail(r.value.0.1) + ("}" + r.value.1)))
  {
    match Expect("{", s)
    case None => None
    case Some(afterBrace) =>
      match ParseQuoted(afterBrace)
      case None => None
      case Some((name, afterName)) =>
        match ParseLabelTail(afterName)
        case None => None
        case Some((labels, afterTail)) =>
          match Expect("}", afterTail)
          case None => None
          case Some(rest) => if IsLegacyMetricName(name) then None else Some(((name, labels), rest))
  }

  function ParsePlainHead(s: string): (r: Option<((string, seq<Label>), string)>)
    ensures r.Some? ==> s == RenderHead(r.value.0.0, r.value.0.1) + r.value.1
  {
    var (name, afterName) := TakeWhile(IsMetricNameChar, s);
    if !IsLegacyMetricName(name) then None
    else if !Starts(afterName, '{') then Some(((name, []), afterName))
    else
      match ParseBraced(afterName)
      case None => None
      case Some((labels, rest)) =>
        if labels == [] then None
        else
          PlainHeadParts(name, labels, rest);
          Some(((name, labels), rest))
  }

  function ParseHead(s: string): (r: Option<((string, seq<Label>), string)>)
    ensures r.Some? ==> s == RenderHead(r.value.0.0, r.value.0.1) + r.value.1
  {
    if Starts(s, '{') then
      match ParseQuotedHead(s)
      case None => None
      case Some(((name, labels), rest)) =>
        QuotedHeadParts(name, labels, rest);
        Some(((name, labels), rest))
    else ParsePlainHead(s)
  }

  lemma PlainHeadParts(name: string, labels: seq<Label>, rest: string)
    requires IsLegacyMetricName(name) && labels != []
    ensures RenderHead(name, labels) + rest == name + (RenderBraced(labels) + rest)
  {
    hide RenderBraced;
  }

  lemma QuotedHeadParts(name: string, labels: seq<Label>, rest: string)
    requires !IsLegacyMetricName(name)
    ensures RenderHead(name, labels) + rest == "{" + (Quoted(name) + (RenderLabelTail(labels) + ("}" + rest)))
  {
    hide Quoted, RenderLabelTail;
  }

  function ParseToken(s: string): (r: Option<(string, string)>)
    ensures r.Some? ==> IsToken(r.value.0) && s == r.value.0 + r.value.1
  {
    var (token, rest) := TakeWhile(IsTokenChar, s);
    if token == "" then None else Some((token, rest))
  }

  /** A timestamp is a token after one space; an exemplar mark is not a token. */
  function ParseTimestamp(s: string): (r: (Option<string>, string))
    ensures r.0.Some? ==> IsToken(r.0.value)
    ensures s == RenderTimestamp(r.0) + r.1
  {
    if !Starts(s, ' ') then (None, s)
    else
      match ParseToken(s[1..])
      case None => (None, s)
      case Some((token, rest)) => (Some(token), rest)
  }

  function ParseExemplar(s: string): (r: Option<(Option<ExemplarItem>, string)>)
    ensures r.Some? ==> s == RenderExemplar(r.value.0) + r.value.1
    ensures r.Some? && r.value.0.Some? ==>
      var e := r.value.0.value; IsToken(e.value) && (e.timestamp.Some? ==> IsToken(e.timestamp.value))
  {
    if !Starts(s, ' ') then Some((None, s))
    else
      match Expect(" # ", s)
      case None => None
      case Some(afterMark) =>
        match ParseBraced(afterMark)
        case None => None
        case Some((labels, afterLabels)) =>
          match Expect(" ", afterLabels)
          case None => None
          case Some(afterSpace) =>
            match ParseToken(afterSpace)
            case None => None
            case Some((value, afterValue)) =>
              var (timestamp, rest) := ParseTimestamp(afterValue);
              var e := ExemplarItem(labels, value, timestamp);
              ExemplarParts(e, rest);
              Some((Some(e), rest))
  }

  lemma ExemplarParts(e: ExemplarItem, rest: string)
    ensures RenderExemplar(Some(e)) + rest
         == " # " + (RenderBraced(e.labels) + (" " + (e.value + (RenderTimestamp(e.timestamp) + rest))))
  {
    hide RenderBraced, RenderTimestamp;
  }

  function ParseSample(s: string): (r: Option<(Item, string)>)
    ensures r.Some? ==> IsItem(r.value.0) && s == RenderItem(r.value.0) + r.value.1
  {
    match ParseHead(s)
    case None => None
    case Some(((name, labels), afterHead)) =>
      match Expect(" ", afterHead)
      case None => None
      case Some(afterSpace) =>
        match ParseToken(afterSpace)
        case None => None
        case Some((value, afterValue)) =>
          var (timestamp, afterTimestamp) := ParseTimestamp(afterValue);
          match ParseExemplar(afterTimestamp)
          case None => None
          case Some((exemplar, afterExemplar)) =>
            match Expect("\n", afterExemplar)
            case None => None
            case Some(rest) =>
              SampleParts(name, labels, value, timestamp, exemplar, rest);
              Some((Sample(name, labels, value, timestamp, exemplar), rest))
  }

  lemma SampleParts(name: string, labels: seq<Label>, value: string, timestamp: Option<string>,
                    exemplar: Option<ExemplarItem>, rest: string)
    ensures RenderItem(Sample(name, labels, value, timestamp, exemplar)) + rest
         == RenderHead(name, labels)
            + (" " + (value + (RenderTimestamp(timestamp) + (RenderExemplar(exemplar) + ("\n" + rest)))))
  {
    hide RenderHead, RenderTimestamp, RenderExemplar;
  }

  /** `name " " escaped-text "\n"`, the shape HELP and UNIT lines share. */
  function ParseNamedText(s: string): (r: Option<((string, string), string)>)
    ensures r.Some? ==>
      s == RenderMetricName(r.value.0.0) + (" " + (Escape(r.value.0.1) + ("\n" + r.value.1)))
  {
    match ParseMetricName(s)
    case None => None
    case Some((name, afterName)) =>
      match Expect(" ", afterName)
      case None => None
      case Some(afterSpace) =>
        var (text, afterText) := TakeEscaped(afterSpace);
        match Expect("\n", afterText)
        case None => None
        case Some(rest) => Some(((name, text), rest))
  }

  function ParseType(s: string): (r: Option<(MetricType, string)>)
    ensures r.Some? ==> s == TypeName(r.value.0) + ("\n" + r.value.1)
  {
    var (word, afterWord) := TakeWhile(IsAlpha, s);
    match Expect("\n", afterWord)
    case None => None
    case Some(rest) =>
      if word == "counter" then Some((CounterType, rest))
      else if word == "gauge" then Some((GaugeType, rest))
      else if word == "summary" then Some((SummaryType, rest))
      else if word == "unknown" then Some((UntypedType, rest))
      else if word == "histogram" then Some((HistogramType, rest))
      else if word == "gaugehistogram" then Some((GaugeHistogramType, rest))
      else None
  }

  function ParseItem(s: string): (r: Option<(Item, string)>)
    ensures r.Some? ==> IsItem(r.value.0) && s == RenderItem(r.value.0) + r.value.1
  {
    if !Starts(s, '#') then ParseSample(s)
    else if Expect("# HELP ", s).Some? then
      match ParseNamedText(Expect("# HELP ", s).value)
      case None => None
      case Some(((name, text), rest)) =>
        MetadataParts("# HELP ", RenderMetricName(name), Escape(text), rest);
        Some((Help(name, text), rest))
    else if Expect("# UNIT ", s).Some? then
      match ParseNamedText(Expect("# UNIT ", s).value)
      case None => None
      case Some(((name, text), rest)) =>
        MetadataParts("# UNIT ", RenderMetricName(name), Escape(text), rest);
        Some((Unit(name, text), rest))
    else
      match Expect("# TYPE ", s)
      case None => None
      case Some(afterMark) =>
        match ParseMetricName(afterMark)
        case None => None
        case Some((name, afterName)) =>
          match Expect(" ", afterName)
          case None => None
          case Some(afterSpace) =>
            match ParseType(afterSpace)
            case None => None
            case Some((mtype, rest)) =>
              MetadataParts("# TYPE ", RenderMetricName(name), TypeName(mtype), rest);
              Some((Type(name, mtype), rest))
  }

  lemma MetadataParts(mark: string, name: string, text: string, rest: string)
    ensures mark + name + " " + text + "\n" + rest == mark + (name + (" " + (text + ("\n" + rest))))
  {
  }

  function ParseDoc(s: string): (r: Option<seq<Item>>)
    ensures r.Some? ==> RenderDoc(r.value) == s && forall i :: 0 <= i < |r.value| ==> IsItem(r.value[i])
    decreases |s|
  {
    if s == EOF_LINE then Some([])
    else
      match ParseItem(s)
      case None => None
      case Some((item, rest)) =>
        match ParseDoc(rest)
        case None => None
        case Some(items) =>
          DocCons(item, items);
          Some([item] + items)
  }

  lemma DocCons(item: Item, items: seq<Item>)
    ensures RenderDoc([item] + items) == RenderItem(item) + RenderDoc(items)
  {
    hide RenderItem;
    assert ([item] + items)[1..] == items;
  }
}
