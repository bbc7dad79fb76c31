/** Everything rendered parses back: the completeness half of the text round trip. */
module TextRoundTrip {
  import opened Base
  import opened Proto
  import opened TextGrammar
  import opened TextParser

  lemma {:induction false} TakeEscapedOf(value: string, rest: string)
    requires rest == "" || rest[0] in "\"\n"
    ensures TakeEscaped(Escape(value) + rest) == (value, rest)
  {
    if value == "" {
      assert Escape(value) + rest == rest;
    } else {
      TakeEscapedOf(value[1..], rest);
      var tail := Escape(value[1..]) + rest;
      ConcatAssoc(EscapeChar(value[0]), Escape(value[1..]), rest);
      EscapedCharThen(value[0], tail);
      assert [value[0]] + value[1..] == value;
    }
  }

  lemma EscapedCharThen(c: char, tail: string)
    ensures TakeEscaped(EscapeChar(c) + tail) == ([c] + TakeEscaped(tail).0, TakeEscaped(tail).1)
  {
    var s := EscapeChar(c) + tail;
    if c in "\\\n\"" {
      assert s[2..] == tail;
    } else {
      assert s[1..] == tail;
    }
  }

  lemma {:induction false} TakeWhileOf(p: char -> bool, taken: string, rest: string)
    requires forall i :: 0 <= i < |taken| ==> p(taken[i])
    requires rest != "" ==> !p(rest[0])
    ensures TakeWhile(p, taken + rest) == (taken, rest)
  {
    if taken == "" {
      assert taken + rest == rest;
    } else {
      TakeWhileOf(p, taken[1..], rest);
      assert (taken + rest)[1..] == taken[1..] + rest;
      assert [taken[0]] + taken[1..] == taken;
    }
  }

  lemma ExpectOf(prefix: string, rest: string)
    ensures Expect(prefix, prefix + rest) == Some(rest)
  {
  }

  lemma QuotedOf(value: string, rest: string)
    ensures ParseQuoted(Quoted(value) + rest) == Some((value, rest))
  {
    var s := Quoted(value) + rest;
    assert s[1..] == Escape(value) + ("\"" + rest);
    TakeEscapedOf(value, "\"" + rest);
  }

  lemma MetricNameOf(name: string, rest: string)
    requires Starts(rest, ' ')
    ensures ParseMetricName(RenderMetricName(name) + rest) == Some((name, rest))
  {
    if IsLegacyMetricName(name) {
      assert (name + rest)[0] == name[0];
      TakeWhileOf(IsMetricNameChar, name, rest);
    } else {
      QuotedOf(name, rest);
      assert Starts(Quoted(name) + rest, '"');
    }
  }

  lemma LabelNameOf(name: string, rest: string)
    requires Starts(rest, '=')
    ensures ParseLabelName(RenderLabelName(name) + rest) == Some((name, rest))
  {
    if IsLegacyLabelName(name) {
      assert (name + rest)[0] == name[0];
      TakeWhileOf(IsLabelNameChar, name, rest);
    } else {
      QuotedOf(name, rest);
      assert Starts(Quoted(name) + rest, '"');
    }
  }

  lemma LabelOf(pair: Label, rest: string)
    ensures ParseLabel(RenderLabel(pair) + rest) == Some((pair, rest))
  {
    LabelParts(pair.0, pair.1, rest);
    var afterEquals := Quoted(pair.1) + rest;
    LabelNameOf(pair.0, "=" + afterEquals);
    ExpectOf("=", afterEquals);
    QuotedOf(pair.1, rest);
  }

  lemma {:induction false} LabelTailOf(labels: seq<Label>, rest: string)
    requires !Starts(rest, ',')
    ensures ParseLabelTail(RenderLabelTail(labels) + rest) == Some((labels, rest))
  {
    if labels == [] {
      assert RenderLabelTail(labels) + rest == rest;
    } else {
      var first, others := labels[0], labels[1..];
      assert [first] + others == labels;
      TailCons(first, others, rest);
      var afterFirst := RenderLabelTail(others) + rest;
      LabelOf(first, afterFirst);
      LabelTailOf(others, rest);
      var s := "," + (RenderLabel(first) + afterFirst);
      assert s[1..] == RenderLabel(first) + afterFirst;
    }
  }

  /** A label starts with a quote or a name character, never with a brace. */
  lemma LabelStart(pair: Label, rest: string)
    ensures !Starts(RenderLabel(pair) + rest, '}')
  {
    LabelParts(pair.0, pair.1, rest);
    var tail := "=" + (Quoted(pair.1) + rest);
    if IsLegacyLabelName(pair.0) {
      assert (pair.0 + tail)[0] == pair.0[0];
    } else {
      assert (Quoted(pair.0) + tail)[0] == '"';
    }
  }

  lemma BracedOf(labels: seq<Label>, rest: string)
    ensures ParseBraced(RenderBraced(labels) + rest) == Some((labels, rest))
  {
    var s := RenderBraced(labels) + rest;
    if labels == [] {
      assert s == "{}" + rest;
      assert s[2..] == rest;
    } else {
      var first, others := labels[0], labels[1..];
      assert [first] + others == labels;
      BracedCons(first, others, rest);
      var afterFirst := RenderLabelTail(others) + ("}" + rest);
      assert s[1..] == RenderLabel(first) + afterFirst;
      LabelStart(first, afterFirst);
      LabelOf(first, afterFirst);
      LabelTailOf(others, "}" + rest);
      assert ("}" + rest)[1..] == rest;
    }
  }

  lemma QuotedHeadOf(name: string, labels: seq<Label>, rest: string)
    requires !IsLegacyMetricName(name)
    ensures ParseHead(RenderHead(name, labels) + rest) == Some(((name, labels), rest))
  {
    QuotedHeadParts(name, labels, rest);
    var afterName := RenderLabelTail(labels) + ("}" + rest);
    ExpectOf("{", Quoted(name) + afterName);
    QuotedOf(name, afterName);
    LabelTailOf(labels, "}" + rest);
    ExpectOf("}", rest);
  }

  lemma PlainHeadOf(name: string, labels: seq<Label>, rest: string)
    requires IsLegacyMetricName(name) && Starts(rest, ' ')
    ensures ParseHead(RenderHead(name, labels) + rest) == Some(((name, labels), rest))
  {
    var tail := if labels == [] then rest else RenderBraced(labels) + rest;
    var s := RenderHead(name, labels) + rest;
    if labels != [] {
      PlainHeadParts(name, labels, rest);
      BracedOf(labels, rest);
    } else {
      assert RenderHead(name, labels) == name;
    }
    assert s == name + tail;
    assert s[0] == name[0];
    TakeWhileOf(IsMetricNameChar, name, tail);
  }

  lemma HeadOf(name: string, labels: seq<Label>, rest: string)
    requires Starts(rest, ' ')
    ensures ParseHead(RenderHead(name, labels) + rest) == Some(((name, labels), rest))
  {
    if IsLegacyMetricName(name) { PlainHeadOf(name, labels, rest); } else { QuotedHeadOf(name, labels, rest); }
  }

  lemma TokenOf(token: string, rest: string)
    requires IsToken(token) && (rest != "" ==> !IsTokenChar(rest[0]))
    ensures ParseToken(token + rest) == Some((token, rest))
  {
    TakeWhileOf(IsTokenChar, token, rest);
  }

  lemma TimestampOf(timestamp: Option<string>, rest: string)
    requires timestamp.Some? ==> IsToken(timestamp.value)
    requires Starts(rest, '\n') || Expect(" # ", rest).Some?
    ensures ParseTimestamp(RenderTimestamp(timestamp) + rest) == (timestamp, rest)
  {
    if timestamp.None? {
      assert RenderTimestamp(timestamp) + rest == rest;
      if Starts(rest, ' ') {
        assert rest[1..][0] == '#';
      }
    } else {
      TokenOf(timestamp.value, rest);
      assert (" " + timestamp.value + rest)[1..] == timestamp.value + rest;
    }
  }

  lemma ExemplarOf(exemplar: Option<ExemplarItem>, rest: string)
    requires Starts(rest, '\n')
    requires exemplar.Some? ==>
      IsToken(exemplar.value.value) && (exemplar.value.timestamp.Some? ==> IsToken(exemplar.value.timestamp.value))
    ensures ParseExemplar(RenderExemplar(exemplar) + rest) == Some((exemplar, rest))
  {
    if exemplar.None? {
      assert RenderExemplar(exemplar) + rest == rest;
    } else {
      var e := exemplar.value;
      ExemplarParts(e, rest);
      var afterValue := RenderTimestamp(e.timestamp) + rest;
      ExpectOf(" # ", RenderBraced(e.labels) + (" " + (e.value + afterValue)));
      BracedOf(e.labels, " " + (e.value + afterValue));
      ExpectOf(" ", e.value + afterValue);
      TimestampStart(e.timestamp, rest);
      TokenOf(e.value, afterValue);
      TimestampOf(e.timestamp, rest);
      ExemplarStart(e, rest);
    }
  }

  lemma TimestampStart(timestamp: Option<string>, rest: string)
    requires Starts(rest, '\n') || Starts(rest, ' ')
    ensures var s := RenderTimestamp(timestamp) + rest; Starts(s, '\n') || Starts(s, ' ')
  {
    if timestamp.None? {
      assert RenderTimestamp(timestamp) + rest == rest;
    }
  }

  lemma ExemplarStart(e: ExemplarItem, rest: string)
    ensures Starts(RenderExemplar(Some(e)) + rest, ' ')
    ensures Expect(" # ", RenderExemplar(Some(e)) + rest).Some?
  {
    ExemplarParts(e, rest);
    ExpectOf(" # ", RenderBraced(e.labels) + (" " + (e.value + (RenderTimestamp(e.timestamp) + rest))));
  }

  lemma SampleOf(item: Item, rest: string)
    requires item.Sample? && IsItem(item)
    ensures ParseSample(RenderItem(item) + rest) == Some((item, rest))
  {
    var Sample(name, labels, value, timestamp, exemplar) := item;
    SampleParts(name, labels, value, timestamp, exemplar, rest);
    var afterTimestamp := RenderExemplar(exemplar) + ("\n" + rest);
    var afterValue := RenderTimestamp(timestamp) + afterTimestamp;
    if exemplar.Some? {
      ExemplarStart(exemplar.value, "\n" + rest);
    } else {
      assert afterTimestamp == "\n" + rest;
    }
    TimestampStart(timestamp, afterTimestamp);
    HeadOf(name, labels, " " + (value + afterValue));
    ExpectOf(" ", value + afterValue);
    TokenOf(value, afterValue);
    TimestampOf(timestamp, afterTimestamp);
    ExemplarOf(exemplar, "\n" + rest);
    ExpectOf("\n", rest);
  }

  lemma NamedTextOf(name: string, text: string, rest: string)
    ensures ParseNamedText(RenderMetricName(name) + (" " + (Escape(text) + ("\n" + rest))))
         == Some(((name, text), rest))
  {
    var afterSpace := Escape(text) + ("\n" + rest);
    MetricNameOf(name, " " + afterSpace);
    ExpectOf(" ", afterSpace);
    TakeEscapedOf(text, "\n" + rest);
    ExpectOf("\n", rest);
  }

  lemma TypeOf(mtype: MetricType, rest: string)
    ensures ParseType(TypeName(mtype) + ("\n" + rest)) == Some((mtype, rest))
  {
    TakeWhileOf(IsAlpha, TypeName(mtype), "\n" + rest);
    ExpectOf("\n", rest);
  }

  lemma HeadStart(name: string, labels: seq<Label>, rest: string)
    ensures !Starts(RenderHead(name, labels) + rest, '#')
  {
    if IsLegacyMetricName(name) {
      assert (RenderHead(name, labels) + rest)[0] == name[0];
    } else {
      assert (RenderHead(name, labels) + rest)[0] == '{';
    }
  }

  lemma HelpOf(name: string, text: string, rest: string)
    ensures ParseItem(RenderItem(Help(name, text)) + rest) == Some((Help(name, text), rest))
  {
    hide RenderMetricName, Escape, ParseNamedText;
    MetadataParts("# HELP ", RenderMetricName(name), Escape(text), rest);
    NamedTextOf(name, text, rest);
    ExpectOf("# HELP ", RenderMetricName(name) + (" " + (Escape(text) + ("\n" + rest))));
  }

  lemma UnitOf(name: string, text: string, rest: string)
    ensures ParseItem(RenderItem(Unit(name, text)) + rest) == Some((Unit(name, text), rest))
  {
    hide RenderMetricName, Escape, ParseNamedText;
    MetadataParts("# UNIT ", RenderMetricName(name), Escape(text), rest);
    NamedTextOf(name, text, rest);
    ExpectOf("# UNIT ", RenderMetricName(name) + (" " + (Escape(text) + ("\n" + rest))));
    assert (RenderItem(Unit(name, text)) + rest)[2] == 'U';
  }

  lemma TypeLineOf(name: string, mtype: MetricType, rest: string)
    ensures ParseItem(RenderItem(Type(name, mtype)) + rest) == Some((Type(name, mtype), rest))
  {
    hide RenderMetricName, TypeName, ParseMetricName, ParseType;
    MetadataParts("# TYPE ", RenderMetricName(name), TypeName(mtype), rest);
    var afterSpace := TypeName(mtype) + ("\n" + rest);
    ExpectOf("# TYPE ", RenderMetricName(name) + (" " + afterSpace));
    assert (RenderItem(Type(name, mtype)) + rest)[2] == 'T';
    MetricNameOf(name, " " + afterSpace);
    ExpectOf(" ", afterSpace);
    TypeOf(mtype, rest);
  }

  lemma SampleLineOf(item: Item, rest: string)
    requires item.Sample? && IsItem(item)
    ensures ParseItem(RenderItem(item) + rest) == Some((item, rest))
  {
    hide RenderHead, RenderTimestamp, RenderExemplar, ParseSample, IsItem;
    var Sample(name, labels, value, timestamp, exemplar) := item;
    SampleParts(name, labels, value, timestamp, exemplar, rest);
    HeadStart(name, labels,
              " " + (value + (RenderTimestamp(timestamp) + (RenderExemplar(exemplar) + ("\n" + rest)))));
    SampleOf(item, rest);
  }

  lemma ItemOf(item: Item, rest: string)
    requires IsItem(item)
    ensures ParseItem(RenderItem(item) + rest) == Some((item, rest))
  {
    hide RenderBody, ParseItem, IsItem;
    match item
    case Help(name, text) => HelpOf(name, text, rest);
    case Unit(name, text) => UnitOf(name, text, rest);
    case Type(name, mtype) => TypeLineOf(name, mtype, rest);
    case Sample(_, _, _, _, _) => SampleLineOf(item, rest);
  }

  /** No item's line reads as the end marker. */
  lemma ItemIsNotEof(item: Item, rest: string)
    requires IsItem(item)
    ensures RenderItem(item) + rest != EOF_LINE
  {
    ItemOf(item, rest);
    assert ParseItem(EOF_LINE).None?;
  }

  /** The whole-document round trip. */
  lemma {:induction false} DocRoundTrip(items: seq<Item>)
    requires forall i :: 0 <= i < |items| ==> IsItem(items[i])
    ensures ParseDoc(RenderDoc(items)) == Some(items)
  {
    if items == [] {
      assert RenderDoc(items) == EOF_LINE;
    } else {
      hide ParseItem, RenderItem, IsItem, RenderItems;
      DocRoundTrip(items[1..]);
      assert [items[0]] + items[1..] == items;
      DocCons(items[0], items[1..]);
      ItemOf(items[0], RenderDoc(items[1..]));
      ItemIsNotEof(items[0], RenderDoc(items[1..]));
    }
  }

  /** Equal documents say the same thing. */
  lemma DocInjective(a: seq<Item>, b: seq<Item>)
    requires forall i :: 0 <= i < |a| ==> IsItem(a[i])
    requires forall i :: 0 <= i < |b| ==> IsItem(b[i])
    ensures RenderDoc(a) == RenderDoc(b) <==> a == b
  {
    DocRoundTrip(a);
    DocRoundTrip(b);
  }

  // ---- lines ------------------------------------------------------------------------

  /** Splits text after every newline; the last piece has none. */
  function LinesOf(s: string): seq<string> {
    if s == "" then []
    else if s[0] == '\n' then ["\n"] + LinesOf(s[1..])
    else
      var lines := LinesOf(s[1..]);
      if lines == [] then [[s[0]]] else [[s[0]] + lines[0]] + lines[1..]
  }

  lemma {:induction false} LineOf(body: string, rest: string)
    requires '\n' !in body
    ensures LinesOf(body + "\n" + rest) == [body + "\n"] + LinesOf(rest)
  {
    var s := body + "\n" + rest;
    if body == "" {
      assert s[1..] == rest;
      assert body + "\n" == "\n";
    } else {
      LineOf(body[1..], rest);
      assert s[1..] == body[1..] + "\n" + rest;
      assert [body[0]] + (body[1..] + "\n") == body + "\n";
    }
  }

  /** One line per item, and the end marker is a line only at the very end. */
  lemma {:induction false} DocLines(items: seq<Item>)
    requires forall i :: 0 <= i < |items| ==> IsItem(items[i])
    ensures LinesOf(RenderDoc(items)) == seq(|items|, i requires 0 <= i < |items| => RenderItem(items[i])) + [EOF_LINE]
    ensures forall i :: 0 <= i < |items| ==> RenderItem(items[i]) != EOF_LINE
  {
    hide RenderBody;
    if items == [] {
      assert RenderDoc(items) == "# EOF" + "\n" + "";
      LineOf("# EOF", "");
      assert "# EOF" + "\n" == EOF_LINE;
      assert RenderDoc(items) == EOF_LINE;
    } else {
      var first, others := items[0], items[1..];
      DocLines(others);
      assert [first] + others == items;
      DocCons(first, others);
      BodyIsOneLine(first);
      LineOf(RenderBody(first), RenderDoc(others));
      forall i | 0 <= i < |items| ensures RenderItem(items[i]) != EOF_LINE {
        ItemIsNotEof(items[i], "");
        assert RenderItem(items[i]) + "" == RenderItem(items[i]);
      }
    }
  }
}
