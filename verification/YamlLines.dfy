/** Text as lines, and how the documented YAML printer reads one: indentation, field name, list marker. */
module YamlLines {
  import opened Base

  /** Unicode white space, as `char::is_whitespace` has it. */
  predicate White(c: char) {
    || '\t' <= c <= '\r' || c == ' ' || c == '\U{85}' || c == '\U{a0}' || c == '\U{1680}'
    || '\U{2000}' <= c <= '\U{200a}' || c == '\U{2028}' || c == '\U{2029}' || c == '\U{202f}' || c == '\U{205f}'
    || c == '\U{3000}'
  }

  function Spaces(n: nat): (s: string)
    ensures |s| == n && forall i :: 0 <= i < n ==> s[i] == ' '
  {
    seq(n, _ => ' ')
  }

  /** The number of leading white characters. */
  function Leading(line: string): (n: nat)
    ensures n <= |line|
    ensures forall i :: 0 <= i < n ==> White(line[i])
    ensures n < |line| ==> !White(line[n])
  {
    if line == "" || !White(line[0]) then 0 else 1 + Leading(line[1..])
  }

  /** Where the first non-white character is; zero if there is none. */
  function Indent(line: string): nat {
    if Leading(line) < |line| then Leading(line) else 0
  }

  function TrimEnd(s: string): (t: string)
    ensures t <= s
    ensures t != "" ==> !White(t[|t| - 1])
    ensures forall i :: |t| <= i < |s| ==> White(s[i])
  {
    if s != "" && White(s[|s| - 1]) then TrimEnd(s[..|s| - 1]) else s
  }

  function Trim(s: string): string {
    TrimEnd(s[Leading(s)..])
  }

  function FirstColon(line: string): (i: nat)
    requires ':' in line
    ensures i < |line| && line[i] == ':'
    ensures forall k :: 0 <= k < i ==> line[k] != ':'
  {
    if line[0] == ':' then 0 else 1 + FirstColon(line[1..])
  }

  const ITEM_PREFIX: string := "- "

  /** What a line names: nothing, a field, or the first field of a list item. */
  datatype Kind = NoKey | Field(name: string) | ItemField(name: string)

  function KindOf(line: string): Kind {
    if ':' !in line then NoKey
    else
      var colon := FirstColon(line);
      var name := if Indent(line) <= colon then Trim(line[Indent(line)..colon]) else "";
      if ITEM_PREFIX <= name then ItemField(Trim(name[|ITEM_PREFIX|..])) else Field(name)
  }

  /** The column of the field's name, where its comments go. */
  function NameColumn(line: string): nat {
    Indent(line) + if KindOf(line).ItemField? then |ITEM_PREFIX| else 0
  }

  predicate IsComment(line: string) {
    Leading(line) < |line| && line[Leading(line)] == '#'
  }

  // ---- the lines the serializer prints -----------------------------------------------------

  /** A key printed without quotes. */
  predicate IsPlainKey(name: string) {
    && name != "" && !White(name[0]) && !White(name[|name| - 1]) && name[0] != '#'
    && ':' !in name && '\n' !in name
    && !(ITEM_PREFIX <= name)
  }

  /** The text of an item printed inline after its marker. */
  predicate IsItemText(text: string) {
    text != "" && !White(text[0]) && text[0] != ':'
  }

  lemma LeadingIs(line: string, n: nat)
    requires n < |line| && !White(line[n])
    requires forall i :: 0 <= i < n ==> White(line[i])
    ensures Leading(line) == n && Indent(line) == n
  {
    var found := Leading(line);
    assert !(found < n) && !(n < found);
  }

  lemma FirstColonIs(line: string, i: nat)
    requires i < |line| && line[i] == ':'
    requires forall k :: 0 <= k < i ==> line[k] != ':'
    ensures FirstColon(line) == i
  {
    var found := FirstColon(line);
    assert !(found < i) && !(i < found);
  }

  lemma TrimIsWhole(s: string)
    requires s != "" && !White(s[0]) && !White(s[|s| - 1])
    ensures Trim(s) == s
  {
    LeadingIs(s, 0);
  }

  lemma NamedLine(n: nat, shown: string, rest: string)
    requires shown != "" && !White(shown[0]) && !White(shown[|shown| - 1]) && ':' !in shown
    ensures var line := Spaces(n) + shown + ":" + rest;
            && Leading(line) == n && Indent(line) == n && line[n] == shown[0]
            && ':' in line && FirstColon(line) == n + |shown|
            && Trim(line[n..n + |shown|]) == shown
  {
    hide Trim;
    var line := Spaces(n) + shown + ":" + rest;
    assert line[n] == shown[0];
    LeadingIs(line, n);
    assert line[n..n + |shown|] == shown;
    assert line[n + |shown|] == ':';
    forall i | 0 <= i < n + |shown| ensures line[i] != ':' {
      assert line[i] == if i < n then ' ' else shown[i - n];
    }
    FirstColonIs(line, n + |shown|);
    TrimIsWhole(shown);
  }

  lemma NamedLineKind(n: nat, shown: string, rest: string)
    requires shown != "" && !White(shown[0]) && !White(shown[|shown| - 1]) && ':' !in shown && shown[0] != '#'
    ensures var line := Spaces(n) + shown + ":" + rest;
            && Indent(line) == n && !IsComment(line)
            && KindOf(line) == if ITEM_PREFIX <= shown then ItemField(Trim(shown[2..])) else Field(shown)
  {
    hide Trim, White, Indent, Leading, FirstColon, Spaces;
    NamedLine(n, shown, rest);
  }

  lemma FieldLine(n: nat, name: string, rest: string)
    requires IsPlainKey(name)
    ensures var line := Spaces(n) + name + ":" + rest;
            KindOf(line) == Field(name) && Indent(line) == n && NameColumn(line) == n && !IsComment(line)
  {
    hide Trim, Indent, KindOf, Spaces, IsComment;
    NamedLineKind(n, name, rest);
  }

  lemma ItemFieldLine(n: nat, name: string, rest: string)
    requires IsPlainKey(name)
    ensures var line := Spaces(n) + ITEM_PREFIX + name + ":" + rest;
            KindOf(line) == ItemField(name) && Indent(line) == n && NameColumn(line) == n + 2 && !IsComment(line)
  {
    hide Trim, Indent, KindOf, Spaces, IsComment;
    var shown := ITEM_PREFIX + name;
    assert !White(shown[0]) && shown[2..] == name;
    NamedLineKind(n, shown, rest);
    TrimIsWhole(name);
    assert Spaces(n) + ITEM_PREFIX + name == Spaces(n) + shown;
  }

  /** Trimming keeps everything up to a character that is not white. */
  lemma TrimEndKeeps(s: string, i: nat)
    requires i < |s| && !White(s[i])
    ensures i < |TrimEnd(s)|
  {
  }

  lemma IndentMovesColon(n: nat, x: string)
    requires x != "" && !White(x[0])
    ensures ':' in Spaces(n) + x <==> ':' in x
    ensures ':' in x ==> FirstColon(Spaces(n) + x) == n + FirstColon(x)
  {
    var line := Spaces(n) + x;
    assert line[..n] == Spaces(n) && line[n..] == x;
    if ':' in x {
      var i := FirstColon(x);
      assert line[n + i] == ':';
      FirstColonIs(line, n + i);
    }
  }

  lemma IndentIs(n: nat, x: string)
    requires x != "" && !White(x[0])
    ensures Indent(Spaces(n) + x) == n && Indent(x) == 0
  {
    LeadingIs(Spaces(n) + x, n);
    LeadingIs(x, 0);
  }

  /** What a line names does not depend on its indentation. */
  lemma IndentKeepsKind(n: nat, x: string)
    requires x != "" && !White(x[0])
    ensures KindOf(Spaces(n) + x) == KindOf(x)
  {
    hide Leading, White, Trim, Indent, FirstColon, Spaces;
    var line := Spaces(n) + x;
    IndentMovesColon(n, x);
    IndentIs(n, x);
    if ':' in x {
      var beforeColon := x[Indent(x)..FirstColon(x)];
      assert line[Indent(line)..FirstColon(line)] == beforeColon;
    }
  }

  lemma KeepsPrefix(shown: string)
    requires |shown| > 2 && shown[0] == '-' && shown[1] == ' ' && !White(shown[2])
    ensures ITEM_PREFIX <= Trim(shown)
  {
    LeadingIs(shown, 0);
    assert shown[0..] == shown;
    TrimEndKeeps(shown, 2);
    hide White, TrimEnd;
    assert TrimEnd(shown)[..2] == shown[..2] == ITEM_PREFIX;
  }

  lemma ItemTextLine(n: nat, text: string)
    requires IsItemText(text)
    ensures var line := Spaces(n) + ITEM_PREFIX + text;
            && Indent(line) == n && !IsComment(line) && !KindOf(line).Field?
            && (KindOf(line).ItemField? ==> NameColumn(line) == n + 2)
  {
    var line := Spaces(n) + ITEM_PREFIX + text;
    assert line[n] == '-' && line[n + 1] == ' ' && line[n + 2] == text[0];
    LeadingIs(line, n);
    if ':' in line {
      var colon := FirstColon(line);
      assert forall i :: 0 <= i < n ==> line[i] == ' ';
      assert colon > n + 2;
      var shown := line[n..colon];
      assert shown[0] == '-' && shown[1] == ' ' && shown[2] == text[0];
      hide Leading, White, TrimEnd, Spaces, FirstColon;
      KeepsPrefix(shown);
    }
  }

  // ---- text as lines ----------------------------------------------------------------------------

  function FirstNewline(text: string): (i: nat)
    requires '\n' in text
    ensures i < |text| && text[i] == '\n'
    ensures forall k :: 0 <= k < i ==> text[k] != '\n'
  {
    if text[0] == '\n' then 0 else 1 + FirstNewline(text[1..])
  }

  function WithoutCr(line: string): string {
    if line != "" && line[|line| - 1] == '\r' then line[..|line| - 1] else line
  }

  /** `str::lines`: pieces ended by a newline, each without a final carriage return, and an unended rest if any. */
  function Lines(text: string): seq<string> {
    if text == "" then []
    else if '\n' !in text then [text]
    else
      var i := FirstNewline(text);
      [WithoutCr(text[..i])] + Lines(text[i + 1..])
  }

  /** What splitting a written line gives back unchanged. */
  predicate IsOneLine(line: string) {
    '\n' !in line && WithoutCr(line) == line
  }

  function Join(lines: seq<string>): string {
    if lines == [] then "" else lines[0] + "\n" + Join(lines[1..])
  }

  lemma {:induction false} JoinAppend(a: seq<string>, b: seq<string>)
    ensures Join(a + b) == Join(a) + Join(b)
  {
    if a == [] {
      assert a + b == b;
    } else {
      JoinAppend(a[1..], b);
      assert (a + b)[1..] == a[1..] + b;
      ConcatAssoc(a[0] + "\n", Join(a[1..]), Join(b));
    }
  }

  lemma NewlineAfter(line: string, rest: string)
    requires '\n' !in line
    ensures '\n' in line + "\n" + rest
    ensures FirstNewline(line + "\n" + rest) == |line|
    ensures (line + "\n" + rest)[..|line|] == line && (line + "\n" + rest)[|line| + 1..] == rest
  {
    var text := line + "\n" + rest;
    assert text[|line|] == '\n';
    var i := FirstNewline(text);
    assert forall k :: 0 <= k < |line| ==> text[k] == line[k];
    assert !(i < |line|) && !(i > |line|);
  }

  lemma LinesCons(line: string, rest: string)
    requires '\n' !in line
    ensures Lines(line + "\n" + rest) == [WithoutCr(line)] + Lines(rest)
  {
    NewlineAfter(line, rest);
  }

  lemma DropsOneCr(line: string)
    ensures WithoutCr(line + "\r") == line
  {
  }

  lemma UnendedLine(line: string)
    requires '\n' !in line
    ensures line != "" ==> Lines(line) == [line]
  {
  }

  lemma JoinOne(line: string)
    ensures Join([line]) == line + "\n"
  {
    assert [line][1..] == [];
    assert Join([]) == "";
  }

  /** A newline ends a line and takes one carriage return before it along; the rest at the end stays as it is. */
  lemma SplitsAsLines(line: string, rest: string)
    requires '\n' !in line
    ensures Lines(line + "\r\n" + rest) == [line] + Lines(rest)
    ensures line != "" ==> Lines(line) == [line]
    ensures Join([line]) == line + "\n"
  {
    JoinOne(line);
    DropsOneCr(line);
    UnendedLine(line);
    hide Lines, WithoutCr, Join;
    LinesCons(line + "\r", rest);
    ConcatAssoc(line, "\r", "\n");
    assert "\r" + "\n" == "\r\n";
  }

  lemma {:induction false} LinesOfJoin(lines: seq<string>)
    requires forall i :: 0 <= i < |lines| ==> IsOneLine(lines[i])
    ensures Lines(Join(lines)) == lines
  {
    if lines != [] {
      LinesOfJoin(lines[1..]);
      assert IsOneLine(lines[0]);
      LinesCons(lines[0], Join(lines[1..]));
    }
  }

  /** Text that is empty or ends a line. */
  predicate EndsLine(text: string) {
    text == "" || text[|text| - 1] == '\n'
  }

  lemma Divide(text: string) returns (line: string, others: string)
    requires text != "" && EndsLine(text)
    ensures text == line + "\n" + others && '\n' !in line && EndsLine(others) && |others| < |text|
  {
    var i := FirstNewline(text);
    line, others := text[..i], text[i + 1..];
    assert others != "" ==> others[|others| - 1] == text[|text| - 1];
  }

  lemma {:induction false} LinesAppend(text: string, rest: string)
    requires EndsLine(text)
    ensures Lines(text + rest) == Lines(text) + Lines(rest)
    decreases |text|
  {
    if text == "" {
      assert text + rest == rest;
    } else {
      var line, others := Divide(text);
      hide Lines, WithoutCr;
      LinesAppend(others, rest);
      assert text + rest == line + "\n" + (others + rest);
      LinesCons(line, others);
      LinesCons(line, others + rest);
      ConcatAssoc([WithoutCr(line)], Lines(others), Lines(rest));
    }
  }

  lemma JoinEndsLine(lines: seq<string>)
    ensures EndsLine(Join(lines))
  {
  }

  /** Two line-ending beginnings of one text with equally many lines are the same. */
  lemma SameBeginning(a: string, b: string, x: string, y: string)
    requires a + x == b + y && EndsLine(a) && EndsLine(b) && |Lines(a)| == |Lines(b)|
    ensures a == b && x == y
  {
    if |a| <= |b| {
      ShorterBeginning(a, b, x, y);
    } else {
      ShorterBeginning(b, a, y, x);
    }
  }

  lemma NoLines(text: string)
    ensures Lines(text) == [] <==> text == ""
  {
  }

  lemma ShorterBeginning(a: string, b: string, x: string, y: string)
    requires a + x == b + y && EndsLine(a) && EndsLine(b) && |Lines(a)| == |Lines(b)| && |a| <= |b|
    ensures a == b && x == y
  {
    hide Lines, EndsLine;
    var between := b[|a|..];
    NoLines(between);
    Continues(a, b, x, y);
    LinesAppend(a, between);
    assert between == "";
  }

  lemma Continues(a: string, b: string, x: string, y: string)
    requires a + x == b + y && |a| <= |b|
    ensures b == a + b[|a|..] && x == b[|a|..] + y
  {
    var both := a + x;
    assert both[..|a|] == a && both[|a|..] == x;
    assert both == b + y && both[..|b|] == b;
    assert b[..|a|] == a;
    assert both[|a|..] == b[|a|..] + y;
  }

  lemma {:induction false} JoinInjective(a: seq<string>, b: seq<string>)
    requires forall i :: 0 <= i < |a| ==> '\n' !in a[i]
    requires forall i :: 0 <= i < |b| ==> '\n' !in b[i]
    requires Join(a) == Join(b)
    ensures a == b
  {
    if a != [] && b != [] {
      NewlineAfter(a[0], Join(a[1..]));
      NewlineAfter(b[0], Join(b[1..]));
      JoinInjective(a[1..], b[1..]);
      assert a == [a[0]] + a[1..] && b == [b[0]] + b[1..];
    }
  }
}
