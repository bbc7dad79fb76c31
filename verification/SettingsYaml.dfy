/** The documented YAML printer: a key stack recovered from indentation, against the tree it came from. */
module SettingsYaml {
  import opened Base
  import opened YamlLines
  import opened SettingsDocs
  import TextItems

  // ---- the layout the serializer prints: two spaces a level, lists indented under their key ----

  /** One printed line; for a line that shows a field, the field's docs and the column of its name. */
  datatype Line = Line(text: string, column: nat, docs: seq<string>)

  /** What follows the colon on the field's own line. */
  function Inline(t: Tree): string {
    match t
    case Leaf(text) => " " + text
    case Node(entries) => if entries == [] then " {}" else ""
    case Items(items) => if items == [] then " []" else ""
  }

  predicate IsInline(t: Tree) {
    t.Leaf? || (t.Node? && t.entries == []) || (t.Items? && t.items == [])
  }

  function EntryLines(entries: seq<Entry>, depth: nat, item: bool): seq<Line>
    decreases entries
  {
    if entries == [] then []
    else
      [FieldHead(entries[0], depth, item)] + Below(entries[0].tree, depth + 1) + EntryLines(entries[1..], depth, false)
  }

  /** The first field of a list item stands after the item's marker. */
  function FieldHead(e: Entry, depth: nat, item: bool): Line {
    var margin := if item && depth > 0 then Spaces(2 * (depth - 1)) + ITEM_PREFIX else Spaces(2 * depth);
    Line(margin + e.name + ":" + Inline(e.tree), 2 * depth, e.docs)
  }

  function Below(t: Tree, depth: nat): seq<Line>
    decreases t
  {
    match t
    case Leaf(_) => []
    case Node(entries) => EntryLines(entries, depth, false)
    case Items(items) => ItemLines(items, depth)
  }

  function ItemLines(items: seq<Tree>, depth: nat): seq<Line>
    decreases items
  {
    if items == [] then []
    else
      (if items[0].Node? && items[0].entries != [] then EntryLines(items[0].entries, depth + 1, true)
       else [InlineItem(items[0], depth)])
      + ItemLines(items[1..], depth)
  }

  function InlineText(t: Tree): string { if IsInline(t) then Inline(t)[1..] else "" }

  function InlineItem(t: Tree, depth: nat): Line {
    Line(Spaces(2 * depth) + ITEM_PREFIX + InlineText(t), 2 * depth + 2, [])
  }

  /** The documents within scope: plain keys, one-line scalars, no list directly inside a list. */
  predicate Printable(t: Tree)
    decreases t
  {
    match t
    case Leaf(text) => IsOneLine(text)
    case Node(entries) => PrintableEntries(entries)
    case Items(items) => PrintableItems(items)
  }

  predicate PrintableEntries(entries: seq<Entry>)
    decreases entries
  {
    forall i :: 0 <= i < |entries| ==> IsPlainKey(entries[i].name) && Printable(entries[i].tree)
  }

  predicate PrintableItems(items: seq<Tree>)
    decreases items
  {
    forall i :: 0 <= i < |items| ==>
      && Printable(items[i])
      && (items[i].Leaf? ==> IsItemText(items[i].text))
      && (items[i].Items? ==> items[i].items == [])
  }

  // ---- the printed settings, with docs taken from the tree -------------------------------------

  function Comments(docs: seq<string>, column: nat): seq<string> {
    if docs == [] then [] else [Spaces(column) + "#" + docs[0]] + Comments(docs[1..], column)
  }

  function Texts(lines: seq<Line>): (texts: seq<string>)
    ensures |texts| == |lines|
  {
    if lines == [] then [] else [lines[0].text] + Texts(lines[1..])
  }

  /** The document as it should be: each field's docs above its line, at its column. */
  function Documented(lines: seq<Line>): seq<string> {
    if lines == [] then []
    else Comments(lines[0].docs, lines[0].column) + [lines[0].text] + Documented(lines[1..])
  }

  // ---- the annotator ---------------------------------------------------------------------------

  datatype Cursor = Cursor(keyStack: Path, listIndex: nat)

  const START: Cursor := Cursor([], 0)

  function Truncated(keys: Path, n: nat): Path { if n < |keys| then keys[..n] else keys }

  function Moved(c: Cursor, line: string): Cursor {
    var keys := Truncated(c.keyStack, Indent(line) / 2);
    match KindOf(line)
    case NoKey => Cursor(keys, c.listIndex)
    case Field(name) => Cursor(keys + [name], 0)
    case ItemField(name) => Cursor(keys + [TextItems.Decimal(c.listIndex), name], c.listIndex + 1)
  }

  function CommentsFor(docs: Docs, c: Cursor, line: string): seq<string> {
    if KindOf(line).NoKey? then [] else Comments(Lookup(docs, c.keyStack), NameColumn(line))
  }

  function Annotated(docs: Docs, lines: seq<string>, c: Cursor): seq<string> {
    if lines == [] then []
    else
      var next := Moved(c, lines[0]);
      CommentsFor(docs, next, lines[0]) + [lines[0]] + Annotated(docs, lines[1..], next)
  }

  method WriteComments(docs: seq<string>, column: nat, output: string) returns (longer: string)
    ensures longer == output + Join(Comments(docs, column))
  {
    longer := output;
    for i := 0 to |docs|
      invariant longer + Join(Comments(docs[i..], column)) == output + Join(Comments(docs, column))
    {
      var comment := Spaces(column) + "#" + docs[i];
      assert docs[i..][1..] == docs[i + 1..];
      assert ([comment] + Comments(docs[i + 1..], column))[1..] == Comments(docs[i + 1..], column);
      assert longer + (comment + "\n" + Join(Comments(docs[i + 1..], column)))
          == (longer + comment + "\n") + Join(Comments(docs[i + 1..], column));
      longer := longer + comment + "\n";
    }
    assert docs[|docs|..] == [];
  }

  lemma JoinAround(comments: seq<string>, line: string, rest: seq<string>)
    ensures Join(comments + [line] + rest) == Join(comments) + line + "\n" + Join(rest)
  {
    JoinAppend(comments, [line] + rest);
    assert ([line] + rest)[1..] == rest;
    assert comments + [line] + rest == comments + ([line] + rest);
  }

  lemma StepOutput(docs: Docs, lines: seq<string>, c: Cursor, output: string)
    requires lines != []
    ensures var next := Moved(c, lines[0]);
            output + Join(Annotated(docs, lines, c))
            == output + Join(CommentsFor(docs, next, lines[0])) + lines[0] + "\n"
               + Join(Annotated(docs, lines[1..], next))
  {
    hide Moved, CommentsFor, Join;
    var next := Moved(c, lines[0]);
    JoinAround(CommentsFor(docs, next, lines[0]), lines[0], Annotated(docs, lines[1..], next));
  }

  /** The part of the loop that reads a line: the new key stack and index, and where comments go. */
  method ReadLine(line: string, keys: Path, index: nat) returns (keyStack: Path, listIndex: nat, column: Option<nat>)
    ensures Cursor(keyStack, listIndex) == Moved(Cursor(keys, index), line)
    ensures column == if KindOf(line).NoKey? then None else Some(NameColumn(line))
  {
    hide TextItems.Decimal, Indent, Trim, FirstColon;
    keyStack, listIndex, column := keys, index, None;
    var spaces := Indent(line);
    if spaces / 2 < |keyStack| {
      keyStack := keyStack[..spaces / 2];
    }
    if ':' in line {
      var colon := FirstColon(line);
      var fieldName := if spaces <= colon then Trim(line[spaces..colon]) else "";
      if ITEM_PREFIX <= fieldName {
        var name := Trim(fieldName[|ITEM_PREFIX|..]);
        assert keyStack + [TextItems.Decimal(listIndex), name] == keyStack + [TextItems.Decimal(listIndex)] + [name];
        keyStack := keyStack + [TextItems.Decimal(listIndex)];
        fieldName := name;
        spaces := spaces + |ITEM_PREFIX|;
        listIndex := listIndex + 1;
      } else {
        listIndex := 0;
      }
      keyStack := keyStack + [fieldName];
      column := Some(spaces);
    }
  }

  /** `to_yaml_string`, from the text the serializer printed. */
  method ToYamlString(s: Settings, yaml: string) returns (yamlWithDocs: string)
    ensures yamlWithDocs == Join(Annotated(AddedDocs(s, [], map[]), Lines(yaml), START))
  {
    hide Moved, Annotated, Join, Lines, AddedDocs, NameColumn, KindOf;
    var table := new DocTable();
    table.AddDocs(s, []);
    var docs := table.docs;
    var lines := Lines(yaml);
    yamlWithDocs := "";
    var keyStack: Path, listIndex := [], 0;
    assert lines[0..] == lines;
    assert "" + Join(Annotated(docs, lines, START)) == Join(Annotated(docs, lines, START));
    for i := 0 to |lines|
      invariant yamlWithDocs + Join(Annotated(docs, lines[i..], Cursor(keyStack, listIndex)))
             == Join(Annotated(docs, lines, START))
    {
      ghost var before, soFar := Cursor(keyStack, listIndex), yamlWithDocs;
      var column: Option<nat>;
      keyStack, listIndex, column := ReadLine(lines[i], keyStack, listIndex);
      StepOutput(docs, lines[i..], before, soFar);
      assert lines[i..][1..] == lines[i + 1..];
      if column.Some? && keyStack in docs {
        yamlWithDocs := WriteComments(docs[keyStack], column.value, yamlWithDocs);
      } else {
        NoComments();
      }
      yamlWithDocs := yamlWithDocs + lines[i] + "\n";
    }
    NothingLeft(docs, Cursor(keyStack, listIndex));
    assert lines[|lines|..] == [];
  }

  lemma NoComments()
    ensures Join([]) == "" && forall column :: Comments([], column) == []
  {
  }

  lemma NothingLeft(docs: Docs, c: Cursor)
    ensures Join(Annotated(docs, [], c)) == ""
  {
  }

  // ---- where the annotator looks ------------------------------------------------------------

  /** The keys looked up line by line, and the running list index afterwards. */
  datatype Shown = Shown(paths: seq<Option<Path>>, index: nat)

  /**
   Along the tree, the key each line is looked up under. Names are the true
   ones; list indices are the running index, which every line of a field that is
   not the first of an item sets back to zero.
   */
  function EntriesShown(entries: seq<Entry>, path: Path, index: nat, item: bool): Shown
    decreases entries
  {
    if entries == [] then Shown([], index)
    else
      var here := path + [entries[0].name];
      var below := BelowShown(entries[0].tree, here, if item then index + 1 else 0);
      var rest := EntriesShown(entries[1..], path, below.index, false);
      Shown([Some(here)] + below.paths + rest.paths, rest.index)
  }

  function BelowShown(t: Tree, path: Path, index: nat): Shown
    decreases t
  {
    match t
    case Leaf(_) => Shown([], index)
    case Node(entries) => EntriesShown(entries, path, index, false)
    case Items(items) => ItemsShown(items, path, index)
  }

  function ItemsShown(items: seq<Tree>, path: Path, index: nat): Shown
    decreases items
  {
    if items == [] then Shown([], index)
    else
      var first :=
        if items[0].Node? && items[0].entries != []
        then EntriesShown(items[0].entries, path + [TextItems.Decimal(index)], index, true)
        else InlineShown(items[0], path, index);
      var rest := ItemsShown(items[1..], path, first.index);
      Shown(first.paths + rest.paths, rest.index)
  }

  /** What an inline item's line is taken for. */
  function InlineKind(t: Tree): Kind {
    KindOf(ITEM_PREFIX + InlineText(t))
  }

  /** An inline item with a colon in its text is taken for a field. */
  function InlineShown(t: Tree, path: Path, index: nat): Shown {
    match InlineKind(t)
    case ItemField(name) => Shown([Some(path + [TextItems.Decimal(index), name])], index + 1)
    case _ => Shown([None], index)
  }

  // ---- the annotator looks there ---------------------------------------------------------------

  function Looked(lines: seq<string>, c: Cursor): (paths: seq<Option<Path>>)
    ensures |paths| == |lines|
  {
    if lines == [] then []
    else
      var next := Moved(c, lines[0]);
      [if KindOf(lines[0]).NoKey? then None else Some(next.keyStack)] + Looked(lines[1..], next)
  }

  function CursorAfter(lines: seq<string>, c: Cursor): Cursor {
    if lines == [] then c else CursorAfter(lines[1..], Moved(c, lines[0]))
  }

  lemma {:induction false} LookedAppend(a: seq<string>, b: seq<string>, c: Cursor)
    ensures Looked(a + b, c) == Looked(a, c) + Looked(b, CursorAfter(a, c))
    ensures CursorAfter(a + b, c) == CursorAfter(b, CursorAfter(a, c))
  {
    hide Moved, KindOf;
    if a == [] {
      assert a + b == b;
    } else {
      LookedAppend(a[1..], b, Moved(c, a[0]));
      assert (a + b)[1..] == a[1..] + b;
    }
  }

  lemma {:induction false} TextsAppend(a: seq<Line>, b: seq<Line>)
    ensures Texts(a + b) == Texts(a) + Texts(b)
  {
    if a == [] {
      assert a + b == b;
    } else {
      TextsAppend(a[1..], b);
      assert (a + b)[1..] == a[1..] + b;
      ConcatAssoc([a[0].text], Texts(a[1..]), Texts(b));
    }
  }

  /** Reading `lines` from `c` looks where `shown` says and leaves `path` on the stack. */
  ghost predicate Follows(lines: seq<Line>, c: Cursor, path: Path, shown: Shown) {
    var after := CursorAfter(Texts(lines), c);
    && Looked(Texts(lines), c) == shown.paths
    && after.listIndex == shown.index
    && Truncated(after.keyStack, |path|) == path
  }

  lemma FollowsAppend(a: seq<Line>, b: seq<Line>, c: Cursor, path: Path, sa: Shown, sb: Shown)
    requires Follows(a, c, path, sa) && Follows(b, CursorAfter(Texts(a), c), path, sb)
    ensures Follows(a + b, c, path, Shown(sa.paths + sb.paths, sb.index))
  {
    TextsAppend(a, b);
    LookedAppend(Texts(a), Texts(b), c);
  }

  lemma FollowsNothing(c: Cursor, path: Path)
    requires Truncated(c.keyStack, |path|) == path
    ensures Follows([], c, path, Shown([], c.listIndex))
  {
  }

  lemma FollowsOne(line: Line, c: Cursor, path: Path)
    requires Truncated(Moved(c, line.text).keyStack, |path|) == path
    ensures var next := Moved(c, line.text);
            var looked := if KindOf(line.text).NoKey? then None else Some(next.keyStack);
            Follows([line], c, path, Shown([looked], next.listIndex))
  {
    hide Moved, KindOf, Truncated;
    var texts := [line.text];
    assert Texts([line]) == texts by {
      assert [line][1..] == [];
    }
    assert texts[1..] == [];
    assert CursorAfter(texts, c) == Moved(c, line.text);
  }

  lemma FollowsShorter(lines: seq<Line>, c: Cursor, path: Path, n: nat, shown: Shown)
    requires Follows(lines, c, path, shown) && n <= |path|
    ensures Follows(lines, c, path[..n], shown)
  {
  }

  /** Where the cursor must stand before the fields at `path`. */
  ghost predicate StandsAt(c: Cursor, path: Path, item: bool) {
    if item then path != [] && path == Truncated(c.keyStack, |path| - 1) + [TextItems.Decimal(c.listIndex)]
    else Truncated(c.keyStack, |path|) == path
  }

  lemma HeadMoves(e: Entry, path: Path, item: bool, c: Cursor)
    requires IsPlainKey(e.name) && StandsAt(c, path, item)
    ensures var head := FieldHead(e, |path|, item);
            && !KindOf(head.text).NoKey? && NameColumn(head.text) == head.column && !IsComment(head.text)
            && Moved(c, head.text) == Cursor(path + [e.name], if item then c.listIndex + 1 else 0)
  {
    hide KindOf, Indent, IsComment, IsPlainKey, Inline, TextItems.Decimal, Truncated, NameColumn;
    if item {
      ItemHeadMoves(e, path, c);
    } else {
      FieldHeadMoves(e, path, c);
    }
  }

  lemma FieldHeadMoves(e: Entry, path: Path, c: Cursor)
    requires IsPlainKey(e.name) && StandsAt(c, path, false)
    ensures var head := FieldHead(e, |path|, false);
            && !KindOf(head.text).NoKey? && NameColumn(head.text) == head.column && !IsComment(head.text)
            && Moved(c, head.text) == Cursor(path + [e.name], 0)
  {
    hide KindOf, Indent, IsComment, IsPlainKey, Inline, Truncated, NameColumn, Spaces;
    FieldLine(2 * |path|, e.name, Inline(e.tree));
    assert FieldHead(e, |path|, false).text == Spaces(2 * |path|) + e.name + ":" + Inline(e.tree);
  }

  lemma ItemHeadMoves(e: Entry, path: Path, c: Cursor)
    requires IsPlainKey(e.name) && StandsAt(c, path, true)
    ensures var head := FieldHead(e, |path|, true);
            && !KindOf(head.text).NoKey? && NameColumn(head.text) == head.column && !IsComment(head.text)
            && Moved(c, head.text) == Cursor(path + [e.name], c.listIndex + 1)
  {
    hide KindOf, Indent, IsComment, IsPlainKey, Inline, TextItems.Decimal, Truncated, NameColumn, Spaces;
    var n := |path|;
    ItemFieldLine(2 * (n - 1), e.name, Inline(e.tree));
    assert FieldHead(e, n, true).text == Spaces(2 * (n - 1)) + ITEM_PREFIX + e.name + ":" + Inline(e.tree);
    assert path + [e.name] == Truncated(c.keyStack, n - 1) + [TextItems.Decimal(c.listIndex), e.name];
  }

  lemma {:induction false} EntriesFollow(entries: seq<Entry>, path: Path, item: bool, c: Cursor)
    requires PrintableEntries(entries) && StandsAt(c, path, item) && (item ==> entries != [])
    ensures Follows(EntryLines(entries, |path|, item), c, path, EntriesShown(entries, path, c.listIndex, item))
    decreases entries
  {
    hide Moved, KindOf, IsComment, TextItems.Decimal, FieldHead, Follows, IsPlainKey;
    if entries == [] {
      FollowsNothing(c, path);
    } else {
      var e := entries[0];
      var here := path + [e.name];
      var head := FieldHead(e, |path|, item);
      HeadMoves(e, path, item, c);
      var c1 := Moved(c, head.text);
      assert here[..|path|] == path;
      FollowsOne(head, c, path);
      BelowFollows(e.tree, here, c1);
      var below := Below(e.tree, |here|);
      var belowShown := BelowShown(e.tree, here, c1.listIndex);
      FollowsShorter(below, c1, here, |path|, belowShown);
      AfterOne(head, c);
      FollowsAppend([head], below, c, path, Shown([Some(here)], c1.listIndex), belowShown);
      TextsAppend([head], below);
      LookedAppend(Texts([head]), Texts(below), c);
      var c2 := CursorAfter(Texts([head] + below), c);
      StandsAfter([head] + below, c, path, Shown([Some(here)] + belowShown.paths, belowShown.index));
      EntriesFollow(entries[1..], path, false, c2);
      var rest := EntryLines(entries[1..], |path|, false);
      FollowsAppend([head] + below, rest, c, path,
        Shown([Some(here)] + belowShown.paths, belowShown.index),
        EntriesShown(entries[1..], path, c2.listIndex, false));
    }
  }

  lemma AfterOne(line: Line, c: Cursor)
    ensures CursorAfter(Texts([line]), c) == Moved(c, line.text)
  {
    assert Texts([line]) == [line.text];
  }

  lemma StandsAfter(lines: seq<Line>, c: Cursor, path: Path, shown: Shown)
    requires Follows(lines, c, path, shown)
    ensures StandsAt(CursorAfter(Texts(lines), c), path, false)
    ensures CursorAfter(Texts(lines), c).listIndex == shown.index
  {
  }

  lemma {:induction false} BelowFollows(t: Tree, path: Path, c: Cursor)
    requires Printable(t) && StandsAt(c, path, false)
    ensures Follows(Below(t, |path|), c, path, BelowShown(t, path, c.listIndex))
    decreases t
  {
    hide Moved, KindOf, TextItems.Decimal, Follows;
    match t
    case Leaf(_) => FollowsNothing(c, path);
    case Node(entries) => EntriesFollow(entries, path, false, c);
    case Items(items) => ItemsFollow(items, path, c);
  }

  lemma InlineTextIsItemText(t: Tree)
    requires IsInline(t) && (t.Leaf? ==> IsItemText(t.text))
    ensures IsItemText(InlineText(t))
  {
    assert t.Leaf? ==> Inline(t)[1..] == t.text;
  }

  lemma InlineMoves(t: Tree, path: Path, c: Cursor)
    requires StandsAt(c, path, false) && IsInline(t) && (t.Leaf? ==> IsItemText(t.text))
    ensures var line := InlineItem(t, |path|);
            && Follows([line], c, path, InlineShown(t, path, c.listIndex))
            && !IsComment(line.text) && (!KindOf(line.text).NoKey? ==> NameColumn(line.text) == line.column)
  {
    hide KindOf, Indent, IsComment, TextItems.Decimal, IsItemText, NameColumn, Spaces, Follows, IsInline, InlineText;
    var line := InlineItem(t, |path|);
    InlineTextIsItemText(t);
    ItemTextLine(2 * |path|, InlineText(t));
    IndentKeepsKind(2 * |path|, ITEM_PREFIX + InlineText(t));
    assert line.text == Spaces(2 * |path|) + (ITEM_PREFIX + InlineText(t));
    assert 2 * |path| / 2 == |path|;
    InlineCursor(line.text, path, c);
    FollowsOne(line, c, path);
  }

  lemma InlineCursor(line: string, path: Path, c: Cursor)
    requires StandsAt(c, path, false) && !KindOf(line).Field? && Indent(line) == 2 * |path|
    ensures Moved(c, line) == match KindOf(line)
                              case ItemField(name) =>
                                Cursor(path + [TextItems.Decimal(c.listIndex), name], c.listIndex + 1)
                              case _ => Cursor(path, c.listIndex)
    ensures Truncated(Moved(c, line).keyStack, |path|) == path
  {
    hide KindOf, Indent, TextItems.Decimal;
  }

  lemma {:induction false} ItemsFollow(items: seq<Tree>, path: Path, c: Cursor)
    requires PrintableItems(items) && StandsAt(c, path, false)
    ensures Follows(ItemLines(items, |path|), c, path, ItemsShown(items, path, c.listIndex))
    decreases items
  {
    hide Moved, KindOf, TextItems.Decimal, Follows, InlineItem, InlineShown, IsItemText;
    if items == [] {
      FollowsNothing(c, path);
    } else {
      var first: seq<Line>, shown: Shown;
      if items[0].Node? && items[0].entries != [] {
        var here := path + [TextItems.Decimal(c.listIndex)];
        assert here[..|path|] == path;
        EntriesFollow(items[0].entries, here, true, c);
        first := EntryLines(items[0].entries, |here|, true);
        shown := EntriesShown(items[0].entries, here, c.listIndex, true);
        FollowsShorter(first, c, here, |path|, shown);
      } else {
        InlineMoves(items[0], path, c);
        first, shown := [InlineItem(items[0], |path|)], InlineShown(items[0], path, c.listIndex);
      }
      StandsAfter(first, c, path, shown);
      var c1 := CursorAfter(Texts(first), c);
      ItemsFollow(items[1..], path, c1);
      FollowsAppend(first, ItemLines(items[1..], |path|), c, path, shown, ItemsShown(items[1..], path, c1.listIndex));
    }
  }
}
