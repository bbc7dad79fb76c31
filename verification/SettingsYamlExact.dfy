/** When the annotated text is the document with every field's docs above it. */
module SettingsYamlExact {
  import opened Base
  import opened YamlLines
  import opened SettingsDocs
  import opened SettingsYaml
  import TextItems

  // ---- the lines themselves -------------------------------------------------------------------

  /** A printed line is one line, no comment, and is read as a field only where the layout shows one. */
  ghost predicate LineFits(line: Line) {
    && IsOneLine(line.text)
    && !IsComment(line.text)
    && if KindOf(line.text).NoKey? then line.docs == [] else NameColumn(line.text) == line.column
  }

  ghost predicate AllFit(lines: seq<Line>) {
    forall i :: 0 <= i < |lines| ==> LineFits(lines[i])
  }

  lemma HeadIsOneLine(e: Entry, depth: nat, item: bool)
    requires IsPlainKey(e.name) && Printable(e.tree)
    ensures IsOneLine(FieldHead(e, depth, item).text)
  {
    hide Spaces, PrintableEntries, PrintableItems, White;
    var margin := if item && depth > 0 then Spaces(2 * (depth - 1)) + ITEM_PREFIX else Spaces(2 * depth);
    var rest := ":" + Inline(e.tree);
    assert FieldHead(e, depth, item).text == margin + e.name + rest;
    assert '\n' !in margin && '\n' !in rest;
    assert rest[|rest| - 1] != '\r';
  }

  lemma ItemIsOneLine(t: Tree, depth: nat)
    requires IsInline(t) && Printable(t) && (t.Leaf? ==> IsItemText(t.text))
    ensures IsOneLine(InlineItem(t, depth).text)
  {
    hide Spaces, PrintableEntries, PrintableItems, White;
    var text := InlineText(t);
    assert t.Leaf? ==> Inline(t)[1..] == t.text;
    assert text != "" && '\n' !in text && text[|text| - 1] != '\r';
    assert InlineItem(t, depth).text == Spaces(2 * depth) + ITEM_PREFIX + text;
  }

  lemma HeadFits(e: Entry, depth: nat, item: bool)
    requires IsPlainKey(e.name) && Printable(e.tree) && (item ==> depth > 0)
    ensures LineFits(FieldHead(e, depth, item))
  {
    HeadIsOneLine(e, depth, item);
    hide KindOf, IsComment, NameColumn, FieldHead, TextItems.Decimal, IsOneLine, Printable;
    if item {
      var before: Path := seq(depth - 1, _ => "");
      ItemHeadMoves(e, before + [TextItems.Decimal(0)], Cursor(before, 0));
    } else {
      var path: Path := seq(depth, _ => "");
      FieldHeadMoves(e, path, Cursor(path, 0));
    }
  }

  lemma {:induction false} EntriesFit(entries: seq<Entry>, depth: nat, item: bool)
    requires PrintableEntries(entries) && (item ==> depth > 0)
    ensures AllFit(EntryLines(entries, depth, item))
    decreases entries
  {
    hide LineFits, IsPlainKey;
    if entries != [] {
      HeadFits(entries[0], depth, item);
      BelowFits(entries[0].tree, depth + 1);
      EntriesFit(entries[1..], depth, false);
    }
  }

  lemma {:induction false} BelowFits(t: Tree, depth: nat)
    requires Printable(t)
    ensures AllFit(Below(t, depth))
    decreases t
  {
    match t
    case Leaf(_) =>
    case Node(entries) => EntriesFit(entries, depth, false);
    case Items(items) => ItemsFit(items, depth);
  }

  lemma {:induction false} ItemsFit(items: seq<Tree>, depth: nat)
    requires PrintableItems(items)
    ensures AllFit(ItemLines(items, depth))
    decreases items
  {
    hide IsItemText, InlineItem, KindOf, NameColumn, IsComment, IsOneLine;
    if items != [] {
      if items[0].Node? && items[0].entries != [] {
        EntriesFit(items[0].entries, depth + 1, true);
      } else {
        var path: Path := seq(depth, _ => "");
        InlineMoves(items[0], path, Cursor(path, 0));
        ItemIsOneLine(items[0], depth);
        assert InlineItem(items[0], depth).docs == [] by {
          InlineHasNoDocs(items[0], depth);
        }
      }
      ItemsFit(items[1..], depth);
    }
  }

  lemma InlineHasNoDocs(t: Tree, depth: nat)
    ensures InlineItem(t, depth).docs == []
  {
  }

  // ---- comments and lines can be told apart -----------------------------------------------------

  lemma {:induction false} CommentsAreComments(docs: seq<string>, column: nat)
    ensures |Comments(docs, column)| == |docs|
    ensures forall i :: 0 <= i < |docs| ==>
      Comments(docs, column)[i] == Spaces(column) + "#" + docs[i] && IsComment(Comments(docs, column)[i])
  {
    if docs != [] {
      CommentsAreComments(docs[1..], column);
      var line := Spaces(column) + "#" + docs[0];
      assert line[column] == '#';
      LeadingIs(line, column);
    }
  }

  lemma CommentsInjective(a: seq<string>, b: seq<string>, column: nat)
    requires Comments(a, column) == Comments(b, column)
    ensures a == b
  {
    hide IsComment;
    CommentsAreComments(a, column);
    CommentsAreComments(b, column);
    forall i | 0 <= i < |a| ensures a[i] == b[i] {
      var line := Comments(a, column)[i];
      assert line[column + 1..] == a[i] && line[column + 1..] == b[i];
    }
  }

  /** Comment lines, then a line that is none: both parts can be recovered. */
  lemma ChunksEqual(a: seq<string>, b: seq<string>, column: nat, line: string, x: seq<string>, y: seq<string>)
    requires !IsComment(line)
    requires Comments(a, column) + [line] + x == Comments(b, column) + [line] + y
    ensures a == b && x == y
  {
    hide IsComment, Comments;
    CommentsAreComments(a, column);
    CommentsAreComments(b, column);
    var ca, cb := Comments(a, column), Comments(b, column);
    var left, right := ca + [line] + x, cb + [line] + y;
    assert left[|a|] == line && right[|b|] == line;
    assert forall i :: 0 <= i < |a| ==> left[i] == ca[i];
    assert forall i :: 0 <= i < |b| ==> right[i] == cb[i];
    assert |a| == |b|;
    assert left[..|a|] == ca && right[..|a|] == cb;
    CommentsInjective(a, b, column);
    assert left[|a| + 1..] == x && right[|a| + 1..] == y;
  }

  // ---- annotating is weaving in the docs found where the annotator looks ------------------------

  function LookedDocs(docs: Docs, path: Option<Path>): seq<string> {
    if path.Some? then Lookup(docs, path.value) else []
  }

  function Woven(docs: Docs, lines: seq<Line>, paths: seq<Option<Path>>): seq<string>
    requires |paths| == |lines|
  {
    if lines == [] then []
    else Comments(LookedDocs(docs, paths[0]), lines[0].column) + [lines[0].text] + Woven(docs, lines[1..], paths[1..])
  }

  lemma {:induction false} AnnotatedIsWoven(docs: Docs, lines: seq<Line>, c: Cursor)
    requires AllFit(lines)
    ensures Annotated(docs, Texts(lines), c) == Woven(docs, lines, Looked(Texts(lines), c))
  {
    hide Moved, KindOf, NameColumn, Lookup, IsComment;
    if lines != [] {
      var next := Moved(c, lines[0].text);
      assert LineFits(lines[0]);
      assert Texts(lines)[1..] == Texts(lines[1..]);
      AnnotatedIsWoven(docs, lines[1..], next);
      assert Looked(Texts(lines), c)[1..] == Looked(Texts(lines[1..]), next);
    }
  }

  ghost predicate DocsMatch(docs: Docs, lines: seq<Line>, paths: seq<Option<Path>>)
    requires |paths| == |lines|
  {
    forall i :: 0 <= i < |lines| ==> LookedDocs(docs, paths[i]) == lines[i].docs
  }

  lemma {:induction false} WovenIsDocumented(docs: Docs, lines: seq<Line>, paths: seq<Option<Path>>)
    requires |paths| == |lines| && AllFit(lines)
    ensures Woven(docs, lines, paths) == Documented(lines) <==> DocsMatch(docs, lines, paths)
  {
    hide LookedDocs, LineFits, Comments;
    if lines != [] {
      WovenIsDocumented(docs, lines[1..], paths[1..]);
      assert LineFits(lines[0]);
      var found, column := LookedDocs(docs, paths[0]), lines[0].column;
      var x, y := Woven(docs, lines[1..], paths[1..]), Documented(lines[1..]);
      if Woven(docs, lines, paths) == Documented(lines) {
        FitsIsNoComment(lines[0]);
        ChunksEqual(found, lines[0].docs, column, lines[0].text, x, y);
      }
      MatchSplits(docs, lines, paths);
    }
  }

  lemma FitsIsNoComment(line: Line)
    requires LineFits(line)
    ensures !IsComment(line.text)
  {
  }

  lemma MatchSplits(docs: Docs, lines: seq<Line>, paths: seq<Option<Path>>)
    requires |paths| == |lines| && lines != []
    ensures DocsMatch(docs, lines, paths) <==>
            LookedDocs(docs, paths[0]) == lines[0].docs && DocsMatch(docs, lines[1..], paths[1..])
  {
    hide LookedDocs;
    if DocsMatch(docs, lines[1..], paths[1..]) && LookedDocs(docs, paths[0]) == lines[0].docs {
      forall i | 0 <= i < |lines| ensures LookedDocs(docs, paths[i]) == lines[i].docs {
        if i > 0 {
          assert LookedDocs(docs, paths[1..][i - 1]) == lines[1..][i - 1].docs;
        }
      }
    }
  }

  // ---- the main result ------------------------------------------------------------------------

  /** The serialized settings; `header` is the document marker one serializer prints first. */
  function Document(t: Tree, header: bool): seq<Line>
    requires t.Node?
  {
    (if header then [Line("---", 0, [])] else [])
    + if t.entries == [] then [Line("{}", 0, [])] else EntryLines(t.entries, 0, false)
  }

  /** Settings within scope. */
  ghost predicate InScope(s: Settings) {
    Flattenable(s) && Normal(s).Node? && Printable(Normal(s)) && Distinct(Normal(s))
  }

  /**
   Along the tree with the running list index: wherever the annotator looks for
   a field, the tree `root` has that field's docs.
   */
  predicate EntriesLookRight(root: Tree, entries: seq<Entry>, path: Path, index: nat, item: bool)
    decreases entries
  {
    entries == []
    || (var here := path + [entries[0].name];
        var after := if item then index + 1 else 0;
        && DocsAt(root, here) == entries[0].docs
        && BelowLooksRight(root, entries[0].tree, here, after)
        && EntriesLookRight(root, entries[1..], path, BelowShown(entries[0].tree, here, after).index, false))
  }

  predicate BelowLooksRight(root: Tree, t: Tree, path: Path, index: nat)
    decreases t
  {
    match t
    case Leaf(_) => true
    case Node(entries) => EntriesLookRight(root, entries, path, index, false)
    case Items(items) => ItemsLookRight(root, items, path, index)
  }

  predicate ItemsLookRight(root: Tree, items: seq<Tree>, path: Path, index: nat)
    decreases items
  {
    items == []
    || if items[0].Node? && items[0].entries != [] then
         var here := path + [TextItems.Decimal(index)];
         && EntriesLookRight(root, items[0].entries, here, index, true)
         && ItemsLookRight(root, items[1..], path, EntriesShown(items[0].entries, here, index, true).index)
       else
         && InlineLooksRight(root, items[0], path, index)
         && ItemsLookRight(root, items[1..], path, InlineShown(items[0], path, index).index)
  }

  /** An inline item has no docs, so none may be found if its text is taken for a field. */
  predicate InlineLooksRight(root: Tree, t: Tree, path: Path, index: nat) {
    var looked := InlineShown(t, path, index).paths[0];
    looked.Some? ==> looked.value != [] && DocsAt(root, looked.value) == []
  }

  predicate LooksRight(t: Tree)
    requires t.Node?
  {
    EntriesLookRight(t, t.entries, [], 0, false)
  }

  /** The same line by line: the docs found are those of the field the line shows. */
  predicate Right(root: Tree, lines: seq<Line>, paths: seq<Option<Path>>) {
    && |lines| == |paths|
    && forall i :: 0 <= i < |paths| && paths[i].Some? ==>
         paths[i].value != [] && DocsAt(root, paths[i].value) == lines[i].docs
  }

  lemma RightAppend(root: Tree, a: seq<Line>, pa: seq<Option<Path>>, b: seq<Line>, pb: seq<Option<Path>>)
    requires |a| == |pa| && |b| == |pb|
    ensures Right(root, a + b, pa + pb) <==> Right(root, a, pa) && Right(root, b, pb)
  {
    hide DocsAt;
    if Right(root, a + b, pa + pb) {
      forall i | 0 <= i < |pa| && pa[i].Some?
        ensures pa[i].value != [] && DocsAt(root, pa[i].value) == a[i].docs
      {
        assert (pa + pb)[i] == pa[i] && (a + b)[i] == a[i];
      }
      forall i | 0 <= i < |pb| && pb[i].Some?
        ensures pb[i].value != [] && DocsAt(root, pb[i].value) == b[i].docs
      {
        assert (pa + pb)[|pa| + i] == pb[i] && (a + b)[|a| + i] == b[i];
      }
    }
  }

  lemma {:induction false} EntriesLookRightIs(
    root: Tree, entries: seq<Entry>, path: Path, index: nat, item: bool, depth: nat)
    ensures |EntryLines(entries, depth, item)| == |EntriesShown(entries, path, index, item).paths|
    ensures EntriesLookRight(root, entries, path, index, item) <==>
            Right(root, EntryLines(entries, depth, item), EntriesShown(entries, path, index, item).paths)
    decreases entries
  {
    hide Right, DocsAt, FieldHead, TextItems.Decimal;
    if entries == [] {
      NothingWrong(root);
    } else {
      var e := entries[0];
      var here := path + [e.name];
      var after := if item then index + 1 else 0;
      var below := BelowShown(e.tree, here, after);
      BelowLooksRightIs(root, e.tree, here, after, depth + 1);
      EntriesLookRightIs(root, entries[1..], path, below.index, false, depth);
      var head, belowLines := FieldHead(e, depth, item), Below(e.tree, depth + 1);
      HeadDocs(e, depth, item);
      OneRight(root, head, here);
      RightAppend(root, [head], [Some(here)], belowLines, below.paths);
      RightAppend(root, [head] + belowLines, [Some(here)] + below.paths, EntryLines(entries[1..], depth, false),
        EntriesShown(entries[1..], path, below.index, false).paths);
    }
  }

  lemma NothingWrong(root: Tree)
    ensures Right(root, [], [])
  {
  }

  lemma HeadDocs(e: Entry, depth: nat, item: bool)
    ensures FieldHead(e, depth, item).docs == e.docs
  {
  }

  lemma OneRight(root: Tree, line: Line, path: Path)
    requires path != []
    ensures Right(root, [line], [Some(path)]) <==> DocsAt(root, path) == line.docs
  {
    assert [Some(path)][0] == Some(path) && [line][0] == line;
  }

  lemma {:induction false} BelowLooksRightIs(root: Tree, t: Tree, path: Path, index: nat, depth: nat)
    ensures |Below(t, depth)| == |BelowShown(t, path, index).paths|
    ensures BelowLooksRight(root, t, path, index) <==> Right(root, Below(t, depth), BelowShown(t, path, index).paths)
    decreases t
  {
    hide Right;
    match t
    case Leaf(_) => NothingWrong(root);
    case Node(entries) => EntriesLookRightIs(root, entries, path, index, false, depth);
    case Items(items) => ItemsLookRightIs(root, items, path, index, depth);
  }

  lemma {:induction false} ItemsLookRightIs(root: Tree, items: seq<Tree>, path: Path, index: nat, depth: nat)
    ensures |ItemLines(items, depth)| == |ItemsShown(items, path, index).paths|
    ensures ItemsLookRight(root, items, path, index) <==>
            Right(root, ItemLines(items, depth), ItemsShown(items, path, index).paths)
    decreases items
  {
    hide Right, InlineShown, InlineItem, TextItems.Decimal;
    if items == [] {
      NothingWrong(root);
    } else {
      var lines: seq<Line>, shown: Shown;
      if items[0].Node? && items[0].entries != [] {
        var here := path + [TextItems.Decimal(index)];
        EntriesLookRightIs(root, items[0].entries, here, index, true, depth + 1);
        lines := EntryLines(items[0].entries, depth + 1, true);
        shown := EntriesShown(items[0].entries, here, index, true);
      } else {
        lines, shown := [InlineItem(items[0], depth)], InlineShown(items[0], path, index);
        InlineLooksRightIs(root, items[0], path, index, depth);
      }
      ItemsLookRightIs(root, items[1..], path, shown.index, depth);
      RightAppend(
        root, lines, shown.paths, ItemLines(items[1..], depth), ItemsShown(items[1..], path, shown.index).paths);
    }
  }

  lemma InlineLooksRightIs(root: Tree, t: Tree, path: Path, index: nat, depth: nat)
    ensures |InlineShown(t, path, index).paths| == 1
    ensures InlineLooksRight(root, t, path, index) <==>
            Right(root, [InlineItem(t, depth)], InlineShown(t, path, index).paths)
  {
    hide KindOf, DocsAt, TextItems.Decimal;
    var lines, looked := [InlineItem(t, depth)], InlineShown(t, path, index).paths[0];
    assert lines[0].docs == [];
    assert InlineShown(t, path, index).paths == [looked];
  }

  lemma {:induction false} ShownPathsNonEmpty(entries: seq<Entry>, path: Path, index: nat, item: bool)
    ensures forall p :: Some(p) in EntriesShown(entries, path, index, item).paths ==> p != []
    decreases entries
  {
    hide TextItems.Decimal, InlineShown;
    if entries != [] {
      var below := BelowShown(entries[0].tree, path + [entries[0].name], if item then index + 1 else 0);
      BelowPathsNonEmpty(entries[0].tree, path + [entries[0].name], if item then index + 1 else 0);
      ShownPathsNonEmpty(entries[1..], path, below.index, false);
    }
  }

  lemma {:induction false} BelowPathsNonEmpty(t: Tree, path: Path, index: nat)
    ensures forall p :: Some(p) in BelowShown(t, path, index).paths ==> p != []
    decreases t
  {
    match t
    case Leaf(_) =>
    case Node(entries) => ShownPathsNonEmpty(entries, path, index, false);
    case Items(items) => ItemPathsNonEmpty(items, path, index);
  }

  lemma {:induction false} ItemPathsNonEmpty(items: seq<Tree>, path: Path, index: nat)
    ensures forall p :: Some(p) in ItemsShown(items, path, index).paths ==> p != []
    decreases items
  {
    hide TextItems.Decimal;
    if items != [] {
      if items[0].Node? && items[0].entries != [] {
        var first := EntriesShown(items[0].entries, path + [TextItems.Decimal(index)], index, true);
        ShownPathsNonEmpty(items[0].entries, path + [TextItems.Decimal(index)], index, true);
        ItemPathsNonEmpty(items[1..], path, first.index);
      } else {
        InlinePathNonEmpty(items[0], path, index);
        ItemPathsNonEmpty(items[1..], path, InlineShown(items[0], path, index).index);
      }
    }
  }

  lemma InlinePathNonEmpty(t: Tree, path: Path, index: nat)
    ensures forall p :: Some(p) in InlineShown(t, path, index).paths ==> p != []
  {
    hide KindOf, InlineItem;
  }

  lemma OwnAtRoot(t: Tree, key: Path)
    requires key != []
    ensures Own(t, [], key) == DocsAt(t, key)
  {
    assert key[0..] == key;
    assert [] < key;
  }

  /** The table's docs for a key are the tree's. */
  lemma TableIsTree(s: Settings, key: Path)
    requires InScope(s) && key != []
    ensures Lookup(AddedDocs(s, [], map[]), key) == DocsAt(Normal(s), key)
  {
    hide AddedDocs, Normal, Flattenable, Distinct, Printable;
    AddedDocsAreTheFieldsDocs(s, [], map[], key);
    OwnAtRoot(Normal(s), key);
  }

  lemma LooksRightIsMatch(s: Settings)
    requires InScope(s) && AllFit(EntryLines(Normal(s).entries, 0, false))
    requires Looked(Texts(EntryLines(Normal(s).entries, 0, false)), START)
          == EntriesShown(Normal(s).entries, [], 0, false).paths
    ensures LooksRight(Normal(s)) <==>
            DocsMatch(AddedDocs(s, [], map[]), EntryLines(Normal(s).entries, 0, false),
                      Looked(Texts(EntryLines(Normal(s).entries, 0, false)), START))
  {
    hide AddedDocs, Normal, EntryLines, EntriesShown, Texts, Flattenable, Distinct, Printable, DocsAt,
      EntriesLookRight;
    var t := Normal(s);
    var docs, lines := AddedDocs(s, [], map[]), EntryLines(t.entries, 0, false);
    var paths := Looked(Texts(lines), START);
    ShownPathsNonEmpty(t.entries, [], 0, false);
    EntriesLookRightIs(t, t.entries, [], 0, false, 0);
    forall i | 0 <= i < |lines|
      ensures paths[i].Some? ==> paths[i].value != [] && LookedDocs(docs, paths[i]) == DocsAt(t, paths[i].value)
      ensures paths[i].None? ==> lines[i].docs == []
    {
      assert LineFits(lines[i]);
      NoKeyIffNone(lines, START, i);
      if paths[i].Some? {
        assert paths[i] == Some(paths[i].value);
        TableIsTree(s, paths[i].value);
      }
    }
  }

  lemma {:induction false} NoKeyIffNone(lines: seq<Line>, c: Cursor, i: nat)
    requires i < |lines|
    ensures Looked(Texts(lines), c)[i].None? <==> KindOf(lines[i].text).NoKey?
  {
    hide KindOf, Moved;
    if i > 0 {
      assert Texts(lines)[1..] == Texts(lines[1..]);
      NoKeyIffNone(lines[1..], Moved(c, lines[0].text), i - 1);
    }
  }

  lemma HeaderMovesNothing()
    ensures KindOf("---").NoKey? && Moved(START, "---") == START
  {
  }

  lemma HeaderTexts(lines: seq<Line>)
    ensures Texts([Line("---", 0, [])] + lines) == ["---"] + Texts(lines)
    ensures Documented([Line("---", 0, [])] + lines) == ["---"] + Documented(lines)
  {
    assert ([Line("---", 0, [])] + lines)[1..] == lines;
  }

  lemma HeaderIsSkipped(docs: Docs, lines: seq<Line>)
    ensures Annotated(docs, Texts([Line("---", 0, [])] + lines), START)
         == ["---"] + Annotated(docs, Texts(lines), START)
    ensures Documented([Line("---", 0, [])] + lines) == ["---"] + Documented(lines)
  {
    hide Moved, KindOf, NameColumn, Texts, Documented, Comments;
    HeaderMovesNothing();
    HeaderTexts(lines);
    assert (["---"] + Texts(lines))[1..] == Texts(lines);
  }

  lemma EmptyStruct(docs: Docs)
    ensures Annotated(docs, Texts([Line("{}", 0, [])]), START) == Documented([Line("{}", 0, [])])
  {
    var all := [Line("{}", 0, [])];
    assert all[1..] == [];
    assert Texts(all) == ["{}"] && Texts(all)[1..] == [];
  }

  lemma FieldsExactly(s: Settings)
    requires InScope(s)
    ensures var lines := EntryLines(Normal(s).entries, 0, false);
            Annotated(AddedDocs(s, [], map[]), Texts(lines), START) == Documented(lines) <==> LooksRight(Normal(s))
  {
    hide AddedDocs, EntryLines, EntriesShown, Texts, Flattenable, Distinct, DocsAt, LooksRight, DocsMatch, AllFit;
    var t := Normal(s);
    var docs, lines := AddedDocs(s, [], map[]), EntryLines(t.entries, 0, false);
    EntriesFit(t.entries, 0, false);
    EntriesFollow(t.entries, [], false, START);
    AnnotatedIsWoven(docs, lines, START);
    WovenIsDocumented(docs, lines, Looked(Texts(lines), START));
    LooksRightIsMatch(s);
  }

  /**
   The annotated text is the document with each field's docs above its line if
   and only if the annotator's running list index leads it to the right docs.
   */
  lemma DocumentedExactly(s: Settings, header: bool)
    requires InScope(s)
    ensures var lines := Document(Normal(s), header);
            Annotated(AddedDocs(s, [], map[]), Texts(lines), START) == Documented(lines) <==> LooksRight(Normal(s))
  {
    hide AddedDocs, Annotated, Documented, Texts, Normal, Flattenable, Printable, Distinct, LooksRight, EntryLines;
    var docs, t := AddedDocs(s, [], map[]), Normal(s);
    FieldsExactly(s);
    EmptyStruct(docs);
    EmptyLooksRight(t);
    HeaderIsSkipped(docs, Document(t, false));
    assert Document(t, true) == [Line("---", 0, [])] + Document(t, false);
    assert Document(t, false) == if t.entries == [] then [Line("{}", 0, [])] else EntryLines(t.entries, 0, false);
    SamePrefix("---", Annotated(docs, Texts(Document(t, false)), START), Documented(Document(t, false)));
  }

  lemma SamePrefix(first: string, a: seq<string>, b: seq<string>)
    ensures [first] + a == [first] + b <==> a == b
  {
    assert ([first] + a)[1..] == a && ([first] + b)[1..] == b;
  }

  lemma EmptyLooksRight(t: Tree)
    requires t.Node?
    ensures t.entries == [] ==> LooksRight(t)
  {
  }
}
