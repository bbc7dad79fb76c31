/** The documented printer from text to text: what its comments are, and when its text is the documented text. */
module SettingsYamlText {
  import opened Base
  import opened YamlLines
  import opened SettingsDocs
  import opened SettingsYaml
  import opened SettingsYamlExact
  import TextItems

  // ---- docs of several lines ----------------------------------------------------------------------

  /** The lines of a doc after its first; only the first is printed behind a `#`. */
  function Continuations(doc: string): seq<string> {
    if '\n' in doc then Lines(doc[FirstNewline(doc) + 1..] + "\n") else []
  }

  /** Every line the doc is printed as is a comment. */
  predicate PrintsAsComment(doc: string) {
    forall i :: 0 <= i < |Continuations(doc)| ==> IsComment(Continuations(doc)[i])
  }

  lemma WithoutCrKeepsComment(line: string)
    ensures IsComment(WithoutCr(line)) <==> IsComment(line)
  {
    var n := Leading(line);
    if line != "" && line[|line| - 1] == '\r' {
      var cut := WithoutCr(line);
      if n < |line| {
        assert n < |cut|;
        assert cut[n] == line[n];
        LeadingIs(cut, n);
      } else {
        assert forall i :: 0 <= i < |cut| ==> cut[i] == line[i] && White(cut[i]);
        assert Leading(cut) == |cut|;
      }
    }
  }

  lemma HashIsComment(column: nat, rest: string)
    ensures IsComment(Spaces(column) + "#" + rest)
  {
    var line := Spaces(column) + "#" + rest;
    assert line[column] == '#';
    LeadingIs(line, column);
  }

  /** How one printed doc is read back: its first line behind the `#`, then its continuations. */
  lemma CommentLines(column: nat, doc: string) returns (first: string)
    ensures Lines(Spaces(column) + "#" + doc + "\n") == [first] + Continuations(doc)
    ensures IsComment(first)
  {
    hide IsComment, WithoutCr;
    var margin := Spaces(column) + "#";
    assert '\n' !in margin;
    var line, rest := doc, "";
    if '\n' in doc {
      var i := FirstNewline(doc);
      line, rest := doc[..i], doc[i + 1..] + "\n";
      assert doc == line + "\n" + doc[i + 1..];
    }
    assert margin + doc + "\n" == (margin + line) + "\n" + rest;
    LinesCons(margin + line, rest);
    HashIsComment(column, line);
    first := WithoutCr(margin + line);
    WithoutCrKeepsComment(margin + line);
  }

  // ---- deleting the comments -----------------------------------------------------------------------

  function WithoutComments(lines: seq<string>): (rest: seq<string>)
    ensures rest == [] <==> forall i :: 0 <= i < |lines| ==> IsComment(lines[i])
  {
    if lines == [] then []
    else (if IsComment(lines[0]) then [] else [lines[0]]) + WithoutComments(lines[1..])
  }

  lemma {:induction false} WithoutCommentsAppend(a: seq<string>, b: seq<string>)
    ensures WithoutComments(a + b) == WithoutComments(a) + WithoutComments(b)
  {
    hide IsComment;
    if a == [] {
      assert a + b == b;
    } else {
      WithoutCommentsAppend(a[1..], b);
      assert (a + b)[1..] == a[1..] + b;
      ConcatAssoc(if IsComment(a[0]) then [] else [a[0]], WithoutComments(a[1..]), WithoutComments(b));
    }
  }

  lemma {:induction false} PrintedComments(docs: seq<string>, column: nat)
    ensures WithoutComments(Lines(Join(Comments(docs, column)))) == [] <==>
            forall i :: 0 <= i < |docs| ==> PrintsAsComment(docs[i])
  {
    hide IsComment, Lines;
    if docs == [] {
      NoLines("");
    } else {
      var rest := Join(Comments(docs[1..], column));
      var comment := Spaces(column) + "#" + docs[0];
      PrintedComments(docs[1..], column);
      var first := CommentLines(column, docs[0]);
      LinesAppend(comment + "\n", rest);
      assert ([comment] + Comments(docs[1..], column))[1..] == Comments(docs[1..], column);
      assert Join(Comments(docs, column)) == comment + "\n" + rest;
      WithoutCommentsAppend([first] + Continuations(docs[0]), Lines(rest));
      WithoutCommentsAppend([first], Continuations(docs[0]));
      assert [first][1..] == [];
      assert WithoutComments([first]) == [];
      assert PrintsAsComment(docs[0]) <==> WithoutComments(Continuations(docs[0])) == [];
      AllOf(docs);
    }
  }

  lemma AllOf(docs: seq<string>)
    requires docs != []
    ensures (forall i :: 0 <= i < |docs| ==> PrintsAsComment(docs[i])) <==>
            PrintsAsComment(docs[0]) && forall i :: 0 <= i < |docs[1..]| ==> PrintsAsComment(docs[1..][i])
  {
    hide PrintsAsComment;
    assert forall i :: 0 < i < |docs| ==> docs[i] == docs[1..][i - 1];
  }

  /** Every doc the annotator prints above these lines is printed as comments only. */
  ghost predicate PrintsOnlyComments(docs: Docs, paths: seq<Option<Path>>) {
    forall i, j :: 0 <= i < |paths| && 0 <= j < |LookedDocs(docs, paths[i])| ==>
      PrintsAsComment(LookedDocs(docs, paths[i])[j])
  }

  lemma PrintsOnlyCommentsSplits(docs: Docs, paths: seq<Option<Path>>)
    requires paths != []
    ensures PrintsOnlyComments(docs, paths) <==>
            && (forall j :: 0 <= j < |LookedDocs(docs, paths[0])| ==> PrintsAsComment(LookedDocs(docs, paths[0])[j]))
            && PrintsOnlyComments(docs, paths[1..])
  {
    hide PrintsAsComment, LookedDocs;
    assert forall i :: 0 < i < |paths| ==> paths[i] == paths[1..][i - 1];
    assert forall i :: 0 <= i < |paths[1..]| ==> paths[1..][i] == paths[i + 1];
  }

  /**
   Deleting the comment lines from the annotated text gives back the input if and
   only if every doc printed is comments only; otherwise something is left over.
   */
  lemma {:induction false} OnlyCommentsAreAdded(docs: Docs, lines: seq<string>, c: Cursor)
    requires forall i :: 0 <= i < |lines| ==> IsOneLine(lines[i]) && !IsComment(lines[i])
    ensures var left := WithoutComments(Lines(Join(Annotated(docs, lines, c))));
            && |left| >= |lines|
            && (left == lines <==> PrintsOnlyComments(docs, Looked(lines, c)))
            && (|left| == |lines| ==> left == lines)
  {
    hide IsComment, Moved, KindOf, NameColumn, LookedDocs, Comments, Lines, IsOneLine, PrintsAsComment,
      PrintsOnlyComments;
    if lines == [] {
      NoLines("");
      NothingPrinted(docs);
    } else {
      var line, next := lines[0], Moved(c, lines[0]);
      var looked := if KindOf(line).NoKey? then None else Some(next.keyStack);
      var comments, rest := CommentsFor(docs, next, line), Annotated(docs, lines[1..], next);
      assert Annotated(docs, lines, c) == comments + [line] + rest;
      assert Looked(lines, c) == [looked] + Looked(lines[1..], next);
      hide Annotated, Looked, CommentsFor, Join, WithoutComments;
      assert Looked(lines, c)[0] == looked && Looked(lines, c)[1..] == Looked(lines[1..], next);
      OnlyCommentsAreAdded(docs, lines[1..], next);
      OneLineLeft(comments, line, rest);
      CommentsOf(docs, next, line);
      PrintsOnlyCommentsSplits(docs, Looked(lines, c));
      var extra := WithoutComments(Lines(Join(comments)));
      var others := WithoutComments(Lines(Join(rest)));
      assert lines == [line] + lines[1..];
      LeftOver(extra, line, others, lines[1..]);
    }
  }

  lemma LeftOver(extra: seq<string>, line: string, others: seq<string>, rest: seq<string>)
    requires |others| >= |rest| && (|others| == |rest| ==> others == rest)
    ensures var left := extra + [line] + others;
            && |left| >= |[line] + rest|
            && (left == [line] + rest <==> extra == [] && others == rest)
            && (|left| == |[line] + rest| ==> left == [line] + rest)
  {
    var left := extra + [line] + others;
    if extra == [] {
      assert left == [line] + others;
      assert ([line] + others)[1..] == others && ([line] + rest)[1..] == rest;
    }
  }

  lemma NothingPrinted(docs: Docs)
    ensures PrintsOnlyComments(docs, [])
  {
  }

  lemma CommentsOf(docs: Docs, c: Cursor, line: string)
    ensures var looked := if KindOf(line).NoKey? then None else Some(c.keyStack);
            WithoutComments(Lines(Join(CommentsFor(docs, c, line)))) == [] <==>
            forall j :: 0 <= j < |LookedDocs(docs, looked)| ==> PrintsAsComment(LookedDocs(docs, looked)[j])
  {
    var looked := if KindOf(line).NoKey? then None else Some(c.keyStack);
    var comments := CommentsFor(docs, c, line);
    if KindOf(line).NoKey? {
      assert LookedDocs(docs, looked) == [] && comments == [];
      assert Join(comments) == "";
      NoLines("");
    } else {
      var found := Lookup(docs, c.keyStack);
      assert LookedDocs(docs, looked) == found && comments == Comments(found, NameColumn(line));
      hide KindOf, NameColumn, PrintsAsComment, Lines, IsComment, LookedDocs, Lookup, CommentsFor, Comments, Join,
        WithoutComments;
      PrintedComments(found, NameColumn(line));
    }
  }

  lemma OneLineLeft(comments: seq<string>, line: string, rest: seq<string>)
    requires IsOneLine(line) && !IsComment(line)
    ensures WithoutComments(Lines(Join(comments + [line] + rest)))
         == WithoutComments(Lines(Join(comments))) + [line] + WithoutComments(Lines(Join(rest)))
  {
    hide IsComment, Lines, WithoutCr;
    JoinAround(comments, line, rest);
    JoinEndsLine(comments);
    var tail := line + "\n" + Join(rest);
    assert Join(comments + [line] + rest) == Join(comments) + tail;
    LinesAppend(Join(comments), tail);
    LinesCons(line, Join(rest));
    WithoutCommentsAppend(Lines(Join(comments)), Lines(tail));
    WithoutCommentsAppend([line], Lines(Join(rest)));
    assert [line][1..] == [];
    assert WithoutComments([line]) == [line];
    ConcatAssoc(WithoutComments(Lines(Join(comments))), [line], WithoutComments(Lines(Join(rest))));
  }

  // ---- the printed settings --------------------------------------------------------------------------

  /** What the serializer prints for the settings. */
  function Rendered(s: Settings, header: bool): string
    requires Normal(s).Node?
  {
    Join(Texts(Document(Normal(s), header)))
  }

  /** What `to_yaml_string` makes of it. */
  function WithDocs(s: Settings, header: bool): string
    requires Normal(s).Node?
  {
    Join(Annotated(AddedDocs(s, [], map[]), Lines(Rendered(s, header)), START))
  }

  /** From settings to text; it is the documented text whenever the annotator looks right. */
  method DocumentedYaml(s: Settings, header: bool) returns (text: string)
    requires Normal(s).Node?
    ensures text == WithDocs(s, header)
    ensures InScope(s) && LooksRight(Normal(s)) ==> text == Join(Documented(Document(Normal(s), header)))
  {
    text := ToYamlString(s, Rendered(s, header));
    if InScope(s) {
      RenderedLines(s, header);
      DocumentedExactly(s, header);
    }
  }

  lemma DocumentFits(s: Settings, header: bool)
    requires InScope(s)
    ensures AllFit(Document(Normal(s), header))
  {
    var t := Normal(s);
    EntriesFit(t.entries, 0, false);
    MarkersFit();
    hide LineFits, EntryLines, InScope;
  }

  lemma MarkersFit()
    ensures LineFits(Line("---", 0, [])) && LineFits(Line("{}", 0, []))
  {
  }

  lemma {:induction false} TextsFit(lines: seq<Line>)
    requires AllFit(lines)
    ensures forall i :: 0 <= i < |lines| ==>
      Texts(lines)[i] == lines[i].text && IsOneLine(Texts(lines)[i]) && !IsComment(Texts(lines)[i])
  {
    hide IsComment, IsOneLine, KindOf, NameColumn;
    if lines != [] {
      TextsFit(lines[1..]);
      assert LineFits(lines[0]);
    }
  }

  /** Splitting the rendering gives back the lines of the layout. */
  lemma RenderedLines(s: Settings, header: bool)
    requires InScope(s)
    ensures Lines(Rendered(s, header)) == Texts(Document(Normal(s), header))
  {
    DocumentFits(s, header);
    TextsFit(Document(Normal(s), header));
    LinesOfJoin(Texts(Document(Normal(s), header)));
  }

  // ---- which docs are printed ----------------------------------------------------------------------------

  /** Wherever the annotator looks in the tree, the docs it finds are printed as comments only. */
  ghost predicate FindsOnlyComments(t: Tree)
    requires t.Node?
  {
    forall p, j :: p != [] && Some(p) in EntriesShown(t.entries, [], 0, false).paths && 0 <= j < |DocsAt(t, p)| ==>
      PrintsAsComment(DocsAt(t, p)[j])
  }

  lemma LookedInDocument(s: Settings, header: bool)
    requires InScope(s)
    ensures var t := Normal(s);
            var paths := Looked(Texts(Document(t, header)), START);
            forall p :: Some(p) in paths <==> Some(p) in EntriesShown(t.entries, [], 0, false).paths
  {
    hide Looked, Texts, EntryLines, EntriesShown, Normal, Flattenable, Distinct, Printable;
    var t := Normal(s);
    LookedInTree(t);
    HeaderLooks(Document(t, false));
    assert Document(t, true) == [Line("---", 0, [])] + Document(t, false);
  }

  lemma LookedInTree(t: Tree)
    requires t.Node? && Printable(t)
    ensures forall p :: Some(p) in Looked(Texts(Document(t, false)), START) <==>
                        Some(p) in EntriesShown(t.entries, [], 0, false).paths
  {
    EntriesFollow(t.entries, [], false, START);
    hide Moved, KindOf, EntryLines, EntriesShown, Looked, Texts;
    EmptyLooks();
    assert Document(t, false) == if t.entries == [] then [Line("{}", 0, [])] else EntryLines(t.entries, 0, false);
  }

  lemma HeaderLooks(lines: seq<Line>)
    ensures Looked(Texts([Line("---", 0, [])] + lines), START) == [None] + Looked(Texts(lines), START)
  {
    hide Moved, KindOf;
    HeaderMovesNothing();
    HeaderTexts(lines);
    var texts := ["---"] + Texts(lines);
    assert texts[1..] == Texts(lines);
  }

  lemma EmptyLooks()
    ensures Looked(Texts([Line("{}", 0, [])]), START) == [None] && EntriesShown([], [], 0, false).paths == []
  {
    var line := [Line("{}", 0, [])];
    assert line[1..] == [];
    assert Texts(line) == ["{}"] && ["{}"][1..] == [];
  }

  lemma FindsIffPrints(s: Settings, header: bool)
    requires InScope(s)
    ensures FindsOnlyComments(Normal(s)) <==>
            PrintsOnlyComments(AddedDocs(s, [], map[]), Looked(Texts(Document(Normal(s), header)), START))
  {
    hide AddedDocs, Normal, EntryLines, EntriesShown, Texts, Flattenable, Distinct, Printable, DocsAt, PrintsAsComment;
    var t := Normal(s);
    var docs, paths := AddedDocs(s, [], map[]), Looked(Texts(Document(t, header)), START);
    LookedInDocument(s, header);
    ShownPathsNonEmpty(t.entries, [], 0, false);
    forall p | Some(p) in paths ensures p != [] && LookedDocs(docs, Some(p)) == DocsAt(t, p) {
      TableIsTree(s, p);
    }
    if FindsOnlyComments(t) {
      FindsForward(t, docs, paths);
    }
    if PrintsOnlyComments(docs, paths) {
      FindsBackward(t, docs, paths);
    }
  }

  lemma FindsForward(t: Tree, docs: Docs, paths: seq<Option<Path>>)
    requires t.Node? && FindsOnlyComments(t)
    requires forall p :: Some(p) in paths ==>
      p != [] && LookedDocs(docs, Some(p)) == DocsAt(t, p) && Some(p) in EntriesShown(t.entries, [], 0, false).paths
    ensures PrintsOnlyComments(docs, paths)
  {
  }

  lemma FindsBackward(t: Tree, docs: Docs, paths: seq<Option<Path>>)
    requires t.Node? && PrintsOnlyComments(docs, paths)
    requires forall p :: Some(p) in EntriesShown(t.entries, [], 0, false).paths ==>
      p != [] && LookedDocs(docs, Some(p)) == DocsAt(t, p) && Some(p) in paths
    ensures FindsOnlyComments(t)
  {
    forall p, j | p != [] && Some(p) in EntriesShown(t.entries, [], 0, false).paths && 0 <= j < |DocsAt(t, p)|
      ensures PrintsAsComment(DocsAt(t, p)[j])
    {
      var i :| 0 <= i < |paths| && paths[i] == Some(p);
      assert PrintsAsComment(LookedDocs(docs, paths[i])[j]);
    }
  }

  /**
   Deleting the comment lines of the documented text gives back the lines the
   serializer printed if and only if no doc that is printed has a line of its own
   that is not a comment.
   */
  lemma CommentsCanBeDeleted(s: Settings, header: bool)
    requires InScope(s)
    ensures WithoutComments(Lines(WithDocs(s, header))) == Lines(Rendered(s, header)) <==> FindsOnlyComments(Normal(s))
  {
    hide Annotated, AddedDocs, Texts, Document, Flattenable, Printable, Distinct, Normal, WithoutComments, Lines,
      IsComment, IsOneLine, Looked, FindsOnlyComments, PrintsOnlyComments;
    var lines := Document(Normal(s), header);
    RenderedLines(s, header);
    DocumentFits(s, header);
    TextsFit(lines);
    OnlyCommentsAreAdded(AddedDocs(s, [], map[]), Texts(lines), START);
    FindsIffPrints(s, header);
  }

  /** `ok` holds of every doc in the tree. */
  predicate EveryDoc(t: Tree, ok: string -> bool)
    decreases t
  {
    match t
    case Leaf(_) => true
    case Node(entries) => EveryDocIn(entries, ok)
    case Items(items) => forall i :: 0 <= i < |items| ==> EveryDoc(items[i], ok)
  }

  predicate EveryDocIn(entries: seq<Entry>, ok: string -> bool)
    decreases entries
  {
    forall i :: 0 <= i < |entries| ==>
      && (forall j :: 0 <= j < |entries[i].docs| ==> ok(entries[i].docs[j]))
      && EveryDoc(entries[i].tree, ok)
  }

  predicate HasNoNewline(doc: string) { '\n' !in doc }

  lemma {:induction false} FoundDocsAreOk(t: Tree, ok: string -> bool, path: Path)
    requires EveryDoc(t, ok) && path != []
    ensures forall j :: 0 <= j < |DocsAt(t, path)| ==> ok(DocsAt(t, path)[j])
    decreases t
  {
    match t
    case Leaf(_) =>
    case Node(entries) => FoundInEntries(entries, ok, path);
    case Items(items) => FoundInItems(items, ok, 0, path);
  }

  lemma {:induction false} FoundInEntries(entries: seq<Entry>, ok: string -> bool, path: Path)
    requires EveryDocIn(entries, ok) && path != []
    ensures forall j :: 0 <= j < |DocsIn(entries, path)| ==> ok(DocsIn(entries, path)[j])
    decreases entries
  {
    if entries != [] {
      if entries[0].name != path[0] {
        FoundInEntries(entries[1..], ok, path);
      } else if |path| > 1 {
        FoundDocsAreOk(entries[0].tree, ok, path[1..]);
      }
    }
  }

  lemma {:induction false} FoundInItems(items: seq<Tree>, ok: string -> bool, i: nat, path: Path)
    requires path != [] && forall k :: 0 <= k < |items| ==> EveryDoc(items[k], ok)
    ensures forall j :: 0 <= j < |DocsInItem(items, i, path)| ==> ok(DocsInItem(items, i, path)[j])
    decreases items
  {
    if items != [] {
      if TextItems.Decimal(i) != path[0] {
        FoundInItems(items[1..], ok, i + 1, path);
      } else if |path| > 1 {
        FoundDocsAreOk(items[0], ok, path[1..]);
      }
    }
  }

  lemma {:induction false} ShownDocsAreOk(entries: seq<Entry>, ok: string -> bool, depth: nat, item: bool)
    requires EveryDocIn(entries, ok)
    ensures AllDocs(EntryLines(entries, depth, item), ok)
    decreases entries
  {
    hide FieldHead;
    if entries != [] {
      HeadDocs(entries[0], depth, item);
      BelowDocsAreOk(entries[0].tree, ok, depth + 1);
      ShownDocsAreOk(entries[1..], ok, depth, false);
    }
  }

  predicate AllDocs(lines: seq<Line>, ok: string -> bool) {
    forall i, j :: 0 <= i < |lines| && 0 <= j < |lines[i].docs| ==> ok(lines[i].docs[j])
  }

  lemma {:induction false} BelowDocsAreOk(t: Tree, ok: string -> bool, depth: nat)
    requires EveryDoc(t, ok)
    ensures AllDocs(Below(t, depth), ok)
    decreases t
  {
    match t
    case Leaf(_) =>
    case Node(entries) => ShownDocsAreOk(entries, ok, depth, false);
    case Items(items) => ItemDocsAreOk(items, ok, depth);
  }

  lemma {:induction false} ItemDocsAreOk(items: seq<Tree>, ok: string -> bool, depth: nat)
    requires forall k :: 0 <= k < |items| ==> EveryDoc(items[k], ok)
    ensures AllDocs(ItemLines(items, depth), ok)
    decreases items
  {
    if items != [] {
      if items[0].Node? && items[0].entries != [] {
        ShownDocsAreOk(items[0].entries, ok, depth + 1, true);
      } else {
        InlineHasNoDocs(items[0], depth);
      }
      ItemDocsAreOk(items[1..], ok, depth);
    }
  }

  lemma DocumentDocsAreOk(t: Tree, ok: string -> bool, header: bool)
    requires t.Node? && EveryDoc(t, ok)
    ensures AllDocs(Document(t, header), ok)
  {
    ShownDocsAreOk(t.entries, ok, 0, false);
    hide EntryLines;
  }

  /** One-line docs, as line comments are, never get in the way. */
  lemma OneLineDocsCanBeDeleted(s: Settings, header: bool)
    requires InScope(s) && EveryDoc(Normal(s), HasNoNewline)
    ensures WithoutComments(Lines(WithDocs(s, header))) == Lines(Rendered(s, header))
  {
    hide WithDocs, Rendered, Flattenable, Printable, Distinct, Normal, EveryDoc, Lines, WithoutComments;
    var t := Normal(s);
    CommentsCanBeDeleted(s, header);
    forall p, j | p != [] && Some(p) in EntriesShown(t.entries, [], 0, false).paths && 0 <= j < |DocsAt(t, p)|
      ensures PrintsAsComment(DocsAt(t, p)[j])
    {
      FoundDocsAreOk(t, HasNoNewline, p);
      assert HasNoNewline(DocsAt(t, p)[j]);
    }
  }

  // ---- a doc that is no comment ----------------------------------------------------------------------------

  /** A field with a block comment of two lines. */
  function BlockComment(): Settings {
    Struct([Member("a", ["x\ny"], false, Plain("0"))])
  }

  lemma BlockCommentTree()
    ensures Normal(BlockComment()) == Node([Entry("a", ["x\ny"], Leaf("0"))]) && InScope(BlockComment())
  {
    assert BlockComment().members[1..] == [];
    assert MemberEntries(BlockComment().members) == [Entry("a", ["x\ny"], Leaf("0"))];
  }

  lemma BlockCommentIsFound()
    ensures !FindsOnlyComments(Node([Entry("a", ["x\ny"], Leaf("0"))]))
  {
    hide PrintsAsComment;
    var entries := [Entry("a", ["x\ny"], Leaf("0"))];
    var empty, path: Path := [], ["a"];
    assert entries[1..] == [] && empty + ["a"] == path;
    assert EntriesShown(entries, empty, 0, false).paths == [Some(path)];
    SecondLineIsNoComment();
    assert !PrintsAsComment(DocsAt(Node(entries), path)[0]);
  }

  /** The second line of a block comment is printed as it is, and stays when the comments are deleted. */
  lemma BlockCommentCannotBeDeleted(header: bool)
    ensures InScope(BlockComment())
    ensures WithoutComments(Lines(WithDocs(BlockComment(), header))) != Lines(Rendered(BlockComment(), header))
  {
    hide WithDocs, Rendered, FindsOnlyComments, InScope, Normal, Lines, WithoutComments;
    BlockCommentTree();
    BlockCommentIsFound();
    CommentsCanBeDeleted(BlockComment(), header);
  }

  lemma SecondLineIsNoComment()
    ensures !PrintsAsComment("x\ny")
  {
    var doc := "x\ny";
    NewlineAfter("x", "y");
    assert "x" + "\n" + "y" == doc;
    LinesCons("y", "");
    assert "y" + "\n" + "" == "y" + "\n";
    assert Continuations(doc) == ["y"];
    assert !IsComment("y");
    assert !IsComment(Continuations(doc)[0]);
  }

  // ---- when the text is the documented text ------------------------------------------------------------------

  /** Line by line, the comments printed and those that should be are the same text. */
  ghost predicate SameComments(docs: Docs, lines: seq<Line>, paths: seq<Option<Path>>)
    requires |paths| == |lines|
  {
    forall i :: 0 <= i < |lines| ==>
      Join(Comments(LookedDocs(docs, paths[i]), lines[i].column)) == Join(Comments(lines[i].docs, lines[i].column))
  }

  lemma TextChunksOneWay(a: string, b: string, line: string, x: string, y: string)
    requires EndsLine(a) && EndsLine(b) && WithoutComments(Lines(a)) == [] && WithoutComments(Lines(b)) == []
    requires IsOneLine(line) && !IsComment(line)
    requires a + (line + "\n" + x) == b + (line + "\n" + y)
    ensures a == b && x == y
  {
    hide IsComment, Lines, WithoutComments, EndsLine, WithoutCr;
    var tx, ty := line + "\n" + x, line + "\n" + y;
    LinesAppend(a, tx);
    LinesAppend(b, ty);
    LinesCons(line, x);
    LinesCons(line, y);
    FirstNonComment(Lines(a), Lines(b), line, Lines(x), Lines(y));
    SameBeginning(a, b, tx, ty);
    NewlineAfter(line, x);
    NewlineAfter(line, y);
  }

  /** Comments, then a line that is none: in text too, both parts can be recovered. */
  lemma TextChunksEqual(a: string, b: string, line: string, x: string, y: string)
    requires EndsLine(a) && EndsLine(b) && WithoutComments(Lines(a)) == [] && WithoutComments(Lines(b)) == []
    requires IsOneLine(line) && !IsComment(line)
    ensures a + line + "\n" + x == b + line + "\n" + y <==> a == b && x == y
  {
    hide IsComment, Lines, WithoutComments, EndsLine, IsOneLine;
    assert a + line + "\n" + x == a + (line + "\n" + x);
    assert b + line + "\n" + y == b + (line + "\n" + y);
    if a + line + "\n" + x == b + line + "\n" + y {
      TextChunksOneWay(a, b, line, x, y);
    }
  }

  lemma FirstNonComment(a: seq<string>, b: seq<string>, line: string, x: seq<string>, y: seq<string>)
    requires WithoutComments(a) == [] && WithoutComments(b) == [] && !IsComment(line)
    requires a + ([line] + x) == b + ([line] + y)
    ensures |a| == |b|
  {
    hide IsComment;
    var left, right := a + ([line] + x), b + ([line] + y);
    assert left[|a|] == line && right[|b|] == line;
    assert forall i :: 0 <= i < |a| ==> left[i] == a[i];
    assert forall i :: 0 <= i < |b| ==> right[i] == b[i];
  }

  lemma PrintedAreComments(docs: seq<string>, column: nat)
    requires forall i :: 0 <= i < |docs| ==> PrintsAsComment(docs[i])
    ensures EndsLine(Join(Comments(docs, column))) && WithoutComments(Lines(Join(Comments(docs, column)))) == []
  {
    JoinEndsLine(Comments(docs, column));
    PrintedComments(docs, column);
  }

  lemma {:induction false} WovenTextIsDocumented(docs: Docs, lines: seq<Line>, paths: seq<Option<Path>>)
    requires |paths| == |lines| && AllFit(lines)
    requires PrintsOnlyComments(docs, paths) && AllDocs(lines, PrintsAsComment)
    ensures Join(Woven(docs, lines, paths)) == Join(Documented(lines)) <==> SameComments(docs, lines, paths)
  {
    hide LookedDocs, LineFits, Comments, PrintsAsComment, PrintsOnlyComments, Lines, WithoutComments, IsOneLine;
    if lines != [] {
      var line := lines[0];
      PrintsOnlyCommentsSplits(docs, paths);
      assert AllDocs(lines[1..], PrintsAsComment);
      WovenTextIsDocumented(docs, lines[1..], paths[1..]);
      assert LineFits(line);
      FitsIsOneLine(line);
      var found := LookedDocs(docs, paths[0]);
      var x, y := Woven(docs, lines[1..], paths[1..]), Documented(lines[1..]);
      PrintedAreComments(found, line.column);
      PrintedAreComments(line.docs, line.column);
      JoinAround(Comments(found, line.column), line.text, x);
      JoinAround(Comments(line.docs, line.column), line.text, y);
      TextChunksEqual(
        Join(Comments(found, line.column)), Join(Comments(line.docs, line.column)), line.text, Join(x), Join(y));
      SameCommentsSplits(docs, lines, paths);
    }
  }

  lemma FitsIsOneLine(line: Line)
    requires LineFits(line)
    ensures IsOneLine(line.text) && !IsComment(line.text)
  {
  }

  lemma SameCommentsSplits(docs: Docs, lines: seq<Line>, paths: seq<Option<Path>>)
    requires |paths| == |lines| && lines != []
    ensures SameComments(docs, lines, paths) <==>
            && Join(Comments(LookedDocs(docs, paths[0]), lines[0].column))
               == Join(Comments(lines[0].docs, lines[0].column))
            && SameComments(docs, lines[1..], paths[1..])
  {
    hide LookedDocs, Comments, Join;
    assert forall i :: 0 < i < |lines| ==> lines[i] == lines[1..][i - 1] && paths[i] == paths[1..][i - 1];
  }

  /**
   In text: if no doc has a continuation line that is not a comment, the printed
   text is the documented text if and only if each line has the comments it should.
   */
  lemma TextIsDocumented(s: Settings, header: bool)
    requires InScope(s) && EveryDoc(Normal(s), PrintsAsComment)
    ensures var lines := Document(Normal(s), header);
            WithDocs(s, header) == Join(Documented(lines)) <==>
            SameComments(AddedDocs(s, [], map[]), lines, Looked(Texts(lines), START))
  {
    hide AddedDocs, Texts, Document, Flattenable, Printable, Distinct, Normal, Lines, Looked, EveryDoc, Woven,
      Documented, Annotated, PrintsOnlyComments, SameComments, EntriesShown, DocsAt, PrintsAsComment;
    var t := Normal(s);
    var docs, lines := AddedDocs(s, [], map[]), Document(t, header);
    RenderedLines(s, header);
    DocumentFits(s, header);
    AnnotatedIsWoven(docs, lines, START);
    DocumentDocsAreOk(t, PrintsAsComment, header);
    forall p, j | p != [] && Some(p) in EntriesShown(t.entries, [], 0, false).paths && 0 <= j < |DocsAt(t, p)|
      ensures PrintsAsComment(DocsAt(t, p)[j])
    {
      FoundDocsAreOk(t, PrintsAsComment, p);
    }
    FindsIffPrints(s, header);
    WovenTextIsDocumented(docs, lines, Looked(Texts(lines), START));
  }

  lemma OneLineCommentsInjective(a: seq<string>, b: seq<string>, column: nat)
    requires forall i :: 0 <= i < |a| ==> HasNoNewline(a[i])
    requires forall i :: 0 <= i < |b| ==> HasNoNewline(b[i])
    requires Join(Comments(a, column)) == Join(Comments(b, column))
    ensures a == b
  {
    hide IsComment, Comments, Join;
    CommentsAreComments(a, column);
    CommentsAreComments(b, column);
    forall i | 0 <= i < |a| ensures '\n' !in Comments(a, column)[i] {
      assert HasNoNewline(a[i]);
    }
    forall i | 0 <= i < |b| ensures '\n' !in Comments(b, column)[i] {
      assert HasNoNewline(b[i]);
    }
    JoinInjective(Comments(a, column), Comments(b, column));
    CommentsInjective(a, b, column);
  }

  lemma OneLineIsComment(t: Tree)
    requires EveryDoc(t, HasNoNewline)
    ensures EveryDoc(t, PrintsAsComment)
    decreases t
  {
    match t
    case Leaf(_) =>
    case Node(entries) =>
      forall i | 0 <= i < |entries|
        ensures forall j :: 0 <= j < |entries[i].docs| ==> PrintsAsComment(entries[i].docs[j])
        ensures EveryDoc(entries[i].tree, PrintsAsComment)
      {
        assert forall j :: 0 <= j < |entries[i].docs| ==> HasNoNewline(entries[i].docs[j]);
        OneLineIsComment(entries[i].tree);
      }
    case Items(items) =>
      forall i | 0 <= i < |items| ensures EveryDoc(items[i], PrintsAsComment) {
        OneLineIsComment(items[i]);
      }
  }

  lemma SameCommentsAreSameDocs(docs: Docs, lines: seq<Line>, paths: seq<Option<Path>>)
    requires |paths| == |lines| && AllDocs(lines, HasNoNewline)
    requires forall i, j :: 0 <= i < |paths| && 0 <= j < |LookedDocs(docs, paths[i])| ==>
      HasNoNewline(LookedDocs(docs, paths[i])[j])
    ensures SameComments(docs, lines, paths) <==> DocsMatch(docs, lines, paths)
  {
    hide LookedDocs, Comments, Join;
    if SameComments(docs, lines, paths) {
      forall i | 0 <= i < |lines| ensures LookedDocs(docs, paths[i]) == lines[i].docs {
        assert forall j :: 0 <= j < |lines[i].docs| ==> HasNoNewline(lines[i].docs[j]);
        OneLineCommentsInjective(LookedDocs(docs, paths[i]), lines[i].docs, lines[i].column);
      }
    }
  }

  /**
   For settings with one-line docs, as line comments are: the printed text is the
   documented text if and only if the annotator looks right all along the tree.
   */
  lemma TextIsDocumentedExactly(s: Settings, header: bool)
    requires InScope(s) && EveryDoc(Normal(s), HasNoNewline)
    ensures WithDocs(s, header) == Join(Documented(Document(Normal(s), header))) <==> LooksRight(Normal(s))
  {
    hide AddedDocs, Texts, Document, Flattenable, Printable, Distinct, Normal, Lines, Looked, EveryDoc, Join,
      Documented, Annotated, SameComments, EntriesShown, DocsAt, WithDocs, LooksRight, DocsMatch;
    var t := Normal(s);
    var docs, lines := AddedDocs(s, [], map[]), Document(t, header);
    var paths := Looked(Texts(lines), START);
    OneLineIsComment(t);
    TextIsDocumented(s, header);
    DocumentDocsAreOk(t, HasNoNewline, header);
    LookedInDocument(s, header);
    ShownPathsNonEmpty(t.entries, [], 0, false);
    forall i, j | 0 <= i < |paths| && 0 <= j < |LookedDocs(docs, paths[i])|
      ensures HasNoNewline(LookedDocs(docs, paths[i])[j])
    {
      assert Some(paths[i].value) in paths;
      TableIsTree(s, paths[i].value);
      FoundDocsAreOk(t, HasNoNewline, paths[i].value);
    }
    SameCommentsAreSameDocs(docs, lines, paths);
    DocumentFits(s, header);
    AnnotatedIsWoven(docs, lines, START);
    WovenIsDocumented(docs, lines, paths);
    DocumentedExactly(s, header);
  }
}
