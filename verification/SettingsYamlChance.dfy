/** Docs that put lines of YAML into the text can make up for docs that are lost. */
module SettingsYamlChance {
  import opened Base
  import opened YamlLines
  import opened SettingsDocs
  import opened SettingsYaml
  import opened SettingsYamlExact
  import opened SettingsYamlText
  import opened SettingsYamlLists
  import TextItems

  const LONG_DOC: string := "x\n  - a: 0\n    #y"
  const LATE_DOC: string := "y\n  - a: 0"

  function Pair(aDocs: seq<string>, bDocs: seq<string>): Settings {
    Struct([Member("a", aDocs, false, Plain("0")), Member("b", bDocs, false, Plain("0"))])
  }

  function PairEntries(aDocs: seq<string>, bDocs: seq<string>): seq<Entry> {
    [Entry("a", aDocs, Leaf("0")), Entry("b", bDocs, Leaf("0"))]
  }

  /** Two records with different docs; the second is looked up as the first. */
  function TwoPairs(): Settings {
    Struct([Member("l", [], false, Sequence([Pair([LONG_DOC], []), Pair(["x"], [LATE_DOC])]))])
  }

  function PairTrees(): seq<Tree> {
    [Node(PairEntries([LONG_DOC], [])), Node(PairEntries(["x"], [LATE_DOC]))]
  }

  function TwoPairsTree(): Tree { Node([Entry("l", [], Items(PairTrees()))]) }

  lemma PairTree(aDocs: seq<string>, bDocs: seq<string>)
    ensures Normal(Pair(aDocs, bDocs)) == Node(PairEntries(aDocs, bDocs))
    ensures Flattenable(Pair(aDocs, bDocs))
    ensures Printable(Node(PairEntries(aDocs, bDocs))) && Distinct(Node(PairEntries(aDocs, bDocs)))
  {
    var members := Pair(aDocs, bDocs).members;
    assert members[1..] == [members[1]] && members[1..][1..] == [];
    assert MemberEntries(members[1..]) == [Entry("b", bDocs, Leaf("0"))];
    assert MemberEntries(members) == PairEntries(aDocs, bDocs);
  }

  lemma TwoPairsInScope()
    ensures Normal(TwoPairs()) == TwoPairsTree() && InScope(TwoPairs())
  {
    var first, second := Pair([LONG_DOC], []), Pair(["x"], [LATE_DOC]);
    PairTree([LONG_DOC], []);
    PairTree(["x"], [LATE_DOC]);
    NormalOfTwo(first, second);
    assert Normal(Sequence([first, second])) == Items(PairTrees());
    hide PairEntries, Pair;
    OneField("l", [], Sequence([first, second]));
    OneMember("l", [], Sequence([first, second]));
  }

  const A_LINE: string := "  - a: 0"
  const B_LINE: string := "    b: 0"

  lemma PairLines(aDocs: seq<string>, bDocs: seq<string>)
    ensures EntryLines(PairEntries(aDocs, bDocs), 2, true) == [Line(A_LINE, 4, aDocs), Line(B_LINE, 4, bDocs)]
  {
    var entries := PairEntries(aDocs, bDocs);
    assert entries[1..] == [entries[1]] && entries[1..][1..] == [];
    assert Spaces(2) + ITEM_PREFIX + "a" + ":" + " 0" == A_LINE;
    assert Spaces(4) + "b" + ":" + " 0" == B_LINE;
    assert Inline(Leaf("0")) == " 0";
    assert FieldHead(entries[0], 2, true) == Line(A_LINE, 4, aDocs);
    assert FieldHead(entries[1], 2, false) == Line(B_LINE, 4, bDocs);
    hide FieldHead;
    assert Below(Leaf("0"), 3) == [] && EntryLines(entries[1..][1..], 2, false) == [];
    assert EntryLines(entries[1..], 2, false) == [Line(B_LINE, 4, bDocs)];
  }

  lemma TwoPairsLines()
    ensures EntryLines(TwoPairsTree().entries, 0, false)
         == [Line("l:", 0, []), Line(A_LINE, 4, [LONG_DOC]), Line(B_LINE, 4, []),
             Line(A_LINE, 4, ["x"]), Line(B_LINE, 4, [LATE_DOC])]
  {
    PairLines([LONG_DOC], []);
    PairLines(["x"], [LATE_DOC]);
    hide PairEntries;
    var items, entries := PairTrees(), TwoPairsTree().entries;
    assert PairEntries([LONG_DOC], []) != [] && PairEntries(["x"], [LATE_DOC]) != [] by {
      PairsAreNotEmpty();
    }
    assert items[1..] == [items[1]] && items[1..][1..] == [];
    assert ItemLines(items[1..], 1) == [Line(A_LINE, 4, ["x"]), Line(B_LINE, 4, [LATE_DOC])];
    assert entries[1..] == [];
    assert Spaces(0) + "l" + ":" + "" == "l:";
    assert Below(Items(items), 1) == ItemLines(items, 1);
  }

  lemma PairsAreNotEmpty()
    ensures forall a, b :: PairEntries(a, b) != []
  {
  }

  lemma PairPaths(aDocs: seq<string>, bDocs: seq<string>, path: Path)
    ensures EntriesShown(PairEntries(aDocs, bDocs), path, 0, true) == Shown([Some(path + ["a"]), Some(path + ["b"])], 0)
  {
    var entries := PairEntries(aDocs, bDocs);
    assert entries[1..] == [entries[1]] && entries[1..][1..] == [];
    assert EntriesShown(entries[1..], path, 1, false) == Shown([Some(path + ["b"])], 0);
  }

  lemma TwoPairsPaths(zero: string)
    requires zero == TextItems.Decimal(0)
    ensures EntriesShown(TwoPairsTree().entries, [], 0, false).paths
         == [Some(["l"]), Some(["l", zero, "a"]), Some(["l", zero, "b"]),
             Some(["l", zero, "a"]), Some(["l", zero, "b"])]
  {
    hide TextItems.Decimal;
    var here := ["l"] + [zero];
    PairPaths([LONG_DOC], [], here);
    PairPaths(["x"], [LATE_DOC], here);
    PairsAreNotEmpty();
    hide PairEntries;
    var items, entries := PairTrees(), TwoPairsTree().entries;
    var empty: Path := [];
    assert empty + ["l"] == ["l"] && here + ["a"] == ["l", zero, "a"] && here + ["b"] == ["l", zero, "b"];
    assert items[1..] == [items[1]] && items[1..][1..] == [] && entries[1..] == [];
    assert ItemsShown(items[1..], ["l"], 0) == Shown([Some(["l", zero, "a"]), Some(["l", zero, "b"])], 0);
    assert BelowShown(Items(items), ["l"], 0) == ItemsShown(items, ["l"], 0);
    assert EntriesShown(entries[1..], empty, 0, false) == Shown([], 0);
  }

  lemma FoundInFirst(zero: string)
    requires zero == TextItems.Decimal(0)
    ensures DocsAt(TwoPairsTree(), ["l"]) == []
    ensures DocsAt(TwoPairsTree(), ["l", zero, "a"]) == [LONG_DOC] && DocsAt(TwoPairsTree(), ["l", zero, "b"]) == []
  {
    var first := PairTrees()[0];
    assert first.entries[1..][0] == first.entries[1];
    assert DocsIn(first.entries, ["b"]) == DocsIn(first.entries[1..], ["b"]) == [];
    assert DocsAt(first, ["a"]) == [LONG_DOC] && DocsAt(first, ["b"]) == [];
    hide PairEntries;
    assert ["l", zero, "a"][1..] == [zero, "a"] && [zero, "a"][1..] == ["a"];
    assert ["l", zero, "b"][1..] == [zero, "b"] && [zero, "b"][1..] == ["b"];
    assert DocsInItem(PairTrees(), 0, [zero, "a"]) == DocsAt(first, ["a"]);
    assert DocsInItem(PairTrees(), 0, [zero, "b"]) == DocsAt(first, ["b"]);
    assert DocsAt(Items(PairTrees()), [zero, "a"]) == [LONG_DOC] && DocsAt(Items(PairTrees()), [zero, "b"]) == [];
  }

  // ---- the same text by chance ---------------------------------------------------------------------

  function Found(): seq<Line> {
    [Line("l:", 0, []), Line(A_LINE, 4, [LONG_DOC]), Line(B_LINE, 4, []),
     Line(A_LINE, 4, [LONG_DOC]), Line(B_LINE, 4, [])]
  }

  function Wanted(): seq<Line> {
    [Line("l:", 0, []), Line(A_LINE, 4, [LONG_DOC]), Line(B_LINE, 4, []),
     Line(A_LINE, 4, ["x"]), Line(B_LINE, 4, [LATE_DOC])]
  }

  lemma OneComment(doc: string)
    ensures Comments([doc], 4) == ["    #" + doc] && Comments([], 4) == []
  {
    assert [doc][1..] == [];
    assert Spaces(4) + "#" + doc == "    #" + doc;
  }

  lemma LastTwo(aDocs: seq<string>, bDocs: seq<string>)
    ensures Documented([Line(A_LINE, 4, aDocs), Line(B_LINE, 4, bDocs)])
         == Comments(aDocs, 4) + [A_LINE] + (Comments(bDocs, 4) + [B_LINE])
  {
    var lines := [Line(A_LINE, 4, aDocs), Line(B_LINE, 4, bDocs)];
    assert lines[1..] == [Line(B_LINE, 4, bDocs)] && lines[1..][1..] == [];
    assert Documented(lines[1..]) == Comments(bDocs, 4) + [B_LINE] + [];
  }

  lemma JoinOfTwo(a: string, b: string)
    ensures Join([a, b]) == a + "\n" + b + "\n"
  {
    assert [a, b][1..] == [b] && [b][1..] == [];
    assert Join([b]) == b + "\n" + "" == b + "\n";
    assert Join([a, b]) == a + "\n" + (b + "\n");
  }

  lemma TextOfOneComment(doc: string)
    ensures Join(Documented([Line(A_LINE, 4, [doc]), Line(B_LINE, 4, [])]))
         == "    #" + doc + "\n" + A_LINE + "\n" + (B_LINE + "\n")
  {
    LastTwo([doc], []);
    OneComment(doc);
    hide Comments, Documented;
    var long := "    #" + doc;
    assert [long] + [A_LINE] + ([] + [B_LINE]) == [long, A_LINE] + [B_LINE];
    JoinAppend([long, A_LINE], [B_LINE]);
    JoinOfTwo(long, A_LINE);
    assert [B_LINE][1..] == [];
    assert Join([B_LINE]) == B_LINE + "\n" + "";
  }

  lemma TextOfTwoComments(doc: string, late: string)
    ensures Join(Documented([Line(A_LINE, 4, [doc]), Line(B_LINE, 4, [late])]))
         == "    #" + doc + "\n" + A_LINE + "\n" + ("    #" + late + "\n" + B_LINE + "\n")
  {
    LastTwo([doc], [late]);
    OneComment(doc);
    OneComment(late);
    hide Comments, Documented;
    var first, second := "    #" + doc, "    #" + late;
    assert [first] + [A_LINE] + ([second] + [B_LINE]) == [first, A_LINE] + [second, B_LINE];
    JoinAppend([first, A_LINE], [second, B_LINE]);
    JoinOfTwo(first, A_LINE);
    JoinOfTwo(second, B_LINE);
  }

  lemma Regroup(x: string, y: string, mark: string, a: string, b: string)
    ensures mark + (x + "\n" + a + "\n" + mark + y) + "\n" + a + "\n" + (b + "\n")
         == mark + x + "\n" + a + "\n" + (mark + (y + "\n" + a) + "\n" + b + "\n")
  {
  }

  lemma DocsInParts()
    ensures LONG_DOC == "x" + "\n" + A_LINE + "\n" + "    #" + "y" && LATE_DOC == "y" + "\n" + A_LINE
  {
  }

  /** The long doc prints the line and the comment that the two wanted docs print. */
  lemma SameTail()
    ensures Join(Documented([Line(A_LINE, 4, [LONG_DOC]), Line(B_LINE, 4, [])]))
         == Join(Documented([Line(A_LINE, 4, ["x"]), Line(B_LINE, 4, [LATE_DOC])]))
  {
    hide Join, Documented;
    TextOfOneComment(LONG_DOC);
    TextOfTwoComments("x", LATE_DOC);
    DocsInParts();
    Regroup("x", "y", "    #", A_LINE, B_LINE);
  }

  lemma SameTexts()
    ensures Join(Documented(Found())) == Join(Documented(Wanted()))
  {
    SameTail();
    SameAfter(Found(), Wanted());
    SameAfter(Found()[1..], Wanted()[1..]);
    SameAfter(Found()[2..], Wanted()[2..]);
    assert Found()[1..][1..] == Found()[2..] && Found()[2..][1..] == Found()[3..];
    assert Wanted()[1..][1..] == Wanted()[2..] && Wanted()[2..][1..] == Wanted()[3..];
  }

  lemma SameAfter(a: seq<Line>, b: seq<Line>)
    requires a != [] && b != [] && a[0] == b[0]
    ensures Join(Documented(a[1..])) == Join(Documented(b[1..])) ==> Join(Documented(a)) == Join(Documented(b))
  {
    JoinAppend(Comments(a[0].docs, a[0].column) + [a[0].text], Documented(a[1..]));
    JoinAppend(Comments(b[0].docs, b[0].column) + [b[0].text], Documented(b[1..]));
  }

  lemma {:induction false} WovenAsFound(docs: Docs, lines: seq<Line>, paths: seq<Option<Path>>, found: seq<Line>)
    requires |lines| == |paths| == |found|
    requires forall i :: 0 <= i < |lines| ==>
      found[i] == lines[i].(docs := LookedDocs(docs, paths[i]))
    ensures Woven(docs, lines, paths) == Documented(found)
  {
    hide LookedDocs, Comments;
    if lines != [] {
      WovenAsFound(docs, lines[1..], paths[1..], found[1..]);
    }
  }

  lemma FoundIsWoven(docs: Docs, zero: string)
    requires zero == TextItems.Decimal(0) && docs == AddedDocs(TwoPairs(), [], map[])
    ensures Woven(docs, Wanted(), [Some(["l"]), Some(["l", zero, "a"]), Some(["l", zero, "b"]),
                                   Some(["l", zero, "a"]), Some(["l", zero, "b"])])
         == Documented(Found())
  {
    hide AddedDocs, TextItems.Decimal, DocsAt, InScope, Normal;
    TwoPairsInScope();
    FoundInFirst(zero);
    TableIsTree(TwoPairs(), ["l"]);
    TableIsTree(TwoPairs(), ["l", zero, "a"]);
    TableIsTree(TwoPairs(), ["l", zero, "b"]);
    WovenAsFound(docs, Wanted(), [Some(["l"]), Some(["l", zero, "a"]), Some(["l", zero, "b"]),
                                  Some(["l", zero, "a"]), Some(["l", zero, "b"])], Found());
  }

  /**
   With docs that are not only comments the text can be the documented text
   although the annotator looks wrong: the doc found for one line prints what
   the doc lost at the next would have.
   */
  lemma RightTextByChance()
    ensures InScope(TwoPairs()) && !LooksRight(Normal(TwoPairs()))
    ensures WithDocs(TwoPairs(), false) == Join(Documented(Document(Normal(TwoPairs()), false)))
  {
    hide AddedDocs, TextItems.Decimal, Annotated, Documented, Join, Lines, Woven, Texts, Looked, EntryLines,
      EntriesShown, Flattenable, Printable, Distinct, LooksRight, EntriesLookRight, TwoPairsTree;
    var s, t := TwoPairs(), TwoPairsTree();
    var docs, zero := AddedDocs(s, [], map[]), TextItems.Decimal(0);
    TwoPairsInScope();
    TreeHasEntries();
    TwoPairsLines();
    TwoPairsPaths(zero);
    FoundIsWoven(docs, zero);
    SameTexts();
    var lines := EntryLines(t.entries, 0, false);
    assert lines == Wanted();
    assert Document(t, false) == lines;
    PathsAreLooked(t);
    DocumentFits(s, false);
    AnnotatedIsWoven(docs, lines, START);
    RenderedLines(s, false);
    LooksWrong(zero);
  }

  lemma TreeHasEntries()
    ensures TwoPairsTree().Node? && TwoPairsTree().entries != []
  {
  }

  lemma PathsAreLooked(t: Tree)
    requires t.Node? && Printable(t)
    ensures Looked(Texts(EntryLines(t.entries, 0, false)), START) == EntriesShown(t.entries, [], 0, false).paths
  {
    EntriesFollow(t.entries, [], false, START);
  }

  lemma LooksWrong(zero: string)
    requires zero == TextItems.Decimal(0)
    ensures !LooksRight(TwoPairsTree())
  {
    hide TextItems.Decimal, DocsAt, EntriesLookRight;
    TwoPairsLines();
    TwoPairsPaths(zero);
    FoundInFirst(zero);
    var t := TwoPairsTree();
    EntriesLookRightIs(t, t.entries, [], 0, false, 0);
    hide EntryLines, EntriesShown, TwoPairsTree;
    var paths := EntriesShown(t.entries, [], 0, false).paths;
    assert paths[4].Some? && EntryLines(t.entries, 0, false)[4].docs == [LATE_DOC];
  }
}
