/** A list of two records, printed to the letter as the repository's own test data has it. */
module SettingsYamlExample {
  import opened Base
  import opened YamlLines
  import opened SettingsDocs
  import opened SettingsYaml
  import opened SettingsYamlExact
  import opened SettingsYamlText
  import opened SettingsYamlLists

  /** The docs of the list and of a record's first two fields. */
  datatype DocTexts = DocTexts(items: string, a: string, b: string, bToo: string)

  function Record(d: DocTexts): Settings {
    Struct([
      Member("a", [d.a], false, Plain("0")),
      Member("b", [d.b, d.bToo], false, Plain("11")),
      Member("c", [], false, Plain("0"))])
  }

  function WithVec(d: DocTexts): Settings {
    Struct([Member("items", [d.items], false, Sequence([Record(d), Record(d)]))])
  }

  function RecordEntries(d: DocTexts): (entries: seq<Entry>)
    ensures entries != []
  {
    [Entry("a", [d.a], Leaf("0")), Entry("b", [d.b, d.bToo], Leaf("11")), Entry("c", [], Leaf("0"))]
  }

  function VecTree(d: DocTexts): Tree {
    Node([Entry("items", [d.items], Items([Node(RecordEntries(d)), Node(RecordEntries(d))]))])
  }

  lemma RecordFits(d: DocTexts)
    ensures var t := Node(RecordEntries(d)); Printable(t) && Distinct(t) && ListFree(t)
  {
  }

  lemma RecordIs(d: DocTexts)
    ensures Normal(Record(d)) == Node(RecordEntries(d)) && Flattenable(Record(d))
  {
    var members := Record(d).members;
    assert members[1..][1..] == [members[2]] && members[1..][1..][1..] == [];
    assert MemberEntries(members[1..][1..]) == [Entry("c", [], Leaf("0"))];
    assert MemberEntries(members[1..]) == [Entry("b", [d.b, d.bToo], Leaf("11"))] + [Entry("c", [], Leaf("0"))];
    assert MemberEntries(members) == RecordEntries(d);
  }

  lemma ListParts(items: seq<Tree>, t: Tree)
    requires t.Node? && Printable(t) && Distinct(t) && ListFree(t) && forall i :: 0 <= i < |items| ==> items[i] == t
    ensures PrintableItems(items) && Printable(Items(items)) && Distinct(Items(items)) && AlikeItems(items)
  {
    hide DocsAt, ListFree;
  }

  lemma VecIs(d: DocTexts)
    ensures Normal(WithVec(d)) == VecTree(d) && InScope(WithVec(d)) && ListsAlike(VecTree(d))
  {
    RecordIs(d);
    RecordFits(d);
    NormalOfTwo(Record(d), Record(d));
    var record := Node(RecordEntries(d));
    ListParts([record, record], record);
    hide RecordEntries, Record, AlikeItems;
    var items := Sequence([Record(d), Record(d)]);
    assert Normal(items) == Items([record, record]);
    OneField("items", [d.items], items);
    OneMember("items", [d.items], items);
    OneList(d.items, [record, record]);
  }

  lemma OneList(doc: string, items: seq<Tree>)
    requires AlikeItems(items)
    ensures ListsAlike(Node([Entry("items", [doc], Items(items))]))
  {
    hide AlikeItems;
    var entries := [Entry("items", [doc], Items(items))];
    assert ListsAlike(entries[0].tree);
    assert ListsAlikeIn(entries);
  }

  function RecordLines(d: DocTexts): seq<Line> {
    [Line("  - a: 0", 4, [d.a]), Line("    b: 11", 4, [d.b, d.bToo]), Line("    c: 0", 4, [])]
  }

  lemma RecordLayout(d: DocTexts)
    ensures EntryLines(RecordEntries(d), 2, true) == RecordLines(d)
  {
    var entries, lines := RecordEntries(d), RecordLines(d);
    var bc, c := entries[1..], entries[2..];
    assert bc == [entries[1], entries[2]] && bc[1..] == c == [entries[2]] && c[1..] == [];
    assert Spaces(2) + ITEM_PREFIX + "a" + ":" + " 0" == "  - a: 0";
    assert Spaces(4) + "b" + ":" + " 11" == "    b: 11";
    assert Spaces(4) + "c" + ":" + " 0" == "    c: 0";
    assert FieldHead(entries[0], 2, true) == lines[0];
    assert FieldHead(entries[1], 2, false) == lines[1];
    assert FieldHead(entries[2], 2, false) == lines[2];
    hide FieldHead;
    assert EntryLines(c, 2, false) == [lines[2]];
    assert EntryLines(bc, 2, false) == [lines[1]] + EntryLines(c, 2, false);
    assert EntryLines(entries, 2, true) == [lines[0]] + EntryLines(bc, 2, false);
  }

  lemma VecLayout(d: DocTexts)
    ensures Document(VecTree(d), true)
         == [Line("---", 0, []), Line("items:", 0, [d.items])] + (RecordLines(d) + RecordLines(d))
  {
    RecordLayout(d);
    var record := Node(RecordEntries(d));
    assert record.entries != [];
    var entries := VecTree(d).entries;
    hide RecordEntries, RecordLines;
    var items := [record, record];
    assert items[1..] == [record] && items[1..][1..] == [];
    assert ItemLines(items[1..], 1) == EntryLines(record.entries, 2, true) + [];
    assert ItemLines(items, 1) == RecordLines(d) + RecordLines(d);
    assert Below(Items(items), 1) == ItemLines(items, 1);
    assert entries[1..] == [];
    assert Spaces(0) + "items" + ":" + "" == "items:";
    var head := Line("items:", 0, [d.items]);
    assert FieldHead(entries[0], 0, false) == head;
    assert EntryLines(entries, 0, false) == [head] + (RecordLines(d) + RecordLines(d)) + [];
  }

  lemma {:induction false} DocumentedAppend(a: seq<Line>, b: seq<Line>)
    ensures Documented(a + b) == Documented(a) + Documented(b)
  {
    if a == [] {
      assert a + b == b;
    } else {
      hide Comments;
      DocumentedAppend(a[1..], b);
      assert (a + b)[1..] == a[1..] + b;
      ConcatAssoc(Comments(a[0].docs, a[0].column) + [a[0].text], Documented(a[1..]), Documented(b));
    }
  }

  lemma DocumentedOne(line: Line)
    ensures Documented([line]) == Comments(line.docs, line.column) + [line.text]
  {
    assert [line][1..] == [];
    assert Documented([]) == [];
  }

  lemma OneComment(doc: string, column: nat)
    ensures Comments([], column) == [] && Comments([doc], column) == [Spaces(column) + "#" + doc]
  {
    assert [doc][1..] == [];
  }

  lemma TwoComments(first: string, second: string, column: nat)
    ensures Comments([first, second], column) == [Spaces(column) + "#" + first, Spaces(column) + "#" + second]
  {
    assert [first, second][1..] == [second];
    OneComment(second, column);
  }

  function RecordText(d: DocTexts): seq<string> {
    ["    #" + d.a, "  - a: 0", "    #" + d.b, "    #" + d.bToo, "    b: 11", "    c: 0"]
  }

  lemma RecordIsPrinted(d: DocTexts)
    ensures Documented(RecordLines(d)) == RecordText(d)
  {
    var lines := RecordLines(d);
    assert lines == [lines[0]] + ([lines[1]] + [lines[2]]);
    DocumentedAppend([lines[0]], [lines[1]] + [lines[2]]);
    DocumentedAppend([lines[1]], [lines[2]]);
    DocumentedOne(lines[0]);
    DocumentedOne(lines[1]);
    DocumentedOne(lines[2]);
    OneComment(d.a, 4);
    TwoComments(d.b, d.bToo, 4);
    assert Spaces(4) + "#" == "    #";
    hide Documented, Comments, Spaces;
  }

  lemma HeadIsPrinted(d: DocTexts)
    ensures Documented([Line("---", 0, []), Line("items:", 0, [d.items])]) == ["---", "#" + d.items, "items:"]
  {
    var header, head := Line("---", 0, []), Line("items:", 0, [d.items]);
    assert [header, head] == [header] + [head];
    DocumentedAppend([header], [head]);
    DocumentedOne(header);
    DocumentedOne(head);
    OneComment(d.items, 0);
    assert Spaces(0) + "#" == "#";
    hide Documented, Comments, Spaces;
  }

  lemma VecIsPrinted(d: DocTexts)
    ensures Documented(Document(VecTree(d), true)) == ["---", "#" + d.items, "items:"] + (RecordText(d) + RecordText(d))
  {
    VecLayout(d);
    HeadIsPrinted(d);
    RecordIsPrinted(d);
    hide Documented, RecordLines, RecordText, Document;
    DocumentedAppend(RecordLines(d), RecordLines(d));
    DocumentedAppend([Line("---", 0, []), Line("items:", 0, [d.items])], RecordLines(d) + RecordLines(d));
  }

  /** Line by line the text of the test data's `with_vec.yaml`, for any docs. */
  lemma WithVecIsPrinted(d: DocTexts)
    ensures WithDocs(WithVec(d), true)
         == Join(["---",
                  "#" + d.items,
                  "items:",
                  "    #" + d.a,
                  "  - a: 0",
                  "    #" + d.b,
                  "    #" + d.bToo,
                  "    b: 11",
                  "    c: 0",
                  "    #" + d.a,
                  "  - a: 0",
                  "    #" + d.b,
                  "    #" + d.bToo,
                  "    b: 11",
                  "    c: 0"])
  {
    hide WithDocs, Join, Documented, WithVec, VecTree, InScope, ListsAlike, Document;
    VecIs(d);
    ListsAlikeAreDocumented(WithVec(d), true);
    VecIsPrinted(d);
    assert Normal(WithVec(d)) == VecTree(d);
    assert ["---", "#" + d.items, "items:"] + (RecordText(d) + RecordText(d))
        == ["---", "#" + d.items, "items:",
            "    #" + d.a, "  - a: 0", "    #" + d.b, "    #" + d.bToo, "    b: 11", "    c: 0",
            "    #" + d.a, "  - a: 0", "    #" + d.b, "    #" + d.bToo, "    b: 11", "    c: 0"];
  }
}
