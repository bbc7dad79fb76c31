/** Lists: where the running index does no harm, and where docs are lost. */
module SettingsYamlLists {
  import opened Base
  import opened YamlLines
  import opened SettingsDocs
  import opened SettingsYaml
  import opened SettingsYamlExact
  import opened SettingsYamlText
  import TextItems

  /** No list with items anywhere inside. */
  predicate ListFree(t: Tree)
    decreases t
  {
    match t
    case Leaf(_) => true
    case Node(entries) => ListFreeIn(entries)
    case Items(items) => items == []
  }

  predicate ListFreeIn(entries: seq<Entry>)
    decreases entries
  {
    forall i :: 0 <= i < |entries| ==> ListFree(entries[i].tree)
  }

  ghost predicate SameDocs(a: Tree, b: Tree) {
    forall rel: Path :: rel != [] ==> DocsAt(a, rel) == DocsAt(b, rel)
  }

  /** Items of one kind: scalars or records nested to any depth, with the same docs at the same fields. */
  ghost predicate AlikeItems(items: seq<Tree>) {
    && (forall i :: 0 <= i < |items| ==> ListFree(items[i]))
    && forall i, j :: 0 <= i < |items| && 0 <= j < |items| ==> SameDocs(items[i], items[j])
  }

  /** Settings all of whose lists have items of one kind. */
  ghost predicate ListsAlike(t: Tree)
    decreases t
  {
    match t
    case Leaf(_) => true
    case Node(entries) => ListsAlikeIn(entries)
    case Items(items) => AlikeItems(items)
  }

  ghost predicate ListsAlikeIn(entries: seq<Entry>)
    decreases entries
  {
    forall i :: 0 <= i < |entries| ==> ListsAlike(entries[i].tree)
  }

  lemma {:induction false} ListFreeIsAlike(t: Tree)
    requires ListFree(t)
    ensures ListsAlike(t)
    decreases t
  {
    if t.Node? {
      forall i | 0 <= i < |t.entries| ensures ListsAlike(t.entries[i].tree) {
        ListFreeIsAlike(t.entries[i].tree);
      }
    }
  }

  /** `t` sits in `root` at `path`, or something with the same docs does. */
  ghost predicate Resolves(root: Tree, path: Path, t: Tree) {
    forall rel: Path :: rel != [] ==> DocsAt(root, path + rel) == DocsAt(t, rel)
  }

  lemma {:induction false} DocsOfEntry(entries: seq<Entry>, k: nat, path: Path)
    requires DistinctEntries(entries) && k < |entries| && path != [] && path[0] == entries[k].name
    ensures DocsIn(entries, path) == if |path| == 1 then entries[k].docs else DocsAt(entries[k].tree, path[1..])
  {
    if k > 0 {
      assert entries[0].name != entries[k].name;
      assert DistinctEntries(entries[1..]) by {
        assert [entries[0]] + entries[1..] == entries;
        DistinctAppend([entries[0]], entries[1..]);
      }
      DocsOfEntry(entries[1..], k - 1, path);
    }
  }

  lemma {:induction false} DocsOfItem(items: seq<Tree>, base: nat, k: nat, path: Path)
    requires k < |items| && |path| > 1 && path[0] == TextItems.Decimal(base + k)
    ensures DocsInItem(items, base, path) == DocsAt(items[k], path[1..])
  {
    if k > 0 {
      TextItems.DecimalRoundTrip(base);
      TextItems.DecimalRoundTrip(base + k);
      DocsOfItem(items[1..], base + 1, k - 1, path);
    }
  }

  lemma ResolvesField(root: Tree, path: Path, entries: seq<Entry>, k: nat)
    requires Resolves(root, path, Node(entries)) && DistinctEntries(entries) && k < |entries|
    ensures DocsAt(root, path + [entries[k].name]) == entries[k].docs
    ensures Resolves(root, path + [entries[k].name], entries[k].tree)
  {
    var name := entries[k].name;
    DocsOfEntry(entries, k, [name]);
    assert DocsAt(Node(entries), [name]) == DocsIn(entries, [name]);
    forall rel: Path | rel != [] ensures DocsAt(root, path + [name] + rel) == DocsAt(entries[k].tree, rel) {
      assert path + [name] + rel == path + ([name] + rel);
      DocsOfEntry(entries, k, [name] + rel);
      assert ([name] + rel)[1..] == rel;
      assert DocsAt(Node(entries), [name] + rel) == DocsIn(entries, [name] + rel);
    }
  }

  /** An index that is not past an item does as well as the item's own. */
  lemma ResolvesItem(root: Tree, path: Path, items: seq<Tree>, index: nat, k: nat)
    requires Resolves(root, path, Items(items)) && AlikeItems(items) && index < |items| && k < |items|
    ensures Resolves(root, path + [TextItems.Decimal(index)], items[k])
  {
    var name := TextItems.Decimal(index);
    assert SameDocs(items[index], items[k]);
    forall rel: Path | rel != [] ensures DocsAt(root, path + [name] + rel) == DocsAt(items[k], rel) {
      assert path + [name] + rel == path + ([name] + rel);
      DocsOfItem(items, 0, index, [name] + rel);
      assert ([name] + rel)[1..] == rel;
      assert DocsAt(Items(items), [name] + rel) == DocsInItem(items, 0, [name] + rel);
    }
  }

  /** Without lists inside, an item moves the running index on by at most one. */
  lemma {:induction false} IndexAfterEntries(entries: seq<Entry>, path: Path, index: nat, item: bool)
    requires ListFreeIn(entries)
    ensures EntriesShown(entries, path, index, item).index <= if item then index + 1 else index
    decreases entries
  {
    if entries != [] {
      var here := path + [entries[0].name];
      var after := if item then index + 1 else 0;
      IndexAfterBelow(entries[0].tree, here, after);
      IndexAfterEntries(entries[1..], path, BelowShown(entries[0].tree, here, after).index, false);
    }
  }

  lemma {:induction false} IndexAfterBelow(t: Tree, path: Path, index: nat)
    requires ListFree(t)
    ensures BelowShown(t, path, index).index <= index
    decreases t
  {
    if t.Node? {
      IndexAfterEntries(t.entries, path, index, false);
    }
  }

  lemma {:induction false} EntriesRight(
    root: Tree, entries: seq<Entry>, k: nat, path: Path, index: nat, item: bool)
    requires Resolves(root, path, Node(entries)) && DistinctEntries(entries) && ListsAlikeIn(entries)
    requires k <= |entries| && (item ==> ListFreeIn(entries))
    ensures EntriesLookRight(root, entries[k..], path, index, item)
    decreases entries, |entries| - k
  {
    if k < |entries| {
      var e := entries[k];
      var here := path + [e.name];
      var after := if item then index + 1 else 0;
      ResolvesField(root, path, entries, k);
      BelowRight(root, e.tree, here, after);
      EntriesRight(root, entries, k + 1, path, BelowShown(e.tree, here, after).index, false);
      hide Resolves, DocsAt;
      assert entries[k..][0] == e && entries[k..][1..] == entries[k + 1..];
    }
  }

  lemma {:induction false} BelowRight(root: Tree, t: Tree, path: Path, index: nat)
    requires Resolves(root, path, t) && Distinct(t) && ListsAlike(t) && (index == 0 || ListFree(t))
    ensures BelowLooksRight(root, t, path, index)
    decreases t, 0
  {
    match t
    case Leaf(_) =>
    case Node(entries) =>
      EntriesRight(root, entries, 0, path, index, false);
      assert entries[0..] == entries;
    case Items(items) =>
      if items != [] {
        ItemsRight(root, items, 0, path, index);
        assert items[0..] == items;
      }
  }

  lemma {:induction false} ItemsRight(root: Tree, items: seq<Tree>, k: nat, path: Path, index: nat)
    requires Resolves(root, path, Items(items)) && AlikeItems(items) && index <= k <= |items|
    requires forall i :: 0 <= i < |items| ==> Distinct(items[i])
    ensures ItemsLookRight(root, items[k..], path, index)
    decreases items, |items| - k
  {
    if k < |items| {
      var t := items[k];
      var here := path + [TextItems.Decimal(index)];
      ResolvesItem(root, path, items, index, k);
      assert ListFree(t);
      assert items[k..][0] == t && items[k..][1..] == items[k + 1..];
      if t.Node? && t.entries != [] {
        ListFreeIsAlike(t);
        EntriesRight(root, t.entries, 0, here, index, true);
        assert t.entries[0..] == t.entries;
        IndexAfterEntries(t.entries, here, index, true);
        ItemsRight(root, items, k + 1, path, EntriesShown(t.entries, here, index, true).index);
      } else {
        InlineRight(root, t, path, index);
        ItemsRight(root, items, k + 1, path, InlineShown(t, path, index).index);
      }
    }
  }

  lemma InlineRight(root: Tree, t: Tree, path: Path, index: nat)
    requires Resolves(root, path + [TextItems.Decimal(index)], t) && IsInline(t)
    ensures InlineLooksRight(root, t, path, index) && InlineShown(t, path, index).index <= index + 1
  {
    hide TextItems.Decimal, InlineKind;
    var kind := InlineKind(t);
    if kind.ItemField? {
      var here := path + [TextItems.Decimal(index)];
      assert here + [kind.name] == path + [TextItems.Decimal(index), kind.name];
      assert DocsAt(t, [kind.name]) == [];
    }
  }

  /**
   Structs, maps and options nested to any depth, with lists of scalars or of
   records of one kind, themselves nested to any depth but without further lists:
   the printed text carries every field's docs right above its line.
   */
  lemma ListsAlikeAreDocumented(s: Settings, header: bool)
    requires InScope(s) && ListsAlike(Normal(s))
    ensures LooksRight(Normal(s))
    ensures WithDocs(s, header) == Join(Documented(Document(Normal(s), header)))
  {
    hide Annotated, AddedDocs, Documented, Texts, Document, Printable, Flattenable, Lines, Join;
    var t := Normal(s);
    RootResolves(t);
    EntriesRight(t, t.entries, 0, [], 0, false);
    assert t.entries[0..] == t.entries;
    DocumentedExactly(s, header);
    RenderedLines(s, header);
  }

  lemma RootResolves(t: Tree)
    ensures Resolves(t, [], t)
  {
    forall rel: Path | rel != [] ensures DocsAt(t, [] + rel) == DocsAt(t, rel) {
      assert [] + rel == rel;
    }
  }

  // ---- lists that lose docs --------------------------------------------------------------------

  /** A list with one absent and one present record: the second is looked up under the first's index. */
  function AbsentThenPresent(shown: string, doc: string): Settings {
    Struct([Member("items", [], false, Sequence([
      Absent(shown),
      Present(Struct([Member("a", [doc], false, Plain("0"))]))]))])
  }

  lemma OneMember(name: string, docs: seq<string>, value: Settings)
    ensures Normal(Struct([Member(name, docs, false, value)])) == Node([Entry(name, docs, Normal(value))])
  {
    var m := Member(name, docs, false, value);
    assert [m][1..] == [];
    assert MemberEntries([m]) == [Entry(name, docs, Normal(value))];
  }

  lemma OneField(name: string, docs: seq<string>, value: Settings)
    requires IsPlainKey(name) && Flattenable(value) && Printable(Normal(value)) && Distinct(Normal(value))
    ensures InScope(Struct([Member(name, docs, false, value)]))
  {
    OneMember(name, docs, value);
  }

  lemma NormalOfOne(a: Settings)
    ensures NormalItems([a]) == [Normal(a)]
  {
    assert [a][1..] == [];
  }

  lemma NormalOfTwo(a: Settings, b: Settings)
    ensures NormalItems([a, b]) == [Normal(a), Normal(b)]
  {
    assert [a, b][1..] == [b];
    NormalOfOne(b);
  }

  /** What an absent option is shown as: `~` and `null` are such texts. */
  predicate IsAbsentText(shown: string) {
    IsItemText(shown) && IsOneLine(shown) && ':' !in shown
  }

  function RecordTree(doc: string): Tree { Node([Entry("a", [doc], Leaf("0"))]) }

  function ListTree(shown: string, doc: string): Tree { Items([Leaf(shown), RecordTree(doc)]) }

  lemma AbsentThenPresentTree(shown: string, doc: string)
    requires IsAbsentText(shown)
    ensures Normal(AbsentThenPresent(shown, doc)) == Node([Entry("items", [], ListTree(shown, doc))])
    ensures InScope(AbsentThenPresent(shown, doc))
  {
    var record := Struct([Member("a", [doc], false, Plain("0"))]);
    OneMember("a", [doc], Plain("0"));
    OneField("a", [doc], Plain("0"));
    NormalOfTwo(Absent(shown), Present(record));
    var items := Sequence([Absent(shown), Present(record)]);
    assert Normal(items) == Items([Leaf(shown), Normal(record)]);
    OneField("items", [], items);
    OneMember("items", [], items);
  }

  lemma AbsentIsNoField(shown: string)
    requires IsAbsentText(shown)
    ensures InlineShown(Leaf(shown), ["items"], 0) == Shown([None], 0)
  {
    ItemTextLine(0, shown);
    assert Inline(Leaf(shown))[1..] == shown;
    assert Spaces(0) + ITEM_PREFIX + shown == ITEM_PREFIX + shown;
  }

  lemma NoDocsThere(shown: string, doc: string)
    ensures DocsAt(Node([Entry("items", [], ListTree(shown, doc))]), ["items", TextItems.Decimal(0), "a"]) == []
  {
    var path := [TextItems.Decimal(0), "a"];
    assert path[1..] == ["a"] && ["items", TextItems.Decimal(0), "a"][1..] == path;
    assert DocsInItem(ListTree(shown, doc).items, 0, path) == DocsAt(Leaf(shown), ["a"]) == [];
    assert DocsAt(ListTree(shown, doc), path) == [];
  }

  lemma AbsentThenPresentLooksWrong(shown: string, doc: string)
    requires IsAbsentText(shown)
    ensures !LooksRight(Node([Entry("items", [], ListTree(shown, doc))]))
  {
    hide InlineItem, TextItems.Decimal, InlineShown, DocsAt, InlineLooksRight;
    var items := ListTree(shown, doc).items;
    var t := Node([Entry("items", [], ListTree(shown, doc))]);
    var zero := TextItems.Decimal(0);
    var empty: Path := [];
    NoDocsThere(shown, doc);
    AbsentIsNoField(shown);
    assert empty + ["items"] == ["items"] && ["items"] + [zero] + ["a"] == ["items", zero, "a"];
    assert items[1..] == [RecordTree(doc)];
    assert !EntriesLookRight(t, RecordTree(doc).entries, ["items"] + [zero], 0, true);
    assert !ItemsLookRight(t, items[1..], ["items"], 0);
    assert !ItemsLookRight(t, items, ["items"], 0);
    assert !BelowLooksRight(t, ListTree(shown, doc), ["items"], 0);
  }

  lemma OneLineTree(shown: string, doc: string)
    requires '\n' !in doc
    ensures EveryDoc(Node([Entry("items", [], ListTree(shown, doc))]), HasNoNewline)
  {
    var record := RecordTree(doc);
    assert EveryDoc(record.entries[0].tree, HasNoNewline);
    assert HasNoNewline(record.entries[0].docs[0]);
    assert EveryDocIn(record.entries, HasNoNewline);
    assert EveryDoc(record, HasNoNewline);
    assert EveryDoc(Leaf(shown), HasNoNewline);
    assert EveryDoc(ListTree(shown, doc), HasNoNewline);
  }

  /** With either serializer the printed settings are not the documented ones: the record's docs are lost. */
  lemma AbsentThenPresentLosesDocs(shown: string, doc: string, header: bool)
    requires IsAbsentText(shown)
    ensures var s := AbsentThenPresent(shown, doc);
            var lines := Document(Normal(s), header);
            && InScope(s)
            && Annotated(AddedDocs(s, [], map[]), Texts(lines), START) != Documented(lines)
            && ('\n' !in doc ==> WithDocs(s, header) != Join(Documented(lines)))
  {
    hide WithDocs, Document, Documented, Annotated, Join, AddedDocs, LooksRight, Texts;
    var s := AbsentThenPresent(shown, doc);
    AbsentThenPresentTree(shown, doc);
    AbsentThenPresentLooksWrong(shown, doc);
    DocumentedExactly(s, header);
    if '\n' !in doc {
      OneLineTree(shown, doc);
      TextIsDocumentedExactly(s, header);
    }
  }

  /** Both serializers show an absent option so. */
  lemma LostWithEitherSerializer(shown: string, doc: string, header: bool)
    requires shown == "~" || shown == "null"
    ensures InScope(AbsentThenPresent(shown, doc)) && !LooksRight(Normal(AbsentThenPresent(shown, doc)))
  {
    assert IsAbsentText(shown);
    AbsentThenPresentTree(shown, doc);
    AbsentThenPresentLooksWrong(shown, doc);
  }

  // ---- the condition on lists alone -----------------------------------------------------------------

  /** The item looked up for a running index; past the end there is none, and no docs. */
  function SourceItem(items: seq<Tree>, r: nat): Tree {
    if r < |items| then items[r] else Leaf("")
  }

  /**
   Item by item, with `index` the running one: every field shown in the item has
   the docs that the item at `index` has at the same place, and an inline item
   taken for a field is looked up where that item has none.
   */
  predicate ItemsMatch(all: seq<Tree>, rest: seq<Tree>, index: nat)
    decreases rest
  {
    rest == []
    || if rest[0].Node? && rest[0].entries != [] then
         && EntriesLookRight(SourceItem(all, index), rest[0].entries, [], index, true)
         && ItemsMatch(all, rest[1..], EntriesShown(rest[0].entries, [], index, true).index)
       else
         && (InlineKind(rest[0]).ItemField? ==> DocsAt(SourceItem(all, index), [InlineKind(rest[0]).name]) == [])
         && ItemsMatch(all, rest[1..], InlineShown(rest[0], [], index).index)
  }

  /** Of every list that is not inside another. */
  predicate ListsMatch(t: Tree)
    decreases t
  {
    match t
    case Leaf(_) => true
    case Node(entries) => ListsMatchIn(entries)
    case Items(items) => ItemsMatch(items, items, 0)
  }

  predicate ListsMatchIn(entries: seq<Entry>)
    decreases entries
  {
    forall i :: 0 <= i < |entries| ==> ListsMatch(entries[i].tree)
  }

  /** The running index depends on the shape only. */
  lemma {:induction false} IndexOfEntries(entries: seq<Entry>, p: Path, q: Path, index: nat, item: bool)
    ensures EntriesShown(entries, p, index, item).index == EntriesShown(entries, q, index, item).index
    decreases entries
  {
    if entries != [] {
      var name, after := [entries[0].name], if item then index + 1 else 0;
      IndexOfBelow(entries[0].tree, p + name, q + name, after);
      IndexOfEntries(entries[1..], p, q, BelowShown(entries[0].tree, p + name, after).index, false);
    }
  }

  lemma {:induction false} IndexOfBelow(t: Tree, p: Path, q: Path, index: nat)
    ensures BelowShown(t, p, index).index == BelowShown(t, q, index).index
    decreases t
  {
    match t
    case Leaf(_) =>
    case Node(entries) => IndexOfEntries(entries, p, q, index, false);
    case Items(items) => IndexOfItems(items, p, q, index);
  }

  lemma {:induction false} IndexOfItems(items: seq<Tree>, p: Path, q: Path, index: nat)
    ensures ItemsShown(items, p, index).index == ItemsShown(items, q, index).index
    decreases items
  {
    hide TextItems.Decimal, InlineKind;
    if items != [] {
      if items[0].Node? && items[0].entries != [] {
        var name := [TextItems.Decimal(index)];
        IndexOfEntries(items[0].entries, p + name, q + name, index, true);
        IndexOfItems(items[1..], p, q, EntriesShown(items[0].entries, p + name, index, true).index);
      } else {
        IndexOfItems(items[1..], p, q, InlineShown(items[0], p, index).index);
      }
    }
  }

  /** Looking below a place is looking in what sits there. */
  lemma {:induction false} EntriesShift(
    root: Tree, at: Path, source: Tree, entries: seq<Entry>, path: Path, index: nat, item: bool)
    requires Resolves(root, at, source)
    ensures EntriesLookRight(root, entries, at + path, index, item) <==>
            EntriesLookRight(source, entries, path, index, item)
    decreases entries
  {
    hide DocsAt;
    if entries != [] {
      var e, after := entries[0], if item then index + 1 else 0;
      assert at + path + [e.name] == at + (path + [e.name]);
      BelowShift(root, at, source, e.tree, path + [e.name], after);
      IndexOfBelow(e.tree, at + path + [e.name], path + [e.name], after);
      EntriesShift(root, at, source, entries[1..], path, BelowShown(e.tree, path + [e.name], after).index, false);
    }
  }

  lemma {:induction false} BelowShift(root: Tree, at: Path, source: Tree, t: Tree, path: Path, index: nat)
    requires Resolves(root, at, source)
    ensures BelowLooksRight(root, t, at + path, index) <==> BelowLooksRight(source, t, path, index)
    decreases t
  {
    match t
    case Leaf(_) =>
    case Node(entries) => EntriesShift(root, at, source, entries, path, index, false);
    case Items(items) => ItemsShift(root, at, source, items, path, index);
  }

  lemma {:induction false} ItemsShift(root: Tree, at: Path, source: Tree, items: seq<Tree>, path: Path, index: nat)
    requires Resolves(root, at, source)
    ensures ItemsLookRight(root, items, at + path, index) <==> ItemsLookRight(source, items, path, index)
    decreases items
  {
    hide DocsAt, TextItems.Decimal, InlineKind, Resolves;
    if items != [] {
      if items[0].Node? && items[0].entries != [] {
        var here := path + [TextItems.Decimal(index)];
        assert at + path + [TextItems.Decimal(index)] == at + here;
        EntriesShift(root, at, source, items[0].entries, here, index, true);
        IndexOfEntries(items[0].entries, at + here, here, index, true);
        ItemsShift(root, at, source, items[1..], path, EntriesShown(items[0].entries, here, index, true).index);
      } else {
        InlineShift(root, at, source, items[0], path, index);
        ItemsShift(root, at, source, items[1..], path, InlineShown(items[0], path, index).index);
      }
    }
  }

  lemma InlineShift(root: Tree, at: Path, source: Tree, t: Tree, path: Path, index: nat)
    requires Resolves(root, at, source)
    ensures InlineLooksRight(root, t, at + path, index) <==> InlineLooksRight(source, t, path, index)
  {
    hide DocsAt, TextItems.Decimal, InlineKind;
    var kind := InlineKind(t);
    if kind.ItemField? {
      var rel := path + [TextItems.Decimal(index), kind.name];
      assert at + path + [TextItems.Decimal(index), kind.name] == at + rel;
    }
  }

  lemma {:induction false} NoItemThere(items: seq<Tree>, base: nat, r: nat, path: Path)
    requires path != [] && path[0] == TextItems.Decimal(r) && base + |items| <= r
    ensures DocsInItem(items, base, path) == []
  {
    if items != [] {
      TextItems.DecimalRoundTrip(base);
      TextItems.DecimalRoundTrip(r);
      NoItemThere(items[1..], base + 1, r, path);
    }
  }

  lemma ResolvesSource(root: Tree, path: Path, items: seq<Tree>, r: nat)
    requires Resolves(root, path, Items(items))
    ensures Resolves(root, path + [TextItems.Decimal(r)], SourceItem(items, r))
  {
    var name := TextItems.Decimal(r);
    forall rel: Path | rel != [] ensures DocsAt(root, path + [name] + rel) == DocsAt(SourceItem(items, r), rel) {
      assert path + [name] + rel == path + ([name] + rel);
      assert ([name] + rel)[1..] == rel;
      assert DocsAt(Items(items), [name] + rel) == DocsInItem(items, 0, [name] + rel);
      if r < |items| {
        DocsOfItem(items, 0, r, [name] + rel);
      } else {
        NoItemThere(items, 0, r, [name] + rel);
      }
    }
  }

  lemma {:induction false} ItemsMatchIs(root: Tree, all: seq<Tree>, rest: seq<Tree>, path: Path, index: nat)
    requires Resolves(root, path, Items(all))
    ensures ItemsLookRight(root, rest, path, index) <==> ItemsMatch(all, rest, index)
    decreases rest
  {
    hide DocsAt, TextItems.Decimal, InlineKind, Resolves, SourceItem;
    if rest != [] {
      var here, source := path + [TextItems.Decimal(index)], SourceItem(all, index);
      ResolvesSource(root, path, all, index);
      if rest[0].Node? && rest[0].entries != [] {
        assert here + [] == here;
        EntriesShift(root, here, source, rest[0].entries, [], index, true);
        IndexOfEntries(rest[0].entries, here, [], index, true);
        ItemsMatchIs(root, all, rest[1..], path, EntriesShown(rest[0].entries, here, index, true).index);
      } else {
        InlineMatches(root, here, source, rest[0], path, index);
        ItemsMatchIs(root, all, rest[1..], path, InlineShown(rest[0], path, index).index);
      }
    }
  }

  lemma InlineMatches(root: Tree, here: Path, source: Tree, t: Tree, path: Path, index: nat)
    requires Resolves(root, here, source) && here == path + [TextItems.Decimal(index)]
    ensures InlineLooksRight(root, t, path, index) <==>
            (InlineKind(t).ItemField? ==> DocsAt(source, [InlineKind(t).name]) == [])
    ensures InlineShown(t, path, index).index == InlineShown(t, [], index).index
  {
    hide DocsAt, TextItems.Decimal, InlineKind;
    var kind := InlineKind(t);
    if kind.ItemField? {
      assert here + [kind.name] == path + [TextItems.Decimal(index), kind.name];
    }
  }

  /** Outside lists the annotator always looks right; so only the lists matter. */
  lemma {:induction false} EntriesMatchIs(root: Tree, entries: seq<Entry>, k: nat, path: Path, index: nat)
    requires Resolves(root, path, Node(entries)) && DistinctEntries(entries) && k <= |entries|
    ensures EntriesLookRight(root, entries[k..], path, index, false) <==>
            forall i :: k <= i < |entries| ==> ListsMatch(entries[i].tree)
    decreases entries, |entries| - k
  {
    if k < |entries| {
      var e := entries[k];
      ResolvesField(root, path, entries, k);
      BelowMatchIs(root, e.tree, path + [e.name]);
      EntriesMatchIs(root, entries, k + 1, path, BelowShown(e.tree, path + [e.name], 0).index);
      hide Resolves, DocsAt, ListsMatch, BelowLooksRight;
      assert entries[k..][0] == e && entries[k..][1..] == entries[k + 1..];
    }
  }

  lemma {:induction false} BelowMatchIs(root: Tree, t: Tree, path: Path)
    requires Resolves(root, path, t) && Distinct(t)
    ensures BelowLooksRight(root, t, path, 0) <==> ListsMatch(t)
    decreases t, 0
  {
    match t
    case Leaf(_) =>
    case Node(entries) =>
      EntriesMatchIs(root, entries, 0, path, 0);
      assert entries[0..] == entries;
    case Items(items) => ItemsMatchIs(root, items, items, path, 0);
  }

  /**
   The printed lines carry every field's docs above its line if and only if in
   every list each item has the docs of the item at its running index; so the
   annotator looks right along the whole tree exactly then.
   */
  lemma DocumentedIffListsMatch(s: Settings, header: bool)
    requires InScope(s)
    ensures LooksRight(Normal(s)) <==> ListsMatch(Normal(s))
    ensures var lines := Document(Normal(s), header);
            Annotated(AddedDocs(s, [], map[]), Texts(lines), START) == Documented(lines) <==> ListsMatch(Normal(s))
  {
    hide Annotated, AddedDocs, Documented, Texts, Document, Printable, Flattenable, EntriesLookRight;
    var t := Normal(s);
    RootResolves(t);
    EntriesMatchIs(t, t.entries, 0, [], 0);
    assert t.entries[0..] == t.entries;
    DocumentedExactly(s, header);
  }
}
