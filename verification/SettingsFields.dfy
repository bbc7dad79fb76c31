/** The docs table against the settings themselves, and the annotator line by line. */
module SettingsFields {
  import opened Base
  import opened YamlLines
  import opened SettingsDocs
  import opened SettingsYaml
  import opened SettingsYamlExact
  import TextItems

  // ---- the documented fields of settings ---------------------------------------------------

  /** The settings have a field with these docs at this path. A flattened field's own docs are nowhere. */
  ghost predicate HasField(s: Settings, path: Path, docs: seq<string>)
    decreases s
  {
    match s
    case Plain(_) => false
    case Absent(_) => false
    case Present(value) => HasField(value, path, docs)
    case Struct(members) => HasMember(members, path, docs)
    case Mapping(entries) => HasValue(entries, path, docs)
    case Sequence(items) => HasItem(items, 0, path, docs)
  }

  ghost predicate HasMember(members: seq<Member>, path: Path, docs: seq<string>)
    decreases members
  {
    members != [] && (IsIn(members[0], path, docs) || HasMember(members[1..], path, docs))
  }

  ghost predicate IsIn(m: Member, path: Path, docs: seq<string>)
    decreases m
  {
    if m.flatten then HasField(m.value, path, docs)
    else path != [] && path[0] == m.name && if |path| == 1 then docs == m.docs else HasField(m.value, path[1..], docs)
  }

  ghost predicate HasValue(entries: seq<MapEntry>, path: Path, docs: seq<string>)
    decreases entries
  {
    && entries != []
    && ((|path| > 1 && path[0] == entries[0].key && HasField(entries[0].value, path[1..], docs))
        || HasValue(entries[1..], path, docs))
  }

  ghost predicate HasItem(items: seq<Settings>, index: nat, path: Path, docs: seq<string>)
    decreases items
  {
    && items != []
    && ((|path| > 1 && path[0] == TextItems.Decimal(index) && HasField(items[0], path[1..], docs))
        || HasItem(items[1..], index + 1, path, docs))
  }

  lemma {:induction false} FieldDocs(s: Settings, path: Path, docs: seq<string>)
    requires Flattenable(s) && Distinct(Normal(s)) && docs != [] && path != []
    ensures DocsAt(Normal(s), path) == docs <==> HasField(s, path, docs)
    decreases s
  {
    match s
    case Plain(_) =>
    case Absent(_) =>
    case Present(value) => FieldDocs(value, path, docs);
    case Struct(members) => MembersDocs(members, path, docs);
    case Mapping(entries) => ValuesDocs(entries, path, docs);
    case Sequence(items) => ItemsDocs(items, 0, path, docs);
  }

  /** With distinct names at most one of two parts has docs for a path. */
  lemma InEither(a: seq<Entry>, b: seq<Entry>, path: Path, docs: seq<string>)
    requires DistinctEntries(a + b) && path != [] && docs != []
    ensures DocsIn(a + b, path) == docs <==> DocsIn(a, path) == docs || DocsIn(b, path) == docs
  {
    DistinctAppend(a, b);
    DocsInAppend(a, b, path);
    DocsInAppend(b, [], path);
    assert b + [] == b;
  }

  lemma {:induction false} MembersDocs(members: seq<Member>, path: Path, docs: seq<string>)
    requires FlattenableMembers(members) && DistinctEntries(MemberEntries(members)) && docs != [] && path != []
    ensures DocsIn(MemberEntries(members), path) == docs <==> HasMember(members, path, docs)
    decreases members
  {
    if members != [] {
      var first, rest := members[0], members[1..];
      assert members == [first] + rest;
      MemberEntriesAppend([first], rest);
      DistinctAppend(MemberEntries([first]), MemberEntries(rest));
      InEither(MemberEntries([first]), MemberEntries(rest), path, docs);
      MemberDocs(first, path, docs);
      MembersDocs(rest, path, docs);
    }
  }

  lemma OneEntryDocs(e: Entry, path: Path)
    requires path != []
    ensures DocsIn([e], path) == if path[0] != e.name then [] else if |path| == 1 then e.docs
                                 else DocsAt(e.tree, path[1..])
  {
    assert [e][1..] == [];
    assert DocsIn([], path) == [];
  }

  lemma {:induction false} MemberDocs(m: Member, path: Path, docs: seq<string>)
    requires FlattenableMembers([m]) && DistinctEntries(MemberEntries([m])) && docs != [] && path != []
    ensures DocsIn(MemberEntries([m]), path) == docs <==> IsIn(m, path, docs)
    decreases m
  {
    var tree := Normal(m.value);
    assert [m][0] == m && [m][1..] == [];
    if m.flatten {
      assert MemberEntries([m]) == if tree.Node? then tree.entries else [];
      FieldDocs(m.value, path, docs);
      assert DocsIn([], path) == [];
    } else {
      var e := Entry(m.name, m.docs, tree);
      assert MemberEntries([m]) == [e];
      OneEntryDocs(e, path);
      assert Distinct([e][0].tree);
      if |path| > 1 {
        FieldDocs(m.value, path[1..], docs);
      }
    }
  }

  lemma {:induction false} ValuesDocs(entries: seq<MapEntry>, path: Path, docs: seq<string>)
    requires forall i :: 0 <= i < |entries| ==> Flattenable(entries[i].value)
    requires DistinctEntries(MappingEntries(entries)) && docs != [] && path != []
    ensures DocsIn(MappingEntries(entries), path) == docs <==> HasValue(entries, path, docs)
    decreases entries
  {
    if entries != [] {
      var first, rest := entries[0], entries[1..];
      var e := Entry(first.key, [], Normal(first.value));
      assert MappingEntries(entries) == [e] + MappingEntries(rest);
      DistinctAppend([e], MappingEntries(rest));
      InEither([e], MappingEntries(rest), path, docs);
      OneEntryDocs(e, path);
      assert Distinct([e][0].tree);
      if |path| > 1 {
        FieldDocs(first.value, path[1..], docs);
      }
      ValuesDocs(rest, path, docs);
    }
  }

  lemma {:induction false} ItemsDocs(items: seq<Settings>, index: nat, path: Path, docs: seq<string>)
    requires forall k :: 0 <= k < |items| ==> Flattenable(items[k])
    requires forall k :: 0 <= k < |NormalItems(items)| ==> Distinct(NormalItems(items)[k])
    requires docs != [] && path != []
    ensures DocsInItem(NormalItems(items), index, path) == docs <==> HasItem(items, index, path, docs)
    decreases items
  {
    if items != [] {
      var trees := NormalItems(items);
      assert trees[0] == Normal(items[0]) && trees[1..] == NormalItems(items[1..]);
      assert forall k :: 0 <= k < |trees[1..]| ==> trees[1..][k] == trees[k + 1];
      ItemsDocs(items[1..], index + 1, path, docs);
      if path[0] == TextItems.Decimal(index) {
        NoSuchItem(trees[1..], index + 1, path, index);
        if |path| > 1 {
          FieldDocs(items[0], path[1..], docs);
        }
      }
    }
  }

  /** `add_docs` files under a key exactly the docs of the field there, and nothing where no field has docs. */
  lemma TableHoldsTheFields(s: Settings, key: Path, docs: seq<string>)
    requires InScope(s) && key != [] && docs != []
    ensures (key in AddedDocs(s, [], map[]) && AddedDocs(s, [], map[])[key] == docs) <==> HasField(s, key, docs)
  {
    TableIsTree(s, key);
    FieldDocs(s, key, docs);
    hide AddedDocs, HasField, Normal;
  }

  // ---- the annotator, line by line ---------------------------------------------------------------

  /** The keys left on the stack for a line this far in: one for every two columns. */
  ghost function Kept(keys: Path, spaces: nat): Path { if spaces / 2 < |keys| then keys[..spaces / 2] else keys }

  /** Each doc behind a `#` at the column of the field's name, nothing for a key without docs. */
  ghost function CommentsOn(docs: Docs, key: Path, column: nat): (comments: seq<string>)
    ensures |comments| == if key in docs then |docs[key]| else 0
    ensures forall i :: 0 <= i < |comments| ==> comments[i] == Spaces(column) + "#" + docs[key][i]
  {
    if key in docs then seq(|docs[key]|, i requires 0 <= i < |docs[key]| => Spaces(column) + "#" + docs[key][i])
    else []
  }

  lemma CommentsAreThese(docs: Docs, key: Path, column: nat)
    ensures Comments(Lookup(docs, key), column) == CommentsOn(docs, key, column)
  {
    CommentsAreComments(Lookup(docs, key), column);
    hide Comments, IsComment;
  }

  lemma AnnotatesFirst(docs: Docs, line: string, rest: seq<string>, c: Cursor)
    ensures Annotated(docs, [line] + rest, c)
         == CommentsFor(docs, Moved(c, line), line) + [line] + Annotated(docs, rest, Moved(c, line))
  {
    hide Moved, CommentsFor;
    assert ([line] + rest)[1..] == rest;
  }

  /** A field's line: its name goes on the stack, the list index back to zero. */
  lemma AnnotatesField(
    docs: Docs, spaces: nat, name: string, value: string, rest: seq<string>, keys: Path, index: nat)
    requires IsPlainKey(name)
    ensures var line, here := Spaces(spaces) + name + ":" + value, Kept(keys, spaces) + [name];
            Annotated(docs, [line] + rest, Cursor(keys, index))
            == CommentsOn(docs, here, spaces) + [line] + Annotated(docs, rest, Cursor(here, 0))
  {
    var line, here := Spaces(spaces) + name + ":" + value, Kept(keys, spaces) + [name];
    FieldLine(spaces, name, value);
    CommentsAreThese(docs, here, spaces);
    hide KindOf, Indent, NameColumn, Comments, Lookup, IsPlainKey, Spaces, IsComment;
    assert Moved(Cursor(keys, index), line) == Cursor(here, 0);
    AnnotatesFirst(docs, line, rest, Cursor(keys, index));
    hide Annotated, Moved;
  }

  /** The first field of a list item: index and name go on the stack, and the index counts on. */
  lemma AnnotatesItemField(
    docs: Docs, spaces: nat, name: string, value: string, rest: seq<string>, keys: Path, index: nat)
    requires IsPlainKey(name)
    ensures var line := Spaces(spaces) + "- " + name + ":" + value;
            var here := Kept(keys, spaces) + [TextItems.Decimal(index), name];
            Annotated(docs, [line] + rest, Cursor(keys, index))
            == CommentsOn(docs, here, spaces + 2) + [line] + Annotated(docs, rest, Cursor(here, index + 1))
  {
    var line := Spaces(spaces) + "- " + name + ":" + value;
    var here := Kept(keys, spaces) + [TextItems.Decimal(index), name];
    ItemFieldLine(spaces, name, value);
    CommentsAreThese(docs, here, spaces + 2);
    hide KindOf, Indent, NameColumn, Comments, Lookup, IsPlainKey, Spaces, IsComment, TextItems.Decimal;
    assert Moved(Cursor(keys, index), line) == Cursor(here, index + 1);
    AnnotatesFirst(docs, line, rest, Cursor(keys, index));
    hide Annotated, Moved;
  }

  /** A line without a colon only shortens the stack. */
  lemma AnnotatesOther(docs: Docs, spaces: nat, text: string, rest: seq<string>, keys: Path, index: nat)
    requires text != "" && !White(text[0]) && ':' !in text
    ensures var line := Spaces(spaces) + text;
            Annotated(docs, [line] + rest, Cursor(keys, index))
            == [line] + Annotated(docs, rest, Cursor(Kept(keys, spaces), index))
  {
    var line := Spaces(spaces) + text;
    IndentIs(spaces, text);
    assert ':' !in line;
    hide Indent, Spaces, White;
    assert Moved(Cursor(keys, index), line) == Cursor(Kept(keys, spaces), index);
    AnnotatesFirst(docs, line, rest, Cursor(keys, index));
    assert CommentsFor(docs, Moved(Cursor(keys, index), line), line) == [];
    hide Annotated, Moved;
  }
}
