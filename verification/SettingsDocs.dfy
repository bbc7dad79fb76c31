/** Documented settings: what is serialized, and the table of docs that `add_docs` fills in. */
module SettingsDocs {
  import opened Base
  import TextItems

  /** Settings as the generated and built-in implementations see them. */
  datatype Settings =
    | Plain(text: string)                        // numbers, strings, unit enums: no docs of their own
    | Struct(members: seq<Member>)
    | Mapping(entries: seq<MapEntry>)
    | Sequence(items: seq<Settings>)
    | Absent(shown: string)                      // an option without a value, shown as `~` or `null`
    | Present(inner: Settings)

  datatype MapEntry = MapEntry(key: string, value: Settings)

  datatype Member = Member(name: string, docs: seq<string>, flatten: bool, value: Settings)

  /** What the serializer sees: flattened members are merged into their parent, an absent option is a scalar. */
  datatype Tree = Leaf(text: string) | Node(entries: seq<Entry>) | Items(items: seq<Tree>)

  datatype Entry = Entry(name: string, docs: seq<string>, tree: Tree)

  type Path = seq<string>
  type Docs = map<Path, seq<string>>

  function Normal(s: Settings): Tree {
    match s
    case Plain(text) => Leaf(text)
    case Struct(members) => Node(MemberEntries(members))
    case Mapping(entries) => Node(MappingEntries(entries))
    case Sequence(items) => Items(NormalItems(items))
    case Absent(shown) => Leaf(shown)
    case Present(value) => Normal(value)
  }

  function MemberEntries(members: seq<Member>): seq<Entry> {
    if members == [] then []
    else
      var tree := Normal(members[0].value);
      (if !members[0].flatten then [Entry(members[0].name, members[0].docs, tree)]
       else if tree.Node? then tree.entries else [])
      + MemberEntries(members[1..])
  }

  function MappingEntries(entries: seq<MapEntry>): seq<Entry> {
    if entries == [] then []
    else [Entry(entries[0].key, [], Normal(entries[0].value))] + MappingEntries(entries[1..])
  }

  function NormalItems(items: seq<Settings>): seq<Tree> {
    if items == [] then [] else [Normal(items[0])] + NormalItems(items[1..])
  }

  /** Only structs, maps and absent options are flattened; the serializer refuses lists. */
  predicate Flattenable(s: Settings)
    decreases s
  {
    match s
    case Plain(_) => true
    case Struct(members) => FlattenableMembers(members)
    case Mapping(entries) => forall i :: 0 <= i < |entries| ==> Flattenable(entries[i].value)
    case Sequence(items) => forall i :: 0 <= i < |items| ==> Flattenable(items[i])
    case Absent(_) => true
    case Present(value) => Flattenable(value)
  }

  predicate FlattenableMembers(members: seq<Member>)
    decreases members
  {
    forall i :: 0 <= i < |members| ==>
      Flattenable(members[i].value) && (members[i].flatten ==> !Normal(members[i].value).Items?)
  }

  /** No two fields of one struct or map share a name, counting flattened ones. */
  predicate Distinct(t: Tree)
    decreases t
  {
    match t
    case Leaf(_) => true
    case Node(entries) => DistinctEntries(entries)
    case Items(items) => forall i :: 0 <= i < |items| ==> Distinct(items[i])
  }

  predicate DistinctEntries(entries: seq<Entry>)
    decreases entries
  {
    && (forall i, j :: 0 <= i < j < |entries| ==> entries[i].name != entries[j].name)
    && forall i :: 0 <= i < |entries| ==> Distinct(entries[i].tree)
  }

  // ---- the docs at a path of the tree ---------------------------------------------------------

  /** The docs of the field at a path below a tree; none where there is no field. */
  function DocsAt(t: Tree, path: Path): seq<string>
    requires path != []
    decreases t
  {
    match t
    case Leaf(_) => []
    case Node(entries) => DocsIn(entries, path)
    case Items(items) => DocsInItem(items, 0, path)
  }

  function DocsIn(entries: seq<Entry>, path: Path): seq<string>
    requires path != []
    decreases entries
  {
    if entries == [] then []
    else if entries[0].name != path[0] then DocsIn(entries[1..], path)
    else if |path| == 1 then entries[0].docs
    else DocsAt(entries[0].tree, path[1..])
  }

  function DocsInItem(items: seq<Tree>, i: nat, path: Path): seq<string>
    requires path != []
    decreases items
  {
    if items == [] then []
    else if TextItems.Decimal(i) != path[0] then DocsInItem(items[1..], i + 1, path)
    else if |path| == 1 then []
    else DocsAt(items[0], path[1..])
  }

  // ---- add_docs -----------------------------------------------------------------------------

  function With(docs: Docs, key: Path, comments: seq<string>): Docs {
    if comments == [] then docs else docs[key := comments]
  }

  function AddedDocs(s: Settings, parent: Path, docs: Docs): Docs
    decreases s
  {
    match s
    case Plain(_) => docs
    case Struct(members) => AddedMembers(members, parent, docs)
    case Mapping(entries) => AddedEntries(entries, parent, docs)
    case Sequence(items) => AddedItems(items, 0, parent, docs)
    case Absent(_) => docs
    case Present(value) => AddedDocs(value, parent, docs)
  }

  function AddedMember(m: Member, parent: Path, docs: Docs): Docs
    decreases m
  {
    if m.flatten then AddedDocs(m.value, parent, docs)
    else With(AddedDocs(m.value, parent + [m.name], docs), parent + [m.name], m.docs)
  }

  function AddedMembers(members: seq<Member>, parent: Path, docs: Docs): Docs
    decreases members
  {
    if members == [] then docs
    else AddedMember(members[|members| - 1], parent, AddedMembers(members[..|members| - 1], parent, docs))
  }

  function AddedEntries(entries: seq<MapEntry>, parent: Path, docs: Docs): Docs
    decreases entries
  {
    if entries == [] then docs
    else
      var last := entries[|entries| - 1];
      AddedDocs(last.value, parent + [last.key], AddedEntries(entries[..|entries| - 1], parent, docs))
  }

  function AddedItems(items: seq<Settings>, i: nat, parent: Path, docs: Docs): Docs
    decreases items
  {
    if items == [] then docs
    else
      AddedItems(items[1..], i + 1, parent, AddedDocs(items[0], parent + [TextItems.Decimal(i)], docs))
  }

  class DocTable {
    var docs: Docs

    constructor ()
      ensures docs == map[]
    {
      docs := map[];
    }

    method AddDocs(s: Settings, parentKey: Path)
      modifies this
      ensures docs == AddedDocs(s, parentKey, old(docs))
      decreases s
    {
      match s
      case Plain(_) =>
      case Struct(members) =>
        for i := 0 to |members|
          invariant docs == AddedMembers(members[..i], parentKey, old(docs))
        {
          AddMemberDocs(members[i], parentKey);
          assert members[..i + 1][..i] == members[..i];
        }
        assert members[..|members|] == members;
      case Mapping(entries) =>
        for i := 0 to |entries|
          invariant docs == AddedEntries(entries[..i], parentKey, old(docs))
        {
          AddDocs(entries[i].value, parentKey + [entries[i].key]);
          assert entries[..i + 1][..i] == entries[..i];
        }
        assert entries[..|entries|] == entries;
      case Sequence(items) =>
        var key := parentKey;
        for i := 0 to |items|
          invariant key == parentKey
          invariant AddedItems(items[i..], i, parentKey, docs) == AddedItems(items, 0, parentKey, old(docs))
        {
          key := key + [TextItems.Decimal(i)];
          AddDocs(items[i], key);
          key := key[..|key| - 1];
          assert items[i..][1..] == items[i + 1..];
        }
        assert items[|items|..] == [];
      case Absent(_) =>
      case Present(value) => AddDocs(value, parentKey);
    }

    method AddMemberDocs(m: Member, parentKey: Path)
      modifies this
      ensures docs == AddedMember(m, parentKey, old(docs))
      decreases m
    {
      if m.flatten {
        AddDocs(m.value, parentKey);
        return;
      }
      var key := parentKey + [m.name];
      AddDocs(m.value, key);
      if m.docs != [] {
        docs := docs[key := m.docs];
      }
    }
  }

  // ---- what the table holds -------------------------------------------------------------

  function Lookup(docs: Docs, key: Path): seq<string> {
    if key in docs then docs[key] else []
  }

  function Or(own: seq<string>, otherwise: seq<string>): seq<string> {
    if own != [] then own else otherwise
  }

  /** The docs a subtree placed at `parent` has for an absolute key. */
  function Own(t: Tree, parent: Path, key: Path): seq<string> {
    if parent < key then DocsAt(t, key[|parent|..]) else []
  }

  function OwnIn(entries: seq<Entry>, parent: Path, key: Path): seq<string> {
    if parent < key then DocsIn(entries, key[|parent|..]) else []
  }

  function OwnItem(items: seq<Tree>, i: nat, parent: Path, key: Path): seq<string> {
    if parent < key then DocsInItem(items, i, key[|parent|..]) else []
  }

  predicate NamedIn(entries: seq<Entry>, name: string) {
    exists i :: 0 <= i < |entries| && entries[i].name == name
  }

  lemma {:induction false} DocsInAppend(a: seq<Entry>, b: seq<Entry>, path: Path)
    requires path != []
    ensures DocsIn(a + b, path) == if NamedIn(a, path[0]) then DocsIn(a, path) else DocsIn(b, path)
    ensures !NamedIn(a, path[0]) ==> DocsIn(a, path) == []
  {
    if a == [] {
      assert a + b == b;
    } else {
      DocsInAppend(a[1..], b, path);
      assert (a + b)[1..] == a[1..] + b;
      if a[0].name != path[0] {
        assert NamedIn(a, path[0]) <==> NamedIn(a[1..], path[0]) by {
          assert forall i :: 0 < i < |a| ==> a[i] == a[1..][i - 1];
          assert forall i :: 0 <= i < |a[1..]| ==> a[1..][i] == a[i + 1];
        }
      }
    }
  }

  lemma {:induction false} MemberEntriesAppend(a: seq<Member>, b: seq<Member>)
    ensures MemberEntries(a + b) == MemberEntries(a) + MemberEntries(b)
  {
    if a == [] {
      assert a + b == b;
    } else {
      hide Normal;
      MemberEntriesAppend(a[1..], b);
      assert (a + b)[1..] == a[1..] + b;
      var tree := Normal(a[0].value);
      var own :=
        if !a[0].flatten then [Entry(a[0].name, a[0].docs, tree)] else if tree.Node? then tree.entries else [];
      ConcatAssoc(own, MemberEntries(a[1..]), MemberEntries(b));
    }
  }

  lemma {:induction false} MappingEntriesAppend(a: seq<MapEntry>, b: seq<MapEntry>)
    ensures MappingEntries(a + b) == MappingEntries(a) + MappingEntries(b)
  {
    if a == [] {
      assert a + b == b;
    } else {
      hide Normal;
      MappingEntriesAppend(a[1..], b);
      assert (a + b)[1..] == a[1..] + b;
      ConcatAssoc([Entry(a[0].key, [], Normal(a[0].value))], MappingEntries(a[1..]), MappingEntries(b));
    }
  }

  lemma DistinctAppend(a: seq<Entry>, b: seq<Entry>)
    requires DistinctEntries(a + b)
    ensures DistinctEntries(a) && DistinctEntries(b)
    ensures forall name :: NamedIn(a, name) ==> !NamedIn(b, name)
  {
    var both := a + b;
    assert forall i :: 0 <= i < |a| ==> both[i] == a[i];
    assert forall i :: 0 <= i < |b| ==> both[|a| + i] == b[i];
  }

  /** One field placed at `parent`: its own docs at its name, the docs of its value below. */
  lemma OneEntry(e: Entry, parent: Path, key: Path)
    ensures OwnIn([e], parent, key)
         == if key == parent + [e.name] then e.docs else Own(e.tree, parent + [e.name], key)
  {
    if parent < key {
      var rel := key[|parent|..];
      assert key == parent + rel;
      if rel[0] == e.name {
        assert key == parent + [e.name] + rel[1..];
        assert |rel| > 1 ==> key[|parent| + 1..] == rel[1..];
        assert |rel| == 1 ==> rel == [e.name];
      } else {
        assert key[|parent|] != e.name;
        assert DocsIn([e][1..], rel) == [];
      }
    }
  }

  /** The two ways fields can be combined: later ones are looked up where earlier ones have no such name. */
  lemma OwnAppend(a: seq<Entry>, b: seq<Entry>, parent: Path, key: Path)
    requires DistinctEntries(a + b)
    ensures OwnIn(a + b, parent, key) == Or(OwnIn(b, parent, key), OwnIn(a, parent, key))
  {
    DistinctAppend(a, b);
    if parent < key {
      var rel := key[|parent|..];
      DocsInAppend(a, b, rel);
      DocsInAppend(b, [], rel);
      assert b + [] == b;
    }
  }

  lemma {:induction false} NoSuchItem(items: seq<Tree>, i: nat, path: Path, k: nat)
    requires path != [] && path[0] == TextItems.Decimal(k) && k < i
    ensures DocsInItem(items, i, path) == []
  {
    if items != [] {
      TextItems.DecimalRoundTrip(k);
      TextItems.DecimalRoundTrip(i);
      NoSuchItem(items[1..], i + 1, path, k);
    }
  }

  lemma FirstItem(items: seq<Tree>, i: nat, parent: Path, key: Path)
    requires items != []
    ensures OwnItem(items, i, parent, key)
         == Or(OwnItem(items[1..], i + 1, parent, key), Own(items[0], parent + [TextItems.Decimal(i)], key))
  {
    var name := TextItems.Decimal(i);
    if parent < key {
      var rel := key[|parent|..];
      assert key == parent + rel;
      if rel[0] == name {
        NoSuchItem(items[1..], i + 1, rel, i);
        assert key == parent + [name] + rel[1..];
        assert |rel| > 1 ==> key[|parent| + 1..] == rel[1..];
      } else {
        assert key[|parent|] != name;
      }
    }
  }

  /**
   What `add_docs` does to the shared table: exactly the keys of documented fields
   below `parent` get those fields' docs, and every other key is left alone.
   */
  lemma {:induction false} AddedDocsAreTheFieldsDocs(s: Settings, parent: Path, docs: Docs, key: Path)
    requires Flattenable(s) && Distinct(Normal(s))
    ensures Lookup(AddedDocs(s, parent, docs), key) == Or(Own(Normal(s), parent, key), Lookup(docs, key))
    decreases s
  {
    match s
    case Plain(_) =>
    case Struct(members) => AddedMembersAre(members, parent, docs, key);
    case Mapping(entries) => AddedEntriesAre(entries, parent, docs, key);
    case Sequence(items) => AddedItemsAre(items, 0, parent, docs, key);
    case Absent(_) =>
    case Present(value) => AddedDocsAreTheFieldsDocs(value, parent, docs, key);
  }

  lemma {:induction false} AddedMembersAre(members: seq<Member>, parent: Path, docs: Docs, key: Path)
    requires FlattenableMembers(members) && DistinctEntries(MemberEntries(members))
    ensures Lookup(AddedMembers(members, parent, docs), key)
         == Or(OwnIn(MemberEntries(members), parent, key), Lookup(docs, key))
    decreases members
  {
    if members != [] {
      var n := |members| - 1;
      var last, before := members[n], members[..n];
      assert members == before + [last];
      MemberEntriesAppend(before, [last]);
      DistinctAppend(MemberEntries(before), MemberEntries([last]));
      OwnAppend(MemberEntries(before), MemberEntries([last]), parent, key);
      AddedMembersAre(before, parent, docs, key);
      AddedMemberIs(last, parent, AddedMembers(before, parent, docs), key);
    }
  }

  lemma {:induction false} AddedMemberIs(m: Member, parent: Path, docs: Docs, key: Path)
    requires FlattenableMembers([m]) && DistinctEntries(MemberEntries([m]))
    ensures Lookup(AddedMember(m, parent, docs), key) == Or(OwnIn(MemberEntries([m]), parent, key), Lookup(docs, key))
    decreases m
  {
    var tree := Normal(m.value);
    assert [m][0] == m && [m][1..] == [];
    if m.flatten {
      assert MemberEntries([m]) == if tree.Node? then tree.entries else [];
      AddedDocsAreTheFieldsDocs(m.value, parent, docs, key);
    } else {
      var e := Entry(m.name, m.docs, tree);
      assert MemberEntries([m]) == [e];
      assert Distinct([e][0].tree);
      OneEntry(e, parent, key);
      AddedDocsAreTheFieldsDocs(m.value, parent + [m.name], docs, key);
    }
  }

  lemma {:induction false} AddedEntriesAre(entries: seq<MapEntry>, parent: Path, docs: Docs, key: Path)
    requires forall i :: 0 <= i < |entries| ==> Flattenable(entries[i].value)
    requires DistinctEntries(MappingEntries(entries))
    ensures Lookup(AddedEntries(entries, parent, docs), key)
         == Or(OwnIn(MappingEntries(entries), parent, key), Lookup(docs, key))
    decreases entries
  {
    if entries != [] {
      var n := |entries| - 1;
      var last, before := entries[n], entries[..n];
      assert entries == before + [last];
      MappingEntriesAppend(before, [last]);
      var e := Entry(last.key, [], Normal(last.value));
      assert [last][1..] == [];
      assert MappingEntries([last]) == [e];
      DistinctAppend(MappingEntries(before), [e]);
      assert Distinct([e][0].tree);
      OwnAppend(MappingEntries(before), [e], parent, key);
      AddedEntriesAre(before, parent, docs, key);
      OneEntry(e, parent, key);
      AddedDocsAreTheFieldsDocs(last.value, parent + [last.key], AddedEntries(before, parent, docs), key);
    }
  }

  lemma {:induction false} AddedItemsAre(items: seq<Settings>, i: nat, parent: Path, docs: Docs, key: Path)
    requires forall k :: 0 <= k < |items| ==> Flattenable(items[k])
    requires forall k :: 0 <= k < |NormalItems(items)| ==> Distinct(NormalItems(items)[k])
    ensures Lookup(AddedItems(items, i, parent, docs), key)
         == Or(OwnItem(NormalItems(items), i, parent, key), Lookup(docs, key))
    decreases items
  {
    if items != [] {
      var trees := NormalItems(items);
      assert trees[0] == Normal(items[0]) && trees[1..] == NormalItems(items[1..]);
      assert forall k :: 0 <= k < |trees[1..]| ==> trees[1..][k] == trees[k + 1];
      FirstItem(trees, i, parent, key);
      var name := TextItems.Decimal(i);
      AddedDocsAreTheFieldsDocs(items[0], parent + [name], docs, key);
      AddedItemsAre(items[1..], i + 1, parent, AddedDocs(items[0], parent + [name], docs), key);
    }
  }
}
