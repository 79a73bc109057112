/** The YAML nodes themselves: a tree of objects that setting and removing a path rewrites in place. */
module YamlNodes {
  import opened Wrappers
  import opened YamlTree

  datatype Kind = ScalarKind | SequenceKind | MappingKind

  function Childless(kind: Kind, tag: string, value: string): Tree {
    match kind
    case ScalarKind => Scalar(tag, value, 0)
    case SequenceKind => Sequence([])
    case MappingKind => Mapping([])
  }

  /** A mapping's content holds its keys and values in turn. */
  class Node {
    var kind: Kind
    var tag: string
    var value: string
    var style: nat
    var content: seq<Node>
    ghost var Model: Tree
    ghost var Repr: set<Node>

    constructor (kind: Kind, tag: string, value: string)
      ensures Valid() && fresh(Repr) && Repr == {this}
      ensures this.kind == kind && this.value == value && content == []
      ensures Model == Childless(kind, tag, value)
    {
      this.kind, this.tag, this.value := kind, tag, value;
      style, content := 0, [];
      Model := Childless(kind, tag, value);
      Repr := {this};
    }

    ghost predicate Valid()
      reads this, Repr
      decreases Repr, 0
    {
      && this in Repr
      && Forest(content, Repr - {this})
      && StandsFor(Model)
    }

    /** Valid nodes that share nothing, all of them inside `within`. */
    static ghost predicate Forest(nodes: seq<Node>, within: set<Node>)
      reads within
      decreases within, 1
    {
      && (forall i :: 0 <= i < |nodes| ==> nodes[i] in within && nodes[i].Repr <= within && nodes[i].Valid())
      && (forall i, j :: 0 <= i < j < |nodes| ==> nodes[i].Repr !! nodes[j].Repr)
    }

    /** The node's own fields and what its children stand for make up the tree. */
    ghost predicate StandsFor(t: Tree)
      reads this, content
    {
      match t
      case Scalar(_, _, _) => kind == ScalarKind && content == [] && t == Scalar(tag, value, style)
      case Sequence(items) =>
        kind == SequenceKind && |content| == |items| && forall k :: 0 <= k < |items| ==> items[k] == content[k].Model
      case Mapping(entries) => kind == MappingKind && Holds(content, entries)
    }

    /** Keys and values in turn. */
    static ghost predicate Holds(nodes: seq<Node>, entries: seq<Entry>)
      reads nodes
    {
      |nodes| == 2 * |entries| && forall k :: 0 <= k < |entries| ==>
        entries[k].key == nodes[2 * k].value && entries[k].value == nodes[2 * k + 1].Model
    }

    /** The position of the first key equal to `key`, or the end of the content. */
    method MappingEntry(key: string) returns (i: nat)
      requires Valid() && kind == MappingKind
      ensures i % 2 == 0 && i <= |content| && i / 2 == Find(Model.entries, key)
    {
      i := 0;
      while i < |content|
        invariant i % 2 == 0 && 0 <= i <= |content|
        invariant forall k :: 0 <= k < i / 2 ==> Model.entries[k].key != key
      {
        assert Model.entries[i / 2].key == content[2 * (i / 2)].value;
        if content[i].value == key {
          FindUnique(Model.entries, key, i / 2);
          return;
        }
        i := i + 2;
      }
      FindUnique(Model.entries, key, i / 2);
    }

    /** What a caller may know of the node itself. */
    lemma Opened()
      requires Valid()
      ensures this in Repr && Forest(content, Repr - {this}) && (Model.Mapping? <==> kind == MappingKind)
      ensures kind == MappingKind ==> Holds(content, Model.entries) && |content| == 2 * |Model.entries|
    {
    }

    lemma Closed()
      requires kind == MappingKind && this in Repr && Forest(content, Repr - {this})
      requires Model.Mapping? && Holds(content, Model.entries)
      ensures Valid()
    {
    }

    /** What a caller may know of the child at `c`. */
    lemma Child(c: nat)
      requires Valid() && c < |content|
      ensures this in Repr && content[c].Valid() && content[c] in content[c].Repr && content[c].Repr <= Repr - {this}
      ensures content[c].Model.Mapping? <==> content[c].kind == MappingKind
      ensures content[c].Model.Scalar? <==> content[c].kind == ScalarKind
      ensures kind == MappingKind && c % 2 == 1 ==>
        Model.Mapping? && c / 2 < |Model.entries| && Model.entries[c / 2].value == content[c].Model
    {
      assert c % 2 == 1 ==> c == 2 * (c / 2) + 1;
    }

    /** One step down a path; null where the mappings end. */
    method Step(path: Path) returns (child: Node?)
      requires Valid() && path != []
      ensures child == null ==> Lookup(Model, path).None?
      ensures child != null ==> child in Repr && child.Valid() && child.Repr <= Repr
      ensures child != null ==> Lookup(Model, path) == Lookup(child.Model, path[1..])
    {
      Opened();
      LookupStep(Model, path);
      hide *;
      child := null;
      if kind == MappingKind {
        var i := MappingEntry(path[0]);
        if i < |content| {
          Child(i + 1);
          child := content[i + 1];
        }
      }
    }

    /** The loop that walks a path; null when it leaves the mappings. */
    method LookupPath(path: Path) returns (found: Node?)
      requires Valid()
      ensures found == null <==> Lookup(Model, path).None?
      ensures found != null ==> found in Repr && found.Valid() && found.Repr <= Repr
      ensures found != null ==> Lookup(Model, path) == Some(found.Model)
    {
      Opened();
      hide *;
      var current: Node? := this;
      var k := 0;
      assert path[0..] == path;
      while k < |path|
        invariant 0 <= k <= |path|
        invariant current in Repr && current.Valid() && current.Repr <= Repr
        invariant Lookup(Model, path) == Lookup(current.Model, path[k..])
      {
        assert path[k..][0] == path[k] && path[k..][1..] == path[k + 1..];
        current := current.Step(path[k..]);
        if current == null {
          return null;
        }
        k := k + 1;
      }
      LookupStep(current.Model, path[k..]);
      return current;
    }

    // -------------------------------------------------------------- editing in place

    /** The set of objects below a value to be written; null is a value that cannot be written as YAML. */
    static ghost function ReprOf(node: Node?): set<Node>
      reads if node == null then {} else {node}
    {
      if node == null then {} else node.Repr
    }

    static ghost function ModelOf(node: Node?): Option<Tree>
      reads if node == null then {} else {node}
    {
      if node == null then None else Some(node.Model)
    }

    static lemma GrownForest(nodes: seq<Node>, within: set<Node>, key: Node, child: Node)
      requires Forest(nodes, within) && key.Valid() && child.Valid()
      requires key.Repr == {key} && key !in within && key !in child.Repr && child.Repr !! within
      ensures Forest(nodes + [key, child], within + {key} + child.Repr)
    {
      var all, whole := nodes + [key, child], within + {key} + child.Repr;
      var n := |nodes|;
      assert child in child.Repr;
      assert all[n] == key && all[n + 1] == child && forall i :: 0 <= i < n ==> all[i] == nodes[i];
    }

    static lemma GrownEntries(nodes: seq<Node>, entries: seq<Entry>, key: Node, child: Node)
      requires Holds(nodes, entries)
      ensures Holds(nodes + [key, child], entries + [Entry(key.value, child.Model)])
    {
      var all, more := nodes + [key, child], entries + [Entry(key.value, child.Model)];
      forall k | 0 <= k < |more| ensures more[k].key == all[2 * k].value && more[k].value == all[2 * k + 1].Model {
        if k < |entries| {
          assert all[2 * k] == nodes[2 * k] && all[2 * k + 1] == nodes[2 * k + 1] && more[k] == entries[k];
        }
      }
    }

    /** Appends a key and its value to a mapping. */
    method AppendEntry(key: string, child: Node)
      requires Valid() && kind == MappingKind && child.Valid() && child.Repr !! Repr
      modifies this`content, this`Repr, this`Model
      ensures Valid() && kind == MappingKind && fresh(Repr - old(Repr) - child.Repr)
      ensures |content| == |old(content)| + 2
      ensures Model == Mapping(old(Model).entries + [Entry(key, child.Model)])
    {
      Opened();
      hide *;
      var keyNode := new Node(ScalarKind, "!!str", key);
      GrownForest(content, Repr - {this}, keyNode, child);
      GrownEntries(content, Model.entries, keyNode, child);
      ghost var within := Repr - {this} + {keyNode} + child.Repr;
      content := content + [keyNode, child];
      Repr := Repr + {keyNode} + child.Repr;
      Model := Mapping(Model.entries + [Entry(key, child.Model)]);
      assert Repr - {this} == within;
      Closed();
    }

    static lemma UpdatedForest(nodes: seq<Node>, within: set<Node>, c: nat, child: Node)
      requires Forest(nodes, within) && c < |nodes| && child.Valid() && child.Repr !! within
      ensures Forest(nodes[c := child], within + child.Repr)
    {
      assert child in child.Repr;
    }

    static lemma UpdatedEntries(nodes: seq<Node>, entries: seq<Entry>, c: nat, child: Node)
      requires Holds(nodes, entries) && c % 2 == 1 && c < |nodes|
      ensures Holds(nodes[c := child], entries[c / 2 := Entry(entries[c / 2].key, child.Model)])
    {
      var all, more := nodes[c := child], entries[c / 2 := Entry(entries[c / 2].key, child.Model)];
      forall k | 0 <= k < |more| ensures more[k].key == all[2 * k].value && more[k].value == all[2 * k + 1].Model {
        assert entries[k].key == nodes[2 * k].value;
      }
    }

    /** Puts another node in the place of a value. */
    method ReplaceValue(c: nat, child: Node)
      requires Valid() && kind == MappingKind && c % 2 == 1 && c < |content| && child.Valid() && child.Repr !! Repr
      modifies this`content, this`Repr, this`Model
      ensures Valid() && kind == MappingKind && Repr == old(Repr) + child.Repr
      ensures Model == Mapping(old(Model).entries[c / 2 := Entry(old(Model).entries[c / 2].key, child.Model)])
    {
      Opened();
      hide *;
      UpdatedForest(content, Repr - {this}, c, child);
      UpdatedEntries(content, Model.entries, c, child);
      ghost var within := Repr - {this} + child.Repr;
      content := content[c := child];
      Repr := Repr + child.Repr;
      Model := Mapping(Model.entries[c / 2 := Entry(Model.entries[c / 2].key, child.Model)]);
      assert Repr - {this} == within;
      Closed();
    }

    /** Overwrites a scalar in place; its style stays while its tag does. */
    method Rewrite(replacement: Node)
      requires Valid() && kind == ScalarKind && replacement.Valid() && replacement.kind == ScalarKind
      modifies this`tag, this`value, this`style, this`Model
      ensures Valid() && Model == Replaced(old(Model), old(replacement.Model))
    {
      Model := Replaced(Model, replacement.Model);
      var sameTag := tag == replacement.tag;
      tag, value := replacement.tag, replacement.value;
      if !sameTag {
        style := replacement.style;
      }
    }

    static lemma ShrunkForest(nodes: seq<Node>, within: set<Node>, i: nat)
      requires Forest(nodes, within) && i + 2 <= |nodes|
      ensures Forest(nodes[..i] + nodes[i + 2..], within)
    {
      var rest := nodes[..i] + nodes[i + 2..];
      assert forall k :: 0 <= k < |rest| ==> rest[k] == nodes[if k < i then k else k + 2];
    }

    static lemma ShrunkEntries(nodes: seq<Node>, entries: seq<Entry>, i: nat)
      requires Holds(nodes, entries) && i % 2 == 0 && i < |nodes|
      ensures Holds(nodes[..i] + nodes[i + 2..], entries[..i / 2] + entries[i / 2 + 1..])
    {
      var rest, fewer := nodes[..i] + nodes[i + 2..], entries[..i / 2] + entries[i / 2 + 1..];
      forall k | 0 <= k < |fewer| ensures fewer[k].key == rest[2 * k].value && fewer[k].value == rest[2 * k + 1].Model {
        var was := if k < i / 2 then k else k + 1;
        assert fewer[k] == entries[was] && rest[2 * k] == nodes[2 * was] && rest[2 * k + 1] == nodes[2 * was + 1];
      }
    }

    /** Takes a key and its value out of a mapping. */
    method DropEntry(i: nat)
      requires Valid() && kind == MappingKind && i % 2 == 0 && i < |content|
      modifies this`content, this`Model
      ensures Valid() && kind == MappingKind && Repr == old(Repr)
      ensures Model == Mapping(old(Model).entries[..i / 2] + old(Model).entries[i / 2 + 1..])
    {
      Opened();
      hide *;
      ShrunkForest(content, Repr - {this}, i);
      ShrunkEntries(content, Model.entries, i);
      content := content[..i] + content[i + 2..];
      Model := Mapping(Model.entries[..i / 2] + Model.entries[i / 2 + 1..]);
      Closed();
    }

    /** A change below the value at `c` leaves the nodes around it as they were. */
    twostate lemma SiblingsKeep(c: nat)
      requires old(Valid()) && unchanged(this) && c < |content|
      requires forall o :: o in Repr && o !in old(content[c].Repr) ==> unchanged(o)
      requires content[c].Valid() && forall o :: o in content[c].Repr && o !in old(content[c].Repr) ==> o !in Repr
      ensures Forest(content, Repr - {this} + content[c].Repr)
      ensures forall i :: 0 <= i < |content| && i != c ==>
        content[i].value == old(content[i].value) && content[i].Model == old(content[i].Model)
    {
      assert content[c] in content[c].Repr && old(Forest(content, Repr - {this}));
      forall i | 0 <= i < |content| && i != c
        ensures content[i].Valid() && unchanged(content[i]) && content[i].Repr !! content[c].Repr
      {
        assert old(content[i].Valid() && content[i] in content[i].Repr);
        assert forall o :: o in old(content[i].Repr) ==> o in Repr && o !in old(content[c].Repr);
      }
    }

    /** Nor does it change what a mapping holds there. */
    twostate lemma EntriesKeep(c: nat)
      requires old(Valid()) && unchanged(this) && kind == MappingKind && c % 2 == 1 && c < |content|
      requires forall o :: o in Repr && o !in old(content[c].Repr) ==> unchanged(o)
      requires content[c].Valid() && forall o :: o in content[c].Repr && o !in old(content[c].Repr) ==> o !in Repr
      ensures Forest(content, Repr - {this} + content[c].Repr)
      ensures Model.Mapping? && |content| == 2 * |Model.entries|
      ensures Holds(content, Model.entries[c / 2 := Entry(Model.entries[c / 2].key, content[c].Model)])
    {
      SiblingsKeep(c);
      var entries := Model.entries;
      var more := entries[c / 2 := Entry(entries[c / 2].key, content[c].Model)];
      forall k | 0 <= k < |more|
        ensures more[k].key == content[2 * k].value && more[k].value == content[2 * k + 1].Model
      {
        assert entries[k].key == old(content[2 * k].value) && entries[k].value == old(content[2 * k + 1].Model);
        assert 2 * k != c && (k == c / 2 <==> 2 * k + 1 == c);
      }
    }

    /** Brings this mapping up to date with what changed below its value at `c`. */
    ghost method Adopt(c: nat)
      requires kind == MappingKind && c % 2 == 1 && c < |content| && this in Repr && Model.Mapping?
      requires Forest(content, Repr - {this} + content[c].Repr) && this !in content[c].Repr
      requires |content| == 2 * |Model.entries|
      requires Holds(content, Model.entries[c / 2 := Entry(Model.entries[c / 2].key, content[c].Model)])
      modifies this`Repr, this`Model
      ensures Valid() && Repr == old(Repr) + old(content[c].Repr)
      ensures Model == Mapping(old(Model).entries[c / 2 := Entry(old(Model).entries[c / 2].key, old(content[c].Model))])
    {
      assert this !in content;
      hide *;
      ghost var within := Repr - {this} + content[c].Repr;
      Repr, Model := Repr + content[c].Repr,
        Mapping(Model.entries[c / 2 := Entry(Model.entries[c / 2].key, content[c].Model)]);
      assert Repr - {this} == within;
      Closed();
    }

    // -------------------------------------------------------------- setting

    /** Overwrites the scalar value of an entry. */
    method RewriteValue(c: nat, replacement: Node)
      requires Valid() && kind == MappingKind && c % 2 == 1 && c < |content| && content[c].kind == ScalarKind
      requires replacement.Valid() && replacement.kind == ScalarKind && replacement.Repr !! Repr
      modifies content[c], this`Repr, this`Model
      ensures Valid() && kind == MappingKind && Repr == old(Repr)
      ensures Model.Mapping? && c / 2 < |old(Model).entries|
      ensures Model.entries == old(Model).entries[c / 2 :=
        Entry(old(Model).entries[c / 2].key, Replaced(old(Model).entries[c / 2].value, old(replacement.Model)))]
    {
      Opened();
      Child(c);
      hide *;
      label edit:
      content[c].Rewrite(replacement);
      EntriesKeep@edit(c);
      Adopt(c);
    }

    /** Gives the entry at `i` another value: a scalar over a scalar is rewritten, the rest replaced. */
    method PutValue(i: nat, replacement: Node)
      requires Valid() && kind == MappingKind && i % 2 == 0 && i < |content|
      requires replacement.Valid() && replacement.Repr !! Repr
      modifies Repr
      ensures Valid() && kind == MappingKind && fresh(Repr - old(Repr) - old(replacement.Repr))
      ensures Model.Mapping? && i / 2 < |old(Model).entries|
      ensures Model.entries == old(Model).entries[i / 2 :=
        Entry(old(Model).entries[i / 2].key, Replaced(old(Model).entries[i / 2].value, old(replacement.Model)))]
    {
      Opened();
      Child(i + 1);
      replacement.Opened();
      ReplacedIs(content[i + 1].Model, replacement.Model);
      assert replacement.Model.Scalar? <==> replacement.kind == ScalarKind;
      hide *;
      if content[i + 1].kind == ScalarKind && replacement.kind == ScalarKind {
        RewriteValue(i + 1, replacement);
      } else {
        ReplaceValue(i + 1, replacement);
      }
    }

    /** The end of a path: give an entry its value, or append one. */
    method SetLeaf(key: string, replacement: Node?) returns (ok: bool)
      requires Valid() && kind == MappingKind
      requires replacement != null ==> replacement.Valid() && replacement.Repr !! Repr
      modifies Repr
      ensures Valid() && kind == MappingKind
      ensures fresh(Repr - old(Repr) - old(ReprOf(replacement)))
      ensures Edit(ok, Model) == Set(old(Model), [key], old(ModelOf(replacement)))
    {
      Opened();
      SetEnds(Model, key, ModelOf(replacement));
      var i := MappingEntry(key);
      if replacement == null {
        return false;
      }
      assert ModelOf(replacement) == Some(replacement.Model) && ReprOf(replacement) == replacement.Repr;
      hide *;
      if i == |content| {
        AppendEntry(key, replacement);
      } else {
        PutValue(i, replacement);
      }
      return true;
    }

    /** The entry of a key on the way down, created as an empty mapping when there is none. */
    method EnsureEntry(key: string) returns (i: nat)
      requires Valid() && kind == MappingKind
      modifies this`content, this`Repr, this`Model
      ensures Valid() && kind == MappingKind && fresh(Repr - old(Repr))
      ensures i % 2 == 0 && i < |content| && i / 2 == Find(old(Model).entries, key)
      ensures Model == Reached(old(Model), key)
    {
      Opened();
      hide Valid, StandsFor, Forest, Holds;
      i := MappingEntry(key);
      if i == |content| {
        var created := new Node(MappingKind, "!!map", "");
        AppendEntry(key, created);
      }
    }

    /** Sets below the mapping that is the value at `c`. */
    method SetBelow(c: nat, path: Path, replacement: Node?) returns (ok: bool)
      requires Valid() && kind == MappingKind && c % 2 == 1 && c < |content| && path != []
      requires content[c].kind == MappingKind
      requires replacement != null ==> replacement.Valid() && replacement.Repr !! Repr
      modifies Repr
      ensures Valid() && kind == MappingKind
      ensures fresh(Repr - old(Repr) - old(ReprOf(replacement)))
      ensures Model.Mapping? && c / 2 < |old(Model).entries| && old(Model).entries[c / 2].value.Mapping?
      ensures var inner := Set(old(Model).entries[c / 2].value, path, old(ModelOf(replacement)));
        ok == inner.ok && Model.entries == old(Model).entries[c / 2 := Entry(old(Model).entries[c / 2].key, inner.tree)]
      decreases |path|, 2
    {
      Opened();
      Child(c);
      assert ReprOf(replacement) == if replacement == null then {} else replacement.Repr;
      hide *;
      label edit:
      ok := content[c].SetPath(path, replacement);
      EntriesKeep@edit(c);
      Adopt(c);
    }

    /** Walks to the last mapping of the path, creating mappings that are missing, and sets there. */
    method SetPath(path: Path, replacement: Node?) returns (ok: bool)
      requires Valid() && kind == MappingKind && path != []
      requires replacement != null ==> replacement.Valid() && replacement.Repr !! Repr
      modifies Repr
      ensures Valid() && kind == MappingKind && Model.Mapping? && old(Model).Mapping?
      ensures fresh(Repr - old(Repr) - old(ReprOf(replacement)))
      ensures Edit(ok, Model) == Set(old(Model), path, old(ModelOf(replacement)))
      decreases |path|, 1
    {
      Opened();
      hide *;
      if |path| == 1 {
        assert path == [path[0]];
        ok := SetLeaf(path[0], replacement);
      } else {
        ok := SetDeep(path, replacement);
      }
      Opened();
    }

    /** One step of the walk: reach the next entry, then set below it. */
    method SetDeep(path: Path, replacement: Node?) returns (ok: bool)
      requires Valid() && kind == MappingKind && |path| > 1
      requires replacement != null ==> replacement.Valid() && replacement.Repr !! Repr
      modifies Repr
      ensures Valid() && kind == MappingKind
      ensures fresh(Repr - old(Repr) - old(ReprOf(replacement)))
      ensures Edit(ok, Model) == Set(old(Model), path, old(ModelOf(replacement)))
      decreases |path|, 0
    {
      Opened();
      SetSteps(Model, path, ModelOf(replacement));
      hide *;
      var i := EnsureEntry(path[0]);
      ok := SetThrough(i, path[1..], replacement);
    }

    /** Sets below the entry at `i` if its value is a mapping. */
    method SetThrough(i: nat, path: Path, replacement: Node?) returns (ok: bool)
      requires Valid() && kind == MappingKind && i % 2 == 0 && i < |content| && path != []
      requires replacement != null ==> replacement.Valid() && replacement.Repr !! Repr
      modifies Repr
      ensures Valid() && kind == MappingKind && old(Model).Mapping? && i / 2 < |old(Model).entries|
      ensures fresh(Repr - old(Repr) - old(ReprOf(replacement)))
      ensures Edit(ok, Model) == SetIn(old(Model), i / 2, path, old(ModelOf(replacement)))
      decreases |path|, 3
    {
      Opened();
      Child(i + 1);
      assert SetIn(Model, i / 2, path, ModelOf(replacement)) ==
        if !content[i + 1].Model.Mapping? then Edit(false, Model)
        else var inner := Set(content[i + 1].Model, path, ModelOf(replacement));
             Edit(inner.ok, Mapping(Model.entries[i / 2 := Entry(Model.entries[i / 2].key, inner.tree)]));
      hide *;
      ok := false;
      if content[i + 1].kind == MappingKind {
        ok := SetBelow(i + 1, path, replacement);
        Opened();
      }
    }

    // -------------------------------------------------------------- removing

    /** Removes below the mapping that is the value at `c`. */
    method RemoveBelow(c: nat, path: Path) returns (ok: bool)
      requires Valid() && kind == MappingKind && c % 2 == 1 && c < |content| && path != []
      requires content[c].kind == MappingKind
      modifies Repr
      ensures Valid() && kind == MappingKind && Repr <= old(Repr)
      ensures Model.Mapping? && c / 2 < |old(Model).entries| && old(Model).entries[c / 2].value.Mapping?
      ensures var inner := Remove(old(Model).entries[c / 2].value, path);
        ok == inner.ok && Model.entries == old(Model).entries[c / 2 := Entry(old(Model).entries[c / 2].key, inner.tree)]
      decreases |path|, 2
    {
      Opened();
      Child(c);
      hide *;
      label edit:
      ok := content[c].RemovePath(path);
      EntriesKeep@edit(c);
      Adopt(c);
    }

    /** Walks down existing mappings and takes the last key out. */
    method RemovePath(path: Path) returns (ok: bool)
      requires Valid() && kind == MappingKind && path != []
      modifies Repr
      ensures Valid() && kind == MappingKind && Repr <= old(Repr) && old(Model).Mapping?
      ensures Edit(ok, Model) == Remove(old(Model), path)
      decreases |path|, 1
    {
      Opened();
      RemoveSteps(Model, path);
      hide *;
      var i := MappingEntry(path[0]);
      ok := i < |content|;
      if i < |content| {
        if |path| == 1 {
          DropEntry(i);
        } else {
          ok := RemoveThrough(i, path[1..]);
        }
      }
    }

    /** Removes below the entry at `i` if its value is a mapping. */
    method RemoveThrough(i: nat, path: Path) returns (ok: bool)
      requires Valid() && kind == MappingKind && i % 2 == 0 && i < |content| && path != []
      modifies Repr
      ensures Valid() && kind == MappingKind && Repr <= old(Repr) && old(Model).Mapping? && i / 2 < |old(Model).entries|
      ensures Edit(ok, Model) == RemoveIn(old(Model), i / 2, path)
      decreases |path|, 3
    {
      Opened();
      Child(i + 1);
      assert RemoveIn(Model, i / 2, path) ==
        if !content[i + 1].Model.Mapping? then Edit(false, Model)
        else var inner := Remove(content[i + 1].Model, path);
             Edit(inner.ok, Mapping(Model.entries[i / 2 := Entry(Model.entries[i / 2].key, inner.tree)]));
      hide *;
      ok := false;
      if content[i + 1].kind == MappingKind {
        ok := RemoveBelow(i + 1, path);
        Opened();
      }
    }

    // -------------------------------------------------------------- whole trees

    static lemma ExtendedForest(nodes: seq<Node>, within: set<Node>, child: Node)
      requires Forest(nodes, within) && child.Valid() && child.Repr !! within
      ensures Forest(nodes + [child], within + child.Repr)
    {
      var all := nodes + [child];
      assert child in child.Repr;
      assert all[|nodes|] == child && forall i :: 0 <= i < |nodes| ==> all[i] == nodes[i];
    }

    method AppendItem(child: Node)
      requires Valid() && kind == SequenceKind && child.Valid() && child.Repr !! Repr
      modifies this`content, this`Repr, this`Model
      ensures Valid() && kind == SequenceKind && Repr == old(Repr) + child.Repr
      ensures old(Model).Sequence? && Model == Sequence(old(Model).items + [child.Model])
    {
      ExtendedForest(content, Repr - {this}, child);
      hide Forest;
      ghost var within := Repr - {this} + child.Repr;
      content := content + [child];
      Repr := Repr + child.Repr;
      Model := Sequence(Model.items + [child.Model]);
      assert Repr - {this} == within;
      assert StandsFor(Model);
    }

    /** Reads the node and everything below it. */
    method Read() returns (t: Tree)
      requires Valid()
      ensures t == Model
      decreases Repr
    {
      if kind == ScalarKind {
        return Scalar(tag, value, style);
      }
      var items: seq<Tree> := [];
      var entries: seq<Entry> := [];
      for i := 0 to |content|
        invariant |items| == i && forall k :: 0 <= k < i ==> items[k] == content[k].Model
      {
        Child(i);
        var item := content[i].Read();
        items := items + [item];
      }
      if kind == SequenceKind {
        assert items == Model.items;
        return Sequence(items);
      }
      for i := 0 to |content| / 2
        invariant |entries| == i
        invariant forall k :: 0 <= k < i ==> entries[k] == Entry(content[2 * k].value, items[2 * k + 1])
      {
        entries := entries + [Entry(content[2 * i].value, items[2 * i + 1])];
      }
      assert entries == Model.entries;
      return Mapping(entries);
    }
  }

  /** New nodes for a tree. */
  method Build(t: Tree) returns (root: Node)
    ensures root.Valid() && fresh(root.Repr) && root.Model == t
    ensures t.Mapping? <==> root.kind == MappingKind
    decreases t, 1
  {
    match t {
      case Scalar(tag, value, style) =>
        root := new Node(ScalarKind, tag, value);
        root.style := style;
        root.Model := t;
      case Sequence(_) =>
        root := BuildSequence(t);
      case Mapping(_) =>
        root := BuildMapping(t);
    }
  }

  method BuildSequence(t: Tree) returns (root: Node)
    requires t.Sequence?
    ensures root.Valid() && fresh(root.Repr) && root.Model == t && root.kind == SequenceKind
    decreases t, 0
  {
    root := new Node(SequenceKind, "", "");
    for i := 0 to |t.items|
      invariant root.Valid() && fresh(root.Repr) && root.kind == SequenceKind && root.Model == Sequence(t.items[..i])
    {
      assert t.items[..i + 1] == t.items[..i] + [t.items[i]];
      hide *;
      var item := Build(t.items[i]);
      root.AppendItem(item);
    }
    assert t.items[..|t.items|] == t.items;
  }

  method BuildMapping(t: Tree) returns (root: Node)
    requires t.Mapping?
    ensures root.Valid() && fresh(root.Repr) && root.Model == t && root.kind == MappingKind
    decreases t, 0
  {
    root := new Node(MappingKind, "!!map", "");
    for i := 0 to |t.entries|
      invariant root.Valid() && fresh(root.Repr) && root.kind == MappingKind && root.Model == Mapping(t.entries[..i])
    {
      assert t.entries[..i + 1] == t.entries[..i] + [t.entries[i]];
      hide *;
      var value := Build(t.entries[i].value);
      root.AppendEntry(t.entries[i].key, value);
    }
    assert t.entries[..|t.entries|] == t.entries;
  }

  lemma LookupStep(t: Tree, path: Path)
    ensures path == [] ==> Lookup(t, path) == Some(t)
    ensures path != [] && !t.Mapping? ==> Lookup(t, path) == None
    ensures path != [] && t.Mapping? ==>
      var i := Find(t.entries, path[0]);
      Lookup(t, path) == if i == |t.entries| then None else Lookup(t.entries[i].value, path[1..])
  {
  }

  /** A mapping with an entry for `key`, an empty mapping if there was none. */
  function Reached(t: Tree, key: string): Tree
    requires t.Mapping?
  {
    if Find(t.entries, key) < |t.entries| then t else Mapping(t.entries + [Entry(key, Mapping([]))])
  }

  /** Setting below the value of the entry at `i`. */
  function SetIn(t: Tree, i: nat, path: Path, replacement: Option<Tree>): Edit
    requires t.Mapping? && i < |t.entries| && path != []
  {
    if !t.entries[i].value.Mapping? then Edit(false, t)
    else
      var inner := Set(t.entries[i].value, path, replacement);
      Edit(inner.ok, Mapping(t.entries[i := Entry(t.entries[i].key, inner.tree)]))
  }

  function RemoveIn(t: Tree, i: nat, path: Path): Edit
    requires t.Mapping? && i < |t.entries| && path != []
  {
    if !t.entries[i].value.Mapping? then Edit(false, t)
    else
      var inner := Remove(t.entries[i].value, path);
      Edit(inner.ok, Mapping(t.entries[i := Entry(t.entries[i].key, inner.tree)]))
  }

  /** One step down a path: reach the next entry, and set below it. */
  lemma SetSteps(t: Tree, path: Path, replacement: Option<Tree>)
    requires t.Mapping? && |path| > 1
    ensures var reached, i := Reached(t, path[0]), Find(t.entries, path[0]);
      && reached.Mapping? && i < |reached.entries|
      && Set(t, path, replacement) == SetIn(reached, i, path[1..], replacement)
  {
    var i := Find(t.entries, path[0]);
    if i == |t.entries| {
      var inner := Set(Mapping([]), path[1..], replacement);
      assert Reached(t, path[0]).entries[i := Entry(path[0], inner.tree)] == t.entries + [Entry(path[0], inner.tree)];
    }
  }

  lemma RemoveSteps(t: Tree, path: Path)
    requires t.Mapping? && path != []
    ensures var i := Find(t.entries, path[0]);
      Remove(t, path)
      == if i == |t.entries| then Edit(false, t)
         else if |path| == 1 then Edit(true, Mapping(t.entries[..i] + t.entries[i + 1..]))
         else RemoveIn(t, i, path[1..])
  {
  }

  lemma ReplacedIs(existing: Tree, replacement: Tree)
    ensures !(existing.Scalar? && replacement.Scalar?) ==> Replaced(existing, replacement) == replacement
  {
  }

  /** The end of a path. */
  lemma SetEnds(t: Tree, key: string, replacement: Option<Tree>)
    requires t.Mapping?
    ensures var i := Find(t.entries, key);
      Set(t, [key], replacement)
      == if replacement.None? then Edit(false, t)
         else if i == |t.entries| then Edit(true, Mapping(t.entries + [Entry(key, replacement.value)]))
         else Edit(true, Mapping(t.entries[i := Entry(key, Replaced(t.entries[i].value, replacement.value))]))
  {
  }
}
