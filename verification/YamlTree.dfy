/**
  Configuration documents as trees, and what setting and removing a path does to them.
  Comments, anchors and aliases are not part of the trees.
 */
module YamlTree {
  import opened Wrappers

  datatype Tree =
    | Scalar(tag: string, value: string, style: nat)
    | Sequence(items: seq<Tree>)
    | Mapping(entries: seq<Entry>)

  datatype Entry = Entry(key: string, value: Tree)

  type Path = seq<string>

  /** The result of an edit: a failed one may still have created mappings on the way. */
  datatype Edit = Edit(ok: bool, tree: Tree)

  // ---------------------------------------------------------------- lookup

  /** The index of the first entry with this key, or the number of entries. */
  function Find(entries: seq<Entry>, key: string): (i: nat)
    ensures i <= |entries|
    ensures i < |entries| ==> entries[i].key == key
    ensures forall j :: 0 <= j < i ==> entries[j].key != key
  {
    if entries == [] || entries[0].key == key then 0 else 1 + Find(entries[1..], key)
  }

  lemma LookupInEmpty(path: Path)
    requires path != []
    ensures Lookup(Mapping([]), path) == None
  {
  }

  lemma FindUnique(entries: seq<Entry>, key: string, i: nat)
    requires i <= |entries|
    requires i < |entries| ==> entries[i].key == key
    requires forall j :: 0 <= j < i ==> entries[j].key != key
    ensures Find(entries, key) == i
  {
    var f := Find(entries, key);
    assert !(f < i);
    assert !(i < f);
  }

  function Lookup(t: Tree, path: Path): Option<Tree>
    decreases |path|
  {
    if path == [] then Some(t)
    else if !t.Mapping? then None
    else
      var i := Find(t.entries, path[0]);
      if i == |t.entries| then None else Lookup(t.entries[i].value, path[1..])
  }

  // ---------------------------------------------------------------- editing

  /** What the node at the end of a path becomes: a scalar keeps its style while its tag stays. */
  function Replaced(existing: Tree, replacement: Tree): Tree {
    if existing.Scalar? && replacement.Scalar? then
      Scalar(replacement.tag, replacement.value,
        if existing.tag == replacement.tag then existing.style else replacement.style)
    else replacement
  }

  /** Sets a path below a mapping; `replacement` is None when the value cannot be written as YAML. */
  function Set(t: Tree, path: Path, replacement: Option<Tree>): Edit
    requires t.Mapping? && path != []
    decreases |path|
  {
    var i := Find(t.entries, path[0]);
    if |path| == 1 then
      if replacement.None? then Edit(false, t)
      else if i == |t.entries| then Edit(true, Mapping(t.entries + [Entry(path[0], replacement.value)]))
      else Edit(true, Mapping(t.entries[i := Entry(path[0], Replaced(t.entries[i].value, replacement.value))]))
    else if i == |t.entries| then
      var inner := Set(Mapping([]), path[1..], replacement);
      Edit(inner.ok, Mapping(t.entries + [Entry(path[0], inner.tree)]))
    else if !t.entries[i].value.Mapping? then Edit(false, t)
    else
      var inner := Set(t.entries[i].value, path[1..], replacement);
      Edit(inner.ok, Mapping(t.entries[i := Entry(path[0], inner.tree)]))
  }

  function Remove(t: Tree, path: Path): Edit
    requires t.Mapping? && path != []
    decreases |path|
  {
    var i := Find(t.entries, path[0]);
    if i == |t.entries| then Edit(false, t)
    else if |path| == 1 then Edit(true, Mapping(t.entries[..i] + t.entries[i + 1..]))
    else if !t.entries[i].value.Mapping? then Edit(false, t)
    else
      var inner := Remove(t.entries[i].value, path[1..]);
      Edit(inner.ok, Mapping(t.entries[i := Entry(path[0], inner.tree)]))
  }

  // ---------------------------------------------------------------- duplicate keys

  predicate DuplicateFree(t: Tree) {
    match t
    case Scalar(_, _, _) => true
    case Sequence(items) => forall i :: 0 <= i < |items| ==> DuplicateFree(items[i])
    case Mapping(entries) =>
      && (forall i, j :: 0 <= i < j < |entries| ==> entries[i].key != entries[j].key)
      && (forall i :: 0 <= i < |entries| ==> DuplicateFree(entries[i].value))
  }

  /** The check every parsed document goes through. */
  method RejectDuplicateKeys(t: Tree) returns (ok: bool)
    ensures ok <==> DuplicateFree(t)
    decreases t
  {
    match t {
      case Scalar(_, _, _) => return true;
      case Sequence(items) =>
        for i := 0 to |items|
          invariant forall k :: 0 <= k < i ==> DuplicateFree(items[k])
        {
          var fine := RejectDuplicateKeys(items[i]);
          if !fine {
            return false;
          }
        }
        return true;
      case Mapping(entries) =>
        var seen: set<string> := {};
        for i := 0 to |entries|
          invariant forall key :: key in seen <==> exists k :: 0 <= k < i && entries[k].key == key
          invariant forall j, k :: 0 <= j < k < i ==> entries[j].key != entries[k].key
          invariant forall k :: 0 <= k < i ==> DuplicateFree(entries[k].value)
        {
          if entries[i].key in seen {
            return false;
          }
          seen := seen + {entries[i].key};
          var fine := RejectDuplicateKeys(entries[i].value);
          if !fine {
            return false;
          }
        }
        return true;
    }
  }

  // ---------------------------------------------------------------- lens laws

  /** Neither path runs through the other. */
  predicate Incomparable(p: Path, q: Path) {
    !(p <= q) && !(q <= p)
  }

  /** The same content: scalars may differ in their quoting style only. */
  predicate SameContent(a: Tree, b: Tree) {
    a == b || (a.Scalar? && b.Scalar? && a.tag == b.tag && a.value == b.value)
  }

  lemma FindAfterUpdate(entries: seq<Entry>, i: nat, value: Tree, key: string)
    requires i < |entries| && i == Find(entries, entries[i].key)
    ensures Find(entries[i := Entry(entries[i].key, value)], key) == Find(entries, key)
  {
    FindUnique(entries[i := Entry(entries[i].key, value)], key, Find(entries, key));
  }

  lemma FindAfterAppend(entries: seq<Entry>, added: Entry, key: string)
    requires Find(entries, added.key) == |entries|
    ensures Find(entries + [added], key)
         == if key == added.key then |entries|
            else if Find(entries, key) < |entries| then Find(entries, key)
            else |entries| + 1
  {
    var i := Find(entries, key);
    FindUnique(entries + [added], key,
      if key == added.key then |entries| else if i < |entries| then i else |entries| + 1);
  }

  /** A successful set is read back at its path. */
  lemma {:induction false} SetThenLookup(t: Tree, path: Path, replacement: Tree)
    requires t.Mapping? && path != [] && Set(t, path, Some(replacement)).ok
    ensures var found := Lookup(Set(t, path, Some(replacement)).tree, path);
      found.Some? && SameContent(found.value, replacement)
    decreases |path|
  {
    var i := Find(t.entries, path[0]);
    var after := Set(t, path, Some(replacement)).tree;
    if i == |t.entries| {
      FindAfterAppend(t.entries, after.entries[i], path[0]);
      if |path| > 1 {
        SetThenLookup(Mapping([]), path[1..], replacement);
      }
    } else {
      FindAfterUpdate(t.entries, i, after.entries[i].value, path[0]);
      if |path| > 1 {
        SetThenLookup(t.entries[i].value, path[1..], replacement);
      }
    }
  }

  /**
    Exactly what is read back: the value as given, except that a scalar set over a scalar of the
    same tag keeps the style that was there.
   */
  lemma {:induction false} SetReadsBack(t: Tree, path: Path, replacement: Tree)
    requires t.Mapping? && path != [] && Set(t, path, Some(replacement)).ok
    ensures var before, after := Lookup(t, path), Lookup(Set(t, path, Some(replacement)).tree, path);
      if before.Some? && before.value.Scalar? && replacement.Scalar? && before.value.tag == replacement.tag then
        after == Some(Scalar(replacement.tag, replacement.value, before.value.style))
      else after == Some(replacement)
    decreases |path|
  {
    var i := Find(t.entries, path[0]);
    var after := Set(t, path, Some(replacement)).tree;
    if |path| == 1 {
      if i == |t.entries| {
        FindAfterAppend(t.entries, after.entries[i], path[0]);
      } else {
        FindAfterUpdate(t.entries, i, after.entries[i].value, path[0]);
      }
    } else if i == |t.entries| {
      FindAfterAppend(t.entries, after.entries[i], path[0]);
      SetReadsBack(Mapping([]), path[1..], replacement);
      LookupInEmpty(path[1..]);
    } else {
      FindAfterUpdate(t.entries, i, after.entries[i].value, path[0]);
      SetReadsBack(t.entries[i].value, path[1..], replacement);
    }
  }

  /** A set, successful or not, changes nothing at paths incomparable with its own. */
  lemma {:induction false} SetFrame(t: Tree, path: Path, replacement: Option<Tree>, other: Path)
    requires t.Mapping? && path != [] && Incomparable(path, other)
    ensures Lookup(Set(t, path, replacement).tree, other) == Lookup(t, other)
    decreases |path|
  {
    hide Find, DuplicateFree;
    var i := Find(t.entries, path[0]);
    var after := Set(t, path, replacement).tree;
    if after == t {
    } else {
      if i == |t.entries| {
        FindAfterAppend(t.entries, after.entries[i], other[0]);
      } else {
        FindAfterUpdate(t.entries, i, after.entries[i].value, other[0]);
      }
      if path[0] == other[0] {
        assert path == [path[0]] + path[1..] && other == [other[0]] + other[1..];
        assert Incomparable(path[1..], other[1..]);
        SetFrame(if i == |t.entries| then Mapping([]) else t.entries[i].value, path[1..], replacement, other[1..]);
        if i == |t.entries| {
          LookupInEmpty(other[1..]);
        }
      }
    }
  }

  /** A set fails exactly on an unrepresentable value or a non-mapping on the way. */
  lemma {:induction false} SetFailsExactly(t: Tree, path: Path, replacement: Option<Tree>)
    requires t.Mapping? && path != []
    ensures Set(t, path, replacement).ok <==>
      && replacement.Some?
      && forall n :: 0 < n < |path| ==> Lookup(t, path[..n]).Some? ==> Lookup(t, path[..n]).value.Mapping?
    decreases |path|
  {
    var i := Find(t.entries, path[0]);
    if |path| == 1 {
    } else {
      assert path[..1][1..] == [] && path[..1][0] == path[0];
      forall n | 1 < n < |path|
        ensures path[..n][0] == path[0] && path[..n][1..] == path[1..][..n - 1]
      {
      }
      if i == |t.entries| {
        SetFailsExactly(Mapping([]), path[1..], replacement);
        assert forall n :: 0 < n < |path| ==> Lookup(t, path[..n]).None?;
        assert forall n :: 0 < n < |path| - 1 ==> Lookup(Mapping([]), path[1..][..n]).None?;
      } else {
        var child := t.entries[i].value;
        assert Lookup(t, path[..1]) == Some(child);
        if child.Mapping? {
          SetFailsExactly(child, path[1..], replacement);
          assert forall n :: 1 < n < |path| ==> Lookup(t, path[..n]) == Lookup(child, path[1..][..n - 1]);
          assert forall n :: 0 < n < |path| - 1 ==> path[1..][..n] == path[..n + 1][1..];
          assert forall n :: 0 < n < |path| - 1 ==> Lookup(child, path[1..][..n]) == Lookup(t, path[..n + 1]);
        }
      }
    }
  }

  lemma {:induction false} SetKeepsDuplicateFree(t: Tree, path: Path, replacement: Option<Tree>)
    requires t.Mapping? && path != [] && DuplicateFree(t)
    requires replacement.Some? ==> DuplicateFree(replacement.value)
    ensures DuplicateFree(Set(t, path, replacement).tree)
    decreases |path|
  {
    var i := Find(t.entries, path[0]);
    if |path| == 1 {
    } else {
      if i == |t.entries| {
        SetKeepsDuplicateFree(Mapping([]), path[1..], replacement);
      } else if t.entries[i].value.Mapping? {
        SetKeepsDuplicateFree(t.entries[i].value, path[1..], replacement);
      }
    }
  }

  /** After a removal the path is gone, because no second entry can hide behind the first. */
  lemma {:induction false} RemoveThenLookup(t: Tree, path: Path)
    requires t.Mapping? && path != [] && DuplicateFree(t)
    ensures Lookup(Remove(t, path).tree, path) == None
    ensures Remove(t, path).ok <==> Lookup(t, path).Some?
    ensures DuplicateFree(Remove(t, path).tree)
    decreases |path|
  {
    hide Find;
    var i := Find(t.entries, path[0]);
    if i == |t.entries| {
    } else {
      if |path| == 1 {
        var rest := t.entries[..i] + t.entries[i + 1..];
        FindUnique(rest, path[0], |rest|);
      } else if t.entries[i].value.Mapping? {
        RemoveThenLookup(t.entries[i].value, path[1..]);
        FindAfterUpdate(t.entries, i, Remove(t.entries[i].value, path[1..]).tree, path[0]);
      }
    }
  }

  lemma {:induction false} RemoveFrame(t: Tree, path: Path, other: Path)
    requires t.Mapping? && path != [] && Incomparable(path, other)
    ensures Lookup(Remove(t, path).tree, other) == Lookup(t, other)
    decreases |path|
  {
    hide DuplicateFree, Find;
    var i := Find(t.entries, path[0]);
    if i == |t.entries| {
    } else {
      if |path| == 1 {
        FindAfterRemoval(t.entries, i, other[0]);
      } else if t.entries[i].value.Mapping? {
        FindAfterUpdate(t.entries, i, Remove(t.entries[i].value, path[1..]).tree, other[0]);
        if path[0] == other[0] {
          assert path == [path[0]] + path[1..] && other == [other[0]] + other[1..];
          RemoveFrame(t.entries[i].value, path[1..], other[1..]);
        }
      }
    }
  }

  lemma FindAfterRemoval(entries: seq<Entry>, i: nat, key: string)
    requires i < |entries| && entries[i].key != key
    ensures var rest := entries[..i] + entries[i + 1..];
      var f := Find(entries, key);
      && Find(rest, key) == (if f < i then f else f - 1)
      && (f < |entries| ==> rest[Find(rest, key)] == entries[f])
  {
    var rest := entries[..i] + entries[i + 1..];
    var f := Find(entries, key);
    FindUnique(rest, key, if f < i then f else f - 1);
  }

  // ---------------------------------------------------------------- key order

  function Keys(entries: seq<Entry>): (keys: seq<string>)
    ensures |keys| == |entries|
    ensures forall i :: 0 <= i < |entries| ==> keys[i] == entries[i].key
  {
    seq(|entries|, i requires 0 <= i < |entries| => entries[i].key)
  }

  /** The keys of the mapping at a path, in their order. */
  function KeysAt(t: Tree, path: Path): Option<seq<string>> {
    var found := Lookup(t, path);
    if found.Some? && found.value.Mapping? then Some(Keys(found.value.entries)) else None
  }

  /** Keys below a mapping are the keys below the entry the path goes through. */
  lemma KeysAtStep(t: Tree, at: Path)
    requires t.Mapping? && at != []
    ensures var i := Find(t.entries, at[0]);
      KeysAt(t, at) == if i == |t.entries| then None else KeysAt(t.entries[i].value, at[1..])
  {
  }

  /**
    Setting keeps the order of the keys of every mapping not replaced as a whole, and adds at
    most the next key of its own path, at the end.
   */
  lemma {:induction false} SetKeepsKeyOrder(t: Tree, path: Path, replacement: Option<Tree>, at: Path)
    requires t.Mapping? && path != [] && !(path <= at)
    requires KeysAt(t, at).Some?
    ensures var before, after := KeysAt(t, at).value, KeysAt(Set(t, path, replacement).tree, at);
      || after == Some(before)
      || (at <= path && |at| < |path| && path[|at|] !in before && after == Some(before + [path[|at|]]))
    decreases |path|
  {
    if at == [] {
      SetKeepsOwnKeys(t, path, replacement);
    } else {
      KeysAtStep(t, at);
      var after := Set(t, path, replacement).tree;
      KeysAtStep(after, at);
      var i := Find(t.entries, path[0]);
      if i == |t.entries| {
        if after != t {
          FindAfterAppend(t.entries, after.entries[i], at[0]);
        }
      } else {
        FindAfterUpdate(t.entries, i, after.entries[i].value, at[0]);
        if at[0] == path[0] && |path| > 1 && t.entries[i].value.Mapping? {
          PathStep(path, at);
          SetKeepsKeyOrder(t.entries[i].value, path[1..], replacement, at[1..]);
        }
        assert |path| == 1 && at[0] == path[0] ==> path <= at;
      }
    }
  }

  lemma PathStep(path: Path, at: Path)
    requires path != [] && at != [] && path[0] == at[0]
    ensures path <= at <==> path[1..] <= at[1..]
    ensures at <= path <==> at[1..] <= path[1..]
    ensures |path| > 1 ==> (at == path[..|path| - 1] <==> at[1..] == path[1..][..|path| - 2])
  {
    assert path == [path[0]] + path[1..] && at == [at[0]] + at[1..];
    if |path| > 1 {
      assert path[1..][..|path| - 2] == path[..|path| - 1][1..];
    }
  }

  lemma SetKeepsOwnKeys(t: Tree, path: Path, replacement: Option<Tree>)
    requires t.Mapping? && path != []
    ensures var before, after := Keys(t.entries), Set(t, path, replacement).tree;
      after.Mapping? && (Keys(after.entries) == before
                         || (path[0] !in before && Keys(after.entries) == before + [path[0]]))
  {
    var i := Find(t.entries, path[0]);
    var after := Set(t, path, replacement).tree;
    if i < |t.entries| {
      assert Keys(after.entries) == Keys(t.entries);
    } else if after != t {
      assert Keys(after.entries) == Keys(t.entries) + [path[0]];
    }
  }

  ghost predicate LosesKey(before: seq<string>, key: string, after: Option<seq<string>>) {
    exists k :: 0 <= k < |before| && before[k] == key && after == Some(before[..k] + before[k + 1..])
  }

  /** Removing takes one key out of one mapping and keeps the order of all the others. */
  lemma {:induction false} RemoveKeepsKeyOrder(t: Tree, path: Path, at: Path)
    requires t.Mapping? && path != [] && !(path <= at)
    requires KeysAt(t, at).Some?
    ensures var before, after := KeysAt(t, at).value, KeysAt(Remove(t, path).tree, at);
      || after == Some(before)
      || (at == path[..|path| - 1] && LosesKey(before, path[|path| - 1], after))
    decreases |path|
  {
    var i := Find(t.entries, path[0]);
    if i == |t.entries| {
    } else if at == [] {
      RemoveKeepsOwnKeys(t, path);
    } else {
      KeysAtStep(t, at);
      var after := Remove(t, path).tree;
      KeysAtStep(after, at);
      if |path| == 1 {
        FindAfterRemoval(t.entries, i, at[0]);
      } else if t.entries[i].value.Mapping? {
        FindAfterUpdate(t.entries, i, after.entries[i].value, at[0]);
        if at[0] == path[0] {
          PathStep(path, at);
          RemoveKeepsKeyOrder(t.entries[i].value, path[1..], at[1..]);
        }
      }
    }
  }

  lemma KeysWithout(entries: seq<Entry>, i: nat)
    requires i < |entries|
    ensures Keys(entries[..i] + entries[i + 1..]) == Keys(entries)[..i] + Keys(entries)[i + 1..]
  {
  }

  lemma RemoveKeepsOwnKeys(t: Tree, path: Path)
    requires t.Mapping? && path != [] && Find(t.entries, path[0]) < |t.entries|
    ensures var before, after := Keys(t.entries), KeysAt(Remove(t, path).tree, []);
      after == Some(before) || (|path| == 1 && LosesKey(before, path[0], after))
  {
    var i := Find(t.entries, path[0]);
    var before, after := Keys(t.entries), Remove(t, path).tree;
    assert KeysAt(after, []) == Some(Keys(after.entries));
    if |path| == 1 {
      KeysWithout(t.entries, i);
      assert after.entries == t.entries[..i] + t.entries[i + 1..];
      assert before[i] == path[0];
    } else if t.entries[i].value.Mapping? {
      assert Keys(after.entries) == before;
    }
  }

  /** Setting an absent path below an existing mapping and removing it again changes nothing. */
  lemma {:induction false} RemoveUndoesSet(t: Tree, path: Path, replacement: Tree)
    requires t.Mapping? && path != [] && Lookup(t, path).None?
    requires forall n :: 0 < n < |path| ==> Lookup(t, path[..n]).Some? && Lookup(t, path[..n]).value.Mapping?
    ensures Remove(Set(t, path, Some(replacement)).tree, path) == Edit(true, t)
    decreases |path|
  {
    var i := Find(t.entries, path[0]);
    if |path| == 1 {
      RemoveUndoesAppend(t, path[0], replacement);
    } else {
      assert Lookup(t, path[..1]).Some?;
      assert path[..1][0] == path[0] && path[..1][1..] == [];
      var child := t.entries[i].value;
      assert Lookup(t, path[..1]) == Some(child);
      assert Lookup(t, path) == Lookup(child, path[1..]);
      forall n | 0 < n < |path| - 1
        ensures Lookup(child, path[1..][..n]).Some? && Lookup(child, path[1..][..n]).value.Mapping?
      {
        assert path[..n + 1][0] == path[0] && path[..n + 1][1..] == path[1..][..n];
        assert Lookup(t, path[..n + 1]).Some?;
      }
      RemoveUndoesSet(child, path[1..], replacement);
      UpdateTwice(t, path, replacement);
    }
  }

  lemma RemoveUndoesAppend(t: Tree, key: string, replacement: Tree)
    requires t.Mapping? && Find(t.entries, key) == |t.entries|
    ensures Remove(Set(t, [key], Some(replacement)).tree, [key]) == Edit(true, t)
  {
    var n, added := |t.entries|, Entry(key, replacement);
    FindAfterAppend(t.entries, added, key);
    var longer := t.entries + [added];
    assert longer[..n] + longer[n + 1..] == t.entries;
  }

  lemma UpdateTwice(t: Tree, path: Path, replacement: Tree)
    requires t.Mapping? && |path| > 1
    requires var i := Find(t.entries, path[0]);
      && i < |t.entries| && t.entries[i].value.Mapping?
      && Remove(Set(t.entries[i].value, path[1..], Some(replacement)).tree, path[1..]) == Edit(true, t.entries[i].value)
    ensures Remove(Set(t, path, Some(replacement)).tree, path) == Edit(true, t)
  {
    hide Lookup, DuplicateFree, Find;
    var i := Find(t.entries, path[0]);
    var inner := Set(t.entries[i].value, path[1..], Some(replacement)).tree;
    var updated := t.entries[i := Entry(path[0], inner)];
    FindAfterUpdate(t.entries, i, inner, path[0]);
    assert updated[i := Entry(path[0], t.entries[i].value)] == t.entries;
  }
}
