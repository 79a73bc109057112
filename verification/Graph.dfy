/** The prerequisite relation between doctor checks, its paths, cycles and orders. */
module Graph {
  type Id = string

  /** For each check the checks that must not have failed before it. */
  type Prerequisites = map<Id, seq<Id>>

  function Of(g: Prerequisites, id: Id): seq<Id> {
    if id in g then g[id] else []
  }

  ghost predicate IsPath(g: Prerequisites, path: seq<Id>) {
    path != [] && forall i :: 0 <= i < |path| - 1 ==> path[i + 1] in Of(g, path[i])
  }

  ghost predicate Connects(g: Prerequisites, path: seq<Id>, from: Id, to: Id) {
    IsPath(g, path) && path[0] == from && path[|path| - 1] == to
  }

  /** `to` is `from` itself or one of its transitive prerequisites. */
  ghost predicate Reaches(g: Prerequisites, from: Id, to: Id) {
    exists path :: Connects(g, path, from, to)
  }

  ghost predicate OnCycle(g: Prerequisites, id: Id) {
    exists path :: |path| > 1 && Connects(g, path, id, id)
  }

  ghost predicate Cyclic(g: Prerequisites) {
    exists id :: OnCycle(g, id)
  }

  ghost predicate NoDuplicates(order: seq<Id>) {
    forall i, j :: 0 <= i < j < |order| ==> order[i] != order[j]
  }

  /** Every listed check comes after all its prerequisites. */
  ghost predicate Topological(g: Prerequisites, order: seq<Id>) {
    forall i, q :: 0 <= i < |order| && q in Of(g, order[i]) ==> q in order[..i]
  }

  ghost predicate Closed(g: Prerequisites, nodes: set<Id>) {
    forall id, q :: id in nodes && q in Of(g, id) ==> q in nodes
  }

  lemma ReachesSelf(g: Prerequisites, id: Id)
    ensures Reaches(g, id, id)
  {
    assert Connects(g, [id], id, id);
  }

  lemma ReachesThrough(g: Prerequisites, from: Id, next: Id, to: Id)
    requires next in Of(g, from) && Reaches(g, next, to)
    ensures Reaches(g, from, to)
  {
    var path :| Connects(g, path, next, to);
    var longer := [from] + path;
    forall i | 0 <= i < |longer| - 1 ensures longer[i + 1] in Of(g, longer[i]) {
      if i > 0 {
        assert longer[i] == path[i - 1] && longer[i + 1] == path[i];
      }
    }
    assert Connects(g, longer, from, to);
  }

  /** Walking prerequisites inside a topological list moves strictly toward its front. */
  lemma {:induction false} PathDescends(g: Prerequisites, order: seq<Id>, path: seq<Id>, k: nat) returns (last: nat)
    requires Topological(g, order) && IsPath(g, path)
    requires k < |order| && path[0] == order[k]
    ensures last <= k && order[last] == path[|path| - 1]
    ensures |path| > 1 ==> last < k
    decreases |path|
  {
    if |path| == 1 {
      return k;
    }
    assert path[0 + 1] in Of(g, path[0]);
    var j :| 0 <= j < k && order[..k][j] == path[1];
    var rest := path[1..];
    forall i | 0 <= i < |rest| - 1 ensures rest[i + 1] in Of(g, rest[i]) {
      assert path[i + 1 + 1] in Of(g, path[i + 1]);
    }
    last := PathDescends(g, order, rest, j);
  }

  /** A topological list without duplicates contains no check on a cycle, and is closed. */
  lemma TopologicalMeansAcyclic(g: Prerequisites, order: seq<Id>)
    requires Topological(g, order) && NoDuplicates(order)
    ensures forall id :: id in order ==> !OnCycle(g, id)
    ensures forall id, to :: id in order && Reaches(g, id, to) ==> to in order
  {
    forall id | id in order ensures !OnCycle(g, id) {
      if OnCycle(g, id) {
        var path :| |path| > 1 && Connects(g, path, id, id);
        var k :| 0 <= k < |order| && order[k] == id;
        var last := PathDescends(g, order, path, k);
        assert false;
      }
    }
    forall id, to | id in order && Reaches(g, id, to) ensures to in order {
      var path :| Connects(g, path, id, to);
      var k :| 0 <= k < |order| && order[k] == id;
      var last := PathDescends(g, order, path, k);
    }
  }

  /** A search stack that meets its own member again has found a cycle. */
  lemma StackCloses(g: Prerequisites, stack: seq<Id>, id: Id)
    requires IsPath(g, stack + [id]) && id in stack
    ensures OnCycle(g, id)
  {
    var k :| 0 <= k < |stack| && stack[k] == id;
    var path := (stack + [id])[k..];
    forall i | 0 <= i < |path| - 1 ensures path[i + 1] in Of(g, path[i]) {
      assert (stack + [id])[k + i + 1] in Of(g, (stack + [id])[k + i]);
    }
    assert Connects(g, path, id, id);
  }

  lemma PathGrows(g: Prerequisites, path: seq<Id>, q: Id)
    requires IsPath(g, path) && q in Of(g, path[|path| - 1])
    ensures IsPath(g, path + [q])
  {
    var longer := path + [q];
    forall i | 0 <= i < |longer| - 1 ensures longer[i + 1] in Of(g, longer[i]) {
      if i < |path| - 1 {
        assert path[i + 1] in Of(g, path[i]);
      }
    }
  }

  lemma TopologicalSnoc(g: Prerequisites, order: seq<Id>, id: Id)
    requires Topological(g, order) && NoDuplicates(order) && id !in order
    requires forall q :: q in Of(g, id) ==> q in order
    ensures Topological(g, order + [id]) && NoDuplicates(order + [id])
  {
    var longer := order + [id];
    forall i, q | 0 <= i < |longer| && q in Of(g, longer[i]) ensures q in longer[..i] {
      if i < |order| {
        assert longer[..i] == order[..i];
      } else {
        assert longer[..i] == order;
      }
    }
  }

  /** A check on a cycle has prerequisites. */
  lemma CycleLeavesNode(g: Prerequisites, id: Id)
    requires OnCycle(g, id)
    ensures id in g && g[id] != []
  {
    var path :| |path| > 1 && Connects(g, path, id, id);
    assert path[0 + 1] in Of(g, path[0]);
  }

  // ---------------------------------------------------------------- changing one check's prerequisites

  lemma PathReaches(g: Prerequisites, path: seq<Id>, i: nat, j: nat)
    requires IsPath(g, path) && i <= j < |path|
    ensures Reaches(g, path[i], path[j])
  {
    var part := path[i..j + 1];
    forall k | 0 <= k < |part| - 1 ensures part[k + 1] in Of(g, part[k]) {
      assert path[i + k + 1] in Of(g, path[i + k]);
    }
    assert Connects(g, part, path[i], path[j]);
  }

  lemma {:induction false} ReachesOnward(g: Prerequisites, path: seq<Id>, to: Id)
    requires IsPath(g, path) && Reaches(g, path[|path| - 1], to)
    ensures Reaches(g, path[0], to)
    decreases |path|
  {
    if |path| <= 1 {
    } else {
      var rest := path[1..];
      forall i | 0 <= i < |rest| - 1 ensures rest[i + 1] in Of(g, rest[i]) {
        assert path[i + 1 + 1] in Of(g, path[i + 1]);
      }
      ReachesOnward(g, rest, to);
      assert path[0 + 1] in Of(g, path[0]);
      ReachesThrough(g, path[0], path[1], to);
    }
  }

  /** An edge and a way back make a cycle. */
  lemma EdgeAndBack(g: Prerequisites, id: Id, q: Id)
    requires q in Of(g, id) && Reaches(g, q, id)
    ensures OnCycle(g, id)
  {
    var path :| Connects(g, path, q, id);
    var longer := [id] + path;
    forall i | 0 <= i < |longer| - 1 ensures longer[i + 1] in Of(g, longer[i]) {
      if i > 0 {
        assert path[i - 1 + 1] in Of(g, path[i - 1]);
      }
    }
    assert Connects(g, longer, id, id);
  }

  /** Whether a check reaches `id` does not depend on the prerequisites of `id` itself. */
  lemma {:induction false} ReachesElsewhere(g: Prerequisites, h: Prerequisites, id: Id, path: seq<Id>)
    requires forall other :: other != id ==> Of(g, other) == Of(h, other)
    requires IsPath(g, path) && path[|path| - 1] == id
    ensures Reaches(h, path[0], id)
    decreases |path|
  {
    if path[0] == id {
      ReachesSelf(h, id);
    } else {
      var rest := path[1..];
      assert path[0 + 1] in Of(g, path[0]);
      forall i | 0 <= i < |rest| - 1 ensures rest[i + 1] in Of(g, rest[i]) {
        assert path[i + 1 + 1] in Of(g, path[i + 1]);
      }
      ReachesElsewhere(g, h, id, rest);
      ReachesThrough(h, path[0], path[1], id);
    }
  }

  /** A cycle either leads through `id`, and then from one of its prerequisites back to it, or avoids it. */
  lemma CycleThroughOrAround(g: Prerequisites, h: Prerequisites, id: Id)
    requires forall other :: other != id ==> Of(g, other) == Of(h, other)
    requires Cyclic(h)
    ensures Cyclic(g) || exists q :: q in Of(h, id) && Reaches(g, q, id)
  {
    var x :| OnCycle(h, x);
    var path :| |path| > 1 && Connects(h, path, x, x);
    var last := |path| - 1;
    if k :| 0 <= k < last && path[k] == id {
      var q := path[k + 1];
      PathReaches(h, path, 0, k);
      PathReaches(h, path, k + 1, last);
      var onward :| Connects(h, onward, q, x);
      ReachesOnward(h, onward, id);
      var back :| Connects(h, back, q, id);
      ReachesElsewhere(h, g, id, back);
    } else {
      forall i | 0 <= i < last ensures path[i + 1] in Of(g, path[i]) {
        assert path[i + 1] in Of(h, path[i]) && path[i] != id;
      }
      assert Connects(g, path, x, x);
      assert OnCycle(g, x);
    }
  }

  lemma MoreEdgesKeepCycle(g: Prerequisites, h: Prerequisites)
    requires forall id, q :: q in Of(g, id) ==> q in Of(h, id)
    requires Cyclic(g)
    ensures Cyclic(h)
  {
    var id :| OnCycle(g, id);
    var path :| |path| > 1 && Connects(g, path, id, id);
    forall i | 0 <= i < |path| - 1 ensures path[i + 1] in Of(h, path[i]) {
      assert path[i + 1] in Of(g, path[i]);
    }
    assert Connects(h, path, id, id);
    assert OnCycle(h, id);
  }

  /**
    Replacing one check's prerequisites in an acyclic graph closes a cycle exactly when one of
    the new prerequisites already reaches the check.
   */
  lemma ReplacingClosesCycle(g: Prerequisites, id: Id, list: seq<Id>)
    requires !Cyclic(g)
    ensures Cyclic(g[id := list]) <==> exists q :: q in list && Reaches(g, q, id)
  {
    var h := g[id := list];
    assert forall other :: other != id ==> Of(g, other) == Of(h, other);
    if Cyclic(h) {
      CycleThroughOrAround(g, h, id);
    }
    if q :| q in list && Reaches(g, q, id) {
      var path :| Connects(g, path, q, id);
      ReachesElsewhere(g, h, id, path);
      EdgeAndBack(h, id, q);
    }
  }

  /**
    Adding prerequisites to a check leaves a cyclic graph exactly when the graph was cyclic or
    one of the added ones already reaches the check.
   */
  lemma AddingClosesCycle(g: Prerequisites, id: Id, list: seq<Id>, more: seq<Id>)
    requires forall q :: q in list <==> q in Of(g, id) || q in more
    ensures Cyclic(g[id := list]) <==> Cyclic(g) || exists q :: q in more && Reaches(g, q, id)
  {
    if Cyclic(g) {
      MoreEdgesKeepCycle(g, g[id := list]);
    } else {
      ReplacingClosesCycle(g, id, list);
      forall q | q in Of(g, id) ensures !Reaches(g, q, id) {
        if Reaches(g, q, id) {
          EdgeAndBack(g, id, q);
        }
      }
    }
  }
}
