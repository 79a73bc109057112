/** The doctor's registry of checks, fixes and prerequisites, and its rejection of cycles. */
module Doctor {
  import opened Graph

  datatype RegisterError = NotRegistered | SelfDependency | UnknownPrerequisite | CycleRejected

  datatype RegisterResult = Registered | Rejected(error: RegisterError)

  /** A depth-first search for a cycle; `order` lists the finished checks as they finish. */
  class CycleSearch {
    const graph: Prerequisites
    var visiting: set<Id>
    var visited: set<Id>
    ghost var order: seq<Id>

    constructor (graph: Prerequisites)
      ensures this.graph == graph && visiting == {} && visited == {} && order == []
      ensures Valid()
    {
      this.graph := graph;
      visiting, visited, order := {}, {}, [];
    }

    ghost predicate Valid()
      reads this
    {
      && (forall id :: id in order <==> id in visited)
      && NoDuplicates(order) && Topological(graph, order)
      && visiting !! visited
    }

    method Visit(id: Id, ghost stack: seq<Id>, ghost nodes: set<Id>) returns (found: bool)
      requires Valid()
      requires Closed(graph, nodes) && id in nodes
      requires (forall s :: s in stack <==> s in visiting) && IsPath(graph, stack + [id])
      modifies this
      ensures found ==> Cyclic(graph)
      ensures !found ==> Valid() && visiting == old(visiting)
      ensures !found ==> old(visited) <= visited && id in visited
      decreases nodes - visiting, 1
    {
      if id in visiting {
        StackCloses(graph, stack, id);
        return true;
      }
      if id in visited {
        return false;
      }
      visiting := visiting + {id};
      var prerequisites := Of(graph, id);
      var i := 0;
      while i < |prerequisites|
        invariant 0 <= i <= |prerequisites|
        invariant Valid() && visiting == old(visiting) + {id}
        invariant old(visited) <= visited
        invariant forall q :: q in prerequisites[..i] ==> q in visited
      {
        PathGrows(graph, stack + [id], prerequisites[i]);
        found := Visit(prerequisites[i], stack + [id], nodes);
        if found {
          return true;
        }
        i := i + 1;
      }
      assert id !in order;
      assert prerequisites[..i] == prerequisites;
      TopologicalSnoc(graph, order, id);
      visiting := visiting - {id};
      visited := visited + {id};
      order := order + [id];
      return false;
    }
  }

  /** White space, as Unicode defines it. */
  predicate IsSpace(c: char) {
    || c in ['\t', '\n', '\U{0B}', '\U{0C}', '\r', ' ', '\U{85}', '\U{A0}', '\U{1680}']
    || '\U{2000}' <= c <= '\U{200A}'
    || c in ['\U{2028}', '\U{2029}', '\U{202F}', '\U{205F}', '\U{3000}']
  }

  /** Trimming leaves nothing of a blank text. */
  predicate Blank(text: string) {
    forall c :: c in text ==> IsSpace(c)
  }

  /** The code points of white space. */
  predicate SpaceCode(code: int) {
    || 9 <= code <= 13 || code in {32, 0x85, 0xA0, 0x1680} || 0x2000 <= code <= 0x200A
    || code in {0x2028, 0x2029, 0x202F, 0x205F, 0x3000}
  }

  lemma SpaceExactly(c: char)
    ensures IsSpace(c) <==> SpaceCode(c as int)
  {
    if SpaceCode(c as int) {
      assert c == (c as int) as char;
    }
  }

  /** A text is blank when each of its characters is one of the white-space code points. */
  lemma BlankExactly(text: string)
    ensures Blank(text) <==> forall i :: 0 <= i < |text| ==> SpaceCode(text[i] as int)
  {
    forall i | 0 <= i < |text| ensures IsSpace(text[i]) <==> SpaceCode(text[i] as int) {
      SpaceExactly(text[i]);
    }
    hide IsSpace, SpaceCode;
    if forall i :: 0 <= i < |text| ==> SpaceCode(text[i] as int) {
      forall c | c in text ensures IsSpace(c) {
        var i :| 0 <= i < |text| && text[i] == c;
        assert SpaceCode(text[i] as int);
      }
    }
  }

  /** Appends the prerequisites not listed yet, in the order given. */
  function Added(list: seq<Id>, more: seq<Id>): (r: seq<Id>)
    ensures list <= r
    ensures forall id :: id in r <==> id in list || id in more
  {
    if more == [] then list
    else
      var before := Added(list, more[..|more| - 1]);
      var last := more[|more| - 1];
      if last in before then before else before + [last]
  }

  /** The same prerequisites for every check, whether or not an empty list is stored. */
  ghost predicate SameEdges(g: Prerequisites, h: Prerequisites) {
    forall id :: Of(g, id) == Of(h, id)
  }

  /** `h` is `g` with the prerequisites of one check replaced. */
  ghost predicate Replaced(g: Prerequisites, id: Id, list: seq<Id>, h: Prerequisites) {
    Of(h, id) == list && h - {id} == g - {id}
  }

  lemma ReplacedSameEdges(g: Prerequisites, id: Id, list: seq<Id>, h: Prerequisites)
    requires Replaced(g, id, list, h)
    ensures SameEdges(h, g[id := list])
  {
    forall other | other != id ensures Of(h, other) == Of(g, other) {
      assert other in h <==> other in h - {id};
      assert other in g <==> other in g - {id};
      assert other in h ==> h[other] == (h - {id})[other] == (g - {id})[other];
    }
  }

  lemma AddedNone(list: seq<Id>, more: seq<Id>)
    ensures Added(list, more[..0]) == list
  {
  }

  /** One turn of the registration loop. */
  lemma AddedSnoc(list: seq<Id>, more: seq<Id>, n: nat)
    requires n < |more|
    ensures Added(list, more[..n + 1])
         == Added(list, more[..n]) + if more[n] in Added(list, more[..n]) then [] else [more[n]]
  {
    assert more[..n + 1][..n] == more[..n];
  }

  lemma SameEdgesSameCycles(g: Prerequisites, h: Prerequisites)
    requires SameEdges(g, h)
    ensures Cyclic(g) <==> Cyclic(h)
  {
    if Cyclic(g) {
      MoreEdgesKeepCycle(g, h);
    }
    if Cyclic(h) {
      MoreEdgesKeepCycle(h, g);
    }
  }

  /** One of these checks already has `id` among its transitive prerequisites. */
  ghost predicate Returns(g: Prerequisites, more: seq<Id>, id: Id) {
    exists q :: q in more && Reaches(g, q, id)
  }

  /** The first prerequisite the registration loop stops at, or their number if it accepts all. */
  function FirstRejected(byId: set<Id>, checkId: Id, prerequisites: seq<Id>): (n: nat)
    ensures n <= |prerequisites|
    ensures forall i :: 0 <= i < n ==> prerequisites[i] != checkId && prerequisites[i] in byId
    ensures n < |prerequisites| ==> prerequisites[n] == checkId || prerequisites[n] !in byId
  {
    if prerequisites == [] || prerequisites[0] == checkId || prerequisites[0] !in byId then 0
    else 1 + FirstRejected(byId, checkId, prerequisites[1..])
  }

  lemma FirstRejectedUnique(byId: set<Id>, checkId: Id, prerequisites: seq<Id>, n: nat)
    requires n <= |prerequisites|
    requires forall i :: 0 <= i < n ==> prerequisites[i] != checkId && prerequisites[i] in byId
    requires n < |prerequisites| ==> prerequisites[n] == checkId || prerequisites[n] !in byId
    ensures n == FirstRejected(byId, checkId, prerequisites)
  {
    var m := FirstRejected(byId, checkId, prerequisites);
    assert !(m < n);
    assert !(n < m);
  }

  class Registry {
    var checks: seq<Id>
    var byId: set<Id>
    var fixes: set<Id>
    var prerequisites: Prerequisites

    constructor ()
      ensures Valid() && checks == [] && fixes == {} && prerequisites == map[]
    {
      checks, byId, fixes, prerequisites := [], {}, {}, map[];
    }

    ghost predicate Valid()
      reads this
    {
      && NoDuplicates(checks)
      && (forall id :: id in checks <==> id in byId)
      && fixes <= byId
      && prerequisites.Keys <= byId
      && (forall id, q :: id in prerequisites && q in prerequisites[id] ==> q in byId)
    }

    method RegisterCheck(id: Id) returns (ok: bool)
      requires Valid()
      modifies this
      ensures Valid()
      ensures ok == (!Blank(id) && id !in old(checks))
      ensures checks == if ok then old(checks) + [id] else old(checks)
      ensures fixes == old(fixes) && prerequisites == old(prerequisites)
    {
      if Blank(id) {
        return false;
      }
      if id in byId {
        return false;
      }
      byId := byId + {id};
      checks := checks + [id];
      return true;
    }

    /** A fix names itself and its check. */
    method RegisterFix(fixId: Id, checkId: Id) returns (ok: bool)
      requires Valid()
      modifies this
      ensures Valid()
      ensures ok == (!Blank(fixId) && !Blank(checkId) && checkId in old(checks) && checkId !in old(fixes))
      ensures fixes == if ok then old(fixes) + {checkId} else old(fixes)
      ensures checks == old(checks) && prerequisites == old(prerequisites)
    {
      if Blank(fixId) || Blank(checkId) || checkId !in byId || checkId in fixes {
        return false;
      }
      fixes := fixes + {checkId};
      return true;
    }

    /** Searches from every registered check, in an order the map iteration picks. */
    method HasDependencyCycle() returns (found: bool)
      requires Valid()
      ensures found <==> Cyclic(prerequisites)
    {
      var search := new CycleSearch(prerequisites);
      var todo := byId;
      while todo != {}
        invariant todo <= byId
        invariant search.Valid() && search.graph == prerequisites && search.visiting == {}
        invariant fresh(search)
        invariant byId - todo <= search.visited
        decreases todo
      {
        var id :| id in todo;
        assert Connects(prerequisites, [] + [id], id, id);
        found := search.Visit(id, [], byId);
        if found {
          return true;
        }
        todo := todo - {id};
      }
      TopologicalMeansAcyclic(prerequisites, search.order);
      forall id ensures !OnCycle(prerequisites, id) {
        if OnCycle(prerequisites, id) {
          CycleLeavesNode(prerequisites, id);
        }
      }
      return false;
    }

    /** The registration loop: appends until a prerequisite is refused, and says where it stopped. */
    method AppendEdges(checkId: Id, more: seq<Id>) returns (stopped: nat)
      requires Valid() && checkId in byId
      modifies this`prerequisites
      ensures Valid()
      ensures stopped == FirstRejected(byId, checkId, more)
      ensures var previous := Of(old(prerequisites), checkId);
        Replaced(old(prerequisites), checkId, Added(previous, more[..stopped]), prerequisites)
    {
      hide Added;
      var previous := Of(prerequisites, checkId);
      var seen := set id | id in previous;
      AddedNone(previous, more);
      stopped := 0;
      while stopped < |more| && more[stopped] != checkId && more[stopped] in byId
        invariant stopped <= |more|
        invariant forall k :: 0 <= k < stopped ==> more[k] != checkId && more[k] in byId
        invariant Valid()
        invariant Replaced(old(prerequisites), checkId, Added(previous, more[..stopped]), prerequisites)
        invariant forall id :: id in seen <==> id in Added(previous, more[..stopped])
      {
        AddedSnoc(previous, more, stopped);
        if more[stopped] !in seen {
          seen := seen + {more[stopped]};
          prerequisites := prerequisites[checkId := Of(prerequisites, checkId) + [more[stopped]]];
        }
        stopped := stopped + 1;
      }
      FirstRejectedUnique(byId, checkId, more, stopped);
    }

    /**
      Adds prerequisites to one check. A rejected prerequisite ends the loop and leaves the
      ones before it in place; a cycle puts the previous list back.
     */
    method RegisterPrerequisites(checkId: Id, more: seq<Id>) returns (r: RegisterResult)
      requires Valid()
      modifies this`prerequisites
      ensures Valid()
      ensures checkId !in byId ==> r == Rejected(NotRegistered) && prerequisites == old(prerequisites)
      ensures checkId in byId ==>
        var n := FirstRejected(byId, checkId, more);
        ghost var grown := old(prerequisites)[checkId := Added(Of(old(prerequisites), checkId), more[..n])];
        var closes := Cyclic(old(prerequisites)) || Returns(old(prerequisites), more[..n], checkId);
        if n < |more| then
          && r == Rejected(if more[n] == checkId then SelfDependency else UnknownPrerequisite)
          && SameEdges(prerequisites, grown) && (Cyclic(prerequisites) <==> closes)
        else if closes then
          r == Rejected(CycleRejected) && SameEdges(prerequisites, old(prerequisites))
        else
          r == Registered && SameEdges(prerequisites, grown) && !Cyclic(prerequisites)
    {
      hide Added, OnCycle;
      if checkId !in byId {
        return Rejected(NotRegistered);
      }
      var previous := Of(prerequisites, checkId);
      var stopped := AppendEdges(checkId, more);
      ghost var grown := old(prerequisites)[checkId := Added(previous, more[..stopped])];
      ReplacedSameEdges(old(prerequisites), checkId, Added(previous, more[..stopped]), prerequisites);
      AddingClosesCycle(old(prerequisites), checkId, Added(previous, more[..stopped]), more[..stopped]);
      SameEdgesSameCycles(prerequisites, grown);
      if stopped < |more| {
        return Rejected(if more[stopped] == checkId then SelfDependency else UnknownPrerequisite);
      }
      assert more[..stopped] == more;
      var cyclic := HasDependencyCycle();
      if cyclic {
        prerequisites := prerequisites[checkId := previous];
        ReplacedSameEdges(old(prerequisites), checkId, previous, prerequisites);
        return Rejected(CycleRejected);
      }
      return Registered;
    }
  }

  /**
    A rejected registration can leave a cycle behind: the edges before the unknown
    prerequisite stay, and nobody looked for a cycle.
   */
  lemma RejectionMayLeaveCycle()
    ensures var byId: set<Id> := {"A", "B"};
      var g: Prerequisites := map["A" := ["B"]];
      var n := FirstRejected(byId, "B", ["A", "C"]);
      && !Cyclic(g) && n == 1
      && Cyclic(g["B" := Added(Of(g, "B"), ["A", "C"][..n])])
  {
    var byId: set<Id> := {"A", "B"};
    var g: Prerequisites := map["A" := ["B"]];
    FirstRejectedUnique(byId, "B", ["A", "C"], 1);
    assert ["B", "A"][..1] == ["B"];
    TopologicalMeansAcyclic(g, ["B", "A"]);
    forall id ensures !OnCycle(g, id) {
      if OnCycle(g, id) {
        CycleLeavesNode(g, id);
      }
    }
    assert ["A", "C"][..1] == ["A"];
    assert ["A"][..0] == [];
    var h := g["B" := ["A"]];
    assert Added(Of(g, "B"), ["A"]) == ["A"];
    var path := ["A", "B", "A"];
    assert Connects(h, path, "A", "A");
    assert OnCycle(h, "A");
  }
}
