/** Selecting checks in prerequisite order, running them, and summing them up. */
module DoctorRun {
  import opened Graph
  import opened Doctor

  // ---------------------------------------------------------------- selection

  datatype SelectError = CycleError(id: Id) | UnknownCheck(id: Id)

  datatype Selected = Checks(list: seq<Id>) | SelectFailed(error: SelectError)

  /** Why a selection may fail: the offending check is reachable and really offends. */
  ghost predicate Justified(g: Prerequisites, known: set<Id>, from: Id, error: SelectError) {
    match error
    case CycleError(id) => Reaches(g, from, id) && OnCycle(g, id)
    case UnknownCheck(id) => Reaches(g, from, id) && id !in known
  }

  lemma JustifiedThrough(g: Prerequisites, known: set<Id>, from: Id, next: Id, error: SelectError)
    requires next in Of(g, from) && Justified(g, known, next, error)
    ensures Justified(g, known, from, error)
  {
    ReachesThrough(g, from, next, error.id);
  }

  /** Everything selected since `before` is needed by `id`. */
  ghost predicate Needed(g: Prerequisites, id: Id, before: seq<Id>, after: seq<Id>) {
    forall x :: x in after && x !in before ==> Reaches(g, id, x)
  }

  lemma NeededThrough(g: Prerequisites, id: Id, next: Id, before: seq<Id>, middle: seq<Id>, after: seq<Id>)
    requires next in Of(g, id) && Needed(g, id, before, middle) && Needed(g, next, middle, after)
    ensures Needed(g, id, before, after)
  {
    forall x | x in after && x !in before ensures Reaches(g, id, x) {
      if x !in middle {
        ReachesThrough(g, id, next, x);
      }
    }
  }

  lemma NeededSelf(g: Prerequisites, id: Id, before: seq<Id>, after: seq<Id>)
    requires Needed(g, id, before, after)
    ensures Needed(g, id, before, before) && Needed(g, id, before, after + [id])
  {
    ReachesSelf(g, id);
  }

  /** The marks of a selection: 1 for the checks on the stack, 2 for the selected ones. */
  ghost predicate Consistent(g: Prerequisites, known: set<Id>, state: map<Id, int>, selected: seq<Id>, stack: seq<Id>) {
    && (forall id :: id in state ==> state[id] == 1 || state[id] == 2)
    && (forall id :: id in stack <==> id in state && state[id] == 1)
    && (forall id :: id in selected <==> id in state && state[id] == 2)
    && NoDuplicates(selected) && Topological(g, selected)
    && state.Keys <= known
  }

  lemma MarkIncluding(g: Prerequisites, known: set<Id>, state: map<Id, int>, selected: seq<Id>, stack: seq<Id>, id: Id)
    requires Consistent(g, known, state, selected, stack) && id !in state && id in known
    ensures Consistent(g, known, state[id := 1], selected, stack + [id])
  {
  }

  lemma MarkIncluded(g: Prerequisites, known: set<Id>, state: map<Id, int>, selected: seq<Id>, stack: seq<Id>, id: Id)
    requires Consistent(g, known, state, selected, stack + [id]) && id !in stack
    requires forall q :: q in Of(g, id) ==> q in selected
    ensures Consistent(g, known, state[id := 2], selected + [id], stack)
  {
    TopologicalSnoc(g, selected, id);
    hide Topological;
    assert forall s :: s in stack + [id] <==> s in stack || s == id;
  }

  /** The depth-first selection: `state` is 1 while a check is being included, 2 when it is in. */
  class Selection {
    const graph: Prerequisites
    const known: set<Id>
    var state: map<Id, int>
    var selected: seq<Id>

    constructor (graph: Prerequisites, known: set<Id>)
      ensures this.graph == graph && this.known == known
      ensures state == map[] && selected == [] && Valid([])
    {
      this.graph, this.known := graph, known;
      state, selected := map[], [];
    }

    ghost predicate Valid(stack: seq<Id>)
      reads this
    {
      Consistent(graph, known, state, selected, stack)
    }

    method Include(id: Id, ghost stack: seq<Id>) returns (ok: bool, error: SelectError)
      requires Valid(stack) && IsPath(graph, stack + [id])
      modifies this
      ensures ok ==> Valid(stack) && id in selected && old(selected) <= selected
      ensures ok ==> old(state.Keys) <= state.Keys <= known
      ensures ok ==> Needed(graph, id, old(selected), selected)
      ensures !ok ==> Justified(graph, known, id, error)
      decreases known - state.Keys
    {
      hide Reaches, OnCycle, IsPath, Topological;
      error := UnknownCheck(id);
      if id in state && state[id] == 1 {
        StackCloses(graph, stack, id);
        ReachesSelf(graph, id);
        return false, CycleError(id);
      }
      if id in state && state[id] == 2 {
        return true, error;
      }
      ReachesSelf(graph, id);
      if id !in known {
        return false, UnknownCheck(id);
      }
      MarkIncluding(graph, known, state, selected, stack, id);
      assert id !in stack;
      state := state[id := 1];
      assert Needed(graph, id, old(selected), selected);
      hide Consistent, Needed;
      var prerequisites := Of(graph, id);
      var i := 0;
      while i < |prerequisites|
        invariant 0 <= i <= |prerequisites|
        invariant Valid(stack + [id]) && old(selected) <= selected
        invariant old(state.Keys) + {id} <= state.Keys <= known
        invariant forall q :: q in prerequisites[..i] ==> q in selected
        invariant Needed(graph, id, old(selected), selected)
      {
        ghost var before := selected;
        PathGrows(graph, stack + [id], prerequisites[i]);
        ok, error := Include(prerequisites[i], stack + [id]);
        if !ok {
          JustifiedThrough(graph, known, id, prerequisites[i], error);
          return;
        }
        NeededThrough(graph, id, prerequisites[i], old(selected), before, selected);
        i := i + 1;
      }
      assert prerequisites[..i] == prerequisites;
      MarkIncluded(graph, known, state, selected, stack, id);
      NeededSelf(graph, id, old(selected), selected);
      state := state[id := 2];
      selected := selected + [id];
      return true, error;
    }
  }

  /** The checks a selection is about: the roots and all their transitive prerequisites. */
  ghost predicate InClosure(g: Prerequisites, roots: seq<Id>, id: Id) {
    exists root :: root in roots && Reaches(g, root, id)
  }

  /** The list begins with exactly what the first `k` roots need. */
  ghost predicate BeginsWith(g: Prerequisites, roots: seq<Id>, list: seq<Id>, k: nat)
    requires k <= |roots|
  {
    exists n: nat :: n <= |list| && IsClosureOf(g, roots[..k], list[..n])
  }

  ghost predicate IsClosureOf(g: Prerequisites, roots: seq<Id>, list: seq<Id>) {
    forall id :: id in list <==> InClosure(g, roots, id)
  }

  lemma BeginsLonger(g: Prerequisites, roots: seq<Id>, list: seq<Id>, longer: seq<Id>, k: nat)
    requires k <= |roots| && list <= longer && BeginsWith(g, roots, list, k)
    ensures BeginsWith(g, roots, longer, k)
  {
    var n: nat :| n <= |list| && IsClosureOf(g, roots[..k], list[..n]);
    assert longer[..n] == list[..n];
  }

  /** Including one more root makes the list the closure of one more root. */
  lemma ClosureOfOneMore(g: Prerequisites, roots: seq<Id>, i: nat, before: seq<Id>, after: seq<Id>)
    requires i < |roots| && IsClosureOf(g, roots[..i], before) && before <= after
    requires Topological(g, after) && NoDuplicates(after) && roots[i] in after
    requires Needed(g, roots[i], before, after)
    ensures IsClosureOf(g, roots[..i + 1], after)
  {
    TopologicalMeansAcyclic(g, after);
    hide Reaches, Topological, NoDuplicates, OnCycle;
    assert roots[..i + 1] == roots[..i] + [roots[i]];
    forall id | id in after ensures InClosure(g, roots[..i + 1], id) {
      if id in before {
        var root :| root in roots[..i] && Reaches(g, root, id);
        assert root in roots[..i + 1];
      } else {
        assert roots[i] in roots[..i + 1];
      }
    }
    forall id | InClosure(g, roots[..i + 1], id) ensures id in after {
      var root :| root in roots[..i + 1] && Reaches(g, root, id);
      if root in roots[..i] {
        assert InClosure(g, roots[..i], id);
      }
    }
  }

  /** Nothing reachable from the roots is unknown or on a cycle. */
  ghost predicate Selectable(g: Prerequisites, known: set<Id>, roots: seq<Id>) {
    forall id :: InClosure(g, roots, id) ==> id in known && !OnCycle(g, id)
  }

  /** The selection over any prerequisite relation, cyclic or not. */
  method SelectChecks(g: Prerequisites, known: set<Id>, roots: seq<Id>) returns (r: Selected)
    ensures r.Checks? <==> Selectable(g, known, roots)
    ensures r.Checks? ==>
      && NoDuplicates(r.list)
      && Topological(g, r.list)
      && forall id :: id in r.list <==> InClosure(g, roots, id)
    ensures r.Checks? ==> forall k :: 0 <= k <= |roots| ==> BeginsWith(g, roots, r.list, k)
    ensures r.SelectFailed? ==> exists root :: root in roots && Justified(g, known, root, r.error)
  {
    var selection := new Selection(g, known);
    var i := 0;
    assert selection.selected[..0] == [] && roots[..0] == [];
    assert IsClosureOf(g, roots[..0], selection.selected[..0]);
    while i < |roots|
      invariant 0 <= i <= |roots|
      invariant fresh(selection) && selection.graph == g && selection.known == known
      invariant selection.Valid([])
      invariant IsClosureOf(g, roots[..i], selection.selected)
      invariant forall k :: 0 <= k <= i ==> BeginsWith(g, roots, selection.selected, k)
    {
      ghost var before := selection.selected;
      assert IsPath(g, [] + [roots[i]]);
      var ok, error := selection.Include(roots[i], []);
      if !ok {
        assert InClosure(g, roots, error.id);
        return SelectFailed(error);
      }
      ClosureOfOneMore(g, roots, i, before, selection.selected);
      forall k | 0 <= k <= i ensures BeginsWith(g, roots, selection.selected, k) {
        BeginsLonger(g, roots, before, selection.selected, k);
      }
      i := i + 1;
      assert selection.selected[..|selection.selected|] == selection.selected;
    }
    assert roots[..i] == roots;
    TopologicalMeansAcyclic(g, selection.selected);
    return Checks(selection.selected);
  }

  // ---------------------------------------------------------------- results

  datatype Status = Pass | Warn | Fail | Skip | OddStatus(text: string)
  datatype Severity = Info | Warning | Critical | OddSeverity(text: string)

  datatype CheckResult = CheckResult(id: Id, status: Status, severity: Severity, ran: bool)

  /** A body's result that a report may show as it is: known values, and no critical warning. */
  predicate Presentable(raw: CheckResult) {
    && raw.status in {Pass, Warn, Fail, Skip} && raw.severity in {Info, Warning, Critical}
    && !(raw.status == Warn && raw.severity == Critical)
  }

  /** What the report shows for a raw result: odd values and critical warnings become failures. */
  function Normalized(id: Id, raw: CheckResult): (r: CheckResult)
    ensures r.id == id && r.ran == raw.ran
    ensures r.status in {Pass, Warn, Fail, Skip} && r.severity in {Info, Warning, Critical}
    ensures raw.status == Fail ==> r.status == Fail
    ensures r.status == Pass ==> raw.status == Pass
    ensures Presentable(raw) ==> r.status == raw.status && r.severity == raw.severity
    ensures !Presentable(raw) ==> r.status == Fail && r.severity == Critical
  {
    var a := if raw.status.OddStatus? then raw.(status := Fail, severity := Critical) else raw;
    var b := if a.severity.OddSeverity? then a.(status := Fail, severity := Critical) else a;
    var d := if b.status == Warn && b.severity == Critical then b.(status := Fail) else b;
    d.(id := id)
  }

  predicate Blocks(r: CheckResult) {
    r.status == Fail || r.status == Skip
  }

  type Observed = map<Id, CheckResult>

  /** The first prerequisite that was not observed, failed or was skipped. */
  method FailedPrerequisite(g: Prerequisites, observed: Observed, id: Id) returns (blocked: bool, culprit: Id)
    ensures blocked ==> culprit in Of(g, id) && (culprit !in observed || Blocks(observed[culprit]))
    ensures !blocked ==> forall q :: q in Of(g, id) ==> q in observed && !Blocks(observed[q])
  {
    var list := Of(g, id);
    var i := 0;
    while i < |list|
      invariant 0 <= i <= |list|
      invariant forall q :: q in list[..i] ==> q in observed && !Blocks(observed[q])
    {
      if list[i] !in observed || Blocks(observed[list[i]]) {
        return true, list[i];
      }
      i := i + 1;
    }
    return false, "";
  }

  datatype Summary = Summary(passed: nat, warnings: nat, failed: nat, critical: nat, exitCode: nat)

  function Count(results: seq<CheckResult>, status: Status): nat {
    if results == [] then 0
    else Count(results[..|results| - 1], status) + if results[|results| - 1].status == status then 1 else 0
  }

  lemma {:induction false} CountZero(results: seq<CheckResult>, status: Status)
    ensures Count(results, status) > 0 <==> exists i :: 0 <= i < |results| && results[i].status == status
  {
    if results == [] {
    } else {
      var init := results[..|results| - 1];
      CountZero(init, status);
      if Count(init, status) > 0 {
        var i :| 0 <= i < |init| && init[i].status == status;
        assert results[i].status == status;
      }
      if i :| 0 <= i < |results| && results[i].status == status {
        assert i < |init| ==> init[i].status == status;
      }
    }
  }

  /** How many results failed critically. */
  function Criticals(results: seq<CheckResult>): nat {
    if results == [] then 0
    else
      var last := results[|results| - 1];
      Criticals(results[..|results| - 1]) + if last.status == Fail && last.severity == Critical then 1 else 0
  }

  method Summarize(results: seq<CheckResult>) returns (s: Summary)
    ensures s.passed == Count(results, Pass) && s.warnings == Count(results, Warn)
    ensures s.failed == Count(results, Fail) && s.critical <= s.failed
    ensures s.critical > 0 <==>
      exists i :: 0 <= i < |results| && results[i].status == Fail && results[i].severity == Critical
    ensures s.exitCode == 7 <==> exists i :: 0 <= i < |results| && results[i].status == Fail
    ensures s.exitCode == 7 || s.exitCode == 0
    ensures s.critical == Criticals(results)
  {
    s := Summary(0, 0, 0, 0, 0);
    var i := 0;
    while i < |results|
      invariant 0 <= i <= |results|
      invariant s.passed == Count(results[..i], Pass) && s.warnings == Count(results[..i], Warn)
      invariant s.failed == Count(results[..i], Fail) && s.critical <= s.failed && s.exitCode == 0
      invariant s.critical == Criticals(results[..i])
      invariant s.critical > 0 <==>
        exists k :: 0 <= k < i && results[k].status == Fail && results[k].severity == Critical
    {
      assert results[..i + 1][..i] == results[..i];
      match results[i].status {
        case Pass => s := s.(passed := s.passed + 1);
        case Warn => s := s.(warnings := s.warnings + 1);
        case Fail =>
          s := s.(failed := s.failed + 1);
          if results[i].severity == Critical {
            s := s.(critical := s.critical + 1);
          }
        case _ =>
      }
      i := i + 1;
    }
    assert results[..i] == results;
    CountZero(results, Fail);
    if s.failed > 0 {
      s := s.(exitCode := 7);
    }
  }

  // ---------------------------------------------------------------- the run

  /** What each check's body would report; every body is called at most once in a run. */
  type Bodies = Id -> CheckResult

  function BodyOf(bodies: Bodies, id: Id): CheckResult {
    bodies(id).(ran := true)
  }

  const SKIPPED := CheckResult("", Skip, Info, false)

  /** No prerequisite of the check at `i` blocks it; its prerequisites all stand before it. */
  ghost predicate Cleared(g: Prerequisites, list: seq<Id>, results: seq<CheckResult>, i: nat)
    requires i <= |results| <= |list| && i < |list|
  {
    forall j :: 0 <= j < i && list[j] in Of(g, list[i]) ==> !Blocks(results[j])
  }

  /** The result at `i` is the body's when the check is cleared, and a skip otherwise. */
  ghost predicate ExplainedAt(g: Prerequisites, bodies: Bodies, list: seq<Id>, results: seq<CheckResult>, i: nat)
    requires i < |results| <= |list|
  {
    && (results[i].ran <==> Cleared(g, list, results, i))
    && results[i] == Normalized(list[i], if results[i].ran then BodyOf(bodies, list[i]) else SKIPPED)
  }

  ghost predicate Explained(g: Prerequisites, bodies: Bodies, list: seq<Id>, results: seq<CheckResult>) {
    && |results| <= |list|
    && forall i :: 0 <= i < |results| ==> ExplainedAt(g, bodies, list, results, i)
  }

  lemma ExplainedSnoc(g: Prerequisites, bodies: Bodies, list: seq<Id>, results: seq<CheckResult>, result: CheckResult)
    requires Explained(g, bodies, list, results) && |results| < |list|
    requires result.ran <==> Cleared(g, list, results, |results|)
    requires result == Normalized(list[|results|], if result.ran then BodyOf(bodies, list[|results|]) else SKIPPED)
    ensures Explained(g, bodies, list, results + [result])
  {
    var longer := results + [result];
    forall i | 0 <= i < |longer| ensures ExplainedAt(g, bodies, list, longer, i) {
      assert Cleared(g, list, longer, i) <==> Cleared(g, list, results, i);
      if i < |results| {
        assert ExplainedAt(g, bodies, list, results, i);
      }
    }
  }

  /** What is known about the checks before `i` decides whether the check at `i` is blocked. */
  lemma BlockedOrCleared(g: Prerequisites, list: seq<Id>, results: seq<CheckResult>, observed: Observed, i: nat,
                         blocked: bool, culprit: Id)
    requires Topological(g, list) && i == |results| && i < |list|
    requires Observes(observed, list, results)
    requires blocked ==> culprit in Of(g, list[i]) && (culprit !in observed || Blocks(observed[culprit]))
    requires !blocked ==> forall q :: q in Of(g, list[i]) ==> q in observed && !Blocks(observed[q])
    ensures blocked <==> !Cleared(g, list, results, i)
    ensures blocked ==> culprit in observed
  {
    if blocked {
      assert culprit in list[..i];
      var j :| 0 <= j < i && list[..i][j] == culprit;
      assert list[j] == culprit && observed[list[j]] == results[j];
    }
  }

  /** The map of observations holds exactly the results so far, by check. */
  ghost predicate Observes(observed: Observed, list: seq<Id>, results: seq<CheckResult>) {
    && |results| <= |list|
    && forall k :: 0 <= k < |results| ==> list[k] in observed && observed[list[k]] == results[k]
  }

  lemma ObservesSnoc(observed: Observed, list: seq<Id>, results: seq<CheckResult>, result: CheckResult)
    requires Observes(observed, list, results) && |results| < |list| && NoDuplicates(list)
    ensures Observes(observed[list[|results|] := result], list, results + [result])
  {
  }

  /** A check is reported under its own name: as its body says, as a failure if that cannot be shown, or skipped. */
  predicate Reports(r: CheckResult, id: Id, body: CheckResult) {
    && r.id == id
    && if !r.ran then r.status == Skip && r.severity == Info
       else if Presentable(body) then r.status == body.status && r.severity == body.severity
       else r.status == Fail && r.severity == Critical
  }

  lemma ExplainedReports(g: Prerequisites, bodies: Bodies, list: seq<Id>, results: seq<CheckResult>, i: nat)
    requires Explained(g, bodies, list, results) && i < |results|
    ensures Reports(results[i], list[i], bodies(list[i]))
  {
    assert ExplainedAt(g, bodies, list, results, i);
  }

  /** The checks asked for; all that are registered when none is. */
  function Roots(registered: seq<Id>, ids: seq<Id>): seq<Id> {
    if ids == [] then registered else ids
  }

  /** Runs the selected checks in order; `live` is false once the context is canceled. */
  method RunChecks(g: Prerequisites, registered: seq<Id>, ids: seq<Id>, bodies: Bodies, live: seq<bool>)
    returns (ok: bool, ghost list: seq<Id>, results: seq<CheckResult>, summary: Summary)
    ensures ok ==> forall id :: id in ids ==> id in list && id in registered
    ensures ok && ids == [] ==> forall id :: id in registered <==> id in list
    ensures ok ==> Selectable(g, (set id | id in registered), Roots(registered, ids))
    ensures ok ==> NoDuplicates(list) && Topological(g, list)
    ensures ok ==> IsClosureOf(g, Roots(registered, ids), list)
    ensures ok ==> forall i :: 0 <= i < |list| && i < |live| ==> live[i]
    ensures ok ==> |results| == |list| && Explained(g, bodies, list, results)
    ensures ok ==> forall i :: 0 <= i < |results| ==> Reports(results[i], list[i], bodies(list[i]))
    ensures ok ==>
      && summary.passed == Count(results, Pass) && summary.warnings == Count(results, Warn)
      && summary.failed == Count(results, Fail) && summary.critical == Criticals(results)
      && summary.exitCode in {0, 7}
    ensures ok ==> (summary.exitCode == 7 <==> exists i :: 0 <= i < |results| && results[i].status == Fail)
    ensures
      var known := set id | id in registered;
      Selectable(g, known, Roots(registered, ids)) && (forall i :: 0 <= i < |live| ==> live[i]) ==> ok
  {
    var known := set id | id in registered;
    var roots := Roots(registered, ids);
    forall id | id in roots ensures InClosure(g, roots, id) {
      ReachesSelf(g, id);
    }
    results, summary, list := [], Summary(0, 0, 0, 0, 0), [];
    var selected := SelectChecks(g, known, roots);
    if selected.SelectFailed? {
      return false, list, results, summary;
    }
    var checks := selected.list;
    list := checks;
    var observed: Observed := map[];
    var i := 0;
    while i < |checks|
      invariant 0 <= i <= |checks| && |results| == i
      invariant forall k :: 0 <= k < i && k < |live| ==> live[k]
      invariant Observes(observed, checks, results)
      invariant Explained(g, bodies, checks, results)
    {
      if i < |live| && !live[i] {
        return false, list, results, summary;
      }
      var blocked, culprit := FailedPrerequisite(g, observed, checks[i]);
      BlockedOrCleared(g, checks, results, observed, i, blocked, culprit);
      var raw := if blocked then SKIPPED else BodyOf(bodies, checks[i]);
      var result := Normalized(checks[i], raw);
      ExplainedSnoc(g, bodies, checks, results, result);
      ObservesSnoc(observed, checks, results, result);
      observed := observed[checks[i] := result];
      results := results + [result];
      i := i + 1;
    }
    forall k | 0 <= k < |results| ensures Reports(results[k], list[k], bodies(list[k])) {
      ExplainedReports(g, bodies, checks, results, k);
    }
    summary := Summarize(results);
    return true, list, results, summary;
  }

  // ---------------------------------------------------------------- what a run means

  /** One or more prerequisite edges lead from `from` to `to`. */
  ghost predicate Requires(g: Prerequisites, from: Id, to: Id) {
    exists q :: q in Of(g, from) && Reaches(g, q, to)
  }

  ghost predicate Healthy(r: CheckResult) {
    r.status == Pass || r.status == Warn
  }

  lemma {:induction false} HealthyPath(g: Prerequisites, bodies: Bodies, list: seq<Id>, results: seq<CheckResult>,
                                       k: nat, path: seq<Id>) returns (last: nat)
    requires Topological(g, list) && Explained(g, bodies, list, results) && |results| == |list|
    requires k < |list| && Healthy(results[k]) && IsPath(g, path) && path[0] == list[k]
    ensures last < |list| && list[last] == path[|path| - 1] && Healthy(results[last])
    decreases |path|
  {
    if |path| == 1 {
      return k;
    }
    assert path[0 + 1] in Of(g, path[0]);
    var j :| 0 <= j < k && list[..k][j] == path[1];
    assert ExplainedAt(g, bodies, list, results, k) && ExplainedAt(g, bodies, list, results, j);
    var rest := path[1..];
    forall i | 0 <= i < |rest| - 1 ensures rest[i + 1] in Of(g, rest[i]) {
      assert path[i + 1 + 1] in Of(g, path[i + 1]);
    }
    last := HealthyPath(g, bodies, list, results, j, rest);
  }

  /**
    A check's body runs exactly when every one of its transitive prerequisites reported pass
    or warn; otherwise the check reports skip.
   */
  lemma RunsIffPrerequisitesHealthy(g: Prerequisites, bodies: Bodies, list: seq<Id>, results: seq<CheckResult>, i: nat)
    requires NoDuplicates(list) && Topological(g, list) && Explained(g, bodies, list, results)
    requires |results| == |list| && i < |list|
    ensures results[i].ran <==>
      forall to :: Requires(g, list[i], to) ==> exists j :: 0 <= j < |list| && list[j] == to && Healthy(results[j])
    ensures !results[i].ran ==> results[i].status == Skip
  {
    assert ExplainedAt(g, bodies, list, results, i);
    if results[i].ran {
      forall to | Requires(g, list[i], to)
        ensures exists j :: 0 <= j < |list| && list[j] == to && Healthy(results[j])
      {
        var q :| q in Of(g, list[i]) && Reaches(g, q, to);
        var path :| Connects(g, path, q, to);
        var k :| 0 <= k < i && list[..i][k] == q;
        assert ExplainedAt(g, bodies, list, results, k);
        var last := HealthyPath(g, bodies, list, results, k, path);
      }
    } else {
      var k :| 0 <= k < i && list[k] in Of(g, list[i]) && Blocks(results[k]);
      ReachesSelf(g, list[k]);
      assert Requires(g, list[i], list[k]);
      assert forall j :: 0 <= j < |list| && list[j] == list[k] ==> j == k;
    }
  }
}
