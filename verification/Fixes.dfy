/** The fix transaction: preview, confirm, apply one by one, and undo everything on a failure. */
module Fixes {
  import opened Wrappers
  import opened Graph
  import opened DoctorRun

  datatype Applied<W> = Applied(world: W, ok: bool, verified: bool)
  datatype Undone<W> = Undone(world: W, ok: bool)

  /** A fix for one check, acting on a world that includes the fix's own memory. */
  datatype Fix<!W> = Fix(checkId: Id, preview: bool, apply: W -> Applied<W>, rollback: W -> Undone<W>)

  /** What every fix promises: a rollback that succeeds restores the world from before `apply`. */
  ghost predicate Undoes<W(!new)>(fix: Fix<W>) {
    forall w: W :: var undone := fix.rollback(fix.apply(w).world); undone.ok ==> undone.world == w
  }

  datatype Action = DidApply(id: Id) | DidRollback(id: Id)

  function ApplyAll<W>(fixes: seq<Fix<W>>, w: W): W {
    if fixes == [] then w
    else fixes[|fixes| - 1].apply(ApplyAll(fixes[..|fixes| - 1], w)).world
  }

  function Applies<W>(fixes: seq<Fix<W>>): (t: seq<Action>)
    ensures |t| == |fixes|
    ensures forall i :: 0 <= i < |fixes| ==> t[i] == DidApply(fixes[i].checkId)
  {
    seq(|fixes|, i requires 0 <= i < |fixes| => DidApply(fixes[i].checkId))
  }

  /** The rollbacks of `fixes` from the last one back to index `k`. */
  function Rollbacks<W>(fixes: seq<Fix<W>>, k: nat): (t: seq<Action>)
    requires k <= |fixes|
    ensures |t| == |fixes| - k
    ensures forall i :: 0 <= i < |t| ==> t[i] == DidRollback(fixes[|fixes| - 1 - i].checkId)
  {
    seq(|fixes| - k, i requires 0 <= i < |fixes| - k => DidRollback(fixes[|fixes| - 1 - i].checkId))
  }

  datatype Options = Options(dryRun: bool, yes: bool, confirm: Option<bool>)

  datatype Outcome =
    | NothingToFix
    | PreviewFailed
    | Previewed
    | NotConfirmed
    | Undid            // some fix did not succeed; every attempted fix was rolled back
    | UndoFailed       // and at least one of those rollbacks reported an error
    | Fixed

  /** `sub` keeps some of `all`, in order. */
  ghost predicate Subsequence<T>(sub: seq<T>, all: seq<T>) {
    exists at: seq<nat> :: Picks(at, sub, all)
  }

  ghost predicate Picks<T>(at: seq<nat>, sub: seq<T>, all: seq<T>) {
    && |at| == |sub|
    && (forall i :: 0 <= i < |at| ==> at[i] < |all| && all[at[i]] == sub[i])
    && (forall i, j :: 0 <= i < j < |at| ==> at[i] < at[j])
  }

  lemma SubsequenceEmpty<T>(sub: seq<T>, all: seq<T>)
    requires sub == []
    ensures Subsequence(sub, all)
  {
    var at: seq<nat> := [];
    assert Picks(at, sub, all);
  }

  lemma SubsequenceSnoc<T>(sub: seq<T>, all: seq<T>, i: nat, x: T)
    requires i < |all| && all[i] == x && Subsequence(sub, all[..i])
    ensures Subsequence(sub + [x], all[..i + 1])
  {
    var at: seq<nat> :| Picks(at, sub, all[..i]);
    assert Picks(at + [i], sub + [x], all[..i + 1]);
  }

  lemma SubsequenceWidens<T>(sub: seq<T>, all: seq<T>, i: nat, n: nat)
    requires i <= n <= |all| && Subsequence(sub, all[..i])
    ensures Subsequence(sub, all[..n])
    ensures forall x :: x in sub ==> x in all
  {
    var at: seq<nat> :| Picks(at, sub, all[..i]);
    assert Picks(at, sub, all[..n]);
  }

  /** How a check looks at its `n`th observation in a world; None is an observation error. */
  type Observe<!W> = (nat, Id, W) -> Option<Status>

  ghost predicate Passed<W>(observe: Observe<W>, n: nat, id: Id, w: W) {
    observe(n, id, w) == Some(Pass)
  }

  /** The fix at `k` succeeded, claimed to be verified, and its check was then seen to pass. */
  ghost predicate Proven<W>(observe: Observe<W>, fixes: seq<Fix<W>>, start: W, k: nat)
    requires k < |fixes|
  {
    var result := fixes[k].apply(ApplyAll(fixes[..k], start));
    result.ok && result.verified && exists n :: Passed(observe, n, fixes[k].checkId, result.world)
  }

  ghost predicate AllProven<W>(observe: Observe<W>, fixes: seq<Fix<W>>, start: W) {
    forall k :: 0 <= k < |fixes| ==> Proven(observe, fixes, start, k)
  }

  lemma ProvenSnoc<W>(observe: Observe<W>, fixes: seq<Fix<W>>, start: W, fix: Fix<W>, n: nat)
    requires AllProven(observe, fixes, start)
    requires var result := fix.apply(ApplyAll(fixes, start));
      result.ok && result.verified && Passed(observe, n, fix.checkId, result.world)
    ensures AllProven(observe, fixes + [fix], start)
  {
    var longer := fixes + [fix];
    forall k | 0 <= k < |longer| ensures Proven(observe, longer, start, k) {
      assert longer[..k] == if k < |fixes| then fixes[..k] else fixes;
      if k < |fixes| {
        assert Proven(observe, fixes, start, k);
      }
    }
  }

  lemma ApplyAllSnoc<W>(fixes: seq<Fix<W>>, fix: Fix<W>, start: W)
    ensures ApplyAll(fixes + [fix], start) == fix.apply(ApplyAll(fixes, start)).world
    ensures Applies(fixes + [fix]) == Applies(fixes) + [DidApply(fix.checkId)]
  {
    assert (fixes + [fix])[..|fixes|] == fixes;
  }

  // ---------------------------------------------------------------- selection

  /** The registered fixes; None is a fix that cannot be rolled back. */
  type FixTable<!W> = map<Id, Option<Fix<W>>>

  /** A check takes part when it was asked for (or nothing was), it failed, and it has a fix. */
  predicate Eligible<W>(requested: set<Id>, observed: map<Id, Status>, table: FixTable<W>, id: Id) {
    && (requested == {} || id in requested)
    && id in observed && observed[id] == Fail
    && id in table
  }

  function CheckIds<W>(fixes: seq<Fix<W>>): (ids: seq<Id>)
    ensures |ids| == |fixes|
    ensures forall i :: 0 <= i < |ids| ==> ids[i] == fixes[i].checkId
  {
    seq(|fixes|, i requires 0 <= i < |fixes| => fixes[i].checkId)
  }

  lemma SubsequenceSkips<T>(sub: seq<T>, all: seq<T>, i: nat)
    requires i < |all| && Subsequence(sub, all[..i])
    ensures Subsequence(sub, all[..i + 1])
  {
    var at: seq<nat> :| Picks(at, sub, all[..i]);
    assert Picks(at, sub, all[..i + 1]);
  }

  /** The fixes of the failed checks, in the order the checks were registered. */
  method SelectFixes<W(!new)>(checks: seq<Id>, requested: set<Id>, observed: map<Id, Status>, table: FixTable<W>)
    returns (r: Option<seq<Fix<W>>>)
    requires forall id :: id in table && table[id].Some? ==> table[id].value.checkId == id
    ensures r.Some? <==> forall id :: id in checks && Eligible(requested, observed, table, id) ==> table[id].Some?
    ensures r.Some? ==>
      && Subsequence(CheckIds(r.value), checks)
      && (forall id :: id in CheckIds(r.value) <==> id in checks && Eligible(requested, observed, table, id))
      && (forall f :: f in r.value ==> f.checkId in table && table[f.checkId] == Some(f))
      && (forall id :: id in CheckIds(r.value) <==>
            && id in checks && (requested == {} || id in requested)
            && id in observed && observed[id].Fail? && id in table)
  {
    hide Subsequence;
    var items: seq<Fix<W>> := [];
    SubsequenceEmpty(CheckIds(items), checks[..0]);
    for i := 0 to |checks|
      invariant Subsequence(CheckIds(items), checks[..i])
      invariant forall id :: id in checks[..i] && Eligible(requested, observed, table, id) ==> table[id].Some?
      invariant forall id :: id in CheckIds(items) <==> id in checks[..i] && Eligible(requested, observed, table, id)
      invariant forall f :: f in items ==> f.checkId in table && table[f.checkId] == Some(f)
    {
      var id := checks[i];
      assert checks[..i + 1] == checks[..i] + [id];
      if Eligible(requested, observed, table, id) {
        if table[id].None? {
          assert id in checks;
          return None;
        }
        SubsequenceSnoc(CheckIds(items), checks, i, id);
        assert CheckIds(items + [table[id].value]) == CheckIds(items) + [id];
        items := items + [table[id].value];
      } else {
        SubsequenceSkips(CheckIds(items), checks, i);
      }
    }
    assert checks[..|checks|] == checks;
    return Some(items);
  }

  // ---------------------------------------------------------------- the transaction

  lemma UndoOne<W(!new)>(applied: seq<Fix<W>>, i: nat, start: W)
    requires i < |applied|
    ensures var undone := applied[i].rollback(ApplyAll(applied[..i + 1], start));
      Undoes(applied[i]) && undone.ok ==> undone.world == ApplyAll(applied[..i], start)
  {
    assert applied[..i + 1][..i] == applied[..i];
  }

  lemma RollbacksNext<W>(applied: seq<Fix<W>>, i: nat)
    requires i < |applied|
    ensures Rollbacks(applied, i) == Rollbacks(applied, i + 1) + [DidRollback(applied[i].checkId)]
  {
  }

  /** What rolling back all of `fixes`, last first, makes of a world, and whether every rollback succeeded. */
  function RolledBack<W>(fixes: seq<Fix<W>>, w: W): Undone<W> {
    if fixes == [] then Undone(w, true)
    else
      var last := fixes[|fixes| - 1].rollback(w);
      var rest := RolledBack(fixes[..|fixes| - 1], last.world);
      Undone(rest.world, last.ok && rest.ok)
  }

  lemma RolledBackNext<W>(fixes: seq<Fix<W>>, i: nat, w: W)
    requires i < |fixes|
    ensures var last := fixes[i].rollback(w);
      var rest := RolledBack(fixes[..i], last.world);
      RolledBack(fixes[..i + 1], w) == Undone(rest.world, last.ok && rest.ok)
  {
    assert fixes[..i + 1][..i] == fixes[..i];
  }

  /** The check was seen in this world, and it did not fail. */
  ghost predicate SeenHealthy<W>(observe: Observe<W>, id: Id, w: W) {
    exists n :: Sees(observe, n, id, w) && observe(n, id, w) != Some(Fail)
  }

  ghost predicate Sees<W>(observe: Observe<W>, n: nat, id: Id, w: W) {
    observe(n, id, w).Some?
  }

  ghost predicate SeenFailing<W>(observe: Observe<W>, id: Id, w: W) {
    exists n :: Sees(observe, n, id, w) && observe(n, id, w) == Some(Fail)
  }

  ghost predicate CouldNotSee<W>(observe: Observe<W>, id: Id, w: W) {
    exists n :: !Sees(observe, n, id, w)
  }

  ghost predicate NotSeenPassing<W>(observe: Observe<W>, id: Id, w: W) {
    exists n :: !Passed(observe, n, id, w)
  }

  /** The fix was attempted, or its check was seen not to fail after some of the fixes before it. */
  ghost predicate Considered<W(!new)>(observe: Observe<W>, attempted: seq<Fix<W>>, start: W, fix: Fix<W>) {
    || fix in attempted
    || exists k :: 0 <= k <= |attempted| && SeenHealthy(observe, fix.checkId, ApplyAll(attempted[..k], start))
  }

  /** The fixes before `i` are dealt with: attempted and proven, or not needed. */
  ghost predicate Handled<W(!new)>(observe: Observe<W>, ordered: seq<Fix<W>>, attempted: seq<Fix<W>>, start: W, i: nat)
    requires i <= |ordered|
  {
    && Subsequence(attempted, ordered[..i]) && AllProven(observe, attempted, start)
    && forall k :: 0 <= k < i ==> Considered(observe, attempted, start, ordered[k])
  }

  /** The fix did not succeed, was not verified, or its check was not seen to pass afterwards. */
  ghost predicate Fell<W>(observe: Observe<W>, fix: Fix<W>, w: W) {
    var result := fix.apply(w);
    !result.ok || !result.verified || NotSeenPassing(observe, fix.checkId, result.world)
  }

  /** Why the loop stopped at `i`: canceled, unable to look, or the fix there fell. */
  ghost predicate StoppedAt<W(!new)>(observe: Observe<W>, live: nat -> bool, ordered: seq<Fix<W>>,
                                     attempted: seq<Fix<W>>, start: W, i: nat)
    requires i < |ordered|
  {
    || (&& Handled(observe, ordered, attempted, start, i)
        && (!live(i) || CouldNotSee(observe, ordered[i].checkId, ApplyAll(attempted, start))))
    || (&& attempted != [] && attempted[|attempted| - 1] == ordered[i] && live(i)
        && var before := attempted[..|attempted| - 1];
        && Handled(observe, ordered, before, start, i)
        && SeenFailing(observe, ordered[i].checkId, ApplyAll(before, start))
        && Fell(observe, ordered[i], ApplyAll(before, start)))
  }

  ghost predicate Stopped<W(!new)>(observe: Observe<W>, live: nat -> bool, ordered: seq<Fix<W>>,
                                   attempted: seq<Fix<W>>, start: W)
  {
    exists i :: 0 <= i < |ordered| && StoppedAt(observe, live, ordered, attempted, start, i)
  }

  lemma HandledNone<W(!new)>(observe: Observe<W>, ordered: seq<Fix<W>>, start: W)
    ensures Handled(observe, ordered, [], start, 0)
  {
    var none: seq<Fix<W>> := [];
    SubsequenceEmpty(none, ordered[..0]);
  }

  lemma HandledSkips<W(!new)>(observe: Observe<W>, ordered: seq<Fix<W>>, attempted: seq<Fix<W>>, start: W, i: nat)
    requires i < |ordered| && Handled(observe, ordered, attempted, start, i)
    requires SeenHealthy(observe, ordered[i].checkId, ApplyAll(attempted, start))
    ensures Handled(observe, ordered, attempted, start, i + 1)
  {
    hide Subsequence, AllProven, SeenHealthy, ApplyAll;
    SubsequenceWidens(attempted, ordered, i, i + 1);
    assert attempted[..|attempted|] == attempted;
    assert Considered(observe, attempted, start, ordered[i]);
  }

  lemma HandledFixes<W(!new)>(observe: Observe<W>, ordered: seq<Fix<W>>, attempted: seq<Fix<W>>, start: W, i: nat,
                              n: nat)
    requires i < |ordered| && Handled(observe, ordered, attempted, start, i)
    requires var result := ordered[i].apply(ApplyAll(attempted, start));
      result.ok && result.verified && Passed(observe, n, ordered[i].checkId, result.world)
    ensures Handled(observe, ordered, attempted + [ordered[i]], start, i + 1)
  {
    hide Subsequence, AllProven, SeenHealthy, Passed, ApplyAll;
    SubsequenceSnoc(attempted, ordered, i, ordered[i]);
    ProvenSnoc(observe, attempted, start, ordered[i], n);
    forall k | 0 <= k < i + 1 ensures Considered(observe, attempted + [ordered[i]], start, ordered[k]) {
      if k < i {
        ConsideredStill(observe, attempted, start, ordered[k], ordered[i]);
      }
    }
  }

  lemma ConsideredStill<W(!new)>(observe: Observe<W>, attempted: seq<Fix<W>>, start: W, fix: Fix<W>, next: Fix<W>)
    requires Considered(observe, attempted, start, fix)
    ensures Considered(observe, attempted + [next], start, fix)
  {
    hide SeenHealthy, ApplyAll;
    if fix !in attempted {
      var k :| 0 <= k <= |attempted| && SeenHealthy(observe, fix.checkId, ApplyAll(attempted[..k], start));
      assert (attempted + [next])[..k] == attempted[..k];
    }
  }

  lemma HandledWidens<W(!new)>(observe: Observe<W>, ordered: seq<Fix<W>>, attempted: seq<Fix<W>>, start: W, i: nat)
    requires i <= |ordered| && Handled(observe, ordered, attempted, start, i)
    ensures Subsequence(attempted, ordered)
  {
    SubsequenceWidens(attempted, ordered, i, |ordered|);
    assert ordered[..|ordered|] == ordered;
  }

  lemma HandledGrows<W(!new)>(observe: Observe<W>, ordered: seq<Fix<W>>, attempted: seq<Fix<W>>, start: W, i: nat)
    requires i < |ordered| && Handled(observe, ordered, attempted, start, i)
    ensures Subsequence(attempted + [ordered[i]], ordered)
  {
    hide Subsequence;
    SubsequenceSnoc(attempted, ordered, i, ordered[i]);
    SubsequenceWidens(attempted + [ordered[i]], ordered, i + 1, |ordered|);
    assert ordered[..|ordered|] == ordered;
  }

  lemma SubsequenceMembers<T>(sub: seq<T>, all: seq<T>)
    requires Subsequence(sub, all)
    ensures forall x :: x in sub ==> x in all
  {
    assert all[..|all|] == all;
    SubsequenceWidens(sub, all, |all|, |all|);
  }

  lemma LookShows<W>(observe: Observe<W>, n: nat, id: Id, w: W)
    ensures observe(n, id, w).None? ==> CouldNotSee(observe, id, w)
    ensures observe(n, id, w) == Some(Fail) ==> SeenFailing(observe, id, w)
    ensures observe(n, id, w).Some? && observe(n, id, w) != Some(Fail) ==> SeenHealthy(observe, id, w)
  {
    assert Sees(observe, n, id, w) <==> observe(n, id, w).Some?;
  }

  /** The loop stops before it applies the fix at `i`. */
  lemma StopsBefore<W(!new)>(observe: Observe<W>, live: nat -> bool, ordered: seq<Fix<W>>, attempted: seq<Fix<W>>,
                             start: W, i: nat)
    requires i < |ordered| && Handled(observe, ordered, attempted, start, i)
    requires !live(i) || CouldNotSee(observe, ordered[i].checkId, ApplyAll(attempted, start))
    ensures Stopped(observe, live, ordered, attempted, start)
  {
    hide Handled, CouldNotSee, Fell, SeenFailing;
    assert StoppedAt(observe, live, ordered, attempted, start, i);
  }

  /** The loop stops after it applied the fix at `i`. */
  lemma StopsAfter<W(!new)>(observe: Observe<W>, live: nat -> bool, ordered: seq<Fix<W>>, before: seq<Fix<W>>,
                            start: W, i: nat, look: nat)
    requires i < |ordered| && Handled(observe, ordered, before, start, i) && live(i)
    requires SeenFailing(observe, ordered[i].checkId, ApplyAll(before, start))
    requires var result := ordered[i].apply(ApplyAll(before, start));
      !(result.ok && result.verified && Passed(observe, look, ordered[i].checkId, result.world))
    ensures Stopped(observe, live, ordered, before + [ordered[i]], start)
  {
    var w := ApplyAll(before, start);
    assert Fell(observe, ordered[i], w);
    hide Handled, CouldNotSee, Fell, SeenFailing;
    var attempted := before + [ordered[i]];
    assert attempted[..|attempted| - 1] == before;
    assert StoppedAt(observe, live, ordered, attempted, start, i);
  }

  class FixRunner<W(!new)> {
    var world: W
    ghost var trace: seq<Action>

    constructor (world: W)
      ensures this.world == world && trace == []
    {
      this.world := world;
      trace := [];
    }

    /** Walks the attempted fixes backward, never stopping at a rollback that fails. */
    method Rollback(applied: seq<Fix<W>>, ghost start: W) returns (r: Outcome)
      requires world == ApplyAll(applied, start)
      modifies this
      ensures r == if RolledBack(applied, old(world)).ok then Undid else UndoFailed
      ensures world == RolledBack(applied, old(world)).world
      ensures trace == old(trace) + Rollbacks(applied, 0)
      ensures r == Undid && (forall f :: f in applied ==> Undoes(f)) ==> world == start
    {
      var failed := false;
      var i := |applied|;
      assert applied[..i] == applied;
      while i > 0
        invariant 0 <= i <= |applied|
        invariant trace == old(trace) + Rollbacks(applied, i)
        invariant RolledBack(applied, old(world)).world == RolledBack(applied[..i], world).world
        invariant RolledBack(applied, old(world)).ok <==> !failed && RolledBack(applied[..i], world).ok
        invariant !failed && (forall f :: f in applied ==> Undoes(f)) ==> world == ApplyAll(applied[..i], start)
      {
        i := i - 1;
        RolledBackNext(applied, i, world);
        var undone := applied[i].rollback(world);
        UndoOne(applied, i, start);
        RollbacksNext(applied, i);
        hide ApplyAll, Undoes, Rollbacks, RolledBack;
        world := undone.world;
        trace := trace + [DidRollback(applied[i].checkId)];
        failed := failed || !undone.ok;
      }
      r := if failed then UndoFailed else Undid;
    }

    /** Applies one fix and looks whether its check passes; it counts as attempted even when it fails. */
    method ApplyFix(fix: Fix<W>, observe: Observe<W>, look: nat) returns (healthy: bool)
      modifies this
      ensures world == fix.apply(old(world)).world && trace == old(trace) + [DidApply(fix.checkId)]
      ensures healthy <==>
        && fix.apply(old(world)).ok && fix.apply(old(world)).verified
        && Passed(observe, look, fix.checkId, world)
    {
      var result := fix.apply(world);
      world := result.world;
      trace := trace + [DidApply(fix.checkId)];
      if !result.ok {
        return false;
      }
      var observed := observe(look, fix.checkId, world);
      healthy := observed.Some? && result.verified && observed.value == Pass;
    }

    /**
      The apply loop. `observe` answers each look at a check, by call number; `live` says
      whether the context is still open before each fix.
     */
    method ApplyLoop(ordered: seq<Fix<W>>, observe: Observe<W>, live: nat -> bool)
      returns (r: Outcome, ghost attempted: seq<Fix<W>>)
      modifies this
      ensures r in {Undid, UndoFailed, Fixed}
      ensures Subsequence(attempted, ordered)
      ensures trace == old(trace) + Applies(attempted) + if r == Fixed then [] else Rollbacks(attempted, 0)
      ensures r == Fixed ==> world == ApplyAll(attempted, old(world))
      ensures r == Fixed ==> Handled(observe, ordered, attempted, old(world), |ordered|)
      ensures r != Fixed ==> Stopped(observe, live, ordered, attempted, old(world))
      ensures r != Fixed ==>
        var undone := RolledBack(attempted, ApplyAll(attempted, old(world)));
        world == undone.world && r == if undone.ok then Undid else UndoFailed
      ensures r == Undid && (forall f :: f in ordered ==> Undoes(f)) ==> world == old(world)
    {
      hide Handled, Stopped, StoppedAt, Rollbacks, Subsequence, SeenHealthy, SeenFailing, CouldNotSee, Fell;
      ghost var start := world;
      var applied: seq<Fix<W>> := [];
      var looks, i := 0, 0;
      HandledNone(observe, ordered, start);
      HandledWidens(observe, ordered, applied, start, 0);
      var healthy := true;
      while i < |ordered| && healthy
        invariant 0 <= i <= |ordered|
        invariant trace == old(trace) + Applies(applied)
        invariant world == ApplyAll(applied, start)
        invariant Subsequence(applied, ordered) && (healthy ==> Handled(observe, ordered, applied, start, i))
        invariant !healthy ==> Stopped(observe, live, ordered, applied, start)
        decreases |ordered| - i, if healthy then 1 else 0
      {
        if !live(i) {
          StopsBefore(observe, live, ordered, applied, start, i);
          healthy := false;
          break;
        }
        var current := observe(looks, ordered[i].checkId, world);
        LookShows(observe, looks, ordered[i].checkId, world);
        looks := looks + 1;
        if current.None? {
          StopsBefore(observe, live, ordered, applied, start, i);
          healthy := false;
          break;
        }
        if current.value != Fail {
          HandledSkips(observe, ordered, applied, start, i);
          HandledWidens(observe, ordered, applied, start, i + 1);
          i := i + 1;
          continue;
        }
        ApplyAllSnoc(applied, ordered[i], start);
        HandledGrows(observe, ordered, applied, start, i);
        healthy := ApplyFix(ordered[i], observe, looks);
        if healthy {
          HandledFixes(observe, ordered, applied, start, i, looks);
        } else {
          StopsAfter(observe, live, ordered, applied, start, i, looks);
        }
        applied := applied + [ordered[i]];
        looks := looks + 1;
        i := i + 1;
      }
      attempted := applied;
      if healthy {
        return Fixed, attempted;
      }
      r := Rollback(applied, start);
      SubsequenceMembers(applied, ordered);
    }

    /** The whole transaction over the selected fixes; nothing happens before confirmation. */
    method Run(ordered: seq<Fix<W>>, options: Options, observe: Observe<W>, live: nat -> bool)
      returns (r: Outcome, ghost attempted: seq<Fix<W>>)
      modifies this
      ensures Subsequence(attempted, ordered)
      ensures r !in {Undid, UndoFailed, Fixed} ==> attempted == [] && world == old(world) && trace == old(trace)
      ensures r in {Undid, UndoFailed} ==> trace == old(trace) + Applies(attempted) + Rollbacks(attempted, 0)
      ensures r in {Undid, UndoFailed} ==>
        && Stopped(observe, live, ordered, attempted, old(world))
        && var undone := RolledBack(attempted, ApplyAll(attempted, old(world)));
        world == undone.world && r == if undone.ok then Undid else UndoFailed
      ensures r == Fixed ==> trace == old(trace) + Applies(attempted) && world == ApplyAll(attempted, old(world))
      ensures r == Fixed ==> Handled(observe, ordered, attempted, old(world), |ordered|)
      ensures r == Undid && (forall f :: f in ordered ==> Undoes(f)) ==> world == old(world)
      ensures r in {Undid, UndoFailed, Fixed} <==>
        && ordered != [] && !options.dryRun && (options.yes || options.confirm == Some(true))
        && forall f :: f in ordered ==> f.preview
      ensures r == NothingToFix <==> ordered == []
      ensures r == PreviewFailed <==> exists f :: f in ordered && !f.preview
      ensures r == Previewed <==> ordered != [] && (forall f :: f in ordered ==> f.preview) && options.dryRun
      ensures r == NotConfirmed <==>
        && ordered != [] && (forall f :: f in ordered ==> f.preview)
        && !options.dryRun && !options.yes && (options.confirm.None? || !options.confirm.value)
    {
      hide Handled, Stopped, RolledBack;
      attempted := [];
      SubsequenceEmpty(attempted, ordered);
      if ordered == [] {
        return NothingToFix, attempted;
      }
      var i := 0;
      while i < |ordered|
        invariant 0 <= i <= |ordered|
        invariant forall k :: 0 <= k < i ==> ordered[k].preview
      {
        if !ordered[i].preview {
          return PreviewFailed, attempted;
        }
        i := i + 1;
      }
      if options.dryRun {
        return Previewed, attempted;
      }
      if !options.yes && options.confirm != Some(true) {
        return NotConfirmed, attempted;
      }
      r, attempted := ApplyLoop(ordered, observe, live);
    }
  }
}
