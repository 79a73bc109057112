/** The main results about governed mutations, for every run of any number of processes. */
module GovernanceTheorems {
  import opened LineLog
  import opened Journal
  import opened Audit
  import opened Governance
  import opened GovernanceSafety
  import opened Wrappers

  // ---------------------------------------------------------------- the journal stays readable

  /** In every world of every run the journal reads back, numbered 1, 2, 3, …, and folds. */
  lemma JournalNeverCorrupt(c: Codecs, run: seq<World>, n: nat)
    requires LawfulCodecs(c) && Run(c, run) && n < |run|
    ensures ReadJournal(c.events, run[n].journal).Success?
    ensures var events := Events(c.events, run[n].journal);
      && Fold(events).Success?
      && forall i :: 0 <= i < |events| ==> events[i].sequence == (i + 1) % U64
    ensures ReadAudit(c.entries, run[n].audit).Success?
  {
    RunKeepsInv(c, run, n);
    SequencesAreContiguous(c.events, Lines(run[n].journal));
  }

  /** Nobody but the lock holder changes a byte of either log, and there is one holder at most. */
  lemma OnlyHolderWrites(c: Codecs, w: World, p: Pid, a: Action)
    requires LawfulCodecs(c) && Inv(c, w) && Enabled(c, w, p, a)
    requires w.holder != Some(p)
    ensures Next(c, w, p, a).journal == w.journal && Next(c, w, p, a).audit == w.audit
    ensures forall q :: q in w.procs && q != p ==> Next(c, w, p, a).procs[q] == w.procs[q]
  {
  }

  // ---------------------------------------------------------------- history is append-only

  ghost predicate MayAppendEvent(c: Codecs, w: World, p: Pid, count: nat, w': World) {
    && p in w.procs && w.procs[p].pc.Calling? && w.procs[p].pc.io.Appending?
    && w'.journal == Landed(w.journal, Record(c.events.encode(w.procs[p].pc.io.e)), Written(count))
  }

  ghost predicate MayAppendRecord(c: Codecs, w: World, p: Pid, count: nat, w': World) {
    && p in w.procs && w.procs[p].pc.Auditing?
    && w'.audit == Landed(w.audit, Record(c.entries.encode(w.procs[p].pc.entry)), Written(count))
  }

  /** All a step can do to the logs: keep every line, or land some prefix of one record. */
  lemma StepOnLogs(c: Codecs, w: World, p: Pid, a: Action)
    requires Enabled(c, w, p, a)
    ensures var w' := Next(c, w, p, a);
      && (Lines(w'.journal) == Lines(w.journal) || exists count :: MayAppendEvent(c, w, p, count, w'))
      && (Lines(w'.audit) == Lines(w.audit) || exists count :: MayAppendRecord(c, w, p, count, w'))
  {
    hide *;
    StepOnJournal(c, w, p, a);
    StepOnAudit(c, w, p, a);
  }

  lemma StepOnJournal(c: Codecs, w: World, p: Pid, a: Action)
    requires Enabled(c, w, p, a)
    ensures var w' := Next(c, w, p, a);
      Lines(w'.journal) == Lines(w.journal) || exists count :: MayAppendEvent(c, w, p, count, w')
  {
    LinesIgnoreTornTail(w.journal);
    hide Lines, Complete, AfterCall, AfterAudit, Decide;
    var w' := Next(c, w, p, a);
    if (a.AppendJournalStep? || a.Crash?) && w'.journal != w.journal && w.procs[p].pc.io.Appending? {
      assert MayAppendEvent(c, w, p, a.count, w');
    }
  }

  lemma StepOnAudit(c: Codecs, w: World, p: Pid, a: Action)
    requires Enabled(c, w, p, a)
    ensures var w' := Next(c, w, p, a);
      Lines(w'.audit) == Lines(w.audit) || exists count :: MayAppendRecord(c, w, p, count, w')
  {
    LinesIgnoreTornTail(w.audit);
    hide Lines, Complete, AfterCall, AfterAudit, Decide;
    var w' := Next(c, w, p, a);
    if (a.AppendAuditStep? || a.Crash?) && w'.audit != w.audit && w.procs[p].pc.trimmed {
      assert MayAppendRecord(c, w, p, a.count, w');
    }
  }

  /** The later world's histories begin with the earlier world's. */
  ghost predicate Extends(c: Codecs, w: World, w': World) {
    && Readable(c, w) && Readable(c, w')
    && Events(c.events, w.journal) <= Events(c.events, w'.journal)
    && ReadAudit(c.entries, w.audit).value <= ReadAudit(c.entries, w'.audit).value
  }

  lemma EventsExtend(c: Codecs, w: World, p: Pid, w': World)
    requires LawfulCodecs(c) && Inv(c, w) && Readable(c, w')
    requires Lines(w'.journal) == Lines(w.journal) || exists count :: MayAppendEvent(c, w, p, count, w')
    ensures Events(c.events, w.journal) <= Events(c.events, w'.journal)
  {
    if Lines(w'.journal) != Lines(w.journal) {
      var count :| MayAppendEvent(c, w, p, count, w');
      var e := w.procs[p].pc.io.e;
      assert Bound(c, w.journal, w.procs[p]);
      assert ProcGood(ViewOf(c, w).txs, ViewOf(c, w).records, w.procs[p]);
      AppendedEvent(c.events, w.journal, e, Written(count));
    }
  }

  lemma RecordsExtend(c: Codecs, w: World, p: Pid, w': World)
    requires LawfulCodecs(c) && Inv(c, w) && Readable(c, w')
    requires Lines(w'.audit) == Lines(w.audit) || exists count :: MayAppendRecord(c, w, p, count, w')
    ensures ReadAudit(c.entries, w.audit).value <= ReadAudit(c.entries, w'.audit).value
  {
    if Lines(w'.audit) != Lines(w.audit) {
      var count :| MayAppendRecord(c, w, p, count, w');
      assert ProcGood(ViewOf(c, w).txs, ViewOf(c, w).records, w.procs[p]);
      AppendedEntry(c.entries, w.audit, w.procs[p].pc.entry, Written(count));
    }
  }

  /** No step loses or reorders an event or an audit record. */
  lemma StepExtendsHistory(c: Codecs, w: World, p: Pid, a: Action)
    requires LawfulCodecs(c) && Inv(c, w) && Enabled(c, w, p, a)
    ensures Inv(c, Next(c, w, p, a)) && Extends(c, w, Next(c, w, p, a))
  {
    StepKeepsInv(c, w, p, a);
    StepOnLogs(c, w, p, a);
    EventsExtend(c, w, p, Next(c, w, p, a));
    RecordsExtend(c, w, p, Next(c, w, p, a));
  }

  lemma ExtendsTransitive(c: Codecs, w0: World, w1: World, w2: World)
    requires Extends(c, w0, w1) && Extends(c, w1, w2)
    ensures Extends(c, w0, w2)
  {
  }

  lemma CanStepExtends(c: Codecs, w: World, w': World)
    requires LawfulCodecs(c) && Inv(c, w) && CanStep(c, w, w')
    ensures Extends(c, w, w')
  {
    var p, a :| Enabled(c, w, p, a) && w' == Next(c, w, p, a);
    StepExtendsHistory(c, w, p, a);
  }

  lemma {:induction false} RunExtendsHistory(c: Codecs, run: seq<World>, i: nat, j: nat)
    requires LawfulCodecs(c) && Run(c, run) && i <= j < |run|
    ensures Extends(c, run[i], run[j])
    decreases j
  {
    hide Fold, DecodeEvents, DecodeEntries, Lines, Decide, Next, Enabled;
    if i == j {
      RunKeepsInv(c, run, i);
    } else {
      RunExtendsHistory(c, run, i, j - 1);
      RunKeepsInv(c, run, j - 1);
      assert CanStep(c, run[j - 1], run[j - 1 + 1]);
      CanStepExtends(c, run[j - 1], run[j]);
      ExtendsTransitive(c, run[i], run[j - 1], run[j]);
    }
  }

  lemma {:induction false} FoldKeepsClosed(events: seq<Event>, n: nat, id: TxId)
    requires n <= |events| && Fold(events).Success? && Fold(events[..n]).Success?
    requires id in Fold(events[..n]).value && IsClosed(Fold(events[..n]).value[id].state)
    ensures id in Fold(events).value && Fold(events).value[id] == Fold(events[..n]).value[id]
    decreases |events|
  {
    if n < |events| {
      var init := events[..|events| - 1];
      assert init[..n] == events[..n];
      FoldKeepsClosed(init, n, id);
    } else {
      assert events[..n] == events;
    }
  }

  /** A completed or rolled-back transaction stays exactly as it is, in every later world. */
  lemma ClosedForever(c: Codecs, run: seq<World>, i: nat, j: nat, id: TxId)
    requires LawfulCodecs(c) && Run(c, run) && i <= j < |run|
    requires Sound(c.events, run[i].journal) && id in Transactions(c.events, run[i].journal)
    requires Transactions(c.events, run[i].journal)[id].state in ["completed", "rolled_back"]
    ensures Sound(c.events, run[j].journal) && id in Transactions(c.events, run[j].journal)
    ensures Transactions(c.events, run[j].journal)[id] == Transactions(c.events, run[i].journal)[id]
  {
    RunExtendsHistory(c, run, i, j);
    var early, late := Events(c.events, run[i].journal), Events(c.events, run[j].journal);
    assert late[..|early|] == early;
    FoldKeepsClosed(late, |early|, id);
  }

  /** An `ok` audit record is never wrong: its transaction is completed, and stays completed. */
  lemma OkMeansCompletedForever(c: Codecs, run: seq<World>, i: nat, j: nat, r: Entry)
    requires LawfulCodecs(c) && Run(c, run) && i <= j < |run|
    requires ReadAudit(c.entries, run[i].audit).Success?
    requires r in ReadAudit(c.entries, run[i].audit).value && r.result == "ok"
    ensures Sound(c.events, run[j].journal) && r.operation in Transactions(c.events, run[j].journal)
    ensures Transactions(c.events, run[j].journal)[r.operation].state == "completed"
  {
    RunExtendsHistory(c, run, i, j);
    RunKeepsInv(c, run, j);
  }

  // ---------------------------------------------------------------- dispatch

  lemma {:induction false} FoldedFromEvents(events: seq<Event>, id: TxId)
    requires Fold(events).Success? && id in Fold(events).value
    ensures exists i :: 0 <= i < |events| && events[i].kind == BEGIN && events[i].txId == id
    ensures Fold(events).value[id].steps != [] ==>
      exists i :: 0 <= i < |events| && events[i].kind == STEP && events[i].txId == id
  {
    if events == [] {
    } else {
      var n := |events| - 1;
      var init := events[..n];
      if id in Fold(init).value {
        FoldedFromEvents(init, id);
        var b :| 0 <= b < |init| && init[b].kind == BEGIN && init[b].txId == id;
        assert events[b] == init[b];
        if Fold(init).value[id].steps != [] {
          var s :| 0 <= s < |init| && init[s].kind == STEP && init[s].txId == id;
          assert events[s] == init[s];
        } else if Fold(events).value[id].steps != [] {
          assert events[n].kind == STEP && events[n].txId == id;
        }
      } else {
        assert events[n].kind == BEGIN && events[n].txId == id;
      }
    }
  }

  /**
    While the inner mutation runs its process holds the lock, its begin and step records are
    in the journal, its transaction is in progress, nothing about it has been audited, and no
    other process is inside the protocol.
   */
  lemma DispatchIsGoverned(c: Codecs, run: seq<World>, n: nat, p: Pid)
    requires LawfulCodecs(c) && Run(c, run) && n < |run|
    requires p in run[n].procs && run[n].procs[p].pc.Dispatching?
    ensures run[n].holder == Some(p)
    ensures forall q :: q in run[n].procs && q != p ==> !Active(run[n].procs[q].pc)
    ensures Readable(c, run[n])
    ensures var v, tx := ViewOf(c, run[n]), run[n].procs[p].pc.tx;
      && tx in v.txs && v.txs[tx].state == IN_PROGRESS && RecordsOf(v.records, tx) == []
    ensures var events, tx := Events(c.events, run[n].journal), run[n].procs[p].pc.tx;
      && (exists i :: 0 <= i < |events| && events[i].kind == BEGIN && events[i].txId == tx)
      && (exists i :: 0 <= i < |events| && events[i].kind == STEP && events[i].txId == tx)
  {
    RunKeepsInv(c, run, n);
    var v, tx := ViewOf(c, run[n]), run[n].procs[p].pc.tx;
    assert ProcGood(v.txs, v.records, run[n].procs[p]);
    FoldedFromEvents(Events(c.events, run[n].journal), tx);
  }

  // ---------------------------------------------------------------- accounting

  /**
    A governed command that saw no journal or audit error left exactly one audit record, and
    that record still agrees with the journal, in every world after it released the lock.
   */
  lemma CleanCommandIsSettled(c: Codecs, run: seq<World>, n: nat, p: Pid)
    requires LawfulCodecs(c) && Run(c, run) && n < |run|
    requires p in run[n].procs && run[n].procs[p].clean
    requires run[n].procs[p].pc.Stopped? && run[n].procs[p].pc.done.Some?
    ensures Readable(c, run[n])
    ensures Settled(ViewOf(c, run[n]).txs, ViewOf(c, run[n]).records, run[n].procs[p].pc.done.value)
    ensures AgreedOnce(ViewOf(c, run[n]).txs, ViewOf(c, run[n]).records, run[n].procs[p].pc.done.value)
  {
    RunKeepsInv(c, run, n);
    var v := ViewOf(c, run[n]);
    assert ProcGood(v.txs, v.records, run[n].procs[p]);
    SettledExactly(v.txs, v.records, run[n].procs[p].pc.done.value);
  }

  /** And it has a transaction to account for: a clean command never releases without one. */
  lemma CleanCommandReleasesSettled(c: Codecs, run: seq<World>, n: nat, p: Pid)
    requires LawfulCodecs(c) && Run(c, run) && n < |run|
    requires p in run[n].procs && run[n].procs[p].clean && run[n].procs[p].job.Command?
    requires run[n].procs[p].pc.Releasing?
    ensures run[n].procs[p].pc.done.Some? && Readable(c, run[n])
    ensures Settled(ViewOf(c, run[n]).txs, ViewOf(c, run[n]).records, run[n].procs[p].pc.done.value)
    ensures AgreedOnce(ViewOf(c, run[n]).txs, ViewOf(c, run[n]).records, run[n].procs[p].pc.done.value)
  {
    RunKeepsInv(c, run, n);
    var v := ViewOf(c, run[n]);
    assert ProcGood(v.txs, v.records, run[n].procs[p]);
    SettledExactly(v.txs, v.records, run[n].procs[p].pc.done.value);
  }

  // ---------------------------------------------------------------- startup recovery

  /** After an error-free recovery, and before it lets go of the lock, nothing is in progress. */
  lemma RecoveryLeavesNothingInProgress(c: Codecs, run: seq<World>, n: nat, p: Pid)
    requires LawfulCodecs(c) && Run(c, run) && n < |run|
    requires p in run[n].procs && run[n].procs[p].job.Recovery?
    requires run[n].procs[p].pc.Releasing? && run[n].procs[p].clean
    ensures Sound(c.events, run[n].journal)
    ensures forall id :: id in Transactions(c.events, run[n].journal) ==>
      Transactions(c.events, run[n].journal)[id].state != IN_PROGRESS
  {
    RunKeepsInv(c, run, n);
    var v := ViewOf(c, run[n]);
    assert ProcGood(v.txs, v.records, run[n].procs[p]);
    forall id | id in v.txs ensures v.txs[id].state != IN_PROGRESS {
      assert id !in InProgress(v.txs);
    }
  }

  /**
    A step of startup recovery begins no transaction and changes none, except that while it
    holds the lock itself it may turn one in-progress transaction into an interrupted one.
   */
  lemma RecoveryOnlyInterruptsOrphans(c: Codecs, run: seq<World>, n: nat, p: Pid, a: Action)
    requires LawfulCodecs(c) && Run(c, run) && n < |run|
    requires p in run[n].procs && run[n].procs[p].job.Recovery? && Enabled(c, run[n], p, a)
    ensures Inv(c, run[n]) && Inv(c, Next(c, run[n], p, a))
    ensures var before := Transactions(c.events, run[n].journal);
      var after := Transactions(c.events, Next(c, run[n], p, a).journal);
      && after.Keys == before.Keys
      && forall id :: id in before ==>
           || after[id] == before[id]
           || (&& before[id].state == IN_PROGRESS && after[id] == before[id].(state := INTERRUPTED)
               && run[n].holder == Some(p))
  {
    RunKeepsInv(c, run, n);
    StepKeepsInv(c, run[n], p, a);
    StepOnLogs(c, run[n], p, a);
    RecoveryEffect(c, run[n], p, Next(c, run[n], p, a));
  }

  lemma RecoveryEffect(c: Codecs, w: World, p: Pid, w': World)
    requires LawfulCodecs(c) && Inv(c, w) && Readable(c, w')
    requires p in w.procs && w.procs[p].job.Recovery?
    requires Lines(w'.journal) == Lines(w.journal) || exists count :: MayAppendEvent(c, w, p, count, w')
    ensures var before, after := ViewOf(c, w).txs, ViewOf(c, w').txs;
      && after.Keys == before.Keys
      && forall id :: id in before ==>
           || after[id] == before[id]
           || (&& before[id].state == IN_PROGRESS && after[id] == before[id].(state := INTERRUPTED)
               && w.holder == Some(p))
  {
    if Lines(w'.journal) != Lines(w.journal) {
      var count :| MayAppendEvent(c, w, p, count, w');
      var proc := w.procs[p];
      assert ProcGood(ViewOf(c, w).txs, ViewOf(c, w).records, proc);
      assert Bound(c, w.journal, proc);
      JournalBytes(c, w, proc, count);
      assert proc.pc.phase.Recover?;
    }
  }
}
