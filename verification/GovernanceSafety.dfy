/** What every run of the governed-mutation protocol keeps. */
module GovernanceSafety {
  import opened LineLog
  import opened Journal
  import opened Audit
  import opened Governance
  import opened Wrappers

  // ---------------------------------------------------------------- the meaning of a world

  /** A world with its two logs replaced by what they mean. */
  datatype View = View(txs: Txs, records: seq<Entry>, holder: Option<Pid>, procs: map<Pid, Proc>)

  ghost predicate Readable(c: Codecs, w: World) {
    Sound(c.events, w.journal) && ReadAudit(c.entries, w.audit).Success?
  }

  ghost function ViewOf(c: Codecs, w: World): View
    requires Readable(c, w)
  {
    View(Transactions(c.events, w.journal), ReadAudit(c.entries, w.audit).value, w.holder, w.procs)
  }

  /** The audit records that account for one transaction. */
  function RecordsOf(records: seq<Entry>, tx: TxId): seq<Entry> {
    if records == [] then []
    else
      var last := records[|records| - 1];
      RecordsOf(records[..|records| - 1], tx) + if last.operation == tx then [last] else []
  }

  lemma RecordsOfSnoc(records: seq<Entry>, r: Entry, tx: TxId)
    ensures RecordsOf(records + [r], tx) == RecordsOf(records, tx) + if r.operation == tx then [r] else []
  {
    assert (records + [r])[..|records|] == records;
  }

  lemma {:induction false} NoRecords(records: seq<Entry>, tx: TxId)
    requires forall r :: r in records ==> r.operation != tx
    ensures RecordsOf(records, tx) == []
  {
    if records == [] {
    } else {
      NoRecords(records[..|records| - 1], tx);
    }
  }

  /** An audit result that tells the truth about the journal's final state. */
  predicate Matches(result: string, state: string) {
    (result == OK && state == COMPLETED) || (result == FAILED_RESULT && state in [FAILED, INTERRUPTED])
  }

  /** Exactly one audit record, and it agrees with the journal. */
  predicate Settled(txs: Txs, records: seq<Entry>, tx: TxId) {
    && tx in txs
    && |RecordsOf(records, tx)| == 1
    && Matches(RecordsOf(records, tx)[0].result, txs[tx].state)
  }

  /** Exactly one entry of the audit log names the transaction, and its result fits the state. */
  ghost predicate AgreedOnce(txs: Txs, records: seq<Entry>, tx: TxId) {
    tx in txs && exists i: nat ::
      && OnlyRecord(records, tx, i)
      && if records[i].result == "ok" then txs[tx].state == "completed"
         else records[i].result == "failed" && txs[tx].state in {"failed", "interrupted"}
  }

  ghost predicate OnlyRecord(records: seq<Entry>, tx: TxId, i: nat) {
    i < |records| && forall j :: 0 <= j < |records| ==> (records[j].operation == tx <==> j == i)
  }

  lemma {:induction false} RecordsOfExactly(records: seq<Entry>, tx: TxId)
    ensures RecordsOf(records, tx) == [] <==> forall r :: r in records ==> r.operation != tx
  {
    if records != [] {
      var n := |records| - 1;
      RecordsOfExactly(records[..n], tx);
      assert records == records[..n] + [records[n]];
    }
  }

  lemma {:induction false} OnlyRecordCounts(records: seq<Entry>, tx: TxId, i: nat)
    requires OnlyRecord(records, tx, i)
    ensures RecordsOf(records, tx) == [records[i]]
    decreases |records|
  {
    var n := |records| - 1;
    if i == n {
      RecordsOfExactly(records[..n], tx);
    } else {
      assert forall j :: 0 <= j < n ==> records[..n][j] == records[j];
      OnlyRecordCounts(records[..n], tx, i);
    }
  }

  lemma {:induction false} OneRecordFound(records: seq<Entry>, tx: TxId) returns (i: nat)
    requires |RecordsOf(records, tx)| == 1
    ensures OnlyRecord(records, tx, i)
    decreases |records|
  {
    var n := |records| - 1;
    if records[n].operation == tx {
      i := n;
      RecordsOfExactly(records[..n], tx);
      forall j | 0 <= j < n ensures records[j].operation != tx {
        assert records[j] in records[..n];
      }
    } else {
      i := OneRecordFound(records[..n], tx);
      assert forall j :: 0 <= j < n ==> records[..n][j] == records[j];
    }
  }

  lemma SettledExactly(txs: Txs, records: seq<Entry>, tx: TxId)
    ensures Settled(txs, records, tx) <==> AgreedOnce(txs, records, tx)
  {
    if Settled(txs, records, tx) {
      var i := OneRecordFound(records, tx);
      OnlyRecordCounts(records, tx, i);
    }
    if AgreedOnce(txs, records, tx) {
      var i: nat :| OnlyRecord(records, tx, i)
        && if records[i].result == "ok" then txs[tx].state == "completed"
           else records[i].result == "failed" && txs[tx].state in {"failed", "interrupted"};
      OnlyRecordCounts(records, tx, i);
    }
  }

  function InProgress(txs: Txs): set<TxId> {
    set id | id in txs && txs[id].state == IN_PROGRESS
  }

  function Ids(list: seq<Tx>): set<TxId> {
    set tx | tx in list :: tx.id
  }

  ghost predicate Distinct(list: seq<Tx>) {
    forall i, j :: 0 <= i < j < |list| ==> list[i].id != list[j].id
  }

  // ---------------------------------------------------------------- the invariant

  predicate Open(txs: Txs, records: seq<Entry>, tx: TxId) {
    tx in txs && txs[tx].state == IN_PROGRESS && RecordsOf(records, tx) == []
  }

  ghost predicate PhaseGood(txs: Txs, records: seq<Entry>, proc: Proc, phase: Phase) {
    match phase
    case Begin(tx) => proc.job.Command? && tx != "" && tx !in txs
    case Dispatch(tx) => proc.job.Command? && tx != "" && Open(txs, records, tx)
    case Commit(tx) => proc.job.Command? && tx != "" && Open(txs, records, tx) && txs[tx].steps != []
    case Close(tx, state, _, _) =>
      && proc.job.Command? && tx != "" && tx in txs && RecordsOf(records, tx) == []
      && state in [FAILED, INTERRUPTED]
      && (proc.clean ==> txs[tx].state == IN_PROGRESS)
    case Recover(tx, _, rest) =>
      && proc.job.Recovery? && tx != "" && tx !in Ids(rest) && Distinct(rest)
      && tx in InProgress(txs) && InProgress(txs) == {tx} + Ids(rest)
      && "" !in Ids(rest)
  }

  ghost predicate ProcGood(txs: Txs, records: seq<Entry>, proc: Proc) {
    match proc.pc
    case Starting => true
    case Preparing => proc.job.Command?
    case Calling(phase, io) => PhaseGood(txs, records, proc, phase)
    case CheckingContext(tx) => proc.job.Command? && tx != "" && Open(txs, records, tx) && txs[tx].steps != []
    case Dispatching(tx) => proc.job.Command? && tx != "" && Open(txs, records, tx) && txs[tx].steps != []
    case Listing => proc.job.Recovery?
    case Auditing(entry, rest, _) =>
      && entry.version == RECORD_VERSION && entry.operation in txs
      && (entry.result == OK ==> txs[entry.operation].state == COMPLETED)
      && (proc.job.Command? ==>
            && rest == [] && RecordsOf(records, entry.operation) == []
            && (proc.clean ==> Matches(entry.result, txs[entry.operation].state)))
      && (proc.job.Recovery? ==>
            && entry.operation !in Ids(rest) && Distinct(rest) && InProgress(txs) == Ids(rest) && "" !in Ids(rest)
            && Matches(entry.result, txs[entry.operation].state))
    case Releasing(done) =>
      && (proc.clean && done.Some? ==> Settled(txs, records, done.value))
      && (proc.clean ==> done.Some? == proc.job.Command?)
      && (proc.clean && proc.job.Recovery? ==> InProgress(txs) == {})
    case Stopped(done) => proc.clean && done.Some? ==> Settled(txs, records, done.value)
    case Crashed => true
  }

  /** The transactions a process may still write about. */
  function Work(pc: Pc): set<TxId> {
    match pc
    case Calling(Recover(tx, _, rest), _) => {tx} + Ids(rest)
    case Calling(phase, _) => {phase.tx}
    case CheckingContext(tx) => {tx}
    case Dispatching(tx) => {tx}
    case Auditing(entry, rest, _) => {entry.operation} + Ids(rest)
    case _ => {}
  }

  predicate SettledStop(proc: Proc) {
    proc.pc.Stopped? && proc.clean && proc.pc.done.Some?
  }

  ghost predicate Good(v: View) {
    && (v.holder.Some? ==> v.holder.value in v.procs && Active(v.procs[v.holder.value].pc))
    && (forall p :: p in v.procs && Active(v.procs[p].pc) ==> v.holder == Some(p))
    && (forall p :: p in v.procs ==> ProcGood(v.txs, v.records, v.procs[p]))
    && (forall p :: p in v.procs && SettledStop(v.procs[p]) && v.holder.Some? ==>
          v.procs[p].pc.done.value !in Work(v.procs[v.holder.value].pc))
    && (forall r :: r in v.records ==>
          r.operation in v.txs && (r.result == OK ==> v.txs[r.operation].state == COMPLETED))
    && "" !in v.txs
  }

  /** The event a process is about to append still follows the journal it was computed from. */
  ghost predicate Bound(c: Codecs, journal: seq<byte>, proc: Proc) {
    proc.pc.Calling? && !proc.pc.io.Reading? ==>
      var e := proc.pc.io.e;
      Decide(c.events, journal, CallOf(proc.job, proc.pc.phase, e.timestamp), e.timestamp) == Success(e)
  }

  ghost predicate Inv(c: Codecs, w: World) {
    && Readable(c, w)
    && Good(ViewOf(c, w))
    && forall p :: p in w.procs ==> Bound(c, w.journal, w.procs[p])
  }

  // ---------------------------------------------------------------- one process moves

  /** The view after process `p` moved on, with the logs as given. */
  function Shifted(v: View, p: Pid, proc: Proc, txs: Txs, records: seq<Entry>, holder: Option<Pid>): View {
    View(txs, records, holder, v.procs[p := proc])
  }

  /** Only transactions the process works on change, in the journal and in the audit log. */
  ghost predicate Local(v: View, txs: Txs, records: seq<Entry>, work: set<TxId>) {
    forall t :: t in v.txs && t !in work ==>
      t in txs && txs[t] == v.txs[t] && RecordsOf(records, t) == RecordsOf(v.records, t)
  }

  /** The single argument every step of the lock holder goes through. */
  lemma HolderMoves(v: View, p: Pid, proc: Proc, txs: Txs, records: seq<Entry>)
    requires Good(v) && v.holder == Some(p)
    requires Local(v, txs, records, Work(v.procs[p].pc))
    requires ProcGood(txs, records, proc)
    requires !proc.pc.Starting?
    requires forall t :: t in Work(proc.pc) ==>
      t in Work(v.procs[p].pc) || t !in v.txs || v.txs[t].state == IN_PROGRESS
    requires forall r :: r in records ==>
      r.operation in txs && (r.result == OK ==> txs[r.operation].state == COMPLETED)
    requires "" !in txs
    ensures Good(Shifted(v, p, proc, txs, records, if Active(proc.pc) then Some(p) else None))
  {
    var v' := Shifted(v, p, proc, txs, records, if Active(proc.pc) then Some(p) else None);
    forall q | q in v'.procs && q != p
      ensures !Active(v'.procs[q].pc) && ProcGood(txs, records, v'.procs[q])
      ensures SettledStop(v'.procs[q]) ==> v'.procs[q].pc.done.value !in Work(proc.pc)
    {
      if SettledStop(v.procs[q]) {
        var t := v.procs[q].pc.done.value;
        assert Settled(v.txs, v.records, t);
        assert t !in Work(v.procs[p].pc);
      }
    }
  }

  ghost predicate LawfulCodecs(c: Codecs) {
    Lawful(c.events) && Lawful(c.entries)
  }

  /** What one step promises: the world after it satisfies the invariant. */
  ghost predicate Kept(c: Codecs, w: World, p: Pid, a: Action)
    requires Enabled(c, w, p, a)
  {
    Inv(c, Next(c, w, p, a))
  }

  // ---------------------------------------------------------------- steps that write nothing

  lemma StartStep(c: Codecs, w: World, p: Pid, a: Action)
    requires Inv(c, w) && Enabled(c, w, p, a) && a.Start?
    ensures Kept(c, w, p, a)
  {
    hide Fold, DecodeEvents, DecodeEntries, Lines, Complete, Decide, RecordsOf, MutationTarget;
  }

  lemma AcquireStep(c: Codecs, w: World, p: Pid, a: Action)
    requires Inv(c, w) && Enabled(c, w, p, a) && a.Acquire?
    ensures Kept(c, w, p, a)
  {
    hide Fold, DecodeEvents, DecodeEntries, Lines, Complete, Decide, RecordsOf, MutationTarget;
  }

  lemma GiveUpStep(c: Codecs, w: World, p: Pid, a: Action)
    requires Inv(c, w) && Enabled(c, w, p, a) && a.GiveUp?
    ensures Kept(c, w, p, a)
  {
    hide Fold, DecodeEvents, DecodeEntries, Lines, Complete, Decide, RecordsOf, MutationTarget;
  }

  /** A step of the holder that leaves both logs alone and makes no pending append. */
  lemma QuietMove(c: Codecs, w: World, p: Pid, w': World)
    requires Inv(c, w) && w.holder == Some(p)
    requires p in w'.procs && w'.procs == w.procs[p := w'.procs[p]]
    requires w'.journal == w.journal && w'.audit == w.audit
    requires w'.holder == if Active(w'.procs[p].pc) then Some(p) else None
    requires !w'.procs[p].pc.Starting?
    requires ProcGood(ViewOf(c, w).txs, ViewOf(c, w).records, w'.procs[p])
    requires Bound(c, w.journal, w'.procs[p])
    requires forall t :: t in Work(w'.procs[p].pc) ==>
      var v := ViewOf(c, w); t in Work(w.procs[p].pc) || t !in v.txs || v.txs[t].state == IN_PROGRESS
    ensures Inv(c, w')
  {
    hide Fold, DecodeEvents, DecodeEntries, Lines, Complete, Decide, RecordsOf, MutationTarget;
    var v := ViewOf(c, w);
    HolderMoves(v, p, w'.procs[p], v.txs, v.records);
    assert ViewOf(c, w') == Shifted(v, p, w'.procs[p], v.txs, v.records, w'.holder);
  }

  lemma PrepareStep(c: Codecs, w: World, p: Pid, a: Action)
    requires Inv(c, w) && Enabled(c, w, p, a) && a.Prepare?
    ensures Kept(c, w, p, a)
  {
    hide Fold, DecodeEvents, DecodeEntries, Lines, Complete, Decide, RecordsOf, MutationTarget;
    QuietMove(c, w, p, Next(c, w, p, a));
  }

  lemma InnerSteps(c: Codecs, w: World, p: Pid, a: Action)
    requires Inv(c, w) && Enabled(c, w, p, a)
    requires a.CheckContext? || a.FinishInner?
    ensures Kept(c, w, p, a)
  {
    hide Fold, DecodeEvents, DecodeEntries, Lines, Complete, Decide, RecordsOf, MutationTarget;
    var w' := Next(c, w, p, a);
    var v := ViewOf(c, w);
    assert Open(v.txs, v.records, w.procs[p].pc.tx);
    assert ProcGood(v.txs, v.records, w'.procs[p]);
    QuietMove(c, w, p, w');
  }

  lemma ReleaseStep(c: Codecs, w: World, p: Pid, a: Action)
    requires Inv(c, w) && Enabled(c, w, p, a) && a.Release?
    ensures Kept(c, w, p, a)
  {
    hide Fold, DecodeEvents, DecodeEntries, Lines, Complete, Decide, RecordsOf, MutationTarget;
    QuietMove(c, w, p, Next(c, w, p, a));
  }

  /** A journal call that failed sends its process somewhere it may be. */
  lemma FailedCall(txs: Txs, records: seq<Entry>, proc: Proc, code: string)
    requires proc.pc.Calling? && ProcGood(txs, records, proc)
    ensures var pc := AfterCall(proc.job, proc.pc.phase, false, code);
      && ProcGood(txs, records, Proc(proc.job, pc, false))
      && Work(pc) <= Work(proc.pc)
      && Active(pc)
      && (pc.Calling? ==> pc.io.Reading?)
  {
  }

  lemma ReadStep(c: Codecs, w: World, p: Pid, a: Action)
    requires Inv(c, w) && Enabled(c, w, p, a) && a.ReadJournalStep?
    ensures Kept(c, w, p, a)
  {
    hide Fold, DecodeEvents, DecodeEntries, Lines, Complete, Decide, RecordsOf, MutationTarget;
    var v := ViewOf(c, w);
    FailedCall(v.txs, v.records, w.procs[p], a.code);
    DecidedAt(c.events, w.journal, CallOf(w.procs[p].job, w.procs[p].pc.phase, a.now), a.now);
    QuietMove(c, w, p, Next(c, w, p, a));
  }

  lemma RecoveryContinues(txs: Txs, records: seq<Entry>, rest: seq<Tx>)
    requires Distinct(rest) && InProgress(txs) == Ids(rest) && "" !in Ids(rest)
    ensures ProcGood(txs, records, Proc(Recovery, NextRecovery(rest), true))
    ensures Work(NextRecovery(rest)) == Ids(rest)
  {
    if rest != [] {
      assert rest == [rest[0]] + rest[1..];
      assert Ids(rest) == {rest[0].id} + Ids(rest[1..]);
      assert Distinct(rest[1..]);
    }
  }

  lemma ListStep(c: Codecs, w: World, p: Pid, a: Action)
    requires Inv(c, w) && Enabled(c, w, p, a) && a.ListPending?
    ensures Kept(c, w, p, a)
  {
    hide Fold, DecodeEvents, DecodeEntries, Lines, Complete, Decide, RecordsOf, MutationTarget;
    var v := ViewOf(c, w);
    var w' := Next(c, w, p, a);
    if !a.fault {
      forall id | id in InProgress(v.txs) ensures id in Ids(a.todo) {
        assert v.txs[id] in a.todo;
        FoldKeepsIds(Events(c.events, w.journal));
      }
      RecoveryContinues(v.txs, v.records, a.todo);
      assert w'.procs[p].job.Recovery?;
    }
    QuietMove(c, w, p, w');
  }

  // ---------------------------------------------------------------- steps on the logs

  /** Decisions depend on the lines of the journal only, so trimming does not change them. */
  lemma TrimKeepsMeaning(c: Codecs, w: World, journal: seq<byte>, audit: seq<byte>)
    requires Readable(c, w)
    requires Lines(journal) == Lines(w.journal) && Lines(audit) == Lines(w.audit)
    ensures var w' := w.(journal := journal, audit := audit);
      && Readable(c, w') && ViewOf(c, w') == ViewOf(c, w)
      && forall proc :: Bound(c, w.journal, proc) ==> Bound(c, journal, proc)
  {
  }

  lemma TrimJournal(c: Codecs, w: World, p: Pid, a: Action)
    requires Inv(c, w) && Enabled(c, w, p, a) && a.TrimJournalStep?
    ensures Kept(c, w, p, a)
  {
    hide Fold, DecodeEvents, DecodeEntries, Lines, Complete, Decide, RecordsOf, MutationTarget;
    var v := ViewOf(c, w);
    var w' := Next(c, w, p, a);
    LinesIgnoreTornTail(w.journal);
    TrimKeepsMeaning(c, w, w'.journal, w.audit);
    FailedCall(v.txs, v.records, w.procs[p], a.code);
    QuietMove(c, w.(journal := w'.journal), p, w');
  }

  lemma TrimAudit(c: Codecs, w: World, p: Pid, a: Action)
    requires Inv(c, w) && Enabled(c, w, p, a) && a.TrimAuditStep?
    ensures Kept(c, w, p, a)
  {
    hide Fold, DecodeEvents, DecodeEntries, Lines, Complete, Decide, RecordsOf, MutationTarget;
    var v := ViewOf(c, w);
    var w' := Next(c, w, p, a);
    LinesIgnoreTornTail(w.audit);
    TrimKeepsMeaning(c, w, w.journal, w'.audit);
    QuietMove(c, w.(audit := w'.audit), p, w');
  }

  /** What a call that landed whole does to the transactions, seen by every process. */
  lemma LandedCall(v: View, proc: Proc, now: int, ok: bool, code: string)
    requires proc.pc.Calling? && ProcGood(v.txs, v.records, proc)
    requires "" !in v.txs
    requires forall r :: r in v.records ==>
      r.operation in v.txs && (r.result == OK ==> v.txs[r.operation].state == COMPLETED)
    requires !proc.pc.phase.Begin? ==> proc.pc.phase.tx in v.txs && !IsClosed(v.txs[proc.pc.phase.tx].state)
    ensures var txs := Effect(v.txs, CallOf(proc.job, proc.pc.phase, now), now);
      var pc := AfterCall(proc.job, proc.pc.phase, ok, code);
      && Local(v, txs, v.records, Work(proc.pc))
      && ProcGood(txs, v.records, Proc(proc.job, pc, proc.clean && ok))
      && Work(pc) <= Work(proc.pc) && Active(pc) && (pc.Calling? ==> pc.io.Reading?)
      && (forall r :: r in v.records ==>
            r.operation in txs && (r.result == OK ==> txs[r.operation].state == COMPLETED))
      && "" !in txs
  {
    var phase := proc.pc.phase;
    var txs := Effect(v.txs, CallOf(proc.job, phase, now), now);
    if phase.Begin? {
      NoRecords(v.records, phase.tx);
    } else if phase.Recover? {
      assert InProgress(txs) == InProgress(v.txs) - {phase.tx} == Ids(phase.rest);
    }
  }

  /** From bytes to meaning: the journal after an append of the event `proc` holds. */
  lemma JournalBytes(c: Codecs, w: World, proc: Proc, count: nat)
    requires LawfulCodecs(c) && Readable(c, w) && Bound(c, w.journal, proc)
    requires proc.pc.Calling? && proc.pc.io.Appending?
    requires ProcGood(ViewOf(c, w).txs, ViewOf(c, w).records, proc) && "" !in ViewOf(c, w).txs
    ensures var v, e := ViewOf(c, w), proc.pc.io.e;
      var payload := c.events.encode(e);
      var after := w.(journal := Landed(w.journal, Record(payload), Written(count)));
      && (!proc.pc.phase.Begin? ==> proc.pc.phase.tx in v.txs && !IsClosed(v.txs[proc.pc.phase.tx].state))
      && Readable(c, after)
      && ViewOf(c, after) == v.(txs := if count > |payload|
                                       then Effect(v.txs, CallOf(proc.job, proc.pc.phase, e.timestamp), e.timestamp)
                                       else v.txs)
  {
    var e := proc.pc.io.e;
    CallKeepsSound(c.events, w.journal, CallOf(proc.job, proc.pc.phase, e.timestamp), e.timestamp, Written(count));
  }

  /** From meaning to the invariant: the holder moves on after a write to one of the logs. */
  lemma WriteMove(c: Codecs, w: World, p: Pid, w': World)
    requires Inv(c, w) && w.holder == Some(p) && Readable(c, w')
    requires p in w'.procs && w'.procs == w.procs[p := w'.procs[p]]
    requires w'.holder == if Active(w'.procs[p].pc) then Some(p) else None
    requires !w'.procs[p].pc.Starting?
    requires var v, v' := ViewOf(c, w), ViewOf(c, w');
      && Local(v, v'.txs, v'.records, Work(w.procs[p].pc))
      && ProcGood(v'.txs, v'.records, w'.procs[p])
      && (forall r :: r in v'.records ==>
            r.operation in v'.txs && (r.result == OK ==> v'.txs[r.operation].state == COMPLETED))
      && "" !in v'.txs
    requires Work(w'.procs[p].pc) <= Work(w.procs[p].pc)
    requires w'.procs[p].pc.Calling? ==> w'.procs[p].pc.io.Reading?
    ensures Inv(c, w')
  {
    hide Fold, DecodeEvents, DecodeEntries, Lines, Complete, Decide, RecordsOf, MutationTarget;
    var v, v' := ViewOf(c, w), ViewOf(c, w');
    HolderMoves(v, p, w'.procs[p], v'.txs, v'.records);
    assert v' == Shifted(v, p, w'.procs[p], v'.txs, v'.records, w'.holder);
    forall q | q in w'.procs ensures Bound(c, w'.journal, w'.procs[q]) {
      assert q != p ==> !Active(w.procs[q].pc);
    }
  }

  lemma AppendJournal(c: Codecs, w: World, p: Pid, a: Action)
    requires LawfulCodecs(c) && Inv(c, w) && Enabled(c, w, p, a) && a.AppendJournalStep?
    ensures Kept(c, w, p, a)
  {
    hide Fold, DecodeEvents, DecodeEntries, Lines, Complete, Decide, RecordsOf, MutationTarget;
    var v := ViewOf(c, w);
    var proc := w.procs[p];
    JournalBytes(c, w, proc, a.count);
    if a.count > |c.events.encode(proc.pc.io.e)| {
      LandedCall(v, proc, proc.pc.io.e.timestamp, a.ok, a.code);
    } else {
      FailedCall(v.txs, v.records, proc, a.code);
    }
    WriteMove(c, w, p, Next(c, w, p, a));
  }

  /** What an audit record that landed whole does to the accounts. */
  lemma LandedEntry(v: View, proc: Proc, ok: bool)
    requires proc.pc.Auditing? && ProcGood(v.txs, v.records, proc)
    requires forall r :: r in v.records ==>
      r.operation in v.txs && (r.result == OK ==> v.txs[r.operation].state == COMPLETED)
    ensures var records := v.records + [proc.pc.entry];
      var pc := AfterAudit(proc.job, proc.pc.entry, proc.pc.rest, ok);
      && Local(v, v.txs, records, Work(proc.pc))
      && ProcGood(v.txs, records, Proc(proc.job, pc, proc.clean && ok))
      && Work(pc) <= Work(proc.pc) && Active(pc) && (pc.Calling? ==> pc.io.Reading?)
      && (forall r :: r in records ==>
            r.operation in v.txs && (r.result == OK ==> v.txs[r.operation].state == COMPLETED))
  {
    var entry := proc.pc.entry;
    var records := v.records + [entry];
    forall t ensures RecordsOf(records, t) == RecordsOf(v.records, t) + if entry.operation == t then [entry] else [] {
      RecordsOfSnoc(v.records, entry, t);
    }
    if proc.job.Recovery? {
      RecoveryContinues(v.txs, records, proc.pc.rest);
    }
  }

  lemma AppendAudit(c: Codecs, w: World, p: Pid, a: Action)
    requires LawfulCodecs(c) && Inv(c, w) && Enabled(c, w, p, a) && a.AppendAuditStep?
    ensures Kept(c, w, p, a)
  {
    hide Fold, DecodeEvents, DecodeEntries, Lines, Complete, Decide, RecordsOf, MutationTarget;
    var v := ViewOf(c, w);
    var proc := w.procs[p];
    AppendedEntry(c.entries, w.audit, proc.pc.entry, Written(a.count));
    assert v.records + [] == v.records;
    LandedEntry(v, proc, a.ok);
    WriteMove(c, w, p, Next(c, w, p, a));
  }

  // ---------------------------------------------------------------- crashes

  lemma CrashStep(c: Codecs, w: World, p: Pid, a: Action)
    requires LawfulCodecs(c) && Inv(c, w) && Enabled(c, w, p, a) && a.Crash?
    ensures Kept(c, w, p, a)
  {
    hide Fold, DecodeEvents, DecodeEntries, Lines, Complete, Decide, RecordsOf, MutationTarget;
    var v := ViewOf(c, w);
    var w' := Next(c, w, p, a);
    var proc := w.procs[p];
    LinesIgnoreTornTail(w.journal);
    LinesIgnoreTornTail(w.audit);
    if !Active(proc.pc) {
    } else if proc.pc.Calling? && proc.pc.io.Appending? {
      CrashWhileAppending(c, w, p, a);
    } else if proc.pc.Auditing? && proc.pc.trimmed {
      CrashWhileAuditing(c, w, p, a);
    } else {
      TrimKeepsMeaning(c, w, w'.journal, w'.audit);
      QuietMove(c, w.(journal := w'.journal, audit := w'.audit), p, w');
    }
  }

  lemma CrashWhileAppending(c: Codecs, w: World, p: Pid, a: Action)
    requires LawfulCodecs(c) && Inv(c, w) && Enabled(c, w, p, a) && a.Crash?
    requires w.procs[p].pc.Calling? && w.procs[p].pc.io.Appending?
    ensures Kept(c, w, p, a)
  {
    hide Fold, DecodeEvents, DecodeEntries, Lines, Complete, Decide, RecordsOf, MutationTarget;
    var v := ViewOf(c, w);
    var proc := w.procs[p];
    JournalBytes(c, w, proc, a.count);
    if a.count > |c.events.encode(proc.pc.io.e)| {
      LandedCall(v, proc, proc.pc.io.e.timestamp, false, "");
    }
    WriteMove(c, w, p, Next(c, w, p, a));
  }

  lemma CrashWhileAuditing(c: Codecs, w: World, p: Pid, a: Action)
    requires LawfulCodecs(c) && Inv(c, w) && Enabled(c, w, p, a) && a.Crash?
    requires w.procs[p].pc.Auditing? && w.procs[p].pc.trimmed
    ensures Kept(c, w, p, a)
  {
    hide Landed, PhaseGood, CallOf;
    hide Fold, DecodeEvents, DecodeEntries, Lines, Complete, Decide, RecordsOf, MutationTarget;
    var v := ViewOf(c, w);
    var proc := w.procs[p];
    AppendedEntry(c.entries, w.audit, proc.pc.entry, Written(a.count));
    assert v.records + [] == v.records;
    if a.count > |c.entries.encode(proc.pc.entry)| {
      LandedEntry(v, proc, false);
    }
    WriteMove(c, w, p, Next(c, w, p, a));
  }

  // ---------------------------------------------------------------- every run

  lemma StepKeepsInv(c: Codecs, w: World, p: Pid, a: Action)
    requires LawfulCodecs(c) && Inv(c, w) && Enabled(c, w, p, a)
    ensures Inv(c, Next(c, w, p, a))
  {
    match a
    case Start(_) => StartStep(c, w, p, a);
    case Acquire => AcquireStep(c, w, p, a);
    case GiveUp => GiveUpStep(c, w, p, a);
    case Prepare(_, _) => PrepareStep(c, w, p, a);
    case ReadJournalStep(_, _, _) => ReadStep(c, w, p, a);
    case TrimJournalStep(_, _, _) => TrimJournal(c, w, p, a);
    case AppendJournalStep(_, _, _) => AppendJournal(c, w, p, a);
    case CheckContext(_, _) => InnerSteps(c, w, p, a);
    case FinishInner(_) => InnerSteps(c, w, p, a);
    case ListPending(_, _) => ListStep(c, w, p, a);
    case TrimAuditStep(_, _, _) => TrimAudit(c, w, p, a);
    case AppendAuditStep(_, _) => AppendAudit(c, w, p, a);
    case Release => ReleaseStep(c, w, p, a);
    case Crash(_, _) => CrashStep(c, w, p, a);
  }

  /** The invariant holds in every world of every run. */
  lemma {:induction false} RunKeepsInv(c: Codecs, run: seq<World>, n: nat)
    requires LawfulCodecs(c) && Run(c, run) && n < |run|
    ensures Inv(c, run[n])
  {
    if n == 0 {
    } else {
      RunKeepsInv(c, run, n - 1);
      assert CanStep(c, run[n - 1], run[n - 1 + 1]);
      var p, a :| Enabled(c, run[n - 1], p, a) && run[n] == Next(c, run[n - 1], p, a);
      StepKeepsInv(c, run[n - 1], p, a);
    }
  }
}
