/**
  The governed-mutation protocol as a transition system over any number of processes that
  share one lock, one journal and one audit log. A step is one file operation or one
  decision; between any two steps another process may run, and any process may die, leaving
  any prefix of the bytes it was appending.
 */
module Governance {
  import opened LineLog
  import opened Journal
  import opened Audit
  import opened Wrappers

  const ACTOR := "local"
  const DISPATCH := "dispatch"
  const EXECUTE := "execute"
  const REASON_FAILED := "operation failed"
  const REASON_CANCELED := "operation canceled"
  const REASON_RECORD := "dispatch record failed"
  const REASON_COMMIT := "completion record failed"
  const REASON_RECOVERED := "interrupted mutation recovered at process startup"
  const CODE_INTERRUPTED := "interrupted"

  // ---------------------------------------------------------------- state

  type Pid = nat

  datatype Codecs = Codecs(events: Codec<Event>, entries: Codec<Entry>)

  datatype Job = Command(operation: string) | Recovery

  /** Which journal call a process is making, and what it needs to go on afterwards. */
  datatype Phase =
    | Begin(tx: TxId)
    | Dispatch(tx: TxId)
    | Commit(tx: TxId)
    | Close(tx: TxId, state: string, reason: string, code: string)
    | Recover(tx: TxId, operation: string, rest: seq<Tx>)

  datatype Io = Reading | Trimming(e: Event) | Appending(e: Event)

  datatype Pc =
    | Starting
    | Preparing
    | Calling(phase: Phase, io: Io)
    | CheckingContext(tx: TxId)
    | Dispatching(tx: TxId)
    | Listing
    | Auditing(entry: Entry, rest: seq<Tx>, trimmed: bool)
    | Releasing(done: Option<TxId>)
    | Stopped(done: Option<TxId>)
    | Crashed

  /** `clean` says that no journal or audit call of this process has failed so far. */
  datatype Proc = Proc(job: Job, pc: Pc, clean: bool)

  datatype World = World(
    journal: seq<byte>, audit: seq<byte>, holder: Option<Pid>, procs: map<Pid, Proc>)

  function Init(): World {
    World([], [], None, map[])
  }

  predicate Active(pc: Pc) {
    !(pc.Starting? || pc.Stopped? || pc.Crashed?)
  }

  // ---------------------------------------------------------------- the protocol's decisions

  function MutationTarget(operation: string): string {
    if operation == "setup" then "installation"
    else if operation in ["providers.login", "providers.enable", "providers.disable",
                          "providers.remove"] then "provider"
    else if operation in ["models.favorite", "models.unfavorite"] then "model-preferences"
    else if operation == "doctor" then "diagnostics"
    else if operation in ["service.start", "service.stop", "service.restart", "service.install",
                          "service.uninstall", "service.logs"] then "service"
    else if operation in ["config.set", "config.edit", "config.backup", "config.restore"] then "configuration"
    else if operation in ["update.self", "update.proxy"] then "managed-update"
    else "local-state"
  }

  function OperationOf(job: Job): string {
    match job
    case Command(operation) => operation
    case Recovery => ""
  }

  function CallOf(job: Job, phase: Phase, now: int): Call {
    match phase
    case Begin(tx) => BeginCall(tx, OperationOf(job))
    case Dispatch(tx) => StepCall(tx, Step(DISPATCH, EXECUTE, MutationTarget(OperationOf(job)), now))
    case Commit(tx) => StateCall(tx, COMPLETED, "")
    case Close(tx, state, reason, _) => StateCall(tx, state, reason)
    case Recover(tx, _, _) => StateCall(tx, INTERRUPTED, REASON_RECOVERED)
  }

  function EntryFor(tx: TxId, operation: string, result: string, code: string): Entry {
    Entry(RECORD_VERSION, 0, tx, ACTOR, operation, MutationTarget(operation), result, code)
  }

  /** Where a process goes when its journal call returns. */
  function AfterCall(job: Job, phase: Phase, ok: bool, code: string): Pc {
    var operation := OperationOf(job);
    match phase
    case Begin(tx) => if ok then Calling(Dispatch(tx), Reading) else Releasing(None)
    case Dispatch(tx) => if ok then CheckingContext(tx) else Calling(Close(tx, FAILED, REASON_RECORD, code), Reading)
    case Commit(tx) =>
      if ok then Auditing(EntryFor(tx, operation, OK, ""), [], false)
      else Calling(Close(tx, FAILED, REASON_COMMIT, code), Reading)
    case Close(tx, _, _, c) => Auditing(EntryFor(tx, operation, FAILED_RESULT, c), [], false)
    case Recover(tx, op, rest) =>
      if ok then Auditing(EntryFor(tx, op, FAILED_RESULT, CODE_INTERRUPTED), rest, false) else Releasing(None)
  }

  /** The next transaction startup recovery interrupts, if any is left. */
  function NextRecovery(rest: seq<Tx>): Pc {
    if rest == [] then Releasing(None) else Calling(Recover(rest[0].id, rest[0].operation, rest[1..]), Reading)
  }

  function AfterAudit(job: Job, entry: Entry, rest: seq<Tx>, ok: bool): Pc {
    if job.Command? then Releasing(Some(entry.operation))
    else if ok then NextRecovery(rest)
    else Releasing(None)
  }

  // ---------------------------------------------------------------- steps

  datatype Outcome = Succeeded | FailedWith(code: string) | CanceledWith(code: string)

  datatype Action =
    | Start(job: Job)
    | Acquire
    | GiveUp                                   // busy lock, canceled context, lock error
    | Prepare(ok: bool, newId: TxId)
    | ReadJournalStep(fault: bool, now: int, code: string)
    | TrimJournalStep(trimmed: bool, ok: bool, code: string)
    | AppendJournalStep(count: nat, ok: bool, code: string)
    | CheckContext(canceled: bool, code: string)
    | FinishInner(outcome: Outcome)
    | ListPending(fault: bool, todo: seq<Tx>)
    | TrimAuditStep(trimmed: bool, ok: bool, now: int)
    | AppendAuditStep(count: nat, ok: bool)
    | Release
    | Crash(count: nat, trimmed: bool)

  /** The in-progress transactions, each once, in whatever order Pending lists them. */
  ghost predicate ListsInProgress(todo: seq<Tx>, txs: Txs) {
    && (forall i, j :: 0 <= i < j < |todo| ==> todo[i].id != todo[j].id)
    && (forall tx :: tx in todo ==> tx.id in txs && txs[tx.id] == tx && tx.state == IN_PROGRESS)
    && (forall id :: id in txs && txs[id].state == IN_PROGRESS ==> txs[id] in todo)
  }

  ghost predicate Enabled(c: Codecs, w: World, p: Pid, a: Action) {
    if a.Start? then p !in w.procs
    else if p !in w.procs then false
    else
      var proc := w.procs[p];
      match a
      case Start(_) => false
      case Acquire => proc.pc.Starting? && w.holder.None?
      case GiveUp => proc.pc.Starting?
      case Prepare(ok, newId) =>
        && proc.pc.Preparing?
        && (ok ==> newId != "" && (Sound(c.events, w.journal) ==> newId !in Transactions(c.events, w.journal)))
      case ReadJournalStep(_, _, _) => proc.pc.Calling? && proc.pc.io.Reading?
      case TrimJournalStep(trimmed, ok, _) => proc.pc.Calling? && proc.pc.io.Trimming? && (ok ==> trimmed)
      case AppendJournalStep(count, ok, _) =>
        && proc.pc.Calling? && proc.pc.io.Appending?
        && (ok ==> count > |c.events.encode(proc.pc.io.e)|)
      case CheckContext(_, _) => proc.pc.CheckingContext?
      case FinishInner(_) => proc.pc.Dispatching?
      case ListPending(fault, todo) =>
        && proc.pc.Listing?
        && (!fault && Sound(c.events, w.journal) ==> ListsInProgress(todo, Transactions(c.events, w.journal)))
      case TrimAuditStep(trimmed, ok, _) => proc.pc.Auditing? && !proc.pc.trimmed && (ok ==> trimmed)
      case AppendAuditStep(count, ok) =>
        && proc.pc.Auditing? && proc.pc.trimmed
        && (ok ==> count > |c.entries.encode(proc.pc.entry)|)
      case Release => proc.pc.Releasing?
      case Crash(_, _) => !proc.pc.Stopped? && !proc.pc.Crashed?
  }

  function Moved(w: World, p: Pid, pc: Pc, ok: bool): World
    requires p in w.procs
  {
    w.(procs := w.procs[p := Proc(w.procs[p].job, pc, w.procs[p].clean && ok)])
  }

  /** What the file a process is appending to looks like after the process died. */
  function Torn(data: seq<byte>, record: seq<byte>, appending: bool, count: nat, trimmed: bool): seq<byte> {
    if appending then Landed(data, record, Written(count))
    else if trimmed then Complete(data)
    else data
  }

  ghost function Next(c: Codecs, w: World, p: Pid, a: Action): World
    requires Enabled(c, w, p, a)
  {
    match a
    case Start(job) => w.(procs := w.procs[p := Proc(job, Starting, true)])
    case Acquire =>
      Moved(w.(holder := Some(p)), p, if w.procs[p].job.Command? then Preparing else Listing, true)
    case GiveUp => Moved(w, p, Stopped(None), true)
    case Prepare(ok, newId) => Moved(w, p, if ok then Calling(Begin(newId), Reading) else Releasing(None), ok)
    case ReadJournalStep(fault, now, code) =>
      var proc := w.procs[p];
      var phase := proc.pc.phase;
      var decided := Decide(c.events, w.journal, CallOf(proc.job, phase, now), now);
      if fault || decided.Failure? then Moved(w, p, AfterCall(proc.job, phase, false, code), false)
      else Moved(w, p, Calling(phase, Trimming(decided.value)), true)
    case TrimJournalStep(trimmed, ok, code) =>
      var proc := w.procs[p];
      Moved(w.(journal := if trimmed then Complete(w.journal) else w.journal), p,
        if ok then Calling(proc.pc.phase, Appending(proc.pc.io.e))
        else AfterCall(proc.job, proc.pc.phase, false, code), ok)
    case AppendJournalStep(count, ok, code) =>
      var proc := w.procs[p];
      Moved(w.(journal := Landed(w.journal, Record(c.events.encode(proc.pc.io.e)), Written(count))), p,
        AfterCall(proc.job, proc.pc.phase, ok, code), ok)
    case CheckContext(canceled, code) =>
      var tx := w.procs[p].pc.tx;
      Moved(w, p, if canceled then Calling(Close(tx, INTERRUPTED, REASON_CANCELED, code), Reading)
                  else Dispatching(tx), true)
    case FinishInner(outcome) =>
      var tx := w.procs[p].pc.tx;
      Moved(w, p, match outcome
                  case Succeeded => Calling(Commit(tx), Reading)
                  case FailedWith(code) => Calling(Close(tx, FAILED, REASON_FAILED, code), Reading)
                  case CanceledWith(code) => Calling(Close(tx, INTERRUPTED, REASON_CANCELED, code), Reading), true)
    case ListPending(fault, todo) =>
      if fault || !Sound(c.events, w.journal) then Moved(w, p, Releasing(None), false)
      else Moved(w, p, NextRecovery(todo), true)
    case TrimAuditStep(trimmed, ok, now) =>
      var pc := w.procs[p].pc;
      Moved(w.(audit := if trimmed then Complete(w.audit) else w.audit), p,
        if ok then Auditing(pc.entry.(timestamp := now), pc.rest, true)
        else AfterAudit(w.procs[p].job, pc.entry, pc.rest, false), ok)
    case AppendAuditStep(count, ok) =>
      var pc := w.procs[p].pc;
      Moved(w.(audit := Landed(w.audit, Record(c.entries.encode(pc.entry)), Written(count))), p,
        AfterAudit(w.procs[p].job, pc.entry, pc.rest, ok), ok)
    case Release => Moved(w.(holder := None), p, Stopped(w.procs[p].pc.done), true)
    case Crash(count, trimmed) =>
      var pc := w.procs[p].pc;
      var journal :=
        if pc.Calling? && !pc.io.Reading?
        then Torn(w.journal, Record(c.events.encode(pc.io.e)), pc.io.Appending?, count, trimmed) else w.journal;
      var audit :=
        if pc.Auditing? then Torn(w.audit, Record(c.entries.encode(pc.entry)), pc.trimmed, count, trimmed) else w.audit;
      Moved(World(journal, audit, if w.holder == Some(p) then None else w.holder, w.procs), p, Crashed, false)
  }

  /** A run: worlds from the empty one, each reached from the last by one step of one process. */
  ghost predicate Run(c: Codecs, run: seq<World>) {
    && run != [] && run[0] == Init()
    && forall i :: 0 <= i < |run| - 1 ==> CanStep(c, run[i], run[i + 1])
  }

  ghost predicate CanStep(c: Codecs, w: World, w': World) {
    exists p, a :: Enabled(c, w, p, a) && w' == Next(c, w, p, a)
  }
}
