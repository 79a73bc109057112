/**
  What a governed command leaves behind in the two logs, call by call, whatever each call on
  them runs into, and exactly when the audit record agrees with the journal.
 */
module CommandEnds {
  import opened Wrappers
  import opened LineLog
  import opened Journal
  import opened Audit
  import opened Governance
  import opened GovernanceSafety

  /** What the outside world does to one call on a log: the clock, and where it fails. */
  datatype Trial = Trial(now: int, readFault: bool, fault: Fault)

  /** Everything a command meets that is not its own doing. */
  datatype Weather = Weather(
    acquired: bool,          // the lock was free and could be taken
    prepared: bool,          // the audit log can be written
    newId: Option<TxId>,     // what the random source gave
    begin: Trial,
    dispatch: Trial,
    canceled: bool,          // by the time the step was recorded
    cancelCode: string,
    outcome: Outcome,        // of the command itself
    close: Trial,            // commit, or the close of a failed command
    lastResort: Trial,       // the close after a failed commit
    audit: Trial)

  /** A command that gets as far as its begin record. */
  predicate Ready(operation: string, weather: Weather) {
    operation != "" && weather.prepared && weather.newId.Some?
  }

  /** Nothing but the command itself can fail. */
  predicate Able(operation: string, weather: Weather) {
    && Ready(operation, weather)
    && Calm(weather.begin) && Calm(weather.dispatch) && Calm(weather.close) && Calm(weather.audit)
  }

  predicate Calm(t: Trial) {
    !t.readFault && t.fault.NoFault?
  }

  // ---------------------------------------------------------------- one call on a log

  /** The journal after a call. */
  ghost function After(c: Codecs, data: seq<byte>, call: Call, t: Trial): seq<byte> {
    if t.readFault then data
    else
      match Decide(c.events, data, call, t.now)
      case Failure(_) => data
      case Success(e) =>
        var payload := c.events.encode(e);
        Landed(data, Record(payload), ProgressOf(data, payload, t.fault))
  }

  /** The call reports success. */
  ghost predicate Succeeds(c: Codecs, data: seq<byte>, call: Call, t: Trial) {
    !t.readFault && Decide(c.events, data, call, t.now).Success? && Flushes(data, t.fault)
  }

  /** The call reports an error, although its event is in the journal. */
  ghost predicate MisreportsCall(c: Codecs, data: seq<byte>, call: Call, t: Trial) {
    && !t.readFault && Decide(c.events, data, call, t.now).Success?
    && Misreports(c.events.encode(Decide(c.events, data, call, t.now).value), t.fault)
  }

  /** The call's event is in the journal afterwards. */
  ghost predicate Lands(c: Codecs, data: seq<byte>, call: Call, t: Trial) {
    Succeeds(c, data, call, t) || MisreportsCall(c, data, call, t)
  }

  /** Why a call on a transaction that is open fails. */
  function CallError(t: Trial): Error {
    if t.readFault then Unreadable else AppendFailed
  }

  ghost predicate AuditLands(c: Codecs, data: seq<byte>, e: Entry, fault: Fault) {
    Acceptable(e) && (Flushes(data, fault) || Misreports(c.entries.encode(e), fault))
  }

  /** The state the journal gives a transaction; empty if it does not know it. */
  ghost function TxState(c: Codecs, data: seq<byte>, tx: TxId): string {
    if Sound(c.events, data) && tx in Transactions(c.events, data) then Transactions(c.events, data)[tx].state else ""
  }

  ghost predicate Known(c: Codecs, data: seq<byte>, tx: TxId) {
    Sound(c.events, data) && tx in Transactions(c.events, data)
  }

  /** What a transaction is about, whatever its state. */
  datatype Task = Task(operation: string, steps: seq<Step>, beganAt: int)

  ghost function TaskOf(c: Codecs, data: seq<byte>, tx: TxId): Task {
    if Known(c, data, tx) then
      var t := Transactions(c.events, data)[tx];
      Task(t.operation, t.steps, t.beganAt)
    else Task("", [], 0)
  }

  /** The kind of thing an operation acts on. */
  predicate TargetFits(operation: string, target: string) {
    && (operation == "setup" ==> target == "installation")
    && (Provider(operation) ==> target == "provider")
    && (operation == "models.favorite" || operation == "models.unfavorite" ==> target == "model-preferences")
    && (operation == "doctor" ==> target == "diagnostics")
    && (Service(operation) ==> target == "service")
    && (Configuration(operation) ==> target == "configuration")
    && (operation == "update.self" || operation == "update.proxy" ==> target == "managed-update")
    && (Elsewhere(operation) ==> target == "local-state")
  }

  predicate Provider(operation: string) {
    || operation == "providers.login" || operation == "providers.enable"
    || operation == "providers.disable" || operation == "providers.remove"
  }

  predicate Service(operation: string) {
    || operation == "service.start" || operation == "service.stop" || operation == "service.restart"
    || operation == "service.install" || operation == "service.uninstall" || operation == "service.logs"
  }

  predicate Configuration(operation: string) {
    || operation == "config.set" || operation == "config.edit"
    || operation == "config.backup" || operation == "config.restore"
  }

  /** None of the operations that act on something named. */
  predicate Elsewhere(operation: string) {
    && operation != "setup" && !Provider(operation)
    && operation != "models.favorite" && operation != "models.unfavorite"
    && operation != "doctor" && !Service(operation) && !Configuration(operation)
    && operation != "update.self" && operation != "update.proxy"
  }

  lemma TargetsFit(operation: string)
    ensures TargetFits(operation, MutationTarget(operation))
  {
    hide MutationTarget, Provider, Service, Configuration, Elsewhere;
    SinglesFit(operation);
    if Provider(operation) {
      ProvidersFit(operation);
    }
    if Service(operation) {
      ServicesFit(operation);
    }
    if Configuration(operation) {
      ConfigurationsFit(operation);
    }
    if Elsewhere(operation) {
      ElsewhereFits(operation);
    }
  }

  lemma ProvidersFit(operation: string)
    requires Provider(operation)
    ensures MutationTarget(operation) == "provider"
  {
  }

  lemma ServicesFit(operation: string)
    requires Service(operation)
    ensures MutationTarget(operation) == "service"
  {
  }

  lemma ConfigurationsFit(operation: string)
    requires Configuration(operation)
    ensures MutationTarget(operation) == "configuration"
  {
  }

  lemma SinglesFit(operation: string)
    ensures operation == "setup" ==> MutationTarget(operation) == "installation"
    ensures operation == "models.favorite" || operation == "models.unfavorite" ==>
      MutationTarget(operation) == "model-preferences"
    ensures operation == "doctor" ==> MutationTarget(operation) == "diagnostics"
    ensures operation == "update.self" || operation == "update.proxy" ==> MutationTarget(operation) == "managed-update"
  {
  }

  lemma ElsewhereFits(operation: string)
    requires Elsewhere(operation)
    ensures MutationTarget(operation) == "local-state"
  {
  }

  /** An audit record that accounts for a command: who did what to what, and how it went. */
  predicate Says(e: Entry, tx: TxId, operation: string, result: string, code: string) {
    && e.version == 1 && e.operation == tx && e.actor == "local"
    && e.command == operation && TargetFits(operation, e.target)
    && e.result == result && e.errorCode == code
  }

  lemma EntriesSay(tx: TxId, operation: string, result: string, code: string, now: int)
    ensures Says(EntryFor(tx, operation, result, code).(timestamp := now), tx, operation, result, code)
  {
    TargetsFit(operation);
    hide MutationTarget, TargetFits;
  }

  /** Whatever the audit log holds about the transaction says this. */
  ghost predicate RecordsSay(c: Codecs, audit: seq<byte>, tx: TxId, operation: string, told: Told) {
    ReadAudit(c.entries, audit).Success? ==>
      forall e :: e in RecordsOf(ReadAudit(c.entries, audit).value, tx) ==>
        Says(e, tx, operation, told.result, told.code)
  }

  datatype Told = Told(result: string, code: string)

  lemma AuditedSays(c: Codecs, before: seq<byte>, after: seq<byte>, operation: string, tx: TxId,
                    result: string, code: string, t: Trial)
    requires Unaudited(c, before, tx)
    requires AuditedInto(c, before, after, EntryFor(tx, operation, result, code).(timestamp := t.now), t.fault)
    ensures RecordsSay(c, after, tx, operation, Told(result, code))
  {
    var e := EntryFor(tx, operation, result, code).(timestamp := t.now);
    var records := ReadAudit(c.entries, before).value;
    RecordsOfSnoc(records, e, tx);
    assert records + [] == records;
    EntriesSay(tx, operation, result, code, t.now);
    hide AuditLands, ReadAudit, Says, EntryFor;
  }

  /** What the audit record of a command that ran says: ok without a code, or failed with its own code. */
  ghost function ToldOfRun(c: Codecs, codeOf: Error -> string, journal: seq<byte>, tx: TxId, w: Weather): Told {
    match w.outcome
    case FailedWith(why) => Told("failed", why)
    case CanceledWith(why) => Told("failed", why)
    case Succeeded =>
      if Succeeds(c, journal, StateCall(tx, "completed", ""), w.close) then Told("ok", "")
      else Told("failed", codeOf(if w.close.readFault then Unreadable else AppendFailed))
  }

  ghost function ToldOfRecorded(c: Codecs, codeOf: Error -> string, journal: seq<byte>, tx: TxId, w: Weather): Told {
    if w.canceled then Told("failed", w.cancelCode) else ToldOfRun(c, codeOf, journal, tx, w)
  }

  ghost function ToldOfBegun(c: Codecs, codeOf: Error -> string, journal: seq<byte>, operation: string, tx: TxId,
                             w: Weather): Told
  {
    var step := StepOf(operation, tx, w);
    if Succeeds(c, journal, step, w.dispatch) then
      ToldOfRecorded(c, codeOf, After(c, journal, step, w.dispatch), tx, w)
    else Told("failed", codeOf(if w.dispatch.readFault then Unreadable else AppendFailed))
  }

  /** The journal's account of a begun command: its operation, its time, and its dispatch if that landed. */
  ghost predicate TaskIs(task: Task, operation: string, beganAt: int, dispatched: bool, at: int) {
    && task.operation == operation && task.beganAt == beganAt
    && if !dispatched then task.steps == []
       else
         && |task.steps| == 1 && task.steps[0].name == "dispatch" && task.steps[0].action == "execute"
         && TargetFits(operation, task.steps[0].target) && task.steps[0].at == at
  }

  /** A call changes its transaction by its effect exactly when it lands. */
  lemma CallLeaves(c: Codecs, data: seq<byte>, call: Call, t: Trial)
    requires LawfulCodecs(c) && Sound(c.events, data) && WellFormedCall(call)
    requires call.BeginCall? <==> call.id !in Transactions(c.events, data)
    ensures Sound(c.events, After(c, data, call, t))
    ensures Transactions(c.events, After(c, data, call, t))
         == if Lands(c, data, call, t) then Effect(Transactions(c.events, data), call, t.now)
            else Transactions(c.events, data)
  {
    var decided := Decide(c.events, data, call, t.now);
    if !t.readFault && decided.Success? {
      var payload := c.events.encode(decided.value);
      CallKeepsSound(c.events, data, call, t.now, ProgressOf(data, payload, t.fault));
      LandsExactly(data, payload, t.fault);
    }
  }

  /** The same, for the transaction's state. */
  lemma StateLeft(c: Codecs, data: seq<byte>, call: Call, t: Trial)
    requires LawfulCodecs(c) && Sound(c.events, data) && WellFormedCall(call)
    requires call.BeginCall? <==> call.id !in Transactions(c.events, data)
    ensures Sound(c.events, After(c, data, call, t))
    ensures !call.BeginCall? || Lands(c, data, call, t) ==> Known(c, After(c, data, call, t), call.id)
    ensures TxState(c, After(c, data, call, t), call.id)
         == if !Lands(c, data, call, t) || call.StepCall? then TxState(c, data, call.id)
            else if call.BeginCall? then IN_PROGRESS else call.state
    ensures call.BeginCall? && Lands(c, data, call, t) ==> TxState(c, After(c, data, call, t), call.id) == IN_PROGRESS
    ensures TaskOf(c, After(c, data, call, t), call.id)
         == if !Lands(c, data, call, t) || call.StateCall? then TaskOf(c, data, call.id)
            else if call.BeginCall? then Task(call.operation, [], t.now)
            else TaskOf(c, data, call.id).(steps := TaskOf(c, data, call.id).steps + [call.step])
  {
    CallLeaves(c, data, call, t);
    hide After, Lands, Sound, LawfulCodecs;
  }

  /** A call on an open transaction lands unless it is cut short; on a closed one it never does. */
  lemma LandsOnOpen(c: Codecs, data: seq<byte>, call: Call, t: Trial)
    requires Known(c, data, call.id) && !call.BeginCall?
    ensures Decide(c.events, data, call, t.now).Success? <==> !IsClosed(TxState(c, data, call.id))
    ensures IsClosed(TxState(c, data, call.id)) ==> !Lands(c, data, call, t)
    ensures Calm(t) && !IsClosed(TxState(c, data, call.id)) ==> Succeeds(c, data, call, t)
  {
    ClosedRejectsCalls(c.events, data, call, t.now);
  }

  // ---------------------------------------------------------------- how a command ends

  /** The journal's last word on a transaction, and the audit log's; None is no record. */
  datatype End = End(state: string, result: Option<string>)

  ghost predicate Ends(c: Codecs, journal: seq<byte>, audit: seq<byte>, tx: TxId, end: End) {
    && Known(c, journal, tx) && TxState(c, journal, tx) == end.state
    && ReadAudit(c.entries, audit).Success?
    && var own := RecordsOf(ReadAudit(c.entries, audit).value, tx);
    match end.result
    case None => own == []
    case Some(result) => |own| == 1 && own[0].result == result
  }

  ghost predicate IsCompleted(c: Codecs, data: seq<byte>, tx: TxId) {
    Known(c, data, tx) && TxState(c, data, tx) == COMPLETED
  }

  /** One audit record accounts for the transaction, and it agrees with the journal. */
  ghost predicate Accounted(c: Codecs, journal: seq<byte>, audit: seq<byte>, tx: TxId) {
    && Sound(c.events, journal) && ReadAudit(c.entries, audit).Success?
    && Settled(Transactions(c.events, journal), ReadAudit(c.entries, audit).value, tx)
  }

  predicate Agrees(end: End) {
    end.result.Some? && Matches(end.result.value, end.state)
  }

  lemma EndsAccounted(c: Codecs, journal: seq<byte>, audit: seq<byte>, tx: TxId, end: End)
    requires Ends(c, journal, audit, tx, end)
    ensures Accounted(c, journal, audit, tx) <==> Agrees(end)
  {
  }

  ghost predicate Unaudited(c: Codecs, audit: seq<byte>, tx: TxId) {
    ReadAudit(c.entries, audit).Success? && RecordsOf(ReadAudit(c.entries, audit).value, tx) == []
  }

  ghost function Audited(c: Codecs, audit: seq<byte>, operation: string, tx: TxId,
                         result: string, code: string, t: Trial): Option<string>
  {
    var e := EntryFor(tx, operation, result, code).(timestamp := t.now);
    if AuditLands(c, audit, e, t.fault) then Some(result) else None
  }

  /** A command that failed: closed if the close lands, audited as failed if the audit lands. */
  ghost function ClosedEnd(c: Codecs, journal: seq<byte>, audit: seq<byte>, operation: string, tx: TxId,
                           state: string, reason: string, code: string, t: Trial, audited: Trial): End
  {
    End(if Lands(c, journal, StateCall(tx, state, reason), t) then state else TxState(c, journal, tx),
        Audited(c, audit, operation, tx, FAILED_RESULT, code, audited))
  }

  /** A command that succeeded: from its commit on. */
  ghost function CommittedEnd(c: Codecs, codeOf: Error -> string, journal: seq<byte>, audit: seq<byte>,
                              operation: string, tx: TxId, w: Weather): End
  {
    var commit := StateCall(tx, COMPLETED, "");
    if Succeeds(c, journal, commit, w.close) then
      End(COMPLETED, Audited(c, audit, operation, tx, OK, "", w.audit))
    else
      ClosedEnd(c, After(c, journal, commit, w.close), audit, operation, tx, FAILED, REASON_COMMIT,
        codeOf(CallError(w.close)), w.lastResort, w.audit)
  }

  ghost function RanEnd(c: Codecs, codeOf: Error -> string, journal: seq<byte>, audit: seq<byte>,
                        operation: string, tx: TxId, w: Weather): End
  {
    match w.outcome
    case Succeeded => CommittedEnd(c, codeOf, journal, audit, operation, tx, w)
    case FailedWith(why) => ClosedEnd(c, journal, audit, operation, tx, FAILED, REASON_FAILED, why, w.close, w.audit)
    case CanceledWith(why) =>
      ClosedEnd(c, journal, audit, operation, tx, INTERRUPTED, REASON_CANCELED, why, w.close, w.audit)
  }

  ghost function RecordedEnd(c: Codecs, codeOf: Error -> string, journal: seq<byte>, audit: seq<byte>,
                             operation: string, tx: TxId, w: Weather): End
  {
    if w.canceled then
      ClosedEnd(c, journal, audit, operation, tx, INTERRUPTED, REASON_CANCELED, w.cancelCode, w.close, w.audit)
    else
      RanEnd(c, codeOf, journal, audit, operation, tx, w)
  }

  /** The dispatch step, as the journal is asked to record it. */
  function StepOf(operation: string, tx: TxId, w: Weather): Call {
    CallOf(Command(operation), Dispatch(tx), w.dispatch.now)
  }

  ghost function BegunEnd(c: Codecs, codeOf: Error -> string, journal: seq<byte>, audit: seq<byte>,
                          operation: string, tx: TxId, w: Weather): End
  {
    var step := StepOf(operation, tx, w);
    var recorded := After(c, journal, step, w.dispatch);
    if Succeeds(c, journal, step, w.dispatch) then RecordedEnd(c, codeOf, recorded, audit, operation, tx, w)
    else
      ClosedEnd(c, recorded, audit, operation, tx, FAILED, REASON_RECORD,
        codeOf(CallError(w.dispatch)), w.close, w.audit)
  }

  /** What one audit append made of the log. */
  ghost predicate AuditedInto(c: Codecs, before: seq<byte>, after: seq<byte>, e: Entry, fault: Fault) {
    ReadAudit(c.entries, before).Success? ==>
      && ReadAudit(c.entries, after).Success?
      && ReadAudit(c.entries, after).value
         == ReadAudit(c.entries, before).value + if AuditLands(c, before, e, fault) then [e] else []
  }

  lemma EndsWith(c: Codecs, journal: seq<byte>, before: seq<byte>, after: seq<byte>,
                 operation: string, tx: TxId, result: string, code: string, t: Trial)
    requires Known(c, journal, tx) && Unaudited(c, before, tx)
    requires AuditedInto(c, before, after, EntryFor(tx, operation, result, code).(timestamp := t.now), t.fault)
    ensures Ends(c, journal, after, tx,
                 End(TxState(c, journal, tx), Audited(c, before, operation, tx, result, code, t)))
  {
    var e := EntryFor(tx, operation, result, code).(timestamp := t.now);
    var records := ReadAudit(c.entries, before).value;
    RecordsOfSnoc(records, e, tx);
    assert records + [] == records;
    hide AuditLands, ReadAudit, Known, TxState;
  }

  /** What the journal says of a begun command, after its begin and its dispatch step. */
  lemma TaskLeft(c: Codecs, journal: seq<byte>, operation: string, tx: TxId, w: Weather)
    requires LawfulCodecs(c) && Sound(c.events, journal) && tx != "" && tx !in Transactions(c.events, journal)
    requires Succeeds(c, journal, BeginCall(tx, operation), w.begin)
    ensures var begun := After(c, journal, BeginCall(tx, operation), w.begin);
      var step := StepOf(operation, tx, w);
      TaskIs(TaskOf(c, After(c, begun, step, w.dispatch), tx), operation, w.begin.now,
             Lands(c, begun, step, w.dispatch), w.dispatch.now)
  {
    var begun, step := After(c, journal, BeginCall(tx, operation), w.begin), StepOf(operation, tx, w);
    StateLeft(c, journal, BeginCall(tx, operation), w.begin);
    StateLeft(c, begun, step, w.dispatch);
    TargetsFit(operation);
    hide After, Succeeds, MisreportsCall, TaskOf, TargetFits, MutationTarget;
  }

  // ---------------------------------------------------------------- exactly when the logs agree

  /** The transaction is open, and nothing about it has been audited. */
  ghost predicate Fresh(c: Codecs, journal: seq<byte>, audit: seq<byte>, tx: TxId) {
    tx != "" && Known(c, journal, tx) && TxState(c, journal, tx) == IN_PROGRESS && Unaudited(c, audit, tx)
  }

  /** A failed command agrees exactly when both its close and its audit record landed. */
  lemma ClosedAgreesExactly(c: Codecs, journal: seq<byte>, audit: seq<byte>, operation: string, tx: TxId,
                            state: string, reason: string, code: string, t: Trial, audited: Trial)
    requires TxState(c, journal, tx) in [IN_PROGRESS, COMPLETED] && state in [FAILED, INTERRUPTED]
    ensures var end := ClosedEnd(c, journal, audit, operation, tx, state, reason, code, t, audited);
      Agrees(end) <==> end.result.Some? && Lands(c, journal, StateCall(tx, state, reason), t)
  {
  }

  /**
    A command that succeeded agrees exactly when its audit record landed and its commit either
    succeeded, or did not land at all and could still be closed as failed. A commit that landed
    but was reported as an error leaves the transaction completed and its record failed.
   */
  lemma CommittedAgreesExactly(c: Codecs, codeOf: Error -> string, journal: seq<byte>, audit: seq<byte>,
                               operation: string, tx: TxId, w: Weather)
    requires LawfulCodecs(c) && Fresh(c, journal, audit, tx)
    ensures var commit, after := StateCall(tx, COMPLETED, ""), After(c, journal, StateCall(tx, COMPLETED, ""), w.close);
      var end := CommittedEnd(c, codeOf, journal, audit, operation, tx, w);
      var closes := Lands(c, after, StateCall(tx, FAILED, REASON_COMMIT), w.lastResort);
      && (Agrees(end) <==> end.result.Some? && (Succeeds(c, journal, commit, w.close)
                                               || (!MisreportsCall(c, journal, commit, w.close) && closes)))
      && end.state == (if Lands(c, journal, commit, w.close) then COMPLETED else if closes then FAILED else IN_PROGRESS)
      && (!Lands(c, journal, commit, w.close) && Calm(w.lastResort) ==> closes)
  {
    var commit := StateCall(tx, COMPLETED, "");
    StateLeft(c, journal, commit, w.close);
    LandsOnOpen(c, After(c, journal, commit, w.close), StateCall(tx, FAILED, REASON_COMMIT), w.lastResort);
    hide After, Succeeds, MisreportsCall, LawfulCodecs, Sound, TxState, Audited;
  }

  lemma CalmAuditLands(c: Codecs, audit: seq<byte>, operation: string, tx: TxId, result: string, code: string, t: Trial)
    requires Calm(t) && operation != "" && tx != "" && result in [OK, FAILED_RESULT]
    ensures Audited(c, audit, operation, tx, result, code, t) == Some(result)
  {
  }

  /** With a calm last resort and a calm audit log only a misreported commit can disagree. */
  lemma OnlyMisreportedCommitsDisagree(c: Codecs, codeOf: Error -> string, journal: seq<byte>, audit: seq<byte>,
                                       operation: string, tx: TxId, w: Weather)
    requires LawfulCodecs(c) && Fresh(c, journal, audit, tx) && operation != ""
    requires Calm(w.lastResort) && Calm(w.audit)
    ensures var end := CommittedEnd(c, codeOf, journal, audit, operation, tx, w);
      && (Agrees(end) <==> !MisreportsCall(c, journal, StateCall(tx, COMPLETED, ""), w.close))
      && (!Agrees(end) ==> end == End(COMPLETED, Some(FAILED_RESULT)))
  {
    var commit := StateCall(tx, COMPLETED, "");
    CommittedAgreesExactly(c, codeOf, journal, audit, operation, tx, w);
    CalmAuditLands(c, audit, operation, tx, OK, "", w.audit);
    CalmAuditLands(c, audit, operation, tx, FAILED_RESULT, codeOf(CallError(w.close)), w.audit);
    NotBoth(c, journal, commit, w.close);
    hide After, Succeeds, MisreportsCall, LawfulCodecs, Audited, Fresh;
  }

  lemma NotBoth(c: Codecs, data: seq<byte>, call: Call, t: Trial)
    ensures !(Succeeds(c, data, call, t) && MisreportsCall(c, data, call, t))
  {
  }

  /** The last call a command without a commit makes on the journal. */
  function ClosingCall(tx: TxId, recorded: bool, w: Weather): Call {
    if !recorded then StateCall(tx, FAILED, REASON_RECORD)
    else if w.canceled || w.outcome.CanceledWith? then StateCall(tx, INTERRUPTED, REASON_CANCELED)
    else StateCall(tx, FAILED, REASON_FAILED)
  }

  /** Why a transaction was closed stands in the event that closes it. */
  predicate ClosesBecause(e: Event, tx: TxId, state: string, reason: string) {
    e.version == 1 && e.kind == "state" && e.txId == tx && e.state == state && e.reason == reason
  }

  lemma ClosingSays(c: Codecs, data: seq<byte>, tx: TxId, recorded: bool, w: Weather, now: int)
    ensures var decided := Decide(c.events, data, ClosingCall(tx, recorded, w), now);
      decided.Success? ==>
        if !recorded then ClosesBecause(decided.value, tx, "failed", "dispatch record failed")
        else if w.canceled || w.outcome.CanceledWith? then
          ClosesBecause(decided.value, tx, "interrupted", "operation canceled")
        else ClosesBecause(decided.value, tx, "failed", "operation failed")
  {
    if Decide(c.events, data, ClosingCall(tx, recorded, w), now).Success? {
      DecidedSays(c.events, data, ClosingCall(tx, recorded, w), now);
      hide Decide, ReadJournal;
    }
  }

  lemma LastResortSays(c: Codecs, data: seq<byte>, tx: TxId, now: int)
    ensures var decided := Decide(c.events, data, StateCall(tx, FAILED, REASON_COMMIT), now);
      decided.Success? ==> ClosesBecause(decided.value, tx, "failed", "completion record failed")
  {
    if Decide(c.events, data, StateCall(tx, FAILED, REASON_COMMIT), now).Success? {
      DecidedSays(c.events, data, StateCall(tx, FAILED, REASON_COMMIT), now);
      hide Decide, ReadJournal;
    }
  }

  lemma RecoverySays(c: Codecs, data: seq<byte>, tx: TxId, now: int)
    ensures var decided := Decide(c.events, data, StateCall(tx, INTERRUPTED, REASON_RECOVERED), now);
      decided.Success? ==>
        ClosesBecause(decided.value, tx, "interrupted", "interrupted mutation recovered at process startup")
  {
    if Decide(c.events, data, StateCall(tx, INTERRUPTED, REASON_RECOVERED), now).Success? {
      DecidedSays(c.events, data, StateCall(tx, INTERRUPTED, REASON_RECOVERED), now);
      hide Decide, ReadJournal;
    }
  }

  function ClosingCode(codeOf: Error -> string, recorded: bool, w: Weather): string {
    if !recorded then codeOf(CallError(w.dispatch))
    else if w.canceled then w.cancelCode
    else if w.outcome.Succeeded? then "" else w.outcome.code
  }

  predicate Commits(recorded: bool, w: Weather) {
    recorded && !w.canceled && w.outcome.Succeeded?
  }

  /** The journal's end is one the audit record will tell truly. */
  ghost predicate ClosesTruly(c: Codecs, journal: seq<byte>, operation: string, tx: TxId, w: Weather) {
    var recorded := Succeeds(c, journal, StepOf(operation, tx, w), w.dispatch);
    var before := After(c, journal, StepOf(operation, tx, w), w.dispatch);
    var commit := StateCall(tx, COMPLETED, "");
    if Commits(recorded, w) then
      || Succeeds(c, before, commit, w.close)
      || (&& !MisreportsCall(c, before, commit, w.close)
          && Lands(c, After(c, before, commit, w.close), StateCall(tx, FAILED, REASON_COMMIT), w.lastResort))
    else
      Lands(c, before, ClosingCall(tx, recorded, w), w.close)
  }

  /** The dispatch step leaves the transaction open, however it ends. */
  lemma StepLeavesFresh(c: Codecs, journal: seq<byte>, audit: seq<byte>, operation: string, tx: TxId, w: Weather)
    requires LawfulCodecs(c) && Fresh(c, journal, audit, tx)
    ensures Fresh(c, After(c, journal, StepOf(operation, tx, w), w.dispatch), audit, tx)
  {
    StateLeft(c, journal, StepOf(operation, tx, w), w.dispatch);
  }

  /**
    Over all ways a begun command can go: audit log and journal agree about it exactly when its
    audit record landed and its journal calls closed it truly. A close that did not land, in a
    command that committed nothing, leaves the transaction in progress.
   */
  lemma CommandsAgreeExactly(c: Codecs, codeOf: Error -> string, journal: seq<byte>, audit: seq<byte>,
                             operation: string, tx: TxId, w: Weather)
    requires LawfulCodecs(c) && Fresh(c, journal, audit, tx)
    ensures var end := BegunEnd(c, codeOf, journal, audit, operation, tx, w);
      var recorded := Succeeds(c, journal, StepOf(operation, tx, w), w.dispatch);
      && (Agrees(end) <==> end.result.Some? && ClosesTruly(c, journal, operation, tx, w))
      && (!Commits(recorded, w) && !ClosesTruly(c, journal, operation, tx, w) ==> end.state == IN_PROGRESS)
  {
    StepLeavesFresh(c, journal, audit, operation, tx, w);
    var before := After(c, journal, StepOf(operation, tx, w), w.dispatch);
    var recorded := Succeeds(c, journal, StepOf(operation, tx, w), w.dispatch);
    assert TxState(c, before, tx) == IN_PROGRESS;
    BegunEndIs(c, codeOf, journal, audit, operation, tx, w);
    hide After, Succeeds, MisreportsCall, LawfulCodecs, Audited, Fresh, TxState, Lands, CommittedEnd, StepOf, BegunEnd;
    if Commits(recorded, w) {
      CommittedAgreesExactly(c, codeOf, before, audit, operation, tx, w);
    } else {
      var call := ClosingCall(tx, recorded, w);
      ClosedAgreesExactly(c, before, audit, operation, tx, call.state, call.reason,
        ClosingCode(codeOf, recorded, w), w.close, w.audit);
    }
  }

  lemma BegunEndIs(c: Codecs, codeOf: Error -> string, journal: seq<byte>, audit: seq<byte>,
                   operation: string, tx: TxId, w: Weather)
    ensures var recorded := Succeeds(c, journal, StepOf(operation, tx, w), w.dispatch);
      var before := After(c, journal, StepOf(operation, tx, w), w.dispatch);
      var call := ClosingCall(tx, recorded, w);
      BegunEnd(c, codeOf, journal, audit, operation, tx, w)
      == if Commits(recorded, w) then CommittedEnd(c, codeOf, before, audit, operation, tx, w)
         else ClosedEnd(c, before, audit, operation, tx, call.state, call.reason,
           ClosingCode(codeOf, recorded, w), w.close, w.audit)
  {
    hide After, Succeeds, StepOf, CommittedEnd, ClosedEnd;
  }

  lemma CalmAuditIsThere(c: Codecs, codeOf: Error -> string, journal: seq<byte>, audit: seq<byte>,
                         operation: string, tx: TxId, w: Weather)
    requires Calm(w.audit) && operation != "" && tx != ""
    ensures BegunEnd(c, codeOf, journal, audit, operation, tx, w).result.Some?
  {
    hide After, Succeeds, StepOf, Lands, TxState;
  }

  /**
    A concrete disagreement: the commit reaches the disk, its flush reports an error, and all
    else goes well. The transaction is completed, and its one audit record says it failed.
   */
  lemma ReportedCommitDisagrees(c: Codecs, codeOf: Error -> string, journal: seq<byte>, audit: seq<byte>,
                                operation: string, tx: TxId, w: Weather)
    requires LawfulCodecs(c) && Fresh(c, journal, audit, tx) && operation != ""
    requires Calm(w.dispatch) && !w.canceled && w.outcome.Succeeded?
    requires w.close == Trial(w.close.now, false, FlushFault) && Calm(w.lastResort) && Calm(w.audit)
    ensures BegunEnd(c, codeOf, journal, audit, operation, tx, w) == End(COMPLETED, Some(FAILED_RESULT))
  {
    var step := StepOf(operation, tx, w);
    LandsOnOpen(c, journal, step, w.dispatch);
    StepLeavesFresh(c, journal, audit, operation, tx, w);
    var before := After(c, journal, step, w.dispatch);
    LandsOnOpen(c, before, StateCall(tx, COMPLETED, ""), w.close);
    assert MisreportsCall(c, before, StateCall(tx, COMPLETED, ""), w.close);
    OnlyMisreportedCommitsDisagree(c, codeOf, before, audit, operation, tx, w);
  }

  /** On empty logs a calm begin opens its transaction. */
  lemma FirstBegin(c: Codecs, operation: string, tx: TxId, t: Trial)
    requires LawfulCodecs(c) && tx != "" && Calm(t)
    ensures Sound(c.events, []) && tx !in Transactions(c.events, [])
    ensures Succeeds(c, [], BeginCall(tx, operation), t)
    ensures Fresh(c, After(c, [], BeginCall(tx, operation), t), [], tx)
  {
    assert ReadJournal(c.events, []) == Success([]);
    assert ReadAudit(c.entries, []) == Success([]);
    StateLeft(c, [], BeginCall(tx, operation), t);
  }

  // ---------------------------------------------------------------- what startup recovery leaves

  /** The transactions with those in `done` interrupted. */
  function Halted(txs: Txs, done: set<TxId>): Txs {
    map id | id in txs :: if id in done then txs[id].(state := INTERRUPTED) else txs[id]
  }

  /** The audit records recovery writes. */
  predicate IsRecoveryRecord(e: Entry, tx: TxId, operation: string) {
    Says(e, tx, operation, "failed", "interrupted")
  }

  /** A transaction in `done` gained exactly one record, from recovery; every other one none. */
  ghost predicate Gained(before: seq<Entry>, after: seq<Entry>, tx: TxId, operation: string, done: set<TxId>) {
    if tx in done then
      exists e :: IsRecoveryRecord(e, tx, operation) && RecordsOf(after, tx) == RecordsOf(before, tx) + [e]
    else RecordsOf(after, tx) == RecordsOf(before, tx)
  }

  /** Recovery has interrupted and audited the transactions in `done`, and left all others alone. */
  ghost predicate RecoveredSoFar(c: Codecs, journal: seq<byte>, audit: seq<byte>,
                                 journal': seq<byte>, audit': seq<byte>, done: set<TxId>)
  {
    && Sound(c.events, journal) && Sound(c.events, journal')
    && ReadAudit(c.entries, audit).Success? && ReadAudit(c.entries, audit').Success?
    && Transactions(c.events, journal') == Halted(Transactions(c.events, journal), done)
    && forall tx ::
         Gained(ReadAudit(c.entries, audit).value, ReadAudit(c.entries, audit').value,
                tx, TaskOf(c, journal, tx).operation, done)
  }

  /** One transaction is interrupted in the journal and recorded as failed in the audit log. */
  ghost predicate Interrupts(c: Codecs, journal: seq<byte>, audit: seq<byte>,
                             journal': seq<byte>, audit': seq<byte>, tx: TxId, operation: string)
  {
    && Known(c, journal, tx) && Sound(c.events, journal')
    && ReadAudit(c.entries, audit).Success? && ReadAudit(c.entries, audit').Success?
    && Transactions(c.events, journal')
       == Transactions(c.events, journal)[tx := Transactions(c.events, journal)[tx].(state := INTERRUPTED)]
    && exists e :: IsRecoveryRecord(e, tx, operation)
                   && ReadAudit(c.entries, audit').value == ReadAudit(c.entries, audit).value + [e]
  }

  lemma RecoveredNothing(c: Codecs, journal: seq<byte>, audit: seq<byte>)
    requires Sound(c.events, journal) && ReadAudit(c.entries, audit).Success?
    ensures RecoveredSoFar(c, journal, audit, journal, audit, {})
  {
    hide Sound, ReadAudit;
  }

  lemma HaltedOneMore(txs: Txs, done: set<TxId>, tx: TxId)
    requires tx in txs
    ensures tx in Halted(txs, done)
    ensures Halted(txs, done)[tx := Halted(txs, done)[tx].(state := INTERRUPTED)] == Halted(txs, done + {tx})
  {
  }

  lemma RecoveredOneMore(c: Codecs, journal: seq<byte>, audit: seq<byte>, journal': seq<byte>, audit': seq<byte>,
                         journal'': seq<byte>, audit'': seq<byte>, done: set<TxId>, tx: TxId)
    requires RecoveredSoFar(c, journal, audit, journal', audit', done) && tx !in done
    requires Interrupts(c, journal', audit', journal'', audit'', tx, TaskOf(c, journal, tx).operation)
    ensures RecoveredSoFar(c, journal, audit, journal'', audit'', done + {tx})
  {
    var before, between := ReadAudit(c.entries, audit).value, ReadAudit(c.entries, audit').value;
    var after := ReadAudit(c.entries, audit'').value;
    var e :| IsRecoveryRecord(e, tx, TaskOf(c, journal, tx).operation) && after == between + [e];
    assert tx in Transactions(c.events, journal) by {
      assert tx in Halted(Transactions(c.events, journal), done);
    }
    HaltedOneMore(Transactions(c.events, journal), done, tx);
    hide ReadAudit, Fold, RecordsOf, ReadJournal, Gained, IsRecoveryRecord, TaskOf, Halted, Transactions, Sound;
    forall other ensures Gained(before, after, other, TaskOf(c, journal, other).operation, done + {tx}) {
      assert Gained(before, between, other, TaskOf(c, journal, other).operation, done);
      GainsOneMore(before, between, e, tx, other, TaskOf(c, journal, tx).operation,
        TaskOf(c, journal, other).operation, done);
    }
  }

  lemma GainsOneMore(before: seq<Entry>, between: seq<Entry>, e: Entry, tx: TxId, other: TxId,
                     operation: string, otherOperation: string, done: set<TxId>)
    requires IsRecoveryRecord(e, tx, operation) && tx !in done && (other == tx ==> otherOperation == operation)
    requires Gained(before, between, other, otherOperation, done)
    ensures Gained(before, between + [e], other, otherOperation, done + {tx})
  {
    RecordsOfSnoc(between, e, other);
    assert RecordsOf(between, other) + [] == RecordsOf(between, other);
  }

  /** One interruption, from what the journal call and the audit append did. */
  lemma InterruptsOne(c: Codecs, journal: seq<byte>, audit: seq<byte>, journal': seq<byte>, audit': seq<byte>,
                      tx: TxId, operation: string, t: Trial, audited: Trial)
    requires LawfulCodecs(c) && tx != "" && Known(c, journal, tx) && ReadAudit(c.entries, audit).Success?
    requires journal' == After(c, journal, StateCall(tx, INTERRUPTED, REASON_RECOVERED), t)
    requires Succeeds(c, journal, StateCall(tx, INTERRUPTED, REASON_RECOVERED), t)
    requires var e := EntryFor(tx, operation, FAILED_RESULT, CODE_INTERRUPTED).(timestamp := audited.now);
      && AuditedInto(c, audit, audit', e, audited.fault) && AuditLands(c, audit, e, audited.fault)
    ensures Interrupts(c, journal, audit, journal', audit', tx, operation)
  {
    var e := EntryFor(tx, operation, FAILED_RESULT, CODE_INTERRUPTED).(timestamp := audited.now);
    EntriesSay(tx, operation, FAILED_RESULT, CODE_INTERRUPTED, audited.now);
    assert IsRecoveryRecord(e, tx, operation);
    CallLeaves(c, journal, StateCall(tx, INTERRUPTED, REASON_RECOVERED), t);
    hide After, Succeeds, MisreportsCall, Fold, ReadAudit, LawfulCodecs, AuditLands;
  }
}
