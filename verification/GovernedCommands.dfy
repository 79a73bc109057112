/**
  Governed commands as the code carries them out: one process calls the lock, the journal and
  the audit log in turn. Beside the files it keeps, as a ghost, the run of the protocol it is
  taking part in; every method keeps the two in step.
 */
module GovernedCommands {
  import opened Wrappers
  import opened Strings
  import opened LineLog
  import opened Journal
  import opened Audit
  import opened Governance
  import opened GovernanceSafety
  import opened GovernanceTheorems
  import opened CommandEnds

  datatype Reply = NotLocked | NotBegun | NotDispatched | NotPersisted | CommandFailed(code: string) | Completed

  ghost predicate NoneInProgress(c: Codecs, journal: seq<byte>) {
    && Sound(c.events, journal)
    && forall id :: id in Transactions(c.events, journal) ==> Transactions(c.events, journal)[id].state != IN_PROGRESS
  }

  class GovernedUseCases {
    const c: Codecs
    const journal: OperationJournal
    const audit: AuditLog
    const codeOf: Error -> string
    ghost var run: seq<World>

    constructor (c: Codecs, journal: OperationJournal, audit: AuditLog, codeOf: Error -> string, ghost run: seq<World>)
      requires LawfulCodecs(c) && Run(c, run)
      requires journal.codec == c.events && audit.codec == c.entries && journal.file != audit.file
      requires run[|run| - 1].journal == journal.file.data && run[|run| - 1].audit == audit.file.data
      ensures Valid() && this.run == run && this.c == c && this.journal == journal && this.audit == audit
      ensures this.codeOf == codeOf
    {
      this.c, this.journal, this.audit, this.codeOf, this.run := c, journal, audit, codeOf, run;
    }

    ghost predicate Fixed() {
      LawfulCodecs(c) && journal.codec == c.events && audit.codec == c.entries && journal.file != audit.file
    }

    /** The files hold what the protocol's present world says they hold. */
    ghost predicate Valid()
      reads this, journal.file, audit.file
    {
      && Fixed() && Run(c, run)
      && Now().journal == journal.file.data && Now().audit == audit.file.data
    }

    ghost function Now(): World
      requires run != []
      reads this
    {
      run[|run| - 1]
    }

    /** Process `p` has this job and stands here. */
    ghost predicate At(p: Pid, job: Job, pc: Pc)
      reads this
    {
      run != [] && p in Now().procs && Now().procs[p].job == job && Now().procs[p].pc == pc
    }

    ghost predicate Clean(p: Pid)
      reads this
    {
      run != [] && p in Now().procs && Now().procs[p].clean
    }

    /** One step of the protocol. */
    ghost method Take(p: Pid, a: Action)
      requires Run(c, run) && Enabled(c, Now(), p, a)
      modifies this`run
      ensures Run(c, run) && run == old(run) + [Next(c, old(Now()), p, a)]
    {
      ghost var before := run;
      run := run + [Next(c, Now(), p, a)];
      forall i | 0 <= i < |run| - 1 ensures CanStep(c, run[i], run[i + 1]) {
        if i < |before| - 1 {
          assert run[i] == before[i] && run[i + 1] == before[i + 1];
        }
      }
    }

    /** The steps of one journal call, once it is known how the call ended. */
    ghost method FollowCall(p: Pid, job: Job, phase: Phase, t: Trial, after: seq<byte>, progress: Progress,
                            ok: bool, code: string)
      requires Fixed() && Run(c, run) && At(p, job, Calling(phase, Reading))
      requires t.readFault || Decide(c.events, Now().journal, CallOf(job, phase, t.now), t.now).Failure?
        ==> !ok && after == Now().journal
      requires !t.readFault ==>
        Carried(c.events, Now().journal, CallOf(job, phase, t.now), t.now, t.fault, after, progress, ok)
      modifies this`run
      ensures Run(c, run) && old(run) <= run
      ensures Now() == Moved(old(Now()), p, AfterCall(job, phase, ok, code), ok).(journal := after)
    {
      ghost var decided := Decide(c.events, Now().journal, CallOf(job, phase, t.now), t.now);
      hide Decide, CallOf, AfterCall, Run, LawfulCodecs, Landed, Record, Whole;
      if t.readFault || decided.Failure? {
        FollowRefusal(p, job, phase, t, code);
      } else {
        MovedTwice(Now(), p, Calling(phase, Trimming(decided.value)), AfterCall(job, phase, ok, code), ok);
        hide Moved;
        FollowRead(p, job, phase, t, code);
        FollowAppend(p, job, phase, decided.value, after, progress, ok, code);
      }
    }

    ghost method FollowRefusal(p: Pid, job: Job, phase: Phase, t: Trial, code: string)
      requires Run(c, run) && At(p, job, Calling(phase, Reading))
      requires t.readFault || Decide(c.events, Now().journal, CallOf(job, phase, t.now), t.now).Failure?
      modifies this`run
      ensures Run(c, run) && old(run) <= run && Now() == Moved(old(Now()), p, AfterCall(job, phase, false, code), false)
    {
      ReadingStep(c, Now(), p, t, code);
      hide Next, Enabled, Decide, CallOf, AfterCall, Run;
      Take(p, ReadJournalStep(t.readFault, t.now, code));
    }

    ghost method FollowRead(p: Pid, job: Job, phase: Phase, t: Trial, code: string)
      requires Run(c, run) && At(p, job, Calling(phase, Reading)) && !t.readFault
      requires Decide(c.events, Now().journal, CallOf(job, phase, t.now), t.now).Success?
      modifies this`run
      ensures Run(c, run) && old(run) <= run
      ensures var e := Decide(c.events, old(Now()).journal, CallOf(job, phase, t.now), t.now).value;
        Now() == Moved(old(Now()), p, Calling(phase, Trimming(e)), true)
    {
      ReadingStep(c, Now(), p, t, code);
      hide Next, Enabled, Decide, CallOf, AfterCall, Run;
      Take(p, ReadJournalStep(t.readFault, t.now, code));
    }

    ghost method FollowAppend(p: Pid, job: Job, phase: Phase, e: Event, after: seq<byte>, progress: Progress,
                              ok: bool, code: string)
      requires Run(c, run) && At(p, job, Calling(phase, Trimming(e)))
      requires after == Landed(Now().journal, Record(c.events.encode(e)), progress)
      requires ok ==> Whole(c.events.encode(e), progress)
      modifies this`run
      ensures Run(c, run) && old(run) <= run
      ensures Now() == Moved(old(Now()), p, AfterCall(job, phase, ok, code), ok).(journal := after)
    {
      TrimmingStep(c, Now(), p, e, progress, code);
      if progress.Written? {
        ghost var trimmed := Next(c, Now(), p, TrimJournalStep(true, true, code));
        AppendingStep(c, trimmed, p, e, Now().journal, progress.count, ok, code);
        MovedTwice(Now(), p, Calling(phase, Appending(e)), AfterCall(job, phase, ok, code), ok);
      }
      hide Next, Enabled, AfterCall, Run, LawfulCodecs, Landed, Record, Whole, Complete;
      Take(p, TrimJournalStep(!progress.Untouched?, progress.Written?, code));
      if progress.Written? {
        Take(p, AppendJournalStep(progress.count, ok, code));
      }
    }

    ghost method FollowAudit(p: Pid, job: Job, entry: Entry, rest: seq<Tx>, now: int,
                             after: seq<byte>, progress: Progress, ok: bool)
      requires Run(c, run) && At(p, job, Auditing(entry, rest, false))
      requires var e := entry.(timestamp := now);
        if Acceptable(e) then
          && after == Landed(Now().audit, Record(c.entries.encode(e)), progress)
          && (ok ==> Whole(c.entries.encode(e), progress))
        else !ok && after == Now().audit
      modifies this`run
      ensures Run(c, run) && old(run) <= run
      ensures Now() == Moved(old(Now()), p, AfterAudit(job, entry, rest, ok), ok).(audit := after)
    {
      ghost var e := entry.(timestamp := now);
      ghost var reached := if Acceptable(e) then progress else Untouched;
      AuditTrimmingStep(c, Now(), p, reached, now);
      if reached.Written? {
        AuditAppendingStep(c, Next(c, Now(), p, TrimAuditStep(true, true, now)), p, Now().audit, reached.count, ok);
        MovedTwice(Now(), p, Auditing(e, rest, true), AfterAudit(job, entry, rest, ok), ok);
      }
      hide Next, Enabled, Run, LawfulCodecs, Landed, Record, Whole, Complete, Acceptable;
      Take(p, TrimAuditStep(!reached.Untouched?, reached.Written?, now));
      if reached.Written? {
        Take(p, AppendAuditStep(reached.count, ok));
      }
    }

    // -------------------------------------------------------------- calls on the two logs

    /** Record, Commit, Fail or Interrupt, as the phase says. */
    method JournalCall(p: Pid, job: Job, phase: Phase, t: Trial) returns (ok: bool, code: string)
      requires Valid() && At(p, job, Calling(phase, Reading)) && !phase.Begin?
      requires phase.Close? ==> phase.state == FAILED || phase.state == INTERRUPTED
      modifies this`run, journal.file
      ensures Valid() && old(run) <= run
      ensures At(p, job, AfterCall(job, phase, ok, code)) && (Clean(p) <==> old(Clean(p)) && ok)
      ensures journal.file.data == After(c, old(journal.file.data), CallOf(job, phase, t.now), t)
      ensures ok <==> Succeeds(c, old(journal.file.data), CallOf(job, phase, t.now), t)
      ensures !ok && Decide(c.events, old(journal.file.data), CallOf(job, phase, t.now), t.now).Success?
        ==> code == codeOf(CallError(t))
    {
      var r: Result<(), Error>;
      ghost var progress;
      hide Decide, Run, Lawful, Carried, AfterCall;
      match phase {
        case Dispatch(tx) =>
          var step := Step(DISPATCH, EXECUTE, MutationTarget(OperationOf(job)), t.now);
          r, progress := journal.RecordStep(tx, step, t.now, t.readFault, t.fault);
        case Commit(tx) =>
          r, progress := journal.Commit(tx, t.now, t.readFault, t.fault);
        case Close(tx, state, reason, _) =>
          r, progress := journal.SetState(tx, state, reason, t.now, t.readFault, t.fault);
        case Recover(tx, _, _) =>
          r, progress := journal.SetState(tx, INTERRUPTED, REASON_RECOVERED, t.now, t.readFault, t.fault);
      }
      ok := r.Success?;
      code := if r.Failure? then codeOf(r.error) else "";
      CarriedAfter(c, old(journal.file.data), CallOf(job, phase, t.now), t, journal.file.data, progress, ok);
      FollowCall(p, job, phase, t, journal.file.data, progress, ok, code);
    }

    method AppendAudit(p: Pid, ghost job: Job, tx: TxId, operation: string, result: string, code: string,
                       ghost rest: seq<Tx>, t: Trial) returns (ok: bool)
      requires Valid() && At(p, job, Auditing(EntryFor(tx, operation, result, code), rest, false))
      modifies this`run, audit.file
      ensures Valid() && old(run) <= run
      ensures At(p, job, AfterAudit(job, EntryFor(tx, operation, result, code), rest, ok))
      ensures Clean(p) <==> old(Clean(p)) && ok
      ensures AuditedInto(c, old(audit.file.data), audit.file.data,
                          EntryFor(tx, operation, result, code).(timestamp := t.now), t.fault)
      ensures var e := EntryFor(tx, operation, result, code).(timestamp := t.now);
        ok <==> Acceptable(e) && Flushes(old(audit.file.data), t.fault)
      ensures t.fault.NoFault? && tx != "" && operation != "" && result in [OK, FAILED_RESULT] ==> ok
    {
      hide Run, Lawful, AfterAudit;
      ghost var progress;
      ghost var e := EntryFor(tx, operation, result, code).(timestamp := t.now);
      ok, progress := audit.Append(EntryFor(tx, operation, result, code).(timestamp := t.now), t.fault);
      LandsExactly(old(audit.file.data), c.entries.encode(e), t.fault);
      FollowAudit(p, job, EntryFor(tx, operation, result, code), rest, t.now, audit.file.data, progress, ok);
    }

    // -------------------------------------------------------------- a governed command

    /** No error has touched this process yet, and its next journal call will be accepted. */
    lemma WouldBeAccepted(p: Pid, phase: Phase, now: int)
      requires Valid() && p in Now().procs && Now().procs[p].pc == Calling(phase, Reading)
      requires phase.Close? ==> Clean(p)
      ensures phase.tx != "" && Sound(c.events, Now().journal)
      ensures Decide(c.events, Now().journal, CallOf(Now().procs[p].job, phase, now), now).Success?
    {
      RunKeepsInv(c, run, |run| - 1);
      var v := ViewOf(c, Now());
      assert ProcGood(v.txs, v.records, v.procs[p]);
      hide Run, Fold, ReadJournal;
      if phase.Recover? {
        assert phase.tx in InProgress(v.txs);
      }
      if !phase.Begin? {
        ClosedRejectsCalls(c.events, Now().journal, CallOf(Now().procs[p].job, phase, now), now);
      }
    }

    /** Until its last journal call, a command's transaction is known and unaudited; open, while no call failed. */
    lemma StillUnaudited(p: Pid, operation: string, tx: TxId)
      requires Valid() && p in Now().procs && Now().procs[p].job == Command(operation)
      requires var pc := Now().procs[p].pc;
        || pc == CheckingContext(tx) || pc == Dispatching(tx)
        || (pc.Calling? && pc.io.Reading? && !pc.phase.Begin? && pc.phase.tx == tx)
      ensures tx != "" && Known(c, journal.file.data, tx) && Unaudited(c, audit.file.data, tx)
      ensures !(Now().procs[p].pc.Calling? && Now().procs[p].pc.phase.Close?) || Clean(p)
        ==> Fresh(c, journal.file.data, audit.file.data, tx)
    {
      RunKeepsInv(c, run, |run| - 1);
      var v := ViewOf(c, Now());
      assert ProcGood(v.txs, v.records, v.procs[p]);
      hide Run, Fold, ReadJournal;
    }

    /** The audit record that ends a command. */
    method Conclude(p: Pid, operation: string, tx: TxId, result: string, code: string, t: Trial) returns (ok: bool)
      requires Valid() && At(p, Command(operation), Auditing(EntryFor(tx, operation, result, code), [], false))
      requires Known(c, journal.file.data, tx) && Unaudited(c, audit.file.data, tx)
      modifies this`run, audit.file
      ensures Valid() && old(run) <= run && At(p, Command(operation), Releasing(Some(tx)))
      ensures Clean(p) <==> old(Clean(p)) && ok
      ensures Calm(t) && tx != "" && operation != "" && result in [OK, FAILED_RESULT] ==> ok
      ensures Ends(c, journal.file.data, audit.file.data, tx,
        End(TxState(c, journal.file.data, tx), Audited(c, old(audit.file.data), operation, tx, result, code, t)))
      ensures RecordsSay(c, audit.file.data, tx, operation, Told(result, code))
    {
      assert journal.file != audit.file;
      hide Run, LawfulCodecs, Valid, Fresh, Known, Unaudited, TxState, Ends, AuditedInto, EntryFor, Audited, RecordsSay;
      AuditLeads(operation, tx, result, code, true);
      AuditLeads(operation, tx, result, code, false);
      ok := AppendAudit(p, Command(operation), tx, operation, result, code, [], t);
      EndsWith(c, journal.file.data, old(audit.file.data), audit.file.data, operation, tx, result, code, t);
      AuditedSays(c, old(audit.file.data), audit.file.data, operation, tx, result, code, t);
    }

    /** persistFailure: close the transaction and audit the failure, whatever the close returned. */
    method PersistFailure(p: Pid, operation: string, tx: TxId, state: string, reason: string, code: string,
                          t: Trial, audited: Trial)
      returns (ok: bool)
      requires Valid() && At(p, Command(operation), Calling(Close(tx, state, reason, code), Reading))
      requires state == FAILED || state == INTERRUPTED
      modifies this`run, journal.file, audit.file
      ensures Valid() && old(run) <= run && At(p, Command(operation), Releasing(Some(tx)))
      ensures Clean(p) <==> old(Clean(p)) && ok
      ensures old(Clean(p)) && Calm(t) && Calm(audited) && operation != "" ==> ok
      ensures Ends(c, journal.file.data, audit.file.data, tx,
        ClosedEnd(c, old(journal.file.data), old(audit.file.data), operation, tx, state, reason, code, t, audited))
      ensures TaskOf(c, journal.file.data, tx) == TaskOf(c, old(journal.file.data), tx)
      ensures RecordsSay(c, audit.file.data, tx, operation, Told("failed", code))
    {
      ghost var call, before := StateCall(tx, state, reason), journal.file.data;
      StillUnaudited(p, operation, tx);
      StateLeft(c, before, call, t);
      LandsOnOpen(c, before, call, t);
      assert CallOf(Command(operation), Close(tx, state, reason, code), t.now) == call;
      hide Run, LawfulCodecs, Valid, Succeeds, After, Lands, TxState, Ends, Fresh, CallOf, AfterCall, EntryFor, Audited,
        TaskOf, RecordsSay;
      CloseLeads(operation, tx, state, reason, code);
      var closed, _ := JournalCall(p, Command(operation), Close(tx, state, reason, code), t);
      var recorded := Conclude(p, operation, tx, FAILED_RESULT, code, audited);
      ok := closed && recorded;
    }

    /** From the commit on: complete the transaction, or fail it and say so. */
    method Finish(p: Pid, operation: string, tx: TxId, weather: Weather) returns (reply: Reply)
      requires Valid() && At(p, Command(operation), Calling(Commit(tx), Reading)) && Clean(p)
      modifies this`run, journal.file, audit.file
      ensures Valid() && old(run) <= run && At(p, Command(operation), Releasing(Some(tx)))
      ensures reply == if Clean(p) then Completed else NotPersisted
      ensures Clean(p) ==> IsCompleted(c, journal.file.data, tx)
      ensures Calm(weather.close) && Calm(weather.audit) && operation != "" ==> Clean(p)
      ensures Ends(c, journal.file.data, audit.file.data, tx,
        CommittedEnd(c, codeOf, old(journal.file.data), old(audit.file.data), operation, tx, weather))
      ensures Calm(weather.lastResort) && Calm(weather.audit) && operation != "" ==>
        (Accounted(c, journal.file.data, audit.file.data, tx)
         <==> !MisreportsCall(c, old(journal.file.data), StateCall(tx, COMPLETED, ""), weather.close))
      ensures TaskOf(c, journal.file.data, tx) == TaskOf(c, old(journal.file.data), tx)
      ensures RecordsSay(c, audit.file.data, tx, operation,
        if Succeeds(c, old(journal.file.data), StateCall(tx, "completed", ""), weather.close) then Told("ok", "")
        else Told("failed", codeOf(if weather.close.readFault then Unreadable else AppendFailed)))
    {
      ghost var commit, before := StateCall(tx, COMPLETED, ""), journal.file.data;
      StillUnaudited(p, operation, tx);
      StateLeft(c, before, commit, weather.close);
      LandsOnOpen(c, before, commit, weather.close);
      assert CallOf(Command(operation), Commit(tx), weather.close.now) == commit;
      if Calm(weather.lastResort) && Calm(weather.audit) && operation != "" {
        OnlyMisreportedCommitsDisagree(c, codeOf, before, audit.file.data, operation, tx, weather);
      }
      reply := CommitAndAudit(p, operation, tx, weather);
      EndsAccounted(c, journal.file.data, audit.file.data, tx,
        CommittedEnd(c, codeOf, before, old(audit.file.data), operation, tx, weather));
    }

    method CommitAndAudit(p: Pid, operation: string, tx: TxId, weather: Weather) returns (reply: Reply)
      requires Valid() && At(p, Command(operation), Calling(Commit(tx), Reading)) && Clean(p)
      modifies this`run, journal.file, audit.file
      ensures Valid() && old(run) <= run && At(p, Command(operation), Releasing(Some(tx)))
      ensures reply == if Clean(p) then Completed else NotPersisted
      ensures Clean(p) ==> IsCompleted(c, journal.file.data, tx)
      ensures Calm(weather.close) && Calm(weather.audit) && operation != "" ==> Clean(p)
      ensures Ends(c, journal.file.data, audit.file.data, tx,
        CommittedEnd(c, codeOf, old(journal.file.data), old(audit.file.data), operation, tx, weather))
      ensures TaskOf(c, journal.file.data, tx) == TaskOf(c, old(journal.file.data), tx)
      ensures RecordsSay(c, audit.file.data, tx, operation,
        if Succeeds(c, old(journal.file.data), StateCall(tx, "completed", ""), weather.close) then Told("ok", "")
        else Told("failed", codeOf(if weather.close.readFault then Unreadable else AppendFailed)))
    {
      assert journal.file != audit.file;
      hide Run, LawfulCodecs, Decide, Valid, EntryFor, Succeeds, MisreportsCall, After, TxState, Ends, Fresh, ClosedEnd,
        Audited, At, Clean, Known, TaskOf, RecordsSay;
      var ok, code := CommitCall(p, operation, tx, weather.close);
      if ok {
        var recorded := Conclude(p, operation, tx, OK, "", weather.audit);
        reply := if recorded then Completed else NotPersisted;
      } else {
        var _ := PersistFailure(p, operation, tx, FAILED, REASON_COMMIT, code, weather.lastResort, weather.audit);
        reply := NotPersisted;
      }
    }

    /** The commit itself, and where it leads. */
    method CommitCall(p: Pid, operation: string, tx: TxId, t: Trial) returns (ok: bool, code: string)
      requires Valid() && At(p, Command(operation), Calling(Commit(tx), Reading)) && Clean(p)
      modifies this`run, journal.file
      ensures Valid() && old(run) <= run && tx != "" && (Clean(p) <==> ok)
      ensures At(p, Command(operation),
        if ok then Auditing(EntryFor(tx, operation, OK, ""), [], false)
        else Calling(Close(tx, FAILED, REASON_COMMIT, code), Reading))
      ensures journal.file.data == After(c, old(journal.file.data), StateCall(tx, COMPLETED, ""), t)
      ensures ok <==> Succeeds(c, old(journal.file.data), StateCall(tx, COMPLETED, ""), t)
      ensures Known(c, journal.file.data, tx) && Unaudited(c, audit.file.data, tx)
      ensures if ok then TxState(c, journal.file.data, tx) == COMPLETED else code == codeOf(CallError(t))
      ensures Calm(t) ==> ok
      ensures TaskOf(c, journal.file.data, tx) == TaskOf(c, old(journal.file.data), tx)
    {
      ghost var commit, before := StateCall(tx, COMPLETED, ""), journal.file.data;
      StillUnaudited(p, operation, tx);
      StateLeft(c, before, commit, t);
      LandsOnOpen(c, before, commit, t);
      assert CallOf(Command(operation), Commit(tx), t.now) == commit;
      assert journal.file != audit.file;
      hide Run, LawfulCodecs, Decide, Valid, CallOf, EntryFor, AfterCall, Succeeds, MisreportsCall, After, TxState,
        Known, Unaudited, TaskOf;
      ok, code := JournalCall(p, Command(operation), Commit(tx), t);
      CommitLeads(operation, tx, ok, code);
    }

    /** From the dispatch record on: run the command, unless that record or the context forbids it. */
    method Dispatch(p: Pid, operation: string, tx: TxId, weather: Weather) returns (reply: Reply)
      requires Valid() && At(p, Command(operation), Calling(Governance.Dispatch(tx), Reading)) && Clean(p)
      modifies this`run, journal.file, audit.file
      ensures Valid() && old(run) <= run && At(p, Command(operation), Releasing(Some(tx)))
      ensures !reply.NotLocked?
      ensures Clean(p) <==> reply.Completed? || reply.CommandFailed?
      ensures reply.Completed? ==> IsCompleted(c, journal.file.data, tx)
      ensures reply.Completed? || reply.CommandFailed? ==> reply == Promised(weather)
      ensures operation != "" && Calm(weather.dispatch) && Calm(weather.close) && Calm(weather.audit) ==> Clean(p)
      ensures Ends(c, journal.file.data, audit.file.data, tx,
        BegunEnd(c, codeOf, old(journal.file.data), old(audit.file.data), operation, tx, weather))
      ensures TaskOf(c, journal.file.data, tx)
           == TaskOf(c, After(c, old(journal.file.data), StepOf(operation, tx, weather), weather.dispatch), tx)
      ensures RecordsSay(c, audit.file.data, tx, operation,
                         ToldOfBegun(c, codeOf, old(journal.file.data), operation, tx, weather))
    {
      ghost var step, before := StepOf(operation, tx, weather), journal.file.data;
      StillUnaudited(p, operation, tx);
      LandsOnOpen(c, before, step, weather.dispatch);
      hide Run, LawfulCodecs, Decide, Valid, CallOf, EntryFor, AfterCall, IsCompleted, Next, Enabled,
        Succeeds, After, TxState, Ends, RecordedEnd, ClosedEnd, Known, Fresh, Unaudited, TaskOf, RecordsSay,
        ToldOfRecorded;
      var ok, code := JournalCall(p, Command(operation), Governance.Dispatch(tx), weather.dispatch);
      DispatchLeads(operation, tx, ok, code);
      if ok {
        reply := RunUnlessCanceled(p, operation, tx, weather);
      } else {
        var _ := PersistFailure(p, operation, tx, FAILED, REASON_RECORD, code, weather.close, weather.audit);
        reply := NotDispatched;
      }
    }

    method RunUnlessCanceled(p: Pid, operation: string, tx: TxId, weather: Weather) returns (reply: Reply)
      requires Valid() && At(p, Command(operation), CheckingContext(tx)) && Clean(p)
      modifies this`run, journal.file, audit.file
      ensures Valid() && old(run) <= run && At(p, Command(operation), Releasing(Some(tx)))
      ensures !reply.NotLocked?
      ensures Clean(p) <==> reply.Completed? || reply.CommandFailed?
      ensures reply.Completed? ==> IsCompleted(c, journal.file.data, tx)
      ensures reply.Completed? || reply.CommandFailed? ==> reply == Promised(weather)
      ensures operation != "" && Calm(weather.close) && Calm(weather.audit) ==> Clean(p)
      ensures Ends(c, journal.file.data, audit.file.data, tx,
        RecordedEnd(c, codeOf, old(journal.file.data), old(audit.file.data), operation, tx, weather))
      ensures TaskOf(c, journal.file.data, tx) == TaskOf(c, old(journal.file.data), tx)
      ensures RecordsSay(c, audit.file.data, tx, operation,
                         ToldOfRecorded(c, codeOf, old(journal.file.data), tx, weather))
    {
      hide Run, LawfulCodecs, Valid, IsCompleted, Concluded, Ends, RanEnd, ClosedEnd, TaskOf, RecordsSay, ToldOfRun;
      Follow(p, CheckContext(weather.canceled, weather.cancelCode));
      if weather.canceled {
        var persisted := PersistFailure(p, operation, tx, INTERRUPTED, REASON_CANCELED, weather.cancelCode,
          weather.close, weather.audit);
        reply := if persisted then CommandFailed(weather.cancelCode) else NotPersisted;
      } else {
        reply := RunInner(p, operation, tx, weather);
      }
    }

    /** The command itself, and what becomes of its outcome. */
    method RunInner(p: Pid, operation: string, tx: TxId, weather: Weather) returns (reply: Reply)
      requires Valid() && At(p, Command(operation), Dispatching(tx)) && Clean(p)
      modifies this`run, journal.file, audit.file
      ensures Valid() && old(run) <= run && At(p, Command(operation), Releasing(Some(tx)))
      ensures !reply.NotLocked?
      ensures Clean(p) <==> reply.Completed? || reply.CommandFailed?
      ensures reply.Completed? ==> IsCompleted(c, journal.file.data, tx)
      ensures reply.Completed? || reply.CommandFailed? ==> reply == Concluded(weather.outcome)
      ensures operation != "" && Calm(weather.close) && Calm(weather.audit) ==> Clean(p)
      ensures Ends(c, journal.file.data, audit.file.data, tx,
        RanEnd(c, codeOf, old(journal.file.data), old(audit.file.data), operation, tx, weather))
      ensures TaskOf(c, journal.file.data, tx) == TaskOf(c, old(journal.file.data), tx)
      ensures RecordsSay(c, audit.file.data, tx, operation, ToldOfRun(c, codeOf, old(journal.file.data), tx, weather))
    {
      hide Run, LawfulCodecs, Valid, IsCompleted, Ends, ClosedEnd, CommittedEnd, TaskOf, RecordsSay;
      Follow(p, FinishInner(weather.outcome));
      match weather.outcome {
        case Succeeded =>
          reply := Finish(p, operation, tx, weather);
        case FailedWith(why) =>
          var persisted := PersistFailure(p, operation, tx, FAILED, REASON_FAILED, why, weather.close, weather.audit);
          reply := if persisted then CommandFailed(why) else NotPersisted;
        case CanceledWith(why) =>
          var persisted := PersistFailure(p, operation, tx, INTERRUPTED, REASON_CANCELED, why,
            weather.close, weather.audit);
          reply := if persisted then CommandFailed(why) else NotPersisted;
      }
    }

    /** From the audit log's preparation to the begin record. */
    method BeginAndRun(p: Pid, operation: string, weather: Weather) returns (reply: Reply, ghost done: Option<TxId>)
      requires Valid() && At(p, Command(operation), Preparing) && Clean(p)
      requires FreshId(weather.newId)
      modifies this`run, journal.file, audit.file
      ensures Valid() && old(run) <= run && At(p, Command(operation), Releasing(done))
      ensures !reply.NotLocked?
      ensures Clean(p) <==> reply.Completed? || reply.CommandFailed?
      ensures Clean(p) ==> reply == Promised(weather) && done.Some? && done == weather.newId
      ensures reply.Completed? ==> IsCompleted(c, journal.file.data, done.value)
      ensures Able(operation, weather) ==> Clean(p)
      ensures if Ready(operation, weather)
        then Left(old(journal.file.data), old(audit.file.data), operation, weather, done)
        else done.None? && journal.file.data == old(journal.file.data) && audit.file.data == old(audit.file.data)
    {
      hide Run, LawfulCodecs, IsCompleted, Promised, Left;
      if !weather.prepared || operation == "" || weather.newId.None? {
        Follow(p, Prepare(false, ""));
        return NotBegun, None;
      }
      Follow(p, Prepare(true, weather.newId.value));
      reply, done := BeginThenRun(p, operation, weather);
    }

    method BeginThenRun(p: Pid, operation: string, weather: Weather) returns (reply: Reply, ghost done: Option<TxId>)
      requires Valid() && weather.newId.Some? && operation != "" && Clean(p)
      requires At(p, Command(operation), Calling(Governance.Begin(weather.newId.value), Reading))
      modifies this`run, journal.file, audit.file
      ensures Valid() && old(run) <= run && At(p, Command(operation), Releasing(done))
      ensures !reply.NotLocked?
      ensures Clean(p) <==> reply.Completed? || reply.CommandFailed?
      ensures Clean(p) ==> reply == Promised(weather) && done.Some? && done == weather.newId
      ensures reply.Completed? ==> IsCompleted(c, journal.file.data, done.value)
      ensures Able(operation, weather) ==> Clean(p)
      ensures Left(old(journal.file.data), old(audit.file.data), operation, weather, done)
    {
      ghost var tx, before := weather.newId.value, journal.file.data;
      NotYetKnown(p, operation, tx);
      if Succeeds(c, before, BeginCall(tx, operation), weather.begin) {
        TaskLeft(c, before, operation, tx, weather);
      }
      hide Run, LawfulCodecs, IsCompleted, Promised, Ends, BegunEnd, ClosesTruly, Accounted, Succeeds, After, Valid, At,
        TaskIs, TaskOf, RecordsSay, ToldOfBegun, Lands, StepOf;
      var begun := Start(p, operation, weather.newId.value, weather.begin);
      if !begun {
        return NotBegun, None;
      }
      reply := RunBegun(p, operation, weather.newId.value, weather);
      done := weather.newId;
    }

    /** A transaction about to be begun is new to the journal. */
    lemma NotYetKnown(p: Pid, operation: string, tx: TxId)
      requires Valid() && At(p, Command(operation), Calling(Governance.Begin(tx), Reading))
      ensures LawfulCodecs(c) && Sound(c.events, journal.file.data)
      ensures tx != "" && tx !in Transactions(c.events, journal.file.data)
    {
      RunKeepsInv(c, run, |run| - 1);
      var v := ViewOf(c, Now());
      assert ProcGood(v.txs, v.records, v.procs[p]);
    }

    method RunBegun(p: Pid, operation: string, tx: TxId, weather: Weather) returns (reply: Reply)
      requires Valid() && At(p, Command(operation), Calling(Governance.Dispatch(tx), Reading)) && Clean(p)
      modifies this`run, journal.file, audit.file
      ensures Valid() && old(run) <= run && At(p, Command(operation), Releasing(Some(tx)))
      ensures !reply.NotLocked?
      ensures Clean(p) <==> reply.Completed? || reply.CommandFailed?
      ensures reply.Completed? ==> IsCompleted(c, journal.file.data, tx)
      ensures reply.Completed? || reply.CommandFailed? ==> reply == Promised(weather)
      ensures operation != "" && Calm(weather.dispatch) && Calm(weather.close) && Calm(weather.audit) ==> Clean(p)
      ensures var end := BegunEnd(c, codeOf, old(journal.file.data), old(audit.file.data), operation, tx, weather);
        && Ends(c, journal.file.data, audit.file.data, tx, end)
        && (Accounted(c, journal.file.data, audit.file.data, tx)
            <==> end.result.Some? && ClosesTruly(c, old(journal.file.data), operation, tx, weather))
      ensures operation != "" && Calm(weather.audit) ==>
        (Accounted(c, journal.file.data, audit.file.data, tx)
         <==> ClosesTruly(c, old(journal.file.data), operation, tx, weather))
      ensures TaskOf(c, journal.file.data, tx)
           == TaskOf(c, After(c, old(journal.file.data), StepOf(operation, tx, weather), weather.dispatch), tx)
      ensures RecordsSay(c, audit.file.data, tx, operation,
                         ToldOfBegun(c, codeOf, old(journal.file.data), operation, tx, weather))
    {
      ghost var before, audited := journal.file.data, audit.file.data;
      StillUnaudited(p, operation, tx);
      if operation != "" && Calm(weather.audit) {
        CalmAuditIsThere(c, codeOf, before, audited, operation, tx, weather);
      }
      CommandsAgreeExactly(c, codeOf, before, audited, operation, tx, weather);
      hide *;
      reply := Dispatch(p, operation, tx, weather);
      EndsAccounted(c, journal.file.data, audit.file.data, tx,
        BegunEnd(c, codeOf, before, audited, operation, tx, weather));
    }

    /**
      What a command leaves on disk. Without a begin record that was reported as written, the
      audit log is as before; with one, the logs end as their calls left them, and they agree
      exactly when the audit record landed and the journal's last calls closed the command truly;
      with a calm audit log the latter alone decides. The journal knows the command by its
      operation, its time and its dispatch, and the record says who did what, to what, and how it
      went.
     */
    ghost predicate Left(before: seq<byte>, audited: seq<byte>, operation: string, weather: Weather, done: Option<TxId>)
      requires weather.newId.Some?
      reads journal.file, audit.file
    {
      var tx := weather.newId.value;
      var begin := BeginCall(tx, operation);
      var begun := After(c, before, begin, weather.begin);
      if !Succeeds(c, before, begin, weather.begin) then
        done.None? && journal.file.data == begun && audit.file.data == audited
      else
        && done == Some(tx)
        && var end := BegunEnd(c, codeOf, begun, audited, operation, tx, weather);
        && Ends(c, journal.file.data, audit.file.data, tx, end)
        && (Accounted(c, journal.file.data, audit.file.data, tx)
            <==> end.result.Some? && ClosesTruly(c, begun, operation, tx, weather))
        && TaskIs(TaskOf(c, journal.file.data, tx), operation, weather.begin.now,
                  Lands(c, begun, StepOf(operation, tx, weather), weather.dispatch), weather.dispatch.now)
        && RecordsSay(c, audit.file.data, tx, operation, ToldOfBegun(c, codeOf, begun, operation, tx, weather))
        && (operation != "" && Calm(weather.audit) ==>
              (Accounted(c, journal.file.data, audit.file.data, tx)
               <==> ClosesTruly(c, begun, operation, tx, weather)))
    }

    method Start(p: Pid, operation: string, tx: TxId, t: Trial) returns (ok: bool)
      requires Valid() && At(p, Command(operation), Calling(Governance.Begin(tx), Reading))
      requires Clean(p) && operation != ""
      modifies this`run, journal.file
      ensures Valid() && old(run) <= run && (Clean(p) <==> ok)
      ensures At(p, Command(operation), if ok then Calling(Governance.Dispatch(tx), Reading) else Releasing(None))
      ensures journal.file.data == After(c, old(journal.file.data), BeginCall(tx, operation), t)
      ensures ok <==> Succeeds(c, old(journal.file.data), BeginCall(tx, operation), t)
      ensures Calm(t) ==> ok
    {
      WouldBeAccepted(p, Governance.Begin(tx), t.now);
      assert Now().journal == journal.file.data;
      assert CallOf(Command(operation), Governance.Begin(tx), t.now) == BeginCall(tx, operation);
      hide Run, LawfulCodecs, Decide, Fold, Lawful, Carried;
      var r, progress := journal.Begin(operation, Some(tx), t.now, t.readFault, t.fault);
      ok := r.Success?;
      CarriedAfter(c, old(journal.file.data), BeginCall(tx, operation), t, journal.file.data, progress, ok);
      FollowCall(p, Command(operation), Governance.Begin(tx), t, journal.file.data, progress, ok, "");
    }

    ghost predicate FreshId(id: Option<TxId>)
      reads journal.file
    {
      id.Some? ==>
        && id.value != ""
        && (Sound(c.events, journal.file.data) ==> id.value !in Transactions(c.events, journal.file.data))
    }

    /**
      A governed command. Every way through it is a run of the protocol; a caller who is told
      how the command ended finds it accounted for by one audit record that agrees with the
      journal; and when nothing but the command itself fails, the caller is told.
     */
    method Execute(p: Pid, operation: string, weather: Weather) returns (reply: Reply, ghost done: Option<TxId>)
      requires Valid() && p !in Now().procs
      requires FreshId(weather.newId) && (weather.acquired ==> Now().holder.None?)
      modifies this`run, journal.file, audit.file
      ensures Valid() && old(run) <= run && At(p, Command(operation), Stopped(done))
      ensures reply.NotLocked? <==> !weather.acquired
      ensures reply.NotLocked? ==>
        journal.file.data == old(journal.file.data) && audit.file.data == old(audit.file.data)
      ensures reply.Completed? || reply.CommandFailed? ==>
        && reply == Promised(weather) && done == weather.newId && done.Some?
        && Accounted(c, journal.file.data, audit.file.data, done.value)
      ensures reply.Completed? ==> IsCompleted(c, journal.file.data, done.value)
      ensures weather.acquired && Able(operation, weather) ==> reply.Completed? || reply.CommandFailed?
      ensures if weather.acquired && Ready(operation, weather)
        then Left(old(journal.file.data), old(audit.file.data), operation, weather, done)
        else done.None? && journal.file.data == old(journal.file.data) && audit.file.data == old(audit.file.data)
    {
      hide Run, LawfulCodecs, IsCompleted, Promised, Accounted, Left;
      Enter(p, Command(operation), weather.acquired);
      if !weather.acquired {
        return NotLocked, None;
      }
      reply, done := BeginAndRun(p, operation, weather);
      LetGo(p);
    }

    /** A process comes in by the lock, or turns away. */
    ghost method Enter(p: Pid, job: Job, acquired: bool)
      requires Valid() && p !in Now().procs && (acquired ==> Now().holder.None?)
      modifies this`run
      ensures Valid() && old(run) <= run && Clean(p)
      ensures At(p, job, if !acquired then Stopped(None) else if job.Command? then Preparing else Listing)
    {
      hide Run, LawfulCodecs;
      Follow(p, Action.Start(job));
      Follow(p, if acquired then Acquire else GiveUp);
    }

    /** Release gives the lock back and changes nothing else. */
    ghost method LetGo(p: Pid)
      requires Valid() && p in Now().procs && Now().procs[p].pc.Releasing?
      modifies this`run
      ensures Valid() && old(run) <= run
      ensures At(p, old(Now()).procs[p].job, Stopped(old(Now()).procs[p].pc.done))
      ensures Clean(p) <==> old(Clean(p))
      ensures Clean(p) && Now().procs[p].pc.done.Some? ==>
        Accounted(c, journal.file.data, audit.file.data, Now().procs[p].pc.done.value)
      ensures Clean(p) && Now().procs[p].job.Recovery? ==> NoneInProgress(c, journal.file.data)
    {
      if Clean(p) && Now().procs[p].job.Recovery? {
        RecoveryLeavesNothingInProgress(c, run, |run| - 1, p);
      }
      hide LawfulCodecs, NoneInProgress;
      Follow(p, Release);
      if Clean(p) && Now().procs[p].pc.done.Some? {
        CleanCommandIsSettled(c, run, |run| - 1, p);
      }
    }

    // -------------------------------------------------------------- startup recovery

    /**
      Startup recovery: interrupt and audit every transaction in progress, unless another
      process holds the lock. When it reports no error, exactly the transactions that were in
      progress are interrupted, each has gained one failed record, and nothing else has changed;
      on calm logs whose open transactions name their operations it reports none.
     */
    method RecoverInterruptedPending(p: Pid, acquired: bool, listFault: bool, trials: nat -> (Trial, Trial))
      returns (ok: bool)
      requires Valid() && p !in Now().procs
      requires acquired ==> Now().holder.None?
      modifies this`run, journal.file, audit.file
      ensures Valid() && old(run) <= run
      ensures !acquired ==> ok && journal.file.data == old(journal.file.data) && audit.file.data == old(audit.file.data)
      ensures acquired && ok ==> NoneInProgress(c, journal.file.data)
      ensures acquired && ok ==>
        && Sound(c.events, old(journal.file.data))
        && RecoveredSoFar(c, old(journal.file.data), old(audit.file.data), journal.file.data, audit.file.data,
                          InProgress(Transactions(c.events, old(journal.file.data))))
      ensures acquired && !listFault && AllCalm(trials) && OpenAreNamed(c, old(journal.file.data)) ==> ok
    {
      hide Run, LawfulCodecs, NoneInProgress, Accounted, RecoveredSoFar, AllCalm, OpenAreNamed;
      Enter(p, Recovery, acquired);
      if !acquired {
        return true;
      }
      ok := ListAndInterrupt(p, listFault, trials);
      LetGo(p);
    }

    method ListAndInterrupt(p: Pid, listFault: bool, trials: nat -> (Trial, Trial)) returns (ok: bool)
      requires Valid() && At(p, Recovery, Listing) && Clean(p)
      modifies this`run, journal.file, audit.file
      ensures Valid() && old(run) <= run && At(p, Recovery, Releasing(None)) && (Clean(p) <==> ok)
      ensures ok ==>
        && Sound(c.events, old(journal.file.data))
        && RecoveredSoFar(c, old(journal.file.data), old(audit.file.data), journal.file.data, audit.file.data,
                          InProgress(Transactions(c.events, old(journal.file.data))))
      ensures !listFault && AllCalm(trials) && OpenAreNamed(c, old(journal.file.data)) ==> ok
    {
      BothLogsRead();
      FiledById(c, journal.file.data);
      hide Run, LawfulCodecs, ListsInProgress, NextRecovery, InOrder, IsPending, RecoveredSoFar, AllCalm, TaskOf;
      var listed := journal.Pending(listFault);
      if listed.Failure? {
        Follow(p, ListPending(true, []));
        return false;
      }
      ghost var txs := Transactions(c.events, journal.file.data);
      PendingListed(listed.value, txs);
      ListedNames(c, journal.file.data, listed.value);
      hide OpenAreNamed;
      Follow(p, ListPending(false, OnlyInProgress(listed.value)));
      ok := InterruptAll(p, listed.value, trials);
    }

    /** Both logs read back, at every moment of a run. */
    lemma BothLogsRead()
      requires Valid()
      ensures Sound(c.events, journal.file.data) && ReadAudit(c.entries, audit.file.data).Success?
    {
      RunKeepsInv(c, run, |run| - 1);
    }

    /** The loop over the listed transactions; the first error ends it. */
    method InterruptAll(p: Pid, listed: seq<Tx>, trials: nat -> (Trial, Trial)) returns (ok: bool)
      requires Valid() && At(p, Recovery, NextRecovery(OnlyInProgress(listed))) && Clean(p) && Distinct(listed)
      requires forall tx :: tx in listed && tx.state == IN_PROGRESS ==>
        TaskOf(c, journal.file.data, tx.id).operation == tx.operation
      modifies this`run, journal.file, audit.file
      ensures Valid() && old(run) <= run && At(p, Recovery, Releasing(None)) && (Clean(p) <==> ok)
      ensures ok ==>
        RecoveredSoFar(c, old(journal.file.data), old(audit.file.data), journal.file.data, audit.file.data,
                       Ids(OnlyInProgress(listed)))
      ensures AllCalm(trials) && (forall tx :: tx in listed && tx.state == IN_PROGRESS ==> tx.operation != "") ==> ok
    {
      BothLogsRead();
      RecoveredNothing(c, journal.file.data, audit.file.data);
      hide Run, LawfulCodecs, RecoveredSoFar, Interrupts, TaskOf, NextRecovery, AllCalm, Valid, At, Clean;
      ghost var journal0, audit0, done := journal.file.data, audit.file.data, {};
      assert listed[0..] == listed;
      for i := 0 to |listed|
        invariant Valid() && old(run) <= run && Clean(p)
        invariant At(p, Recovery, NextRecovery(OnlyInProgress(listed[i..])))
        invariant done == Ids(OnlyInProgress(listed[..i]))
        invariant RecoveredSoFar(c, journal0, audit0, journal.file.data, audit.file.data, done)
      {
        assert listed[i..][0] == listed[i] && listed[i..][1..] == listed[i + 1..];
        ghost var rest := OnlyInProgress(listed[i + 1..]);
        assert OnlyInProgress(listed[i..]) == if listed[i].state == IN_PROGRESS then [listed[i]] + rest else rest;
        OneMoreId(listed, i);
        if listed[i].state == IN_PROGRESS {
          ghost var journal1, audit1 := journal.file.data, audit.file.data;
          var fine := InterruptOne(p, listed[i], OnlyInProgress(listed[i + 1..]), trials(i));
          if !fine {
            return false;
          }
          RecoveredOneMore(c, journal0, audit0, journal1, audit1, journal.file.data, audit.file.data,
            done, listed[i].id);
          done := done + {listed[i].id};
        }
      }
      assert listed[..|listed|] == listed;
      return true;
    }

    /** One transaction: interrupted, then recorded. */
    method InterruptOne(p: Pid, tx: Tx, rest: seq<Tx>, t: (Trial, Trial)) returns (ok: bool)
      requires Valid() && At(p, Recovery, NextRecovery([tx] + rest)) && Clean(p)
      modifies this`run, journal.file, audit.file
      ensures Valid() && old(run) <= run && (Clean(p) <==> ok)
      ensures At(p, Recovery, if ok then NextRecovery(rest) else Releasing(None))
      ensures ok ==>
        Interrupts(c, old(journal.file.data), old(audit.file.data), journal.file.data, audit.file.data, tx.id,
                   tx.operation)
      ensures Calm(t.0) && Calm(t.1) && tx.operation != "" ==> ok
    {
      RecoverLeads(tx, rest);
      BothLogsRead();
      StillOpen(p, tx, rest, t.0);
      assert journal.file != audit.file;
      ghost var journal0, audit0 := journal.file.data, audit.file.data;
      hide Run, LawfulCodecs, NextRecovery, EntryFor, Succeeds, After, Interrupts, AuditedInto, Acceptable, Known,
        Valid, Decide;
      var interrupted, code := JournalCall(p, Recovery, Recover(tx.id, tx.operation, rest), t.0);
      if interrupted {
        ok := AppendAudit(p, Recovery, tx.id, tx.operation, FAILED_RESULT, CODE_INTERRUPTED, rest, t.1);
        if ok {
          LawfulNow();
          InterruptsOne(c, journal0, audit0, journal.file.data, audit.file.data, tx.id, tx.operation, t.0, t.1);
        }
      } else {
        ok := false;
      }
    }

    lemma LawfulNow()
      requires Valid()
      ensures LawfulCodecs(c)
    {
    }

    /** The transaction recovery turns to next is in progress, so its interruption is accepted. */
    lemma StillOpen(p: Pid, tx: Tx, rest: seq<Tx>, t: Trial)
      requires Valid() && At(p, Recovery, Calling(Recover(tx.id, tx.operation, rest), Reading))
      ensures tx.id != "" && Known(c, journal.file.data, tx.id)
      ensures CallOf(Recovery, Recover(tx.id, tx.operation, rest), t.now)
           == StateCall(tx.id, INTERRUPTED, REASON_RECOVERED)
      ensures Calm(t) ==> Succeeds(c, journal.file.data, StateCall(tx.id, INTERRUPTED, REASON_RECOVERED), t)
    {
      var phase := Recover(tx.id, tx.operation, rest);
      WouldBeAccepted(p, phase, t.now);
      RunKeepsInv(c, run, |run| - 1);
      var v := ViewOf(c, Now());
      assert ProcGood(v.txs, v.records, v.procs[p]);
      assert tx.id in InProgress(v.txs);
    }

    /** A step that leaves both logs alone. */
    ghost method Follow(p: Pid, a: Action)
      requires Valid() && Enabled(c, Now(), p, a)
      requires || a.Start? || a.Acquire? || a.GiveUp? || a.Prepare?
               || a.CheckContext? || a.FinishInner? || a.ListPending? || a.Release?
      modifies this`run
      ensures Valid() && old(run) <= run && Now() == Next(c, old(Now()), p, a)
    {
      hide Run, LawfulCodecs, Decide;
      Take(p, a);
    }
  }

  /**
    The disagreement, carried out: on new logs, a setup whose commit reaches the disk but whose
    flush reports an error leaves a completed transaction with one record that says it failed.
   */
  method ReportedCommit(c: Codecs, codeOf: Error -> string) returns (commands: GovernedUseCases)
    requires LawfulCodecs(c)
    ensures commands.Valid() && commands.c == c
    ensures IsCompleted(c, commands.journal.file.data, "t")
    ensures Ends(c, commands.journal.file.data, commands.audit.file.data, "t", End(COMPLETED, Some(FAILED_RESULT)))
    ensures !Accounted(c, commands.journal.file.data, commands.audit.file.data, "t")
  {
    var calm := Trial(0, false, NoFault);
    var weather :=
      Weather(true, true, Some("t"), calm, calm, false, "", Succeeded, Trial(0, false, FlushFault), calm, calm);
    FirstBegin(c, "setup", "t", calm);
    ReportedCommitDisagrees(c, codeOf, After(c, [], BeginCall("t", "setup"), calm), [], "setup", "t", weather);
    commands := OnNewLogs(c, codeOf);
    hide Run, LawfulCodecs, Succeeds, After, BegunEnd, ClosesTruly, Fresh, Sound, Ends, IsCompleted, Accounted;
    var reply, done := commands.Execute(0, "setup", weather);
    EndMeans(c, commands.journal.file.data, commands.audit.file.data, "t");
  }

  lemma EndMeans(c: Codecs, journal: seq<byte>, audit: seq<byte>, tx: TxId)
    requires Ends(c, journal, audit, tx, End(COMPLETED, Some(FAILED_RESULT)))
    ensures IsCompleted(c, journal, tx) && !Accounted(c, journal, audit, tx)
  {
    EndsAccounted(c, journal, audit, tx, End(COMPLETED, Some(FAILED_RESULT)));
  }

  method OnNewLogs(c: Codecs, codeOf: Error -> string) returns (commands: GovernedUseCases)
    requires LawfulCodecs(c)
    ensures fresh(commands) && fresh(commands.journal.file) && fresh(commands.audit.file)
    ensures commands.Valid() && commands.c == c && commands.codeOf == codeOf && commands.run == [Init()]
    ensures commands.journal.file.data == [] && commands.audit.file.data == []
  {
    var events := new LogFile();
    var entries := new LogFile();
    var journal := new OperationJournal(c.events, events);
    var audit := new AuditLog(c.entries, entries);
    commands := new GovernedUseCases(c, journal, audit, codeOf, [Init()]);
  }

  // ---------------------------------------------------------------- what commands and recovery go by

  /** What the caller of a command is told when every record of it was persisted. */
  function Promised(weather: Weather): Reply {
    if weather.canceled then CommandFailed(weather.cancelCode) else Concluded(weather.outcome)
  }

  function Concluded(outcome: Outcome): Reply {
    match outcome
    case Succeeded => Completed
    case FailedWith(code) => CommandFailed(code)
    case CanceledWith(code) => CommandFailed(code)
  }

  /** The transactions recovery acts on, in the order they were listed. */
  function OnlyInProgress(listed: seq<Tx>): seq<Tx> {
    if listed == [] then []
    else (if listed[0].state == IN_PROGRESS then [listed[0]] else []) + OnlyInProgress(listed[1..])
  }

  lemma {:induction false} OnlyInProgressKeeps(listed: seq<Tx>)
    requires Distinct(listed)
    ensures forall tx :: tx in OnlyInProgress(listed) <==> tx in listed && tx.state == IN_PROGRESS
    ensures Distinct(OnlyInProgress(listed))
  {
    if listed == [] {
    } else {
      var first, later := listed[0], listed[1..];
      assert listed == [first] + later;
      assert Distinct(later);
      OnlyInProgressKeeps(later);
      var rest := OnlyInProgress(later);
      assert OnlyInProgress(listed) == (if first.state == IN_PROGRESS then [first] else []) + rest;
      hide OnlyInProgress;
      forall k | 0 <= k < |rest| ensures rest[k].id != first.id {
        assert rest[k] in later;
        var m :| 0 <= m < |later| && later[m] == rest[k];
        assert listed[m + 1] == rest[k];
      }
    }
  }

  /** The list Pending gives holds each transaction in progress once. */
  lemma PendingListed(listed: seq<Tx>, txs: Txs)
    requires InOrder(listed)
    requires forall tx :: tx in listed <==> tx.id in txs && txs[tx.id] == tx && IsPending(tx.state)
    requires forall id :: id in txs ==> txs[id].id == id
    ensures Distinct(listed) && ListsInProgress(OnlyInProgress(listed), txs)
  {
    forall i, j | 0 <= i < j < |listed| ensures listed[i].id != listed[j].id {
      NotLessItself(listed[i].id);
      assert listed[i] in listed && listed[j] in listed && Earlier(listed[i], listed[j]);
    }
    OnlyInProgressKeeps(listed);
  }

  /** Every append and every read goes well. */
  ghost predicate AllCalm(trials: nat -> (Trial, Trial)) {
    forall i :: Calm(trials(i).0) && Calm(trials(i).1)
  }

  /** The transactions in progress say what they were begun for. */
  ghost predicate OpenAreNamed(c: Codecs, journal: seq<byte>) {
    Sound(c.events, journal) ==>
      forall id :: id in Transactions(c.events, journal) && Transactions(c.events, journal)[id].state == IN_PROGRESS ==>
        Transactions(c.events, journal)[id].operation != ""
  }

  /** What the listing holds in progress is what the journal holds in progress. */
  lemma ListedNames(c: Codecs, journal: seq<byte>, listed: seq<Tx>)
    requires Sound(c.events, journal) && ListsInProgress(OnlyInProgress(listed), Transactions(c.events, journal))
    requires Distinct(listed)
    ensures Ids(OnlyInProgress(listed)) == InProgress(Transactions(c.events, journal))
    ensures OpenAreNamed(c, journal) ==> forall tx :: tx in listed && tx.state == IN_PROGRESS ==> tx.operation != ""
    ensures forall tx :: tx in listed && tx.state == IN_PROGRESS ==> TaskOf(c, journal, tx.id).operation == tx.operation
  {
    var txs, todo := Transactions(c.events, journal), OnlyInProgress(listed);
    FiledById(c, journal);
    OnlyInProgressKeeps(listed);
    hide OnlyInProgress, Fold, ReadJournal;
    forall id ensures id in Ids(todo) <==> id in InProgress(txs) {
      if id in InProgress(txs) {
        assert txs[id] in todo && txs[id].id == id;
      }
      if id in Ids(todo) {
        var tx :| tx in todo && tx.id == id;
        assert txs[tx.id] == tx;
      }
    }
  }

  lemma OneMoreId(listed: seq<Tx>, i: nat)
    requires i < |listed| && Distinct(listed)
    ensures listed[i].id !in Ids(OnlyInProgress(listed[..i]))
    ensures Ids(OnlyInProgress(listed[..i + 1]))
         == Ids(OnlyInProgress(listed[..i])) + if listed[i].state == IN_PROGRESS then {listed[i].id} else {}
  {
    OnlyInProgressKeeps(listed[..i]);
    OnlyInProgressKeeps(listed[..i + 1]);
    assert listed[..i + 1] == listed[..i] + [listed[i]];
  }

  lemma FiledById(c: Codecs, data: seq<byte>)
    ensures Sound(c.events, data) ==>
      forall id :: id in Transactions(c.events, data) ==> Transactions(c.events, data)[id].id == id
  {
    if Sound(c.events, data) {
      FoldKeepsIds(Events(c.events, data));
    }
  }

  // ---------------------------------------------------------------- single steps, spelled out

  /** What a journal method promises of its file and its result is what the spec says of the call. */
  lemma CarriedAfter(c: Codecs, before: seq<byte>, call: Call, t: Trial, after: seq<byte>, progress: Progress, ok: bool)
    requires t.readFault || Decide(c.events, before, call, t.now).Failure? ==> !ok && after == before
    requires !t.readFault ==> Carried(c.events, before, call, t.now, t.fault, after, progress, ok)
    ensures after == After(c, before, call, t) && (ok <==> Succeeds(c, before, call, t))
  {
  }

  lemma DispatchLeads(operation: string, tx: TxId, ok: bool, code: string)
    ensures AfterCall(Command(operation), Governance.Dispatch(tx), ok, code)
         == if ok then CheckingContext(tx) else Calling(Close(tx, FAILED, REASON_RECORD, code), Reading)
  {
  }

  lemma RecoverLeads(tx: Tx, rest: seq<Tx>)
    ensures NextRecovery([tx] + rest) == Calling(Recover(tx.id, tx.operation, rest), Reading)
    ensures forall ok, code ::
      AfterCall(Recovery, Recover(tx.id, tx.operation, rest), ok, code)
      == if ok then Auditing(EntryFor(tx.id, tx.operation, FAILED_RESULT, CODE_INTERRUPTED), rest, false)
         else Releasing(None)
    ensures forall ok ::
      AfterAudit(Recovery, EntryFor(tx.id, tx.operation, FAILED_RESULT, CODE_INTERRUPTED), rest, ok)
      == if ok then NextRecovery(rest) else Releasing(None)
  {
    assert ([tx] + rest)[1..] == rest;
  }

  lemma CloseLeads(operation: string, tx: TxId, state: string, reason: string, code: string)
    ensures forall ok, error ::
      AfterCall(Command(operation), Close(tx, state, reason, code), ok, error)
      == Auditing(EntryFor(tx, operation, FAILED_RESULT, code), [], false)
  {
  }

  lemma CommitLeads(operation: string, tx: TxId, ok: bool, code: string)
    ensures AfterCall(Command(operation), Commit(tx), ok, code)
         == if ok then Auditing(EntryFor(tx, operation, OK, ""), [], false)
            else Calling(Close(tx, FAILED, REASON_COMMIT, code), Reading)
  {
  }

  lemma AuditLeads(operation: string, tx: TxId, result: string, code: string, ok: bool)
    ensures AfterAudit(Command(operation), EntryFor(tx, operation, result, code), [], ok) == Releasing(Some(tx))
  {
  }

  lemma MovedTwice(w: World, p: Pid, between: Pc, pc: Pc, ok: bool)
    requires p in w.procs
    ensures var w' := Moved(w, p, between, true);
      && w'.journal == w.journal && w'.audit == w.audit
      && p in w'.procs && w'.procs[p].job == w.procs[p].job && w'.procs[p].pc == between
      && Moved(w', p, pc, ok) == Moved(w, p, pc, ok)
    ensures forall journal :: Moved(w.(journal := journal), p, pc, ok) == Moved(w, p, pc, ok).(journal := journal)
    ensures forall audit :: Moved(w.(audit := audit), p, pc, ok) == Moved(w, p, pc, ok).(audit := audit)
  {
  }

  lemma ReadingStep(c: Codecs, w: World, p: Pid, t: Trial, code: string)
    requires p in w.procs && w.procs[p].pc.Calling? && w.procs[p].pc.io.Reading?
    ensures Enabled(c, w, p, ReadJournalStep(t.readFault, t.now, code))
    ensures var proc := w.procs[p];
      var phase := proc.pc.phase;
      var decided := Decide(c.events, w.journal, CallOf(proc.job, phase, t.now), t.now);
      Next(c, w, p, ReadJournalStep(t.readFault, t.now, code))
      == if t.readFault || decided.Failure? then Moved(w, p, AfterCall(proc.job, phase, false, code), false)
         else Moved(w, p, Calling(phase, Trimming(decided.value)), true)
  {
    hide Decide, CallOf, AfterCall;
  }

  lemma TrimmingStep(c: Codecs, w: World, p: Pid, e: Event, progress: Progress, code: string)
    requires p in w.procs && w.procs[p].pc.Calling? && w.procs[p].pc.io == Trimming(e)
    ensures var a := TrimJournalStep(!progress.Untouched?, progress.Written?, code);
      var proc := w.procs[p];
      && Enabled(c, w, p, a)
      && var w' := Next(c, w, p, a);
      if progress.Written? then
        w' == Moved(w, p, Calling(proc.pc.phase, Appending(e)), true).(journal := Complete(w.journal))
      else
        w' == Moved(w, p, AfterCall(proc.job, proc.pc.phase, false, code), false)
          .(journal := Landed(w.journal, Record(c.events.encode(e)), progress))
  {
    hide AfterCall, Complete;
  }

  lemma AppendingStep(c: Codecs, w: World, p: Pid, e: Event, before: seq<byte>, count: nat, ok: bool, code: string)
    requires p in w.procs && w.procs[p].pc.Calling? && w.procs[p].pc.io == Appending(e) && w.journal == Complete(before)
    requires ok ==> Whole(c.events.encode(e), Written(count))
    ensures var a := AppendJournalStep(count, ok, code);
      && Enabled(c, w, p, a)
      && Next(c, w, p, a) == Moved(w, p, AfterCall(w.procs[p].job, w.procs[p].pc.phase, ok, code), ok)
           .(journal := Landed(before, Record(c.events.encode(e)), Written(count)))
  {
    LinesIgnoreTornTail(before);
    hide AfterCall, Complete, Lines;
  }

  lemma AuditTrimmingStep(c: Codecs, w: World, p: Pid, reached: Progress, now: int)
    requires p in w.procs && w.procs[p].pc.Auditing? && !w.procs[p].pc.trimmed
    ensures var a := TrimAuditStep(!reached.Untouched?, reached.Written?, now);
      var proc, pc := w.procs[p], w.procs[p].pc;
      && Enabled(c, w, p, a)
      && var w' := Next(c, w, p, a);
      if reached.Written? then
        w' == Moved(w, p, Auditing(pc.entry.(timestamp := now), pc.rest, true), true).(audit := Complete(w.audit))
      else
        w' == Moved(w, p, AfterAudit(proc.job, pc.entry, pc.rest, false), false).(audit := Landed(w.audit, [], reached))
  {
    hide AfterAudit, Complete;
  }

  lemma AuditAppendingStep(c: Codecs, w: World, p: Pid, before: seq<byte>, count: nat, ok: bool)
    requires p in w.procs && w.procs[p].pc.Auditing? && w.procs[p].pc.trimmed && w.audit == Complete(before)
    requires ok ==> Whole(c.entries.encode(w.procs[p].pc.entry), Written(count))
    ensures var a, pc := AppendAuditStep(count, ok), w.procs[p].pc;
      && Enabled(c, w, p, a)
      && Next(c, w, p, a) == Moved(w, p, AfterAudit(w.procs[p].job, pc.entry, pc.rest, ok), ok)
           .(audit := Landed(before, Record(c.entries.encode(pc.entry)), Written(count)))
  {
    LinesIgnoreTornTail(before);
    hide AfterAudit, Complete, Lines;
  }
}
