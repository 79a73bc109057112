# PMux engines, modelled and proved

PMux manages a local proxy. Most of it is command plumbing; under that sit several engines whose
correctness is hard to see from their code. This project models those engines and proves what
they are for, for every input, every run and every point at which a process may die.

| files | engine |
|---|---|
| `LineLog`, `Journal`, `Audit` | append-only logs with torn-tail repair, the event journal and its fold, the audit log |
| `Governance`, `GovernanceSafety`, `GovernanceTheorems` | governed mutations by any number of processes over one lock, one journal, one audit log |
| `GovernedCommands`, `CommandEnds` | the command and the startup recovery as the code runs them, each tied to a run of that protocol; what a command leaves in both logs, and exactly when they agree |
| `Graph`, `Doctor`, `DoctorRun`, `Fixes` | the doctor's dependency graph, check selection, the run, the fix transaction |
| `YamlTree`, `YamlNodes` | setting and removing paths: the laws on trees, and the nodes rewritten in place |
| `ConfigEdit`, `ConfigPlan`, `ConfigCommit` | diff and patch of config.yaml, the plan on nodes, the commit with rollback |
| `CommandLine` | the Windows command-line splitter and the quoting it undoes |
| `LogRetention` | service logs read with bounded memory |
| `StateStore` | saving with backups, pruning, recovery of a corrupt document |
| `LoginPolling` | the OAuth polling clock |
| `Catalog` | aggregation of the model catalog |
| `Strings`, `Wrappers` | string order; optional values and results |

Code that changes things step by step is imperative here too: the log file, the journal and the
audit log, the governed use cases, the dependency registry, the two depth-first searches, the fix
runner, the YAML nodes, the config file, the state store, the login session and the discovery of
models are classes or loops, each proved against a function or a predicate about which the laws
are then proved.

## How the parts fit

*Logs.* A byte log is read as its terminated lines (`LineLog.Lines`). One law, `LineLog.AppendLaw`,
covers every append: whatever torn tail it finds and however far it gets, readers see the old lines,
and the new one exactly when it landed whole. The block scans are loops over 4096-byte blocks proved
to cut at the byte after the last newline.

*Protocol.* `Governance` is a transition system. A step is one file operation or one decision; between
any two steps another process may run, and any process may die after any prefix of the bytes it was
appending. An append that reports an error may have landed whole, in part, or not at all. The
invariant `GovernanceSafety.Inv` holds in every world of every run (`RunKeepsInv`), and the theorems
in `GovernanceTheorems` follow from it. `GovernedCommands` then runs the real sequence of calls on the
journal and audit objects and keeps a run of the transition system beside the files, so that the
theorems apply to what `Execute` and `RecoverInterruptedPending` leave on disk.

*Documents.* The lens laws are proved about functions on trees; the methods on nodes are proved to
compute those functions, with their ownership of nodes tracked by a ghost set.

## Where the code and its documentation part

- Command lines: the parser is documented to follow CommandLineToArgvW (line 169 of
  service_windows_common.go). Outside quotes it consumes the character after a run of backslashes
  without looking whether it is a blank, so two arguments such as `C:\dir\` and `x`, written bare, come
  back as one. `CommandLine.ParseUndoesQuoting` gives the exact condition under which parsing undoes
  quoting, and `CommandLine.BackslashSwallowsBlank` a concrete failing line.
- Registering prerequisites: a registration refused at an unknown or self prerequisite keeps the edges
  before it and never looks for a cycle. It leaves a cyclic graph exactly when the graph was cyclic before
  or one of the kept prerequisites already reaches the check (`Graph.AddingClosesCycle`, and the contract of
  `RegisterPrerequisites`); `Doctor.RejectionMayLeaveCycle` is a concrete case. A registration that returns
  without error leaves the graph acyclic, and one refused for its cycle restores the previous graph.
- Committing config.yaml: a write that fails after the rename, followed by a read-back that fails, leaves the
  candidate in place while only a failed write is reported; a rollback that cannot write leaves it too, and
  says so. A commit that came past its checks and its backup holds the candidate exactly when it succeeded or
  `ConfigCommit.ConfigFile.LeftBehind` holds of the faults it met; `ConfigCommit.SilentlyLeftBehind` carries
  out the silent case.
- Governed commands: when a commit reports an error although its record landed, the audit record says
  failed while the journal says completed; `GovernedCommands.ReportedCommit` carries such a command out.
  `CommandEnds.CommandsAgreeExactly` says for every way a command can go whether journal and audit log agree;
  with the audit log and the last resort calm, a succeeded command disagrees exactly when its commit was
  misreported in this way. That an `ok` record is never wrong is proved without any such condition
  (`OkMeansCompletedForever`).
- Bounded log retention loses newer entries when a source is not in time order:
  `LogRetention.LateOlderEntryHidesNewer`. With every source in time order it shows what keeping everything
  would show, entry for entry. In general it loses nothing newer exactly when whatever a bucket dropped is
  outnumbered by merged entries at least as new (`LogRetention.NothingNewerLostExactly`).

## Model

| member | source | states |
|---|---|---|
| LineLog.AppendLaw | internal/journal/journal.go:313-356 | After any append, complete or torn at any byte, over any torn tail, the terminated lines are the old ones plus the new one exactly when it landed with its newline |
| LineLog.LinesIgnoreTornTail | internal/journal/journal.go:275-311 | Cutting the torn tail off changes no line a reader sees |
| LineLog.LogFile.TrimTornTail | internal/journal/journal.go:358-412 | The backward scan in 4096-byte blocks cuts the file at exactly the byte after its last newline, or to nothing, at every length; a scan error changes nothing |
| LineLog.LogFile.TrimPartialLine | internal/adapter/fs/jsonl.go:14-68 | The second shape of the scan, ended by the position it found, leaves the same bytes and reports the same errors as the first |
| LineLog.LogFile.AppendRecord | internal/journal/journal.go:313-356 | Trim, open, write and flush in order; how far the record gets and whether success is reported are determined by the fault and the old bytes, and success means the whole record landed, the file then being the old complete lines, the payload and one byte 10 |
| LineLog.NextLine | internal/journal/journal.go:275-311 | Each forward read yields the next terminated line, and what is left unterminated at the end is no line |
| Journal.SequencesAreContiguous | internal/journal/journal.go:275-311 | Whatever the reader accepts is numbered 1, 2, 3 and on, modulo 64 bits, line by line |
| Journal.AppendedEvent | internal/journal/journal.go:313-356 | An event that follows what was read, appended in any state of completion, leaves a journal that reads as before plus that event exactly if it landed whole |
| Journal.CallKeepsSound | internal/journal/journal.go:82-157 | A begin, step or state change decided on a journal keeps it readable and foldable however its append ends, and changes the transactions by exactly its effect or not at all |
| Journal.UnlockedAppendsCorrupt | internal/journal/journal.go:212-217 | Two processes that read the same journal and then both append leave a journal every reader refuses: the lock must span read and append |
| Journal.FoldKeepsIds | internal/journal/journal.go:234-273 | Folding files every transaction under its own id |
| Journal.FoldEvents | internal/journal/journal.go:234-273 | The loop over the events computes the fold, stopping at the first event that does not fit |
| Journal.OperationJournal.ReadEvents | internal/journal/journal.go:275-311 | The line-by-line reader accepts exactly what decodes with the right version, the next sequence number and an id, and skips a torn tail |
| Journal.OperationJournal.Begin | internal/journal/journal.go:82-105 | Refuses without touching the file, or appends exactly one event of version 1 and kind begin, numbered one past the events before, with the operation, its id and state in_progress; the journal then has that transaction, without steps, besides the old ones |
| Journal.OperationJournal.RecordStep | internal/journal/journal.go:107-125 | Refuses a transaction that is not pending without touching the file, else appends exactly one event of kind step with that step, and the transaction has that step added |
| Journal.OperationJournal.Commit | internal/journal/journal.go:127-129 | Success means exactly one event of kind state was appended and the transaction is completed in the file, everything else as before |
| Journal.OperationJournal.SetState | internal/journal/journal.go:135-157 | Closing a transaction appends exactly one event of kind state with that state and reason, or refuses and changes nothing |
| Journal.OperationJournal.Change | internal/journal/journal.go:107-157 | The common shape of step and state change: soundness is kept and a success changes the transactions by exactly the call's effect |
| Journal.OperationJournal.Pending | internal/journal/journal.go:159-183 | Exactly the transactions whose state is in_progress, failed or interrupted, ordered by begin time and then id; fails exactly on a journal that does not read or fold |
| Journal.DecidedSays | internal/journal/journal.go:82-157 | The event a call appends carries version 1, the number after the last, the kind, and what was asked for and nothing else |
| Journal.InsertByAge | internal/journal/journal.go:159-183 | The listing stays ordered and gains exactly the new transaction |
| Audit.AppendedEntry | internal/audit/audit.go:179-217 | An audit append in any state of completion costs no older record and adds its own exactly if it landed whole |
| Audit.AuditLog.Append | internal/audit/audit.go:112-142 | Refuses an incomplete record or an unknown result without touching the file; else the log gains the stamped record exactly if it landed whole, whatever was reported |
| Audit.AuditLog.Entries | internal/audit/audit.go:144-177 | The reader returns the decoded complete lines and refuses a line that does not decode or has another version |
| GovernanceSafety.HolderMoves | internal/runtime/governance.go:143-204 | A step of the lock holder that changes only transactions it works on keeps the protocol invariant for all processes |
| GovernanceSafety.LandedCall | internal/runtime/governance.go:143-250 | A journal call that may have landed, reported as success or failure, sends its process only where the invariant allows |
| GovernanceSafety.StepKeepsInv | internal/runtime/governance.go:107-250 | Every step of every process, crashes included, keeps the invariant |
| GovernanceSafety.RunKeepsInv | internal/runtime/governance.go:107-250 | The invariant holds in every world of every run of any number of processes |
| GovernanceTheorems.JournalNeverCorrupt | internal/journal/journal.go:275-311 | In every world of every run both logs read back, the journal is numbered 1, 2, 3 and on, and folds without corruption |
| GovernanceTheorems.OnlyHolderWrites | internal/adapter/lock/lock.go:81-145 | A process that does not hold the lock changes no byte of either log and no other process |
| GovernanceTheorems.StepExtendsHistory | internal/journal/journal.go:313-356 | No step loses or reorders an event or an audit record |
| GovernanceTheorems.RunExtendsHistory | internal/journal/journal.go:313-356 | The histories of an earlier world are prefixes of those of every later world |
| GovernanceTheorems.ClosedForever | internal/journal/journal.go:219-232 | A transaction whose state is completed or rolled_back is the same in every later world of the run |
| GovernanceTheorems.OkMeansCompletedForever | internal/runtime/governance.go:182-203 | Whenever an audit record says ok, its transaction is completed, then and in every later world |
| GovernanceTheorems.DispatchIsGoverned | internal/runtime/governance.go:143-182 | While the inner command runs, its process holds the lock, its begin and step events are durable, its transaction is in progress and unaudited, and nobody else is inside the protocol |
| GovernanceTheorems.CleanCommandIsSettled | internal/runtime/governance.go:143-250 | Of a stopped command none of whose log calls failed exactly one audit record names its transaction, and that record says ok beside a completed transaction, or failed beside a failed or interrupted one |
| GovernanceTheorems.CleanCommandReleasesSettled | internal/runtime/governance.go:143-250 | Such a command never releases the lock without a transaction to account for |
| GovernanceSafety.SettledExactly | internal/runtime/governance.go:241-250 | A transaction is settled exactly when a single record of the whole audit log names it and its result fits the final state |
| GovernanceTheorems.RecoveryLeavesNothingInProgress | internal/runtime/governance.go:107-141 | After an error-free recovery no transaction is in progress |
| GovernanceTheorems.RecoveryOnlyInterruptsOrphans | internal/runtime/governance.go:107-141 | A step of recovery adds no transaction and changes none, except that under the lock it may turn one that is in progress into an interrupted one |
| CommandEnds.CallLeaves | internal/journal/journal.go:82-157 | A journal call changes the transactions by its effect exactly when it succeeds or misreports, and not at all otherwise |
| CommandEnds.CommittedAgreesExactly | internal/runtime/governance.go:182-203 | A succeeded command's logs agree exactly when its record landed and its commit succeeded, or did not land and was closed as failed; an unlanded close leaves it in progress |
| CommandEnds.OnlyMisreportedCommitsDisagree | internal/runtime/governance.go:182-203 | With a calm last resort and audit log, the logs disagree exactly when the commit landed but reported an error, and then completed stands against failed |
| CommandEnds.CommandsAgreeExactly | internal/runtime/governance.go:143-250 | Over all ways a begun command can go, journal and audit log agree exactly when the record landed and the last journal calls closed the command truly |
| CommandEnds.ReportedCommitDisagrees | internal/runtime/governance.go:182-203 | A commit whose flush alone fails leaves the transaction completed and its one record failed |
| GovernedCommands.ReportedCommit | internal/runtime/governance.go:182-203 | That disagreement carried out on new logs: completed in the journal, one record, and it says failed |
| GovernedCommands.GovernedUseCases.Execute | internal/runtime/governance.go:143-204 | Every path through a governed command is a run of the protocol; both logs end as the faults it met determine, and agree exactly when the record landed and the last journal calls closed the command truly, or, with a calm audit log, exactly on the latter; a caller told how the command ended finds one agreeing record, and if nothing but the command fails, the caller is told; the record names the command, the user local and the kind of thing the command changes, with no code when it says ok and the failure's own code otherwise; the journal has the command, its begin time and its dispatch step with that target |
| GovernedCommands.GovernedUseCases.Dispatch | internal/runtime/governance.go:170-204 | From the dispatch record to the release, the reply is what the outcome promises exactly when no log call failed, and the logs end as the faults determine |
| GovernedCommands.GovernedUseCases.Finish | internal/runtime/governance.go:182-203 | Completed is reported exactly when commit and audit both persisted, and then the journal says so; with a calm last resort and audit log, the two logs agree exactly unless the commit was misreported; a record that landed says ok without a code, or failed with the code of the commit's error |
| GovernedCommands.GovernedUseCases.PersistFailure | internal/runtime/governance.go:206-250 | A failed command is closed and audited even if the close fails; the final state and record are determined by which of the two landed, and success means both persisted; the record that landed carries the command, its target and the code given |
| GovernedCommands.GovernedUseCases.JournalCall | internal/journal/journal.go:107-157 | The file afterwards and the reported success are determined by the call and its trial, and what happened is a sequence of protocol steps |
| GovernedCommands.GovernedUseCases.AppendAudit | internal/runtime/governance.go:241-250 | The log gains exactly the record that landed, which names transaction, command, target, result and code each in its own place; what happened is a sequence of protocol steps |
| GovernedCommands.GovernedUseCases.RecoverInterruptedPending | internal/runtime/governance.go:107-141 | Recovery is a run of the protocol; behind a busy lock it changes nothing; when it reports no error, exactly the transactions that were in progress are interrupted, each has gained exactly one record, which names its own operation and target and says failed with the code interrupted, and every other one and its records are as before; on calm logs with named operations it reports none |
| GovernedCommands.GovernedUseCases.InterruptAll | internal/runtime/governance.go:123-139 | The loop over the listed transactions interrupts and records exactly those in progress, ends at the first error, and meets none on calm logs |
| GovernedCommands.GovernedUseCases.InterruptOne | internal/runtime/governance.go:128-138 | One transaction is interrupted in the journal and recorded once, under its own operation and target, as failed with the code interrupted, or an error is reported |
| CommandEnds.AuditedSays | internal/runtime/governance.go:241-250 | After an audit append at most the one record it wrote names the transaction, and its version, user, command, target, result and code stand in their own fields |
| CommandEnds.TaskLeft | internal/runtime/governance.go:159-181 | A begun transaction carries its operation and begin time, and exactly when its step landed the one step dispatch with action execute and the target |
| CommandEnds.InterruptsOne | internal/runtime/governance.go:128-138 | An interruption and an audit append that succeeded change one transaction's state and add one record, and nothing else |
| CommandEnds.RecoveredOneMore | internal/runtime/governance.go:123-139 | Each turn of recovery adds exactly its transaction to those interrupted and recorded, and keeps all others as they were |
| GovernedCommands.PendingListed | internal/runtime/governance.go:119-127 | The listing, cut to what is in progress, names each such transaction exactly once |
| GovernedCommands.OnlyInProgressKeeps | internal/runtime/governance.go:123-127 | Skipping history keeps exactly the transactions in progress, without repetition |
| Graph.TopologicalMeansAcyclic | internal/adapter/doctor/doctor.go:398-437 | A duplicate-free list in which every check follows its prerequisites holds no check on a cycle and is closed under reachability |
| Graph.PathDescends | internal/adapter/doctor/doctor.go:398-437 | Walking prerequisites inside such a list moves strictly toward its front |
| Graph.StackCloses | internal/adapter/doctor/doctor.go:298-324 | A search that meets a check on its own stack has found a cycle |
| Graph.ReplacingClosesCycle | internal/adapter/doctor/doctor.go:260-289 | Replacing one check's prerequisites in an acyclic graph closes a cycle exactly when a new one already reaches the check |
| Graph.AddingClosesCycle | internal/adapter/doctor/doctor.go:260-289 | Adding prerequisites leaves a cyclic graph exactly when it was cyclic or an added one already reaches the check |
| Doctor.CycleSearch.Visit | internal/adapter/doctor/doctor.go:298-324 | The depth-first closure ends, reports only real cycles, and otherwise has visited the check with its visiting set restored |
| Doctor.Registry.HasDependencyCycle | internal/adapter/doctor/doctor.go:298-324 | Returns true exactly when the prerequisite relation has a directed cycle |
| Doctor.Registry.RegisterCheck | internal/adapter/doctor/doctor.go:234-244 | Registers a new nonblank id at the end of the list and refuses every other, changing nothing else |
| Doctor.Registry.RegisterFix | internal/adapter/doctor/doctor.go:246-258 | A fix is registered at most once and only for a registered check |
| Doctor.Registry.AppendEdges | internal/adapter/doctor/doctor.go:267-283 | The loop keeps exactly the new edges before the first refused prerequisite |
| Doctor.Registry.RegisterPrerequisites | internal/adapter/doctor/doctor.go:260-289 | A nil return means the whole graph is acyclic; after the loop, a cycle is rejected, and the previous edges restored, exactly when the graph was cyclic or a new prerequisite already reaches the check; after an early refusal the graph is cyclic exactly under that condition for the edges kept |
| Doctor.RejectionMayLeaveCycle | internal/adapter/doctor/doctor.go:272-283 | A concrete refused registration that turns an acyclic graph cyclic |
| DoctorRun.Selection.Include | internal/adapter/doctor/doctor.go:398-437 | One inclusion ends, adds only what the check needs, keeps the list topological, and fails only with a reason reachable from the check |
| DoctorRun.SelectChecks | internal/adapter/doctor/doctor.go:398-437 | Succeeds exactly when no unknown check and no cycle is reachable from the roots; the result has no duplicates, is exactly the prerequisite closure, and lists each check after its prerequisites, the closure of the first roots before anything only later roots need |
| DoctorRun.FailedPrerequisite | internal/adapter/doctor/doctor.go:439-447 | Names a direct prerequisite that is unobserved, failed or skipped, if and only if there is one |
| DoctorRun.RunChecks | internal/adapter/doctor/doctor.go:367-396 | One result for each check selected from those asked for, or from all registered ones when none is, each body run exactly when all direct prerequisites are healthy; a body of known status and severity that is no critical warning is reported with both unchanged, any other as a critical fail, and a check that did not run as skip; the summary counts these, with exit code 7 exactly when a result is fail |
| DoctorRun.RunsIffPrerequisitesHealthy | internal/adapter/doctor/doctor.go:367-396 | A body runs exactly when every transitive prerequisite reported pass or warn, and reports skip otherwise |
| DoctorRun.Summarize | internal/adapter/doctor/doctor.go:449-468 | The counts are the numbers of results by status and of critical failures; exit code 7 exactly when some result is fail, else 0 |
| DoctorRun.Normalized | internal/adapter/doctor/doctor.go:470-503 | A result of known status and severity that is no critical warning keeps both, every other becomes a critical fail; each carries the check's own id |
| Fixes.SelectFixes | internal/adapter/doctor/fix.go:130-162 | Exactly the requested checks, or all when none is requested, that were observed to fail and have a fix, in registration order; fails exactly when one of them cannot be rolled back |
| Fixes.FixRunner.Rollback | internal/adapter/doctor/fix.go:182-197 | Rolls every attempted fix back exactly once, last first, past failing rollbacks, and reports an undo failure exactly when some rollback failed; if none fails and each undoes its fix, the world is as before |
| Fixes.FixRunner.ApplyLoop | internal/adapter/doctor/fix.go:87-117 | Success means every fix in the list was attempted, verified and its check seen to pass, or its check was seen not to fail; an error exit names where it stopped and why (canceled, unable to look, or a fix that was needed and fell), and rolls back exactly the attempted fixes, the failing one included, in reverse |
| Fixes.FixRunner.ApplyFix | internal/adapter/doctor/fix.go:95-115 | A fix counts as healthy exactly when it succeeded, was verified and its check was then seen to pass |
| Fixes.HandledFixes | internal/adapter/doctor/fix.go:87-116 | A healthy fix extends what the loop has dealt with and keeps what was proven before it |
| Fixes.FixRunner.Run | internal/adapter/doctor/fix.go:45-123 | Nothing is applied unless every preview succeeded and the user agreed; success and every error exit mean what they mean for the apply loop, and an undone transaction leaves the world equal to the start; nothing selected, a fix without rollback, a failed preview and a declined confirmation are told apart |
| YamlTree.RejectDuplicateKeys | internal/adapter/configfile/configfile.go:367-389 | Accepts exactly the trees in which no mapping at any depth repeats a key |
| YamlTree.SetThenLookup | internal/adapter/configfile/configfile.go:680-720 | After a successful set the path reads the value, up to the quoting style a scalar keeps |
| YamlTree.SetReadsBack | internal/adapter/configfile/configfile.go:698-715 | Exactly what is read back: a scalar set over a scalar has the new tag and value, with the old style if the tag stayed and the new one otherwise; anything else is the value as given |
| YamlTree.SetFrame | internal/adapter/configfile/configfile.go:680-720 | A set, successful or not, changes nothing at any incomparable path |
| YamlTree.SetFailsExactly | internal/adapter/configfile/configfile.go:680-720 | A set fails exactly on an unrepresentable value or on something other than a mapping at a proper prefix |
| YamlTree.SetKeepsDuplicateFree | internal/adapter/configfile/configfile.go:680-720 | A set introduces no duplicate key |
| YamlTree.SetKeepsKeyOrder | internal/adapter/configfile/configfile.go:680-720 | Every mapping not replaced keeps its keys in order, with at most the path's own next key added at the end |
| YamlTree.RemoveThenLookup | internal/adapter/configfile/configfile.go:722-736 | On a duplicate-free tree a removed path is gone, removal succeeds exactly when it was there, and the tree stays duplicate-free |
| YamlTree.RemoveFrame | internal/adapter/configfile/configfile.go:722-736 | A removal changes nothing at any incomparable path |
| YamlTree.RemoveKeepsKeyOrder | internal/adapter/configfile/configfile.go:722-736 | Every mapping keeps its key order, and only the parent loses exactly the removed key |
| YamlTree.RemoveUndoesSet | internal/adapter/configfile/configfile.go:680-736 | Setting an absent key of an existing mapping and removing it gives the same tree back |
| YamlNodes.Node.MappingEntry | internal/adapter/configfile/configfile.go:671-678 | The first key in the alternating content that equals the key, or none |
| YamlNodes.Node.LookupPath | internal/adapter/configfile/configfile.go:659-669 | The walk ends at the node of the tree at the path, and at nil exactly when there is none |
| YamlNodes.Node.SetPath | internal/adapter/configfile/configfile.go:680-720 | Rewriting the nodes in place makes the tree what the set law says, mappings created on a failing way included, and keeps the nodes a tree without sharing |
| YamlNodes.Node.PutValue | internal/adapter/configfile/configfile.go:698-715 | A scalar over a scalar is rewritten in place and keeps its style while the tag stays; anything else takes the new node |
| YamlNodes.Node.EnsureEntry | internal/adapter/configfile/configfile.go:682-695 | A missing mapping on the way is appended as the last entry and nothing else changes |
| YamlNodes.Node.RemovePath | internal/adapter/configfile/configfile.go:722-736 | Cutting the key and its value out of the alternating content makes the tree what the removal law says |
| YamlNodes.Build | internal/adapter/configfile/configfile.go:738-751 | New nodes that stand for exactly the given tree and share nothing |
| YamlNodes.Node.Read | internal/adapter/configfile/configfile.go:753-764 | Reading the nodes gives back the tree they stand for |
| ConfigEdit.PutsDecode | internal/adapter/configfile/configfile.go:391-435 | Decoding after a list of puts is the decoded start with each put's field replaced, in order |
| ConfigEdit.DifferenceLeads | internal/runtime/config_edit.go:190-211 | Replaying the difference of two configurations on the first gives all six fields of the second |
| ConfigEdit.PutsFrame | internal/adapter/configfile/configfile.go:115-173 | Patching changes nothing at any path incomparable with the patched ones |
| ConfigEdit.DiffThenPatch | internal/runtime/config_edit.go:190-211 | The plan for the difference is accepted exactly when the target has a port from 1 to 65535, an auth directory that is not blank and is absolute or starts with ~/, local management, and keys of which none is a template; the patched document then decodes to the target, has no duplicate key and is framed |
| ConfigEdit.DecodesWhen | internal/adapter/configfile/configfile.go:391-435 | A document decodes exactly when the six paths that are present hold text, a port in range, flags and a list of keys |
| ConfigEdit.DecodesTo | internal/adapter/configfile/configfile.go:391-435 | Each field is what its own path holds, and empty, zero, off or local when the path is absent |
| ConfigEdit.DifferenceSays | internal/runtime/config_edit.go:190-211 | The difference puts the new value of each field that changed, once, and touches no other |
| ConfigPlan.PlanInPlace | internal/adapter/configfile/configfile.go:115-173 | Applying the operations to the nodes one after the other, then decoding and checking, accepts and yields exactly what the plan on trees does; an accepted plan decodes to a port from 1 to 65535, an auth directory that is not blank and is absolute or starts with ~/, local management, and keys of which none is a template, and the error of a refused one is that of the first rule broken |
| ConfigCommit.ConfigFile.RestorePrior | internal/adapter/configfile/configfile.go:331-343 | Success means the prior bytes are back; the file holds them unless the write stopped before its rename |
| ConfigCommit.ConfigFile.Apply | internal/adapter/configfile/configfile.go:204-276 | Commits exactly when the candidate is valid, the file is still the planned one and every call succeeds; past the checks and the backup the file holds the candidate exactly on success or when it is left behind, with the exact error reported; before them nothing changes; what is committed decodes to a port from 1 to 65535, an auth directory that is not blank and is absolute or starts with ~/, local management, and keys of which none is a template, and a candidate that does not is refused with the first rule it breaks |
| ConfigCommit.ConfigFile.PlanEdit | internal/runtime/config_edit.go:141-175 | A confirmed edit is planned exactly when it may be committed, and the planned bytes mean what the edited copy meant, which meets each rule of the policy; the first reason of a refusal is told |
| ConfigCommit.ConfigFile.CommitEdit | internal/runtime/config_edit.go:141-181 | Commits exactly an edit that changes a field, means a port from 1 to 65535, an auth directory that is not blank and is absolute or starts with ~/, local management, and keys of which none is a template, and was opened on the present bytes; committed or left behind, the file means what the edited copy meant with every other path as before, and otherwise it is unchanged; every failure has its reason, an unreadable file or copy, nothing changed, a refused plan, no consent, a changed file, or the fault of the commit |
| ConfigCommit.SilentlyLeftBehind | internal/adapter/configfile/configfile.go:241-250 | A concrete commit that reports no more than a failed write and leaves its candidate in place |
| CommandLine.ParseCommandLine | internal/adapter/discovery/service_windows_common.go:172-225 | The nested loops end on every input and compute the documented reading of it |
| CommandLine.TakeTurn | internal/adapter/discovery/service_windows_common.go:185-218 | One turn reads a run of backslashes and what follows by the 2n and 2n + 1 rules |
| CommandLine.ReadEscaped | internal/adapter/discovery/service_windows_common.go:169-171 | Inside quotes the reader undoes the documented escaping of every string |
| CommandLine.ReadQuotedDoubled | internal/adapter/discovery/service_windows_common.go:185-218 | An argument whose quotes are doubled instead, behind twice their backslashes, is read back too |
| CommandLine.OnlyBlanksPart | internal/adapter/discovery/service_windows_common.go:172-225 | A space or a tab between two plain words parts them; any other character, a line break included, makes them one argument |
| CommandLine.ParseUndoesQuoting | internal/adapter/discovery/service_windows_common.go:169-225 | For every list of strings, quoting, joining and parsing gives the list back exactly when no argument written bare ends in a backslash before a blank; always when every argument is quoted |
| CommandLine.BackslashSwallowsBlank | internal/adapter/discovery/service_windows_common.go:185-218 | A concrete line of two bare arguments that is read as something else |
| LogRetention.Retain | internal/app/router.go:1014-1040 | Line after line, each source's bucket holds exactly its last accepted lines |
| LogRetention.Merge | internal/app/router.go:1108-1115 | The buckets are concatenated, each source once, in the order of the map |
| LogRetention.ReadLogs | internal/app/router.go:1014-1115 | The output holds only accepted entries, is sorted by time and exactly as long as the smaller of the limit and the number accepted; with every source in time order it is what keeping everything would show; every line shown is made of a delivered line whose level is the one asked for and whose time is known and not before the limit asked for |
| LogRetention.AcceptedExactly | internal/app/router.go:1014-1023 | What is accepted are the lines of the level asked for with a known time not before the limit, line for line; a line without a time gets the time of reading |
| LogRetention.ShownIsSortedAndFull | internal/app/router.go:1108-1115 | Bounded buckets cost no line: the output has as many entries as keeping everything would give |
| LogRetention.OmittedIsNotNewer | internal/app/router.go:1014-1115 | If each source is in time order, no accepted entry left out is newer than any entry shown |
| LogRetention.ShownWasAccepted | internal/app/router.go:1014-1115 | Everything shown was accepted, and is shown no more often than it was accepted |
| LogRetention.ShownAgreesWithKeepingAll | internal/app/router.go:1014-1115 | With every source in time order the output is, entry for entry, the one that sorting everything accepted and cutting once would give |
| LogRetention.NothingNewerLostExactly | internal/app/router.go:1014-1115 | In time order or not, nothing newer is lost exactly when whatever a bucket dropped is outnumbered by merged entries at least as new |
| LogRetention.SortWithout | internal/app/router.go:1108-1115 | Taking one entry out of a list takes it out of the sorted list, with everything later and as new behind it |
| LogRetention.NewerIsKept | internal/app/router.go:1014-1040 | While fewer than the limit of merged entries are as new as an entry, its source's bucket has dropped no copy of it |
| LogRetention.MergedAll | internal/app/router.go:1108-1115 | With nothing cut, the buckets together are a permutation of what was accepted |
| LogRetention.LateOlderEntryHidesNewer | internal/app/router.go:1014-1040 | A concrete source out of time order that loses its newest entry |
| StateStore.Rank | internal/state/store.go:296-324 | The backup at a place of the descending listing has exactly that many newer ones |
| StateStore.DoomedAreNotKept | internal/state/store.go:296-324 | The names past the tenth of the descending listing are exactly those with ten or more newer ones |
| StateStore.WithoutDoomed | internal/state/store.go:296-324 | Whatever part of the doomed names is already gone, the ten newest are there unchanged |
| StateStore.Store.BackupCurrent | internal/state/store.go:251-265 | Copies the exact current bytes under a new name; refuses an invalid document and a taken name |
| StateStore.Store.Prune | internal/state/store.go:296-324 | Interrupted anywhere, pruning never removes one of the ten newest; complete, it leaves exactly those: ten, or all if there are fewer |
| StateStore.KeptExactly | internal/state/store.go:296-324 | A backup is kept exactly when fewer than ten have a later stamp, or the same stamp and a greater digest |
| StateStore.Store.Save | internal/state/store.go:103-117 | Replaces the document exactly when the value is sound, the old one was backed up and nothing stopped the save before, and succeeds exactly when pruning ended too; at every crash point the document is the old or the new one, and once it is the new one the exact old bytes are in a backup that pruning keeps, given increasing stamps |
| StateStore.LastTenSurvive | internal/state/store.go:205-324 | Over any run of saves with increasing stamps, each stopped anywhere, a backed-up document keeps its exact bytes until ten more backups, torn ones included, were made |
| StateStore.ReplacedWasBackedUp | internal/state/store.go:205-265 | Over such a run a document that was replaced is still in a backup, under the same bound |
| StateStore.Store.LatestValidBackup | internal/state/store.go:267-294 | The newest readable backup that validates; none exactly when no readable one does |
| StateStore.Store.BestExactly | internal/state/store.go:267-294 | The best backup is readable, of version 1 and sound, and every other such one has an earlier stamp or the same stamp and a smaller digest |
| StateStore.Store.Recover | internal/state/recovery.go:150-177 | A copy of the corrupt bytes is kept first, then the newest valid backup becomes the document unless its write stopped before the rename, and its value is returned exactly when the write succeeded and what loading reads of it is sound; without a copy or a valid backup nothing is replaced |
| StateStore.Store.Load | internal/state/store.go:80-101 | A document of version 1 and sound is returned as it is, one of any other version is refused with document, artifacts and backups untouched, and garbage or an unsound document of version 1 is recovered; when the document then is no longer than what loading reads, the next load returns the same value directly |
| LoginPolling.Session.constructor | internal/adapter/auth/auth.go:154-214 | The interval is the one given, or one second if that is less; the deadline is the budget's end, or the given expiry if that is earlier |
| LoginPolling.Session.WaitForPoll | internal/adapter/auth/auth.go:466-488 | Returns at once when the interval has passed, sleeps exactly to its end otherwise, or to the deadline if that is earlier; refuses exactly when canceled while it must wait or when it comes past the deadline, and never returns for a request before the interval or at or after the deadline |
| LoginPolling.Session.PollNow | internal/adapter/auth/auth.go:490-526 | The last poll is noted when the request ends |
| LoginPolling.Session.PollOnce | internal/adapter/auth/auth.go:216-236 | A status request starts at the due moment with its delays exactly when that lies before the deadline and nothing is canceled, an interval after the last one ended, and its answer is returned; otherwise none is made |
| LoginPolling.Session.CompletePaste | internal/adapter/auth/auth.go:238-264 | The immediate poll after a paste counts as the last one, so the next scheduled one is an interval after its end |
| LoginPolling.FewerThanThreeHundred | internal/adapter/auth/auth.go:466-488 | Any session makes fewer than 300 scheduled requests |
| LoginPolling.AwaitLogin | internal/app/router.go:604-623 | The router's loop ends whatever is answered and however slow everything is; every answer before the last was pending, and logged in, failed, expired and aborted each say what the last answer, the clock or the caller did; while each due moment with its delays lies before the deadline and nothing is canceled, the first answer that is not pending is reached and decides the result |
| LoginPolling.StartsWithoutDelays | internal/adapter/auth/auth.go:466-488 | Without delays the requests start exactly an interval apart, the first one interval after the session |
| Catalog.SortedSet | internal/adapter/models/catalog.go:458-474 | The elements of the set, each once, in ascending order |
| Catalog.Discovery.Contribute | internal/adapter/models/catalog.go:380-393 | The aggregates stay the unions of everything contributed, whether the model was known or not |
| Catalog.Discovery.AddCredential | internal/adapter/models/catalog.go:213-242 | One credential adds exactly its listed models, its account, and its provider behind its own channel and those of its models |
| Catalog.Discovery.DiscoverCredentials | internal/adapter/models/catalog.go:213-242 | Fails exactly when an enabled credential's listing fails, and else has collected exactly what all of them give |
| Catalog.Discovery.AddDefinitions | internal/adapter/models/catalog.go:244-265 | A channel's definitions go to exactly the providers behind it and all their accounts |
| Catalog.Discovery.Render | internal/adapter/models/catalog.go:395-419 | Each model once in ascending order, with sorted providers, the least owner and the number of accounts |
| Catalog.Discovery.GivenMeans | internal/adapter/models/catalog.go:203-268 | The accumulated aggregates are the relation induced by enabled credentials and channel definitions; every model has a provider, so the unknown fallback of rendering never arises |
| Catalog.DiscoverManagement | internal/adapter/models/catalog.go:203-268 | The whole discovery returns the catalog its definition prescribes, or the first kind of request that fails, the listing of credentials included; what an enabled credential lists is in the catalog under its provider, or under unknown if it names none |
| Catalog.CatalogNames | internal/adapter/models/catalog.go:213-242 | Every provider of an entry is one that an enabled credential names, or unknown for a credential that names none, and each listed model has its credential's provider |
| Catalog.OrderIsIrrelevant | internal/adapter/models/catalog.go:203-268 | The result depends on which credentials there are, not on their order or repetition |
| Catalog.AscendingIsUnique | internal/adapter/models/catalog.go:445-474 | An ascending list is determined by its elements |

## Left out

- GovernedCommands.GovernedUseCases.Execute: runs one process from its start to its release; interleaving with others is the transition system's part, and any run may come before it. Commands that mutate nothing bypass it, and an error of the lock's release is not reported.
- GovernedCommands.GovernedUseCases.RecoverInterruptedPending: cancellation before the lock is tried, lock errors other than a busy lock, and the check that the journal exists at startup are not modelled.
- GovernanceTheorems.OnlyHolderWrites: the operating system's lock is a holder that a crash frees; the lock's metadata file, its permissions and the retry of a busy lock are left out.
- Journal.OperationJournal.Begin: metadata and its redaction are not part of events here, and transaction ids are assumed fresh.
- Journal.OperationJournal.RecordStep: undo maps and redaction of a step are left out.
- Journal.OperationJournal.SetState: redaction of the reason is left out.
- Journal.OperationJournal.Pending: transactions carry operation, steps, state and begin time only.
- Audit.AuditLog.Append: redaction of secrets and the parameters of a record are not modelled.
- LineLog.LogFile.AppendRecord: permissions and directory flushes are folded into the points of failure; a crash leaves a prefix of the bytes being appended and never disturbs older ones; a missing file reads like an empty one.
- Governance: the transition system is on values, because processes interleave between file operations. Recovery in the transition system takes the listed transactions in any order.
- The JSON codecs are pairs of functions that undo each other and write no newline; YAML text is a codec that round-trips; digests are compared as contents.
- DoctorRun.RunChecks: the bodies of the checks are arbitrary results; repair, evidence and texts of results are left out.
- DoctorRun.Normalized: the summary, evidence and repair put in place of an invalid result are left out.
- Fixes.FixRunner.Run: the doctor report run after the fixes, its error, and texts of results are left out; each fix is a function on a world that includes the fix's own memory, and observations are arbitrary.
- YamlNodes.Node.SetPath: the walk is a recursion where the code loops, so that each mapping takes in what grew below it; comments, anchors and aliases are not part of the nodes, nor is the tag of a mapping or sequence.
- YamlNodes.Node.PutValue: the comments a replaced node hands on are left out.
- YamlNodes.Build: writing a value as YAML text and parsing that text is a function from values to trees.
- YamlNodes.Node.Read: encoding the nodes as text is reading the tree they stand for.
- ConfigPlan.PlanInPlace: parsing the rendered text once more, the table of other known paths, its value rules, the redacted diff and hardening are left out.
- ConfigEdit.DiffThenPatch: covers the six managed fields.
- ConfigCommit.ConfigFile.Apply: no other writer acts between the comparison of fingerprints and the end of the commit, and fingerprints are compared as contents; cancellation, an unreadable file before the commit and a relative backup directory are left out.
- ConfigCommit.ConfigFile.PlanEdit: for a target that breaks a rule, the error is one of those a plan can give and not named, as replaying the difference may first meet a value that is no mapping.
- LogRetention.ReadLogs: does not follow logs, and redaction, level names and text-line parsing are left out; a line without a time gets an arbitrary reading time.
- StateStore.Store.Save: the temporary file and flushes are not modelled apart from where they stop the save; config and secrets documents have the same shape and are not repeated, nor are rebuilding and resetting.
- StateStore.Store.Recover: recovery notices and an error of listing the backup directory are left out.
- StateStore.Store.Load: an error of opening or inspecting the document, other than that it is missing, is left out.
- LoginPolling.Session.constructor: the snapshot and challenge requests that begin a session are left out.
- LoginPolling.Session.PollNow: the check of credentials after a success and cancellation of the server's session are left out.
- LoginPolling.Session.CompletePaste: the test of the flow, the validation of the callback and its submission are left out.
- LoginPolling.AwaitLogin: a first status that comes from a paste, fallback sessions and emitted events are left out; the clock is a number that requests and sleeps push forward, and scheduled requests are counted, not the one after a paste.
- Catalog.Discovery.Render: availability, source and observation time, which are the same for every entry, are left out.
- Catalog.DiscoverManagement: the fallback to the public list, the cache, favorites and filters are left out; the initial sort of the credentials is not repeated, as the result does not depend on their order.
- Installation, discovery of candidates, service backends, the HTTP client, redaction, the bundle builder, the command line and the screens are not part of this model.
