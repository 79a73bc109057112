/**
  The operation journal: events, their fold into transactions, and the journal object
  whose calls read the log, decide, and append one event.
 */
module Journal {
  import opened LineLog
  import opened Strings
  import opened Wrappers

  type TxId = string

  const EVENT_VERSION := 1
  const U64: nat := 0x1_0000_0000_0000_0000

  const BEGIN := "begin"
  const STEP := "step"
  const STATE := "state"

  const IN_PROGRESS := "in_progress"
  const COMPLETED := "completed"
  const FAILED := "failed"
  const INTERRUPTED := "interrupted"
  const ROLLED_BACK := "rolled_back"

  datatype Step = Step(name: string, action: string, target: string, at: int)

  /** One record of the journal. `kind` and `state` are free text, as in the file. */
  datatype Event = Event(
    version: int, sequence: nat, timestamp: int, kind: string, txId: TxId,
    operation: string, step: Option<Step>, state: string, reason: string)

  datatype Tx = Tx(id: TxId, operation: string, steps: seq<Step>, state: string, beganAt: int)

  type Txs = map<TxId, Tx>

  datatype Error = Corrupt | Unreadable | NotPending | Closed | Invalid | AppendFailed

  /** The record codec of a log: JSON in the original. */
  datatype Codec<!R> = Codec(encode: R -> seq<byte>, decode: seq<byte> -> Option<R>)

  /** Decoding inverts encoding, and an encoded record never holds a newline. */
  ghost predicate Lawful<R(!new)>(codec: Codec<R>) {
    forall r: R :: OneLine(codec.encode(r)) && codec.decode(codec.encode(r)) == Some(r)
  }

  // ---------------------------------------------------------------- transactions

  predicate IsClosed(state: string) {
    state == COMPLETED || state == ROLLED_BACK
  }

  predicate IsTerminal(state: string) {
    state in [COMPLETED, FAILED, INTERRUPTED, ROLLED_BACK]
  }

  function FoldEvent(txs: Txs, e: Event): (r: Result<Txs, Error>)
  {
    if e.kind == BEGIN then
      if e.txId in txs then Failure(Corrupt)
      else Success(txs[e.txId := Tx(e.txId, e.operation, [], IN_PROGRESS, e.timestamp)])
    else if e.kind == STEP then
      if e.txId !in txs || e.step.None? || IsClosed(txs[e.txId].state) then Failure(Corrupt)
      else Success(txs[e.txId := txs[e.txId].(steps := txs[e.txId].steps + [e.step.value])])
    else if e.kind == STATE then
      if e.txId !in txs || IsClosed(txs[e.txId].state) || !IsTerminal(e.state) then Failure(Corrupt)
      else Success(txs[e.txId := txs[e.txId].(state := e.state)])
    else Failure(Corrupt)
  }

  /** Which events fit: a first begin, and steps and states of a transaction that is still open. */
  lemma FitsExactly(txs: Txs, e: Event)
    ensures FoldEvent(txs, e).Success? <==>
      || (e.kind == "begin" && e.txId !in txs)
      || (&& e.txId in txs && txs[e.txId].state != "completed" && txs[e.txId].state != "rolled_back"
          && (|| (e.kind == "step" && e.step.Some?)
              || (e.kind == "state" && e.state in ["completed", "failed", "interrupted", "rolled_back"])))
  {
  }

  /** The transactions a list of events describes. */
  function Fold(events: seq<Event>): (r: Result<Txs, Error>)
  {
    if events == [] then Success(map[])
    else
      match Fold(events[..|events| - 1])
      case Failure(err) => Failure(err)
      case Success(txs) => FoldEvent(txs, events[|events| - 1])
  }

  lemma FoldSnoc(events: seq<Event>, e: Event)
    ensures Fold(events + [e]) == match Fold(events)
                                  case Failure(err) => Failure(err)
                                  case Success(txs) => FoldEvent(txs, e)
  {
    assert (events + [e])[..|events|] == events;
  }

  lemma {:induction false} FoldPrefixFails(events: seq<Event>, n: nat)
    requires n <= |events| && Fold(events[..n]).Failure?
    ensures Fold(events) == Fold(events[..n])
    decreases |events|
  {
    if n == |events| {
      assert events[..n] == events;
    } else {
      var init := events[..|events| - 1];
      assert init[..n] == events[..n];
      FoldPrefixFails(init, n);
    }
  }

  // ---------------------------------------------------------------- the file

  function Successor(sequence: nat): nat {
    (sequence + 1) % U64
  }

  lemma SuccessorDiffers(sequence: nat)
    ensures Successor(sequence) != sequence
  {
    if sequence + 1 < U64 {
      assert Successor(sequence) == sequence + 1;
    } else {
      assert Successor(sequence) < U64 <= sequence + 1;
      assert sequence + 1 == U64 ==> Successor(sequence) == 0;
    }
  }

  function NextSequence(events: seq<Event>): nat {
    if events == [] then 1 else Successor(events[|events| - 1].sequence)
  }

  /** What a line may hold to follow `events`. */
  predicate Follows(events: seq<Event>, e: Event) {
    e.version == EVENT_VERSION && e.sequence == NextSequence(events) && e.txId != ""
  }

  function DecodeEvents(codec: Codec<Event>, lines: seq<seq<byte>>): (r: Result<seq<Event>, Error>)
  {
    if lines == [] then Success([])
    else
      match DecodeEvents(codec, lines[..|lines| - 1])
      case Failure(err) => Failure(err)
      case Success(events) =>
        match codec.decode(lines[|lines| - 1])
        case None => Failure(Corrupt)
        case Some(e) => if Follows(events, e) then Success(events + [e]) else Failure(Corrupt)
  }

  function ReadJournal(codec: Codec<Event>, data: seq<byte>): Result<seq<Event>, Error> {
    DecodeEvents(codec, Lines(data))
  }

  lemma {:induction false} DecodePrefixFails(codec: Codec<Event>, lines: seq<seq<byte>>, n: nat)
    requires n <= |lines| && DecodeEvents(codec, lines[..n]).Failure?
    ensures DecodeEvents(codec, lines).Failure?
    decreases |lines|
  {
    if n == |lines| {
      assert lines[..n] == lines;
    } else {
      var init := lines[..|lines| - 1];
      assert init[..n] == lines[..n];
      DecodePrefixFails(codec, init, n);
    }
  }

  /** A journal that reads back: its sequence numbers run 1, 2, 3, … and it folds. */
  ghost predicate Sound(codec: Codec<Event>, data: seq<byte>) {
    && ReadJournal(codec, data).Success?
    && Fold(ReadJournal(codec, data).value).Success?
  }

  function Events(codec: Codec<Event>, data: seq<byte>): seq<Event>
    requires ReadJournal(codec, data).Success?
  {
    ReadJournal(codec, data).value
  }

  function Transactions(codec: Codec<Event>, data: seq<byte>): Txs
    requires ReadJournal(codec, data).Success? && Fold(Events(codec, data)).Success?
  {
    Fold(Events(codec, data)).value
  }

  lemma SuccessorWraps(n: nat)
    ensures Successor(n % U64) == (n + 1) % U64
  {
    var q, r := n / U64, n % U64;
    assert n == q * U64 + r;
    if r + 1 < U64 {
      assert (q * U64 + (r + 1)) % U64 == r + 1;
    } else {
      assert (n + 1) == (q + 1) * U64;
    }
  }

  lemma {:induction false} SequencesAreContiguous(codec: Codec<Event>, lines: seq<seq<byte>>)
    requires DecodeEvents(codec, lines).Success?
    ensures var events := DecodeEvents(codec, lines).value;
      && |events| == |lines|
      && forall i :: 0 <= i < |events| ==>
           && events[i].sequence == (i + 1) % U64
           && codec.decode(lines[i]) == Some(events[i])
           && events[i].version == EVENT_VERSION && events[i].txId != ""
  {
    if lines == [] {
    } else {
      var init := lines[..|lines| - 1];
      SequencesAreContiguous(codec, init);
      var events := DecodeEvents(codec, init).value;
      SuccessorWraps(|events|);
      assert 1 % U64 == 1;
      hide Successor;
      assert NextSequence(events) == (|events| + 1) % U64;
    }
  }

  /** Appending an event that follows what was read adds exactly that event, if it lands whole. */
  lemma {:induction false} AppendedEvent(codec: Codec<Event>, data: seq<byte>, e: Event, progress: Progress)
    requires Lawful(codec)
    requires ReadJournal(codec, data).Success? && Follows(Events(codec, data), e)
    ensures var after := ReadJournal(codec, Landed(data, Record(codec.encode(e)), progress));
      after == Success(Events(codec, data) + if Whole(codec.encode(e), progress) then [e] else [])
  {
    var payload := codec.encode(e);
    AppendLaw(data, payload, progress);
    if Whole(payload, progress) {
      var lines := Lines(data) + [payload];
      assert lines[..|lines| - 1] == Lines(data);
    } else {
      assert Events(codec, data) + [] == Events(codec, data);
    }
  }

  // ---------------------------------------------------------------- the decisions

  /** What a caller asks the journal to append. */
  datatype Call =
    | BeginCall(id: TxId, operation: string)
    | StepCall(id: TxId, step: Step)
    | StateCall(id: TxId, state: string, reason: string)

  function EventFor(call: Call, events: seq<Event>, now: int): Event {
    var blank := Event(EVENT_VERSION, NextSequence(events), now, "", call.id, "", None, "", "");
    match call
    case BeginCall(_, operation) => blank.(kind := BEGIN, operation := operation, state := IN_PROGRESS)
    case StepCall(_, step) => blank.(kind := STEP, step := Some(step))
    case StateCall(_, state, reason) => blank.(kind := STATE, state := state, reason := reason)
  }

  function RequirePending(events: seq<Event>, id: TxId): Result<(), Error> {
    match Fold(events)
    case Failure(err) => Failure(err)
    case Success(txs) =>
      if id !in txs then Failure(NotPending)
      else if IsClosed(txs[id].state) then Failure(Closed)
      else Success(())
  }

  /** The event a call appends to a journal holding `data`, or why it appends none. */
  function Decide(codec: Codec<Event>, data: seq<byte>, call: Call, now: int): (r: Result<Event, Error>)
  {
    match ReadJournal(codec, data)
    case Failure(err) => Failure(err)
    case Success(events) =>
      if call.BeginCall? then Success(EventFor(call, events, now))
      else
        match RequirePending(events, call.id)
        case Failure(err) => Failure(err)
        case Success(_) => Success(EventFor(call, events, now))
  }

  /** Callers name a transaction, and close it only with a terminal state. */
  predicate WellFormedCall(call: Call) {
    && call.id != ""
    && (call.StateCall? ==> IsTerminal(call.state))
  }

  /** How a call that landed changes the transactions. */
  function Effect(txs: Txs, call: Call, now: int): Txs
    requires call.BeginCall? || call.id in txs
  {
    match call
    case BeginCall(id, operation) => txs[id := Tx(id, operation, [], IN_PROGRESS, now)]
    case StepCall(id, step) => txs[id := txs[id].(steps := txs[id].steps + [step])]
    case StateCall(id, state, _) => txs[id := txs[id].(state := state)]
  }

  /** Every decided call keeps the journal sound, whatever becomes of its append. */
  lemma {:induction false} CallKeepsSound(codec: Codec<Event>, data: seq<byte>, call: Call, now: int,
                                          progress: Progress)
    requires Lawful(codec) && Sound(codec, data) && WellFormedCall(call)
    requires call.BeginCall? ==> call.id !in Transactions(codec, data)
    requires Decide(codec, data, call, now).Success?
    ensures var e := Decide(codec, data, call, now).value;
      var after := Landed(data, Record(codec.encode(e)), progress);
      && Sound(codec, after)
      && (if Whole(codec.encode(e), progress)
          then (call.BeginCall? || call.id in Transactions(codec, data))
            && Transactions(codec, after) == Effect(Transactions(codec, data), call, now)
          else Transactions(codec, after) == Transactions(codec, data))
  {
    DecidedFolds(codec, data, call, now);
    var e := Decide(codec, data, call, now).value;
    hide Lines, DecodeEvents, Landed, Whole, Record, Decide, Fold, FoldEvent, Effect, Lawful;
    AppendedEvent(codec, data, e, progress);
    FoldSnoc(Events(codec, data), e);
    assert Events(codec, data) + [] == Events(codec, data);
  }

  /** A decided event follows what was read, and folds to the call's effect. */
  lemma DecidedFolds(codec: Codec<Event>, data: seq<byte>, call: Call, now: int)
    requires Sound(codec, data) && WellFormedCall(call)
    requires call.BeginCall? ==> call.id !in Transactions(codec, data)
    requires Decide(codec, data, call, now).Success?
    ensures var e := Decide(codec, data, call, now).value;
      && Follows(Events(codec, data), e)
      && (call.BeginCall? || call.id in Transactions(codec, data))
      && FoldEvent(Transactions(codec, data), e) == Success(Effect(Transactions(codec, data), call, now))
  {
    hide Lines, DecodeEvents, Fold;
  }

  lemma EffectSays(txs: Txs, id: TxId, now: int)
    requires id in txs
    ensures forall step :: Effect(txs, StepCall(id, step), now) == txs[id := txs[id].(steps := txs[id].steps + [step])]
    ensures forall state, reason ::
      Effect(txs, StateCall(id, state, reason), now) == txs[id := txs[id].(state := state)]
  {
  }

  /** What is asked for is what the event says, under the next number. */
  lemma DecidedSays(codec: Codec<Event>, data: seq<byte>, call: Call, now: int)
    requires Decide(codec, data, call, now).Success?
    ensures ReadJournal(codec, data).Success?
    ensures var next := (|Events(codec, data)| + 1) % 0x1_0000_0000_0000_0000;
      var e := Decide(codec, data, call, now).value;
      match call
      case BeginCall(id, operation) => e == Event(1, next, now, "begin", id, operation, None, "in_progress", "")
      case StepCall(id, step) => e == Event(1, next, now, "step", id, "", Some(step), "", "")
      case StateCall(id, state, reason) => e == Event(1, next, now, "state", id, "", None, state, reason)
  {
    var events := Events(codec, data);
    SequencesAreContiguous(codec, Lines(data));
    assert 1 % U64 == 1;
    assert NextSequence(events) == (|events| + 1) % U64 by {
      if events != [] {
        SuccessorWraps(|events|);
      }
    }
    hide Lines, DecodeEvents, Fold, NextSequence, Successor;
  }

  /** Why a call on a sound journal is refused. */
  lemma RefusedBecause(codec: Codec<Event>, data: seq<byte>, call: Call, now: int)
    requires Sound(codec, data) && !call.BeginCall?
    ensures var txs, decided := Transactions(codec, data), Decide(codec, data, call, now);
      && (call.id !in txs ==> decided == Failure(NotPending))
      && (call.id in txs && txs[call.id].state in ["completed", "rolled_back"] ==> decided == Failure(Closed))
      && (call.id in txs && txs[call.id].state !in ["completed", "rolled_back"] ==> decided.Success?)
  {
  }

  /** The journal now holds its events and this one more. */
  ghost predicate Adds(codec: Codec<Event>, before: seq<byte>, after: seq<byte>, e: Event) {
    && ReadJournal(codec, before).Success?
    && ReadJournal(codec, after) == Success(Events(codec, before) + [e])
  }

  lemma LandedAdds(codec: Codec<Event>, data: seq<byte>, call: Call, now: int, progress: Progress)
    requires Lawful(codec) && Decide(codec, data, call, now).Success? && call.id != ""
    requires Whole(codec.encode(Decide(codec, data, call, now).value), progress)
    ensures var e := Decide(codec, data, call, now).value;
      Adds(codec, data, Landed(data, Record(codec.encode(e)), progress), e)
  {
    var e := Decide(codec, data, call, now).value;
    assert Follows(Events(codec, data), e) by {
      hide DecodeEvents, Lines, Fold;
    }
    hide Landed, Whole, Record, DecodeEvents, Lines, Decide, Lawful;
    AppendedEvent(codec, data, e, progress);
  }

  /** A decided event carries the time it was decided at. */
  lemma DecidedAt(codec: Codec<Event>, data: seq<byte>, call: Call, now: int)
    ensures Decide(codec, data, call, now).Success? ==> Decide(codec, data, call, now).value.timestamp == now
  {
  }

  /** A closed transaction is never touched again. */
  lemma ClosedRejectsCalls(codec: Codec<Event>, data: seq<byte>, call: Call, now: int)
    requires Sound(codec, data) && !call.BeginCall?
    ensures Decide(codec, data, call, now).Success?
       <==> call.id in Transactions(codec, data) && !IsClosed(Transactions(codec, data)[call.id].state)
  {
  }

  /**
    Why the lock must span the read and the append: two events computed from the same
    read, appended one after the other, leave a journal nobody can read.
   */
  lemma UnlockedAppendsCorrupt(codec: Codec<Event>, data: seq<byte>, call1: Call, call2: Call, now: int)
    requires Lawful(codec)
    requires Decide(codec, data, call1, now).Success? && Decide(codec, data, call2, now).Success?
    requires WellFormedCall(call1)
    ensures var p1 := codec.encode(Decide(codec, data, call1, now).value);
      var p2 := codec.encode(Decide(codec, data, call2, now).value);
      var once := Landed(data, Record(p1), Written(|Record(p1)|));
      ReadJournal(codec, Landed(once, Record(p2), Written(|Record(p2)|))) == Failure(Corrupt)
  {
    var events := Events(codec, data);
    var e1, e2 := Decide(codec, data, call1, now).value, Decide(codec, data, call2, now).value;
    var p1, p2 := codec.encode(e1), codec.encode(e2);
    var once := Landed(data, Record(p1), Written(|Record(p1)|));
    AppendedEvent(codec, data, e1, Written(|Record(p1)|));
    assert Events(codec, once) == events + [e1];
    SameReadClash(codec, once, events, e1, e2);
  }

  /** A line computed from an older read than the last one is refused by the reader. */
  lemma SameReadClash(codec: Codec<Event>, once: seq<byte>, events: seq<Event>, e1: Event, e2: Event)
    requires Lawful(codec)
    requires ReadJournal(codec, once) == Success(events + [e1])
    requires e1.sequence == e2.sequence
    ensures var p2 := codec.encode(e2);
      ReadJournal(codec, Landed(once, Record(p2), Written(|Record(p2)|))) == Failure(Corrupt)
  {
    var p2 := codec.encode(e2);
    AppendLaw(once, p2, Written(|Record(p2)|));
    var lines := Lines(once) + [p2];
    assert lines[..|lines| - 1] == Lines(once);
    SuccessorDiffers(e1.sequence);
    assert !Follows(events + [e1], e2);
  }

  // ---------------------------------------------------------------- pending order

  predicate IsPending(state: string) {
    state in [IN_PROGRESS, INTERRUPTED, FAILED]
  }

  predicate Earlier(a: Tx, b: Tx) {
    a.beganAt < b.beganAt || (a.beganAt == b.beganAt && Less(a.id, b.id))
  }

  ghost predicate InOrder(list: seq<Tx>) {
    forall i, j :: 0 <= i < j < |list| ==> Earlier(list[i], list[j])
  }

  lemma EarlierTransitive(a: Tx, b: Tx, c: Tx)
    requires Earlier(a, b) && Earlier(b, c)
    ensures Earlier(a, c)
  {
    if a.beganAt == b.beganAt == c.beganAt {
      LessTransitive(a.id, b.id, c.id);
    }
  }

  /** Every transaction is filed under its own id. */
  lemma {:induction false} FoldKeepsIds(events: seq<Event>)
    requires Fold(events).Success?
    ensures forall id :: id in Fold(events).value ==> Fold(events).value[id].id == id
  {
    if events == [] {
    } else {
      FoldKeepsIds(events[..|events| - 1]);
    }
  }

  /** Inserts a transaction into an ordered list. */
  method InsertByAge(list: seq<Tx>, tx: Tx) returns (r: seq<Tx>)
    requires InOrder(list)
    requires forall other :: other in list ==> other.id != tx.id
    ensures InOrder(r)
    ensures forall other :: other in r <==> other == tx || other in list
  {
    hide Less;
    var k := 0;
    while k < |list| && Earlier(list[k], tx)
      invariant 0 <= k <= |list|
      invariant forall i :: 0 <= i < k ==> Earlier(list[i], tx)
    {
      k := k + 1;
    }
    forall j | k <= j < |list| ensures Earlier(tx, list[j]) {
      assert list[k] in list;
      LessTotal(tx.id, list[k].id);
      assert Earlier(tx, list[k]);
      if k < j {
        EarlierTransitive(tx, list[k], list[j]);
      }
    }
    r := list[..k] + [tx] + list[k..];
    forall i, j | 0 <= i < j < |r| ensures Earlier(r[i], r[j]) {
      assert r[k] == tx && (i < k ==> r[i] == list[i]) && (j < k ==> r[j] == list[j]);
      assert (i > k ==> r[i] == list[i - 1]) && (j > k ==> r[j] == list[j - 1]);
    }
    assert list == list[..k] + list[k..];
  }

  // ---------------------------------------------------------------- the journal object

  /** Folds a list of events in order, stopping at the first one that does not fit. */
  method FoldEvents(events: seq<Event>) returns (r: Result<Txs, Error>)
    ensures r == Fold(events)
  {
    var txs: Txs := map[];
    var i := 0;
    while i < |events|
      invariant 0 <= i <= |events|
      invariant Fold(events[..i]) == Success(txs)
    {
      FoldSnoc(events[..i], events[i]);
      assert events[..i + 1] == events[..i] + [events[i]];
      var next := FoldEvent(txs, events[i]);
      if next.Failure? {
        FoldPrefixFails(events, i + 1);
        return Failure(next.error);
      }
      txs := next.value;
      i := i + 1;
    }
    assert events[..i] == events;
    return Success(txs);
  }

  class OperationJournal {
    const codec: Codec<Event>
    const file: LogFile

    constructor (codec: Codec<Event>, file: LogFile)
      ensures this.codec == codec && this.file == file
    {
      this.codec := codec;
      this.file := file;
    }

    /** Reads the whole log; `fault` is an operating-system error while reading. */
    method ReadEvents(fault: bool) returns (r: Result<seq<Event>, Error>)
      ensures r == if fault then Failure(Unreadable) else ReadJournal(codec, file.data)
    {
      if fault {
        return Failure(Unreadable);
      }
      var data := file.data;
      var pos, lastSequence := 0, 0;
      var events: seq<Event> := [];
      while pos < |data|
        invariant 0 <= pos <= |data|
        invariant Complete(data[..pos]) == data[..pos]
        invariant ReadJournal(codec, data[..pos]) == Success(events)
        invariant lastSequence == if events == [] then 0 else events[|events| - 1].sequence
        decreases |data| - pos
      {
        var line, next, terminated := NextLine(data, pos);
        if !terminated {
          break;
        }
        ghost var lines := Lines(data[..pos]) + [line];
        assert lines[..|lines| - 1] == Lines(data[..pos]);
        LinesPrefix(data, next);
        assert lines == Lines(data)[..|lines|];
        var decoded := codec.decode(line);
        if decoded.None? {
          DecodePrefixFails(codec, Lines(data), |lines|);
          CorruptOnly(codec, Lines(data));
          return Failure(Corrupt);
        }
        var e := decoded.value;
        if e.version != EVENT_VERSION || e.sequence != Successor(lastSequence) || e.txId == "" {
          DecodePrefixFails(codec, Lines(data), |lines|);
          CorruptOnly(codec, Lines(data));
          return Failure(Corrupt);
        }
        lastSequence := e.sequence;
        events := events + [e];
        pos := next;
      }
      if pos == |data| {
        assert data[..pos] == data;
      }
      return Success(events);
    }

    /** Begins a transaction under a fresh id; `newId` is None when the random source fails. */
    method Begin(operation: string, newId: Option<TxId>, now: int, readFault: bool, fault: Fault)
      returns (r: Result<TxId, Error>, ghost progress: Progress)
      requires Lawful(codec)
      modifies file
      ensures operation == "" || newId.None? || readFault
           || Decide(codec, old(file.data), BeginCall(newId.value, operation), now).Failure?
          ==> r.Failure? && file.data == old(file.data)
      ensures operation != "" && newId.Some? && !readFault ==>
        var call := BeginCall(newId.value, operation);
        Carried(codec, old(file.data), call, now, fault, file.data, progress, r.Success?)
      ensures r.Success? ==> r.value == newId.value
      ensures operation != "" && newId.Some? && newId.value != "" && Sound(codec, old(file.data)) ==>
        newId.value in Transactions(codec, old(file.data)) || Sound(codec, file.data)
      ensures r.Success? && newId.value != "" && Sound(codec, old(file.data)) ==>
        var txs := Transactions(codec, old(file.data));
        var next := (|Events(codec, old(file.data))| + 1) % 0x1_0000_0000_0000_0000;
        var event := Event(1, next, now, "begin", newId.value, operation, None, "in_progress", "");
        && Adds(codec, old(file.data), file.data, event)
        && (newId.value !in txs ==>
              && Sound(codec, file.data)
              && Transactions(codec, file.data)
                 == txs[newId.value := Tx(newId.value, operation, [], "in_progress", now)])
    {
      progress := Untouched;
      if operation == "" || newId.None? {
        return Failure(Invalid), progress;
      }
      var read := ReadEvents(readFault);
      if read.Failure? {
        return Failure(read.error), progress;
      }
      var ok;
      ok, progress := Append(EventFor(BeginCall(newId.value, operation), read.value, now), fault);
      ghost var call := BeginCall(newId.value, operation);
      if Sound(codec, old(file.data)) && call.id != "" && call.id !in Transactions(codec, old(file.data)) {
        CallKeepsSound(codec, old(file.data), call, now, progress);
      }
      DecidedSays(codec, old(file.data), call, now);
      if ok && newId.value != "" {
        LandedAdds(codec, old(file.data), call, now, progress);
      }
      r := if ok then Success(newId.value) else Failure(AppendFailed);
    }

    method RecordStep(id: TxId, step: Step, now: int, readFault: bool, fault: Fault)
      returns (r: Result<(), Error>, ghost progress: Progress)
      requires Lawful(codec)
      modifies file
      ensures readFault || Decide(codec, old(file.data), StepCall(id, step), now).Failure?
          ==> r.Failure? && file.data == old(file.data)
      ensures !readFault ==>
        Carried(codec, old(file.data), StepCall(id, step), now, fault, file.data, progress, r.Success?)
      ensures r.Failure? && (readFault || Decide(codec, old(file.data), StepCall(id, step), now).Success?)
          ==> r.error == if readFault then Unreadable else AppendFailed
      ensures id != "" && Sound(codec, old(file.data)) ==> Sound(codec, file.data)
      ensures r.Success? && id != "" && Sound(codec, old(file.data)) ==>
        var txs := Transactions(codec, old(file.data));
        var next := (|Events(codec, old(file.data))| + 1) % 0x1_0000_0000_0000_0000;
        && Adds(codec, old(file.data), file.data, Event(1, next, now, "step", id, "", Some(step), "", ""))
        && Sound(codec, file.data) && id in txs
        && Transactions(codec, file.data) == txs[id := txs[id].(steps := txs[id].steps + [step])]
    {
      ghost var before := file.data;
      if Decide(codec, before, StepCall(id, step), now).Success? {
        DecidedSays(codec, before, StepCall(id, step), now);
      }
      if Sound(codec, before) && id in Transactions(codec, before) {
        EffectSays(Transactions(codec, before), id, now);
      }
      hide Decide, Lawful, Fold, ReadJournal, Adds, Carried, DecodeEvents, Landed, Lines, Effect;
      r, progress := Change(StepCall(id, step), now, readFault, fault);
    }

    method Commit(id: TxId, now: int, readFault: bool, fault: Fault)
      returns (r: Result<(), Error>, ghost progress: Progress)
      requires Lawful(codec)
      modifies file
      ensures readFault || Decide(codec, old(file.data), StateCall(id, COMPLETED, ""), now).Failure?
          ==> r.Failure? && file.data == old(file.data)
      ensures !readFault ==>
        Carried(codec, old(file.data), StateCall(id, COMPLETED, ""), now, fault, file.data, progress, r.Success?)
      ensures r.Failure? && (readFault || Decide(codec, old(file.data), StateCall(id, COMPLETED, ""), now).Success?)
          ==> r.error == if readFault then Unreadable else AppendFailed
      ensures id != "" && Sound(codec, old(file.data)) ==> Sound(codec, file.data)
      ensures r.Success? && id != "" && Sound(codec, old(file.data)) ==>
        id in Transactions(codec, file.data) && Transactions(codec, file.data)[id].state == COMPLETED
      ensures r.Success? && id != "" && Sound(codec, old(file.data)) ==>
        var txs := Transactions(codec, old(file.data));
        var next := (|Events(codec, old(file.data))| + 1) % 0x1_0000_0000_0000_0000;
        && Adds(codec, old(file.data), file.data, Event(1, next, now, "state", id, "", None, "completed", ""))
        && Sound(codec, file.data) && id in txs
        && Transactions(codec, file.data) == txs[id := txs[id].(state := "completed")]
    {
      ghost var before := file.data;
      if Decide(codec, before, StateCall(id, COMPLETED, ""), now).Success? {
        DecidedSays(codec, before, StateCall(id, COMPLETED, ""), now);
      }
      if Sound(codec, before) && id in Transactions(codec, before) {
        EffectSays(Transactions(codec, before), id, now);
      }
      hide Decide, Lawful, Fold, ReadJournal, Adds, Carried, DecodeEvents, Landed, Lines, Effect;
      r, progress := Change(StateCall(id, COMPLETED, ""), now, readFault, fault);
    }

    /** Fail and Interrupt: the two other states a governed operation ends in. */
    method SetState(id: TxId, state: string, reason: string, now: int, readFault: bool, fault: Fault)
      returns (r: Result<(), Error>, ghost progress: Progress)
      requires Lawful(codec) && IsTerminal(state)
      modifies file
      ensures readFault || Decide(codec, old(file.data), StateCall(id, state, reason), now).Failure?
          ==> r.Failure? && file.data == old(file.data)
      ensures !readFault ==>
        Carried(codec, old(file.data), StateCall(id, state, reason), now, fault, file.data, progress, r.Success?)
      ensures r.Failure? && (readFault || Decide(codec, old(file.data), StateCall(id, state, reason), now).Success?)
          ==> r.error == if readFault then Unreadable else AppendFailed
      ensures id != "" && Sound(codec, old(file.data)) ==> Sound(codec, file.data)
      ensures r.Success? && id != "" && Sound(codec, old(file.data)) ==>
        var txs := Transactions(codec, old(file.data));
        var next := (|Events(codec, old(file.data))| + 1) % 0x1_0000_0000_0000_0000;
        && Adds(codec, old(file.data), file.data, Event(1, next, now, "state", id, "", None, state, reason))
        && Sound(codec, file.data) && id in txs
        && Transactions(codec, file.data) == txs[id := txs[id].(state := state)]
    {
      ghost var before := file.data;
      if Decide(codec, before, StateCall(id, state, reason), now).Success? {
        DecidedSays(codec, before, StateCall(id, state, reason), now);
      }
      if Sound(codec, before) && id in Transactions(codec, before) {
        EffectSays(Transactions(codec, before), id, now);
      }
      hide Decide, Lawful, Fold, ReadJournal, Adds, Carried, DecodeEvents, Landed, Lines, Effect;
      r, progress := Change(StateCall(id, state, reason), now, readFault, fault);
    }

    /** The shape Record and setState share: read, require a pending transaction, append. */
    method Change(call: Call, now: int, readFault: bool, fault: Fault)
      returns (r: Result<(), Error>, ghost progress: Progress)
      requires Lawful(codec) && !call.BeginCall?
      requires call.StateCall? ==> IsTerminal(call.state)
      modifies file
      ensures readFault || Decide(codec, old(file.data), call, now).Failure?
          ==> r.Failure? && file.data == old(file.data)
      ensures !readFault ==> Carried(codec, old(file.data), call, now, fault, file.data, progress, r.Success?)
      ensures r.Failure? && (readFault || Decide(codec, old(file.data), call, now).Success?)
          ==> r.error == if readFault then Unreadable else AppendFailed
      ensures call.id != "" && Sound(codec, old(file.data)) ==> Sound(codec, file.data)
      ensures call.id != "" && Sound(codec, old(file.data)) && r.Success? ==>
        && call.id in Transactions(codec, old(file.data))
        && Transactions(codec, file.data) == Effect(Transactions(codec, old(file.data)), call, now)
      ensures call.id != "" && Sound(codec, old(file.data)) && r.Success? ==>
        && Decide(codec, old(file.data), call, now).Success?
        && Adds(codec, old(file.data), file.data, Decide(codec, old(file.data), call, now).value)
      ensures Sound(codec, old(file.data)) && !readFault ==>
        var txs := Transactions(codec, old(file.data));
        && (call.id !in txs ==> r == Failure(NotPending) && file.data == old(file.data))
        && (call.id in txs && txs[call.id].state in ["completed", "rolled_back"] ==>
              r == Failure(Closed) && file.data == old(file.data))
        && (call.id in txs && txs[call.id].state !in ["completed", "rolled_back"] && fault.NoFault? ==> r.Success?)
    {
      ghost var before := file.data;
      if Sound(codec, before) {
        RefusedBecause(codec, before, call, now);
      }
      hide Decide, Lawful, Fold, ReadJournal;
      r, progress := TryChange(call, now, readFault, fault);
      if r.Success? && call.id != "" {
        LandedAdds(codec, before, call, now, progress);
      }
    }

    /** Read, require a pending transaction, append. */
    method TryChange(call: Call, now: int, readFault: bool, fault: Fault)
      returns (r: Result<(), Error>, ghost progress: Progress)
      requires Lawful(codec) && !call.BeginCall?
      requires call.StateCall? ==> IsTerminal(call.state)
      modifies file
      ensures readFault || Decide(codec, old(file.data), call, now).Failure?
          ==> r.Failure? && file.data == old(file.data)
      ensures !readFault ==> Carried(codec, old(file.data), call, now, fault, file.data, progress, r.Success?)
      ensures r.Failure? && (readFault || Decide(codec, old(file.data), call, now).Success?)
          ==> r.error == if readFault then Unreadable else AppendFailed
      ensures !readFault && Decide(codec, old(file.data), call, now).Failure?
          ==> r == Failure(Decide(codec, old(file.data), call, now).error)
      ensures call.id != "" && Sound(codec, old(file.data)) ==> Sound(codec, file.data)
      ensures call.id != "" && Sound(codec, old(file.data)) && r.Success? ==>
        && call.id in Transactions(codec, old(file.data))
        && Transactions(codec, file.data) == Effect(Transactions(codec, old(file.data)), call, now)
    {
      progress := Untouched;
      var read := ReadEvents(readFault);
      if read.Failure? {
        return Failure(read.error), progress;
      }
      var folded := FoldEvents(read.value);
      if folded.Failure? {
        return Failure(folded.error), progress;
      }
      if call.id !in folded.value {
        return Failure(NotPending), progress;
      }
      if IsClosed(folded.value[call.id].state) {
        return Failure(Closed), progress;
      }
      var ok;
      ok, progress := Append(EventFor(call, read.value, now), fault);
      if call.id != "" && Sound(codec, old(file.data)) {
        CallKeepsSound(codec, old(file.data), call, now, progress);
      }
      r := if ok then Success(()) else Failure(AppendFailed);
    }

    method Append(e: Event, fault: Fault) returns (ok: bool, ghost progress: Progress)
      requires Lawful(codec)
      modifies file
      ensures file.data == Landed(old(file.data), Record(codec.encode(e)), progress)
      ensures ok ==> Whole(codec.encode(e), progress)
      ensures progress == ProgressOf(old(file.data), codec.encode(e), fault) && (ok <==> Flushes(old(file.data), fault))
      ensures fault.NoFault? ==> ok
    {
      ok, progress := file.AppendRecord(codec.encode(e), fault);
    }

    /** The open transactions, oldest first. */
    method Pending(readFault: bool) returns (r: Result<seq<Tx>, Error>)
      ensures r.Success? <==> !readFault && Sound(codec, file.data)
      ensures r.Success? ==>
        && InOrder(r.value)
        && forall tx :: tx in r.value <==>
             && tx.id in Transactions(codec, file.data)
             && Transactions(codec, file.data)[tx.id] == tx && IsPending(tx.state)
      ensures r.Success? ==>
        && (forall i, j :: 0 <= i < j < |r.value| ==>
              || r.value[i].beganAt < r.value[j].beganAt
              || (r.value[i].beganAt == r.value[j].beganAt && Less(r.value[i].id, r.value[j].id)))
        && (forall id :: id in Transactions(codec, file.data) ==>
              var tx := Transactions(codec, file.data)[id];
              tx in r.value <==> tx.state in ["in_progress", "interrupted", "failed"])
    {
      var read := ReadEvents(readFault);
      if read.Failure? {
        return Failure(read.error);
      }
      var folded := FoldEvents(read.value);
      if folded.Failure? {
        return Failure(folded.error);
      }
      var txs := folded.value;
      FoldKeepsIds(read.value);
      var pending: seq<Tx> := [];
      var todo := txs.Keys;
      while todo != {}
        invariant todo <= txs.Keys
        invariant InOrder(pending)
        invariant forall tx :: tx in pending <==>
          tx.id in txs && tx.id !in todo && txs[tx.id] == tx && IsPending(tx.state)
        decreases todo
      {
        var id :| id in todo;
        if IsPending(txs[id].state) {
          pending := InsertByAge(pending, txs[id]);
        }
        todo := todo - {id};
      }
      forall id | id in txs ensures txs[id] in pending <==> txs[id].state in ["in_progress", "interrupted", "failed"] {
        assert txs[txs[id].id] == txs[id];
      }
      return Success(pending);
    }
  }

  /** The reader reports nothing but corruption. */
  lemma {:induction false} CorruptOnly(codec: Codec<Event>, lines: seq<seq<byte>>)
    ensures DecodeEvents(codec, lines).Failure? ==> DecodeEvents(codec, lines).error == Corrupt
  {
    if lines == [] {
    } else {
      CorruptOnly(codec, lines[..|lines| - 1]);
    }
  }

  /** A call that was decided is carried out: its event, and nothing else, may land. */
  ghost predicate Carried(codec: Codec<Event>, before: seq<byte>, call: Call, now: int, fault: Fault,
                          after: seq<byte>, progress: Progress, ok: bool)
  {
    Decide(codec, before, call, now).Success? ==>
      var payload := codec.encode(Decide(codec, before, call, now).value);
      && after == Landed(before, Record(payload), progress) && (ok ==> Whole(payload, progress))
      && progress == ProgressOf(before, payload, fault) && (ok <==> Flushes(before, fault))
  }
}
