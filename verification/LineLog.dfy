/**
  Append-only files of newline-terminated records: what a reader sees of one, how a
  torn tail is trimmed before an append, and what an append may leave behind when it
  fails or the process dies half way.
 */
module LineLog {
  newtype byte = x: int | 0 <= x < 256

  const NEWLINE: byte := 10
  const BLOCK_SIZE: nat := 4096

  // ---------------------------------------------------------------- reading

  /** The number of bytes up to and including the last newline. */
  function CompleteLength(data: seq<byte>): (n: nat)
    ensures n <= |data|
    ensures n == 0 || data[n - 1] == NEWLINE
    ensures forall i :: n <= i < |data| ==> data[i] != NEWLINE
  {
    if data == [] then 0
    else if data[|data| - 1] == NEWLINE then |data|
    else CompleteLength(data[..|data| - 1])
  }

  /** `data` without its torn tail. */
  function Complete(data: seq<byte>): (c: seq<byte>)
    ensures c <= data
  {
    data[..CompleteLength(data)]
  }

  /** The terminated lines of `data`, without their terminators; a torn tail is no line. */
  function Lines(data: seq<byte>): (lines: seq<seq<byte>>)
    decreases |data|
  {
    if data == [] then []
    else
      var init := data[..|data| - 1];
      if data[|data| - 1] != NEWLINE then Lines(init)
      else Lines(Complete(init)) + [init[CompleteLength(init)..]]
  }

  predicate OneLine(payload: seq<byte>) {
    NEWLINE !in payload
  }

  lemma CompleteLengthUnique(data: seq<byte>, n: nat)
    requires n <= |data|
    requires n == 0 || data[n - 1] == NEWLINE
    requires forall i :: n <= i < |data| ==> data[i] != NEWLINE
    ensures CompleteLength(data) == n
  {
    var m := CompleteLength(data);
    assert !(m < n);
    assert !(n < m);
  }

  /** Readers ignore a torn tail: trimming it changes no line. */
  lemma {:induction false} LinesIgnoreTornTail(data: seq<byte>)
    ensures Complete(Complete(data)) == Complete(data)
    ensures Lines(Complete(data)) == Lines(data)
    decreases |data|
  {
    CompleteLengthUnique(Complete(data), CompleteLength(data));
    if data != [] && data[|data| - 1] != NEWLINE {
      var init := data[..|data| - 1];
      CompleteLengthUnique(data, CompleteLength(init));
      assert Complete(data) == Complete(init);
      LinesIgnoreTornTail(init);
    } else {
      assert Complete(data) == data;
    }
  }

  /** A torn append after a complete prefix stays invisible. */
  lemma {:induction false} TornAppend(data: seq<byte>, torn: seq<byte>)
    requires OneLine(torn)
    requires Complete(data) == data
    ensures Complete(data + torn) == data
    ensures Lines(data + torn) == Lines(data)
  {
    forall i | |data| <= i < |data + torn| ensures (data + torn)[i] != NEWLINE {
      assert (data + torn)[i] == torn[i - |data|];
    }
    CompleteLengthUnique(data + torn, |data|);
    assert Complete(data + torn) == data;
    LinesIgnoreTornTail(data + torn);
  }

  /** A whole append adds exactly its own line. */
  lemma {:induction false} WholeAppend(data: seq<byte>, payload: seq<byte>)
    requires OneLine(payload)
    requires Complete(data) == data
    ensures Complete(data + payload + [NEWLINE]) == data + payload + [NEWLINE]
    ensures Lines(data + payload + [NEWLINE]) == Lines(data) + [payload]
  {
    var after := data + payload + [NEWLINE];
    var init := after[..|after| - 1];
    assert init == data + payload;
    TornAppend(data, payload);
    CompleteLengthUnique(after, |after|);
    CompleteLengthUnique(init, |data|);
    assert init[|data|..] == payload;
  }

  // ---------------------------------------------------------------- appending

  /** How far an append got before the call returned or the process died. */
  datatype Progress =
    | Untouched            // nothing was changed
    | Trimmed              // the torn tail is gone, nothing was written
    | Written(count: nat)  // the torn tail is gone and `count` bytes of the record follow

  /** The file after an append of `record` that got as far as `progress`. */
  function Landed(data: seq<byte>, record: seq<byte>, progress: Progress): (after: seq<byte>)
  {
    match progress
    case Untouched => data
    case Trimmed => Complete(data)
    case Written(count) => Complete(data) + record[..if count < |record| then count else |record|]
  }

  function Record(payload: seq<byte>): seq<byte> {
    payload + [NEWLINE]
  }

  predicate Whole(payload: seq<byte>, progress: Progress) {
    progress.Written? && progress.count > |payload|
  }

  /**
    The one law every append obeys, whatever torn tail it found and however it ended:
    readers see the old lines, followed by the new one exactly when it landed whole.
   */
  lemma {:induction false} AppendLaw(data: seq<byte>, payload: seq<byte>, progress: Progress)
    requires OneLine(payload)
    ensures Lines(Landed(data, Record(payload), progress))
         == if Whole(payload, progress) then Lines(data) + [payload] else Lines(data)
  {
    LinesIgnoreTornTail(data);
    var c := Complete(data);
    if progress.Written? {
      if progress.count > |payload| {
        WholeAppend(c, payload);
        assert c + Record(payload) == c + payload + [NEWLINE];
        assert Record(payload)[..|Record(payload)|] == Record(payload);
      } else {
        var torn := Record(payload)[..progress.count];
        assert torn == payload[..progress.count];
        TornAppend(c, torn);
      }
    }
  }

  // ---------------------------------------------------------------- the file

  /** Where an operating-system call inside an append reports an error. */
  datatype Fault =
    | NoFault
    | PrepareFault          // before the torn tail is inspected
    | ScanFault             // while the tail is inspected or scanned
    | TrimSyncFault         // after the truncation, while it is flushed
    | OpenFault             // after the trim, before the record is written
    | WriteFault(count: nat) // after `count` bytes of the record
    | FlushFault            // after the whole record, while it is flushed or closed

  /** How far an append gets before its fault stops it. */
  function ProgressOf(data: seq<byte>, payload: seq<byte>, fault: Fault): (p: Progress) {
    var size := |Record(payload)|;
    match fault
    case PrepareFault => Untouched
    case ScanFault => Untouched
    case TrimSyncFault => if Complete(data) == data then Written(size) else Trimmed
    case OpenFault => Trimmed
    case WriteFault(count) => Written(if count < size then count else size)
    case FlushFault => Written(size)
    case NoFault => Written(size)
  }

  /** What an append leaves of the old bytes, and what a whole record adds: the payload and a line feed. */
  lemma LandedExactly(data: seq<byte>, payload: seq<byte>, progress: Progress)
    ensures var c := Complete(data);
      c <= data && 10 !in data[|c|..] && (c == [] || c[|c| - 1] == 10)
    ensures Whole(payload, progress) ==> Landed(data, Record(payload), progress) == Complete(data) + payload + [10]
  {
    if Whole(payload, progress) {
      assert Record(payload)[..|payload| + 1] == payload + [10];
    }
  }

  /** The append reports success: a tail that needs no trim is not flushed either. */
  predicate Flushes(data: seq<byte>, fault: Fault) {
    fault.NoFault? || (fault.TrimSyncFault? && Complete(data) == data)
  }

  /** The append reports an error although its record landed whole. */
  predicate Misreports(payload: seq<byte>, fault: Fault) {
    fault.FlushFault? || (fault.WriteFault? && fault.count > |payload|)
  }

  /** An append lands exactly when it succeeds or misreports, and never does both. */
  lemma LandsExactly(data: seq<byte>, payload: seq<byte>, fault: Fault)
    ensures Whole(payload, ProgressOf(data, payload, fault)) <==> Flushes(data, fault) || Misreports(payload, fault)
    ensures !(Flushes(data, fault) && Misreports(payload, fault))
  {
  }

  /** A file on disk. A file that does not exist yet reads like an empty one. */
  class LogFile {
    var data: seq<byte>

    constructor ()
      ensures data == []
    {
      data := [];
    }

    method ReadAt(start: nat, end: nat) returns (block: seq<byte>)
      requires start <= end <= |data|
      ensures block == data[start..end]
    {
      block := data[start..end];
    }

    method Truncate(size: nat)
      requires size <= |data|
      modifies this
      ensures data == old(data)[..size]
    {
      data := data[..size];
    }

    /**
      Cuts a torn tail off, scanning backward in blocks. The journal and the audit log
      run this same scan.
     */
    method TrimTornTail(fault: Fault) returns (ok: bool)
      modifies this
      ensures ok == !(fault.ScanFault? || (fault.TrimSyncFault? && Complete(old(data)) != old(data)))
      ensures data == if fault.ScanFault? then old(data) else Complete(old(data))
    {
      if fault.ScanFault? {
        return false;
      }
      if |data| == 0 {
        return true;
      }
      var last := ReadAt(|data| - 1, |data|);
      if last[0] == NEWLINE {
        CompleteLengthUnique(data, |data|);
        return true;
      }
      var truncateAt: nat := 0;
      var end := |data|;
      while end > 0
        invariant truncateAt <= end <= |data|
        invariant truncateAt == 0
        invariant forall i :: end <= i < |data| ==> data[i] != NEWLINE
        invariant data == old(data)
      {
        var start := if end < BLOCK_SIZE then 0 else end - BLOCK_SIZE;
        var length := end - start;
        var block := ReadAt(start, end);
        var found := false;
        var index := length - 1;
        while index >= 0
          invariant -1 <= index < length
          invariant forall i :: index < i < length ==> block[i] != NEWLINE
          invariant !found && truncateAt == 0
        {
          if block[index] == NEWLINE {
            truncateAt := start + index + 1;
            found := true;
            break;
          }
          index := index - 1;
        }
        assert forall i :: start <= i < end ==> data[i] == block[i - start];
        if found {
          assert data[truncateAt - 1] == NEWLINE;
          break;
        }
        end := start;
      }
      CompleteLengthUnique(data, truncateAt);
      Truncate(truncateAt);
      ok := !fault.TrimSyncFault?;
      assert data != old(data);
    }

    /** The second shape of the scan: the found position itself ends the outer loop. */
    method TrimPartialLine(fault: Fault) returns (ok: bool)
      modifies this
      ensures ok == !(fault.ScanFault? || (fault.TrimSyncFault? && Complete(old(data)) != old(data)))
      ensures data == if fault.ScanFault? then old(data) else Complete(old(data))
    {
      if fault.ScanFault? {
        return false;
      }
      if |data| == 0 {
        return true;
      }
      var last := ReadAt(|data| - 1, |data|);
      if last[0] == NEWLINE {
        CompleteLengthUnique(data, |data|);
        return true;
      }
      var end := |data|;
      var truncateAt: nat := 0;
      while end > 0
        invariant 0 <= end <= |data| && truncateAt <= |data|
        invariant truncateAt != 0 ==> end == 0 && data[truncateAt - 1] == NEWLINE
        invariant forall i :: truncateAt <= i < |data| && end <= i ==> data[i] != NEWLINE
        invariant data == old(data)
      {
        var start := if end < BLOCK_SIZE then 0 else end - BLOCK_SIZE;
        var block := ReadAt(start, end);
        ghost var scanned := end;
        var index := |block| - 1;
        while index >= 0
          invariant -1 <= index < |block|
          invariant forall i :: index < i < |block| ==> block[i] != NEWLINE
          invariant truncateAt == 0 && end == scanned
        {
          if block[index] == NEWLINE {
            truncateAt := start + index + 1;
            end := 0;
            break;
          }
          index := index - 1;
        }
        assert forall i :: start <= i < scanned ==> data[i] == block[i - start];
        if truncateAt == 0 {
          end := start;
        }
      }
      CompleteLengthUnique(data, truncateAt);
      Truncate(truncateAt);
      ok := !fault.TrimSyncFault?;
      assert data != old(data);
    }

    /** Trims, opens, writes and flushes one record, stopping at the first fault. */
    method AppendRecord(payload: seq<byte>, fault: Fault) returns (ok: bool, ghost progress: Progress)
      requires OneLine(payload)
      modifies this
      ensures data == Landed(old(data), Record(payload), progress)
      ensures ok ==> Whole(payload, progress)
      ensures progress == ProgressOf(old(data), payload, fault) && (ok <==> Flushes(old(data), fault))
      ensures fault.NoFault? ==> ok
    {
      if fault.PrepareFault? {
        return false, Untouched;
      }
      var trimmed := TrimTornTail(fault);
      if !trimmed {
        progress := if fault.ScanFault? then Untouched else Trimmed;
        return false, progress;
      }
      if fault.OpenFault? {
        return false, Trimmed;
      }
      var record := Record(payload);
      if fault.WriteFault? {
        var count := if fault.count < |record| then fault.count else |record|;
        data := data + record[..count];
        return false, Written(count);
      }
      data := data + record;
      assert record[..|record|] == record;
      return !fault.FlushFault?, Written(|record|);
    }
  }

  /**
    The forward reader's step: from a line start, the next line and the position after it;
    `terminated` is false for what is left at the end of the file.
   */
  method NextLine(data: seq<byte>, pos: nat) returns (line: seq<byte>, next: nat, terminated: bool)
    requires pos < |data|
    requires Complete(data[..pos]) == data[..pos]
    ensures pos < next <= |data|
    ensures terminated ==> Complete(data[..next]) == data[..next]
    ensures terminated ==> Lines(data[..next]) == Lines(data[..pos]) + [line]
    ensures !terminated ==> next == |data| && Lines(data) == Lines(data[..pos])
  {
    var end := pos;
    while end < |data| && data[end] != NEWLINE
      invariant pos <= end <= |data|
      invariant OneLine(data[pos..end])
    {
      assert data[pos..end + 1] == data[pos..end] + [data[end]];
      end := end + 1;
    }
    LineAt(data, pos, end);
    return data[pos..end], if end == |data| then end else end + 1, end < |data|;
  }

  lemma LineAt(data: seq<byte>, pos: nat, end: nat)
    requires pos <= end <= |data| && Complete(data[..pos]) == data[..pos]
    requires OneLine(data[pos..end]) && (end < |data| ==> data[end] == NEWLINE)
    ensures end == |data| ==> Lines(data) == Lines(data[..pos])
    ensures end < |data| ==> Complete(data[..end + 1]) == data[..end + 1]
    ensures end < |data| ==> Lines(data[..end + 1]) == Lines(data[..pos]) + [data[pos..end]]
  {
    hide *;
    var read, line := data[..pos], data[pos..end];
    if end == |data| {
      assert data == read + line;
      TornAppend(read, line);
    } else {
      assert data[..end + 1] == read + line + [NEWLINE] by {
        assert data[..end + 1] == data[..end] + [data[end]];
        assert data[..end] == read + line;
      }
      WholeAppend(read, line);
    }
  }

  /** What the forward reader has consumed is always a prefix of the lines. */
  lemma {:induction false} LinesPrefix(data: seq<byte>, pos: nat)
    requires pos <= |data|
    ensures Lines(data[..pos]) <= Lines(data)
    decreases |data|
  {
    if pos == |data| {
      assert data[..pos] == data;
    } else {
      var init := data[..|data| - 1];
      assert init[..pos] == data[..pos];
      LinesPrefix(init, pos);
      LinesIgnoreTornTail(init);
    }
  }
}
