/** The audit log: one record per governed outcome, on the same torn-tail discipline. */
module Audit {
  import opened LineLog
  import opened Journal
  import opened Wrappers

  const RECORD_VERSION := 1
  const OK := "ok"
  const FAILED_RESULT := "failed"
  const ROLLED_BACK_RESULT := "rolled_back"

  /** One audit record; `operation` holds the transaction id it accounts for. */
  datatype Entry = Entry(
    version: int, timestamp: int, operation: TxId, actor: string, command: string,
    target: string, result: string, errorCode: string)

  predicate Acceptable(entry: Entry) {
    && entry.operation != "" && entry.command != "" && entry.target != ""
    && entry.result in [OK, FAILED_RESULT, ROLLED_BACK_RESULT]
  }

  function DecodeEntries(codec: Codec<Entry>, lines: seq<seq<byte>>): (r: Result<seq<Entry>, Error>)
  {
    if lines == [] then Success([])
    else
      match DecodeEntries(codec, lines[..|lines| - 1])
      case Failure(err) => Failure(err)
      case Success(entries) =>
        match codec.decode(lines[|lines| - 1])
        case None => Failure(Corrupt)
        case Some(e) => if e.version == RECORD_VERSION then Success(entries + [e]) else Failure(Corrupt)
  }

  function ReadAudit(codec: Codec<Entry>, data: seq<byte>): Result<seq<Entry>, Error> {
    DecodeEntries(codec, Lines(data))
  }

  /** An append adds its record exactly when it lands whole, and costs no older record. */
  lemma {:induction false} AppendedEntry(codec: Codec<Entry>, data: seq<byte>, e: Entry, progress: Progress)
    requires Lawful(codec) && e.version == RECORD_VERSION
    requires ReadAudit(codec, data).Success?
    ensures ReadAudit(codec, Landed(data, Record(codec.encode(e)), progress))
         == Success(ReadAudit(codec, data).value + if Whole(codec.encode(e), progress) then [e] else [])
  {
    var payload := codec.encode(e);
    var entries := ReadAudit(codec, data).value;
    AppendLaw(data, payload, progress);
    if Whole(payload, progress) {
      var lines := Lines(data) + [payload];
      assert lines[..|lines| - 1] == Lines(data);
    } else {
      assert entries + [] == entries;
    }
  }

  lemma {:induction false} EntriesPrefixFails(codec: Codec<Entry>, lines: seq<seq<byte>>, n: nat)
    requires n <= |lines| && DecodeEntries(codec, lines[..n]) == Failure(Corrupt)
    ensures DecodeEntries(codec, lines) == Failure(Corrupt)
    decreases |lines|
  {
    if n == |lines| {
      assert lines[..n] == lines;
    } else {
      var init := lines[..|lines| - 1];
      assert init[..n] == lines[..n];
      EntriesPrefixFails(codec, init, n);
    }
  }

  class AuditLog {
    const codec: Codec<Entry>
    const file: LogFile

    constructor (codec: Codec<Entry>, file: LogFile)
      ensures this.codec == codec && this.file == file
    {
      this.codec := codec;
      this.file := file;
    }

    /** Stamps the record version, refuses an incomplete record, appends the rest. */
    method Append(entry: Entry, fault: Fault) returns (ok: bool, ghost progress: Progress)
      requires Lawful(codec)
      modifies file
      ensures !Acceptable(entry) ==> !ok && file.data == old(file.data)
      ensures Acceptable(entry) ==>
        var payload := codec.encode(entry.(version := RECORD_VERSION));
        && file.data == Landed(old(file.data), Record(payload), progress) && (ok ==> Whole(payload, progress))
        && progress == ProgressOf(old(file.data), payload, fault) && (ok <==> Flushes(old(file.data), fault))
      ensures ReadAudit(codec, old(file.data)).Success? ==> ReadAudit(codec, file.data).Success?
      ensures ReadAudit(codec, old(file.data)).Success? ==>
        var before, stamped := ReadAudit(codec, old(file.data)).value, entry.(version := RECORD_VERSION);
        ReadAudit(codec, file.data).value
        == before + if Acceptable(entry) && Whole(codec.encode(stamped), progress) then [stamped] else []
    {
      progress := Untouched;
      if entry.operation == "" || entry.command == "" || entry.target == "" {
        return false, progress;
      }
      if entry.result !in [OK, FAILED_RESULT, ROLLED_BACK_RESULT] {
        return false, progress;
      }
      var stamped := entry.(version := RECORD_VERSION);
      ok, progress := file.AppendRecord(codec.encode(stamped), fault);
      if ReadAudit(codec, old(file.data)).Success? {
        AppendedEntry(codec, old(file.data), stamped, progress);
      }
    }

    method Entries(fault: bool) returns (r: Result<seq<Entry>, Error>)
      ensures r == if fault then Failure(Unreadable) else ReadAudit(codec, file.data)
    {
      if fault {
        return Failure(Unreadable);
      }
      var data := file.data;
      var pos := 0;
      var entries: seq<Entry> := [];
      while pos < |data|
        invariant 0 <= pos <= |data|
        invariant Complete(data[..pos]) == data[..pos]
        invariant ReadAudit(codec, data[..pos]) == Success(entries)
        decreases |data| - pos
      {
        var line, next, terminated := NextLine(data, pos);
        if !terminated {
          return Success(entries);
        }
        ghost var lines := Lines(data[..pos]) + [line];
        assert lines[..|lines| - 1] == Lines(data[..pos]);
        LinesPrefix(data, next);
        assert lines == Lines(data)[..|lines|];
        var decoded := codec.decode(line);
        if decoded.None? || decoded.value.version != RECORD_VERSION {
          EntriesPrefixFails(codec, Lines(data), |lines|);
          return Failure(Corrupt);
        }
        entries := entries + [decoded.value];
        pos := next;
      }
      assert data[..pos] == data;
      return Success(entries);
    }
  }
}
