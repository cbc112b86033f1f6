/**
 * The request handler (dumper.ServeHTTP in main.go) and the choice of its
 * output sink (the file writer or the discard sink) at startup.
 *
 * Capturing the request in wire form (httputil.DumpRequest) is outside the
 * model: its result, a dump or a failure, is an input. Logging is reflected
 * in the Outcome the handler reports; the response status is returned.
 */
module Handler {
  import opened Wrappers
  import opened Bytes
  import opened Framing
  import opened SizeCappedWriter

  /** Where dumps go: the size-capped file writer, or io.Discard. */
  datatype Sink = FileSink(w: CheckSizeFileWriter) | Discard

  /** The state a sink holds, as a value. */
  datatype SinkState = FileState(contents: seq<byte>, maxSize: int) | DiscardState

  /** The result of capturing the request. */
  datatype Capture = Captured(dump: seq<byte>) | CaptureFailed

  /** What the handler logs: a capture failure, a write failure, or nothing. */
  datatype Outcome = DumpFailed | WriteFailed(err: WriteError) | Recorded

  datatype Handled = Handled(status: int, outcome: Outcome, state: SinkState)

  /** One request as the model sees it: the capture, the time it was served, the OS behaviour. */
  datatype Request = Request(capture: Capture, ts: seq<byte>, fault: IoFault)

  const StatusOK: int := 200

  /** The objects a write to `sink` may change. */
  function Footprint(sink: Sink): set<object>
  {
    if sink.FileSink? then {sink.w.f} else {}
  }

  function StateOf(sink: Sink): SinkState
    reads Footprint(sink)
  {
    match sink
    case FileSink(w) => FileState(w.f.contents, w.maxSize)
    case Discard => DiscardState
  }

  /** A write to a sink in state `s`: the new state and the error, if any. */
  function SinkWrite(s: SinkState, data: seq<byte>, fault: IoFault): (r: (SinkState, Option<WriteError>))
    ensures s.DiscardState? ==> r == (DiscardState, None)
    ensures s.FileState? ==> r.0.FileState? && r.0.maxSize == s.maxSize && s.contents <= r.0.contents
  {
    match s
    case FileState(contents, maxSize) =>
      var step := CheckedWrite(contents, maxSize, data, fault);
      (FileState(step.file, maxSize), step.err)
    case DiscardState => (DiscardState, None)
  }

  /** What serving one request does to a sink in state `s`. */
  function Handle(s: SinkState, capture: Capture, ts: seq<byte>, fault: IoFault): (h: Handled)
    ensures h.status == StatusOK
  {
    match capture
    case CaptureFailed => Handled(StatusOK, DumpFailed, s)
    case Captured(dump) =>
      var (s', err) := SinkWrite(s, SerializeDump(ts, dump), fault);
      Handled(StatusOK, if err.Some? then WriteFailed(err.value) else Recorded, s')
  }

  /** Serving `reqs` one after the other. */
  function ServeAll(s: SinkState, reqs: seq<Request>): SinkState
    decreases |reqs|
  {
    if reqs == [] then s
    else ServeAll(Handle(s, reqs[0].capture, reqs[0].ts, reqs[0].fault).state, reqs[1..])
  }

  /** The records that `reqs` produce, one after the other (only captured requests have one). */
  function Records(reqs: seq<Request>): seq<byte>
    decreases |reqs|
  {
    if reqs == [] then []
    else
      (match reqs[0].capture
       case Captured(dump) => SerializeDump(reqs[0].ts, dump)
       case CaptureFailed => [])
      + Records(reqs[1..])
  }

  /** A failed capture leaves the sink untouched, whatever the sink. */
  lemma CaptureFailureWritesNothing(s: SinkState, ts: seq<byte>, fault: IoFault)
    ensures Handle(s, CaptureFailed, ts, fault) == Handled(StatusOK, DumpFailed, s)
  {
  }

  /**
   * A captured request issues exactly one write, of its framed record, and a
   * failing write changes only what is logged, not the response.
   */
  lemma CapturedWritesRecord(s: SinkState, dump: seq<byte>, ts: seq<byte>, fault: IoFault)
    ensures var h := Handle(s, Captured(dump), ts, fault);
      var (s', err) := SinkWrite(s, SerializeDump(ts, dump), fault);
      && h.state == s'
      && h.status == StatusOK
      && (err.None? <==> h.outcome == Recorded)
      && (err.Some? ==> h.outcome == WriteFailed(err.value))
  {
  }

  /** The discard sink accepts everything, changes nothing and never fails. */
  lemma DiscardChangesNothing(capture: Capture, ts: seq<byte>, fault: IoFault)
    ensures Handle(DiscardState, capture, ts, fault).state == DiscardState
    ensures !Handle(DiscardState, capture, ts, fault).outcome.WriteFailed?
  {
  }

  /**
   * A recorded request leaves its record at the end of the file, and the
   * record reads back as the request's timestamp and dump.
   */
  lemma RecordedRequestReadsBack(contents: seq<byte>, maxSize: int, dump: seq<byte>, ts: seq<byte>, fault: IoFault)
    requires NoNewline(ts)
    requires Handle(FileState(contents, maxSize), Captured(dump), ts, fault).outcome == Recorded
    ensures var s' := Handle(FileState(contents, maxSize), Captured(dump), ts, fault).state;
      && s' == FileState(contents + SerializeDump(ts, dump), maxSize)
      && ParseDump(s'.contents[|contents|..]) == Some((ts, dump))
  {
    var record := SerializeDump(ts, dump);
    WriteAppendOnly(contents, maxSize, record, fault);
    assert (contents + record)[|contents|..] == record;
    ParseSerialize(ts, dump);
  }

  /** Serving any requests keeps a file that started below the cap below it. */
  lemma {:induction false} ServeAllKeepsBelowCap(contents: seq<byte>, maxSize: int, reqs: seq<Request>)
    requires |contents| < maxSize
    ensures ServeAll(FileState(contents, maxSize), reqs).FileState?
    ensures ServeAll(FileState(contents, maxSize), reqs).maxSize == maxSize
    ensures |ServeAll(FileState(contents, maxSize), reqs).contents| < maxSize
    decreases |reqs|
  {
    if reqs != [] {
      var r := reqs[0];
      var s' := Handle(FileState(contents, maxSize), r.capture, r.ts, r.fault).state;
      if r.capture.Captured? {
        WriteKeepsBelowCap(contents, maxSize, SerializeDump(r.ts, r.capture.dump), r.fault);
      }
      ServeAllKeepsBelowCap(s'.contents, maxSize, reqs[1..]);
    }
  }

  /** The file is append-only: what was in it before serving stays at its head. */
  lemma {:induction false} ServeAllAppendOnly(contents: seq<byte>, maxSize: int, reqs: seq<Request>)
    ensures ServeAll(FileState(contents, maxSize), reqs).FileState?
    ensures contents <= ServeAll(FileState(contents, maxSize), reqs).contents
    decreases |reqs|
  {
    if reqs != [] {
      var r := reqs[0];
      var s' := Handle(FileState(contents, maxSize), r.capture, r.ts, r.fault).state;
      if r.capture.Captured? {
        WriteAppendOnly(contents, maxSize, SerializeDump(r.ts, r.capture.dump), r.fault);
      }
      ServeAllAppendOnly(s'.contents, maxSize, reqs[1..]);
    }
  }

  /**
   * When nothing fails and all records fit below the cap, the file ends up
   * holding its old contents followed by every request's record, in order.
   */
  lemma {:induction false} ServeAllRecordsInOrder(contents: seq<byte>, maxSize: int, reqs: seq<Request>)
    requires forall i :: 0 <= i < |reqs| ==> reqs[i].fault == NoFault
    requires |contents| + |Records(reqs)| < maxSize
    ensures ServeAll(FileState(contents, maxSize), reqs) == FileState(contents + Records(reqs), maxSize)
    decreases |reqs|
  {
    if reqs != [] {
      var r := reqs[0];
      var rest := Records(reqs[1..]);
      match r.capture
      case CaptureFailed =>
        assert Records(reqs) == rest;
        ServeAllRecordsInOrder(contents, maxSize, reqs[1..]);
      case Captured(dump) =>
        var record := SerializeDump(r.ts, dump);
        assert Records(reqs) == record + rest;
        WriteAppendsBelowCap(contents, maxSize, record);
        ServeAllRecordsInOrder(contents + record, maxSize, reqs[1..]);
        assert contents + record + rest == contents + Records(reqs);
    }
  }

  /** The discard sink stays the discard sink, whatever is served. */
  lemma {:induction false} ServeAllDiscard(reqs: seq<Request>)
    ensures ServeAll(DiscardState, reqs) == DiscardState
    decreases |reqs|
  {
    if reqs != [] {
      ServeAllDiscard(reqs[1..]);
    }
  }

  /** io.Writer.Write on either sink; the discard sink reports every byte as written. */
  method WriteToSink(sink: Sink, data: seq<byte>, fault: IoFault) returns (n: int, err: Option<WriteError>)
    modifies Footprint(sink)
    ensures (StateOf(sink), err) == SinkWrite(old(StateOf(sink)), data, fault)
    ensures sink.Discard? ==> n == |data| && err.None?
    ensures sink.FileSink? ==> n == CheckedWrite(old(sink.w.f.contents), sink.w.maxSize, data, fault).n
  {
    match sink
    case FileSink(w) =>
      n, err := w.Write(data, fault);
    case Discard =>
      n, err := |data|, None;
  }

  /**
   * Serves one request: writes the framed dump to the sink unless the capture
   * failed, and answers 200 on every path (the deferred WriteHeader).
   */
  method ServeHTTP(sink: Sink, capture: Capture, ts: seq<byte>, fault: IoFault) returns (status: int, outcome: Outcome)
    modifies Footprint(sink)
    ensures Handled(status, outcome, StateOf(sink)) == Handle(old(StateOf(sink)), capture, ts, fault)
    ensures status == StatusOK
    ensures capture.CaptureFailed? ==> StateOf(sink) == old(StateOf(sink))
  {
    match capture {
      case CaptureFailed =>
        outcome := DumpFailed;
      case Captured(dump) =>
        var _, err := WriteToSink(sink, SerializeDump(ts, dump), fault);
        outcome := if err.Some? then WriteFailed(err.value) else Recorded;
    }
    // the deferred header write, reached from both paths above
    status := StatusOK;
  }

  /** Go's int64(x) on a uint64: the same 64 bits read as two's complement. */
  function Int64FromUint64(x: nat): (r: int)
    requires x < 0x1_0000_0000_0000_0000
    ensures -0x8000_0000_0000_0000 <= r < 0x8000_0000_0000_0000
    ensures (x - r) % 0x1_0000_0000_0000_0000 == 0
  {
    if x < 0x8000_0000_0000_0000 then x else x - 0x1_0000_0000_0000_0000
  }

  /**
   * A -max-output-size of 2^63 bytes or more turns negative in the int64
   * field, and the writer then rejects every write.
   */
  lemma HugeMaxOutputSizeRejectsAll(flag: nat, file: seq<byte>, data: seq<byte>, fault: IoFault)
    requires 0x8000_0000_0000_0000 <= flag < 0x1_0000_0000_0000_0000
    ensures Int64FromUint64(flag) < 0
    ensures CheckedWrite(file, Int64FromUint64(flag), data, fault).err.Some?
    ensures CheckedWrite(file, Int64FromUint64(flag), data, fault).file == file
  {
    NonPositiveCapRejectsAll(file, Int64FromUint64(flag), data, fault);
  }

  /**
   * The output chosen at startup: the capped writer over the opened file when
   * an output path is set, the discard sink otherwise.
   */
  method SelectOutput(outputFile: string, maxOutputSize: nat, file: OsFile?) returns (sink: Sink)
    requires maxOutputSize < 0x1_0000_0000_0000_0000
    requires outputFile != "" ==> file != null
    ensures sink.Discard? <==> outputFile == ""
    ensures sink.FileSink? ==> sink.w.f == file && sink.w.maxSize == Int64FromUint64(maxOutputSize)
  {
    if outputFile != "" {
      var w := new CheckSizeFileWriter(Int64FromUint64(maxOutputSize), file);
      sink := FileSink(w);
    } else {
      sink := Discard;
    }
  }
}
