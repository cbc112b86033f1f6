# dumpserver request recorder, modelled in Dafny

dumpserver is a small HTTP server that records every request it receives.
Each request is dumped in wire form, framed with a timestamp and separator
lines, and written to an output sink. The sink is either a file writer that
enforces a maximum file size or a sink that discards everything. Every
response is `200 OK`, whatever happens.

This project models the three pieces of logic in `main.go`:

- `framing.dfy`, module `Framing`: `serializeDump`, a pure function of the
  timestamp and the dump. It comes with `ParseDump`, an inverse that reads a
  record back, and round-trip lemmas in both directions. Go's
  `time.Now().String()` contains no line feed, and the round trip relies on that.
- `writer.dfy`, module `SizeCappedWriter`: the opened output file is class
  `OsFile`, holding a byte sequence. `checkSizeFileWriter` is class
  `CheckSizeFileWriter`, with the fields `maxSize` and `f`. Its `Write`
  method is proved against the function `CheckedWrite`, and lemmas prove the
  source's promises about that function: the cap check, the boundary, error
  propagation and append-only growth. Operating-system misbehaviour is an
  input of each call (`IoFault`). The size query can fail, and the append
  can store only a prefix of the data, which is when Go's `os.File.Write`
  returns an error.
- `handler.dfy`, module `Handler`: `dumper.ServeHTTP` over a sink. The sink
  is either the capped writer or `io.Discard`. `Handle` is the value-level
  specification and `ServeAll` runs it over a sequence of requests. The
  result of `httputil.DumpRequest` (a dump or a failure) and the timestamp
  are inputs. The log lines are reflected in the `Outcome` that the handler
  reports. This module also covers the startup choice of sink, including the
  `int64` conversion of the configured maximum size.
- `common.dfy`: the `Option` type and the `byte` type.

Behaviour of the code worth noting:
- The cap check is `size + len >= maxSize`. A write that would land exactly
  on the cap is therefore refused, and a successful write always leaves the
  file strictly below the cap.
- The rejection error reports the file's current size, not the maximum:
  `WouldExceedMax(length, size)` carries `|data|` and the current size.
- The configured maximum is a `uint64` that is stored through `int64(...)`.
  A value of 2^63 or more becomes negative, and every write is then refused
  (`HugeMaxOutputSizeRejectsAll`).

## Model

| member | source | states |
|---|---|---|
| `Framing.SerializeDump` | main.go:27-36 | The record is the timestamp, `"\n---\n"`, the dump verbatim and `"\n---\n\n"`. Its length is `\|ts\| + \|data\| + 11`, and the dump starts at offset `\|ts\| + 5`. |
| `Framing.ParseSerialize` | main.go:27-36 | For a timestamp without a line feed, reading the record back yields exactly the timestamp and the dump, for any (binary) dump. |
| `Framing.SerializeParse` | main.go:27-36 | Everything that reads back as (ts, dump) is exactly the record of (ts, dump), and its timestamp has no line feed. |
| `SizeCappedWriter.Append` | main.go:87 | Appending to the file stores a prefix of the data of length n, between 0 and `\|data\|`. The error is set exactly when n < `\|data\|`. |
| `SizeCappedWriter.CheckedWrite` | main.go:77-88 | A write succeeds exactly when the size query works, `size + len < maxSize` holds, and the append is not cut short. |
| `SizeCappedWriter.WriteRejectedAtCap` | main.go:83-85 | Once the size query succeeds, `size + len >= maxSize` gives n = -1, the cap error with the length and the current size, and an unchanged file. |
| `SizeCappedWriter.WriteAppendsBelowCap` | main.go:83-87 | Below the cap and without a fault, the file becomes `old + data`, n = `\|data\|` and there is no error. |
| `SizeCappedWriter.WriteStatFailure` | main.go:78-81 | A failing size query is returned with n = -1, and nothing is written. |
| `SizeCappedWriter.WriteAppendOnly` | main.go:77-88 | Every outcome only appends a prefix of the data. Success appends all of it. Every error except a short append writes nothing and returns n = -1. |
| `SizeCappedWriter.WriteKeepsBelowCap` | main.go:83-87 | After a successful write the file is strictly below the cap, and a file that started below the cap stays below it, whatever the outcome. |
| `SizeCappedWriter.ExactFitRejected` | main.go:83-85 | A write of exactly `maxSize - size` bytes is rejected, and the file is left unchanged. |
| `SizeCappedWriter.EmptyFileBoundary` | main.go:83-87 | On an empty file, a successful write is at most `maxSize - 1` bytes whatever the fault. Without a fault, a write succeeds if and only if it is at most `maxSize - 1` bytes. |
| `SizeCappedWriter.NonPositiveCapRejectsAll` | main.go:83-85 | With `maxSize <= 0` (0 is the default), every write fails with n = -1 and leaves the file unchanged, the empty write included. |
| `SizeCappedWriter.OsFile.Stat` | main.go:78-81 | Returns the file's size, or an error exactly when the metadata query fails. Reading does not change the file. |
| `SizeCappedWriter.OsFile.Write` | main.go:87 | An append to the file. The error is set exactly when fewer than `\|data\|` bytes were stored. |
| `SizeCappedWriter.CheckSizeFileWriter.constructor` | main.go:113-116 | The writer holds the given maximum and the given file. |
| `SizeCappedWriter.CheckSizeFileWriter.Write` | main.go:77-88 | The new file contents and (n, err) are those of `CheckedWrite` on the old contents. Success means `old + data` and n = `\|data\|`. The below-cap invariant is preserved. |
| `Handler.Handle` | main.go:38-53 | The response status is 200 for every sink, capture result and fault. |
| `Handler.CaptureFailureWritesNothing` | main.go:43-47 | A failed capture logs the failure and leaves the sink's state untouched. |
| `Handler.CapturedWritesRecord` | main.go:49-52 | A captured request issues one write, of its framed record. A write error is only logged, and the status is still 200. |
| `Handler.DiscardChangesNothing` | main.go:118-119 | With the discard sink, the state never changes and no write error is ever reported. |
| `Handler.RecordedRequestReadsBack` | main.go:49 | After a recorded request, the file is the old contents followed by the record, and that suffix reads back as the request's timestamp and dump. |
| `Handler.ServeAllKeepsBelowCap` | main.go:83 | Serving any sequence of requests, with any faults, keeps a file that started below the cap below it. |
| `Handler.ServeAllAppendOnly` | main.go:77-88 | Serving any sequence of requests never removes or rewrites what the file already held. |
| `Handler.ServeAllRecordsInOrder` | main.go:49 | Without faults, and if all records fit below the cap, the file ends as its old contents followed by every captured request's record, in order. |
| `Handler.ServeAllDiscard` | main.go:119 | Any sequence of requests leaves the discard sink as it was. |
| `Handler.SinkWrite` | main.go:49 | The discard sink stays as it is and never fails. A write to the file sink keeps its maximum and keeps the old contents as a prefix. |
| `Handler.WriteToSink` | main.go:49 | A write to either sink follows `SinkWrite`. The file sink returns the capped writer's n. The discard sink reports every byte as written and never fails. |
| `Handler.ServeHTTP` | main.go:38-53 | Status, outcome and new sink state are those of `Handle`. The status is 200. A failed capture leaves the sink unchanged. |
| `Handler.Int64FromUint64` | main.go:114 | The `int64` value has the same 64 bits as the `uint64` flag value, and lies in the `int64` range. |
| `Handler.HugeMaxOutputSizeRejectsAll` | main.go:114 | A maximum of 2^63 or more becomes negative, and then every write fails without touching the file. |
| `Handler.SelectOutput` | main.go:104-120 | A non-empty output path gives the capped writer over the opened file, with the converted maximum. An empty path gives the discard sink. |

## Left out

- Flag parsing and environment fallbacks (main.go:91-102): configuration I/O. The listen address check at main.go:100-102 guards only the server start.
- `humanBytes.Set` and `humanBytes.String` (main.go:55-70): wrappers over the external go-humanize library. The maximum size arrives as an already parsed number.
- `httputil.DumpRequest`, `time.Now` and `log.Printf`: foreign calls. The dump (or its failure) and the timestamp bytes are inputs, and logging is the returned `Outcome`.
- The text of the error messages. Only the error kind and the numbers they report are kept.
- Opening the output file with `os.OpenFile` (main.go:109-112) and the fatal exit when that fails: the model starts from an already open file.
- The HTTP server, routing, `ListenAndServe` and the signal-driven shutdown with its 5-second timeout (main.go:122-150): I/O, signals and concurrency.
- Concurrent handlers sharing one writer: the model is sequential. The cap invariant holds only when no two writes interleave their size check and their append.
- SizeCappedWriter.CheckedWrite: `size + len(data)` is an unbounded sum, not a wrapping `int64` addition. The wrap would need a file of about 8 EiB.
