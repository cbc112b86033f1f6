/**
 * The size-capped file writer (checkSizeFileWriter in main.go).
 *
 * The backing file is an already opened, append-only file whose contents are
 * a byte sequence. What the operating system does wrong is a parameter of
 * each call (IoFault): the size query can fail, and the append can stop
 * short. The model is sequential: the cap holds only as long as no two
 * writes interleave their size check and their append.
 */
module SizeCappedWriter {
  import opened Wrappers
  import opened Bytes

  /** What the operating system does to one write. */
  datatype IoFault =
    | NoFault
    | StatFails                     // querying the file's metadata fails
    | ShortAppend(accepted: nat)    // the append stores at most `accepted` bytes

  datatype WriteError =
    | StatError                              // the size query's error, passed on as it is
    | WouldExceedMax(length: nat, size: nat) // the cap rejection; reports the write's length and the file's current size
    | ShortWrite(written: nat)               // the append stored only `written` bytes

  /** The file after one write, with the (n, err) pair the write returns. */
  datatype WriteStep = WriteStep(file: seq<byte>, n: int, err: Option<WriteError>)

  /** Appending to a file opened for appending: all of `data`, or a prefix and an error. */
  function Append(file: seq<byte>, data: seq<byte>, fault: IoFault): (r: WriteStep)
    ensures 0 <= r.n <= |data| && r.file == file + data[..r.n]
    ensures r.err.None? <==> r.n == |data|
  {
    if fault.ShortAppend? && fault.accepted < |data| then
      WriteStep(file + data[..fault.accepted], fault.accepted, Some(ShortWrite(fault.accepted)))
    else
      WriteStep(file + data, |data|, None)
  }

  /** One call of the capped writer's Write on a file holding `file`. */
  function CheckedWrite(file: seq<byte>, maxSize: int, data: seq<byte>, fault: IoFault): (r: WriteStep)
    ensures r.err.None? <==>
      && !fault.StatFails?
      && |file| + |data| < maxSize
      && !(fault.ShortAppend? && fault.accepted < |data|)
  {
    if fault.StatFails? then WriteStep(file, -1, Some(StatError))
    else if |file| + |data| >= maxSize then WriteStep(file, -1, Some(WouldExceedMax(|data|, |file|)))
    else Append(file, data, fault)
  }

  /** A write that would reach or pass the cap fails with n = -1 and leaves the file as it was. */
  lemma WriteRejectedAtCap(file: seq<byte>, maxSize: int, data: seq<byte>, fault: IoFault)
    requires !fault.StatFails?
    requires |file| + |data| >= maxSize
    ensures CheckedWrite(file, maxSize, data, fault) == WriteStep(file, -1, Some(WouldExceedMax(|data|, |file|)))
  {
  }

  /** A write that stays below the cap and meets no fault appends `data` and returns its length. */
  lemma WriteAppendsBelowCap(file: seq<byte>, maxSize: int, data: seq<byte>)
    requires |file| + |data| < maxSize
    ensures CheckedWrite(file, maxSize, data, NoFault) == WriteStep(file + data, |data|, None)
  {
  }

  /** A failing size query is returned with n = -1 and nothing is written. */
  lemma WriteStatFailure(file: seq<byte>, maxSize: int, data: seq<byte>)
    ensures CheckedWrite(file, maxSize, data, StatFails) == WriteStep(file, -1, Some(StatError))
  {
  }

  /**
   * Whatever happens, the file only grows by a prefix of `data`; on any error
   * other than a short append nothing at all is written.
   */
  lemma WriteAppendOnly(file: seq<byte>, maxSize: int, data: seq<byte>, fault: IoFault)
    ensures var s := CheckedWrite(file, maxSize, data, fault);
      && |file| <= |s.file| <= |file| + |data|
      && s.file == file + data[..|s.file| - |file|]
      && (s.err.None? ==> s.file == file + data && s.n == |data|)
      && (s.err.Some? && !s.err.value.ShortWrite? ==> s.file == file && s.n == -1)
  {
  }

  /**
   * The cap invariant: a successful write always leaves the file strictly
   * below the cap, and a file that was below the cap stays below it.
   */
  lemma WriteKeepsBelowCap(file: seq<byte>, maxSize: int, data: seq<byte>, fault: IoFault)
    ensures CheckedWrite(file, maxSize, data, fault).err.None? ==> |CheckedWrite(file, maxSize, data, fault).file| < maxSize
    ensures |file| < maxSize ==> |CheckedWrite(file, maxSize, data, fault).file| < maxSize
  {
  }

  /**
   * The boundary: a write that would fill the file exactly up to the cap is
   * rejected, so on an empty file the largest accepted write is maxSize - 1 bytes.
   */
  lemma ExactFitRejected(file: seq<byte>, maxSize: int, data: seq<byte>, fault: IoFault)
    requires !fault.StatFails?
    requires |file| + |data| == maxSize
    ensures CheckedWrite(file, maxSize, data, fault).err == Some(WouldExceedMax(|data|, |file|))
    ensures CheckedWrite(file, maxSize, data, fault).file == file
  {
  }

  /**
   * On an empty file: a write of maxSize or more bytes fails whatever the
   * operating system does, and without a fault maxSize - 1 bytes fit.
   */
  lemma EmptyFileBoundary(maxSize: int, data: seq<byte>, fault: IoFault)
    ensures CheckedWrite([], maxSize, data, fault).err.None? ==> |data| <= maxSize - 1
    ensures CheckedWrite([], maxSize, data, NoFault).err.None? <==> |data| <= maxSize - 1
  {
  }

  /** With a cap of zero or less (zero is the default) every write fails, the empty one included. */
  lemma NonPositiveCapRejectsAll(file: seq<byte>, maxSize: int, data: seq<byte>, fault: IoFault)
    requires maxSize <= 0
    ensures CheckedWrite(file, maxSize, data, fault).err.Some?
    ensures CheckedWrite(file, maxSize, data, fault).file == file
    ensures CheckedWrite(file, maxSize, data, fault).n == -1
  {
  }

  /** The opened output file. */
  class OsFile {
    var contents: seq<byte>

    constructor (initial: seq<byte>)
      ensures contents == initial
    {
      contents := initial;
    }

    /** The file's size, unless the metadata query fails. */
    method Stat(fault: IoFault) returns (size: int, err: Option<WriteError>)
      ensures err.None? <==> !fault.StatFails?
      ensures err.Some? ==> err == Some(StatError)
      ensures err.None? ==> size == |contents|
    {
      if fault.StatFails? {
        size, err := -1, Some(StatError);
      } else {
        size, err := |contents|, None;
      }
    }

    /** Appends `data`; the error is set exactly when fewer bytes were stored. */
    method Write(data: seq<byte>, fault: IoFault) returns (n: int, err: Option<WriteError>)
      modifies this
      ensures WriteStep(contents, n, err) == Append(old(contents), data, fault)
      ensures err.None? <==> n == |data|
    {
      if fault.ShortAppend? && fault.accepted < |data| {
        contents := contents + data[..fault.accepted];
        n, err := fault.accepted, Some(ShortWrite(fault.accepted));
      } else {
        contents := contents + data;
        n, err := |data|, None;
      }
    }
  }

  class CheckSizeFileWriter {
    const maxSize: int
    const f: OsFile

    constructor (maxSize: int, f: OsFile)
      ensures this.maxSize == maxSize && this.f == f
    {
      this.maxSize := maxSize;
      this.f := f;
    }

    /** The cap invariant: the file is strictly smaller than maxSize. */
    predicate BelowCap()
      reads f
    {
      |f.contents| < maxSize
    }

    /**
     * Checks the file's current size first and refuses, writing nothing, when
     * the write would reach or pass maxSize; otherwise appends `data`.
     */
    method Write(data: seq<byte>, fault: IoFault) returns (n: int, err: Option<WriteError>)
      modifies f
      ensures WriteStep(f.contents, n, err) == CheckedWrite(old(f.contents), maxSize, data, fault)
      ensures err.None? ==> BelowCap() && f.contents == old(f.contents) + data && n == |data|
      ensures old(BelowCap()) ==> BelowCap()
    {
      var size, statErr := f.Stat(fault);
      if statErr.Some? {
        return -1, statErr;
      }
      if size + |data| >= maxSize {
        return -1, Some(WouldExceedMax(|data|, size));
      }
      n, err := f.Write(data, fault);
    }
  }
}
