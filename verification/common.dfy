/** The optional-value wrapper used for the error results of the model. */
module Wrappers {

  datatype Option<+T> = None | Some(value: T)
}

/** Raw bytes, as handled by the request recorder: request dumps, records and file contents. */
module Bytes {

  newtype byte = b: int | 0 <= b < 0x100

  /** '\n' */
  const NEWLINE: byte := 10
  /** '-' */
  const DASH: byte := 45

  /** True when no byte of `s` is a line feed. */
  predicate NoNewline(s: seq<byte>)
  {
    forall i :: 0 <= i < |s| ==> s[i] != NEWLINE
  }
}
