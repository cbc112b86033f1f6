/**
 * The record written for each captured request (serializeDump in main.go):
 * the timestamp, the separator line "---", the raw dump passed through
 * verbatim, the separator line again and an empty line.
 * The wall clock is a parameter: `ts` stands for the bytes of time.Now().String().
 */
module Framing {
  import opened Wrappers
  import opened Bytes

  /** "\n---\n": ends the timestamp line and opens the payload. */
  const Separator: seq<byte> := [NEWLINE, DASH, DASH, DASH, NEWLINE]

  /** "\n---\n\n": closes the payload and leaves an empty line between records. */
  const Trailer: seq<byte> := Separator + [NEWLINE]

  /** Offset of the payload inside the record built for timestamp `ts`. */
  function PayloadOffset(ts: seq<byte>): nat
  {
    |ts| + |Separator|
  }

  /** The framed record for dump `data` taken at time `ts`. */
  function SerializeDump(ts: seq<byte>, data: seq<byte>): (r: seq<byte>)
    ensures |r| == |ts| + |data| + 11
    ensures r[..|ts|] == ts
    ensures r[|ts|..PayloadOffset(ts)] == Separator
    ensures r[PayloadOffset(ts)..PayloadOffset(ts) + |data|] == data
    ensures r[PayloadOffset(ts) + |data|..] == Trailer
  {
    ts + Separator + data + Trailer
  }

  /** Index of the first line feed of `s`, or |s| when there is none. */
  function FirstNewline(s: seq<byte>): (i: nat)
    ensures i <= |s|
    ensures i < |s| ==> s[i] == NEWLINE
    ensures NoNewline(s[..i])
  {
    if |s| == 0 || s[0] == NEWLINE then 0
    else
      var j := FirstNewline(s[1..]);
      assert s[..1 + j] == [s[0]] + s[1..][..j];
      1 + j
  }

  /**
   * Reads a record back: the timestamp is everything before the first line
   * feed, the payload everything between the separator and the trailer.
   * This is the inverse of SerializeDump (ParseSerialize, SerializeParse).
   */
  function ParseDump(r: seq<byte>): Option<(seq<byte>, seq<byte>)>
  {
    var i := FirstNewline(r);
    if i + |Separator| + |Trailer| <= |r|
       && r[i..i + |Separator|] == Separator
       && r[|r| - |Trailer|..] == Trailer
    then Some((r[..i], r[i + |Separator|..|r| - |Trailer|]))
    else None
  }

  /** Any dump, binary or not, is recovered from its record, as is the timestamp. */
  lemma ParseSerialize(ts: seq<byte>, data: seq<byte>)
    requires NoNewline(ts)
    ensures ParseDump(SerializeDump(ts, data)) == Some((ts, data))
  {
    var r := SerializeDump(ts, data);
    var i := FirstNewline(r);
    // the first line feed of the record is the one that ends the timestamp
    assert r[|ts|] == NEWLINE;
    assert i == |ts|;
  }

  /** Everything ParseDump accepts is a record built by SerializeDump. */
  lemma SerializeParse(r: seq<byte>, ts: seq<byte>, data: seq<byte>)
    requires ParseDump(r) == Some((ts, data))
    ensures NoNewline(ts)
    ensures SerializeDump(ts, data) == r
  {
  }
}
