/** Byte-level vocabulary shared by every part of the log parser: the byte
    type, the wire constants and the frame-validity heuristic (isValidMessage). */
module Framing {

  /** One byte of the log, as C's `unsigned char`. */
  type byte = x: int | 0 <= x < 256

  /** The type id reserved for FMT records (FMT_ID). */
  const FmtId: byte := 128

  /** Capacity of the format table and size of every per-call id table (MAX_MSG_TYPES). */
  const MaxMsgTypes: nat := 256

  /** The FMT record length assumed when the log declares none. */
  const DefaultFmtLength: byte := 89

  /** Bytes of the frame that starts every record: two header bytes and the type id. */
  const FrameLength: nat := 3

  /** One past the last byte, counted from the start of an FMT record, that the
      format table builder reads: 3 frame bytes, type, length, a 4-byte name,
      16 format bytes and 64 label bytes. */
  const FmtFieldsEnd: nat := 89

  /** The two header bytes stand at `pos`. */
  predicate HeaderAt(log: seq<byte>, h0: byte, h1: byte, pos: int)
  {
    0 <= pos && pos + 1 < |log| && log[pos] == h0 && log[pos + 1] == h1
  }

  /** A record of `len` bytes at `pos` looks well framed: it fits in the log,
      and either the log ends within one byte of its end or the next record's
      header follows it. There is no checksum; this is the format's only
      integrity test. (The C function also takes the type id, which it never uses.) */
  function IsValidMessage(log: seq<byte>, h0: byte, h1: byte, pos: nat, len: nat): (r: bool)
    ensures pos + len > |log| ==> !r
    ensures pos + len <= |log| <= pos + len + 1 ==> r
    ensures pos + len + 1 < |log| ==> (r <==> HeaderAt(log, h0, h1, pos + len))
  {
    if pos + len > |log| then false
    else
      var next := pos + len;
      if next >= |log| then true
      else if next + 1 < |log| then log[next] == h0 && log[next + 1] == h1
      else true
  }
}
