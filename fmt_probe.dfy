/** FormatLengthProbe (findFmtLength): the byte length of FMT records, read
    from the first FMT record that declares FMT itself. */
module FmtProbe {
  import opened Framing

  /** Offset `i` holds the frame of an FMT record whose declared type is FMT
      again, and the length byte after it lies inside the scanned range
      `0 <= i <= |log| - 5`. */
  predicate ProbeMatchAt(log: seq<byte>, h0: byte, h1: byte, i: int)
  {
    0 <= i && i + 5 <= |log|
    && HeaderAt(log, h0, h1, i) && log[i + 2] == FmtId
    && log[i + 3] == FmtId
  }

  /** The value the probe settles on when it starts looking at offset `i`. */
  function ProbeFrom(log: seq<byte>, h0: byte, h1: byte, i: nat): byte
    decreases |log| - i
  {
    if i + 5 > |log| then DefaultFmtLength
    else if ProbeMatchAt(log, h0, h1, i) then log[i + 4]
    else ProbeFrom(log, h0, h1, i + 1)
  }

  /** The FMT record length that findFmtLength stores in the parser. */
  function ProbeFmtLength(log: seq<byte>, h0: byte, h1: byte): byte
  {
    ProbeFrom(log, h0, h1, 0)
  }

  lemma {:induction false} ProbeFromFirstMatch(log: seq<byte>, h0: byte, h1: byte, i: nat, j: nat)
    requires i <= j && ProbeMatchAt(log, h0, h1, j)
    requires forall k :: i <= k < j ==> !ProbeMatchAt(log, h0, h1, k)
    ensures ProbeFrom(log, h0, h1, i) == log[j + 4]
    decreases j - i
  {
    if i < j {
      ProbeFromFirstMatch(log, h0, h1, i + 1, j);
    }
  }

  lemma {:induction false} ProbeFromNoMatch(log: seq<byte>, h0: byte, h1: byte, i: nat)
    requires forall k :: i <= k ==> !ProbeMatchAt(log, h0, h1, k)
    ensures ProbeFrom(log, h0, h1, i) == DefaultFmtLength
    decreases |log| - i
  {
    if i + 5 <= |log| {
      ProbeFromNoMatch(log, h0, h1, i + 1);
    }
  }

  /** The probe returns the length byte of the first `[h0, h1, 128, 128]` match. */
  lemma ProbeFindsFirstMatch(log: seq<byte>, h0: byte, h1: byte, j: nat)
    requires ProbeMatchAt(log, h0, h1, j)
    requires forall k :: 0 <= k < j ==> !ProbeMatchAt(log, h0, h1, k)
    ensures ProbeFmtLength(log, h0, h1) == log[j + 4]
  {
    ProbeFromFirstMatch(log, h0, h1, 0, j);
  }

  /** Without any match the probe falls back to 89. */
  lemma ProbeDefaultsTo89(log: seq<byte>, h0: byte, h1: byte)
    requires forall k :: !ProbeMatchAt(log, h0, h1, k)
    ensures ProbeFmtLength(log, h0, h1) == 89
  {
    ProbeFromNoMatch(log, h0, h1, 0);
  }
}
