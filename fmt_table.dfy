/** FormatTableBuilder (parseFmtMessages): the table of message formats that
    the log declares through its FMT records. */
module FmtTable {
  import opened Framing

  /** One declared message type (the C struct FmtMessage). The strings are the
      C strings of the fixed-width fields: the bytes before the first zero. */
  datatype FmtRecord = FmtRecord(
    typeId: byte,
    length: byte,
    name: seq<byte>,
    format: seq<byte>,
    labels: seq<byte>)

  /** The C-string reading of a fixed-width, NUL-padded field. */
  function UntilNul(field: seq<byte>): (s: seq<byte>)
    ensures s <= field
    ensures 0 !in s
    ensures |s| < |field| ==> field[|s|] == 0
  {
    if |field| == 0 || field[0] == 0 then [] else [field[0]] + UntilNul(field[1..])
  }

  /** The three properties of UntilNul single out one prefix. */
  lemma {:induction false} UntilNulUnique(field: seq<byte>, p: seq<byte>)
    requires p <= field && 0 !in p
    requires |p| < |field| ==> field[|p|] == 0
    ensures p == UntilNul(field)
  {
    if |field| > 0 && field[0] != 0 && |p| > 0 {
      UntilNulUnique(field[1..], p[1..]);
    }
  }

  /** Finds the first zero byte of a field and cuts the field there. This is
      how the C reads each NUL-terminated copy as a C string; the search loops
      after each memcpy in parseFmtMessages only write a zero over a byte that
      is zero already, so they change nothing. */
  method CutAtNul(field: seq<byte>) returns (s: seq<byte>)
    ensures s == UntilNul(field)
  {
    var j := 0;
    while j < |field|
      invariant 0 <= j <= |field|
      invariant forall k :: 0 <= k < j ==> field[k] != 0
    {
      if field[j] == 0 {
        break;
      }
      j := j + 1;
    }
    s := field[..j];
    UntilNulUnique(field, s);
  }

  /** The table entry read from an FMT record that starts at offset `i`. */
  function FmtRecordAt(log: seq<byte>, i: nat): FmtRecord
    requires i + FmtFieldsEnd <= |log|
  {
    FmtRecord(
      log[i + 3],
      log[i + 4],
      UntilNul(log[i + 5 .. i + 9]),
      UntilNul(log[i + 9 .. i + 25]),
      UntilNul(log[i + 25 .. i + 89]))
  }

  /** parseFmtMessages accepts offset `i`: the 3-byte FMT frame stands there
      and a record of the probed FMT length `fl` passes the frame check. */
  predicate FmtCandidate(log: seq<byte>, h0: byte, h1: byte, fl: nat, i: int)
  {
    0 <= i && i + 3 <= |log|
    && HeaderAt(log, h0, h1, i) && log[i + 2] == FmtId
    && IsValidMessage(log, h0, h1, i, fl)
  }

  /** What the C loop needs to stay inside the log: `fl` is at least the
      3 bytes memcmp reads and at most the log's length (the loop bound
      `log_size - fmt_length` must not wrap), and the 89-byte field block of
      every FMT record the table keeps fits in the log. Candidates after the
      256th are never read and so are not constrained. */
  predicate FmtScanDefined(log: seq<byte>, h0: byte, h1: byte, fl: nat)
  {
    && FrameLength <= fl <= |log|
    && FieldsFit(log, FmtOffsets(log, h0, h1, fl))
  }

  /** The accepted offsets below `n`, in scan order. */
  function CandidatesBelow(log: seq<byte>, h0: byte, h1: byte, fl: nat, n: nat): (c: seq<nat>)
    ensures |c| <= n
    ensures forall k :: 0 <= k < |c| ==> c[k] < n
    decreases n
  {
    if n == 0 then []
    else CandidatesBelow(log, h0, h1, fl, n - 1)
         + (if FmtCandidate(log, h0, h1, fl, n - 1) then [n - 1] else [])
  }

  /** The offsets of the FMT records the table keeps: the first 256 candidates
      of the range `0 <= i <= |log| - fl`. */
  function FmtOffsets(log: seq<byte>, h0: byte, h1: byte, fl: nat): seq<nat>
    requires fl <= |log|
  {
    var c := CandidatesBelow(log, h0, h1, fl, |log| - fl + 1);
    if |c| <= MaxMsgTypes then c else c[..MaxMsgTypes]
  }

  /** The 89-byte field block at each of the offsets lies inside the log. */
  predicate FieldsFit(log: seq<byte>, offs: seq<nat>)
  {
    forall k :: 0 <= k < |offs| ==> offs[k] + FmtFieldsEnd <= |log|
  }

  /** The table entries read at the given offsets. */
  function RecordsAt(log: seq<byte>, offs: seq<nat>): seq<FmtRecord>
    requires FieldsFit(log, offs)
  {
    seq(|offs|, k requires 0 <= k < |offs| => FmtRecordAt(log, offs[k]))
  }

  /** The format table parseFmtMessages builds. */
  function FormatTable(log: seq<byte>, h0: byte, h1: byte, fl: nat): seq<FmtRecord>
    requires FmtScanDefined(log, h0, h1, fl)
  {
    FmtOffsetsSound(log, h0, h1, fl);
    RecordsAt(log, FmtOffsets(log, h0, h1, fl))
  }

  // ---------------------------------------------------------------------
  // Lemmas about the candidate list

  /** Strictly increasing offsets. */
  predicate OffsetsIncreasing(offs: seq<nat>)
  {
    forall a, b :: 0 <= a < b < |offs| ==> offs[a] < offs[b]
  }

  lemma PrefixIncreasing(c: seq<nat>, p: seq<nat>)
    requires OffsetsIncreasing(c) && p <= c
    ensures OffsetsIncreasing(p)
  {
    forall a, b | 0 <= a < b < |p| ensures p[a] < p[b] {
      assert p[a] == c[a] && p[b] == c[b];
    }
  }

  /** Every listed offset is accepted. */
  lemma {:induction false} CandidatesSound(log: seq<byte>, h0: byte, h1: byte, fl: nat, n: nat)
    ensures forall k :: 0 <= k < |CandidatesBelow(log, h0, h1, fl, n)| ==>
      FmtCandidate(log, h0, h1, fl, CandidatesBelow(log, h0, h1, fl, n)[k])
    decreases n
  {
    if n > 0 {
      CandidatesSound(log, h0, h1, fl, n - 1);
    }
  }

  /** No offset below `n` is accepted exactly when none is listed. */
  lemma {:induction false} CandidatesEmptyIff(log: seq<byte>, h0: byte, h1: byte, fl: nat, n: nat)
    ensures CandidatesBelow(log, h0, h1, fl, n) == [] <==> forall i :: 0 <= i < n ==> !FmtCandidate(log, h0, h1, fl, i)
    decreases n
  {
    if n > 0 {
      CandidatesEmptyIff(log, h0, h1, fl, n - 1);
    }
  }

  /** The field blocks of the candidates fit as long as there are at most
      256 of them: they are then a prefix of the kept offsets. */
  lemma CandidatesFit(log: seq<byte>, h0: byte, h1: byte, fl: nat, n: nat)
    requires FmtScanDefined(log, h0, h1, fl) && n <= |log| - fl + 1
    requires |CandidatesBelow(log, h0, h1, fl, n)| <= MaxMsgTypes
    ensures FieldsFit(log, CandidatesBelow(log, h0, h1, fl, n))
  {
    var N := |log| - fl + 1;
    CandidatesPrefix(log, h0, h1, fl, n, N);
    var c, offs := CandidatesBelow(log, h0, h1, fl, n), FmtOffsets(log, h0, h1, fl);
    assert c <= offs;
    forall k | 0 <= k < |c| ensures c[k] + FmtFieldsEnd <= |log| {
      assert c[k] == offs[k];
    }
  }

  lemma {:induction false} CandidatesIncreasing(log: seq<byte>, h0: byte, h1: byte, fl: nat, n: nat)
    ensures OffsetsIncreasing(CandidatesBelow(log, h0, h1, fl, n))
    decreases n
  {
    if n > 0 {
      CandidatesIncreasing(log, h0, h1, fl, n - 1);
      var c', c := CandidatesBelow(log, h0, h1, fl, n - 1), CandidatesBelow(log, h0, h1, fl, n);
      assert c[..|c'|] == c';
      forall a, b | 0 <= a < b < |c| ensures c[a] < c[b] {
        if b < |c'| {
          assert c[a] == c'[a] && c[b] == c'[b];
        } else {
          assert c[a] == c'[a] < n - 1 == c[b];
        }
      }
    }
  }

  lemma {:induction false} CandidatesComplete(log: seq<byte>, h0: byte, h1: byte, fl: nat, n: nat, i: nat)
    requires i < n && FmtCandidate(log, h0, h1, fl, i)
    ensures i in CandidatesBelow(log, h0, h1, fl, n)
    decreases n
  {
    if i < n - 1 {
      CandidatesComplete(log, h0, h1, fl, n - 1, i);
    }
  }

  lemma {:induction false} CandidatesPrefix(log: seq<byte>, h0: byte, h1: byte, fl: nat, m: nat, n: nat)
    requires m <= n
    ensures CandidatesBelow(log, h0, h1, fl, m) <= CandidatesBelow(log, h0, h1, fl, n)
    decreases n - m
  {
    if m < n {
      CandidatesPrefix(log, h0, h1, fl, m, n - 1);
    }
  }

  /** A rejected offset adds nothing. */
  lemma CandidatesSkip(log: seq<byte>, h0: byte, h1: byte, fl: nat, n: nat)
    requires !FmtCandidate(log, h0, h1, fl, n)
    ensures CandidatesBelow(log, h0, h1, fl, n + 1) == CandidatesBelow(log, h0, h1, fl, n)
  {
  }

  /** Below the cap, examining offset `n` extends the records read so far by
      the record at `n` when it is accepted, and leaves them alone otherwise. */
  lemma RecordsStep(log: seq<byte>, h0: byte, h1: byte, fl: nat, n: nat)
    requires FmtScanDefined(log, h0, h1, fl) && n <= |log| - fl
    requires |CandidatesBelow(log, h0, h1, fl, n)| < MaxMsgTypes
    ensures FieldsFit(log, CandidatesBelow(log, h0, h1, fl, n))
    ensures FieldsFit(log, CandidatesBelow(log, h0, h1, fl, n + 1))
    ensures FmtCandidate(log, h0, h1, fl, n) ==> n + FmtFieldsEnd <= |log|
    ensures RecordsAt(log, CandidatesBelow(log, h0, h1, fl, n + 1))
            == RecordsAt(log, CandidatesBelow(log, h0, h1, fl, n))
               + (if FmtCandidate(log, h0, h1, fl, n) then [FmtRecordAt(log, n)] else [])
  {
    CandidatesFit(log, h0, h1, fl, n + 1);
    CandidatesFit(log, h0, h1, fl, n);
    if FmtCandidate(log, h0, h1, fl, n) {
      var c := CandidatesBelow(log, h0, h1, fl, n + 1);
      assert c[|c| - 1] == n;
    }
  }

  /** Once the table holds 256 entries after examining offsets below `n`,
      the kept offsets are exactly those candidates. */
  lemma CappedOffsets(log: seq<byte>, h0: byte, h1: byte, fl: nat, n: nat)
    requires fl <= |log| && n <= |log| - fl + 1
    requires |CandidatesBelow(log, h0, h1, fl, n)| == MaxMsgTypes
    ensures FmtOffsets(log, h0, h1, fl) == CandidatesBelow(log, h0, h1, fl, n)
  {
    var N := |log| - fl + 1;
    CandidatesPrefix(log, h0, h1, fl, n, N);
    var cn, cN := CandidatesBelow(log, h0, h1, fl, n), CandidatesBelow(log, h0, h1, fl, N);
    assert cN[..MaxMsgTypes] == cn;
  }

  // ---------------------------------------------------------------------
  // Properties of the format table

  /** Each kept offset is an accepted FMT record inside the scanned range
      whose field block fits in the log, and the offsets increase. */
  lemma FmtOffsetsSound(log: seq<byte>, h0: byte, h1: byte, fl: nat)
    requires FmtScanDefined(log, h0, h1, fl)
    ensures |FmtOffsets(log, h0, h1, fl)| <= MaxMsgTypes
    ensures forall k :: 0 <= k < |FmtOffsets(log, h0, h1, fl)| ==>
      && FmtOffsets(log, h0, h1, fl)[k] <= |log| - fl
      && FmtCandidate(log, h0, h1, fl, FmtOffsets(log, h0, h1, fl)[k])
      && FmtOffsets(log, h0, h1, fl)[k] + FmtFieldsEnd <= |log|
    ensures OffsetsIncreasing(FmtOffsets(log, h0, h1, fl))
  {
    var n := |log| - fl + 1;
    CandidatesIncreasing(log, h0, h1, fl, n);
    CandidatesSound(log, h0, h1, fl, n);
    var c := CandidatesBelow(log, h0, h1, fl, n);
    var offs := FmtOffsets(log, h0, h1, fl);
    assert offs <= c;
    forall k | 0 <= k < |offs|
      ensures offs[k] <= |log| - fl && FmtCandidate(log, h0, h1, fl, offs[k])
      ensures offs[k] + FmtFieldsEnd <= |log|
    {
      assert offs[k] == c[k];
      assert c[k] < n;
    }
    PrefixIncreasing(c, offs);
  }

  /** Entry `k` of the table holds the fields of the FMT record at the k-th kept
      offset, read at their fixed payload offsets and cut at the first zero. */
  lemma FmtTableEntry(log: seq<byte>, h0: byte, h1: byte, fl: nat, k: nat)
    requires FmtScanDefined(log, h0, h1, fl)
    requires k < |FmtOffsets(log, h0, h1, fl)|
    ensures |FormatTable(log, h0, h1, fl)| == |FmtOffsets(log, h0, h1, fl)|
    ensures var i, t := FmtOffsets(log, h0, h1, fl)[k], FormatTable(log, h0, h1, fl);
      && i + FmtFieldsEnd <= |log|
      && t[k].typeId == log[i + 3]
      && t[k].length == log[i + 4]
      && t[k].name == UntilNul(log[i + 5 .. i + 9])
      && t[k].format == UntilNul(log[i + 9 .. i + 25])
      && t[k].labels == UntilNul(log[i + 25 .. i + 89])
  {
    FmtOffsetsSound(log, h0, h1, fl);
  }

  /** Below the cap no accepted FMT record is missed. */
  lemma FmtTableComplete(log: seq<byte>, h0: byte, h1: byte, fl: nat, i: nat)
    requires FmtScanDefined(log, h0, h1, fl)
    requires |FmtOffsets(log, h0, h1, fl)| < MaxMsgTypes
    requires i <= |log| - fl && FmtCandidate(log, h0, h1, fl, i)
    ensures i in FmtOffsets(log, h0, h1, fl)
  {
    CandidatesComplete(log, h0, h1, fl, |log| - fl + 1, i);
  }

  /** The table is empty exactly when the log holds no acceptable FMT record:
      the one case in which the whole parse fails. */
  lemma FmtTableEmptyIff(log: seq<byte>, h0: byte, h1: byte, fl: nat)
    requires FmtScanDefined(log, h0, h1, fl)
    ensures |FormatTable(log, h0, h1, fl)| == 0
            <==> forall i :: 0 <= i <= |log| - fl ==> !FmtCandidate(log, h0, h1, fl, i)
  {
    CandidatesEmptyIff(log, h0, h1, fl, |log| - fl + 1);
  }
}
