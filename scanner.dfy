/** MessageScanner (the main loop of parseAllMessages): the single forward
    pass that extracts every record of every selected type, as a function of
    the log, the format table and the lookup table. */
module Scanner {
  import opened Framing
  import opened FmtTable
  import opened Dispatch

  /** One extracted record: the index of its format in the table, the offset
      the parser records for it (pos + 1, where pos is its first header byte)
      and its payload. */
  datatype Instance = Instance(fmtIndex: nat, offset: nat, payload: seq<byte>)

  /** The scan accepts a record at `pos`: the header stands there, the type id
      after it is dispatched to a format, the record fits in the log and it
      passes the frame check. */
  predicate RecordAt(log: seq<byte>, h0: byte, h1: byte, fmts: seq<FmtRecord>, lookup: seq<int>, pos: int)
    requires LookupInRange(fmts, lookup)
  {
    && 0 <= pos && pos + 2 < |log|
    && HeaderAt(log, h0, h1, pos)
    && lookup[log[pos + 2]] >= 0
    && pos + fmts[lookup[log[pos + 2]]].length <= |log|
    && IsValidMessage(log, h0, h1, pos, fmts[lookup[log[pos + 2]]].length)
  }

  /** The records the scan extracts when it stands at `pos`. After an accepted
      record it resumes just past the record's end; otherwise one byte later. */
  function ScanFrom(log: seq<byte>, h0: byte, h1: byte, fmts: seq<FmtRecord>, lookup: seq<int>, pos: nat): seq<Instance>
    requires LookupInRange(fmts, lookup) && DispatchLengthsSafe(fmts, lookup)
    decreases |log| - pos
  {
    if pos + 2 >= |log| then []
    else if RecordAt(log, h0, h1, fmts, lookup, pos) then
      var idx := lookup[log[pos + 2]];
      var len := fmts[idx].length;
      [Instance(idx, pos + 1, log[pos + 3 .. pos + len])] + ScanFrom(log, h0, h1, fmts, lookup, pos + len)
    else
      ScanFrom(log, h0, h1, fmts, lookup, pos + 1)
  }

  /** The records of the whole log. */
  function ScanLog(log: seq<byte>, h0: byte, h1: byte, fmts: seq<FmtRecord>, lookup: seq<int>): seq<Instance>
    requires LookupInRange(fmts, lookup) && DispatchLengthsSafe(fmts, lookup)
  {
    ScanFrom(log, h0, h1, fmts, lookup, 0)
  }

  /** `x` is a record the scan may extract: it was accepted at offset
      x.offset - 1, it belongs to the format its type id dispatches to, and its
      payload is the log slice after its 3-byte frame. */
  predicate Extracted(log: seq<byte>, h0: byte, h1: byte, fmts: seq<FmtRecord>, lookup: seq<int>, x: Instance)
    requires LookupInRange(fmts, lookup) && DispatchLengthsSafe(fmts, lookup)
  {
    && x.offset >= 1
    && RecordAt(log, h0, h1, fmts, lookup, x.offset - 1)
    && x.fmtIndex == lookup[log[x.offset + 1]]
    && x.payload == log[x.offset + 2 .. x.offset - 1 + fmts[x.fmtIndex].length]
  }

  /** Records in scan order never overlap: each starts at or after the end of
      every earlier one. */
  predicate Disjoint(fmts: seq<FmtRecord>, s: seq<Instance>)
  {
    forall i, j :: 0 <= i < j < |s| ==>
      s[i].fmtIndex < |fmts| && s[i].offset + fmts[s[i].fmtIndex].length <= s[j].offset
  }

  // ---------------------------------------------------------------------
  // Properties of the scan

  /** A record accepted at `pos` is emitted, and the scan resumes past its end. */
  lemma ScanAccept(log: seq<byte>, h0: byte, h1: byte, fmts: seq<FmtRecord>, lookup: seq<int>, pos: nat)
    requires LookupInRange(fmts, lookup) && DispatchLengthsSafe(fmts, lookup)
    requires RecordAt(log, h0, h1, fmts, lookup, pos)
    ensures ScanFrom(log, h0, h1, fmts, lookup, pos)
      == [Instance(lookup[log[pos + 2]], pos + 1, log[pos + 3 .. pos + fmts[lookup[log[pos + 2]]].length])]
         + ScanFrom(log, h0, h1, fmts, lookup, pos + fmts[lookup[log[pos + 2]]].length)
  {
  }

  /** Without a record at `pos` the scan resumes one byte later. */
  lemma ScanSkip(log: seq<byte>, h0: byte, h1: byte, fmts: seq<FmtRecord>, lookup: seq<int>, pos: nat)
    requires LookupInRange(fmts, lookup) && DispatchLengthsSafe(fmts, lookup)
    requires pos + 2 < |log| && !RecordAt(log, h0, h1, fmts, lookup, pos)
    ensures ScanFrom(log, h0, h1, fmts, lookup, pos) == ScanFrom(log, h0, h1, fmts, lookup, pos + 1)
  {
  }

  /** Every extracted record was accepted where it lies, at or after the
      position the scan started from. */
  lemma {:induction false} ScanSound(log: seq<byte>, h0: byte, h1: byte, fmts: seq<FmtRecord>, lookup: seq<int>, pos: nat)
    requires LookupInRange(fmts, lookup) && DispatchLengthsSafe(fmts, lookup)
    ensures forall x :: x in ScanFrom(log, h0, h1, fmts, lookup, pos) ==>
      Extracted(log, h0, h1, fmts, lookup, x) && x.offset > pos
    decreases |log| - pos
  {
    if pos + 2 < |log| {
      if RecordAt(log, h0, h1, fmts, lookup, pos) {
        var len := fmts[lookup[log[pos + 2]]].length;
        ScanSound(log, h0, h1, fmts, lookup, pos + len);
      } else {
        ScanSound(log, h0, h1, fmts, lookup, pos + 1);
      }
    }
  }

  /** Offset `p` lies strictly inside the record `x`: after its first header
      byte and before its end. */
  predicate Inside(fmts: seq<FmtRecord>, x: Instance, p: int)
  {
    x.fmtIndex < |fmts| && x.offset - 1 < p < x.offset - 1 + fmts[x.fmtIndex].length
  }

  /** Every record the scan would accept at `p`, at or after the starting
      position, is extracted unless it starts strictly inside an extracted
      record: a false header match that is skipped does not make the scan
      lose the records after it. */
  lemma {:induction false} ScanComplete(log: seq<byte>, h0: byte, h1: byte, fmts: seq<FmtRecord>, lookup: seq<int>, pos: nat, p: nat)
    requires LookupInRange(fmts, lookup) && DispatchLengthsSafe(fmts, lookup)
    requires pos <= p && RecordAt(log, h0, h1, fmts, lookup, p)
    requires forall x :: x in ScanFrom(log, h0, h1, fmts, lookup, pos) ==> !Inside(fmts, x, p)
    ensures exists x :: x in ScanFrom(log, h0, h1, fmts, lookup, pos) && x.offset == p + 1
    decreases |log| - pos
  {
    if RecordAt(log, h0, h1, fmts, lookup, pos) {
      ScanAccept(log, h0, h1, fmts, lookup, pos);
      var len := fmts[lookup[log[pos + 2]]].length;
      var head := Instance(lookup[log[pos + 2]], pos + 1, log[pos + 3 .. pos + len]);
      var rest := ScanFrom(log, h0, h1, fmts, lookup, pos + len);
      assert head in ScanFrom(log, h0, h1, fmts, lookup, pos);
      if pos < p {
        assert !Inside(fmts, head, p);
        ScanComplete(log, h0, h1, fmts, lookup, pos + len, p);
        var x :| x in rest && x.offset == p + 1;
        assert x in ScanFrom(log, h0, h1, fmts, lookup, pos);
      }
    } else {
      ScanSkip(log, h0, h1, fmts, lookup, pos);
      ScanComplete(log, h0, h1, fmts, lookup, pos + 1, p);
    }
  }

  /** Accepted records never overlap: each starts at or after the end of every earlier one. */
  lemma {:induction false} ScanDisjoint(log: seq<byte>, h0: byte, h1: byte, fmts: seq<FmtRecord>, lookup: seq<int>, pos: nat)
    requires LookupInRange(fmts, lookup) && DispatchLengthsSafe(fmts, lookup)
    ensures Disjoint(fmts, ScanFrom(log, h0, h1, fmts, lookup, pos))
    decreases |log| - pos
  {
    var s := ScanFrom(log, h0, h1, fmts, lookup, pos);
    if pos + 2 < |log| {
      if RecordAt(log, h0, h1, fmts, lookup, pos) {
        var idx := lookup[log[pos + 2]];
        var len := fmts[idx].length;
        var rest := ScanFrom(log, h0, h1, fmts, lookup, pos + len);
        ScanDisjoint(log, h0, h1, fmts, lookup, pos + len);
        ScanSound(log, h0, h1, fmts, lookup, pos + len);
        var head := Instance(idx, pos + 1, log[pos + 3 .. pos + len]);
        assert s == [head] + rest;
        assert forall y :: y in rest ==> head.offset + fmts[head.fmtIndex].length <= y.offset;
        ConsDisjoint(fmts, head, rest);
      } else {
        ScanDisjoint(log, h0, h1, fmts, lookup, pos + 1);
      }
    }
  }

  lemma ConsDisjoint(fmts: seq<FmtRecord>, head: Instance, rest: seq<Instance>)
    requires Disjoint(fmts, rest) && head.fmtIndex < |fmts|
    requires forall y :: y in rest ==> head.offset + fmts[head.fmtIndex].length <= y.offset
    ensures Disjoint(fmts, [head] + rest)
  {
    var s := [head] + rest;
    forall i, j | 0 <= i < j < |s|
      ensures s[i].fmtIndex < |fmts| && s[i].offset + fmts[s[i].fmtIndex].length <= s[j].offset
    {
      assert s[j] == rest[j - 1];
      if i > 0 {
        assert s[i] == rest[i - 1];
      }
    }
  }

  /** The offsets of the extracted records strictly increase. */
  lemma ScanIncreasing(log: seq<byte>, h0: byte, h1: byte, fmts: seq<FmtRecord>, lookup: seq<int>, pos: nat)
    requires LookupInRange(fmts, lookup) && DispatchLengthsSafe(fmts, lookup)
    ensures OffsetsIncreasing(OffsetList(ScanFrom(log, h0, h1, fmts, lookup, pos)))
  {
    var s := ScanFrom(log, h0, h1, fmts, lookup, pos);
    ScanDisjoint(log, h0, h1, fmts, lookup, pos);
    ScanSound(log, h0, h1, fmts, lookup, pos);
    forall i | 0 <= i < |s| ensures s[i].fmtIndex < |fmts| && fmts[s[i].fmtIndex].length > 0 {
      assert Extracted(log, h0, h1, fmts, lookup, s[i]);
    }
    DisjointIncreasing(fmts, s);
  }

  // ---------------------------------------------------------------------
  // Per-format lists

  /** The offsets of a sequence of records. */
  function OffsetList(s: seq<Instance>): seq<nat>
  {
    seq(|s|, i requires 0 <= i < |s| => s[i].offset)
  }

  lemma DisjointIncreasing(fmts: seq<FmtRecord>, s: seq<Instance>)
    requires Disjoint(fmts, s)
    requires forall i :: 0 <= i < |s| ==> s[i].fmtIndex < |fmts| && fmts[s[i].fmtIndex].length > 0
    ensures OffsetsIncreasing(OffsetList(s))
  {
  }

  /** The offsets the list of format `k` receives, in scan order. */
  function OffsetsOf(s: seq<Instance>, k: nat): seq<nat>
    decreases |s|
  {
    if s == [] then []
    else OffsetsOf(s[..|s| - 1], k) + (if s[|s| - 1].fmtIndex == k then [s[|s| - 1].offset] else [])
  }

  /** The payloads the list of format `k` receives, in scan order. */
  function PayloadsOf(s: seq<Instance>, k: nat): seq<seq<byte>>
    decreases |s|
  {
    if s == [] then []
    else PayloadsOf(s[..|s| - 1], k) + (if s[|s| - 1].fmtIndex == k then [s[|s| - 1].payload] else [])
  }

  /** Appending one record extends exactly the list of its own format. */
  lemma ListsAppend(s: seq<Instance>, x: Instance, k: nat)
    ensures OffsetsOf(s + [x], k) == OffsetsOf(s, k) + (if x.fmtIndex == k then [x.offset] else [])
    ensures PayloadsOf(s + [x], k) == PayloadsOf(s, k) + (if x.fmtIndex == k then [x.payload] else [])
  {
    assert (s + [x])[..|s|] == s;
  }

  /** Entry `m` of the list of format `k` is a record of format `k` from the scan. */
  lemma {:induction false} ListEntry(s: seq<Instance>, k: nat, m: nat)
    requires m < |OffsetsOf(s, k)|
    ensures |PayloadsOf(s, k)| == |OffsetsOf(s, k)|
    ensures Instance(k, OffsetsOf(s, k)[m], PayloadsOf(s, k)[m]) in s
    decreases |s|
  {
    var init, last := s[..|s| - 1], s[|s| - 1];
    ListLengths(init, k);
    assert s == init + [last];
    if m < |OffsetsOf(init, k)| {
      ListEntry(init, k, m);
    }
  }

  lemma {:induction false} ListLengths(s: seq<Instance>, k: nat)
    ensures |PayloadsOf(s, k)| == |OffsetsOf(s, k)|
    ensures forall m :: 0 <= m < |OffsetsOf(s, k)| ==> exists i :: 0 <= i < |s| && s[i].offset == OffsetsOf(s, k)[m]
    decreases |s|
  {
    if s != [] {
      var init := s[..|s| - 1];
      ListLengths(init, k);
      forall m | 0 <= m < |OffsetsOf(s, k)|
        ensures exists i :: 0 <= i < |s| && s[i].offset == OffsetsOf(s, k)[m]
      {
        if m < |OffsetsOf(init, k)| {
          var i :| 0 <= i < |init| && init[i].offset == OffsetsOf(init, k)[m];
          assert s[i] == init[i];
        } else {
          assert s[|s| - 1].offset == OffsetsOf(s, k)[m];
        }
      }
    }
  }

  /** Within the list of one format the recorded offsets strictly increase. */
  lemma {:induction false} ListIncreasing(s: seq<Instance>, k: nat)
    requires OffsetsIncreasing(OffsetList(s))
    ensures OffsetsIncreasing(OffsetsOf(s, k))
    decreases |s|
  {
    if s != [] {
      var init := s[..|s| - 1];
      assert OffsetList(init) <= OffsetList(s);
      PrefixIncreasing(OffsetList(s), OffsetList(init));
      ListIncreasing(init, k);
      ListLengths(init, k);
      var o := OffsetsOf(init, k);
      forall a, b | 0 <= a < b < |OffsetsOf(s, k)|
        ensures OffsetsOf(s, k)[a] < OffsetsOf(s, k)[b]
      {
        if b >= |o| {
          var i :| 0 <= i < |init| && init[i].offset == o[a];
          assert OffsetList(s)[i] < OffsetList(s)[|s| - 1];
        }
      }
    }
  }

  /** Entry `m` of the list of format `k` is a record accepted where it lies
      (at its offset minus one), whose type id dispatches to `k`, and whose
      payload is the bytes after its 3-byte frame up to its declared length. */
  lemma ListEntrySound(log: seq<byte>, h0: byte, h1: byte, fmts: seq<FmtRecord>, lookup: seq<int>, k: nat, m: nat)
    requires LookupInRange(fmts, lookup) && DispatchLengthsSafe(fmts, lookup)
    requires m < |OffsetsOf(ScanLog(log, h0, h1, fmts, lookup), k)|
    ensures |PayloadsOf(ScanLog(log, h0, h1, fmts, lookup), k)| == |OffsetsOf(ScanLog(log, h0, h1, fmts, lookup), k)|
    ensures var off := OffsetsOf(ScanLog(log, h0, h1, fmts, lookup), k)[m];
      && off >= 1 && RecordAt(log, h0, h1, fmts, lookup, off - 1) && lookup[log[off + 1]] == k
      && PayloadsOf(ScanLog(log, h0, h1, fmts, lookup), k)[m] == log[off + 2 .. off - 1 + fmts[k].length]
  {
    var s := ScanLog(log, h0, h1, fmts, lookup);
    ListEntry(s, k, m);
    ScanSound(log, h0, h1, fmts, lookup, 0);
    assert Extracted(log, h0, h1, fmts, lookup, Instance(k, OffsetsOf(s, k)[m], PayloadsOf(s, k)[m]));
  }

  /** The offsets recorded in the list of any one format strictly increase. */
  lemma ListOffsetsIncreasing(log: seq<byte>, h0: byte, h1: byte, fmts: seq<FmtRecord>, lookup: seq<int>, k: nat)
    requires LookupInRange(fmts, lookup) && DispatchLengthsSafe(fmts, lookup)
    ensures OffsetsIncreasing(OffsetsOf(ScanLog(log, h0, h1, fmts, lookup), k))
  {
    ScanIncreasing(log, h0, h1, fmts, lookup, 0);
    ListIncreasing(ScanLog(log, h0, h1, fmts, lookup), k);
  }

  /** A record of the scan reaches the list of its own format. */
  lemma {:induction false} ListHas(s: seq<Instance>, x: Instance)
    requires x in s
    ensures x.offset in OffsetsOf(s, x.fmtIndex)
    decreases |s|
  {
    var init := s[..|s| - 1];
    assert s == init + [s[|s| - 1]];
    if x != s[|s| - 1] {
      ListHas(init, x);
    }
  }

  /** Every record the scan accepts where no extracted record overlaps it is
      recorded, at its offset plus one, in the list of the format its type id
      dispatches to. */
  lemma ListComplete(log: seq<byte>, h0: byte, h1: byte, fmts: seq<FmtRecord>, lookup: seq<int>, p: nat)
    requires LookupInRange(fmts, lookup) && DispatchLengthsSafe(fmts, lookup)
    requires RecordAt(log, h0, h1, fmts, lookup, p)
    requires forall x :: x in ScanLog(log, h0, h1, fmts, lookup) ==> !Inside(fmts, x, p)
    ensures p + 1 in OffsetsOf(ScanLog(log, h0, h1, fmts, lookup), lookup[log[p + 2]])
  {
    var s := ScanLog(log, h0, h1, fmts, lookup);
    ScanComplete(log, h0, h1, fmts, lookup, 0, p);
    ScanSound(log, h0, h1, fmts, lookup, 0);
    var x :| x in s && x.offset == p + 1;
    assert Extracted(log, h0, h1, fmts, lookup, x);
    ListHas(s, x);
  }
}
