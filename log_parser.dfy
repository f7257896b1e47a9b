/** The parser object (the C struct LogParser) and the four steps that fill
    it: findFmtLength, parseFmtMessages, validateMessageFilter and
    parseAllMessages. Each step is proved against the specification function
    of its own module. */
module Parser {
  import opened Framing
  import opened FmtProbe
  import opened FmtTable
  import opened MsgFilter
  import opened Dispatch
  import opened Scanner
  import opened MessageBuffer

  /** The ids the filter resolves to against the table, then the lookup table
      the setup loop builds from them. */
  function LookupFor(fmts: seq<FmtRecord>, filter: Filter): seq<int>
  {
    LookupTable(fmts, ResolveFilter(filter, fmts))
  }

  /** How a call of the parser ends: with the parsed log, or with the error
      raised when the log declares no format. */
  datatype Outcome = Parsed | NoFormats

  /** Records reach only the lists of selected types: every extracted record
      carries a selected type id, and it goes to the last table entry that
      declares that type. */
  lemma ScanOnlySelected(log: seq<byte>, h0: byte, h1: byte, fmts: seq<FmtRecord>, validIds: seq<byte>, x: Instance)
    requires DispatchLengthsSafe(fmts, LookupTable(fmts, validIds))
    requires x in ScanLog(log, h0, h1, fmts, LookupTable(fmts, validIds))
    ensures x.offset + 1 < |log| && x.fmtIndex < |fmts|
    ensures fmts[x.fmtIndex].typeId == log[x.offset + 1] && Selected(validIds, log[x.offset + 1])
    ensures forall j :: x.fmtIndex < j < |fmts| ==> fmts[j].typeId != log[x.offset + 1]
  {
    ScanSound(log, h0, h1, fmts, LookupTable(fmts, validIds), 0);
    LookupTableChoice(fmts, validIds, log[x.offset + 1]);
  }

  class LogParser {
    const log: seq<byte>
    const header0: byte
    const header1: byte
    const fmtMessages: array<FmtRecord>
    const messages: array<MessageData>
    var fmtLength: nat
    var fmtCount: nat
    var totalMsgCount: nat

    ghost predicate Valid()
      reads this`fmtCount
    {
      fmtMessages.Length == MaxMsgTypes && messages.Length == MaxMsgTypes && fmtCount <= MaxMsgTypes
    }

    /** fmt_messages[0 .. fmt_count). */
    function Formats(): seq<FmtRecord>
      reads this, fmtMessages
      requires Valid()
    {
      fmtMessages[..fmtCount]
    }

    /** Every slot of the list array is a well-formed MessageData. */
    ghost predicate MessagesValid()
      reads messages
    {
      messages.Length == MaxMsgTypes && forall k :: 0 <= k < MaxMsgTypes ==> messages[k].Valid()
    }

    /** The zero-initialised parser of one call. */
    constructor (log: seq<byte>, header0: byte, header1: byte)
      ensures Valid() && MessagesValid()
      ensures this.log == log && this.header0 == header0 && this.header1 == header1
      ensures fresh(fmtMessages) && fresh(messages)
      ensures fmtLength == 0 && fmtCount == 0 && totalMsgCount == 0
      ensures forall k :: 0 <= k < MaxMsgTypes ==> messages[k] == Unused
    {
      this.log := log;
      this.header0 := header0;
      this.header1 := header1;
      fmtMessages := new FmtRecord[MaxMsgTypes](_ => FmtRecord(0, 0, [], [], []));
      messages := new MessageData[MaxMsgTypes](_ => Unused);
      fmtLength, fmtCount, totalMsgCount := 0, 0, 0;
    }

    /** findFmtLength. The C loop bound `log_size - 5` wraps below 5 bytes. */
    method FindFmtLength() returns (ok: bool)
      requires |log| >= 5
      modifies this`fmtLength
      ensures ok
      ensures fmtLength == ProbeFmtLength(log, header0, header1)
    {
      var i := 0;
      while i <= |log| - 5
        invariant 0 <= i <= |log| - 4
        invariant ProbeFrom(log, header0, header1, i) == ProbeFmtLength(log, header0, header1)
      {
        if log[i] == header0 && log[i + 1] == header1 && log[i + 2] == FmtId {
          if log[i + 3] == FmtId {
            fmtLength := log[i + 4];
            return true;
          }
        }
        i := i + 1;
      }
      fmtLength := DefaultFmtLength;
      return true;
    }

    /** parseFmtMessages after examining the offsets below `i`: the table
        holds the records at the accepted ones, in order. */
    ghost predicate TableAfter(i: nat)
      reads this`fmtCount, this`fmtLength, fmtMessages
      requires Valid()
    {
      && fmtLength <= |log| && i <= |log| - fmtLength + 1
      && fmtCount == |CandidatesBelow(log, header0, header1, fmtLength, i)|
      && FieldsFit(log, CandidatesBelow(log, header0, header1, fmtLength, i))
      && fmtMessages[..fmtCount] == RecordsAt(log, CandidatesBelow(log, header0, header1, fmtLength, i))
    }

    /** parseFmtMessages: fills the table and reports whether it is non-empty;
        `overflowWarning` stands for the warning issued when the table fills up. */
    method ParseFmtMessages() returns (ok: bool, overflowWarning: bool)
      requires Valid() && FmtScanDefined(log, header0, header1, fmtLength)
      modifies this`fmtCount, fmtMessages
      ensures Valid()
      ensures Formats() == FormatTable(log, header0, header1, fmtLength)
      ensures ok <==> fmtCount > 0
      ensures overflowWarning <==> fmtCount == MaxMsgTypes
    {
      fmtCount := 0;
      overflowWarning := false;
      var i := 0;
      while i <= |log| - fmtLength
        invariant Valid() && TableAfter(i) && fmtCount < MaxMsgTypes
      {
        if log[i] == header0 && log[i + 1] == header1 && log[i + 2] == FmtId
           && IsValidMessage(log, header0, header1, i, fmtLength)
        {
          AppendFmtRecord(i);
          if fmtCount >= MaxMsgTypes {
            overflowWarning := true;
            TableFull(i + 1);
            break;
          }
        } else {
          CandidatesSkip(log, header0, header1, fmtLength, i);
        }
        i := i + 1;
      }
      if !overflowWarning {
        TableDone();
      }
      ok := fmtCount > 0;
    }

    /** The body of parseFmtMessages for the accepted offset `i`: the record
        read there becomes the next table entry. */
    method AppendFmtRecord(i: nat)
      requires Valid() && FmtScanDefined(log, header0, header1, fmtLength) && i <= |log| - fmtLength
      requires FmtCandidate(log, header0, header1, fmtLength, i)
      requires TableAfter(i) && fmtCount < MaxMsgTypes
      modifies this`fmtCount, fmtMessages
      ensures Valid() && TableAfter(i + 1)
    {
      RecordsStep(log, header0, header1, fmtLength, i);
      ghost var before := fmtMessages[..fmtCount];
      var record := ReadFmtRecord(i);
      fmtMessages[fmtCount] := record;
      fmtCount := fmtCount + 1;
      assert fmtMessages[..fmtCount] == before + [FmtRecordAt(log, i)];
    }

    /** The table filled up after the offsets below `i`: it is the whole
        format table, whose cap it reached. */
    lemma TableFull(i: nat)
      requires Valid() && FmtScanDefined(log, header0, header1, fmtLength)
      requires TableAfter(i) && fmtCount == MaxMsgTypes
      ensures Formats() == FormatTable(log, header0, header1, fmtLength)
    {
      CappedOffsets(log, header0, header1, fmtLength, i);
    }

    /** Every offset was examined below the cap: the table is the whole
        format table. */
    lemma TableDone()
      requires Valid() && FmtScanDefined(log, header0, header1, fmtLength)
      requires TableAfter(|log| - fmtLength + 1) && fmtCount < MaxMsgTypes
      ensures Formats() == FormatTable(log, header0, header1, fmtLength)
    {
    }

    /** The field copies of parseFmtMessages: type, length, and the three
        fixed-width text fields, each cut at its first zero byte. */
    method ReadFmtRecord(i: nat) returns (record: FmtRecord)
      requires i + FmtFieldsEnd <= |log|
      ensures record == FmtRecordAt(log, i)
    {
      var name := CutAtNul(log[i + 5 .. i + 9]);
      var format := CutAtNul(log[i + 9 .. i + 25]);
      var labels := CutAtNul(log[i + 25 .. i + 89]);
      record := FmtRecord(log[i + 3], log[i + 4], name, format, labels);
    }

    /** validateMessageFilter: stores the resolved ids in validIds[0 .. validCount).
        The C buffer holds 256 ids and is not checked for overflow. */
    method ValidateMessageFilter(filter: Filter, validIds: array<byte>) returns (validCount: nat)
      requires Valid() && validIds.Length == MaxMsgTypes
      requires |ResolveFilter(filter, Formats())| <= MaxMsgTypes
      modifies validIds
      ensures validCount <= MaxMsgTypes
      ensures validIds[..validCount] == ResolveFilter(filter, Formats())
    {
      match filter
      case NoFilter => validCount := 0;
      case ByName(names) => validCount := ResolveNamesInto(names, validIds);
      case ById(ids) => validCount := ResolveIdsInto(ids, validIds);
    }

    /** The cell-array branch of validateMessageFilter. */
    method ResolveNamesInto(names: seq<seq<byte>>, validIds: array<byte>) returns (validCount: nat)
      requires Valid() && validIds.Length == MaxMsgTypes
      requires |ResolveNames(Formats(), names)| <= MaxMsgTypes
      modifies validIds
      ensures validCount <= MaxMsgTypes
      ensures validIds[..validCount] == ResolveNames(Formats(), names)
    {
      validCount := 0;
      var i := 0;
      while i < |names|
        invariant 0 <= i <= |names|
        invariant validCount <= MaxMsgTypes
        invariant validCount == |ResolveNames(Formats(), names[..i])|
        invariant validIds[..validCount] == ResolveNames(Formats(), names[..i])
      {
        ResolveNamesPrefix(Formats(), names, i + 1);
        ResolveNamesStep(Formats(), names, i);
        var found, typeId := FindName(names[i]);
        if found {
          validIds[validCount] := typeId;
          validCount := validCount + 1;
        }
        i := i + 1;
      }
      assert names[..|names|] == names;
    }

    /** The numeric branch of validateMessageFilter. */
    method ResolveIdsInto(ids: seq<byte>, validIds: array<byte>) returns (validCount: nat)
      requires Valid() && validIds.Length == MaxMsgTypes
      requires |ResolveIds(Formats(), ids)| <= MaxMsgTypes
      modifies validIds
      ensures validCount <= MaxMsgTypes
      ensures validIds[..validCount] == ResolveIds(Formats(), ids)
    {
      validCount := 0;
      var i := 0;
      while i < |ids|
        invariant 0 <= i <= |ids|
        invariant validCount <= MaxMsgTypes
        invariant validCount == |ResolveIds(Formats(), ids[..i])|
        invariant validIds[..validCount] == ResolveIds(Formats(), ids[..i])
      {
        ResolveIdsPrefix(Formats(), ids, i + 1);
        ResolveIdsStep(Formats(), ids, i);
        var found := FindId(ids[i]);
        if found {
          validIds[validCount] := ids[i];
          validCount := validCount + 1;
        }
        i := i + 1;
      }
      assert ids[..|ids|] == ids;
    }

    /** The lists after the setup loop has visited the table entries below
        `n`: exactly the selected ones among them are allocated, each with
        its entry's type and record length. */
    ghost predicate ListsChosen(validIds: seq<byte>, n: nat)
      reads this`fmtCount, fmtMessages, messages
      requires Valid()
    {
      forall k :: 0 <= k < MaxMsgTypes ==>
        && (messages[k].hasBuffers <==> k < n && Selected(validIds, fmtMessages[k].typeId))
        && (messages[k].hasBuffers ==>
              messages[k].msgId == fmtMessages[k].typeId && messages[k].msgLength == fmtMessages[k].length)
    }

    /** As ListsChosen, and every allocated list is still empty with the
        initial capacity. */
    ghost predicate ListsSetUp(validIds: seq<byte>, n: nat)
      reads this`fmtCount, fmtMessages, messages
      requires Valid()
    {
      && ListsChosen(validIds, n)
      && forall k :: 0 <= k < MaxMsgTypes && messages[k].hasBuffers ==>
           messages[k].capacity == InitialCapacity && messages[k].count == 0
    }

    /** The lists the setup loop chose make its lookup table dispatchable,
        so the scan's `indices != NULL` test always passes. */
    lemma LookupHasLists(validIds: seq<byte>)
      requires Valid() && MessagesValid() && ListsChosen(validIds, fmtCount)
      ensures LookupInRange(Formats(), LookupTable(Formats(), validIds))
      ensures Dispatchable(LookupTable(Formats(), validIds))
    {
      var lookup := LookupTable(Formats(), validIds);
      forall t | 0 <= t < MaxMsgTypes && lookup[t] >= 0
        ensures messages[lookup[t]].hasBuffers
      {
        LookupTableChoice(Formats(), validIds, t);
      }
    }

    /** The setup loop of parseAllMessages: allocates an empty list for every
        selected table entry and maps each selected type id to the last
        selected entry of that type. */
    method SetUpLists(validIds: seq<byte>) returns (lookup: array<int>)
      requires Valid() && MessagesValid()
      requires forall k :: 0 <= k < MaxMsgTypes ==> messages[k] == Unused
      modifies messages
      ensures MessagesValid()
      ensures fresh(lookup) && lookup[..] == LookupTable(Formats(), validIds)
      ensures ListsSetUp(validIds, fmtCount)
    {
      lookup := new int[MaxMsgTypes](_ => -1);
      assert lookup[..] == LookupAfter(Formats(), validIds, 0);
      var i := 0;
      while i < fmtCount
        invariant 0 <= i <= fmtCount
        invariant MessagesValid()
        invariant lookup[..] == LookupAfter(Formats(), validIds, i)
        invariant ListsSetUp(validIds, i)
      {
        SetUpEntry(validIds, lookup, i);
        i := i + 1;
      }
    }

    /** One iteration of the setup loop: the shouldParse test for table entry
        `i`, then its list and its lookup entry when it is selected. */
    method SetUpEntry(validIds: seq<byte>, lookup: array<int>, i: nat)
      requires Valid() && MessagesValid() && i < fmtCount
      requires lookup[..] == LookupAfter(Formats(), validIds, i) && ListsSetUp(validIds, i)
      modifies messages, lookup
      ensures MessagesValid()
      ensures lookup[..] == LookupAfter(Formats(), validIds, i + 1) && ListsSetUp(validIds, i + 1)
    {
      var fmt := fmtMessages[i];
      var shouldParse := ShouldParse(validIds, fmt.typeId);
      if shouldParse {
        messages[i] := NewList(fmt.typeId, fmt.length);
        lookup[fmt.typeId] := i;
      }
    }

    /** Every allocated list holds the offsets and payloads the records `s`
        assign to its table entry. */
    ghost predicate ListsHold(s: seq<Instance>)
      reads messages
      requires MessagesValid()
    {
      forall k :: 0 <= k < MaxMsgTypes && messages[k].hasBuffers ==>
        messages[k].Offsets() == OffsetsOf(s, k) && messages[k].Payloads() == PayloadsOf(s, k)
    }

    /** Every type id the lookup table dispatches has its list allocated. */
    ghost predicate Dispatchable(lookup: seq<int>)
      reads messages
      requires MessagesValid()
    {
      |lookup| == MaxMsgTypes
      && forall t :: 0 <= t < MaxMsgTypes && 0 <= lookup[t] < MaxMsgTypes ==> messages[lookup[t]].hasBuffers
    }

    /** Once the lists hold the scan, every record the scan accepts where no
        extracted record overlaps it is in the list its type id dispatches to. */
    lemma ListsComplete(lookup: seq<int>, p: nat)
      requires Valid() && MessagesValid()
      requires LookupInRange(Formats(), lookup) && DispatchLengthsSafe(Formats(), lookup) && Dispatchable(lookup)
      requires ListsHold(ScanLog(log, header0, header1, Formats(), lookup))
      requires RecordAt(log, header0, header1, Formats(), lookup, p)
      requires forall x :: x in ScanLog(log, header0, header1, Formats(), lookup) ==> !Inside(Formats(), x, p)
      ensures p + 1 in messages[lookup[log[p + 2]]].Offsets()
    {
      ListComplete(log, header0, header1, Formats(), lookup, p);
    }

    /** The scan loop of parseAllMessages over the lists set up for `lookup`:
        every list receives exactly the records the specified scan assigns
        to its format, in order, the total counts them all, and no list
        changes its type, length or allocation. */
    method ScanMessages(lookup: seq<int>)
      requires Valid() && MessagesValid() && ListsHold([])
      requires LookupInRange(Formats(), lookup) && DispatchLengthsSafe(Formats(), lookup) && Dispatchable(lookup)
      modifies this`totalMsgCount, messages
      ensures MessagesValid()
      ensures ListsHold(ScanLog(log, header0, header1, Formats(), lookup))
      ensures totalMsgCount == old(totalMsgCount) + |ScanLog(log, header0, header1, Formats(), lookup)|
      ensures forall k :: 0 <= k < MaxMsgTypes ==> SameHeader(messages[k], old(messages[k]))
    {
      ghost var done: seq<Instance> := [];
      var pos := 0;
      while pos < |log| - 2
        invariant pos <= |log|
        invariant MessagesValid() && Dispatchable(lookup)
        invariant done + ScanFrom(log, header0, header1, Formats(), lookup, pos) == ScanLog(log, header0, header1, Formats(), lookup)
        invariant ListsHold(done)
        invariant totalMsgCount == old(totalMsgCount) + |done|
        invariant forall k :: 0 <= k < MaxMsgTypes ==> SameHeader(messages[k], old(messages[k]))
        decreases |log| - pos
      {
        pos, done := ScanAt(lookup, pos, Formats(), done);
      }
      assert done == ScanLog(log, header0, header1, Formats(), lookup);
    }

    /** One iteration of the scan loop at `pos`. An accepted record is added
        to its list and the scan resumes after it; otherwise one byte later. */
    method ScanAt(lookup: seq<int>, pos: nat, ghost fmts: seq<FmtRecord>, ghost done: seq<Instance>)
      returns (next: nat, ghost done': seq<Instance>)
      requires Valid() && MessagesValid() && ListsHold(done) && pos + 2 < |log| && fmts == Formats()
      requires LookupInRange(fmts, lookup) && DispatchLengthsSafe(fmts, lookup) && Dispatchable(lookup)
      modifies this`totalMsgCount, messages
      ensures MessagesValid() && ListsHold(done')
      ensures pos < next <= |log|
      ensures done' + ScanFrom(log, header0, header1, fmts, lookup, next)
              == done + ScanFrom(log, header0, header1, fmts, lookup, pos)
      ensures totalMsgCount + |done| == old(totalMsgCount) + |done'|
      ensures forall k :: 0 <= k < MaxMsgTypes ==> SameHeader(messages[k], old(messages[k]))
    {
      next, done' := pos + 1, done;
      if HeaderAt(log, header0, header1, pos) {
        var msgId := log[pos + 2];
        var fmtIndex := lookup[msgId];
        if fmtIndex >= 0 {
          var fmt := fmtMessages[fmtIndex];
          var msgData := messages[fmtIndex];
          if pos + fmt.length <= |log| && msgData.hasBuffers && IsValidMessage(log, header0, header1, pos, fmt.length) {
            next, done' := AcceptAt(lookup, pos, fmts, done);
          } else {
            ScanSkip(log, header0, header1, fmts, lookup, pos);
          }
        } else {
          ScanSkip(log, header0, header1, fmts, lookup, pos);
        }
      } else {
        ScanSkip(log, header0, header1, fmts, lookup, pos);
      }
    }

    /** The accepted branch of the scan loop at `pos`: the payload is copied,
        added to the list of its table entry, and the scan jumps past it. */
    method AcceptAt(lookup: seq<int>, pos: nat, ghost fmts: seq<FmtRecord>, ghost done: seq<Instance>)
      returns (next: nat, ghost done': seq<Instance>)
      requires Valid() && MessagesValid() && ListsHold(done) && fmts == Formats()
      requires LookupInRange(fmts, lookup) && DispatchLengthsSafe(fmts, lookup) && Dispatchable(lookup)
      requires RecordAt(log, header0, header1, fmts, lookup, pos)
      modifies this`totalMsgCount, messages
      ensures MessagesValid() && ListsHold(done')
      ensures pos < next <= |log|
      ensures done' + ScanFrom(log, header0, header1, fmts, lookup, next)
              == done + ScanFrom(log, header0, header1, fmts, lookup, pos)
      ensures totalMsgCount + |done| == old(totalMsgCount) + |done'|
      ensures forall k :: 0 <= k < MaxMsgTypes ==> SameHeader(messages[k], old(messages[k]))
    {
      var fmtIndex := lookup[log[pos + 2]];
      var len := fmtMessages[fmtIndex].length;
      var msgBytes := log[pos + 3 .. pos + len];
      ghost var x := Instance(fmtIndex, pos + 1, msgBytes);
      ScanAccept(log, header0, header1, fmts, lookup, pos);
      AddRecord(fmtIndex, pos + 1, msgBytes, done);
      done' := done + [x];
      next := pos + len;
      assert done' + ScanFrom(log, header0, header1, fmts, lookup, next)
             == done + ([x] + ScanFrom(log, header0, header1, fmts, lookup, next));
    }

    /** One accepted record: addMessageData on the list of its table entry,
        and the total count goes up by one. No other list changes. */
    method AddRecord(fmtIndex: nat, offset: nat, payload: seq<byte>, ghost done: seq<Instance>)
      requires MessagesValid() && ListsHold(done)
      requires fmtIndex < MaxMsgTypes && messages[fmtIndex].hasBuffers
      modifies this`totalMsgCount, messages
      ensures messages[..] == old(messages[..])[fmtIndex := Added(old(messages[fmtIndex]), offset, payload)]
      ensures MessagesValid()
      ensures ListsHold(done + [Instance(fmtIndex, offset, payload)])
      ensures totalMsgCount == old(totalMsgCount) + 1
      ensures forall k :: 0 <= k < MaxMsgTypes ==> SameHeader(messages[k], old(messages[k]))
    {
      messages[fmtIndex] := Added(messages[fmtIndex], offset, payload);
      totalMsgCount := totalMsgCount + 1;
      forall k: nat | k < MaxMsgTypes {
        ListsAppend(done, Instance(fmtIndex, offset, payload), k);
      }
    }

    /** parseAllMessages: resolves the filter, sets up the selected lists and
        runs the scan. The setup and the scan are the two methods above. */
    method ParseAllMessages(filter: Filter) returns (ok: bool)
      requires Valid() && MessagesValid()
      requires forall k :: 0 <= k < MaxMsgTypes ==> messages[k] == Unused
      requires |ResolveFilter(filter, Formats())| <= MaxMsgTypes
      requires DispatchLengthsSafe(Formats(), LookupFor(Formats(), filter))
      modifies this`totalMsgCount, messages
      ensures ok
      ensures MessagesValid()
      ensures ListsChosen(ResolveFilter(filter, Formats()), fmtCount)
      ensures ListsHold(ScanLog(log, header0, header1, Formats(), LookupFor(Formats(), filter)))
      ensures totalMsgCount == old(totalMsgCount) + |ScanLog(log, header0, header1, Formats(), LookupFor(Formats(), filter))|
    {
      var validIds := new byte[MaxMsgTypes];
      var validCount := ValidateMessageFilter(filter, validIds);
      var lookup := SetUpLists(validIds[..validCount]);
      LookupHasLists(validIds[..validCount]);
      ScanMessages(lookup[..]);
      ok := true;
    }

    /** The sequence of steps of one call on a freshly zeroed parser: probe
        the FMT length, build the format table (failing when it stays
        empty), then resolve the filter, set up the lists and scan.
        `overflowWarning` stands for the warning of a full table. */
    method ParseLog(filter: Filter) returns (outcome: Outcome, overflowWarning: bool)
      requires Valid() && MessagesValid() && |log| >= 5
      requires forall k :: 0 <= k < MaxMsgTypes ==> messages[k] == Unused
      requires FmtScanDefined(log, header0, header1, ProbeFmtLength(log, header0, header1))
      requires |ResolveFilter(filter, FormatTable(log, header0, header1, ProbeFmtLength(log, header0, header1)))| <= MaxMsgTypes
      requires DispatchLengthsSafe(FormatTable(log, header0, header1, ProbeFmtLength(log, header0, header1)),
                                   LookupFor(FormatTable(log, header0, header1, ProbeFmtLength(log, header0, header1)), filter))
      modifies this`fmtLength, this`fmtCount, fmtMessages, this`totalMsgCount, messages
      ensures Valid() && MessagesValid()
      ensures fmtLength == ProbeFmtLength(log, header0, header1)
      ensures Formats() == FormatTable(log, header0, header1, fmtLength)
      ensures overflowWarning <==> fmtCount == MaxMsgTypes
      ensures outcome == NoFormats <==> fmtCount == 0
      ensures outcome == NoFormats ==> unchanged(this`totalMsgCount, messages)
      ensures outcome == Parsed ==>
        && ListsChosen(ResolveFilter(filter, Formats()), fmtCount)
        && ListsHold(ScanLog(log, header0, header1, Formats(), LookupFor(Formats(), filter)))
        && totalMsgCount == old(totalMsgCount) + |ScanLog(log, header0, header1, Formats(), LookupFor(Formats(), filter))|
    {
      // findFmtLength and parseAllMessages never fail, so their error
      // branches (ardupilot_parse_log.c:73-75 and 81-83) are dead and their
      // results are not inspected.
      var probed := FindFmtLength();
      var ok;
      ok, overflowWarning := ParseFmtMessages();
      if !ok {
        return NoFormats, overflowWarning;
      }
      ok := ParseAllMessages(filter);
      outcome := Parsed;
    }

    /** The inner search of validateMessageFilter for one name: the type of the
        first table entry whose name matches, if there is one. */
    method FindName(filterName: seq<byte>) returns (found: bool, typeId: byte)
      requires Valid()
      ensures (if found then [typeId] else []) == NameHitFrom(Formats(), filterName, 0)
    {
      var j := 0;
      while j < fmtCount
        invariant 0 <= j <= fmtCount
        invariant NameHitFrom(Formats(), filterName, j) == NameHitFrom(Formats(), filterName, 0)
      {
        if fmtMessages[j].name == UntilNul(filterName) {
          return true, fmtMessages[j].typeId;
        }
        j := j + 1;
      }
      return false, 0;
    }

    /** The inner search of validateMessageFilter for one id: whether some
        table entry declares it. */
    method FindId(msgId: byte) returns (found: bool)
      requires Valid()
      ensures found <==> Declared(Formats(), msgId)
    {
      var j := 0;
      while j < fmtCount
        invariant 0 <= j <= fmtCount
        invariant forall k :: 0 <= k < j ==> fmtMessages[k].typeId != msgId
      {
        if fmtMessages[j].typeId == msgId {
          assert Formats()[j].typeId == msgId;
          return true;
        }
        j := j + 1;
      }
      return false;
    }
  }

  /** The shouldParse test of parseAllMessages. */
  method ShouldParse(validIds: seq<byte>, t: byte) returns (shouldParse: bool)
    ensures shouldParse == Selected(validIds, t)
  {
    shouldParse := |validIds| == 0;
    if |validIds| > 0 {
      var j := 0;
      while j < |validIds|
        invariant 0 <= j <= |validIds|
        invariant t !in validIds[..j]
      {
        if validIds[j] == t {
          shouldParse := true;
          break;
        }
        j := j + 1;
      }
      assert !shouldParse ==> validIds[..|validIds|] == validIds;
    }
  }
}
