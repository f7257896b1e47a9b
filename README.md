# ArduPilot binary log parser — a verified Dafny model

This project models the core of `ardupilot_parse_log.c`, a MATLAB MEX function that parses an
ArduPilot DataFlash log. The log is a byte buffer of records, and every record starts with a
3-byte frame: two header bytes and a one-byte type id. Records of type 128 (FMT) declare the other
types: each gives a type id, a record length, a name, format codes and field labels. The parser
works in four steps, all driven by the `LogParser` struct:

1. `findFmtLength` finds the length of FMT records. It reads the length byte of the first
   `[h0, h1, 128, 128]` match and falls back to 89 when there is none.
2. `parseFmtMessages` fills the format table from every accepted FMT record, up to 256 entries.
3. `validateMessageFilter` and the `shouldParse` test resolve an optional name or id filter into
   the selected type ids. A 256-entry type-id → table-index lookup table is then built, and the
   last write to an id wins.
4. The main loop of `parseAllMessages` scans the log and resynchronizes. Each record it accepts
   is appended to the growable list of its format, through `addMessageData`, and the scan then
   jumps past the record. `isValidMessage` is the frame check shared by steps 2 and 4. A record
   that fits is accepted when the log ends right after it, when exactly one byte follows it, or
   when the next two bytes are the header.

Modules:
- `Framing` holds the byte type, the constants and `IsValidMessage`.
- `FmtProbe` holds step 1.
- `FmtTable` holds the table entry datatype and the specification of step 2.
- `MsgFilter` holds filter resolution and `Selected`, which is the shouldParse test.
- `Dispatch` holds the lookup table.
- `Scanner` holds the scan as a recursive function and its properties.
- `MessageBuffer` holds the `MessageData` struct and `addMessageData`.
- `Parser` holds the `LogParser` class. Its methods are the imperative C loops, each proved
  against the specification function of its module.

The log is an immutable `seq<byte>`. The format table is an `array<FmtRecord>` of 256 slots, of
which `fmtCount` are filled. The per-format lists are an `array<MessageData>` of 256 slots: as in
the C struct, every slot holds its list by value. A list changes in place when its slot is
overwritten with the updated value. A filter arrives already decoded, as `NoFilter`,
`ByName(names)` or `ById(ids)`.

The C code has several hazards: `size_t` loop bounds that wrap, reads past the log, record lengths
below 3 and overflow of the `validIds` buffer. The model makes each of them an explicit
precondition:
- `FindFmtLength` requires a log of at least 5 bytes.
- `FmtScanDefined` requires a probed FMT length between 3 and the log length. It also requires
  that the 89-byte field block of every FMT record the table keeps fits in the log. These are the
  first 256 accepted records; the ones after them are never read.
- `ValidateMessageFilter` requires at most 256 resolved ids.
- `DispatchLengthsSafe` requires every dispatched format to declare at least 3 bytes.

## Model

| member | source | states |
|---|---|---|
| Framing.HeaderAt | ardupilot_parse_log.c:294-295 | specification of the header test after a record: the two header bytes stand at `pos` |
| Framing.IsValidMessage | ardupilot_parse_log.c:280-299 | false when the record does not fit; true when the log ends at the record's end or one byte after it; otherwise true exactly when the next two bytes are the header |
| FmtProbe.ProbeMatchAt | ardupilot_parse_log.c:93-95 | specification of the probe test at `i`: the 3-byte FMT frame followed by a type byte of 128, with the length byte inside the loop range |
| FmtProbe.ProbeFrom | ardupilot_parse_log.c:93-103 | specification of the probe loop from offset `i`: the length byte of the first `[h0, h1, 128, 128]` match at or after `i` within the loop bound, else 89 |
| FmtProbe.ProbeFmtLength | ardupilot_parse_log.c:89-104 | specification of findFmtLength: the probe from offset 0 |
| FmtProbe.ProbeFindsFirstMatch | ardupilot_parse_log.c:91-98 | the probed FMT length is the byte after the first `[h0, h1, 128, 128]` match |
| FmtProbe.ProbeDefaultsTo89 | ardupilot_parse_log.c:100-103 | without any match the probed length is 89 |
| FmtProbe.ProbeFromFirstMatch | ardupilot_parse_log.c:93-98 | a probe started at or before the first match from `i` on returns that match's length byte |
| FmtProbe.ProbeFromNoMatch | ardupilot_parse_log.c:93-102 | a probe that meets no match from `i` on returns the default |
| Parser.LogParser.FindFmtLength | ardupilot_parse_log.c:89-104 | always succeeds and stores the probed FMT length |
| FmtTable.UntilNul | ardupilot_parse_log.c:120-145 | the C-string reading of a field is a prefix of it, holds no zero byte, and is followed by a zero byte when shorter than the field |
| FmtTable.UntilNulUnique | ardupilot_parse_log.c:120-145 | those three properties determine the C-string reading |
| FmtTable.CutAtNul | ardupilot_parse_log.c:120-145 | the field read as the C string of its NUL-terminated copy: cut at its first zero byte (the loops after each memcpy change nothing) |
| FmtTable.FmtRecordAt | ardupilot_parse_log.c:114-145 | specification of one table entry: type and length from the two bytes after the frame, then the 4-, 16- and 64-byte fields cut at their first zero byte |
| FmtTable.FmtCandidate | ardupilot_parse_log.c:112-113 | specification of the acceptance test of parseFmtMessages: the FMT frame at `i` and the frame check for a record of the probed FMT length |
| FmtTable.FmtOffsets | ardupilot_parse_log.c:106-151 | specification of which FMT records are kept: the first 256 accepted offsets of the range `0 .. log_size - fmt_length` |
| FmtTable.FormatTable | ardupilot_parse_log.c:106-157 | specification of the table parseFmtMessages builds: the entries read at the kept offsets, in order |
| FmtTable.FmtScanDefined | ardupilot_parse_log.c:111-145 | the condition under which the C loop stays inside the log: FMT length between 3 and the log length, and every kept record's 89-byte field block inside the log |
| Parser.LogParser.ReadFmtRecord | ardupilot_parse_log.c:114-145 | the entry read at offset `i` has type `log[i+3]`, length `log[i+4]` and the three fixed-width fields cut at their first zero byte |
| Parser.LogParser.ParseFmtMessages | ardupilot_parse_log.c:106-157 | the filled table is the format table of the log, success holds exactly when it is non-empty, and the warning is raised exactly when it holds 256 entries |
| Parser.LogParser.AppendFmtRecord | ardupilot_parse_log.c:113-147 | an accepted offset appends the record read there to the table |
| Parser.LogParser.TableFull | ardupilot_parse_log.c:148-151 | the table that reached 256 entries is the whole format table |
| Parser.LogParser.TableDone | ardupilot_parse_log.c:111-156 | proof step: the table built by the completed loop below the cap is the whole format table |
| FmtTable.CandidatesBelow | ardupilot_parse_log.c:111-113 | the accepted offsets below `n` number at most `n` and all lie below `n` |
| FmtTable.CandidatesSound | ardupilot_parse_log.c:112-113 | every listed offset holds the FMT frame and passes the frame check |
| FmtTable.CandidatesComplete | ardupilot_parse_log.c:111-113 | every accepted offset below `n` is listed |
| FmtTable.CandidatesIncreasing | ardupilot_parse_log.c:111 | the listed offsets strictly increase |
| FmtTable.CandidatesEmptyIff | ardupilot_parse_log.c:111-113 | none is listed exactly when no offset below `n` is accepted |
| FmtTable.CandidatesPrefix | ardupilot_parse_log.c:111 | the candidates below `m` are a prefix of those below any `n >= m` |
| FmtTable.PrefixIncreasing | ardupilot_parse_log.c:111 | proof step: a prefix of strictly increasing offsets is strictly increasing |
| FmtTable.CandidatesSkip | ardupilot_parse_log.c:111-113 | proof step: an offset that is not accepted adds no candidate |
| FmtTable.CandidatesFit | ardupilot_parse_log.c:114-151 | while at most 256 candidates are found, their field blocks fit in the log, since they are a prefix of the kept offsets |
| FmtTable.RecordsStep | ardupilot_parse_log.c:111-147 | below the cap, examining one more offset appends its record exactly when it is accepted, and that record's field block fits |
| FmtTable.CappedOffsets | ardupilot_parse_log.c:148-151 | once 256 candidates are found, the kept offsets are exactly those |
| FmtTable.FmtOffsetsSound | ardupilot_parse_log.c:106-157 | at most 256 offsets are kept, each an accepted FMT record in range whose fields fit, in increasing order |
| FmtTable.FmtTableEntry | ardupilot_parse_log.c:114-145 | entry `k` holds the type, length, name, format and labels read at the k-th kept offset |
| FmtTable.FmtTableComplete | ardupilot_parse_log.c:111-151 | below the cap, no accepted FMT record is missing from the table |
| FmtTable.FmtTableEmptyIff | ardupilot_parse_log.c:156 | the table is empty, and so the parse fails, exactly when no offset holds an acceptable FMT record |
| MsgFilter.NameMatches | ardupilot_parse_log.c:248-249 | specification of `strcmp(name, filterName) == 0`: the entry's name equals the filter name read as a C string |
| MsgFilter.NameHitFrom | ardupilot_parse_log.c:248-254 | specification of the inner name search from entry `j`: the type of the first entry at or after `j` whose name equals the requested C string, or nothing |
| MsgFilter.IdHit | ardupilot_parse_log.c:266-273 | specification of the inner id search: the id itself when some entry declares it, or nothing |
| MsgFilter.ResolveNames | ardupilot_parse_log.c:243-257 | specification of the name branch: the concatenated contributions of the names, in order |
| MsgFilter.ResolveIds | ardupilot_parse_log.c:261-274 | specification of the numeric branch: the concatenated contributions of the ids, in order |
| MsgFilter.ResolveFilter | ardupilot_parse_log.c:232-278 | specification of validateMessageFilter: no ids without a filter, else the ids of the branch for the filter's shape |
| MsgFilter.Selected | ardupilot_parse_log.c:176-187 | specification of shouldParse: every type when no id was resolved, else exactly the resolved ones |
| MsgFilter.NameHitFirst | ardupilot_parse_log.c:248-253 | a name contributes the type of the first entry carrying that name |
| MsgFilter.NameHitSound | ardupilot_parse_log.c:248-253 | a name contributes at most one id, always the type of an entry carrying the name, and nothing exactly when no entry does |
| MsgFilter.ResolveNamesSound | ardupilot_parse_log.c:243-257 | at most one id per name, each the type of an entry whose name was requested |
| MsgFilter.ResolveNamesComplete | ardupilot_parse_log.c:243-257 | every requested name that some entry carries contributes the type of the first such entry |
| MsgFilter.ResolveIdsIff | ardupilot_parse_log.c:263-274 | an id is resolved exactly when it was requested and the table declares it |
| MsgFilter.ResolvedIdsDeclared | ardupilot_parse_log.c:232-278 | every resolved id is the type of some table entry |
| MsgFilter.ResolveEmptyIff | ardupilot_parse_log.c:234-238 | no id is resolved exactly when the filter is absent, empty or matches nothing, and then every type is selected |
| MsgFilter.ResolveNamesEmptyIff | ardupilot_parse_log.c:243-257 | a name filter resolves nothing exactly when no requested name is carried by any entry |
| MsgFilter.ResolveIdsEmptyIff | ardupilot_parse_log.c:263-274 | an id filter resolves nothing exactly when no requested id is declared |
| MsgFilter.ResolveNamesStep | ardupilot_parse_log.c:243-254 | proof step: one more name appends exactly what that name contributes |
| MsgFilter.ResolveIdsStep | ardupilot_parse_log.c:263-273 | proof step: one more id appends exactly what that id contributes |
| MsgFilter.ResolveNamesPrefix | ardupilot_parse_log.c:243-251 | the ids resolved from a prefix of the names are never more than from all of them |
| MsgFilter.ResolveIdsPrefix | ardupilot_parse_log.c:263-270 | the ids resolved from a prefix of the ids are never more than from all of them |
| Parser.LogParser.ValidateMessageFilter | ardupilot_parse_log.c:232-278 | `validIds[0 .. validCount)` are exactly the resolved ids |
| Parser.LogParser.ResolveNamesInto | ardupilot_parse_log.c:240-257 | the name branch stores exactly the ids resolved from the names |
| Parser.LogParser.ResolveIdsInto | ardupilot_parse_log.c:258-275 | the id branch stores exactly the ids resolved from the ids |
| Parser.LogParser.FindName | ardupilot_parse_log.c:248-254 | the inner search finds the type of the first entry whose name equals the requested C string, or nothing |
| Parser.LogParser.FindId | ardupilot_parse_log.c:267-273 | the inner search succeeds exactly when some entry declares the id |
| Parser.ShouldParse | ardupilot_parse_log.c:177-185 | a type is parsed exactly when no id was resolved or it is among the resolved ids |
| Parser.LookupFor | ardupilot_parse_log.c:164-198 | specification of the lookup table the scan uses: the setup loop's table for the ids the filter resolves to |
| Dispatch.LookupTable | ardupilot_parse_log.c:169-198 | specification of msgIdToIndex after the setup loop: the lookup after visiting every table entry |
| Dispatch.LookupAfter | ardupilot_parse_log.c:169-198 | the lookup table has 256 entries, each -1 or the index of an entry already visited |
| Dispatch.LookupAfterChoice | ardupilot_parse_log.c:172-198 | after `n` entries, id `t` maps to the last selected entry of type `t` among them, or to -1 when there is none |
| Dispatch.LookupTableChoice | ardupilot_parse_log.c:169-198 | id `t` maps to the largest index of a format of type `t` when `t` is selected, and to -1 otherwise |
| MessageBuffer.Unused | ardupilot_parse_log.c:62-63 | specification of a list slot left by the memset: unallocated, with every field zero |
| Parser.LogParser.constructor | ardupilot_parse_log.c:62-65 | the zeroed parser: empty table, zero counters, every list slot unused |
| Parser.LogParser.SetUpLists | ardupilot_parse_log.c:168-198 | builds the lookup table for the resolved ids, and gives exactly the selected entries an empty list of capacity 1000 with their type and length |
| Parser.LogParser.SetUpEntry | ardupilot_parse_log.c:173-197 | one visit of the setup loop extends the lookup table and the lists by entry `i` |
| Parser.LogParser.LookupHasLists | ardupilot_parse_log.c:207-212 | every index the lookup table dispatches to holds an allocated list, so the `indices != NULL` test always passes |
| MessageBuffer.NewList | ardupilot_parse_log.c:189-194 | a new list is allocated and empty, has capacity 1000, and carries the format's type and length |
| MessageBuffer.Added | ardupilot_parse_log.c:301-313 | count goes up by one, the new offset and payload are appended after the earlier ones, which stay unchanged, count stays within capacity, and capacity doubles exactly when the buffers were full |
| Parser.LogParser.AcceptAt | ardupilot_parse_log.c:211-223 | the accepted branch agrees with the scan function: the record is appended to its own list and the scan jumps past it |
| Parser.LogParser.AddRecord | ardupilot_parse_log.c:215-220 | the accepted record is appended to its own list only, and the total goes up by one |
| Parser.LogParser.ScanAt | ardupilot_parse_log.c:201-224 | one loop visit at `pos` agrees with the scan function: it appends the accepted record and jumps past it, or moves one byte on |
| Parser.LogParser.ScanMessages | ardupilot_parse_log.c:200-227 | every list ends up holding exactly its format's records from the scan, in order, the total counts all of them, and no list changes its type, length or allocation |
| Parser.LogParser.ParseAllMessages | ardupilot_parse_log.c:159-230 | exactly the selected entries get lists, and each holds its format's records from the scan under the lookup table built for the filter |
| Parser.LogParser.ParseLog | ardupilot_parse_log.c:73-83 | probe, then table, then lists; the call fails exactly when the table is empty, and then no list is touched |
| Scanner.RecordAt | ardupilot_parse_log.c:201-213 | specification of the acceptance test of the scan: header at `pos`, a dispatched type id, a record that fits, and the frame check |
| Scanner.ScanFrom | ardupilot_parse_log.c:200-227 | specification of the scan loop from `pos`: an accepted record is emitted and the scan jumps past it, otherwise it moves one byte on |
| Scanner.ScanLog | ardupilot_parse_log.c:200-227 | specification of the whole scan: the scan from offset 0 |
| Scanner.ScanAccept | ardupilot_parse_log.c:211-223 | proof step: a record accepted at `pos` is emitted with offset `pos+1` and payload `log[pos+3 .. pos+len)`, and the scan resumes at `pos+len` |
| Scanner.ScanSkip | ardupilot_parse_log.c:200-207 | proof step: without an accepted record the scan resumes at `pos+1` |
| Scanner.ScanSound | ardupilot_parse_log.c:200-221 | every extracted record was accepted at its offset minus one, dispatched to its format, and its payload is the slice after its frame |
| Scanner.ScanDisjoint | ardupilot_parse_log.c:223 | extracted records never overlap: each starts at or after the end of every earlier one |
| Scanner.ConsDisjoint | ardupilot_parse_log.c:223 | a record placed before non-overlapping later ones keeps the sequence non-overlapping |
| Scanner.ScanIncreasing | ardupilot_parse_log.c:200-223 | the offsets of all extracted records strictly increase |
| Scanner.ScanComplete | ardupilot_parse_log.c:200-224 | every record the scan accepts at or after `pos`, unless it starts strictly inside an extracted record, is extracted: a skipped false header match does not lose the records after it |
| Scanner.DisjointIncreasing | ardupilot_parse_log.c:223 | non-overlapping records of positive length have strictly increasing offsets |
| Scanner.OffsetsOf | ardupilot_parse_log.c:209-219 | specification of what addMessageData stores in the `indices` of the list of format `k`: the offsets of that format's records, in scan order |
| Scanner.PayloadsOf | ardupilot_parse_log.c:214-219 | specification of what addMessageData stores in the `data` of the list of format `k`: the payloads of that format's records, in scan order |
| Scanner.ListsAppend | ardupilot_parse_log.c:209-219 | proof step: one more record extends the list of its own format, and no other list |
| Scanner.ListEntry | ardupilot_parse_log.c:209-219 | entry `m` of the list of format `k` is a record of format `k` from the scan |
| Scanner.ListLengths | ardupilot_parse_log.c:310-312 | a list has as many payloads as offsets, and each offset is that of some scanned record |
| Scanner.ListIncreasing | ardupilot_parse_log.c:310-312 | a list picks its records out of the scan in order, so its offsets increase with the scan's |
| Scanner.ListEntrySound | ardupilot_parse_log.c:200-219 | every list entry is a record accepted where it lies, it dispatches to the list's format, and its payload is the bytes after its frame |
| Scanner.ListOffsetsIncreasing | ardupilot_parse_log.c:200-223 | within each format's list the recorded offsets strictly increase |
| Scanner.ListHas | ardupilot_parse_log.c:209-219 | every record of the scan reaches the list of its own format |
| Scanner.ListComplete | ardupilot_parse_log.c:200-219 | every record the scan accepts where no extracted record overlaps it is in the list of the format its type id dispatches to, at its offset plus one |
| Parser.LogParser.ListsComplete | ardupilot_parse_log.c:200-219 | once the lists hold the scan, every record accepted where no extracted record overlaps it is in the allocated list its type id dispatches to |
| Parser.ScanOnlySelected | ardupilot_parse_log.c:177-213 | every extracted record carries a selected type id and goes to the last table entry of that type |

## Left out

- The `mexFunction` argument checks, the error and warning calls, and the cast of the header
  doubles to bytes (ardupilot_parse_log.c:53-71) are MATLAB glue and are not modelled. The header
  arrives as two bytes. The overflow warning is an out-parameter flag. The one failure that the
  C code raises as an error is the `NoFormats` outcome of `ParseLog`.
- Decoding the filter from MATLAB values (`mxIsCell`, `mxIsChar`, `mxArrayToString`, the
  `(unsigned char)` cast of the numeric ids, at ardupilot_parse_log.c:240-264) is host glue. A
  filter arrives as `NoFilter`, `ByName` or `ById`. A cell that is not a string, and any input of
  neither shape, is assumed already dropped.
- `createOutputStruct` (ardupilot_parse_log.c:315-380) and `cleanupParser`
  (ardupilot_parse_log.c:382-398) only marshal and free memory. They are not modelled.
- mxMalloc, mxRealloc and mxFree are not modelled. A list's buffers are sequences of `capacity`
  slots, and each payload is a copy stored with its list. Reallocation keeps the filled prefix,
  as mxRealloc does. That a reallocation may move the buffers is not modelled.
- `validateMessageFilter` always returns 1. `ValidateMessageFilter` drops that result.
  `FindFmtLength` and `ParseAllMessages` keep the result as an `ok` that is proved true. `ParseLog`
  never branches on it, because the error branches at ardupilot_parse_log.c:73-75 and 81-83 are
  dead.
- The C `isValidMessage` also takes a type id it never uses. The model leaves it out.
- Parser.LogParser.FindFmtLength: it requires at least 5 log bytes. Below that, the C bound
  `log_size - 5` wraps and the loop reads past the log.
- Parser.LogParser.ParseFmtMessages: it requires `FmtScanDefined`. Outside it, one of three things
  happens in the C: the loop bound `log_size - fmt_length` wraps, the 3-byte frame comparison reads
  past the log, or the 89-byte field copy of a record the table keeps reads past the log.
- Parser.LogParser.ValidateMessageFilter: it requires at most 256 resolved ids. More would
  overflow the C `validIds` buffer.
- Parser.LogParser.ParseAllMessages: it requires `DispatchLengthsSafe`, so every dispatched
  format declares a length of at least 3. Below 3, the C payload length `fmt->length - 3` wraps
  around `size_t`, so the `mxMalloc` of the payload fails. Even past that, for length 0 the skip
  `pos += fmt->length - 1` and the loop's `pos++` leave `pos` where it was, and the scan stalls.
  The guard covers every format the lookup table dispatches to, including formats whose records
  the scan never accepts. For those formats the C is harmless, so the model excludes a few logs
  that the C parses.
- Parser.LogParser.ScanMessages: on a log under 2 bytes it stops at once, whereas the C bound
  `log_size - 2` wraps there. `ParseLog` requires 5 bytes, so this case cannot arise through it.
- The C code writes `validIds` and the per-format structs through pointers. The model writes
  `fmtMessages`, `messages` and `validIds` arrays directly, in the same order.
- `ValidateMessageFilter` and the loops of `parseFmtMessages`, the setup and the scan are each
  split into a method per loop body: `AppendFmtRecord`, `ResolveNamesInto`, `ResolveIdsInto`,
  `FindName`, `FindId`, `SetUpEntry`, `ScanAt`, `AcceptAt` and `AddRecord`. Together they do what the C
  does, in the same order.
