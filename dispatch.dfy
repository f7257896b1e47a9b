/** The 256-entry table msgIdToIndex that parseAllMessages builds before its
    scan: it maps a type id to the index of the format that handles it, or -1. */
module Dispatch {
  import opened Framing
  import opened FmtTable
  import opened MsgFilter

  /** msgIdToIndex after the setup loop has visited the table entries below
      `n`: each selected entry writes its index under its type id, so a later
      entry of the same type overwrites an earlier one. */
  function LookupAfter(fmts: seq<FmtRecord>, validIds: seq<byte>, n: nat): (lookup: seq<int>)
    requires n <= |fmts|
    ensures |lookup| == MaxMsgTypes
    ensures forall t :: 0 <= t < MaxMsgTypes ==> -1 <= lookup[t] < n
    decreases n
  {
    if n == 0 then seq(MaxMsgTypes, _ => -1)
    else
      var prev := LookupAfter(fmts, validIds, n - 1);
      if Selected(validIds, fmts[n - 1].typeId) then prev[fmts[n - 1].typeId := n - 1] else prev
  }

  /** msgIdToIndex once the whole format table has been visited. */
  function LookupTable(fmts: seq<FmtRecord>, validIds: seq<byte>): seq<int>
  {
    LookupAfter(fmts, validIds, |fmts|)
  }

  /** A lookup table of 256 entries, each -1 or an index into the format table. */
  predicate LookupInRange(fmts: seq<FmtRecord>, lookup: seq<int>)
  {
    |lookup| == MaxMsgTypes && forall t :: 0 <= t < MaxMsgTypes ==> -1 <= lookup[t] < |fmts|
  }

  /** Every format the lookup table dispatches to declares a record length of
      at least the 3 frame bytes. Below that the C scan computes a negative
      payload length, and at length 0 the skip leaves the scan where it was. */
  predicate DispatchLengthsSafe(fmts: seq<FmtRecord>, lookup: seq<int>)
    requires LookupInRange(fmts, lookup)
  {
    forall t :: 0 <= t < MaxMsgTypes && lookup[t] >= 0 ==> fmts[lookup[t]].length >= FrameLength
  }

  lemma {:induction false} LookupAfterChoice(fmts: seq<FmtRecord>, validIds: seq<byte>, n: nat, t: byte)
    requires n <= |fmts|
    ensures var l := LookupAfter(fmts, validIds, n)[t];
      && (l >= 0 ==> fmts[l].typeId == t && Selected(validIds, t)
                     && forall j :: l < j < n ==> fmts[j].typeId != t)
      && (l == -1 <==> !Selected(validIds, t) || forall j :: 0 <= j < n ==> fmts[j].typeId != t)
    decreases n
  {
    if n > 0 {
      LookupAfterChoice(fmts, validIds, n - 1, t);
    }
  }

  /** Last write wins: id `t` maps to the largest index of a format of type
      `t`, provided `t` is selected, and to -1 when no selected format has
      type `t`. */
  lemma LookupTableChoice(fmts: seq<FmtRecord>, validIds: seq<byte>, t: byte)
    ensures var l := LookupTable(fmts, validIds)[t];
      && (l >= 0 ==> l < |fmts| && fmts[l].typeId == t && Selected(validIds, t)
                     && forall j :: l < j < |fmts| ==> fmts[j].typeId != t)
      && (l == -1 <==> !Selected(validIds, t) || forall j :: 0 <= j < |fmts| ==> fmts[j].typeId != t)
  {
    LookupAfterChoice(fmts, validIds, |fmts|, t);
  }
}
